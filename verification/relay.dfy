/**
  The records of the relay scanner: a relay as decoded from the provider's
  catalogue (`ServerData` in src/main.rs) and the per-relay outcome of a
  successful latency probe (`ResultData`).
 */
module Relay {
  import opened Options

  /** Rust's `u32`: the catalogue's port speed and the minimum-speed filter. */
  type u32 = n: nat | n < 0x1_0000_0000

  /** Rust's `u16`: the optional port numbers some relay families carry. */
  type u16 = n: nat | n < 0x1_0000

  datatype StatusMessage = StatusMessage(message: string, timestamp: string)

  /**
    One relay of the catalogue. Only `hostname`, the country fields,
    `cityName`, `ipv4AddrIn`, `networkPortSpeed`, `stboot` and `serverType`
    are read by the scanner; the rest are decoded and carried along.
    `stboot` is true when the relay boots from RAM and false when it boots
    from disk.
   */
  datatype Server = Server(
    hostname: string,
    countryCode: string,
    countryName: string,
    cityCode: Option<string>,
    cityName: string,
    active: bool,
    owned: bool,
    provider: string,
    ipv4AddrIn: string,
    ipv6AddrIn: Option<string>,
    networkPortSpeed: u32,
    stboot: bool,
    serverType: Option<string>,
    statusMessages: Option<seq<StatusMessage>>,
    pubkey: Option<string>,
    multihopPort: Option<u16>,
    socksName: Option<string>,
    socksPort: Option<u16>
  )

  /**
    The outcome of probing one admitted relay: catalogue metadata plus the
    mean round-trip time `avg` in milliseconds.
   */
  datatype ResultData = ResultData(
    hostname: string,
    city: string,
    country: string,
    serverType: Option<string>,
    ip: string,
    avg: real,
    networkPortSpeed: u32
  )
}
