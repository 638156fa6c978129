/**
  Which relays the scanner probes, and what it records for a relay whose
  probe succeeds (`check_run_mode` and `find_best_server` in src/main.rs).
 */
module Filter {
  import opened Options
  import opened Relay

  /**
    The run-mode selector: "ram" keeps only relays that boot from RAM,
    "disk" only those that boot from disk, and any other string keeps all.
   */
  function CheckRunMode(stboot: bool, runMode: string): (ok: bool)
    ensures runMode == "ram" ==> (ok <==> stboot)
    ensures runMode == "disk" ==> (ok <==> !stboot)
    ensures runMode != "ram" && runMode != "disk" ==> ok
  {
    match runMode
    case "ram" => stboot
    case "disk" => !stboot
    case _ => true
  }

  /** The user's selection: optional country code, minimum port speed (Gbps), run mode. */
  datatype Criteria = Criteria(country: Option<string>, portSpeed: u32, runMode: string)

  /**
    The admission test of `find_best_server`. The country code is compared
    by exact string equality: the user's input is not case-folded.
   */
  predicate Admits(s: Server, c: Criteria)
  {
    && (c.country.None? || c.country.value == s.countryCode)
    && s.networkPortSpeed >= c.portSpeed
    && CheckRunMode(s.stboot, c.runMode)
  }

  /** The result record built from a relay and its measured mean round-trip time. */
  function ResultFor(s: Server, avg: real): ResultData
  {
    ResultData(s.hostname, s.cityName, s.countryName, s.serverType, s.ipv4AddrIn, avg, s.networkPortSpeed)
  }

  /**
    `find_best_server`: an admitted relay is probed at its IPv4 address and,
    when the probe yields a mean, becomes a result carrying the relay's
    metadata; every other relay yields nothing. The probe (the `ping`
    subprocess) is a parameter.
   */
  function FindBestServer(s: Server, c: Criteria, probe: string -> Option<real>): (r: Option<ResultData>)
    ensures r.Some? <==> Admits(s, c) && probe(s.ipv4AddrIn).Some?
    ensures r.Some? ==>
      && r.value.hostname == s.hostname
      && r.value.city == s.cityName
      && r.value.country == s.countryName
      && r.value.serverType == s.serverType
      && r.value.ip == s.ipv4AddrIn
      && r.value.avg == probe(s.ipv4AddrIn).value
      && r.value.networkPortSpeed == s.networkPortSpeed
  {
    if Admits(s, c) then
      match probe(s.ipv4AddrIn)
      case Some(avg) => Some(ResultFor(s, avg))
      case None => None
    else
      None
  }

  /**
    A relay that is not admitted is never probed: whatever the probe would
    have answered, the outcome is the same empty one.
   */
  lemma RejectedIgnoresProbe(s: Server, c: Criteria, p1: string -> Option<real>, p2: string -> Option<real>)
    requires !Admits(s, c)
    ensures FindBestServer(s, c, p1) == FindBestServer(s, c, p2) == None
  {
  }

  /**
    The run-mode part of the decision: for "ram" and "disk" it depends on
    nothing but `stboot`, and for every other mode it is identically true,
    so the whole admission then depends only on country and port speed.
   */
  lemma RunModeOnlyReadsStboot(s: Server, t: Server, c: Criteria)
    requires s.countryCode == t.countryCode && s.networkPortSpeed == t.networkPortSpeed
    ensures s.stboot == t.stboot ==> (Admits(s, c) <==> Admits(t, c))
    ensures c.runMode != "ram" && c.runMode != "disk" ==> (Admits(s, c) <==> Admits(t, c))
  {
  }

  /** The country filter is case-sensitive: "US" does not select a relay whose code is "us". */
  lemma CountryMatchIsCaseSensitive(s: Server)
    requires s.countryCode == "us"
    ensures !Admits(s, Criteria(Some("US"), 0, "all"))
  {
    assert "US"[0] != "us"[0];
  }
}
