# mullscan relay ranking: a Dafny model

mullscan picks the lowest-latency Mullvad VPN relay. It fetches the relay
catalogue and keeps the relays that match the user's country, minimum port
speed and run mode (RAM or disk boot). It pings each kept relay, reads the mean
round-trip time from the `ping` summary line, ranks the answers by that mean
and prints the fastest ones. It can also list the catalogue's countries.

This project models the decision and ordering logic of `src/main.rs` with pure
functions over immutable records. It proves the properties that logic promises.

- `Relay` (relay.dfy) holds the records: `Server` (the catalogue entry,
  `ServerData`) and `ResultData` (one successful probe).
- `Filter` (filter.dfy) holds `check_run_mode`, the admission test and the
  result construction of `find_best_server`. The probe is a parameter: a
  function from an IPv4 address to an optional mean.
- `Ranking` (ranking.dfy) holds the stable sort by mean followed by
  `truncate(top_n)`. Stability is stated through `WithAvg(s, k)`, the
  subsequence of results whose mean is `k`. A stable sort leaves each of those
  subsequences unchanged. `StableSortUnique` shows that only one sorted list
  does that. So the insertion sort used here has the same outcome as the
  standard library's stable `sort_by`.
- `Countries` (countries.dfy) holds `list_countries`. It collects the
  distinct (code, name) pairs in a set and orders them by name. Names are
  compared by `LexLe`, Rust's lexicographic order on strings.
- `Summary` (summary.dfy) holds the stdout half of `ping`. It applies the
  regular expression `rtt min/avg/max/mdev = [0-9.]+/([0-9.]+)`, written
  declaratively as `MatchAt`, and returns the capture of the leftmost match.
- `Scan` (scan.dfy) holds the probing mode. `Collect` gives the successful
  outcomes in catalogue order; a rejected relay or a failed probe contributes
  nothing. The program drains them from a channel in
  completion order, so the lemmas accept any rearrangement of that list
  (`IsArrivalOrder`).

Three behaviours of the code are worth stating plainly. The model follows the
code in the first two; the third lies beyond the model and is listed under
"Left out".

- The country filter is exact, case-sensitive string equality. The user's code
  is passed through unchanged (src/main.rs:123) and compared with `==`
  (src/main.rs:214), so "US" selects nothing when the catalogue uses "us". See
  `Filter.CountryMatchIsCaseSensitive`.
- A count of 0 empties the ranking, although the help text at src/main.rs:99
  says "0=all" (see Findings).
- A captured field that is not a number, such as "." or "1.2.3", does not make
  the probe fail. It becomes a mean of 0.0 (src/main.rs:259), and the relay is
  ranked as if it answered in 0 ms. The model stops at the captured string
  (see Left out).

When two results have the same mean, the stable sort keeps them in the order
the probes finished (src/main.rs:172-176). So the printed ranking can depend on
network timing: with a count of one, either of two tied relays may be shown
(`Ranking.TiesKeepArrivalOrder`). When no two results tie, the ranking does not
depend on completion order (`Scan.RankIgnoresCompletionOrder`). A tie changes the
output only when at least one of the tied results is ranked.

## Model

| member | source | states |
|---|---|---|
| Filter.CheckRunMode | src/main.rs:234-240 | "ram" admits exactly the RAM-booted relays, "disk" exactly the disk-booted ones, and every other mode string admits every relay |
| Filter.Admits | src/main.rs:214-217 | a relay is admitted exactly when the country filter is absent or equals its country code as an exact string, its port speed is at least the minimum, and the run-mode check holds for its boot medium |
| Filter.FindBestServer | src/main.rs:206-232 | a result exists iff the relay passes the country, port-speed and run-mode tests and the probe of its IPv4 address yields a mean; that result's hostname, city, country, type, ip and port speed are the relay's and its mean is the probe's |
| Filter.RejectedIgnoresProbe | src/main.rs:214-231 | a relay that fails admission yields nothing whatever the probe would answer, so it is never probed |
| Filter.RunModeOnlyReadsStboot | src/main.rs:214-240 | with country and port speed fixed, admission depends only on the boot medium, and not even on that for modes other than "ram" and "disk" |
| Filter.CountryMatchIsCaseSensitive | src/main.rs:123 | the country filter is exact string equality: "US" does not select a relay whose code is "us" |
| Ranking.Insert | src/main.rs:176 | inserting into a sorted list keeps it sorted and adds exactly the new result |
| Ranking.InsertKeepsTies | src/main.rs:176 | the inserted result goes behind every earlier result with the same mean, and no other tie moves |
| Ranking.Sort | src/main.rs:176 | the sorted list is in non-decreasing order of mean and has exactly the input's elements |
| Ranking.SortKeepsTies | src/main.rs:176 | for every mean, the results with that mean appear in the sorted list in their input order |
| Ranking.SortIsStable | src/main.rs:176 | the sort is a sorted, stable permutation of its input |
| Ranking.StableSortUnique | src/main.rs:176 | two sorted lists that agree on the order of every group of ties are equal, so any stable sort gives the same ranking |
| Ranking.Truncate | src/main.rs:177 | truncation keeps a prefix of length min(length, n) |
| Ranking.Rank | src/main.rs:176-177 | the ranking is sorted, is a prefix of the stable sort of the results, has length min(number of results, top_n), and is empty when top_n is 0 |
| Ranking.RankIsFastest | src/main.rs:176-177 | every result left out of the ranking is at least as slow as every ranked result |
| Ranking.RankIgnoresArrivalOrderWithoutTies | src/main.rs:172-177 | when no two different results share a mean, every arrival order of the same results gives the same ranking |
| Ranking.TiesKeepArrivalOrder | src/main.rs:172-177 | of two different results with the same mean, the one that arrived first is ranked first, so with a count of one the two arrival orders show different relays |
| Ranking.RankIntended | src/main.rs:95-102 | with the help text's reading of the count, 0 keeps every result as a stable sorted permutation, and any other count ranks as the code does |
| Ranking.RankZeroDiscardsAll | src/main.rs:176-177 | with a count of 0 the code ranks no result at all, while the intended ranking of the same non-empty results is non-empty |
| Countries.LexLe | src/main.rs:199 | the order `String::cmp` uses: a proper prefix comes first, otherwise the first differing character decides |
| Countries.LexLeTotal | src/main.rs:199 | any two country names are comparable |
| Countries.LexLeTransitive | src/main.rs:199 | the name order is transitive |
| Countries.LexLeAntisymmetric | src/main.rs:199 | two names each at most the other are equal |
| Countries.InsertByName | src/main.rs:199 | inserting a pair keeps the listing ordered by name, adds exactly that pair, and keeps the listing free of duplicates |
| Countries.SortedByNamePairwise | src/main.rs:199 | in the listing every name is at most every later name |
| Countries.ListCountries | src/main.rs:191-204 | the listing contains each distinct (code, name) pair of the catalogue exactly once and no other pair, ordered by name |
| Summary.MatchAt | src/main.rs:255 | the pattern `rtt min/avg/max/mdev = [0-9.]+/([0-9.]+)` matches at a position with given run lengths: the literal, a non-empty `[0-9.]` run, `/`, then a non-empty `[0-9.]` run that the greedy `+` extends as far as it goes |
| Summary.RunLength | src/main.rs:255 | the run of `[0-9.]` characters measured at a position is entirely such characters and ends at the end of output or at another character |
| Summary.RunIsLongest | src/main.rs:255 | any run of `[0-9.]` characters that cannot be extended has the length `RunLength` computes |
| Summary.MatchRunsAreLongest | src/main.rs:255 | in a match, both runs are the longest runs at their positions |
| Summary.MatchIsUnique | src/main.rs:255 | the pattern matches in at most one way at a given position |
| Summary.MatchHere | src/main.rs:255 | trying the pattern at one position finds a match exactly when one exists there |
| Summary.FindFrom | src/main.rs:255-256 | the search returns the leftmost match at or after a position, or reports that none exists |
| Summary.SummaryAvg | src/main.rs:253-262 | no mean unless the process succeeded; otherwise a mean iff the output matches the pattern, and then it is the non-empty `[0-9.]` capture after the `/` of the leftmost match |
| Summary.LeftmostMatchIsReported | src/main.rs:255-259 | conversely, the leftmost match's capture is exactly what is returned, whatever follows it |
| Scan.Collect | src/main.rs:154-174 | there are no more collected outcomes than relays, each is the outcome of some catalogue relay, and every admitted relay with a successful probe contributes its outcome |
| Scan.CollectHasOnePerSuccess | src/main.rs:154-174 | the number of collected outcomes equals the number of catalogue positions whose relay is admitted and whose probe succeeds |
| Scan.CollectCountsEachRecord | src/main.rs:154-174 | each record occurs among the collected outcomes exactly as many times as there are catalogue positions whose relay yields it, so relays that yield identical records each contribute their own copy |
| Scan.RankedRelaysWereAdmitted | src/main.rs:152-177 | for any completion order, every ranked result comes from an admitted relay whose probe succeeded, and the ranking has min(number of such relays, top_n) entries |
| Scan.IntendedCountShowsAllSuccesses | src/main.rs:95-102 | with the help text's reading, a count of 0 shows the outcome of every admitted relay whose probe succeeded, holds exactly the collected outcomes with their multiplicities and so one entry per such relay, and any other count shows min(that number, count) entries |
| Scan.RankIgnoresCompletionOrder | src/main.rs:152-177 | without ties the ranking is the same for every completion order and equals the ranking of the catalogue-order outcomes |
| Scan.RankThree | src/main.rs:176-177 | results of 20, 10 and 30 ms with a count of two rank as the 10 ms one, then the 20 ms one |
| Scan.FastestTwoOfThree | src/main.rs:154-177 | relays answering 20, 10 and 30 ms, unfiltered, with a count of two rank as the 10 ms relay, then the 20 ms relay |
| Scan.CountryFilterKeepsOne | src/main.rs:214-217 | filtering to "us" when only one relay is in "us" ranks that relay alone |

## Findings

| source | as written | input that shows it | evidently intended | confidence | as-written member | corrected member |
|---|---|---|---|---|---|---|
| src/main.rs:177 | `truncate(top_n)` with `top_n` = 0 empties the ranking, though the help text at line 99 says 0 means all | `-n 0` with at least one relay answering: the program prints "No servers found" | a count of 0 keeps every result | high (not executed) | Ranking.RankZeroDiscardsAll | Ranking.RankIntended |

`Ranking.Rank` and the `Scan` lemmas about it model the code as written.
`Ranking.RankIntended` and `Scan.IntendedCountShowsAllSuccesses` state the
corrected behaviour.

## Left out

- Argument parsing with clap and its fallback defaults (src/main.rs:52-145) is library plumbing. The parsed values appear as parameters (`Criteria`, `topN`).
- The HTTPS catalogue fetch and JSON decoding (src/main.rs:184-189) are network I/O and a foreign decoder. The catalogue is any `seq<Server>`.
- Spawning one task per relay and draining the channel (src/main.rs:152-174) is concurrency whose only visible effect is the order of arrival. The drained list is any rearrangement of `Scan.Collect`.
- Running `ping` and reading its output (src/main.rs:242-251) is process I/O. The probe is a parameter, and `Summary.SummaryAvg` takes the exit status and standard output as inputs. A process that cannot be started yields no mean, like a failed exit. The lossy UTF-8 decoding of the output is not modelled: output is a `string`.
- The probe count and interval (src/main.rs:211-212) only reach the `ping` command line, so they are folded into the probe parameter.
- The probe is a function of the IPv4 address alone, so two catalogue relays that share an address get the same answer, whereas two concurrent `ping` processes spawned at src/main.rs:218 could report different means. No proof depends on two such relays differing.
- Parsing the captured field as `f64` with a fallback of 0.0 (src/main.rs:259) is floating-point. `Summary.SummaryAvg` returns the captured digit string. Means are `real`. A captured run that is not a number, such as "1.2.3", would become 0.0 in the program. That path is not modelled.
- NaN handling in `partial_cmp` (src/main.rs:176) is floating-point. A `[0-9.]` capture never parses to NaN, and with `real` means the order is total.
- Output formatting (src/main.rs:201-202, 265-284) is presentation only. This covers the `Top n results:` header, one-decimal means, "unknown" for a missing type, and "No servers found".
- Countries.ListCountries: pairs with equal names come out in an unspecified relative order. The program's order comes from hash-set iteration, which is also unspecified.
- Filter.RejectedIgnoresProbe: "no probe is issued" is stated as the outcome not depending on the probe, because the probe is a pure parameter rather than an effect.
