/**
  The probing mode of the scanner (src/main.rs:152-178): every relay of the
  catalogue goes through `find_best_server`, the successful outcomes are
  drained from a channel in whatever order the probes finish, and the
  drained list is ranked.
 */
module Scan {
  import opened Options
  import opened Relay
  import opened Filter
  import opened Ranking

  /**
    The outcomes of the whole catalogue in catalogue order. The program
    receives them in completion order instead, which is any rearrangement
    of this list.
   */
  function Collect(catalog: seq<Server>, c: Criteria, probe: string -> Option<real>): (r: seq<ResultData>)
    ensures |r| <= |catalog|
    ensures forall x :: x in r ==> exists s :: s in catalog && FindBestServer(s, c, probe) == Some(x)
    ensures forall s :: s in catalog && Admits(s, c) && probe(s.ipv4AddrIn).Some? ==>
      FindBestServer(s, c, probe).value in r
  {
    if catalog == [] then []
    else
      var head := match FindBestServer(catalog[0], c, probe)
        case Some(x) => [x]
        case None => [];
      var r := head + Collect(catalog[1..], c, probe);
      assert forall s :: s in catalog ==> s == catalog[0] || s in catalog[1..];
      r
  }

  /** Positions in the catalogue of the relays that `keep` selects. */
  ghost function Positions(catalog: seq<Server>, keep: Server -> bool): set<nat>
  {
    set i: nat | i < |catalog| && keep(catalog[i])
  }

  /** Every element of `s` plus one. */
  ghost function Shift(s: set<nat>): set<nat>
  {
    set i | i in s :: i + 1
  }

  /** Adding one to every element of a set keeps its size. */
  lemma {:induction false} ShiftedSize(s: set<nat>)
    ensures |Shift(s)| == |s|
    decreases |s|
  {
    if s == {} {
      assert Shift(s) == {};
    } else {
      var m :| m in s;
      var rest := s - {m};
      ShiftedSize(rest);
      var all, shiftedRest := Shift(s), Shift(rest);
      forall j | j in all
        ensures j in shiftedRest + {m + 1}
      {
        var i :| i in s && j == i + 1;
        if i != m {
          assert i in rest;
        }
      }
      assert all == shiftedRest + {m + 1};
      assert m + 1 !in shiftedRest;
      assert |all| == |shiftedRest| + 1;
      assert s == rest + {m} && m !in rest;
      assert |s| == |rest| + 1;
    }
  }

  /** The positions selected in `catalog[1..]`, renumbered to their positions in `catalog`. */
  lemma PositionsInTail(catalog: seq<Server>, keep: Server -> bool)
    requires catalog != []
    ensures Positions(catalog, keep) - {0} == Shift(Positions(catalog[1..], keep))
  {
    var tail := catalog[1..];
    var shifted := Shift(Positions(tail, keep));
    forall j | j in Positions(catalog, keep) - {0}
      ensures j in shifted
    {
      assert catalog[j] == tail[j - 1];
      assert j - 1 in Positions(tail, keep);
    }
    forall j | j in shifted
      ensures j in Positions(catalog, keep) - {0}
    {
      var i :| i in Positions(tail, keep) && j == i + 1;
      assert catalog[j] == tail[i];
    }
  }

  /** The first relay adds its own position to those the rest contribute exactly when it is selected. */
  lemma PositionsStep(catalog: seq<Server>, keep: Server -> bool)
    requires catalog != []
    ensures |Positions(catalog, keep)| == |Positions(catalog[1..], keep)| + (if keep(catalog[0]) then 1 else 0)
  {
    var all := Positions(catalog, keep);
    PositionsInTail(catalog, keep);
    ShiftedSize(Positions(catalog[1..], keep));
    if keep(catalog[0]) {
      assert 0 in all;
      assert all == (all - {0}) + {0};
    } else {
      assert 0 !in all;
      assert all == all - {0};
    }
  }

  /** Whether a relay is admitted and its probe succeeds. */
  ghost function Succeeds(c: Criteria, probe: string -> Option<real>): Server -> bool
  {
    s => Admits(s, c) && probe(s.ipv4AddrIn).Some?
  }

  /** Positions in the catalogue of the relays that are admitted and whose probe succeeds. */
  ghost function Succeeded(catalog: seq<Server>, c: Criteria, probe: string -> Option<real>): set<nat>
  {
    Positions(catalog, Succeeds(c, probe))
  }

  /**
    Each admitted relay whose probe succeeds contributes exactly one
    outcome: there are as many outcomes as such relays.
   */
  lemma {:induction false} CollectHasOnePerSuccess(catalog: seq<Server>, c: Criteria, probe: string -> Option<real>)
    ensures |Collect(catalog, c, probe)| == |Succeeded(catalog, c, probe)|
  {
    if catalog == [] {
      assert Succeeded(catalog, c, probe) == {};
    } else {
      CollectHasOnePerSuccess(catalog[1..], c, probe);
      PositionsStep(catalog, Succeeds(c, probe));
    }
  }

  /** Whether a relay's outcome is the record `x`. */
  ghost function YieldsRecord(c: Criteria, probe: string -> Option<real>, x: ResultData): Server -> bool
  {
    s => FindBestServer(s, c, probe) == Some(x)
  }

  /** Positions in the catalogue of the relays whose outcome is the record `x`. */
  ghost function Yields(catalog: seq<Server>, c: Criteria, probe: string -> Option<real>, x: ResultData): set<nat>
  {
    Positions(catalog, YieldsRecord(c, probe, x))
  }

  /** The first relay adds one copy of its own outcome to those of the rest. */
  lemma CollectStep(catalog: seq<Server>, c: Criteria, probe: string -> Option<real>, x: ResultData)
    requires catalog != []
    ensures multiset(Collect(catalog, c, probe))[x] ==
      multiset(Collect(catalog[1..], c, probe))[x] + (if FindBestServer(catalog[0], c, probe) == Some(x) then 1 else 0)
  {
  }

  /**
    Each record occurs among the outcomes once per relay that yields it,
    even when two relays yield the same record.
   */
  lemma {:induction false} CollectCountsEachRecord(catalog: seq<Server>, c: Criteria, probe: string -> Option<real>, x: ResultData)
    ensures multiset(Collect(catalog, c, probe))[x] == |Yields(catalog, c, probe, x)|
  {
    if catalog == [] {
      assert Yields(catalog, c, probe, x) == {};
    } else {
      CollectCountsEachRecord(catalog[1..], c, probe, x);
      CollectStep(catalog, c, probe, x);
      PositionsStep(catalog, YieldsRecord(c, probe, x));
    }
  }

  /** The drained channel holds exactly the successful outcomes, in some order. */
  ghost predicate IsArrivalOrder(arrival: seq<ResultData>, catalog: seq<Server>, c: Criteria, probe: string -> Option<real>)
  {
    multiset(arrival) == multiset(Collect(catalog, c, probe))
  }

  /**
    Only admitted relays whose probe succeeded are ranked, each with its
    own metadata and measured mean, and the ranking is as long as the
    count asks for when enough probes succeeded.
   */
  lemma RankedRelaysWereAdmitted(catalog: seq<Server>, c: Criteria, probe: string -> Option<real>, arrival: seq<ResultData>, topN: nat)
    requires IsArrivalOrder(arrival, catalog, c, probe)
    ensures forall x :: x in Rank(arrival, topN) ==>
      exists s :: s in catalog && Admits(s, c) && FindBestServer(s, c, probe) == Some(x)
    ensures |Rank(arrival, topN)| == Min(|Succeeded(catalog, c, probe)|, topN)
  {
    var r := Rank(arrival, topN);
    var collected := Collect(catalog, c, probe);
    CollectHasOnePerSuccess(catalog, c, probe);
    forall x | x in r
      ensures exists s :: s in catalog && Admits(s, c) && FindBestServer(s, c, probe) == Some(x)
    {
      assert x in multiset(r);
      assert x in multiset(arrival);
      assert x in collected;
    }
    assert |arrival| == |collected| by {
      assert |multiset(arrival)| == |multiset(collected)|;
    }
  }

  /**
    With the help text's reading of the count, zero shows the outcome of
    every relay whose probe succeeded, one entry per such relay; any other
    count shows at most that many.
   */
  lemma IntendedCountShowsAllSuccesses(catalog: seq<Server>, c: Criteria, probe: string -> Option<real>, arrival: seq<ResultData>, topN: nat)
    requires IsArrivalOrder(arrival, catalog, c, probe)
    ensures topN == 0 ==> |RankIntended(arrival, topN)| == |Succeeded(catalog, c, probe)|
    ensures topN == 0 ==> forall s :: s in catalog && Admits(s, c) && probe(s.ipv4AddrIn).Some? ==>
      FindBestServer(s, c, probe).value in RankIntended(arrival, topN)
    ensures topN == 0 ==> multiset(RankIntended(arrival, topN)) == multiset(Collect(catalog, c, probe))
    ensures topN > 0 ==> |RankIntended(arrival, topN)| == Min(|Succeeded(catalog, c, probe)|, topN)
  {
    var collected := Collect(catalog, c, probe);
    CollectHasOnePerSuccess(catalog, c, probe);
    assert |arrival| == |collected| by {
      assert |multiset(arrival)| == |multiset(collected)|;
    }
    if topN == 0 {
      var r := RankIntended(arrival, 0);
      forall s | s in catalog && Admits(s, c) && probe(s.ipv4AddrIn).Some?
        ensures FindBestServer(s, c, probe).value in r
      {
        var x := FindBestServer(s, c, probe).value;
        assert x in multiset(collected);
        assert x in multiset(r);
      }
    }
  }

  /**
    When no two different outcomes tie, the ranking is the same for every
    completion order of the probes, and equals the ranking of the
    outcomes in catalogue order.
   */
  lemma RankIgnoresCompletionOrder(catalog: seq<Server>, c: Criteria, probe: string -> Option<real>, arrival: seq<ResultData>, topN: nat)
    requires IsArrivalOrder(arrival, catalog, c, probe)
    requires NoTies(Collect(catalog, c, probe))
    ensures Rank(arrival, topN) == Rank(Collect(catalog, c, probe), topN)
  {
    var collected := Collect(catalog, c, probe);
    assert forall x :: x in collected <==> x in multiset(collected);
    RankIgnoresArrivalOrderWithoutTies(collected, arrival, topN);
  }

  /** Ranking three results of 20, 10 and 30 ms with a count of two. */
  lemma RankThree(x: ResultData, y: ResultData, z: ResultData)
    requires x.avg == 20.0 && y.avg == 10.0 && z.avg == 30.0
    ensures Rank([x, y, z], 2) == [y, x]
  {
    var expected := [y, x, z];
    assert Sorted(expected);
    assert multiset(expected) == multiset([x, y, z]);
    assert NoTies(expected) by {
      forall u, v | u in expected && v in expected && u.avg == v.avg
        ensures u == v
      {
      }
    }
    var sorted := Sort([x, y, z]);
    SortedWithoutTiesUnique(expected, sorted);
    assert Rank([x, y, z], 2) == Truncate(sorted, 2);
    assert expected[..2] == [y, x];
  }

  /**
    Three relays answering in 20, 10 and 30 ms, no filter and a count of
    two: the ranking is the 10 ms relay, then the 20 ms one.
   */
  lemma FastestTwoOfThree(a: Server, b: Server, d: Server, probe: string -> Option<real>)
    requires a.networkPortSpeed >= 1 && b.networkPortSpeed >= 1 && d.networkPortSpeed >= 1
    requires probe(a.ipv4AddrIn) == Some(20.0)
    requires probe(b.ipv4AddrIn) == Some(10.0)
    requires probe(d.ipv4AddrIn) == Some(30.0)
    ensures Rank(Collect([a, b, d], Criteria(None, 1, "all"), probe), 2)
      == [ResultFor(b, 10.0), ResultFor(a, 20.0)]
  {
    var c := Criteria(None, 1, "all");
    assert [a, b, d][1..] == [b, d] && [b, d][1..] == [d] && [d][1..] == [];
    assert FindBestServer(a, c, probe) == Some(ResultFor(a, 20.0));
    assert FindBestServer(b, c, probe) == Some(ResultFor(b, 10.0));
    assert FindBestServer(d, c, probe) == Some(ResultFor(d, 30.0));
    assert Collect([d], c, probe) == [ResultFor(d, 30.0)];
    assert Collect([b, d], c, probe) == [ResultFor(b, 10.0), ResultFor(d, 30.0)];
    assert Collect([a, b, d], c, probe) == [ResultFor(a, 20.0), ResultFor(b, 10.0), ResultFor(d, 30.0)];
    RankThree(ResultFor(a, 20.0), ResultFor(b, 10.0), ResultFor(d, 30.0));
  }

  /**
    The same three relays filtered to country "us", of which only the
    first is: the ranking is that relay alone.
   */
  lemma CountryFilterKeepsOne(a: Server, b: Server, d: Server, probe: string -> Option<real>)
    requires a.countryCode == "us" && b.countryCode != "us" && d.countryCode != "us"
    requires a.networkPortSpeed >= 1
    requires probe(a.ipv4AddrIn) == Some(20.0)
    ensures Rank(Collect([a, b, d], Criteria(Some("us"), 1, "all"), probe), 2) == [ResultFor(a, 20.0)]
  {
    var c := Criteria(Some("us"), 1, "all");
    assert [a, b, d][1..] == [b, d] && [b, d][1..] == [d] && [d][1..] == [];
    assert Admits(a, c) && !Admits(b, c) && !Admits(d, c);
    assert Collect([d], c, probe) == [];
    assert Collect([b, d], c, probe) == [];
    assert Collect([a, b, d], c, probe) == [ResultFor(a, 20.0)];
    assert Sort([ResultFor(a, 20.0)]) == [ResultFor(a, 20.0)];
  }
}
