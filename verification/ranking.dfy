/**
  The ranking step of the scanner (src/main.rs:176-177): the collected
  results are sorted by mean round-trip time with a stable sort and then
  truncated to the requested count.

  Stability is stated through `WithAvg(s, k)`, the subsequence of `s`
  whose mean is exactly `k`: a sort is stable exactly when it leaves every
  such subsequence unchanged.
 */
module Ranking {
  import opened Relay

  /** Adjacent results are in non-decreasing order of mean round-trip time. */
  predicate Sorted(s: seq<ResultData>)
  {
    forall i :: 0 <= i < |s| - 1 ==> s[i].avg <= s[i + 1].avg
  }

  /** The results of `s` whose mean is exactly `k`, in their order in `s`. */
  function WithAvg(s: seq<ResultData>, k: real): seq<ResultData>
  {
    if s == [] then [] else Tie(s[0], k) + WithAvg(s[1..], k)
  }

  /** `x` alone when its mean is `k`, nothing otherwise. */
  function Tie(x: ResultData, k: real): seq<ResultData>
  {
    if x.avg == k then [x] else []
  }

  /** Same multiset and same order among ties: `t` is a stable rearrangement of `s`. */
  ghost predicate StablePermutation(s: seq<ResultData>, t: seq<ResultData>)
  {
    && multiset(s) == multiset(t)
    && forall k :: WithAvg(s, k) == WithAvg(t, k)
  }

  function Min(a: nat, b: nat): nat
  {
    if a <= b then a else b
  }

  lemma {:induction false} SortedPairwise(s: seq<ResultData>, i: int, j: int)
    requires Sorted(s)
    requires 0 <= i <= j < |s|
    ensures s[i].avg <= s[j].avg
    decreases j - i
  {
    if i < j {
      SortedPairwise(s, i + 1, j);
    }
  }

  lemma ConcatAssoc(a: seq<ResultData>, b: seq<ResultData>, c: seq<ResultData>)
    ensures a + (b + c) == (a + b) + c
  {
  }

  lemma {:induction false} WithAvgAppend(a: seq<ResultData>, b: seq<ResultData>, k: real)
    ensures WithAvg(a + b, k) == WithAvg(a, k) + WithAvg(b, k)
  {
    if a == [] {
      assert a + b == b;
    } else {
      var ab := a + b;
      assert ab[0] == a[0];
      assert ab[1..] == a[1..] + b;
      WithAvgAppend(a[1..], b, k);
      calc {
        WithAvg(ab, k);
        Tie(a[0], k) + WithAvg(a[1..] + b, k);
        Tie(a[0], k) + (WithAvg(a[1..], k) + WithAvg(b, k));
        { ConcatAssoc(Tie(a[0], k), WithAvg(a[1..], k), WithAvg(b, k)); }
        (Tie(a[0], k) + WithAvg(a[1..], k)) + WithAvg(b, k);
        WithAvg(a, k) + WithAvg(b, k);
      }
    }
  }

  /** A sorted list has no result with a mean below its head's. */
  lemma {:induction false} WithAvgBelowHead(s: seq<ResultData>, k: real)
    requires Sorted(s) && s != [] && k < s[0].avg
    ensures WithAvg(s, k) == []
  {
    if |s| > 1 {
      WithAvgBelowHead(s[1..], k);
    }
  }

  /**
    Inserts `x` after every result whose mean is at most `x.avg`: a new
    result goes behind the earlier ones it ties with.
   */
  function Insert(x: ResultData, s: seq<ResultData>): (r: seq<ResultData>)
    requires Sorted(s)
    ensures Sorted(r)
    ensures multiset(r) == multiset(s) + multiset{x}
    ensures |r| == |s| + 1
    ensures r[0] == x || (s != [] && r[0] == s[0])
  {
    if s == [] then [x]
    else if x.avg < s[0].avg then [x] + s
    else
      var tail := Insert(x, s[1..]);
      assert s == [s[0]] + s[1..];
      [s[0]] + tail
  }

  /** Inserting `x` appends it to the results it ties with and moves no other tie. */
  lemma {:induction false} InsertKeepsTies(x: ResultData, s: seq<ResultData>, k: real)
    requires Sorted(s)
    ensures WithAvg(Insert(x, s), k) == WithAvg(s, k) + Tie(x, k)
  {
    if s == [] {
      assert Insert(x, s) == [x];
      assert WithAvg([x], k) == Tie(x, k) + WithAvg([], k);
    } else if x.avg < s[0].avg {
      InsertInFrontKeepsTies(x, s, k);
    } else {
      InsertKeepsTies(x, s[1..], k);
      InsertBehindKeepsTies(x, s, k);
    }
  }

  lemma InsertInFrontKeepsTies(x: ResultData, s: seq<ResultData>, k: real)
    requires Sorted(s) && s != [] && x.avg < s[0].avg
    ensures WithAvg(Insert(x, s), k) == WithAvg(s, k) + Tie(x, k)
  {
    var r := [x] + s;
    assert Insert(x, s) == r;
    assert r[0] == x && r[1..] == s;
    if k == x.avg {
      WithAvgBelowHead(s, k);
    }
  }

  lemma InsertBehindKeepsTies(x: ResultData, s: seq<ResultData>, k: real)
    requires Sorted(s) && s != [] && !(x.avg < s[0].avg)
    requires WithAvg(Insert(x, s[1..]), k) == WithAvg(s[1..], k) + Tie(x, k)
    ensures WithAvg(Insert(x, s), k) == WithAvg(s, k) + Tie(x, k)
  {
    var tail := Insert(x, s[1..]);
    var r := [s[0]] + tail;
    assert Insert(x, s) == r;
    assert r[0] == s[0] && r[1..] == tail;
    calc {
      WithAvg(r, k);
      Tie(s[0], k) + WithAvg(tail, k);
      Tie(s[0], k) + (WithAvg(s[1..], k) + Tie(x, k));
      { ConcatAssoc(Tie(s[0], k), WithAvg(s[1..], k), Tie(x, k)); }
      (Tie(s[0], k) + WithAvg(s[1..], k)) + Tie(x, k);
      WithAvg(s, k) + Tie(x, k);
    }
  }

  /**
    Sorts by mean round-trip time, inserting the results front to back;
    `SortIsStable` shows that ties keep their order.
   */
  function Sort(s: seq<ResultData>): (r: seq<ResultData>)
    ensures Sorted(r)
    ensures |r| == |s|
    ensures multiset(r) == multiset(s)
  {
    if s == [] then []
    else
      assert s == s[..|s| - 1] + [s[|s| - 1]];
      Insert(s[|s| - 1], Sort(s[..|s| - 1]))
  }

  lemma {:induction false} SortKeepsTies(s: seq<ResultData>, k: real)
    ensures WithAvg(Sort(s), k) == WithAvg(s, k)
  {
    if s != [] {
      var init, last := s[..|s| - 1], s[|s| - 1];
      assert s == init + [last];
      SortKeepsTies(init, k);
      WithAvgAppend(init, [last], k);
      InsertKeepsTies(last, Sort(init), k);
    }
  }

  /** `Sort` is a stable sort: a sorted rearrangement that keeps every tie in order. */
  lemma SortIsStable(s: seq<ResultData>)
    ensures Sorted(Sort(s))
    ensures StablePermutation(s, Sort(s))
  {
    forall k
      ensures WithAvg(s, k) == WithAvg(Sort(s), k)
    {
      SortKeepsTies(s, k);
    }
  }

  /** Rust's `Vec::truncate`: keeps the first `n` elements, or all when there are fewer. */
  function Truncate(s: seq<ResultData>, n: nat): (r: seq<ResultData>)
    ensures |r| == Min(|s|, n)
    ensures r <= s
  {
    if n >= |s| then s else s[..n]
  }

  /**
    The ranking as the code computes it: stable sort, then `truncate(top_n)`.
    With `topN == 0` this is the empty list.
   */
  function Rank(results: seq<ResultData>, topN: nat): (r: seq<ResultData>)
    ensures Sorted(r)
    ensures |r| == Min(|results|, topN)
    ensures r <= Sort(results)
    ensures multiset(r) <= multiset(results)
    ensures topN == 0 ==> r == []
  {
    var sorted := Sort(results);
    var r := Truncate(sorted, topN);
    assert sorted == r + sorted[|r|..];
    r
  }

  /**
    The ranking as the help text promises it ("0=all"): a count of zero
    keeps every result; any other count truncates as `Rank` does.
   */
  function RankIntended(results: seq<ResultData>, topN: nat): (r: seq<ResultData>)
    ensures Sorted(r)
    ensures |r| == if topN == 0 then |results| else Min(|results|, topN)
    ensures topN == 0 ==> StablePermutation(results, r)
    ensures topN > 0 ==> r == Rank(results, topN)
  {
    if topN == 0 then SortIsStable(results); Sort(results) else Rank(results, topN)
  }

  /**
    Every result left out of the ranking is at least as slow as every
    ranked one: the ranking holds the `topN` fastest results.
   */
  lemma RankIsFastest(results: seq<ResultData>, topN: nat)
    ensures var r := Rank(results, topN);
      forall i, x :: 0 <= i < |r| && x in multiset(results) - multiset(r) ==> r[i].avg <= x.avg
  {
    var sorted := Sort(results);
    var r := Rank(results, topN);
    assert r == sorted[..|r|];
    forall i, x | 0 <= i < |r| && x in multiset(results) - multiset(r)
      ensures r[i].avg <= x.avg
    {
      var j := BeyondPrefix(sorted, |r|, x);
      SortedPairwise(sorted, i, j);
    }
  }

  /** An element of `s` that is not accounted for by the prefix `s[..n]` sits after it. */
  lemma BeyondPrefix(s: seq<ResultData>, n: nat, x: ResultData) returns (j: nat)
    requires n <= |s|
    requires x in multiset(s) - multiset(s[..n])
    ensures n <= j < |s| && s[j] == x
  {
    var rest := s[n..];
    assert s == s[..n] + rest;
    assert multiset(s) == multiset(s[..n]) + multiset(rest);
    assert x in multiset(rest);
    var k :| 0 <= k < |rest| && rest[k] == x;
    j := n + k;
  }

  /**
    Any two sorted lists that are stable rearrangements of each other are
    equal: the stable sort has exactly one possible outcome, so `Sort`
    stands for whichever stable sort the program links against.
   */
  lemma {:induction false} StableSortUnique(a: seq<ResultData>, b: seq<ResultData>)
    requires Sorted(a) && Sorted(b)
    requires forall k :: WithAvg(a, k) == WithAvg(b, k)
    ensures a == b
  {
    if a != [] {
      assert WithAvg(a, a[0].avg) == [a[0]] + WithAvg(a[1..], a[0].avg);
      assert WithAvg(b, a[0].avg) != [];
    }
    if b != [] {
      assert WithAvg(b, b[0].avg) == [b[0]] + WithAvg(b[1..], b[0].avg);
      assert WithAvg(a, b[0].avg) != [];
    }
    if a != [] && b != [] {
      var m := a[0].avg;
      if m < b[0].avg {
        WithAvgBelowHead(b, m);
      } else if b[0].avg < m {
        WithAvgBelowHead(a, b[0].avg);
      } else {
        forall k
          ensures WithAvg(a[1..], k) == WithAvg(b[1..], k)
        {
          if k == m {
            var ta, tb := WithAvg(a[1..], k), WithAvg(b[1..], k);
            assert WithAvg(a, k) == [a[0]] + ta;
            assert WithAvg(b, k) == [b[0]] + tb;
            assert ([a[0]] + ta)[1..] == ta;
            assert ([b[0]] + tb)[1..] == tb;
          } else {
            assert WithAvg(a, k) == WithAvg(a[1..], k);
            assert WithAvg(b, k) == WithAvg(b[1..], k);
          }
        }
        assert ([a[0]] + WithAvg(a[1..], m))[0] == a[0];
        assert ([b[0]] + WithAvg(b[1..], m))[0] == b[0];
        StableSortUnique(a[1..], b[1..]);
        assert a == [a[0]] + a[1..];
        assert b == [b[0]] + b[1..];
      }
    }
  }

  /** No two different results in `s` share a mean round-trip time. */
  ghost predicate NoTies(s: seq<ResultData>)
  {
    forall x, y :: x in s && y in s && x.avg == y.avg ==> x == y
  }

  /** Two sorted lists with the same multiset and no ties start with the same result. */
  lemma SameHeadWithoutTies(a: seq<ResultData>, b: seq<ResultData>)
    requires Sorted(a) && Sorted(b) && a != []
    requires multiset(a) == multiset(b)
    requires NoTies(a)
    ensures b != [] && a[0] == b[0]
  {
    assert a[0] in multiset(b);
    var j :| 0 <= j < |b| && b[j] == a[0];
    assert b[0] in multiset(a);
    var i :| 0 <= i < |a| && a[i] == b[0];
    SortedPairwise(a, 0, i);
    SortedPairwise(b, 0, j);
    assert a[0] in a && b[0] in a;
  }

  lemma DropSharedHead(a: seq<ResultData>, b: seq<ResultData>)
    requires a != [] && b != [] && a[0] == b[0]
    requires multiset(a) == multiset(b)
    requires NoTies(a)
    ensures multiset(a[1..]) == multiset(b[1..])
    ensures NoTies(a[1..])
  {
    assert a == [a[0]] + a[1..];
    assert b == [b[0]] + b[1..];
    assert multiset(a[1..]) == multiset(a) - multiset{a[0]};
    assert multiset(b[1..]) == multiset(b) - multiset{b[0]};
    forall x | x in a[1..]
      ensures x in a
    {
    }
  }

  lemma {:induction false} SortedWithoutTiesUnique(a: seq<ResultData>, b: seq<ResultData>)
    requires Sorted(a) && Sorted(b)
    requires multiset(a) == multiset(b)
    requires NoTies(a)
    ensures a == b
  {
    if a == [] {
      assert |b| == |multiset(b)| == 0;
    } else {
      SameHeadWithoutTies(a, b);
      DropSharedHead(a, b);
      SortedWithoutTiesUnique(a[1..], b[1..]);
      assert a == [a[0]] + a[1..];
      assert b == [b[0]] + b[1..];
    }
  }

  /**
    When no two different results tie, the ranking does not depend on the
    order in which the probes reported: any two arrival orders of the same
    results rank identically.
   */
  lemma RankIgnoresArrivalOrderWithoutTies(a: seq<ResultData>, b: seq<ResultData>, topN: nat)
    requires multiset(a) == multiset(b)
    requires NoTies(a)
    ensures Rank(a, topN) == Rank(b, topN)
  {
    var sa, sb := Sort(a), Sort(b);
    assert forall x :: x in sa <==> x in multiset(a);
    SortedWithoutTiesUnique(sa, sb);
  }

  /**
    With a tie, the result that arrived first is ranked first, so with a
    count of one the shown relay depends on which probe finished first.
   */
  lemma TiesKeepArrivalOrder(x: ResultData, y: ResultData)
    requires x.avg == y.avg && x != y
    ensures Rank([x, y], 2) == [x, y]
    ensures Rank([y, x], 2) == [y, x]
    ensures Rank([x, y], 1) != Rank([y, x], 1)
  {
    assert [x, y][..1] == [x] && [y, x][..1] == [y];
    assert Sort([x]) == [x] && Sort([y]) == [y];
    assert Insert(y, [x]) == [x] + Insert(y, []);
    assert Insert(x, [y]) == [y] + Insert(x, []);
  }

  /**
    As written, a count of zero discards every result, so the program
    reports "No servers found"; the help text promises all results.
   */
  lemma RankZeroDiscardsAll(results: seq<ResultData>)
    requires results != []
    ensures Rank(results, 0) == []
    ensures RankIntended(results, 0) != []
  {
  }
}
