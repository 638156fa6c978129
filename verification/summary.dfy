/**
  Extraction of the mean round-trip time from the output of the system
  `ping` (src/main.rs:253-262). The program searches standard output with
  the regular expression `rtt min/avg/max/mdev = [0-9.]+/([0-9.]+)` and
  keeps the capture of the leftmost match; both runs are greedy.
 */
module Summary {
  import opened Options

  const Prefix: string := "rtt min/avg/max/mdev = "

  /** The character class `[0-9.]`. */
  predicate IsRateChar(c: char)
  {
    '0' <= c <= '9' || c == '.'
  }

  predicate AllRate(t: string)
  {
    forall j :: 0 <= j < |t| ==> IsRateChar(t[j])
  }

  /**
    The regular expression matches at `i` with a first run of `a`
    characters and a captured run of `b` characters, the capture being as
    long as it can be (the greedy `+` at the end of the pattern).
   */
  ghost predicate MatchAt(s: string, i: nat, a: nat, b: nat)
  {
    var k := i + |Prefix|;
    && k + a + 1 + b <= |s|
    && s[i..k] == Prefix
    && a >= 1 && b >= 1
    && AllRate(s[k..k + a])
    && s[k + a] == '/'
    && AllRate(s[k + a + 1..k + a + 1 + b])
    && (k + a + 1 + b == |s| || !IsRateChar(s[k + a + 1 + b]))
  }

  /** The text the capture group holds for the match `(i, a, b)`. */
  ghost function Captured(s: string, i: nat, a: nat, b: nat): string
    requires MatchAt(s, i, a, b)
  {
    s[i + |Prefix| + a + 1..i + |Prefix| + a + 1 + b]
  }

  /** The length of the longest run of `[0-9.]` characters starting at `k`. */
  function RunLength(s: string, k: nat): (n: nat)
    requires k <= |s|
    ensures k + n <= |s|
    ensures AllRate(s[k..k + n])
    ensures k + n == |s| || !IsRateChar(s[k + n])
    decreases |s| - k
  {
    if k < |s| && IsRateChar(s[k]) then
      var n := 1 + RunLength(s, k + 1);
      assert s[k..k + n] == [s[k]] + s[k + 1..k + n];
      n
    else 0
  }

  /** A run of rate characters ending at a non-rate character (or the end) is the longest one. */
  lemma RunIsLongest(s: string, k: nat, a: nat)
    requires k + a <= |s|
    requires AllRate(s[k..k + a])
    requires k + a == |s| || !IsRateChar(s[k + a])
    ensures a == RunLength(s, k)
  {
  }

  /** A match is pinned down by its position: both runs are the longest ones there. */
  lemma MatchRunsAreLongest(s: string, i: nat)
    ensures forall a, b :: MatchAt(s, i, a, b) ==>
      && a == RunLength(s, i + |Prefix|)
      && b == RunLength(s, i + |Prefix| + a + 1)
  {
    forall a, b | MatchAt(s, i, a, b)
      ensures a == RunLength(s, i + |Prefix|)
      ensures b == RunLength(s, i + |Prefix| + a + 1)
    {
      RunIsLongest(s, i + |Prefix|, a);
      RunIsLongest(s, i + |Prefix| + a + 1, b);
    }
  }

  /** Tries the regular expression at position `i` alone. */
  function MatchHere(s: string, i: nat): (r: Option<(nat, nat)>)
    requires i <= |s|
    ensures r.Some? ==> MatchAt(s, i, r.value.0, r.value.1)
    ensures r.None? ==> forall a, b :: !MatchAt(s, i, a, b)
  {
    MatchRunsAreLongest(s, i);
    var k := i + |Prefix|;
    if k > |s| || s[i..k] != Prefix then None
    else
      var a := RunLength(s, k);
      if a == 0 || k + a >= |s| || s[k + a] != '/' then None
      else
        var b := RunLength(s, k + a + 1);
        if b == 0 then None else Some((a, b))
  }

  /** The leftmost match at or after `from`, with its two run lengths. */
  function FindFrom(s: string, from: nat): (r: Option<(nat, nat, nat)>)
    requires from <= |s|
    ensures r.Some? ==>
      && from <= r.value.0
      && MatchAt(s, r.value.0, r.value.1, r.value.2)
      && forall j, a, b :: from <= j < r.value.0 ==> !MatchAt(s, j, a, b)
    ensures r.None? ==> forall j, a, b :: from <= j ==> !MatchAt(s, j, a, b)
    decreases |s| - from
  {
    match MatchHere(s, from)
    case Some((a, b)) => Some((from, a, b))
    case None =>
      if from == |s| then None
      else FindFrom(s, from + 1)
  }

  /**
    The stdout-parsing half of `ping`: a mean only when the process exited
    successfully and its output holds a summary line; it is the captured
    second field of the leftmost match.
   */
  function SummaryAvg(success: bool, stdout: string): (r: Option<string>)
    ensures !success ==> r.None?
    ensures success ==> (r.None? <==> forall i, a, b :: !MatchAt(stdout, i, a, b))
    ensures r.Some? ==> exists i, a, b ::
      && MatchAt(stdout, i, a, b)
      && r.value == Captured(stdout, i, a, b)
      && forall j, a', b' :: j < i ==> !MatchAt(stdout, j, a', b')
    ensures r.Some? ==> |r.value| >= 1 && AllRate(r.value)
  {
    if !success then None
    else
      match FindFrom(stdout, 0)
      case None => None
      case Some((i, a, b)) =>
        var k := i + |Prefix| + a + 1;
        Some(stdout[k..k + b])
  }

  /** At a given position the regular expression matches in at most one way. */
  lemma MatchIsUnique(s: string, i: nat, a: nat, b: nat, a': nat, b': nat)
    requires MatchAt(s, i, a, b) && MatchAt(s, i, a', b')
    ensures a == a' && b == b'
  {
    MatchRunsAreLongest(s, i);
  }

  /**
    Conversely, the leftmost match determines the answer: whatever the
    output holds after it, its capture is what `SummaryAvg` returns.
   */
  lemma LeftmostMatchIsReported(s: string, i: nat, a: nat, b: nat)
    requires MatchAt(s, i, a, b)
    requires forall j: nat, a': nat, b': nat :: j < i ==> !MatchAt(s, j, a', b')
    ensures SummaryAvg(true, s) == Some(Captured(s, i, a, b))
  {
    var r := SummaryAvg(true, s);
    var i', a', b' :| MatchAt(s, i', a', b') && r.value == Captured(s, i', a', b')
      && forall j, a'', b'' :: j < i' ==> !MatchAt(s, j, a'', b'');
    assert i' == i;
    MatchIsUnique(s, i, a, b, a', b');
  }
}
