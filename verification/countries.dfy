/**
  The country listing (`list_countries`, src/main.rs:191-204): the distinct
  (code, name) pairs of the catalogue, ordered by country name.
 */
module Countries {
  import opened Relay

  datatype Country = Country(code: string, name: string)

  function CountryOf(s: Server): Country
  {
    Country(s.countryCode, s.countryName)
  }

  /**
    Rust's `Ord` on `String`: byte-wise lexicographic order of the UTF-8
    encoding, which coincides with lexicographic order of code points.
   */
  predicate LexLe(a: string, b: string)
    decreases |a|
  {
    a == [] || (b != [] && (a[0] < b[0] || (a[0] == b[0] && LexLe(a[1..], b[1..]))))
  }

  lemma {:induction false} LexLeTotal(a: string, b: string)
    ensures LexLe(a, b) || LexLe(b, a)
    decreases |a|
  {
    if a != [] && b != [] && a[0] == b[0] {
      LexLeTotal(a[1..], b[1..]);
    }
  }

  lemma {:induction false} LexLeTransitive(a: string, b: string, c: string)
    requires LexLe(a, b) && LexLe(b, c)
    ensures LexLe(a, c)
    decreases |a|
  {
    if a != [] && a[0] == b[0] && b[0] == c[0] {
      LexLeTransitive(a[1..], b[1..], c[1..]);
    }
  }

  lemma {:induction false} LexLeAntisymmetric(a: string, b: string)
    requires LexLe(a, b) && LexLe(b, a)
    ensures a == b
    decreases |a|
  {
    if a != [] {
      LexLeAntisymmetric(a[1..], b[1..]);
      assert a == [a[0]] + a[1..];
      assert b == [b[0]] + b[1..];
    }
  }

  /** Adjacent entries are in non-decreasing order of country name. */
  predicate SortedByName(s: seq<Country>)
  {
    forall i :: 0 <= i < |s| - 1 ==> LexLe(s[i].name, s[i + 1].name)
  }

  predicate Distinct(s: seq<Country>)
  {
    forall i, j :: 0 <= i < j < |s| ==> s[i] != s[j]
  }

  /** Inserts `c` in front of the first entry whose name is not below it. */
  function InsertByName(c: Country, s: seq<Country>): (r: seq<Country>)
    requires SortedByName(s)
    ensures SortedByName(r)
    ensures |r| == |s| + 1
    ensures forall x :: x in r <==> x == c || x in s
    ensures c !in s && Distinct(s) ==> Distinct(r)
    ensures r[0] == c || (s != [] && r[0] == s[0])
  {
    if s == [] || LexLe(c.name, s[0].name) then
      [c] + s
    else
      LexLeTotal(c.name, s[0].name);
      var tail := InsertByName(c, s[1..]);
      assert s == [s[0]] + s[1..];
      var r := [s[0]] + tail;
      assert c !in s && Distinct(s) ==> Distinct(r) by {
        if c !in s && Distinct(s) {
          assert s[0] !in s[1..];
          assert s[0] !in tail;
          forall i, j | 0 <= i < j < |r|
            ensures r[i] != r[j]
          {
            if i > 0 {
              assert r[i] == tail[i - 1] && r[j] == tail[j - 1];
            } else {
              assert r[j] in tail;
            }
          }
        }
      }
      r
  }

  /** In a sorted listing every entry's name is at most every later entry's name. */
  lemma {:induction false} SortedByNamePairwise(s: seq<Country>, i: int, j: int)
    requires SortedByName(s)
    requires 0 <= i <= j < |s|
    ensures LexLe(s[i].name, s[j].name)
    decreases j - i
  {
    if i == j {
      LexLeReflexive(s[i].name);
    } else {
      SortedByNamePairwise(s, i + 1, j);
      LexLeTransitive(s[i].name, s[i + 1].name, s[j].name);
    }
  }

  lemma {:induction false} LexLeReflexive(a: string)
    ensures LexLe(a, a)
    decreases |a|
  {
    if a != [] {
      LexLeReflexive(a[1..]);
    }
  }

  /**
    `list_countries`: collects the (code, name) pair of every relay into a
    set, then orders the set's elements by name. The set is drained in an
    arbitrary order, as the hash set's iteration order is unspecified.
   */
  method ListCountries(catalog: seq<Server>) returns (listing: seq<Country>)
    ensures SortedByName(listing)
    ensures Distinct(listing)
    ensures forall c :: c in listing <==> exists s :: s in catalog && CountryOf(s) == c
  {
    var seen: set<Country> := {};
    for i := 0 to |catalog|
      invariant forall c :: c in seen <==> exists j :: 0 <= j < i && CountryOf(catalog[j]) == c
    {
      seen := seen + {CountryOf(catalog[i])};
    }
    listing := [];
    var rest := seen;
    while rest != {}
      invariant SortedByName(listing)
      invariant Distinct(listing)
      invariant forall c :: c in listing ==> c !in rest
      invariant forall c :: c in seen <==> c in listing || c in rest
      decreases |rest|
    {
      var c :| c in rest;
      listing := InsertByName(c, listing);
      rest := rest - {c};
    }
  }
}
