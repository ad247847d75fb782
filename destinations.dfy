/**
 * The destination search of the booking form: a fixed catalogue of six
 * cities and the case-insensitive substring filter over it.
 */
module Destinations {
  import opened Text

  /** The catalogue, in the order the form lists it. */
  const DESTINOS: seq<string> := ["Barcelona", "Madrid", "Valencia", "Sevilla", "Bilbao", "Mallorca"]

  /**
   * A destination matches a term when its lower-cased name contains the
   * lower-cased term somewhere; the empty term matches every destination.
   */
  function Matches(destino: string, term: string): (b: bool)
    ensures b <==> exists i :: OccursAt(Lower(term), Lower(destino), i)
    ensures term == "" ==> b
  {
    IncludesIff(Lower(destino), Lower(term));
    Includes(Lower(destino), Lower(term))
  }

  /** `a` is `b` with some elements dropped, the rest kept in order. */
  ghost predicate IsSubsequence(a: seq<string>, b: seq<string>)
    decreases |b|
  {
    if a == [] then true
    else if b == [] then false
    else (a[0] == b[0] && IsSubsequence(a[1..], b[1..])) || IsSubsequence(a, b[1..])
  }

  /**
   * `ds.filter(d => Matches(d, term))`: the matching entries in their
   * original order; `FilterCounts` adds that each is kept as often as it
   * occurs in `ds`.
   */
  function Filter(ds: seq<string>, term: string): (r: seq<string>)
    ensures IsSubsequence(r, ds) && |r| <= |ds|
    ensures forall d :: d in r <==> d in ds && Matches(d, term)
    decreases |ds|
  {
    if ds == [] then []
    else
      var rest := Filter(ds[1..], term);
      if Matches(ds[0], term) then
        assert ([ds[0]] + rest)[1..] == rest;
        [ds[0]] + rest
      else rest
  }

  /**
   * The list the search box shows for `term`: the whole catalogue for an
   * empty term, and otherwise the catalogue entries whose lower-cased
   * name contains the lower-cased term. `FilterDestinosSpec` adds that
   * they keep the catalogue order and multiplicity.
   */
  function FilterDestinos(term: string): (r: seq<string>)
    ensures term == "" ==> r == DESTINOS
    ensures |r| <= |DESTINOS|
    ensures forall d :: d in r <==> d in DESTINOS && Matches(d, term)
  {
    if term == "" then
      FilterEmptyTerm(DESTINOS);
      DESTINOS
    else Filter(DESTINOS, term)
  }

  /** A matching entry is kept as often as it occurs; any other entry is dropped. */
  lemma {:induction false} FilterCounts(ds: seq<string>, term: string)
    ensures forall d :: multiset(Filter(ds, term))[d] == if Matches(d, term) then multiset(ds)[d] else 0
    decreases |ds|
  {
    if ds != [] {
      FilterCounts(ds[1..], term);
      assert ds == [ds[0]] + ds[1..];
    }
  }

  /** An empty term keeps every entry, so filtering by it is the identity. */
  lemma {:induction false} FilterEmptyTerm(ds: seq<string>)
    ensures Filter(ds, "") == ds
    decreases |ds|
  {
    if ds != [] {
      assert Matches(ds[0], "");
      FilterEmptyTerm(ds[1..]);
      assert ds == [ds[0]] + ds[1..];
    }
  }

  /** The empty-term short cut agrees with the general filter. */
  lemma FilterDestinosIsFilter(term: string)
    ensures FilterDestinos(term) == Filter(DESTINOS, term)
  {
    if term == "" {
      FilterEmptyTerm(DESTINOS);
    }
  }

  /**
   * The search result lists the matching catalogue entries in catalogue
   * order, each as often as the catalogue lists it.
   */
  lemma FilterDestinosSpec(term: string)
    ensures IsSubsequence(FilterDestinos(term), DESTINOS)
    ensures forall d :: multiset(FilterDestinos(term))[d] == if Matches(d, term) then multiset(DESTINOS)[d] else 0
  {
    FilterDestinosIsFilter(term);
    FilterCounts(DESTINOS, term);
  }

  /** No entry of `s` occurs twice. */
  ghost predicate NoRepeats(s: seq<string>)
  {
    forall i, j :: 0 <= i < j < |s| ==> s[i] != s[j]
  }

  /** Filtering a list without repeats gives a list without repeats. */
  lemma {:induction false} FilterNoRepeats(ds: seq<string>, term: string)
    requires NoRepeats(ds)
    ensures NoRepeats(Filter(ds, term))
    decreases |ds|
  {
    if ds != [] {
      assert NoRepeats(ds[1..]) by {
        forall i, j | 0 <= i < j < |ds[1..]| ensures ds[1..][i] != ds[1..][j] {
          assert ds[1..][i] == ds[i + 1] && ds[1..][j] == ds[j + 1];
        }
      }
      FilterNoRepeats(ds[1..], term);
      var rest := Filter(ds[1..], term);
      assert ds[0] !in ds[1..] by {
        forall k | 0 <= k < |ds[1..]| ensures ds[1..][k] != ds[0] {
          assert ds[1..][k] == ds[k + 1];
        }
      }
      if Matches(ds[0], term) {
        var r := [ds[0]] + rest;
        forall i, j | 0 <= i < j < |r| ensures r[i] != r[j] {
          if i == 0 {
            assert r[j] == rest[j - 1];
            assert rest[j - 1] in rest;
          } else {
            assert r[i] == rest[i - 1] && r[j] == rest[j - 1];
          }
        }
      }
    }
  }

  /** Every catalogue entry is listed once, so a search never shows an entry twice. */
  lemma FilterDestinosNoRepeats(term: string)
    ensures NoRepeats(FilterDestinos(term))
  {
    assert NoRepeats(DESTINOS);
    FilterNoRepeats(DESTINOS, term);
    FilterDestinosIsFilter(term);
  }

  /** The filter only sees a term through its lower-cased form. */
  lemma {:induction false} FilterLowerTerm(ds: seq<string>, term: string)
    ensures Filter(ds, Lower(term)) == Filter(ds, term)
    decreases |ds|
  {
    LowerIdempotent(term);
    if ds != [] {
      FilterLowerTerm(ds[1..], term);
    }
  }

  /** Searching is case-insensitive: a term and its lower-cased form give the same list. */
  lemma FilterDestinosCaseInsensitive(term: string)
    ensures FilterDestinos(Lower(term)) == FilterDestinos(term)
  {
    FilterDestinosIsFilter(term);
    FilterDestinosIsFilter(Lower(term));
    FilterLowerTerm(DESTINOS, term);
  }
}
