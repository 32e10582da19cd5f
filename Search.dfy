/** The university search of `selectUniversity`: keep the catalog entries whose
    lower-case form contains the lower-case query. */
module Search {
  import opened Text

  /** The test inside the `for` loop: an empty query keeps every entry, and a
      query longer than the entry never matches it. */
  predicate MatchesQuery(entry: string, query: string)
    ensures MatchesQuery(entry, query) ==> |query| <= |entry|
  {
    query == [] || Contains(ToLower(entry), ToLower(query))
  }

  /** The entries of `s` that `keep` accepts, in order. */
  function Filter(s: seq<string>, keep: string -> bool): (r: seq<string>)
    ensures |r| <= |s|
    ensures forall x :: x in r <==> x in s && keep(x)
  {
    if s == [] then []
    else
      var last := s[|s| - 1];
      Filter(s[..|s| - 1], keep) + (if keep(last) then [last] else [])
  }

  /** The entries of `catalog` that match `query`, in catalog order. */
  function Matches(catalog: seq<string>, query: string): (r: seq<string>)
    ensures |r| <= |catalog|
    ensures forall x :: x in r <==> x in catalog && MatchesQuery(x, query)
  {
    Filter(catalog, entry => MatchesQuery(entry, query))
  }

  /** The `for` loop that builds `matches` with `push_back`. */
  method FilterMatches(universities: seq<string>, query: string) returns (matches: seq<string>)
    ensures matches == Matches(universities, query)
  {
    var lowerQuery := ToLower(query);
    matches := [];
    for i := 0 to |universities|
      invariant matches == Matches(universities[..i], query)
    {
      var uni := universities[i];
      assert universities[..i + 1][..i] == universities[..i];
      if query == [] || Contains(ToLower(uni), lowerQuery) {
        matches := matches + [uni];
      }
    }
    assert universities[..|universities|] == universities;
  }

  /** The positions of `s` whose entry `keep` accepts, in increasing order. */
  function Kept(s: seq<string>, keep: string -> bool): (idx: seq<nat>)
    ensures forall k :: 0 <= k < |idx| ==> idx[k] < |s|
  {
    if s == [] then []
    else Kept(s[..|s| - 1], keep) + (if keep(s[|s| - 1]) then [|s| - 1] else [])
  }

  /** `Filter` returns the entries at the kept positions. */
  lemma {:induction false} FilterAtKept(s: seq<string>, keep: string -> bool)
    ensures |Kept(s, keep)| == |Filter(s, keep)|
    ensures forall k :: 0 <= k < |Kept(s, keep)| ==> Filter(s, keep)[k] == s[Kept(s, keep)[k]]
  {
    if s != [] {
      var init := s[..|s| - 1];
      FilterAtKept(init, keep);
      forall k | 0 <= k < |Kept(init, keep)|
        ensures Filter(s, keep)[k] == s[Kept(s, keep)[k]]
      {
        assert Filter(s, keep)[k] == Filter(init, keep)[k];
        assert Kept(s, keep)[k] == Kept(init, keep)[k];
      }
    }
  }

  /** The kept positions increase strictly. */
  lemma {:induction false} KeptIncreasing(s: seq<string>, keep: string -> bool)
    ensures forall j, k :: 0 <= j < k < |Kept(s, keep)| ==> Kept(s, keep)[j] < Kept(s, keep)[k]
  {
    if s != [] {
      KeptIncreasing(s[..|s| - 1], keep);
    }
  }

  /** A position is kept exactly when `keep` accepts its entry. */
  lemma {:induction false} KeptExactly(s: seq<string>, keep: string -> bool)
    ensures forall i :: 0 <= i < |s| ==> (i in Kept(s, keep) <==> keep(s[i]))
  {
    if s != [] {
      var n, init := |s| - 1, s[..|s| - 1];
      var prev := Kept(init, keep);
      KeptExactly(init, keep);
      assert n !in prev by {
        forall k | 0 <= k < |prev| ensures prev[k] != n { }
      }
      forall i | 0 <= i < n
        ensures i in Kept(s, keep) <==> keep(s[i])
      {
        assert init[i] == s[i];
      }
    }
  }

  /** The match list is an order-preserving selection from the catalog: it is
      the catalog read at increasing positions `idx`, and those positions are
      exactly the ones whose entry matches. */
  lemma MatchesInOrder(catalog: seq<string>, query: string) returns (idx: seq<nat>)
    ensures |idx| == |Matches(catalog, query)|
    ensures forall k :: 0 <= k < |idx| ==> idx[k] < |catalog| && Matches(catalog, query)[k] == catalog[idx[k]]
    ensures forall j, k :: 0 <= j < k < |idx| ==> idx[j] < idx[k]
    ensures forall i :: 0 <= i < |catalog| ==> (i in idx <==> MatchesQuery(catalog[i], query))
  {
    var keep := entry => MatchesQuery(entry, query);
    idx := Kept(catalog, keep);
    FilterAtKept(catalog, keep);
    KeptIncreasing(catalog, keep);
    KeptExactly(catalog, keep);
  }

  /** An empty query (pressing Enter) lists the whole catalog, unchanged. */
  lemma {:induction false} EmptyQueryListsAll(catalog: seq<string>)
    ensures Matches(catalog, []) == catalog
  {
    if catalog != [] {
      EmptyQueryListsAll(catalog[..|catalog| - 1]);
      assert catalog[..|catalog| - 1] + [catalog[|catalog| - 1]] == catalog;
    }
  }

  /** The `query.empty()` test only saves a search: the empty string is found
      in every entry anyway. */
  lemma EmptyTestRedundant(entry: string, query: string)
    ensures MatchesQuery(entry, query) <==> Contains(ToLower(entry), ToLower(query))
  {
    ContainsIsSubstring(ToLower(entry), ToLower(query));
  }

  /** The search ignores the case of the query. */
  lemma CaseInsensitive(catalog: seq<string>, query: string)
    ensures Matches(catalog, ToLower(query)) == Matches(catalog, query)
  {
    ToLowerIdempotent(query);
    assert forall x :: MatchesQuery(x, ToLower(query)) == MatchesQuery(x, query);
    FilterSameTest(catalog, entry => MatchesQuery(entry, ToLower(query)), entry => MatchesQuery(entry, query));
  }

  lemma {:induction false} FilterSameTest(s: seq<string>, keep1: string -> bool, keep2: string -> bool)
    requires forall x :: keep1(x) == keep2(x)
    ensures Filter(s, keep1) == Filter(s, keep2)
  {
    if s != [] {
      FilterSameTest(s[..|s| - 1], keep1, keep2);
    }
  }
}
