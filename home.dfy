/**
 * The home page's quick search (client/src/pages/home.tsx) over the store's
 * adjusters: results only for a query longer than one character, matched on
 * name or carrier ignoring case, and Enter opens the first result.
 */
module Home {
  import opened Wrappers
  import opened Strings
  import opened Seqs
  import opened Store

  function NameOrCarrierMatches(query: string): StoreAdjuster -> bool {
    (a: StoreAdjuster) => Contains(ToLower(a.name), ToLower(query)) || Contains(ToLower(a.carrier), ToLower(query))
  }

  /**
   * `filteredAdjusters`: empty for a query of at most one character;
   * otherwise the adjusters, in order, whose lower-cased name or carrier
   * includes the lower-cased query, and all of them.
   */
  function SearchResults(adjusters: seq<StoreAdjuster>, query: string): (r: seq<StoreAdjuster>)
    ensures |query| <= 1 ==> r == []
    ensures IsSubsequence(r, adjusters)
    ensures |query| > 1 ==> forall a :: a in r <==> (a in adjusters &&
      (Contains(ToLower(a.name), ToLower(query)) || Contains(ToLower(a.carrier), ToLower(query))))
  {
    if |query| > 1 then
      FilterIsSubsequence(adjusters, NameOrCarrierMatches(query));
      Filter(adjusters, NameOrCarrierMatches(query))
    else []
  }

  /**
   * `handleKeyDown`: the route Enter opens, which is the first result's
   * page, and nothing for another key or when there are no results.
   */
  function EnterTarget(results: seq<StoreAdjuster>, key: string): (r: Option<string>)
    ensures r.Some? <==> key == "Enter" && |results| > 0
    ensures r.Some? ==> r.value == "/adjuster/" + results[0].id
  {
    if key == "Enter" && |results| > 0 then Some("/adjuster/" + results[0].id) else None
  }

  /** A query of at most one character never navigates. */
  lemma ShortQueryStays(adjusters: seq<StoreAdjuster>, query: string, key: string)
    requires |query| <= 1
    ensures EnterTarget(SearchResults(adjusters, query), key).None?
  {
  }

  /** Enter opens the page of a matching adjuster whenever one matches a long enough query. */
  lemma EnterOpensAMatch(adjusters: seq<StoreAdjuster>, query: string)
    requires |query| > 1
    requires exists a :: (a in adjusters &&
      (Contains(ToLower(a.name), ToLower(query)) || Contains(ToLower(a.carrier), ToLower(query))))
    ensures EnterTarget(SearchResults(adjusters, query), "Enter").Some?
    ensures exists a :: (a in adjusters && EnterTarget(SearchResults(adjusters, query), "Enter").value == "/adjuster/" + a.id &&
      (Contains(ToLower(a.name), ToLower(query)) || Contains(ToLower(a.carrier), ToLower(query))))
  {
    var a :| a in adjusters &&
      (Contains(ToLower(a.name), ToLower(query)) || Contains(ToLower(a.carrier), ToLower(query)));
    var r := SearchResults(adjusters, query);
    assert a in r;
    assert r[0] in r;
  }
}
