/**
 * The adjuster directory (client/src/pages/adjusters.tsx): the search box's
 * case-insensitive filter over name, carrier and region, and the colour of
 * an adjuster's risk impression, negative keywords first.
 */
module AdjusterSearch {
  import opened Wrappers
  import opened Strings
  import opened Seqs
  import opened Records

  /** The filter's test for a lower-cased query; a null region never matches. */
  function Matches(query: string): Adjuster -> bool {
    (a: Adjuster) =>
      Contains(ToLower(a.name), query) || Contains(ToLower(a.carrier), query) ||
      (a.region.Some? && Contains(ToLower(a.region.value), query))
  }

  /**
   * `filteredAdjusters`: with no list loaded, nothing; otherwise the
   * adjusters, in order, whose lower-cased name, carrier or region includes
   * the lower-cased query, and all of them.
   */
  function FilteredAdjusters(adjusters: Option<seq<Adjuster>>, searchQuery: string): (r: seq<Adjuster>)
    ensures IsSubsequence(r, adjusters.GetOr([]))
    ensures forall a :: a in r <==> (a in adjusters.GetOr([]) && (
      Contains(ToLower(a.name), ToLower(searchQuery)) ||
      Contains(ToLower(a.carrier), ToLower(searchQuery)) ||
      (a.region.Some? && Contains(ToLower(a.region.value), ToLower(searchQuery)))))
  {
    var all := adjusters.GetOr([]);
    FilterIsSubsequence(all, Matches(ToLower(searchQuery)));
    Filter(all, Matches(ToLower(searchQuery)))
  }

  /** An empty query keeps every adjuster, in order. */
  lemma EmptyQueryKeepsAll(adjusters: seq<Adjuster>)
    ensures FilteredAdjusters(Some(adjusters), "") == adjusters
  {
    assert ToLower("") == "";
    forall a | a in adjusters ensures Matches("")(a) {
      ContainsEmpty(ToLower(a.name));
    }
    FilterAll(adjusters, Matches(""));
  }

  /** The query's case does not matter. */
  lemma QueryCaseIgnored(adjusters: Option<seq<Adjuster>>, searchQuery: string)
    ensures FilteredAdjusters(adjusters, ToLower(searchQuery)) == FilteredAdjusters(adjusters, searchQuery)
  {
    ToLowerIdempotent(searchQuery);
  }

  /** The classes `getRiskColor` returns. */
  const Neutral := "bg-slate-500/20 text-slate-400"
  const Red := "bg-red-500/20 text-red-400"
  const Green := "bg-green-500/20 text-green-400"
  const Amber := "bg-amber-500/20 text-amber-400"

  const NegativeWords: seq<string> := ["difficult", "aggressive", "denied"]
  const PositiveWords: seq<string> := ["fair", "reasonable", "cooperative"]

  /** `s` includes one of `words`. */
  predicate HasAny(s: string, words: seq<string>) {
    exists i :: 0 <= i < |words| && Contains(s, words[i])
  }

  /**
   * `getRiskColor`: the neutral class for a missing or empty impression;
   * otherwise red when the lower-cased impression has a negative keyword,
   * else green when it has a positive one, else amber.
   */
  function GetRiskColor(impression: Option<string>): (r: string)
    ensures r == Neutral <==> impression.None? || impression.value == ""
    ensures r == Red <==> (impression.Some? && impression.value != "" &&
      HasAny(ToLower(impression.value), NegativeWords))
    ensures r == Green <==> (impression.Some? && impression.value != "" &&
      !HasAny(ToLower(impression.value), NegativeWords) && HasAny(ToLower(impression.value), PositiveWords))
    ensures r == Amber <==> (impression.Some? && impression.value != "" &&
      !HasAny(ToLower(impression.value), NegativeWords) && !HasAny(ToLower(impression.value), PositiveWords))
  {
    if impression.None? || impression.value == "" then Neutral
    else
      var lower := ToLower(impression.value);
      if Contains(lower, "difficult") || Contains(lower, "aggressive") || Contains(lower, "denied") then
        assert Contains(lower, NegativeWords[0]) ==> HasAny(lower, NegativeWords);
        assert Contains(lower, NegativeWords[1]) ==> HasAny(lower, NegativeWords);
        assert Contains(lower, NegativeWords[2]) ==> HasAny(lower, NegativeWords);
        Red
      else if Contains(lower, "fair") || Contains(lower, "reasonable") || Contains(lower, "cooperative") then
        assert Contains(lower, PositiveWords[0]) ==> HasAny(lower, PositiveWords);
        assert Contains(lower, PositiveWords[1]) ==> HasAny(lower, PositiveWords);
        assert Contains(lower, PositiveWords[2]) ==> HasAny(lower, PositiveWords);
        Green
      else Amber
  }

  /** An impression with both a negative and a positive keyword is red: the negative test comes first. */
  lemma NegativeBeforePositive(impression: string)
    requires HasAny(ToLower(impression), NegativeWords) && HasAny(ToLower(impression), PositiveWords)
    ensures GetRiskColor(Some(impression)) == Red
  {
    assert impression != "";
  }

  /** The colour depends on the impression only up to case. */
  lemma RiskColorIgnoresCase(impression: string)
    ensures GetRiskColor(Some(ToLower(impression))) == GetRiskColor(Some(impression))
  {
    ToLowerIdempotent(impression);
  }
}
