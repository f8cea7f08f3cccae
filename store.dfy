/**
 * The in-memory adjuster store (client/src/lib/store.ts): a list of
 * adjusters with their logged interactions, and the search query. Adding an
 * interaction prepends it, under a fresh id, to the adjusters with the given
 * id; setting the query touches nothing else.
 */
module Store {
  import opened Wrappers

  /** A logged interaction; outcome and claim id are optional. */
  datatype StoreInteraction = StoreInteraction(
    id: string,
    date: string,
    kind: string,
    description: string,
    outcome: Option<string>,
    claimId: Option<string>)

  /** An interaction as the caller passes it: everything but the id. */
  datatype NewInteraction = NewInteraction(
    date: string,
    kind: string,
    description: string,
    outcome: Option<string>,
    claimId: Option<string>)

  /** A past claim as the store keeps it. */
  datatype StoreClaim = StoreClaim(publicId: string, privateId: string, status: string, dateOpened: string)

  /** An adjuster profile with its claims and interactions, newest interaction first. */
  datatype StoreAdjuster = StoreAdjuster(
    id: string,
    name: string,
    carrier: string,
    riskLevel: string,
    behaviorScore: int,
    commonDenialStyles: seq<string>,
    responsivenessRating: string,
    narrative: string,
    claims: seq<StoreClaim>,
    interactions: seq<StoreInteraction>)

  /** The interaction `{ ...interaction, id }`. */
  function WithId(x: NewInteraction, id: string): (r: StoreInteraction)
    ensures r.id == id
    ensures NewInteraction(r.date, r.kind, r.description, r.outcome, r.claimId) == x
  {
    StoreInteraction(id, x.date, x.kind, x.description, x.outcome, x.claimId)
  }

  /** One adjuster after the update: the matching one gains the interaction in front. */
  function Updated(adj: StoreAdjuster, adjusterId: string, x: NewInteraction, newId: string): StoreAdjuster {
    if adj.id == adjusterId then adj.(interactions := [WithId(x, newId)] + adj.interactions) else adj
  }

  /**
   * The list `addInteraction` computes: same length and order, the adjusters
   * with id `adjusterId` have the new interaction first and their previous
   * ones after it, with every other field as it was; all others are unchanged.
   * The source draws a fresh random id for each matching adjuster, while the
   * model gives each the same `newId`; adjuster ids are unique, so at most one
   * adjuster matches and the two agree.
   */
  function AddedTo(adjusters: seq<StoreAdjuster>, adjusterId: string, x: NewInteraction, newId: string): (r: seq<StoreAdjuster>)
    ensures |r| == |adjusters|
    ensures forall i :: 0 <= i < |r| ==> r[i].id == adjusters[i].id
    ensures forall i :: 0 <= i < |r| && adjusters[i].id != adjusterId ==> r[i] == adjusters[i]
    ensures forall i :: 0 <= i < |r| && adjusters[i].id == adjusterId ==>
      |r[i].interactions| >= 1 &&
      r[i].interactions[0] == WithId(x, newId) &&
      r[i].interactions[1..] == adjusters[i].interactions &&
      r[i].(interactions := adjusters[i].interactions) == adjusters[i]
  {
    seq(|adjusters|, i requires 0 <= i < |adjusters| => Updated(adjusters[i], adjusterId, x, newId))
  }

  /** With no adjuster of that id, the list comes back equal. */
  lemma AddedToUnknownId(adjusters: seq<StoreAdjuster>, adjusterId: string, x: NewInteraction, newId: string)
    requires forall a :: a in adjusters ==> a.id != adjusterId
    ensures AddedTo(adjusters, adjusterId, x, newId) == adjusters
  {
    var r := AddedTo(adjusters, adjusterId, x, newId);
    forall i | 0 <= i < |r| ensures r[i] == adjusters[i] {
      assert adjusters[i] in adjusters;
    }
  }

  /** Each interaction list grows by exactly one where the id matches, and not at all elsewhere. */
  lemma AddedToCounts(adjusters: seq<StoreAdjuster>, adjusterId: string, x: NewInteraction, newId: string, i: int)
    requires 0 <= i < |adjusters|
    ensures |AddedTo(adjusters, adjusterId, x, newId)[i].interactions| ==
      |adjusters[i].interactions| + (if adjusters[i].id == adjusterId then 1 else 0)
  {
  }

  /** The new interaction appears exactly once more in total per matching adjuster. */
  lemma AddedToContainsNew(adjusters: seq<StoreAdjuster>, adjusterId: string, x: NewInteraction, newId: string, i: int)
    requires 0 <= i < |adjusters| && adjusters[i].id == adjusterId
    ensures multiset(AddedTo(adjusters, adjusterId, x, newId)[i].interactions) ==
      multiset(adjusters[i].interactions) + multiset{WithId(x, newId)}
  {
    var r := AddedTo(adjusters, adjusterId, x, newId);
    assert r[i].interactions == [WithId(x, newId)] + adjusters[i].interactions;
  }

  /** The store's state: the adjusters and the search query. */
  class AdjusterStore {
    var adjusters: seq<StoreAdjuster>
    var searchQuery: string

    /** The store starts with the given adjusters and an empty query. */
    constructor(initial: seq<StoreAdjuster>)
      ensures adjusters == initial && searchQuery == ""
    {
      adjusters := initial;
      searchQuery := "";
    }

    /** `setSearchQuery`: replaces the query and nothing else. */
    method SetSearchQuery(query: string)
      modifies this
      ensures searchQuery == query
      ensures adjusters == old(adjusters)
    {
      searchQuery := query;
    }

    /**
     * `addInteraction`: the adjuster list becomes `AddedTo` of the old one,
     * with `newId` standing for the random id; the query is unchanged.
     */
    method AddInteraction(adjusterId: string, interaction: NewInteraction, newId: string)
      modifies this
      ensures adjusters == AddedTo(old(adjusters), adjusterId, interaction, newId)
      ensures searchQuery == old(searchQuery)
    {
      adjusters := AddedTo(adjusters, adjusterId, interaction, newId);
    }
  }
}
