/**
 * The per-carrier aggregation shared by the analytics dashboard
 * (client/src/pages/analytics.tsx) and the carrier-analysis report
 * (client/src/pages/reports.tsx): the distinct trimmed carrier names of the
 * adjusters, and the adjusters and claims that belong to one carrier.
 */
module ByCarrier {
  import opened Wrappers
  import opened Strings
  import opened Seqs
  import opened Records

  function TrimmedCarrier(a: Adjuster): string {
    Trim(a.carrier)
  }

  predicate NonEmpty(s: string) {
    s != ""
  }

  /**
   * `Array.from(new Set(adjusters.map(a => a.carrier?.trim()).filter(Boolean)))`:
   * every non-empty trimmed carrier name once, in order of first appearance.
   */
  function DistinctCarriers(adjusters: seq<Adjuster>): (r: seq<string>)
    ensures |r| <= |adjusters|
    ensures NoDuplicates(r)
    ensures forall c :: c in r ==> c != "" && Trim(c) == c && exists a :: a in adjusters && Trim(a.carrier) == c
    ensures forall a :: a in adjusters && Trim(a.carrier) != "" ==> Trim(a.carrier) in r
  {
    var names := Map(adjusters, TrimmedCarrier);
    var r := Distinct(Filter(names, NonEmpty));
    forall c | c in r ensures c != "" && Trim(c) == c && exists a :: a in adjusters && Trim(a.carrier) == c {
      var i :| 0 <= i < |names| && names[i] == c;
      assert adjusters[i] in adjusters;
      TrimIdempotent(adjusters[i].carrier);
    }
    forall a | a in adjusters && Trim(a.carrier) != "" ensures Trim(a.carrier) in r {
      var i :| 0 <= i < |adjusters| && adjusters[i] == a;
      assert names[i] in names;
    }
    r
  }

  /** `a.carrier?.trim() === carrier`. */
  function IsAdjusterOf(carrier: string): Adjuster -> bool {
    (a: Adjuster) => Trim(a.carrier) == carrier
  }

  /** `c.carrier?.trim() === carrier`: a claim without a carrier belongs to none. */
  function IsClaimOf(carrier: string): Claim -> bool {
    (c: Claim) => c.carrier.Some? && Trim(c.carrier.value) == carrier
  }

  /** `c.status === status`. */
  function HasStatus(status: string): Claim -> bool {
    (c: Claim) => c.status == status
  }

  /** `a.riskImpression?.toLowerCase().includes(word)`: a missing impression mentions nothing. */
  function Mentions(word: string): Adjuster -> bool {
    (a: Adjuster) => a.riskImpression.Some? && Contains(ToLower(a.riskImpression.value), word)
  }

  /** The adjusters of one carrier (`carrierAdjusters`). */
  function AdjustersOf(adjusters: seq<Adjuster>, carrier: string): (r: seq<Adjuster>)
    ensures forall a :: a in r <==> a in adjusters && Trim(a.carrier) == carrier
  {
    Filter(adjusters, IsAdjusterOf(carrier))
  }

  /** The claims of one carrier (`carrierClaims`). */
  function ClaimsOf(claims: seq<Claim>, carrier: string): (r: seq<Claim>)
    ensures forall c :: c in r <==> c in claims && c.carrier.Some? && Trim(c.carrier.value) == carrier
  {
    Filter(claims, IsClaimOf(carrier))
  }

  /** The open and resolved claims of a carrier never outnumber its claims. */
  lemma OpenResolvedBound(claims: seq<Claim>)
    ensures Count(claims, HasStatus("open")) + Count(claims, HasStatus("resolved")) <= |claims|
  {
    CountDisjoint(claims, HasStatus("open"), HasStatus("resolved"));
  }

  /** A carrier listed by `DistinctCarriers` has at least one adjuster. */
  lemma CarrierHasAdjuster(adjusters: seq<Adjuster>, carrier: string)
    requires carrier in DistinctCarriers(adjusters)
    ensures |AdjustersOf(adjusters, carrier)| >= 1
  {
    var a :| a in adjusters && Trim(a.carrier) == carrier;
    assert a in AdjustersOf(adjusters, carrier);
  }
}
