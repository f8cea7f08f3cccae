/**
 * The analytics dashboard (client/src/pages/analytics.tsx): distinct
 * carriers, claim status counts, the high-risk adjuster count, per-carrier
 * statistics sorted by claim count, the resolution rate and the risk
 * distribution percentages.
 */
module Analytics {
  import opened Wrappers
  import opened Strings
  import opened Seqs
  import opened Sorting
  import opened Records
  import opened ByCarrier

  /** `carriers`: at most one entry per adjuster, none repeated and none empty. */
  function Carriers(adjusters: seq<Adjuster>): (r: seq<string>)
    ensures |r| <= |adjusters|
    ensures NoDuplicates(r) && "" !in r
  {
    DistinctCarriers(adjusters)
  }

  /** `carriers` holds each trimmed non-empty carrier once and nothing else. */
  lemma CarriersExact(adjusters: seq<Adjuster>)
    ensures NoDuplicates(Carriers(adjusters))
    ensures forall c :: c in Carriers(adjusters) <==> exists a :: a in adjusters && Trim(a.carrier) == c && c != ""
  {
  }

  /** The number of claims with a status: none exactly when no claim has it. */
  function StatusCount(claims: seq<Claim>, status: string): (n: nat)
    ensures n <= |claims|
    ensures n == 0 <==> forall c :: c in claims ==> c.status != status
  {
    Count(claims, HasStatus(status))
  }

  /** `openClaims`. */
  function OpenClaims(claims: seq<Claim>): nat {
    StatusCount(claims, "open")
  }

  /** `resolvedClaims`. */
  function ResolvedClaims(claims: seq<Claim>): nat {
    StatusCount(claims, "resolved")
  }

  /** `stalledClaims`. */
  function StalledClaims(claims: seq<Claim>): nat {
    StatusCount(claims, "stalled")
  }

  /** A claim has one status, so the three counts together are at most the number of claims. */
  lemma StatusCountsBound(claims: seq<Claim>)
    ensures OpenClaims(claims) + ResolvedClaims(claims) + StalledClaims(claims) <= |claims|
  {
    CountDisjoint3(claims, HasStatus("open"), HasStatus("resolved"), HasStatus("stalled"));
  }

  /** `highRiskAdjusters`: impressions mentioning "high", case-insensitively. */
  function HighRiskAdjusters(adjusters: seq<Adjuster>): (n: nat)
    ensures n <= |adjusters|
    ensures n == 0 <==> forall a :: a in adjusters ==> a.riskImpression.None? || !Contains(ToLower(a.riskImpression.value), "high")
  {
    Count(adjusters, Mentions("high"))
  }

  /** An entry of `carrierStats`. */
  datatype CarrierStat = CarrierStat(name: string, adjusters: nat, claims: nat, open: nat, resolved: nat)

  /** The statistics of one carrier. */
  function StatOf(adjusters: seq<Adjuster>, claims: seq<Claim>, carrier: string): (r: CarrierStat)
    ensures r.name == carrier
    ensures r.adjusters == |AdjustersOf(adjusters, carrier)| && r.claims == |ClaimsOf(claims, carrier)|
    ensures r.open + r.resolved <= r.claims
  {
    var carrierClaims := ClaimsOf(claims, carrier);
    OpenResolvedBound(carrierClaims);
    CarrierStat(
      carrier,
      |AdjustersOf(adjusters, carrier)|,
      |carrierClaims|,
      Count(carrierClaims, HasStatus("open")),
      Count(carrierClaims, HasStatus("resolved")))
  }

  function ClaimsKey(s: CarrierStat): int {
    s.claims
  }

  /** The unsorted statistics, one per carrier in order of first appearance. */
  function Stats(adjusters: seq<Adjuster>, claims: seq<Claim>): (r: seq<CarrierStat>)
    ensures |r| == |Carriers(adjusters)|
    ensures forall i :: 0 <= i < |r| ==> r[i] == StatOf(adjusters, claims, Carriers(adjusters)[i])
  {
    var carriers := Carriers(adjusters);
    seq(|carriers|, i requires 0 <= i < |carriers| => StatOf(adjusters, claims, carriers[i]))
  }

  /** Any permutation of the unsorted statistics holds those of the carriers, each present. */
  lemma StatsMembers(adjusters: seq<Adjuster>, claims: seq<Claim>, r: seq<CarrierStat>)
    requires multiset(r) == multiset(Stats(adjusters, claims))
    ensures forall s :: s in r ==> s.name in Carriers(adjusters) && s == StatOf(adjusters, claims, s.name)
    ensures forall c :: c in Carriers(adjusters) ==> StatOf(adjusters, claims, c) in r
  {
    var carriers := Carriers(adjusters);
    var unsorted := Stats(adjusters, claims);
    forall s | s in r ensures s.name in carriers && s == StatOf(adjusters, claims, s.name) {
      assert s in multiset(unsorted);
      StatAt(adjusters, claims, s);
    }
    forall c | c in carriers ensures StatOf(adjusters, claims, c) in r {
      var i :| 0 <= i < |carriers| && carriers[i] == c;
      assert unsorted[i] == StatOf(adjusters, claims, c);
      assert unsorted[i] in multiset(r);
    }
  }

  /** An entry of the unsorted statistics is the statistics of its own carrier. */
  lemma StatAt(adjusters: seq<Adjuster>, claims: seq<Claim>, s: CarrierStat)
    requires s in Stats(adjusters, claims)
    ensures s.name in Carriers(adjusters) && s == StatOf(adjusters, claims, s.name)
  {
    var carriers := Carriers(adjusters);
    var unsorted := Stats(adjusters, claims);
    var i :| 0 <= i < |unsorted| && unsorted[i] == s;
    assert s == StatOf(adjusters, claims, carriers[i]);
    assert s.name == carriers[i];
  }

  /**
   * `carrierStats`: one entry per carrier, each the statistics of its name,
   * sorted by non-increasing claim count.
   */
  function CarrierStats(adjusters: seq<Adjuster>, claims: seq<Claim>): (r: seq<CarrierStat>)
    ensures |r| == |Carriers(adjusters)|
    ensures SortedDesc(r, ClaimsKey)
    ensures multiset(r) == multiset(Stats(adjusters, claims))
    ensures forall s :: s in r ==> s.name in Carriers(adjusters) && s == StatOf(adjusters, claims, s.name)
    ensures forall c :: c in Carriers(adjusters) ==> StatOf(adjusters, claims, c) in r
  {
    var r := SortDesc(Stats(adjusters, claims), ClaimsKey);
    StatsMembers(adjusters, claims, r);
    r
  }

  /** No carrier has two entries. */
  lemma CarrierStatsNamesDistinct(adjusters: seq<Adjuster>, claims: seq<Claim>)
    ensures forall i, j :: 0 <= i < j < |CarrierStats(adjusters, claims)| ==>
      CarrierStats(adjusters, claims)[i].name != CarrierStats(adjusters, claims)[j].name
  {
    var r := CarrierStats(adjusters, claims);
    var unsorted := Stats(adjusters, claims);
    assert NoDuplicates(unsorted) by {
      forall i, j | 0 <= i < j < |unsorted| ensures unsorted[i] != unsorted[j] {
        assert unsorted[i].name == Carriers(adjusters)[i];
      }
    }
    NoDuplicatesPermutation(unsorted, r);
    forall i, j | 0 <= i < j < |r| ensures r[i].name != r[j].name {
      assert r[i] in r && r[j] in r;
    }
  }

  /** The quotient of `x / d` lies within one divisor below `x`. */
  lemma DivBounds(x: nat, d: nat)
    requires d > 0
    ensures x - d < d * (x / d) <= x
  {
  }

  lemma MulLe(a: int, b: int, k: nat)
    requires a <= b
    ensures a * k <= b * k
  {
  }

  /** The arithmetic of rounding `count / total * 100` half up: `r` is the nearest integer. */
  lemma RoundedShare(count: nat, total: nat, r: nat)
    requires total > 0 && r == (200 * count + total) / (2 * total)
    ensures 2 * 100 * count - total < 2 * r * total <= 2 * 100 * count + total
  {
    DivBounds(200 * count + total, 2 * total);
    assert 2 * r * total == (2 * total) * r;
  }

  lemma RoundedShareAtMost100(count: nat, total: nat, r: nat)
    requires total > 0 && count <= total && r == (200 * count + total) / (2 * total)
    ensures r <= 100
  {
    assert 200 * count + total < (2 * total) * 101;
    DivBounds(200 * count + total, 2 * total);
    if r >= 101 {
      MulLe(101, r, 2 * total);
    }
  }

  lemma RoundedShareOfNone(total: nat, r: nat)
    requires total > 0 && r == (200 * 0 + total) / (2 * total)
    ensures r == 0
  {
    RoundedShare(0, total, r);
  }

  lemma RoundedShareOfAll(total: nat, r: nat)
    requires total > 0 && r == (200 * total + total) / (2 * total)
    ensures r == 100
  {
    RoundedShare(total, total, r);
    RoundedShareAtMost100(total, total, r);
    if r < 100 {
      MulLe(r, 99, 2 * total);
    }
  }

  /**
   * `Math.round((count / total) * 100)`, or 0 without a total, on the exact
   * ratio: the nearest integer, halves rounded up.
   */
  function Percentage(count: nat, total: nat): (r: nat)
    ensures total == 0 ==> r == 0
    ensures total > 0 ==> 2 * 100 * count - total < 2 * r * total <= 2 * 100 * count + total
    ensures count <= total ==> r <= 100
    ensures count == 0 ==> r == 0
    ensures total > 0 && count == total ==> r == 100
  {
    if total == 0 then 0
    else
      var r := (200 * count + total) / (2 * total);
      RoundedShare(count, total, r);
      if count <= total then
        RoundedShareAtMost100(count, total, r);
        if count == 0 then
          RoundedShareOfNone(total, r);
          r
        else if count == total then
          RoundedShareOfAll(total, r);
          r
        else r
      else r
  }

  /** The resolution rate: 0 with no claims, otherwise the rounded share of resolved claims, in 0..100. */
  function ResolutionRate(claims: seq<Claim>): (r: nat)
    ensures |claims| == 0 ==> r == 0
    ensures r <= 100
    ensures ResolvedClaims(claims) == 0 ==> r == 0
    ensures |claims| > 0 && ResolvedClaims(claims) == |claims| ==> r == 100
  {
    Percentage(ResolvedClaims(claims), |claims|)
  }

  /** One card of the risk distribution: the adjusters mentioning `risk`, and their rounded share. */
  function RiskShare(adjusters: seq<Adjuster>, risk: string): (r: (nat, nat))
    ensures r.0 == Count(adjusters, Mentions(risk))
    ensures r.1 <= 100
    ensures |adjusters| == 0 ==> r == (0, 0)
  {
    var count := Count(adjusters, Mentions(risk));
    (count, Percentage(count, |adjusters|))
  }

  /** The three cards, for "low", "medium" and "high". */
  function RiskDistribution(adjusters: seq<Adjuster>): (r: seq<(nat, nat)>)
    ensures |r| == 3
    ensures forall i :: 0 <= i < 3 ==> r[i].1 <= 100
  {
    [RiskShare(adjusters, "low"), RiskShare(adjusters, "medium"), RiskShare(adjusters, "high")]
  }

  /**
   * The buckets overlap: one adjuster whose impression mentions both "low"
   * and "medium" counts in both cards, so the counts add up to more than the
   * number of adjusters.
   */
  lemma RiskBucketsOverlap(a: Adjuster)
    requires a.riskImpression.Some?
    requires Contains(ToLower(a.riskImpression.value), "low")
    requires Contains(ToLower(a.riskImpression.value), "medium")
    ensures RiskDistribution([a])[0].0 == 1 && RiskDistribution([a])[1].0 == 1
    ensures RiskDistribution([a])[0].0 + RiskDistribution([a])[1].0 + RiskDistribution([a])[2].0 > |[a]|
  {
    assert Mentions("low")(a) && Mentions("medium")(a);
    assert a in Filter([a], Mentions("low"));
    assert a in Filter([a], Mentions("medium"));
  }

  lemma ToLowerLowMedium()
    ensures ToLower("low to medium") == "low to medium"
  {
    var s := "low to medium";
    forall i | 0 <= i < |s| ensures LowerChar(s[i]) == s[i] {
      assert s[i] == ' ' || 'a' <= s[i] <= 'z';
    }
  }

  /** Such an adjuster exists: an impression reading "low to medium" is counted in both cards. */
  lemma RiskBucketsOverlapExample(a: Adjuster)
    requires a.riskImpression == Some("low to medium")
    ensures RiskDistribution([a])[0].0 + RiskDistribution([a])[1].0 + RiskDistribution([a])[2].0 > |[a]|
  {
    var s := "low to medium";
    ToLowerLowMedium();
    assert OccursAt(s, "low", 0);
    assert OccursAt(s, "medium", 7);
    RiskBucketsOverlap(a);
  }
}
