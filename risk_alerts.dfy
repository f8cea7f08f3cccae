/**
 * The risk-alerts page (client/src/pages/risk-alerts.tsx): a keyword-driven
 * risk score per adjuster, its banding, the per-adjuster claim tally over the
 * junction rows, the scored list sorted by score, the high-risk filter, the
 * RED/YELLOW/GREEN classification and the top-ten carrier breakdown.
 */
module RiskAlerts {
  import opened Wrappers
  import opened Strings
  import opened Seqs
  import opened Sorting
  import opened Records

  /** `(adjuster.riskImpression || '').toLowerCase()`. */
  function Impression(riskImpression: Option<string>): string {
    ToLower(riskImpression.GetOr(""))
  }

  /** A keyword group adds its amount once when either of its keywords occurs, however often. */
  function GroupAdjustment(impression: string, first: string, second: string, amount: int): int {
    if Contains(impression, first) || Contains(impression, second) then amount else 0
  }

  /** The seven keyword groups of the score, raising and lowering it. */
  function Adjustments(impression: string): int {
    GroupAdjustment(impression, "difficult", "aggressive", 15)
    + GroupAdjustment(impression, "unresponsive", "delay", 10)
    + GroupAdjustment(impression, "denied", "rejection", 10)
    + GroupAdjustment(impression, "lowball", "scope reduction", 10)
    + GroupAdjustment(impression, "fair", "reasonable", -15)
    + GroupAdjustment(impression, "responsive", "cooperative", -10)
    + GroupAdjustment(impression, "approved", "professional", -10)
  }

  /** More than five claims add five points. */
  function ClaimBonus(claimCount: int): int {
    if claimCount > 5 then 5 else 0
  }

  /** `Math.max(lo, Math.min(hi, x))`. */
  function Clamp(x: int, lo: int, hi: int): int {
    if x > hi then hi else if x < lo then lo else x
  }

  /**
   * The value of `calculateRiskScore`: base 50, the keyword adjustments and the
   * claim bonus, clamped to 0..100. The adjustments alone keep it in 15..100,
   * so the clamp never changes the sum.
   */
  function RiskScore(riskImpression: Option<string>, claimCount: int): (r: int)
    ensures 15 <= r <= 100
    ensures r == 50 + Adjustments(Impression(riskImpression)) + ClaimBonus(claimCount)
  {
    Clamp(50 + Adjustments(Impression(riskImpression)) + ClaimBonus(claimCount), 0, 100)
  }

  /** `calculateRiskScore`, step by step on a local score as the source does it. */
  method CalculateRiskScore(adjuster: Adjuster, claimCount: int) returns (score: int)
    ensures score == RiskScore(adjuster.riskImpression, claimCount)
    ensures 0 <= score <= 100
  {
    score := 50;
    var impression := ToLower(adjuster.riskImpression.GetOr(""));
    score := AddIfMentioned(score, impression, "difficult", "aggressive", 15);
    score := AddIfMentioned(score, impression, "unresponsive", "delay", 10);
    score := AddIfMentioned(score, impression, "denied", "rejection", 10);
    score := AddIfMentioned(score, impression, "lowball", "scope reduction", 10);
    score := AddIfMentioned(score, impression, "fair", "reasonable", -15);
    score := AddIfMentioned(score, impression, "responsive", "cooperative", -10);
    score := AddIfMentioned(score, impression, "approved", "professional", -10);
    if claimCount > 5 { score := score + 5; }
    score := if score > 100 then 100 else score;
    score := if score < 0 then 0 else score;
  }

  /** One `if (impression.includes(first) || impression.includes(second)) score += amount` step. */
  method AddIfMentioned(score: int, impression: string, first: string, second: string, amount: int) returns (r: int)
    ensures r == score + GroupAdjustment(impression, first, second, amount)
  {
    r := score;
    if Contains(impression, first) || Contains(impression, second) {
      r := r + amount;
    }
  }

  /** Which keyword groups an impression hits. */
  function KeywordProfile(impression: string): seq<bool> {
    [ Contains(impression, "difficult") || Contains(impression, "aggressive"),
      Contains(impression, "unresponsive") || Contains(impression, "delay"),
      Contains(impression, "denied") || Contains(impression, "rejection"),
      Contains(impression, "lowball") || Contains(impression, "scope reduction"),
      Contains(impression, "fair") || Contains(impression, "reasonable"),
      Contains(impression, "responsive") || Contains(impression, "cooperative"),
      Contains(impression, "approved") || Contains(impression, "professional") ]
  }

  /** The score sees only which groups are hit: repeating a keyword changes nothing. */
  lemma ScoreDependsOnlyOnProfile(a: Option<string>, b: Option<string>, claimCount: int)
    requires KeywordProfile(Impression(a)) == KeywordProfile(Impression(b))
    ensures RiskScore(a, claimCount) == RiskScore(b, claimCount)
  {
    var ia, ib := Impression(a), Impression(b);
    var pa, pb := KeywordProfile(ia), KeywordProfile(ib);
    assert GroupAdjustment(ia, "difficult", "aggressive", 15) == GroupAdjustment(ib, "difficult", "aggressive", 15) by {
      assert pa[0] == pb[0];
    }
    assert GroupAdjustment(ia, "unresponsive", "delay", 10) == GroupAdjustment(ib, "unresponsive", "delay", 10) by {
      assert pa[1] == pb[1];
    }
    assert GroupAdjustment(ia, "denied", "rejection", 10) == GroupAdjustment(ib, "denied", "rejection", 10) by {
      assert pa[2] == pb[2];
    }
    assert GroupAdjustment(ia, "lowball", "scope reduction", 10) == GroupAdjustment(ib, "lowball", "scope reduction", 10) by {
      assert pa[3] == pb[3];
    }
    assert GroupAdjustment(ia, "fair", "reasonable", -15) == GroupAdjustment(ib, "fair", "reasonable", -15) by {
      assert pa[4] == pb[4];
    }
    assert GroupAdjustment(ia, "responsive", "cooperative", -10) == GroupAdjustment(ib, "responsive", "cooperative", -10) by {
      assert pa[5] == pb[5];
    }
    assert GroupAdjustment(ia, "approved", "professional", -10) == GroupAdjustment(ib, "approved", "professional", -10) by {
      assert pa[6] == pb[6];
    }
  }

  /** Matching ignores ASCII case: an impression scores as its lower-cased form does. */
  lemma ScoreIgnoresCase(impression: string, claimCount: int)
    ensures RiskScore(Some(ToLower(impression)), claimCount) == RiskScore(Some(impression), claimCount)
  {
    ToLowerIdempotent(impression);
  }

  /**
   * The claim count only matters through the bonus: the score is monotone in
   * it, crossing from at most five to more than five adds exactly five, and
   * counts on the same side of five score alike.
   */
  lemma ScoreClaimCount(riskImpression: Option<string>, c1: int, c2: int)
    requires c1 <= c2
    ensures RiskScore(riskImpression, c1) <= RiskScore(riskImpression, c2)
    ensures c1 <= 5 < c2 ==> RiskScore(riskImpression, c2) == RiskScore(riskImpression, c1) + 5
    ensures (c2 <= 5 || c1 > 5) ==> RiskScore(riskImpression, c2) == RiskScore(riskImpression, c1)
  {
  }

  /** "responsive" sits inside "unresponsive", two characters in. */
  lemma UnresponsiveHasResponsive(s: string)
    requires Contains(s, "unresponsive")
    ensures Contains(s, "responsive")
  {
    var i :| OccursAt(s, "unresponsive", i);
    assert s[i + 2..i + 12] == s[i..i + 12][2..];
    assert "unresponsive"[2..] == "responsive";
    assert OccursAt(s, "responsive", i + 2);
  }

  /**
   * An impression mentioning "unresponsive" always also hits the
   * "responsive" group, so the +10 of the one group is cancelled by the -10 of
   * the other: the word "unresponsive" never raises the score.
   */
  lemma UnresponsiveCancels(impression: string)
    requires Contains(impression, "unresponsive")
    ensures GroupAdjustment(impression, "unresponsive", "delay", 10)
          + GroupAdjustment(impression, "responsive", "cooperative", -10) == 0
  {
    UnresponsiveHasResponsive(impression);
  }

  /** The four bands of `getRiskLevel`, with the label and colour classes the page shows. */
  datatype RiskLevel = HighRisk | Elevated | Moderate | LowRisk {

    function Label(): string {
      match this
      case HighRisk => "High Risk"
      case Elevated => "Elevated"
      case Moderate => "Moderate"
      case LowRisk => "Low Risk"
    }

    function Color(): string {
      match this
      case HighRisk => "text-red-500"
      case Elevated => "text-amber-500"
      case Moderate => "text-yellow-500"
      case LowRisk => "text-green-500"
    }

    function BgColor(): string {
      match this
      case HighRisk => "bg-red-500"
      case Elevated => "bg-amber-500"
      case Moderate => "bg-yellow-500"
      case LowRisk => "bg-green-500"
    }

    /** The severity order of the bands. */
    function Rank(): nat {
      match this
      case HighRisk => 3
      case Elevated => 2
      case Moderate => 1
      case LowRisk => 0
    }
  }

  /** `getRiskLevel`: at least 75, 60, 40, or below 40. */
  function GetRiskLevel(score: int): (r: RiskLevel)
    ensures r == HighRisk <==> score >= 75
    ensures r == Elevated <==> 60 <= score < 75
    ensures r == Moderate <==> 40 <= score < 60
    ensures r == LowRisk <==> score < 40
  {
    if score >= 75 then HighRisk
    else if score >= 60 then Elevated
    else if score >= 40 then Moderate
    else LowRisk
  }

  /** A higher score never gets a less severe band. */
  lemma RiskLevelMonotone(s1: int, s2: int)
    requires s1 <= s2
    ensures GetRiskLevel(s1).Rank() <= GetRiskLevel(s2).Rank()
  {
  }

  /** The junction-row test "belongs to adjuster `id`". */
  function RowFor(id: string): ClaimAdjuster -> bool {
    (row: ClaimAdjuster) => row.adjusterId == id
  }

  /** The number of junction rows naming adjuster `id`. */
  function ClaimCount(rows: seq<ClaimAdjuster>, id: string): nat {
    Count(rows, RowFor(id))
  }

  /** `counts[id] || 0`. */
  function CountOr0(counts: map<string, nat>, id: string): nat {
    if id in counts then counts[id] else 0
  }

  /**
   * The tally of `adjusterClaimCounts` over the junction rows: every adjuster's
   * count, read with `|| 0`, is the number of its rows; only adjusters with a
   * row get an entry.
   */
  method TallyClaimCounts(rows: seq<ClaimAdjuster>) returns (counts: map<string, nat>)
    ensures forall id :: CountOr0(counts, id) == ClaimCount(rows, id)
    ensures forall id :: id in counts ==> counts[id] >= 1
  {
    counts := map[];
    assert rows[..0] == [];
    for i := 0 to |rows|
      invariant forall id :: CountOr0(counts, id) == ClaimCount(rows[..i], id)
      invariant forall id :: id in counts ==> counts[id] >= 1
    {
      var id := rows[i].adjusterId;
      var after := counts[id := CountOr0(counts, id) + 1];
      TallyStep(rows, i, counts, after);
      counts := after;
    }
    assert rows[..|rows|] == rows;
  }

  /** Counting row `i` into a tally of the rows before it gives the tally of the rows up to it. */
  lemma TallyStep(rows: seq<ClaimAdjuster>, i: nat, before: map<string, nat>, after: map<string, nat>)
    requires i < |rows|
    requires forall id :: CountOr0(before, id) == ClaimCount(rows[..i], id)
    requires forall id :: id in before ==> before[id] >= 1
    requires after == before[rows[i].adjusterId := CountOr0(before, rows[i].adjusterId) + 1]
    ensures forall k :: CountOr0(after, k) == ClaimCount(rows[..i + 1], k)
    ensures forall k :: k in after ==> after[k] >= 1
  {
    var id := rows[i].adjusterId;
    forall k ensures CountOr0(after, k) == ClaimCount(rows[..i + 1], k) {
      ClaimCountSnoc(rows, i, k);
      if k == id {
        assert CountOr0(after, k) == CountOr0(before, k) + 1;
      } else {
        assert CountOr0(after, k) == CountOr0(before, k);
      }
    }
  }

  lemma ClaimCountSnoc(rows: seq<ClaimAdjuster>, i: nat, id: string)
    requires i < |rows|
    ensures ClaimCount(rows[..i + 1], id) == ClaimCount(rows[..i], id) + (if rows[i].adjusterId == id then 1 else 0)
  {
    assert rows[..i + 1] == rows[..i] + [rows[i]];
    CountSnoc(rows[..i], rows[i], RowFor(id));
  }

  /** An adjuster with its score and claim count (`AdjusterWithScore`). */
  datatype ScoredAdjuster = ScoredAdjuster(adjuster: Adjuster, riskScore: int, claimCount: nat)

  function Score(counts: map<string, nat>): Adjuster -> ScoredAdjuster {
    (a: Adjuster) => ScoredAdjuster(a, RiskScore(a.riskImpression, CountOr0(counts, a.id)), CountOr0(counts, a.id))
  }

  function ScoreKey(s: ScoredAdjuster): int {
    s.riskScore
  }

  /**
   * `adjustersWithScores`: every adjuster scored with its tallied count, sorted
   * by non-increasing score; a permutation of the scored adjusters.
   */
  function AdjustersWithScores(adjusters: seq<Adjuster>, counts: map<string, nat>): (r: seq<ScoredAdjuster>)
    ensures |r| == |adjusters|
    ensures SortedDesc(r, ScoreKey)
    ensures multiset(r) == multiset(Map(adjusters, Score(counts)))
    ensures forall s :: s in r ==>
      && s.adjuster in adjusters
      && s.claimCount == CountOr0(counts, s.adjuster.id)
      && s.riskScore == RiskScore(s.adjuster.riskImpression, s.claimCount)
      && 0 <= s.riskScore <= 100
  {
    var r := SortDesc(Map(adjusters, Score(counts)), ScoreKey);
    ScoredMembers(adjusters, counts, r);
    r
  }

  /** Each entry of a permutation of the scored adjusters is one adjuster with its count and score. */
  lemma ScoredMembers(adjusters: seq<Adjuster>, counts: map<string, nat>, r: seq<ScoredAdjuster>)
    requires multiset(r) == multiset(Map(adjusters, Score(counts)))
    ensures forall s :: s in r ==>
      && s.adjuster in adjusters
      && s.claimCount == CountOr0(counts, s.adjuster.id)
      && s.riskScore == RiskScore(s.adjuster.riskImpression, s.claimCount)
  {
    var scored := Map(adjusters, Score(counts));
    forall s | s in r
      ensures s.adjuster in adjusters && s.claimCount == CountOr0(counts, s.adjuster.id)
      ensures s.riskScore == RiskScore(s.adjuster.riskImpression, s.claimCount)
    {
      assert s in multiset(scored);
      var i :| 0 <= i < |scored| && scored[i] == s;
      assert s == Score(counts)(adjusters[i]);
    }
  }

  predicate IsHighRisk(s: ScoredAdjuster) {
    s.riskScore >= 60
  }

  /** `highRiskAdjusters`: exactly the scored entries at 60 or more, in the sorted order. */
  function HighRiskAdjusters(scored: seq<ScoredAdjuster>): (r: seq<ScoredAdjuster>)
    ensures forall s :: s in r ==> s in scored && s.riskScore >= 60
    ensures forall s :: s in scored && s.riskScore >= 60 ==> s in r
  {
    Filter(scored, IsHighRisk)
  }

  /** The high-risk list keeps the scored list's order, so it is still sorted by score. */
  lemma HighRiskSorted(scored: seq<ScoredAdjuster>)
    requires SortedDesc(scored, ScoreKey)
    ensures SortedDesc(HighRiskAdjusters(scored), ScoreKey)
    ensures IsSubsequence(HighRiskAdjusters(scored), scored)
  {
    FilterSorted(scored, ScoreKey, IsHighRisk);
    FilterIsSubsequence(scored, IsHighRisk);
  }

  /** The classification buckets of the page. */
  predicate IsRed(s: ScoredAdjuster) { s.riskScore >= 70 }
  predicate IsYellow(s: ScoredAdjuster) { s.riskScore >= 50 && s.riskScore < 70 }
  predicate IsGreen(s: ScoredAdjuster) { s.riskScore < 50 }

  /** RED, YELLOW and GREEN partition the adjusters: their counts add up to the total. */
  lemma BucketsPartition(scored: seq<ScoredAdjuster>)
    ensures Count(scored, IsRed) + Count(scored, IsYellow) + Count(scored, IsGreen) == |scored|
  {
    CountPartition3(scored, IsRed, IsYellow, IsGreen);
  }

  function CarrierOf(a: Adjuster): string {
    a.carrier
  }

  /** `adjusters.map(a => a.carrier)`. */
  function Carriers(adjusters: seq<Adjuster>): (r: seq<string>)
    ensures |r| == |adjusters|
    ensures forall i :: 0 <= i < |adjusters| ==> r[i] == adjusters[i].carrier
  {
    Map(adjusters, CarrierOf)
  }

  function HasCarrier(carrier: string): Adjuster -> bool {
    (a: Adjuster) => a.carrier == carrier
  }

  /** The number of adjusters of `carrier`. */
  function CarrierCount(adjusters: seq<Adjuster>, carrier: string): nat {
    Count(adjusters, HasCarrier(carrier))
  }

  lemma CarriersSnoc(adjusters: seq<Adjuster>, i: nat)
    requires i < |adjusters|
    ensures Carriers(adjusters[..i + 1]) == Carriers(adjusters[..i]) + [adjusters[i].carrier]
  {
  }

  lemma CarrierCountSnoc(adjusters: seq<Adjuster>, i: nat, carrier: string)
    requires i < |adjusters|
    ensures CarrierCount(adjusters[..i + 1], carrier) ==
      CarrierCount(adjusters[..i], carrier) + (if adjusters[i].carrier == carrier then 1 else 0)
  {
    assert adjusters[..i + 1] == adjusters[..i] + [adjusters[i]];
    CountSnoc(adjusters[..i], adjusters[i], HasCarrier(carrier));
  }

  /**
   * The tally of `carrierCounts`: `order` is the carriers in the order their
   * keys were first inserted, and each carrier's count is its number of
   * adjusters. `Object.entries` lists keys in this order only when no carrier
   * name is an array index such as "7" (those come first, in numeric order)
   * and none is an `Object.prototype` member such as "constructor" (those are
   * tallied differently); the model assumes such names do not occur.
   */
  method TallyCarriers(adjusters: seq<Adjuster>) returns (order: seq<string>, counts: map<string, nat>)
    ensures order == Distinct(Carriers(adjusters))
    ensures forall c :: c in counts <==> c in order
    ensures forall c :: CountOr0(counts, c) == CarrierCount(adjusters, c)
  {
    order, counts := [], map[];
    for i := 0 to |adjusters|
      invariant order == Distinct(Carriers(adjusters[..i]))
      invariant forall c :: c in counts <==> c in order
      invariant forall c :: CountOr0(counts, c) == CarrierCount(adjusters[..i], c)
    {
      var carrier := adjusters[i].carrier;
      CarriersSnoc(adjusters, i);
      DistinctSnoc(Carriers(adjusters[..i]), carrier);
      ghost var before := counts;
      if carrier !in counts {
        order := order + [carrier];
      }
      counts := counts[carrier := CountOr0(counts, carrier) + 1];
      forall c ensures CountOr0(counts, c) == CarrierCount(adjusters[..i + 1], c) {
        CarrierCountSnoc(adjusters, i, c);
        assert CountOr0(before, c) == CarrierCount(adjusters[..i], c);
      }
    }
    assert adjusters[..|adjusters|] == adjusters;
  }

  function EntryCount(e: (string, nat)): int {
    e.1
  }

  /** `Object.entries(...).sort((a, b) => b[1] - a[1]).slice(0, 10)`. */
  function TopTen(entries: seq<(string, nat)>): (r: seq<(string, nat)>)
    ensures |r| == if |entries| < 10 then |entries| else 10
    ensures SortedDesc(r, EntryCount)
    ensures multiset(r) <= multiset(entries)
    ensures forall e, d :: e in r && d in multiset(entries) - multiset(r) ==> e.1 >= d.1
  {
    var sorted := SortDesc(entries, EntryCount);
    var k := if |sorted| < 10 then |sorted| else 10;
    TakeDominates(sorted, EntryCount, k);
    sorted[..k]
  }

  /**
   * `Object.entries(carrierCounts)`: the (carrier, count) pairs in insertion
   * order, which is the order JavaScript uses for keys that are not array
   * indices.
   */
  function Entries(order: seq<string>, counts: map<string, nat>): (r: seq<(string, nat)>)
    requires forall c :: c in order ==> c in counts
    ensures |r| == |order|
    ensures forall i :: 0 <= i < |order| ==> r[i].0 == order[i] && r[i].1 == counts[order[i]]
  {
    seq(|order|, i requires 0 <= i < |order| => (order[i], counts[order[i]]))
  }

  /** The entries of a carrier tally are exactly the carriers with their adjuster counts. */
  lemma TallyEntries(adjusters: seq<Adjuster>, order: seq<string>, counts: map<string, nat>)
    requires order == Distinct(Carriers(adjusters))
    requires forall c :: c in counts <==> c in order
    requires forall c :: CountOr0(counts, c) == CarrierCount(adjusters, c)
    ensures forall e :: e in Entries(order, counts) ==>
      e.0 in Carriers(adjusters) && e.1 == CarrierCount(adjusters, e.0) && e.1 >= 1
    ensures forall c :: c in Carriers(adjusters) ==> (c, CarrierCount(adjusters, c)) in Entries(order, counts)
  {
    var entries := Entries(order, counts);
    var carriers := Carriers(adjusters);
    forall e | e in entries ensures e.0 in carriers && e.1 == CarrierCount(adjusters, e.0) && e.1 >= 1 {
      var i :| 0 <= i < |entries| && entries[i] == e;
      var c := order[i];
      assert c in order && e == (c, counts[c]);
      assert c in carriers;
      assert CountOr0(counts, c) == counts[c];
      CarrierPresent(adjusters, c);
    }
    forall c | c in carriers ensures (c, CarrierCount(adjusters, c)) in entries {
      assert c in order;
      var i :| 0 <= i < |order| && order[i] == c;
      assert CountOr0(counts, c) == counts[c];
      assert entries[i] == (c, CarrierCount(adjusters, c));
    }
  }

  /**
   * The carrier breakdown of the page: at most ten (carrier, count) entries,
   * sorted by non-increasing count, each count the carrier's number of
   * adjusters and at least one, no carrier twice, and every carrier present
   * when there are at most ten.
   */
  method CarrierBreakdown(adjusters: seq<Adjuster>) returns (r: seq<(string, nat)>)
    ensures |r| <= 10
    ensures SortedDesc(r, EntryCount)
    ensures forall e :: e in r ==> e.0 in Carriers(adjusters) && e.1 == CarrierCount(adjusters, e.0) && e.1 >= 1
    ensures |Distinct(Carriers(adjusters))| <= 10 ==>
      forall c :: c in Carriers(adjusters) ==> (c, CarrierCount(adjusters, c)) in r
  {
    var order, counts := TallyCarriers(adjusters);
    var entries := Entries(order, counts);
    r := TopTen(entries);
    TallyEntries(adjusters, order, counts);
    forall e | e in r ensures e in entries {
      assert e in multiset(r);
    }
    if |entries| <= 10 {
      TopTenAll(entries);
      forall c | c in Carriers(adjusters) ensures (c, CarrierCount(adjusters, c)) in r {
        assert (c, CarrierCount(adjusters, c)) in multiset(entries);
      }
    }
  }

  /** With at most ten entries nothing is cut off. */
  lemma TopTenAll(entries: seq<(string, nat)>)
    requires |entries| <= 10
    ensures multiset(TopTen(entries)) == multiset(entries)
  {
    var r := TopTen(entries);
    assert |multiset(r)| == |multiset(entries)|;
    assert multiset(entries) == multiset(r) + (multiset(entries) - multiset(r));
  }

  /** A carrier of some adjuster is counted at least once. */
  lemma CarrierPresent(adjusters: seq<Adjuster>, carrier: string)
    requires carrier in Carriers(adjusters)
    ensures CarrierCount(adjusters, carrier) >= 1
  {
    var j :| 0 <= j < |adjusters| && Carriers(adjusters)[j] == carrier;
    assert adjusters[j] in Filter(adjusters, HasCarrier(carrier));
  }
}
