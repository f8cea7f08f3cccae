/**
 * The supplements page (client/src/pages/supplements.tsx): the RCV and ACV
 * increase totals in integer cents, the pending and O&P-applied counts, the
 * dollar input rendering, and the form state that the scope-driver checkboxes
 * and the create button change.
 */
module Supplements {
  import opened Wrappers
  import opened Strings
  import opened Seqs

  /** A stored supplement, with the fields the page reads; money is in cents and may be null. */
  datatype Supplement = Supplement(
    id: string,
    claimId: string,
    title: string,
    status: string,
    originalRcv: Option<int>,
    revisedRcv: Option<int>,
    originalAcv: Option<int>,
    revisedAcv: Option<int>,
    scopeDrivers: Option<seq<string>>,
    opStatus: Option<string>)

  /** The create form (`SupplementFormData`). */
  datatype SupplementForm = SupplementForm(
    claimId: string,
    title: string,
    description: string,
    status: string,
    originalRcv: Option<int>,
    revisedRcv: Option<int>,
    originalAcv: Option<int>,
    revisedAcv: Option<int>,
    scopeDrivers: seq<string>,
    opStatus: string,
    notes: string)

  /** `defaultFormData`. */
  const DefaultForm := SupplementForm("", "", "", "pending", None, None, None, None, [], "Not Addressed", "")

  /** `Math.max(0, (revised || 0) - (original || 0))`: a decrease counts as no increase. */
  function Increase(original: Option<int>, revised: Option<int>): (d: nat)
    ensures d == 0 <==> revised.GetOr(0) <= original.GetOr(0)
    ensures d > 0 ==> d == revised.GetOr(0) - original.GetOr(0)
    ensures d >= revised.GetOr(0) - original.GetOr(0)
  {
    var increase := revised.GetOr(0) - original.GetOr(0);
    if increase > 0 then increase else 0
  }

  function RcvIncrease(s: Supplement): nat {
    Increase(s.originalRcv, s.revisedRcv)
  }

  function AcvIncrease(s: Supplement): nat {
    Increase(s.originalAcv, s.revisedAcv)
  }

  /** The `reduce` of the per-supplement increases, starting from 0. */
  function Total(sups: seq<Supplement>, increase: Supplement -> nat): nat {
    if |sups| == 0 then 0 else Total(sups[..|sups| - 1], increase) + increase(sups[|sups| - 1])
  }

  /** `totalRcvIncrease`: it bounds every increase, and it is 0 exactly when no RCV goes up. */
  function TotalRcvIncrease(sups: seq<Supplement>): (r: nat)
    ensures forall i :: 0 <= i < |sups| ==> RcvIncrease(sups[i]) <= r
    ensures r == 0 <==> forall s :: s in sups ==> RcvIncrease(s) == 0
  {
    TotalZero(sups, RcvIncrease);
    Total(sups, RcvIncrease)
  }

  /** `totalAcvIncrease`: it bounds every increase, and it is 0 exactly when no ACV goes up. */
  function TotalAcvIncrease(sups: seq<Supplement>): (r: nat)
    ensures forall i :: 0 <= i < |sups| ==> AcvIncrease(sups[i]) <= r
    ensures r == 0 <==> forall s :: s in sups ==> AcvIncrease(s) == 0
  {
    TotalZero(sups, AcvIncrease);
    Total(sups, AcvIncrease)
  }

  /** The total bounds each increase, and it is 0 exactly when every increase is. */
  lemma TotalZero(sups: seq<Supplement>, increase: Supplement -> nat)
    ensures forall i :: 0 <= i < |sups| ==> increase(sups[i]) <= Total(sups, increase)
    ensures Total(sups, increase) == 0 <==> forall s :: s in sups ==> increase(s) == 0
  {
    forall i | 0 <= i < |sups|
      ensures increase(sups[i]) <= Total(sups, increase)
    {
      TotalBoundsEach(sups, increase, i);
    }
    if forall s :: s in sups ==> increase(s) == 0 {
      TotalOfNoIncrease(sups, increase);
    }
  }

  /** Without any increase, the total is 0. */
  lemma {:induction false} TotalOfNoIncrease(sups: seq<Supplement>, increase: Supplement -> nat)
    requires forall s :: s in sups ==> increase(s) == 0
    ensures Total(sups, increase) == 0
    decreases |sups|
  {
    if |sups| > 0 {
      var init := sups[..|sups| - 1];
      assert forall s :: s in init ==> s in sups;
      TotalOfNoIncrease(init, increase);
      assert sups[|sups| - 1] in sups;
    }
  }

  /** The total of a concatenation is the sum of the totals. */
  lemma {:induction false} TotalAppend(a: seq<Supplement>, b: seq<Supplement>, increase: Supplement -> nat)
    ensures Total(a + b, increase) == Total(a, increase) + Total(b, increase)
    decreases |b|
  {
    if |b| > 0 {
      TotalAppend(a, b[..|b| - 1], increase);
      assert (a + b)[..|a + b| - 1] == a + b[..|b| - 1];
    } else {
      assert a + b == a;
    }
  }

  /** Every supplement's own increase is part of the total: the total bounds each contribution. */
  lemma {:induction false} TotalBoundsEach(sups: seq<Supplement>, increase: Supplement -> nat, i: nat)
    requires i < |sups|
    ensures increase(sups[i]) <= Total(sups, increase)
    decreases |sups|
  {
    if i < |sups| - 1 {
      TotalBoundsEach(sups[..|sups| - 1], increase, i);
    }
  }

  function HasIncrease(increase: Supplement -> nat): Supplement -> bool {
    (s: Supplement) => increase(s) > 0
  }

  /** Supplements without an increase contribute nothing: dropping them leaves the total. */
  lemma {:induction false} TotalOnlyIncreases(sups: seq<Supplement>, increase: Supplement -> nat)
    ensures Total(sups, increase) == Total(Filter(sups, HasIncrease(increase)), increase)
    decreases |sups|
  {
    var p := HasIncrease(increase);
    if |sups| > 0 {
      var init, last := sups[..|sups| - 1], sups[|sups| - 1];
      assert sups == init + [last];
      TotalOnlyIncreases(init, increase);
      FilterAppend(init, [last], p);
      TotalAppend(Filter(init, p), Filter([last], p), increase);
      assert Total([last], increase) == increase(last) by {
        assert [last][..0] == [];
      }
      if p(last) {
        assert Filter([last], p) == [last] by {
          assert [last][1..] == [];
        }
      } else {
        assert Filter([last], p) == [] by {
          assert [last][1..] == [];
        }
      }
    }
  }

  /** The sum of `revised - original` over the supplements, nulls as 0: the net change. */
  function NetRcvChange(sups: seq<Supplement>): int {
    if |sups| == 0 then 0
    else
      var last := sups[|sups| - 1];
      NetRcvChange(sups[..|sups| - 1]) + (last.revisedRcv.GetOr(0) - last.originalRcv.GetOr(0))
  }

  /** Because decreases are clamped to 0, the RCV total is never below the net change. */
  lemma {:induction false} TotalRcvAtLeastNet(sups: seq<Supplement>)
    ensures TotalRcvIncrease(sups) >= NetRcvChange(sups)
  {
    if |sups| > 0 {
      TotalRcvAtLeastNet(sups[..|sups| - 1]);
    }
  }

  /** With no decreasing supplement the RCV total is the net change. */
  lemma {:induction false} TotalRcvIsNet(sups: seq<Supplement>)
    requires forall s :: s in sups ==> s.originalRcv.GetOr(0) <= s.revisedRcv.GetOr(0)
    ensures TotalRcvIncrease(sups) == NetRcvChange(sups)
  {
    if |sups| > 0 {
      assert sups[|sups| - 1] in sups;
      TotalRcvIsNet(sups[..|sups| - 1]);
    }
  }

  predicate IsPending(s: Supplement) {
    s.status == "pending" || s.status == "submitted"
  }

  predicate IsOpApplied(s: Supplement) {
    s.opStatus == Some("Applied")
  }

  /** `pendingCount`: the supplements pending or submitted; at most all, and 0 exactly when none is. */
  function PendingCount(sups: seq<Supplement>): (n: nat)
    ensures n <= |sups|
    ensures n == 0 <==> forall s :: s in sups ==> !IsPending(s)
  {
    Count(sups, IsPending)
  }

  /** `opAppliedCount`: the supplements whose O&P status is "Applied". */
  function OpAppliedCount(sups: seq<Supplement>): (n: nat)
    ensures n <= |sups|
    ensures n == 0 <==> forall s :: s in sups ==> !IsOpApplied(s)
  {
    Count(sups, IsOpApplied)
  }

  /** Pending and not pending split the supplements. */
  lemma PendingComplement(sups: seq<Supplement>)
    ensures PendingCount(sups) + Count(sups, (s: Supplement) => !IsPending(s)) == |sups|
  {
    CountComplement(sups, IsPending, (s: Supplement) => !IsPending(s));
  }

  function IsNot(driver: string): string -> bool {
    (d: string) => d != driver
  }

  /** The new scope-driver list: `[...current, driver]` when checked, otherwise `current.filter(d => d !== driver)`. */
  function Toggled(current: seq<string>, driver: string, checked: bool): (r: seq<string>)
    ensures checked ==> |r| == |current| + 1 && r[..|current|] == current && r[|current|] == driver
    ensures !checked ==> driver !in r && IsSubsequence(r, current)
    ensures !checked ==> forall d :: d != driver ==> multiset(r)[d] == multiset(current)[d]
  {
    if checked then current + [driver]
    else
      FilterIsSubsequence(current, IsNot(driver));
      FilterKeepsOthers(current, driver);
      Filter(current, IsNot(driver))
  }

  lemma {:induction false} FilterKeepsOthers(current: seq<string>, driver: string)
    ensures forall d :: d != driver ==> multiset(Filter(current, IsNot(driver)))[d] == multiset(current)[d]
  {
    if |current| > 0 {
      FilterKeepsOthers(current[1..], driver);
      assert current == [current[0]] + current[1..];
    }
  }

  /** Unchecking after checking leaves the list as unchecking alone would. */
  lemma ToggleOnThenOff(current: seq<string>, driver: string)
    ensures Toggled(Toggled(current, driver, true), driver, false) == Toggled(current, driver, false)
  {
    FilterAppend(current, [driver], IsNot(driver));
  }

  /** Unchecking twice is unchecking once, and unchecking a missing driver changes nothing. */
  lemma ToggleOffIdempotent(current: seq<string>, driver: string)
    ensures Toggled(Toggled(current, driver, false), driver, false) == Toggled(current, driver, false)
    ensures driver !in current ==> Toggled(current, driver, false) == current
  {
    FilterAll(Toggled(current, driver, false), IsNot(driver));
    if driver !in current {
      FilterAll(current, IsNot(driver));
    }
  }

  /** The form `handleCreate` submits, or None ("Missing Fields") without a claim or a title. */
  function CreateRequest(form: SupplementForm): (r: Option<SupplementForm>)
    ensures r.None? <==> form.claimId == "" || form.title == ""
    ensures r.Some? ==> r.value == form
  {
    if form.claimId == "" || form.title == "" then None else Some(form)
  }

  /**
   * `formatDollarInput`: "" for a null or zero amount; otherwise the amount in
   * dollars with two decimals, as `toFixed(2)` prints an exact number of cents.
   */
  function FormatDollarInput(cents: Option<int>): (r: string)
    ensures r == "" <==> cents.GetOr(0) == 0
  {
    var c := cents.GetOr(0);
    if c == 0 then ""
    else
      var m := if c < 0 then -c else c;
      (if c < 0 then "-" else "") + NatToString(m / 100) + "." + [DigitChar(m % 100 / 10), DigitChar(m % 10)]
  }

  /** Reads a `toFixed(2)` rendering back into cents: an optional '-', digits, '.', two digits. */
  function ParseFixed2(s: string): Option<int> {
    if |s| < 4 || s[|s| - 3] != '.' || !IsDigit(s[|s| - 2]) || !IsDigit(s[|s| - 1]) then None
    else
      var negative := s[0] == '-';
      var whole := if negative then s[1..|s| - 3] else s[..|s| - 3];
      if !IsAllDigits(whole) then None
      else
        var m := DigitsValue(whole) * 100 + DigitValue(s[|s| - 2]) * 10 + DigitValue(s[|s| - 1]);
        Some(if negative then -m else m)
  }

  /** Reading back a signed rendering: the sign, the whole dollars and the two cent digits. */
  lemma ParseFixed2Parts(negative: bool, whole: string, d1: nat, d2: nat, s: string, m: int)
    requires IsAllDigits(whole) && d1 < 10 && d2 < 10
    requires s == (if negative then "-" else "") + whole + "." + [DigitChar(d1), DigitChar(d2)]
    requires m == DigitsValue(whole) * 100 + d1 * 10 + d2
    ensures ParseFixed2(s) == Some(if negative then -m else m)
  {
    var tail := "." + [DigitChar(d1), DigitChar(d2)];
    var pre := if negative then "-" else "";
    AppendAssoc3(pre, whole, tail);
    var body := whole + tail;
    assert body[..|whole|] == whole;
    assert s[|s| - 3] == '.' && s[|s| - 2] == DigitChar(d1) && s[|s| - 1] == DigitChar(d2);
    if negative {
      assert s == "-" + body;
      assert s[0] == '-';
      assert s[1..|s| - 3] == body[..|whole|];
    } else {
      assert s == body;
      assert s[0] == whole[0] && whole[0] != '-';
      assert s[..|s| - 3] == body[..|whole|];
    }
  }

  /** Whole dollars and the two cent digits add back up to the amount. */
  lemma CentsDigits(m: nat, whole: nat)
    requires whole == m / 100
    ensures whole * 100 + m % 100 / 10 * 10 + m % 10 == m
  {
    var c := m % 100;
    assert m == whole * 100 + c;
    assert c == c / 10 * 10 + c % 10;
    assert m == (whole * 10 + c / 10) * 10 + c % 10;
    assert m % 10 == c % 10;
  }

  /** A non-zero amount is shown so that reading it back gives the same cents. */
  lemma FormatDollarInputRoundTrip(cents: int)
    requires cents != 0
    ensures ParseFixed2(FormatDollarInput(Some(cents))) == Some(cents)
  {
    var m: nat := if cents < 0 then -cents else cents;
    var whole, d1, d2 := NatToString(m / 100), m % 100 / 10, m % 10;
    var s := (if cents < 0 then "-" else "") + whole + "." + [DigitChar(d1), DigitChar(d2)];
    assert FormatDollarInput(Some(cents)) == s;
    DigitsValueOfNatToString(m / 100);
    CentsDigits(m, DigitsValue(whole));
    ParseFixed2Parts(cents < 0, whole, d1, d2, s, m);
  }

  /**
   * The page's form state: the create form, the supplement being edited, and
   * the create requests issued so far (the mutation calls).
   */
  class SupplementsPage {
    var newSupplement: SupplementForm
    var editingSupplement: Option<Supplement>
    var submitted: seq<SupplementForm>

    constructor ()
      ensures newSupplement == DefaultForm && editingSupplement == None && submitted == []
    {
      newSupplement := DefaultForm;
      editingSupplement := None;
      submitted := [];
    }

    /**
     * `handleScopeDriverToggle`: in edit mode with a supplement open, its
     * drivers (null read as empty) are toggled; otherwise the create form's.
     */
    method ToggleScopeDriver(driver: string, checked: bool, isEdit: bool)
      modifies this
      ensures isEdit && old(editingSupplement).Some? ==>
        && editingSupplement == Some(old(editingSupplement).value.(
             scopeDrivers := Some(Toggled(old(editingSupplement).value.scopeDrivers.GetOr([]), driver, checked))))
        && newSupplement == old(newSupplement)
      ensures !(isEdit && old(editingSupplement).Some?) ==>
        && newSupplement == old(newSupplement).(scopeDrivers := Toggled(old(newSupplement).scopeDrivers, driver, checked))
        && editingSupplement == old(editingSupplement)
      ensures submitted == old(submitted)
    {
      if isEdit && editingSupplement.Some? {
        var current := editingSupplement.value.scopeDrivers.GetOr([]);
        var updated := Toggled(current, driver, checked);
        editingSupplement := Some(editingSupplement.value.(scopeDrivers := Some(updated)));
      } else {
        var updated := Toggled(newSupplement.scopeDrivers, driver, checked);
        newSupplement := newSupplement.(scopeDrivers := updated);
      }
    }

    /** `handleCreate`: submits the form when it has a claim and a title, otherwise reports missing fields. */
    method HandleCreate() returns (missingFields: bool)
      modifies this
      ensures missingFields <==> CreateRequest(old(newSupplement)).None?
      ensures missingFields ==> submitted == old(submitted)
      ensures !missingFields ==> submitted == old(submitted) + [old(newSupplement)]
      ensures newSupplement == old(newSupplement) && editingSupplement == old(editingSupplement)
    {
      var request := CreateRequest(newSupplement);
      if request.None? {
        return true;
      }
      submitted := submitted + [request.value];
      return false;
    }
  }
}
