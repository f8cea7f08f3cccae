/**
 * The case-study page (client/src/pages/case-studies.tsx): the create form's
 * tag lists (friction signals and actions taken), which grow by the trimmed
 * input and shrink by index, the number field read with `parseInt(...) || 0`,
 * the create button's guard, and the claims offered for generation.
 */
module CaseStudies {
  import opened Strings
  import opened Seqs
  import opened Records

  /** Every tag of the list is non-empty and its own trim, as the add handlers leave them. */
  predicate CleanTags(tags: seq<string>) {
    forall i :: 0 <= i < |tags| ==> tags[i] != "" && Trim(tags[i]) == tags[i]
  }

  /**
   * `[...tags, input.trim()]` when the trimmed input is non-empty, and the
   * list unchanged otherwise.
   */
  function AddTag(tags: seq<string>, input: string): (r: seq<string>)
    ensures Trim(input) == "" ==> r == tags
    ensures Trim(input) != "" ==> r == tags + [Trim(input)]
  {
    if Trim(input) != "" then tags + [Trim(input)] else tags
  }

  /** Adding keeps a list of clean tags clean. */
  lemma AddTagClean(tags: seq<string>, input: string)
    requires CleanTags(tags)
    ensures CleanTags(AddTag(tags, input))
  {
    TrimIdempotent(input);
  }

  /** Removing keeps a list of clean tags clean. */
  lemma RemoveTagClean(tags: seq<string>, idx: int)
    requires CleanTags(tags)
    ensures CleanTags(RemoveIndex(tags, idx))
  {
    var r := RemoveIndex(tags, idx);
    if 0 <= idx < |tags| {
      forall i | 0 <= i < |r| ensures r[i] != "" && Trim(r[i]) == r[i] {
        if i < idx {
          assert r[i] == tags[i];
        } else {
          assert r[i] == tags[i + 1];
        }
      }
    }
  }

  /** Removing the tag just added gives the list back. */
  lemma RemoveAddedTag(tags: seq<string>, input: string)
    requires Trim(input) != ""
    ensures RemoveIndex(AddTag(tags, input), |tags|) == tags
  {
  }

  /** The number of leading decimal digits of `s`. */
  function LeadingDigits(s: string): (k: nat)
    ensures k <= |s|
    ensures forall i :: 0 <= i < k ==> IsDigit(s[i])
    ensures k < |s| ==> !IsDigit(s[k])
  {
    if |s| == 0 || !IsDigit(s[0]) then 0 else 1 + LeadingDigits(s[1..])
  }

  /** The text after leading whitespace and an optional sign, and whether the sign was a minus. */
  function Unsigned(s: string): (string, bool) {
    var t := s[LeadingWhitespace(s)..];
    if |t| > 0 && (t[0] == '-' || t[0] == '+') then (t[1..], t[0] == '-') else (t, false)
  }

  /**
   * `parseInt(s, 10) || 0`: skips leading whitespace, reads an optional sign
   * and then the longest run of decimal digits; without any digit the
   * result is NaN, which `|| 0` turns into 0.
   */
  function ParseIntOrZero(s: string): (r: int)
    ensures LeadingDigits(Unsigned(s).0) == 0 ==> r == 0
    ensures r < 0 ==> Unsigned(s).1
  {
    var (body, negative) := Unsigned(s);
    var k := LeadingDigits(body);
    if k == 0 then 0
    else
      var v: int := DigitsValue(body[..k]);
      if negative then -v else v
  }

  /** A string without any digit reads as 0. */
  lemma NonNumericIsZero(s: string)
    requires forall i :: 0 <= i < |s| ==> !IsDigit(s[i])
    ensures ParseIntOrZero(s) == 0
  {
  }

  /** The decimal rendering of a number reads back as that number. */
  lemma ParseIntOrZeroOfIntToString(n: int)
    ensures ParseIntOrZero(IntToString(n)) == n
  {
    var m := if n < 0 then -n else n;
    var digits := NatToString(m);
    DigitsValueOfNatToString(m);
    assert LeadingDigits(digits) == |digits| by {
      AllDigitsLeading(digits);
    }
    assert digits[..|digits|] == digits;
    assert !IsWhitespace(IntToString(n)[0]);
    if n < 0 {
      assert IntToString(n)[1..] == digits;
    }
  }

  lemma {:induction false} AllDigitsLeading(s: string)
    requires forall i :: 0 <= i < |s| ==> IsDigit(s[i])
    ensures LeadingDigits(s) == |s|
  {
    if |s| > 0 {
      AllDigitsLeading(s[1..]);
    }
  }

  /** `setNewStudy`'s object: the fields of a case study being written. */
  datatype CaseStudyDraft = CaseStudyDraft(
    title: string,
    carrier: string,
    region: string,
    claimType: string,
    outcome: string,
    summary: string,
    turningPoint: string,
    keySignal: string,
    denialsOvercome: int,
    frictionSignals: seq<string>,
    actionsTaken: seq<string>)

  const EmptyDraft := CaseStudyDraft("", "", "", "roof", "approved", "", "", "", 0, [], [])

  /** The create button is disabled while a create is pending or the title or carrier is empty. */
  function CreateDisabled(isPending: bool, draft: CaseStudyDraft): (r: bool)
    ensures !r <==> !isPending && draft.title != "" && draft.carrier != ""
  {
    isPending || draft.title == "" || draft.carrier == ""
  }

  function IsResolvedOrClosed(c: Claim): bool {
    c.status == "resolved" || c.status == "closed"
  }

  /** `resolvedClaims`: the claims, in order, whose status is "resolved" or "closed", and all of them. */
  function ResolvedClaims(claims: seq<Claim>): (r: seq<Claim>)
    ensures IsSubsequence(r, claims)
    ensures forall c :: c in r <==> c in claims && (c.status == "resolved" || c.status == "closed")
  {
    FilterIsSubsequence(claims, IsResolvedOrClosed);
    Filter(claims, IsResolvedOrClosed)
  }

  /** The create dialog's state: the draft, the two tag inputs, and the drafts submitted. */
  class CaseStudyForm {
    var newStudy: CaseStudyDraft
    var frictionInput: string
    var actionInput: string
    var created: seq<CaseStudyDraft>

    /** Both tag lists hold clean tags only. */
    predicate Valid()
      reads this
    {
      CleanTags(newStudy.frictionSignals) && CleanTags(newStudy.actionsTaken)
    }

    constructor()
      ensures Valid()
      ensures newStudy == EmptyDraft && frictionInput == "" && actionInput == "" && created == []
    {
      newStudy := EmptyDraft;
      frictionInput := "";
      actionInput := "";
      created := [];
    }

    /**
     * The friction "Add" button and Enter key: with a non-blank input, the
     * trimmed input is appended and the input cleared; otherwise nothing
     * changes.
     */
    method AddFrictionSignal()
      requires Valid()
      modifies this
      ensures Valid()
      ensures Trim(old(frictionInput)) == "" ==> newStudy == old(newStudy) && frictionInput == old(frictionInput)
      ensures Trim(old(frictionInput)) != "" ==>
        newStudy == old(newStudy).(frictionSignals := old(newStudy).frictionSignals + [Trim(old(frictionInput))]) &&
        frictionInput == ""
      ensures actionInput == old(actionInput) && created == old(created)
    {
      AddTagClean(newStudy.frictionSignals, frictionInput);
      if Trim(frictionInput) != "" {
        newStudy := newStudy.(frictionSignals := AddTag(newStudy.frictionSignals, frictionInput));
        frictionInput := "";
      }
    }

    /** Clicking the friction badge at `idx` removes exactly that signal. */
    method RemoveFrictionSignal(idx: int)
      requires Valid()
      modifies this
      ensures Valid()
      ensures newStudy == old(newStudy).(frictionSignals := RemoveIndex(old(newStudy).frictionSignals, idx))
      ensures frictionInput == old(frictionInput) && actionInput == old(actionInput) && created == old(created)
    {
      RemoveTagClean(newStudy.frictionSignals, idx);
      newStudy := newStudy.(frictionSignals := RemoveIndex(newStudy.frictionSignals, idx));
    }

    /** The actions "Add" button and Enter key, by the same rule as the friction signals. */
    method AddAction()
      requires Valid()
      modifies this
      ensures Valid()
      ensures Trim(old(actionInput)) == "" ==> newStudy == old(newStudy) && actionInput == old(actionInput)
      ensures Trim(old(actionInput)) != "" ==>
        newStudy == old(newStudy).(actionsTaken := old(newStudy).actionsTaken + [Trim(old(actionInput))]) &&
        actionInput == ""
      ensures frictionInput == old(frictionInput) && created == old(created)
    {
      AddTagClean(newStudy.actionsTaken, actionInput);
      if Trim(actionInput) != "" {
        newStudy := newStudy.(actionsTaken := AddTag(newStudy.actionsTaken, actionInput));
        actionInput := "";
      }
    }

    /** Clicking the action badge at `idx` removes exactly that action. */
    method RemoveAction(idx: int)
      requires Valid()
      modifies this
      ensures Valid()
      ensures newStudy == old(newStudy).(actionsTaken := RemoveIndex(old(newStudy).actionsTaken, idx))
      ensures frictionInput == old(frictionInput) && actionInput == old(actionInput) && created == old(created)
    {
      RemoveTagClean(newStudy.actionsTaken, idx);
      newStudy := newStudy.(actionsTaken := RemoveIndex(newStudy.actionsTaken, idx));
    }

    /** The denials field's change handler. */
    method SetDenialsOvercome(input: string)
      requires Valid()
      modifies this
      ensures Valid()
      ensures newStudy == old(newStudy).(denialsOvercome := ParseIntOrZero(input))
      ensures frictionInput == old(frictionInput) && actionInput == old(actionInput) && created == old(created)
    {
      newStudy := newStudy.(denialsOvercome := ParseIntOrZero(input));
    }

    /** The create button: submits the draft unless the button is disabled. */
    method Create(isPending: bool) returns (sent: bool)
      requires Valid()
      modifies this
      ensures Valid()
      ensures sent <==> !isPending && old(newStudy).title != "" && old(newStudy).carrier != ""
      ensures created == old(created) + (if sent then [old(newStudy)] else [])
      ensures newStudy == old(newStudy) && frictionInput == old(frictionInput) && actionInput == old(actionInput)
    {
      sent := !CreateDisabled(isPending, newStudy);
      if sent {
        created := created + [newStudy];
      }
    }
  }
}
