/**
 * The claim detail page (client/src/pages/claim.tsx): the adjusters that can
 * still be linked, the timeline merging the claim's interactions with its
 * attachments newest first, and the guards of the email and link handlers.
 */
module ClaimPage {
  import opened Wrappers
  import opened Seqs
  import opened Sorting
  import opened Records

  function AdjusterId(a: Adjuster): string {
    a.id
  }

  /** `claim.adjusters?.map(a => a.id) || []`. */
  function LinkedIds(linked: Option<seq<Adjuster>>): (r: seq<string>)
    ensures forall id :: id in r <==> exists l :: l in linked.GetOr([]) && l.id == id
  {
    var ls := linked.GetOr([]);
    var r := Map(ls, AdjusterId);
    assert forall id :: id in r ==> exists l :: l in ls && l.id == id by {
      forall id | id in r ensures exists l :: l in ls && l.id == id {
        var i :| 0 <= i < |r| && r[i] == id;
        assert ls[i] in ls;
      }
    }
    assert forall l :: l in ls ==> l.id in r by {
      forall l | l in ls ensures l.id in r {
        var i :| 0 <= i < |ls| && ls[i] == l;
        assert r[i] == l.id;
      }
    }
    r
  }

  function NotIn(ids: seq<string>): Adjuster -> bool {
    (a: Adjuster) => a.id !in ids
  }

  /**
   * `availableAdjusters`: the adjusters, in their order, whose id is not the
   * id of a linked adjuster, and every such adjuster.
   */
  function AvailableAdjusters(all: seq<Adjuster>, linked: Option<seq<Adjuster>>): (r: seq<Adjuster>)
    ensures IsSubsequence(r, all)
    ensures forall a, l :: a in r && l in linked.GetOr([]) ==> a.id != l.id
    ensures forall a :: a in r ==> a in all
    ensures forall a :: a in all && (forall l :: l in linked.GetOr([]) ==> l.id != a.id) ==> a in r
  {
    var ids := LinkedIds(linked);
    FilterIsSubsequence(all, NotIn(ids));
    Filter(all, NotIn(ids))
  }

  /** A claim attachment: a file or an email, with its date as a timestamp. */
  datatype Attachment = Attachment(id: string, kind: string, date: int, description: Option<string>)

  /** An entry of `allItems`, tagged with where it came from (its `itemType`). */
  datatype TimelineItem = InteractionItem(interaction: Interaction) | AttachmentItem(attachment: Attachment)
  {
    function ItemType(): string {
      if InteractionItem? then "interaction" else "attachment"
    }
  }

  function ItemDate(t: TimelineItem): int {
    if t.InteractionItem? then t.interaction.date else t.attachment.date
  }

  function ToInteractionItem(i: Interaction): TimelineItem {
    InteractionItem(i)
  }

  function ToAttachmentItem(a: Attachment): TimelineItem {
    AttachmentItem(a)
  }

  function IsInteractionItem(t: TimelineItem): bool {
    t.ItemType() == "interaction"
  }

  function IsAttachmentItem(t: TimelineItem): bool {
    t.ItemType() == "attachment"
  }

  /** The items before sorting: interactions first, then attachments. */
  function Merged(interactions: Option<seq<Interaction>>, attachments: seq<Attachment>): seq<TimelineItem> {
    Map(interactions.GetOr([]), ToInteractionItem) + Map(attachments, ToAttachmentItem)
  }

  /** Each merged item comes from one of the lists, and every element of both lists is there. */
  lemma MergedMembers(interactions: Option<seq<Interaction>>, attachments: seq<Attachment>)
    ensures forall t :: t in Merged(interactions, attachments) ==>
      (t.InteractionItem? && t.interaction in interactions.GetOr([])) ||
      (t.AttachmentItem? && t.attachment in attachments)
    ensures forall i :: i in interactions.GetOr([]) ==> InteractionItem(i) in Merged(interactions, attachments)
    ensures forall a :: a in attachments ==> AttachmentItem(a) in Merged(interactions, attachments)
  {
    var ints := interactions.GetOr([]);
    var merged := Merged(interactions, attachments);
    forall t | t in merged
      ensures (t.InteractionItem? && t.interaction in ints) || (t.AttachmentItem? && t.attachment in attachments)
    {
      var k :| 0 <= k < |merged| && merged[k] == t;
      if k < |ints| {
        assert t == InteractionItem(ints[k]);
      } else {
        assert t == AttachmentItem(attachments[k - |ints|]);
      }
    }
    forall i | i in ints ensures InteractionItem(i) in merged {
      var k :| 0 <= k < |ints| && ints[k] == i;
      assert merged[k] == InteractionItem(i);
    }
    forall a | a in attachments ensures AttachmentItem(a) in merged {
      var k :| 0 <= k < |attachments| && attachments[k] == a;
      assert merged[|ints| + k] == AttachmentItem(a);
    }
  }

  /**
   * `allItems`: every interaction and every attachment exactly once, each
   * tagged by its source, sorted by non-increasing date.
   */
  function Timeline(interactions: Option<seq<Interaction>>, attachments: seq<Attachment>): (r: seq<TimelineItem>)
    ensures |r| == |interactions.GetOr([])| + |attachments|
    ensures SortedDesc(r, ItemDate)
    ensures multiset(r) == multiset(Merged(interactions, attachments))
    ensures forall t :: t in r ==>
      (t.ItemType() == "interaction" && t.interaction in interactions.GetOr([])) ||
      (t.ItemType() == "attachment" && t.attachment in attachments)
    ensures forall i :: i in interactions.GetOr([]) ==> InteractionItem(i) in r
    ensures forall a :: a in attachments ==> AttachmentItem(a) in r
  {
    var merged := Merged(interactions, attachments);
    MergedMembers(interactions, attachments);
    SortDescMembers(merged, ItemDate);
    SortDesc(merged, ItemDate)
  }

  /** The timeline has one "interaction" item per interaction and one "attachment" item per attachment. */
  lemma TimelineItemTypes(interactions: Option<seq<Interaction>>, attachments: seq<Attachment>)
    ensures Count(Timeline(interactions, attachments), IsInteractionItem) == |interactions.GetOr([])|
    ensures Count(Timeline(interactions, attachments), IsAttachmentItem) == |attachments|
  {
    var ints := Map(interactions.GetOr([]), ToInteractionItem);
    var atts := Map(attachments, ToAttachmentItem);
    var r := Timeline(interactions, attachments);
    CountPermutation(r, ints + atts, IsInteractionItem);
    CountPermutation(r, ints + atts, IsAttachmentItem);
    CountAppend(ints, atts, IsInteractionItem);
    CountAppend(ints, atts, IsAttachmentItem);
    FilterAll(ints, IsInteractionItem);
    FilterAll(atts, IsAttachmentItem);
    assert Count(atts, IsInteractionItem) == 0;
    assert Count(ints, IsAttachmentItem) == 0;
  }

  /** The email tab of the add-attachment form. */
  datatype AttachmentForm = AttachmentForm(
    date: string,
    description: string,
    direction: string,
    subject: string,
    body: string,
    notes: string)

  /** The attachment the email handler submits. */
  datatype EmailAttachment = EmailAttachment(
    kind: string,
    date: string,
    direction: string,
    subject: string,
    body: string,
    notes: Option<string>)

  /**
   * What `handleSaveEmail` submits: nothing when the subject or the body is
   * empty; otherwise an email carrying the form's fields, with empty notes
   * sent as absent.
   */
  function EmailRequest(form: AttachmentForm): (r: Option<EmailAttachment>)
    ensures r.None? <==> form.subject == "" || form.body == ""
    ensures r.Some? ==> r.value.kind == "email" && r.value.date == form.date
    ensures r.Some? ==> r.value.direction == form.direction
    ensures r.Some? ==> r.value.subject == form.subject && r.value.body == form.body
    ensures r.Some? ==> (r.value.notes.None? <==> form.notes == "")
    ensures r.Some? && form.notes != "" ==> r.value.notes == Some(form.notes)
  {
    if form.subject == "" || form.body == "" then None
    else Some(EmailAttachment("email", form.date, form.direction, form.subject, form.body,
      if form.notes == "" then None else Some(form.notes)))
  }

  /** What `handleLinkAdjuster` links: nothing while no adjuster is selected. */
  function LinkRequest(selectedAdjusterId: string): (r: Option<string>)
    ensures r.None? <==> selectedAdjusterId == ""
    ensures r.Some? ==> r.value == selectedAdjusterId
  {
    if selectedAdjusterId == "" then None else Some(selectedAdjusterId)
  }

  /**
   * The page's form state, with the attachments and links it has submitted
   * so far standing for the mutations it triggers.
   */
  class ClaimDetail {
    var newAttachment: AttachmentForm
    var selectedAdjusterId: string
    var savedEmails: seq<EmailAttachment>
    var linkedIds: seq<string>

    constructor(today: string)
      ensures newAttachment == AttachmentForm(today, "", "received", "", "", "")
      ensures selectedAdjusterId == "" && savedEmails == [] && linkedIds == []
    {
      newAttachment := AttachmentForm(today, "", "received", "", "", "");
      selectedAdjusterId := "";
      savedEmails := [];
      linkedIds := [];
    }

    /**
     * `handleSaveEmail`: reports the missing subject or body and submits
     * nothing, or submits the email of the form; the form is left as it is.
     */
    method HandleSaveEmail() returns (missing: bool)
      modifies this
      ensures missing <==> old(newAttachment).subject == "" || old(newAttachment).body == ""
      ensures missing ==> savedEmails == old(savedEmails)
      ensures !missing ==> savedEmails == old(savedEmails) + [EmailRequest(old(newAttachment)).value]
      ensures newAttachment == old(newAttachment) && selectedAdjusterId == old(selectedAdjusterId)
      ensures linkedIds == old(linkedIds)
    {
      var request := EmailRequest(newAttachment);
      if request.None? {
        return true;
      }
      savedEmails := savedEmails + [request.value];
      return false;
    }

    /** `handleLinkAdjuster`: links the selected adjuster, and does nothing while none is selected. */
    method HandleLinkAdjuster()
      modifies this
      ensures old(selectedAdjusterId) == "" ==> linkedIds == old(linkedIds)
      ensures old(selectedAdjusterId) != "" ==> linkedIds == old(linkedIds) + [old(selectedAdjusterId)]
      ensures newAttachment == old(newAttachment) && selectedAdjusterId == old(selectedAdjusterId)
      ensures savedEmails == old(savedEmails)
    {
      var request := LinkRequest(selectedAdjusterId);
      if request.Some? {
        linkedIds := linkedIds + [request.value];
      }
    }
  }
}
