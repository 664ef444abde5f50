/**
 * The list and profile logic of the dashboard (components/Dashboard/DashboardPage.jsx): the
 * statistics, saving a dialog's edits into the list, deleting, the three most recent emails,
 * the content preview, and the profile edit/save/cancel handlers.
 */
module Dashboard {
  import opened Wrappers
  import Emails
  import Users
  import Ranking
  import EmailDialog

  /** A fixed placeholder, not computed from the emails. */
  const RESPONSE_RATE := 23
  const PREVIEW_LENGTH := 300
  const ELLIPSIS := "..."
  const RECENT_COUNT := 3

  type EmailView = Emails.EmailView

  datatype Stats = Stats(totalEmails: nat, sentEmails: nat, draftEmails: nat, responseRate: int)

  /** `list.filter((email) => email.status === s).length` */
  function CountStatus(list: seq<EmailView>, s: Emails.Status): nat {
    if list == [] then 0
    else CountStatus(list[1..], s) + (if list[0].email.status == s then 1 else 0)
  }

  function StatsOf(list: seq<EmailView>): Stats {
    Stats(|list|, CountStatus(list, Emails.Sent), CountStatus(list, Emails.Draft), RESPONSE_RATE)
  }

  /** The entry with the dialog's edits applied if its id is the saved one. */
  function ApplySave(e: EmailView, call: EmailDialog.SaveCall): EmailView {
    if e.id == call.id then
      e.(email := e.email.(subject := call.edits.subject, content := call.edits.content,
                           company := call.edits.company, jobTitle := call.edits.jobTitle,
                           recipientEmail := call.edits.recipientEmail))
    else e
  }

  /** `handleEmailSave`: `prev.map(...)` over the list. */
  function SaveEdits(list: seq<EmailView>, call: EmailDialog.SaveCall): (r: seq<EmailView>)
    ensures |r| == |list|
  {
    seq(|list|, i requires 0 <= i < |list| => ApplySave(list[i], call))
  }

  /** The delete button: `prev.filter((e) => e.id !== id)`. */
  function RemoveById(list: seq<EmailView>, id: nat): (r: seq<EmailView>)
    ensures |r| <= |list|
  {
    if list == [] then []
    else (if list[0].id != id then [list[0]] else []) + RemoveById(list[1..], id)
  }

  function CreatedAtKey(e: EmailView): real {
    e.createdAt as real
  }

  function Min(a: nat, b: nat): nat {
    if a <= b then a else b
  }

  /** The preview shown in the list: at most 300 characters of content, then an ellipsis. */
  function Preview(content: string): string {
    if |content| > PREVIEW_LENGTH then content[..PREVIEW_LENGTH] + ELLIPSIS else content
  }

  predicate UniqueIds(list: seq<EmailView>) {
    forall i, j :: 0 <= i < j < |list| ==> list[i].id != list[j].id
  }

  class DashboardPage {
    var generatedEmails: seq<EmailView>
    /** The profile shown, and the copy the profile form edits. */
    var profile: Option<Users.User>
    var editedProfile: Option<Users.User>
    var isEditingProfile: bool

    constructor ()
      ensures generatedEmails == [] && profile.None? && editedProfile.None? && !isEditingProfile
    {
      generatedEmails, profile, editedProfile, isEditingProfile := [], None, None, false;
    }

    function CurrentStats(): Stats
      reads this
    {
      StatsOf(generatedEmails)
    }

    /** `handleEmailSave`, the callback the email dialog saves through. */
    method HandleEmailSave(call: EmailDialog.SaveCall)
      modifies this
      ensures generatedEmails == SaveEdits(old(generatedEmails), call)
      ensures profile == old(profile) && editedProfile == old(editedProfile) && isEditingProfile == old(isEditingProfile)
    {
      generatedEmails := SaveEdits(generatedEmails, call);
    }

    /** The delete button of one email. */
    method DeleteEmail(id: nat)
      modifies this
      ensures generatedEmails == RemoveById(old(generatedEmails), id)
      ensures profile == old(profile) && editedProfile == old(editedProfile) && isEditingProfile == old(isEditingProfile)
    {
      generatedEmails := RemoveById(generatedEmails, id);
    }

    /**
     * `getRecentEmails`: sorts the stored list in place, newest first, and returns its first
     * three entries.
     */
    method GetRecentEmails() returns (recent: seq<EmailView>)
      modifies this
      ensures generatedEmails == Ranking.SortDesc(old(generatedEmails), CreatedAtKey)
      ensures recent == generatedEmails[..Min(RECENT_COUNT, |generatedEmails|)]
      ensures profile == old(profile) && editedProfile == old(editedProfile) && isEditingProfile == old(isEditingProfile)
    {
      generatedEmails := Ranking.SortDesc(generatedEmails, CreatedAtKey);
      recent := generatedEmails[..Min(RECENT_COUNT, |generatedEmails|)];
    }

    /** `handleProfileEdit` */
    method HandleProfileEdit()
      modifies this
      ensures isEditingProfile && editedProfile == profile
      ensures profile == old(profile) && generatedEmails == old(generatedEmails)
    {
      isEditingProfile := true;
      editedProfile := profile;
    }

    /** `handleProfileSave`: the edited copy becomes the profile. */
    method HandleProfileSave()
      modifies this
      ensures !isEditingProfile && profile == old(editedProfile)
      ensures editedProfile == old(editedProfile) && generatedEmails == old(generatedEmails)
    {
      profile := editedProfile;
      isEditingProfile := false;
    }

    /** `handleProfileCancel`: the edited copy is reset to the profile. */
    method HandleProfileCancel()
      modifies this
      ensures !isEditingProfile && editedProfile == old(profile)
      ensures profile == old(profile) && generatedEmails == old(generatedEmails)
    {
      editedProfile := profile;
      isEditingProfile := false;
    }
  }

  // ---------------------------------------------------------------------------------
  // Proofs

  /** Sent and draft emails together never outnumber all emails: failed and resent ones count in neither. */
  lemma {:induction false} StatusCounts(list: seq<EmailView>)
    ensures CountStatus(list, Emails.Sent) + CountStatus(list, Emails.Draft)
          + CountStatus(list, Emails.Failed) + CountStatus(list, Emails.Resend) == |list|
    ensures StatsOf(list).sentEmails + StatsOf(list).draftEmails <= StatsOf(list).totalEmails
  {
    if list != [] {
      StatusCounts(list[1..]);
    }
  }

  /**
   * Saving touches only the five edited fields of the entries with the saved id: the length and
   * order, every other entry, and each entry's id, creation time, status and sender stay.
   */
  lemma SaveEditsEffect(list: seq<EmailView>, call: EmailDialog.SaveCall, i: nat)
    requires i < |list|
    ensures var e, e' := list[i], SaveEdits(list, call)[i];
            e'.id == e.id && e'.createdAt == e.createdAt
            && e'.email.status == e.email.status && e'.email.createdBy == e.email.createdBy
            && (e.id == call.id ==> EmailDialog.EditsOf(e') == call.edits)
            && (e.id != call.id ==> e' == e)
  {
  }

  /** Saving a dialog's fields unchanged leaves the list as it was, when ids are unique. */
  lemma SaveUnchangedIsNoOp(list: seq<EmailView>, k: nat)
    requires UniqueIds(list) && k < |list|
    ensures SaveEdits(list, EmailDialog.SaveCall(list[k].id, EmailDialog.EditsOf(list[k]))) == list
  {
    var call := EmailDialog.SaveCall(list[k].id, EmailDialog.EditsOf(list[k]));
    forall i | 0 <= i < |list|
      ensures SaveEdits(list, call)[i] == list[i]
    {
      if i != k {
        assert list[i].id != list[k].id;
      }
    }
  }

  /** Deleting keeps exactly the entries with another id. */
  lemma {:induction false} RemoveByIdMembers(list: seq<EmailView>, id: nat, x: EmailView)
    ensures x in RemoveById(list, id) <==> x in list && x.id != id
  {
    if list != [] {
      RemoveByIdMembers(list[1..], id, x);
      assert x in list <==> x == list[0] || x in list[1..];
    }
  }

  /** Deleting keeps the order: it works piece by piece. */
  lemma {:induction false} RemoveByIdConcat(a: seq<EmailView>, b: seq<EmailView>, id: nat)
    ensures RemoveById(a + b, id) == RemoveById(a, id) + RemoveById(b, id)
  {
    if a == [] {
      assert a + b == b;
    } else {
      assert (a + b)[1..] == a[1..] + b;
      RemoveByIdConcat(a[1..], b, id);
    }
  }

  /**
   * The recent emails are at most three, newest first, taken from the list, and no email left
   * out is newer than any of them.
   */
  lemma RecentAreNewest(list: seq<EmailView>)
    ensures var sorted := Ranking.SortDesc(list, CreatedAtKey);
            var recent := sorted[..Min(RECENT_COUNT, |sorted|)];
            |recent| == Min(RECENT_COUNT, |list|)
            && Ranking.SortedDesc(recent, CreatedAtKey)
            && multiset(recent) <= multiset(list)
            && (forall x, k :: x in multiset(list) - multiset(recent) && 0 <= k < |recent| ==>
                  x.createdAt <= recent[k].createdAt)
  {
    var sorted := Ranking.SortDesc(list, CreatedAtKey);
    var n := Min(RECENT_COUNT, |sorted|);
    Ranking.SortedPrefix(sorted, n, CreatedAtKey);
    Ranking.SortedPrefixDominates(sorted, n, CreatedAtKey);
  }

  /** Short content is shown whole; long content is cut at 300 characters and marked. */
  lemma PreviewShape(content: string)
    ensures |Preview(content)| <= PREVIEW_LENGTH + |ELLIPSIS|
    ensures |content| <= PREVIEW_LENGTH ==> Preview(content) == content
    ensures |content| > PREVIEW_LENGTH ==>
      Preview(content)[..PREVIEW_LENGTH] == content[..PREVIEW_LENGTH] && Preview(content)[PREVIEW_LENGTH..] == ELLIPSIS
  {
  }

  /** Previewing a preview changes nothing. */
  lemma PreviewIdempotent(content: string)
    ensures Preview(Preview(content)) == Preview(content)
  {
    if |content| > PREVIEW_LENGTH {
      var p := Preview(content);
      assert p[..PREVIEW_LENGTH] == content[..PREVIEW_LENGTH];
    }
  }
}
