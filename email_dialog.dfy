/**
 * The edit state of the email dialog (components/Dashboard/EmailDialog.jsx): loading an email
 * into the edit fields, entering edit mode, saving through the parent's callback, cancelling, and
 * the two exports.
 */
module EmailDialog {
  import opened Wrappers
  import Emails
  import EmailExport

  /** The five editable fields. */
  datatype Edits = Edits(subject: string, content: string, company: string, jobTitle: string, recipientEmail: string)

  /** The arguments the dialog passes to `onSave`. */
  datatype SaveCall = SaveCall(id: nat, edits: Edits)

  /** The edit fields as loading `e` sets them. */
  function EditsOf(e: Emails.EmailView): Edits {
    Edits(e.email.subject, e.email.content, e.email.company, e.email.jobTitle, e.email.recipientEmail)
  }

  class Dialog {
    /** The `email` prop, absent while no email is selected. */
    var email: Option<Emails.EmailView>
    var isEditing: bool
    var editedSubject: string
    var editedContent: string
    var editedCompany: string
    var editedJobTitle: string
    var editedRecipientEmail: string

    function CurrentEdits(): Edits
      reads this
    {
      Edits(editedSubject, editedContent, editedCompany, editedJobTitle, editedRecipientEmail)
    }

    /** The initial state: no email, not editing, every field empty. */
    constructor ()
      ensures email.None? && !isEditing && CurrentEdits() == Edits("", "", "", "", "")
    {
      email, isEditing := None, false;
      editedSubject, editedContent, editedCompany, editedJobTitle, editedRecipientEmail := "", "", "", "", "";
    }

    /** The effect that runs when `email` or `startInEditMode` changes; a null email changes nothing. */
    method Load(e: Option<Emails.EmailView>, startInEditMode: bool)
      modifies this
      ensures email == e
      ensures e.Some? ==> CurrentEdits() == EditsOf(e.value) && isEditing == startInEditMode
      ensures e.None? ==> CurrentEdits() == old(CurrentEdits()) && isEditing == old(isEditing)
    {
      email := e;
      if e.Some? {
        var x := EditsOf(e.value);
        editedSubject, editedContent, editedCompany := x.subject, x.content, x.company;
        editedJobTitle, editedRecipientEmail := x.jobTitle, x.recipientEmail;
        isEditing := startInEditMode;
      }
    }

    /** `handleEdit` */
    method HandleEdit()
      modifies this
      ensures isEditing
      ensures email == old(email) && CurrentEdits() == old(CurrentEdits())
    {
      isEditing := true;
    }

    /**
     * `handleSave`: the call made to `onSave`, if both an email and a callback are there;
     * the dialog leaves edit mode either way and keeps its fields.
     */
    method HandleSave(hasOnSave: bool) returns (call: Option<SaveCall>)
      modifies this
      ensures !isEditing
      ensures email == old(email) && CurrentEdits() == old(CurrentEdits())
      ensures call.Some? <==> email.Some? && hasOnSave
      ensures call.Some? ==> call.value == SaveCall(email.value.id, CurrentEdits())
    {
      call := if email.Some? && hasOnSave then Some(SaveCall(email.value.id, CurrentEdits())) else None;
      isEditing := false;
    }

    /** `handleCancel`: the edits are discarded and the state is that of a fresh load outside edit mode. */
    method HandleCancel()
      modifies this
      ensures !isEditing && email == old(email)
      ensures email.Some? ==> CurrentEdits() == EditsOf(email.value)
      ensures email.None? ==> CurrentEdits() == old(CurrentEdits())
    {
      if email.Some? {
        var x := EditsOf(email.value);
        editedSubject, editedContent, editedCompany := x.subject, x.content, x.company;
        editedJobTitle, editedRecipientEmail := x.jobTitle, x.recipientEmail;
      }
      isEditing := false;
    }

    /**
     * The plain text `copyAsRichText` and `downloadEmail` produce: the subject line built from the
     * edited subject, a blank line, then the edited content with its markup stripped.
     */
    function ExportText(strippedEditedContent: string): (r: string)
      reads this
      ensures |r| == |EmailExport.SUBJECT_PREFIX| + |editedSubject| + 2 + |strippedEditedContent|
      ensures r[..|EmailExport.SUBJECT_PREFIX| + |editedSubject|] == EmailExport.SUBJECT_PREFIX + editedSubject
      ensures r[|r| - |strippedEditedContent|..] == strippedEditedContent
    {
      EmailExport.PlainText(editedSubject, strippedEditedContent)
    }

    /** The name `downloadEmail` gives the file; it returns early when there is no email. */
    function DownloadName(): (r: string)
      reads this
      requires email.Some?
      ensures var slug := EmailExport.CompanySlug(email.value.email.company);
              |r| == |slug| + |EmailExport.FILE_SUFFIX| && r[..|slug|] == slug && r[|slug|..] == EmailExport.FILE_SUFFIX
    {
      EmailExport.DownloadFileName(email.value.email.company)
    }
  }

  // ---------------------------------------------------------------------------------
  // Proofs

  /**
   * The download name is taken from the loaded email's company: two dialogs showing the same
   * email name the file alike, whatever either has typed into its company field.
   */
  lemma DownloadNameIgnoresEdits(d1: Dialog, d2: Dialog)
    requires d1.email.Some? && d1.email == d2.email
    ensures d1.DownloadName() == d2.DownloadName()
  {
  }

  /**
   * The export follows the edited subject, not the loaded one: it equals the export of the
   * email's own subject exactly when the edited subject is that subject, and two dialogs with the
   * same edited subject export the same text whatever email they show.
   */
  lemma ExportUsesEditedSubject(d1: Dialog, d2: Dialog, strippedEditedContent: string)
    requires d1.email.Some?
    ensures d1.ExportText(strippedEditedContent)
              == EmailExport.PlainText(d1.email.value.email.subject, strippedEditedContent)
            <==> d1.editedSubject == d1.email.value.email.subject
    ensures d1.editedSubject == d2.editedSubject ==>
              d1.ExportText(strippedEditedContent) == d2.ExportText(strippedEditedContent)
  {
    EmailExport.PlainTextSubjectInjective(d1.editedSubject, d1.email.value.email.subject, strippedEditedContent);
  }
}
