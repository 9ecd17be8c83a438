/** The admin form for the `announcements` table: `formData`, `editingId`
    and `isLoading`. The backend's replies are inputs and the requests the
    handlers issue are outputs. */
module AnnouncementManager {
  import opened Common

  const Table: string := "announcements"

  /** The form's fields; `kind` is the announcement's `type` column. */
  datatype AnnouncementForm = AnnouncementForm(title: string, content: string, kind: string, category: string)

  /** A row of the table as the list shows it. */
  datatype Announcement = Announcement(id: string, title: string, content: string, kind: string, category: string)

  /** The form a fresh or reset manager shows. */
  const EmptyForm: AnnouncementForm := AnnouncementForm("", "", "info", "General")

  /** The form `handleEdit` loads for a row. */
  function FormOf(a: Announcement): (form: AnnouncementForm)
    ensures Updated(a, form) == a
  {
    AnnouncementForm(a.title, a.content, a.kind, a.category)
  }

  /** The row once an update carrying `form` was applied to it. */
  function Updated(a: Announcement, form: AnnouncementForm): Announcement {
    a.(title := form.title, content := form.content, kind := form.kind, category := form.category)
  }

  /** Saving an edit form nobody changed writes the row back as it was, and
      an update changes nothing but the four form columns. */
  lemma UnchangedEditKeepsRow(a: Announcement, form: AnnouncementForm)
    ensures Updated(a, FormOf(a)) == a
    ensures Updated(a, form).id == a.id && FormOf(Updated(a, form)) == form
  {
  }

  class AnnouncementManager {
    var isLoading: bool
    var editingId: Option<string>
    var formData: AnnouncementForm

    constructor ()
      ensures formData == EmptyForm && editingId == None && !isLoading
    {
      isLoading := false;
      editingId := None;
      formData := EmptyForm;
    }

    /** `resetForm`, also the Cancel button. */
    method ResetForm()
      modifies this
      ensures formData == AnnouncementForm("", "", "info", "General") && editingId == None
      ensures isLoading == old(isLoading)
    {
      formData := EmptyForm;
      editingId := None;
    }

    /** `handleEdit`: the form takes the row's four fields, and the row's id
        becomes the one being edited. */
    method HandleEdit(a: Announcement)
      modifies this
      ensures formData == FormOf(a)
      ensures editingId == Some(a.id) && isLoading == old(isLoading)
    {
      formData := FormOf(a);
      editingId := Some(a.id);
    }

    /** The first half of `handleSubmit`, up to the awaited call: loading
        starts and the request is an update of the row being edited, or an
        insert when no (non-empty) id is being edited. The form's heading
        announces an edit exactly when the request is an update. */
    method BeginSubmit() returns (request: Request<AnnouncementForm>)
      modifies this
      ensures isLoading
      ensures formData == old(formData) && editingId == old(editingId)
      ensures IsSet(editingId) ==> request == Update(Table, editingId.value, formData)
      ensures !IsSet(editingId) ==> request == Insert(Table, formData)
      ensures FormHeading() == "Edit Announcement" <==> request.Update?
    {
      isLoading := true;
      if IsSet(editingId) {
        request := Update(Table, editingId.value, formData);
      } else {
        request := Insert(Table, formData);
      }
    }

    /** The second half of `handleSubmit`, once the backend replied: success
        resets the form, failure keeps it for another try; loading ends in
        both cases (the `finally` block). */
    method FinishSubmit(request: Request<AnnouncementForm>, reply: DbReply) returns (toast: Toast)
      modifies this
      ensures !isLoading
      ensures reply.Done? ==> formData == EmptyForm && editingId == None
      ensures reply.DbError? ==> formData == old(formData) && editingId == old(editingId)
      ensures reply.Done? ==> toast == Toast("Success",
        if request.Update? then "Announcement updated successfully" else "Announcement created successfully", false)
      ensures reply.DbError? ==> toast == Toast("Error", ErrorText(reply.message, "Failed to save announcement"), true)
    {
      if reply.Done? {
        toast := Toast("Success",
          if request.Update? then "Announcement updated successfully" else "Announcement created successfully", false);
        ResetForm();
      } else {
        toast := Toast("Error", ErrorText(reply.message, "Failed to save announcement"), true);
      }
      isLoading := false;
    }

    /** `handleSubmit` with the backend's reply to its request. */
    method HandleSubmit(reply: DbReply) returns (request: Request<AnnouncementForm>, toast: Toast)
      modifies this
      ensures IsSet(old(editingId)) ==> request == Update(Table, old(editingId).value, old(formData))
      ensures !IsSet(old(editingId)) ==> request == Insert(Table, old(formData))
      ensures !isLoading
      ensures reply.Done? ==> formData == EmptyForm && editingId == None
      ensures reply.DbError? ==> formData == old(formData) && editingId == old(editingId)
      ensures toast.destructive <==> reply.DbError?
    {
      request := BeginSubmit();
      toast := FinishSubmit(request, reply);
    }

    /** `handleDelete`: nothing happens unless the dialog is confirmed; then
        the row is deleted and a toast reports the outcome. The form is not
        touched. */
    method HandleDelete(id: string, confirmed: bool, reply: DbReply)
      returns (request: Option<Request<AnnouncementForm>>, toast: Option<Toast>)
      ensures !confirmed ==> request == None && toast == None
      ensures confirmed ==> request == Some(Delete(Table, id)) && toast.Some?
      ensures confirmed && reply.Done? ==> toast == Some(Toast("Success", "Announcement deleted successfully", false))
      ensures confirmed && reply.DbError? ==> toast == Some(Toast("Error", "Failed to delete announcement", true))
    {
      if !confirmed {
        return None, None;
      }
      request := Some(Delete(Table, id));
      if reply.Done? {
        toast := Some(Toast("Success", "Announcement deleted successfully", false));
      } else {
        toast := Some(Toast("Error", "Failed to delete announcement", true));
      }
    }

    /** The form's heading: editing or adding. */
    function FormHeading(): (heading: string)
      reads this
      ensures heading == "Edit Announcement" <==> IsSet(editingId)
    {
      if IsSet(editingId) then "Edit Announcement" else "Add New Announcement"
    }
  }
}
