/** The admin form for the `learning_materials` table: seven text fields,
    the id being edited and the loading flag. */
module LearningMaterialsManager {
  import opened Common

  const Table: string := "learning_materials"

  datatype MaterialForm = MaterialForm(title: string, description: string, subject: string, classLevel: string,
                                       fileType: string, fileSize: string, fileUrl: string)

  /** A row of the table; description, file size and download count may be null. */
  datatype Material = Material(id: string, title: string, description: Option<string>, subject: string,
                               classLevel: string, fileType: string, fileSize: Option<string>,
                               fileUrl: string, downloads: Option<int>)

  const EmptyForm: MaterialForm := MaterialForm("", "", "", "", "", "", "")

  /** The form `handleEdit` loads for a row: only description and file size
      default to ""; the other columns are copied as they are. */
  function FormOf(m: Material): (form: MaterialForm)
    ensures m.description.Some? && m.fileSize.Some? ==> Updated(m, form) == m
  {
    MaterialForm(m.title, OrEmpty(m.description), m.subject, m.classLevel,
                 m.fileType, OrEmpty(m.fileSize), m.fileUrl)
  }

  /** The row once an update carrying `form` was applied to it; the download
      count is not a form column and is left alone. */
  function Updated(m: Material, form: MaterialForm): Material {
    m.(title := form.title, description := Some(form.description), subject := form.subject,
       classLevel := form.classLevel, fileType := form.fileType, fileSize := Some(form.fileSize),
       fileUrl := form.fileUrl)
  }

  /** Saving an edit form nobody changed writes back every set column as it
      was and turns a null description or file size into "". The row is
      unchanged exactly when neither was null, and the shown download count
      never changes. */
  lemma UnchangedEditSave(m: Material)
    ensures Updated(m, FormOf(m)) ==
      m.(description := Some(OrEmpty(m.description)), fileSize := Some(OrEmpty(m.fileSize)))
    ensures Updated(m, FormOf(m)) == m <==> m.description.Some? && m.fileSize.Some?
    ensures DownloadsShown(Updated(m, FormOf(m))) == DownloadsShown(m)
  {
  }

  /** The "Downloads:" figure of a listed material: `downloads || 0`. */
  function DownloadsShown(m: Material): (n: int)
    ensures m.downloads.Some? ==> n == m.downloads.value
    ensures m.downloads.None? ==> n == 0
  {
    OrZero(m.downloads)
  }

  class LearningMaterialsManager {
    var isLoading: bool
    var editingId: Option<string>
    var formData: MaterialForm

    constructor ()
      ensures formData == EmptyForm && editingId == None && !isLoading
    {
      isLoading := false;
      editingId := None;
      formData := EmptyForm;
    }

    /** `resetForm`, also the Cancel button: all seven fields empty. */
    method ResetForm()
      modifies this
      ensures formData == MaterialForm("", "", "", "", "", "", "") && editingId == None
      ensures isLoading == old(isLoading)
    {
      formData := EmptyForm;
      editingId := None;
    }

    /** `handleEdit`: the row's form, and its id becomes the one being edited. */
    method HandleEdit(m: Material)
      modifies this
      ensures formData == FormOf(m)
      ensures editingId == Some(m.id) && isLoading == old(isLoading)
    {
      formData := FormOf(m);
      editingId := Some(m.id);
    }

    /** The first half of `handleSubmit`: loading starts and the form goes to
        an update of the edited id, or to an insert. */
    method BeginSubmit() returns (request: Request<MaterialForm>)
      modifies this
      ensures isLoading
      ensures formData == old(formData) && editingId == old(editingId)
      ensures IsSet(editingId) ==> request == Update(Table, editingId.value, formData)
      ensures !IsSet(editingId) ==> request == Insert(Table, formData)
    {
      isLoading := true;
      if IsSet(editingId) {
        request := Update(Table, editingId.value, formData);
      } else {
        request := Insert(Table, formData);
      }
    }

    /** The second half of `handleSubmit`: success resets the form, failure
        keeps it; loading ends in both cases. */
    method FinishSubmit(request: Request<MaterialForm>, reply: DbReply) returns (toast: Toast)
      modifies this
      ensures !isLoading
      ensures reply.Done? ==> formData == EmptyForm && editingId == None
      ensures reply.DbError? ==> formData == old(formData) && editingId == old(editingId)
      ensures reply.Done? ==> toast == Toast("Success",
        if request.Update? then "Learning material updated successfully" else "Learning material created successfully", false)
      ensures reply.DbError? ==> toast == Toast("Error", ErrorText(reply.message, "Failed to save learning material"), true)
    {
      if reply.Done? {
        toast := Toast("Success",
          if request.Update? then "Learning material updated successfully" else "Learning material created successfully", false);
        ResetForm();
      } else {
        toast := Toast("Error", ErrorText(reply.message, "Failed to save learning material"), true);
      }
      isLoading := false;
    }

    /** `handleSubmit` with the backend's reply to its request. */
    method HandleSubmit(reply: DbReply) returns (request: Request<MaterialForm>, toast: Toast)
      modifies this
      ensures IsSet(old(editingId)) ==> request == Update(Table, old(editingId).value, old(formData))
      ensures !IsSet(old(editingId)) ==> request == Insert(Table, old(formData))
      ensures !isLoading
      ensures reply.Done? ==> formData == EmptyForm && editingId == None
      ensures reply.DbError? ==> formData == old(formData) && editingId == old(editingId)
      ensures toast.destructive <==> reply.DbError?
    {
      request := BeginSubmit();
      toast := FinishSubmit(request, reply);
    }

    /** `handleDelete`: nothing happens unless the dialog is confirmed. */
    method HandleDelete(id: string, confirmed: bool, reply: DbReply)
      returns (request: Option<Request<MaterialForm>>, toast: Option<Toast>)
      ensures !confirmed ==> request == None && toast == None
      ensures confirmed ==> request == Some(Delete(Table, id)) && toast.Some?
      ensures confirmed && reply.Done? ==> toast == Some(Toast("Success", "Learning material deleted successfully", false))
      ensures confirmed && reply.DbError? ==> toast == Some(Toast("Error", "Failed to delete learning material", true))
    {
      if !confirmed {
        return None, None;
      }
      request := Some(Delete(Table, id));
      if reply.Done? {
        toast := Some(Toast("Success", "Learning material deleted successfully", false));
      } else {
        toast := Some(Toast("Error", "Failed to delete learning material", true));
      }
    }
  }
}
