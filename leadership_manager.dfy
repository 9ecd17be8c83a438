/** The admin form for the `leadership_team` table. Besides the common form
    cycle, the display order is kept as an integer: the input handler and the
    submit both pass it through `parseInt(...) || 0`. */
module LeadershipManager {
  import opened Common
  import opened JsNumber

  const Table: string := "leadership_team"
  const Placeholder: string := "/placeholder.svg"

  datatype LeaderForm = LeaderForm(name: string, position: string, bio: string, qualifications: string,
                                   email: string, phone: string, imageUrl: string, displayOrder: int)

  /** A row of the table; the optional columns may be null. */
  datatype Leader = Leader(id: string, name: string, position: string, bio: Option<string>,
                           qualifications: Option<string>, email: Option<string>, phone: Option<string>,
                           imageUrl: Option<string>, displayOrder: Option<int>)

  const EmptyForm: LeaderForm := LeaderForm("", "", "", "", "", "", "", 0)

  /** The row written on submit: the form with its display order passed
      through `parseInt(order.toString()) || 0`. */
  function DataToSave(form: LeaderForm): (row: LeaderForm)
    ensures row == form
  {
    ParseIntToString(form.displayOrder);
    form.(displayOrder := ParseIntOrZero(IntToString(form.displayOrder)))
  }

  /** The form `handleEdit` loads for a row: name and position are copied,
      the optional text columns default to "", a missing order to 0. */
  function FormOf(m: Leader): (form: LeaderForm)
    ensures (m.bio.Some? && m.qualifications.Some? && m.email.Some? && m.phone.Some? &&
             m.imageUrl.Some? && m.displayOrder.Some?) ==> Updated(m, form) == m
  {
    LeaderForm(m.name, m.position, OrEmpty(m.bio), OrEmpty(m.qualifications),
               OrEmpty(m.email), OrEmpty(m.phone), OrEmpty(m.imageUrl), OrZero(m.displayOrder))
  }

  /** The row once an update carrying `row` was applied to it; every column
      of the form is written, none as null. */
  function Updated(m: Leader, row: LeaderForm): Leader {
    m.(name := row.name, position := row.position, bio := Some(row.bio),
       qualifications := Some(row.qualifications), email := Some(row.email), phone := Some(row.phone),
       imageUrl := Some(row.imageUrl), displayOrder := Some(row.displayOrder))
  }

  /** Saving an edit form nobody changed writes back every set column as it
      was; a null column comes back as "" (or order 0). The row is unchanged
      exactly when none of its optional columns was null, and the card keeps
      its image either way. */
  lemma UnchangedEditSave(m: Leader)
    ensures Updated(m, DataToSave(FormOf(m))) ==
      m.(bio := Some(OrEmpty(m.bio)), qualifications := Some(OrEmpty(m.qualifications)),
         email := Some(OrEmpty(m.email)), phone := Some(OrEmpty(m.phone)),
         imageUrl := Some(OrEmpty(m.imageUrl)), displayOrder := Some(OrZero(m.displayOrder)))
    ensures Updated(m, DataToSave(FormOf(m))) == m <==>
      m.bio.Some? && m.qualifications.Some? && m.email.Some? && m.phone.Some?
      && m.imageUrl.Some? && m.displayOrder.Some?
    ensures CardImage(Updated(m, DataToSave(FormOf(m)))) == CardImage(m)
  {
  }

  /** The `src` of a member's card image: the placeholder when the row has
      no image address. */
  function CardImage(m: Leader): (src: string)
    ensures src != ""
    ensures m.imageUrl.Some? && m.imageUrl.value != "" ==> src == m.imageUrl.value
    ensures m.imageUrl.None? || m.imageUrl.value == "" ==> src == Placeholder
  {
    if m.imageUrl.Some? && m.imageUrl.value != "" then m.imageUrl.value else Placeholder
  }

  class LeadershipManager {
    var isLoading: bool
    var editingId: Option<string>
    var formData: LeaderForm

    constructor ()
      ensures formData == EmptyForm && editingId == None && !isLoading
    {
      isLoading := false;
      editingId := None;
      formData := EmptyForm;
    }

    /** `resetForm`, also the Cancel button: every text field empty, order 0. */
    method ResetForm()
      modifies this
      ensures formData == LeaderForm("", "", "", "", "", "", "", 0) && editingId == None
      ensures isLoading == old(isLoading)
    {
      formData := EmptyForm;
      editingId := None;
    }

    /** `handleEdit`: the row's form, and its id becomes the one being edited. */
    method HandleEdit(m: Leader)
      modifies this
      ensures formData == FormOf(m)
      ensures editingId == Some(m.id) && isLoading == old(isLoading)
    {
      formData := FormOf(m);
      editingId := Some(m.id);
    }

    /** The display-order input's change handler: the typed text is parsed,
        NaN and 0 both giving 0; no other field changes. */
    method SetDisplayOrder(text: string)
      modifies this
      ensures formData == old(formData).(displayOrder := ParseIntOrZero(text))
      ensures editingId == old(editingId) && isLoading == old(isLoading)
    {
      formData := formData.(displayOrder := ParseIntOrZero(text));
    }

    /** The first half of `handleSubmit`: loading starts and the normalised
        row goes to an update of the edited id, or to an insert. The
        normalisation leaves the form's integer order as it is. */
    method BeginSubmit() returns (request: Request<LeaderForm>)
      modifies this
      ensures isLoading
      ensures formData == old(formData) && editingId == old(editingId)
      ensures IsSet(editingId) ==> request == Update(Table, editingId.value, formData)
      ensures !IsSet(editingId) ==> request == Insert(Table, formData)
    {
      isLoading := true;
      var dataToSave := DataToSave(formData);
      if IsSet(editingId) {
        request := Update(Table, editingId.value, dataToSave);
      } else {
        request := Insert(Table, dataToSave);
      }
    }

    /** The second half of `handleSubmit`: success resets the form, failure
        keeps it; loading ends in both cases. */
    method FinishSubmit(request: Request<LeaderForm>, reply: DbReply) returns (toast: Toast)
      modifies this
      ensures !isLoading
      ensures reply.Done? ==> formData == EmptyForm && editingId == None
      ensures reply.DbError? ==> formData == old(formData) && editingId == old(editingId)
      ensures reply.Done? ==> toast == Toast("Success",
        if request.Update? then "Leadership member updated successfully" else "Leadership member added successfully", false)
      ensures reply.DbError? ==> toast == Toast("Error", ErrorText(reply.message, "Failed to save leadership member"), true)
    {
      if reply.Done? {
        toast := Toast("Success",
          if request.Update? then "Leadership member updated successfully" else "Leadership member added successfully", false);
        ResetForm();
      } else {
        toast := Toast("Error", ErrorText(reply.message, "Failed to save leadership member"), true);
      }
      isLoading := false;
    }

    /** `handleSubmit` with the backend's reply to its request. */
    method HandleSubmit(reply: DbReply) returns (request: Request<LeaderForm>, toast: Toast)
      modifies this
      ensures IsSet(old(editingId)) ==> request == Update(Table, old(editingId).value, old(formData))
      ensures !IsSet(old(editingId)) ==> request == Insert(Table, old(formData))
      ensures !isLoading
      ensures reply.Done? ==> formData == EmptyForm && editingId == None
      ensures reply.DbError? ==> formData == old(formData) && editingId == old(editingId)
      ensures toast.destructive <==> reply.DbError?
    {
      request := BeginSubmit();
      toast := FinishSubmit(request, reply);
    }

    /** `handleDelete`: nothing happens unless the dialog is confirmed. */
    method HandleDelete(id: string, confirmed: bool, reply: DbReply)
      returns (request: Option<Request<LeaderForm>>, toast: Option<Toast>)
      ensures !confirmed ==> request == None && toast == None
      ensures confirmed ==> request == Some(Delete(Table, id)) && toast.Some?
      ensures confirmed && reply.Done? ==> toast == Some(Toast("Success", "Leadership member deleted successfully", false))
      ensures confirmed && reply.DbError? ==> toast == Some(Toast("Error", "Failed to delete leadership member", true))
    {
      if !confirmed {
        return None, None;
      }
      request := Some(Delete(Table, id));
      if reply.Done? {
        toast := Some(Toast("Success", "Leadership member deleted successfully", false));
      } else {
        toast := Some(Toast("Error", "Failed to delete leadership member", true));
      }
    }
  }
}
