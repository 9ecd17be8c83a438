/** The admin gallery editor for the `school_life_gallery` table. Unlike the
    other forms it keeps the id being edited in `isEditing`, a separate
    `isCreating` flag for the create form, and takes the id to update as an
    argument of the submit. */
module GalleryManager {
  import opened Common

  const Table: string := "school_life_gallery"

  datatype GalleryForm = GalleryForm(title: string, description: string, category: string,
                                     imageUrl: string, dateTaken: string)

  /** A row of the table; description and date may be null. */
  datatype GalleryItem = GalleryItem(id: string, title: string, description: Option<string>, category: string,
                                     imageUrl: string, dateTaken: Option<string>)

  const EmptyForm: GalleryForm := GalleryForm("", "", "general", "", "")

  /** The form `startEdit` loads for an item: description and date default
      to "", the other columns are copied. */
  function FormOf(item: GalleryItem): (form: GalleryForm)
    ensures item.description.Some? && item.dateTaken.Some? ==> Updated(item, form) == item
  {
    GalleryForm(item.title, OrEmpty(item.description), item.category, item.imageUrl, OrEmpty(item.dateTaken))
  }

  /** The item once an update carrying `form` was applied to it. */
  function Updated(item: GalleryItem, form: GalleryForm): GalleryItem {
    item.(title := form.title, description := Some(form.description), category := form.category,
          imageUrl := form.imageUrl, dateTaken := Some(form.dateTaken))
  }

  /** Saving an edit form nobody changed writes back every set column as it
      was and turns a null description or date into ""; the item is
      unchanged exactly when neither was null. */
  lemma UnchangedEditSave(item: GalleryItem)
    ensures Updated(item, FormOf(item)) ==
      item.(description := Some(OrEmpty(item.description)), dateTaken := Some(OrEmpty(item.dateTaken)))
    ensures Updated(item, FormOf(item)) == item <==> item.description.Some? && item.dateTaken.Some?
  {
  }

  /** Whether the card of `item` renders the edit form: `isEditing === item.id`. */
  predicate InEditMode(item: GalleryItem, isEditing: Option<string>)
    ensures isEditing.None? ==> !InEditMode(item, isEditing)
    ensures InEditMode(item, isEditing) ==> IsSet(isEditing) || item.id == ""
  {
    isEditing == Some(item.id)
  }

  /** The positions of the cards rendered in edit mode, in grid order. */
  function EditModeCards(gallery: seq<GalleryItem>, isEditing: Option<string>): (cards: seq<nat>)
    ensures forall k :: 0 <= k < |cards| ==> cards[k] < |gallery| && InEditMode(gallery[cards[k]], isEditing)
    ensures forall i :: 0 <= i < |gallery| && InEditMode(gallery[i], isEditing) ==> i in cards
    ensures (forall i :: 0 <= i < |gallery| ==> !InEditMode(gallery[i], isEditing)) ==> cards == []
    decreases |gallery|
  {
    if gallery == [] then []
    else
      var rest := EditModeCards(gallery[..|gallery| - 1], isEditing);
      var last := |gallery| - 1;
      if InEditMode(gallery[last], isEditing) then rest + [last] else rest
  }

  predicate DistinctIds(gallery: seq<GalleryItem>) {
    forall i, j :: 0 <= i < j < |gallery| ==> gallery[i].id != gallery[j].id
  }

  /** With distinct ids at most one card is in edit mode, and it is the card
      of the item whose id is being edited. */
  lemma {:induction false} AtMostOneEditForm(gallery: seq<GalleryItem>, isEditing: Option<string>)
    requires DistinctIds(gallery)
    ensures |EditModeCards(gallery, isEditing)| <= 1
    ensures isEditing.None? ==> EditModeCards(gallery, isEditing) == []
    decreases |gallery|
  {
    if gallery != [] {
      var init := gallery[..|gallery| - 1];
      assert DistinctIds(init);
      AtMostOneEditForm(init, isEditing);
      var rest := EditModeCards(init, isEditing);
      var last := gallery[|gallery| - 1];
      if InEditMode(last, isEditing) {
        assert forall i :: 0 <= i < |init| ==> !InEditMode(init[i], isEditing);
      }
    }
  }

  class GalleryManager {
    var isEditing: Option<string>
    var isCreating: bool
    var formData: GalleryForm

    constructor ()
      ensures formData == EmptyForm && isEditing == None && !isCreating
    {
      isEditing := None;
      isCreating := false;
      formData := EmptyForm;
    }

    /** `startCreate`: the defaults are loaded and the create form opens;
        the id being edited is kept. */
    method StartCreate()
      modifies this
      ensures formData == GalleryForm("", "", "general", "", "") && isCreating
      ensures isEditing == old(isEditing)
    {
      formData := EmptyForm;
      isCreating := true;
    }

    /** `startEdit`: the item's form is loaded and its card switches to edit
        mode; `isCreating` is kept. */
    method StartEdit(item: GalleryItem)
      modifies this
      ensures formData == FormOf(item)
      ensures isEditing == Some(item.id) && isCreating == old(isCreating)
    {
      formData := FormOf(item);
      isEditing := Some(item.id);
    }

    /** `handleSubmit(e, id?)`: an update of `id` when one is given (and
        non-empty), an insert otherwise. Success closes both forms and
        resets the fields; failure changes nothing. */
    method HandleSubmit(id: Option<string>, reply: DbReply) returns (request: Request<GalleryForm>, toast: Toast)
      modifies this
      ensures IsSet(id) ==> request == Update(Table, id.value, old(formData))
      ensures !IsSet(id) ==> request == Insert(Table, old(formData))
      ensures reply.Done? ==> isEditing == None && !isCreating && formData == EmptyForm
      ensures reply.DbError? ==>
        isEditing == old(isEditing) && isCreating == old(isCreating) && formData == old(formData)
      ensures reply.Done? ==> toast == Toast(
        if IsSet(id) then "Gallery item updated successfully" else "Gallery item created successfully", "", false)
      ensures reply.DbError? ==> toast == Toast("Error", "Failed to save gallery item", true)
    {
      if IsSet(id) {
        request := Update(Table, id.value, formData);
      } else {
        request := Insert(Table, formData);
      }
      if reply.Done? {
        toast := Toast(if IsSet(id) then "Gallery item updated successfully" else "Gallery item created successfully", "", false);
        isEditing := None;
        isCreating := false;
        formData := EmptyForm;
      } else {
        toast := Toast("Error", "Failed to save gallery item", true);
      }
    }

    /** The create form's Cancel button: it only closes the create form. */
    method CancelCreate()
      modifies this
      ensures !isCreating && isEditing == old(isEditing) && formData == old(formData)
    {
      isCreating := false;
    }

    /** An edit form's Cancel button: it only leaves edit mode. */
    method CancelEdit()
      modifies this
      ensures isEditing == None && isCreating == old(isCreating) && formData == old(formData)
    {
      isEditing := None;
    }

    /** `handleDelete`: nothing happens unless the dialog is confirmed. */
    method HandleDelete(id: string, confirmed: bool, reply: DbReply)
      returns (request: Option<Request<GalleryForm>>, toast: Option<Toast>)
      ensures !confirmed ==> request == None && toast == None
      ensures confirmed ==> request == Some(Delete(Table, id)) && toast.Some?
      ensures confirmed && reply.Done? ==> toast == Some(Toast("Gallery item deleted successfully", "", false))
      ensures confirmed && reply.DbError? ==> toast == Some(Toast("Error", "Failed to delete gallery item", true))
    {
      if !confirmed {
        return None, None;
      }
      request := Some(Delete(Table, id));
      if reply.Done? {
        toast := Some(Toast("Gallery item deleted successfully", "", false));
      } else {
        toast := Some(Toast("Error", "Failed to delete gallery item", true));
      }
    }
  }
}
