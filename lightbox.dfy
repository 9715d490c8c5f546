/** `FormLightbox`: a modal form whose only state the wizard relies on is
    whether it is open and which record it is editing. */
module Lightbox {
  import opened Base

  /** A non-null edit index: the sentinel `"legalRep"` or a position. */
  datatype EditTarget = LegalRep | Position(i: int)

  class FormLightbox {
    var isOpen: bool
    /** `editIndex`: `None` is null. */
    var editIndex: Option<EditTarget>

    constructor ()
      ensures !isOpen && editIndex == None
    {
      isOpen := false;
      editIndex := None;
    }

    /** `openLightbox()`; the add button also clears the form's fields, and
        neither touches the edit index. */
    method OpenLightbox()
      modifies this
      ensures isOpen && editIndex == old(editIndex)
    {
      isOpen := true;
    }

    /** `closeLightbox()`: every way of closing forgets the edit index. */
    method CloseLightbox()
      modifies this
      ensures !isOpen && editIndex == None
    {
      isOpen := false;
      ClearEditIndex();
    }

    method SetEditIndex(index: EditTarget)
      modifies this
      ensures editIndex == Some(index) && isOpen == old(isOpen)
    {
      editIndex := Some(index);
    }

    method GetEditIndex() returns (index: Option<EditTarget>)
      ensures index == editIndex
    {
      index := editIndex;
    }

    method ClearEditIndex()
      modifies this
      ensures editIndex == None && isOpen == old(isOpen)
    {
      editIndex := None;
    }
  }
}
