/** The earlier profile dialog. Its avatar checks, drag-and-drop, save guard
    and cancel are those of `ProfileDialog.Dialog`; it has no mode, so the
    "Edit Profile" and "Start Chat" buttons are both always offered outside
    edit mode. */
module LegacyProfileDialog {
  import opened DialogModes
  import ProfileDialog

  function Actions(isEditing: bool): (r: ProfileDialog.ActionSet)
    ensures r.cancelAndSave <==> isEditing
    ensures r.editProfile <==> !isEditing
    ensures r.startChat <==> !isEditing
  {
    ProfileDialog.ActionSet(isEditing, !isEditing, !isEditing)
  }

  /** The earlier dialog behaves as the current one opened in `Edit` mode. */
  lemma SameAsEditMode(isEditing: bool)
    ensures Actions(isEditing) == ProfileDialog.Actions(Edit, isEditing)
  {
  }
}
