/** The user-profile dialog: avatar validation before the crop editor,
    drag-and-drop while editing, the save guard with trimmed values,
    cancelling an edit and the actions each mode offers. A save that awaits
    the server is split into `BeginSave` and `FinishSave`. */
module ProfileDialog {
  import opened Common
  import opened DialogModes

  /** 5 MiB: a larger avatar is refused. */
  const MaxAvatarBytes := 5 * 1024 * 1024

  /** A picked or dropped file; `handle` is its object identity. */
  datatype ImageFile = ImageFile(handle: nat, size: nat, mimeType: string)

  /** The user shown; a missing profile reads as missing bio and avatar. */
  datatype UserInfo = UserInfo(username: string, bio: Option<string>, avatarImg: Option<string>)

  datatype ProfileUpdate = ProfileUpdate(username: string, bio: string, avatar: Option<nat>, crop: Option<nat>)

  datatype AvatarVerdict = TooLarge | NotAnImage | Accepted

  /** The size test comes first, then the type test. */
  function AvatarVerdictFor(f: ImageFile): (v: AvatarVerdict)
    ensures v == Accepted <==> f.size <= MaxAvatarBytes && StartsWith(f.mimeType, "image/")
    ensures v == TooLarge <==> f.size > MaxAvatarBytes
    ensures v == NotAnImage <==> f.size <= MaxAvatarBytes && !StartsWith(f.mimeType, "image/")
  {
    if f.size > MaxAvatarBytes then TooLarge
    else if !StartsWith(f.mimeType, "image/") then NotAnImage
    else Accepted
  }

  /** A file of exactly 5 MiB is still accepted. */
  lemma LimitIsInclusive(handle: nat)
    ensures AvatarVerdictFor(ImageFile(handle, 5242880, "image/png")) == Accepted
    ensures AvatarVerdictFor(ImageFile(handle, 5242881, "image/png")) == TooLarge
  {
    assert StartsWith("image/png", "image/");
  }

  /** The buttons under the dialog. */
  datatype ActionSet = ActionSet(cancelAndSave: bool, editProfile: bool, startChat: bool)

  /** Editing shows Cancel and Save; otherwise "Edit Profile" appears in
      `Edit` mode only and "Start Chat" in every mode but `DM`. */
  function Actions(mode: DialogMode, isEditing: bool): (r: ActionSet)
    ensures r.cancelAndSave <==> isEditing
    ensures r.editProfile <==> !isEditing && mode == Edit
    ensures r.startChat <==> !isEditing && mode != DM
  {
    ActionSet(isEditing, !isEditing && mode == Edit, !isEditing && mode != DM)
  }

  /** Only the owner's own profile, opened for editing, can be edited, and
      a direct-message view never offers to start one. */
  lemma EditOnlyInEditMode(mode: DialogMode, isEditing: bool)
    ensures Actions(mode, isEditing).editProfile ==> Actions(mode, isEditing).startChat
    ensures mode == DM ==> !Actions(mode, isEditing).editProfile && !Actions(mode, isEditing).startChat
  {
  }

  class Dialog {
    var user: UserInfo
    var isEditing: bool
    var username: string
    var bio: string
    var avatar: Option<nat>
    var cropData: Option<nat>
    var avatarPreview: Option<string>
    var selectedImage: Option<nat>
    var showCropEditor: bool
    var isDragOver: bool
    var loading: bool
    var error: Option<string>
    var success: bool

    /** The initial `useState` values. */
    constructor(u: UserInfo)
      ensures user == u && username == u.username && bio == OrEmpty(u.bio) && avatarPreview == OrNone(u.avatarImg)
      ensures !isEditing && avatar.None? && cropData.None? && selectedImage.None?
      ensures !showCropEditor && !isDragOver && !loading && error.None? && !success
    {
      user := u;
      isEditing := false;
      username := u.username;
      bio := OrEmpty(u.bio);
      avatar := None;
      cropData := None;
      avatarPreview := OrNone(u.avatarImg);
      selectedImage := None;
      showCropEditor := false;
      isDragOver := false;
      loading := false;
      error := None;
      success := false;
    }

    /** Opening, or a new user while open, reloads the form. */
    method Open(u: UserInfo)
      modifies this
      ensures user == u && username == u.username && bio == OrEmpty(u.bio) && avatarPreview == OrNone(u.avatarImg)
      ensures avatar.None? && error.None? && !success && !isDragOver && selectedImage.None?
      ensures isEditing == old(isEditing) && cropData == old(cropData) && loading == old(loading)
      ensures showCropEditor == old(showCropEditor)
    {
      user := u;
      username := u.username;
      bio := OrEmpty(u.bio);
      avatarPreview := OrNone(u.avatarImg);
      avatar := None;
      error := None;
      success := false;
      isDragOver := false;
      selectedImage := None;
    }

    /** "Edit Profile" exists only in `Edit` mode and outside edit mode. */
    method StartEditing(mode: DialogMode)
      modifies this
      ensures isEditing == (old(isEditing) || Actions(mode, old(isEditing)).editProfile)
      ensures username == old(username) && bio == old(bio) && avatar == old(avatar) && cropData == old(cropData)
      ensures user == old(user) && error == old(error) && loading == old(loading)
    {
      if Actions(mode, isEditing).editProfile {
        isEditing := true;
      }
    }

    method TypeUsername(v: string)
      modifies this
      ensures username == v && bio == old(bio) && isEditing == old(isEditing) && user == old(user)
      ensures loading == old(loading) && avatar == old(avatar) && error == old(error)
    {
      username := v;
    }

    method TypeBio(v: string)
      modifies this
      ensures bio == v && username == old(username) && isEditing == old(isEditing) && user == old(user)
      ensures loading == old(loading) && avatar == old(avatar) && error == old(error)
    {
      bio := v;
    }

    /** `handleAvatarChange`: a refused file sets the matching error and
        opens nothing; an accepted one opens the crop editor and clears the
        error. */
    method AvatarChange(f: ImageFile)
      modifies this
      ensures AvatarVerdictFor(f) == TooLarge ==> error == Some("Image size must be less than 5MB")
      ensures AvatarVerdictFor(f) == NotAnImage ==> error == Some("Please select a valid image file")
      ensures AvatarVerdictFor(f) != Accepted ==> selectedImage == old(selectedImage) && showCropEditor == old(showCropEditor)
      ensures AvatarVerdictFor(f) == Accepted ==> selectedImage == Some(f.handle) && showCropEditor && error.None?
      ensures avatar == old(avatar) && avatarPreview == old(avatarPreview) && cropData == old(cropData)
      ensures username == old(username) && bio == old(bio) && isEditing == old(isEditing)
      ensures user == old(user) && loading == old(loading) && isDragOver == old(isDragOver)
    {
      match AvatarVerdictFor(f) {
        case TooLarge =>
          error := Some("Image size must be less than 5MB");
        case NotAnImage =>
          error := Some("Please select a valid image file");
        case Accepted =>
          selectedImage := Some(f.handle);
          showCropEditor := true;
          error := None;
      }
    }

    /** A finished crop becomes the avatar to upload and the preview. */
    method CropComplete(file: nat, crop: nat, previewUrl: string)
      modifies this
      ensures avatar == Some(file) && cropData == Some(crop) && avatarPreview == Some(previewUrl)
      ensures !showCropEditor && selectedImage.None?
      ensures username == old(username) && bio == old(bio) && isEditing == old(isEditing)
      ensures user == old(user) && loading == old(loading) && error == old(error)
    {
      avatar := Some(file);
      cropData := Some(crop);
      avatarPreview := Some(previewUrl);
      showCropEditor := false;
      selectedImage := None;
    }

    /** Closing the crop editor discards the picked image, not the avatar. */
    method CropEditorClose()
      modifies this
      ensures !showCropEditor && selectedImage.None?
      ensures avatar == old(avatar) && avatarPreview == old(avatarPreview) && cropData == old(cropData)
      ensures username == old(username) && bio == old(bio) && isEditing == old(isEditing) && error == old(error)
    {
      showCropEditor := false;
      selectedImage := None;
    }

    /** The drop highlight shows only while editing, and on entry only for
        an image. */
    method DragEnter(firstItemType: Option<string>)
      modifies this
      ensures isDragOver == (old(isDragOver) || (isEditing && firstItemType.Some? && StartsWith(firstItemType.value, "image/")))
      ensures isEditing == old(isEditing) && error == old(error) && avatar == old(avatar)
    {
      if isEditing && firstItemType.Some? && StartsWith(firstItemType.value, "image/") {
        isDragOver := true;
      }
    }

    method DragOver()
      modifies this
      ensures isDragOver == (old(isDragOver) || isEditing)
      ensures isEditing == old(isEditing) && error == old(error) && avatar == old(avatar)
    {
      if isEditing {
        isDragOver := true;
      }
    }

    method DragLeave()
      modifies this
      ensures !isDragOver && isEditing == old(isEditing) && error == old(error) && avatar == old(avatar)
    {
      isDragOver := false;
    }

    /** A drop counts only while editing: an image goes through the avatar
        checks, anything else sets an error. */
    method Drop(first: Option<ImageFile>)
      modifies this
      ensures !isDragOver
      ensures !old(isEditing) || first.None? ==> error == old(error) && selectedImage == old(selectedImage) && showCropEditor == old(showCropEditor)
      ensures old(isEditing) && first.Some? && !StartsWith(first.value.mimeType, "image/") ==>
        error == Some("Please drop a valid image file") && selectedImage == old(selectedImage)
      ensures old(isEditing) && first.Some? && AvatarVerdictFor(first.value) == Accepted ==>
        selectedImage == Some(first.value.handle) && showCropEditor && error.None?
      ensures old(isEditing) && first.Some? && AvatarVerdictFor(first.value) == TooLarge && StartsWith(first.value.mimeType, "image/") ==>
        error == Some("Image size must be less than 5MB") && selectedImage == old(selectedImage)
      ensures avatar == old(avatar) && avatarPreview == old(avatarPreview) && cropData == old(cropData)
      ensures username == old(username) && bio == old(bio) && isEditing == old(isEditing) && user == old(user)
      ensures loading == old(loading)
    {
      isDragOver := false;
      if isEditing && first.Some? {
        if StartsWith(first.value.mimeType, "image/") {
          AvatarChange(first.value);
        } else {
          error := Some("Please drop a valid image file");
        }
      }
    }

    /** A blank username is refused with an error; otherwise the trimmed
        username and bio go to `onUpdateProfile`. Nothing is sent while a
        save is pending (the button is disabled). */
    method BeginSave() returns (call: Option<ProfileUpdate>)
      modifies this
      ensures old(loading) ==> call.None? && error == old(error) && loading
      ensures !old(loading) && IsBlank(old(username)) ==> call.None? && error == Some("Username is required") && !loading
      ensures !old(loading) && !IsBlank(old(username)) ==> loading && error.None?
      ensures !old(loading) && !IsBlank(old(username)) ==>
        call == Some(ProfileUpdate(Trim(old(username)), Trim(old(bio)), old(avatar), old(cropData)))
      ensures call.Some? ==> call.value.username != [] && !IsWhitespace(call.value.username[0])
      ensures username == old(username) && bio == old(bio) && isEditing == old(isEditing)
      ensures user == old(user) && avatar == old(avatar) && cropData == old(cropData)
      ensures avatarPreview == old(avatarPreview)
    {
      call := None;
      if loading {
        return;
      }
      var trimmed, trimmedBio := Trim(username), Trim(bio);
      assert IsBlank(username) <==> trimmed == [];
      if trimmed == [] {
        error := Some("Username is required");
        return;
      }
      assert !IsWhitespace(trimmed[0]);
      loading := true;
      error := None;
      call := Some(ProfileUpdate(trimmed, trimmedBio, avatar, cropData));
    }

    /** Any resolved update leaves edit mode, whatever it reports; a thrown
        error keeps edit mode and shows its message, or a default one. An
        absent `onUpdateProfile` handler throws, too. */
    method FinishSave(outcome: SaveOutcome)
      modifies this
      ensures !loading
      ensures outcome.Returned? ==> success == outcome.ok && !isEditing && error == old(error)
      ensures outcome.Threw? ==> isEditing == old(isEditing) && success == old(success)
      ensures outcome.Threw? ==>
        error == Some(if outcome.message == "" then "Failed to update profile" else outcome.message)
      ensures username == old(username) && bio == old(bio) && user == old(user)
      ensures avatar == old(avatar) && avatarPreview == old(avatarPreview)
    {
      match outcome {
        case Returned(ok) =>
          success := ok;
          isEditing := false;
        case Threw(message) =>
          error := Some(if message == "" then "Failed to update profile" else message);
      }
      loading := false;
    }

    /** Cancel restores the user's own values and drops the chosen avatar,
        the error and the drop highlight. The button is disabled while a save
        is pending. */
    method Cancel()
      modifies this
      ensures old(loading) ==> isEditing == old(isEditing) && username == old(username) && bio == old(bio)
      ensures old(loading) ==> avatarPreview == old(avatarPreview) && avatar == old(avatar) && error == old(error)
      ensures !old(loading) ==> !isEditing && username == user.username && bio == OrEmpty(user.bio)
      ensures !old(loading) ==> avatarPreview == OrNone(user.avatarImg) && avatar.None? && error.None? && !isDragOver
      ensures user == old(user) && loading == old(loading) && cropData == old(cropData)
    {
      if loading {
        return;
      }
      isEditing := false;
      username := user.username;
      bio := OrEmpty(user.bio);
      avatarPreview := OrNone(user.avatarImg);
      avatar := None;
      error := None;
      isDragOver := false;
    }
  }

  /** Whatever was typed or cropped during an edit, cancelling it puts the
      form back to the state opening the dialog gives. */
  method EditThenCancelRestores(d: Dialog, name: string, bioText: string, file: nat, crop: nat, url: string)
    requires !d.loading
    modifies d
    ensures d.username == d.user.username && d.bio == OrEmpty(d.user.bio)
    ensures d.avatarPreview == OrNone(d.user.avatarImg) && d.avatar.None? && !d.isEditing
  {
    d.StartEditing(Edit);
    d.TypeUsername(name);
    d.TypeBio(bioText);
    d.CropComplete(file, crop, url);
    d.Cancel();
  }
}
