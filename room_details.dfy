/** The group-info dialog: the capped name and description fields and their
    counters, the save guard, leaving edit mode, the owner's star and
    cancelling an edit. A save that awaits the server is split into
    `BeginSave` and `FinishSave`. */
module RoomDetails {
  import opened Common
  import opened DialogModes

  const NameCap := 100
  const NameWarnAbove := 80
  const DescriptionCap := 140
  const DescriptionWarnAbove := 130

  /** The room as the dialog receives it; files are identified by handle. */
  datatype RoomInfo = RoomInfo(id: nat, name: string, isPrivate: bool, description: Option<string>,
                               avatarImg: Option<string>, owner: string)

  datatype RoomUpdate = RoomUpdate(roomId: nat, name: string, description: string,
                                   avatar: Option<nat>, crop: Option<nat>)

  datatype CounterColour = TextSecondary | WarningMain | ErrorMain

  /** The colour of a "length/cap" counter; `len` is the field's
      `length`, its count of UTF-16 code units. */
  function Counter(len: nat, warnAbove: nat, cap: nat): CounterColour {
    if len > warnAbove then (if len >= cap then ErrorMain else WarningMain) else TextSecondary
  }

  /** The name counter's three bands: up to 80 plain, 81 to 99 a warning,
      100 and over an error. */
  lemma NameCounterBands(len: nat)
    ensures Counter(len, NameWarnAbove, NameCap) == TextSecondary <==> len <= 80
    ensures Counter(len, NameWarnAbove, NameCap) == WarningMain <==> 81 <= len <= 99
    ensures Counter(len, NameWarnAbove, NameCap) == ErrorMain <==> len >= 100
  {
  }

  /** The description counter's bands: up to 130, 131 to 139, 140 and over. */
  lemma DescriptionCounterBands(len: nat)
    ensures Counter(len, DescriptionWarnAbove, DescriptionCap) == TextSecondary <==> len <= 130
    ensures Counter(len, DescriptionWarnAbove, DescriptionCap) == WarningMain <==> 131 <= len <= 139
    ensures Counter(len, DescriptionWarnAbove, DescriptionCap) == ErrorMain <==> len >= 140
  {
  }

  /** The gold border and star go to the member whose username is the
      room's owner. */
  predicate IsOwner(username: string, room: RoomInfo) {
    username == room.owner
  }

  /** Among members with distinct usernames, at most one is starred. */
  lemma AtMostOneOwnerStarred(members: seq<string>, room: RoomInfo)
    requires forall i, j :: 0 <= i < j < |members| ==> members[i] != members[j]
    ensures forall i, j ::
      (0 <= i < |members| && 0 <= j < |members| && IsOwner(members[i], room) && IsOwner(members[j], room)) ==> i == j
  {
  }

  class Dialog {
    var room: RoomInfo
    var isEditing: bool
    var name: string
    var isPrivate: bool
    var description: string
    var avatarFile: Option<nat>
    var cropData: Option<nat>
    var avatarPreview: Option<string>
    var selectedImage: Option<nat>
    var showCropEditor: bool
    var loading: bool
    var error: Option<string>
    var success: bool

    /** The initial `useState` values, before the dialog opens. */
    constructor(r: RoomInfo)
      ensures room == r && !isEditing && name == "" && !isPrivate && description == ""
      ensures avatarFile.None? && cropData.None? && avatarPreview.None? && selectedImage.None?
      ensures !showCropEditor && !loading && error.None? && !success
    {
      room := r;
      isEditing := false;
      name := "";
      isPrivate := false;
      description := "";
      avatarFile := None;
      cropData := None;
      avatarPreview := None;
      selectedImage := None;
      showCropEditor := false;
      loading := false;
      error := None;
      success := false;
    }

    /** Opening (or receiving a new room while open) loads the room into the
        form and leaves edit mode. */
    method Open(r: RoomInfo)
      modifies this
      ensures room == r && name == r.name && isPrivate == r.isPrivate
      ensures description == OrEmpty(r.description) && avatarPreview == OrNone(r.avatarImg)
      ensures !isEditing && avatarFile.None? && error.None? && !success
      ensures cropData == old(cropData) && selectedImage == old(selectedImage)
      ensures showCropEditor == old(showCropEditor) && loading == old(loading)
    {
      room := r;
      name := r.name;
      isPrivate := r.isPrivate;
      description := OrEmpty(r.description);
      avatarPreview := OrNone(r.avatarImg);
      isEditing := false;
      avatarFile := None;
      error := None;
      success := false;
    }

    /** "Edit Details" exists only in `Edit` mode and outside edit mode. */
    method StartEditing(mode: DialogMode)
      modifies this
      ensures isEditing == (old(isEditing) || mode == Edit)
      ensures name == old(name) && description == old(description) && avatarFile == old(avatarFile)
      ensures cropData == old(cropData) && avatarPreview == old(avatarPreview) && loading == old(loading)
      ensures room == old(room) && error == old(error)
    {
      if mode == Edit && !isEditing {
        isEditing := true;
      }
    }

    /** Input longer than the cap, in UTF-16 code units as `value.length`
        counts, is refused, so the cap, once met, is kept. */
    method TypeName(v: string)
      modifies this
      ensures Utf16Length(v) <= NameCap ==> name == v
      ensures Utf16Length(v) > NameCap ==> name == old(name)
      ensures Utf16Length(old(name)) <= NameCap ==> Utf16Length(name) <= NameCap
      ensures description == old(description) && isEditing == old(isEditing) && room == old(room)
    {
      if Utf16Length(v) <= NameCap {
        name := v;
      }
    }

    method TypeDescription(v: string)
      modifies this
      ensures Utf16Length(v) <= DescriptionCap ==> description == v
      ensures Utf16Length(v) > DescriptionCap ==> description == old(description)
      ensures Utf16Length(old(description)) <= DescriptionCap ==> Utf16Length(description) <= DescriptionCap
      ensures name == old(name) && isEditing == old(isEditing) && room == old(room)
    {
      if Utf16Length(v) <= DescriptionCap {
        description := v;
      }
    }

    /** The privacy switch changes the form only. */
    method SetPrivate(b: bool)
      modifies this
      ensures isPrivate == b && name == old(name) && description == old(description)
      ensures isEditing == old(isEditing) && room == old(room)
    {
      isPrivate := b;
    }

    /** A picked image opens the crop editor. */
    method ChooseAvatar(file: nat)
      modifies this
      ensures selectedImage == Some(file) && showCropEditor
      ensures avatarFile == old(avatarFile) && avatarPreview == old(avatarPreview)
      ensures name == old(name) && description == old(description) && isEditing == old(isEditing)
      ensures room == old(room) && loading == old(loading) && cropData == old(cropData)
    {
      selectedImage := Some(file);
      showCropEditor := true;
    }

    /** A finished crop becomes the avatar to upload and the preview. */
    method CropComplete(file: nat, crop: nat, previewUrl: string)
      modifies this
      ensures avatarFile == Some(file) && cropData == Some(crop) && avatarPreview == Some(previewUrl)
      ensures !showCropEditor
      ensures name == old(name) && description == old(description) && isEditing == old(isEditing)
      ensures room == old(room) && loading == old(loading)
    {
      avatarFile := Some(file);
      cropData := Some(crop);
      avatarPreview := Some(previewUrl);
      showCropEditor := false;
    }

    /** A blank name is refused with an error; otherwise the name, as typed,
        and the description go to `onUpdateRoom`. The privacy switch is not
        part of the update. Nothing is sent while a save is pending (the
        button is disabled). */
    method BeginSave() returns (call: Option<RoomUpdate>)
      modifies this
      ensures old(loading) ==> call.None? && error == old(error) && loading
      ensures !old(loading) && IsBlank(old(name)) ==> call.None? && error == Some("Room name is required.") && !loading
      ensures !old(loading) && !IsBlank(old(name)) ==> loading && error.None?
      ensures !old(loading) && !IsBlank(old(name)) ==>
        call == Some(RoomUpdate(room.id, old(name), old(description), old(avatarFile), old(cropData)))
      ensures name == old(name) && description == old(description) && isEditing == old(isEditing)
      ensures room == old(room) && avatarFile == old(avatarFile) && cropData == old(cropData)
      ensures avatarPreview == old(avatarPreview)
    {
      call := None;
      if loading {
        return;
      }
      if IsBlank(name) {
        error := Some("Room name is required.");
        return;
      }
      loading := true;
      error := None;
      call := Some(RoomUpdate(room.id, name, description, avatarFile, cropData));
    }

    /** Edit mode is left only when the update reports success; a thrown
        error shows its message, or a default one when it has none. */
    method FinishSave(outcome: SaveOutcome)
      modifies this
      ensures !loading
      ensures outcome.Returned? ==> success == outcome.ok && error == old(error)
      ensures outcome.Returned? ==> isEditing == (old(isEditing) && !outcome.ok)
      ensures outcome.Threw? ==> isEditing == old(isEditing) && success == old(success)
      ensures outcome.Threw? ==>
        error == Some(if outcome.message == "" then "Failed to update room." else outcome.message)
      ensures name == old(name) && description == old(description) && room == old(room)
      ensures avatarFile == old(avatarFile) && avatarPreview == old(avatarPreview)
    {
      match outcome {
        case Returned(ok) =>
          success := ok;
          if ok {
            isEditing := false;
          }
        case Threw(message) =>
          error := Some(if message == "" then "Failed to update room." else message);
      }
      loading := false;
    }

    /** `handleCancel` as written: name, description and preview come back
        from the room, but the cropped avatar file stays chosen. The button is
        disabled while a save is pending. */
    method CancelAsWritten()
      modifies this
      ensures old(loading) ==> isEditing == old(isEditing) && name == old(name)
      ensures old(loading) ==> description == old(description) && avatarPreview == old(avatarPreview)
      ensures !old(loading) ==> !isEditing && name == room.name && description == OrEmpty(room.description)
      ensures !old(loading) ==> avatarPreview == OrNone(room.avatarImg)
      ensures avatarFile == old(avatarFile) && cropData == old(cropData)
      ensures room == old(room) && loading == old(loading) && error == old(error)
    {
      if loading {
        return;
      }
      isEditing := false;
      name := room.name;
      description := OrEmpty(room.description);
      avatarPreview := OrNone(room.avatarImg);
    }

    /** Cancelling as the preview suggests: the cropped avatar is dropped too. */
    method Cancel()
      modifies this
      ensures old(loading) ==> isEditing == old(isEditing) && name == old(name) && description == old(description)
      ensures old(loading) ==> avatarPreview == old(avatarPreview) && avatarFile == old(avatarFile) && cropData == old(cropData)
      ensures !old(loading) ==> !isEditing && name == room.name && description == OrEmpty(room.description)
      ensures !old(loading) ==> avatarPreview == OrNone(room.avatarImg) && avatarFile.None? && cropData.None?
      ensures room == old(room) && loading == old(loading) && error == old(error)
    {
      if loading {
        return;
      }
      isEditing := false;
      name := room.name;
      description := OrEmpty(room.description);
      avatarPreview := OrNone(room.avatarImg);
      avatarFile := None;
      cropData := None;
    }
  }

  /** With the cancel as written, an avatar that was cropped and then
      cancelled is uploaded by the next save, while the preview shows the
      room's old avatar. */
  method CancelledAvatarIsStillSent(d: Dialog, file: nat, crop: nat, url: string) returns (call: Option<RoomUpdate>)
    requires !d.loading && !IsBlank(d.room.name)
    modifies d
    ensures d.avatarPreview == OrNone(d.room.avatarImg)
    ensures call.Some? && call.value.avatar == Some(file)
  {
    d.CropComplete(file, crop, url);
    d.CancelAsWritten();
    d.StartEditing(Edit);
    call := d.BeginSave();
  }

  /** With the corrected cancel, the next save uploads no avatar. */
  method CancelledAvatarIsDropped(d: Dialog, file: nat, crop: nat, url: string) returns (call: Option<RoomUpdate>)
    requires !d.loading && !IsBlank(d.room.name)
    modifies d
    ensures d.avatarPreview == OrNone(d.room.avatarImg)
    ensures call.Some? && call.value.avatar.None? && call.value.crop.None?
  {
    d.CropComplete(file, crop, url);
    d.Cancel();
    d.StartEditing(Edit);
    call := d.BeginSave();
  }
}
