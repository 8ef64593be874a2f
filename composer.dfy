/** The message box under the chat: the send guard and what is sent, the
    clearing after a send, the attachment list, drops, emoji and editing. A
    send that awaits the server is split in two steps, `BeginSend` and
    `FinishSend`, so that what may happen while it is pending is visible. */
module MessageComposer {
  import opened Common

  /** A picked or dropped file; `handle` is its object identity. */
  datatype FileRef = FileRef(handle: nat, name: string, mimeType: string, size: nat)

  datatype Outgoing = SendCall(content: string, files: seq<FileRef>) | EditCall(content: string)

  /** The send guard: neither while a send is pending, nor with blank text
      and no files. */
  predicate CanSend(text: string, files: seq<FileRef>, loading: bool) {
    !((IsBlank(text) && files == []) || loading)
  }

  /** The drop filter: images and videos only. */
  predicate IsImageOrVideo(f: FileRef) {
    StartsWith(f.mimeType, "image/") || StartsWith(f.mimeType, "video/")
  }

  function MediaOnly(fs: seq<FileRef>): (r: seq<FileRef>)
    ensures forall i :: 0 <= i < |r| ==> IsImageOrVideo(r[i])
    ensures SubsequenceOf(r, fs)
    ensures forall i :: 0 <= i < |fs| && IsImageOrVideo(fs[i]) ==> fs[i] in r
    ensures forall x :: multiset(r)[x] == if IsImageOrVideo(x) then multiset(fs)[x] else 0
  {
    var keep := (f: FileRef) => IsImageOrVideo(f);
    FilterCounts(fs, keep);
    Filter(fs, keep)
  }

  /** Removing a file keeps every other file, in order. */
  function WithoutFile(fs: seq<FileRef>, gone: FileRef): (r: seq<FileRef>)
    ensures forall i :: 0 <= i < |r| ==> r[i].handle != gone.handle
    ensures SubsequenceOf(r, fs)
    ensures forall i :: 0 <= i < |fs| && fs[i].handle != gone.handle ==> fs[i] in r
    ensures forall x :: multiset(r)[x] == if x.handle != gone.handle then multiset(fs)[x] else 0
  {
    FilterCounts(fs, OtherThan(gone.handle));
    Filter(fs, OtherThan(gone.handle))
  }

  function OtherThan(h: nat): FileRef -> bool {
    (f: FileRef) => f.handle != h
  }

  /** With distinct handles, removing the file at position `i` is cutting
      that position out. */
  lemma RemoveDropsOnlyThat(fs: seq<FileRef>, i: int)
    requires 0 <= i < |fs| && forall a, b :: 0 <= a < b < |fs| ==> fs[a].handle != fs[b].handle
    ensures WithoutFile(fs, fs[i]) == fs[..i] + fs[i + 1..]
  {
    forall k | 0 <= k < |fs| && k != i ensures OtherThan(fs[i].handle)(fs[k]) {
      if k < i {
        assert fs[k].handle != fs[i].handle;
      } else {
        assert fs[i].handle != fs[k].handle;
      }
    }
    FilterCutsOut(fs, i, OtherThan(fs[i].handle));
  }

  class Composer {
    var text: string
    var files: seq<FileRef>
    var loading: bool
    var editing: bool
    var dragOver: bool

    constructor()
      ensures text == "" && files == [] && !loading && !editing && !dragOver
    {
      text := "";
      files := [];
      loading := false;
      editing := false;
      dragOver := false;
    }

    /** The first half of `handleSendMessage`: the guard, then the call, with
        the trimmed text; an edit passes the text only. */
    method BeginSend() returns (call: Option<Outgoing>)
      modifies this
      ensures !CanSend(old(text), old(files), old(loading)) ==> call.None? && loading == old(loading)
      ensures CanSend(old(text), old(files), old(loading)) ==>
        (loading && call.Some?
         && call.value == (if old(editing) then EditCall(Trim(old(text))) else SendCall(Trim(old(text)), old(files))))
      ensures call.Some? ==> Trim(old(text)) != [] || old(files) != []
      ensures text == old(text) && files == old(files) && editing == old(editing) && dragOver == old(dragOver)
    {
      if !CanSend(text, files, loading) {
        return None;
      }
      loading := true;
      call := Some(if editing then EditCall(Trim(text)) else SendCall(Trim(text), files));
    }

    /** The second half: after success both text and files are cleared, after
        a failure both stay; the pending flag drops either way. */
    method FinishSend(succeeded: bool)
      modifies this
      ensures !loading
      ensures succeeded ==> text == "" && files == []
      ensures !succeeded ==> text == old(text) && files == old(files)
      ensures editing == old(editing) && dragOver == old(dragOver)
    {
      if succeeded {
        text := "";
        files := [];
      }
      loading := false;
    }

    /** Enter without Shift sends through the send guard; any other key
        does nothing here. */
    method KeyPress(key: string, shift: bool) returns (call: Option<Outgoing>)
      modifies this
      ensures call == (if key == "Enter" && !shift && CanSend(old(text), old(files), old(loading))
        then Some(if old(editing) then EditCall(Trim(old(text))) else SendCall(Trim(old(text)), old(files)))
        else None)
      ensures loading == (old(loading) || call.Some?)
      ensures text == old(text) && files == old(files) && editing == old(editing) && dragOver == old(dragOver)
    {
      call := None;
      if key == "Enter" && !shift {
        call := BeginSend();
      }
    }

    /** Picked files go after those already attached. */
    method SelectFiles(picked: seq<FileRef>)
      modifies this
      ensures files == old(files) + picked
      ensures text == old(text) && loading == old(loading) && editing == old(editing) && dragOver == old(dragOver)
    {
      files := files + picked;
    }

    method RemoveFile(f: FileRef)
      modifies this
      ensures files == WithoutFile(old(files), f)
      ensures text == old(text) && loading == old(loading) && editing == old(editing) && dragOver == old(dragOver)
    {
      files := WithoutFile(files, f);
    }

    /** Dragging over the box highlights it (enter and over alike); leaving
        it removes the highlight. Nothing else changes. */
    method DragHover(inside: bool)
      modifies this
      ensures dragOver == inside
      ensures text == old(text) && files == old(files) && loading == old(loading) && editing == old(editing)
    {
      dragOver := inside;
    }

    /** A drop attaches its images and videos, and only when not editing. */
    method Drop(dropped: seq<FileRef>)
      modifies this
      ensures !dragOver
      ensures editing ==> files == old(files)
      ensures !editing ==> files == old(files) + MediaOnly(dropped)
      ensures text == old(text) && loading == old(loading) && editing == old(editing)
    {
      dragOver := false;
      if !editing {
        files := files + MediaOnly(dropped);
      }
    }

    method AddEmoji(emoji: string)
      modifies this
      ensures text == old(text) + emoji
      ensures files == old(files) && loading == old(loading) && editing == old(editing) && dragOver == old(dragOver)
    {
      text := text + emoji;
    }

    /** The effect on the edited message: entering edit mode loads its
        content; leaving it keeps the text. */
    method EditChanged(edit: Option<string>)
      modifies this
      ensures editing <==> edit.Some?
      ensures edit.Some? ==> text == edit.value
      ensures edit.None? ==> text == old(text)
      ensures files == old(files) && loading == old(loading) && dragOver == old(dragOver)
    {
      editing := edit.Some?;
      if edit.Some? {
        text := edit.value;
      }
    }

    /** `handleCancelMessageEdit`: the text is cleared and the parent drops
        the edit. */
    method CancelEdit()
      modifies this
      ensures text == "" && !editing
      ensures files == old(files) && loading == old(loading) && dragOver == old(dragOver)
    {
      text := "";
      editing := false;
    }
  }

  /** A pending send refuses a second one, whatever was typed meanwhile. */
  method NoDoubleSend(c: Composer) returns (first: Option<Outgoing>, second: Option<Outgoing>)
    modifies c
    ensures first.Some? ==> second.None?
  {
    first := c.BeginSend();
    second := c.BeginSend();
  }
}

/** The earlier message box: text only, with the same guard, trimming and
    clearing. */
module LegacyComposer {
  import opened Common

  predicate CanSend(text: string, loading: bool) {
    !(IsBlank(text) || loading)
  }

  class Composer {
    var text: string
    var loading: bool

    constructor()
      ensures text == "" && !loading
    {
      text := "";
      loading := false;
    }

    method BeginSend() returns (sent: Option<string>)
      modifies this
      ensures !CanSend(old(text), old(loading)) ==> sent.None? && loading == old(loading)
      ensures CanSend(old(text), old(loading)) ==> loading && sent == Some(Trim(old(text)))
      ensures sent.Some? ==> sent.value != [] && !IsWhitespace(sent.value[0]) && !IsWhitespace(sent.value[|sent.value| - 1])
      ensures text == old(text)
    {
      if !CanSend(text, loading) {
        return None;
      }
      loading := true;
      sent := Some(Trim(text));
    }

    method FinishSend(succeeded: bool)
      modifies this
      ensures !loading
      ensures succeeded ==> text == ""
      ensures !succeeded ==> text == old(text)
    {
      if succeeded {
        text := "";
      }
      loading := false;
    }

    method KeyPress(key: string, shift: bool) returns (sent: Option<string>)
      modifies this
      ensures sent == (if key == "Enter" && !shift && CanSend(old(text), old(loading)) then Some(Trim(old(text))) else None)
      ensures loading == (old(loading) || sent.Some?)
      ensures text == old(text)
    {
      sent := None;
      if key == "Enter" && !shift {
        sent := BeginSend();
      }
    }

    method AddEmoji(emoji: string)
      modifies this
      ensures text == old(text) + emoji && loading == old(loading)
    {
      text := text + emoji;
    }
  }
}
