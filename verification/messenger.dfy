/**
 * The session state of the messenger script app.py: an append-only list of
 * messages, a duplicate-free list of group names and the current group.  The
 * script mutates the session in place, so the session is a class whose fields
 * are reassigned.  A session key that has not been set yet is `None`.
 */
module Messenger {
  import opened Wrappers

  newtype byte = b: int | 0 <= b < 256

  /** Typed text, or an uploaded image file.  The data URI the script builds from
      the file (base64 text) is not modelled: the raw bytes stand for it. */
  datatype Content = Text(text: string) | Image(file: seq<byte>)

  /** The key f"user_{n}" or f"image_{n}", as its prefix and its number. */
  datatype KeyKind = UserKey | ImageKey
  datatype Key = Key(kind: KeyKind, index: nat)

  datatype Message = Message(content: Content, isUser: bool, group: string, key: Key)

  /** An uploaded file, and whether PIL's Image.open can decode it.  Decoding is a
      foreign call, so its outcome is an input here. */
  datatype Upload = Upload(file: seq<byte>, decodes: bool)

  /** An upload that Image.open accepts; on any other upload the call raises and the run stops. */
  predicate Decodable(upload: Option<Upload>)
  {
    upload.Some? && upload.value.decodes
  }

  const DefaultGroups: seq<string> := ["General", "Work", "Friends"]
  const DefaultGroup: string := "General"

  predicate NoDuplicates(xs: seq<string>)
  {
    forall i, j :: 0 <= i < j < |xs| ==> xs[i] != xs[j]
  }

  /** Every message's key number is its own position in the list. */
  predicate WellKeyed(msgs: seq<Message>)
  {
    forall i :: 0 <= i < |msgs| ==> msgs[i].key.index == i
  }

  /** The messages shown for group g: those whose group is g, in list order. */
  function InGroup(msgs: seq<Message>, g: string): (r: seq<Message>)
    ensures |r| <= |msgs|
    ensures forall m :: m in r <==> m in msgs && m.group == g
  {
    if msgs == [] then []
    else
      var init := msgs[..|msgs| - 1];
      assert msgs == init + [msgs[|msgs| - 1]];
      InGroup(init, g) + (if msgs[|msgs| - 1].group == g then [msgs[|msgs| - 1]] else [])
  }

  predicate KeysIncrease(msgs: seq<Message>)
  {
    forall i, j :: 0 <= i < j < |msgs| ==> msgs[i].key.index < msgs[j].key.index
  }

  /** Shown messages keep the order of the list: their key numbers strictly increase. */
  lemma {:induction false} InGroupKeepsOrder(msgs: seq<Message>, g: string)
    requires WellKeyed(msgs)
    ensures KeysIncrease(InGroup(msgs, g))
  {
    if msgs != [] {
      var n := |msgs| - 1;
      var init := msgs[..n];
      InGroupKeepsOrder(init, g);
      var r0 := InGroup(init, g);
      forall m | m in r0 ensures m.key.index < n {
        var k :| 0 <= k < n && init[k] == m;
      }
      var tail := if msgs[n].group == g then [msgs[n]] else [];
      assert InGroup(msgs, g) == r0 + tail;
      var r := r0 + tail;
      forall i, j | 0 <= i < j < |r| ensures r[i].key.index < r[j].key.index {
        if j >= |r0| {
          assert r[i] == r0[i] && r0[i] in r0 && r[j] == msgs[n];
        } else {
          assert r[i] == r0[i] && r[j] == r0[j];
        }
      }
    }
  }

  /** A message appended to the current group shows up last in that group's view,
      after exactly the messages shown before. */
  lemma InGroupAppend(msgs: seq<Message>, m: Message)
    ensures InGroup(msgs + [m], m.group) == InGroup(msgs, m.group) + [m]
  {
  }

  /** The messages one send appends to a list of n messages in group g: the text
      first, then the image; each key number is the message's own position.  An
      upload that does not decode adds no image (the text is already in). */
  function Outgoing(n: nat, g: string, userInput: string, upload: Option<Upload>): (r: seq<Message>)
    ensures |r| == (if userInput != "" then 1 else 0) + (if Decodable(upload) then 1 else 0)
    ensures forall j :: 0 <= j < |r| ==> r[j].isUser && r[j].group == g && r[j].key.index == n + j
    ensures userInput != "" ==> r[0].content == Text(userInput) && r[0].key.kind == UserKey
    ensures Decodable(upload) ==> r[|r| - 1].content == Image(upload.value.file) && r[|r| - 1].key.kind == ImageKey
  {
    var text := if userInput != "" then [Message(Text(userInput), true, g, Key(UserKey, n))] else [];
    var image :=
      if Decodable(upload) then [Message(Image(upload.value.file), true, g, Key(ImageKey, n + |text|))] else [];
    text + image
  }

  /** Messages appended to group g show up after exactly the messages shown before. */
  lemma {:induction false} InGroupAppendAll(msgs: seq<Message>, out: seq<Message>, g: string)
    requires forall j :: 0 <= j < |out| ==> out[j].group == g
    ensures InGroup(msgs + out, g) == InGroup(msgs, g) + out
  {
    if out == [] {
      assert msgs + out == msgs;
    } else {
      var n := |out| - 1;
      var last := out[n];
      calc {
        InGroup(msgs + out, g);
        { assert msgs + out == (msgs + out[..n]) + [last]; }
        InGroup((msgs + out[..n]) + [last], last.group);
        { InGroupAppend(msgs + out[..n], last); }
        InGroup(msgs + out[..n], g) + [last];
        { InGroupAppendAll(msgs, out[..n], g); }
        InGroup(msgs, g) + out[..n] + [last];
        { assert out == out[..n] + [last]; }
        InGroup(msgs, g) + out;
      }
    }
  }

  /** Appending what one send produces keeps every key number equal to its position. */
  lemma SendKeepsKeys(msgs: seq<Message>, g: string, userInput: string, upload: Option<Upload>)
    requires WellKeyed(msgs)
    ensures WellKeyed(msgs + Outgoing(|msgs|, g, userInput, upload))
  {
  }

  class Session {
    var messages: Option<seq<Message>>
    var groups: Option<seq<string>>
    var currentGroup: Option<string>

    ghost predicate Absent()
      reads this
    {
      messages == None && groups == None && currentGroup == None
    }

    /** All three keys are set; keys match positions; groups are distinct; the
        current group and every message's group are known groups; every message
        was sent by the user. */
    ghost predicate Valid()
      reads this
    {
      && messages.Some? && groups.Some? && currentGroup.Some?
      && WellKeyed(messages.value)
      && NoDuplicates(groups.value)
      && currentGroup.value in groups.value
      && forall i :: 0 <= i < |messages.value| ==>
           messages.value[i].isUser && messages.value[i].group in groups.value
    }

    /** A new browser session: nothing has been stored yet. */
    constructor ()
      ensures Absent()
    {
      messages, groups, currentGroup := None, None, None;
    }

    /** The guarded initialisation at the top of the script: each key is set to
        its default only when it is absent. */
    method Initialize()
      modifies this
      ensures messages == (if old(messages).None? then Some([]) else old(messages))
      ensures groups == (if old(groups).None? then Some(DefaultGroups) else old(groups))
      ensures currentGroup == (if old(currentGroup).None? then Some(DefaultGroup) else old(currentGroup))
      ensures old(Absent()) || old(Valid()) ==> Valid()
    {
      if messages.None? {
        messages := Some([]);
      }
      if groups.None? {
        groups := Some(DefaultGroups);
      }
      if currentGroup.None? {
        currentGroup := Some(DefaultGroup);
      }
    }

    /** The loop over the group buttons.  Streamlit reports at most one pressed
        button per run; pressing a group's button makes it the current group. */
    method SelectGroup(pressed: Option<string>)
      requires Valid()
      modifies this
      ensures Valid()
      ensures messages == old(messages) && groups == old(groups)
      ensures currentGroup == if pressed.Some? && pressed.value in groups.value then pressed else old(currentGroup)
    {
      var gs := groups.value;
      for k := 0 to |gs|
        invariant Valid()
        invariant messages == old(messages) && groups == old(groups)
        invariant currentGroup == if pressed.Some? && pressed.value in gs[..k] then pressed else old(currentGroup)
      {
        assert gs[..k + 1] == gs[..k] + [gs[k]];
        if pressed == Some(gs[k]) {
          currentGroup := Some(gs[k]);
        }
      }
      assert gs[..|gs|] == gs;
    }

    /** New-group creation: a non-empty name that is not yet a group is appended
        and becomes current; anything else changes nothing. */
    method CreateGroup(newGroup: string) returns (created: bool)
      requires Valid()
      modifies this
      ensures Valid()
      ensures created <==> newGroup != "" && newGroup !in old(groups).value
      ensures messages == old(messages)
      ensures created ==> groups == Some(old(groups).value + [newGroup]) && currentGroup == Some(newGroup)
      ensures !created ==> groups == old(groups) && currentGroup == old(currentGroup)
    {
      created := newGroup != "" && newGroup !in groups.value;
      if created {
        groups := Some(groups.value + [newGroup]);
        currentGroup := Some(newGroup);
      }
    }

    /** The display loop: the messages of the current group, in list order. */
    method DisplayedMessages() returns (shown: seq<Message>)
      requires Valid()
      ensures shown == InGroup(messages.value, currentGroup.value)
    {
      var msgs := messages.value;
      var g := currentGroup.value;
      shown := [];
      for k := 0 to |msgs|
        invariant shown == InGroup(msgs[..k], g)
      {
        assert msgs[..k + 1][..k] == msgs[..k];
        if msgs[k].group == g {
          shown := shown + [msgs[k]];
        }
      }
      assert msgs[..|msgs|] == msgs;
    }

    /** Sending: the text (if any) is appended first, then the image (if any);
        each key records the list length at the moment of its append.  When the
        upload does not decode, Image.open raises after the text was appended:
        `failed` reports that the run stopped there. */
    method Send(userInput: string, upload: Option<Upload>) returns (sent: bool, failed: bool)
      requires Valid()
      modifies this
      ensures Valid()
      ensures sent <==> userInput != "" || upload.Some?
      ensures failed <==> upload.Some? && !upload.value.decodes
      ensures groups == old(groups) && currentGroup == old(currentGroup)
      ensures messages == Some(old(messages).value
                               + Outgoing(|old(messages).value|, currentGroup.value, userInput, upload))
    {
      ghost var before := messages.value;
      var g := currentGroup.value;
      sent := userInput != "" || upload.Some?;
      failed := false;
      if userInput != "" {
        messages := Some(messages.value + [Message(Text(userInput), true, g, Key(UserKey, |messages.value|))]);
      }
      if upload.Some? {
        if !upload.value.decodes {
          failed := true;
        } else {
          messages := Some(messages.value
                           + [Message(Image(upload.value.file), true, g, Key(ImageKey, |messages.value|))]);
        }
      }
      SendKeepsKeys(before, g, userInput, upload);
      assert messages.value == before + Outgoing(|before|, g, userInput, upload);
    }

    /** One run of the script, top to bottom: initialise, handle a group button,
        handle the new-group box (which reruns the script at once when a group is
        created), show the current group's messages, then send.  A send reruns the
        script unless an upload failed to decode, which stops the run instead.
        Unless a group was created, what is shown is the current group's view
        before the send, and the messages sent follow it in that view. */
    method Run(pressed: Option<string>, newGroup: string, userInput: string, upload: Option<Upload>)
      returns (shown: seq<Message>, rerun: bool, created: bool)
      requires Absent() || Valid()
      modifies this
      ensures Valid()
      ensures old(messages).Some? ==> old(messages).value <= messages.value
      ensures old(groups).Some? ==> old(groups).value <= groups.value
      ensures created <==> newGroup != "" && newGroup !in (if old(groups).Some? then old(groups).value else DefaultGroups)
      ensures created ==> shown == [] && rerun && currentGroup == Some(newGroup)
      ensures !created ==> shown <= InGroup(messages.value, currentGroup.value)
      ensures !created && userInput == "" && upload.None? ==>
        !rerun && shown == InGroup(messages.value, currentGroup.value)
      ensures !created && upload.Some? && !upload.value.decodes ==> !rerun
    {
      Initialize();
      SelectGroup(pressed);
      created := CreateGroup(newGroup);
      if created {
        return [], true, true;
      }
      shown := DisplayedMessages();
      ghost var before := messages.value;
      var sent, failed := Send(userInput, upload);
      rerun := sent && !failed;
      InGroupAppendAll(before, Outgoing(|before|, currentGroup.value, userInput, upload), currentGroup.value);
    }
  }
}
