/** A file arrives whole, whatever else arrives with it. */
module ChatFileRuns {
  import opened Bytes
  import opened Wrappers
  import opened ChatCodec
  import opened ChatFraming
  import opened ChatRelay
  import opened ChatFiles

  /** The table of a receiver: ids and paths belong together and no transfer is there twice. */
  ghost predicate TableIsOk(r: Receiver) {
    && |r.files| == INCOMING_MAX
    && (forall k :: 0 <= k < |r.files| ==> PlaceIsOk(r.files[k]))
    && (forall j, k :: 0 <= j < k < |r.files| && r.files[j].Receiving? && r.files[k].Receiving? ==>
          r.files[j].senderId != r.files[k].senderId || r.files[j].transferId != r.files[k].transferId)
  }

  predicate PlaceIsOk(file: Incoming) {
    file.Receiving? ==>
      && file.senderId < UINT64_RANGE && file.transferId < UINT64_RANGE
      && |file.path| >= 44 && file.path[..44] == Prefix(file.senderId, file.transferId)
      && file.received <= file.expected < UINT64_RANGE
  }

  /** A file under way: whose it is, what it is called and what is in it. */
  datatype Sent = Sent(senderId: nat, transferId: nat, name: seq<byte>, content: seq<byte>)

  predicate SentIsValid(f: Sent) {
    && 0 < f.senderId < UINT64_RANGE && 0 < f.transferId < UINT64_RANGE
    && |f.name| <= FILE_NAME_MAX && SafeFileName(f.name) && |f.content| < UINT64_RANGE
  }

  function PathOf(f: Sent): seq<byte> {
    FinalPath(f.senderId, f.transferId, f.name)
  }

  datatype Stage = Awaited | Arriving(got: seq<byte>) | Saved

  /** What the next packet of the transfer has to be. */
  function NextStage(f: Sent, stage: Stage, m: Message): Option<Stage> {
    match stage
    case Awaited =>
      if m.kind == FILE_BEGIN && CString(m.fileName) == f.name && m.fileSize == |f.content| then Some(Arriving([])) else None
    case Arriving(got) =>
      if m.kind == FILE_CHUNK && |got + ChunkData(m)| <= |f.content| then Some(Arriving(got + ChunkData(m)))
      else if m.kind == FILE_END && got == f.content then Some(Saved)
      else None
    case Saved => None
  }

  function StageAfter(f: Sent, packets: seq<Message>): Option<Stage> {
    if packets == [] then Some(Awaited)
    else
      match StageAfter(f, packets[..|packets| - 1])
      case None => None
      case Some(stage) => NextStage(f, stage, packets[|packets| - 1])
  }

  function PlaceFor(f: Sent, got: seq<byte>): Incoming {
    Receiving(f.senderId, f.transferId, |f.content|, |got|, PathOf(f))
  }

  predicate IsAbsent(r: Receiver, f: Sent) {
    forall k :: 0 <= k < |r.files| ==> !Matches(r.files[k], f.senderId, f.transferId)
  }

  /** What the receiver holds of the file at each stage. */
  predicate Holds(r: Receiver, f: Sent, stage: Stage) {
    match stage
    case Awaited => IsAbsent(r, f)
    case Arriving(got) => PlaceFor(f, got) in r.files && Contents(r.disk, PathOf(f) + PART) == got
    case Saved =>
      IsAbsent(r, f) && PathOf(f) in r.disk && r.disk[PathOf(f)] == f.content && PathOf(f) + PART !in r.disk
  }

  predicate IsPacket(f: Sent, m: Message) {
    m.senderId == f.senderId && m.transferId == f.transferId
  }

  // ---------- one message ----------

  lemma PathIsOk(f: Sent)
    ensures |PathOf(f)| >= 44 && PathOf(f)[..44] == Prefix(f.senderId, f.transferId)
    ensures |PathOf(f) + PART| == 49 + |f.name|
  {
  }

  /** Files of different transfers never touch each other's paths. */
  lemma PathsDiffer(s1: nat, t1: nat, p1: seq<byte>, s2: nat, t2: nat, p2: seq<byte>)
    requires s1 < UINT64_RANGE && t1 < UINT64_RANGE && s2 < UINT64_RANGE && t2 < UINT64_RANGE
    requires s1 != s2 || t1 != t2
    requires |p1| >= 44 && |p2| >= 44 && p1[..44] == Prefix(s1, t1) && p2[..44] == Prefix(s2, t2)
    ensures p1 != p2 && p1 + PART != p2 && p1 + PART != p2 + PART && p1 != p2 + PART
  {
    hide Prefix;
    if Prefix(s1, t1) == Prefix(s2, t2) {
      PrefixIsInjective(s1, t1, s2, t2);
    }
    assert (p1 + PART)[..44] == p1[..44] && (p2 + PART)[..44] == p2[..44];
  }

  /** The path of a file being received, told apart from the one followed. */
  lemma OtherPath(r: Receiver, k: nat, f: Sent)
    requires TableIsOk(r) && SentIsValid(f) && k < |r.files| && r.files[k].Receiving?
    requires !Matches(r.files[k], f.senderId, f.transferId)
    ensures var p, q := r.files[k].path, PathOf(f);
            p != q && p + PART != q && p + PART != q + PART && p != q + PART
  {
    hide Prefix, SafeFileName;
    PathIsOk(f);
    PathsDiffer(r.files[k].senderId, r.files[k].transferId, r.files[k].path, f.senderId, f.transferId, PathOf(f));
  }

  lemma OtherBeginKeeps(r: Receiver, m: Message, f: Sent, stage: Stage)
    requires TableIsOk(r) && SentIsValid(f) && Holds(r, f, stage) && IsSound(m) && m.kind == FILE_BEGIN && !IsPacket(f, m)
    requires BeginIncoming(r, m).ok
    ensures var t := BeginIncoming(r, m).state;
            TableIsOk(t) && Holds(t, f, stage)
  {
    hide Prefix, SafeFileName, Encodable, Canonical, CString;
    BeginKeepsTable(r, m);
    var name, i := CString(m.fileName), FindVacant(r.files);
    var t := BeginIncoming(r, m).state;
    var other := Sent(m.senderId, m.transferId, name, []);
    PathIsOk(f);
    PathIsOk(other);
    PathsDiffer(m.senderId, m.transferId, PathOf(other), f.senderId, f.transferId, PathOf(f));
    if stage.Arriving? {
      var k :| 0 <= k < |r.files| && r.files[k] == PlaceFor(f, stage.got);
      assert t.files[k] == PlaceFor(f, stage.got);
    }
  }

  lemma BeginKeepsTable(r: Receiver, m: Message)
    requires TableIsOk(r) && WellTyped(m) && BeginIncoming(r, m).ok
    ensures TableIsOk(BeginIncoming(r, m).state)
  {
    hide Prefix, SafeFileName, CString;
    PathIsOk(Sent(m.senderId, m.transferId, CString(m.fileName), []));
  }

  lemma WriteKeepsTable(r: Receiver, m: Message)
    requires TableIsOk(r) && WriteChunk(r, m).ok
    ensures TableIsOk(WriteChunk(r, m).state)
  {
    hide Prefix, ChunkData, Contents;
  }

  lemma FinishKeepsTable(r: Receiver, m: Message)
    requires TableIsOk(r) && FinishIncoming(r, m).ok
    ensures TableIsOk(FinishIncoming(r, m).state)
  {
    hide Prefix, Contents;
  }

  lemma OtherWriteKeeps(r: Receiver, m: Message, f: Sent, stage: Stage)
    requires TableIsOk(r) && SentIsValid(f) && Holds(r, f, stage) && !IsPacket(f, m) && WriteChunk(r, m).ok
    ensures var t := WriteChunk(r, m).state;
            TableIsOk(t) && Holds(t, f, stage)
  {
    hide Prefix, SafeFileName, ChunkData, TableIsOk;
    WriteKeepsTable(r, m);
    var i := FindIncoming(r.files, m.senderId, m.transferId);
    OtherPath(r, i, f);
    if stage.Arriving? {
      var k :| 0 <= k < |r.files| && r.files[k] == PlaceFor(f, stage.got);
      assert WriteChunk(r, m).state.files[k] == PlaceFor(f, stage.got);
    }
  }

  lemma OtherFinishKeeps(r: Receiver, m: Message, f: Sent, stage: Stage)
    requires TableIsOk(r) && SentIsValid(f) && Holds(r, f, stage) && !IsPacket(f, m) && FinishIncoming(r, m).ok
    ensures var t := FinishIncoming(r, m).state;
            TableIsOk(t) && Holds(t, f, stage)
  {
    hide Prefix, SafeFileName, TableIsOk;
    FinishKeepsTable(r, m);
    var i := FindIncoming(r.files, m.senderId, m.transferId);
    OtherPath(r, i, f);
    if stage.Arriving? {
      var k :| 0 <= k < |r.files| && r.files[k] == PlaceFor(f, stage.got);
      assert FinishIncoming(r, m).state.files[k] == PlaceFor(f, stage.got);
    }
  }

  lemma VacateKeeps(r: Receiver, k: nat, f: Sent, stage: Stage)
    requires TableIsOk(r) && SentIsValid(f) && Holds(r, f, stage) && k < |r.files| && r.files[k].Receiving?
    requires !Matches(r.files[k], f.senderId, f.transferId)
    ensures var t := WithFile(r, k, Vacant).(disk := r.disk - {r.files[k].path + PART});
            TableIsOk(t) && Holds(t, f, stage)
  {
    hide Prefix, SafeFileName;
    OtherPath(r, k, f);
    if stage.Arriving? {
      var j :| 0 <= j < |r.files| && r.files[j] == PlaceFor(f, stage.got);
      assert r.files[k := Vacant][j] == PlaceFor(f, stage.got);
    }
  }

  lemma MatchedIsArriving(r: Receiver, k: nat, f: Sent, stage: Stage)
    requires Holds(r, f, stage) && !stage.Arriving? && k < |r.files|
    ensures !Matches(r.files[k], f.senderId, f.transferId)
  {
  }

  /** A departing sender takes nothing with it but its own unfinished files. */
  lemma {:induction false} CancelKeeps(r: Receiver, senderId: nat, k: nat, f: Sent, stage: Stage)
    requires TableIsOk(r) && SentIsValid(f) && Holds(r, f, stage) && (senderId == f.senderId ==> !stage.Arriving?)
    ensures var t := CancelIncoming(r, senderId, k);
            TableIsOk(t) && Holds(t, f, stage)
    decreases |r.files| - k
  {
    hide TableIsOk, Holds, SentIsValid;
    if k < |r.files| {
      if r.files[k].Receiving? && r.files[k].senderId == senderId {
        if senderId == f.senderId {
          MatchedIsArriving(r, k, f, stage);
        }
        VacateKeeps(r, k, f, stage);
        CancelKeeps(WithFile(r, k, Vacant).(disk := r.disk - {r.files[k].path + PART}), senderId, k + 1, f, stage);
      } else {
        CancelKeeps(r, senderId, k + 1, f, stage);
      }
    }
  }

  /** Printing touches no file. */
  lemma ShowingKeeps(r: Receiver, line: Line, f: Sent, stage: Stage)
    ensures TableIsOk(Shown(r, line)) <==> TableIsOk(r)
    ensures Holds(Shown(r, line), f, stage) <==> Holds(r, f, stage)
  {
  }

  /** Exactly which packets a receiver refuses; its own it ignores. */
  lemma PacketAcceptedIff(r: Receiver, m: Message)
    requires |r.files| == INCOMING_MAX && |CString(m.fileName)| <= 255
    ensures m.senderId == r.ownId ==> HandleReceived(r, m) == Handled(r, true)
    ensures m.senderId != r.ownId && m.kind == FILE_BEGIN ==>
              (HandleReceived(r, m).ok <==>
               && PlainName(CString(m.fileName)) && Vacant in r.files
               && forall k :: 0 <= k < |r.files| ==> !Matches(r.files[k], m.senderId, m.transferId))
    ensures m.senderId != r.ownId && m.kind == FILE_CHUNK ==>
              (HandleReceived(r, m).ok <==>
               var i := FindIncoming(r.files, m.senderId, m.transferId);
               i < |r.files| && m.fileDataSize <= r.files[i].expected - r.files[i].received)
    ensures m.senderId != r.ownId && m.kind == FILE_END ==>
              (HandleReceived(r, m).ok <==>
               var i := FindIncoming(r.files, m.senderId, m.transferId);
               i < |r.files| && r.files[i].received == r.files[i].expected)
    ensures m.kind == JOIN || m.kind == MESSAGE || m.kind == LEAVE ==> HandleReceived(r, m).ok
  {
    hide StrnLen, SafeFileName, PlainName, Prefix, CancelIncoming;
    PlainIsSafe(CString(m.fileName));
    if Vacant in r.files {
      VacantIsFound(r.files);
    }
  }

  /** What is shown of an accepted packet: the announcement with its name and size, and the path in the end. */
  lemma PacketsShown(r: Receiver, m: Message)
    requires m.senderId != r.ownId && HandleReceived(r, m).ok
    ensures var t, i := HandleReceived(r, m).state, FindIncoming(r.files, m.senderId, m.transferId);
            && (m.kind == FILE_BEGIN ==>
                  t.screen == r.screen + [FileComing(CString(m.senderName), CString(m.fileName), m.fileSize)])
            && (m.kind == FILE_CHUNK ==> t.screen == r.screen)
            && (m.kind == FILE_END ==> i < |r.files| && t.screen == r.screen + [FileSaved(r.files[i].path)])
  {
    hide StrnLen, SafeFileName, Prefix, CancelIncoming, Contents, ChunkData;
  }

  /** Whatever else is handled, the file followed stays as it is. */
  lemma OtherKeeps(r: Receiver, m: Message, f: Sent, stage: Stage)
    requires TableIsOk(r) && SentIsValid(f) && Holds(r, f, stage) && IsSound(m) && !IsPacket(f, m)
    requires m.kind == LEAVE && m.senderId == f.senderId ==> !stage.Arriving?
    requires HandleReceived(r, m).ok
    ensures var t := HandleReceived(r, m).state;
            TableIsOk(t) && Holds(t, f, stage) && t.ownId == r.ownId
  {
    hide TableIsOk, Holds, SentIsValid, IsSound, CancelIncoming;
    if m.senderId != r.ownId {
      if m.kind == LEAVE {
        CancelKeeps(r, m.senderId, 0, f, stage);
        CancelKeepsOwner(r, m.senderId);
        ShowingKeeps(CancelIncoming(r, m.senderId, 0), HasLeft(CString(m.senderName)), f, stage);
      } else if m.kind == JOIN {
        ShowingKeeps(r, HasJoined(CString(m.senderName)), f, stage);
      } else if m.kind == MESSAGE {
        ShowingKeeps(r, Said(CString(m.senderName), CString(m.text)), f, stage);
      } else if m.kind == FILE_BEGIN {
        OtherBeginKeeps(r, m, f, stage);
      } else if m.kind == FILE_CHUNK {
        OtherWriteKeeps(r, m, f, stage);
      } else if m.kind == FILE_END {
        OtherFinishKeeps(r, m, f, stage);
      }
    }
  }

  /** What a departing sender had not finished is gone, from the table and from the disk, and nothing else. */
  lemma {:induction false} CancelLeavesNothing(r: Receiver, senderId: nat, k: nat)
    requires TableIsOk(r)
    requires forall i :: 0 <= i < k && i < |r.files| && r.files[i].Receiving? ==> r.files[i].senderId != senderId
    ensures var t := CancelIncoming(r, senderId, k);
            && (forall i :: 0 <= i < |t.files| ==>
                  t.files[i] == if r.files[i].Receiving? && r.files[i].senderId == senderId then Vacant else r.files[i])
            && (forall path :: path in t.disk <==> path in r.disk && !IsUnfinished(r, senderId, path))
            && (forall path :: path in t.disk ==> t.disk[path] == r.disk[path])
    decreases |r.files| - k
  {
    hide PlaceIsOk;
    if k < |r.files| {
      if r.files[k].Receiving? && r.files[k].senderId == senderId {
        var u := WithFile(r, k, Vacant).(disk := r.disk - {r.files[k].path + PART});
        VacateKeepsTable(r, k);
        CancelLeavesNothing(u, senderId, k + 1);
        forall path
          ensures IsUnfinished(r, senderId, path) <==> IsUnfinished(u, senderId, path) || path == r.files[k].path + PART
        {
          UnfinishedWithout(r, k, senderId, path);
        }
      } else {
        CancelLeavesNothing(r, senderId, k + 1);
      }
    } else {
      assert forall path :: !IsUnfinished(r, senderId, path);
    }
  }

  predicate IsTemporaryOf(file: Incoming, senderId: nat, path: seq<byte>) {
    file.Receiving? && file.senderId == senderId && path == file.path + PART
  }

  /** The temporary file of something a sender has not finished. */
  ghost predicate IsUnfinished(r: Receiver, senderId: nat, path: seq<byte>) {
    exists i :: 0 <= i < |r.files| && IsTemporaryOf(r.files[i], senderId, path)
  }

  lemma VacateKeepsTable(r: Receiver, k: nat)
    requires TableIsOk(r) && k < |r.files| && r.files[k].Receiving?
    ensures TableIsOk(WithFile(r, k, Vacant).(disk := r.disk - {r.files[k].path + PART}))
  {
    hide Prefix;
  }

  lemma UnfinishedWithout(r: Receiver, k: nat, senderId: nat, path: seq<byte>)
    requires k < |r.files| && r.files[k].Receiving? && r.files[k].senderId == senderId
    ensures var u := WithFile(r, k, Vacant).(disk := r.disk - {r.files[k].path + PART});
            IsUnfinished(r, senderId, path) <==> IsUnfinished(u, senderId, path) || path == r.files[k].path + PART
  {
    var u := WithFile(r, k, Vacant).(disk := r.disk - {r.files[k].path + PART});
    if IsUnfinished(r, senderId, path) {
      var i :| 0 <= i < |r.files| && IsTemporaryOf(r.files[i], senderId, path);
      assert i != k ==> u.files[i] == r.files[i];
    }
    if IsUnfinished(u, senderId, path) {
      var i :| 0 <= i < |u.files| && IsTemporaryOf(u.files[i], senderId, path);
      assert i != k && r.files[i] == u.files[i];
    }
  }

  lemma CancelKeepsOwner(r: Receiver, senderId: nat)
    ensures CancelIncoming(r, senderId, 0).ownId == r.ownId && |CancelIncoming(r, senderId, 0).files| == |r.files|
  {
  }

  // ---------- the packets of the file itself ----------

  lemma FoundAt(r: Receiver, f: Sent, got: seq<byte>)
    requires TableIsOk(r) && PlaceFor(f, got) in r.files
    ensures var i := FindIncoming(r.files, f.senderId, f.transferId);
            i < |r.files| && r.files[i] == PlaceFor(f, got)
  {
    hide Prefix, PathOf;
  }

  lemma BeginArrives(r: Receiver, m: Message, f: Sent)
    requires TableIsOk(r) && SentIsValid(f) && Holds(r, f, Awaited) && IsSound(m) && IsPacket(f, m)
    requires m.kind == FILE_BEGIN && NextStage(f, Awaited, m).Some?
    ensures BeginIncoming(r, m).ok <==> FindVacant(r.files) < |r.files|
    ensures BeginIncoming(r, m).ok ==>
              TableIsOk(BeginIncoming(r, m).state) && Holds(BeginIncoming(r, m).state, f, Arriving([]))
  {
    hide Prefix, CString, Encodable, Canonical, SafeFileName;
    PathIsOk(f);
    if BeginIncoming(r, m).ok {
      BeginKeepsTable(r, m);
      var t := BeginIncoming(r, m).state;
      assert t.files[FindVacant(r.files)] == PlaceFor(f, []);
    }
  }

  lemma ChunkArrives(r: Receiver, m: Message, f: Sent, got: seq<byte>)
    requires TableIsOk(r) && SentIsValid(f) && Holds(r, f, Arriving(got)) && IsPacket(f, m)
    requires |ChunkData(m)| == m.fileDataSize && |got + ChunkData(m)| <= |f.content|
    ensures var h := WriteChunk(r, m);
            h.ok && TableIsOk(h.state) && Holds(h.state, f, Arriving(got + ChunkData(m)))
  {
    hide Prefix, SafeFileName, ChunkData, TableIsOk, PathOf;
    FoundAt(r, f, got);
    WriteKeepsTable(r, m);
    var i, t := FindIncoming(r.files, f.senderId, f.transferId), WriteChunk(r, m).state;
    assert t.files[i] == PlaceFor(f, got + ChunkData(m));
  }

  lemma EndArrives(r: Receiver, m: Message, f: Sent)
    requires TableIsOk(r) && SentIsValid(f) && Holds(r, f, Arriving(f.content)) && IsPacket(f, m)
    ensures var h := FinishIncoming(r, m);
            h.ok && TableIsOk(h.state) && Holds(h.state, f, Saved)
  {
    hide Prefix, SafeFileName, TableIsOk, PathOf;
    FoundAt(r, f, f.content);
    FinishKeepsTable(r, m);
    NoOther(r, f, FindIncoming(r.files, f.senderId, f.transferId));
  }

  lemma NoOther(r: Receiver, f: Sent, i: nat)
    requires TableIsOk(r) && i < |r.files| && Matches(r.files[i], f.senderId, f.transferId)
    ensures forall k :: 0 <= k < |r.files| && k != i ==> !Matches(r.files[k], f.senderId, f.transferId)
  {
    hide Prefix;
  }

  lemma ChunkDataSize(m: Message)
    requires IsSound(m) && m.kind == FILE_CHUNK
    ensures |ChunkData(m)| == m.fileDataSize
  {
    hide Canonical, NameOf;
  }

  /** The next packet of the file; only its beginning can fail, for want of a place. */
  lemma {:induction false} PacketArrives(r: Receiver, m: Message, f: Sent, stage: Stage)
    requires TableIsOk(r) && SentIsValid(f) && Holds(r, f, stage) && IsSound(m) && IsPacket(f, m) && r.ownId != f.senderId
    requires NextStage(f, stage, m).Some?
    ensures var h := HandleReceived(r, m);
            && (h.ok <==> (stage.Awaited? ==> FindVacant(r.files) < |r.files|))
            && (h.ok ==> TableIsOk(h.state) && Holds(h.state, f, NextStage(f, stage, m).value) && h.state.ownId == r.ownId)
  {
    hide TableIsOk, Holds, SentIsValid, IsSound, ChunkData, FindVacant;
    match stage
    case Awaited => BeginArrives(r, m, f);
    case Arriving(got) =>
      if m.kind == FILE_CHUNK {
        ChunkDataSize(m);
        ChunkArrives(r, m, f, got);
      } else {
        EndArrives(r, m, f);
      }
  }

  // ---------- whole conversations ----------

  predicate AllSound(messages: seq<Message>) {
    forall m :: m in messages ==> IsSound(m)
  }

  /** The part of the file's conversation that a run of messages contains. */
  function StageIn(f: Sent, messages: seq<Message>): Option<Stage> {
    StageAfter(f, PacketsOf(messages, f.senderId, f.transferId))
  }

  /** The sender does not leave in the middle of the file. */
  predicate SenderStays(f: Sent, messages: seq<Message>) {
    forall k :: 0 <= k < |messages| && messages[k].kind == LEAVE && messages[k].senderId == f.senderId ==>
      StageIn(f, messages[..k]) == Some(Awaited) || StageIn(f, messages[..k]) == Some(Saved)
  }

  lemma {:induction false} HandleAllAppend<S>(handle: Handler<S>, state: S, messages: seq<Message>, m: Message)
    requires AllSound(messages) && IsSound(m)
    ensures AllSound(messages + [m])
    ensures HandleAll(handle, state, messages + [m]) ==
            match HandleAll(handle, state, messages)
            case Broken(t) => Broken(t)
            case Waiting(t, _) =>
              var next := handle(t, m);
              if next.ok then Waiting(next.state, []) else Broken(next.state)
    decreases |messages|
  {
    hide Canonical, Encodable, WellTyped;
    if messages == [] {
      assert messages + [m] == [m];
    } else {
      assert (messages + [m])[0] == messages[0] && (messages + [m])[1..] == messages[1..] + [m];
      assert messages[0] in messages && IsSound(messages[0]);
      var next := handle(state, messages[0]);
      HandleAllAppend(handle, next.state, messages[1..], m);
    }
  }

  lemma StageAppend(f: Sent, messages: seq<Message>, m: Message)
    ensures StageIn(f, messages + [m]) ==
            if !IsPacket(f, m) then StageIn(f, messages)
            else
              match StageIn(f, messages)
              case None => None
              case Some(stage) => NextStage(f, stage, m)
  {
    hide NextStage;
    var all, before := PacketsOf(messages + [m], f.senderId, f.transferId), PacketsOf(messages, f.senderId, f.transferId);
    assert (messages + [m])[..|messages|] == messages;
    if IsPacket(f, m) {
      assert all == before + [m] && all[..|before|] == before;
    } else {
      assert all == before + [] == before;
    }
  }

  lemma SenderStaysBefore(f: Sent, messages: seq<Message>, m: Message)
    requires SenderStays(f, messages + [m])
    ensures SenderStays(f, messages)
    ensures m.kind == LEAVE && m.senderId == f.senderId ==>
              StageIn(f, messages) == Some(Awaited) || StageIn(f, messages) == Some(Saved)
  {
    hide StageIn;
    var all := messages + [m];
    assert all[..|messages|] == messages && all[|messages|] == m;
    forall k | 0 <= k < |messages| ensures all[..k] == messages[..k] && all[k] == messages[k] {
    }
  }

  /**
   Whatever is mixed in between, a receiver that keeps its connection holds, at every point, exactly
   what the packets so far call for.
   */
  lemma {:induction false} FollowFile(r: Receiver, f: Sent, messages: seq<Message>)
    requires TableIsOk(r) && SentIsValid(f) && IsAbsent(r, f) && r.ownId != f.senderId
    requires AllSound(messages) && SenderStays(f, messages) && StageIn(f, messages).Some?
    ensures var p := HandleAll(ReceivedHandler(), r, messages);
            p.Waiting? ==> TableIsOk(p.state) && Holds(p.state, f, StageIn(f, messages).value) && p.state.ownId == r.ownId
    decreases |messages|
  {
    hide TableIsOk, SentIsValid, IsSound, HandleReceived, NextStage, SenderStays, StageIn;
    if messages == [] {
      NothingSent(f);
    } else {
      var before, m := messages[..|messages| - 1], messages[|messages| - 1];
      assert messages == before + [m];
      SenderStaysBefore(f, before, m);
      StageAppend(f, before, m);
      FollowFile(r, f, before);
      HandleAllAppend(ReceivedHandler(), r, before, m);
      FollowStep(r, f, before, m);
    }
  }

  lemma NothingSent(f: Sent)
    ensures StageIn(f, []) == Some(Awaited)
  {
  }

  lemma FollowStep(r: Receiver, f: Sent, before: seq<Message>, m: Message)
    requires AllSound(before) && IsSound(m) && SentIsValid(f) && r.ownId != f.senderId
    requires StageIn(f, before).Some? && StageIn(f, before + [m]).Some?
    requires m.kind == LEAVE && m.senderId == f.senderId ==>
               StageIn(f, before) == Some(Awaited) || StageIn(f, before) == Some(Saved)
    requires var p := HandleAll(ReceivedHandler(), r, before);
             p.Waiting? ==> TableIsOk(p.state) && Holds(p.state, f, StageIn(f, before).value) && p.state.ownId == r.ownId
    ensures var p := HandleAll(ReceivedHandler(), r, before);
            p.Waiting? ==>
              var h := HandleReceived(p.state, m);
              h.ok ==> && TableIsOk(h.state) && Holds(h.state, f, StageIn(f, before + [m]).value)
                       && h.state.ownId == r.ownId
  {
    hide TableIsOk, SentIsValid, WellTyped, Encodable, Canonical, Holds, HandleReceived, HandleAll, NextStage, StageIn;
    StageAppend(f, before, m);
    var p := HandleAll(ReceivedHandler(), r, before);
    if p.Waiting? && HandleReceived(p.state, m).ok {
      var stage := StageIn(f, before).value;
      if IsPacket(f, m) {
        PacketArrives(p.state, m, f, stage);
      } else {
        OtherKeeps(p.state, m, f, stage);
      }
    }
  }

  // ---------- the messages of the pump ----------

  lemma {:induction false} StageOfChunks(f: Sent, who: Identity, done: seq<Message>, got: seq<byte>, rest: seq<byte>)
    requires SentIsValid(f) && IdentityIsValid(who) && f.content == got + rest
    requires StageAfter(f, done) == Some(Arriving(got))
    ensures StageAfter(f, done + ChunkMessages(who, f.transferId, rest)) == Some(Arriving(f.content))
    decreases |rest|
  {
    hide SentIsValid, ChunkMessage, ChunkData, SafeFileName;
    if rest == [] {
      assert done + [] == done && got + [] == got;
    } else {
      var n := NextChunk(|rest|);
      var chunk := ChunkMessage(who, f.transferId, rest[..n]);
      SentIds(f);
      ChunkIsSound(who, f.transferId, rest[..n]);
      ChunkIsChunk(who, f.transferId, rest[..n]);
      assert (done + [chunk])[..|done|] == done;
      assert got + rest[..n] + rest[n..] == got + rest;
      StageOfChunks(f, who, done + [chunk], got + rest[..n], rest[n..]);
      assert done + [chunk] + ChunkMessages(who, f.transferId, rest[n..]) ==
             done + ChunkMessages(who, f.transferId, rest);
    }
  }

  lemma SentIds(f: Sent)
    requires SentIsValid(f)
    ensures 0 < f.senderId < UINT64_RANGE && 0 < f.transferId < UINT64_RANGE
  {
  }

  lemma ChunkIsChunk(who: Identity, transferId: nat, data: seq<byte>)
    requires |who.name| <= NAME_MAX && |data| <= FILE_CHUNK_MAX
    ensures ChunkMessage(who, transferId, data).kind == FILE_CHUNK
  {
  }

  lemma StageOfFile(f: Sent, who: Identity)
    requires SentIsValid(f) && IdentityIsValid(who) && FileIsValid(f.transferId, f.name, |f.content|)
    ensures StageAfter(f, FileMessages(who, f.transferId, f.name, f.content)) == Some(Saved)
  {
    hide ChunkMessages, SafeFileName, StrnLen;
    var first, last := BeginMessage(who, f.transferId, f.name, |f.content|), EndMessage(who, f.transferId);
    BeginIsSound(who, f.transferId, f.name, |f.content|);
    assert StageAfter(f, [first]) == Some(Arriving([])) by {
      assert [first][..0] == [];
    }
    assert [] + f.content == f.content;
    StageOfChunks(f, who, [first], [], f.content);
    var some := [first] + ChunkMessages(who, f.transferId, f.content);
    assert FileMessages(who, f.transferId, f.name, f.content) == some + [last] && (some + [last])[..|some|] == some;
  }

  /**
   A receiver that hears the pump's messages for a file, in order but with anything else in between,
   and keeps its connection, ends up with exactly the file under the name it computes for it.
   */
  lemma FileArrives(r: Receiver, who: Identity, f: Sent, messages: seq<Message>)
    requires TableIsOk(r) && SentIsValid(f) && IdentityIsValid(who) && 0 !in f.name
    requires IsAbsent(r, f) && r.ownId != f.senderId
    requires AllSound(messages) && SenderStays(f, messages)
    requires PacketsOf(messages, f.senderId, f.transferId) == FileMessages(who, f.transferId, f.name, f.content)
    ensures var p := HandleAll(ReceivedHandler(), r, messages);
            p.Waiting? ==> PathOf(f) in p.state.disk && p.state.disk[PathOf(f)] == f.content
  {
    hide TableIsOk, IsSound, HandleAll, FileMessages, SenderStays, AllSound, PathOf, HandleReceived;
    StageOfFile(f, who);
    FollowFile(r, f, messages);
  }

  // ---------- nothing gets in the way ----------

  predicate IsFilePacket(m: Message) {
    m.kind == FILE_BEGIN || m.kind == FILE_CHUNK || m.kind == FILE_END
  }

  /** Besides the file followed there is only talk, and what the receiver itself said. */
  predicate OnlyTalkBesides(f: Sent, ownId: nat, messages: seq<Message>) {
    forall m :: m in messages ==> IsPacket(f, m) || m.senderId == ownId || !IsFilePacket(m)
  }

  lemma {:induction false} CancelKeepsVacant(r: Receiver, senderId: nat, k: nat)
    requires Vacant in r.files
    ensures Vacant in CancelIncoming(r, senderId, k).files
    decreases |r.files| - k
  {
    if k < |r.files| {
      if r.files[k].Receiving? && r.files[k].senderId == senderId {
        var i :| 0 <= i < |r.files| && r.files[i].Vacant?;
        assert r.files[k := Vacant][i] == Vacant;
        CancelKeepsVacant(WithFile(r, k, Vacant).(disk := r.disk - {r.files[k].path + PART}), senderId, k + 1);
      } else {
        CancelKeepsVacant(r, senderId, k + 1);
      }
    }
  }

  lemma TalkIsAccepted(r: Receiver, m: Message)
    requires !IsFilePacket(m) || m.senderId == r.ownId
    ensures HandleReceived(r, m).ok
    ensures Vacant in r.files ==> Vacant in HandleReceived(r, m).state.files
  {
    hide CancelIncoming;
    if Vacant in r.files {
      CancelKeepsVacant(r, m.senderId, 0);
    }
  }

  /** With a place free and nobody else sending files, the receiver refuses nothing. */
  lemma {:induction false} NothingIsRefused(r: Receiver, f: Sent, messages: seq<Message>)
    requires TableIsOk(r) && SentIsValid(f) && IsAbsent(r, f) && r.ownId != f.senderId
    requires AllSound(messages) && SenderStays(f, messages) && StageIn(f, messages).Some?
    requires Vacant in r.files && OnlyTalkBesides(f, r.ownId, messages)
    ensures var p := HandleAll(ReceivedHandler(), r, messages);
            p.Waiting? && (StageIn(f, messages) == Some(Awaited) ==> Vacant in p.state.files)
    decreases |messages|
  {
    hide TableIsOk, SentIsValid, WellTyped, Encodable, Canonical, HandleReceived, SenderStays, StageIn, Holds, IsAbsent,
         FindVacant;
    if messages != [] {
      var before, m := messages[..|messages| - 1], messages[|messages| - 1];
      assert messages == before + [m];
      SenderStaysBefore(f, before, m);
      StageAppend(f, before, m);
      NothingIsRefused(r, f, before);
      FollowFile(r, f, before);
      HandleAllAppend(ReceivedHandler(), r, before, m);
      var p := HandleAll(ReceivedHandler(), r, before);
      if IsPacket(f, m) {
        VacantIsFound(p.state.files);
        PacketArrives(p.state, m, f, StageIn(f, before).value);
      } else {
        TalkIsAccepted(p.state, m);
      }
    }
  }

  lemma VacantIsFound(files: seq<Incoming>)
    ensures Vacant in files <==> FindVacant(files) < |files|
  {
  }

  /** Then the file is sure to arrive. */
  lemma FileSurelyArrives(r: Receiver, who: Identity, f: Sent, messages: seq<Message>)
    requires TableIsOk(r) && SentIsValid(f) && IdentityIsValid(who) && 0 !in f.name
    requires IsAbsent(r, f) && r.ownId != f.senderId
    requires AllSound(messages) && SenderStays(f, messages)
    requires PacketsOf(messages, f.senderId, f.transferId) == FileMessages(who, f.transferId, f.name, f.content)
    requires Vacant in r.files && OnlyTalkBesides(f, r.ownId, messages)
    ensures var p := HandleAll(ReceivedHandler(), r, messages);
            p.Waiting? && PathOf(f) in p.state.disk && p.state.disk[PathOf(f)] == f.content
  {
    hide TableIsOk, IsSound, HandleAll, FileMessages, SenderStays, AllSound, PathOf, HandleReceived;
    StageOfFile(f, who);
    NothingIsRefused(r, f, messages);
    FileArrives(r, who, f, messages);
  }

  // ---------- without its beginning ----------

  /** A chunk or an end of a transfer that is not in the table is refused. */
  lemma UnknownIsRefused(r: Receiver, f: Sent, m: Message)
    requires IsAbsent(r, f) && r.ownId != f.senderId && IsPacket(f, m) && (m.kind == FILE_CHUNK || m.kind == FILE_END)
    ensures HandleReceived(r, m) == Handled(r, false)
  {
  }

  /** Packets of a file after its beginning. */
  predicate NoBeginning(packets: seq<Message>) {
    forall m :: m in packets ==> m.kind == FILE_CHUNK || m.kind == FILE_END
  }

  /**
   A receiver that has not heard the beginning of a file, while nobody else is sending any, keeps its
   connection if and only if it hears no packet of that file at all.
   */
  lemma {:induction false} KeptIffNothingHeard(r: Receiver, f: Sent, messages: seq<Message>)
    requires TableIsOk(r) && SentIsValid(f) && IsAbsent(r, f) && r.ownId != f.senderId
    requires AllSound(messages) && OnlyTalkBesides(f, r.ownId, messages)
    requires NoBeginning(PacketsOf(messages, f.senderId, f.transferId))
    ensures var p := HandleAll(ReceivedHandler(), r, messages);
            && (p.Waiting? <==> PacketsOf(messages, f.senderId, f.transferId) == [])
            && (p.Waiting? ==> TableIsOk(p.state) && IsAbsent(p.state, f) && p.state.ownId == r.ownId)
    decreases |messages|
  {
    hide TableIsOk, SentIsValid, WellTyped, Encodable, Canonical, HandleReceived, IsAbsent, PacketsOf;
    PacketsStep(messages, f.senderId, f.transferId);
    if messages != [] {
      var before, m := messages[..|messages| - 1], messages[|messages| - 1];
      assert messages == before + [m];
      assert forall x :: x in before ==> x in messages;
      KeptIffNothingHeard(r, f, before);
      HandleAllAppend(ReceivedHandler(), r, before, m);
      var p := HandleAll(ReceivedHandler(), r, before);
      if p.Waiting? {
        if IsPacket(f, m) {
          assert m in PacketsOf(messages, f.senderId, f.transferId);
          UnknownIsRefused(p.state, f, m);
        } else {
          TalkIsAccepted(p.state, m);
          AwaitedIsAbsent(p.state, f);
          OtherKeeps(p.state, m, f, Awaited);
          AwaitedIsAbsent(HandleReceived(p.state, m).state, f);
        }
      }
    }
  }

  lemma PacketsStep(messages: seq<Message>, senderId: nat, transferId: nat)
    ensures PacketsOf(messages, senderId, transferId) ==
            if messages == [] then []
            else
              var m := messages[|messages| - 1];
              PacketsOf(messages[..|messages| - 1], senderId, transferId)
              + if m.senderId == senderId && m.transferId == transferId then [m] else []
  {
  }

  lemma AwaitedIsAbsent(r: Receiver, f: Sent)
    ensures Holds(r, f, Awaited) <==> IsAbsent(r, f)
  {
  }

  /** Of the packets of a file, only the first is a beginning. */
  lemma OneBeginning(who: Identity, transferId: nat, name: seq<byte>, content: seq<byte>, k: nat)
    requires |who.name| <= NAME_MAX && |name| <= FILE_NAME_MAX
    requires 0 < k <= |FileMessages(who, transferId, name, content)|
    ensures NoBeginning(FileMessages(who, transferId, name, content)[k..])
  {
    hide BeginMessage, ChunkMessages, EndMessage;
    ChunksAreChunks(who, transferId, content);
    EndIsEnd(who, transferId);
  }

  lemma {:induction false} ChunksAreChunks(who: Identity, transferId: nat, content: seq<byte>)
    requires |who.name| <= NAME_MAX
    ensures forall m :: m in ChunkMessages(who, transferId, content) ==> m.kind == FILE_CHUNK
    decreases |content|
  {
    hide ChunkMessage;
    if content != [] {
      var n := NextChunk(|content|);
      ChunkIsChunk(who, transferId, content[..n]);
      ChunksAreChunks(who, transferId, content[n..]);
    }
  }

  lemma EndIsEnd(who: Identity, transferId: nat)
    requires |who.name| <= NAME_MAX
    ensures EndMessage(who, transferId).kind == FILE_END
  {
  }
}
