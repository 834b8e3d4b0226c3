/** What becomes of a file that a client is told to send. */
module ChatSharing {
  import opened Bytes
  import opened ChatCodec
  import opened ChatOutput
  import opened ChatRelay
  import opened ChatFiles
  import opened ChatFileRuns
  import opened ChatSending

  // ---------- chunks ----------

  /** A file takes as many chunks as there are pieces of 16384 bytes in it, the last one perhaps shorter. */
  lemma {:induction false} ChunkCount(who: Identity, transferId: nat, content: seq<byte>)
    requires |who.name| <= NAME_MAX
    ensures |ChunkMessages(who, transferId, content)| == (|content| + 16383) / 16384
    decreases |content|
  {
    hide ChunkMessage;
    if content != [] {
      ChunkCount(who, transferId, content[NextChunk(|content|)..]);
    }
  }

  function ChunkEnd(size: nat, k: nat): nat {
    if 16384 * (k + 1) <= size then 16384 * (k + 1) else size
  }

  /** Chunk k of a file holds its bytes from 16384 k on, as many as there are up to 16384. */
  lemma {:induction false} ChunksByIndex(who: Identity, transferId: nat, content: seq<byte>, k: nat)
    requires |who.name| <= NAME_MAX && 16384 * k < |content|
    ensures var chunks := ChunkMessages(who, transferId, content);
            && k < |chunks|
            && ChunkData(chunks[k]) ==
               content[16384 * k..if 16384 * (k + 1) <= |content| then 16384 * (k + 1) else |content|]
            && chunks[k].kind == FILE_CHUNK && chunks[k].senderId == who.id && chunks[k].transferId == transferId
    decreases k
  {
    hide ChunkMessages, ChunkMessage, ChunkData;
    var n := NextChunk(|content|);
    FirstChunk(who, transferId, content);
    ChunkCarries(who, transferId, content[..n]);
    if k > 0 {
      ChunksByIndex(who, transferId, content[n..], k - 1);
      SliceOfRest(content, n, 16384 * k, ChunkEnd(|content|, k));
    }
  }

  lemma FirstChunk(who: Identity, transferId: nat, content: seq<byte>)
    requires |who.name| <= NAME_MAX && content != []
    ensures var n := NextChunk(|content|);
            ChunkMessages(who, transferId, content) ==
            [ChunkMessage(who, transferId, content[..n])] + ChunkMessages(who, transferId, content[n..])
  {
    hide ChunkMessage;
  }

  lemma SliceOfRest(content: seq<byte>, n: nat, from: nat, to: nat)
    requires n <= from <= to <= |content|
    ensures content[n..][from - n..to - n] == content[from..to]
  {
  }

  lemma ChunkCarries(who: Identity, transferId: nat, data: seq<byte>)
    requires |who.name| <= NAME_MAX && |data| <= FILE_CHUNK_MAX
    ensures var m := ChunkMessage(who, transferId, data);
            ChunkData(m) == data && m.kind == FILE_CHUNK && m.senderId == who.id && m.transferId == transferId
  {
    assert Padded(data, FILE_CHUNK_MAX)[..|data|] == data;
  }

  // ---------- only what was asked for is sent ----------

  /** The file under way, or one that is asked for later. */
  predicate AskedFor(s: Sender, actions: seq<Action>, f: Sent) {
    || f in s.finished
    || (s.outgoing.Sharing? && s.outgoing.transferId == f.transferId
        && s.outgoing.name == f.name && s.outgoing.content == f.content)
    || Share(f.transferId, f.name, f.content) in actions
  }

  lemma OneStepAsked(who: Identity, s: Sender, action: Action, f: Sent)
    requires SenderIsOk(who, s)
    ensures |who.name| <= NAME_MAX && 0 <= PendingOf(s) && (s.outgoing.Sharing? ==> s.outgoing.sent <= |s.outgoing.content|)
    ensures AskedFor(Perform(who, s, action), [], f) ==> AskedFor(s, [action], f)
  {
    hide SenderIsOk, FrameBytes, BeginMessage, ChunkMessage, EndMessage, PlainMessage, TextMessage, SafeFileName, Flushing,
         Draining, PendingOf;
    PerformKeeps(who, s, action);
  }

  /** In every run, each file sent completely was asked for with its identifier, name and content. */
  lemma {:induction false} FinishedWasShared(who: Identity, s: Sender, actions: seq<Action>, f: Sent)
    requires SenderIsOk(who, s) && f in RunSender(who, s, actions).finished
    ensures AskedFor(s, actions, f)
    decreases |actions|
  {
    hide SenderIsOk, Perform, PendingOf;
    if actions != [] {
      OneStepAsked(who, s, actions[0], f);
      PerformKeeps(who, s, actions[0]);
      FinishedWasShared(who, Perform(who, s, actions[0]), actions[1..], f);
    }
  }

  /** In every run from the beginning. */
  lemma EveryFileWasShared(who: Identity, actions: seq<Action>, f: Sent)
    requires IdentityIsValid(who) && SenderIsOk(who, StartSender(who))
    requires f in RunSender(who, StartSender(who), actions).finished
    ensures Share(f.transferId, f.name, f.content) in actions && f.senderId == who.id
  {
    hide RunSender, SenderIsOk, FrameBytes, PlainMessage, FinishedIsOk;
    FinishedWasShared(who, StartSender(who), actions, f);
    SenderIsDone(who, RunSender(who, StartSender(who), actions));
    assert FinishedIsOk(who, RunSender(who, StartSender(who), actions), f);
    IdOfFinished(who, RunSender(who, StartSender(who), actions), f);
  }

  lemma IdOfFinished(who: Identity, s: Sender, f: Sent)
    requires |who.name| <= NAME_MAX && FinishedIsOk(who, s, f)
    ensures f.senderId == who.id
  {
  }

  // ---------- what is asked for can be sent ----------

  /** When a file is taken on: none is under way, its name is plain, and the announcement of 40 bytes and two names fits. */
  lemma ShareIsAcceptedIff(who: Identity, s: Sender, transferId: nat, name: seq<byte>, content: seq<byte>)
    requires SenderIsOk(who, s) && s.running && ActionIsPossible(s, Share(transferId, name, content))
    ensures |who.name| <= NAME_MAX
    ensures var t := StartFile(who, s, transferId, name, content);
            if s.outgoing.Sharing? || !PlainName(name) then t == s
            else if 40 + |who.name| + |name| > 65788 - (|Stream(s.spoken)| - s.given) then t == s.(running := false)
            else t.running && t.outgoing == Sharing(transferId, name, content, 0)
                 && t.spoken == s.spoken + [BeginMessage(who, transferId, name, |content|)]
  {
    hide SenderIsOk, Stream, BeginMessage, Encodable, WellTyped, StrnLen;
    WhoIsValid(who, s);
    PlainIsSafe(name);
    if PlainName(name) {
      BeginFacts(who, transferId, name, |content|);
      var m := BeginMessage(who, transferId, name, |content|);
      FrameFits(m);
      BeginSize(who, transferId, name, |content|);
    }
  }

  lemma BeginSize(who: Identity, transferId: nat, name: seq<byte>, size: nat)
    requires IdentityIsValid(who) && FileIsValid(transferId, name, size)
    requires Encodable(BeginMessage(who, transferId, name, size))
    ensures |ContentOf(BeginMessage(who, transferId, name, size)).value| == 8 + |name|
  {
    hide StrnLen, ToBytes, NameOf, LengthsAreValid;
    StrnLenOfPadded(name, FILE_NAME_MAX + 1);
  }

  /** The pump adds the next packet, and only one, exactly when a packet of 16447 bytes would fit the output. */
  lemma TurnMovesIff(who: Identity, s: Sender)
    requires SenderIsOk(who, s) && s.running
    ensures |who.name| <= NAME_MAX && s.outgoing.Sharing? ==> s.outgoing.sent <= |s.outgoing.content|
    ensures |who.name| <= NAME_MAX && 0 <= PendingOf(s)
    ensures var t, o, room := Perform(who, s, Turn), s.outgoing, 65788 - (|Stream(s.spoken)| - s.given);
            && t.running && t.given == s.given
            && if o.NoFile? || room < 16447 then t == s
               else
                 && |t.spoken| == |s.spoken| + 1 && t.spoken[..|s.spoken|] == s.spoken
                 && var m := t.spoken[|s.spoken|];
                    && m.senderId == who.id && m.transferId == o.transferId && NameOf(m) == who.name
                    && if o.sent < |o.content| then
                         var n := if |o.content| - o.sent < 16384 then |o.content| - o.sent else 16384;
                         && m.kind == FILE_CHUNK && m.fileDataSize == n && ChunkData(m) == o.content[o.sent..o.sent + n]
                         && t.outgoing == o.(sent := o.sent + n) && t.finished == s.finished
                       else
                         && m.kind == FILE_END && t.outgoing == NoFile
                         && t.finished == s.finished + [Sent(who.id, o.transferId, o.name, o.content)]
  {
    hide SenderIsOk, Stream, FrameBytes, ChunkMessage, EndMessage, OutgoingIsOk, NameOf, ChunkData;
    WhoIsValid(who, s);
    RunningHasNotLeft(who, s);
    PumpNeverFails(who, s);
    OpenFileId(who, s);
    var o := s.outgoing;
    if o.Sharing? {
      if o.sent < |o.content| {
        var data := o.content[o.sent..o.sent + NextChunk(|o.content| - o.sent)];
        ChunkFacts(who, o.transferId, data);
        ChunkCarries(who, o.transferId, data);
      } else {
        EndFacts(who, o.transferId);
      }
    }
  }

  /** When the socket takes bytes, exactly those leave the output; the client goes on unless sending fails. */
  lemma CanSendMeans(who: Identity, s: Sender, outcomes: seq<SendOutcome>)
    requires SenderIsOk(who, s) && s.running
    ensures |who.name| <= NAME_MAX && 0 <= PendingOf(s) && (s.outgoing.Sharing? ==> s.outgoing.sent <= |s.outgoing.content|)
    ensures var (n, ok) := Flushing(outcomes, |Stream(s.spoken)| - s.given);
            Perform(who, s, CanSend(outcomes)) == s.(given := s.given + n, running := ok)
  {
    hide SenderIsOk, Stream, Flushing;
    WhoIsValid(who, s);
    RunningHasNotLeft(who, s);
  }

  /** One more packet of the file, once the socket has taken what was pending. */
  lemma {:induction false} SharingMoves(who: Identity, s: Sender) returns (t: Sender)
    requires SenderIsOk(who, s) && s.running && s.outgoing.Sharing?
    ensures |who.name| <= NAME_MAX
    ensures t == RunSender(who, s, [CanSend([Accepted(OUTPUT_CAPACITY)]), Turn]) && SenderIsOk(who, t) && t.running
    ensures var o := s.outgoing;
            if o.sent < |o.content| then
              t.outgoing.Sharing? && t.outgoing.sent > o.sent && t.outgoing == o.(sent := t.outgoing.sent)
              && t.outgoing.sent <= |o.content|
            else t.outgoing.NoFile? && Sent(who.id, o.transferId, o.name, o.content) in t.finished
  {
    hide SenderIsOk, Stream, FrameBytes, ChunkMessage, EndMessage;
    WhoIsValid(who, s);
    var flush := CanSend([Accepted(OUTPUT_CAPACITY)]);
    PerformKeeps(who, s, flush);
    RunningHasNotLeft(who, s);
    var u := Perform(who, s, flush);
    AllTaken(PendingOf(s));
    PumpNeverFails(who, u);
    RunningHasNotLeft(who, u);
    PerformKeeps(who, u, Turn);
    t := Perform(who, u, Turn);
    assert [flush, Turn][1..] == [Turn] && [Turn][1..] == [];
    assert RunSender(who, t, []) == t;
    assert RunSender(who, u, [Turn]) == t;
    WhoIsValid(who, t);
  }

  lemma AllTaken(pending: nat)
    requires pending <= OUTPUT_CAPACITY
    ensures Flushing([Accepted(OUTPUT_CAPACITY)], pending) == (pending, true)
  {
    assert [Accepted(OUTPUT_CAPACITY)][1..] == [];
  }

  lemma {:induction false} RunSenderInTwo(who: Identity, s: Sender, a: seq<Action>, b: seq<Action>)
    requires SenderIsOk(who, s)
    ensures RunSender(who, s, a + b) == RunSender(who, RunSender(who, s, a), b)
    decreases |a|
  {
    hide SenderIsOk, Perform, PendingOf;
    if a == [] {
      assert a + b == b;
    } else {
      PerformKeeps(who, s, a[0]);
      assert (a + b)[0] == a[0] && (a + b)[1..] == a[1..] + b;
      RunSenderInTwo(who, Perform(who, s, a[0]), a[1..], b);
    }
  }

  /** A file that has been taken on can always be sent to its end: as long as the socket takes bytes, nothing stops it. */
  lemma {:induction false} SharingCanFinish(who: Identity, s: Sender) returns (actions: seq<Action>)
    requires SenderIsOk(who, s) && s.running && s.outgoing.Sharing?
    ensures var t, o := RunSender(who, s, actions), s.outgoing;
            t.running && t.outgoing.NoFile? && Sent(who.id, o.transferId, o.name, o.content) in t.finished
    ensures forall a :: a in actions ==> a.Turn? || a.CanSend?
    decreases if s.outgoing.sent <= |s.outgoing.content| then |s.outgoing.content| - s.outgoing.sent + 1 else 0
  {
    hide SenderIsOk, RunSender;
    WhoIsValid(who, s);
    var step := [CanSend([Accepted(OUTPUT_CAPACITY)]), Turn];
    var t := SharingMoves(who, s);
    if t.outgoing.Sharing? {
      var rest := SharingCanFinish(who, t);
      actions := step + rest;
      RunSenderInTwo(who, s, step, rest);
    } else {
      actions := step;
    }
  }
}
