/** The sending half of the chat client: what it says, and the pump that feeds a file into the output. */
module ChatSending {
  import opened Bytes
  import opened Wrappers
  import opened ChatCodec
  import opened ChatFraming
  import opened ChatOutput
  import opened ChatRelay
  import opened ChatRelayRuns
  import opened ChatFiles
  import opened ChatFileRuns

  datatype Outgoing = NoFile | Sharing(transferId: nat, name: seq<byte>, content: seq<byte>, sent: nat)

  /**
   `spoken` is everything queued so far, `given` how many of its bytes the socket has taken and
   `finished` the files queued to the end. A client that runs no more has not `left` until it has made
   its last attempt to say so.
   */
  datatype Sender = Sender(outgoing: Outgoing, spoken: seq<Message>, given: nat, finished: seq<Sent>, running: bool,
                           left: bool)

  function PendingOf(s: Sender): int {
    |Stream(s.spoken)| - s.given
  }

  /** queue_message: the client gives up when there is no room. */
  function Queued(s: Sender, m: Message): Sender {
    if |FrameBytes(m)| <= OUTPUT_CAPACITY - PendingOf(s) then s.(spoken := s.spoken + [m]) else s.(running := false)
  }

  function Say(who: Identity, s: Sender, text: seq<byte>): Sender
    requires |who.name| <= NAME_MAX && |text| <= TEXT_MAX
  {
    Queued(s, TextMessage(who, text))
  }

  /** start_outgoing_file, for a file that can be opened; one file at a time, and only under a safe name. */
  function StartFile(who: Identity, s: Sender, transferId: nat, name: seq<byte>, content: seq<byte>): Sender
    requires |who.name| <= NAME_MAX
  {
    if s.outgoing.Sharing? || !SafeFileName(name) || |name| > FILE_NAME_MAX then s
    else
      var t := Queued(s, BeginMessage(who, transferId, name, |content|));
      if t.running then t.(outgoing := Sharing(transferId, name, content, 0)) else t
  }

  /** pump_outgoing_file: the next chunk or the end, once the largest frame would fit. */
  function Pump(who: Identity, s: Sender): Sender
    requires |who.name| <= NAME_MAX && (s.outgoing.Sharing? ==> s.outgoing.sent <= |s.outgoing.content|)
  {
    var o := s.outgoing;
    if o.NoFile? || OUTPUT_CAPACITY - PendingOf(s) < PACKET_MAX_SIZE then s
    else if o.sent < |o.content| then
      var n := NextChunk(|o.content| - o.sent);
      var t := Queued(s, ChunkMessage(who, o.transferId, o.content[o.sent..o.sent + n]));
      if t.running then t.(outgoing := o.(sent := o.sent + n)) else t
    else
      var t := Queued(s, EndMessage(who, o.transferId));
      if t.running then
        t.(outgoing := NoFile, finished := t.finished + [Sent(who.id, o.transferId, o.name, o.content)])
      else t
  }

  function FlushOutput(s: Sender, outcomes: seq<SendOutcome>): Sender
    requires 0 <= PendingOf(s)
  {
    var (n, ok) := Flushing(outcomes, PendingOf(s));
    s.(given := s.given + n, running := ok)
  }

  /** The end of the run, however it came to it: a last LEAVE if it still fits. */
  function Finish(who: Identity, s: Sender): Sender
    requires |who.name| <= NAME_MAX
  {
    Queued(s, PlainMessage(who, LEAVE)).(running := false, left := true)
  }

  /** And if it does, what is pending then is sent as long as the socket takes it. */
  function LeaveAndDrain(who: Identity, s: Sender, rounds: seq<seq<SendOutcome>>): Sender
    requires |who.name| <= NAME_MAX && 0 <= PendingOf(s)
  {
    var t := Finish(who, s);
    if |FrameBytes(PlainMessage(who, LEAVE))| <= OUTPUT_CAPACITY - PendingOf(s) && 0 <= PendingOf(t)
    then t.(given := t.given + Draining(rounds, PendingOf(t))) else t
  }

  datatype Action =
    | Type(text: seq<byte>)
    | Share(transferId: nat, name: seq<byte>, content: seq<byte>)
    | Turn
    | CanSend(outcomes: seq<SendOutcome>)
    | Quit(rounds: seq<seq<SendOutcome>>)

  /** Lines are not empty and fit the input buffer; a drawn transfer id is not zero and new. */
  predicate ActionIsPossible(s: Sender, action: Action) {
    match action
    case Type(text) => 1 <= |text| <= TEXT_MAX && 0 !in text
    case Share(transferId, name, content) =>
      && 0 < transferId < UINT64_RANGE && 0 !in name && |content| < UINT64_RANGE
      && forall m :: m in s.spoken ==> m.transferId != transferId
    case _ => true
  }

  // ---------- the invariant ----------

  function TransferOf(o: Outgoing): Transfer {
    if o.NoFile? then Idle else Sending(o.transferId, |o.content|, o.sent)
  }

  predicate OutgoingIsOk(who: Identity, s: Sender)
    requires |who.name| <= NAME_MAX
  {
    var o := s.outgoing;
    o.Sharing? ==>
      && FileIsValid(o.transferId, o.name, |o.content|) && SafeFileName(o.name)
      && o.sent <= |o.content| && (o.sent % FILE_CHUNK_MAX == 0 || o.sent == |o.content|)
      && PacketsOf(s.spoken, who.id, o.transferId) ==
         [BeginMessage(who, o.transferId, o.name, |o.content|)] + ChunkMessages(who, o.transferId, o.content[..o.sent])
  }

  /** A finished file was sent completely and nothing else was sent under its id. */
  predicate FinishedIsOk(who: Identity, s: Sender, f: Sent)
    requires |who.name| <= NAME_MAX
  {
    && f.senderId == who.id && SentIsValid(f) && FileIsValid(f.transferId, f.name, |f.content|)
    && (s.outgoing.Sharing? ==> s.outgoing.transferId != f.transferId)
    && PacketsOf(s.spoken, who.id, f.transferId) == FileMessages(who, f.transferId, f.name, f.content)
  }

  ghost predicate SenderIsOk(who: Identity, s: Sender) {
    && IdentityIsValid(who) && AllSound(s.spoken) && (forall m :: m in s.spoken ==> m.senderId == who.id)
    && 0 <= PendingOf(s) <= OUTPUT_CAPACITY
    && PhaseAfter(s.spoken).Some?
    && (s.left ==> !s.running)
    && (!s.left ==> PhaseAfter(s.spoken) == Some(Present(who.id, who.name, TransferOf(s.outgoing))))
    && OutgoingIsOk(who, s)
    && (forall f :: f in s.finished ==> FinishedIsOk(who, s, f))
  }

  function Perform(who: Identity, s: Sender, action: Action): Sender
    requires |who.name| <= NAME_MAX && 0 <= PendingOf(s)
    requires s.outgoing.Sharing? ==> s.outgoing.sent <= |s.outgoing.content|
  {
    if s.left || (!s.running && !action.Quit?) || !ActionIsPossible(s, action) then s
    else
      match action
      case Type(text) => Say(who, s, text)
      case Share(transferId, name, content) => StartFile(who, s, transferId, name, content)
      case Turn => Pump(who, s)
      case CanSend(outcomes) => FlushOutput(s, outcomes)
      case Quit(rounds) => LeaveAndDrain(who, s, rounds)
  }

  function StartSender(who: Identity): Sender
    requires |who.name| <= NAME_MAX
  {
    Queued(Sender(NoFile, [], 0, [], true, false), PlainMessage(who, JOIN))
  }

  // ---------- queueing a message ----------

  /** No frame is longer than the largest packet. */
  lemma FrameFits(m: Message)
    requires IsSound(m)
    ensures FrameBytes(m) == Frame(m) && |FrameBytes(m)| <= PACKET_MAX_SIZE
  {
    hide Frame, Encodable, WellTyped, Canonical;
    FrameIsComplete(m);
  }

  lemma PacketsAppend(messages: seq<Message>, m: Message, id: nat, transferId: nat)
    ensures PacketsOf(messages + [m], id, transferId) ==
            PacketsOf(messages, id, transferId) + if m.senderId == id && m.transferId == transferId then [m] else []
  {
    assert (messages + [m])[..|messages|] == messages;
  }

  /** Saying something about no file or another one leaves the finished files finished. */
  lemma SayKeepsFinished(who: Identity, s: Sender, m: Message, o: Outgoing)
    requires SenderIsOk(who, s) && (forall f :: f in s.finished ==> f.transferId != m.transferId)
    requires o.Sharing? ==> forall f :: f in s.finished ==> f.transferId != o.transferId
    ensures forall f :: f in s.finished ==> FinishedIsOk(who, s.(spoken := s.spoken + [m], outgoing := o), f)
  {
    hide PacketsOf, FileMessages, SentIsValid, FileIsValid, Stream, PhaseAfter, AllSound;
    forall f | f in s.finished ensures FinishedIsOk(who, s.(spoken := s.spoken + [m], outgoing := o), f) {
      PacketsAppend(s.spoken, m, who.id, f.transferId);
    }
  }

  /** The parts of the invariant that any sound message of the client's own keeps, when it fits. */
  lemma SayKeepsBooks(who: Identity, s: Sender, m: Message)
    requires SenderIsOk(who, s) && IsSound(m) && m.senderId == who.id
    requires |FrameBytes(m)| <= OUTPUT_CAPACITY - PendingOf(s)
    ensures AllSound(s.spoken + [m]) && (forall x :: x in s.spoken + [m] ==> x.senderId == who.id)
    ensures s.given <= |Stream(s.spoken + [m])| <= s.given + OUTPUT_CAPACITY
    ensures PhaseAfter(s.spoken + [m]) ==
            match PhaseAfter(s.spoken) case None => None case Some(p) => Next(p, m)
  {
    hide IsSound, Stream, PhaseAfter, OutgoingIsOk, FinishedIsOk, FrameBytes, Next;
    StreamAppend(s.spoken, m);
    PhaseAppend(s.spoken, m);
  }

  lemma StopKeeps(who: Identity, s: Sender)
    requires SenderIsOk(who, s)
    ensures SenderIsOk(who, s.(running := false))
  {
    hide AllSound, Stream, PhaseAfter, PacketsOf, FileMessages, SentIsValid, FileIsValid, ChunkMessages;
  }

  /** Queueing a message that moves the conversation on as the client's own record of its file says. */
  lemma SayKeeps(who: Identity, s: Sender, m: Message, o: Outgoing)
    requires SenderIsOk(who, s) && s.running && IsSound(m) && m.senderId == who.id
    requires |FrameBytes(m)| <= OUTPUT_CAPACITY - PendingOf(s)
    requires forall f :: f in s.finished ==> f.transferId != m.transferId
    requires o.Sharing? ==> forall f :: f in s.finished ==> f.transferId != o.transferId
    requires OutgoingIsOk(who, s.(spoken := s.spoken + [m], outgoing := o))
    requires Next(Present(who.id, who.name, TransferOf(s.outgoing)), m) == Some(Present(who.id, who.name, TransferOf(o)))
    ensures SenderIsOk(who, s.(spoken := s.spoken + [m], outgoing := o))
  {
    hide AllSound, Stream, PhaseAfter, OutgoingIsOk, FinishedIsOk, IsSound, FrameBytes, Next;
    SayKeepsBooks(who, s, m);
    SayKeepsFinished(who, s, m, o);
  }

  /** The message that ends the conversation. */
  lemma QuitKeeps(who: Identity, s: Sender)
    requires SenderIsOk(who, s) && !s.left
    ensures SenderIsOk(who, Finish(who, s))
  {
    hide AllSound, Stream, PhaseAfter, FinishedIsOk, IsSound, FrameBytes, PlainMessage, PacketsOf, FileMessages,
         ChunkMessages, BeginMessage, NameOf, FileIsValid;
    var m := PlainMessage(who, LEAVE);
    PlainFacts(who, LEAVE);
    if |FrameBytes(m)| <= OUTPUT_CAPACITY - PendingOf(s) {
      SayKeepsBooks(who, s, m);
      FinishedIdsNotZero(who, s);
      OutgoingSaysNothing(who, s, m);
      OutgoingDistinct(who, s);
      SayKeepsFinished(who, s, m, s.outgoing);
      StillFinished(who, s.(spoken := s.spoken + [m]));
    } else {
      StopKeeps(who, s);
      StillFinished(who, s);
      OutgoingStays(who, s);
    }
  }

  lemma OutgoingStays(who: Identity, s: Sender)
    requires SenderIsOk(who, s)
    ensures OutgoingIsOk(who, s.(running := false, left := true))
  {
    hide AllSound, Stream, PhaseAfter, PacketsOf, FileMessages, ChunkMessages, BeginMessage;
  }

  lemma DrainingKeeps(who: Identity, s: Sender, n: nat)
    requires SenderIsOk(who, s) && n <= PendingOf(s)
    ensures SenderIsOk(who, s.(given := s.given + n))
  {
    hide AllSound, Stream, PhaseAfter, PacketsOf, FileMessages, SentIsValid, FileIsValid, ChunkMessages;
  }

  lemma LeavingKeeps(who: Identity, s: Sender, rounds: seq<seq<SendOutcome>>)
    requires SenderIsOk(who, s) && !s.left
    ensures |who.name| <= NAME_MAX && 0 <= PendingOf(s)
    ensures SenderIsOk(who, LeaveAndDrain(who, s, rounds))
  {
    hide SenderIsOk, Finish, Draining, FrameBytes, OutgoingIsOk;
    WhoIsValid(who, s);
    QuitKeeps(who, s);
    var t := Finish(who, s);
    WhoIsValid(who, t);
    DrainingKeeps(who, t, Draining(rounds, PendingOf(t)));
  }

  lemma PlainFacts(who: Identity, kind: nat)
    requires IdentityIsValid(who) && (kind == JOIN || kind == LEAVE)
    ensures var m := PlainMessage(who, kind);
            IsSound(m) && m.kind == kind && m.senderId == who.id && m.transferId == 0 && NameOf(m) == who.name
  {
    hide IsSound, NameOf;
    PlainIsSound(who, kind);
  }

  lemma FinishedIdsNotZero(who: Identity, s: Sender)
    requires SenderIsOk(who, s)
    ensures forall f :: f in s.finished ==> f.transferId != 0
  {
    hide AllSound, Stream, PhaseAfter, PacketsOf, FileMessages;
  }

  lemma OutgoingDistinct(who: Identity, s: Sender)
    requires SenderIsOk(who, s)
    ensures s.outgoing.Sharing? ==> forall f :: f in s.finished ==> f.transferId != s.outgoing.transferId
  {
    hide AllSound, Stream, PhaseAfter, PacketsOf, FileMessages;
  }

  lemma StillFinished(who: Identity, s: Sender)
    requires |who.name| <= NAME_MAX && forall f :: f in s.finished ==> FinishedIsOk(who, s, f)
    ensures forall f :: f in s.finished ==> FinishedIsOk(who, s.(running := false, left := true), f)
  {
    hide PacketsOf, FileMessages, SentIsValid, FileIsValid;
  }

  /** A message of no transfer leaves the record of the file as it is. */
  lemma OutgoingSaysNothing(who: Identity, s: Sender, m: Message)
    requires SenderIsOk(who, s) && m.transferId == 0
    ensures OutgoingIsOk(who, s.(spoken := s.spoken + [m]))
    ensures OutgoingIsOk(who, s.(spoken := s.spoken + [m], running := false, left := true))
  {
    hide AllSound, Stream, PhaseAfter, PacketsOf, FileMessages, ChunkMessages, BeginMessage;
    if s.outgoing.Sharing? {
      PacketsAppend(s.spoken, m, who.id, s.outgoing.transferId);
      var p := PacketsOf(s.spoken, who.id, s.outgoing.transferId);
      assert p + [] == p;
    }
  }

  lemma SayTextKeeps(who: Identity, s: Sender, text: seq<byte>)
    requires SenderIsOk(who, s) && s.running && ActionIsPossible(s, Type(text))
    ensures SenderIsOk(who, Say(who, s, text))
  {
    hide SenderIsOk, IsSound, FrameBytes, TextMessage, Stream, NameOf, OutgoingIsOk;
    assert IdentityIsValid(who) by {
      WhoIsValid(who, s);
    }
    var m := TextMessage(who, text);
    TextFacts(who, text);
    if |FrameBytes(m)| <= OUTPUT_CAPACITY - PendingOf(s) {
      FinishedIdsNotZero(who, s);
      OutgoingDistinct(who, s);
      OutgoingSaysNothing(who, s, m);
      SayKeeps(who, s, m, s.outgoing);
    } else {
      StopKeeps(who, s);
    }
  }

  lemma WhoIsValid(who: Identity, s: Sender)
    requires SenderIsOk(who, s)
    ensures IdentityIsValid(who) && 0 <= PendingOf(s) <= OUTPUT_CAPACITY && OutgoingIsOk(who, s) && AllSound(s.spoken)
    ensures PhaseAfter(s.spoken).Some?
    ensures s.outgoing.Sharing? ==> s.outgoing.sent <= |s.outgoing.content|
  {
    hide AllSound, Stream, PhaseAfter, PacketsOf, FileMessages, ChunkMessages, BeginMessage;
  }

  lemma TextFacts(who: Identity, text: seq<byte>)
    requires IdentityIsValid(who) && 1 <= |text| <= TEXT_MAX && 0 !in text
    ensures var m := TextMessage(who, text);
            && IsSound(m) && m.kind == MESSAGE && m.senderId == who.id && m.transferId == 0 && NameOf(m) == who.name
            && CString(m.text) == text
  {
    hide IsSound, NameOf, StrnLen;
    TextIsSound(who, text);
  }

  // ---------- the file ----------

  lemma BeginFacts(who: Identity, transferId: nat, name: seq<byte>, size: nat)
    requires IdentityIsValid(who) && FileIsValid(transferId, name, size)
    ensures var m := BeginMessage(who, transferId, name, size);
            && IsSound(m) && m.kind == FILE_BEGIN && m.senderId == who.id && m.transferId == transferId
            && m.fileSize == size && NameOf(m) == who.name
  {
    hide IsSound, NameOf;
    BeginIsSound(who, transferId, name, size);
  }

  lemma ChunkFacts(who: Identity, transferId: nat, data: seq<byte>)
    requires IdentityIsValid(who) && 0 < transferId < UINT64_RANGE && 1 <= |data| <= FILE_CHUNK_MAX
    ensures var m := ChunkMessage(who, transferId, data);
            && IsSound(m) && m.kind == FILE_CHUNK && m.senderId == who.id && m.transferId == transferId
            && m.fileDataSize == |data| && NameOf(m) == who.name
  {
    hide IsSound, NameOf;
    ChunkIsSound(who, transferId, data);
  }

  lemma EndFacts(who: Identity, transferId: nat)
    requires IdentityIsValid(who) && 0 < transferId < UINT64_RANGE
    ensures var m := EndMessage(who, transferId);
            && IsSound(m) && m.kind == FILE_END && m.senderId == who.id && m.transferId == transferId
            && NameOf(m) == who.name
  {
    hide IsSound, NameOf;
    EndIsSound(who, transferId);
  }

  lemma {:induction false} NewIdIsUnused(messages: seq<Message>, id: nat, transferId: nat)
    requires forall m :: m in messages ==> m.transferId != transferId
    ensures PacketsOf(messages, id, transferId) == []
  {
    if messages != [] {
      NewIdIsUnused(messages[..|messages| - 1], id, transferId);
    }
  }

  lemma NewIdIsNew(who: Identity, s: Sender, transferId: nat)
    requires SenderIsOk(who, s) && PacketsOf(s.spoken, who.id, transferId) == []
    ensures forall f :: f in s.finished ==> f.transferId != transferId
  {
    hide AllSound, Stream, PhaseAfter, ChunkMessages, PacketsOf;
  }

  lemma SharingKeeps(who: Identity, s: Sender, transferId: nat, name: seq<byte>, content: seq<byte>)
    requires SenderIsOk(who, s) && s.running && ActionIsPossible(s, Share(transferId, name, content))
    ensures SenderIsOk(who, StartFile(who, s, transferId, name, content))
  {
    hide SenderIsOk, IsSound, FrameBytes, BeginMessage, Stream, NameOf, SafeFileName, PacketsOf;
    WhoIsValid(who, s);
    if s.outgoing.NoFile? && SafeFileName(name) && |name| <= FILE_NAME_MAX {
      SafeIsNotEmpty(name);
      var m := BeginMessage(who, transferId, name, |content|);
      BeginFacts(who, transferId, name, |content|);
      if |FrameBytes(m)| <= OUTPUT_CAPACITY - PendingOf(s) {
        var o := Sharing(transferId, name, content, 0);
        NewIdIsUnused(s.spoken, who.id, transferId);
        NewIdIsNew(who, s, transferId);
        PacketsAppend(s.spoken, m, who.id, transferId);
        assert ChunkMessages(who, transferId, content[..0]) == [];
        assert [] + [m] == [m] == [m] + [];
        SayKeeps(who, s, m, o);
      } else {
        StopKeeps(who, s);
      }
    }
  }

  lemma SafeIsNotEmpty(name: seq<byte>)
    requires SafeFileName(name)
    ensures name != []
  {
  }

  /** One more chunk after whole ones. */
  lemma {:induction false} OneMoreChunk(who: Identity, transferId: nat, done: seq<byte>, next: seq<byte>)
    requires |who.name| <= NAME_MAX && |done| % FILE_CHUNK_MAX == 0 && 0 < |next| <= FILE_CHUNK_MAX
    ensures ChunkMessages(who, transferId, done + next) ==
            ChunkMessages(who, transferId, done) + [ChunkMessage(who, transferId, next)]
    decreases |done|
  {
    hide ChunkMessage;
    if done == [] {
      assert done + next == next && next[..|next|] == next && next[|next|..] == [];
    } else {
      var n := FILE_CHUNK_MAX;
      assert |done| >= n && NextChunk(|done|) == n == NextChunk(|done + next|);
      assert (done + next)[..n] == done[..n] && (done + next)[n..] == done[n..] + next;
      OneMoreChunk(who, transferId, done[n..], next);
    }
  }

  /** The room the pump waits for is enough for any packet: it never fails for lack of output space. */
  lemma {:induction false} PumpNeverFails(who: Identity, s: Sender)
    requires SenderIsOk(who, s) && s.running
    ensures SenderIsOk(who, Pump(who, s)) && Pump(who, s).running
  {
    hide SenderIsOk, IsSound, FrameBytes, BeginMessage, ChunkMessage, EndMessage, Stream, NameOf, SafeFileName, PacketsOf,
         ChunkMessages;
    WhoIsValid(who, s);
    var o := s.outgoing;
    if o.Sharing? && OUTPUT_CAPACITY - PendingOf(s) >= PACKET_MAX_SIZE {
      OutgoingDistinct(who, s);
      if o.sent < |o.content| {
        PumpChunk(who, s);
      } else {
        PumpEnd(who, s);
      }
    }
  }

  lemma PumpChunk(who: Identity, s: Sender)
    requires SenderIsOk(who, s) && s.running && s.outgoing.Sharing? && s.outgoing.sent < |s.outgoing.content|
    requires OUTPUT_CAPACITY - PendingOf(s) >= PACKET_MAX_SIZE
    ensures SenderIsOk(who, Pump(who, s)) && Pump(who, s).running
  {
    hide SenderIsOk, IsSound, FrameBytes, ChunkMessage, Stream, OutgoingIsOk, Next, PendingOf;
    WhoIsValid(who, s);
    OutgoingDistinct(who, s);
    var o := s.outgoing;
    var n := NextChunk(|o.content| - o.sent);
    var m := ChunkMessage(who, o.transferId, o.content[o.sent..o.sent + n]);
    ChunkContinues(who, s, n);
    FrameFits(m);
    SayKeeps(who, s, m, o.(sent := o.sent + n));
  }

  /** The next chunk is in order, and the client's record of its file goes on with it. */
  lemma ChunkContinues(who: Identity, s: Sender, n: nat)
    requires IdentityIsValid(who) && s.outgoing.Sharing? && s.outgoing.sent < |s.outgoing.content| && OutgoingIsOk(who, s)
    requires n == NextChunk(|s.outgoing.content| - s.outgoing.sent)
    ensures var o := s.outgoing;
            var m, next := ChunkMessage(who, o.transferId, o.content[o.sent..o.sent + n]), o.(sent := o.sent + n);
            && IsSound(m) && m.senderId == who.id && m.transferId == o.transferId
            && OutgoingIsOk(who, s.(spoken := s.spoken + [m], outgoing := next))
            && Next(Present(who.id, who.name, TransferOf(o)), m) == Some(Present(who.id, who.name, TransferOf(next)))
  {
    hide IsSound, BeginMessage, ChunkMessage, NameOf, SafeFileName, PacketsOf, ChunkMessages;
    var o := s.outgoing;
    var data := o.content[o.sent..o.sent + n];
    ChunkFacts(who, o.transferId, data);
    PacketsAppend(s.spoken, ChunkMessage(who, o.transferId, data), who.id, o.transferId);
    ChunksSoFar(who, o, n);
  }

  lemma ChunksSoFar(who: Identity, o: Outgoing, n: nat)
    requires o.Sharing? && |who.name| <= NAME_MAX && o.sent % FILE_CHUNK_MAX == 0
    requires 0 < n <= FILE_CHUNK_MAX && o.sent + n <= |o.content|
    ensures ChunkMessages(who, o.transferId, o.content[..o.sent + n]) ==
            ChunkMessages(who, o.transferId, o.content[..o.sent])
            + [ChunkMessage(who, o.transferId, o.content[o.sent..o.sent + n])]
  {
    hide ChunkMessages, ChunkMessage;
    OneMoreChunk(who, o.transferId, o.content[..o.sent], o.content[o.sent..o.sent + n]);
    assert o.content[..o.sent] + o.content[o.sent..o.sent + n] == o.content[..o.sent + n];
  }

  lemma PumpEnd(who: Identity, s: Sender)
    requires SenderIsOk(who, s) && s.running && s.outgoing.Sharing? && s.outgoing.sent == |s.outgoing.content|
    requires OUTPUT_CAPACITY - PendingOf(s) >= PACKET_MAX_SIZE
    ensures SenderIsOk(who, Pump(who, s)) && Pump(who, s).running
  {
    hide SenderIsOk, IsSound, FrameBytes, BeginMessage, EndMessage, Stream, NameOf, SafeFileName, PacketsOf, ChunkMessages;
    WhoIsValid(who, s);
    OutgoingDistinct(who, s);
    var o := s.outgoing;
    var m := EndMessage(who, o.transferId);
    EndFacts(who, o.transferId);
    FrameFits(m);
    PacketsAppend(s.spoken, m, who.id, o.transferId);
    assert o.content[..o.sent] == o.content;
    SayKeeps(who, s, m, NoFile);
    NowFinished(who, s.(spoken := s.spoken + [m], outgoing := NoFile), Sent(who.id, o.transferId, o.name, o.content));
  }

  lemma NowFinished(who: Identity, s: Sender, f: Sent)
    requires SenderIsOk(who, s) && FinishedIsOk(who, s, f)
    ensures SenderIsOk(who, s.(finished := s.finished + [f]))
  {
    hide AllSound, Stream, PhaseAfter, PacketsOf, FileMessages, SentIsValid, FileIsValid, ChunkMessages;
  }

  lemma FlushingKeeps(who: Identity, s: Sender, outcomes: seq<SendOutcome>)
    requires SenderIsOk(who, s) && s.running
    ensures SenderIsOk(who, FlushOutput(s, outcomes))
  {
    hide AllSound, Stream, PhaseAfter, PacketsOf, FileMessages, SentIsValid, FileIsValid, ChunkMessages;
  }

  lemma {:induction false} PerformKeeps(who: Identity, s: Sender, action: Action)
    requires SenderIsOk(who, s)
    ensures |who.name| <= NAME_MAX && 0 <= PendingOf(s) && (s.outgoing.Sharing? ==> s.outgoing.sent <= |s.outgoing.content|)
    ensures SenderIsOk(who, Perform(who, s, action))
  {
    hide SenderIsOk, Say, StartFile, Pump, FlushOutput, LeaveAndDrain, OutgoingIsOk;
    WhoIsValid(who, s);
    if action.Quit? && !s.left {
      LeavingKeeps(who, s, action.rounds);
    }
    if s.running && ActionIsPossible(s, action) {
      RunningHasNotLeft(who, s);
      match action
      case Type(text) => SayTextKeeps(who, s, text);
      case Share(transferId, name, content) => SharingKeeps(who, s, transferId, name, content);
      case Turn => PumpNeverFails(who, s);
      case CanSend(outcomes) => FlushingKeeps(who, s, outcomes);
      case Quit(rounds) =>
    }
  }

  lemma RunningHasNotLeft(who: Identity, s: Sender)
    requires SenderIsOk(who, s) && s.running
    ensures !s.left
  {
  }

  lemma StartSenderIsOk(who: Identity)
    requires IdentityIsValid(who)
    ensures SenderIsOk(who, StartSender(who)) && StartSender(who).spoken == [PlainMessage(who, JOIN)]
  {
    hide IsSound, FrameBytes, NameOf, Stream, PlainMessage;
    var m := PlainMessage(who, JOIN);
    PlainFacts(who, JOIN);
    FrameFits(m);
    StreamAppend([], m);
    PhaseAppend([], m);
    assert [] + [m] == [m] && Stream([]) == [] by {
      StreamOfNothing();
    }
  }

  /** Every run of a client that has joined. */
  ghost function RunSender(who: Identity, s: Sender, actions: seq<Action>): (t: Sender)
    requires SenderIsOk(who, s)
    ensures SenderIsOk(who, t)
    decreases |actions|
  {
    if actions == [] then s
    else
      PerformKeeps(who, s, actions[0]);
      RunSender(who, Perform(who, s, actions[0]), actions[1..])
  }

  /** In every run the server's check lets everything through, and every finished file was sent exactly once. */
  lemma EverySender(who: Identity, actions: seq<Action>)
    requires IdentityIsValid(who)
    ensures SenderIsOk(who, StartSender(who))
    ensures var t := RunSender(who, StartSender(who), actions);
            PhaseAfter(t.spoken).Some? && forall f :: f in t.finished ==> FinishedIsOk(who, t, f)
  {
    hide SenderIsOk, RunSender, PhaseAfter, FinishedIsOk;
    StartSenderIsOk(who);
    var t := RunSender(who, StartSender(who), actions);
    SenderIsDone(who, t);
  }

  lemma SenderIsDone(who: Identity, s: Sender)
    requires SenderIsOk(who, s)
    ensures PhaseAfter(s.spoken).Some? && AllSound(s.spoken) && IdentityIsValid(who)
    ensures forall m :: m in s.spoken ==> m.senderId == who.id
    ensures forall f :: f in s.finished ==> FinishedIsOk(who, s, f)
  {
  }

  // ---------- in place ----------

  class FileSender {
    const who: Identity
    const queue: OutputQueue
    var fileOpen: bool
    var transferId: nat
    var fileName: seq<byte>
    var file: seq<byte>
    var sentSize: nat
    var running: bool
    var left: bool
    ghost var spoken: seq<Message>
    ghost var finished: seq<Sent>

    ghost predicate Valid()
      reads this, queue, queue.output
    {
      && IdentityIsValid(who) && queue.Valid() && (fileOpen ==> sentSize <= |file|)
      && queue.sent + queue.Pending() == Stream(spoken)
    }

    ghost function View(): Sender
      reads this, queue
    {
      Sender(if fileOpen then Sharing(transferId, fileName, file, sentSize) else NoFile, spoken, |queue.sent|, finished,
             running, left)
    }

    constructor (who: Identity)
      requires IdentityIsValid(who)
      ensures Valid() && fresh(queue) && fresh(queue.output) && this.who == who
      ensures View() == Sender(NoFile, [], 0, [], true, false)
    {
      this.who := who;
      queue := new OutputQueue();
      fileOpen, transferId, fileName, file, sentSize := false, 0, [], [], 0;
      spoken, finished, running, left := [], [], true, false;
      new;
      StreamOfNothing();
    }

    /** queue_message. */
    method QueueMessage(m: Message) returns (ok: bool)
      requires Valid() && IsSound(m)
      modifies this`spoken, queue, queue.output
      ensures Valid() && ok == (|FrameBytes(m)| <= OUTPUT_CAPACITY - PendingOf(old(View())))
      ensures View() == if ok then old(View()).(spoken := old(View()).spoken + [m]) else old(View())
    {
      hide OutputQueue.Valid, OutputQueue.Pending, Stream, WellTyped, Encodable, Canonical, Frame;
      FrameFits(m);
      var frame := new byte[PACKET_MAX_SIZE](_ => 0);
      var encoded, size := EncodeInto(m, frame, PACKET_MAX_SIZE);
      ok := queue.Queue(frame[..size]);
      StreamAppend(spoken, m);
      if ok {
        assert queue.sent + queue.Pending() == old(queue.sent) + old(queue.Pending()) + FrameBytes(m);
        spoken := spoken + [m];
      }
    }

    /** The JOIN a client begins with. */
    method Join() returns (ok: bool)
      requires Valid() && running
      modifies this`spoken, this`running, queue, queue.output
      ensures Valid() && View() == Queued(old(View()), PlainMessage(who, JOIN)) && ok == View().running
    {
      hide OutputQueue.Valid, OutputQueue.Pending, Stream, IsSound, PlainMessage;
      PlainFacts(who, JOIN);
      ok := QueueMessage(PlainMessage(who, JOIN));
      running := ok;
    }

    /** A line typed in. */
    method HandleLine(text: seq<byte>) returns (ok: bool)
      requires Valid() && running && 1 <= |text| <= TEXT_MAX && 0 !in text
      modifies this`spoken, this`running, queue, queue.output
      ensures Valid() && View() == Say(who, old(View()), text) && ok == View().running
      ensures if ok then |spoken| == |old(spoken)| + 1 && spoken[..|old(spoken)|] == old(spoken)
                         && var m := spoken[|old(spoken)|];
                            m.kind == MESSAGE && m.senderId == who.id && NameOf(m) == who.name && CString(m.text) == text
              else spoken == old(spoken)
    {
      hide OutputQueue.Valid, OutputQueue.Pending, Stream, IsSound, TextMessage;
      TextFacts(who, text);
      ok := QueueMessage(TextMessage(who, text));
      running := ok;
    }

    /** start_outgoing_file, once the file is open. */
    method StartOutgoingFile(id: nat, name: seq<byte>, content: seq<byte>) returns (ok: bool)
      requires Valid() && running && 0 < id < UINT64_RANGE && 0 !in name && |content| < UINT64_RANGE
      modifies this, queue, queue.output
      ensures Valid() && View() == StartFile(who, old(View()), id, name, content) && ok == View().running
    {
      hide OutputQueue.Valid, OutputQueue.Pending, Stream, IsSound, BeginMessage, SafeFileName;
      if fileOpen {
        return true;
      }
      if !SafeFileName(name) || |name| > FILE_NAME_MAX {
        return true;
      }
      SafeIsNotEmpty(name);
      BeginFacts(who, id, name, |content|);
      ok := QueueMessage(BeginMessage(who, id, name, |content|));
      running := ok;
      if ok {
        fileOpen, transferId, fileName, file, sentSize := true, id, name, content, 0;
      }
    }

    /** The next chunk of the file. */
    method PumpChunk() returns (ok: bool)
      requires Valid() && running && fileOpen && 0 < transferId < UINT64_RANGE && sentSize < |file|
      modifies this, queue, queue.output
      ensures Valid() && ok == View().running
      ensures var s := old(View());
              var n := NextChunk(|s.outgoing.content| - s.outgoing.sent);
              var data := s.outgoing.content[s.outgoing.sent..s.outgoing.sent + n];
              var t := Queued(s, ChunkMessage(who, s.outgoing.transferId, data));
              View() == if ok then t.(outgoing := s.outgoing.(sent := s.outgoing.sent + n)) else t
    {
      hide OutputQueue.Valid, OutputQueue.Pending, Stream, IsSound, ChunkMessage, FrameBytes, PendingOf;
      var remaining := |file| - sentSize;
      var size := if remaining < FILE_CHUNK_MAX then remaining else FILE_CHUNK_MAX;
      var data := file[sentSize..sentSize + size];
      ChunkFacts(who, transferId, data);
      ok := QueueMessage(ChunkMessage(who, transferId, data));
      running := ok;
      if ok {
        sentSize := sentSize + size;
      }
    }

    /** pump_outgoing_file. */
    method PumpOutgoingFile() returns (ok: bool)
      requires Valid() && running && (fileOpen ==> 0 < transferId < UINT64_RANGE)
      modifies this, queue, queue.output
      ensures Valid() && View() == Pump(who, old(View())) && ok == View().running
    {
      hide OutputQueue.Valid, OutputQueue.Pending, Stream, IsSound, ChunkMessage, EndMessage, OutputQueue.PendingSize;
      var pending := queue.PendingSize();
      PendingIsRest(queue.sent, queue.Pending(), Stream(spoken));
      if !fileOpen || OUTPUT_CAPACITY - pending < PACKET_MAX_SIZE {
        return true;
      }
      if sentSize < |file| {
        ok := PumpChunk();
        return;
      }
      EndFacts(who, transferId);
      ok := QueueMessage(EndMessage(who, transferId));
      running := ok;
      if ok {
        finished := finished + [Sent(who.id, transferId, fileName, file)];
        fileOpen := false;
      }
    }

    /** flush_output. */
    method Flush(outcomes: seq<SendOutcome>) returns (ok: bool)
      requires Valid() && running
      modifies this`running, queue
      ensures Valid() && 0 <= PendingOf(old(View()))
      ensures View() == FlushOutput(old(View()), outcomes) && ok == View().running
    {
      hide OutputQueue.Valid, OutputQueue.Pending, Stream;
      PendingIsRest(queue.sent, queue.Pending(), Stream(spoken));
      ghost var sent, pending := queue.sent, queue.Pending();
      ok := queue.Flush(outcomes);
      FlushedStream(sent, pending, Flushing(outcomes, |pending|).0);
      running := ok;
    }

    /** The last LEAVE of a run and, if there is room for it, the last of the output. */
    method Leave(rounds: seq<seq<SendOutcome>>)
      requires Valid()
      modifies this`spoken, this`running, this`left, queue, queue.output
      ensures Valid() && 0 <= PendingOf(old(View()))
      ensures View() == LeaveAndDrain(who, old(View()), rounds)
    {
      hide OutputQueue.Valid, OutputQueue.Pending, Stream, IsSound, PlainMessage, FrameBytes, Draining;
      PendingIsRest(queue.sent, queue.Pending(), Stream(spoken));
      PlainFacts(who, LEAVE);
      var queued := QueueMessage(PlainMessage(who, LEAVE));
      running, left := false, true;
      if queued {
        PendingIsRest(queue.sent, queue.Pending(), Stream(spoken));
        ghost var sent, pending := queue.sent, queue.Pending();
        queue.Drain(rounds);
        FlushedStream(sent, pending, Draining(rounds, |pending|));
      }
    }
  }

  /** What a client does and draws is possible all along its run. */
  ghost predicate ArePossible(who: Identity, s: Sender, actions: seq<Action>)
    requires SenderIsOk(who, s)
    decreases |actions|
  {
    actions == [] ||
    (PerformKeeps(who, s, actions[0]);
     ActionIsPossible(s, actions[0]) && ArePossible(who, Perform(who, s, actions[0]), actions[1..]))
  }

  method PerformAction(sender: FileSender, action: Action)
    requires sender.Valid() && SenderIsOk(sender.who, sender.View()) && ActionIsPossible(sender.View(), action)
    modifies sender, sender.queue, sender.queue.output
    ensures sender.Valid() && SenderIsOk(sender.who, sender.View())
    ensures |sender.who.name| <= NAME_MAX && 0 <= PendingOf(old(sender.View()))
    ensures var s := old(sender.View());
            && (s.outgoing.Sharing? ==> s.outgoing.sent <= |s.outgoing.content|)
            && sender.View() == Perform(sender.who, s, action)
  {
    hide FileSender.Valid, SenderIsOk, Say, StartFile, Pump, FlushOutput, LeaveAndDrain, PendingOf;
    PerformKeeps(sender.who, sender.View(), action);
    OpenFileId(sender.who, sender.View());
    if sender.left || (!sender.running && !action.Quit?) {
      return;
    }
    match action
    case Type(text) => var ok := sender.HandleLine(text);
    case Share(transferId, name, content) => var ok := sender.StartOutgoingFile(transferId, name, content);
    case Turn => var ok := sender.PumpOutgoingFile();
    case CanSend(outcomes) => var ok := sender.Flush(outcomes);
    case Quit(rounds) => sender.Leave(rounds);
  }

  lemma OpenFileId(who: Identity, s: Sender)
    requires SenderIsOk(who, s)
    ensures s.outgoing.Sharing? ==> 0 < s.outgoing.transferId < UINT64_RANGE
  {
    hide AllSound, Stream, PhaseAfter, PacketsOf, FileMessages, ChunkMessages, BeginMessage;
  }

  /** A whole run of a client, from the JOIN it begins with. */
  method Execute(who: Identity, actions: seq<Action>) returns (sender: FileSender)
    requires IdentityIsValid(who) && SenderIsOk(who, StartSender(who)) && ArePossible(who, StartSender(who), actions)
    ensures sender.Valid() && sender.who == who && sender.View() == RunSender(who, StartSender(who), actions)
  {
    hide FileSender.Valid, SenderIsOk, Perform, ActionIsPossible, PlainMessage, IsSound, PendingOf, FrameBytes;
    sender := new FileSender(who);
    var ok := sender.Join();
    var i := 0;
    while i < |actions|
      invariant i <= |actions| && sender.Valid() && sender.who == who && SenderIsOk(who, sender.View())
      invariant fresh(sender) && fresh(sender.queue) && fresh(sender.queue.output)
      invariant ArePossible(who, sender.View(), actions[i..])
      invariant RunSender(who, sender.View(), actions[i..]) == RunSender(who, StartSender(who), actions)
    {
      assert actions[i..][0] == actions[i] && actions[i..][1..] == actions[i + 1..];
      PerformAction(sender, actions[i]);
      i := i + 1;
    }
  }

  lemma FlushedStream(sent: seq<byte>, pending: seq<byte>, n: nat)
    requires n <= |pending|
    ensures sent + pending[..n] + pending[n..] == sent + pending && |sent + pending[..n]| == |sent| + n
  {
  }

  lemma PendingIsRest(sent: seq<byte>, pending: seq<byte>, stream: seq<byte>)
    requires sent + pending == stream
    ensures |pending| == |stream| - |sent|
  {
  }
}
