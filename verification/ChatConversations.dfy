/** What the server's state machine means for those who talk and those who listen. */
module ChatConversations {
  import opened Bytes
  import opened Wrappers
  import opened ChatCodec
  import opened ChatFraming
  import opened ChatOutput
  import opened ChatRelay
  import opened ChatRelayRuns

  // ---------- an orderly conversation, without any state ----------

  predicate IsMark(m: Message) {
    m.kind == FILE_BEGIN || m.kind == FILE_END
  }

  /** Message j starts a transfer that nothing before message k ends or replaces. */
  predicate OpenAt(t: seq<Message>, j: nat, k: nat)
    requires k <= |t|
  {
    j < k && t[j].kind == FILE_BEGIN && NoMarks(t[j + 1..k])
  }

  predicate NoMarks(t: seq<Message>) {
    t == [] || (!IsMark(t[|t| - 1]) && NoMarks(t[..|t| - 1]))
  }

  function ChunkTotal(t: seq<Message>): nat {
    if t == [] then 0
    else
      var m := t[|t| - 1];
      ChunkTotal(t[..|t| - 1]) + if m.kind == FILE_CHUNK then m.fileDataSize else 0
  }

  predicate BelongsTo(t: seq<Message>, j: nat, k: nat)
    requires k < |t|
  {
    j < k && OpenAt(t, j, k) && t[j].transferId == t[k].transferId
  }

  /** A chunk or an end belongs to an open transfer and keeps to its declared size; a begin finds none open. */
  ghost predicate TransferInOrder(t: seq<Message>, k: nat)
    requires k < |t|
  {
    && (t[k].kind == FILE_BEGIN ==> forall j: nat :: !OpenAt(t, j, k))
    && (t[k].kind == FILE_CHUNK ==>
          exists j: nat :: BelongsTo(t, j, k) && ChunkTotal(t[j + 1..k]) + t[k].fileDataSize <= t[j].fileSize)
    && (t[k].kind == FILE_END ==> exists j: nat :: BelongsTo(t, j, k) && ChunkTotal(t[j + 1..k]) == t[j].fileSize)
  }

  /**
   It starts with JOIN and has no other; one sender id and name throughout; nothing follows a LEAVE;
   transfers are in order.
   */
  ghost predicate Conversation(t: seq<Message>) {
    && (t != [] ==> t[0].kind == JOIN)
    && (forall k :: 0 < k < |t| ==> t[k].kind != JOIN && t[k].senderId == t[0].senderId && NameOf(t[k]) == NameOf(t[0]))
    && (forall k :: 0 <= k < |t| - 1 ==> t[k].kind != LEAVE)
    && (forall k :: 0 <= k < |t| ==> TransferInOrder(t, k))
  }

  // ---------- it is exactly what the server lets through ----------

  ghost predicate TransferMeans(t: seq<Message>, transfer: Transfer) {
    match transfer
    case Idle => forall j: nat :: !OpenAt(t, j, |t|)
    case Sending(id, size, transferred) =>
      exists j: nat :: j < |t| && OpenAt(t, j, |t|) && t[j].transferId == id && t[j].fileSize == size
                       && ChunkTotal(t[j + 1..]) == transferred
  }

  ghost predicate PhaseMeans(t: seq<Message>, p: Phase) {
    match p
    case Absent => t == []
    case Present(id, name, transfer) =>
      t != [] && t[|t| - 1].kind != LEAVE && t[0].senderId == id && NameOf(t[0]) == name && TransferMeans(t, transfer)
    case Gone => t != [] && t[|t| - 1].kind == LEAVE
  }

  lemma OpenInPrefix(t: seq<Message>, m: Message, j: nat, k: nat)
    requires k <= |t|
    ensures OpenAt(t + [m], j, k) == OpenAt(t, j, k)
    ensures j < k ==> (t + [m])[j + 1..k] == t[j + 1..k] && (t + [m])[j] == t[j]
  {
    if j < k {
      assert (t + [m])[j + 1..k] == t[j + 1..k];
    }
  }

  lemma OrderOfPrefix(t: seq<Message>, m: Message, k: nat)
    requires k < |t|
    ensures TransferInOrder(t + [m], k) == TransferInOrder(t, k)
  {
    hide OpenAt, NoMarks, ChunkTotal;
    var u := t + [m];
    forall j: nat
      ensures OpenAt(u, j, k) == OpenAt(t, j, k) && BelongsTo(u, j, k) == BelongsTo(t, j, k)
      ensures j < k ==> u[j + 1..k] == t[j + 1..k] && u[j] == t[j]
    {
      OpenInPrefix(t, m, j, k);
    }
    assert u[k] == t[k];
  }

  lemma OpenAfter(t: seq<Message>, m: Message, j: nat)
    ensures OpenAt(t + [m], j, |t|) == OpenAt(t, j, |t|)
    ensures OpenAt(t + [m], j, |t| + 1) == (if IsMark(m) then j == |t| && m.kind == FILE_BEGIN else OpenAt(t, j, |t|) )
  {
    OpenInPrefix(t, m, j, |t|);
    if j < |t| {
      ChunksAfter(t, m, j);
      var u := t[j + 1..] + [m];
      assert u[..|u| - 1] == t[j + 1..|t|];
      assert (t + [m])[j + 1..|t| + 1] == u;
    }
  }

  lemma {:induction false} MarkFree(t: seq<Message>, x: nat)
    requires NoMarks(t) && x < |t|
    ensures !IsMark(t[x])
    decreases |t|
  {
    if x < |t| - 1 {
      MarkFree(t[..|t| - 1], x);
    }
  }

  lemma OneOpen(t: seq<Message>, i: nat, j: nat)
    requires OpenAt(t, i, |t|) && OpenAt(t, j, |t|)
    ensures i == j
  {
    assert t[i + 1..|t|] == t[i + 1..] && t[j + 1..|t|] == t[j + 1..];
    if i < j {
      MarkFree(t[i + 1..], j - i - 1);
    } else if j < i {
      MarkFree(t[j + 1..], i - j - 1);
    }
  }

  lemma ChunksAfter(t: seq<Message>, m: Message, j: nat)
    requires j < |t|
    ensures (t + [m])[j] == t[j]
    ensures (t + [m])[j + 1..|t|] == t[j + 1..] && (t + [m])[j + 1..] == t[j + 1..] + [m]
    ensures ChunkTotal((t + [m])[j + 1..]) ==
            ChunkTotal(t[j + 1..]) + if m.kind == FILE_CHUNK then m.fileDataSize else 0
  {
    var u := t[j + 1..] + [m];
    assert (t + [m])[j + 1..] == u && u[..|u| - 1] == t[j + 1..];
  }

  /** The server's check of a transfer message, in terms of the messages before it. */
  lemma CheckMeans(t: seq<Message>, transfer: Transfer, m: Message)
    requires TransferMeans(t, transfer)
    ensures CheckTransfer(transfer, m).Some? <==> TransferInOrder(t + [m], |t|)
    ensures CheckTransfer(transfer, m).Some? ==> TransferMeans(t + [m], CheckTransfer(transfer, m).value)
  {
    hide OpenAt, ChunkTotal;
    match transfer
    case Idle => CheckWhenIdle(t, m);
    case Sending(_, _, _) =>
      var j: nat :| j < |t| && OpenAt(t, j, |t|) && t[j].transferId == transfer.id && t[j].fileSize == transfer.size
                    && ChunkTotal(t[j + 1..]) == transfer.transferred;
      CheckWhenSending(t, transfer, m, j);
  }

  lemma CheckWhenIdle(t: seq<Message>, m: Message)
    requires TransferMeans(t, Idle)
    ensures CheckTransfer(Idle, m).Some? <==> TransferInOrder(t + [m], |t|)
    ensures CheckTransfer(Idle, m).Some? ==> TransferMeans(t + [m], CheckTransfer(Idle, m).value)
  {
    hide OpenAt, ChunkTotal;
    var u := t + [m];
    forall j: nat
      ensures OpenAt(u, j, |t|) == OpenAt(t, j, |t|)
      ensures OpenAt(u, j, |u|) == (if IsMark(m) then j == |t| && m.kind == FILE_BEGIN else OpenAt(t, j, |t|))
    {
      OpenAfter(t, m, j);
    }
    if m.kind == FILE_BEGIN {
      assert OpenAt(u, |t|, |u|) && u[|t|] == m && u[|t| + 1..] == [];
      NoChunks();
    }
  }

  lemma NoChunks()
    ensures ChunkTotal([]) == 0
  {
  }

  lemma CheckWhenSending(t: seq<Message>, transfer: Transfer, m: Message, j: nat)
    requires transfer.Sending? && OpenAt(t, j, |t|) && j < |t|
    requires transfer == Sending(t[j].transferId, t[j].fileSize, ChunkTotal(t[j + 1..]))
    ensures CheckTransfer(transfer, m).Some? <==> TransferInOrder(t + [m], |t|)
    ensures CheckTransfer(transfer, m).Some? ==> TransferMeans(t + [m], CheckTransfer(transfer, m).value)
  {
    hide OpenAt, ChunkTotal;
    var u := t + [m];
    ChunksAfter(t, m, j);
    forall i: nat
      ensures OpenAt(u, i, |t|) == (i == j)
      ensures OpenAt(u, i, |u|) == (if IsMark(m) then i == |t| && m.kind == FILE_BEGIN else i == j)
    {
      OpenAfter(t, m, i);
      if OpenAt(t, i, |t|) {
        OneOpen(t, i, j);
      }
    }
    assert BelongsTo(u, j, |t|) <==> t[j].transferId == m.transferId;
    assert forall i: nat :: BelongsTo(u, i, |t|) ==> i == j;
    assert u[|t|] == m && ChunkTotal(u[j + 1..|t|]) == transfer.transferred;
    assert m.kind == FILE_BEGIN ==> OpenAt(u, j, |t|);
  }

  /** The table lets a conversation through, message by message, exactly when it is an orderly one. */
  lemma {:induction false} AcceptedIffConversation(t: seq<Message>)
    ensures PhaseAfter(t).Some? <==> Conversation(t)
    ensures PhaseAfter(t).Some? ==> PhaseMeans(t, PhaseAfter(t).value)
    decreases |t|
  {
    hide OpenAt, BelongsTo, ChunkTotal, TransferInOrder, CheckTransfer, NameOf;
    if t == [] {
      NothingIsOpen();
    } else {
      var u, m := t[..|t| - 1], t[|t| - 1];
      assert t == u + [m];
      AcceptedIffConversation(u);
      forall k | 0 <= k < |u| ensures TransferInOrder(t, k) == TransferInOrder(u, k) {
        OrderOfPrefix(u, m, k);
      }
      if Conversation(t) {
        assert Conversation(u);
      }
      if PhaseAfter(u).Some? {
        match PhaseAfter(u).value
        case Absent => JoinIsInOrder(m);
        case Present(id, name, transfer) => CheckMeans(u, transfer, m);
        case Gone =>
      }
    }
  }

  lemma NothingIsOpen()
    ensures forall j: nat :: !OpenAt([], j, 0)
  {
  }

  lemma JoinIsInOrder(m: Message)
    ensures m.kind == JOIN ==> TransferInOrder([m], 0) && TransferMeans([m], Idle) && [] + [m] == [m]
  {
  }

  // ---------- every run ----------

  /** In every run, what is relayed on behalf of any connection is an orderly conversation. */
  lemma EveryConversation(events: seq<Event>, connection: nat)
    ensures Conversation(Trace(Run(Start(), events).log, connection))
  {
    hide Trace, PhaseAfter, Conversation, Run, SlotIsOk, IsSound;
    EveryRun(events);
    AcceptedIffConversation(Trace(Run(Start(), events).log, connection));
  }

  /**
   In every run, the bytes a client in the table has sent are the frames relayed on its behalf
   followed by less than one frame, and the bytes it was and will be sent are the whole frames of
   everybody else since it joined.
   */
  lemma EveryClient(events: seq<Event>, k: nat)
    requires IsOpen(Run(Start(), events), k)
    ensures var s := Run(Start(), events);
            var slot := s.slots[k];
            && slot.received == Stream(Trace(s.log, slot.connection)) + slot.input && |slot.input| < PACKET_MAX_SIZE
            && slot.sent + slot.pending ==
               (if slot.joined then Stream(Heard(s.log, slot.since, slot.connection)) else [])
            && |slot.pending| <= OUTPUT_CAPACITY
  {
    hide Trace, Heard, Stream, PhaseAfter, LogIsOk, Run;
    EveryRun(events);
  }

  /** Whenever a joined client's connection ends by its own doing, a LEAVE in its name is relayed last. */
  lemma {:induction false} DisconnectAnnounces(s: Relay, i: nat)
    requires Consistent(s) && IsOpen(s, i) && s.slots[i].joined
    ensures var c := s.slots[i].connection;
            Trace(Disconnect(s, i).log, c) == Trace(s.log, c) + [LeaveOf(s.slots[i])]
  {
    hide Trace, LogIsOk, SlotIsOk, IsSound, Broadcast, LeaveOf;
    SlotPhase(s, i);
    LeaveIsSound(s.slots[i], s.log, s.connections);
    LeaveIsEncodable(s.slots[i]);
    OwnSlotAfter(s, i, LeaveOf(s.slots[i]));
  }

  lemma LeaveIsEncodable(slot: Slot)
    requires slot.Open? && IsSound(LeaveOf(slot))
    ensures Encodable(LeaveOf(slot))
  {
  }

  /** How working through a joined client's input can end. */
  lemma {:induction false} ProcessEnds(s: Relay, i: nat, buffer: seq<byte>)
    requires IsOpen(s, i) && s.slots[i].joined && Consistent(s)
    ensures var t, c := Process(HandlerFor(i), s, buffer).state, s.slots[i].connection;
            && Consistent(t)
            && (if IsOpen(t, i) then t.slots[i].joined && t.slots[i].connection == c
                else PhaseAfter(Trace(t.log, c)) == Some(Gone))
    decreases |buffer|
  {
    hide Consistent, HandleMessage, Decode, FrameStatusOf, IsSound, Trace, PhaseAfter;
    StatusOfPrefix(buffer, []);
    if buffer != [] && FrameStatusOf(buffer).Complete? {
      var n := FrameStatusOf(buffer).size;
      if Decode(buffer[..n]).Some? {
        var m := Decode(buffer[..n]).value;
        DecodedIsSound(buffer[..n]);
        HandleKeeps(s, i, m);
        HandleEnds(s, i, m);
        var h := HandleMessage(s, i, m);
        assert HandlerFor(i)(s, m) == h;
        if h.ok {
          ProcessEnds(h.state, i, buffer[n..]);
        }
      }
    }
  }

  lemma HandleEnds(s: Relay, i: nat, m: Message)
    requires IsOpen(s, i) && s.slots[i].joined && Consistent(s)
    ensures var t, c := HandleMessage(s, i, m).state, s.slots[i].connection;
            if IsOpen(t, i) then t.slots[i].joined && t.slots[i].connection == c
            else PhaseAfter(Trace(t.log, c)) == Some(Gone)
  {
    hide Consistent, Trace, PhaseAfter, Deliver, StrnLen, FrameBytes;
    SlotPhase(s, i);
    var slot := s.slots[i];
    if IdentityMatches(slot, m) && m.kind == LEAVE {
      LeaveKeepsTransfer(slot.transfer, m);
      AcceptedIsNext(slot, m);
      OwnSlotAfter(WithSlot(s, i, slot.(transfer := slot.transfer)), i, m);
    }
  }

  lemma DisconnectEnds(s: Relay, i: nat)
    requires Consistent(s) && IsOpen(s, i) && s.slots[i].joined
    ensures !IsOpen(Disconnect(s, i), i)
    ensures PhaseAfter(Trace(Disconnect(s, i).log, s.slots[i].connection)) == Some(Gone)
  {
    hide Trace, PhaseAfter, LogIsOk, SlotIsOk, IsSound, Broadcast, LeaveOf, StrnLen, Next;
    SlotPhase(s, i);
    var slot := s.slots[i];
    LeaveIsSound(slot, s.log, s.connections);
    LeaveIsEncodable(slot);
    OwnSlotAfter(s, i, LeaveOf(slot));
    LeaveKeepsTransfer(slot.transfer, LeaveOf(slot));
    AcceptedIsNext(slot, LeaveOf(slot));
  }

  predicate Concerns(event: Event, i: nat) {
    !event.Connect? && event.i == i
  }

  /**
   When an event of a joined client's own connection ends it, be it a LEAVE, a refused frame, a failed
   send or a hang-up, the last thing relayed for it is one LEAVE.
   */
  lemma EndsWithLeave(s: Relay, event: Event, i: nat)
    requires Inv(s) && IsOpen(s, i) && s.slots[i].joined && Concerns(event, i)
    requires !IsOpen(Step(s, event), i)
    ensures PhaseAfter(Trace(Step(s, event).log, s.slots[i].connection)) == Some(Gone)
  {
    hide Trace, PhaseAfter, Consistent, Process, Disconnect, Flushing;
    InvForDisconnect(s, i);
    var slot := s.slots[i];
    match event
    case HangUp(_) => DisconnectEnds(s, i);
    case Writable(_, outcomes) =>
      var (n, ok) := Flushing(outcomes, |slot.pending|);
      FlushedKeeps(s, i, n);
      InvForDisconnect(WithSlot(s, i, Flushed(slot, n)), i);
      DisconnectEnds(WithSlot(s, i, Flushed(slot, n)), i);
    case Data(_, bytes) =>
      var u := WithSlot(s, i, Taken(slot, bytes));
      InputChangeKeeps(s, i, [], slot.received + bytes);
      ProcessEnds(u, i, slot.input + bytes);
      var t := Process(HandlerFor(i), u, slot.input + bytes).state;
      if IsOpen(t, i) {
        DisconnectEnds(t, i);
      } else {
        ClosedStays(t, i);
      }
  }

  lemma ClosedStays(s: Relay, i: nat)
    ensures !IsOpen(s, i) ==> Disconnect(s, i) == s && forall input :: WithInput(s, i, input) == s
  {
  }

  // ---------- the table relays what is orderly, and only that ----------

  /** A message is relayed exactly when it continues the sender's conversation; the sender stays unless it leaves. */
  lemma {:induction false} RelaysIffOrderly(s: Relay, i: nat, m: Message)
    requires Consistent(s) && IsOpen(s, i) && IsSound(m)
    ensures var c, h := s.slots[i].connection, HandleMessage(s, i, m);
            var orderly := Conversation(Trace(s.log, c) + [m]);
            && h.state.log == (if orderly then s.log + [Entry(c, m)] else s.log)
            && (h.ok <==> orderly && m.kind != LEAVE)
            && (!orderly ==> h.state == s)
  {
    hide Consistent, Conversation, Trace, PhaseAfter, Broadcast, CheckTransfer, StrnLen, IsSound, FrameBytes;
    var slot := s.slots[i];
    var t := Trace(s.log, slot.connection);
    SlotPhase(s, i);
    PhaseAppend(t, m);
    AcceptedIffConversation(t + [m]);
    if slot.joined && IdentityMatches(slot, m) && m.kind != JOIN {
      AcceptedIsNext(slot, m);
    }
  }

  // ---------- what one client's events mean for another ----------

  /** What is relayed and received for a connection that is not spoken for. */
  predicate Aside(s: Relay, t: Relay, connection: nat) {
    && |t.slots| == |s.slots| && t.connections >= s.connections
    && Trace(t.log, connection) == Trace(s.log, connection)
    && forall k :: 0 <= k < |s.slots| && t.slots[k].Open? && t.slots[k].connection == connection ==>
         && s.slots[k].Open? && s.slots[k].connection == connection
         && t.slots[k].input == s.slots[k].input && t.slots[k].received == s.slots[k].received
  }

  /** Place k does not hold the connection. */
  predicate HoldsAnother(s: Relay, k: nat, connection: nat) {
    IsOpen(s, k) ==> s.slots[k].connection != connection
  }

  lemma RelayedAside(s: Relay, i: nat, m: Message, c: nat)
    requires IsOpen(s, i) && s.slots[i].connection != c
    ensures Aside(s, Relayed(s, i, m), c)
  {
    hide Trace, FrameBytes;
    TraceAppend(s.log, Entry(s.slots[i].connection, m), c);
    assert Trace(s.log, c) + [] == Trace(s.log, c);
  }

  lemma HandleAside(s: Relay, i: nat, m: Message, c: nat)
    requires HoldsAnother(s, i, c)
    ensures Aside(s, HandleMessage(s, i, m).state, c) && HoldsAnother(HandleMessage(s, i, m).state, i, c)
  {
    hide Trace, Broadcast, CheckTransfer, StrnLen;
    if IsOpen(s, i) {
      var slot := s.slots[i];
      RelayedAside(WithSlot(s, i, Joining(s, slot, m)), i, m, c);
      if CheckTransfer(slot.transfer, m).Some? {
        RelayedAside(WithSlot(s, i, slot.(transfer := CheckTransfer(slot.transfer, m).value)), i, m, c);
      }
    }
  }

  lemma DisconnectAside(s: Relay, i: nat, c: nat)
    requires HoldsAnother(s, i, c)
    ensures Aside(s, Disconnect(s, i), c) && !IsOpen(Disconnect(s, i), i)
  {
    hide Trace, Broadcast, Encodable, LeaveOf;
    if IsOpen(s, i) {
      RelayedAside(s, i, LeaveOf(s.slots[i]), c);
    }
  }

  lemma AsideTrans(s: Relay, t: Relay, u: Relay, c: nat)
    requires Aside(s, t, c) && Aside(t, u, c)
    ensures Aside(s, u, c)
  {
    hide Trace;
  }

  lemma {:induction false} ProcessAside(s: Relay, i: nat, buffer: seq<byte>, c: nat)
    requires HoldsAnother(s, i, c)
    ensures var t := Process(HandlerFor(i), s, buffer).state;
            Aside(s, t, c) && HoldsAnother(t, i, c)
    decreases |buffer|
  {
    hide HandleMessage, Decode, FrameStatusOf, Trace;
    if buffer != [] && FrameStatusOf(buffer).Complete? {
      var n := FrameStatusOf(buffer).size;
      if Decode(buffer[..n]).Some? {
        var m := Decode(buffer[..n]).value;
        HandleAside(s, i, m, c);
        var h := HandleMessage(s, i, m);
        assert HandlerFor(i)(s, m) == h;
        if h.ok {
          ProcessAside(h.state, i, buffer[n..], c);
          AsideTrans(s, h.state, Process(HandlerFor(i), h.state, buffer[n..]).state, c);
        }
      }
    }
  }

  lemma ChangeAside(s: Relay, i: nat, slot: Slot, c: nat)
    requires IsOpen(s, i) && s.slots[i].connection != c && slot.Open? && slot.connection == s.slots[i].connection
    ensures Aside(s, WithSlot(s, i, slot), c) && HoldsAnother(WithSlot(s, i, slot), i, c)
  {
    hide Trace;
  }

  /** Nothing is relayed, received or lost for a connection by an event of another. */
  lemma StepAside(s: Relay, event: Event, c: nat)
    requires c < s.connections && (!event.Connect? ==> HoldsAnother(s, event.i, c))
    ensures Aside(s, Step(s, event), c)
  {
    hide Trace, Process, Disconnect, Flushing;
    match event
    case Connect =>
    case Data(i, bytes) =>
      if IsOpen(s, i) && bytes != [] {
        var u := WithSlot(s, i, Taken(s.slots[i], bytes));
        ChangeAside(s, i, Taken(s.slots[i], bytes), c);
        var p := Process(HandlerFor(i), u, s.slots[i].input + bytes);
        ProcessAside(u, i, s.slots[i].input + bytes, c);
        AsideTrans(s, u, p.state, c);
        DisconnectAside(p.state, i, c);
        AsideTrans(s, p.state, Disconnect(p.state, i), c);
      }
    case Writable(i, outcomes) =>
      if IsOpen(s, i) {
        var slot := Flushed(s.slots[i], Flushing(outcomes, |s.slots[i].pending|).0);
        ChangeAside(s, i, slot, c);
        DisconnectAside(WithSlot(s, i, slot), i, c);
        AsideTrans(s, WithSlot(s, i, slot), Disconnect(WithSlot(s, i, slot), i), c);
      }
    case HangUp(i) => DisconnectAside(s, i, c);
  }

  // ---------- connections that are over ----------

  /** A new connection takes the first free of the 64 places and has not joined; with none free, nothing changes. */
  lemma {:induction false} ConnectTakesAPlace(s: Relay)
    requires Inv(s)
    ensures |s.slots| == 64
    ensures (forall k :: 0 <= k < 64 ==> s.slots[k].Open?) ==> Step(s, Connect) == s
    ensures forall i :: 0 <= i < 64 && s.slots[i].Free? && (forall k :: 0 <= k < i ==> s.slots[k].Open?) ==>
              var t := Step(s, Connect);
              && t.log == s.log && t.connections == s.connections + 1 && |t.slots| == 64
              && (forall k :: 0 <= k < 64 && k != i ==> t.slots[k] == s.slots[k])
              && t.slots[i].Open? && t.slots[i].connection == s.connections && !t.slots[i].joined
              && t.slots[i].input == t.slots[i].pending == t.slots[i].received == t.slots[i].sent == []
  {
    hide LogIsOk, SlotIsOk, InputIsOk, FirstFree;
    var first := FirstFree(s.slots);
  }

  /** A client keeps its place through its bytes exactly as long as each frame in them is accepted and no LEAVE. */
  lemma StaysIffAccepted(s: Relay, i: nat, bytes: seq<byte>)
    requires IsOpen(s, i) && bytes != []
    ensures IsOpen(Step(s, Data(i, bytes)), i) <==>
            Process(HandlerFor(i), WithSlot(s, i, Taken(s.slots[i], bytes)), s.slots[i].input + bytes).Waiting?
  {
    hide Process, Announced;
    var u := WithSlot(s, i, Taken(s.slots[i], bytes));
    ProcessKeepsPlace(u, i, s.slots[i].input + bytes);
    var p := Process(HandlerFor(i), u, s.slots[i].input + bytes);
    if p.Broken? && IsOpen(p.state, i) {
      AnnouncedSize(p.state, i);
    }
  }

  lemma AnnouncedSize(s: Relay, i: nat)
    requires IsOpen(s, i)
    ensures |Announced(s, i).slots| == |s.slots|
  {
  }

  lemma {:induction false} ProcessKeepsPlace(s: Relay, i: nat, buffer: seq<byte>)
    requires IsOpen(s, i)
    ensures var p := Process(HandlerFor(i), s, buffer); p.Waiting? ==> IsOpen(p.state, i)
    decreases |buffer|
  {
    hide HandleMessage, Decode, FrameStatusOf;
    StatusOfPrefix(buffer, []);
    if buffer != [] && FrameStatusOf(buffer).Complete? {
      var n := FrameStatusOf(buffer).size;
      if Decode(buffer[..n]).Some? {
        var m := Decode(buffer[..n]).value;
        HandleKeepsPlace(s, i, m);
        var h := HandleMessage(s, i, m);
        assert HandlerFor(i)(s, m) == h;
        if h.ok {
          ProcessKeepsPlace(h.state, i, buffer[n..]);
        }
      }
    }
  }

  lemma HandleKeepsPlace(s: Relay, i: nat, m: Message)
    requires IsOpen(s, i)
    ensures HandleMessage(s, i, m).ok ==> IsOpen(HandleMessage(s, i, m).state, i)
  {
    hide CheckTransfer, StrnLen, FrameBytes, Deliver;
  }

  /** A writable client is given what its socket takes, in order, and loses its place exactly when sending fails. */
  lemma WritableMeans(s: Relay, i: nat, outcomes: seq<SendOutcome>)
    requires IsOpen(s, i)
    ensures var t, slot := Step(s, Writable(i, outcomes)), s.slots[i];
            var (n, ok) := Flushing(outcomes, |slot.pending|);
            && (IsOpen(t, i) <==> ok)
            && (ok ==>
                  t == s.(slots := s.slots[i := slot.(sent := slot.sent + slot.pending[..n], pending := slot.pending[n..])]))
  {
    hide Flushing, Announced;
    var slot := s.slots[i];
    var (n, ok) := Flushing(outcomes, |slot.pending|);
    if !ok {
      AnnouncedSize(WithSlot(s, i, Flushed(slot, n)), i);
    }
  }

  /** A client that hangs up loses its place. */
  lemma HangUpMeans(s: Relay, i: nat)
    ensures !IsOpen(Step(s, HangUp(i)), i)
  {
    hide Announced;
    if IsOpen(s, i) {
      AnnouncedSize(s, i);
    }
  }

  predicate IsOver(s: Relay, connection: nat) {
    && connection < s.connections
    && forall k :: 0 <= k < |s.slots| && s.slots[k].Open? ==> s.slots[k].connection != connection
  }

  /** Once a connection is out of the table nothing is ever relayed in its name again. */
  lemma {:induction false} OverIsForGood(s: Relay, events: seq<Event>, c: nat)
    requires IsOver(s, c)
    ensures IsOver(Run(s, events), c) && Trace(Run(s, events).log, c) == Trace(s.log, c)
    decreases |events|
  {
    hide Trace, Step;
    if events != [] {
      StepAside(s, events[0], c);
      OverIsForGood(Step(s, events[0]), events[1..], c);
    }
  }

  lemma OthersHoldAnother(s: Relay, i: nat, k: nat)
    requires Inv(s) && IsOpen(s, k) && i != k
    ensures HoldsAnother(s, i, s.slots[k].connection)
  {
    hide SlotIsOk, LogIsOk, InputIsOk;
  }

  /** What the events of others leave of a client that they put out of the table. */
  lemma OthersAside(s: Relay, event: Event, k: nat)
    requires Inv(s) && IsOpen(s, k) && !Concerns(event, k)
    ensures var t, c := Step(s, event), s.slots[k].connection;
            && Aside(s, t, c) && (!IsOpen(t, k) ==> IsOver(t, c))
  {
    hide Trace, Step, Inv;
    InvForDisconnect(s, k);
    SlotPhase(s, k);
    var c, t := s.slots[k].connection, Step(s, event);
    if !event.Connect? {
      OthersHoldAnother(s, event.i, k);
    }
    StepAside(s, event, c);
    forall j | 0 <= j < |t.slots| && t.slots[j].Open? && !IsOpen(t, k) ensures t.slots[j].connection != c {
      if j != k {
        OthersHoldAnother(s, j, k);
      }
    }
  }

  lemma SilentSoFar(t: seq<Message>)
    requires PhaseAfter(t).Some? && PhaseAfter(t).value.Present?
    ensures forall x :: 0 <= x < |t| ==> t[x].kind != LEAVE
  {
    AcceptedIffConversation(t);
  }

  /** A joined client that a step puts out of the table is announced if and only if the event was its own. */
  lemma {:induction false} AnnouncedIffOwnDoing(s: Relay, event: Event, k: nat)
    requires Inv(s) && IsOpen(s, k) && s.slots[k].joined && !IsOpen(Step(s, event), k)
    ensures PhaseAfter(Trace(Step(s, event).log, s.slots[k].connection)) == Some(Gone) <==> Concerns(event, k)
  {
    hide Trace, PhaseAfter, Step, Inv;
    if Concerns(event, k) {
      EndsWithLeave(s, event, k);
    } else {
      OthersAside(s, event, k);
      InvForDisconnect(s, k);
      SlotPhase(s, k);
    }
  }

  /** Otherwise it is for want of room, and no LEAVE is relayed for it, then or in any later run. */
  lemma {:induction false} OverflowIsSilent(s: Relay, event: Event, k: nat, events: seq<Event>)
    requires Inv(s) && IsOpen(s, k) && s.slots[k].joined && !IsOpen(Step(s, event), k) && !Concerns(event, k)
    ensures var t := Trace(Run(Step(s, event), events).log, s.slots[k].connection);
            forall x :: 0 <= x < |t| ==> t[x].kind != LEAVE
  {
    hide Trace, PhaseAfter, Step, Run, Inv;
    OthersAside(s, event, k);
    InvForDisconnect(s, k);
    SlotPhase(s, k);
    SilentSoFar(Trace(s.log, s.slots[k].connection));
    OverIsForGood(Step(s, event), events, s.slots[k].connection);
  }

  // ---------- exactly when there is no room ----------

  /**
   What a joined client at place k holds after others' messages were added to the log: all their
   frames, if they fit together, and otherwise no place.
   */
  predicate Follows(s: Relay, t: Relay, k: nat)
    requires IsOpen(s, k)
  {
    && |t.slots| == |s.slots| && s.log <= t.log
    && var slot, more := s.slots[k], Stream(Heard(t.log, |s.log|, s.slots[k].connection));
       t.slots[k] == if |slot.pending| + |more| <= OUTPUT_CAPACITY then slot.(pending := slot.pending + more) else Free
  }

  lemma FollowsItself(s: Relay, k: nat)
    requires IsOpen(s, k) && |s.slots[k].pending| <= OUTPUT_CAPACITY
    ensures Follows(s, s, k)
  {
    assert s.slots[k].pending + [] == s.slots[k].pending;
  }

  lemma RelayedFollows(s: Relay, t: Relay, i: nat, m: Message, k: nat)
    requires IsOpen(s, k) && s.slots[k].joined && Follows(s, t, k)
    requires IsOpen(t, i) && i != k && t.slots[i].connection != s.slots[k].connection
    ensures Follows(s, Relayed(t, i, m), k)
  {
    hide Heard, Stream, FrameBytes;
    var c, pending := s.slots[k].connection, s.slots[k].pending;
    HeardAppend(t.log, Entry(t.slots[i].connection, m), |s.log|, c);
    var before := Heard(t.log, |s.log|, c);
    StreamAppend(before, m);
    assert pending + Stream(before) + FrameBytes(m) == pending + (Stream(before) + FrameBytes(m));
  }

  lemma HandleFollows(s: Relay, t: Relay, i: nat, m: Message, k: nat)
    requires IsOpen(s, k) && s.slots[k].joined && Follows(s, t, k) && i != k
    requires HoldsAnother(t, i, s.slots[k].connection)
    ensures Follows(s, HandleMessage(t, i, m).state, k)
  {
    hide Heard, Stream, FrameBytes, Broadcast, CheckTransfer, StrnLen;
    if IsOpen(t, i) {
      var slot := t.slots[i];
      RelayedFollows(s, WithSlot(t, i, Joining(t, slot, m)), i, m, k);
      if CheckTransfer(slot.transfer, m).Some? {
        RelayedFollows(s, WithSlot(t, i, slot.(transfer := CheckTransfer(slot.transfer, m).value)), i, m, k);
      }
    }
  }

  lemma DisconnectFollows(s: Relay, t: Relay, i: nat, k: nat)
    requires IsOpen(s, k) && s.slots[k].joined && Follows(s, t, k) && i != k
    requires HoldsAnother(t, i, s.slots[k].connection)
    ensures Follows(s, Disconnect(t, i), k)
  {
    hide Heard, Stream, Encodable, LeaveOf, Broadcast;
    if IsOpen(t, i) {
      RelayedFollows(s, t, i, LeaveOf(t.slots[i]), k);
    }
  }

  lemma {:induction false} ProcessFollows(s: Relay, t: Relay, i: nat, buffer: seq<byte>, k: nat)
    requires IsOpen(s, k) && s.slots[k].joined && Follows(s, t, k) && i != k
    requires HoldsAnother(t, i, s.slots[k].connection)
    ensures var u := Process(HandlerFor(i), t, buffer).state;
            Follows(s, u, k) && HoldsAnother(u, i, s.slots[k].connection)
    decreases |buffer|
  {
    hide HandleMessage, Decode, FrameStatusOf, Follows, HoldsAnother;
    if buffer != [] && FrameStatusOf(buffer).Complete? {
      var n := FrameStatusOf(buffer).size;
      if Decode(buffer[..n]).Some? {
        var m := Decode(buffer[..n]).value;
        HandleAside(t, i, m, s.slots[k].connection);
        HandleFollows(s, t, i, m, k);
        var h := HandleMessage(t, i, m);
        assert HandlerFor(i)(t, m) == h;
        if h.ok {
          ProcessFollows(s, h.state, i, buffer[n..], k);
        }
      }
    }
  }

  lemma ChangeFollows(s: Relay, t: Relay, i: nat, slot: Slot, k: nat)
    requires IsOpen(s, k) && Follows(s, t, k) && i != k && i < |t.slots|
    ensures Follows(s, WithSlot(t, i, slot), k)
  {
    hide Heard, Stream;
  }

  /**
   By an event of others, a joined client is given all the frames relayed in it, whole and in order,
   and loses its place if and only if together they do not fit.
   */
  lemma OthersFollow(s: Relay, event: Event, k: nat)
    requires Inv(s) && IsOpen(s, k) && s.slots[k].joined && !Concerns(event, k)
    ensures Follows(s, Step(s, event), k)
  {
    hide Inv, Follows, Process, Disconnect, Flushing, HoldsAnother;
    InvForDisconnect(s, k);
    PendingFits(s, k);
    FollowsItself(s, k);
    var c := s.slots[k].connection;
    if !event.Connect? {
      OthersHoldAnother(s, event.i, k);
    }
    match event
    case Connect => AcceptFollows(s, k);
    case Data(i, bytes) =>
      if IsOpen(s, i) && bytes != [] {
        var u := WithSlot(s, i, Taken(s.slots[i], bytes));
        ChangeFollows(s, s, i, Taken(s.slots[i], bytes), k);
        ChangeHoldsAnother(s, i, Taken(s.slots[i], bytes), c);
        var p := Process(HandlerFor(i), u, s.slots[i].input + bytes);
        ProcessFollows(s, u, i, s.slots[i].input + bytes, k);
        DisconnectFollows(s, p.state, i, k);
        if p.Waiting? && IsOpen(p.state, i) {
          ChangeFollows(s, p.state, i, p.state.slots[i].(input := p.rest), k);
        }
      }
    case Writable(i, outcomes) =>
      if IsOpen(s, i) {
        var slot := Flushed(s.slots[i], Flushing(outcomes, |s.slots[i].pending|).0);
        ChangeFollows(s, s, i, slot, k);
        ChangeHoldsAnother(s, i, slot, c);
        DisconnectFollows(s, WithSlot(s, i, slot), i, k);
      }
    case HangUp(i) => DisconnectFollows(s, s, i, k);
  }

  lemma PendingFits(s: Relay, k: nat)
    requires Inv(s) && IsOpen(s, k)
    ensures |s.slots[k].pending| <= OUTPUT_CAPACITY
  {
    hide LogIsOk, InputIsOk, Trace, Heard, PhaseAfter, StrnLen, Stream;
  }

  lemma ChangeHoldsAnother(s: Relay, i: nat, slot: Slot, c: nat)
    requires IsOpen(s, i) && HoldsAnother(s, i, c) && slot.Open? && slot.connection == s.slots[i].connection
    ensures HoldsAnother(WithSlot(s, i, slot), i, c)
  {
  }

  lemma AcceptFollows(s: Relay, k: nat)
    requires IsOpen(s, k) && Follows(s, s, k)
    ensures Follows(s, Accept(s), k)
  {
    hide Heard, Stream;
  }
}
