/** What holds in every run of the chat server. */
module ChatRelayRuns {
  import opened Bytes
  import opened Wrappers
  import opened ChatCodec
  import opened ChatFraming
  import opened ChatOutput
  import opened ChatRelay

  // ---------- the invariant ----------

  function PhaseOf(slot: Slot): Phase
    requires slot.Open?
  {
    if slot.joined then Present(slot.senderId, CString(slot.senderName), slot.transfer) else Absent
  }

  predicate TransferIsOk(t: Transfer) {
    t.Sending? ==> t.id != 0 && t.transferred <= t.size < UINT64_RANGE
  }

  predicate IdentityIsOk(slot: Slot)
    requires slot.Open?
  {
    && 0 < slot.senderId < UINT64_RANGE && |slot.senderName| == NAME_MAX + 1
    && 1 <= |CString(slot.senderName)| <= NAME_MAX
    && slot.senderName == Padded(CString(slot.senderName), NAME_MAX + 1)
  }

  /** Everything about a client in the table but its input. */
  predicate SlotIsOk(log: seq<Entry>, connections: nat, slot: Slot)
    requires slot.Open?
  {
    && slot.connection < connections && slot.since <= |log|
    && PhaseAfter(Trace(log, slot.connection)) == Some(PhaseOf(slot))
    && (slot.joined ==> IdentityIsOk(slot)) && (!slot.joined ==> slot.transfer.Idle?) && TransferIsOk(slot.transfer)
    && |slot.pending| <= OUTPUT_CAPACITY
    && slot.sent + slot.pending == if slot.joined then Stream(Heard(log, slot.since, slot.connection)) else []
  }

  /** Every byte received was either part of a frame that was relayed or is still waiting. */
  predicate InputIsOk(log: seq<Entry>, slot: Slot)
    requires slot.Open?
  {
    && slot.received == Stream(Trace(log, slot.connection)) + slot.input
    && FrameStatusOf(slot.input).Incomplete? && |slot.input| < PACKET_MAX_SIZE
  }

  ghost predicate LogIsOk(log: seq<Entry>, connections: nat) {
    && (forall k :: 0 <= k < |log| ==> log[k].connection < connections && IsSound(log[k].message))
    && (forall c: nat :: PhaseAfter(Trace(log, c)).Some?)
  }

  predicate Distinct(slots: seq<Slot>) {
    forall j, k :: 0 <= j < k < |slots| && slots[j].Open? && slots[k].Open? ==> slots[j].connection != slots[k].connection
  }

  /** Everything but the inputs. */
  ghost predicate Consistent(s: Relay) {
    && |s.slots| == MAX_CLIENTS && LogIsOk(s.log, s.connections) && Distinct(s.slots)
    && (forall k :: 0 <= k < |s.slots| && s.slots[k].Open? ==> SlotIsOk(s.log, s.connections, s.slots[k]))
  }

  predicate InputsAreOk(s: Relay, except: nat) {
    forall k :: 0 <= k < |s.slots| && k != except && s.slots[k].Open? ==> InputIsOk(s.log, s.slots[k])
  }

  ghost predicate Inv(s: Relay) {
    Consistent(s) && InputsAreOk(s, MAX_CLIENTS)
  }

  // ---------- the effect of one more entry ----------

  lemma TraceAppend(log: seq<Entry>, e: Entry, c: nat)
    ensures Trace(log + [e], c) == Trace(log, c) + if e.connection == c then [e.message] else []
  {
    assert (log + [e])[..|log|] == log;
  }

  lemma HeardAppend(log: seq<Entry>, e: Entry, since: nat, c: nat)
    requires since <= |log|
    ensures Heard(log + [e], since, c) == Heard(log, since, c) + if e.connection == c then [] else [e.message]
  {
    assert (log + [e])[..|log|] == log;
  }

  lemma StreamAppend(t: seq<Message>, m: Message)
    ensures Stream(t + [m]) == Stream(t) + FrameBytes(m)
  {
    assert (t + [m])[..|t|] == t;
  }

  lemma PhaseAppend(t: seq<Message>, m: Message)
    ensures PhaseAfter(t + [m]) == match PhaseAfter(t) case None => None case Some(p) => Next(p, m)
  {
    assert (t + [m])[..|t|] == t;
  }

  lemma DeliverKeepsSlot(log: seq<Entry>, connections: nat, slot: Slot, e: Entry)
    requires slot.Open? && SlotIsOk(log, connections, slot) && e.connection != slot.connection
    ensures var r := Deliver(slot, FrameBytes(e.message));
            r.Open? ==> && SlotIsOk(log + [e], connections, r) && r.connection == slot.connection
                        && r.input == slot.input && r.received == slot.received
    ensures Trace(log + [e], slot.connection) == Trace(log, slot.connection)
  {
    hide Trace, Heard, Stream, FrameBytes, PhaseAfter, TransferIsOk, StrnLen, Padded;
    TraceAppend(log, e, slot.connection);
    HeardAppend(log, e, slot.since, slot.connection);
    StreamAppend(Heard(log, slot.since, slot.connection), e.message);
    assert slot.sent + (slot.pending + FrameBytes(e.message)) == slot.sent + slot.pending + FrameBytes(e.message);
    assert Trace(log, slot.connection) + [] == Trace(log, slot.connection);
  }

  /** What a broadcast leaves of everybody else. */
  predicate OthersKept(s: Relay, t: Relay, i: nat) {
    && |t.slots| == |s.slots| && t.connections == s.connections
    && forall k :: 0 <= k < |s.slots| && k != i && t.slots[k].Open? ==>
         && s.slots[k].Open? && t.slots[k].connection == s.slots[k].connection
         && t.slots[k].input == s.slots[k].input && t.slots[k].received == s.slots[k].received
         && Trace(t.log, t.slots[k].connection) == Trace(s.log, t.slots[k].connection)
  }

  /** Consistent, leaving out what is said of one slot. */
  ghost predicate ConsistentBut(s: Relay, i: nat) {
    && |s.slots| == MAX_CLIENTS && LogIsOk(s.log, s.connections) && Distinct(s.slots)
    && (forall k :: 0 <= k < |s.slots| && k != i && s.slots[k].Open? ==> SlotIsOk(s.log, s.connections, s.slots[k]))
  }

  lemma RelayKeepsLog(s: Relay, i: nat, m: Message)
    requires IsOpen(s, i) && LogIsOk(s.log, s.connections) && IsSound(m) && s.slots[i].connection < s.connections
    requires PhaseAfter(Trace(s.log, s.slots[i].connection) + [m]).Some?
    ensures LogIsOk(Relayed(s, i, m).log, s.connections)
  {
    hide Trace, PhaseAfter, Broadcast, IsSound;
    var e := Entry(s.slots[i].connection, m);
    forall c: nat ensures PhaseAfter(Trace(s.log + [e], c)).Some? {
      TraceAppend(s.log, e, c);
      assert Trace(s.log, c) + [] == Trace(s.log, c);
    }
  }

  lemma RelayKeepsOthers(s: Relay, i: nat, m: Message)
    requires IsOpen(s, i) && ConsistentBut(s, i) && IsSound(m) && s.slots[i].connection < s.connections
    requires PhaseAfter(Trace(s.log, s.slots[i].connection) + [m]).Some?
    ensures var t := Relayed(s, i, m);
            && ConsistentBut(t, i) && OthersKept(s, t, i) && t.slots[i] == s.slots[i]
  {
    hide Trace, PhaseAfter, SlotIsOk, LogIsOk, FrameBytes, IsSound;
    var e, t := Entry(s.slots[i].connection, m), Relayed(s, i, m);
    RelayKeepsLog(s, i, m);
    forall k | 0 <= k < |s.slots| && k != i && s.slots[k].Open?
      ensures t.slots[k].Open? ==> && SlotIsOk(t.log, t.connections, t.slots[k])
                                   && t.slots[k].connection == s.slots[k].connection
                                   && t.slots[k].input == s.slots[k].input
                                   && t.slots[k].received == s.slots[k].received
      ensures Trace(t.log, s.slots[k].connection) == Trace(s.log, s.slots[k].connection)
    {
      DeliverKeepsSlot(s.log, s.connections, s.slots[k], e);
    }
  }

  // ---------- handling a message ----------

  /** The sender's own slot after its message was relayed. */
  lemma OwnSlotAfter(s: Relay, i: nat, m: Message)
    requires IsOpen(s, i)
    ensures var t, c := Relayed(s, i, m), s.slots[i].connection;
            && Trace(t.log, c) == Trace(s.log, c) + [m]
            && PhaseAfter(Trace(t.log, c)) ==
               (match PhaseAfter(Trace(s.log, c)) case None => None case Some(p) => Next(p, m))
            && Stream(Trace(t.log, c)) == Stream(Trace(s.log, c)) + FrameBytes(m)
            && (s.slots[i].since <= |s.log| ==> Heard(t.log, s.slots[i].since, c) == Heard(s.log, s.slots[i].since, c))
  {
    hide Trace, Heard, Stream, PhaseAfter, Next, FrameBytes;
    var c := s.slots[i].connection;
    var e := Entry(c, m);
    TraceAppend(s.log, e, c);
    PhaseAppend(Trace(s.log, c), m);
    StreamAppend(Trace(s.log, c), m);
    if s.slots[i].since <= |s.log| {
      HeardAppend(s.log, e, s.slots[i].since, c);
    }
  }

  /** What handling a message says of its sender, if it stays. */
  predicate SenderMovedOn(s: Relay, t: Relay, i: nat, m: Message)
    requires IsOpen(s, i)
  {
    && IsOpen(t, i) && t.slots[i].connection == s.slots[i].connection
    && t.slots[i].input == s.slots[i].input && t.slots[i].received == s.slots[i].received
    && Trace(t.log, t.slots[i].connection) == Trace(s.log, s.slots[i].connection) + [m]
  }

  lemma SoundIdentity(m: Message)
    requires IsSound(m)
    ensures 0 < m.senderId < UINT64_RANGE && |m.senderName| == NAME_MAX + 1 && 1 <= |NameOf(m)| <= NAME_MAX
    ensures m.senderName == Padded(NameOf(m), NAME_MAX + 1) && CString(m.senderName) == NameOf(m)
  {
    hide ContentOf, StrnLen, Padded;
    assert Canonical(m).senderName == Padded(NameOf(m), NAME_MAX + 1);
  }

  lemma JoinKeeps(s: Relay, i: nat, m: Message)
    requires IsOpen(s, i) && !s.slots[i].joined && Consistent(s) && IsSound(m) && m.kind == JOIN
    ensures var t := HandleMessage(s, i, m).state;
            Consistent(t) && OthersKept(s, t, i) && SenderMovedOn(s, t, i, m)
  {
    hide Trace, Heard, PhaseAfter, LogIsOk, IsSound, FrameBytes, StrnLen, IdentityIsOk, Broadcast, Stream;
    var slot := s.slots[i];
    var u := WithSlot(s, i, Joining(s, slot, m));
    PhaseAppend(Trace(s.log, slot.connection), m);
    OthersUntouched(s, u, i);
    RelayKeepsOthers(u, i, m);
    OwnSlotAfter(u, i, m);
    SoundIdentity(m);
    IdentityOfSound(m, u.slots[i]);
    HeardNothing(s.log, slot.connection);
    BackTogether(Relayed(u, i, m), i);
  }

  lemma IdentityOfSound(m: Message, slot: Slot)
    requires IsSound(m) && slot.Open? && slot.senderId == m.senderId && slot.senderName == m.senderName
    ensures IdentityIsOk(slot)
  {
    SoundIdentity(m);
  }

  lemma HeardNothing(log: seq<Entry>, c: nat)
    ensures Heard(log, |log|, c) == [] && Stream(Heard(log, |log|, c)) == []
  {
  }

  lemma OthersUntouched(s: Relay, u: Relay, i: nat)
    requires i < |s.slots| && Consistent(s) && s.slots[i].Open?
    requires |u.slots| == |s.slots| && u == WithSlot(s, i, u.slots[i])
    requires u.slots[i].Open? && u.slots[i].connection == s.slots[i].connection
    ensures ConsistentBut(u, i) && OthersKept(s, u, i)
  {
    hide SlotIsOk, LogIsOk, Trace;
  }

  lemma BackTogether(s: Relay, i: nat)
    requires ConsistentBut(s, i) && i < |s.slots|
    requires s.slots[i].Open? ==> SlotIsOk(s.log, s.connections, s.slots[i])
    ensures Consistent(s)
  {
    hide SlotIsOk, LogIsOk;
  }

  /** A message that the client's own slot allows is one that its conversation allows. */
  lemma AcceptedIsNext(slot: Slot, m: Message)
    requires slot.Open? && slot.joined && IdentityMatches(slot, m) && m.kind != JOIN
    ensures Next(PhaseOf(slot), m) ==
            match CheckTransfer(slot.transfer, m)
            case None => None
            case Some(t) => if m.kind == LEAVE then Some(Gone) else Some(PhaseOf(slot.(transfer := t)))
  {
  }

  lemma CheckedTransferIsOk(t: Transfer, m: Message)
    requires TransferIsOk(t) && IsSound(m) && CheckTransfer(t, m).Some?
    ensures TransferIsOk(CheckTransfer(t, m).value)
  {
    hide ContentOf, NameOf, Canonical;
  }

  lemma TalkKeeps(s: Relay, i: nat, m: Message)
    requires IsOpen(s, i) && s.slots[i].joined && Consistent(s) && IsSound(m) && m.kind != JOIN && m.kind != LEAVE
    requires IdentityMatches(s.slots[i], m) && CheckTransfer(s.slots[i].transfer, m).Some?
    ensures var t := HandleMessage(s, i, m).state;
            Consistent(t) && OthersKept(s, t, i) && SenderMovedOn(s, t, i, m)
  {
    hide Trace, Heard, PhaseAfter, LogIsOk, IsSound, FrameBytes, StrnLen, Broadcast, Stream, CheckTransfer, TransferIsOk,
         Next;
    var slot := s.slots[i];
    var u := WithSlot(s, i, slot.(transfer := CheckTransfer(slot.transfer, m).value));
    PhaseAppend(Trace(s.log, slot.connection), m);
    AcceptedIsNext(slot, m);
    CheckedTransferIsOk(slot.transfer, m);
    OthersUntouched(s, u, i);
    RelayKeepsOthers(u, i, m);
    OwnSlotAfter(u, i, m);
    BackTogether(Relayed(u, i, m), i);
  }

  /** A departing message, relayed or made up, and the closing of the connection. */
  lemma DepartKeeps(s: Relay, i: nat, m: Message)
    requires IsOpen(s, i) && s.slots[i].joined && Consistent(s) && IsSound(m) && m.kind == LEAVE
    requires IdentityMatches(s.slots[i], m)
    ensures var t := WithSlot(Relayed(s, i, m), i, Free);
            Consistent(t) && OthersKept(s, t, i) && !IsOpen(t, i)
  {
    hide Trace, Heard, PhaseAfter, LogIsOk, IsSound, FrameBytes, StrnLen, Relayed, Stream, Next, SlotIsOk;
    var slot := s.slots[i];
    assert PhaseAfter(Trace(s.log, slot.connection)) == Some(PhaseOf(slot)) && slot.connection < s.connections by {
      SlotPhase(s, i);
    }
    PhaseAppend(Trace(s.log, slot.connection), m);
    AcceptedIsNext(slot, m);
    OthersUntouched(s, s, i);
    RelayKeepsOthers(s, i, m);
    FreeingKeeps(Relayed(s, i, m), i);
  }

  lemma SlotPhase(s: Relay, i: nat)
    requires IsOpen(s, i) && Consistent(s)
    ensures SlotIsOk(s.log, s.connections, s.slots[i])
    ensures PhaseAfter(Trace(s.log, s.slots[i].connection)) == Some(PhaseOf(s.slots[i]))
    ensures s.slots[i].connection < s.connections
  {
  }

  lemma FreeingKeeps(s: Relay, i: nat)
    requires i < |s.slots| && ConsistentBut(s, i)
    ensures Consistent(WithSlot(s, i, Free)) && OthersKept(s, WithSlot(s, i, Free), i)
  {
    hide SlotIsOk, LogIsOk, Trace;
  }

  lemma {:induction false} HandleKeeps(s: Relay, i: nat, m: Message)
    requires IsOpen(s, i) && Consistent(s) && IsSound(m)
    ensures var h := HandleMessage(s, i, m);
            && Consistent(h.state) && OthersKept(s, h.state, i)
            && (if h.ok then SenderMovedOn(s, h.state, i, m) else h.state == s || !IsOpen(h.state, i))
  {
    hide Consistent, IsSound, Relayed, CheckTransfer, StrnLen, Trace, PhaseAfter;
    var slot := s.slots[i];
    ToBut(s, i);
    if !slot.joined {
      if m.kind == JOIN {
        JoinKeeps(s, i, m);
      }
    } else if IdentityMatches(slot, m) && m.kind != JOIN && CheckTransfer(slot.transfer, m).Some? {
      if m.kind == LEAVE {
        LeaveKeepsTransfer(slot.transfer, m);
        assert WithSlot(s, i, slot.(transfer := slot.transfer)) == s;
        DepartKeeps(s, i, m);
      } else {
        TalkKeeps(s, i, m);
      }
    }
  }

  lemma LeaveKeepsTransfer(t: Transfer, m: Message)
    requires m.kind == LEAVE
    ensures CheckTransfer(t, m) == Some(t)
  {
  }

  lemma {:induction false} DisconnectKeeps(s: Relay, i: nat)
    requires Consistent(s)
    ensures Consistent(Disconnect(s, i)) && OthersKept(s, Disconnect(s, i), i) && !IsOpen(Disconnect(s, i), i)
  {
    hide Consistent, IdentityIsOk, SlotIsOk, LeaveOf, Trace, PhaseAfter, Canonical, WellTyped, Encodable, Broadcast, StrnLen;
    ToBut(s, i);
    if IsOpen(s, i) {
      SlotPhase(s, i);
      if s.slots[i].joined {
        LeaveIsSound(s.slots[i], s.log, s.connections);
        DepartKeeps(s, i, LeaveOf(s.slots[i]));
      } else {
        ToBut(s, i);
        FreeingKeeps(s, i);
      }
    }
  }

  lemma ToBut(s: Relay, i: nat)
    requires Consistent(s)
    ensures ConsistentBut(s, i) && OthersKept(s, s, i)
  {
    hide SlotIsOk, LogIsOk, Trace;
  }

  /** The made-up LEAVE can always be encoded, so a joined client's disconnection is always announced. */
  lemma {:induction false} LeaveIsSound(slot: Slot, log: seq<Entry>, connections: nat)
    requires slot.Open? && slot.joined && SlotIsOk(log, connections, slot)
    ensures var m := LeaveOf(slot);
            IsSound(m) && m.kind == LEAVE && IdentityMatches(slot, m)
  {
    hide Trace, Heard, PhaseAfter, StrnLen, Stream, Padded;
  }

  // ---------- every event ----------

  /** Inputs of the clients that a step left alone. */
  lemma AllInputsKept(s: Relay, t: Relay, i: nat)
    requires InputsAreOk(s, i) && OthersKept(s, t, i) && |t.slots| == MAX_CLIENTS
    requires IsOpen(t, i) ==> InputIsOk(t.log, t.slots[i])
    ensures InputsAreOk(t, MAX_CLIENTS)
  {
    hide Trace, Stream;
  }

  lemma OthersKeptTrans(s: Relay, t: Relay, u: Relay, i: nat)
    requires OthersKept(s, t, i) && OthersKept(t, u, i)
    ensures OthersKept(s, u, i)
  {
    hide Trace;
  }

  lemma DecodedIsSound(frame: seq<byte>)
    requires Decode(frame).Some?
    ensures IsSound(Decode(frame).value) && FrameBytes(Decode(frame).value) == frame
  {
    hide Decode, Encodable, WellTyped, Canonical, Frame;
    EncodeDecode(frame);
    EncodeIsFrame(Decode(frame).value);
  }

  /** Working through the input of one client. */
  lemma {:induction false} ProcessKeeps(s: Relay, i: nat, buffer: seq<byte>)
    requires IsOpen(s, i) && Consistent(s)
    requires s.slots[i].received == Stream(Trace(s.log, s.slots[i].connection)) + buffer
    ensures match Process(HandlerFor(i), s, buffer)
            case Waiting(t, rest) =>
              && Consistent(t) && OthersKept(s, t, i) && IsOpen(t, i)
              && FrameStatusOf(rest).Incomplete? && |rest| < PACKET_MAX_SIZE
              && t.slots[i].received == Stream(Trace(t.log, t.slots[i].connection)) + rest
            case Broken(t) => Consistent(t) && OthersKept(s, t, i)
    decreases |buffer|
  {
    hide Consistent, OthersKept, HandleMessage, Decode, FrameStatusOf, IsSound, FrameBytes, Stream, Trace;
    ToBut(s, i);
    StatusOfPrefix(buffer, []);
    NothingIsIncomplete();
    if buffer != [] && FrameStatusOf(buffer).Complete? {
      var n := FrameStatusOf(buffer).size;
      if Decode(buffer[..n]).Some? {
        var m := Decode(buffer[..n]).value;
        DecodedIsSound(buffer[..n]);
        HandleKeeps(s, i, m);
        var h := HandleMessage(s, i, m);
        assert HandlerFor(i)(s, m) == h;
        if h.ok {
          var c := s.slots[i].connection;
          StreamAppend(Trace(s.log, c), m);
          assert buffer == buffer[..n] + buffer[n..];
          var stream := Stream(Trace(s.log, c));
          assert stream + (buffer[..n] + buffer[n..]) == stream + buffer[..n] + buffer[n..];
          ProcessKeeps(h.state, i, buffer[n..]);
          match Process(HandlerFor(i), h.state, buffer[n..])
          case Waiting(t, _) => OthersKeptTrans(s, h.state, t, i);
          case Broken(t) => OthersKeptTrans(s, h.state, t, i);
        }
      }
    }
  }

  lemma NothingIsIncomplete()
    ensures FrameStatusOf([]).Incomplete?
  {
  }

  lemma InputChangeKeeps(s: Relay, i: nat, input: seq<byte>, received: seq<byte>)
    requires Consistent(s) && IsOpen(s, i)
    ensures var t := WithSlot(s, i, s.slots[i].(input := input, received := received));
            Consistent(t) && OthersKept(s, t, i) && IsOpen(t, i)
  {
    hide LogIsOk, Trace, Heard, Stream, StrnLen, Padded, TransferIsOk, PhaseAfter;
    var slot := s.slots[i].(input := input, received := received);
    OthersUntouched(s, WithSlot(s, i, slot), i);
    BackTogether(WithSlot(s, i, slot), i);
  }

  lemma ReceiveKeepsInv(s: Relay, i: nat, bytes: seq<byte>)
    requires Inv(s)
    ensures Inv(Receive(s, i, bytes)) && OthersKept(s, Receive(s, i, bytes), i)
  {
    hide Consistent, OthersKept, Process, Disconnect, Stream, Trace, InputsAreOk;
    ToBut(s, i);
    if IsOpen(s, i) && bytes != [] {
      OpenTable(s);
      InputBefore(s, i);
      var slot := s.slots[i];
      var buffer := slot.input + bytes;
      var u := WithSlot(s, i, Taken(slot, bytes));
      InputChangeKeeps(s, i, [], slot.received + bytes);
      var stream := Stream(Trace(s.log, slot.connection));
      assert slot.received + bytes == stream + buffer by {
        assert stream + slot.input + bytes == stream + buffer;
      }
      ProcessKeeps(u, i, buffer);
      match Process(HandlerFor(i), u, buffer)
      case Waiting(t, rest) =>
        OthersKeptTrans(s, u, t, i);
        InputChangeKeeps(t, i, rest, t.slots[i].received);
        OthersKeptTrans(s, t, WithInput(t, i, rest), i);
        OpenTable(WithInput(t, i, rest));
        AllInputsKept(s, WithInput(t, i, rest), i);
      case Broken(t) =>
        OthersKeptTrans(s, u, t, i);
        DisconnectKeeps(t, i);
        OthersKeptTrans(s, t, Disconnect(t, i), i);
        OpenTable(Disconnect(t, i));
        AllInputsKept(s, Disconnect(t, i), i);
    }
  }

  lemma InputBefore(s: Relay, i: nat)
    requires InputsAreOk(s, MAX_CLIENTS) && |s.slots| == MAX_CLIENTS
    ensures InputsAreOk(s, i) && (IsOpen(s, i) ==> InputIsOk(s.log, s.slots[i]))
  {
    hide InputIsOk;
  }

  lemma OpenTable(s: Relay)
    requires Consistent(s)
    ensures |s.slots| == MAX_CLIENTS
  {
  }

  lemma DisconnectKeepsInv(s: Relay, i: nat)
    requires Consistent(s) && InputsAreOk(s, i)
    ensures Inv(Disconnect(s, i)) && OthersKept(s, Disconnect(s, i), i)
  {
    hide Consistent, OthersKept, Disconnect, InputsAreOk;
    DisconnectKeeps(s, i);
    OpenTable(Disconnect(s, i));
    AllInputsKept(s, Disconnect(s, i), i);
  }

  lemma SplitPending(sent: seq<byte>, pending: seq<byte>, n: nat)
    requires n <= |pending|
    ensures sent + pending[..n] + pending[n..] == sent + pending
  {
  }

  lemma FlushedKeeps(s: Relay, i: nat, n: nat)
    requires Inv(s) && IsOpen(s, i) && n <= |s.slots[i].pending|
    ensures Inv(WithSlot(s, i, Flushed(s.slots[i], n))) && OthersKept(s, WithSlot(s, i, Flushed(s.slots[i], n)), i)
  {
    hide LogIsOk, Trace, Heard, Stream, StrnLen, Padded, TransferIsOk, PhaseAfter;
    var t := WithSlot(s, i, Flushed(s.slots[i], n));
    SplitPending(s.slots[i].sent, s.slots[i].pending, n);
    OthersUntouched(s, t, i);
    BackTogether(t, i);
    InputBefore(s, i);
    AllInputsKept(s, t, i);
  }

  lemma FlushKeepsInv(s: Relay, i: nat, outcomes: seq<SendOutcome>)
    requires Inv(s)
    ensures Inv(Flush(s, i, outcomes)) && OthersKept(s, Flush(s, i, outcomes), i)
  {
    hide Inv, Flushed, Disconnect, Flushing, OthersKept, Consistent;
    InvForDisconnect(s, i);
    ToBut(s, i);
    if IsOpen(s, i) {
      var (n, ok) := Flushing(outcomes, |s.slots[i].pending|);
      FlushedKeeps(s, i, n);
      var t := WithSlot(s, i, Flushed(s.slots[i], n));
      if !ok {
        InvForDisconnect(t, i);
        DisconnectKeepsInv(t, i);
        OthersKeptTrans(s, t, Disconnect(t, i), i);
      }
    }
  }

  lemma InvForDisconnect(s: Relay, i: nat)
    requires Inv(s)
    ensures Consistent(s) && InputsAreOk(s, i)
  {
    hide InputIsOk, LogIsOk, SlotIsOk;
  }

  lemma {:induction false} NothingTraced(log: seq<Entry>, connections: nat)
    requires forall k :: 0 <= k < |log| ==> log[k].connection < connections
    ensures Trace(log, connections) == []
  {
    if log != [] {
      NothingTraced(log[..|log| - 1], connections);
    }
  }

  lemma AcceptKeepsInv(s: Relay)
    requires Inv(s)
    ensures Inv(Accept(s))
  {
    hide Trace, LogIsOk, SlotIsOk, InputIsOk, FirstFree;
    var i := FirstFree(s.slots);
    LogStaysOk(s.log, s.connections);
    if i < |s.slots| {
      NewClientIsOk(s.log, s.connections);
      var t := Accept(s);
      forall k | 0 <= k < |t.slots| && t.slots[k].Open?
        ensures SlotIsOk(t.log, t.connections, t.slots[k]) && InputIsOk(t.log, t.slots[k])
        ensures k != i ==> t.slots[k].connection < s.connections
      {
        if k != i {
          OldClientStaysOk(s.log, s.connections, s.slots[k]);
        }
      }
    }
  }

  lemma LogStaysOk(log: seq<Entry>, connections: nat)
    requires LogIsOk(log, connections)
    ensures LogIsOk(log, connections + 1) && Trace(log, connections) == []
  {
    hide Trace, PhaseAfter, IsSound;
    NothingTraced(log, connections);
  }

  lemma OldClientStaysOk(log: seq<Entry>, connections: nat, slot: Slot)
    requires slot.Open? && SlotIsOk(log, connections, slot)
    ensures SlotIsOk(log, connections + 1, slot) && slot.connection < connections
  {
    hide Trace, PhaseAfter, Stream, Heard, IdentityIsOk, TransferIsOk;
  }

  lemma StreamOfNothing()
    ensures Stream([]) == []
  {
  }

  lemma NewClientIsOk(log: seq<Entry>, connections: nat)
    requires Trace(log, connections) == []
    ensures SlotIsOk(log, connections + 1, NewClient(connections)) && InputIsOk(log, NewClient(connections))
  {
  }

  lemma {:induction false} StepKeepsInv(s: Relay, event: Event)
    requires Inv(s)
    ensures Inv(Step(s, event))
  {
    hide Inv, Receive, Flush, Accept, Disconnect;
    match event
    case Connect => AcceptKeepsInv(s);
    case Data(i, bytes) => ReceiveKeepsInv(s, i, bytes);
    case Writable(i, outcomes) => FlushKeepsInv(s, i, outcomes);
    case HangUp(i) =>
      InvForDisconnect(s, i);
      DisconnectKeepsInv(s, i);
  }

  /** What one client's event leaves of the others. */
  lemma StepKeepsOthers(s: Relay, event: Event)
    requires Inv(s) && !event.Connect?
    ensures OthersKept(s, Step(s, event), event.i)
  {
    hide Inv, Receive, Flush, Accept, Disconnect, OthersKept;
    match event
    case Data(i, bytes) => ReceiveKeepsInv(s, i, bytes);
    case Writable(i, outcomes) => FlushKeepsInv(s, i, outcomes);
    case HangUp(i) =>
      InvForDisconnect(s, i);
      DisconnectKeepsInv(s, i);
  }

  lemma {:induction false} RunKeepsInv(s: Relay, events: seq<Event>)
    requires Inv(s)
    ensures Inv(Run(s, events))
    decreases |events|
  {
    hide Inv, Step;
    if events != [] {
      StepKeepsInv(s, events[0]);
      RunKeepsInv(Step(s, events[0]), events[1..]);
    }
  }

  lemma EveryRun(events: seq<Event>)
    ensures Inv(Run(Start(), events))
  {
    StartIsOk();
    RunKeepsInv(Start(), events);
  }

  lemma StartIsOk()
    ensures Inv(Start())
  {
  }
}
