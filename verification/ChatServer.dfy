/** The chat server's table in place: 64 client records with their own buffers. */
module ChatServer {
  import opened Bytes
  import opened Wrappers
  import opened ChatCodec
  import opened ChatFraming
  import opened ChatOutput
  import opened ChatRelay
  import opened ChatRelayRuns

  /** server_client_t. The ghost fields are the history a `Slot` records. */
  class ServerClient {
    var active: bool
    var joined: bool
    var senderId: nat
    var senderName: seq<byte>
    var transferActive: bool
    var transferId: nat
    var transferSize: nat
    var transferredSize: nat
    const input: array<byte>
    var inputSize: nat
    const queue: OutputQueue
    ghost var connection: nat
    ghost var received: seq<byte>
    ghost var since: nat

    ghost function Footprint(): set<object> {
      {this, input, queue, queue.output}
    }

    ghost predicate Valid()
      reads this, input, queue, queue.output
    {
      input.Length == PACKET_MAX_SIZE && inputSize <= PACKET_MAX_SIZE && queue.Valid() && input != queue.output
    }

    ghost function TransferView(): Transfer
      reads this
    {
      if transferActive then Sending(transferId, transferSize, transferredSize) else Idle
    }

    ghost function View(): Slot
      requires Valid()
      reads this, input, queue, queue.output
    {
      if !active then Free
      else Open(connection, joined, senderId, senderName, TransferView(), input[..inputSize], queue.Pending(),
                received, queue.sent, since)
    }

    constructor ()
      ensures Valid() && View() == Free
      ensures fresh(input) && fresh(queue) && fresh(queue.output)
    {
      input := new byte[PACKET_MAX_SIZE](_ => 0);
      queue := new OutputQueue();
      active, joined, senderId, senderName := false, false, 0, Zeros(NAME_MAX + 1);
      transferActive, transferId, transferSize, transferredSize, inputSize := false, 0, 0, 0, 0;
      connection, received, since := 0, [], 0;
    }

    /** memset to zero. */
    method Clear()
      requires Valid()
      modifies this, queue
      ensures Valid() && View() == Free
      ensures !joined && senderId == 0 && senderName == Zeros(NAME_MAX + 1) && !transferActive && inputSize == 0
      ensures queue.Pending() == [] && queue.sent == []
    {
      active, joined, senderId, senderName := false, false, 0, Zeros(NAME_MAX + 1);
      transferActive, transferId, transferSize, transferredSize, inputSize := false, 0, 0, 0, 0;
      queue.Reset();
    }

    /** The record of an accepted connection. */
    method Begin(ghost number: nat)
      requires Valid()
      modifies this, queue
      ensures Valid() && View() == NewClient(number)
    {
      Clear();
      active := true;
      connection, received, since := number, [], 0;
      assert input[..inputSize] == [];
    }

    /** What a JOIN leaves in the record. */
    method Join(m: Message, ghost logLength: nat)
      requires Valid() && active && View().Open?
      modifies this`joined, this`senderId, this`senderName, this`since
      ensures Valid()
      ensures View() == old(View()).(joined := true, senderId := m.senderId, senderName := m.senderName, since := logLength)
    {
      joined, senderId, senderName, since := true, m.senderId, m.senderName, logLength;
    }

    /** queue_frame, and close_client when it fails. */
    method Deliver(frame: seq<byte>)
      requires Valid() && active && View().Open? && joined
      modifies this, queue, queue.output
      ensures Valid() && View() == ChatRelay.Deliver(old(View()), frame)
    {
      hide OutputQueue.Valid, OutputQueue.Pending;
      var queued := queue.Queue(frame);
      if queued {
        assert input[..inputSize] == old(input[..inputSize]);
      } else {
        Clear();
      }
    }

    /** validate_file_transfer. */
    method ValidateFileTransfer(m: Message) returns (ok: bool)
      requires Valid() && active
      modifies this`transferActive, this`transferId, this`transferSize, this`transferredSize
      ensures Valid()
      ensures var checked := CheckTransfer(old(View()).transfer, m);
              && ok == checked.Some?
              && View() == if ok then old(View()).(transfer := checked.value) else old(View())
    {
      if m.kind == FILE_BEGIN {
        if transferActive {
          return false;
        }
        transferActive, transferId, transferSize, transferredSize := true, m.transferId, m.fileSize, 0;
        return true;
      }
      if m.kind == FILE_CHUNK {
        if !transferActive || m.transferId != transferId {
          return false;
        }
        if m.fileDataSize > transferSize - transferredSize {
          return false;
        }
        transferredSize := transferredSize + m.fileDataSize;
        return true;
      }
      if m.kind == FILE_END {
        if !transferActive || m.transferId != transferId {
          return false;
        }
        if transferredSize != transferSize {
          return false;
        }
        transferActive, transferId, transferSize, transferredSize := false, 0, 0, 0;
      }
      return true;
    }

    /** The sending loop on the client's own buffer. */
    method FlushOutput(outcomes: seq<SendOutcome>) returns (ok: bool)
      requires Valid() && active && View().Open?
      modifies queue
      ensures Valid() && active
      ensures var r := Flushing(outcomes, |old(View()).pending|);
              ok == r.1 && View() == Flushed(old(View()), r.0)
    {
      hide OutputQueue.Valid, OutputQueue.Pending, Flushing;
      ghost var bytes := input[..inputSize];
      FlushingStep(outcomes, 0, |queue.Pending()|);
      assert outcomes[0..] == outcomes;
      ok := queue.Flush(outcomes);
      assert input[..inputSize] == bytes;
    }

    /** Drop the first n bytes of the input, moving the rest to the front. */
    method Shift(n: nat)
      requires Valid() && active && View().Open? && n <= inputSize
      modifies this`inputSize, input
      ensures Valid() && active && View() == old(View()).(input := old(View()).input[n..])
    {
      ghost var rest := input[n..inputSize];
      forall i | 0 <= i < inputSize - n {
        input[i] := input[n + i];
      }
      inputSize := inputSize - n;
      assert input[..inputSize] == rest;
    }

    /** One successful receive into the room left. */
    method Append(piece: seq<byte>)
      requires Valid() && active && View().Open? && |piece| <= PACKET_MAX_SIZE - inputSize
      modifies this`inputSize, input
      ensures Valid() && active && View() == old(View()).(input := old(View()).input + piece)
    {
      ghost var before := input[..inputSize];
      var end := Put(input, inputSize, piece);
      inputSize := end;
      assert input[..inputSize] == before + piece;
    }
  }

  /** Records with no memory in common; they never change places, so this can never be lost. */
  ghost predicate Separate(clients: seq<ServerClient>) {
    forall j, k :: 0 <= j < k < |clients| ==> clients[j].Footprint() !! clients[k].Footprint()
  }

  /** The zeroed table. */
  method NewClients() returns (clients: seq<ServerClient>, ghost objects: set<object>)
    ensures |clients| == MAX_CLIENTS && Separate(clients) && fresh(objects)
    ensures forall k :: 0 <= k < MAX_CLIENTS ==>
      clients[k].Footprint() <= objects && clients[k].Valid() && clients[k].View() == Free
  {
    hide OutputQueue.Valid, OutputQueue.Pending;
    clients, objects := [], {};
    while |clients| < MAX_CLIENTS
      invariant |clients| <= MAX_CLIENTS && Separate(clients) && fresh(objects)
      invariant forall k :: 0 <= k < |clients| ==>
        clients[k].Footprint() <= objects && clients[k].Valid() && clients[k].View() == Free
    {
      var client := new ServerClient();
      assert client.Footprint() !! objects;
      clients, objects := clients + [client], objects + client.Footprint();
    }
  }

  class Server {
    const clients: seq<ServerClient>
    ghost const repr: set<object>
    ghost var log: seq<Entry>
    ghost var connections: nat

    ghost predicate Valid()
      reads this, repr
    {
      && |clients| == MAX_CLIENTS && Separate(clients) && this !in repr
      && forall k :: 0 <= k < MAX_CLIENTS ==> clients[k].Footprint() <= repr && clients[k].Valid()
    }

    ghost function Slots(): (r: seq<Slot>)
      requires Valid()
      reads this, repr
      ensures |r| == MAX_CLIENTS && forall k :: 0 <= k < MAX_CLIENTS ==> r[k] == clients[k].View()
    {
      seq(MAX_CLIENTS, k requires 0 <= k < MAX_CLIENTS && Valid() reads this, repr => clients[k].View())
    }

    ghost function View(): Relay
      requires Valid()
      reads this, repr
    {
      Relay(Slots(), log, connections)
    }

    constructor ()
      ensures Valid() && View() == Start() && fresh(repr)
    {
      hide OutputQueue.Valid, OutputQueue.Pending;
      var made, objects := NewClients();
      clients, repr, log, connections := made, objects, [], 0;
      new;
      assert Slots() == Start().slots;
    }

    /** broadcast_frame. */
    method BroadcastFrame(excluded: nat, ghost m: Message, frame: seq<byte>)
      requires Valid() && IsOpen(View(), excluded) && frame == FrameBytes(m)
      modifies this`log, repr
      ensures Valid() && View() == Relayed(old(View()), excluded, m)
    {
      hide ServerClient.Valid, ServerClient.View, ChatRelay.Deliver;
      ghost var before := Slots();
      var index := 0;
      while index < MAX_CLIENTS
        invariant index <= MAX_CLIENTS && Valid() && log == old(log)
        invariant forall k :: 0 <= k < MAX_CLIENTS ==>
          clients[k].View() == if k < index && k != excluded then ChatRelay.Deliver(before[k], frame) else before[k]
      {
        DeliverTo(index, excluded, frame);
        index := index + 1;
      }
      log := log + [Entry(before[excluded].connection, m)];
      assert Slots() == Broadcast(before, excluded, frame);
    }

    method DeliverTo(index: nat, excluded: nat, frame: seq<byte>)
      requires Valid() && index < MAX_CLIENTS
      modifies clients[index].Footprint()
      ensures Valid()
      ensures clients[index].View() ==
              if index == excluded then old(clients[index].View()) else ChatRelay.Deliver(old(clients[index].View()), frame)
      ensures forall k :: 0 <= k < MAX_CLIENTS && k != index ==> clients[k].View() == old(clients[k].View())
    {
      hide OutputQueue.Valid, OutputQueue.Pending;
      if index != excluded && clients[index].active && clients[index].joined {
        clients[index].Deliver(frame);
      }
    }
  
    /** close_client. */
    method CloseClient(i: nat)
      requires Valid() && IsOpen(View(), i)
      modifies clients[i].Footprint()
      ensures Valid() && View() == WithSlot(old(View()), i, Free)
    {
      hide OutputQueue.Valid, OutputQueue.Pending;
      clients[i].Clear();
      assert Slots() == old(Slots())[i := Free];
    }

    /** announce_leave. */
    method AnnounceLeave(i: nat)
      requires Valid() && IsOpen(View(), i)
      modifies this`log, repr
      ensures Valid() && View() == Announced(old(View()), i)
    {
      hide OutputQueue.Valid, OutputQueue.Pending, Encodable, Relayed;
      if !clients[i].joined {
        return;
      }
      var leave := Blank(LEAVE, clients[i].senderId, 0, []).(senderName := clients[i].senderName);
      assert leave == LeaveOf(View().slots[i]);
      var frame := Encode(leave);
      if frame.Some? {
        BroadcastFrame(i, leave, frame.value);
      }
    }

    /** disconnect_client, announcing it. */
    method DisconnectClient(i: nat)
      requires Valid() && IsOpen(View(), i)
      modifies this`log, repr
      ensures Valid() && View() == Disconnect(old(View()), i)
    {
      hide Announced, OutputQueue.Valid, OutputQueue.Pending, ServerClient.Valid, ServerClient.View;
      AnnouncedStaysOpen(View(), i);
      AnnounceLeave(i);
      CloseClient(i);
    }

    method JoinClient(i: nat, m: Message)
      requires Valid() && IsOpen(View(), i)
      modifies clients[i]
      ensures Valid() && View() == WithSlot(old(View()), i, Joining(old(View()), old(View()).slots[i], m))
    {
      hide OutputQueue.Valid, OutputQueue.Pending;
      clients[i].Join(m, |log|);
      assert Slots() == old(Slots())[i := clients[i].View()];
    }

    method ValidateFileTransfer(i: nat, m: Message) returns (ok: bool)
      requires Valid() && IsOpen(View(), i)
      modifies clients[i]
      ensures Valid()
      ensures var slot := old(View()).slots[i];
              var checked := CheckTransfer(slot.transfer, m);
              && ok == checked.Some?
              && View() == if ok then WithSlot(old(View()), i, slot.(transfer := checked.value)) else old(View())
    {
      hide OutputQueue.Valid, OutputQueue.Pending, CheckTransfer;
      ok := clients[i].ValidateFileTransfer(m);
      assert Slots() == old(Slots())[i := clients[i].View()];
    }

    /** handle_message. */
    method HandleMessage(i: nat, frame: seq<byte>) returns (ok: bool)
      requires Valid() && IsOpen(View(), i)
      modifies this`log, repr
      ensures Valid()
      ensures match Decode(frame)
              case None => !ok && View() == old(View())
              case Some(m) => Handled(View(), ok) == ChatRelay.HandleMessage(old(View()), i, m)
    {
      hide OutputQueue.Valid, OutputQueue.Pending, CheckTransfer, Relayed, Decode, StrnLen, ServerClient.Valid, FrameBytes;
      ghost var s := View();
      var decoded := Decode(frame);
      if decoded.None? {
        return false;
      }
      DecodedIsSound(frame);
      var m := decoded.value;
      if !ClientJoined(i) {
        if m.kind != JOIN {
          return false;
        }
        JoinClient(i, m);
        BroadcastFrame(i, m, frame);
        return true;
      }
      if !ClientIdentityMatches(i, m) || m.kind == JOIN {
        return false;
      }
      var valid := ValidateFileTransfer(i, m);
      if !valid {
        return false;
      }
      RelayedStaysOpen(View(), i, m);
      BroadcastFrame(i, m, frame);
      if m.kind == LEAVE {
        CloseClient(i);
        return false;
      }
      ok := true;
    }

    predicate ClientJoined(i: nat)
      requires Valid() && IsOpen(View(), i)
      reads this, repr
      ensures ClientJoined(i) == View().slots[i].joined
    {
      clients[i].joined
    }

    /** client_identity_matches. */
    predicate ClientIdentityMatches(i: nat, m: Message)
      requires Valid() && IsOpen(View(), i)
      reads this, repr
      ensures ClientIdentityMatches(i, m) == IdentityMatches(View().slots[i], m)
    {
      clients[i].senderId == m.senderId && CString(clients[i].senderName) == CString(m.senderName)
    }

    method ShiftInput(i: nat, n: nat)
      requires Valid() && IsOpen(View(), i) && n <= |View().slots[i].input|
      modifies repr
      ensures Valid() && View() == WithInput(old(View()), i, old(View()).slots[i].input[n..])
    {
      hide OutputQueue.Valid, OutputQueue.Pending;
      clients[i].Shift(n);
      assert Slots() == old(Slots())[i := clients[i].View()];
    }

    method AppendInput(i: nat, piece: seq<byte>)
      requires Valid() && IsOpen(View(), i) && |piece| <= PACKET_MAX_SIZE - |View().slots[i].input|
      modifies repr
      ensures Valid() && View() == WithInput(old(View()), i, old(View()).slots[i].input + piece)
    {
      hide OutputQueue.Valid, OutputQueue.Pending;
      clients[i].Append(piece);
      assert Slots() == old(Slots())[i := clients[i].View()];
    }

    /** The bytes in a client's input buffer. */
    function Input(i: nat): (r: seq<byte>)
      requires Valid() && IsOpen(View(), i)
      reads this, repr
      ensures r == View().slots[i].input && |r| <= PACKET_MAX_SIZE
    {
      clients[i].input[..clients[i].inputSize]
    }

    /** process_input: handle every complete frame in the client's buffer. */
    method ProcessInput(i: nat) returns (ok: bool)
      requires Valid() && IsOpen(View(), i)
      modifies this`log, repr
      ensures Valid()
      ensures match Process(HandlerFor(i), WithInput(old(View()), i, []), old(Input(i)))
              case Waiting(t, rest) =>
                ok && IsOpen(View(), i) && WithInput(View(), i, []) == t && Input(i) == rest && |rest| < PACKET_MAX_SIZE
              case Broken(t) => !ok && WithInput(View(), i, []) == t
    {
      hide Process, FrameStatusOf, Decode, Server.Valid, Server.View, ChatRelay.HandleMessage;
      ghost var s0, b0 := View(), Input(i);
      while |Input(i)| != 0
        invariant Valid() && IsOpen(View(), i)
        invariant Process(HandlerFor(i), WithInput(View(), i, []), Input(i)) ==
                  Process(HandlerFor(i), WithInput(s0, i, []), b0)
        decreases if IsOpen(View(), i) then |View().slots[i].input| else 0
      {
        ghost var s := View();
        ProcessStep(HandlerFor(i), WithInput(s, i, []), Input(i));
        StatusOfPrefix(Input(i), []);
        var status := FrameStatusOf(Input(i));
        if status.Invalid? {
          return false;
        }
        if status.Incomplete? {
          return true;
        }
        StatusSize(Input(i));
        var frame := Input(i)[..status.size];
        if Decode(frame).Some? {
          HandleIgnoresInput(s, i, Decode(frame).value);
        }
        ok := HandleMessage(i, frame);
        if !ok {
          return false;
        }
        WithInputTwice(View(), i, Input(i)[status.size..], []);
        ShiftInput(i, status.size);
      }
      ProcessStep(HandlerFor(i), WithInput(View(), i, []), Input(i));
      ok := true;
    }

    /** Bookkeeping only. */
    ghost method RecordArrival(i: nat, bytes: seq<byte>)
      requires Valid() && IsOpen(View(), i)
      modifies repr
      ensures Valid()
      ensures var slot := old(View()).slots[i];
              View() == WithSlot(old(View()), i, slot.(received := slot.received + bytes))
    {
      clients[i].received := clients[i].received + bytes;
      assert Slots() == old(Slots())[i := clients[i].View()];
    }

    /** receive_client_data: the socket hands over what has arrived, as much at a time as it likes and there is room for. */
    method ReceiveClientData(i: nat, bytes: seq<byte>, grants: seq<nat>) returns (ok: bool)
      requires Valid() && IsOpen(View(), i) && |Input(i)| < PACKET_MAX_SIZE && bytes != []
      modifies this`log, repr
      ensures Valid()
      ensures var slot := old(View()).slots[i];
              match Process(HandlerFor(i), WithSlot(old(View()), i, Taken(slot, bytes)), slot.input + bytes)
              case Waiting(t, rest) => ok && View() == WithInput(t, i, rest)
              case Broken(t) => !ok && WithInput(View(), i, []) == t
    {
      hide Process, Server.Valid, Server.View;
      ghost var slot := View().slots[i];
      ghost var all := Process(HandlerFor(i), WithSlot(View(), i, Taken(slot, bytes)), slot.input + bytes);
      ArrivalIsTaken(View(), i, bytes);
      RecordArrival(i, bytes);
      var left, turn := bytes, 0;
      while left != []
        invariant Valid() && IsOpen(View(), i) && |Input(i)| < PACKET_MAX_SIZE
        invariant all == Feed(HandlerFor(i), Waiting(WithInput(View(), i, []), Input(i)), left)
        invariant left == [] ==> all == Waiting(WithInput(View(), i, []), Input(i))
        decreases |left|
      {
        var room := PACKET_MAX_SIZE - |Input(i)|;
        var n := Granted(grants, turn, room, |left|);
        FeedInTwo(HandlerFor(i), WithInput(View(), i, []), Input(i), left, n);
        WithInputOpen(View(), i, Input(i) + left[..n]);
        WithInputTwice(View(), i, Input(i) + left[..n], []);
        AppendInput(i, left[..n]);
        var fed := ProcessInput(i);
        if !fed {
          return false;
        }
        left, turn := left[n..], turn + 1;
      }
      InputStays(View(), i);
      ok := true;
    }

    /** A readable connection: take what has arrived, and drop the client if it must go. */
    method OnReadable(i: nat, bytes: seq<byte>, grants: seq<nat>)
      requires Valid() && (IsOpen(View(), i) ==> |View().slots[i].input| < PACKET_MAX_SIZE)
      modifies this`log, repr
      ensures Valid() && View() == Receive(old(View()), i, bytes)
    {
      hide Process, Disconnect, Server.View, Server.Valid;
      if bytes == [] || !IsActive(i) {
        return;
      }
      var ok := ReceiveClientData(i, bytes, grants);
      if !ok {
        DisconnectIgnoresInput(View(), i);
        if IsActive(i) {
          DisconnectClient(i);
        }
      }
    }

    predicate IsActive(i: nat)
      requires Valid()
      reads this, repr
      ensures IsActive(i) == IsOpen(View(), i)
    {
      i < MAX_CLIENTS && clients[i].active
    }

    /** flush_client_output. */
    method FlushClientOutput(i: nat, outcomes: seq<SendOutcome>) returns (ok: bool)
      requires Valid() && IsOpen(View(), i)
      modifies repr
      ensures Valid()
      ensures var r := Flushing(outcomes, |old(View()).slots[i].pending|);
              ok == r.1 && View() == WithSlot(old(View()), i, Flushed(old(View()).slots[i], r.0))
    {
      hide OutputQueue.Valid, OutputQueue.Pending, Flushing, Flushed;
      ok := clients[i].FlushOutput(outcomes);
      assert Slots() == old(Slots())[i := clients[i].View()];
    }

    /** A writable connection: send what it takes, and drop the client if sending fails. */
    method OnWritable(i: nat, outcomes: seq<SendOutcome>)
      requires Valid()
      modifies this`log, repr
      ensures Valid() && View() == Flush(old(View()), i, outcomes)
    {
      hide Flushing, Disconnect, Flushed, Server.View, Server.Valid;
      if !IsActive(i) {
        return;
      }
      var ok := FlushClientOutput(i, outcomes);
      if !ok {
        FlushedStaysOpen(old(View()), i, outcomes);
        DisconnectClient(i);
      }
    }

    /** find_free_client. */
    method FindFreeClient() returns (index: nat)
      requires Valid()
      ensures index == FirstFree(View().slots)
    {
      hide OutputQueue.Valid, OutputQueue.Pending;
      index := 0;
      while index < MAX_CLIENTS
        invariant index <= MAX_CLIENTS
        invariant forall k :: 0 <= k < index ==> View().slots[k].Open?
      {
        if !clients[index].active {
          FirstFreeIs(View().slots, index);
          return;
        }
        index := index + 1;
      }
      FirstFreeIs(View().slots, index);
    }

    /** A connection is accepted; with no place free it is closed at once. */
    method AcceptClient()
      requires Valid()
      modifies this, repr
      ensures Valid() && View() == Accept(old(View()))
    {
      hide OutputQueue.Valid, OutputQueue.Pending, FirstFree;
      var index := FindFreeClient();
      if index == MAX_CLIENTS {
        return;
      }
      FirstFreeInTable(View().slots);
      clients[index].Begin(connections);
      connections := connections + 1;
      assert Slots() == old(Slots())[index := clients[index].View()];
    }

    /** One event of the main loop. */
    method Perform(event: Event, grants: seq<nat>)
      requires Valid() && Inv(View())
      modifies this, repr
      ensures Valid() && View() == Step(old(View()), event) && Inv(View())
    {
      hide Inv, Receive, Flush, Accept, Disconnect, Server.View, Server.Valid;
      StepKeepsInv(View(), event);
      match event
      case Connect => AcceptClient();
      case Data(i, bytes) =>
        InputIsShort(View(), i);
        OnReadable(i, bytes, grants);
      case Writable(i, outcomes) => OnWritable(i, outcomes);
      case HangUp(i) =>
        ClosedIsLeft(View(), i);
        if IsActive(i) {
          DisconnectClient(i);
        }
    }
  }

  /** A whole run of a fresh server, whatever pieces the sockets hand over what arrives in. */
  method Execute(events: seq<Event>, grants: seq<seq<nat>>) returns (server: Server)
    requires |grants| == |events|
    ensures server.Valid() && server.View() == Run(Start(), events) && Inv(server.View())
  {
    hide Inv, Step, Server.View, Server.Valid;
    StartIsOk();
    server := new Server();
    var i := 0;
    while i < |events|
      invariant i <= |events| && server.Valid() && Inv(server.View()) && fresh(server) && fresh(server.repr)
      invariant Run(Start(), events) == Run(server.View(), events[i..])
    {
      assert events[i..][0] == events[i] && events[i..][1..] == events[i + 1..];
      server.Perform(events[i], grants[i]);
      i := i + 1;
    }
  }

  lemma WithInputTwice(s: Relay, i: nat, a: seq<byte>, b: seq<byte>)
    ensures WithInput(WithInput(s, i, a), i, b) == WithInput(s, i, b)
  {
  }

  /** Handling a message neither reads nor moves the bytes in the sender's own buffer. */
  lemma HandleIgnoresInput(s: Relay, i: nat, m: Message)
    requires IsOpen(s, i)
    ensures var h, g := ChatRelay.HandleMessage(s, i, m), HandlerFor(i)(WithInput(s, i, []), m);
            && g.ok == h.ok && WithInput(h.state, i, []) == g.state
            && (h.ok ==> IsOpen(h.state, i) && h.state.slots[i].input == s.slots[i].input)
  {
    hide CheckTransfer, StrnLen, FrameBytes, ChatRelay.Deliver;
    var u := WithInput(s, i, []);
    var h, g := ChatRelay.HandleMessage(s, i, m), ChatRelay.HandleMessage(u, i, m);
    assert |h.state.slots| == |g.state.slots|;
    assert forall k :: 0 <= k < |s.slots| && k != i ==> h.state.slots[k] == g.state.slots[k];
    assert WithInput(h.state, i, []).slots == g.state.slots;
  }

  lemma WithInputOpen(s: Relay, i: nat, input: seq<byte>)
    requires IsOpen(s, i)
    ensures IsOpen(WithInput(s, i, input), i) && WithInput(s, i, input).slots[i].input == input
  {
  }

  lemma ArrivalIsTaken(s: Relay, i: nat, bytes: seq<byte>)
    requires IsOpen(s, i)
    ensures var slot := s.slots[i];
            var t := WithSlot(s, i, slot.(received := slot.received + bytes));
            && IsOpen(t, i) && WithInput(t, i, []) == WithSlot(s, i, Taken(slot, bytes))
            && t.slots[i].input == slot.input
  {
    assert s.slots[i := s.slots[i].(received := s.slots[i].received + bytes)][i := Taken(s.slots[i], bytes)]
           == s.slots[i := Taken(s.slots[i], bytes)];
  }

  lemma FirstFreeInTable(slots: seq<Slot>)
    ensures FirstFree(slots) <= |slots|
    ensures FirstFree(slots) < |slots| ==> slots[FirstFree(slots)].Free?
  {
  }

  lemma {:induction false} FirstFreeIs(slots: seq<Slot>, index: nat)
    requires index <= |slots| && (index < |slots| ==> slots[index].Free?)
    requires forall k :: 0 <= k < index ==> slots[k].Open?
    ensures FirstFree(slots) == index
    decreases |slots|
  {
    if index > 0 {
      FirstFreeIs(slots[1..], index - 1);
    }
  }

  lemma FlushedStaysOpen(s: Relay, i: nat, outcomes: seq<SendOutcome>)
    requires IsOpen(s, i)
    ensures IsOpen(WithSlot(s, i, Flushed(s.slots[i], Flushing(outcomes, |s.slots[i].pending|).0)), i)
  {
    hide Flushing;
  }

  lemma InputIsShort(s: Relay, i: nat)
    requires Inv(s)
    ensures IsOpen(s, i) ==> |s.slots[i].input| < PACKET_MAX_SIZE
  {
    hide SlotIsOk, LogIsOk;
  }

  lemma ClosedIsLeft(s: Relay, i: nat)
    ensures !IsOpen(s, i) ==> Disconnect(s, i) == s
  {
  }

  /** Dropping a client throws its input away, whatever it was. */
  lemma DisconnectIgnoresInput(s: Relay, i: nat)
    ensures Disconnect(WithInput(s, i, []), i) == Disconnect(s, i)
    ensures !IsOpen(s, i) ==> Disconnect(s, i) == s
  {
    hide Encodable, FrameBytes, ChatRelay.Deliver;
    if IsOpen(s, i) {
      var a, b := Disconnect(WithInput(s, i, []), i), Disconnect(s, i);
      assert LeaveOf(WithInput(s, i, []).slots[i]) == LeaveOf(s.slots[i]);
      assert |a.slots| == |b.slots|;
      assert forall k :: 0 <= k < |s.slots| ==> a.slots[k] == b.slots[k];
    }
  }

  lemma InputStays(s: Relay, i: nat)
    requires IsOpen(s, i)
    ensures WithInput(WithInput(s, i, []), i, s.slots[i].input) == s && IsOpen(WithInput(s, i, []), i)
  {
    assert s.slots[i := s.slots[i]] == s.slots;
  }

  lemma RelayedStaysOpen(s: Relay, i: nat, m: Message)
    requires IsOpen(s, i)
    ensures IsOpen(Relayed(s, i, m), i) && Relayed(s, i, m).slots[i] == s.slots[i]
  {
  }

  lemma AnnouncedStaysOpen(s: Relay, i: nat)
    requires IsOpen(s, i)
    ensures IsOpen(Announced(s, i), i)
  {
    hide Encodable;
  }
}
