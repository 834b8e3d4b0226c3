/** The chat server as a state machine: what each event does to the table of 64 clients. */
module ChatRelay {
  import opened Bytes
  import opened Wrappers
  import opened ChatCodec
  import opened ChatFraming
  import opened ChatOutput

  const MAX_CLIENTS := 64

  datatype Transfer = Idle | Sending(id: nat, size: nat, transferred: nat)

  /**
   One place in the table. `connection` numbers connections in the order they were accepted;
   `received`, `sent` and `since` record the bytes taken from and given to the peer so far, and the
   length of the log when it joined.
   */
  datatype Slot =
    | Free
    | Open(connection: nat, joined: bool, senderId: nat, senderName: seq<byte>, transfer: Transfer,
           input: seq<byte>, pending: seq<byte>, received: seq<byte>, sent: seq<byte>, since: nat)

  /** A message broadcast on behalf of a connection. */
  datatype Entry = Entry(connection: nat, message: Message)

  datatype Relay = Relay(slots: seq<Slot>, log: seq<Entry>, connections: nat)

  function CString(field: seq<byte>): seq<byte> {
    field[..StrnLen(field)]
  }

  function FrameBytes(m: Message): seq<byte> {
    if Encodable(m) then Frame(m) else []
  }

  // ---------- broadcasting ----------

  /** Queue a frame for a client that has joined, or close it when there is no room. */
  function Deliver(slot: Slot, frame: seq<byte>): Slot {
    if slot.Free? || !slot.joined then slot
    else if |frame| <= OUTPUT_CAPACITY - |slot.pending| then slot.(pending := slot.pending + frame)
    else Free
  }

  function Broadcast(slots: seq<Slot>, excluded: nat, frame: seq<byte>): (r: seq<Slot>)
    ensures |r| == |slots|
  {
    seq(|slots|, k requires 0 <= k < |slots| => if k == excluded then slots[k] else Deliver(slots[k], frame))
  }

  function Relayed(s: Relay, i: nat, m: Message): Relay
    requires i < |s.slots| && s.slots[i].Open?
  {
    Relay(Broadcast(s.slots, i, FrameBytes(m)), s.log + [Entry(s.slots[i].connection, m)], s.connections)
  }

  function WithSlot(s: Relay, i: nat, slot: Slot): Relay
    requires i < |s.slots|
  {
    s.(slots := s.slots[i := slot])
  }

  predicate IsOpen(s: Relay, i: nat) {
    i < |s.slots| && s.slots[i].Open?
  }

  // ---------- messages ----------

  predicate IdentityMatches(slot: Slot, m: Message)
    requires slot.Open?
  {
    slot.senderId == m.senderId && CString(slot.senderName) == CString(m.senderName)
  }

  /** validate_file_transfer: the transfer after the message, if the message is acceptable. */
  function CheckTransfer(t: Transfer, m: Message): Option<Transfer> {
    if m.kind == FILE_BEGIN then
      if t.Sending? then None else Some(Sending(m.transferId, m.fileSize, 0))
    else if m.kind == FILE_CHUNK then
      if t.Idle? || m.transferId != t.id || m.fileDataSize > t.size - t.transferred then None
      else Some(t.(transferred := t.transferred + m.fileDataSize))
    else if m.kind == FILE_END then
      if t.Idle? || m.transferId != t.id || t.transferred != t.size then None else Some(Idle)
    else Some(t)
  }

  function Joining(s: Relay, slot: Slot, m: Message): Slot
    requires slot.Open?
  {
    slot.(joined := true, senderId := m.senderId, senderName := m.senderName, since := |s.log|)
  }

  function HandleMessage(s: Relay, i: nat, m: Message): Handled<Relay> {
    if !IsOpen(s, i) then Handled(s, false)
    else
      var slot := s.slots[i];
      if !slot.joined then
        if m.kind != JOIN then Handled(s, false)
        else Handled(Relayed(WithSlot(s, i, Joining(s, slot, m)), i, m), true)
      else if !IdentityMatches(slot, m) || m.kind == JOIN || CheckTransfer(slot.transfer, m).None? then Handled(s, false)
      else
        var t := Relayed(WithSlot(s, i, slot.(transfer := CheckTransfer(slot.transfer, m).value)), i, m);
        if m.kind == LEAVE then Handled(WithSlot(t, i, Free), false) else Handled(t, true)
  }

  function HandlerFor(i: nat): Handler<Relay> {
    (s, m) => HandleMessage(s, i, m)
  }

  /** The LEAVE the server makes up for a client whose connection ends without one. */
  function LeaveOf(slot: Slot): Message
    requires slot.Open?
  {
    Blank(LEAVE, slot.senderId, 0, []).(senderName := slot.senderName)
  }

  function Announced(s: Relay, i: nat): Relay
    requires IsOpen(s, i)
  {
    var slot := s.slots[i];
    if slot.joined && Encodable(LeaveOf(slot)) then Relayed(s, i, LeaveOf(slot)) else s
  }

  function Disconnect(s: Relay, i: nat): Relay {
    if IsOpen(s, i) then WithSlot(Announced(s, i), i, Free) else s
  }

  // ---------- events ----------

  /** A slot whose input is being worked on. */
  function Taken(slot: Slot, bytes: seq<byte>): Slot {
    if slot.Free? then slot else slot.(input := [], received := slot.received + bytes)
  }

  function WithInput(s: Relay, i: nat, input: seq<byte>): Relay {
    if IsOpen(s, i) then WithSlot(s, i, s.slots[i].(input := input)) else s
  }

  /** Bytes arrive on a connection; a refused frame ends it. */
  function Receive(s: Relay, i: nat, bytes: seq<byte>): Relay {
    if !IsOpen(s, i) || bytes == [] then s
    else
      match Process(HandlerFor(i), WithSlot(s, i, Taken(s.slots[i], bytes)), s.slots[i].input + bytes)
      case Waiting(t, rest) => WithInput(t, i, rest)
      case Broken(t) => Disconnect(t, i)
  }

  function Flushed(slot: Slot, n: nat): Slot
    requires slot.Open? && n <= |slot.pending|
  {
    slot.(sent := slot.sent + slot.pending[..n], pending := slot.pending[n..])
  }

  function Flush(s: Relay, i: nat, outcomes: seq<SendOutcome>): Relay {
    if !IsOpen(s, i) then s
    else
      var (n, ok) := Flushing(outcomes, |s.slots[i].pending|);
      var t := WithSlot(s, i, Flushed(s.slots[i], n));
      if ok then t else Disconnect(t, i)
  }

  /** The first free place, or the length of the table. */
  function FirstFree(slots: seq<Slot>): (i: nat)
    ensures i <= |slots| && (i < |slots| ==> slots[i].Free?)
    ensures forall k :: 0 <= k < i ==> slots[k].Open?
  {
    if slots == [] || slots[0].Free? then 0 else 1 + FirstFree(slots[1..])
  }

  function NewClient(connection: nat): Slot {
    Open(connection, false, 0, Zeros(NAME_MAX + 1), Idle, [], [], [], [], 0)
  }

  function Accept(s: Relay): Relay {
    var i := FirstFree(s.slots);
    if i == |s.slots| then s else WithSlot(s, i, NewClient(s.connections)).(connections := s.connections + 1)
  }

  datatype Event = Connect | Data(i: nat, bytes: seq<byte>) | Writable(i: nat, outcomes: seq<SendOutcome>) | HangUp(i: nat)

  function Step(s: Relay, event: Event): Relay {
    match event
    case Connect => Accept(s)
    case Data(i, bytes) => Receive(s, i, bytes)
    case Writable(i, outcomes) => Flush(s, i, outcomes)
    case HangUp(i) => Disconnect(s, i)
  }

  function Start(): Relay {
    Relay(seq(MAX_CLIENTS, _ => Free), [], 0)
  }

  function Run(s: Relay, events: seq<Event>): Relay
    decreases |events|
  {
    if events == [] then s else Run(Step(s, events[0]), events[1..])
  }

  // ---------- what was relayed ----------

  /** The messages relayed on behalf of one connection. */
  function Trace(log: seq<Entry>, connection: nat): seq<Message> {
    if log == [] then []
    else
      var e := log[|log| - 1];
      Trace(log[..|log| - 1], connection) + if e.connection == connection then [e.message] else []
  }

  /** The messages of all other connections, from a place in the log on. */
  function Heard(log: seq<Entry>, since: nat, connection: nat): seq<Message> {
    if |log| <= since then []
    else
      var e := log[|log| - 1];
      Heard(log[..|log| - 1], since, connection) + if e.connection == connection then [] else [e.message]
  }

  function Stream(messages: seq<Message>): seq<byte> {
    if messages == [] then []
    else Stream(messages[..|messages| - 1]) + FrameBytes(messages[|messages| - 1])
  }

  /** How far a connection's conversation has come. */
  datatype Phase = Absent | Present(id: nat, name: seq<byte>, transfer: Transfer) | Gone

  function Next(p: Phase, m: Message): Option<Phase> {
    match p
    case Absent => if m.kind == JOIN then Some(Present(m.senderId, NameOf(m), Idle)) else None
    case Present(id, name, transfer) =>
      if m.kind == JOIN || m.senderId != id || NameOf(m) != name || CheckTransfer(transfer, m).None? then None
      else if m.kind == LEAVE then Some(Gone)
      else Some(Present(id, name, CheckTransfer(transfer, m).value))
    case Gone => None
  }

  /** None as soon as a message is out of place. */
  function PhaseAfter(trace: seq<Message>): Option<Phase> {
    if trace == [] then Some(Absent)
    else
      match PhaseAfter(trace[..|trace| - 1])
      case None => None
      case Some(p) => Next(p, trace[|trace| - 1])
  }
}
