/** The echo server: counters per client, kept in a linked list. */
module EchoServer {
  import opened Bytes
  import opened Wrappers
  import opened EchoProtocol
  import opened RawUdp

  const COUNTER_MAX := UINT32_RANGE - 1

  datatype Key = Key(ip: seq<byte>, port: nat)

  type Table = map<Key, nat>

  // ---------- what the server does, on a map of counters ----------

  /** server_state_next_counter; zero is no counter. */
  function NextCounter(table: Table, key: Key): (r: (Table, nat)) {
    if key !in table then (table[key := 1], 1)
    else if table[key] == COUNTER_MAX then (table, 0)
    else (table[key := table[key] + 1], table[key] + 1)
  }

  predicate IsRequest(m: Message) {
    m.kind == REQUEST && m.counter == 0 && |m.payload| <= PAYLOAD_MAX
  }

  predicate IsClose(m: Message) {
    m.kind == CLOSE && m.counter == 0 && m.payload == []
  }

  /** server_handle_message: the table and the reply, if there is one. */
  function HandleMessage(table: Table, key: Key, m: Message): (r: (Table, Option<Message>)) {
    if IsClose(m) then (table - {key}, None)
    else if !IsRequest(m) then (table, None)
    else
      var (next, counter) := NextCounter(table, key);
      (next, if counter == 0 then None else Some(Message(RESPONSE, counter, m.payload)))
  }

  // ---------- every run ----------

  datatype Received = Received(key: Key, message: Message)

  function TableAfter(history: seq<Received>): Table {
    if history == [] then map[]
    else
      var e := history[|history| - 1];
      HandleMessage(TableAfter(history[..|history| - 1]), e.key, e.message).0
  }

  /** What a request is: type 1, no counter, and a text that is not too long. */
  predicate Asks(m: Message) {
    m == Message(1, 0, m.payload) && |m.payload| <= 1024
  }

  /** How many requests a client has made since it last closed, whatever others did. */
  function RequestsSinceClose(history: seq<Received>, key: Key): nat {
    if history == [] then 0
    else
      var e, before := history[|history| - 1], RequestsSinceClose(history[..|history| - 1], key);
      if e.key != key then before
      else if e.message == Message(3, 0, []) then 0
      else if Asks(e.message) then before + 1
      else before
  }

  /** A client is in the table exactly when it has made requests, with their number or the largest there is. */
  lemma {:induction false} TableCounts(history: seq<Received>, key: Key)
    ensures var n := RequestsSinceClose(history, key);
            && (key in TableAfter(history) <==> n > 0)
            && (n > 0 ==> TableAfter(history)[key] == if n < COUNTER_MAX then n else COUNTER_MAX)
    decreases |history|
  {
    if history != [] {
      TableCounts(history[..|history| - 1], key);
    }
  }

  /** The reply a client gets carries its own text and the number of its request, up to the largest. */
  lemma {:induction false} EveryReply(history: seq<Received>, key: Key, m: Message)
    ensures HandleMessage(TableAfter(history), key, m).1 ==
            if Asks(m) && RequestsSinceClose(history, key) < COUNTER_MAX
            then Some(Message(RESPONSE, RequestsSinceClose(history, key) + 1, m.payload)) else None
  {
    hide TableAfter, RequestsSinceClose;
    TableCounts(history, key);
  }

  /** A client that has used up its numbers is refused and nothing changes for anybody. */
  lemma {:induction false} ExhaustedIsRefused(history: seq<Received>, key: Key, m: Message)
    requires Asks(m) && RequestsSinceClose(history, key) >= COUNTER_MAX
    ensures HandleMessage(TableAfter(history), key, m) == (TableAfter(history), None)
  {
    hide TableAfter, RequestsSinceClose;
    TableCounts(history, key);
  }

  /** Closing starts the count again. */
  lemma {:induction false} CloseStartsOver(history: seq<Received>, key: Key, m: Message)
    requires Asks(m)
    ensures HandleMessage(TableAfter(history + [Received(key, Message(3, 0, []))]), key, m).1 ==
            Some(Message(RESPONSE, 1, m.payload))
  {
    var longer := history + [Received(key, Message(3, 0, []))];
    assert longer[..|history|] == history;
    EveryReply(longer, key, m);
  }

  // ---------- on the wire ----------

  /** What the server's loop makes of a packet: the message it hears, if any. */
  function Hear(port: nat, packet: seq<byte>): Option<(Datagram, Message)> {
    match Parse(packet)
    case None => None
    case Some(d) =>
      if d.destinationPort != port then None
      else
        match Decode(d.payload)
        case None => None
        case Some(m) => Some((d, m))
  }

  /** The packet that carries a reply back to where the request came from. */
  function ReplyPacket(port: nat, d: Datagram, reply: Message): Option<seq<byte>> {
    match Encode(reply)
    case None => None
    case Some(bytes) => Build(Datagram(d.destination, d.source, port, d.sourcePort, bytes))
  }

  /** No reply ever fails to be encoded or built, so the loop never gives up over one. */
  lemma {:induction false} RepliesCanBeSent(history: seq<Received>, port: nat, packet: seq<byte>)
    requires Hear(port, packet).Some?
    ensures var (d, m) := Hear(port, packet).value;
            var reply := HandleMessage(TableAfter(history), Key(d.source, d.sourcePort), m).1;
            reply.Some? ==> ReplyPacket(port, d, reply.value).Some? && reply.value.counter < UINT32_RANGE
  {
    hide TableAfter, RequestsSinceClose, Parse, Decode, UdpBytes, ToBytes;
    var (d, m) := Hear(port, packet).value;
    EveryReply(history, Key(d.source, d.sourcePort), m);
  }

  /**
   The client whose request the server heard finds in the reply, once an IPv4 header is in front of
   it, its own text and number, from the address and port it wrote to.
   */
  lemma {:induction false} EchoComesBack(history: seq<Received>, port: nat, packet: seq<byte>, ip: seq<byte>)
    requires port < UINT16_RANGE && Hear(port, packet).Some?
    requires var (d, m) := Hear(port, packet).value;
             Asks(m) && RequestsSinceClose(history, Key(d.source, d.sourcePort)) < COUNTER_MAX
    requires var (d, m) := Hear(port, packet).value;
             && |ip| >= IP_HEADER_MIN && ip[0] as int / 16 == 4 && IpHeaderSize(ip) == |ip| && ip[9] == UDP_PROTOCOL
             && FromBytes(ip[2..4]) == |ip| + UDP_HEADER_SIZE + EchoProtocol.HEADER_SIZE + |m.payload|
             && ip[12..16] == d.destination && ip[16..20] == d.source
    ensures var (d, m) := Hear(port, packet).value;
            var key := Key(d.source, d.sourcePort);
            var reply := HandleMessage(TableAfter(history), key, m).1;
            && reply.Some? && ReplyPacket(port, d, reply.value).Some?
            && var back := Parse(ip + ReplyPacket(port, d, reply.value).value + []);
            && back.Some? && back.value.source == d.destination && back.value.sourcePort == port
            && back.value.destinationPort == d.sourcePort
            && Decode(back.value.payload) == Some(Message(RESPONSE, RequestsSinceClose(history, key) + 1, m.payload))
  {
    hide TableAfter, RequestsSinceClose, Parse, Decode, UdpBytes, ToBytes, FromBytes, Header;
    var (d, m) := Hear(port, packet).value;
    EveryReply(history, Key(d.source, d.sourcePort), m);
    ParsedIsOk(packet);
    var reply := Message(RESPONSE, RequestsSinceClose(history, Key(d.source, d.sourcePort)) + 1, m.payload);
    HeaderSize(reply);
    DecodeEncode(reply);
    var out := Datagram(d.destination, d.source, port, d.sourcePort, Encode(reply).value);
    ParseBuiltPacket(ip, out, []);
  }

  lemma HeaderSize(m: Message)
    requires FieldsAreValid(m)
    ensures |Header(m)| == EchoProtocol.HEADER_SIZE
  {
  }

  lemma ParsedIsOk(packet: seq<byte>)
    requires Parse(packet).Some?
    ensures DatagramIsOk(Parse(packet).value)
  {
    hide FromBytes, Finished, UdpSum;
    var udp := packet[IpHeaderSize(packet)..FromBytes(packet[2..4])];
    TwoBytes(udp[0..2]);
    TwoBytes(udp[2..4]);
  }
}
