/** The echo server's loop, from the packets received to the packets sent. */
module EchoLoop {
  import opened Bytes
  import opened Wrappers
  import opened EchoProtocol
  import opened EchoServer
  import opened EchoState
  import opened RawUdp

  const RECEIVE_MAX := UINT16_RANGE - 1
  const RESPONSE_MAX := EchoProtocol.HEADER_SIZE + PAYLOAD_MAX
  const OUTGOING_MAX := UDP_HEADER_SIZE + RESPONSE_MAX

  /** A packet handed to the socket and the address it is sent to. */
  datatype Outgoing = Outgoing(packet: seq<byte>, destination: seq<byte>)

  function KeyOf(d: Datagram): Key {
    Key(d.source, d.sourcePort)
  }

  /** What the packets received amount to: the messages heard and who they came from. */
  function HistoryOf(port: nat, packets: seq<seq<byte>>): seq<Received> {
    if packets == [] then []
    else
      HistoryOf(port, packets[..|packets| - 1]) +
      match Hear(port, packets[|packets| - 1])
      case None => []
      case Some((d, m)) => [Received(KeyOf(d), m)]
  }

  /** One turn of the loop, on a table of counters. */
  function Turn(table: Table, port: nat, packet: seq<byte>): (r: (Table, seq<Outgoing>)) {
    match Hear(port, packet)
    case None => (table, [])
    case Some((d, m)) =>
      var (next, reply) := HandleMessage(table, KeyOf(d), m);
      (next, if reply.Some? && ReplyPacket(port, d, reply.value).Some?
             then [Outgoing(ReplyPacket(port, d, reply.value).value, d.source)] else [])
  }

  /** Everything sent in a run. */
  function SentAfter(port: nat, packets: seq<seq<byte>>): seq<Outgoing> {
    if packets == [] then []
    else
      var before, packet := packets[..|packets| - 1], packets[|packets| - 1];
      SentAfter(port, before) + Turn(TableAfter(HistoryOf(port, before)), port, packet).1
  }

  lemma HistoryStep(port: nat, packets: seq<seq<byte>>, packet: seq<byte>)
    ensures TableAfter(HistoryOf(port, packets + [packet])) == Turn(TableAfter(HistoryOf(port, packets)), port, packet).0
    ensures SentAfter(port, packets + [packet]) ==
            SentAfter(port, packets) + Turn(TableAfter(HistoryOf(port, packets)), port, packet).1
  {
    hide HandleMessage, Hear, ReplyPacket;
    assert (packets + [packet])[..|packets|] == packets;
    var history := HistoryOf(port, packets);
    match Hear(port, packet) {
      case None => assert history + [] == history;
      case Some((d, m)) => assert (history + [Received(KeyOf(d), m)])[..|history|] == history;
    }
  }

  /**
   Whatever was received before: a packet is answered if and only if it is a datagram to this port that
   carries a request, from a client that has not used up its numbers; the answer goes to its sender and
   carries the client's own text and the number of its request.
   */
  lemma EveryAnswer(port: nat, packets: seq<seq<byte>>, packet: seq<byte>)
    requires port < UINT16_RANGE
    ensures SentAfter(port, packets + [packet]) == SentAfter(port, packets) +
            match Hear(port, packet)
            case None => []
            case Some((d, m)) =>
              var n := RequestsSinceClose(HistoryOf(port, packets), KeyOf(d));
              if !Asks(m) || n >= COUNTER_MAX then []
              else [Outgoing(UdpBytes(AnswerTo(port, d, n + 1, m.payload)), d.source)]
  {
    hide HandleMessage, Hear, TableAfter, RequestsSinceClose, HistoryOf, SentAfter, UdpBytes, Header;
    HistoryStep(port, packets, packet);
    if Hear(port, packet).Some? {
      var (d, m) := Hear(port, packet).value;
      EveryReply(HistoryOf(port, packets), KeyOf(d), m);
      var n := RequestsSinceClose(HistoryOf(port, packets), KeyOf(d));
      if Asks(m) && n < COUNTER_MAX {
        HeaderSize(Message(RESPONSE, n + 1, m.payload));
      }
    }
  }

  /** The answer's datagram, back to where the request came from. */
  function AnswerTo(port: nat, d: Datagram, counter: nat, text: seq<byte>): Datagram {
    Datagram(d.destination, d.source, port, d.sourcePort, Header(Message(RESPONSE, counter, text)) + text)
  }

  // ---------- in place ----------

  lemma ReplyCanBeSent(table: Table, port: nat, d: Datagram, m: Message)
    requires (forall key :: key in table ==> 1 <= table[key] <= COUNTER_MAX) && port < UINT16_RANGE && DatagramIsOk(d)
    requires HandleMessage(table, KeyOf(d), m).1.Some?
    ensures var reply := HandleMessage(table, KeyOf(d), m).1.value;
            && Encode(reply).Some? && |Encode(reply).value| <= RESPONSE_MAX
            && var out := Datagram(d.destination, d.source, port, d.sourcePort, Encode(reply).value);
               DatagramIsOk(out) && Build(out).Some? && |Build(out).value| <= OUTGOING_MAX
  {
    hide UdpBytes, Header;
    HeaderSize(HandleMessage(table, KeyOf(d), m).1.value);
  }

  /** Encode a reply and put it into a datagram. */
  method SendReply(port: nat, d: Datagram, reply: Message, encoded: array<byte>, outgoing: array<byte>)
    returns (sent: Outgoing)
    requires encoded != outgoing && encoded.Length == RESPONSE_MAX && outgoing.Length == OUTGOING_MAX
    requires Encode(reply).Some? && |Encode(reply).value| <= RESPONSE_MAX
    requires var out := Datagram(d.destination, d.source, port, d.sourcePort, Encode(reply).value);
             DatagramIsOk(out) && Build(out).Some? && |Build(out).value| <= OUTGOING_MAX
    modifies encoded, outgoing
    ensures ReplyPacket(port, d, reply).Some? && sent == Outgoing(ReplyPacket(port, d, reply).value, d.source)
  {
    hide Build, Encode, DatagramIsOk;
    var ok, encodedSize := EncodeInto(reply, encoded, encoded.Length);
    assert ok;
    var built, size := BuildPacket(outgoing, outgoing.Length,
                                   Datagram(d.destination, d.source, port, d.sourcePort, encoded[..encodedSize]));
    assert built;
    sent := Outgoing(outgoing[..size], d.source);
  }

  /** One turn of server_run, for a packet that recvfrom has put into the buffer. */
  method HandlePacket(state: ServerState, port: nat, packet: array<byte>, size: nat, encoded: array<byte>,
                      outgoing: array<byte>)
    returns (sent: seq<Outgoing>)
    requires state.Valid() && port < UINT16_RANGE && size <= packet.Length
    requires encoded != outgoing && packet != encoded && packet != outgoing
    requires encoded.Length == RESPONSE_MAX && outgoing.Length == OUTGOING_MAX
    modifies state, state.nodes, encoded, outgoing
    ensures state.Valid() && (state.table, sent) == Turn(old(state.table), port, packet[..size])
    ensures forall n :: n in state.nodes ==> n in old(state.nodes) || fresh(n)
  {
    hide ServerState.Valid, HandleMessage, Build, Encode, Decode, Parse;
    var parsed := ParsePacket(packet, size);
    if parsed.None? {
      return [];
    }
    var d := parsed.value;
    if d.destinationPort != port {
      return [];
    }
    var decoded := Decode(d.payload);
    if decoded.None? {
      return [];
    }
    ParsedIsOk(packet[..size]);
    state.CountersAreOk();
    ghost var table := state.table;
    var ok, response := state.HandleMessage(KeyOf(d), decoded.value);
    if response.None? {
      return [];
    }
    ReplyCanBeSent(table, port, d, decoded.value);
    var reply := SendReply(port, d, response.value, encoded, outgoing);
    sent := [reply];
  }

  /** A whole run of the server on the packets that arrive. */
  method Execute(port: nat, packets: seq<seq<byte>>) returns (state: ServerState, sent: seq<Outgoing>)
    requires port < UINT16_RANGE && forall i :: 0 <= i < |packets| ==> |packets[i]| <= RECEIVE_MAX
    ensures state.Valid() && state.table == TableAfter(HistoryOf(port, packets)) && sent == SentAfter(port, packets)
  {
    hide ServerState.Valid, Turn, HistoryOf, TableAfter, SentAfter;
    state := new ServerState();
    var packet, encoded, outgoing := new byte[RECEIVE_MAX], new byte[RESPONSE_MAX], new byte[OUTGOING_MAX];
    sent := [];
    NothingReceived(port);
    var i := 0;
    while i < |packets|
      invariant i <= |packets| && state.Valid() && fresh(state) && fresh(state.nodes)
      invariant state.table == TableAfter(HistoryOf(port, packets[..i])) && sent == SentAfter(port, packets[..i])
    {
      ghost var before := state.nodes;
      var size := Put(packet, 0, packets[i]);
      assert packet[..size] == packets[i];
      var more := HandlePacket(state, port, packet, size, encoded, outgoing);
      forall j | 0 <= j < |state.nodes| ensures fresh(state.nodes[j]) {
        assert state.nodes[j] in state.nodes;
        if state.nodes[j] in before {
          var k :| 0 <= k < |before| && before[k] == state.nodes[j];
        }
      }
      HistoryStep(port, packets[..i], packets[i]);
      assert packets[..i + 1] == packets[..i] + [packets[i]];
      sent := sent + more;
      i := i + 1;
    }
    assert packets[..i] == packets;
  }

  lemma NothingReceived(port: nat)
    ensures TableAfter(HistoryOf(port, [])) == map[] && SentAfter(port, []) == []
  {
  }
}
