/** Echo messages on the wire, and what becomes of a packet that carries one. */
module EchoWire {
  import opened Bytes
  import opened Wrappers
  import opened EchoProtocol
  import opened EchoServer
  import opened EchoLoop
  import opened RawUdp

  /** The three packet types with what each may carry. */
  predicate Allowed(kind: nat, counter: nat, size: nat) {
    || (kind == 1 && counter == 0 && size <= 1024)
    || (kind == 2 && counter > 0 && size <= 1024)
    || (kind == 3 && counter == 0 && size == 0)
  }

  /** ECHO, version 1, the type, the size, the counter and the payload. */
  predicate LaidOut(m: Message, b: seq<byte>) {
    && |b| == 12 + |m.payload| && b[0] == 0x45 && b[1] == 0x43 && b[2] == 0x48 && b[3] == 0x4F && b[4] == 1
    && b[5] == m.kind && Pair(b, 6) == |m.payload| && Pair(b, 8) * 0x1_0000 + Pair(b, 10) == m.counter
    && b[12..] == m.payload && Allowed(m.kind, m.counter, |m.payload|)
  }

  lemma HeaderRead(b: seq<byte>)
    requires |b| >= 12
    ensures FromBytes(b[6..8]) == Pair(b, 6) && FromBytes(b[8..12]) == Pair(b, 8) * 0x1_0000 + Pair(b, 10)
    ensures FromBytes(b[0..4]) == MAGIC <==> b[0] == 0x45 && b[1] == 0x43 && b[2] == 0x48 && b[3] == 0x4F
  {
    hide FromBytes;
    NetworkOrder(b[0..4]);
    NetworkOrder(b[6..8]);
    NetworkOrder(b[8..12]);
  }

  /** Exactly which bytes are decoded, and to what. */
  lemma {:induction false} DecodedIff(b: seq<byte>, m: Message)
    ensures Decode(b) == Some(m) <==> LaidOut(m, b)
  {
    hide FromBytes, Pair;
    if |b| >= 12 {
      HeaderRead(b);
    }
  }

  /** And exactly which messages are encoded, and as what. */
  lemma {:induction false} EncodedIff(m: Message, b: seq<byte>)
    requires m.counter < UINT32_RANGE
    ensures Encode(m) == Some(b) <==> LaidOut(m, b)
  {
    hide LaidOut, Encode, Decode;
    DecodedIff(b, m);
    if Encode(m) == Some(b) {
      DecodeEncode(m);
    }
    if LaidOut(m, b) {
      EncodeDecode(b);
    }
  }

  /** An IPv4 header, of any length, in front of a datagram. */
  predicate Heads(ip: seq<byte>, d: Datagram) {
    && |ip| >= 20 && ip[0] as int / 16 == 4 && ip[0] as int % 16 * 4 == |ip| && ip[9] == 17
    && Pair(ip, 2) == |ip| + 8 + |d.payload| && ip[12..16] == d.source && ip[16..20] == d.destination
  }

  /** Every message that can be encoded, sent to the server's port from anywhere, is heard as what it is. */
  lemma MessageIsHeard(port: nat, ip: seq<byte>, d: Datagram, m: Message, extra: seq<byte>)
    requires DatagramIsOk(d) && d.destinationPort == port && m.counter < UINT32_RANGE && Encode(m) == Some(d.payload)
    requires Build(d).Some? && Heads(ip, d)
    ensures Hear(port, ip + Build(d).value + extra) == Some((d, m))
  {
    hide Parse, Encode, Decode, Build, DatagramIsOk;
    NetworkOrder(ip[2..4]);
    ParseBuiltPacket(ip, d, extra);
    DecodeEncode(m);
  }

  /** So a request of at most 1024 bytes is answered, whatever was received before, until the numbers are used up. */
  lemma RequestIsAnswered(port: nat, packets: seq<seq<byte>>, ip: seq<byte>, d: Datagram, text: seq<byte>, extra: seq<byte>)
    requires DatagramIsOk(d) && d.destinationPort == port && |text| <= 1024
    requires LaidOut(Message(1, 0, text), d.payload) && Heads(ip, d)
    ensures Build(d).Some?
    ensures var n := RequestsSinceClose(HistoryOf(port, packets), Key(d.source, d.sourcePort));
            SentAfter(port, packets + [ip + Build(d).value + extra]) == SentAfter(port, packets) +
            if n < 0x1_0000_0000 - 1 then [Outgoing(UdpBytes(AnswerTo(port, d, n + 1, text)), d.source)] else []
  {
    hide Parse, Encode, Decode, Hear, RequestsSinceClose, HistoryOf, SentAfter, UdpBytes;
    var m := Message(1, 0, text);
    EncodedIff(m, d.payload);
    MessageIsHeard(port, ip, d, m, extra);
    EveryAnswer(port, packets, ip + Build(d).value + extra);
  }

  /** And a CLOSE is not answered, and makes the client's next request its first. */
  lemma CloseIsHeard(port: nat, packets: seq<seq<byte>>, ip: seq<byte>, d: Datagram, extra: seq<byte>)
    requires DatagramIsOk(d) && d.destinationPort == port && LaidOut(Message(3, 0, []), d.payload) && Heads(ip, d)
    ensures Build(d).Some?
    ensures var longer := packets + [ip + Build(d).value + extra];
            && SentAfter(port, longer) == SentAfter(port, packets)
            && RequestsSinceClose(HistoryOf(port, longer), Key(d.source, d.sourcePort)) == 0
  {
    hide Parse, Encode, Decode, Hear, SentAfter, UdpBytes, HistoryOf, RequestsSinceClose;
    var m := Message(3, 0, []);
    var packet := ip + Build(d).value + extra;
    EncodedIff(m, d.payload);
    MessageIsHeard(port, ip, d, m, extra);
    EveryAnswer(port, packets, packet);
    var sent := SentAfter(port, packets);
    assert sent + [] == sent;
    HeardLast(port, packets, packet);
    ClosedNow(HistoryOf(port, packets), Key(d.source, d.sourcePort), m);
  }

  lemma HeardLast(port: nat, packets: seq<seq<byte>>, packet: seq<byte>)
    requires Hear(port, packet).Some?
    ensures var (d, m) := Hear(port, packet).value;
            HistoryOf(port, packets + [packet]) == HistoryOf(port, packets) + [Received(KeyOf(d), m)]
  {
    hide Hear;
    assert (packets + [packet])[..|packets|] == packets;
  }

  lemma ClosedNow(history: seq<Received>, key: Key, m: Message)
    requires m == Message(3, 0, [])
    ensures RequestsSinceClose(history + [Received(key, m)], key) == 0
  {
  }

  /** What comes back, byte by byte: type 2, the number of the request and its text. */
  lemma AnswerLayout(port: nat, d: Datagram, n: nat, text: seq<byte>)
    requires |text| <= 1024 && n < 0x1_0000_0000 - 1
    ensures var a := AnswerTo(port, d, n + 1, text);
            && LaidOut(Message(2, n + 1, text), a.payload) && a.sourcePort == port && a.destinationPort == d.sourcePort
            && a.source == d.destination && a.destination == d.source
  {
    hide ToBytes, LaidOut;
    var m := Message(2, n + 1, text);
    EncodedIff(m, Header(m) + text);
  }
}
