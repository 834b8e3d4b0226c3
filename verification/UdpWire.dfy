/** Datagrams on the wire, byte by byte. */
module UdpWire {
  import opened Bytes
  import opened Wrappers
  import opened RawUdp

  /** What a built datagram's checksum covers, by its parts. */
  function Covered(d: Datagram): nat {
    Pair(d.source, 0) + Pair(d.source, 2) + Pair(d.destination, 0) + Pair(d.destination, 2) + 17 + 2 * (8 + |d.payload|)
    + d.sourcePort + d.destinationPort + AllWords(d.payload)
  }

  /** When a datagram can be built, and every byte of it. */
  lemma BuiltLayout(d: Datagram)
    requires DatagramIsOk(d)
    ensures Build(d).Some? <==> |d.payload| <= 65527
    ensures Build(d).Some? ==>
              var udp := Build(d).value;
              && |udp| == 8 + |d.payload| && udp[8..] == d.payload
              && Pair(udp, 0) == d.sourcePort && Pair(udp, 2) == d.destinationPort && Pair(udp, 4) == |udp|
              && Pair(udp, 6) == 65535 - Covered(d) % 65535
  {
    hide ToBytes, FromBytes, SumWords, AllWords, Finished, UdpSum, Pair, Total, Covered;
    if |d.payload| <= 65527 {
      var size := 8 + |d.payload|;
      var front := HeaderFront(d.sourcePort, d.destinationPort, size);
      TwoBytesOf(d.sourcePort);
      TwoBytesOf(d.destinationPort);
      TwoBytesOf(size);
      TwoBytesOf(CheckOf(d));
      CheckIs(d);
      var udp := Build(d).value;
      PairOfSlice(udp, 0, ToBytes(d.sourcePort, 2));
      PairOfSlice(udp, 2, ToBytes(d.destinationPort, 2));
      PairOfSlice(udp, 4, ToBytes(size, 2));
      PairOfSlice(udp, 6, ToBytes(CheckOf(d), 2));
    }
  }

  lemma PairOfSlice(b: seq<byte>, at: nat, two: seq<byte>)
    requires |two| == 2 && at + 2 <= |b| && b[at..at + 2] == two
    ensures Pair(b, at) == Pair(two, 0)
  {
    assert b[at] == b[at..at + 2][0] && b[at + 1] == b[at..at + 2][1];
  }

  lemma CheckIs(d: Datagram)
    requires DatagramIsOk(d) && |d.payload| <= 65527
    ensures CheckOf(d) == 65535 - Covered(d) % 65535
  {
    hide ToBytes, SumWords, AllWords, Finished, UdpSum, Pair;
    var size := 8 + |d.payload|;
    var front := HeaderFront(d.sourcePort, d.destinationPort, size);
    var udp := WithCheck(front, 0, d.payload);
    ChecksumIs(d.source, d.destination, udp);
    WordsWithZero(d, udp);
  }

  lemma WordsWithZero(d: Datagram, udp: seq<byte>)
    requires DatagramIsOk(d) && |d.payload| <= 65527
    requires udp == WithCheck(HeaderFront(d.sourcePort, d.destinationPort, 8 + |d.payload|), 0, d.payload)
    ensures |udp| == 8 + |d.payload| && AllWords(udp) == d.sourcePort + d.destinationPort + |udp| + AllWords(d.payload)
  {
    hide ToBytes, SumWords, AllWords;
    var size := 8 + |d.payload|;
    TwoBytesOf(d.sourcePort);
    TwoBytesOf(d.destinationPort);
    TwoBytesOf(size);
    TwoBytesOf(0);
    SumIsAllWords(udp);
    SumIsAllWords(d.payload);
    FirstWord(ToBytes(d.sourcePort, 2), udp);
    FirstWord(ToBytes(d.destinationPort, 2), udp[2..]);
    FirstWord(ToBytes(size, 2), udp[4..]);
    FirstWord(ToBytes(0, 2), udp[6..]);
    assert udp[2..][2..] == udp[4..] && udp[4..][2..] == udp[6..] && udp[6..][2..] == udp[8..] == d.payload;
  }

  lemma FirstWord(two: seq<byte>, data: seq<byte>)
    requires |two| == 2 && |data| >= 2 && data[..2] == two
    ensures SumWords(data) == Pair(two, 0) + SumWords(data[2..])
  {
    assert data[0] == data[..2][0] && data[1] == data[..2][1];
  }

  /**
   Exactly which packets are accepted: an IPv4 header of at least 20 bytes that names UDP, a total length that
   the packet holds, the same length in the datagram, and either no checksum or one that makes the sum a
   multiple of 65535; and what is read from where.
   */
  lemma ParsedIff(packet: seq<byte>)
    ensures var size, total := At(packet, 0) % 16 * 4, Pair(packet, 2);
            Parse(packet).Some? <==>
            && |packet| >= 20 && packet[0] as int / 16 == 4 && size >= 20 && packet[9] == 17
            && size + 8 <= total <= |packet| && Pair(packet, size + 4) == total - size
            && (Pair(packet, size + 6) == 0
                || Total(packet[12..16], packet[16..20], packet[size..total]) % 65535 == 0)
    ensures Parse(packet).Some? ==>
              var d, size, total := Parse(packet).value, At(packet, 0) % 16 * 4, Pair(packet, 2);
              && d.source == packet[12..16] && d.destination == packet[16..20]
              && d.sourcePort == Pair(packet, size) && d.destinationPort == Pair(packet, size + 2)
              && d.payload == packet[size + 8..total]
  {
    hide FromBytes, AllWords, Finished, UdpSum, Pair, Total;
    if |packet| >= 20 {
      PairRead(packet, 2);
      var size, total := IpHeaderSize(packet), Pair(packet, 2);
      if IpHeaderIsOk(packet) {
        var udp := packet[size..total];
        ReadThere(packet, size, total, 0);
        ReadThere(packet, size, total, 2);
        ReadThere(packet, size, total, 4);
        ReadThere(packet, size, total, 6);
        TotalNotZero(packet[12..16], packet[16..20], udp);
        ChecksumIs(packet[12..16], packet[16..20], udp);
      }
    }
  }

  lemma PairRead(b: seq<byte>, at: nat)
    requires at + 2 <= |b|
    ensures FromBytes(b[at..at + 2]) == Pair(b, at) < UINT16_RANGE
  {
    NetworkOrder(b[at..at + 2]);
  }

  lemma ReadThere(packet: seq<byte>, from: nat, to: nat, at: nat)
    requires from <= to <= |packet| && at + 2 <= to - from
    ensures FromBytes(packet[from..to][at..at + 2]) == Pair(packet, from + at)
  {
    hide FromBytes;
    PairRead(packet, from + at);
    assert packet[from..to][at..at + 2] == packet[from + at..from + at + 2];
  }

  lemma TotalNotZero(source: seq<byte>, destination: seq<byte>, udp: seq<byte>)
    ensures Total(source, destination, udp) > 0
  {
    hide AllWords;
  }

  lemma BytesOf(b: seq<byte>, at: nat)
    requires at + 2 <= |b|
    ensures b[at] == Pair(b, at) / 256 && b[at + 1] == Pair(b, at) % 256
  {
  }

  /** A datagram that other implementations of RFC 768 build, and accept, too. */
  lemma KnownDatagram()
    ensures Build(Datagram([127, 0, 0, 1], [127, 0, 0, 1], 1000, 2000, [])) ==
            Some([0x03, 0xE8, 0x07, 0xD0, 0x00, 0x08, 0xF6, 0x23])
  {
    hide ToBytes, Build;
    var d := Datagram([127, 0, 0, 1], [127, 0, 0, 1], 1000, 2000, []);
    BuiltLayout(d);
    assert Covered(d) == 68059;
    var udp := Build(d).value;
    BytesOf(udp, 0);
    BytesOf(udp, 2);
    BytesOf(udp, 4);
    BytesOf(udp, 6);
    assert udp == [udp[0], udp[1], udp[2], udp[3], udp[4], udp[5], udp[6], udp[7]];
  }
}
