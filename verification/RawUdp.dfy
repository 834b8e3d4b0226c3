/** UDP datagrams over raw sockets: the checksum, building a datagram and accepting one. */
module RawUdp {
  import opened Bytes
  import opened Wrappers

  const UDP_HEADER_SIZE := 8
  const UDP_PROTOCOL: byte := 17
  const IP_HEADER_MIN := 20

  datatype Datagram = Datagram(source: seq<byte>, destination: seq<byte>, sourcePort: nat, destinationPort: nat,
                               payload: seq<byte>)

  // ---------- the checksum ----------

  function Word(high: byte, low: byte): (w: nat)
    ensures w < UINT16_RANGE
  {
    high as int * 256 + low as int
  }

  /** Sixteen-bit words, the first byte of each the high one; an odd last byte is padded with zero. */
  function SumWords(data: seq<byte>): nat
    decreases |data|
  {
    if data == [] then 0
    else if |data| == 1 then Word(data[0], 0)
    else Word(data[0], data[1]) + SumWords(data[2..])
  }

  /** Adding the carries back in until none is left. */
  function Fold(sum: nat): (r: nat)
    ensures r < UINT16_RANGE
  {
    if sum < UINT16_RANGE then sum else Fold(sum % UINT16_RANGE + sum / UINT16_RANGE)
  }

  function Finished(sum: nat): (r: nat)
    ensures r < UINT16_RANGE
  {
    UINT16_RANGE - 1 - Fold(sum)
  }

  function PseudoHeader(source: seq<byte>, destination: seq<byte>, size: nat): seq<byte> {
    source + destination + [0, UDP_PROTOCOL] + ToBytes(size, 2)
  }

  function UdpSum(source: seq<byte>, destination: seq<byte>, udp: seq<byte>): nat {
    SumWords(PseudoHeader(source, destination, |udp|)) + SumWords(udp)
  }

  // ---------- the checksum as a number ----------

  /** A byte, or the zero that pads an odd last one. */
  function At(data: seq<byte>, i: nat): nat {
    if i < |data| then data[i] else 0
  }

  function Pair(data: seq<byte>, i: nat): nat {
    At(data, i) * 256 + At(data, i + 1)
  }

  /** The first n words of some data, added up. */
  function Words(data: seq<byte>, n: nat): nat {
    if n == 0 then 0 else Words(data, n - 1) + Pair(data, 2 * (n - 1))
  }

  function AllWords(data: seq<byte>): nat {
    Words(data, (|data| + 1) / 2)
  }

  lemma {:induction false} WordsShift(data: seq<byte>, n: nat)
    requires |data| >= 2
    ensures Words(data, n + 1) == Pair(data, 0) + Words(data[2..], n)
  {
    if n > 0 {
      WordsShift(data, n - 1);
    }
  }

  lemma {:induction false} SumIsAllWords(data: seq<byte>)
    ensures SumWords(data) == AllWords(data)
    decreases |data|
  {
    if |data| >= 2 {
      SumIsAllWords(data[2..]);
      WordsShift(data, (|data| - 1) / 2);
    } else if |data| == 1 {
      assert Words(data, 1) == Words(data, 0) + Pair(data, 0);
    }
  }

  /** What the checksum covers: both addresses, the protocol, the length, and the datagram itself. */
  function Total(source: seq<byte>, destination: seq<byte>, udp: seq<byte>): nat {
    Pair(source, 0) + Pair(source, 2) + Pair(destination, 0) + Pair(destination, 2) + 17 + |udp| + AllWords(udp)
  }

  lemma UdpSumIsTotal(source: seq<byte>, destination: seq<byte>, udp: seq<byte>)
    requires AddressesAreOk(source, destination) && |udp| < UINT16_RANGE
    ensures UdpSum(source, destination, udp) == Total(source, destination, udp)
  {
    hide AllWords, ToBytes, FromBytes;
    SumIsAllWords(udp);
    var size := ToBytes(|udp|, 2);
    TwoBytesOf(|udp|);
    var p := PseudoHeader(source, destination, |udp|);
    assert p == [source[0], source[1]] + [source[2], source[3]] + [destination[0], destination[1]]
                + [destination[2], destination[3]] + [0, UDP_PROTOCOL] + [size[0], size[1]];
    SumOfSix(p);
  }

  lemma TwoBytesOf(v: nat)
    requires v < UINT16_RANGE
    ensures Pair(ToBytes(v, 2), 0) == v
  {
    Widths();
    FromToBytes(v, 2);
    NetworkOrder(ToBytes(v, 2));
  }

  lemma SumOfSix(p: seq<byte>)
    requires |p| == 12
    ensures SumWords(p) == Pair(p, 0) + Pair(p, 2) + Pair(p, 4) + Pair(p, 6) + Pair(p, 8) + Pair(p, 10)
  {
    assert SumWords(p[10..]) == Pair(p, 10) + SumWords(p[10..][2..]) && p[10..][2..] == [];
    assert SumWords(p[8..]) == Pair(p, 8) + SumWords(p[8..][2..]) && p[8..][2..] == p[10..];
    assert SumWords(p[6..]) == Pair(p, 6) + SumWords(p[6..][2..]) && p[6..][2..] == p[8..];
    assert SumWords(p[4..]) == Pair(p, 4) + SumWords(p[4..][2..]) && p[4..][2..] == p[6..];
    assert SumWords(p[2..]) == Pair(p, 2) + SumWords(p[2..][2..]) && p[2..][2..] == p[4..];
    assert SumWords(p) == Pair(p, 0) + SumWords(p[2..]);
  }

  /** Folded and complemented, a sum that is not zero is what is missing to a multiple of 65535. */
  lemma FinishedIs(sum: nat)
    requires sum > 0
    ensures Finished(sum) == (65535 - sum % 65535) % 65535
  {
    FoldIsModular(sum);
    var f := Fold(sum);
    if f == 65535 {
      assert sum % 65535 == 0;
    } else {
      assert f % 65535 == f;
    }
  }

  /** The checksum as a number. */
  lemma ChecksumIs(source: seq<byte>, destination: seq<byte>, udp: seq<byte>)
    requires AddressesAreOk(source, destination) && |udp| < UINT16_RANGE
    ensures Finished(UdpSum(source, destination, udp)) == (65535 - Total(source, destination, udp) % 65535) % 65535
  {
    UdpSumIsTotal(source, destination, udp);
    FinishedIs(Total(source, destination, udp));
  }

  // ---------- the checksum in place ----------

  /** checksum_add: a 32-bit accumulator over a stretch of a buffer. */
  method ChecksumAdd(start: nat, buffer: array<byte>, from: nat, to: nat) returns (sum: nat)
    requires start < UINT32_RANGE && from <= to <= buffer.Length
    ensures sum == (start + SumWords(buffer[from..to])) % UINT32_RANGE
  {
    sum := start;
    var at: nat, size: nat := from, to - from;
    while size >= 2
      invariant at + size == to && sum < UINT32_RANGE
      invariant (sum + SumWords(buffer[at..to])) % UINT32_RANGE == (start + SumWords(buffer[from..to])) % UINT32_RANGE
    {
      var word := Word(buffer[at], buffer[at + 1]);
      assert buffer[at..to][2..] == buffer[at + 2..to];
      WrapLate(sum + word, SumWords(buffer[at + 2..to]));
      sum := (sum + word) % UINT32_RANGE;
      at, size := at + 2, size - 2;
    }
    if size == 1 {
      sum := (sum + Word(buffer[at], 0)) % UINT32_RANGE;
    }
  }

  lemma WrapLate(a: nat, b: nat)
    ensures (a % UINT32_RANGE + b) % UINT32_RANGE == (a + b) % UINT32_RANGE
  {
  }

  /** checksum_finish. */
  method ChecksumFinish(total: nat) returns (r: nat)
    requires total < UINT32_RANGE
    ensures r == Finished(total)
  {
    var sum: nat := total;
    while sum / UINT16_RANGE != 0
      invariant Fold(sum) == Fold(total)
      decreases sum
    {
      sum := sum % UINT16_RANGE + sum / UINT16_RANGE;
    }
    r := UINT16_RANGE - 1 - sum;
  }

  method MakePseudoHeader(source: seq<byte>, destination: seq<byte>, size: nat) returns (pseudo: array<byte>)
    requires |source| == 4 && |destination| == 4
    ensures pseudo[..] == PseudoHeader(source, destination, size) && fresh(pseudo)
  {
    hide ToBytes;
    pseudo := new byte[12](_ => 0);
    var at := Put(pseudo, 0, source);
    at := Put(pseudo, at, destination);
    at := Put(pseudo, at, [0, UDP_PROTOCOL]);
    at := Put(pseudo, at, ToBytes(size, 2));
    assert pseudo[..] == pseudo[..12];
  }

  /** udp_checksum of the datagram in a stretch of a buffer. */
  method UdpChecksum(source: seq<byte>, destination: seq<byte>, buffer: array<byte>, from: nat, to: nat) returns (r: nat)
    requires |source| == 4 && |destination| == 4 && from <= to <= buffer.Length && to - from < UINT16_RANGE
    ensures r == Finished(UdpSum(source, destination, buffer[from..to]))
    ensures r == (65535 - Total(source, destination, buffer[from..to]) % 65535) % 65535
  {
    hide SumWords, ToBytes, Finished, PseudoHeader, Total, UdpSum;
    ChecksumIs(source, destination, buffer[from..to]);
    PseudoHeaderSize(source, destination, to - from);
    var pseudo := MakePseudoHeader(source, destination, to - from);
    assert pseudo[0..12] == pseudo[..];
    SumFits(pseudo[0..12], buffer[from..to]);
    var sum := ChecksumAdd(0, pseudo, 0, 12);
    sum := ChecksumAdd(sum, buffer, from, to);
    SumOfParts16(source, destination, buffer[from..to], sum);
    r := ChecksumFinish(sum);
  }

  lemma SumOfParts16(source: seq<byte>, destination: seq<byte>, udp: seq<byte>, sum: nat)
    requires sum == SumWords(PseudoHeader(source, destination, |udp|)) + SumWords(udp)
    ensures sum == UdpSum(source, destination, udp)
  {
  }

  lemma PseudoHeaderSize(source: seq<byte>, destination: seq<byte>, size: nat)
    requires |source| == 4 && |destination| == 4
    ensures |PseudoHeader(source, destination, size)| == 12
  {
  }

  /** The sum over the largest datagram and its pseudo-header stays inside 32 bits. */
  lemma SumFits(pseudo: seq<byte>, udp: seq<byte>)
    requires |pseudo| == 12 && |udp| < UINT16_RANGE
    ensures SumWords(pseudo) + SumWords(udp) < UINT32_RANGE
  {
    SumIsSmall(pseudo);
    SumIsSmall(udp);
  }

  lemma {:induction false} SumIsSmall(data: seq<byte>)
    ensures SumWords(data) <= (|data| + 1) / 2 * (UINT16_RANGE - 1)
    decreases |data|
  {
    if |data| >= 2 {
      SumIsSmall(data[2..]);
    }
  }

  // ---------- the carries may wait ----------

  /** One's-complement addition: the carry comes back in at the low end. */
  function EndAroundAdd(a: nat, b: nat): nat {
    if a + b < UINT16_RANGE then a + b else a + b - (UINT16_RANGE - 1)
  }

  /** The one's-complement sum of the words, carries taken in at every step. */
  function EndAroundSum(data: seq<byte>): (r: nat)
    ensures r < UINT16_RANGE
    decreases |data|
  {
    if data == [] then 0
    else if |data| == 1 then Word(data[0], 0)
    else EndAroundAdd(Word(data[0], data[1]), EndAroundSum(data[2..]))
  }

  /** Folding keeps the sum modulo 65535, and only zero folds to zero. */
  lemma {:induction false} FoldIsModular(sum: nat)
    ensures Fold(sum) % (UINT16_RANGE - 1) == sum % (UINT16_RANGE - 1)
    ensures Fold(sum) == 0 <==> sum == 0
    decreases sum
  {
    if sum >= UINT16_RANGE {
      var high, low := sum / UINT16_RANGE, sum % UINT16_RANGE;
      assert sum == high * (UINT16_RANGE - 1) + (high + low);
      MultipleAway(high, high + low);
      FoldIsModular(low + high);
    }
  }

  lemma MultipleAway(k: nat, x: nat)
    ensures (k * 65535 + x) % 65535 == x % 65535
  {
  }

  /** Two numbers below 2^16 that are both zero or both not, and equal modulo 65535, are equal. */
  lemma SameResidue(a: nat, b: nat)
    requires a < UINT16_RANGE && b < UINT16_RANGE && a % 65535 == b % 65535 && (a == 0 <==> b == 0)
    ensures a == b
  {
  }

  lemma {:induction false} EndAroundIsModular(data: seq<byte>)
    ensures EndAroundSum(data) % 65535 == SumWords(data) % 65535
    ensures EndAroundSum(data) == 0 <==> SumWords(data) == 0
    decreases |data|
  {
    if |data| >= 2 {
      EndAroundIsModular(data[2..]);
      var word, e, s := Word(data[0], data[1]), EndAroundSum(data[2..]), SumWords(data[2..]);
      AddResidues(word, e, s);
      if word + e >= UINT16_RANGE {
        MultipleAway(1, word + e - 65535);
      }
    }
  }

  lemma AddResidues(a: nat, b: nat, c: nat)
    requires b % 65535 == c % 65535
    ensures (a + b) % 65535 == (a + c) % 65535
  {
    assert a + b == 65535 * (b / 65535) + (a + b % 65535);
    assert a + c == 65535 * (c / 65535) + (a + c % 65535);
    MultipleAway(b / 65535, a + b % 65535);
    MultipleAway(c / 65535, a + c % 65535);
  }

  /** Adding in 32 bits and folding once at the end is one's-complement addition. */
  lemma CarriesMayWait(data: seq<byte>)
    ensures Fold(SumWords(data)) == EndAroundSum(data)
  {
    FoldIsModular(SumWords(data));
    EndAroundIsModular(data);
    SameResidue(Fold(SumWords(data)), EndAroundSum(data));
  }

  // ---------- building and accepting ----------

  predicate AddressesAreOk(source: seq<byte>, destination: seq<byte>) {
    |source| == 4 && |destination| == 4
  }

  predicate DatagramIsOk(d: Datagram) {
    AddressesAreOk(d.source, d.destination) && d.sourcePort < UINT16_RANGE && d.destinationPort < UINT16_RANGE
  }

  function HeaderFront(sourcePort: nat, destinationPort: nat, size: nat): (h: seq<byte>)
    ensures |h| == 6
  {
    ToBytes(sourcePort, 2) + ToBytes(destinationPort, 2) + ToBytes(size, 2)
  }

  function WithCheck(front: seq<byte>, check: nat, payload: seq<byte>): seq<byte> {
    front + ToBytes(check, 2) + payload
  }

  /** A checksum of zero means none was made, so zero is sent as its other representation (RFC 768). */
  function Transmitted(check: nat): nat {
    if check == 0 then UINT16_RANGE - 1 else check
  }

  function CheckOf(d: Datagram): (c: nat)
    ensures 0 < c < UINT16_RANGE
  {
    var front := HeaderFront(d.sourcePort, d.destinationPort, UDP_HEADER_SIZE + |d.payload|);
    Transmitted(Finished(UdpSum(d.source, d.destination, WithCheck(front, 0, d.payload))))
  }

  function UdpBytes(d: Datagram): (udp: seq<byte>)
    ensures |udp| == UDP_HEADER_SIZE + |d.payload|
  {
    WithCheck(HeaderFront(d.sourcePort, d.destinationPort, UDP_HEADER_SIZE + |d.payload|), CheckOf(d), d.payload)
  }

  /** raw_udp_build. */
  function Build(d: Datagram): Option<seq<byte>> {
    if |d.payload| > UINT16_RANGE - 1 - UDP_HEADER_SIZE then None else Some(UdpBytes(d))
  }

  /** The UDP half of raw_udp_parse, on exactly the bytes that the IP header leaves for it. */
  function ParseUdp(source: seq<byte>, destination: seq<byte>, udp: seq<byte>): Option<Datagram> {
    if |udp| < UDP_HEADER_SIZE || FromBytes(udp[4..6]) != |udp| then None
    else if FromBytes(udp[6..8]) != 0 && Finished(UdpSum(source, destination, udp)) != 0 then None
    else Some(Datagram(source, destination, FromBytes(udp[0..2]), FromBytes(udp[2..4]), udp[8..]))
  }

  function IpHeaderSize(packet: seq<byte>): nat
    requires packet != []
  {
    packet[0] as int % 16 * 4
  }

  predicate IpHeaderIsOk(packet: seq<byte>) {
    && |packet| >= IP_HEADER_MIN && packet[0] as int / 16 == 4 && packet[0] as int % 16 >= 5 && packet[9] == UDP_PROTOCOL
    && IpHeaderSize(packet) + UDP_HEADER_SIZE <= FromBytes(packet[2..4]) <= |packet|
  }

  /** raw_udp_parse; bytes after the length the IP header gives are not looked at. */
  function Parse(packet: seq<byte>): Option<Datagram> {
    if !IpHeaderIsOk(packet) then None
    else ParseUdp(packet[12..16], packet[16..20], packet[IpHeaderSize(packet)..FromBytes(packet[2..4])])
  }

  method BuildPacket(packet: array<byte>, capacity: nat, d: Datagram) returns (ok: bool, size: nat)
    requires DatagramIsOk(d) && capacity <= packet.Length
    modifies packet
    ensures ok <==> Build(d).Some? && |Build(d).value| <= capacity
    ensures size == if ok then |Build(d).value| else 0
    ensures ok ==> packet[..size] == Build(d).value
    ensures forall i :: size <= i < packet.Length ==> packet[i] == old(packet[i])
  {
    hide ToBytes, SumWords, Finished, PseudoHeader, UdpSum;
    if |d.payload| > UINT16_RANGE - 1 - UDP_HEADER_SIZE {
      return false, 0;
    }
    var udpSize := UDP_HEADER_SIZE + |d.payload|;
    if capacity < udpSize {
      return false, 0;
    }
    var front := HeaderFront(d.sourcePort, d.destinationPort, udpSize);
    var at := Put(packet, 0, front + ToBytes(0, 2));
    at := Put(packet, at, d.payload);
    assert packet[0..udpSize] == packet[..udpSize] == WithCheck(front, 0, d.payload);
    var checksum := UdpChecksum(d.source, d.destination, packet, 0, udpSize);
    if checksum == 0 {
      checksum := UINT16_RANGE - 1;
    }
    RewriteHeader(packet, front + ToBytes(checksum, 2), d.payload);
    return true, udpSize;
  }

  method RewriteHeader(packet: array<byte>, header: seq<byte>, payload: seq<byte>)
    requires |header| == UDP_HEADER_SIZE && UDP_HEADER_SIZE + |payload| <= packet.Length
    requires packet[UDP_HEADER_SIZE..UDP_HEADER_SIZE + |payload|] == payload
    modifies packet
    ensures packet[..UDP_HEADER_SIZE + |payload|] == header + payload
    ensures forall i :: UDP_HEADER_SIZE + |payload| <= i < packet.Length ==> packet[i] == old(packet[i])
  {
    var at := Put(packet, 0, header);
    assert packet[..UDP_HEADER_SIZE] == header;
    assert packet[UDP_HEADER_SIZE..UDP_HEADER_SIZE + |payload|] == payload;
  }

  method ParsePacket(packet: array<byte>, size: nat) returns (r: Option<Datagram>)
    requires size <= packet.Length
    ensures r == Parse(packet[..size])
  {
    hide FromBytes, SumWords, PseudoHeader;
    ghost var all := packet[..size];
    if size < IP_HEADER_MIN || packet[0] as int / 16 != 4 || packet[0] as int % 16 < 5 || packet[9] != UDP_PROTOCOL {
      return None;
    }
    var headerSize := packet[0] as int % 16 * 4;
    if headerSize > size {
      return None;
    }
    var total := FromBytes(packet[2..4]);
    assert packet[2..4] == all[2..4];
    if total > size || total < headerSize + UDP_HEADER_SIZE {
      return None;
    }
    assert IpHeaderIsOk(all) && all[headerSize..total] == packet[headerSize..total];
    r := ParseDatagram(packet[12..16], packet[16..20], packet, headerSize, total);
    assert packet[12..16] == all[12..16] && packet[16..20] == all[16..20];
  }

  lemma SliceOfSlice(packet: array<byte>, from: nat, to: nat, a: nat, b: nat)
    requires from <= to <= packet.Length && a <= b <= to - from
    ensures packet[from..to][a..b] == packet[from + a..from + b]
  {
    var whole := packet[from..to];
    forall k | 0 <= k < b - a ensures whole[a..b][k] == packet[from + a..from + b][k] {
      assert whole[a..b][k] == whole[a + k] == packet[from + a + k];
    }
  }

  method ParseDatagram(source: seq<byte>, destination: seq<byte>, packet: array<byte>, from: nat, to: nat)
    returns (r: Option<Datagram>)
    requires AddressesAreOk(source, destination) && from + UDP_HEADER_SIZE <= to <= packet.Length
    ensures r == ParseUdp(source, destination, packet[from..to])
  {
    hide FromBytes, SumWords, PseudoHeader, Finished;
    ghost var udp := packet[from..to];
    var udpSize := FromBytes(packet[from + 4..from + 6]);
    SliceOfSlice(packet, from, to, 0, 2);
    SliceOfSlice(packet, from, to, 2, 4);
    SliceOfSlice(packet, from, to, 4, 6);
    SliceOfSlice(packet, from, to, 6, 8);
    TwoBytes(udp[4..6]);
    if udpSize < UDP_HEADER_SIZE || udpSize != to - from {
      return None;
    }
    if FromBytes(packet[from + 6..from + 8]) != 0 {
      var check := UdpChecksum(source, destination, packet, from, to);
      if check != 0 {
        return None;
      }
    }
    assert packet[from + 8..to] == udp[8..];
    r := Some(Datagram(source, destination, FromBytes(packet[from..from + 2]), FromBytes(packet[from + 2..from + 4]),
                       packet[from + 8..to]));
  }

  lemma TwoBytes(s: seq<byte>)
    requires |s| == 2
    ensures FromBytes(s) == Word(s[0], s[1]) && SumWords(s) == FromBytes(s) < UINT16_RANGE && ToBytes(FromBytes(s), 2) == s
  {
    assert s[..1] == [s[0]] && s[..1][..0] == [];
    assert s[2..] == [];
    ToFromBytes(s);
  }

  // ---------- sums of packets ----------

  lemma {:induction false} SumOfParts(a: seq<byte>, b: seq<byte>)
    requires |a| % 2 == 0
    ensures SumWords(a + b) == SumWords(a) + SumWords(b)
    decreases |a|
  {
    if a == [] {
      assert a + b == b;
    } else {
      assert (a + b)[2..] == a[2..] + b;
      SumOfParts(a[2..], b);
    }
  }

  lemma SumOfCheck(check: nat)
    requires check < UINT16_RANGE
    ensures SumWords(ToBytes(check, 2)) == check
  {
    Widths();
    FromToBytes(check, 2);
    TwoBytes(ToBytes(check, 2));
  }

  /** Writing the checksum into the header adds just that to the sum. */
  lemma SumWithCheck(source: seq<byte>, destination: seq<byte>, front: seq<byte>, check: nat, payload: seq<byte>)
    requires |front| == 6 && check < UINT16_RANGE
    ensures UdpSum(source, destination, WithCheck(front, check, payload)) ==
            UdpSum(source, destination, WithCheck(front, 0, payload)) + check
    ensures UdpSum(source, destination, WithCheck(front, check, payload)) ==
            SumWords(PseudoHeader(source, destination, 8 + |payload|)) + SumWords(front) + check + SumWords(payload)
  {
    hide SumWords, ToBytes, PseudoHeader;
    SumOfCheck(check);
    SumOfCheck(0);
    SumOfParts(front, ToBytes(check, 2));
    SumOfParts(front + ToBytes(check, 2), payload);
    SumOfParts(front, ToBytes(0, 2));
    SumOfParts(front + ToBytes(0, 2), payload);
  }

  /** The protocol number alone keeps the sum from being zero. */
  lemma SumIsPositive(source: seq<byte>, destination: seq<byte>, udp: seq<byte>)
    requires AddressesAreOk(source, destination)
    ensures UdpSum(source, destination, udp) > 0
  {
    hide ToBytes, SumWords;
    SumOfParts(source + destination, [0, UDP_PROTOCOL]);
    SumOfParts(source + destination + [0, UDP_PROTOCOL], ToBytes(|udp|, 2));
    ProtocolCounts();
  }

  lemma ProtocolCounts()
    ensures SumWords([0, UDP_PROTOCOL]) == 17
  {
    assert [0, UDP_PROTOCOL][2..] == [];
  }

  /** A receiver finds nothing wrong exactly when the whole sum is a multiple of 65535. */
  lemma VerifiesIffMultiple(sum: nat)
    requires sum > 0
    ensures Finished(sum) == 0 <==> sum % 65535 == 0
  {
    FoldIsModular(sum);
    if sum % 65535 == 0 {
      SameResidue(Fold(sum), 65535);
    }
  }

  /** The checksum sent makes the sum a multiple of 65535, also when zero is sent as 65535. */
  lemma CheckCompletes(sum: nat)
    requires sum > 0
    ensures (sum + Transmitted(Finished(sum))) % 65535 == 0
  {
    FoldIsModular(sum);
    AddResidues(Transmitted(Finished(sum)), sum, Fold(sum));
  }

  /** And it is the only one that does. */
  lemma CheckIsUnique(sum: nat, a: nat, b: nat)
    requires 0 < a < UINT16_RANGE && 0 < b < UINT16_RANGE
    requires (sum + a) % 65535 == 0 && (sum + b) % 65535 == 0
    ensures a == b
  {
    var p, q := (sum + a) / 65535, (sum + b) / 65535;
    assert sum + a == 65535 * p && sum + b == 65535 * q;
    assert a - b == 65535 * (p - q);
  }

  // ---------- what is built is accepted, and nothing else ----------

  lemma FrontFields(sourcePort: nat, destinationPort: nat, size: nat, check: nat, payload: seq<byte>)
    requires sourcePort < UINT16_RANGE && destinationPort < UINT16_RANGE && size < UINT16_RANGE && check < UINT16_RANGE
    ensures var udp := WithCheck(HeaderFront(sourcePort, destinationPort, size), check, payload);
            && FromBytes(udp[0..2]) == sourcePort && FromBytes(udp[2..4]) == destinationPort
            && FromBytes(udp[4..6]) == size && FromBytes(udp[6..8]) == check && udp[8..] == payload
            && |udp| == 8 + |payload|
  {
    hide ToBytes, FromBytes, Pow256;
    Widths();
    FromToBytes(sourcePort, 2);
    FromToBytes(destinationPort, 2);
    FromToBytes(size, 2);
    FromToBytes(check, 2);
    var udp := WithCheck(HeaderFront(sourcePort, destinationPort, size), check, payload);
    assert udp[0..2] == ToBytes(sourcePort, 2) && udp[2..4] == ToBytes(destinationPort, 2);
    assert udp[4..6] == ToBytes(size, 2) && udp[6..8] == ToBytes(check, 2);
  }

  /**
   A datagram with another checksum or payload than it was built with, but of the same size, is
   accepted exactly when the sum stays a multiple of 65535.
   */
  lemma AcceptedIff(d: Datagram, check: nat, payload: seq<byte>)
    requires DatagramIsOk(d) && Build(d).Some? && 0 < check < UINT16_RANGE && |payload| == |d.payload|
    ensures var front := HeaderFront(d.sourcePort, d.destinationPort, UDP_HEADER_SIZE + |payload|);
            var udp := WithCheck(front, check, payload);
            && (ParseUdp(d.source, d.destination, udp).Some? <==>
                (UdpSum(d.source, d.destination, WithCheck(front, 0, payload)) + check) % 65535 == 0)
            && (ParseUdp(d.source, d.destination, udp).Some? ==>
                  ParseUdp(d.source, d.destination, udp) == Some(d.(payload := payload)))
  {
    hide FromBytes, HeaderFront, WithCheck, UdpSum, Finished;
    var front := HeaderFront(d.sourcePort, d.destinationPort, UDP_HEADER_SIZE + |payload|);
    FrontFields(d.sourcePort, d.destinationPort, UDP_HEADER_SIZE + |payload|, check, payload);
    FrontSize(d.sourcePort, d.destinationPort, UDP_HEADER_SIZE + |payload|);
    SumWithCheck(d.source, d.destination, front, check, payload);
    SumIsPositive(d.source, d.destination, WithCheck(front, check, payload));
    VerifiesIffMultiple(UdpSum(d.source, d.destination, WithCheck(front, check, payload)));
  }

  lemma FrontSize(sourcePort: nat, destinationPort: nat, size: nat)
    ensures |HeaderFront(sourcePort, destinationPort, size)| == 6
  {
  }

  lemma CheckOfIs(d: Datagram)
    requires AddressesAreOk(d.source, d.destination)
    ensures var front := HeaderFront(d.sourcePort, d.destinationPort, UDP_HEADER_SIZE + |d.payload|);
            && UdpBytes(d) == WithCheck(front, CheckOf(d), d.payload) && 0 < CheckOf(d) < UINT16_RANGE
            && (UdpSum(d.source, d.destination, WithCheck(front, 0, d.payload)) + CheckOf(d)) % 65535 == 0
  {
    hide HeaderFront, WithCheck, UdpSum, Finished;
    var front := HeaderFront(d.sourcePort, d.destinationPort, UDP_HEADER_SIZE + |d.payload|);
    SumIsPositive(d.source, d.destination, WithCheck(front, 0, d.payload));
    CheckCompletes(UdpSum(d.source, d.destination, WithCheck(front, 0, d.payload)));
  }

  /** The UDP half of the round trip. */
  lemma ParseBuilt(d: Datagram)
    requires DatagramIsOk(d) && Build(d).Some?
    ensures ParseUdp(d.source, d.destination, Build(d).value) == Some(d)
  {
    hide ParseUdp, CheckOf, UdpBytes, HeaderFront, WithCheck, UdpSum;
    CheckOfIs(d);
    AcceptedIff(d, CheckOf(d), d.payload);
    assert d.(payload := d.payload) == d;
  }

  /** A datagram that is accepted with a checksum is, byte for byte, what building would have made of it. */
  lemma AcceptedIsBuilt(source: seq<byte>, destination: seq<byte>, udp: seq<byte>)
    requires AddressesAreOk(source, destination) && |udp| < UINT16_RANGE
    requires ParseUdp(source, destination, udp).Some? && FromBytes(udp[6..8]) != 0
    ensures DatagramIsOk(ParseUdp(source, destination, udp).value)
    ensures Build(ParseUdp(source, destination, udp).value) == Some(udp)
  {
    hide FromBytes, HeaderFront, WithCheck, UdpSum, Finished, CheckOf, UdpBytes, SumWords;
    var d := ParseUdp(source, destination, udp).value;
    var check := FromBytes(udp[6..8]);
    var front := HeaderFront(d.sourcePort, d.destinationPort, UDP_HEADER_SIZE + |d.payload|);
    Reassembled(udp);
    CheckOfIs(d);
    AcceptedIff(d, check, d.payload);
    CheckIsUnique(UdpSum(source, destination, WithCheck(front, 0, d.payload)), check, CheckOf(d));
  }

  /** So, the length being right, a datagram is accepted exactly when it has no checksum or is one that was built. */
  lemma AcceptedIffBuiltOrUnchecked(source: seq<byte>, destination: seq<byte>, udp: seq<byte>)
    requires AddressesAreOk(source, destination) && UDP_HEADER_SIZE <= |udp| < UINT16_RANGE && FromBytes(udp[4..6]) == |udp|
    ensures var d := Datagram(source, destination, FromBytes(udp[0..2]), FromBytes(udp[2..4]), udp[8..]);
            ParseUdp(source, destination, udp).Some? <==> FromBytes(udp[6..8]) == 0 || Build(d) == Some(udp)
  {
    hide FromBytes, UdpBytes, SumWords;
    var d := Datagram(source, destination, FromBytes(udp[0..2]), FromBytes(udp[2..4]), udp[8..]);
    TwoBytes(udp[0..2]);
    TwoBytes(udp[2..4]);
    if FromBytes(udp[6..8]) != 0 {
      if ParseUdp(source, destination, udp).Some? {
        AcceptedIsBuilt(source, destination, udp);
      }
      if Build(d) == Some(udp) {
        ParseBuilt(d);
      }
    }
  }

  lemma Reassembled(udp: seq<byte>)
    requires |udp| >= 8
    ensures FromBytes(udp[0..2]) < UINT16_RANGE && FromBytes(udp[2..4]) < UINT16_RANGE && FromBytes(udp[6..8]) < UINT16_RANGE
    ensures udp == WithCheck(HeaderFront(FromBytes(udp[0..2]), FromBytes(udp[2..4]), FromBytes(udp[4..6])),
                             FromBytes(udp[6..8]), udp[8..])
  {
    hide FromBytes, ToBytes, SumWords;
    TwoBytes(udp[0..2]);
    TwoBytes(udp[2..4]);
    TwoBytes(udp[4..6]);
    TwoBytes(udp[6..8]);
    assert udp == udp[0..2] + udp[2..4] + udp[4..6] + udp[6..8] + udp[8..];
  }

  /**
   Behind any IPv4 header that names the addresses and the length, and before anything else in the
   buffer, a built datagram is accepted as what it was built from.
   */
  lemma ParseBuiltPacket(ip: seq<byte>, d: Datagram, extra: seq<byte>)
    requires DatagramIsOk(d) && Build(d).Some?
    requires |ip| >= IP_HEADER_MIN && ip[0] as int / 16 == 4 && IpHeaderSize(ip) == |ip| && ip[9] == UDP_PROTOCOL
    requires FromBytes(ip[2..4]) == |ip| + UDP_HEADER_SIZE + |d.payload|
    requires ip[12..16] == d.source && ip[16..20] == d.destination
    ensures Parse(ip + Build(d).value + extra) == Some(d)
  {
    hide FromBytes, UdpBytes, ParseUdp;
    var udp := Build(d).value;
    var packet := ip + udp + extra;
    ParseBuilt(d);
    UdpBytesSize(d);
    assert packet[2..4] == ip[2..4] && packet[12..16] == ip[12..16] && packet[16..20] == ip[16..20];
    assert packet[|ip|..|ip| + |udp|] == udp;
  }

  lemma UdpBytesSize(d: Datagram)
    ensures |UdpBytes(d)| == UDP_HEADER_SIZE + |d.payload|
  {
  }

  /**
   Conversely, a packet that is accepted with a checksum is such a header, the datagram as built, and
   whatever else was in the buffer.
   */
  lemma AcceptedPacketIsBuilt(packet: seq<byte>)
    requires Parse(packet).Some?
    requires FromBytes(packet[IpHeaderSize(packet) + 6..IpHeaderSize(packet) + 8]) != 0
    ensures var d, size, total := Parse(packet).value, IpHeaderSize(packet), FromBytes(packet[2..4]);
            && DatagramIsOk(d) && Build(d).Some? && size <= total <= |packet|
            && packet == packet[..size] + Build(d).value + packet[total..]
            && packet[0] as int / 16 == 4 && size >= IP_HEADER_MIN && packet[9] == UDP_PROTOCOL
            && total == size + UDP_HEADER_SIZE + |d.payload|
            && packet[12..16] == d.source && packet[16..20] == d.destination
  {
    hide FromBytes, UdpBytes, ParseUdp, SumWords;
    var size, total := IpHeaderSize(packet), FromBytes(packet[2..4]);
    var udp := packet[size..total];
    assert udp[6..8] == packet[size + 6..size + 8];
    TwoBytes(packet[2..4]);
    AcceptedIsBuilt(packet[12..16], packet[16..20], udp);
    ParsedAddresses(packet[12..16], packet[16..20], udp);
    UdpBytesSize(Parse(packet).value);
  }

  lemma ParsedAddresses(source: seq<byte>, destination: seq<byte>, udp: seq<byte>)
    requires ParseUdp(source, destination, udp).Some?
    ensures var d := ParseUdp(source, destination, udp).value;
            d.source == source && d.destination == destination
  {
  }

  // ---------- damage in the payload ----------

  lemma {:induction false} SumAfterChange(data: seq<byte>, k: nat, b: byte)
    requires k < |data|
    ensures SumWords(data[k := b]) == SumWords(data) + (b as int - data[k] as int) * (if k % 2 == 0 then 256 else 1)
    decreases |data|
  {
    var changed := data[k := b];
    if k >= 2 {
      assert changed[2..] == data[2..][k - 2 := b];
      SumAfterChange(data[2..], k - 2, b);
    } else if |data| >= 2 {
      assert changed[2..] == data[2..];
    }
  }

  /** A damaged payload of the same size goes unnoticed exactly when its words sum to the same modulo 65535. */
  lemma DamageGoesUnnoticedIff(d: Datagram, payload: seq<byte>)
    requires DatagramIsOk(d) && Build(d).Some? && |payload| == |d.payload|
    ensures ParseUdp(d.source, d.destination, Build(d).value[..UDP_HEADER_SIZE] + payload).Some? <==>
            SumWords(payload) % 65535 == SumWords(d.payload) % 65535
  {
    hide ParseUdp, CheckOf, SumWords, HeaderFront, UdpSum, PseudoHeader, ToBytes;
    var front := HeaderFront(d.sourcePort, d.destinationPort, UDP_HEADER_SIZE + |d.payload|);
    FrontSize(d.sourcePort, d.destinationPort, UDP_HEADER_SIZE + |d.payload|);
    CheckOfIs(d);
    AcceptedIff(d, CheckOf(d), payload);
    assert Build(d).value[..UDP_HEADER_SIZE] + payload == WithCheck(front, CheckOf(d), payload);
    SumWithCheck(d.source, d.destination, front, CheckOf(d), payload);
    SumWithCheck(d.source, d.destination, front, CheckOf(d), d.payload);
    var rest := SumWords(PseudoHeader(d.source, d.destination, 8 + |payload|)) + SumWords(front) + CheckOf(d);
    SameRest(rest, SumWords(payload), SumWords(d.payload));
  }

  lemma SameRest(rest: nat, a: nat, b: nat)
    requires (rest + b) % 65535 == 0
    ensures (rest + a) % 65535 == 0 <==> a % 65535 == b % 65535
  {
    if a % 65535 == b % 65535 {
      AddResidues(rest, a, b);
    }
    if (rest + a) % 65535 == 0 {
      var p, q := (rest + a) / 65535, (rest + b) / 65535;
      assert rest + a == 65535 * p && rest + b == 65535 * q;
      assert a - b == 65535 * (p - q);
      DifferByMultiple(a, b, p - q);
    }
  }

  lemma DifferByMultiple(a: nat, b: nat, k: int)
    requires a - b == 65535 * k
    ensures a % 65535 == b % 65535
  {
    if k >= 0 {
      MultipleAway(k, b);
    } else {
      MultipleAway(-k, a);
    }
  }

  /** A single changed byte never goes unnoticed. */
  lemma ChangedByteIsNoticed(d: Datagram, k: nat, b: byte)
    requires DatagramIsOk(d) && Build(d).Some? && k < |d.payload| && b != d.payload[k]
    ensures ParseUdp(d.source, d.destination, Build(d).value[..UDP_HEADER_SIZE] + d.payload[k := b]).None?
  {
    hide ParseUdp, SumWords, UdpBytes;
    DamageGoesUnnoticedIff(d, d.payload[k := b]);
    SumAfterChange(d.payload, k, b);
    var change := (b as int - d.payload[k] as int) * (if k % 2 == 0 then 256 else 1);
    assert change != 0 && -65535 < change < 65535;
    SmallChange(SumWords(d.payload), change);
  }

  lemma SmallChange(sum: nat, change: int)
    requires change != 0 && -65535 < change < 65535 && sum + change >= 0
    ensures (sum + change) % 65535 != sum % 65535
  {
  }

  /** The payload with the words at two even places exchanged. */
  function Exchanged(payload: seq<byte>, i: nat, j: nat): seq<byte>
    requires i < j && j + 1 < |payload|
  {
    payload[i := payload[j]][i + 1 := payload[j + 1]][j := payload[i]][j + 1 := payload[i + 1]]
  }

  lemma ExchangeKeepsSum(payload: seq<byte>, i: nat, j: nat)
    requires i % 2 == 0 && j % 2 == 0 && i < j && j + 1 < |payload|
    ensures SumWords(Exchanged(payload, i, j)) == SumWords(payload)
  {
    hide SumWords;
    var a := payload[i := payload[j]];
    var b := a[i + 1 := payload[j + 1]];
    var c := b[j := payload[i]];
    SumAfterChange(payload, i, payload[j]);
    SumAfterChange(a, i + 1, payload[j + 1]);
    SumAfterChange(b, j, payload[i]);
    SumAfterChange(c, j + 1, payload[i + 1]);
  }

  /** Two exchanged words always do, wherever they stand: the sum does not see their order. */
  lemma ExchangedWordsGoUnnoticed(d: Datagram, i: nat, j: nat)
    requires DatagramIsOk(d) && Build(d).Some? && i % 2 == 0 && j % 2 == 0 && i < j && j + 1 < |d.payload|
    ensures ParseUdp(d.source, d.destination, Build(d).value[..UDP_HEADER_SIZE] + Exchanged(d.payload, i, j)).Some?
  {
    hide ParseUdp, UdpBytes, SumWords, DatagramIsOk;
    ExchangeKeepsSum(d.payload, i, j);
    DamageGoesUnnoticedIff(d, Exchanged(d.payload, i, j));
  }
}
