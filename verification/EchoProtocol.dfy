/** Messages of the echo service. */
module EchoProtocol {
  import opened Bytes
  import opened Wrappers

  const MAGIC := 0x4543484F
  const VERSION: byte := 1
  const PAYLOAD_MAX := 1024
  const HEADER_SIZE := 12

  const REQUEST := 1
  const RESPONSE := 2
  const CLOSE := 3

  datatype Message = Message(kind: nat, counter: nat, payload: seq<byte>)

  /** message_fields_are_valid. */
  predicate FieldsAreValid(m: Message) {
    && (m.kind == CLOSE || m.kind == REQUEST || m.kind == RESPONSE) && |m.payload| <= PAYLOAD_MAX
    && (if m.kind == CLOSE then m.counter == 0 && m.payload == []
        else if m.kind == REQUEST then m.counter == 0
        else m.counter > 0)
  }

  function Header(m: Message): seq<byte>
    requires m.kind < 0x100
  {
    ToBytes(MAGIC, 4) + [VERSION, m.kind] + ToBytes(|m.payload|, 2) + ToBytes(m.counter, 4)
  }

  /** protocol_encode, into a buffer that is large enough. */
  function Encode(m: Message): Option<seq<byte>> {
    if FieldsAreValid(m) then Some(Header(m) + m.payload) else None
  }

  /** protocol_decode. */
  function Decode(buffer: seq<byte>): Option<Message> {
    if |buffer| < HEADER_SIZE || FromBytes(buffer[0..4]) != MAGIC || buffer[4] != VERSION then None
    else
      var m := Message(buffer[5], FromBytes(buffer[8..12]), buffer[HEADER_SIZE..]);
      if |m.payload| != FromBytes(buffer[6..8]) || !FieldsAreValid(m) then None else Some(m)
  }

  /** protocol_encode into a buffer of some capacity. */
  method EncodeInto(m: Message, buffer: array<byte>, capacity: nat) returns (ok: bool, size: nat)
    requires capacity <= buffer.Length
    modifies buffer
    ensures ok <==> Encode(m).Some? && |Encode(m).value| <= capacity
    ensures size == if ok then |Encode(m).value| else 0
    ensures ok ==> buffer[..size] == Encode(m).value
    ensures forall i :: size <= i < buffer.Length ==> buffer[i] == old(buffer[i])
  {
    hide ToBytes;
    if !FieldsAreValid(m) || capacity < HEADER_SIZE + |m.payload| {
      return false, 0;
    }
    var at := Put(buffer, 0, ToBytes(MAGIC, 4));
    at := Put(buffer, at, [VERSION, m.kind]);
    at := Put(buffer, at, ToBytes(|m.payload|, 2));
    at := Put(buffer, at, ToBytes(m.counter, 4));
    assert buffer[..12] == Header(m);
    size := Put(buffer, at, m.payload);
    ok := true;
  }

  /** Every message that is encoded is decoded to itself. */
  lemma DecodeEncode(m: Message)
    requires Encode(m).Some? && m.counter < UINT32_RANGE
    ensures Decode(Encode(m).value) == Some(m)
  {
    hide ToBytes, FromBytes, Pow256;
    Widths();
    FromToBytes(MAGIC, 4);
    FromToBytes(|m.payload|, 2);
    FromToBytes(m.counter, 4);
    var b := Encode(m).value;
    assert b[0..4] == ToBytes(MAGIC, 4) && b[6..8] == ToBytes(|m.payload|, 2) && b[8..12] == ToBytes(m.counter, 4);
    assert b[12..] == m.payload;
  }

  /** And every packet that is accepted is the code of what it is decoded to. */
  lemma EncodeDecode(buffer: seq<byte>)
    requires Decode(buffer).Some?
    ensures var m := Decode(buffer).value;
            Encode(m) == Some(buffer) && m.counter < UINT32_RANGE
  {
    hide ToBytes, FromBytes, Pow256;
    Widths();
    ToFromBytes(buffer[0..4]);
    ToFromBytes(buffer[6..8]);
    ToFromBytes(buffer[8..12]);
    var m := Decode(buffer).value;
    assert Header(m) == buffer[..12];
    assert buffer == buffer[..12] + buffer[12..];
  }
}
