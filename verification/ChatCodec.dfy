/**
 The chat protocol's frames: a 32-byte header, the sender's name and the content that the packet
 type calls for. A message is the C struct with its fixed-size fields.
 */
module ChatCodec {
  import opened Bytes
  import opened Wrappers

  const MAGIC := 0x4D335437
  const VERSION := 2
  const NAME_MAX := 31
  const TEXT_MAX := 1023
  const FILE_NAME_MAX := 255
  const FILE_CHUNK_MAX := 16384
  const HEADER_SIZE := 32
  const PACKET_MAX_SIZE := HEADER_SIZE + NAME_MAX + FILE_CHUNK_MAX
  const FILE_SIZE_FIELD_SIZE := 8

  // chat_packet_type_t; a message or a header may carry any other number, and is then refused.
  const JOIN := 1
  const MESSAGE := 2
  const LEAVE := 3
  const FILE_BEGIN := 4
  const FILE_CHUNK := 5
  const FILE_END := 6

  /** chat_message_t. */
  datatype Message = Message(kind: nat, senderId: nat, transferId: nat, senderName: seq<byte>, text: seq<byte>,
                             fileName: seq<byte>, fileSize: nat, fileData: seq<byte>, fileDataSize: nat)

  /** Field sizes and integer widths of the struct. */
  predicate WellTyped(m: Message) {
    && m.senderId < UINT64_RANGE && m.transferId < UINT64_RANGE && m.fileSize < UINT64_RANGE
    && |m.senderName| == NAME_MAX + 1 && |m.text| == TEXT_MAX + 1
    && |m.fileName| == FILE_NAME_MAX + 1 && |m.fileData| == FILE_CHUNK_MAX
  }

  predicate KindIsValid(kind: nat) {
    JOIN <= kind <= FILE_END
  }

  predicate LengthsAreValid(kind: nat, transferId: nat, contentSize: nat) {
    if kind == JOIN || kind == LEAVE then transferId == 0 && contentSize == 0
    else if kind == MESSAGE then transferId == 0 && 1 <= contentSize <= TEXT_MAX
    else if kind == FILE_BEGIN then
      transferId != 0 && FILE_SIZE_FIELD_SIZE + 1 <= contentSize <= FILE_SIZE_FIELD_SIZE + FILE_NAME_MAX
    else if kind == FILE_CHUNK then transferId != 0 && 1 <= contentSize <= FILE_CHUNK_MAX
    else if kind == FILE_END then transferId != 0 && contentSize == 0
    else false
  }

  // ---------- the header ----------

  datatype Header = Header(kind: nat, bodySize: nat, senderId: nat, transferId: nat, nameSize: nat, contentSize: nat)

  predicate InRange(h: Header) {
    && h.kind < 0x100 && h.bodySize < UINT32_RANGE && h.senderId < UINT64_RANGE && h.transferId < UINT64_RANGE
    && h.nameSize < UINT16_RANGE && h.contentSize < UINT16_RANGE
  }

  /** Magic, version, type, zero flags, body size. */
  function HeaderFront(h: Header): seq<byte>
    requires h.kind < 0x100
  {
    ToBytes(MAGIC, 4) + [VERSION, h.kind] + ToBytes(0, 2) + ToBytes(h.bodySize, 4)
  }

  /** Sender, transfer, name size, content size. */
  function HeaderBack(h: Header): seq<byte> {
    ToBytes(h.senderId, 8) + ToBytes(h.transferId, 8) + ToBytes(h.nameSize, 2) + ToBytes(h.contentSize, 2)
  }

  function EncodeHeader(h: Header): (bytes: seq<byte>)
    requires h.kind < 0x100
    ensures |bytes| == HEADER_SIZE
  {
    HeaderFront(h) + HeaderBack(h)
  }

  predicate FixedPartOk(buffer: seq<byte>)
    requires |buffer| >= HEADER_SIZE
  {
    FromBytes(buffer[0..4]) == MAGIC && buffer[4] == VERSION && FromBytes(buffer[6..8]) == 0
  }

  function ReadHeader(buffer: seq<byte>): Header
    requires |buffer| >= HEADER_SIZE
  {
    Header(buffer[5], FromBytes(buffer[8..12]), FromBytes(buffer[12..20]), FromBytes(buffer[20..28]),
           FromBytes(buffer[28..30]), FromBytes(buffer[30..32]))
  }

  /** header_is_valid, apart from the fixed part. */
  predicate HeaderIsValid(h: Header) {
    && KindIsValid(h.kind) && h.senderId != 0
    && 1 <= h.nameSize <= NAME_MAX
    && h.bodySize == h.nameSize + h.contentSize && h.bodySize <= NAME_MAX + FILE_CHUNK_MAX
    && LengthsAreValid(h.kind, h.transferId, h.contentSize)
  }

  datatype FrameStatus = Invalid | Incomplete | Complete(size: nat)

  /** protocol_frame_size on the bytes received so far. */
  function FrameStatusOf(buffer: seq<byte>): (status: FrameStatus)
    ensures status.Complete? ==> HEADER_SIZE < status.size <= |buffer| && status.size <= PACKET_MAX_SIZE
  {
    if |buffer| < HEADER_SIZE then Incomplete
    else if !FixedPartOk(buffer) || !HeaderIsValid(ReadHeader(buffer)) then Invalid
    else if |buffer| < HEADER_SIZE + ReadHeader(buffer).bodySize then Incomplete
    else Complete(HEADER_SIZE + ReadHeader(buffer).bodySize)
  }

  // ---------- messages ----------

  function NameOf(m: Message): seq<byte> {
    m.senderName[..StrnLen(m.senderName)]
  }

  /** The content a message's type calls for, if its fields allow it. */
  function ContentOf(m: Message): Option<seq<byte>> {
    if m.kind == JOIN || m.kind == LEAVE || m.kind == FILE_END then Some([])
    else if m.kind == MESSAGE then
      if StrnLen(m.text) <= TEXT_MAX then Some(m.text[..StrnLen(m.text)]) else None
    else if m.kind == FILE_BEGIN then
      if 1 <= StrnLen(m.fileName) <= FILE_NAME_MAX
      then Some(ToBytes(m.fileSize, FILE_SIZE_FIELD_SIZE) + m.fileName[..StrnLen(m.fileName)]) else None
    else if m.kind == FILE_CHUNK then
      if m.fileDataSize <= FILE_CHUNK_MAX && m.fileDataSize <= |m.fileData|
      then Some(m.fileData[..m.fileDataSize]) else None
    else None
  }

  function HeaderOf(m: Message, name: seq<byte>, content: seq<byte>): Header {
    Header(m.kind, |name| + |content|, m.senderId, m.transferId, |name|, |content|)
  }

  /** The checks protocol_encode makes before it writes. */
  predicate Encodable(m: Message) {
    && KindIsValid(m.kind) && m.senderId != 0
    && 1 <= |NameOf(m)| <= NAME_MAX
    && ContentOf(m).Some? && LengthsAreValid(m.kind, m.transferId, |ContentOf(m).value|)
  }

  function Frame(m: Message): (frame: seq<byte>)
    requires Encodable(m)
    ensures |frame| == HEADER_SIZE + |NameOf(m)| + |ContentOf(m).value|
  {
    EncodeHeader(HeaderOf(m, NameOf(m), ContentOf(m).value)) + NameOf(m) + ContentOf(m).value
  }

  function Encode(m: Message): Option<seq<byte>> {
    if Encodable(m) then Some(Frame(m)) else None
  }

  /** A zeroed struct with the fields every packet carries. */
  function Blank(kind: nat, senderId: nat, transferId: nat, name: seq<byte>): Message
    requires |name| <= NAME_MAX + 1
  {
    Message(kind, senderId, transferId, Padded(name, NAME_MAX + 1), Zeros(TEXT_MAX + 1), Zeros(FILE_NAME_MAX + 1),
            0, Zeros(FILE_CHUNK_MAX), 0)
  }

  /** Fill in what the packet type carries besides. */
  function WithContent(m: Message, content: seq<byte>): Message
    requires LengthsAreValid(m.kind, m.transferId, |content|)
  {
    if m.kind == MESSAGE then m.(text := Padded(content, TEXT_MAX + 1))
    else if m.kind == FILE_BEGIN then
      m.(fileSize := FromBytes(content[..FILE_SIZE_FIELD_SIZE]),
         fileName := Padded(content[FILE_SIZE_FIELD_SIZE..], FILE_NAME_MAX + 1))
    else if m.kind == FILE_CHUNK then m.(fileData := Padded(content, FILE_CHUNK_MAX), fileDataSize := |content|)
    else m
  }

  /** protocol_decode refuses NUL bytes in names and text, which encoding could not have written. */
  predicate ContentIsClean(kind: nat, content: seq<byte>)
    requires kind == FILE_BEGIN ==> |content| >= FILE_SIZE_FIELD_SIZE
  {
    && (kind == MESSAGE ==> 0 !in content)
    && (kind == FILE_BEGIN ==> 0 !in content[FILE_SIZE_FIELD_SIZE..])
  }

  function Decode(frame: seq<byte>): Option<Message> {
    if FrameStatusOf(frame) != Complete(|frame|) then None
    else
      var h := ReadHeader(frame);
      var name := frame[HEADER_SIZE..HEADER_SIZE + h.nameSize];
      var content := frame[HEADER_SIZE + h.nameSize..];
      if 0 in name || !ContentIsClean(h.kind, content) then None
      else Some(WithContent(Blank(h.kind, h.senderId, h.transferId, name), content))
  }

  /** The same message with every byte that no frame carries set to zero. */
  function Canonical(m: Message): Message
    requires Encodable(m)
  {
    WithContent(Blank(m.kind, m.senderId, m.transferId, NameOf(m)), ContentOf(m).value)
  }

  /** A message that can be encoded and carries nothing that its frame would not. */
  predicate IsSound(m: Message) {
    WellTyped(m) && Encodable(m) && Canonical(m) == m
  }

  // ---------- header round trips ----------

  lemma FrontFields(h: Header, tail: seq<byte>)
    requires InRange(h)
    ensures var b := HeaderFront(h) + tail;
            && |HeaderFront(h)| == 12
            && FromBytes(b[0..4]) == MAGIC && b[4] == VERSION && b[5] == h.kind
            && FromBytes(b[6..8]) == 0 && FromBytes(b[8..12]) == h.bodySize
  {
    hide ToBytes, FromBytes, Pow256;
    Widths();
    FromToBytes(MAGIC, 4);
    FromToBytes(0, 2);
    FromToBytes(h.bodySize, 4);
    var b := HeaderFront(h) + tail;
    assert b[0..4] == ToBytes(MAGIC, 4);
    assert b[6..8] == ToBytes(0, 2);
    assert b[8..12] == ToBytes(h.bodySize, 4);
  }

  lemma BackFields(front: seq<byte>, h: Header, tail: seq<byte>)
    requires |front| == 12 && InRange(h)
    ensures var b := front + HeaderBack(h) + tail;
            && |HeaderBack(h)| == 20
            && FromBytes(b[12..20]) == h.senderId && FromBytes(b[20..28]) == h.transferId
            && FromBytes(b[28..30]) == h.nameSize && FromBytes(b[30..32]) == h.contentSize
  {
    hide ToBytes, FromBytes, Pow256;
    Widths();
    FromToBytes(h.senderId, 8);
    FromToBytes(h.transferId, 8);
    FromToBytes(h.nameSize, 2);
    FromToBytes(h.contentSize, 2);
    var b := front + HeaderBack(h) + tail;
    assert b[12..20] == ToBytes(h.senderId, 8);
    assert b[20..28] == ToBytes(h.transferId, 8);
    assert b[28..30] == ToBytes(h.nameSize, 2);
    assert b[30..32] == ToBytes(h.contentSize, 2);
  }

  lemma ReadEncodedHeader(h: Header, tail: seq<byte>)
    requires InRange(h)
    ensures FixedPartOk(EncodeHeader(h) + tail) && ReadHeader(EncodeHeader(h) + tail) == h
  {
    hide ToBytes, FromBytes;
    FrontFields(h, HeaderBack(h) + tail);
    BackFields(HeaderFront(h), h, tail);
    assert EncodeHeader(h) + tail == HeaderFront(h) + (HeaderBack(h) + tail);
  }

  lemma Rewritten(buffer: seq<byte>, from: nat, to: nat)
    requires from <= to <= |buffer|
    ensures ToBytes(FromBytes(buffer[from..to]), to - from) == buffer[from..to]
    ensures FromBytes(buffer[from..to]) < Pow256(to - from)
  {
    ToFromBytes(buffer[from..to]);
  }

  lemma EncodeReadHeader(buffer: seq<byte>)
    requires |buffer| >= HEADER_SIZE && FixedPartOk(buffer)
    ensures InRange(ReadHeader(buffer)) && EncodeHeader(ReadHeader(buffer)) == buffer[..HEADER_SIZE]
  {
    hide ToBytes, FromBytes, Pow256;
    Widths();
    var h := ReadHeader(buffer);
    Rewritten(buffer, 0, 4);
    Rewritten(buffer, 6, 8);
    Rewritten(buffer, 8, 12);
    Rewritten(buffer, 12, 20);
    Rewritten(buffer, 20, 28);
    Rewritten(buffer, 28, 30);
    Rewritten(buffer, 30, 32);
    assert HeaderFront(h) == buffer[0..12];
    assert HeaderBack(h) == buffer[12..32];
  }

  // ---------- frame round trips ----------

  lemma SplitFrame(header: seq<byte>, name: seq<byte>, content: seq<byte>)
    requires |header| == HEADER_SIZE
    ensures var f := header + name + content;
            && f == header + (name + content)
            && f[..HEADER_SIZE] == header && f[HEADER_SIZE..HEADER_SIZE + |name|] == name
            && f[HEADER_SIZE + |name|..] == content
  {
  }

  /** What encoding writes is one complete frame with the message's own header in front. */
  lemma FrameIsComplete(m: Message)
    requires WellTyped(m) && Encodable(m)
    ensures FrameStatusOf(Frame(m)) == Complete(|Frame(m)|)
    ensures ReadHeader(Frame(m)) == HeaderOf(m, NameOf(m), ContentOf(m).value)
  {
    hide EncodeHeader, ReadHeader, FixedPartOk, ContentOf, NameOf;
    var name, content := NameOf(m), ContentOf(m).value;
    var h := HeaderOf(m, name, content);
    SplitFrame(EncodeHeader(h), name, content);
    ReadEncodedHeader(h, name + content);
  }

  lemma ContentOfEncodableIsClean(m: Message)
    requires Encodable(m)
    ensures ContentIsClean(m.kind, ContentOf(m).value)
  {
    if m.kind == FILE_BEGIN {
      var n := StrnLen(m.fileName);
      assert ContentOf(m).value[FILE_SIZE_FIELD_SIZE..] == m.fileName[..n];
    }
  }

  /** Decoding an encoded message gives it back with every byte that no frame carries zeroed. */
  lemma {:induction false} DecodeEncode(m: Message)
    requires WellTyped(m) && Encodable(m)
    ensures Decode(Frame(m)) == Some(Canonical(m))
  {
    hide EncodeHeader, ReadHeader, FixedPartOk, ContentOf, FrameStatusOf, ContentIsClean, WithContent, Blank;
    var name, content := NameOf(m), ContentOf(m).value;
    FrameIsComplete(m);
    SplitFrame(EncodeHeader(HeaderOf(m, name, content)), name, content);
    ContentOfEncodableIsClean(m);
  }

  lemma NameOfDecoded(kind: nat, senderId: nat, transferId: nat, name: seq<byte>, content: seq<byte>)
    requires 0 !in name && |name| <= NAME_MAX && LengthsAreValid(kind, transferId, |content|)
    ensures NameOf(WithContent(Blank(kind, senderId, transferId, name), content)) == name
  {
    StrnLenOfPadded(name, NAME_MAX + 1);
  }

  lemma ContentOfDecoded(kind: nat, senderId: nat, transferId: nat, name: seq<byte>, content: seq<byte>)
    requires |name| <= NAME_MAX && LengthsAreValid(kind, transferId, |content|) && ContentIsClean(kind, content)
    ensures ContentOf(WithContent(Blank(kind, senderId, transferId, name), content)) == Some(content)
  {
    hide StrnLen, ToBytes, FromBytes;
    if kind == MESSAGE {
      StrnLenOfPadded(content, TEXT_MAX + 1);
    } else if kind == FILE_BEGIN {
      StrnLenOfPadded(content[FILE_SIZE_FIELD_SIZE..], FILE_NAME_MAX + 1);
      ToFromBytes(content[..FILE_SIZE_FIELD_SIZE]);
      assert content == content[..FILE_SIZE_FIELD_SIZE] + content[FILE_SIZE_FIELD_SIZE..];
    } else if kind == FILE_CHUNK {
      assert Padded(content, FILE_CHUNK_MAX)[..|content|] == content;
    }
  }

  lemma DecodedIsWellTyped(h: Header, name: seq<byte>, content: seq<byte>)
    requires InRange(h) && |name| <= NAME_MAX && LengthsAreValid(h.kind, h.transferId, |content|)
    ensures WellTyped(WithContent(Blank(h.kind, h.senderId, h.transferId, name), content))
  {
    hide FromBytes, ToBytes;
    if h.kind == FILE_BEGIN {
      Widths();
      ToFromBytes(content[..FILE_SIZE_FIELD_SIZE]);
    }
  }

  /** Encoding what an accepted frame decodes to reproduces the frame byte for byte. */
  lemma {:induction false} EncodeDecode(frame: seq<byte>)
    requires Decode(frame).Some?
    ensures var m := Decode(frame).value;
            WellTyped(m) && Encode(m) == Some(frame) && Canonical(m) == m
  {
    hide EncodeHeader, ReadHeader, FixedPartOk, ContentOf, NameOf, WithContent, Blank, ContentIsClean, WellTyped,
         LengthsAreValid, KindIsValid, InRange;
    var h := ReadHeader(frame);
    var name, content := frame[HEADER_SIZE..HEADER_SIZE + h.nameSize], frame[HEADER_SIZE + h.nameSize..];
    EncodeReadHeader(frame);
    DecodedIsWellTyped(h, name, content);
    NameOfDecoded(h.kind, h.senderId, h.transferId, name, content);
    ContentOfDecoded(h.kind, h.senderId, h.transferId, name, content);
    var m := Decode(frame).value;
    DecodedIds(h, name, content);
    assert HeaderOf(m, name, content) == h;
    assert frame == frame[..HEADER_SIZE] + name + content;
  }

  lemma DecodedIds(h: Header, name: seq<byte>, content: seq<byte>)
    requires |name| <= NAME_MAX && LengthsAreValid(h.kind, h.transferId, |content|)
    ensures var m := WithContent(Blank(h.kind, h.senderId, h.transferId, name), content);
            m.kind == h.kind && m.senderId == h.senderId && m.transferId == h.transferId
  {
  }

  /** Encoding is one to one on canonical messages, and every accepted frame is the code of one. */
  lemma {:induction false} CodecIsBijection(a: Message, b: Message)
    requires WellTyped(a) && Encodable(a) && WellTyped(b) && Encodable(b)
    ensures Frame(a) == Frame(b) <==> Canonical(a) == Canonical(b)
  {
    hide Frame, Canonical, Encodable, Decode;
    DecodeEncode(a);
    DecodeEncode(b);
    EncodeDecode(Frame(a));
    EncodeDecode(Frame(b));
    FrameOfCanonical(a);
    FrameOfCanonical(b);
  }

  lemma FrameOfCanonical(m: Message)
    requires WellTyped(m) && Encodable(m)
    ensures Encodable(Canonical(m)) && Frame(Canonical(m)) == Frame(m)
  {
    hide Frame, Canonical, Encodable, Decode;
    DecodeEncode(m);
    EncodeDecode(Frame(m));
    EncodeIsFrame(Canonical(m));
  }

  lemma EncodeIsFrame(m: Message)
    ensures Encode(m).Some? <==> Encodable(m)
    ensures Encodable(m) ==> Encode(m) == Some(Frame(m))
  {
  }
}
