/** The chat protocol on the wire, byte by byte. */
module ChatWire {
  import opened Bytes
  import opened Wrappers
  import opened ChatCodec

  // ---------- numbers in network byte order ----------

  function U16(b: seq<byte>, at: nat): nat
    requires at + 2 <= |b|
  {
    b[at] as int * 0x100 + b[at + 1]
  }

  function U32(b: seq<byte>, at: nat): nat
    requires at + 4 <= |b|
  {
    U16(b, at) * 0x1_0000 + U16(b, at + 2)
  }

  function U64(b: seq<byte>, at: nat): nat
    requires at + 8 <= |b|
  {
    U32(b, at) * 0x1_0000_0000 + U32(b, at + 4)
  }

  lemma Reads(b: seq<byte>, at: nat)
    ensures at + 2 <= |b| ==> FromBytes(b[at..at + 2]) == U16(b, at)
    ensures at + 4 <= |b| ==> FromBytes(b[at..at + 4]) == U32(b, at)
    ensures at + 8 <= |b| ==> FromBytes(b[at..at + 8]) == U64(b, at)
  {
    hide FromBytes;
    if at + 2 <= |b| {
      NetworkOrder(b[at..at + 2]);
    }
    if at + 4 <= |b| {
      NetworkOrder(b[at..at + 4]);
    }
    if at + 8 <= |b| {
      var s := b[at..at + 8];
      FourAndFour(s);
      NetworkOrder(s[..4]);
      NetworkOrder(s[4..]);
    }
  }

  // ---------- what a receiver makes of the bytes it has ----------

  /** The content sizes each packet type allows, and whether it belongs to a transfer. */
  predicate SizesAllowed(kind: nat, transferId: nat, size: nat) {
    || ((kind == 1 || kind == 3) && transferId == 0 && size == 0)
    || (kind == 2 && transferId == 0 && 1 <= size <= 1023)
    || (kind == 4 && transferId != 0 && 9 <= size <= 263)
    || (kind == 5 && transferId != 0 && 1 <= size <= 16384)
    || (kind == 6 && transferId != 0 && size == 0)
  }

  /** The 32 bytes of a header that is accepted. */
  predicate HeaderAllowed(b: seq<byte>)
    requires |b| >= 32
  {
    && b[0] == 0x4D && b[1] == 0x33 && b[2] == 0x54 && b[3] == 0x37 && b[4] == 2 && b[6] == 0 && b[7] == 0
    && U64(b, 12) != 0 && 1 <= U16(b, 28) <= 31 && U32(b, 8) == U16(b, 28) + U16(b, 30)
    && SizesAllowed(b[5], U64(b, 20), U16(b, 30))
  }

  lemma HeaderRead(b: seq<byte>)
    requires |b| >= HEADER_SIZE
    ensures ReadHeader(b) == Header(b[5], U32(b, 8), U64(b, 12), U64(b, 20), U16(b, 28), U16(b, 30))
    ensures FixedPartOk(b) <==> U32(b, 0) == 0x4D335437 && b[4] == 2 && U16(b, 6) == 0
  {
    hide FromBytes, U16, U32, U64;
    Reads(b, 0);
    Reads(b, 6);
    Reads(b, 8);
    Reads(b, 12);
    Reads(b, 20);
    Reads(b, 28);
    Reads(b, 30);
  }

  lemma MagicBytes(b: seq<byte>)
    requires |b| >= 8
    ensures U32(b, 0) == 0x4D335437 <==> b[0] == 0x4D && b[1] == 0x33 && b[2] == 0x54 && b[3] == 0x37
    ensures U16(b, 6) == 0 <==> b[6] == 0 && b[7] == 0
  {
  }

  /** protocol_frame_size, in full. */
  lemma FrameStatusIs(b: seq<byte>)
    ensures FrameStatusOf(b) ==
            if |b| < 32 then Incomplete
            else if !HeaderAllowed(b) then Invalid
            else if |b| < 32 + U32(b, 8) then Incomplete
            else Complete(32 + U32(b, 8))
  {
    if |b| >= 32 {
      hide U16, U32, U64, ReadHeader, FixedPartOk;
      HeaderRead(b);
      MagicBytes(b);
    }
  }

  // ---------- what a sender writes ----------

  /** The content of a message stands behind its name as its type says. */
  predicate ContentLies(m: Message, f: seq<byte>, at: nat)
    requires at <= |f|
  {
    && (m.kind == 2 ==>
          && |f| - at < |m.text| && f[at..] == m.text[..|f| - at] && m.text[|f| - at] == 0 && 0 !in f[at..])
    && (m.kind == 4 ==>
          && at + 8 <= |f| && U64(f, at) == m.fileSize && |f| - at - 8 < |m.fileName|
          && f[at + 8..] == m.fileName[..|f| - at - 8] && m.fileName[|f| - at - 8] == 0 && 0 !in f[at + 8..])
    && (m.kind == 5 ==> m.fileDataSize == |f| - at <= |m.fileData| && f[at..] == m.fileData[..m.fileDataSize])
    && (m.kind != 2 && m.kind != 4 && m.kind != 5 ==> at == |f|)
  }

  /** Where everything stands in a message's frame. */
  predicate LaidOut(m: Message, f: seq<byte>) {
    && |f| >= 32 && HeaderAllowed(f) && |f| == 32 + U32(f, 8)
    && f[5] == m.kind && U64(f, 12) == m.senderId && U64(f, 20) == m.transferId
    && var n := U16(f, 28);
       && n < |m.senderName| && f[32..32 + n] == m.senderName[..n] && m.senderName[n] == 0 && 0 !in f[32..32 + n]
       && ContentLies(m, f, 32 + n)
  }

  lemma {:induction false} FrameLayout(m: Message)
    requires WellTyped(m) && Encodable(m)
    ensures LaidOut(m, Frame(m))
  {
    hide U16, U32, U64, HeaderAllowed, EncodeHeader, ContentOf, ReadHeader, FixedPartOk, Frame, ContentLies, HeaderIsValid,
         StrnLen;
    var f := Frame(m);
    var name, content := NameOf(m), ContentOf(m).value;
    FrameIsComplete(m);
    FrameStatusIs(f);
    HeaderRead(f);
    FrameParts(m);
    ContentLiesThere(m, f, 32 + |name|);
  }

  lemma FrameParts(m: Message)
    requires Encodable(m)
    ensures var f, n := Frame(m), |NameOf(m)|; f[32..32 + n] == NameOf(m) && f[32 + n..] == ContentOf(m).value
  {
    hide EncodeHeader, ContentOf, NameOf;
    SplitFrame(EncodeHeader(HeaderOf(m, NameOf(m), ContentOf(m).value)), NameOf(m), ContentOf(m).value);
  }

  lemma ContentLiesThere(m: Message, f: seq<byte>, at: nat)
    requires WellTyped(m) && Encodable(m) && at <= |f| && f[at..] == ContentOf(m).value
    ensures ContentLies(m, f, at)
  {
    hide ToBytes, FromBytes, U64;
    if m.kind == FILE_BEGIN {
      var n := StrnLen(m.fileName);
      Reads(f, at);
      Widths();
      FromToBytes(m.fileSize, 8);
      assert f[at..at + 8] == f[at..][..8] == ToBytes(m.fileSize, 8);
      assert f[at + 8..] == f[at..][8..] == m.fileName[..n];
    }
  }

  lemma StrnLenIs(field: seq<byte>, n: nat)
    requires n < |field| && field[n] == 0 && 0 !in field[..n]
    ensures StrnLen(field) == n
  {
  }

  lemma LaidOutContent(m: Message, f: seq<byte>, at: nat)
    requires WellTyped(m) && KindIsValid(m.kind) && at <= |f| && ContentLies(m, f, at)
    requires SizesAllowed(m.kind, m.transferId, |f| - at)
    ensures ContentOf(m) == Some(f[at..])
  {
    hide ToBytes, FromBytes, U64, StrnLen;
    if m.kind == MESSAGE {
      assert m.text[..|f| - at] == f[at..];
      StrnLenIs(m.text, |f| - at);
    } else if m.kind == FILE_BEGIN {
      assert m.fileName[..|f| - at - 8] == f[at + 8..];
      StrnLenIs(m.fileName, |f| - at - 8);
      Reads(f, at);
      ToFromBytes(f[at..at + 8]);
      assert f[at..] == f[at..at + 8] + f[at + 8..];
    } else if m.kind != FILE_CHUNK {
      assert f[at..] == [];
    }
  }

  /** A message can be encoded exactly when some bytes are laid out as it says, and then those are its frame. */
  lemma {:induction false} FrameIffLaidOut(m: Message, f: seq<byte>)
    requires WellTyped(m)
    ensures LaidOut(m, f) <==> Encodable(m) && f == Frame(m)
  {
    hide U16, U32, U64, EncodeHeader, ContentOf, ReadHeader, FixedPartOk, Frame, ContentLies, StrnLen, ToBytes;
    if Encodable(m) {
      FrameLayout(m);
    }
    if LaidOut(m, f) {
      var n := U16(f, 28);
      StrnLenIs(m.senderName, n);
      LaidOutContent(m, f, 32 + n);
      HeaderRead(f);
      MagicBytes(f);
      EncodeReadHeader(f);
      FrameFromParts(m, f, 32 + n);
    }
  }

  lemma FrameFromParts(m: Message, f: seq<byte>, at: nat)
    requires Encodable(m) && 32 <= at <= |f| && f[32..at] == NameOf(m) && f[at..] == ContentOf(m).value
    requires f[..32] == EncodeHeader(HeaderOf(m, NameOf(m), ContentOf(m).value))
    ensures f == Frame(m)
  {
    hide EncodeHeader, ContentOf, NameOf;
    assert f == f[..32] + f[32..at] + f[at..];
  }

  /** What is decoded is laid out in the bytes it was decoded from, and nothing else is in it. */
  lemma DecodedLayout(frame: seq<byte>)
    requires Decode(frame).Some?
    ensures LaidOut(Decode(frame).value, frame) && WellTyped(Decode(frame).value)
    ensures IsSound(Decode(frame).value)
  {
    hide LaidOut, Frame, WellTyped, Encodable, Decode, Canonical;
    EncodeDecode(frame);
    EncodeIsFrame(Decode(frame).value);
    FrameLayout(Decode(frame).value);
  }

  /** Exactly which bytes are a frame that is decoded. */
  lemma DecodedIff(frame: seq<byte>)
    ensures Decode(frame).Some? <==>
            && |frame| >= 32 && HeaderAllowed(frame) && |frame| == 32 + U32(frame, 8)
            && var n := 32 + U16(frame, 28);
               && 0 !in frame[32..n]
               && (frame[5] == 2 ==> 0 !in frame[n..]) && (frame[5] == 4 ==> 0 !in frame[n + 8..])
  {
    hide U16, U32, U64, ReadHeader, FixedPartOk, WithContent, Blank;
    FrameStatusIs(frame);
    if |frame| >= 32 {
      HeaderRead(frame);
      if HeaderAllowed(frame) && |frame| == 32 + U32(frame, 8) && frame[5] == 4 {
        var n := 32 + U16(frame, 28);
        assert frame[n..][8..] == frame[n + 8..];
      }
    }
  }
}
