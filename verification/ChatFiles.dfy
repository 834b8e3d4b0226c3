/** Files in the chat client: what a sender makes of one, and what a receiver does with the packets. */
module ChatFiles {
  import opened Bytes
  import opened ChatCodec
  import opened ChatFraming
  import opened ChatRelay

  const INCOMING_MAX := 16
  const PATH_MAX := 512

  // ---------- paths ----------

  const SLASH: byte := 47
  const BACKSLASH: byte := 92
  const DOT: byte := 46
  const UNDERSCORE: byte := 95
  const DOWNLOADS: seq<byte> := [100, 111, 119, 110, 108, 111, 97, 100, 115, SLASH]
  const PART: seq<byte> := [DOT, 112, 97, 114, 116]

  function HexDigit(d: nat): byte
    requires d < 16
  {
    if d < 10 then 48 + d else 87 + d
  }

  /** The low n hexadecimal digits of v. */
  function Hex(v: nat, n: nat): (s: seq<byte>)
    ensures |s| == n
  {
    if n == 0 then [] else Hex(v / 16, n - 1) + [HexDigit(v % 16)]
  }

  function Prefix(senderId: nat, transferId: nat): (s: seq<byte>)
    ensures |s| == 44
  {
    DOWNLOADS + Hex(senderId, 16) + [UNDERSCORE] + Hex(transferId, 16) + [UNDERSCORE]
  }

  function FinalPath(senderId: nat, transferId: nat, name: seq<byte>): seq<byte> {
    Prefix(senderId, transferId) + name
  }

  /** safe_file_name. */
  predicate SafeFileName(name: seq<byte>) {
    && name != [] && name != [DOT] && name != [DOT, DOT]
    && SLASH !in name && BACKSLASH !in name
  }

  /** A name that stays in the directory: not empty, not "." or "..", without slash or backslash, of at most 255 bytes. */
  predicate PlainName(name: seq<byte>) {
    1 <= |name| <= 255 && name != [46] && name != [46, 46] && 47 !in name && 92 !in name
  }

  lemma PlainIsSafe(name: seq<byte>)
    ensures PlainName(name) <==> SafeFileName(name) && |name| <= FILE_NAME_MAX
  {
  }

  function Pow16(n: nat): nat {
    if n == 0 then 1 else 16 * Pow16(n - 1)
  }

  lemma {:induction false} HexIsInjective(a: nat, b: nat, n: nat)
    requires a < Pow16(n) && b < Pow16(n) && Hex(a, n) == Hex(b, n)
    ensures a == b
  {
    if n > 0 {
      var x, y := Hex(a, n), Hex(b, n);
      assert x[..n - 1] == Hex(a / 16, n - 1) && y[..n - 1] == Hex(b / 16, n - 1);
      assert x[n - 1] == HexDigit(a % 16) && y[n - 1] == HexDigit(b % 16);
      HexIsInjective(a / 16, b / 16, n - 1);
    }
  }

  /** What a lower-case hexadecimal numeral stands for. */
  function NumberOf(digits: seq<byte>): int {
    if digits == [] then 0
    else
      var c := digits[|digits| - 1];
      NumberOf(digits[..|digits| - 1]) * 16 + if c < 58 then c as int - 48 else c as int - 87
  }

  predicate AreDigits(s: seq<byte>) {
    forall i :: 0 <= i < |s| ==> 48 <= s[i] <= 57 || 97 <= s[i] <= 102
  }

  lemma {:induction false} HexMeans(v: nat, n: nat)
    requires v < Pow16(n)
    ensures AreDigits(Hex(v, n)) && NumberOf(Hex(v, n)) == v
  {
    if n > 0 {
      HexMeans(v / 16, n - 1);
      assert Hex(v, n)[..n - 1] == Hex(v / 16, n - 1);
    }
  }

  /** downloads/, the two identifiers as numerals of 16 digits, each followed by an underscore, and the name. */
  lemma PathFormat(senderId: nat, transferId: nat, name: seq<byte>) returns (a: seq<byte>, b: seq<byte>)
    requires senderId < UINT64_RANGE && transferId < UINT64_RANGE
    ensures FinalPath(senderId, transferId, name) ==
            [100, 111, 119, 110, 108, 111, 97, 100, 115, 47] + a + [95] + b + [95] + name
    ensures |a| == |b| == 16 && AreDigits(a) && AreDigits(b) && NumberOf(a) == senderId && NumberOf(b) == transferId
  {
    hide Hex, NumberOf, Pow16;
    SixteenDigits();
    a, b := Hex(senderId, 16), Hex(transferId, 16);
    HexMeans(senderId, 16);
    HexMeans(transferId, 16);
  }

  lemma SixteenDigits()
    ensures Pow16(16) == UINT64_RANGE
  {
    assert Pow16(4) == 0x1_0000;
    assert Pow16(8) == 0x1_0000 * Pow16(4);
    assert Pow16(12) == 0x1_0000 * Pow16(8);
    assert Pow16(16) == 0x1_0000 * Pow16(12);
  }

  /** Files of different transfers never share a path. */
  lemma PrefixIsInjective(s1: nat, t1: nat, s2: nat, t2: nat)
    requires s1 < UINT64_RANGE && t1 < UINT64_RANGE && s2 < UINT64_RANGE && t2 < UINT64_RANGE
    requires Prefix(s1, t1) == Prefix(s2, t2)
    ensures s1 == s2 && t1 == t2
  {
    hide Hex, Pow16;
    SixteenDigits();
    assert Prefix(s1, t1)[10..26] == Hex(s1, 16) && Prefix(s2, t2)[10..26] == Hex(s2, 16);
    assert Prefix(s1, t1)[27..43] == Hex(t1, 16) && Prefix(s2, t2)[27..43] == Hex(t2, 16);
    HexIsInjective(s1, s2, 16);
    HexIsInjective(t1, t2, 16);
  }

  lemma {:induction false} HexIsPlain(v: nat, n: nat)
    ensures SLASH !in Hex(v, n) && BACKSLASH !in Hex(v, n)
  {
    if n > 0 {
      HexIsPlain(v / 16, n - 1);
    }
  }

  /** Whatever name a sender gives, the file lands in the download directory itself and its path is never cut. */
  lemma PathStaysInside(senderId: nat, transferId: nat, name: seq<byte>)
    requires SafeFileName(name) && |name| <= FILE_NAME_MAX
    ensures var path := FinalPath(senderId, transferId, name) + PART;
            && |path| < PATH_MAX && path[..10] == DOWNLOADS
            && forall k :: 10 <= k < |path| ==> path[k] != SLASH && path[k] != BACKSLASH
  {
    hide Hex;
    HexIsPlain(senderId, 16);
    HexIsPlain(transferId, 16);
    var rest := Hex(senderId, 16) + [UNDERSCORE] + Hex(transferId, 16) + [UNDERSCORE] + name + PART;
    assert FinalPath(senderId, transferId, name) + PART == DOWNLOADS + rest;
    assert forall k :: 0 <= k < |rest| ==> rest[k] != SLASH && rest[k] != BACKSLASH;
  }

  // ---------- the receiver ----------

  /** A place in the table of files being received; the temporary path is the final one with ".part" added. */
  datatype Incoming = Vacant | Receiving(senderId: nat, transferId: nat, expected: nat, received: nat, path: seq<byte>)

  /** A line the client prints. */
  datatype Line =
    | HasJoined(name: seq<byte>)
    | Said(name: seq<byte>, text: seq<byte>)
    | HasLeft(name: seq<byte>)
    | FileComing(name: seq<byte>, fileName: seq<byte>, size: nat)
    | FileSaved(path: seq<byte>)

  datatype Receiver = Receiver(ownId: nat, files: seq<Incoming>, disk: map<seq<byte>, seq<byte>>, screen: seq<Line>)

  function Shown(r: Receiver, line: Line): Receiver {
    r.(screen := r.screen + [line])
  }

  predicate Matches(file: Incoming, senderId: nat, transferId: nat) {
    file.Receiving? && file.senderId == senderId && file.transferId == transferId
  }

  function FindIncoming(files: seq<Incoming>, senderId: nat, transferId: nat): (i: nat)
    ensures i <= |files| && (i < |files| ==> Matches(files[i], senderId, transferId))
    ensures forall k :: 0 <= k < i ==> !Matches(files[k], senderId, transferId)
  {
    if files == [] || Matches(files[0], senderId, transferId) then 0
    else 1 + FindIncoming(files[1..], senderId, transferId)
  }

  function FindVacant(files: seq<Incoming>): (i: nat)
    ensures i <= |files| && (i < |files| ==> files[i].Vacant?)
    ensures forall k :: 0 <= k < i ==> files[k].Receiving?
  {
    if files == [] || files[0].Vacant? then 0 else 1 + FindVacant(files[1..])
  }

  function Contents(disk: map<seq<byte>, seq<byte>>, path: seq<byte>): seq<byte> {
    if path in disk then disk[path] else []
  }

  function WithFile(r: Receiver, i: nat, file: Incoming): Receiver
    requires i < |r.files|
  {
    r.(files := r.files[i := file])
  }

  /** begin_incoming_file; creating the directory and the file succeeds. */
  function BeginIncoming(r: Receiver, m: Message): Handled<Receiver> {
    var name := CString(m.fileName);
    var i := FindVacant(r.files);
    var path := FinalPath(m.senderId, m.transferId, name);
    if !SafeFileName(name) || FindIncoming(r.files, m.senderId, m.transferId) < |r.files| || i == |r.files|
       || |path| >= PATH_MAX || |path + PART| >= PATH_MAX then Handled(r, false)
    else
      Handled(Shown(WithFile(r, i, Receiving(m.senderId, m.transferId, m.fileSize, 0, path)).
                      (disk := r.disk[path + PART := []]), FileComing(CString(m.senderName), name, m.fileSize)), true)
  }

  function ChunkData(m: Message): seq<byte> {
    if m.fileDataSize <= |m.fileData| then m.fileData[..m.fileDataSize] else m.fileData
  }

  /** write_incoming_chunk; writing succeeds. */
  function WriteChunk(r: Receiver, m: Message): Handled<Receiver> {
    var i := FindIncoming(r.files, m.senderId, m.transferId);
    if i == |r.files| || m.fileDataSize > r.files[i].expected - r.files[i].received then Handled(r, false)
    else
      var file := r.files[i];
      Handled(WithFile(r, i, file.(received := file.received + m.fileDataSize)).
                (disk := r.disk[file.path + PART := Contents(r.disk, file.path + PART) + ChunkData(m)]), true)
  }

  /** finish_incoming_file; closing and renaming succeed. */
  function FinishIncoming(r: Receiver, m: Message): Handled<Receiver> {
    var i := FindIncoming(r.files, m.senderId, m.transferId);
    if i == |r.files| || r.files[i].received != r.files[i].expected then Handled(r, false)
    else
      var path := r.files[i].path;
      Handled(Shown(WithFile(r, i, Vacant).
                      (disk := (r.disk - {path + PART})[path := Contents(r.disk, path + PART)]), FileSaved(path)), true)
  }

  /** cancel_incoming_files, from place k on: everything a departed sender left unfinished goes. */
  function CancelIncoming(r: Receiver, senderId: nat, k: nat): (t: Receiver)
    ensures |t.files| == |r.files| && t.ownId == r.ownId && t.screen == r.screen
    decreases |r.files| - k
  {
    if k >= |r.files| then r
    else if r.files[k].Receiving? && r.files[k].senderId == senderId then
      CancelIncoming(WithFile(r, k, Vacant).(disk := r.disk - {r.files[k].path + PART}), senderId, k + 1)
    else CancelIncoming(r, senderId, k + 1)
  }

  /** handle_received_message. */
  function HandleReceived(r: Receiver, m: Message): Handled<Receiver> {
    if m.senderId == r.ownId then Handled(r, true)
    else if m.kind == JOIN then Handled(Shown(r, HasJoined(CString(m.senderName))), true)
    else if m.kind == MESSAGE then Handled(Shown(r, Said(CString(m.senderName), CString(m.text))), true)
    else if m.kind == LEAVE then Handled(Shown(CancelIncoming(r, m.senderId, 0), HasLeft(CString(m.senderName))), true)
    else if m.kind == FILE_BEGIN then BeginIncoming(r, m)
    else if m.kind == FILE_CHUNK then WriteChunk(r, m)
    else if m.kind == FILE_END then FinishIncoming(r, m)
    else Handled(r, true)
  }

  function ReceivedHandler(): Handler<Receiver> {
    (r, m) => HandleReceived(r, m)
  }

  function NewReceiver(ownId: nat, disk: map<seq<byte>, seq<byte>>): Receiver {
    Receiver(ownId, seq(INCOMING_MAX, _ => Vacant), disk, [])
  }

  // ---------- the sender's messages ----------

  /** What a client puts in all its messages. */
  datatype Identity = Identity(id: nat, name: seq<byte>)

  predicate IdentityIsValid(who: Identity) {
    0 < who.id < UINT64_RANGE && 1 <= |who.name| <= NAME_MAX && 0 !in who.name
  }

  predicate FileIsValid(transferId: nat, fileName: seq<byte>, size: nat) {
    0 < transferId < UINT64_RANGE && 1 <= |fileName| <= FILE_NAME_MAX && 0 !in fileName && size < UINT64_RANGE
  }

  function PlainMessage(who: Identity, kind: nat): Message
    requires |who.name| <= NAME_MAX
  {
    Blank(kind, who.id, 0, who.name)
  }

  function TextMessage(who: Identity, text: seq<byte>): Message
    requires |who.name| <= NAME_MAX && |text| <= TEXT_MAX
  {
    Blank(MESSAGE, who.id, 0, who.name).(text := Padded(text, TEXT_MAX + 1))
  }

  function BeginMessage(who: Identity, transferId: nat, fileName: seq<byte>, size: nat): Message
    requires |who.name| <= NAME_MAX && |fileName| <= FILE_NAME_MAX
  {
    Blank(FILE_BEGIN, who.id, transferId, who.name).(fileSize := size, fileName := Padded(fileName, FILE_NAME_MAX + 1))
  }

  function ChunkMessage(who: Identity, transferId: nat, data: seq<byte>): Message
    requires |who.name| <= NAME_MAX && |data| <= FILE_CHUNK_MAX
  {
    Blank(FILE_CHUNK, who.id, transferId, who.name).(fileData := Padded(data, FILE_CHUNK_MAX), fileDataSize := |data|)
  }

  function EndMessage(who: Identity, transferId: nat): Message
    requires |who.name| <= NAME_MAX
  {
    Blank(FILE_END, who.id, transferId, who.name)
  }

  /** How much the next chunk takes of what is left. */
  function NextChunk(left: nat): (n: nat)
    ensures n <= left && n <= FILE_CHUNK_MAX && (left > 0 ==> n > 0)
  {
    if left < FILE_CHUNK_MAX then left else FILE_CHUNK_MAX
  }

  /** The chunk messages for a piece of content, in order. */
  function ChunkMessages(who: Identity, transferId: nat, content: seq<byte>): seq<Message>
    requires |who.name| <= NAME_MAX
    decreases |content|
  {
    if content == [] then []
    else
      var n := NextChunk(|content|);
      [ChunkMessage(who, transferId, content[..n])] + ChunkMessages(who, transferId, content[n..])
  }

  /** Everything the pump sends for a file. */
  function FileMessages(who: Identity, transferId: nat, fileName: seq<byte>, content: seq<byte>): seq<Message>
    requires |who.name| <= NAME_MAX && |fileName| <= FILE_NAME_MAX
  {
    [BeginMessage(who, transferId, fileName, |content|)] + ChunkMessages(who, transferId, content)
    + [EndMessage(who, transferId)]
  }

  /** The messages of one transfer among others. */
  function PacketsOf(messages: seq<Message>, senderId: nat, transferId: nat): seq<Message> {
    if messages == [] then []
    else
      var m := messages[|messages| - 1];
      PacketsOf(messages[..|messages| - 1], senderId, transferId)
      + if m.senderId == senderId && m.transferId == transferId then [m] else []
  }

  lemma SoundMade(kind: nat, senderId: nat, transferId: nat, name: seq<byte>, content: seq<byte>)
    requires KindIsValid(kind) && 0 < senderId < UINT64_RANGE && transferId < UINT64_RANGE
    requires 0 !in name && 1 <= |name| <= NAME_MAX
    requires LengthsAreValid(kind, transferId, |content|) && ContentIsClean(kind, content)
    ensures var m := WithContent(Blank(kind, senderId, transferId, name), content);
            IsSound(m) && NameOf(m) == name
  {
    hide NameOf, ContentOf, WithContent, Blank, WellTyped, LengthsAreValid, ContentIsClean, FromBytes, ToBytes;
    NameOfDecoded(kind, senderId, transferId, name, content);
    ContentOfDecoded(kind, senderId, transferId, name, content);
    DecodedIsWellTyped(Header(kind, 0, senderId, transferId, 0, 0), name, content);
    DecodedIds(Header(kind, 0, senderId, transferId, 0, 0), name, content);
  }

  lemma PlainIsSound(who: Identity, kind: nat)
    requires IdentityIsValid(who) && (kind == JOIN || kind == LEAVE)
    ensures IsSound(PlainMessage(who, kind)) && NameOf(PlainMessage(who, kind)) == who.name
  {
    hide IsSound;
    SoundMade(kind, who.id, 0, who.name, []);
  }

  lemma TextIsSound(who: Identity, text: seq<byte>)
    requires IdentityIsValid(who) && 1 <= |text| <= TEXT_MAX && 0 !in text
    ensures IsSound(TextMessage(who, text)) && NameOf(TextMessage(who, text)) == who.name
    ensures CString(TextMessage(who, text).text) == text
  {
    hide IsSound, StrnLen;
    StrnLenOfPadded(text, TEXT_MAX + 1);
    SoundMade(MESSAGE, who.id, 0, who.name, text);
  }

  lemma BeginIsSound(who: Identity, transferId: nat, fileName: seq<byte>, size: nat)
    requires IdentityIsValid(who) && FileIsValid(transferId, fileName, size)
    ensures IsSound(BeginMessage(who, transferId, fileName, size))
    ensures NameOf(BeginMessage(who, transferId, fileName, size)) == who.name
    ensures CString(BeginMessage(who, transferId, fileName, size).fileName) == fileName
  {
    hide IsSound, ToBytes, FromBytes, Pow256, StrnLen;
    var content := ToBytes(size, FILE_SIZE_FIELD_SIZE) + fileName;
    Widths();
    FromToBytes(size, FILE_SIZE_FIELD_SIZE);
    assert content[..FILE_SIZE_FIELD_SIZE] == ToBytes(size, FILE_SIZE_FIELD_SIZE);
    assert content[FILE_SIZE_FIELD_SIZE..] == fileName;
    SoundMade(FILE_BEGIN, who.id, transferId, who.name, content);
    StrnLenOfPadded(fileName, FILE_NAME_MAX + 1);
  }

  lemma ChunkIsSound(who: Identity, transferId: nat, data: seq<byte>)
    requires IdentityIsValid(who) && 0 < transferId < UINT64_RANGE && 1 <= |data| <= FILE_CHUNK_MAX
    ensures IsSound(ChunkMessage(who, transferId, data)) && NameOf(ChunkMessage(who, transferId, data)) == who.name
    ensures ChunkData(ChunkMessage(who, transferId, data)) == data
  {
    hide IsSound;
    SoundMade(FILE_CHUNK, who.id, transferId, who.name, data);
    assert Padded(data, FILE_CHUNK_MAX)[..|data|] == data;
  }

  lemma EndIsSound(who: Identity, transferId: nat)
    requires IdentityIsValid(who) && 0 < transferId < UINT64_RANGE
    ensures IsSound(EndMessage(who, transferId)) && NameOf(EndMessage(who, transferId)) == who.name
  {
    hide IsSound;
    SoundMade(FILE_END, who.id, transferId, who.name, []);
  }
}
