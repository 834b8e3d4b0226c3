/** The receiving half of the chat client: its input buffer and its table of 16 incoming files, in place. */
module ChatIncoming {
  import opened Bytes
  import opened ChatCodec
  import opened ChatFraming
  import opened ChatRelay
  import opened ChatFiles

  class FileReceiver {
    const ownId: nat
    const files: array<Incoming>
    const input: array<byte>
    var disk: map<seq<byte>, seq<byte>>
    var inputSize: nat
    var screen: seq<Line>

    ghost predicate Valid()
      reads this
    {
      files.Length == INCOMING_MAX && input.Length == PACKET_MAX_SIZE && inputSize <= PACKET_MAX_SIZE
    }

    ghost function Input(): seq<byte>
      requires Valid()
      reads this, input
    {
      input[..inputSize]
    }

    ghost function View(): ChatFiles.Receiver
      reads this, files
    {
      ChatFiles.Receiver(ownId, files[..], disk, screen)
    }

    constructor (ownId: nat, disk: map<seq<byte>, seq<byte>>)
      ensures Valid() && fresh(files) && fresh(input)
      ensures View() == NewReceiver(ownId, disk) && Input() == [] && inputSize == 0
    {
      this.ownId, this.disk, inputSize, screen := ownId, disk, 0, [];
      input := new byte[PACKET_MAX_SIZE](_ => 0);
      files := new Incoming[INCOMING_MAX](_ => Vacant);
    }

    /** find_incoming_file; the length of the table when there is none. */
    method FindIncomingFile(senderId: nat, transferId: nat) returns (index: nat)
      requires Valid()
      ensures index == FindIncoming(files[..], senderId, transferId)
    {
      index := 0;
      while index < files.Length
        invariant index <= files.Length
        invariant FindIncoming(files[..], senderId, transferId) == index + FindIncoming(files[index..], senderId, transferId)
      {
        assert files[index..][0] == files[index] && files[index..][1..] == files[index + 1..];
        if files[index].Receiving? && files[index].senderId == senderId && files[index].transferId == transferId {
          return;
        }
        index := index + 1;
      }
    }

    /** free_incoming_file. */
    method FreeIncomingFile() returns (index: nat)
      requires Valid()
      ensures index == FindVacant(files[..])
    {
      index := 0;
      while index < files.Length
        invariant index <= files.Length
        invariant FindVacant(files[..]) == index + FindVacant(files[index..])
      {
        assert files[index..][0] == files[index] && files[index..][1..] == files[index + 1..];
        if files[index].Vacant? {
          return;
        }
        index := index + 1;
      }
    }

    /** cancel_incoming_files. */
    method CancelIncomingFiles(senderId: nat)
      requires Valid()
      modifies this`disk, files
      ensures View() == CancelIncoming(old(View()), senderId, 0)
    {
      var index := 0;
      while index < files.Length
        invariant index <= files.Length
        invariant CancelIncoming(View(), senderId, index) == CancelIncoming(old(View()), senderId, 0)
      {
        if files[index].Receiving? && files[index].senderId == senderId {
          ghost var before := View();
          disk := disk - {files[index].path + PART};
          files[index] := Vacant;
          assert View() == WithFile(before, index, Vacant).(disk := disk);
        }
        index := index + 1;
      }
    }

    /** begin_incoming_file. */
    method BeginIncomingFile(m: Message) returns (ok: bool)
      requires Valid()
      modifies this`disk, this`screen, files
      ensures Handled(View(), ok) == BeginIncoming(old(View()), m)
    {
      hide Prefix, SafeFileName, StrnLen, FindVacant, FindIncoming;
      var name := CString(m.fileName);
      if !SafeFileName(name) {
        return false;
      }
      var found := FindIncomingFile(m.senderId, m.transferId);
      if found < files.Length {
        return false;
      }
      var index := FreeIncomingFile();
      if index == files.Length {
        return false;
      }
      var path := FinalPath(m.senderId, m.transferId, name);
      if |path| >= PATH_MAX || |path + PART| >= PATH_MAX {
        return false;
      }
      disk := disk[path + PART := []];
      files[index] := Receiving(m.senderId, m.transferId, m.fileSize, 0, path);
      screen := screen + [FileComing(CString(m.senderName), name, m.fileSize)];
      assert files[..] == old(files[..])[index := files[index]];
      ok := true;
    }

    /** write_incoming_chunk. */
    method WriteIncomingChunk(m: Message) returns (ok: bool)
      requires Valid()
      modifies this`disk, files
      ensures Handled(View(), ok) == WriteChunk(old(View()), m)
    {
      hide FindIncoming, Contents, ChunkData;
      var index := FindIncomingFile(m.senderId, m.transferId);
      if index == files.Length || m.fileDataSize > files[index].expected - files[index].received {
        return false;
      }
      var file := files[index];
      disk := disk[file.path + PART := Contents(disk, file.path + PART) + ChunkData(m)];
      files[index] := file.(received := file.received + m.fileDataSize);
      assert files[..] == old(files[..])[index := files[index]];
      ok := true;
    }

    /** finish_incoming_file. */
    method FinishIncomingFile(m: Message) returns (ok: bool)
      requires Valid()
      modifies this`disk, this`screen, files
      ensures Handled(View(), ok) == FinishIncoming(old(View()), m)
    {
      hide FindIncoming, Contents;
      var index := FindIncomingFile(m.senderId, m.transferId);
      if index == files.Length || files[index].received != files[index].expected {
        return false;
      }
      var path := files[index].path;
      disk := (disk - {path + PART})[path := Contents(disk, path + PART)];
      files[index] := Vacant;
      screen := screen + [FileSaved(path)];
      assert files[..] == old(files[..])[index := Vacant];
      ok := true;
    }

    /** handle_received_message. */
    method HandleReceivedMessage(m: Message) returns (ok: bool)
      requires Valid()
      modifies this`disk, this`screen, files
      ensures Handled(View(), ok) == ReceivedHandler()(old(View()), m)
    {
      hide BeginIncoming, WriteChunk, FinishIncoming, CancelIncoming;
      if m.senderId == ownId {
        return true;
      }
      if m.kind == JOIN {
        screen := screen + [HasJoined(CString(m.senderName))];
      } else if m.kind == MESSAGE {
        screen := screen + [Said(CString(m.senderName), CString(m.text))];
      } else if m.kind == LEAVE {
        CancelIncomingFiles(m.senderId);
        screen := screen + [HasLeft(CString(m.senderName))];
      } else if m.kind == FILE_BEGIN {
        ok := BeginIncomingFile(m);
        return;
      } else if m.kind == FILE_CHUNK {
        ok := WriteIncomingChunk(m);
        return;
      } else if m.kind == FILE_END {
        ok := FinishIncomingFile(m);
        return;
      }
      ok := true;
    }

    /** Drop the first n bytes, moving the rest to the front of the buffer. */
    method ShiftInput(n: nat)
      requires Valid() && n <= inputSize
      modifies this`inputSize, input
      ensures Valid() && Input() == old(Input())[n..]
    {
      forall k | 0 <= k < inputSize - n {
        input[k] := input[n + k];
      }
      inputSize := inputSize - n;
    }

    /** process_input: handle every complete frame in the buffer. */
    method ProcessInput() returns (ok: bool)
      requires Valid()
      modifies this`disk, this`screen, this`inputSize, files, input
      ensures Valid()
      ensures match Process(ReceivedHandler(), old(View()), old(Input()))
              case Waiting(s, rest) => ok && View() == s && Input() == rest && inputSize < PACKET_MAX_SIZE
              case Broken(s) => !ok && View() == s
    {
      hide Process, FrameStatusOf, Decode, HandleReceived;
      RestFitsBuffer(ReceivedHandler(), View(), Input());
      while inputSize != 0
        invariant Valid()
        invariant Process(ReceivedHandler(), View(), Input()) == Process(ReceivedHandler(), old(View()), old(Input()))
        decreases inputSize
      {
        ProcessStep(ReceivedHandler(), View(), Input());
        var status := FrameStatusOf(input[..inputSize]);
        if status.Invalid? {
          return false;
        }
        if status.Incomplete? {
          return true;
        }
        StatusSize(Input());
        var message := Decode(input[..status.size]);
        assert input[..status.size] == Input()[..status.size];
        if message.None? {
          return false;
        }
        var handled := HandleReceivedMessage(message.value);
        if !handled {
          return false;
        }
        ShiftInput(status.size);
      }
      ProcessStep(ReceivedHandler(), View(), Input());
      return true;
    }

    method AppendInput(piece: seq<byte>)
      requires Valid() && |piece| <= PACKET_MAX_SIZE - inputSize
      modifies this`inputSize, input
      ensures Valid() && View() == old(View()) && Input() == old(Input()) + piece
    {
      forall k | 0 <= k < |piece| {
        input[inputSize + k] := piece[k];
      }
      inputSize := inputSize + |piece|;
    }

    /** receive_messages: the socket hands over what has arrived, as much at a time as it likes and there is room for. */
    method ReceiveMessages(bytes: seq<byte>, grants: seq<nat>) returns (ok: bool)
      requires Valid() && inputSize < PACKET_MAX_SIZE
      requires Process(ReceivedHandler(), View(), Input()) == Waiting(View(), Input())
      modifies this`disk, this`screen, this`inputSize, files, input
      ensures Valid()
      ensures match Feed(ReceivedHandler(), Waiting(old(View()), old(Input())), bytes)
              case Waiting(s, rest) => ok && View() == s && Input() == rest && inputSize < PACKET_MAX_SIZE
              case Broken(s) => !ok && View() == s
    {
      hide Process, FileReceiver.Valid, FileReceiver.Input, FileReceiver.View;
      ghost var all := Feed(ReceivedHandler(), Waiting(View(), Input()), bytes);
      assert bytes == [] ==> Input() + bytes == Input();
      var left, turn := bytes, 0;
      while left != []
        invariant Valid() && inputSize < PACKET_MAX_SIZE
        invariant all == Feed(ReceivedHandler(), Waiting(View(), Input()), left)
        invariant left == [] ==> all == Waiting(View(), Input())
        decreases |left|
      {
        var n := Granted(grants, turn, PACKET_MAX_SIZE - inputSize, |left|);
        FeedInTwo(ReceivedHandler(), View(), Input(), left, n);
        AppendInput(left[..n]);
        var fed := ProcessInput();
        if !fed {
          return false;
        }
        left, turn := left[n..], turn + 1;
      }
      ok := true;
    }
  }

  /** A whole run of a client's receiver: bytes arrive again and again, until a frame is refused. */
  method Execute(ownId: nat, disk: map<seq<byte>, seq<byte>>, arrivals: seq<seq<byte>>, grants: seq<seq<nat>>)
    returns (receiver: FileReceiver, ok: bool)
    requires |grants| == |arrivals|
    ensures receiver.Valid()
    ensures FeedAll(ReceivedHandler(), Waiting(NewReceiver(ownId, disk), []), arrivals) ==
            if ok then Waiting(receiver.View(), receiver.Input()) else Broken(receiver.View())
  {
    hide Process, FileReceiver.Valid, FileReceiver.Input, FileReceiver.View, NewReceiver;
    receiver := new FileReceiver(ownId, disk);
    ghost var handle, start: Progress<Receiver> := ReceivedHandler(), Waiting(NewReceiver(ownId, disk), []);
    NothingWaits(handle, receiver.View());
    ok := true;
    var i := 0;
    while i < |arrivals|
      invariant i <= |arrivals| && receiver.Valid() && receiver.inputSize < PACKET_MAX_SIZE
      invariant fresh(receiver) && fresh(receiver.files) && fresh(receiver.input)
      invariant Process(handle, receiver.View(), receiver.Input()) == Waiting(receiver.View(), receiver.Input())
      invariant FeedAll(handle, start, arrivals) ==
                FeedAll(handle, Waiting(receiver.View(), receiver.Input()), arrivals[i..])
    {
      assert arrivals[i..][0] == arrivals[i] && arrivals[i..][1..] == arrivals[i + 1..];
      RestFitsBuffer(handle, receiver.View(), receiver.Input() + arrivals[i]);
      ok := receiver.ReceiveMessages(arrivals[i], grants[i]);
      if !ok {
        BrokenStays(handle, receiver.View(), arrivals[i + 1..]);
        return;
      }
      i := i + 1;
    }
  }

  lemma NothingWaits(handle: Handler<Receiver>, r: Receiver)
    ensures Process(handle, r, []) == Waiting(r, [])
  {
  }

  lemma {:induction false} BrokenStays(handle: Handler<Receiver>, r: Receiver, pieces: seq<seq<byte>>)
    ensures FeedAll(handle, Broken(r), pieces) == Broken(r)
    decreases |pieces|
  {
    if pieces != [] {
      BrokenStays(handle, r, pieces[1..]);
    }
  }
}
