/**
 Cutting a byte stream into frames: the loop both ends run on their input buffer, and the proof
 that how the stream was cut into received pieces makes no difference.
 */
module ChatFraming {
  import opened Bytes
  import opened Wrappers
  import opened ChatCodec

  /** The receiver's state after a message, and whether it goes on. */
  datatype Handled<+S> = Handled(state: S, ok: bool)

  type Handler<!S> = (S, Message) -> Handled<S>

  /** Waiting for more bytes after the ones left over, or broken off at the first refused frame. */
  datatype Progress<+S> = Waiting(state: S, rest: seq<byte>) | Broken(state: S)

  function Process<S>(handle: Handler<S>, state: S, buffer: seq<byte>): Progress<S>
    decreases |buffer|
  {
    if buffer == [] then Waiting(state, [])
    else
      match FrameStatusOf(buffer)
      case Invalid => Broken(state)
      case Incomplete => Waiting(state, buffer)
      case Complete(n) =>
        match Decode(buffer[..n])
        case None => Broken(state)
        case Some(m) =>
          var next := handle(state, m);
          if next.ok then Process(handle, next.state, buffer[n..]) else Broken(next.state)
  }

  function Feed<S>(handle: Handler<S>, p: Progress<S>, piece: seq<byte>): Progress<S> {
    match p
    case Waiting(state, rest) => Process(handle, state, rest + piece)
    case Broken(_) => p
  }

  function FeedAll<S>(handle: Handler<S>, p: Progress<S>, pieces: seq<seq<byte>>): Progress<S>
    decreases |pieces|
  {
    if pieces == [] then p else FeedAll(handle, Feed(handle, p, pieces[0]), pieces[1..])
  }

  function Concat(pieces: seq<seq<byte>>): seq<byte> {
    if pieces == [] then [] else pieces[0] + Concat(pieces[1..])
  }

  /** Handling messages one after the other, each as a receiver sees it, up to the first refused one. */
  function HandleAll<S>(handle: Handler<S>, state: S, messages: seq<Message>): Progress<S>
    requires forall m :: m in messages ==> Encodable(m)
    decreases |messages|
  {
    if messages == [] then Waiting(state, [])
    else
      var next := handle(state, Canonical(messages[0]));
      if next.ok then HandleAll(handle, next.state, messages[1..]) else Broken(next.state)
  }

  function Frames(messages: seq<Message>): seq<seq<byte>>
    requires forall m :: m in messages ==> Encodable(m)
  {
    if messages == [] then [] else [Frame(messages[0])] + Frames(messages[1..])
  }

  // ---------- more bytes never change what was already decided ----------

  lemma HeaderOfPrefix(a: seq<byte>, b: seq<byte>)
    requires |a| >= HEADER_SIZE
    ensures FixedPartOk(a + b) == FixedPartOk(a) && ReadHeader(a + b) == ReadHeader(a)
  {
    hide FromBytes;
    var c := a + b;
    assert c[0..4] == a[0..4] && c[6..8] == a[6..8] && c[8..12] == a[8..12] && c[12..20] == a[12..20];
    assert c[20..28] == a[20..28] && c[28..30] == a[28..30] && c[30..32] == a[30..32];
  }

  lemma StatusOfPrefix(a: seq<byte>, b: seq<byte>)
    ensures !FrameStatusOf(a).Incomplete? ==> FrameStatusOf(a + b) == FrameStatusOf(a)
    ensures FrameStatusOf(a).Incomplete? ==> |a| < PACKET_MAX_SIZE
  {
    hide FixedPartOk, ReadHeader;
    if |a| >= HEADER_SIZE {
      HeaderOfPrefix(a, b);
    }
  }

  /** Processing a buffer in two goes is processing it in one. */
  lemma {:induction false} ProcessInTwo<S>(handle: Handler<S>, state: S, a: seq<byte>, b: seq<byte>)
    ensures Process(handle, state, a + b) == Feed(handle, Process(handle, state, a), b)
    decreases |a|
  {
    hide FrameStatusOf, Decode;
    StatusOfPrefix(a, b);
    if a == [] {
      assert a + b == b && [] + b == b;
    } else {
      match FrameStatusOf(a)
      case Complete(n) =>
        assert (a + b)[..n] == a[..n] && (a + b)[n..] == a[n..] + b;
        if Decode(a[..n]).Some? && handle(state, Decode(a[..n]).value).ok {
          ProcessInTwo(handle, handle(state, Decode(a[..n]).value).state, a[n..], b);
        }
      case Incomplete =>
      case Invalid =>
    }
  }

  /** What is left waiting is an incomplete frame, always shorter than the input buffer. */
  lemma {:induction false} RestFitsBuffer<S>(handle: Handler<S>, state: S, buffer: seq<byte>)
    ensures var p := Process(handle, state, buffer);
            p.Waiting? ==> |p.rest| < PACKET_MAX_SIZE && Process(handle, p.state, p.rest) == p
    decreases |buffer|
  {
    hide FrameStatusOf, Decode;
    StatusOfPrefix(buffer, []);
    if buffer != [] && FrameStatusOf(buffer).Complete? {
      var n := FrameStatusOf(buffer).size;
      if Decode(buffer[..n]).Some? && handle(state, Decode(buffer[..n]).value).ok {
        RestFitsBuffer(handle, handle(state, Decode(buffer[..n]).value).state, buffer[n..]);
      }
    }
  }

  lemma {:induction false} FeedAllIsProcess<S>(handle: Handler<S>, p: Progress<S>, pieces: seq<seq<byte>>)
    requires p.Waiting? ==> Process(handle, p.state, p.rest) == p
    ensures FeedAll(handle, p, pieces) == Feed(handle, p, Concat(pieces))
    decreases |pieces|
  {
    hide Process;
    if pieces == [] {
      if p.Waiting? {
        assert p.rest + [] == p.rest;
      }
    } else {
      var next := Feed(handle, p, pieces[0]);
      if p.Waiting? {
        RestFitsBuffer(handle, p.state, p.rest + pieces[0]);
        ProcessInTwo(handle, p.state, p.rest + pieces[0], Concat(pieces[1..]));
        assert p.rest + pieces[0] + Concat(pieces[1..]) == p.rest + Concat(pieces);
      }
      FeedAllIsProcess(handle, next, pieces[1..]);
    }
  }

  /** For every byte stream, valid or not, the result depends on the bytes alone and not on the cuts. */
  lemma {:induction false} CutsDoNotMatter<S>(handle: Handler<S>, state: S, pieces: seq<seq<byte>>)
    ensures FeedAll(handle, Waiting(state, []), pieces) == Process(handle, state, Concat(pieces))
  {
    FeedAllIsProcess(handle, Waiting(state, []), pieces);
    assert [] + Concat(pieces) == Concat(pieces);
  }

  /** Handing over the first n of the bytes that are left. */
  lemma FeedInTwo<S>(handle: Handler<S>, state: S, input: seq<byte>, left: seq<byte>, n: nat)
    requires n <= |left|
    ensures var p := Process(handle, state, input + left[..n]);
            && Feed(handle, Waiting(state, input), left) == Feed(handle, p, left[n..])
            && (left[n..] == [] ==> Feed(handle, p, left[n..]) == p)
  {
    hide Process;
    assert input + left == input + left[..n] + left[n..];
    ProcessInTwo(handle, state, input + left[..n], left[n..]);
    RestFitsBuffer(handle, state, input + left[..n]);
    var p := Process(handle, state, input + left[..n]);
    if p.Waiting? {
      assert p.rest + [] == p.rest;
    }
  }

  // ---------- streams of whole frames ----------

  lemma {:induction false} ProcessFrames<S>(handle: Handler<S>, state: S, messages: seq<Message>)
    requires forall m :: m in messages ==> WellTyped(m) && Encodable(m)
    ensures Process(handle, state, Concat(Frames(messages))) == HandleAll(handle, state, messages)
    decreases |messages|
  {
    hide FrameStatusOf, Decode, Frame, Canonical, Encodable, WellTyped;
    if messages != [] {
      var m, rest := messages[0], Concat(Frames(messages[1..]));
      FrameIsComplete(m);
      DecodeEncode(m);
      StatusOfPrefix(Frame(m), rest);
      assert (Frame(m) + rest)[..|Frame(m)|] == Frame(m) && (Frame(m) + rest)[|Frame(m)|..] == rest;
      if handle(state, Canonical(m)).ok {
        ProcessFrames(handle, handle(state, Canonical(m)).state, messages[1..]);
      }
    }
  }

  /**
   However the frames of a list of messages are cut into pieces, the receiving loop handles exactly
   those messages in order: all of them with nothing left over, or up to the first it refuses.
   */
  lemma {:induction false} FramingIsExact<S>(handle: Handler<S>, state: S, messages: seq<Message>, pieces: seq<seq<byte>>)
    requires forall m :: m in messages ==> WellTyped(m) && Encodable(m)
    requires Concat(pieces) == Concat(Frames(messages))
    ensures FeedAll(handle, Waiting(state, []), pieces) == HandleAll(handle, state, messages)
  {
    CutsDoNotMatter(handle, state, pieces);
    ProcessFrames(handle, state, messages);
  }

  // ---------- the input buffer in place ----------

  /**
   How many bytes one receive hands over: at least one of those that have arrived, and no more than
   there is room for. Beyond its end a script grants as much as fits.
   */
  function Granted(grants: seq<nat>, turn: nat, room: nat, left: nat): (n: nat)
    requires room > 0 && left > 0
    ensures 0 < n <= room && n <= left
  {
    var most := if left < room then left else room;
    if turn < |grants| && 0 < grants[turn] < most then grants[turn] else most
  }

  class FrameReader<S> {
    const handle: Handler<S>
    const input: array<byte>
    var inputSize: nat
    var state: S

    /** Room is always left: the incomplete frame held is shorter than the buffer. */
    ghost predicate Valid()
      reads this, input
    {
      && input.Length == PACKET_MAX_SIZE && inputSize < PACKET_MAX_SIZE
      && Process(handle, state, input[..inputSize]) == Waiting(state, input[..inputSize])
    }

    ghost function View(): Progress<S>
      requires Valid()
      reads this, input
    {
      Waiting(state, input[..inputSize])
    }

    constructor (handle: Handler<S>, state: S)
      ensures Valid() && fresh(input) && this.handle == handle && View() == Waiting(state, [])
    {
      this.handle, this.state := handle, state;
      input := new byte[PACKET_MAX_SIZE](_ => 0);
      inputSize := 0;
    }

    /** Drop the first n bytes, moving the rest to the front of the buffer. */
    method Shift(n: nat)
      requires n <= inputSize <= input.Length
      modifies this`inputSize, input
      ensures inputSize == old(inputSize) - n && input[..inputSize] == old(input[n..inputSize])
    {
      forall i | 0 <= i < inputSize - n {
        input[i] := input[n + i];
      }
      inputSize := inputSize - n;
    }

    /** process_input: handle every complete frame in the buffer. */
    method ProcessInput() returns (ok: bool)
      requires input.Length == PACKET_MAX_SIZE && inputSize <= PACKET_MAX_SIZE
      modifies this, input
      ensures match Process(handle, old(state), old(input[..inputSize]))
              case Waiting(s, rest) => ok && Valid() && View() == Waiting(s, rest)
              case Broken(s) => !ok && state == s
    {
      hide Process, FrameStatusOf, Decode;
      RestFitsBuffer(handle, state, input[..inputSize]);
      while inputSize != 0
        invariant inputSize <= PACKET_MAX_SIZE
        invariant Process(handle, state, input[..inputSize]) == Process(handle, old(state), old(input[..inputSize]))
        decreases inputSize
      {
        ProcessStep(handle, state, input[..inputSize]);
        var status := FrameStatusOf(input[..inputSize]);
        if status.Invalid? {
          return false;
        }
        if status.Incomplete? {
          return true;
        }
        var message := Decode(input[..status.size]);
        assert input[..status.size] == input[..inputSize][..status.size];
        if message.None? {
          return false;
        }
        var next := handle(state, message.value);
        state := next.state;
        if !next.ok {
          return false;
        }
        assert input[..inputSize][status.size..] == input[status.size..inputSize];
        Shift(status.size);
      }
      ProcessStep(handle, state, input[..inputSize]);
      return true;
    }

    /** One successful receive: the source asks for no more than the room left, and there always is some. */
    method Receive(piece: seq<byte>) returns (ok: bool)
      requires Valid() && |piece| <= PACKET_MAX_SIZE - inputSize
      modifies this, input
      ensures match Feed(handle, old(View()), piece)
              case Waiting(s, rest) => ok && Valid() && View() == Waiting(s, rest)
              case Broken(s) => !ok && state == s
    {
      hide Process;
      forall i | 0 <= i < |piece| {
        input[inputSize + i] := piece[i];
      }
      inputSize := inputSize + |piece|;
      assert input[..inputSize] == old(input[..inputSize]) + piece;
      ok := ProcessInput();
    }
  }

  lemma StatusSize(buffer: seq<byte>)
    ensures FrameStatusOf(buffer).Complete? ==> 0 < FrameStatusOf(buffer).size <= |buffer|
  {
  }

  /** One turn of the loop. */
  lemma ProcessStep<S>(handle: Handler<S>, state: S, buffer: seq<byte>)
    ensures Process(handle, state, buffer) ==
            if buffer == [] then Waiting(state, [])
            else
              match FrameStatusOf(buffer)
              case Invalid => Broken(state)
              case Incomplete => Waiting(state, buffer)
              case Complete(n) =>
                match Decode(buffer[..n])
                case None => Broken(state)
                case Some(m) =>
                  var next := handle(state, m);
                  if next.ok then Process(handle, next.state, buffer[n..]) else Broken(next.state)
  {
  }
}
