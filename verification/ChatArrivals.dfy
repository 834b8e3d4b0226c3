/** What the server relays for a client is what has arrived of what the client says. */
module ChatArrivals {
  import opened Bytes
  import opened Wrappers
  import opened ChatCodec
  import opened ChatFraming
  import opened ChatOutput
  import opened ChatRelay
  import opened ChatRelayRuns
  import opened ChatConversations
  import opened ChatFileRuns
  import opened ChatSending

  // ---------- a stream of frames can be read in one way only ----------

  lemma {:induction false} StreamCons(m: Message, t: seq<Message>)
    ensures Stream([m] + t) == FrameBytes(m) + Stream(t)
    decreases |t|
  {
    hide FrameBytes;
    if t == [] {
      assert [m] + t == [m] && [m][..0] == [];
    } else {
      var u := t[..|t| - 1];
      StreamCons(m, u);
      assert ([m] + t)[..|t|] == [m] + u;
      assert FrameBytes(m) + (Stream(u) + FrameBytes(t[|t| - 1])) == FrameBytes(m) + Stream(u) + FrameBytes(t[|t| - 1]);
    }
  }

  lemma {:induction false} StreamIsFrames(t: seq<Message>)
    requires AllSound(t)
    ensures (forall m :: m in t ==> Encodable(m)) && Stream(t) == Concat(Frames(t))
    decreases |t|
  {
    hide WellTyped, Encodable, Canonical, Frame, Stream;
    assert forall m :: m in t ==> IsSound(m) && Encodable(m);
    if t == [] {
      StreamOfNothing();
    } else {
      assert t == [t[0]] + t[1..];
      StreamIsFrames(t[1..]);
      StreamCons(t[0], t[1..]);
      FrameFits(t[0]);
    }
  }

  /** Two frames at the front of the same bytes are the same. */
  lemma FirstFrameIsUnique(a: Message, b: Message, x: seq<byte>, y: seq<byte>)
    requires IsSound(a) && IsSound(b) && FrameBytes(a) + x == FrameBytes(b) + y
    ensures a == b && x == y
  {
    hide WellTyped, Encodable, Canonical, Frame, FrameStatusOf, Decode;
    FrameFits(a);
    FrameFits(b);
    FrameIsComplete(a);
    FrameIsComplete(b);
    StatusOfPrefix(Frame(a), x);
    StatusOfPrefix(Frame(b), y);
    var both := Frame(a) + x;
    assert both[..|Frame(a)|] == Frame(a) && both[..|Frame(b)|] == Frame(b);
    assert both[|Frame(a)|..] == x && both[|Frame(b)|..] == y;
    DecodeEncode(a);
    DecodeEncode(b);
  }

  /** If one stream begins like another and then breaks off, its messages are the first of the other's. */
  lemma {:induction false} StreamsAgree(a: seq<Message>, b: seq<Message>, rest: seq<byte>)
    requires AllSound(a) && AllSound(b) && Stream(a) + rest == Stream(b)
    ensures |a| <= |b| && a == b[..|a|] && rest == Stream(b[|a|..])
    decreases |a|
  {
    hide IsSound, FrameBytes, Stream;
    if a == [] {
      StreamOfNothing();
      assert [] + rest == rest && b[0..] == b;
    } else {
      StreamCons(a[0], a[1..]);
      assert a == [a[0]] + a[1..];
      FrameNotEmpty(a[0]);
      StreamOfNothing();
      assert |Stream(a) + rest| > 0;
      assert b != [];
      StreamCons(b[0], b[1..]);
      assert b == [b[0]] + b[1..];
      assert FrameBytes(a[0]) + (Stream(a[1..]) + rest) == FrameBytes(a[0]) + Stream(a[1..]) + rest;
      FirstFrameIsUnique(a[0], b[0], Stream(a[1..]) + rest, Stream(b[1..]));
      StreamsAgree(a[1..], b[1..], rest);
      assert b[1..][|a[1..]|..] == b[|a|..];
    }
  }

  lemma FrameNotEmpty(m: Message)
    requires IsSound(m)
    ensures |FrameBytes(m)| > 0
  {
    hide WellTyped, Canonical;
  }

  lemma UnfinishedIsNothing(t: seq<Message>)
    requires AllSound(t) && FrameStatusOf(Stream(t)).Incomplete?
    ensures t == []
  {
    hide IsSound, Stream, FrameStatusOf, Frame;
    if t != [] {
      assert t == [t[0]] + t[1..];
      StreamCons(t[0], t[1..]);
      WholeFrameFirst(t[0], Stream(t[1..]));
    }
  }

  lemma WholeFrameFirst(m: Message, rest: seq<byte>)
    requires IsSound(m)
    ensures !FrameStatusOf(FrameBytes(m) + rest).Incomplete?
  {
    hide WellTyped, Encodable, Canonical, Frame, FrameStatusOf;
    FrameFits(m);
    FrameIsComplete(m);
    StatusOfPrefix(Frame(m), rest);
  }

  /**
   While a client is connected, what the server has relayed for it is exactly the beginning of what it
   said; once all its bytes have arrived, it is everything.
   */
  lemma {:induction false} RelayedAsSpoken(s: Relay, i: nat, spoken: seq<Message>, missing: seq<byte>)
    requires Inv(s) && IsOpen(s, i) && AllSound(spoken) && s.slots[i].received + missing == Stream(spoken)
    ensures var t := Trace(s.log, s.slots[i].connection);
            && |t| <= |spoken| && t == spoken[..|t|]
            && (missing == [] ==> t == spoken && s.slots[i].input == [])
  {
    hide IsSound, Stream, Trace, SlotIsOk, FrameStatusOf, Consistent;
    OpenInput(s, i);
    var slot := s.slots[i];
    var t := Trace(s.log, slot.connection);
    TraceIsSound(s, slot.connection);
    assert Stream(t) + (slot.input + missing) == Stream(t) + slot.input + missing;
    StreamsAgree(t, spoken, slot.input + missing);
    if missing == [] {
      assert slot.input + missing == slot.input;
      UnfinishedIsNothing(spoken[|t|..]);
      StreamOfNothing();
    }
  }

  lemma OpenInput(s: Relay, i: nat)
    requires Inv(s) && IsOpen(s, i)
    ensures InputIsOk(s.log, s.slots[i])
  {
    hide InputIsOk, SlotIsOk, LogIsOk;
  }

  lemma {:induction false} TracedIsLogged(log: seq<Entry>, c: nat, m: Message)
    requires m in Trace(log, c)
    ensures exists k :: 0 <= k < |log| && log[k].message == m
    decreases |log|
  {
    var n := |log| - 1;
    if m in Trace(log[..n], c) {
      TracedIsLogged(log[..n], c, m);
      var k :| 0 <= k < n && log[..n][k].message == m;
      assert log[k].message == m;
    } else {
      assert log[n].message == m;
    }
  }

  lemma TraceIsSound(s: Relay, c: nat)
    requires Inv(s)
    ensures AllSound(Trace(s.log, c))
  {
    hide IsSound, SlotIsOk, Trace, PhaseAfter, InputIsOk;
    forall m | m in Trace(s.log, c) ensures IsSound(m) {
      TracedIsLogged(s.log, c, m);
    }
  }

  // ---------- arrivals ----------

  /** The bytes taken from a connection in a run of the server, as long as it was in the table. */
  function Arrived(events: seq<Event>, connection: nat): seq<byte> {
    if events == [] then []
    else
      var before, e := events[..|events| - 1], events[|events| - 1];
      Arrived(before, connection) + if TakenFrom(Run(Start(), before), e, connection) then e.bytes else []
  }

  predicate TakenFrom(s: Relay, e: Event, connection: nat) {
    e.Data? && IsOpen(s, e.i) && s.slots[e.i].connection == connection
  }

  /** How many of the frames of some messages lie wholly in the first bytes of their stream. */
  function WholeIn(messages: seq<Message>, bytes: seq<byte>): (n: nat)
    ensures n <= |messages|
    decreases |messages|
  {
    if messages == [] || |bytes| < |FrameBytes(messages[0])| then 0
    else 1 + WholeIn(messages[1..], bytes[|FrameBytes(messages[0])|..])
  }

  /** A frame that is cut short is incomplete. */
  lemma PartIsIncomplete(m: Message, part: seq<byte>, missing: seq<byte>)
    requires IsSound(m) && part + missing == FrameBytes(m) && missing != []
    ensures FrameStatusOf(part).Incomplete?
  {
    hide WellTyped, Encodable, Canonical, Frame;
    FrameFits(m);
    FrameIsComplete(m);
    StatusOfPrefix(part, missing);
  }

  /** The first bytes of a stream are some whole frames and an incomplete one. */
  lemma {:induction false} SplitArrived(messages: seq<Message>, bytes: seq<byte>, missing: seq<byte>)
    requires AllSound(messages) && bytes + missing == Stream(messages)
    ensures var n := WholeIn(messages, bytes);
            && Stream(messages[..n]) <= bytes && FrameStatusOf(bytes[|Stream(messages[..n])|..]).Incomplete?
            && (missing == [] ==> n == |messages|)
    decreases |messages|
  {
    hide IsSound, FrameBytes, FrameStatusOf, Stream;
    StreamOfNothing();
    NothingIsIncomplete();
    if messages != [] {
      var m, rest := messages[0], messages[1..];
      StreamCons(m, rest);
      assert messages == [m] + rest;
      var size := |FrameBytes(m)|;
      if |bytes| < size {
        assert bytes + missing[..size - |bytes|] == (bytes + missing)[..size] == FrameBytes(m);
        PartIsIncomplete(m, bytes, missing[..size - |bytes|]);
        assert messages[..0] == [] && bytes[0..] == bytes;
      } else {
        assert bytes[..size] == (bytes + missing)[..size] == FrameBytes(m);
        assert bytes[size..] + missing == (bytes + missing)[size..] == Stream(rest);
        SplitArrived(rest, bytes[size..], missing);
        var n := WholeIn(rest, bytes[size..]);
        assert messages[..n + 1] == [m] + rest[..n];
        StreamCons(m, rest[..n]);
        assert bytes == FrameBytes(m) + bytes[size..];
        assert bytes[|Stream(messages[..n + 1])|..] == bytes[size..][|Stream(rest[..n])|..];
      }
    }
  }

  /** Whole frames and an incomplete one can be told apart in one way only. */
  lemma WholeInIs(messages: seq<Message>, n: nat, rest: seq<byte>, missing: seq<byte>)
    requires AllSound(messages) && n <= |messages| && Stream(messages[..n]) + rest + missing == Stream(messages)
    requires FrameStatusOf(rest).Incomplete?
    ensures WholeIn(messages, Stream(messages[..n]) + rest) == n
    decreases n
  {
    hide IsSound, FrameBytes, FrameStatusOf, Stream;
    StreamOfNothing();
    if messages != [] {
      var m, tail := messages[0], messages[1..];
      var size := |FrameBytes(m)|;
      StreamCons(m, tail);
      assert messages == [m] + tail;
      if n == 0 {
        assert messages[..0] == [] && [] + rest == rest;
        if |rest| >= size {
          assert rest[..size] == (rest + missing)[..size] == FrameBytes(m);
          assert rest == FrameBytes(m) + rest[size..];
          WholeFrameFirst(m, rest[size..]);
        }
      } else {
        StreamCons(m, tail[..n - 1]);
        assert messages[..n] == [m] + tail[..n - 1];
        var bytes := Stream(messages[..n]) + rest;
        assert bytes[size..] == Stream(tail[..n - 1]) + rest;
        assert Stream(tail[..n - 1]) + rest + missing == (bytes + missing)[size..] == Stream(tail);
        WholeInIs(tail, n - 1, rest, missing);
      }
    }
  }

  // ---------- orderly messages are relayed ----------

  function Entries(connection: nat, messages: seq<Message>): seq<Entry> {
    if messages == [] then [] else [Entry(connection, messages[0])] + Entries(connection, messages[1..])
  }

  lemma Assoc<T>(a: seq<T>, b: seq<T>, c: seq<T>)
    ensures a + b + c == a + (b + c)
  {
  }

  lemma EntriesStep(c: nat, messages: seq<Message>)
    ensures Entries(c, messages) ==
            if messages == [] then [] else [Entry(c, messages[0])] + Entries(c, messages[1..])
  {
  }

  lemma SoundParts(messages: seq<Message>, i: nat)
    requires AllSound(messages) && i <= |messages|
    ensures AllSound(messages[..i]) && AllSound(messages[i..])
  {
  }

  lemma {:induction false} TraceOfEntries(log: seq<Entry>, c: nat, messages: seq<Message>)
    ensures Trace(log + Entries(c, messages), c) == Trace(log, c) + messages
    decreases |messages|
  {
    hide Trace, Entries;
    EntriesStep(c, messages);
    if messages == [] {
      assert log + [] == log && Trace(log, c) + [] == Trace(log, c);
    } else {
      var e, tail := Entry(c, messages[0]), messages[1..];
      TraceAppend(log, e, c);
      TraceOfEntries(log + [e], c, tail);
      Assoc(log, [e], Entries(c, tail));
      Assoc(Trace(log, c), [messages[0]], tail);
      assert [messages[0]] + tail == messages;
    }
  }

  /** A conversation without its last messages is one too. */
  lemma {:induction false} PhaseOfPrefix(a: seq<Message>, b: seq<Message>)
    requires PhaseAfter(a + b).Some?
    ensures PhaseAfter(a).Some?
    decreases |b|
  {
    hide Next;
    if b == [] {
      assert a + b == a;
    } else {
      var u := b[..|b| - 1];
      assert (a + b)[..|a + b| - 1] == a + u;
      PhaseOfPrefix(a, u);
    }
  }

  /** A conversation ends with its LEAVE. */
  lemma LeaveEnds(a: seq<Message>, m: Message, b: seq<Message>)
    requires PhaseAfter(a + [m] + b).Some? && m.kind == LEAVE
    ensures b == []
  {
    AcceptedIffConversation(a + [m] + b);
    assert (a + [m] + b)[|a|] == m;
  }

  /** Whether the last of some messages is a LEAVE. */
  predicate EndsInLeave(messages: seq<Message>) {
    messages != [] && messages[|messages| - 1].kind == LEAVE
  }

  /**
   Working through whole frames that continue a client's conversation relays them all and keeps the
   client, unless the last one is its LEAVE.
   */
  lemma {:induction false} ProcessOrderly(s: Relay, i: nat, messages: seq<Message>, rest: seq<byte>)
    requires Consistent(s) && IsOpen(s, i) && AllSound(messages) && FrameStatusOf(rest).Incomplete?
    requires PhaseAfter(Trace(s.log, s.slots[i].connection) + messages).Some?
    requires EndsInLeave(messages) ==> rest == []
    ensures var c, p := s.slots[i].connection, Process(HandlerFor(i), s, Stream(messages) + rest);
            && p.state.log == s.log + Entries(c, messages)
            && (if EndsInLeave(messages) then p.Broken? && !IsOpen(p.state, i)
                else p == Waiting(p.state, rest) && IsOpen(p.state, i) && p.state.slots[i].connection == c)
    decreases |messages|
  {
    hide Consistent, IsSound, HandleMessage, FrameStatusOf, Decode, FrameBytes, Stream, PhaseAfter, Trace, OthersKept;
    var c := s.slots[i].connection;
    StreamOfNothing();
    if messages == [] {
      assert Stream(messages) + rest == rest && s.log + [] == s.log;
      ProcessStep(HandlerFor(i), s, rest);
    } else {
      var m, tail := messages[0], messages[1..];
      assert messages == [m] + tail;
      StreamCons(m, tail);
      Assoc(FrameBytes(m), Stream(tail), rest);
      ProcessFirst(HandlerFor(i), s, m, Stream(tail) + rest);
      Assoc(Trace(s.log, c), [m], tail);
      PhaseOfPrefix(Trace(s.log, c) + [m], tail);
      AcceptedIffConversation(Trace(s.log, c) + [m]);
      RelaysIffOrderly(s, i, m);
      HandleKeeps(s, i, m);
      var h := HandleMessage(s, i, m);
      assert HandlerFor(i)(s, m) == h;
      if m.kind == LEAVE {
        LeaveEnds(Trace(s.log, c), m, tail);
        LogHasGrown(s, h.state, c, m);
      } else {
        TraceAppend(s.log, Entry(c, m), c);
        ProcessOrderly(h.state, i, tail, rest);
        EntriesStep(c, messages);
        Assoc(s.log, [Entry(c, m)], Entries(c, tail));
      }
    }
  }

  lemma LogHasGrown(s: Relay, t: Relay, c: nat, m: Message)
    requires t.log == s.log + [Entry(c, m)]
    ensures t != s && Entries(c, [m]) == [Entry(c, m)]
  {
    assert |t.log| == |s.log| + 1;
  }

  /** The first whole frame of a buffer is handled first. */
  lemma ProcessFirst<S>(handle: Handler<S>, state: S, m: Message, rest: seq<byte>)
    requires IsSound(m)
    ensures Process(handle, state, FrameBytes(m) + rest) ==
            var next := handle(state, m);
            if next.ok then Process(handle, next.state, rest) else Broken(next.state)
  {
    hide WellTyped, Encodable, Canonical, Frame, FrameStatusOf, Decode;
    FrameFits(m);
    FrameIsComplete(m);
    FrameNotEmpty(m);
    StatusOfPrefix(Frame(m), rest);
    DecodeEncode(m);
    var buffer := Frame(m) + rest;
    assert buffer[..|Frame(m)|] == Frame(m) && buffer[|Frame(m)|..] == rest;
  }

  lemma {:induction false} StreamParts(a: seq<Message>, b: seq<Message>)
    ensures Stream(a + b) == Stream(a) + Stream(b)
    decreases |b|
  {
    hide FrameBytes;
    if b == [] {
      assert a + b == a;
    } else {
      var u := b[..|b| - 1];
      assert (a + b)[..|a + b| - 1] == a + u;
      StreamParts(a, u);
    }
  }

  // ---------- as long as a client says only what is orderly ----------

  lemma Cancel(a: seq<byte>, b: seq<byte>, c: seq<byte>)
    requires a + b == a + c
    ensures b == c
  {
    assert b == (a + b)[|a|..] && c == (a + c)[|a|..];
  }

  /** What is still to come of some messages, and what of it is there already. */
  lemma StillToCome(t: seq<Message>, input: seq<byte>, bytes: seq<byte>, spoken: seq<Message>, missing: seq<byte>)
    requires AllSound(t) && AllSound(spoken) && Stream(t) + input + bytes + missing == Stream(spoken)
    ensures |t| <= |spoken| && t == spoken[..|t|]
    ensures var left := spoken[|t|..];
            var k := WholeIn(left, input + bytes);
            && Stream(left[..k]) <= input + bytes
            && var rest := (input + bytes)[|Stream(left[..k])|..];
               && FrameStatusOf(rest).Incomplete? && input + bytes == Stream(left[..k]) + rest
               && rest + missing == Stream(left[k..])
  {
    hide AllSound, FrameStatusOf, Stream, WholeIn;
    Assoc(Stream(t), input, bytes);
    Assoc(Stream(t), input + bytes, missing);
    StreamsAgree(t, spoken, input + bytes + missing);
    var left := spoken[|t|..];
    SoundParts(spoken, |t|);
    SplitArrived(left, input + bytes, missing);
    var k := WholeIn(left, input + bytes);
    var rest := (input + bytes)[|Stream(left[..k])|..];
    StreamParts(left[..k], left[k..]);
    assert left[..k] + left[k..] == left && input + bytes == Stream(left[..k]) + rest;
    Assoc(Stream(left[..k]), rest, missing);
    Cancel(Stream(left[..k]), rest + missing, Stream(left[k..]));
  }

  /** The messages that are whole by then. */
  lemma WholeByThen(t: seq<Message>, k: nat, spoken: seq<Message>, rest: seq<byte>, missing: seq<byte>)
    requires AllSound(spoken) && |t| + k <= |spoken| && t == spoken[..|t|] && PhaseAfter(spoken).Some?
    requires FrameStatusOf(rest).Incomplete? && rest + missing == Stream(spoken[|t|..][k..])
    ensures var more := spoken[|t|..][..k];
            && AllSound(more) && t + more == spoken[..|t| + k] && PhaseAfter(t + more).Some?
            && WholeIn(spoken, Stream(t) + Stream(more) + rest) == |t| + k
            && (EndsInLeave(more) ==> rest == [] && |t| + k == |spoken| && EndsInLeave(spoken))
  {
    WholeMessages(t, k, spoken, rest, missing);
    LeaveIsWhole(t, k, spoken, rest, missing);
  }

  lemma WholeMessages(t: seq<Message>, k: nat, spoken: seq<Message>, rest: seq<byte>, missing: seq<byte>)
    requires AllSound(spoken) && |t| + k <= |spoken| && t == spoken[..|t|] && PhaseAfter(spoken).Some?
    requires FrameStatusOf(rest).Incomplete? && rest + missing == Stream(spoken[|t|..][k..])
    ensures var more := spoken[|t|..][..k];
            && AllSound(more) && t + more == spoken[..|t| + k] && PhaseAfter(t + more).Some?
            && WholeIn(spoken, Stream(t) + Stream(more) + rest) == |t| + k
  {
    hide AllSound, FrameStatusOf, Stream, PhaseAfter, WholeIn;
    var n, more := |t| + k, spoken[|t|..][..k];
    SoundParts(spoken, |t|);
    SoundParts(spoken[|t|..], k);
    Slices(t, k, spoken);
    PhaseOfPrefix(spoken[..n], spoken[n..]);
    StreamParts(t, more);
    StreamParts(spoken[..n], spoken[n..]);
    Assoc(Stream(spoken[..n]), rest, missing);
    WholeInIs(spoken, n, rest, missing);
  }

  lemma LeaveIsWhole(t: seq<Message>, k: nat, spoken: seq<Message>, rest: seq<byte>, missing: seq<byte>)
    requires |t| + k <= |spoken| && t == spoken[..|t|] && PhaseAfter(spoken).Some?
    requires rest + missing == Stream(spoken[|t|..][k..])
    ensures EndsInLeave(spoken[|t|..][..k]) ==> rest == [] && |t| + k == |spoken| && EndsInLeave(spoken)
  {
    hide Stream, PhaseAfter, EndsInLeave;
    Slices(t, k, spoken);
    StreamOfNothing();
    if EndsInLeave(spoken[|t|..][..k]) {
      LeaveIsLastSaid(spoken, |t| + k);
    }
  }

  lemma Slices(t: seq<Message>, k: nat, spoken: seq<Message>)
    requires |t| + k <= |spoken| && t == spoken[..|t|]
    ensures var n, more := |t| + k, spoken[|t|..][..k];
            && t + more == spoken[..n] && spoken[..n] + spoken[n..] == spoken && spoken[|t|..][k..] == spoken[n..]
            && (EndsInLeave(more) ==> n > 0 && spoken[n - 1].kind == LEAVE)
  {
    assert k > 0 ==> spoken[|t|..][..k][k - 1] == spoken[|t| + k - 1];
  }

  lemma LeaveIsLastSaid(spoken: seq<Message>, n: nat)
    requires 0 < n <= |spoken| && spoken[n - 1].kind == LEAVE && PhaseAfter(spoken).Some?
    ensures n == |spoken| && spoken[n..] == [] && EndsInLeave(spoken)
  {
    AcceptedIffConversation(spoken);
  }

  /**
   Bytes of what a client says, arriving in whatever piece, are never refused: everything that is whole
   by then has been relayed, and the client is still there unless it has said its LEAVE.
   */
  lemma {:induction false} NeverRefused(s: Relay, i: nat, bytes: seq<byte>, spoken: seq<Message>, missing: seq<byte>)
    requires Inv(s) && IsOpen(s, i) && AllSound(spoken) && PhaseAfter(spoken).Some?
    requires s.slots[i].received + bytes + missing == Stream(spoken)
    ensures var t, slot := Step(s, Data(i, bytes)), s.slots[i];
            var n := WholeIn(spoken, slot.received + bytes);
            && Trace(t.log, slot.connection) == spoken[..n]
            && (if IsOpen(t, i) then t.slots[i].connection == slot.connection && t.slots[i].received == slot.received + bytes
                else n == |spoken| && EndsInLeave(spoken))
  {
    hide Inv, Consistent, InputsAreOk, SlotIsOk, IsSound, FrameStatusOf, Stream, Trace, PhaseAfter, WholeIn, Process,
         HandleMessage, OthersKept;
    InvForDisconnect(s, i);
    OpenInput(s, i);
    var slot := s.slots[i];
    var t, c := Trace(s.log, slot.connection), slot.connection;
    TraceIsSound(s, c);
    StillToCome(t, slot.input, bytes, spoken, missing);
    var k := WholeIn(spoken[|t|..], slot.input + bytes);
    var more := spoken[|t|..][..k];
    var rest := (slot.input + bytes)[|Stream(more)|..];
    WholeByThen(t, k, spoken, rest, missing);
    assert slot.received + bytes == Stream(t) + Stream(more) + rest by {
      assert Stream(t) + slot.input + bytes == Stream(t) + (Stream(more) + rest);
    }
    if bytes == [] {
      assert slot.received + bytes == slot.received;
      NothingNew(t, slot.input, spoken, missing);
    } else {
      var u := WithSlot(s, i, Taken(slot, bytes));
      InputChangeKeeps(s, i, [], slot.received + bytes);
      ProcessOrderly(u, i, more, rest);
      var p := Process(HandlerFor(i), u, slot.input + bytes);
      TraceOfEntries(s.log, c, more);
      StreamParts(t, more);
      assert slot.received + bytes == Stream(t) + (slot.input + bytes);
      ProcessKeeps(u, i, slot.input + bytes);
    }
  }

  lemma NothingNew(t: seq<Message>, input: seq<byte>, spoken: seq<Message>, missing: seq<byte>)
    requires AllSound(t) && AllSound(spoken) && Stream(t) + input + missing == Stream(spoken)
    requires FrameStatusOf(input).Incomplete?
    ensures |t| <= |spoken| && WholeIn(spoken, Stream(t) + input) == |t| && t == spoken[..|t|]
  {
    hide AllSound, FrameStatusOf, Stream, WholeIn;
    Assoc(Stream(t), input, missing);
    StreamsAgree(t, spoken, input + missing);
    WholeInIs(spoken, |t|, input, missing);
  }

  // ---------- every run ----------

  predicate HoldsIt(s: Relay, k: nat, connection: nat) {
    IsOpen(s, k) && s.slots[k].connection == connection
  }

  ghost predicate InTable(s: Relay, connection: nat) {
    exists k: nat :: HoldsIt(s, k, connection)
  }

  /** Some messages, or some messages and a LEAVE that the server made up. */
  predicate SaidOrAnnounced(t: seq<Message>, said: seq<Message>) {
    t == said || (|t| == |said| + 1 && t[..|said|] == said && t[|said|].kind == LEAVE)
  }

  /** What a connection's bytes so far have led to. */
  ghost predicate RelayedSoFar(s: Relay, connection: nat, bytes: seq<byte>, spoken: seq<Message>) {
    var t, said := Trace(s.log, connection), spoken[..WholeIn(spoken, bytes)];
    && (forall k: nat :: HoldsIt(s, k, connection) ==> s.slots[k].received == bytes)
    && (connection >= s.connections ==> bytes == [])
    && (if InTable(s, connection) then t == said else SaidOrAnnounced(t, said))
  }

  lemma RunAppend(s: Relay, events: seq<Event>, e: Event)
    ensures Run(s, events + [e]) == Step(Run(s, events), e)
    decreases |events|
  {
    hide Step;
    if events == [] {
      assert [] + [e] == [e];
    } else {
      assert (events + [e])[1..] == events[1..] + [e];
      RunAppend(Step(s, events[0]), events[1..], e);
    }
  }

  lemma HeldOnce(s: Relay, j: nat, k: nat, c: nat)
    requires Inv(s) && HoldsIt(s, k, c) && j != k
    ensures !HoldsIt(s, j, c)
  {
    hide Inv;
    OthersHoldAnother(s, j, k);
  }

  /** A connection not yet made. */
  lemma NotYetMade(s: Relay, c: nat)
    requires Inv(s) && c >= s.connections
    ensures Trace(s.log, c) == [] && forall k: nat :: !HoldsIt(s, k, c)
  {
    hide PhaseAfter, Trace, IsSound, InputIsOk, Heard, Stream, StrnLen, TransferIsOk, IdentityIsOk;
    NothingTraced(s.log, c);
  }

  lemma NothingYet(spoken: seq<Message>)
    requires AllSound(spoken)
    ensures WholeIn(spoken, []) == 0
  {
    hide IsSound, FrameBytes;
    if spoken != [] {
      FrameNotEmpty(spoken[0]);
    }
  }

  /** An event of the connection's own. */
  lemma OwnStep(s: Relay, e: Event, k: nat, c: nat, bytes: seq<byte>, spoken: seq<Message>, missing: seq<byte>)
    requires Inv(s) && HoldsIt(s, k, c) && Concerns(e, k) && RelayedSoFar(s, c, bytes, spoken)
    requires AllSound(spoken) && PhaseAfter(spoken).Some?
    requires bytes + (if TakenFrom(s, e, c) then e.bytes else []) + missing == Stream(spoken)
    ensures RelayedSoFar(Step(s, e), c, bytes + (if TakenFrom(s, e, c) then e.bytes else []), spoken)
  {
    hide Inv, Step, AllSound, PhaseAfter, Trace, Stream, WholeIn, OthersKept;
    var t := Step(s, e);
    StepKeepsInv(s, e);
    OnlyThere(s, e, k, c);
    assert InTable(s, c) && s.slots[k].received == bytes;
    StepConnections(s, e);
    ConnectionIsMade(s, k);
    if e.Data? {
      NeverRefused(s, k, e.bytes, spoken, missing);
    } else {
      assert bytes + [] == bytes;
      QuietStep(s, e, k);
    }
  }

  lemma StepConnections(s: Relay, e: Event)
    requires Inv(s)
    ensures Step(s, e).connections == s.connections + if e.Connect? && FirstFree(s.slots) < |s.slots| then 1 else 0
  {
    hide Inv, OthersKept, Receive, Flush, Disconnect, FirstFree;
    if !e.Connect? {
      StepKeepsOthers(s, e);
      KeptConnections(s, Step(s, e), e.i);
    }
  }

  lemma KeptConnections(s: Relay, t: Relay, i: nat)
    requires OthersKept(s, t, i)
    ensures t.connections == s.connections
  {
    hide Trace;
  }

  lemma ConnectionIsMade(s: Relay, k: nat)
    requires Inv(s) && IsOpen(s, k)
    ensures s.slots[k].connection < s.connections
  {
    hide Inv, Consistent;
    InvForDisconnect(s, k);
    SlotPhase(s, k);
  }

  /** A connection is at no other place afterwards. */
  lemma OnlyThere(s: Relay, e: Event, k: nat, c: nat)
    requires Inv(s) && HoldsIt(s, k, c) && Concerns(e, k)
    ensures forall j: nat :: j != k ==> !HoldsIt(Step(s, e), j, c)
  {
    hide Inv, Step, Trace;
    StepKeepsOthers(s, e);
    forall j: nat | j != k ensures !HoldsIt(Step(s, e), j, c) {
      HeldOnce(s, j, k, c);
    }
  }

  /** An event that brings a client no bytes leaves it as it is, or ends it and announces that. */
  lemma QuietStep(s: Relay, e: Event, k: nat)
    requires Inv(s) && IsOpen(s, k) && (e == HangUp(k) || (e.Writable? && e.i == k))
    ensures var t, c := Step(s, e), s.slots[k].connection;
            && (if IsOpen(t, k) then t.slots[k].connection == c && t.slots[k].received == s.slots[k].received
                                     && Trace(t.log, c) == Trace(s.log, c)
                else SaidOrAnnounced(Trace(t.log, c), Trace(s.log, c)))
  {
    hide Inv, Consistent, Trace, Flushing, Disconnect;
    InvForDisconnect(s, k);
    match e
    case HangUp(_) => QuietDisconnect(s, k);
    case Writable(_, outcomes) =>
      var (n, ok) := Flushing(outcomes, |s.slots[k].pending|);
      FlushedKeeps(s, k, n);
      var u := WithSlot(s, k, Flushed(s.slots[k], n));
      InvForDisconnect(u, k);
      QuietDisconnect(u, k);
  }

  lemma QuietDisconnect(s: Relay, k: nat)
    requires Consistent(s) && IsOpen(s, k)
    ensures var t, c := Disconnect(s, k), s.slots[k].connection;
            !IsOpen(t, k) && SaidOrAnnounced(Trace(t.log, c), Trace(s.log, c))
  {
    hide Consistent, Trace, LeaveOf, Encodable, Broadcast;
    if s.slots[k].joined {
      DisconnectAnnounces(s, k);
      LeaveIsLeave(s.slots[k]);
    }
  }

  lemma LeaveIsLeave(slot: Slot)
    requires slot.Open?
    ensures LeaveOf(slot).kind == LEAVE
  {
  }

  /** An event of others, or one of nobody yet. */
  lemma OthersStep(s: Relay, e: Event, c: nat, bytes: seq<byte>, spoken: seq<Message>)
    requires Inv(s) && RelayedSoFar(s, c, bytes, spoken) && AllSound(spoken)
    requires forall k: nat :: HoldsIt(s, k, c) ==> !Concerns(e, k)
    ensures RelayedSoFar(Step(s, e), c, bytes, spoken)
  {
    hide Inv, Step, AllSound, PhaseAfter, Trace, Stream, WholeIn;
    var t := Step(s, e);
    StepKeepsInv(s, e);
    StepConnections(s, e);
    if c < s.connections {
      assert !e.Connect? && HoldsIt(s, e.i, c) ==> Concerns(e, e.i);
      StepAside(s, e, c);
      forall k: nat | HoldsIt(t, k, c) ensures HoldsIt(s, k, c) && t.slots[k].received == s.slots[k].received {
      }
    } else {
      NotYetMade(s, c);
      NothingYet(spoken);
      if c >= t.connections {
        NotYetMade(t, c);
      } else {
        JustMade(s, c);
      }
    }
  }

  lemma JustMade(s: Relay, c: nat)
    requires Inv(s) && c == s.connections && FirstFree(s.slots) < |s.slots|
    ensures var t := Step(s, Connect);
            && Trace(t.log, c) == []
            && forall k: nat :: HoldsIt(t, k, c) ==> t.slots[k].received == []
  {
    hide Inv, Trace, FirstFree;
    NotYetMade(s, c);
    var t := Step(s, Connect);
    forall k: nat | HoldsIt(t, k, c) ensures t.slots[k].received == [] {
      assert !HoldsIt(s, k, c);
    }
  }

  /**
   In every run: of the bytes that have arrived from a client that says only what is orderly, every
   whole message has been relayed, in order and nothing else but perhaps a last LEAVE made up for it.
   */
  lemma {:induction false} SpokenIsRelayed(events: seq<Event>, c: nat, spoken: seq<Message>, missing: seq<byte>)
    requires AllSound(spoken) && PhaseAfter(spoken).Some? && Arrived(events, c) + missing == Stream(spoken)
    ensures RelayedSoFar(Run(Start(), events), c, Arrived(events, c), spoken)
    decreases |events|
  {
    hide Inv, Step, AllSound, PhaseAfter, Trace, Stream, WholeIn, RelayedSoFar, Run;
    if events == [] {
      NothingAtStart(c, spoken);
    } else {
      var before, e := events[..|events| - 1], events[|events| - 1];
      var s, bytes := Run(Start(), before), Arrived(before, c);
      var arriving := if TakenFrom(s, e, c) then e.bytes else [];
      assert events == before + [e];
      RunAppend(Start(), before, e);
      EveryRun(before);
      Assoc(bytes, arriving, missing);
      SpokenIsRelayed(before, c, spoken, arriving + missing);
      if k: nat :| HoldsIt(s, k, c) && Concerns(e, k) {
        OwnStep(s, e, k, c, bytes, spoken, missing);
      } else {
        assert TakenFrom(s, e, c) ==> HoldsIt(s, e.i, c) && Concerns(e, e.i);
        assert arriving == [] && bytes + arriving == bytes;
        OthersStep(s, e, c, bytes, spoken);
      }
    }
  }

  lemma NothingAtStart(c: nat, spoken: seq<Message>)
    requires AllSound(spoken)
    ensures RelayedSoFar(Run(Start(), []), c, Arrived([], c), spoken)
  {
    hide IsSound, WholeIn;
    NothingYet(spoken);
    assert forall k: nat :: !HoldsIt(Start(), k, c);
  }

  /** Once all its bytes have arrived, all a client said has been relayed. */
  lemma {:induction false} AllIsRelayed(events: seq<Event>, c: nat, spoken: seq<Message>)
    requires AllSound(spoken) && PhaseAfter(spoken).Some? && Arrived(events, c) == Stream(spoken)
    ensures SaidOrAnnounced(Trace(Run(Start(), events).log, c), spoken)
  {
    hide AllSound, PhaseAfter, Trace, Stream, WholeIn, Run, FrameStatusOf;
    assert Arrived(events, c) + [] == Stream(spoken);
    SpokenIsRelayed(events, c, spoken, []);
    SplitArrived(spoken, Arrived(events, c), []);
    assert spoken[..|spoken|] == spoken;
  }
}
