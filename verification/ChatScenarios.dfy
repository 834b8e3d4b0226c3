/** Two runs of the server in which what one might expect does not happen. */
module ChatScenarios {
  import opened Bytes
  import opened Wrappers
  import opened ChatCodec
  import opened ChatFraming
  import opened ChatOutput
  import opened ChatRelay
  import opened ChatRelayRuns
  import opened ChatConversations
  import opened ChatFiles
  import opened ChatFileRuns
  import opened ChatSending
  import opened ChatArrivals
  import opened ChatDelivery

  // ---------- a client speaks ----------

  /** What working through a client's input leaves of its own output. */
  predicate OwnOutputKept(s: Relay, t: Relay, i: nat)
    requires IsOpen(s, i)
  {
    IsOpen(t, i) ==>
      && t.slots[i].pending == s.slots[i].pending && t.slots[i].sent == s.slots[i].sent
      && (s.slots[i].joined ==> t.slots[i].joined && t.slots[i].since == s.slots[i].since)
      && (!s.slots[i].joined && t.slots[i].joined ==> t.slots[i].since == |s.log|)
      && (!t.slots[i].joined ==> t.log == s.log)
  }

  lemma HandleKeepsOwnOutput(s: Relay, i: nat, m: Message)
    requires IsOpen(s, i)
    ensures OwnOutputKept(s, HandleMessage(s, i, m).state, i)
  {
    hide CheckTransfer, StrnLen, FrameBytes, Deliver;
  }

  lemma {:induction false} ProcessKeepsOwnOutput(s: Relay, i: nat, buffer: seq<byte>)
    requires IsOpen(s, i) && Consistent(s)
    ensures OwnOutputKept(s, Process(HandlerFor(i), s, buffer).state, i)
    decreases |buffer|
  {
    hide Consistent, HandleMessage, Decode, FrameStatusOf, IsSound, Trace;
    StatusOfPrefix(buffer, []);
    if buffer != [] && FrameStatusOf(buffer).Complete? {
      var n := FrameStatusOf(buffer).size;
      if Decode(buffer[..n]).Some? {
        var m := Decode(buffer[..n]).value;
        DecodedIsSound(buffer[..n]);
        HandleKeeps(s, i, m);
        HandleKeepsOwnOutput(s, i, m);
        var h := HandleMessage(s, i, m);
        assert HandlerFor(i)(s, m) == h;
        if h.ok {
          ProcessKeepsOwnOutput(h.state, i, buffer[n..]);
        }
      }
    }
  }

  /** A client that has said something has joined. */
  lemma SpokenIsJoined(s: Relay, i: nat)
    requires Consistent(s) && IsOpen(s, i)
    ensures s.slots[i].joined <==> Trace(s.log, s.slots[i].connection) != []
  {
    hide Trace, LogIsOk, PhaseAfter;
    SlotPhase(s, i);
    AbsentIsSilent(Trace(s.log, s.slots[i].connection));
  }

  lemma AbsentIsSilent(t: seq<Message>)
    ensures PhaseAfter(t) == Some(Absent) <==> t == []
  {
    hide CheckTransfer;
  }

  /** A client says some orderly messages at once. */
  lemma Says(s: Relay, i: nat, messages: seq<Message>)
    requires Inv(s) && IsOpen(s, i) && s.slots[i].input == [] && AllSound(messages) && messages != []
    requires PhaseAfter(Trace(s.log, s.slots[i].connection) + messages).Some? && !EndsInLeave(messages)
    ensures var t, slot := Step(s, Data(i, Stream(messages))), s.slots[i];
            && Inv(t) && t.log == s.log + Entries(slot.connection, messages) && t.connections == s.connections
            && IsOpen(t, i) && t.slots[i].connection == slot.connection && t.slots[i].input == [] && t.slots[i].joined
            && t.slots[i].pending == slot.pending && t.slots[i].sent == slot.sent
            && t.slots[i].since == if slot.joined then slot.since else |s.log|
  {
    hide Inv, Consistent, InputsAreOk, SlotIsOk, IsSound, FrameStatusOf, Stream, Trace, PhaseAfter, Process, HandleMessage,
         OthersKept, Entries, EndsInLeave;
    InvForDisconnect(s, i);
    NothingIsIncomplete();
    var slot, bytes := s.slots[i], Stream(messages);
    var u := WithSlot(s, i, Taken(slot, bytes));
    StreamNotEmpty(messages);
    StepKeepsInv(s, Data(i, bytes));
    StepConnections(s, Data(i, bytes));
    InputChangeKeeps(s, i, [], slot.received + bytes);
    assert slot.input + bytes == bytes == bytes + [];
    ProcessOrderly(u, i, messages, []);
    ProcessKeepsOwnOutput(u, i, bytes);
    var t := Step(s, Data(i, bytes));
    InvForDisconnect(t, i);
    TraceOfEntries(s.log, slot.connection, messages);
    SpokenIsJoined(t, i);
  }

  lemma StreamNotEmpty(messages: seq<Message>)
    requires AllSound(messages) && messages != []
    ensures Stream(messages) != []
  {
    hide IsSound;
    FrameNotEmpty(messages[|messages| - 1]);
  }

  // ---------- a listener that is dropped without a word ----------

  function Repeat(m: Message, n: nat): seq<Message> {
    if n == 0 then [] else Repeat(m, n - 1) + [m]
  }

  lemma RepeatStep(m: Message, n: nat)
    ensures Repeat(m, n) == if n == 0 then [] else Repeat(m, n - 1) + [m]
  {
  }

  lemma {:induction false} RepeatFacts(m: Message, n: nat)
    requires IsSound(m)
    ensures AllSound(Repeat(m, n)) && |Repeat(m, n)| == n && |Stream(Repeat(m, n))| >= n
    ensures n > 0 ==> Repeat(m, n)[n - 1] == m
  {
    hide IsSound, FrameBytes, Stream, Repeat;
    RepeatStep(m, n);
    if n > 0 {
      RepeatFacts(m, n - 1);
      StreamAppend(Repeat(m, n - 1), m);
      FrameNotEmpty(m);
    }
  }

  lemma JoinIsNext(m: Message)
    requires m.kind == JOIN
    ensures Next(Absent, m) == Some(Present(m.senderId, NameOf(m), Idle))
  {
  }

  lemma TalkIsNext(p: Phase, m: Message)
    requires p.Present? && m.kind == MESSAGE && m.senderId == p.id && NameOf(m) == p.name
    ensures Next(p, m) == Some(p)
  {
  }

  /** Joining and then talking as long as one likes is orderly. */
  lemma {:induction false} TalkIsOrderly(who: Identity, text: seq<byte>, n: nat)
    requires IdentityIsValid(who) && 1 <= |text| <= TEXT_MAX && 0 !in text
    ensures PhaseAfter([PlainMessage(who, JOIN)] + Repeat(TextMessage(who, text), n)) ==
            Some(Present(who.id, who.name, Idle))
  {
    hide IsSound, NameOf, PlainMessage, TextMessage, Next, PhaseAfter, Repeat;
    RepeatStep(TextMessage(who, text), n);
    var join, m := PlainMessage(who, JOIN), TextMessage(who, text);
    PlainFacts(who, JOIN);
    TextFacts(who, text);
    if n == 0 {
      PhaseAppend([], join);
      AbsentIsSilent([]);
      JoinIsNext(join);
      assert [] + [join] == [join] == [join] + [];
    } else {
      TalkIsNext(Present(who.id, who.name, Idle), m);
      TalkIsOrderly(who, text, n - 1);
      PhaseAppend([join] + Repeat(m, n - 1), m);
      Assoc([join], Repeat(m, n - 1), [m]);
    }
  }

  lemma {:induction false} HeardOfEntries(log: seq<Entry>, since: nat, c: nat, listener: nat, messages: seq<Message>)
    requires c != listener && since <= |log|
    ensures Heard(log + Entries(c, messages), since, listener) == Heard(log, since, listener) + messages
    decreases |messages|
  {
    hide Heard, Entries;
    EntriesStep(c, messages);
    if messages == [] {
      assert log + [] == log && Heard(log, since, listener) + [] == Heard(log, since, listener);
    } else {
      var front, last := messages[..|messages| - 1], messages[|messages| - 1];
      assert front + [last] == messages;
      EntriesOfParts(c, front, last);
      HeardOfEntries(log, since, c, listener, front);
      Assoc(log, Entries(c, front), [Entry(c, last)]);
      HeardAppend(log + Entries(c, front), Entry(c, last), since, listener);
      Assoc(Heard(log, since, listener), front, [last]);
    }
  }

  lemma {:induction false} EntriesOfParts(c: nat, front: seq<Message>, last: Message)
    ensures Entries(c, front + [last]) == Entries(c, front) + [Entry(c, last)]
  {
    if front == [] {
      assert Entries(c, [last]) == [Entry(c, last)] + Entries(c, []);
    } else {
      assert (front + [last])[1..] == front[1..] + [last];
      EntriesOfParts(c, front[1..], last);
    }
  }

  /** The second place is the first free one. */
  lemma SecondPlace(s: Relay)
    requires |s.slots| >= 2 && s.slots[0].Open? && s.slots[1].Free?
    ensures FirstFree(s.slots) == 1
  {
  }

  /** A first client joins, saying perhaps more at once. */
  lemma FirstJoins(messages: seq<Message>)
    requires AllSound(messages) && messages != [] && PhaseAfter(messages).Some? && !EndsInLeave(messages)
    ensures var s := Run(Start(), [Connect, Data(0, Stream(messages)), Connect]);
            && Inv(s) && s.log == Entries(0, messages) && s.connections == 2
            && IsOpen(s, 0) && s.slots[0].connection == 0 && s.slots[0].joined && s.slots[0].input == []
            && s.slots[0].pending == [] && s.slots[0].sent == []
            && IsOpen(s, 1) && s.slots[1] == NewClient(1)
  {
    hide Inv, IsSound, Stream, Trace, PhaseAfter, Receive, Entries, EndsInLeave, FirstFree;
    var s0 := Start();
    StartIsOk();
    FirstPlace(s0);
    var s1 := Step(s0, Connect);
    StepKeepsInv(s0, Connect);
    assert Trace(s1.log, 0) == [] by {
      NothingTraced([], 0);
    }
    assert [] + messages == messages;
    Says(s1, 0, messages);
    var e := Data(0, Stream(messages));
    var s2 := Step(s1, e);
    StepKeepsOthers(s1, e);
    StaysFree(s1, s2, 0, 1);
    SecondPlace(s2);
    StepKeepsInv(s2, Connect);
    assert [] + Entries(0, messages) == Entries(0, messages);
    RunThree(s0, Connect, e, Connect);
  }

  lemma FirstPlace(s: Relay)
    requires s.slots != [] && s.slots[0].Free?
    ensures FirstFree(s.slots) == 0
  {
  }

  lemma StaysFree(s: Relay, t: Relay, i: nat, k: nat)
    requires OthersKept(s, t, i) && k != i && k < |s.slots| && s.slots[k].Free?
    ensures k < |t.slots| && t.slots[k].Free?
  {
    hide Trace;
  }

  lemma RunNothing(s: Relay)
    ensures Run(s, []) == s
  {
  }

  lemma RunThree(s: Relay, a: Event, b: Event, c: Event)
    ensures Run(s, [a, b, c]) == Step(Step(Step(s, a), b), c)
  {
    hide Step, Run;
    RunNothing(s);
    RunAppend(s, [], a);
    RunAppend(s, [a], b);
    RunAppend(s, [a, b], c);
    assert [] + [a] == [a] && [a] + [b] == [a, b] && [a, b] + [c] == [a, b, c];
  }

  /** One client listens; another joins and says more, in one go, than the first one's output holds. */
  function Flood(listener: Identity, talker: Identity, text: seq<byte>): Event
    requires |talker.name| <= NAME_MAX && |text| <= TEXT_MAX
  {
    Data(1, Stream([PlainMessage(talker, JOIN)] + Repeat(TextMessage(talker, text), OUTPUT_CAPACITY + 1)))
  }

  function Calm(listener: Identity): seq<Event>
    requires |listener.name| <= NAME_MAX
  {
    [Connect, Data(0, Stream([PlainMessage(listener, JOIN)])), Connect]
  }

  /** A reachable state in which a joined client loses its place by what another says, and nothing tells of it. */
  lemma OverflowHappens(listener: Identity, talker: Identity, text: seq<byte>)
    requires IdentityIsValid(listener) && IdentityIsValid(talker) && 1 <= |text| <= TEXT_MAX && 0 !in text
    ensures var s, e := Run(Start(), Calm(listener)), Flood(listener, talker, text);
            && Inv(s) && IsOpen(s, 0) && s.slots[0].joined && !Concerns(e, 0) && !IsOpen(Step(s, e), 0)
            && Trace(Step(s, e).log, s.slots[0].connection) == [PlainMessage(listener, JOIN)]
  {
    hide Inv, IsSound, Stream, Trace, Heard, PhaseAfter, Receive, Run, Entries, PlainMessage, TextMessage, Repeat;
    var join, m := PlainMessage(listener, JOIN), TextMessage(talker, text);
    PlainFacts(listener, JOIN);
    PlainFacts(talker, JOIN);
    TextFacts(talker, text);
    TalkIsOrderly(listener, text, 0);
    assert Repeat(TextMessage(listener, text), 0) == [] && [join] + [] == [join] by {
      NoRepeat(TextMessage(listener, text));
    }
    FirstJoins([join]);
    var s, e := Run(Start(), Calm(listener)), Flood(listener, talker, text);
    var flood := [PlainMessage(talker, JOIN)] + Repeat(m, OUTPUT_CAPACITY + 1);
    RepeatFacts(m, OUTPUT_CAPACITY + 1);
    TalkIsOrderly(talker, text, OUTPUT_CAPACITY + 1);
    TraceOfEntries([], 0, [join]);
    OtherTrace(s.log, 1, 0, [join]);
    assert [] + flood == flood;
    Says(s, 1, flood);
    OthersFollow(s, e, 0);
    HeardNothing(s.log, 0);
    HeardOfEntries(s.log, |s.log|, 1, 0, flood);
    StreamParts([PlainMessage(talker, JOIN)], Repeat(m, OUTPUT_CAPACITY + 1));
    OthersAside(s, e, 0);
    assert [] + Entries(0, [join]) == Entries(0, [join]);
    NothingTraced([], 0);
    assert [] + [join] == [join];
  }

  lemma NoRepeat(m: Message)
    ensures Repeat(m, 0) == []
  {
  }

  /** Nothing of one connection is traced for another. */
  lemma {:induction false} OtherTrace(log: seq<Entry>, c: nat, other: nat, messages: seq<Message>)
    requires log == Entries(other, messages) && c != other
    ensures Trace(log, c) == []
    decreases |messages|
  {
    hide Trace, Entries;
    EntriesStep(other, messages);
    if messages == [] {
      NothingTraced([], c);
    } else {
      var front, last := messages[..|messages| - 1], messages[|messages| - 1];
      assert front + [last] == messages;
      EntriesOfParts(other, front, last);
      OtherTrace(Entries(other, front), c, other, front);
      TraceAppend(Entries(other, front), Entry(other, last), c);
    }
  }

  // ---------- a listener that comes too late ----------

  /** A file of one chunk. */
  predicate IsShort(who: Identity, f: Sent) {
    && IdentityIsValid(who) && f.senderId == who.id && SentIsValid(f) && 0 !in f.name && 0 < |f.content| <= FILE_CHUNK_MAX
  }

  lemma ShortMessages(who: Identity, f: Sent)
    requires IsShort(who, f)
    ensures |f.name| <= FILE_NAME_MAX && f.name != [] && 0 < f.transferId < UINT64_RANGE
    ensures FileMessages(who, f.transferId, f.name, f.content) ==
            [BeginMessage(who, f.transferId, f.name, |f.content|), ChunkMessage(who, f.transferId, f.content),
             EndMessage(who, f.transferId)]
  {
    hide BeginMessage, ChunkMessage, EndMessage;
    assert f.content[..|f.content|] == f.content && f.content[|f.content|..] == [];
    assert ChunkMessages(who, f.transferId, []) == [];
  }

  /** What the client does to send it. */
  ghost function SharesShort(who: Identity, f: Sent): Sender
    requires IsShort(who, f)
  {
    StartSenderIsOk(who);
    RunSender(who, StartSender(who), [Share(f.transferId, f.name, f.content), Turn, Turn])
  }

  lemma ShareShort(who: Identity, f: Sent)
    requires IsShort(who, f)
    ensures var s := SharesShort(who, f);
            && SenderIsOk(who, s) && f in s.finished
            && s.spoken == [PlainMessage(who, JOIN)] + FileMessages(who, f.transferId, f.name, f.content)
  {
    hide SenderIsOk, IsSound, FrameBytes, BeginMessage, ChunkMessage, EndMessage, PlainMessage, Stream, NameOf, SafeFileName,
         FileMessages;
    ShortMessages(who, f);
    StartSenderIsOk(who);
    PlainFacts(who, JOIN);
    var s0 := StartSender(who);
    StartedRunning(who);
    var s1 := Perform(who, s0, Share(f.transferId, f.name, f.content));
    PerformKeeps(who, s0, Share(f.transferId, f.name, f.content));
    BeginFacts(who, f.transferId, f.name, |f.content|);
    RoomFor(s0, BeginMessage(who, f.transferId, f.name, |f.content|), 1);
    PerformKeeps(who, s1, Turn);
    var s2 := Perform(who, s1, Turn);
    assert f.content[0..|f.content|] == f.content;
    ChunkFacts(who, f.transferId, f.content);
    RoomFor(s1, ChunkMessage(who, f.transferId, f.content), 2);
    PerformKeeps(who, s2, Turn);
    var s3 := Perform(who, s2, Turn);
    EndFacts(who, f.transferId);
    RoomFor(s2, EndMessage(who, f.transferId), 3);
    RunOfThree(who, s0, Share(f.transferId, f.name, f.content));
    assert f in s3.finished;
  }

  lemma StartedRunning(who: Identity)
    requires IdentityIsValid(who)
    ensures var s := StartSender(who);
            && s.running && s.outgoing.NoFile? && s.given == 0 && s.finished == [] && s.spoken == [PlainMessage(who, JOIN)]
            && PendingOf(s) <= PACKET_MAX_SIZE
  {
    hide IsSound, FrameBytes, PlainMessage, Stream;
    PlainFacts(who, JOIN);
    var m := PlainMessage(who, JOIN);
    FrameFits(m);
    StreamOfNothing();
    StreamAppend([], m);
    assert [] + [m] == [m];
  }

  /** With at most n packets pending there is room for one more, up to four. */
  lemma RoomFor(s: Sender, m: Message, n: nat)
    requires IsSound(m) && PendingOf(s) <= n * PACKET_MAX_SIZE && n <= 3
    ensures |FrameBytes(m)| <= OUTPUT_CAPACITY - PendingOf(s) && OUTPUT_CAPACITY - PendingOf(s) >= PACKET_MAX_SIZE
    ensures Queued(s, m) == s.(spoken := s.spoken + [m]) && PendingOf(Queued(s, m)) <= (n + 1) * PACKET_MAX_SIZE
  {
    hide IsSound, FrameBytes, Stream;
    FrameFits(m);
    StreamAppend(s.spoken, m);
  }

  lemma RunOfThree(who: Identity, s: Sender, a: Action)
    requires SenderIsOk(who, s)
    ensures |who.name| <= NAME_MAX && 0 <= PendingOf(s) && (s.outgoing.Sharing? ==> s.outgoing.sent <= |s.outgoing.content|)
    ensures var s1 := Perform(who, s, a);
            && SenderIsOk(who, s1) && 0 <= PendingOf(s1)
            && (s1.outgoing.Sharing? ==> s1.outgoing.sent <= |s1.outgoing.content|)
            && var s2 := Perform(who, s1, Turn);
               && SenderIsOk(who, s2) && 0 <= PendingOf(s2)
               && (s2.outgoing.Sharing? ==> s2.outgoing.sent <= |s2.outgoing.content|)
               && RunSender(who, s, [a, Turn, Turn]) == Perform(who, s2, Turn)
  {
    hide SenderIsOk, Perform, PendingOf;
    PerformKeeps(who, s, a);
    var s1 := Perform(who, s, a);
    PerformKeeps(who, s1, Turn);
    var s2 := Perform(who, s1, Turn);
    PerformKeeps(who, s2, Turn);
    assert [a, Turn, Turn][1..] == [Turn, Turn] && [Turn, Turn][1..] == [Turn] && [Turn][1..] == [];
    assert RunSender(who, Perform(who, s2, Turn), []) == Perform(who, s2, Turn);
    assert RunSender(who, s2, [Turn]) == Perform(who, s2, Turn);
    assert RunSender(who, s1, [Turn, Turn]) == RunSender(who, s2, [Turn]);
  }

  /** A first client speaks, a second joins, the first goes on, and the second's output is sent. */
  function Interrupted(a: seq<Message>, join: Message, b: seq<Message>): seq<Event> {
    [Connect, Data(0, Stream(a)), Connect]
    + [Data(1, Stream([join]))] + [Data(0, Stream(b))] + [Writable(1, [Accepted(OUTPUT_CAPACITY)])]
  }

  lemma ArrivedAppend(events: seq<Event>, e: Event, c: nat)
    ensures Arrived(events + [e], c) ==
            Arrived(events, c) + if TakenFrom(Run(Start(), events), e, c) then e.bytes else []
  {
    hide Run;
    assert (events + [e])[..|events|] == events;
  }

  lemma NothingArrived(c: nat)
    ensures Arrived([], c) == []
  {
  }

  lemma FirstArrived(bytes: seq<byte>)
    ensures Arrived([Connect, Data(0, bytes), Connect], 0) == bytes
  {
    hide Run, Arrived, FirstFree, Receive;
    var s0, e := Start(), Data(0, bytes);
    FirstPlace(s0);
    RunNothing(s0);
    RunAppend(s0, [], Connect);
    NothingArrived(0);
    ArrivedAppend([], Connect, 0);
    ArrivedAppend([Connect], e, 0);
    ArrivedAppend([Connect, e], Connect, 0);
    assert [] + [Connect] == [Connect] && [Connect] + [e] == [Connect, e];
    assert [Connect, e] + [Connect] == [Connect, e, Connect];
    assert [] + [] + bytes + [] == bytes;
  }

  /** The second client joins. */
  lemma SecondJoins(s: Relay, join: Message)
    requires Inv(s) && s.connections == 2 && IsSound(join) && join.kind == JOIN
    requires IsOpen(s, 0) && s.slots[0].connection == 0 && s.slots[0].joined && s.slots[0].pending == []
    requires IsOpen(s, 1) && s.slots[1] == NewClient(1) && Trace(s.log, 1) == []
    ensures var t := Step(s, Data(1, Stream([join])));
            && Inv(t) && t.log == s.log + [Entry(1, join)]
            && IsOpen(t, 0) && t.slots[0].connection == 0 && t.slots[0].joined && t.slots[0].input == s.slots[0].input
            && IsOpen(t, 1) && t.slots[1].connection == 1 && t.slots[1].joined && t.slots[1].input == []
            && t.slots[1].pending == [] && t.slots[1].sent == [] && t.slots[1].since == |s.log|
  {
    hide Inv, IsSound, Stream, Trace, Heard, PhaseAfter, Receive, Entries, PlainMessage;
    AbsentIsSilent([]);
    PhaseAppend([], join);
    JoinIsNext(join);
    assert [] + [join] == [join];
    Says(s, 1, [join]);
    var e := Data(1, Stream([join]));
    OthersFollow(s, e, 0);
    HeardNothing(s.log, 0);
    HeardOfEntries(s.log, |s.log|, 1, 0, [join]);
    FourFit([join]);
    EntriesOfParts(1, [], join);
    assert Entries(1, []) == [] by {
      EntriesStep(1, []);
    }
    assert [] + [Entry(1, join)] == [Entry(1, join)];
  }

  lemma LastIsSound(messages: seq<Message>)
    requires AllSound(messages) && messages != []
    ensures IsSound(messages[|messages| - 1])
  {
    hide IsSound;
  }

  /** No message takes more than the largest packet. */
  lemma {:induction false} SmallStream(messages: seq<Message>)
    requires AllSound(messages)
    ensures |Stream(messages)| <= |messages| * PACKET_MAX_SIZE
    decreases |messages|
  {
    hide IsSound, FrameBytes, Stream, AllSound;
    if messages == [] {
      StreamOfNothing();
    } else {
      var front, last := messages[..|messages| - 1], messages[|messages| - 1];
      SoundParts(messages, |messages| - 1);
      LastIsSound(messages);
      SmallStream(front);
      FrameFits(last);
      StreamAppend(front, last);
      assert front + [last] == messages;
    }
  }

  lemma FourFit(messages: seq<Message>)
    requires AllSound(messages) && |messages| <= 4
    ensures |Stream(messages)| <= OUTPUT_CAPACITY
  {
    hide Stream, AllSound;
    SmallStream(messages);
  }

  /** The first goes on talking and the second's output is sent to it. */
  lemma FirstGoesOn(s: Relay, b: seq<Message>)
    requires Inv(s) && AllSound(b) && b != [] && |b| <= 4 && !EndsInLeave(b)
    requires IsOpen(s, 0) && s.slots[0].connection == 0 && s.slots[0].joined && s.slots[0].input == []
    requires IsOpen(s, 1) && s.slots[1].connection == 1 && s.slots[1].joined
    requires s.slots[1].pending == [] && s.slots[1].sent == [] && PhaseAfter(Trace(s.log, 0) + b).Some?
    ensures var t := Step(Step(s, Data(0, Stream(b))), Writable(1, [Accepted(OUTPUT_CAPACITY)]));
            && t.log == s.log + Entries(0, b)
            && IsOpen(t, 1) && t.slots[1].connection == 1 && t.slots[1].joined && t.slots[1].since == s.slots[1].since
            && t.slots[1].pending == [] && t.slots[1].sent == Stream(b)
  {
    hide Inv, IsSound, Stream, Trace, Heard, PhaseAfter, Receive, Entries, EndsInLeave, AllSound, Flushing;
    Says(s, 0, b);
    var e := Data(0, Stream(b));
    OthersFollow(s, e, 1);
    HeardNothing(s.log, 1);
    HeardOfEntries(s.log, |s.log|, 0, 1, b);
    FourFit(b);
    assert [] + b == b && [] + Stream(b) == Stream(b);
    StreamNotEmpty(b);
    assert Stream(b)[..|Stream(b)|] == Stream(b) && Stream(b)[|Stream(b)|..] == [];
    SentAtOnce(|Stream(b)|);
  }

  lemma SentAtOnce(n: nat)
    requires n <= OUTPUT_CAPACITY
    ensures Flushing([Accepted(OUTPUT_CAPACITY)], n) == (n, true)
  {
    assert [Accepted(OUTPUT_CAPACITY)][1..] == [];
  }

  lemma RunInterrupted(a: seq<Message>, join: Message, b: seq<Message>)
    requires AllSound(a) && a != [] && AllSound(b) && b != [] && |b| <= 4 && !EndsInLeave(a) && !EndsInLeave(b)
    requires PhaseAfter(a + b).Some? && IsSound(join) && join.kind == JOIN
    ensures var events := Interrupted(a, join, b);
            var t := Run(Start(), events);
            && t.log == Entries(0, a) + [Entry(1, join)] + Entries(0, b) && Arrived(events, 0) == Stream(a + b)
            && IsOpen(t, 1) && t.slots[1].connection == 1 && t.slots[1].joined && t.slots[1].since == |Entries(0, a)|
            && t.slots[1].pending == [] && t.slots[1].sent == Stream(b)
  {
    hide Inv, IsSound, Stream, Trace, PhaseAfter, Step, Entries, EndsInLeave, Run, Arrived;
    var events0 := [Connect, Data(0, Stream(a)), Connect];
    var e1, e2, e3 := Data(1, Stream([join])), Data(0, Stream(b)), Writable(1, [Accepted(OUTPUT_CAPACITY)]);
    var s := Run(Start(), events0);
    PhaseOfPrefix(a, b);
    FirstJoins(a);
    FirstArrived(Stream(a));
    OtherTrace(s.log, 1, 0, a);
    SecondJoins(s, join);
    var t := Step(s, e1);
    OtherSaid(a, join);
    FirstGoesOn(t, b);
    RunAppend(Start(), events0, e1);
    RunAppend(Start(), events0 + [e1], e2);
    RunAppend(Start(), events0 + [e1] + [e2], e3);
    ArrivedAppend(events0, e1, 0);
    ArrivedAppend(events0 + [e1], e2, 0);
    ArrivedAppend(events0 + [e1] + [e2], e3, 0);
    assert Stream(a) + [] + Stream(b) + [] == Stream(a) + Stream(b);
    StreamParts(a, b);
  }

  lemma OtherSaid(a: seq<Message>, m: Message)
    ensures Trace(Entries(0, a) + [Entry(1, m)], 0) == a
  {
    hide Trace, Entries;
    TraceOfEntries([], 0, a);
    NothingTraced([], 0);
    TraceAppend(Entries(0, a), Entry(1, m), 0);
    assert [] + Entries(0, a) == Entries(0, a) && [] + a == a;
  }

  /** The listener joins when the file has been announced and none of it sent. */
  function LateRun(who: Identity, f: Sent, listener: Identity): seq<Event>
    requires |who.name| <= NAME_MAX && |listener.name| <= NAME_MAX && |f.name| <= FILE_NAME_MAX
    requires |f.content| <= FILE_CHUNK_MAX && f.transferId < UINT64_RANGE && |f.content| < UINT64_RANGE
  {
    Interrupted([PlainMessage(who, JOIN), BeginMessage(who, f.transferId, f.name, |f.content|)],
                PlainMessage(listener, JOIN),
                [ChunkMessage(who, f.transferId, f.content), EndMessage(who, f.transferId)])
  }

  /** The packets of a short file, and which of them come before the listener. */
  lemma ShortPackets(who: Identity, f: Sent)
    requires IsShort(who, f)
    ensures |f.name| <= FILE_NAME_MAX
    ensures var join, begin := PlainMessage(who, JOIN), BeginMessage(who, f.transferId, f.name, |f.content|);
            var b := [ChunkMessage(who, f.transferId, f.content), EndMessage(who, f.transferId)];
            && AllSound([join, begin] + b) && !EndsInLeave([join, begin]) && !EndsInLeave(b)
            && SharesShort(who, f).spoken == [join, begin] + b
            && PacketsOf([join, begin], who.id, f.transferId) == [begin]
            && PacketsOf(b, who.id, f.transferId) == b && forall m :: m in b ==> IsPacket(f, m)
  {
    hide IsSound, BeginMessage, ChunkMessage, EndMessage, PlainMessage, PacketsOf, FileMessages, SharesShort;
    ShortMessages(who, f);
    ShareShort(who, f);
    PlainFacts(who, JOIN);
    BeginFacts(who, f.transferId, f.name, |f.content|);
    ChunkFacts(who, f.transferId, f.content);
    EndFacts(who, f.transferId);
    var join, begin := PlainMessage(who, JOIN), BeginMessage(who, f.transferId, f.name, |f.content|);
    var chunk, end := ChunkMessage(who, f.transferId, f.content), EndMessage(who, f.transferId);
    assert [join] + [begin, chunk, end] == [join, begin] + [chunk, end];
    PacketsAppend([], join, who.id, f.transferId);
    PacketsAppend([join], begin, who.id, f.transferId);
    PacketsAppend([], chunk, who.id, f.transferId);
    PacketsAppend([chunk], end, who.id, f.transferId);
    assert [] + [join] == [join] && [join] + [begin] == [join, begin] && [] + [chunk] == [chunk];
    assert [chunk] + [end] == [chunk, end] && [] + [begin] == [begin];
    NoPackets(who.id, f.transferId);
  }

  lemma NoPackets(id: nat, transferId: nat)
    ensures PacketsOf([], id, transferId) == []
  {
  }

  /**
   A reachable state in which a listener that does nothing wrong loses its connection to a file all of
   whose bytes were relayed, because it joined after the announcement.
   */
  lemma LateListenerIsDropped(who: Identity, f: Sent, listener: Identity, disk: map<seq<byte>, seq<byte>>)
    requires IsShort(who, f) && IdentityIsValid(listener) && listener.id != who.id
    ensures |f.name| <= FILE_NAME_MAX
    ensures var events := LateRun(who, f, listener);
            var s := Run(Start(), events);
            && IsOpen(s, 1) && Delivery(who, SharesShort(who, f), f, events, 0, 1, [s.slots[1].sent])
            && !JoinedInTime(s, 1, 0, f) && OnlyTalkBesides(f, listener.id, HeardAt(s, 1))
            && FeedAll(ReceivedHandler(), Waiting(NewReceiver(listener.id, disk), []), [s.slots[1].sent]).Broken?
  {
    hide IsSound, BeginMessage, ChunkMessage, EndMessage, PlainMessage, PacketsOf, FileMessages, SharesShort, Run, Arrived,
         Entries, Trace, Heard, Stream, EndsInLeave, PhaseAfter, FeedAll, SentIsValid;
    ShortMessages(who, f);
    ShareShort(who, f);
    ShortPackets(who, f);
    PlainFacts(listener, JOIN);
    var a := [PlainMessage(who, JOIN), BeginMessage(who, f.transferId, f.name, |f.content|)];
    var b := [ChunkMessage(who, f.transferId, f.content), EndMessage(who, f.transferId)];
    var join := PlainMessage(listener, JOIN);
    var events := LateRun(who, f, listener);
    SoundParts(a + b, 2);
    RunInterrupted(a, join, b);
    var s := Run(Start(), events);
    EntriesAre(a);
    EntriesAre(b);
    OnlyFirstSpeaks(s.log, a, join, b, who.id);
    TraceOfEntries([], 0, a);
    NothingTraced([], 0);
    HeardLater(a, join, b);
    assert s.log[..s.slots[1].since] == Entries(0, a) == [] + Entries(0, a) && [] + a == a;
    OnePiece(s.slots[1].sent);
    ListenerIsKeptIff(who, SharesShort(who, f), f, events, 0, 1, [s.slots[1].sent], listener.id, disk);
  }

  lemma EntriesAre(messages: seq<Message>)
    requires |messages| == 2
    ensures Entries(0, messages) == [Entry(0, messages[0]), Entry(0, messages[1])]
  {
    EntriesStep(0, messages);
    EntriesStep(0, messages[1..]);
    EntriesStep(0, messages[2..]);
  }

  lemma OnlyFirstSpeaks(log: seq<Entry>, a: seq<Message>, join: Message, b: seq<Message>, id: nat)
    requires log == Entries(0, a) + [Entry(1, join)] + Entries(0, b) && join.senderId != id && |a| == |b| == 2
    ensures forall k :: 0 <= k < |log| && log[k].message.senderId == id ==> log[k].connection == 0
  {
    EntriesAre(a);
    EntriesAre(b);
  }

  lemma HeardLater(a: seq<Message>, join: Message, b: seq<Message>)
    ensures Heard(Entries(0, a) + [Entry(1, join)] + Entries(0, b), |Entries(0, a)|, 1) == b
  {
    hide Heard, Entries;
    var log := Entries(0, a);
    HeardNothing(log, 1);
    HeardAppend(log, Entry(1, join), |log|, 1);
    HeardOfEntries(log + [Entry(1, join)], |log|, 0, 1, b);
    assert [] + [] + b == b;
  }

  lemma OnePiece(piece: seq<byte>)
    ensures Concat([piece]) == piece
  {
    assert piece + [] == piece && [] + piece == piece;
  }
}
