/** From one keyboard to another screen: the lines typed are the lines said, heard and shown. */
module ChatTalk {
  import opened Bytes
  import opened Wrappers
  import opened ChatCodec
  import opened ChatFraming
  import opened ChatOutput
  import opened ChatRelay
  import opened ChatRelayRuns
  import opened ChatConversations
  import opened ChatFiles
  import opened ChatFileRuns
  import opened ChatSending
  import opened ChatArrivals
  import opened ChatDelivery

  // ---------- what is typed is said ----------

  /** The texts of the chat messages among others, in order. */
  function TextsOf(messages: seq<Message>): seq<seq<byte>> {
    if messages == [] then []
    else
      var m := messages[|messages| - 1];
      TextsOf(messages[..|messages| - 1]) + if m.kind == MESSAGE then [CString(m.text)] else []
  }

  /** The lines a user has typed. */
  function TypedIn(actions: seq<Action>): seq<seq<byte>> {
    if actions == [] then []
    else (if actions[0].Type? then [actions[0].text] else []) + TypedIn(actions[1..])
  }

  lemma TextsAppend(messages: seq<Message>, m: Message)
    ensures TextsOf(messages + [m]) == TextsOf(messages) + if m.kind == MESSAGE then [CString(m.text)] else []
  {
    hide StrnLen;
    assert (messages + [m])[..|messages|] == messages;
  }

  lemma {:induction false} TextsOfParts(a: seq<Message>, b: seq<Message>)
    ensures TextsOf(a + b) == TextsOf(a) + TextsOf(b)
    decreases |b|
  {
    hide TextsOf;
    if b == [] {
      assert a + b == a;
      NoTexts();
    } else {
      var front, m := b[..|b| - 1], b[|b| - 1];
      TextsOfParts(a, front);
      Assoc(a, front, [m]);
      assert front + [m] == b;
      TextsAppend(a + front, m);
      TextsAppend(front, m);
      Assoc(TextsOf(a), TextsOf(front), if m.kind == MESSAGE then [CString(m.text)] else []);
    }
  }

  lemma NoTexts()
    ensures TextsOf([]) == []
  {
  }

  /** Queueing a message of another kind says no text, whether there is room or not. */
  lemma QueuedTexts(s: Sender, m: Message)
    ensures TextsOf(Queued(s, m).spoken) ==
            TextsOf(s.spoken) + if m.kind == MESSAGE && Queued(s, m).spoken != s.spoken then [CString(m.text)] else []
    ensures Queued(s, m).spoken != s.spoken <==> |FrameBytes(m)| <= OUTPUT_CAPACITY - PendingOf(s)
  {
    hide TextsOf, FrameBytes, PendingOf, StrnLen;
    TextsAppend(s.spoken, m);
    var texts := TextsOf(s.spoken);
    assert texts + [] == texts;
  }

  /** A line that is accepted is said; nothing else a client does says any text. */
  lemma {:induction false} ActionTexts(who: Identity, s: Sender, action: Action)
    requires SenderIsOk(who, s) && ActionIsPossible(s, action)
    ensures |who.name| <= NAME_MAX && 0 <= PendingOf(s) && (s.outgoing.Sharing? ==> s.outgoing.sent <= |s.outgoing.content|)
    ensures var t := Perform(who, s, action);
            && SenderIsOk(who, t) && (t.running ==> s.running)
            && TextsOf(t.spoken) ==
               TextsOf(s.spoken) + if action.Type? && s.running && t.running then [action.text] else []
  {
    hide SenderIsOk, TextsOf, PendingOf, FrameBytes, BeginMessage, ChunkMessage, EndMessage, PlainMessage, TextMessage,
         StrnLen, SafeFileName, Flushing, Draining, OutgoingIsOk;
    PerformKeeps(who, s, action);
    WhoIsValid(who, s);
    var texts := TextsOf(s.spoken);
    assert texts + [] == texts;
    match action
    case Type(text) =>
      if s.running {
        RunningHasNotLeft(who, s);
      }
      TextFacts(who, text);
      QueuedTexts(s, TextMessage(who, text));
    case Share(transferId, name, content) =>
      if s.running && !s.outgoing.Sharing? && SafeFileName(name) && |name| <= FILE_NAME_MAX {
        SafeIsNotEmpty(name);
        BeginFacts(who, transferId, name, |content|);
        QueuedTexts(s, BeginMessage(who, transferId, name, |content|));
      }
    case Turn =>
      if s.running && s.outgoing.Sharing? {
        PumpTexts(who, s);
      }
    case CanSend(outcomes) =>
    case Quit(rounds) =>
      PlainFacts(who, LEAVE);
      QueuedTexts(s, PlainMessage(who, LEAVE));
  }

  lemma PumpTexts(who: Identity, s: Sender)
    requires SenderIsOk(who, s) && s.outgoing.Sharing?
    ensures |who.name| <= NAME_MAX && s.outgoing.sent <= |s.outgoing.content|
    ensures TextsOf(Pump(who, s).spoken) == TextsOf(s.spoken) && (Pump(who, s).running ==> s.running)
  {
    hide SenderIsOk, TextsOf, PendingOf, FrameBytes, ChunkMessage, EndMessage, OutgoingIsOk;
    WhoIsValid(who, s);
    OpenFileId(who, s);
    var o := s.outgoing;
    var texts := TextsOf(s.spoken);
    assert texts + [] == texts;
    if o.sent < |o.content| {
      var data := o.content[o.sent..o.sent + NextChunk(|o.content| - o.sent)];
      ChunkFacts(who, o.transferId, data);
      QueuedTexts(s, ChunkMessage(who, o.transferId, data));
    } else {
      EndFacts(who, o.transferId);
      QueuedTexts(s, EndMessage(who, o.transferId));
    }
  }

  /**
   In every run, the texts a client says are the lines typed, whole and in order; as long as it runs, all
   of them, and once it has stopped, the first of them.
   */
  lemma {:induction false} LinesAreSpoken(who: Identity, s: Sender, actions: seq<Action>)
    requires SenderIsOk(who, s) && ArePossible(who, s, actions)
    ensures var t := RunSender(who, s, actions);
            && TextsOf(s.spoken) <= TextsOf(t.spoken) <= TextsOf(s.spoken) + TypedIn(actions)
            && (t.running ==> s.running && TextsOf(t.spoken) == TextsOf(s.spoken) + TypedIn(actions))
            && (!s.running ==> TextsOf(t.spoken) == TextsOf(s.spoken))
    decreases |actions|
  {
    hide SenderIsOk, TextsOf, Perform, PendingOf, ActionIsPossible;
    var texts := TextsOf(s.spoken);
    if actions == [] {
      assert texts + [] == texts;
    } else {
      var action, rest := actions[0], actions[1..];
      ActionTexts(who, s, action);
      var next := Perform(who, s, action);
      LinesAreSpoken(who, next, rest);
      var t := RunSender(who, s, actions);
      assert t == RunSender(who, next, rest);
      var first := if action.Type? then [action.text] else [];
      Assoc(texts, first, TypedIn(rest));
      assert texts + [] == texts;
      if !next.running {
        assert TextsOf(t.spoken) == TextsOf(next.spoken);
      }
    }
  }

  /** A client begins running, with a JOIN of its own to hand over and nothing else said. */
  lemma StartMeans(who: Identity)
    requires IdentityIsValid(who)
    ensures SenderIsOk(who, StartSender(who))
    ensures var s := StartSender(who);
            && |s.spoken| == 1 && s == Sender(NoFile, s.spoken, 0, [], true, false) && TextsOf(s.spoken) == []
            && (var m := s.spoken[0]; m.kind == JOIN && m.senderId == who.id && NameOf(m) == who.name)
  {
    hide TextsOf, SenderIsOk, NameOf, PlainMessage, FrameBytes;
    StartSenderIsOk(who);
    PlainFacts(who, JOIN);
    FrameFits(PlainMessage(who, JOIN));
    TextsAppend([], PlainMessage(who, JOIN));
    NoTexts();
    assert [] + [PlainMessage(who, JOIN)] == [PlainMessage(who, JOIN)];
  }

  /** In every run from the beginning. */
  lemma EveryLineIsSpoken(who: Identity, actions: seq<Action>)
    requires IdentityIsValid(who)
    ensures SenderIsOk(who, StartSender(who))
    ensures ArePossible(who, StartSender(who), actions) ==>
              var t := RunSender(who, StartSender(who), actions);
              TextsOf(t.spoken) <= TypedIn(actions) && (t.running ==> TextsOf(t.spoken) == TypedIn(actions))
  {
    hide TextsOf, SenderIsOk, RunSender, ArePossible, StartSender;
    StartMeans(who);
    if ArePossible(who, StartSender(who), actions) {
      LinesAreSpoken(who, StartSender(who), actions);
      assert [] + TypedIn(actions) == TypedIn(actions);
    }
  }

  /** When a line is accepted: its frame, of 32 bytes, the name and the line, fits what is left of 65788 bytes. */
  lemma LineIsAcceptedIff(who: Identity, s: Sender, text: seq<byte>)
    requires SenderIsOk(who, s) && s.running && 1 <= |text| <= TEXT_MAX && 0 !in text
    ensures |who.name| <= NAME_MAX
    ensures Say(who, s, text).running <==> 32 + |who.name| + |text| <= 65788 - (|Stream(s.spoken)| - s.given)
  {
    hide SenderIsOk, Stream, TextMessage, Encodable, WellTyped, StrnLen;
    WhoIsValid(who, s);
    TextFacts(who, text);
    var m := TextMessage(who, text);
    FrameFits(m);
    TextContent(m, text);
  }

  lemma TextContent(m: Message, text: seq<byte>)
    requires Encodable(m) && m.kind == MESSAGE && CString(m.text) == text
    ensures ContentOf(m) == Some(text)
  {
    hide StrnLen;
  }

  /**
   A client that stops says LEAVE under its own id and name if the frame of 32 bytes and its name still fits,
   and then hands over what the socket takes of all that is pending.
   */
  lemma QuitMeans(who: Identity, s: Sender, rounds: seq<seq<SendOutcome>>)
    requires SenderIsOk(who, s) && !s.left
    ensures |who.name| <= NAME_MAX && 0 <= PendingOf(s) && (s.outgoing.Sharing? ==> s.outgoing.sent <= |s.outgoing.content|)
    ensures var t, pending := Perform(who, s, Quit(rounds)), |Stream(s.spoken)| - s.given;
            && !t.running && t.left && t.finished == s.finished
            && if 32 + |who.name| <= 65788 - pending then
                 && |t.spoken| == |s.spoken| + 1 && t.spoken[..|s.spoken|] == s.spoken
                 && (var m := t.spoken[|s.spoken|]; m.kind == LEAVE && m.senderId == who.id && NameOf(m) == who.name)
                 && t.given == s.given + Flushing(AllBeforeBlocks(rounds), pending + 32 + |who.name|).0
               else t.spoken == s.spoken && t.given == s.given
  {
    hide SenderIsOk, Stream, PlainMessage, FrameBytes, NameOf, Flushing, Draining, BeforeBlock, AllBeforeBlocks;
    WhoIsValid(who, s);
    LeaveFrame(who);
    var m := PlainMessage(who, LEAVE);
    StreamAppend(s.spoken, m);
    DrainingMeans(rounds, PendingOf(s) + |FrameBytes(m)|);
  }

  lemma LeaveFrame(who: Identity)
    requires IdentityIsValid(who)
    ensures var m := PlainMessage(who, LEAVE);
            |FrameBytes(m)| == 32 + |who.name| && m.kind == LEAVE && m.senderId == who.id && NameOf(m) == who.name
  {
    hide PlainMessage, Encodable, WellTyped, StrnLen, Canonical;
    PlainFacts(who, LEAVE);
    FrameFits(PlainMessage(who, LEAVE));
    NoContent(PlainMessage(who, LEAVE));
  }

  lemma NoContent(m: Message)
    requires Encodable(m) && m.kind == LEAVE
    ensures ContentOf(m) == Some([])
  {
    hide StrnLen;
  }

  // ---------- what is said is heard ----------

  /** What was relayed for a client whose bytes have all arrived says the same texts under its id. */
  lemma SpeakerSaid(who: Identity, sender: Sender, events: seq<Event>, speaker: nat)
    requires SenderIsOk(who, sender) && Arrived(events, speaker) == Stream(sender.spoken)
    ensures var t := Trace(Run(Start(), events).log, speaker);
            (forall m :: m in t ==> m.senderId == who.id) && TextsOf(t) == TextsOf(sender.spoken)
  {
    hide SenderIsOk, Arrived, Run, Trace, Stream, AllSound, PhaseAfter, Conversation, TextsOf;
    SenderIsDone(who, sender);
    AllIsRelayed(events, speaker, sender.spoken);
    EveryConversation(events, speaker);
    var t := Trace(Run(Start(), events).log, speaker);
    if t != sender.spoken {
      var n := |sender.spoken|;
      assert t == sender.spoken + [t[n]];
      StartsWithJoin(t);
      SameSpeaker(t);
      TextsAppend(sender.spoken, t[n]);
      var texts := TextsOf(sender.spoken);
      assert texts + [] == texts;
    }
  }

  lemma StartsWithJoin(t: seq<Message>)
    requires Conversation(t) && t != []
    ensures t[0].kind == JOIN
  {
    hide TransferInOrder, NameOf;
  }

  /**
   When all the bytes of a client have arrived at the server, the texts it has said are those relayed before
   another client joined, followed by those the other one has heard from it.
   */
  lemma LinesAreHeard(who: Identity, sender: Sender, events: seq<Event>, speaker: nat, k: nat)
    requires SenderIsOk(who, sender) && Arrived(events, speaker) == Stream(sender.spoken)
    requires OnlySpeakerUses(Run(Start(), events), speaker, who.id) && Listened(Run(Start(), events), k, speaker)
    ensures var s := Run(Start(), events);
            TextsOf(Trace(s.log[..s.slots[k].since], speaker)) + TextsOf(FromSender(HeardAt(s, k), who.id)) ==
            TextsOf(sender.spoken)
  {
    hide SenderIsOk, Arrived, Run, Trace, Stream, TextsOf, Heard, FromSender;
    var s := Run(Start(), events);
    SpeakerSaid(who, sender, events, speaker);
    IdIsSpeaker(s, speaker, who.id);
    HeardFromSender(s.log, s.slots[k].since, s.slots[k].connection, speaker, who.id);
    TextsOfParts(Trace(s.log[..s.slots[k].since], speaker), FromSender(HeardAt(s, k), who.id));
  }

  // ---------- what is heard is shown ----------

  /** The lines on a screen that are not about files. */
  function TalkOn(screen: seq<Line>): seq<Line> {
    if screen == [] then []
    else
      var line := screen[|screen| - 1];
      TalkOn(screen[..|screen| - 1]) + if line.FileComing? || line.FileSaved? then [] else [line]
  }

  /** Who came, said what and went, among the messages of others than oneself. */
  function TalkIn(messages: seq<Message>, ownId: nat): seq<Line> {
    if messages == [] then []
    else
      var m := messages[|messages| - 1];
      TalkIn(messages[..|messages| - 1], ownId) +
      if m.senderId == ownId then []
      else if m.kind == JOIN then [HasJoined(NameOf(m))]
      else if m.kind == MESSAGE then [Said(NameOf(m), CString(m.text))]
      else if m.kind == LEAVE then [HasLeft(NameOf(m))]
      else []
  }

  lemma TalkAppend(screen: seq<Line>, line: Line)
    ensures TalkOn(screen + [line]) == TalkOn(screen) + if line.FileComing? || line.FileSaved? then [] else [line]
  {
    assert (screen + [line])[..|screen|] == screen;
  }

  lemma TalkInAppend(messages: seq<Message>, m: Message, ownId: nat)
    ensures TalkIn(messages + [m], ownId) == TalkIn(messages, ownId) + TalkIn([m], ownId)
  {
    hide StrnLen;
    assert (messages + [m])[..|messages|] == messages && [m][..0] == [];
    var before := TalkIn(messages, ownId);
    assert before + [] == before;
  }

  /** One message adds its line to the screen, and files add others. */
  lemma ShownOne(r: Receiver, m: Message)
    requires HandleReceived(r, m).ok
    ensures TalkOn(HandleReceived(r, m).state.screen) == TalkOn(r.screen) + TalkIn([m], r.ownId)
    ensures HandleReceived(r, m).state.ownId == r.ownId
  {
    hide StrnLen, TalkOn, CancelIncoming, FindIncoming, FindVacant, Prefix, SafeFileName, Contents, ChunkData;
    var talk := TalkOn(r.screen);
    assert talk + [] == talk && [m][..0] == [];
    var t := HandleReceived(r, m).state;
    if t.screen != r.screen {
      var line := t.screen[|t.screen| - 1];
      assert t.screen == r.screen + [line];
      TalkAppend(r.screen, line);
    }
  }

  /** A receiver that refuses nothing shows who came, what was said and who went, in the order it was heard. */
  lemma {:induction false} ShownAll(r: Receiver, messages: seq<Message>)
    requires AllSound(messages)
    ensures forall m :: m in messages ==> Encodable(m)
    ensures var p := HandleAll(ReceivedHandler(), r, messages);
            p.Waiting? ==> p.state.ownId == r.ownId && TalkOn(p.state.screen) == TalkOn(r.screen) + TalkIn(messages, r.ownId)
    decreases |messages|
  {
    hide TalkOn, HandleReceived, HandleAll, WellTyped, Encodable, Canonical;
    var talk := TalkOn(r.screen);
    if messages == [] {
      assert talk + [] == talk;
      NothingHandled(r);
    } else {
      var front, m := messages[..|messages| - 1], messages[|messages| - 1];
      assert front + [m] == messages && m in messages;
      SoundParts(messages, |messages| - 1);
      ShownAll(r, front);
      HandleAllAppend(ReceivedHandler(), r, front, m);
      var p := HandleAll(ReceivedHandler(), r, front);
      if p.Waiting? && HandleReceived(p.state, m).ok {
        ShownOne(p.state, m);
        TalkInAppend(front, m, r.ownId);
        Assoc(talk, TalkIn(front, r.ownId), TalkIn([m], r.ownId));
      }
    }
  }

  lemma NothingHandled(r: Receiver)
    ensures HandleAll(ReceivedHandler(), r, []) == Waiting(r, [])
  {
  }

  /** Without files, nothing is refused. */
  lemma {:induction false} TalkIsKept(r: Receiver, messages: seq<Message>)
    requires AllSound(messages) && forall m :: m in messages ==> !IsFilePacket(m)
    ensures forall m :: m in messages ==> Encodable(m)
    ensures HandleAll(ReceivedHandler(), r, messages).Waiting?
    decreases |messages|
  {
    hide HandleReceived, HandleAll, WellTyped, Encodable, Canonical;
    if messages == [] {
      NothingHandled(r);
    } else {
      var front, m := messages[..|messages| - 1], messages[|messages| - 1];
      assert front + [m] == messages && m in messages;
      SoundParts(messages, |messages| - 1);
      TalkIsKept(r, front);
      HandleAllAppend(ReceivedHandler(), r, front, m);
      TalkIsAccepted(HandleAll(ReceivedHandler(), r, front).state, m);
    }
  }

  /**
   A client that has taken all it was sent, in pieces cut anywhere, shows exactly who came, what was said and
   who went since it joined, in order, unless it has dropped its connection over a file, which without files
   it has not.
   */
  lemma {:induction false} LinesAreShown(events: seq<Event>, k: nat, speaker: nat, pieces: seq<seq<byte>>, ownId: nat,
                                         disk: map<seq<byte>, seq<byte>>)
    requires Listened(Run(Start(), events), k, speaker) && Concat(pieces) == Run(Start(), events).slots[k].sent
    ensures var heard := HeardAt(Run(Start(), events), k);
            var p := FeedAll(ReceivedHandler(), Waiting(NewReceiver(ownId, disk), []), pieces);
            && (p.Waiting? ==> TalkOn(p.state.screen) == TalkIn(heard, ownId))
            && ((forall m :: m in heard ==> !IsFilePacket(m)) ==> p.Waiting?)
  {
    hide HandleAll, FeedAll, Heard, Concat, Inv, AllSound, Run, TalkIn;
    var s, r := Run(Start(), events), NewReceiver(ownId, disk);
    EveryRun(events);
    ListenerGets(s, k, speaker, pieces, r);
    var heard := HeardAt(s, k);
    ShownAll(r, heard);
    assert [] + TalkIn(heard, ownId) == TalkIn(heard, ownId);
    if forall m :: m in heard ==> !IsFilePacket(m) {
      TalkIsKept(r, heard);
    }
  }
}
