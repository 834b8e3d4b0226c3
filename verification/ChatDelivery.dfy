/** From one client through the server to another: the whole way of a file. */
module ChatDelivery {
  import opened Bytes
  import opened Wrappers
  import opened ChatCodec
  import opened ChatFraming
  import opened ChatRelay
  import opened ChatRelayRuns
  import opened ChatConversations
  import opened ChatFiles
  import opened ChatFileRuns
  import opened ChatSending
  import opened ChatArrivals

  // ---------- what a listener hears is sound ----------

  lemma {:induction false} HeardIsLogged(log: seq<Entry>, since: nat, c: nat, m: Message)
    requires m in Heard(log, since, c)
    ensures exists k :: 0 <= k < |log| && log[k].message == m
    decreases |log|
  {
    var n := |log| - 1;
    if m in Heard(log[..n], since, c) {
      HeardIsLogged(log[..n], since, c, m);
      var k :| 0 <= k < n && log[..n][k].message == m;
      assert log[k].message == m;
    } else {
      assert log[n].message == m;
    }
  }

  lemma HeardIsSound(s: Relay, since: nat, c: nat)
    requires Inv(s)
    ensures AllSound(Heard(s.log, since, c))
  {
    hide IsSound, SlotIsOk, Trace, PhaseAfter, InputIsOk, Heard;
    forall m | m in Heard(s.log, since, c) ensures IsSound(m) {
      HeardIsLogged(s.log, since, c, m);
    }
  }

  // ---------- one sender among others ----------

  function FromSender(messages: seq<Message>, id: nat): seq<Message> {
    if messages == [] then []
    else
      var m := messages[|messages| - 1];
      FromSender(messages[..|messages| - 1], id) + if m.senderId == id then [m] else []
  }

  /** From the moment it joins, a client hears everything another one says. */
  lemma {:induction false} HeardFromSender(log: seq<Entry>, since: nat, listener: nat, speaker: nat, id: nat)
    requires since <= |log| && listener != speaker
    requires forall k :: 0 <= k < |log| ==> (log[k].message.senderId == id <==> log[k].connection == speaker)
    ensures Trace(log, speaker) == Trace(log[..since], speaker) + FromSender(Heard(log, since, listener), id)
    decreases |log|
  {
    hide Trace, Heard, FromSender;
    if |log| == since {
      assert log[..since] == log;
      NothingHeardYet(log, listener, id);
      assert Trace(log, speaker) + [] == Trace(log, speaker);
    } else {
      var rest, e := log[..|log| - 1], log[|log| - 1];
      assert log == rest + [e] && rest[..since] == log[..since];
      assert forall k :: 0 <= k < |rest| ==> rest[k] == log[k];
      HeardFromSender(rest, since, listener, speaker, id);
      TraceAppend(rest, e, speaker);
      HeardAppend(rest, e, since, listener);
      HeardOneMore(Heard(rest, since, listener), e, listener, speaker, id);
      Regrouped(Trace(log[..since], speaker), FromSender(Heard(rest, since, listener), id),
                if e.connection == speaker then [e.message] else []);
    }
  }

  lemma NothingHeardYet(log: seq<Entry>, listener: nat, id: nat)
    ensures FromSender(Heard(log, |log|, listener), id) == []
  {
  }

  lemma Regrouped(a: seq<Message>, b: seq<Message>, c: seq<Message>)
    ensures a + b + c == a + (b + c)
  {
  }

  lemma HeardOneMore(before: seq<Message>, e: Entry, listener: nat, speaker: nat, id: nat)
    requires listener != speaker && (e.message.senderId == id <==> e.connection == speaker)
    ensures FromSender(before + if e.connection == listener then [] else [e.message], id) ==
            FromSender(before, id) + if e.connection == speaker then [e.message] else []
  {
    if e.connection == listener {
      assert before + [] == before && FromSender(before, id) + [] == FromSender(before, id);
    } else {
      assert (before + [e.message])[..|before|] == before;
    }
  }

  lemma {:induction false} PacketsOfParts(a: seq<Message>, b: seq<Message>, id: nat, transferId: nat)
    ensures PacketsOf(a + b, id, transferId) == PacketsOf(a, id, transferId) + PacketsOf(b, id, transferId)
    decreases |b|
  {
    if b == [] {
      assert a + b == a;
    } else {
      var rest, m := b[..|b| - 1], b[|b| - 1];
      assert a + b == a + rest + [m];
      PacketsOfParts(a, rest, id, transferId);
      PacketsAppend(a + rest, m, id, transferId);
    }
  }

  lemma {:induction false} PacketsFromSender(messages: seq<Message>, id: nat, transferId: nat)
    ensures PacketsOf(messages, id, transferId) == PacketsOf(FromSender(messages, id), id, transferId)
    decreases |messages|
  {
    if messages != [] {
      var before, m := messages[..|messages| - 1], messages[|messages| - 1];
      PacketsFromSender(before, id, transferId);
      if m.senderId == id {
        PacketsAppend(FromSender(before, id), m, id, transferId);
      } else {
        assert FromSender(messages, id) == FromSender(before, id) + [] == FromSender(before, id);
      }
    }
  }

  lemma {:induction false} FromSenderOfPrefix(messages: seq<Message>, k: nat, id: nat)
    requires k <= |messages|
    ensures FromSender(messages[..k], id) <= FromSender(messages, id)
    decreases |messages|
  {
    if k < |messages| {
      var before := messages[..|messages| - 1];
      FromSenderOfPrefix(before, k, id);
      assert before[..k] == messages[..k];
    } else {
      assert messages[..k] == messages;
    }
  }

  predicate NothingAfterLeave(t: seq<Message>) {
    forall k :: 0 <= k < |t| - 1 ==> t[k].kind != LEAVE
  }

  /** A sender that says nothing after leaving does not leave in the middle of a file that arrives whole. */
  lemma LeavesAfterFile(f: Sent, messages: seq<Message>)
    requires AllSound(messages) && NothingAfterLeave(FromSender(messages, f.senderId)) && f.transferId != 0
    requires StageIn(f, messages) == Some(Saved)
    ensures SenderStays(f, messages)
  {
    hide IsSound, NothingAfterLeave, FromSender, StageAfter;
    forall k | 0 <= k < |messages| && messages[k].kind == LEAVE && messages[k].senderId == f.senderId
      ensures StageIn(f, messages[..k]) == Some(Saved)
    {
      var id, m := f.senderId, messages[k];
      LeaveHasNoTransfer(m);
      FromSenderOfPrefix(messages, k + 1, id);
      var spoken, upTo := FromSender(messages, id), FromSender(messages[..k + 1], id);
      LeaveIsLast(messages[..k + 1], id, spoken);
      PacketsFromSender(messages, id, f.transferId);
      PacketsFromSender(messages[..k + 1], id, f.transferId);
      assert messages[..k + 1] == messages[..k] + [m];
      StageAppend(f, messages[..k], m);
    }
  }

  lemma LeaveHasNoTransfer(m: Message)
    requires IsSound(m) && m.kind == LEAVE
    ensures m.transferId == 0
  {
    hide Canonical, WellTyped, NameOf, ContentOf;
  }

  lemma LeaveIsLast(messages: seq<Message>, id: nat, spoken: seq<Message>)
    requires messages != [] && messages[|messages| - 1].kind == LEAVE && messages[|messages| - 1].senderId == id
    requires NothingAfterLeave(spoken) && FromSender(messages, id) <= spoken
    ensures FromSender(messages, id) == spoken
  {
    var t := FromSender(messages, id);
    assert t[|t| - 1].kind == LEAVE && spoken[|t| - 1] == t[|t| - 1];
  }

  // ---------- the whole way ----------

  /**
   Whatever a client has done so far, and whatever part of its bytes has arrived by then in a run of the
   server: every whole message among them has been relayed, and nothing was refused.
   */
  lemma SenderIsRelayed(who: Identity, sender: Sender, events: seq<Event>, c: nat)
    requires SenderIsOk(who, sender) && Arrived(events, c) <= Stream(sender.spoken)
    ensures RelayedSoFar(Run(Start(), events), c, Arrived(events, c), sender.spoken)
  {
    hide SenderIsOk, Arrived, Run, Trace, Stream, AllSound, PhaseAfter, RelayedSoFar;
    SenderIsDone(who, sender);
    var stream, n := Stream(sender.spoken), |Arrived(events, c)|;
    assert stream == Arrived(events, c) + stream[n..];
    SpokenIsRelayed(events, c, sender.spoken, stream[n..]);
  }

  /** The listener at place k of the server's table has been sent everything it is to be sent. */
  predicate Listened(s: Relay, k: nat, speaker: nat) {
    && IsOpen(s, k) && s.slots[k].joined && s.slots[k].connection != speaker && s.slots[k].pending == []
    && s.slots[k].since <= |s.log|
  }

  /** It joined before any packet of the file was relayed. */
  predicate JoinedInTime(s: Relay, k: nat, speaker: nat, f: Sent)
    requires Listened(s, k, speaker)
  {
    PacketsOf(Trace(s.log[..s.slots[k].since], speaker), f.senderId, f.transferId) == []
  }

  /** Nobody else uses the sender's id; the server does not check that. */
  predicate OnlySpeakerUses(s: Relay, speaker: nat, id: nat) {
    forall k :: 0 <= k < |s.log| && s.log[k].message.senderId == id ==> s.log[k].connection == speaker
  }

  /**
   A client has finished sending a file and all its bytes have arrived in a run of the server, in which
   another client has taken everything it was sent, in pieces cut anywhere.
   */
  ghost predicate Delivery(who: Identity, sender: Sender, f: Sent, events: seq<Event>, speaker: nat, k: nat,
                           pieces: seq<seq<byte>>) {
    var s := Run(Start(), events);
    && SenderIsOk(who, sender) && f in sender.finished && Arrived(events, speaker) == Stream(sender.spoken)
    && OnlySpeakerUses(s, speaker, who.id) && Listened(s, k, speaker) && Concat(pieces) == s.slots[k].sent
  }

  /** What the client at place k has heard. */
  function HeardAt(s: Relay, k: nat): seq<Message>
    requires IsOpen(s, k)
  {
    Heard(s.log, s.slots[k].since, s.slots[k].connection)
  }

  lemma ListenerGets(s: Relay, k: nat, speaker: nat, pieces: seq<seq<byte>>, r: Receiver)
    requires Inv(s) && Listened(s, k, speaker) && Concat(pieces) == s.slots[k].sent
    ensures var heard := HeardAt(s, k);
            && AllSound(heard) && (forall m :: m in heard ==> Encodable(m))
            && FeedAll(ReceivedHandler(), Waiting(r, []), pieces) == HandleAll(ReceivedHandler(), r, heard)
  {
    hide HandleAll, FeedAll, Stream, Heard, Concat, Frames, Trace, WellTyped, Encodable, Canonical, InputIsOk, LogIsOk;
    var slot := s.slots[k];
    var heard := HeardAt(s, k);
    HeardIsSound(s, slot.since, slot.connection);
    StreamIsFrames(heard);
    assert slot.sent == Stream(heard) by {
      assert slot.sent + slot.pending == slot.sent;
      SentIsHeard(s, k);
    }
    assert forall m :: m in heard ==> IsSound(m) && WellTyped(m);
    FramingIsExact(ReceivedHandler(), r, heard, pieces);
  }

  lemma SentIsHeard(s: Relay, k: nat)
    requires Inv(s) && IsOpen(s, k) && s.slots[k].joined
    ensures s.slots[k].sent + s.slots[k].pending == Stream(HeardAt(s, k))
  {
    hide Stream, Heard, Trace, InputIsOk, LogIsOk, PhaseAfter;
  }

  lemma {:induction false} LoggedIsTraced(log: seq<Entry>, k: nat)
    requires k < |log|
    ensures log[k].message in Trace(log, log[k].connection)
    decreases |log|
  {
    var n := |log| - 1;
    if k < n {
      LoggedIsTraced(log[..n], k);
      assert log[..n][k] == log[k];
    }
  }

  /** All a speaker says carries its id, and nothing else does. */
  lemma IdIsSpeaker(s: Relay, speaker: nat, id: nat)
    requires OnlySpeakerUses(s, speaker, id) && forall m :: m in Trace(s.log, speaker) ==> m.senderId == id
    ensures forall k :: 0 <= k < |s.log| ==> (s.log[k].message.senderId == id <==> s.log[k].connection == speaker)
  {
    hide Trace;
    forall k | 0 <= k < |s.log| && s.log[k].connection == speaker ensures s.log[k].message.senderId == id {
      LoggedIsTraced(s.log, k);
    }
  }

  /** What was relayed for the speaker: the file's packets, all under its id and nothing after a LEAVE. */
  lemma SpeakerIsRelayed(who: Identity, sender: Sender, f: Sent, events: seq<Event>, speaker: nat)
    requires SenderIsOk(who, sender) && f in sender.finished && Arrived(events, speaker) == Stream(sender.spoken)
    ensures var t := Trace(Run(Start(), events).log, speaker);
            && Conversation(t) && (forall m :: m in t ==> m.senderId == who.id)
            && FinishedIsOk(who, sender, f)
            && PacketsOf(t, who.id, f.transferId) == FileMessages(who, f.transferId, f.name, f.content)
  {
    hide SenderIsOk, Arrived, Run, Trace, Stream, AllSound, PhaseAfter, SentIsValid, PacketsOf, FileMessages,
         Conversation;
    SenderIsDone(who, sender);
    AllIsRelayed(events, speaker, sender.spoken);
    EveryConversation(events, speaker);
    EveryRun(events);
    var s := Run(Start(), events);
    var t := Trace(s.log, speaker);
    TraceIsSound(s, speaker);
    if t != sender.spoken {
      var n := |sender.spoken|;
      assert t == sender.spoken + [t[n]];
      LastOfSound(t);
      SentIds(f);
      SomethingSaid(sender.spoken, who, f);
      SameSpeaker(t);
      PacketsAppend(sender.spoken, t[n], who.id, f.transferId);
      var packets := PacketsOf(sender.spoken, who.id, f.transferId);
      assert packets + [] == packets;
    }
  }

  lemma LastOfSound(t: seq<Message>)
    requires AllSound(t) && t != [] && t[|t| - 1].kind == LEAVE
    ensures t[|t| - 1].transferId == 0
  {
    hide IsSound;
    LeaveHasNoTransfer(t[|t| - 1]);
  }

  lemma SomethingSaid(spoken: seq<Message>, who: Identity, f: Sent)
    requires |who.name| <= NAME_MAX && |f.name| <= FILE_NAME_MAX
    requires PacketsOf(spoken, who.id, f.transferId) == FileMessages(who, f.transferId, f.name, f.content)
    ensures spoken != []
  {
    hide BeginMessage, ChunkMessages, EndMessage;
  }

  lemma SameSpeaker(t: seq<Message>)
    requires Conversation(t)
    ensures forall k :: 0 <= k < |t| ==> t[k].senderId == t[0].senderId
  {
    hide TransferInOrder, NameOf;
  }

  /** The packets a listener hears are those that had not been relayed when it joined. */
  lemma PacketsHeard(s: Relay, k: nat, speaker: nat, id: nat, transferId: nat)
    requires Listened(s, k, speaker)
    requires forall j :: 0 <= j < |s.log| ==> (s.log[j].message.senderId == id <==> s.log[j].connection == speaker)
    ensures var earlier, heard := Trace(s.log[..s.slots[k].since], speaker), HeardAt(s, k);
            && Trace(s.log, speaker) == earlier + FromSender(heard, id)
            && PacketsOf(Trace(s.log, speaker), id, transferId) ==
               PacketsOf(earlier, id, transferId) + PacketsOf(heard, id, transferId)
  {
    hide Trace, Heard, PacketsOf, FromSender;
    var slot, heard := s.slots[k], HeardAt(s, k);
    HeardFromSender(s.log, slot.since, slot.connection, speaker, id);
    PacketsFromSender(heard, id, transferId);
    PacketsOfParts(Trace(s.log[..slot.since], speaker), FromSender(heard, id), id, transferId);
  }

  /**
   A listener that joined before the file was announced, and has kept its connection, has the file, byte
   for byte.
   */
  lemma {:induction false} FileIsDelivered(who: Identity, sender: Sender, f: Sent, events: seq<Event>, speaker: nat,
                                           k: nat, pieces: seq<seq<byte>>, ownId: nat,
                                           disk: map<seq<byte>, seq<byte>>)
    requires Delivery(who, sender, f, events, speaker, k, pieces) && ownId != who.id
    requires JoinedInTime(Run(Start(), events), k, speaker, f)
    ensures var heard := HeardAt(Run(Start(), events), k);
            var p := FeedAll(ReceivedHandler(), Waiting(NewReceiver(ownId, disk), []), pieces);
            && (p.Waiting? ==> PathOf(f) in p.state.disk && p.state.disk[PathOf(f)] == f.content)
            && (OnlyTalkBesides(f, ownId, heard) ==> p.Waiting?)
  {
    hide HandleAll, FeedAll, Stream, Heard, Concat, Trace, Inv, SenderIsOk, SentIsValid, FileMessages, PacketsOf, FromSender,
         AllSound, SenderStays, StageIn, OnlyTalkBesides, PathOf, TableIsOk, IsAbsent, Conversation, Run, Arrived;
    var s, r := Run(Start(), events), NewReceiver(ownId, disk);
    var heard := HeardAt(s, k);
    EveryRun(events);
    ListenerGets(s, k, speaker, pieces, r);
    SpeakerIsRelayed(who, sender, f, events, speaker);
    SenderIsDone(who, sender);
    IdIsSpeaker(s, speaker, who.id);
    PacketsHeard(s, k, speaker, who.id, f.transferId);
    assert [] + PacketsOf(heard, who.id, f.transferId) == PacketsOf(heard, who.id, f.transferId);
    StageOfFile(f, who);
    assert StageIn(f, heard) == Some(Saved) by {
      StageIsOfPackets(f, heard);
    }
    NothingAfterLeaveIn(Trace(s.log[..s.slots[k].since], speaker), FromSender(heard, who.id));
    SentIds(f);
    LeavesAfterFile(f, heard);
    NewTableIsOk(ownId, disk, f);
    FileArrives(r, who, f, heard);
    if OnlyTalkBesides(f, ownId, heard) {
      FileSurelyArrives(r, who, f, heard);
    }
  }

  /**
   While nobody else is sending files, a listener keeps its connection if and only if it joined before
   the file was announced or after its last packet: in between, the first packet it hears ends it.
   */
  lemma {:induction false} ListenerIsKeptIff(who: Identity, sender: Sender, f: Sent, events: seq<Event>, speaker: nat,
                                             k: nat, pieces: seq<seq<byte>>, ownId: nat,
                                             disk: map<seq<byte>, seq<byte>>)
    requires Delivery(who, sender, f, events, speaker, k, pieces) && ownId != who.id
    requires OnlyTalkBesides(f, ownId, HeardAt(Run(Start(), events), k))
    ensures var s := Run(Start(), events);
            FeedAll(ReceivedHandler(), Waiting(NewReceiver(ownId, disk), []), pieces).Waiting? <==>
            JoinedInTime(s, k, speaker, f) || PacketsOf(HeardAt(s, k), f.senderId, f.transferId) == []
  {
    hide HandleAll, FeedAll, Stream, Heard, Concat, Trace, Inv, SenderIsOk, SentIsValid, FileMessages, PacketsOf, FromSender,
         AllSound, OnlyTalkBesides, TableIsOk, IsAbsent, Conversation, Run, Arrived;
    var s, r := Run(Start(), events), NewReceiver(ownId, disk);
    var heard := HeardAt(s, k);
    if JoinedInTime(s, k, speaker, f) {
      FileIsDelivered(who, sender, f, events, speaker, k, pieces, ownId, disk);
    } else {
      EveryRun(events);
      ListenerGets(s, k, speaker, pieces, r);
      SpeakerIsRelayed(who, sender, f, events, speaker);
      SenderIsDone(who, sender);
      IdIsSpeaker(s, speaker, who.id);
      PacketsHeard(s, k, speaker, who.id, f.transferId);
      var earlier := PacketsOf(Trace(s.log[..s.slots[k].since], speaker), who.id, f.transferId);
      var all := FileMessages(who, f.transferId, f.name, f.content);
      assert all[|earlier|..] == PacketsOf(heard, who.id, f.transferId);
      OneBeginning(who, f.transferId, f.name, f.content, |earlier|);
      NewTableIsOk(ownId, disk, f);
      KeptIffNothingHeard(r, f, heard);
    }
  }

  lemma NothingAfterLeaveIn(earlier: seq<Message>, said: seq<Message>)
    requires Conversation(earlier + said)
    ensures NothingAfterLeave(said)
  {
    hide TransferInOrder, NameOf;
    forall k | 0 <= k < |said| - 1 ensures said[k].kind != LEAVE {
      assert (earlier + said)[|earlier| + k] == said[k];
    }
  }

  lemma StageIsOfPackets(f: Sent, messages: seq<Message>)
    ensures StageIn(f, messages) == StageAfter(f, PacketsOf(messages, f.senderId, f.transferId))
  {
  }

  lemma NewTableIsOk(ownId: nat, disk: map<seq<byte>, seq<byte>>, f: Sent)
    ensures TableIsOk(NewReceiver(ownId, disk)) && IsAbsent(NewReceiver(ownId, disk), f)
    ensures Vacant in NewReceiver(ownId, disk).files
  {
    assert NewReceiver(ownId, disk).files[0] == Vacant;
  }
}
