/**
 One producer and any number of consumers, interleaved at their critical sections in any order:
 the state machine, its invariant, and what the invariant says about every run.
 */
module SharedRuns {
  import opened SharedSpec

  /** Array lengths the producer draws from. */
  datatype Config = Config(minLength: nat, maxLength: nat)

  datatype Producer = Checking | Holding(values: seq<Word>) | Draining | Exited | ProducerFailed

  /** A consumer at work remembers the offset of its block and its copy of the values; `index` names the block. */
  datatype Consumer = Idle | Working(offset: nat, values: seq<Word>, index: nat) | Done | ConsumerFailed

  datatype Taking = Taking(consumer: nat, index: nat, values: seq<Word>)

  /** `appended` and `taken` record what was published and who took what. */
  datatype System = System(shared: Shared, producer: Producer, consumers: map<nat, Consumer>,
                           appended: seq<seq<Word>>, taken: seq<Taking>)

  datatype Step =
    | ProducerCheck(drawn: seq<Word>)
    | ProducerAppend
    | ProducerPoll
    | Register(who: nat)
    | Take(who: nat)
    | Finish(who: nat)

  function Start(size: nat): System {
    System(Shared([], false, 0, size), Checking, map[], [], [])
  }

  /** Find out how much fits; stop producing, or draw values of a length that fits. */
  function CheckStep(config: Config, s: System, drawn: seq<Word>): System {
    var fitting := MaxFit(Remaining(s.shared), config.maxLength);
    if fitting < config.minLength then s.(shared := s.shared.(done := true), producer := Draining)
    else if config.minLength <= |drawn| <= fitting then s.(producer := Holding(drawn))
    else s
  }

  function AppendStep(s: System, values: seq<Word>): System {
    if AppendOutcome(s.shared, values).Appended? then
      s.(shared := AfterAppend(s.shared, values), producer := Checking, appended := s.appended + [values])
    else s.(producer := ProducerFailed)
  }

  /** The producer leaves, and the segment with it, once nothing is pending and nobody is registered. */
  function PollStep(s: System): System {
    if CountProcessed(s.shared.blocks) == |s.shared.blocks| && s.shared.active == 0 then s.(producer := Exited) else s
  }

  function RegisterStep(s: System, who: nat): System {
    if s.shared.active < UINT32_RANGE - 1 then
      s.(shared := s.shared.(active := s.shared.active + 1), consumers := s.consumers[who := Idle])
    else s
  }

  function Leave(s: System, who: nat, as_: Consumer): System {
    s.(shared := s.shared.(active := if s.shared.active == 0 then 0 else s.shared.active - 1),
       consumers := s.consumers[who := as_])
  }

  function TakeStep(s: System, who: nat): System {
    match TakeOutcome(s.shared)
    case TakeOk(i) =>
      var values := s.shared.blocks[i].values;
      s.(shared := AfterTake(s.shared),
         consumers := s.consumers[who := Working(OffsetOf(s.shared.blocks, i), values, i)],
         taken := s.taken + [Taking(who, i, values)])
    case NoData => s
    case Finished => Leave(s, who, Done)
    case TakeError => Leave(s, who, ConsumerFailed)
  }

  function FinishStep(s: System, who: nat, index: nat): System {
    if index < |s.shared.blocks| && s.shared.blocks[index].state.InProgress? then
      s.(shared := WithState(s.shared, index, Processed), consumers := s.consumers[who := Idle])
    else Leave(s, who, ConsumerFailed)
  }

  /** One critical section; a step whose process is elsewhere does nothing. */
  function Next(config: Config, s: System, step: Step): System {
    match step
    case ProducerCheck(drawn) => if s.producer.Checking? then CheckStep(config, s, drawn) else s
    case ProducerAppend => if s.producer.Holding? then AppendStep(s, s.producer.values) else s
    case ProducerPoll => if s.producer.Draining? then PollStep(s) else s
    case Register(who) => if who !in s.consumers && !s.producer.Exited? then RegisterStep(s, who) else s
    case Take(who) => if who in s.consumers && s.consumers[who].Idle? then TakeStep(s, who) else s
    case Finish(who) =>
      if who in s.consumers && s.consumers[who].Working? then FinishStep(s, who, s.consumers[who].index) else s
  }

  function Run(config: Config, s: System, steps: seq<Step>): System
    decreases |steps|
  {
    if steps == [] then s else Run(config, Next(config, s, steps[0]), steps[1..])
  }

  // ---------- the invariant ----------

  function Registered(s: System): set<nat> {
    set c | c in s.consumers && (s.consumers[c].Idle? || s.consumers[c].Working?)
  }

  /** What was published is what the blocks hold. */
  ghost predicate BlocksHoldAppended(s: System) {
    && |s.appended| == |s.shared.blocks|
    && forall i :: 0 <= i < |s.appended| ==> s.shared.blocks[i].values == s.appended[i] && s.appended[i] != []
  }

  ghost predicate WorksOn(s: System, c: nat, i: nat) {
    c in s.consumers && s.consumers[c].Working? && s.consumers[c].index == i
  }

  /** Consumers at work and blocks in progress correspond one to one. */
  ghost predicate WorkersMatchBlocks(s: System) {
    && (forall c :: c in s.consumers && s.consumers[c].Working? ==>
          var w := s.consumers[c];
          && w.index < |s.shared.blocks| && s.shared.blocks[w.index].state.InProgress?
          && w.offset == OffsetOf(s.shared.blocks, w.index) && w.values == s.shared.blocks[w.index].values)
    && (forall c, d, i :: WorksOn(s, c, i) && WorksOn(s, d, i) ==> c == d)
    && (forall i :: 0 <= i < |s.shared.blocks| && s.shared.blocks[i].state.InProgress? ==> exists c :: WorksOn(s, c, i))
  }

  ghost predicate TakenAtMostOnce(s: System) {
    && (forall k :: 0 <= k < |s.taken| ==>
          && s.taken[k].index < |s.shared.blocks| && !s.shared.blocks[s.taken[k].index].state.Ready?
          && s.taken[k].values == s.shared.blocks[s.taken[k].index].values)
    && (forall k, l :: 0 <= k < l < |s.taken| ==> s.taken[k].index != s.taken[l].index)
    && (forall i :: 0 <= i < |s.shared.blocks| && !s.shared.blocks[i].state.Ready? ==>
          exists k :: 0 <= k < |s.taken| && s.taken[k].index == i)
  }

  ghost predicate NobodyFailed(s: System) {
    !s.producer.ProducerFailed? && forall c :: c in s.consumers ==> !s.consumers[c].ConsumerFailed?
  }

  ghost predicate ProducerConsistent(config: Config, s: System) {
    && Remaining(s.shared) >= 0
    && (s.shared.done <==> s.producer.Draining? || s.producer.Exited?)
    && (s.producer.Holding? ==>
          s.producer.values != [] && |s.producer.values| <= config.maxLength
          && BlockSize(|s.producer.values|) <= Remaining(s.shared))
    && (s.producer.Exited? ==> AllProcessed(s.shared) && s.shared.active == 0)
  }

  ghost predicate FinishedMeansOver(s: System) {
    (exists c :: c in s.consumers && s.consumers[c].Done?) ==> s.shared.done && AllProcessed(s.shared)
  }

  ghost predicate Inv(config: Config, s: System) {
    && BlocksHoldAppended(s) && WorkersMatchBlocks(s) && TakenAtMostOnce(s) && NobodyFailed(s)
    && ProducerConsistent(config, s) && FinishedMeansOver(s)
    && s.shared.active == |Registered(s)| && s.shared.active < UINT32_RANGE
  }

  // ---------- each step keeps the invariant ----------

  lemma CheckKeepsInv(config: Config, s: System, drawn: seq<Word>)
    requires config.minLength > 0 && Inv(config, s) && s.producer.Checking?
    ensures Inv(config, CheckStep(config, s, drawn))
  {
    var fitting := MaxFit(Remaining(s.shared), config.maxLength);
    MaxFitIsMaxFitting(Remaining(s.shared), config.maxLength);
    if config.minLength <= |drawn| <= fitting {
      BlockSizeMonotone(|drawn|, fitting);
    }
    var t := CheckStep(config, s, drawn);
    assert Registered(t) == Registered(s);
    assert forall c, i :: WorksOn(t, c, i) <==> WorksOn(s, c, i);
  }

  lemma AppendKeepsInv(config: Config, s: System)
    requires Inv(config, s) && s.producer.Holding?
    ensures Inv(config, AppendStep(s, s.producer.values))
    ensures AppendOutcome(s.shared, s.producer.values).Appended?
  {
    var b := Block(s.producer.values, Ready);
    var t := AppendStep(s, s.producer.values);
    var blocks, blocks' := s.shared.blocks, t.shared.blocks;
    assert blocks' == blocks + [b];
    forall i | 0 <= i <= |blocks|
      ensures OffsetOf(blocks', i) == OffsetOf(blocks, i)
    {
      SameOffsets(blocks, blocks', i);
    }
    assert Remaining(t.shared) == Remaining(s.shared) - BlockSize(|b.values|);
    assert Registered(t) == Registered(s);
    assert forall c, i :: WorksOn(t, c, i) <==> WorksOn(s, c, i);
  }

  lemma PollKeepsInv(config: Config, s: System)
    requires Inv(config, s) && s.producer.Draining?
    ensures Inv(config, PollStep(s))
  {
    CountAtMostLength(s.shared.blocks);
    assert Registered(PollStep(s)) == Registered(s);
    assert forall c, i :: WorksOn(PollStep(s), c, i) <==> WorksOn(s, c, i);
  }

  lemma RegisterKeepsInv(config: Config, s: System, who: nat)
    requires Inv(config, s) && who !in s.consumers && !s.producer.Exited?
    ensures Inv(config, RegisterStep(s, who))
  {
    var t := RegisterStep(s, who);
    if t != s {
      assert Registered(t) == Registered(s) + {who};
      assert forall c, i :: WorksOn(t, c, i) <==> WorksOn(s, c, i);
    }
  }

  /** Changing one block's state moves no block. */
  lemma OffsetsAfterChange(s: Shared, i: nat, state: State)
    requires i < |s.blocks|
    ensures forall k :: 0 <= k <= |s.blocks| ==> OffsetOf(WithState(s, i, state).blocks, k) == OffsetOf(s.blocks, k)
    ensures Remaining(WithState(s, i, state)) == Remaining(s)
  {
    forall k | 0 <= k <= |s.blocks|
      ensures OffsetOf(WithState(s, i, state).blocks, k) == OffsetOf(s.blocks, k)
    {
      SameOffsets(s.blocks, WithState(s, i, state).blocks, k);
    }
  }

  lemma ClaimKeepsWorkers(s: System, who: nat)
    requires WorkersMatchBlocks(s) && who in s.consumers && s.consumers[who].Idle? && TakeOutcome(s.shared).TakeOk?
    ensures WorkersMatchBlocks(TakeStep(s, who))
  {
    var i := FirstReady(s.shared.blocks);
    var t := TakeStep(s, who);
    OffsetsAfterChange(s.shared, i, InProgress);
    hide OffsetOf, FirstReady;
    assert WorksOn(t, who, i);
    assert forall c, j :: c != who ==> (WorksOn(t, c, j) <==> WorksOn(s, c, j));
    forall j | 0 <= j < |t.shared.blocks| && t.shared.blocks[j].state.InProgress?
      ensures exists c :: WorksOn(t, c, j)
    {
      if j != i {
        var c :| WorksOn(s, c, j);
        assert WorksOn(t, c, j);
      }
    }
  }

  lemma ClaimKeepsTaken(s: System, who: nat)
    requires TakenAtMostOnce(s) && TakeOutcome(s.shared).TakeOk?
    ensures TakenAtMostOnce(TakeStep(s, who))
  {
    var i := FirstReady(s.shared.blocks);
    var t := TakeStep(s, who);
    hide OffsetOf, FirstReady;
    assert t.taken[|s.taken|].index == i;
    forall j | 0 <= j < |t.shared.blocks| && !t.shared.blocks[j].state.Ready?
      ensures exists k :: 0 <= k < |t.taken| && t.taken[k].index == j
    {
      if j != i {
        var k :| 0 <= k < |s.taken| && s.taken[k].index == j;
        assert t.taken[k].index == j;
      }
    }
  }

  lemma LeaveKeepsInv(config: Config, s: System, who: nat)
    requires Inv(config, s) && who in s.consumers && s.consumers[who].Idle? && TakeOutcome(s.shared).Finished?
    ensures Inv(config, Leave(s, who, Done))
  {
    var t := Leave(s, who, Done);
    assert who in Registered(s);
    assert Registered(t) == Registered(s) - {who};
    assert forall c, j :: WorksOn(t, c, j) <==> WorksOn(s, c, j);
  }

  lemma TakeKeepsInv(config: Config, s: System, who: nat)
    requires Inv(config, s) && who in s.consumers && s.consumers[who].Idle?
    ensures Inv(config, TakeStep(s, who))
  {
    assert who in Registered(s);
    match TakeOutcome(s.shared)
    case TakeOk(i) =>
      var t := TakeStep(s, who);
      ClaimKeepsWorkers(s, who);
      ClaimKeepsTaken(s, who);
      OffsetsAfterChange(s.shared, i, InProgress);
      assert Registered(t) == Registered(s);
    case NoData =>
    case Finished => LeaveKeepsInv(config, s, who);
  }

  lemma FinishKeepsWorkers(s: System, who: nat)
    requires WorkersMatchBlocks(s) && who in s.consumers && s.consumers[who].Working?
    ensures WorkersMatchBlocks(FinishStep(s, who, s.consumers[who].index))
  {
    var i := s.consumers[who].index;
    var t := FinishStep(s, who, i);
    OffsetsAfterChange(s.shared, i, Processed);
    hide OffsetOf;
    assert WorksOn(s, who, i);
    assert forall c, j :: WorksOn(t, c, j) <==> WorksOn(s, c, j) && c != who;
    forall c | c in t.consumers && t.consumers[c].Working?
      ensures t.consumers[c].index != i
    {
      assert WorksOn(s, c, t.consumers[c].index);
    }
    forall j | 0 <= j < |t.shared.blocks| && t.shared.blocks[j].state.InProgress?
      ensures exists c :: WorksOn(t, c, j)
    {
      var c :| WorksOn(s, c, j);
      assert WorksOn(t, c, j);
    }
  }

  lemma FinishKeepsTaken(s: System, who: nat, i: nat)
    requires TakenAtMostOnce(s) && i < |s.shared.blocks| && s.shared.blocks[i].state.InProgress?
    ensures TakenAtMostOnce(FinishStep(s, who, i))
  {
    var t := FinishStep(s, who, i);
    assert forall j :: 0 <= j < |t.shared.blocks| ==>
             (t.shared.blocks[j].state.Ready? <==> s.shared.blocks[j].state.Ready?)
             && t.shared.blocks[j].values == s.shared.blocks[j].values;
  }

  /** The consumer that took a block can always finish it. */
  lemma FinishKeepsInv(config: Config, s: System, who: nat)
    requires Inv(config, s) && who in s.consumers && s.consumers[who].Working?
    ensures Inv(config, FinishStep(s, who, s.consumers[who].index))
    ensures s.shared.blocks[s.consumers[who].index].state.InProgress?
  {
    hide OffsetOf, TakenAtMostOnce;
    var i := s.consumers[who].index;
    var t := FinishStep(s, who, i);
    FinishKeepsWorkers(s, who);
    FinishKeepsTaken(s, who, i);
    OffsetsAfterChange(s.shared, i, Processed);
    hide WorkersMatchBlocks;
    assert who in Registered(s);
    assert Registered(t) == Registered(s);
  }

  lemma {:induction false} NextKeepsInv(config: Config, s: System, step: Step)
    requires config.minLength > 0 && Inv(config, s)
    ensures Inv(config, Next(config, s, step))
  {
    hide Inv;
    match step
    case ProducerCheck(drawn) => if s.producer.Checking? { CheckKeepsInv(config, s, drawn); }
    case ProducerAppend => if s.producer.Holding? { AppendKeepsInv(config, s); }
    case ProducerPoll => if s.producer.Draining? { PollKeepsInv(config, s); }
    case Register(who) => if who !in s.consumers && !s.producer.Exited? { RegisterKeepsInv(config, s, who); }
    case Take(who) => if who in s.consumers && s.consumers[who].Idle? { TakeKeepsInv(config, s, who); }
    case Finish(who) => if who in s.consumers && s.consumers[who].Working? { FinishKeepsInv(config, s, who); }
  }

  lemma {:induction false} RunKeepsInv(config: Config, s: System, steps: seq<Step>)
    requires config.minLength > 0 && Inv(config, s)
    ensures Inv(config, Run(config, s, steps))
    decreases |steps|
  {
    hide Inv;
    if steps != [] {
      NextKeepsInv(config, s, steps[0]);
      RunKeepsInv(config, Next(config, s, steps[0]), steps[1..]);
    }
  }

  // ---------- what every run satisfies ----------

  /**
   In every interleaving: no process fails, no block is taken twice, the taker got the values that
   were appended, a block is ready exactly until it is taken, and the active counter counts the
   registered consumers.
   */
  lemma EveryRun(config: Config, size: nat, steps: seq<Step>)
    requires config.minLength > 0 && size >= HEADER_SIZE
    ensures var s := Run(config, Start(size), steps);
            && Inv(config, s) && NobodyFailed(s)
            && |s.appended| == |s.shared.blocks|
            && (forall k, l :: 0 <= k < l < |s.taken| ==> s.taken[k].index != s.taken[l].index)
            && (forall k :: 0 <= k < |s.taken| ==>
                  s.taken[k].index < |s.appended| && s.taken[k].values == s.appended[s.taken[k].index])
            && (forall i :: 0 <= i < |s.shared.blocks| ==>
                  (s.shared.blocks[i].state.Ready? <==> forall k :: 0 <= k < |s.taken| ==> s.taken[k].index != i))
            && s.shared.active == |Registered(s)|
  {
    assert Registered(Start(size)) == {};
    assert Inv(config, Start(size));
    hide Run;
    RunKeepsInv(config, Start(size), steps);
  }

  /** Appending is over once production has stopped. */
  lemma DoneIsFinal(config: Config, s: System, step: Step)
    requires Inv(config, s) && s.shared.done && AllProcessed(s.shared)
    ensures var t := Next(config, s, step);
            t.shared.blocks == s.shared.blocks && t.shared.done && t.appended == s.appended && t.taken == s.taken
  {
    hide OffsetOf, BlockSize, TakenAtMostOnce, BlocksHoldAppended, FinishedMeansOver;
    CountAtMostLength(s.shared.blocks);
  }

  /**
   A consumer is told to finish only when every block has been processed and nothing can be
   appended any more: from then on no run adds, takes or changes a block.
   */
  lemma {:induction false} FinishedIsFinal(config: Config, s: System, who: nat, more: seq<Step>)
    requires config.minLength > 0 && Inv(config, s) && who in s.consumers && s.consumers[who].Done?
    ensures AllProcessed(s.shared) && s.shared.done
    ensures forall values :: AppendOutcome(s.shared, values) == AppendError
    ensures var t := Run(config, s, more);
            t.shared.blocks == s.shared.blocks && t.appended == s.appended && t.taken == s.taken
    decreases |more|
  {
    hide Next, OffsetOf, TakenAtMostOnce, WorkersMatchBlocks, BlocksHoldAppended;
    if more != [] {
      var next := Next(config, s, more[0]);
      DoneIsFinal(config, s, more[0]);
      NextKeepsInv(config, s, more[0]);
      DoneStaysDone(config, s, more[0], who);
      FinishedIsFinal(config, next, who, more[1..]);
    }
  }

  lemma DoneStaysDone(config: Config, s: System, step: Step, who: nat)
    requires who in s.consumers && s.consumers[who].Done?
    ensures var t := Next(config, s, step); who in t.consumers && t.consumers[who].Done?
  {
  }

  /** The producer removes the segment only when all blocks are processed and no consumer is registered. */
  lemma ExitMeansNothingPending(config: Config, s: System)
    requires Inv(config, s) && s.producer.Exited?
    ensures AllProcessed(s.shared) && Registered(s) == {}
  {
  }

  /** A consumer that finds nothing to take waits for something: a block in progress, or the producer. */
  lemma NoDataMeansPending(s: Shared)
    requires TakeOutcome(s).NoData?
    ensures !s.done || exists i :: 0 <= i < |s.blocks| && s.blocks[i].state.InProgress?
  {
    if s.done {
      var i :| 0 <= i < |s.blocks| && !s.blocks[i].state.Processed?;
      assert !s.blocks[i].state.Ready?;
    }
  }

  /** Each append eats at least one block struct of a finite segment, so production ends. */
  lemma AppendsAreBounded(config: Config, s: System)
    requires Inv(config, s)
    ensures HEADER_SIZE + BLOCK_STRUCT_SIZE * |s.appended| <= s.shared.size
  {
    OffsetsGrow(s.shared.blocks, |s.shared.blocks|);
  }
}
