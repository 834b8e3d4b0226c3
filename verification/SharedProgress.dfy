/** The producer's exit: what it leaves behind, and that it can be reached from everywhere. */
module SharedProgress {
  import opened SharedSpec
  import opened SharedRuns

  /** The producer has left, every block has been processed and nobody is registered. */
  ghost predicate IsOver(s: System) {
    s.producer.Exited? && AllProcessed(s.shared) && Registered(s) == {}
  }

  // ---------- what each process decides ----------

  /** The producer stops exactly when the shortest array does not fit; otherwise it takes up an array that fits. */
  lemma CheckDecides(config: Config, s: System, drawn: seq<Word>)
    requires 0 < config.minLength <= config.maxLength && Inv(config, s) && s.producer.Checking?
    ensures Next(config, s, ProducerCheck(drawn)) ==
            if BlockSize(config.minLength) > Remaining(s.shared)
            then s.(shared := s.shared.(done := true), producer := Draining)
            else if config.minLength <= |drawn| <= config.maxLength && BlockSize(|drawn|) <= Remaining(s.shared)
            then s.(producer := Holding(drawn)) else s
  {
    hide BlockSize, WorkersMatchBlocks, TakenAtMostOnce, BlocksHoldAppended, FinishedMeansOver, NobodyFailed, MaxFit;
    var fitting := MaxFit(Remaining(s.shared), config.maxLength);
    MaxFitIsMaxFitting(Remaining(s.shared), config.maxLength);
    if config.minLength <= fitting {
      BlockSizeMonotone(config.minLength, fitting);
    }
    if |drawn| <= fitting {
      BlockSizeMonotone(|drawn|, fitting);
    }
  }

  /** Whatever the consumers do meanwhile, the array drawn, and no other, is what is appended. */
  lemma {:induction false} DrawnIsAppended(config: Config, s: System, drawn: seq<Word>, steps: seq<Step>)
    requires config.minLength > 0 && Inv(config, s) && s.producer == Holding(drawn) && ProducerAppend !in steps
    ensures var t := Run(config, s, steps);
            && t.producer == Holding(drawn) && t.appended == s.appended
            && Next(config, t, ProducerAppend).appended == s.appended + [drawn]
            && Next(config, t, ProducerAppend).producer.Checking?
    decreases |steps|
  {
    hide Inv, BlockSize, FreeOffset, TakeOutcome, AfterTake, AppendOutcome;
    if steps == [] {
      AppendKeepsInv(config, s);
    } else {
      assert steps[0] in steps;
      NextKeepsInv(config, s, steps[0]);
      DrawnIsAppended(config, Next(config, s, steps[0]), drawn, steps[1..]);
    }
  }

  /** An idle consumer takes the first ready block; with none ready it leaves if all is over, and otherwise waits. */
  lemma TakeDecides(config: Config, s: System, who: nat)
    requires Inv(config, s) && who in s.consumers && s.consumers[who].Idle?
    ensures var t := Next(config, s, Take(who));
            && (forall i :: 0 <= i < |s.shared.blocks| && s.shared.blocks[i].state.Ready?
                            && (forall k :: 0 <= k < i ==> !s.shared.blocks[k].state.Ready?) ==>
                  && t.shared.blocks == s.shared.blocks[i := s.shared.blocks[i].(state := InProgress)]
                  && t.taken == s.taken + [Taking(who, i, s.shared.blocks[i].values)] && t.consumers[who].Working?
                  && t.consumers[who].values == s.shared.blocks[i].values)
            && ((forall i :: 0 <= i < |s.shared.blocks| ==> !s.shared.blocks[i].state.Ready?) ==>
                  if s.shared.done && AllProcessed(s.shared)
                  then t.consumers == s.consumers[who := Done] && t.shared.blocks == s.shared.blocks
                       && t.shared.active + 1 == s.shared.active
                  else t == s)
  {
    hide WorkersMatchBlocks, TakenAtMostOnce, BlocksHoldAppended, FinishedMeansOver, NobodyFailed, OffsetOf;
    assert who in Registered(s);
    var first := FirstReady(s.shared.blocks);
  }

  /** A consumer may register as long as the producer is there and the 32-bit counter has room. */
  lemma RegisterDecides(config: Config, s: System, who: nat)
    requires Inv(config, s) && who !in s.consumers
    ensures var t := Next(config, s, Register(who));
            if s.producer.Exited? || s.shared.active >= 0xFFFF_FFFF then t == s
            else t == s.(shared := s.shared.(active := s.shared.active + 1), consumers := s.consumers[who := Idle])
  {
    hide Inv;
  }

  /** Having stopped production, the producer leaves exactly when all is processed and nobody is registered. */
  lemma PollDecides(config: Config, s: System)
    requires Inv(config, s) && s.producer.Draining?
    ensures var t := Next(config, s, ProducerPoll);
            if AllProcessed(s.shared) && Registered(s) == {} then t == s.(producer := Exited) else t == s
  {
    hide WorkersMatchBlocks, TakenAtMostOnce, BlocksHoldAppended, FinishedMeansOver, NobodyFailed, ProducerConsistent;
    CountAtMostLength(s.shared.blocks);
  }

  // ---------- runs in two parts ----------

  lemma {:induction false} RunInTwo(config: Config, s: System, a: seq<Step>, b: seq<Step>)
    ensures Run(config, s, a + b) == Run(config, Run(config, s, a), b)
    decreases |a|
  {
    hide Next;
    if a == [] {
      assert a + b == b;
    } else {
      assert (a + b)[0] == a[0] && (a + b)[1..] == a[1..] + b;
      RunInTwo(config, Next(config, s, a[0]), a[1..], b);
    }
  }

  lemma RunCons(config: Config, s: System, step: Step, steps: seq<Step>)
    ensures Run(config, s, [step] + steps) == Run(config, Next(config, s, step), steps)
  {
    hide Next;
    assert ([step] + steps)[1..] == steps;
  }

  // ---------- what the exit means ----------

  /** Once the producer has left, no process can do anything. */
  lemma NothingMoves(config: Config, s: System, step: Step)
    requires Inv(config, s) && s.producer.Exited?
    ensures Next(config, s, step) == s && Registered(s) == {}
  {
    hide WorkersMatchBlocks, TakenAtMostOnce, BlocksHoldAppended, FinishedMeansOver, NobodyFailed;
    assert Registered(s) == {};
    if (step.Take? || step.Finish?) && step.who in s.consumers {
      assert step.who !in Registered(s);
    }
  }

  lemma {:induction false} NothingMovesAnyMore(config: Config, s: System, more: seq<Step>)
    requires Inv(config, s) && s.producer.Exited?
    ensures Run(config, s, more) == s
    decreases |more|
  {
    hide Inv, Next;
    if more != [] {
      NothingMoves(config, s, more[0]);
      NothingMovesAnyMore(config, s, more[1..]);
    }
  }

  /** Somebody took the i-th array appended. */
  ghost predicate WasTaken(s: System, i: nat) {
    i < |s.appended| && exists k :: 0 <= k < |s.taken| && s.taken[k] == Taking(s.taken[k].consumer, i, s.appended[i])
  }

  lemma AllWasTaken(config: Config, s: System)
    requires Inv(config, s) && AllProcessed(s.shared)
    ensures forall i :: 0 <= i < |s.appended| ==> WasTaken(s, i)
  {
    hide WorkersMatchBlocks, FinishedMeansOver, NobodyFailed, ProducerConsistent, OffsetOf;
    forall i | 0 <= i < |s.appended|
      ensures WasTaken(s, i)
    {
      assert s.shared.blocks[i].state.Processed?;
      var k :| 0 <= k < |s.taken| && s.taken[k].index == i;
    }
  }

  /**
   In a run in which the producer has left, every array appended was taken by exactly one consumer
   and processed, nobody is registered, and no continuation changes anything.
   */
  lemma ExitIsTheEnd(config: Config, size: nat, steps: seq<Step>, more: seq<Step>)
    requires config.minLength > 0 && size >= HEADER_SIZE && Run(config, Start(size), steps).producer.Exited?
    ensures var s := Run(config, Start(size), steps);
            && IsOver(s) && Run(config, Start(size), steps + more) == s
            && (forall i :: 0 <= i < |s.appended| ==> WasTaken(s, i))
            && (forall k, l :: 0 <= k < l < |s.taken| ==> s.taken[k].index != s.taken[l].index)
  {
    hide Run, Next, Inv, AllProcessed, WasTaken;
    EveryRun(config, size, steps);
    var s := Run(config, Start(size), steps);
    ExitMeansNothingPending(config, s);
    RunInTwo(config, Start(size), steps, more);
    NothingMovesAnyMore(config, s, more);
    AllWasTaken(config, s);
  }

  // ---------- the producer can stop producing ----------

  /** Some array of a given length. */
  function Drawn(n: nat): (values: seq<Word>)
    ensures |values| == n
  {
    seq(n, _ => 0)
  }

  lemma CheckMoves(config: Config, s: System)
    requires s.producer.Checking?
    ensures var t := Next(config, s, ProducerCheck(Drawn(config.minLength)));
            t.producer.Draining? || (t.producer.Holding? && t.appended == s.appended && t.shared == s.shared)
  {
    hide MaxFit;
  }

  lemma AppendMoves(config: Config, s: System)
    requires Inv(config, s) && s.producer.Holding?
    ensures var t := Next(config, s, ProducerAppend);
            t.producer.Checking? && |t.appended| == |s.appended| + 1 && t.shared.size == s.shared.size
  {
    hide Inv, BlockSize, FreeOffset;
    AppendKeepsInv(config, s);
  }

  lemma {:induction false} ProductionCanStop(config: Config, s: System) returns (steps: seq<Step>)
    requires config.minLength > 0 && Inv(config, s) && (s.producer.Checking? || s.producer.Holding?)
    ensures Inv(config, Run(config, s, steps)) && Run(config, s, steps).producer.Draining?
    decreases s.shared.size - |s.appended|, s.producer.Checking?
  {
    hide Inv, Next, Run;
    AppendsAreBounded(config, s);
    var step := if s.producer.Checking? then ProducerCheck(Drawn(config.minLength)) else ProducerAppend;
    var t := Next(config, s, step);
    NextKeepsInv(config, s, step);
    if s.producer.Checking? {
      CheckMoves(config, s);
    } else {
      AppendMoves(config, s);
    }
    AppendsAreBounded(config, t);
    if t.producer.Draining? {
      steps := [step] + [];
      RunNothing(config, t);
    } else {
      var rest := ProductionCanStop(config, t);
      steps := [step] + rest;
    }
    RunCons(config, s, step, steps[1..]);
  }

  lemma RunNothing(config: Config, s: System)
    ensures Run(config, s, []) == s
  {
  }

  // ---------- the blocks can be processed ----------

  /** What is left to do: a ready block has to be taken and finished, a taken one only finished. */
  function Work(blocks: seq<Block>): nat {
    if blocks == [] then 0
    else
      var state := blocks[|blocks| - 1].state;
      Work(blocks[..|blocks| - 1]) + if state.Ready? then 2 else if state.InProgress? then 1 else 0
  }

  lemma {:induction false} WorkAfterChange(blocks: seq<Block>, i: nat, state: State)
    requires i < |blocks|
    requires (blocks[i].state.Ready? && state.InProgress?) || (blocks[i].state.InProgress? && state.Processed?)
    ensures Work(blocks[i := blocks[i].(state := state)]) < Work(blocks)
  {
    var last := |blocks| - 1;
    var changed := blocks[i := blocks[i].(state := state)];
    if i == last {
      assert changed[..last] == blocks[..last];
    } else {
      WorkAfterChange(blocks[..last], i, state);
      assert changed[..last] == blocks[..last][i := blocks[i].(state := state)];
    }
  }

  ghost predicate SomebodyIdle(s: System) {
    exists c :: c in s.consumers && s.consumers[c].Idle?
  }

  lemma {:induction false} Unused(names: set<nat>) returns (who: nat)
    ensures who !in names && forall c :: c in names ==> c < who
    decreases |names|
  {
    if names == {} {
      who := 0;
    } else {
      var c :| c in names;
      var next := Unused(names - {c});
      who := if next > c then next else c + 1;
      forall d | d in names ensures d < who {
        assert d == c || d in names - {c};
      }
    }
  }

  lemma TakeMoves(s: System, who: nat)
    requires who in s.consumers && s.consumers[who].Idle?
    requires exists i :: 0 <= i < |s.shared.blocks| && s.shared.blocks[i].state.Ready?
    ensures TakeStep(s, who).producer == s.producer && Work(TakeStep(s, who).shared.blocks) < Work(s.shared.blocks)
  {
    hide Work;
    WorkAfterChange(s.shared.blocks, FirstReady(s.shared.blocks), InProgress);
  }

  lemma WorkerIsInRange(config: Config, s: System, who: nat)
    requires Inv(config, s) && who in s.consumers && s.consumers[who].Working?
    ensures s.consumers[who].index < |s.shared.blocks|
  {
    hide TakenAtMostOnce, BlocksHoldAppended, FinishedMeansOver, NobodyFailed, ProducerConsistent, OffsetOf;
  }

  lemma FinishMoves(config: Config, s: System, who: nat)
    requires Inv(config, s) && who in s.consumers && s.consumers[who].Working?
    ensures var t := FinishStep(s, who, s.consumers[who].index);
            t.producer == s.producer && Work(t.shared.blocks) < Work(s.shared.blocks)
  {
    hide Work, WorkersMatchBlocks, TakenAtMostOnce, BlocksHoldAppended, FinishedMeansOver, NobodyFailed, ProducerConsistent;
    WorkerIsInRange(config, s, who);
    FinishKeepsInv(config, s, who);
    WorkAfterChange(s.shared.blocks, s.consumers[who].index, Processed);
  }

  /** With nothing in progress and nobody idle, nobody is registered, so that a consumer can register. */
  lemma RegisterMoves(config: Config, s: System, who: nat)
    requires Inv(config, s) && who !in s.consumers && !SomebodyIdle(s)
    requires forall c :: c in s.consumers ==> !s.consumers[c].Working?
    ensures var t := RegisterStep(s, who);
            t.producer == s.producer && t.shared.blocks == s.shared.blocks && SomebodyIdle(t)
  {
    hide WorkersMatchBlocks, TakenAtMostOnce, BlocksHoldAppended, FinishedMeansOver, NobodyFailed, ProducerConsistent;
    assert Registered(s) == {};
    assert RegisterStep(s, who).consumers[who].Idle?;
  }

  /** One step nearer to all blocks being processed. */
  lemma WorkMoves(config: Config, s: System) returns (step: Step)
    requires config.minLength > 0 && Inv(config, s) && s.producer.Draining? && !AllProcessed(s.shared)
    ensures var t := Next(config, s, step);
            && Inv(config, t) && t.producer.Draining?
            && (Work(t.shared.blocks) < Work(s.shared.blocks)
                || (t.shared.blocks == s.shared.blocks && !SomebodyIdle(s) && SomebodyIdle(t)))
  {
    hide Inv, Work, TakeStep, FinishStep, RegisterStep, SomebodyIdle, AllProcessed;
    if who :| who in s.consumers && s.consumers[who].Working? {
      step := Finish(who);
      FinishMoves(config, s, who);
    } else {
      SomeReady(config, s);
      if SomebodyIdle(s) {
        var who := AnIdleOne(s);
        step := Take(who);
        TakeMoves(s, who);
      } else {
        var who := Unused(s.consumers.Keys);
        step := Register(who);
        RegisterMoves(config, s, who);
      }
    }
    NextKeepsInv(config, s, step);
  }

  lemma AnIdleOne(s: System) returns (who: nat)
    requires SomebodyIdle(s)
    ensures who in s.consumers && s.consumers[who].Idle?
  {
    who :| who in s.consumers && s.consumers[who].Idle?;
  }

  lemma SomeReady(config: Config, s: System)
    requires Inv(config, s) && !AllProcessed(s.shared) && forall c :: c in s.consumers ==> !s.consumers[c].Working?
    ensures exists i :: 0 <= i < |s.shared.blocks| && s.shared.blocks[i].state.Ready?
  {
    hide TakenAtMostOnce, BlocksHoldAppended, FinishedMeansOver, NobodyFailed, ProducerConsistent, OffsetOf;
    var i :| 0 <= i < |s.shared.blocks| && !s.shared.blocks[i].state.Processed?;
    if s.shared.blocks[i].state.InProgress? {
      assert false;
    }
  }

  lemma {:induction false} BlocksCanBeProcessed(config: Config, s: System) returns (steps: seq<Step>)
    requires config.minLength > 0 && Inv(config, s) && s.producer.Draining?
    ensures var t := Run(config, s, steps);
            Inv(config, t) && t.producer.Draining? && AllProcessed(t.shared)
    decreases Work(s.shared.blocks), !SomebodyIdle(s)
  {
    hide Inv, Next, Run, Work, SomebodyIdle, AllProcessed;
    if AllProcessed(s.shared) {
      steps := [];
      RunNothing(config, s);
    } else {
      var step := WorkMoves(config, s);
      var rest := BlocksCanBeProcessed(config, Next(config, s, step));
      steps := [step] + rest;
      RunCons(config, s, step, rest);
    }
  }

  // ---------- everybody can leave ----------

  /** With all blocks processed, whoever is registered is idle, and leaves at its next turn. */
  lemma LeavingMoves(config: Config, s: System) returns (who: nat)
    requires config.minLength > 0 && Inv(config, s) && s.producer.Draining? && AllProcessed(s.shared) && s.shared.active > 0
    ensures var t := Next(config, s, Take(who));
            && Inv(config, t) && t.producer.Draining? && t.shared.blocks == s.shared.blocks
            && t.shared.active == s.shared.active - 1
  {
    hide TakenAtMostOnce, BlocksHoldAppended, FinishedMeansOver, OffsetOf;
    if Registered(s) == {} {
      assert false;
    }
    who :| who in Registered(s);
    NextKeepsInv(config, s, Take(who));
  }

  lemma {:induction false} EverybodyCanLeave(config: Config, s: System) returns (steps: seq<Step>)
    requires config.minLength > 0 && Inv(config, s) && s.producer.Draining? && AllProcessed(s.shared)
    ensures Inv(config, Run(config, s, steps)) && IsOver(Run(config, s, steps))
    decreases s.shared.active
  {
    hide Inv, Next, Run;
    if s.shared.active == 0 {
      steps := [ProducerPoll] + [];
      PollEnds(config, s);
      RunCons(config, s, ProducerPoll, []);
      RunNothing(config, Next(config, s, ProducerPoll));
    } else {
      var who := LeavingMoves(config, s);
      var rest := EverybodyCanLeave(config, Next(config, s, Take(who)));
      steps := [Take(who)] + rest;
      RunCons(config, s, Take(who), rest);
    }
  }

  lemma PollEnds(config: Config, s: System)
    requires Inv(config, s) && s.producer.Draining? && AllProcessed(s.shared) && s.shared.active == 0
    ensures Inv(config, Next(config, s, ProducerPoll)) && IsOver(Next(config, s, ProducerPoll))
  {
    hide Inv;
    CountAtMostLength(s.shared.blocks);
    PollKeepsInv(config, s);
    ExitMeansNothingPending(config, Next(config, s, ProducerPoll));
  }

  // ---------- from everywhere ----------

  /**
   Whatever the processes have done so far, they can go on so that production stops, every block is
   processed, every consumer leaves and the producer exits: no reachable state is a dead end.
   */
  lemma CanAlwaysFinish(config: Config, size: nat, steps: seq<Step>)
    requires config.minLength > 0 && size >= HEADER_SIZE
    ensures exists more :: IsOver(Run(config, Start(size), steps + more))
  {
    hide Inv, Next, Run, IsOver;
    EveryRun(config, size, steps);
    var s := Run(config, Start(size), steps);
    var more := WayOut(config, s);
    RunInTwo(config, Start(size), steps, more);
  }

  lemma WayOut(config: Config, s: System) returns (more: seq<Step>)
    requires config.minLength > 0 && Inv(config, s)
    ensures IsOver(Run(config, s, more))
  {
    hide Inv, Next, Run, AllProcessed;
    if s.producer.Exited? {
      more := [];
      RunNothing(config, s);
      ExitMeansNothingPending(config, s);
    } else {
      NobodyHasFailed(config, s);
      var a, t := [], s;
      RunNothing(config, s);
      if !s.producer.Draining? {
        a := ProductionCanStop(config, s);
        t := Run(config, s, a);
      }
      var b := BlocksCanBeProcessed(config, t);
      var c := EverybodyCanLeave(config, Run(config, t, b));
      RunInTwo(config, t, b, c);
      RunInTwo(config, s, a, b + c);
      more := a + (b + c);
    }
  }

  lemma NobodyHasFailed(config: Config, s: System)
    requires Inv(config, s)
    ensures !s.producer.ProducerFailed?
  {
  }
}
