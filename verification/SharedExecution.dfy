/** The critical sections run on a real segment follow the state machine step by step. */
module SharedExecution {
  import opened SharedSpec
  import opened SharedSegment
  import opened SharedRuns

  predicate Fits32(config: Config) {
    0 < config.minLength < UINT32_RANGE && config.maxLength < UINT32_RANGE
  }

  /** One process passes through one critical section of the segment. */
  method Perform(config: Config, segment: Segment, s: System, step: Step) returns (t: System)
    requires Fits32(config) && segment.Valid() && Inv(config, s) && segment.View() == s.shared
    modifies segment, segment.words
    ensures t == Next(config, s, step) && Inv(config, t)
    ensures segment.Valid() && segment.View() == t.shared
  {
    hide Inv, Next, Segment.Valid;
    NextKeepsInv(config, s, step);
    t := Next(config, s, step);
    match step
    case ProducerCheck(drawn) => PerformCheck(config, segment, s, drawn);
    case ProducerAppend => PerformAppend(config, segment, s);
    case ProducerPoll => t := PerformPoll(config, segment, s);
    case Register(who) => PerformRegister(config, segment, s, who);
    case Take(who) => PerformTake(config, segment, s, who);
    case Finish(who) => PerformFinish(config, segment, s, who);
  }

  /** The producer leaves if and only if the segment says so. */
  method PerformPoll(config: Config, segment: Segment, s: System) returns (t: System)
    requires segment.Valid() && segment.View() == s.shared
    ensures t == Next(config, s, Step.ProducerPoll) && t.shared == s.shared
  {
    hide Segment.Valid;
    t := s;
    if s.producer.Draining? {
      var finished := segment.ProcessingFinished(segment.segmentSize);
      CountAtMostLength(s.shared.blocks);
      if finished {
        t := s.(producer := Exited);
      }
    }
  }

  method PerformCheck(config: Config, segment: Segment, s: System, drawn: seq<Word>)
    requires Fits32(config) && segment.Valid() && segment.View() == s.shared
    modifies segment
    ensures segment.Valid() && segment.View() == Next(config, s, ProducerCheck(drawn)).shared
  {
    hide Segment.Valid, MaxFit;
    if s.producer.Checking? {
      var fitting, finished := segment.CheckSpace(config.minLength, config.maxLength);
    }
  }

  method PerformAppend(config: Config, segment: Segment, s: System)
    requires Fits32(config) && segment.Valid() && Inv(config, s) && segment.View() == s.shared
    modifies segment, segment.words
    ensures segment.Valid() && segment.View() == Next(config, s, Step.ProducerAppend).shared
  {
    hide Segment.Valid, OffsetOf, WorkersMatchBlocks, TakenAtMostOnce;
    if s.producer.Holding? {
      AppendKeepsInv(config, s);
      var result := segment.AppendBlock(s.producer.values);
      assert result.Appended?;
    }
  }

  method PerformRegister(config: Config, segment: Segment, s: System, who: nat)
    requires segment.Valid() && segment.View() == s.shared
    modifies segment
    ensures segment.Valid() && segment.View() == Next(config, s, Step.Register(who)).shared
  {
    hide Segment.Valid;
    if who !in s.consumers && !s.producer.Exited? {
      var registered := segment.Register();
    }
  }

  method PerformTake(config: Config, segment: Segment, s: System, who: nat)
    requires segment.Valid() && Inv(config, s) && segment.View() == s.shared
    modifies segment, segment.words
    ensures segment.Valid() && segment.View() == Next(config, s, Step.Take(who)).shared
  {
    hide Segment.Valid, OffsetOf, FirstReady, TakeOutcome, AfterTake, WorkersMatchBlocks, TakenAtMostOnce;
    if who in s.consumers && s.consumers[who].Idle? {
      assert who in Registered(s);
      NoTakeNoChange(s.shared);
      var result, values, offset := segment.TakeBlock(segment.segmentSize);
      if result.TakeOk? {
        assert Working(offset, values, result.index) == TakeStep(s, who).consumers[who];
      } else if result.Finished? {
        segment.Deregister();
      }
    }
  }

  lemma NoTakeNoChange(s: Shared)
    ensures !TakeOutcome(s).TakeOk? ==> AfterTake(s) == s
    ensures TakeOutcome(s).TakeOk? ==>
              var i := TakeOutcome(s).index;
              && i < |s.blocks| && AfterTake(s) == WithState(s, i, InProgress)
              && OffsetOf(AfterTake(s).blocks, i) == OffsetOf(s.blocks, i)
  {
    if TakeOutcome(s).TakeOk? {
      OffsetsAfterChange(s, FirstReady(s.blocks), InProgress);
    }
  }

  method PerformFinish(config: Config, segment: Segment, s: System, who: nat)
    requires segment.Valid() && Inv(config, s) && segment.View() == s.shared
    modifies segment, segment.words
    ensures segment.Valid() && segment.View() == Next(config, s, Step.Finish(who)).shared
  {
    hide Segment.Valid, OffsetOf, TakenAtMostOnce;
    if who in s.consumers && s.consumers[who].Working? {
      var w := s.consumers[who];
      FinishKeepsInv(config, s, who);
      var finished := segment.FinishBlock(segment.segmentSize, w.offset, w.index);
      assert finished;
    }
  }

  /** A whole run on a fresh segment. */
  method Execute(config: Config, size: nat, steps: seq<Step>) returns (segment: Segment, s: System)
    requires Fits32(config) && HEADER_SIZE <= size < UINT64_RANGE
    ensures s == Run(config, Start(size), steps) && Inv(config, s)
    ensures segment.Valid() && segment.View() == s.shared
  {
    hide Inv, Next, Segment.Valid;
    EveryRun(config, size, []);
    segment := new Segment(size);
    s := Start(size);
    var i := 0;
    while i < |steps|
      invariant 0 <= i <= |steps|
      invariant Inv(config, s) && segment.Valid() && segment.View() == s.shared && fresh(segment) && fresh(segment.words)
      invariant Run(config, Start(size), steps) == Run(config, s, steps[i..])
    {
      assert steps[i..][0] == steps[i] && steps[i..][1..] == steps[i + 1..];
      s := Perform(config, segment, s, steps[i]);
      i := i + 1;
    }
  }
}
