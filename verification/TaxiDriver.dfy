/** The taxi driver's task timer: a deadline on a monotonic clock of seconds and nanoseconds. */
module TaxiDriver {
  import opened Bytes
  import opened Wrappers

  const BILLION := 1_000_000_000

  const HELLO := 1
  const SEND_TASK := 2
  const GET_STATUS := 3
  const SHUTDOWN := 4
  const TASK_ACCEPTED := 5
  const STATUS_AVAILABLE := 6
  const STATUS_BUSY := 7
  const ERROR := 8

  const INVALID_MESSAGE := 1
  const INVALID_TIMER := 2

  /** struct timespec. */
  datatype Time = Time(seconds: int, nanoseconds: int)

  predicate IsTime(t: Time) {
    0 <= t.nanoseconds < BILLION
  }

  function Nanos(t: Time): int {
    t.seconds * BILLION + t.nanoseconds
  }

  datatype Message = Message(kind: nat, requestId: nat, pid: nat, timer: nat)

  // ---------- arithmetic on times ----------

  /** compare_time orders times as the nanoseconds they stand for. */
  method CompareTime(left: Time, right: Time) returns (order: int)
    requires IsTime(left) && IsTime(right)
    ensures order == if Nanos(left) < Nanos(right) then -1 else if Nanos(left) > Nanos(right) then 1 else 0
  {
    if left.seconds != right.seconds {
      if left.seconds < right.seconds {
        SecondsDecide(left, right);
        return -1;
      }
      SecondsDecide(right, left);
      return 1;
    }
    if left.nanoseconds != right.nanoseconds {
      return if left.nanoseconds < right.nanoseconds then -1 else 1;
    }
    order := 0;
  }

  lemma SecondsDecide(a: Time, b: Time)
    requires IsTime(a) && IsTime(b) && a.seconds < b.seconds
    ensures Nanos(a) < Nanos(b)
  {
  }

  /** Whole seconds, rounded up. */
  function CeilSeconds(nanos: int): int {
    (nanos + BILLION - 1) / BILLION
  }

  /** That is the least number of seconds that covers the time. */
  lemma CeilIsLeast(nanos: int, k: int)
    ensures nanos <= k * BILLION <==> CeilSeconds(nanos) <= k
  {
  }

  /** remaining_seconds. */
  method RemainingSeconds(deadline: Time, now: Time) returns (r: nat)
    requires IsTime(deadline) && IsTime(now)
    ensures var left := CeilSeconds(Nanos(deadline) - Nanos(now));
            r == if left <= 0 then 0 else if left > UINT32_RANGE - 1 then UINT32_RANGE - 1 else left
  {
    var seconds := deadline.seconds - now.seconds;
    var nanoseconds := deadline.nanoseconds - now.nanoseconds;
    CeilOfParts(seconds, nanoseconds);
    if nanoseconds > 0 {
      seconds := seconds + 1;
    } else if nanoseconds < 0 {
      seconds := seconds - 1;
      seconds := seconds + 1;
    }
    if seconds <= 0 {
      return 0;
    }
    if seconds > UINT32_RANGE - 1 {
      return UINT32_RANGE - 1;
    }
    r := seconds;
  }

  lemma CeilOfParts(seconds: int, nanoseconds: int)
    requires -BILLION < nanoseconds < BILLION
    ensures CeilSeconds(seconds * BILLION + nanoseconds) == if nanoseconds > 0 then seconds + 1 else seconds
  {
  }

  /** make_timeout: microseconds, rounded down, so that the wait ends less than one early. */
  method MakeTimeout(deadline: Time, now: Time) returns (seconds: int, micros: int)
    requires IsTime(deadline) && IsTime(now)
    ensures 0 <= seconds && 0 <= micros < 1_000_000
    ensures var left, wait := Nanos(deadline) - Nanos(now), (seconds * 1_000_000 + micros) * 1000;
            if left >= 0 then wait <= left < wait + 1000 else wait == 0
  {
    seconds := deadline.seconds - now.seconds;
    var nanoseconds := deadline.nanoseconds - now.nanoseconds;
    if nanoseconds < 0 {
      seconds, nanoseconds := seconds - 1, nanoseconds + BILLION;
    }
    if seconds < 0 {
      seconds, nanoseconds := 0, 0;
    }
    micros := nanoseconds / 1000;
  }

  // ---------- the driver as a state machine ----------

  datatype Task = Task(at: Time, timer: nat)

  /** `tasks` records what was accepted and when. */
  datatype State = State(busy: bool, deadline: Time, tasks: seq<Task>, running: bool)

  function Updated(s: State, now: Time): State {
    if s.busy && Nanos(now) >= Nanos(s.deadline) then s.(busy := false) else s
  }

  function StatusReply(s: State, pid: nat, requestId: nat, now: Time): Message {
    if s.busy then
      var left := CeilSeconds(Nanos(s.deadline) - Nanos(now));
      Message(STATUS_BUSY, requestId, pid,
              if left <= 0 then 0 else if left > UINT32_RANGE - 1 then UINT32_RANGE - 1 else left)
    else Message(STATUS_AVAILABLE, requestId, pid, 0)
  }

  function Handle(state: State, pid: nat, now: Time, m: Message): (r: (State, Option<Message>)) {
    var s := Updated(state, now);
    if m.kind == SEND_TASK then
      if s.busy then (s, Some(StatusReply(s, pid, m.requestId, now)))
      else if m.timer == 0 then (s, Some(Message(ERROR, m.requestId, pid, INVALID_TIMER)))
      else
        (s.(busy := true, deadline := now.(seconds := now.seconds + m.timer), tasks := s.tasks + [Task(now, m.timer)]),
         Some(Message(TASK_ACCEPTED, m.requestId, pid, m.timer)))
    else if m.kind == GET_STATUS then (s, Some(StatusReply(s, pid, m.requestId, now)))
    else if m.kind == SHUTDOWN then (s.(running := false), None)
    else (s, Some(Message(ERROR, m.requestId, pid, INVALID_MESSAGE)))
  }

  /** The clock is read when the loop turns and when a message is handled. */
  datatype Event = Turn(now: Time) | Arrives(now: Time, message: Message)

  function Step(s: State, pid: nat, event: Event): State {
    match event
    case Turn(now) => Updated(s, now)
    case Arrives(now, m) => if s.running then Handle(s, pid, now, m).0 else s
  }

  const START := State(false, Time(0, 0), [], true)

  function RunAll(pid: nat, events: seq<Event>): State {
    if events == [] then START else Step(RunAll(pid, events[..|events| - 1]), pid, events[|events| - 1])
  }

  /** The reply to the last event of a run, if it is a message that calls for one. */
  function ReplyTo(pid: nat, events: seq<Event>): Option<Message>
    requires events != []
  {
    var s, e := RunAll(pid, events[..|events| - 1]), events[|events| - 1];
    if e.Arrives? && s.running then Handle(s, pid, e.now, e.message).1 else None
  }

  /** All replies of a run. */
  function RepliesIn(pid: nat, events: seq<Event>): seq<Message> {
    if events == [] then []
    else RepliesIn(pid, events[..|events| - 1]) + if ReplyTo(pid, events).Some? then [ReplyTo(pid, events).value] else []
  }

  /** CLOCK_MONOTONIC never goes back; a timer is a 32-bit number. */
  predicate IsRun(events: seq<Event>) {
    && (forall e :: e in events ==> IsTime(e.now) && (e.Arrives? ==> e.message.timer < UINT32_RANGE))
    && (forall i, j :: 0 <= i < j < |events| ==> Nanos(events[i].now) <= Nanos(events[j].now))
  }

  // ---------- what it promises ----------

  /** Whether the last accepted task is still going on, going by the tasks alone. */
  predicate Occupied(tasks: seq<Task>, now: Time) {
    tasks != [] && Nanos(now) < Nanos(tasks[|tasks| - 1].at) + tasks[|tasks| - 1].timer * BILLION
  }

  /** The reply the tasks accepted so far call for; no state, no deadline. */
  function ReplyFor(tasks: seq<Task>, pid: nat, now: Time, m: Message): Option<Message> {
    if m.kind == SHUTDOWN then None
    else if m.kind != SEND_TASK && m.kind != GET_STATUS then Some(Message(ERROR, m.requestId, pid, INVALID_MESSAGE))
    else if Occupied(tasks, now) then
      var last := tasks[|tasks| - 1];
      var left := CeilSeconds(Nanos(last.at) + last.timer * BILLION - Nanos(now));
      Some(Message(STATUS_BUSY, m.requestId, pid, if left > 0 then left else 0))
    else if m.kind == GET_STATUS then Some(Message(STATUS_AVAILABLE, m.requestId, pid, 0))
    else if m.timer == 0 then Some(Message(ERROR, m.requestId, pid, INVALID_TIMER))
    else Some(Message(TASK_ACCEPTED, m.requestId, pid, m.timer))
  }

  /** One task at a time: each has had the seconds of its timer before a later one is accepted. */
  predicate OneAtATime(tasks: seq<Task>) {
    forall i, j :: 0 <= i < j < |tasks| ==> Nanos(tasks[i].at) + tasks[i].timer * BILLION <= Nanos(tasks[j].at)
  }

  /** When a task is over. */
  function End(task: Task): int {
    Nanos(task.at) + task.timer * BILLION
  }

  lemma Later(now: Time, timer: nat)
    ensures Nanos(now.(seconds := now.seconds + timer)) == Nanos(now) + timer * BILLION
  {
  }

  predicate StateIsOk(s: State, seen: int) {
    && IsTime(s.deadline) && OneAtATime(s.tasks)
    && (forall i :: 0 <= i < |s.tasks| ==>
          IsTime(s.tasks[i].at) && 1 <= s.tasks[i].timer < UINT32_RANGE && Nanos(s.tasks[i].at) <= seen)
    && (forall i :: 0 <= i < |s.tasks| - 1 ==> End(s.tasks[i]) <= seen)
    && (if s.busy then s.tasks != [] && Nanos(s.deadline) == End(s.tasks[|s.tasks| - 1])
        else s.tasks != [] ==> End(s.tasks[|s.tasks| - 1]) <= seen)
  }

  lemma UpdatedIsOk(s: State, seen: int, now: Time)
    requires StateIsOk(s, seen) && IsTime(now) && seen <= Nanos(now)
    ensures StateIsOk(Updated(s, now), Nanos(now)) && (Updated(s, now).busy <==> Occupied(s.tasks, now))
    ensures Updated(s, now).tasks == s.tasks
  {
    hide Nanos;
  }

  /** What a status says of the time left lies between one second and the whole timer. */
  lemma TimeLeft(task: Task, now: Time)
    requires IsTime(task.at) && IsTime(now) && task.timer >= 1
    requires Nanos(task.at) <= Nanos(now) < End(task)
    ensures 1 <= CeilSeconds(End(task) - Nanos(now)) <= task.timer
  {
    CeilIsLeast(End(task) - Nanos(now), 0);
    CeilIsLeast(End(task) - Nanos(now), task.timer);
  }

  lemma AcceptIsOk(s: State, now: Time, timer: nat)
    requires StateIsOk(s, Nanos(now)) && !s.busy && IsTime(now) && 1 <= timer < UINT32_RANGE
    ensures var task := Task(now, timer);
            StateIsOk(s.(busy := true, deadline := now.(seconds := now.seconds + timer), tasks := s.tasks + [task]),
                      Nanos(now))
  {
    hide Nanos;
    Later(now, timer);
    var tasks := s.tasks + [Task(now, timer)];
    forall i, j | 0 <= i < j < |tasks| ensures End(tasks[i]) <= Nanos(tasks[j].at) {
      if j == |s.tasks| {
        assert tasks[i] == s.tasks[i] && End(s.tasks[i]) <= Nanos(now);
      }
    }
  }

  lemma HandleStateIsOk(s: State, seen: int, pid: nat, now: Time, m: Message)
    requires StateIsOk(s, seen) && IsTime(now) && seen <= Nanos(now) && m.timer < UINT32_RANGE
    ensures StateIsOk(Handle(s, pid, now, m).0, Nanos(now))
  {
    hide StateIsOk, Nanos, CeilSeconds, Updated;
    UpdatedIsOk(s, seen, now);
    var u := Updated(s, now);
    if m.kind == SEND_TASK && !u.busy && m.timer != 0 {
      AcceptIsOk(u, now, m.timer);
    }
    StoppingIsOk(u, Nanos(now));
  }

  lemma StoppingIsOk(s: State, seen: int)
    requires StateIsOk(s, seen)
    ensures StateIsOk(s.(running := false), seen)
  {
    hide Nanos;
  }

  lemma {:induction false} HandleIsOk(s: State, seen: int, pid: nat, now: Time, m: Message)
    requires StateIsOk(s, seen) && IsTime(now) && seen <= Nanos(now) && m.timer < UINT32_RANGE
    ensures StateIsOk(Handle(s, pid, now, m).0, Nanos(now))
    ensures Handle(s, pid, now, m).1 == ReplyFor(s.tasks, pid, now, m)
  {
    hide StateIsOk, Nanos, CeilSeconds;
    HandleStateIsOk(s, seen, pid, now, m);
    UpdatedIsOk(s, seen, now);
    if Occupied(s.tasks, now) {
      LastTaskIsOk(s, seen);
      BusyDeadline(Updated(s, now), Nanos(now));
      TimeLeft(s.tasks[|s.tasks| - 1], now);
    }
  }

  lemma BusyDeadline(s: State, seen: int)
    requires StateIsOk(s, seen) && s.busy
    ensures s.tasks != [] && Nanos(s.deadline) == End(s.tasks[|s.tasks| - 1]) && s.tasks[|s.tasks| - 1].timer < UINT32_RANGE
  {
    hide Nanos;
  }

  function SeenBy(events: seq<Event>): int {
    if events == [] then 0 else Nanos(events[|events| - 1].now)
  }

  lemma {:induction false} RunIsOk(pid: nat, events: seq<Event>)
    requires IsRun(events)
    ensures StateIsOk(RunAll(pid, events), SeenBy(events))
    decreases |events|
  {
    hide StateIsOk, Handle, Nanos, Updated;
    if events == [] {
      StartIsOk();
    } else {
      var before, e := events[..|events| - 1], events[|events| - 1];
      RunIsOk(pid, before);
      assert e in events;
      if before == [] {
        NothingSeenYet(Nanos(e.now));
      }
      var s, seen := RunAll(pid, before), if before == [] then Nanos(e.now) else SeenBy(before);
      match e
      case Turn(now) => UpdatedIsOk(s, seen, now);
      case Arrives(now, m) =>
        HandleIsOk(s, seen, pid, now, m);
        LaterIsOk(s, seen, Nanos(now));
    }
  }

  lemma StartIsOk()
    ensures StateIsOk(START, 0)
  {
  }

  lemma NothingSeenYet(seen: int)
    ensures StateIsOk(START, seen)
  {
  }

  lemma LaterIsOk(s: State, seen: int, later: int)
    requires StateIsOk(s, seen) && seen <= later
    ensures StateIsOk(s, later)
  {
    hide Nanos;
  }

  /** The tasks accepted in a run, going by the messages and the replies alone. */
  function AcceptedIn(pid: nat, events: seq<Event>): seq<Task> {
    if events == [] then []
    else
      var e := events[|events| - 1];
      AcceptedIn(pid, events[..|events| - 1]) +
      if e.Arrives? && ReplyTo(pid, events).Some? && ReplyTo(pid, events).value.kind == TASK_ACCEPTED
      then [Task(e.now, e.message.timer)] else []
  }

  lemma {:induction false} TasksAreAccepted(pid: nat, events: seq<Event>)
    ensures RunAll(pid, events).tasks == AcceptedIn(pid, events)
    decreases |events|
  {
    hide Nanos, CeilSeconds;
    if events != [] {
      TasksAreAccepted(pid, events[..|events| - 1]);
    }
  }

  /** Whether the driver has been told to stop. */
  predicate Stopped(events: seq<Event>) {
    exists i :: 0 <= i < |events| && events[i].Arrives? && events[i].message.kind == SHUTDOWN
  }

  lemma {:induction false} RunsUntilStopped(pid: nat, events: seq<Event>)
    ensures RunAll(pid, events).running <==> !Stopped(events)
    decreases |events|
  {
    hide Nanos, CeilSeconds;
    if events != [] {
      var before, last := events[..|events| - 1], |events| - 1;
      RunsUntilStopped(pid, before);
      if Stopped(before) {
        var i :| 0 <= i < |before| && before[i].Arrives? && before[i].message.kind == SHUTDOWN;
        assert events[i] == before[i];
      }
      if Stopped(events) {
        var i :| 0 <= i < |events| && events[i].Arrives? && events[i].message.kind == SHUTDOWN;
        assert i < last ==> before[i] == events[i];
      }
    }
  }

  /** In every run, no task is accepted before the one before it has had the seconds of its timer. */
  lemma NoTaskTooEarly(pid: nat, events: seq<Event>)
    requires IsRun(events)
    ensures OneAtATime(AcceptedIn(pid, events))
  {
    hide OneAtATime;
    RunIsOk(pid, events);
    TasksAreAccepted(pid, events);
  }

  lemma RunStep(pid: nat, events: seq<Event>, e: Event)
    ensures var s, longer := RunAll(pid, events), events + [e];
            && RunAll(pid, longer) == Step(s, pid, e)
            && ReplyTo(pid, longer) == (if e.Arrives? && s.running then Handle(s, pid, e.now, e.message).1 else None)
            && RepliesIn(pid, longer) == RepliesIn(pid, events) +
                                         if ReplyTo(pid, longer).Some? then [ReplyTo(pid, longer).value] else []
  {
    hide Handle, Step;
    assert (events + [e])[..|events|] == events;
  }

  lemma NothingYet(pid: nat)
    ensures RunAll(pid, []) == START && RepliesIn(pid, []) == []
  {
  }

  /** In every run, each reply is the one the tasks accepted so far call for. */
  lemma EveryReply(pid: nat, events: seq<Event>, now: Time, m: Message)
    requires IsRun(events + [Arrives(now, m)])
    ensures Handle(RunAll(pid, events), pid, now, m).1 == ReplyFor(RunAll(pid, events).tasks, pid, now, m)
    ensures ReplyTo(pid, events + [Arrives(now, m)]) ==
            if Stopped(events) then None else ReplyFor(AcceptedIn(pid, events), pid, now, m)
  {
    hide Handle, ReplyFor, IsRun, RunAll, ReplyTo, Step, RepliesIn, AcceptedIn, Stopped;
    TasksAreAccepted(pid, events);
    RunsUntilStopped(pid, events);
    RunStep(pid, events, Arrives(now, m));
    EveryHandled(pid, events, now, m);
  }

  lemma EveryHandled(pid: nat, events: seq<Event>, now: Time, m: Message)
    requires IsRun(events + [Arrives(now, m)])
    ensures Handle(RunAll(pid, events), pid, now, m).1 == ReplyFor(RunAll(pid, events).tasks, pid, now, m)
  {
    hide StateIsOk, Handle, ReplyFor, Nanos;
    var s := RunAll(pid, events);
    ShorterRun(events, Arrives(now, m));
    RunIsOk(pid, events);
    if events == [] {
      NothingSeenYet(Nanos(now));
      HandleIsOk(s, Nanos(now), pid, now, m);
    } else {
      HandleIsOk(s, SeenBy(events), pid, now, m);
    }
  }

  lemma ShorterRun(events: seq<Event>, e: Event)
    requires IsRun(events + [e])
    ensures IsRun(events) && IsTime(e.now) && (e.Arrives? ==> e.message.timer < UINT32_RANGE)
    ensures events != [] ==> SeenBy(events) <= Nanos(e.now)
  {
    hide Nanos, IsTime;
    var all := events + [e];
    assert all[|events|] == e;
    forall x | x in events ensures x in all {
    }
    forall i, j | 0 <= i < j < |events| ensures Nanos(events[i].now) <= Nanos(events[j].now) {
      assert all[i] == events[i] && all[j] == events[j];
    }
    if events != [] {
      assert all[|events| - 1] == events[|events| - 1];
    }
  }

  /**
   In every run, until the driver is told to stop, a task or a question is answered with BUSY exactly while
   the last task accepted has not had the seconds of its timer, and then with the seconds left, rounded up:
   at least one, at most the whole timer.
   */
  lemma BusyReplyIsExact(pid: nat, events: seq<Event>, now: Time, m: Message)
    requires IsRun(events + [Arrives(now, m)]) && (m.kind == SEND_TASK || m.kind == GET_STATUS)
    ensures var tasks, reply := AcceptedIn(pid, events), ReplyTo(pid, events + [Arrives(now, m)]);
            && (reply.Some? <==> !Stopped(events))
            && (reply.Some? ==>
                  (reply.value.kind == STATUS_BUSY <==>
                   tasks != [] && Nanos(now) < Nanos(tasks[|tasks| - 1].at) + tasks[|tasks| - 1].timer * BILLION))
            && (reply.Some? && reply.value.kind == STATUS_BUSY ==>
                  var task, left := tasks[|tasks| - 1], reply.value.timer;
                  && 1 <= left <= task.timer
                  && (left - 1) * BILLION < Nanos(task.at) + task.timer * BILLION - Nanos(now) <= left * BILLION)
  {
    hide Handle, Nanos, IsRun, RunAll, ReplyTo, Step, RepliesIn, AcceptedIn, Stopped, CeilSeconds;
    EveryReply(pid, events, now, m);
    var tasks := AcceptedIn(pid, events);
    if Occupied(tasks, now) {
      LastAccepted(pid, events, now, m);
      ExactLeft(tasks[|tasks| - 1], now);
    }
  }

  lemma ExactLeft(task: Task, now: Time)
    requires IsTime(task.at) && IsTime(now) && task.timer >= 1 && Nanos(task.at) <= Nanos(now) < End(task)
    ensures var left := CeilSeconds(End(task) - Nanos(now));
            1 <= left <= task.timer && (left - 1) * BILLION < End(task) - Nanos(now) <= left * BILLION
  {
    hide Nanos, CeilSeconds;
    TimeLeft(task, now);
    var nanos := End(task) - Nanos(now);
    CeilIsLeast(nanos, CeilSeconds(nanos));
    CeilIsLeast(nanos, CeilSeconds(nanos) - 1);
  }

  lemma LastAccepted(pid: nat, events: seq<Event>, now: Time, m: Message)
    requires IsRun(events + [Arrives(now, m)]) && AcceptedIn(pid, events) != []
    ensures var tasks := AcceptedIn(pid, events);
            var task := tasks[|tasks| - 1];
            IsTime(task.at) && IsTime(now) && task.timer >= 1 && Nanos(task.at) <= Nanos(now)
  {
    hide Handle, Nanos, IsRun, RunAll, ReplyTo, Step, RepliesIn, AcceptedIn, StateIsOk;
    ShorterRun(events, Arrives(now, m));
    RunIsOk(pid, events);
    TasksAreAccepted(pid, events);
    LastTaskIsOk(RunAll(pid, events), SeenBy(events));
    assert events != [] by {
      NothingYet(pid);
    }
  }

  lemma LastTaskIsOk(s: State, seen: int)
    requires StateIsOk(s, seen) && s.tasks != []
    ensures var task := s.tasks[|s.tasks| - 1];
            IsTime(task.at) && task.timer >= 1 && Nanos(task.at) <= seen
  {
  }

  // ---------- in place ----------

  class Driver {
    const pid: nat
    var busy: bool
    var deadline: Time
    var running: bool
    ghost var tasks: seq<Task>

    ghost function View(): State
      reads this
    {
      State(busy, deadline, tasks, running)
    }

    constructor (pid: nat)
      ensures View() == START && this.pid == pid
    {
      this.pid, busy, deadline, running, tasks := pid, false, Time(0, 0), true, [];
    }

    /** update_state. */
    method UpdateState(now: Time)
      requires IsTime(now) && IsTime(deadline)
      modifies this`busy
      ensures View() == Updated(old(View()), now)
    {
      if busy {
        var order := CompareTime(now, deadline);
        if order >= 0 {
          busy := false;
        }
      }
    }

    /** The message send_status sends. */
    method Status(requestId: nat, now: Time) returns (reply: Message)
      requires IsTime(now) && IsTime(deadline)
      ensures reply == StatusReply(View(), pid, requestId, now)
    {
      if busy {
        var left := RemainingSeconds(deadline, now);
        reply := Message(STATUS_BUSY, requestId, pid, left);
      } else {
        reply := Message(STATUS_AVAILABLE, requestId, pid, 0);
      }
    }

    /** handle_message; it fails exactly when there is a reply and the socket does not take it. */
    method HandleMessage(m: Message, now: Time, sends: bool) returns (ok: bool, reply: Option<Message>)
      requires IsTime(now) && IsTime(deadline)
      modifies this
      ensures (View(), reply) == Handle(old(View()), pid, now, m) && IsTime(deadline)
      ensures ok == (sends || reply.None?)
    {
      hide Nanos, CeilSeconds;
      UpdateState(now);
      if m.kind == SEND_TASK {
        if busy {
          var status := Status(m.requestId, now);
          return sends, Some(status);
        }
        if m.timer == 0 {
          return sends, Some(Message(ERROR, m.requestId, pid, INVALID_TIMER));
        }
        busy := true;
        deadline := now;
        deadline := deadline.(seconds := deadline.seconds + m.timer);
        tasks := tasks + [Task(now, m.timer)];
        return sends, Some(Message(TASK_ACCEPTED, m.requestId, pid, m.timer));
      } else if m.kind == GET_STATUS {
        var status := Status(m.requestId, now);
        return sends, Some(status);
      } else if m.kind == SHUTDOWN {
        running := false;
        return true, None;
      }
      return sends, Some(Message(ERROR, m.requestId, pid, INVALID_MESSAGE));
    }
  }

  /**
   A whole run of a fresh driver; `sends` says which replies the socket takes. It handles the events up
   to the first reply that is not taken, and all of them if there is none.
   */
  method Execute(pid: nat, events: seq<Event>, sends: seq<bool>)
    returns (driver: Driver, handled: nat, replies: seq<Message>)
    requires |sends| == |events| && forall e :: e in events ==> IsTime(e.now)
    ensures handled <= |events| && driver.View() == RunAll(pid, events[..handled]) && driver.pid == pid
    ensures replies == RepliesIn(pid, events[..handled])
    ensures handled < |events| ==> handled > 0 && !sends[handled - 1] && ReplyTo(pid, events[..handled]).Some?
    ensures forall k :: 0 <= k < handled - 1 && ReplyTo(pid, events[..k + 1]).Some? ==> sends[k]
  {
    hide Handle, Updated, RunAll, RepliesIn, ReplyTo;
    driver := new Driver(pid);
    handled, replies := 0, [];
    NothingYet(pid);
    var ok := true;
    while handled < |events| && ok
      invariant handled <= |events| && fresh(driver) && driver.pid == pid && IsTime(driver.deadline)
      invariant driver.View() == RunAll(pid, events[..handled]) && replies == RepliesIn(pid, events[..handled])
      invariant !ok ==> handled > 0 && !sends[handled - 1] && ReplyTo(pid, events[..handled]).Some?
      invariant forall k :: 0 <= k < handled && (ok || k < handled - 1) && ReplyTo(pid, events[..k + 1]).Some? ==> sends[k]
    {
      var e := events[handled];
      assert e in events;
      RunStep(pid, events[..handled], e);
      assert events[..handled + 1] == events[..handled] + [e];
      match e {
        case Turn(now) => driver.UpdateState(now);
        case Arrives(now, m) =>
          if driver.running {
            var reply;
            ok, reply := driver.HandleMessage(m, now, sends[handled]);
            if reply.Some? {
              replies := replies + [reply.value];
            }
          }
      }
      handled := handled + 1;
    }
  }
}
