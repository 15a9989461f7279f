/** The bounded asynchronous logger of src/common/debug.cpp as a step system: producers, one
consumer thread, and serialized calls of `enableAsyncLogging`. */
module Logger {

  /** One `log` call, standing for the line it formatted. */
  type Message = nat

  const MAX_QUEUE_SIZE: nat := 10000

  datatype Consumer =
    | Absent
    | AtTop                   // about to test the stop flag
    | Waiting                 // wants the lock with a message or the stop flag
    | Writing(m: Message)     // printing outside the lock
    | Relocking               // printed, wants the lock again
    | Done

  /** Where the caller of `enableAsyncLogging` is. */
  datatype Control =
    | Idle
    | TurningOn               // mode flag set
    | Spawning                // stop flag cleared, thread not started yet
    | TurningOff              // stop flag set, waiting for the thread

  datatype State = State(
    asyncMode: bool,
    stop: bool,
    queue: seq<Message>,
    dropCounter: nat,
    consumer: Consumer,
    control: Control,
    pending: set<Message>,     // producers past their test of the mode flag
    // history of the run
    offered: set<Message>,     // to the asynchronous path
    pushed: seq<Message>,
    written: seq<Message>,     // by the consumer
    dropped: seq<Message>,
    forgiven: nat,             // drops counted before a counter reset
    direct: seq<Message>)      // written by the caller itself

  datatype Action =
    | Log(m: Message)
    | LogLocked(m: Message)
    | ConsumerTop
    | ConsumerLocked
    | ConsumerWrites
    | SetAsync
    | ClearStop
    | Spawn
    | SetStop
    | JoinConsumer
    | ResetDropped

  /** A logger that has just been constructed. */
  predicate Initial(s: State) {
    && !s.asyncMode && !s.stop && s.queue == [] && s.dropCounter == 0
    && s.consumer == Absent && s.control == Idle
    && s.pending == {} && s.offered == {}
    && s.pushed == [] && s.written == [] && s.dropped == [] && s.forgiven == 0 && s.direct == []
  }

  predicate Enabled(s: State, a: Action) {
    match a
    case Log(m) => m !in s.offered
    case LogLocked(m) => m in s.pending
    case ConsumerTop => s.consumer.AtTop?
    case ConsumerLocked => (s.consumer.Waiting? && (s.queue != [] || s.stop)) || s.consumer.Relocking?
    case ConsumerWrites => s.consumer.Writing?
    case SetAsync => s.control.Idle? && !s.asyncMode
    case ClearStop => s.control.TurningOn?
    case Spawn => s.control.Spawning?
    case SetStop => s.control.Idle? && s.asyncMode
    case JoinConsumer => s.control.TurningOff? && s.consumer.Done?
    case ResetDropped => true
  }

  function Apply(s: State, a: Action): State
    requires Enabled(s, a)
  {
    match a
    case Log(m) =>
      if s.asyncMode then s.(pending := s.pending + {m}, offered := s.offered + {m})
      else s.(direct := s.direct + [m])
    case LogLocked(m) =>
      var left := s.(pending := s.pending - {m});
      if |s.queue| < MAX_QUEUE_SIZE then left.(queue := s.queue + [m], pushed := s.pushed + [m])
      else left.(dropCounter := s.dropCounter + 1, dropped := s.dropped + [m])
    case ConsumerTop => s.(consumer := if s.stop then Done else Waiting)
    case ConsumerLocked =>
      if s.queue != [] && !s.stop then s.(consumer := Writing(s.queue[0]), queue := s.queue[1..])
      else s.(consumer := AtTop)
    case ConsumerWrites => s.(consumer := Relocking, written := s.written + [s.consumer.m])
    case SetAsync => s.(asyncMode := true, control := TurningOn)
    case ClearStop => s.(stop := false, control := Spawning)
    case Spawn => s.(consumer := AtTop, control := Idle)
    case SetStop => s.(stop := true, control := TurningOff)
    case JoinConsumer => s.(consumer := Absent, asyncMode := false, control := Idle)
    case ResetDropped => s.(dropCounter := 0, forgiven := s.forgiven + s.dropCounter)
  }

  predicate CanRun(s: State, run: seq<Action>)
    decreases |run|
  {
    run == [] || (Enabled(s, run[0]) && CanRun(Apply(s, run[0]), run[1..]))
  }

  function After(s: State, run: seq<Action>): State
    requires CanRun(s, run)
    decreases |run|
  {
    if run == [] then s else After(Apply(s, run[0]), run[1..])
  }

  /** What is pushed and unwritten: the message in flight, if any, then the queue. */
  function Backlog(s: State): seq<Message> { if s.consumer.Writing? then [s.consumer.m] + s.queue else s.queue }

  ghost predicate Flow(s: State) {
    && s.pushed == s.written + Backlog(s)
    && |s.queue| <= MAX_QUEUE_SIZE
    && s.dropCounter + s.forgiven == |s.dropped|
  }

  ghost predicate Distinct(ms: seq<Message>) { forall i, j :: 0 <= i < j < |ms| ==> ms[i] != ms[j] }

  /** Every offered message is in exactly one place, once. */
  ghost predicate Accounted(s: State) {
    && (forall m :: m in s.offered <==> m in s.pending || m in s.pushed || m in s.dropped)
    && (forall m :: m in s.pending ==> m !in s.pushed && m !in s.dropped)
    && (forall m :: m in s.pushed ==> m !in s.dropped)
    && Distinct(s.pushed) && Distinct(s.dropped)
  }

  /** At most one consumer, which ends only on request. */
  ghost predicate Modes(s: State) {
    && (s.control.Idle? ==> (s.asyncMode <==> !s.consumer.Absent?))
    && (s.control.Idle? && s.asyncMode ==> !s.stop)
    && (s.control.TurningOn? || s.control.Spawning? ==> s.asyncMode && s.consumer.Absent?)
    && (s.control.Spawning? ==> !s.stop)
    && (s.control.TurningOff? ==> s.asyncMode && s.stop && !s.consumer.Absent?)
    && (s.consumer.Done? ==> s.control.TurningOff?)
  }

  ghost predicate Inv(s: State) { Flow(s) && Accounted(s) && Modes(s) }

  lemma InitInv(s: State)
    requires Initial(s)
    ensures Inv(s)
  {
  }

  lemma PushFlow(s: State, m: Message)
    requires Inv(s) && m in s.pending
    ensures Flow(Apply(s, LogLocked(m)))
  {
  }

  lemma TakeFlow(s: State)
    requires Inv(s) && Enabled(s, ConsumerLocked)
    ensures Flow(Apply(s, ConsumerLocked))
  {
    if s.queue != [] {
      assert s.queue == [s.queue[0]] + s.queue[1..];
    }
  }

  lemma WriteFlow(s: State)
    requires Inv(s) && Enabled(s, ConsumerWrites)
    ensures Flow(Apply(s, ConsumerWrites))
  {
  }

  lemma StepFlow(s: State, a: Action)
    requires Inv(s) && Enabled(s, a)
    ensures Flow(Apply(s, a))
  {
    if a.LogLocked? {
      PushFlow(s, a.m);
    } else if a.ConsumerLocked? {
      TakeFlow(s);
    } else if a.ConsumerWrites? {
      WriteFlow(s);
    }
  }

  lemma PushAccounted(s: State, m: Message)
    requires Accounted(s) && m in s.pending
    ensures Accounted(Apply(s, LogLocked(m)))
  {
  }

  lemma StepAccounted(s: State, a: Action)
    requires Accounted(s) && Enabled(s, a)
    ensures Accounted(Apply(s, a))
  {
    if a.LogLocked? { PushAccounted(s, a.m); }
  }

  lemma StepInv(s: State, a: Action)
    requires Inv(s) && Enabled(s, a)
    ensures Inv(Apply(s, a))
  {
    StepFlow(s, a);
    StepAccounted(s, a);
  }

  lemma {:induction false} RunInv(s: State, run: seq<Action>)
    requires Inv(s) && CanRun(s, run)
    ensures Inv(After(s, run))
    decreases |run|
  {
    if run != [] {
      StepInv(s, run[0]);
      RunInv(Apply(s, run[0]), run[1..]);
    }
  }

  // ----- main results -----

  /** In every interleaving: what was pushed is what was written, in flight and queued, in
      that order; the queue is bounded; every message offered to the asynchronous path is
      pushed, dropped and counted, or still on its way to the lock; and between mode
      switches back to direct logging nothing is in flight. */
  lemma LoggerSafety(start: State, run: seq<Action>)
    requires Initial(start) && CanRun(start, run)
    ensures var s := After(start, run);
      && s.pushed == s.written + Backlog(s)
      && |s.queue| <= 10000
      && Accounted(s)
      && |s.dropped| == s.dropCounter + s.forgiven
      && (!s.asyncMode ==> s.consumer.Absent? && s.pushed == s.written + s.queue)
  {
    InitInv(start);
    RunInv(start, run);
  }

  // ----- what a run's actions alone determine -----

  /** The mode after an action: turning on takes effect at once, turning off after the join. */
  function ModeAfter(on: bool, a: Action): bool { (on || a.SetAsync?) && !a.JoinConsumer? }

  /** The messages logged while the mode was off, in order ... */
  function LoggedOff(run: seq<Action>, on: bool): seq<Message> {
    if run == [] then []
    else if run[0].Log? && !on then [run[0].m] + LoggedOff(run[1..], on)
    else LoggedOff(run[1..], ModeAfter(on, run[0]))
  }

  /** ... and while it was on. */
  function LoggedOn(run: seq<Action>, on: bool): set<Message> {
    if run == [] then {}
    else (if run[0].Log? && on then {run[0].m} else {}) + LoggedOn(run[1..], ModeAfter(on, run[0]))
  }

  lemma Shift(front: seq<Message>, m: Message, rest: seq<Message>)
    ensures front + [m] + rest == front + ([m] + rest)
  {
  }

  lemma StepMode(s: State, a: Action)
    requires Inv(s) && Enabled(s, a)
    ensures var t := Apply(s, a);
      && t.asyncMode == ModeAfter(s.asyncMode, a)
      && t.direct == (if a.Log? && !s.asyncMode then s.direct + [a.m] else s.direct)
      && t.offered == s.offered + (if a.Log? && s.asyncMode then {a.m} else {})
  {
  }

  /** Every message logged in direct mode is printed by its caller, at once and in order, and
      every other one is offered to the asynchronous path. */
  lemma {:induction false} LoggedByMode(s: State, run: seq<Action>)
    requires Inv(s) && CanRun(s, run)
    ensures After(s, run).direct == s.direct + LoggedOff(run, s.asyncMode)
    ensures After(s, run).offered == s.offered + LoggedOn(run, s.asyncMode)
    decreases |run|
  {
    if run != [] {
      var a := run[0];
      StepMode(s, a);
      StepInv(s, a);
      LoggedByMode(Apply(s, a), run[1..]);
      if a.Log? { Shift(s.direct, a.m, LoggedOff(run[1..], s.asyncMode)); }
    }
  }

  /** Nothing already written or pushed is ever rewritten, lost or reordered. */
  lemma {:induction false} LogsOnlyGrow(s: State, run: seq<Action>)
    requires Inv(s) && CanRun(s, run)
    ensures s.written <= After(s, run).written && s.pushed <= After(s, run).pushed
    decreases |run|
  {
    if run != [] {
      StepInv(s, run[0]);
      LogsOnlyGrow(Apply(s, run[0]), run[1..]);
    }
  }

  /** What the consumer still has to do while asynchronous logging stays on. */
  function Work(s: State): nat {
    4 * |s.queue| + match s.consumer
      case Writing(_) => 3
      case Relocking => 2
      case AtTop => 1
      case _ => 0
  }

  predicate ConsumerStep(a: Action) { a.ConsumerTop? || a.ConsumerLocked? || a.ConsumerWrites? }

  /** While asynchronous logging is on, every move of the consumer brings it closer to
      having written everything, ... */
  lemma ConsumerStepWorks(s: State, a: Action)
    requires Inv(s) && s.asyncMode && s.control.Idle? && ConsumerStep(a) && Enabled(s, a)
    ensures var t := Apply(s, a);
      Work(t) < Work(s) && t.asyncMode && t.control.Idle? && t.pushed == s.pushed
  {
  }

  /** ... and it can move as long as something is unwritten. */
  lemma ConsumerProgress(s: State) returns (a: Action)
    requires Inv(s) && s.asyncMode && s.control.Idle? && Backlog(s) != []
    ensures ConsumerStep(a) && Enabled(s, a)
    ensures forall b :: ConsumerStep(b) && Enabled(s, b) ==>
      var t := Apply(s, b); Work(t) < Work(s) && t.asyncMode && t.control.Idle? && t.pushed == s.pushed
  {
    a := if s.consumer.AtTop? then ConsumerTop else if s.consumer.Writing? then ConsumerWrites else ConsumerLocked;
    forall b | ConsumerStep(b) && Enabled(s, b)
      ensures var t := Apply(s, b); Work(t) < Work(s) && t.asyncMode && t.control.Idle? && t.pushed == s.pushed
    {
      ConsumerStepWorks(s, b);
    }
  }

  /** Left alone, it writes everything that was pushed, in order. */
  lemma {:induction false} ConsumerDrains(s: State) returns (run: seq<Action>)
    requires Inv(s) && s.asyncMode && s.control.Idle?
    ensures CanRun(s, run) && |run| <= Work(s)
    ensures After(s, run).written == s.pushed && After(s, run).queue == []
    decreases Work(s)
  {
    if Backlog(s) == [] {
      run := [];
    } else {
      var a := ConsumerProgress(s);
      StepInv(s, a);
      var rest := ConsumerDrains(Apply(s, a));
      run := [a] + rest;
      assert run[1..] == rest;
    }
  }

  /** Turning asynchronous logging off does not flush: the consumer may leave with messages
      in the queue, and they stay there unwritten. */
  lemma Stranded(start: State, m: Message) returns (run: seq<Action>)
    requires Initial(start)
    ensures CanRun(start, run)
    ensures var s := After(start, run);
      !s.asyncMode && s.control.Idle? && s.queue == [m] && s.written == []
  {
    var on := Apply(Apply(Apply(start, SetAsync), ClearStop), Spawn);
    var logged := Apply(Apply(on, Log(m)), LogLocked(m));
    var off := Apply(Apply(Apply(logged, SetStop), ConsumerTop), JoinConsumer);
    run := [];
    run := Prefixed(Apply(Apply(logged, SetStop), ConsumerTop), JoinConsumer, run);
    run := Prefixed(Apply(logged, SetStop), ConsumerTop, run);
    run := Prefixed(logged, SetStop, run);
    run := Prefixed(Apply(on, Log(m)), LogLocked(m), run);
    run := Prefixed(on, Log(m), run);
    run := Prefixed(Apply(Apply(start, SetAsync), ClearStop), Spawn, run);
    run := Prefixed(Apply(start, SetAsync), ClearStop, run);
    run := Prefixed(start, SetAsync, run);
    assert After(start, run) == off;
  }

  lemma Prefixed(s: State, a: Action, rest: seq<Action>) returns (run: seq<Action>)
    requires Enabled(s, a) && CanRun(Apply(s, a), rest)
    ensures CanRun(s, run) && After(s, run) == After(Apply(s, a), rest)
  {
    run := [a] + rest;
    assert run[1..] == rest;
  }

  // ----- what turning off writes -----

  /** The stop flag has been set and asynchronous logging has not been turned on again. */
  predicate WindingDown(s: State) { s.stop && (s.control.TurningOff? || (s.control.Idle? && !s.asyncMode)) }

  function InFlight(s: State): seq<Message> { if s.consumer.Writing? then [s.consumer.m] else [] }

  predicate StaysOff(run: seq<Action>) { forall i :: 0 <= i < |run| ==> !run[i].SetAsync? }

  /** No producer reaches the lock during the run. */
  predicate NothingOffered(run: seq<Action>) { forall i :: 0 <= i < |run| ==> !run[i].LogLocked? }

  lemma WindingDownStep(s: State, a: Action)
    requires Inv(s) && WindingDown(s) && Enabled(s, a) && !a.SetAsync?
    ensures var t := Apply(s, a);
      && WindingDown(t)
      && t.written + InFlight(t) == s.written + InFlight(s)
      && s.queue <= t.queue
      && (t.queue == [] <==> s.queue == [] && !a.LogLocked?)
  {
  }

  /** From the moment the stop flag is set, the consumer writes the message in flight and
      nothing else, and the queue only gets longer. */
  lemma {:induction false} StoppingWrites(s: State, run: seq<Action>)
    requires Inv(s) && WindingDown(s) && CanRun(s, run) && StaysOff(run)
    ensures var t := After(s, run);
      && WindingDown(t)
      && t.written + InFlight(t) == s.written + InFlight(s)
      && s.queue <= t.queue
      && (t.queue == [] <==> s.queue == [] && NothingOffered(run))
    decreases |run|
  {
    if run != [] {
      WindingDownStep(s, run[0]);
      StepInv(s, run[0]);
      StoppingWrites(Apply(s, run[0]), run[1..]);
      assert NothingOffered(run) <==> !run[0].LogLocked? && NothingOffered(run[1..]);
    }
  }

  /** `enableAsyncLogging(false)` called in state u has everything written on its return
      exactly when the queue was empty at the call and no producer reached the lock
      during it. */
  lemma FlushedIff(u: State, run: seq<Action>)
    requires Inv(u) && Enabled(u, SetStop) && CanRun(Apply(u, SetStop), run) && StaysOff(run)
    requires !After(Apply(u, SetStop), run).asyncMode
    ensures var t := After(Apply(u, SetStop), run);
      && t.written == u.written + InFlight(u)
      && t.pushed == t.written + t.queue && u.queue <= t.queue
      && (t.written == t.pushed <==> u.queue == [] && NothingOffered(run))
  {
    var s := Apply(u, SetStop);
    StepInv(u, SetStop);
    StoppingWrites(s, run);
    RunInv(s, run);
    var t := After(s, run);
    assert |t.pushed| == |t.written| + |t.queue|;
  }

  /** With no producer on its way and none arriving, the queue at the call decides alone. */
  lemma FlushedIffQuiet(u: State, run: seq<Action>)
    requires Inv(u) && Enabled(u, SetStop) && CanRun(Apply(u, SetStop), run) && StaysOff(run)
    requires !After(Apply(u, SetStop), run).asyncMode
    requires u.pending == {} && forall i :: 0 <= i < |run| ==> !run[i].Log?
    ensures var t := After(Apply(u, SetStop), run); t.written == t.pushed <==> u.queue == []
  {
    QuietRun(Apply(u, SetStop), run);
    FlushedIff(u, run);
  }

  lemma {:induction false} QuietRun(s: State, run: seq<Action>)
    requires CanRun(s, run) && s.pending == {} && forall i :: 0 <= i < |run| ==> !run[i].Log?
    ensures NothingOffered(run)
    decreases |run|
  {
    if run != [] {
      QuietRun(Apply(s, run[0]), run[1..]);
      assert forall i :: 0 < i < |run| ==> run[i] == run[1..][i - 1];
    }
  }

  /** The logger object: one method per atomic section of the source. */
  class AsyncLogger {
    var asyncLogging: bool
    var stopLogging: bool
    var logQueue: seq<Message>
    var droppedMessages: nat
    var consumer: Consumer
    var control: Control
    ghost var pending: set<Message>
    ghost var offered: set<Message>
    ghost var pushed: seq<Message>
    ghost var written: seq<Message>
    ghost var dropped: seq<Message>
    ghost var forgiven: nat
    ghost var direct: seq<Message>

    ghost function View(): State
      reads this
    {
      State(asyncLogging, stopLogging, logQueue, droppedMessages, consumer, control,
            pending, offered, pushed, written, dropped, forgiven, direct)
    }

    constructor ()
      ensures Initial(View())
    {
      asyncLogging, stopLogging, logQueue, droppedMessages := false, false, [], 0;
      consumer, control := Absent, Idle;
      pending, offered, pushed, written, dropped, forgiven, direct := {}, {}, [], [], [], 0, [];
    }

    /** `log` up to the mode test; in direct mode the message is printed at once. */
    method LogTest(m: Message) returns (queueIt: bool)
      requires Inv(View()) && m !in offered
      modifies this
      ensures View() == Apply(old(View()), Log(m)) && Inv(View())
      ensures queueIt == old(asyncLogging)
      ensures pending == old(pending) + (if queueIt then {m} else {})
      ensures direct == old(direct) + (if queueIt then [] else [m])
    {
      StepInv(View(), Log(m));
      queueIt := asyncLogging;
      if queueIt {
        pending, offered := pending + {m}, offered + {m};
      } else {
        direct := direct + [m];
      }
    }

    /** The lock section of `log`. */
    method LogUnderLock(m: Message)
      requires Inv(View()) && m in pending
      modifies this
      ensures View() == Apply(old(View()), LogLocked(m)) && Inv(View()) && pending == old(pending) - {m}
      ensures if |old(logQueue)| < 10000 then logQueue == old(logQueue) + [m] && droppedMessages == old(droppedMessages)
              else logQueue == old(logQueue) && droppedMessages == old(droppedMessages) + 1
    {
      StepInv(View(), LogLocked(m));
      pending := pending - {m};
      if |logQueue| < MAX_QUEUE_SIZE {
        logQueue := logQueue + [m];
        pushed := pushed + [m];
      } else {
        droppedMessages := droppedMessages + 1;
        dropped := dropped + [m];
      }
    }

    /** The consumer tests the stop flag at the head of its outer loop. */
    method ConsumerTest()
      requires Inv(View()) && consumer.AtTop?
      modifies this
      ensures View() == Apply(old(View()), ConsumerTop) && Inv(View())
      ensures consumer.Done? <==> stopLogging
    {
      StepInv(View(), ConsumerTop);
      consumer := if stopLogging then Done else Waiting;
    }

    /** The consumer under the lock: take a message, or leave the inner loop. */
    method ConsumerUnderLock()
      requires Inv(View()) && Enabled(View(), ConsumerLocked)
      modifies this
      ensures View() == Apply(old(View()), ConsumerLocked) && Inv(View())
      ensures if old(logQueue) == [] || stopLogging then consumer.AtTop? && logQueue == old(logQueue)
              else consumer == Writing(old(logQueue)[0]) && logQueue == old(logQueue)[1..]
    {
      StepInv(View(), ConsumerLocked);
      if logQueue != [] && !stopLogging {
        consumer := Writing(logQueue[0]);
        logQueue := logQueue[1..];
      } else {
        consumer := AtTop;
      }
    }

    method ConsumerPrints()
      requires Inv(View()) && consumer.Writing?
      modifies this
      ensures View() == Apply(old(View()), ConsumerWrites) && Inv(View())
      ensures written == old(written) + [old(consumer).m] && consumer.Relocking?
    {
      StepInv(View(), ConsumerWrites);
      written := written + [consumer.m];
      consumer := Relocking;
    }

    /** `enableAsyncLogging(true)` in direct mode: the mode flag, ... */
    method EnableSetsMode()
      requires Inv(View()) && Enabled(View(), SetAsync)
      modifies this
      ensures View() == Apply(old(View()), SetAsync) && Inv(View())
    {
      StepInv(View(), SetAsync);
      asyncLogging, control := true, TurningOn;
    }

    /** ... the stop flag, ... */
    method EnableClearsStop()
      requires Inv(View()) && Enabled(View(), ClearStop)
      modifies this
      ensures View() == Apply(old(View()), ClearStop) && Inv(View())
    {
      StepInv(View(), ClearStop);
      stopLogging, control := false, Spawning;
    }

    /** ... and the one consumer thread. */
    method EnableSpawns()
      requires Inv(View()) && Enabled(View(), Spawn)
      modifies this
      ensures View() == Apply(old(View()), Spawn) && Inv(View())
    {
      StepInv(View(), Spawn);
      consumer, control := AtTop, Idle;
    }

    method ResetDroppedMessages()
      requires Inv(View())
      modifies this
      ensures View() == Apply(old(View()), ResetDropped) && Inv(View()) && droppedMessages == 0
    {
      StepInv(View(), ResetDropped);
      forgiven := forgiven + droppedMessages;
      droppedMessages := 0;
    }

    /** `enableAsyncLogging(false)` up to the join. */
    method DisableBegins()
      requires Inv(View()) && control.Idle? && asyncLogging
      modifies this
      ensures View() == Apply(old(View()), SetStop) && Inv(View()) && stopLogging && asyncLogging
    {
      StepInv(View(), SetStop);
      stopLogging, control := true, TurningOff;
    }

    /** ... and from the join on; the queue is left as it is. */
    method DisableEnds()
      requires Inv(View()) && control.TurningOff? && consumer.Done?
      modifies this
      ensures View() == Apply(old(View()), JoinConsumer) && Inv(View())
      ensures pushed == written + logQueue && logQueue == old(logQueue) && !asyncLogging
    {
      StepInv(View(), JoinConsumer);
      consumer, asyncLogging, control := Absent, false, Idle;
    }
  }
}
