/** The worker pool of include/tradier/common/async.hpp as a step system.

Every section that the source runs under `queueMutex_` is one atomic step, and so is
every unlocked access to an atomic or to the condition variable. The condition variable
is modelled: a worker whose wait predicate fails falls asleep, and only a
notification or a spurious wake-up makes it look at the queue again. */
module ThreadPool {

  /** One `enqueue` call makes one fresh task. */
  type Task = nat

  datatype Worker =
    | Ready                // at the top of its loop, about to take the lock
    | Asleep               // inside `condition_.wait`, lock released
    | Busy(task: Task)     // running a task outside the lock
    | Exited

  /** Where the (single) caller of `shutdown` is. */
  datatype Shutdown =
    | NotCalled
    | Stopping             // the flag is set, `notify_all` has not been called yet
    | Joining(next: nat)   // workers before `next` have been joined
    | Returned

  datatype State = State(
    queue: seq<Task>,
    stopped: bool,
    workers: seq<Worker>,
    entering: set<Task>,   // callers between the two tests of the stop flag
    notifies: nat,         // callers that pushed and still have to call `notify_one`
    shutdown: Shutdown,
    // history of the run
    offered: set<Task>,
    accepted: seq<Task>,
    dequeued: seq<Task>,
    finished: seq<Task>,
    dropped: seq<Task>)

  datatype Action =
    | Enter(t: Task)             // `enqueue`, first test of the flag
    | Push(t: Task)              // `enqueue`, lock section
    | NotifyNone                 // `notify_one` with no sleeper
    | NotifyOne(w: nat)          // `notify_one` waking worker w
    | Wake(w: nat)               // spurious wake-up
    | Sleep(w: nat)              // the wait predicate failed
    | Take(w: nat)
    | Finish(w: nat)
    | Exit(w: nat)
    | SetStopped
    | NotifyAll
    | Join
    | Clear

  function Init(n: nat): State {
    var threads := if n == 0 then 1 else n;
    State([], false, seq(threads, _ => Ready), {}, 0, NotCalled, {}, [], [], [], [])
  }

  predicate NoneAsleep(ws: seq<Worker>) {
    forall i :: 0 <= i < |ws| ==> !ws[i].Asleep?
  }

  predicate SomeExited(ws: seq<Worker>) {
    exists i :: 0 <= i < |ws| && ws[i].Exited?
  }

  predicate AllExited(ws: seq<Worker>) {
    forall i :: 0 <= i < |ws| ==> ws[i].Exited?
  }

  predicate Enabled(s: State, a: Action) {
    match a
    case Enter(t) => t !in s.offered
    case Push(t) => t in s.entering
    case NotifyNone => s.notifies > 0 && NoneAsleep(s.workers)
    case NotifyOne(w) => s.notifies > 0 && w < |s.workers| && s.workers[w].Asleep?
    case Wake(w) => w < |s.workers| && s.workers[w].Asleep?
    case Sleep(w) => w < |s.workers| && s.workers[w].Ready? && !s.stopped && s.queue == []
    case Take(w) => w < |s.workers| && s.workers[w].Ready? && s.queue != []
    case Finish(w) => w < |s.workers| && s.workers[w].Busy?
    case Exit(w) => w < |s.workers| && s.workers[w].Ready? && s.stopped && s.queue == []
    case SetStopped => s.shutdown.NotCalled? || s.shutdown.Returned?
    case NotifyAll => s.shutdown.Stopping?
    case Join => s.shutdown.Joining? && s.shutdown.next < |s.workers| && s.workers[s.shutdown.next].Exited?
    case Clear => s.shutdown.Joining? && s.shutdown.next >= |s.workers|
  }

  function WakeAll(ws: seq<Worker>): (r: seq<Worker>)
    ensures |r| == |ws|
    ensures forall i :: 0 <= i < |ws| ==> r[i] == if ws[i].Asleep? then Ready else ws[i]
  {
    seq(|ws|, i requires 0 <= i < |ws| => if ws[i].Asleep? then Ready else ws[i])
  }

  function Apply(s: State, a: Action): State
    requires Enabled(s, a)
  {
    match a
    case Enter(t) =>
      s.(offered := s.offered + {t}, entering := if s.stopped then s.entering else s.entering + {t})
    case Push(t) =>
      if s.stopped then s.(entering := s.entering - {t})
      else s.(entering := s.entering - {t}, queue := s.queue + [t],
              accepted := s.accepted + [t], notifies := s.notifies + 1)
    case NotifyNone => s.(notifies := s.notifies - 1)
    case NotifyOne(w) => s.(notifies := s.notifies - 1, workers := s.workers[w := Ready])
    case Wake(w) => s.(workers := s.workers[w := Ready])
    case Sleep(w) => s.(workers := s.workers[w := Asleep])
    case Take(w) =>
      s.(workers := s.workers[w := Busy(s.queue[0])], queue := s.queue[1..], dequeued := s.dequeued + [s.queue[0]])
    case Finish(w) =>
      s.(workers := s.workers[w := Ready], finished := s.finished + [s.workers[w].task])
    case Exit(w) => s.(workers := s.workers[w := Exited])
    case SetStopped => s.(stopped := true, shutdown := Stopping)
    case NotifyAll => s.(workers := WakeAll(s.workers), shutdown := Joining(0))
    case Join => s.(shutdown := Joining(s.shutdown.next + 1))
    case Clear => s.(queue := [], dropped := s.dropped + s.queue, shutdown := Returned)
  }

  predicate CanRun(s: State, run: seq<Action>)
    decreases |run|
  {
    run == [] || (Enabled(s, run[0]) && CanRun(Apply(s, run[0]), run[1..]))
  }

  function After(s: State, run: seq<Action>): State
    requires CanRun(s, run)
    decreases |run|
  {
    if run == [] then s else After(Apply(s, run[0]), run[1..])
  }

  // ----- counting workers -----

  /** Counts workers that will look at the queue without being woken or finishing a task. */
  function Looking(w: Worker): nat { if w.Ready? then 1 else 0 }

  /** Steps a worker still owes before it has exited, apart from queued tasks. */
  function Owed(w: Worker): nat { if w.Exited? then 0 else if w.Ready? then 1 else 2 }

  function Sum(ws: seq<Worker>, f: Worker -> nat): nat {
    if ws == [] then 0 else f(ws[0]) + Sum(ws[1..], f)
  }

  /** How many workers are running task t. */
  function HeldBy(ws: seq<Worker>, t: Task): nat {
    if ws == [] then 0 else (if ws[0] == Busy(t) then 1 else 0) + HeldBy(ws[1..], t)
  }

  lemma {:induction false} SumUpdate(ws: seq<Worker>, i: nat, w: Worker, f: Worker -> nat)
    requires i < |ws|
    ensures Sum(ws[i := w], f) + f(ws[i]) == Sum(ws, f) + f(w)
  {
    if i > 0 {
      assert ws[i := w][1..] == ws[1..][i - 1 := w];
      SumUpdate(ws[1..], i - 1, w, f);
    } else {
      assert ws[i := w][1..] == ws[1..];
    }
  }

  lemma {:induction false} HeldByUpdate(ws: seq<Worker>, i: nat, w: Worker, t: Task)
    requires i < |ws|
    ensures HeldBy(ws[i := w], t) + (if ws[i] == Busy(t) then 1 else 0)
         == HeldBy(ws, t) + (if w == Busy(t) then 1 else 0)
  {
    if i > 0 {
      assert ws[i := w][1..] == ws[1..][i - 1 := w];
      HeldByUpdate(ws[1..], i - 1, w, t);
    } else {
      assert ws[i := w][1..] == ws[1..];
    }
  }

  lemma {:induction false} WakeAllHolds(ws: seq<Worker>, t: Task)
    ensures HeldBy(WakeAll(ws), t) == HeldBy(ws, t)
  {
    if ws != [] {
      assert WakeAll(ws)[1..] == WakeAll(ws[1..]);
      WakeAllHolds(ws[1..], t);
    }
  }

  lemma {:induction false} WakeAllCounts(ws: seq<Worker>)
    ensures Sum(WakeAll(ws), Owed) <= Sum(ws, Owed)
    ensures !NoneAsleep(ws) ==> Sum(WakeAll(ws), Owed) < Sum(ws, Owed)
  {
    if ws != [] {
      assert WakeAll(ws)[1..] == WakeAll(ws[1..]);
      WakeAllCounts(ws[1..]);
      if NoneAsleep(ws[1..]) && !ws[0].Asleep? {
        forall i | 0 <= i < |ws| ensures !ws[i].Asleep? { if i > 0 { assert ws[i] == ws[1..][i - 1]; } }
      }
    }
  }

  lemma {:induction false} NobodyBusy(ws: seq<Worker>, t: Task)
    requires forall i :: 0 <= i < |ws| ==> !ws[i].Busy?
    ensures HeldBy(ws, t) == 0
  {
    if ws != [] { NobodyBusy(ws[1..], t); }
  }

  // ----- the invariant -----

  ghost predicate Distinct(ts: seq<Task>) {
    forall i, j :: 0 <= i < j < |ts| ==> ts[i] != ts[j]
  }

  /** Every accepted task is queued, running or finished, in acceptance order. */
  ghost predicate Conserved(s: State) {
    && Listed(s)
    && (forall t :: multiset(s.dequeued)[t] == multiset(s.finished)[t] + HeldBy(s.workers, t))
  }

  /** Accepted tasks are distinct and leave the queue from the front; none is dropped. */
  ghost predicate Listed(s: State) {
    && s.accepted == s.dequeued + s.queue
    && Distinct(s.accepted)
    && (forall t :: t in s.accepted ==> t in s.offered && t !in s.entering)
    && s.entering <= s.offered
    && s.dropped == []
  }

  ghost predicate Ordered(s: State) {
    && |s.workers| >= 1
    && (s.shutdown.NotCalled? <==> !s.stopped)
    && (SomeExited(s.workers) ==> s.stopped && s.queue == [])
    && (s.shutdown.Joining? ==> s.shutdown.next <= |s.workers|)
    && (s.shutdown.Joining? ==> forall i :: 0 <= i < s.shutdown.next ==> s.workers[i].Exited?)
    && (s.shutdown.Returned? ==> AllExited(s.workers))
  }

  /** No wake-up is lost: while anyone sleeps, every queued task has its own worker on the
      way to the lock or its own `notify_one` still to come, whatever the busy workers do;
      and after `notify_all` nobody sleeps. */
  ghost predicate Woken(s: State) {
    && (!NoneAsleep(s.workers) ==> |s.queue| <= s.notifies + Sum(s.workers, Looking))
    && (s.stopped && !s.shutdown.Stopping? ==> NoneAsleep(s.workers))
  }

  ghost predicate Inv(s: State) { Conserved(s) && Ordered(s) && Woken(s) }

  lemma InitInv(n: nat)
    ensures Inv(Init(n))
  {
    forall t { NobodyBusy(Init(n).workers, t); }
  }

  /** What one step does to the dequeued, running and finished counts of one task. */
  lemma StepConservesTask(s: State, a: Action, t: Task)
    requires Inv(s) && Enabled(s, a)
    ensures var s' := Apply(s, a);
      multiset(s'.dequeued)[t] == multiset(s'.finished)[t] + HeldBy(s'.workers, t)
  {
    match a {
      case NotifyOne(w) => HeldByUpdate(s.workers, w, Ready, t);
      case Wake(w) => HeldByUpdate(s.workers, w, Ready, t);
      case Sleep(w) => HeldByUpdate(s.workers, w, Asleep, t);
      case Take(w) => HeldByUpdate(s.workers, w, Busy(s.queue[0]), t);
      case Finish(w) => HeldByUpdate(s.workers, w, Ready, t);
      case Exit(w) => HeldByUpdate(s.workers, w, Exited, t);
      case NotifyAll => WakeAllHolds(s.workers, t);
      case _ =>
    }
  }

  lemma StepKeepsOrder(s: State, a: Action)
    requires Inv(s) && Enabled(s, a)
    ensures Listed(Apply(s, a))
  {
    if a.Clear? {
      assert s.workers[0].Exited?;
    }
  }

  lemma StepConserves(s: State, a: Action)
    requires Inv(s) && Enabled(s, a)
    ensures Conserved(Apply(s, a))
  {
    StepKeepsOrder(s, a);
    forall t { StepConservesTask(s, a, t); }
  }

  lemma StepOrdered(s: State, a: Action)
    requires Inv(s) && Enabled(s, a)
    ensures Ordered(Apply(s, a))
  {
  }

  lemma StepWoken(s: State, a: Action)
    requires Inv(s) && Enabled(s, a)
    ensures Woken(Apply(s, a))
  {
    var s' := Apply(s, a);
    match a {
      case NotifyOne(w) => SumUpdate(s.workers, w, Ready, Looking);
      case Wake(w) => SumUpdate(s.workers, w, Ready, Looking);
      case Take(w) => SumUpdate(s.workers, w, Busy(s.queue[0]), Looking);
      case Finish(w) => SumUpdate(s.workers, w, Ready, Looking);
      case _ =>
    }
    if !NoneAsleep(s'.workers) && !a.Sleep? {
      var i :| 0 <= i < |s'.workers| && s'.workers[i].Asleep?;
      assert s.workers[i].Asleep?;
    }
  }

  lemma StepInv(s: State, a: Action)
    requires Inv(s) && Enabled(s, a)
    ensures Inv(Apply(s, a))
  {
    StepConserves(s, a);
    StepOrdered(s, a);
    StepWoken(s, a);
  }

  lemma {:induction false} RunInv(s: State, run: seq<Action>)
    requires Inv(s) && CanRun(s, run)
    ensures Inv(After(s, run))
    decreases |run|
  {
    if run != [] {
      StepInv(s, run[0]);
      RunInv(Apply(s, run[0]), run[1..]);
    }
  }

  lemma AllFinished(s: State)
    requires Inv(s) && AllExited(s.workers)
    ensures s.queue == [] && multiset(s.finished) == multiset(s.accepted)
  {
    assert s.workers[0].Exited?;
    assert s.accepted == s.dequeued;
    forall t { NobodyBusy(s.workers, t); }
  }

  // ----- main results -----

  /** In every interleaving: accepted tasks are exactly the queued, running and finished
      ones, each once; they leave the queue in acceptance order; the clearing loop of
      `shutdown` never discards one; and a returned `shutdown` has finished them all. */
  lemma PoolSafety(n: nat, run: seq<Action>)
    requires CanRun(Init(n), run)
    ensures var s := After(Init(n), run);
      && s.accepted == s.dequeued + s.queue
      && (forall t :: multiset(s.accepted)[t]
                      == multiset(s.queue)[t] + HeldBy(s.workers, t) + multiset(s.finished)[t])
      && Distinct(s.accepted)
      && s.dropped == []
      && (SomeExited(s.workers) ==> s.stopped && s.queue == [])
      && (s.shutdown.Returned? ==> multiset(s.finished) == multiset(s.accepted))
  {
    InitInv(n);
    RunInv(Init(n), run);
    var s := After(Init(n), run);
    if s.shutdown.Returned? {
      AllFinished(s);
    }
  }

  // ----- what a run's actions alone determine -----

  /** The tasks whose `enqueue` reached its lock section before the stop flag was set. */
  function PushedBeforeStop(run: seq<Action>): seq<Task> {
    if run == [] || run[0].SetStopped? then []
    else if run[0].Push? then [run[0].t] + PushedBeforeStop(run[1..])
    else PushedBeforeStop(run[1..])
  }

  predicate IsNotification(a: Action) { a.NotifyNone? || a.NotifyOne? }

  predicate IsTake(a: Action) { a.Take? }

  predicate IsFinish(a: Action) { a.Finish? }

  function Count(run: seq<Action>, kind: Action -> bool): nat {
    if run == [] then 0 else (if kind(run[0]) then 1 else 0) + Count(run[1..], kind)
  }

  lemma StepAccepts(s: State, a: Action)
    requires Enabled(s, a)
    ensures Apply(s, a).accepted == if a.Push? && !s.stopped then s.accepted + [a.t] else s.accepted
    ensures Apply(s, a).stopped <==> s.stopped || a.SetStopped?
  {
  }

  lemma Shift(front: seq<Task>, t: Task, rest: seq<Task>)
    ensures front + [t] + rest == front + ([t] + rest)
  {
  }

  lemma {:induction false} RunAccepts(s: State, run: seq<Action>)
    requires CanRun(s, run)
    ensures After(s, run).accepted == if s.stopped then s.accepted else s.accepted + PushedBeforeStop(run)
    decreases |run|
  {
    if run != [] {
      var a := run[0];
      StepAccepts(s, a);
      RunAccepts(Apply(s, a), run[1..]);
      if a.Push? { Shift(s.accepted, a.t, PushedBeforeStop(run[1..])); }
    }
  }

  /** Each acceptance is announced once, and takes and finishes are counted as they happen. */
  lemma {:induction false} RunCounts(s: State, run: seq<Action>)
    requires CanRun(s, run)
    ensures var t := After(s, run);
      && t.notifies + Count(run, IsNotification) + |s.accepted| == s.notifies + |t.accepted|
      && |t.dequeued| == |s.dequeued| + Count(run, IsTake)
      && |t.finished| == |s.finished| + Count(run, IsFinish)
    decreases |run|
  {
    if run != [] { RunCounts(Apply(s, run[0]), run[1..]); }
  }

  /** Every task that reaches the lock before the stop flag is accepted, in that order, and
      nothing else is; and each acceptance is followed by one notification. */
  lemma AcceptedByRun(n: nat, run: seq<Action>)
    requires CanRun(Init(n), run)
    ensures var s := After(Init(n), run);
      && s.accepted == PushedBeforeStop(run)
      && s.notifies + Count(run, IsNotification) == |PushedBeforeStop(run)|
      && |s.dequeued| == Count(run, IsTake)
      && |s.finished| == Count(run, IsFinish)
  {
    FreshRun(Init(n), run);
  }

  lemma FreshRun(s: State, run: seq<Action>)
    requires CanRun(s, run) && !s.stopped && s.notifies == 0
    requires s.accepted == [] && s.dequeued == [] && s.finished == []
    ensures var t := After(s, run);
      && t.accepted == PushedBeforeStop(run)
      && t.notifies + Count(run, IsNotification) == |PushedBeforeStop(run)|
      && |t.dequeued| == Count(run, IsTake)
      && |t.finished| == Count(run, IsFinish)
  {
    RunAccepts(s, run);
    assert [] + PushedBeforeStop(run) == PushedBeforeStop(run);
    RunCounts(s, run);
  }

  /** So once `shutdown` has returned, exactly the tasks that reached the lock before the
      stop flag have been run to their end, each once. */
  lemma ShutdownRanThemAll(n: nat, run: seq<Action>)
    requires CanRun(Init(n), run) && After(Init(n), run).shutdown.Returned?
    ensures multiset(After(Init(n), run).finished) == multiset(PushedBeforeStop(run))
  {
    PoolSafety(n, run);
    AcceptedByRun(n, run);
  }

  /** Once one worker has exited nothing is ever queued or accepted again. */
  lemma {:induction false} ExitedStaysEmpty(s: State, run: seq<Action>)
    requires Inv(s) && SomeExited(s.workers) && CanRun(s, run)
    ensures After(s, run).queue == [] && After(s, run).accepted == s.accepted
    ensures SomeExited(After(s, run).workers)
    decreases |run|
  {
    if run != [] {
      var i :| 0 <= i < |s.workers| && s.workers[i].Exited?;
      StepInv(s, run[0]);
      assert Apply(s, run[0]).workers[i].Exited?;
      ExitedStaysEmpty(Apply(s, run[0]), run[1..]);
    }
  }

  /** A queued task never waits beside a sleeper for a running task to end: while someone
      sleeps, the queue is covered by workers at the lock and notifications owed, and a
      take or a `notify_one` can happen now. While nobody sleeps, a take can happen or all
      workers are busy. */
  lemma NoLostWakeup(n: nat, run: seq<Action>)
    requires CanRun(Init(n), run)
    requires After(Init(n), run).queue != []
    ensures var s := After(Init(n), run);
      && (!NoneAsleep(s.workers) ==>
            && |s.queue| <= s.notifies + Sum(s.workers, Looking)
            && ((exists w :: Enabled(s, Take(w))) || (exists w :: Enabled(s, NotifyOne(w)))))
      && (NoneAsleep(s.workers) ==>
            (exists w :: Enabled(s, Take(w))) || (forall w :: 0 <= w < |s.workers| ==> s.workers[w].Busy?))
  {
    InitInv(n);
    RunInv(Init(n), run);
    var s := After(Init(n), run);
    assert !SomeExited(s.workers);
    if !NoneAsleep(s.workers) {
      CoveredQueueMoves(s);
    } else if w: nat :| w < |s.workers| && !s.workers[w].Busy? {
      assert Enabled(s, Take(w));
    }
  }

  lemma CoveredQueueMoves(s: State)
    requires s.queue != [] && !NoneAsleep(s.workers) && |s.queue| <= s.notifies + Sum(s.workers, Looking)
    ensures (exists w :: Enabled(s, Take(w))) || (exists w :: Enabled(s, NotifyOne(w)))
  {
    if s.notifies > 0 {
      var w :| 0 <= w < |s.workers| && s.workers[w].Asleep?;
      assert Enabled(s, NotifyOne(w));
    } else {
      var w := SomeLooking(s.workers);
      assert Enabled(s, Take(w));
    }
  }

  lemma {:induction false} SomeLooking(ws: seq<Worker>) returns (w: nat)
    requires Sum(ws, Looking) > 0
    ensures w < |ws| && ws[w].Ready?
  {
    if ws[0].Ready? { w := 0; } else { w := SomeLooking(ws[1..]); w := w + 1; }
  }

  // ----- shutdown terminates -----

  function Measure(s: State): nat { 2 * |s.queue| + Sum(s.workers, Owed) }

  predicate IsWorkerStep(a: Action) { a.Take? || a.Finish? || a.Exit? }

  function WorkerSteps(run: seq<Action>): nat {
    if run == [] then 0 else (if IsWorkerStep(run[0]) then 1 else 0) + WorkerSteps(run[1..])
  }

  lemma MeasureStep(s: State, a: Action)
    requires Inv(s) && s.stopped && Enabled(s, a)
    ensures Apply(s, a).stopped
    ensures IsWorkerStep(a) ==> Measure(Apply(s, a)) == Measure(s) - 1
    ensures Measure(Apply(s, a)) <= Measure(s)
  {
    match a {
      case NotifyOne(w) => SumUpdate(s.workers, w, Ready, Owed);
      case Wake(w) => SumUpdate(s.workers, w, Ready, Owed);
      case Take(w) => SumUpdate(s.workers, w, Busy(s.queue[0]), Owed);
      case Finish(w) => SumUpdate(s.workers, w, Ready, Owed);
      case Exit(w) => SumUpdate(s.workers, w, Exited, Owed);
      case NotifyAll => WakeAllCounts(s.workers);
      case _ =>
    }
  }

  /** After the stop flag is set, no run makes more worker steps than the measure allows. */
  lemma {:induction false} ShutdownBounded(s: State, run: seq<Action>)
    requires Inv(s) && s.stopped && CanRun(s, run)
    ensures After(s, run).stopped
    ensures WorkerSteps(run) + Measure(After(s, run)) <= Measure(s)
    decreases |run|
  {
    if run != [] {
      MeasureStep(s, run[0]);
      StepInv(s, run[0]);
      ShutdownBounded(Apply(s, run[0]), run[1..]);
    }
  }

  /** ... and while a worker remains, a worker step or the pending `notify_all` is enabled. */
  lemma ShutdownProgress(s: State) returns (a: Action)
    requires Inv(s) && s.stopped && !AllExited(s.workers)
    ensures Enabled(s, a) && (IsWorkerStep(a) || a.NotifyAll?)
    ensures Measure(Apply(s, a)) < Measure(s)
  {
    var w: nat :| w < |s.workers| && !s.workers[w].Exited?;
    match s.workers[w] {
      case Ready => a := if s.queue == [] then Exit(w) else Take(w);
      case Busy(_) => a := Finish(w);
      case Asleep =>
        a := NotifyAll;
        WakeAllCounts(s.workers);
    }
    MeasureStep(s, a);
  }

  /** Hence from every reachable stopped state the pool drains: all workers exit and
      every accepted task has finished. */
  lemma {:induction false} ShutdownDrains(s: State) returns (run: seq<Action>)
    requires Inv(s) && s.stopped
    ensures CanRun(s, run)
    ensures AllExited(After(s, run).workers)
    ensures multiset(After(s, run).finished) == multiset(s.accepted)
    decreases Measure(s)
  {
    if AllExited(s.workers) {
      run := [];
      AllFinished(s);
    } else {
      var a := ShutdownProgress(s);
      StepInv(s, a);
      MeasureStep(s, a);
      var rest := ShutdownDrains(Apply(s, a));
      run := [a] + rest;
      assert run[1..] == rest;
    }
  }

  /** The pool object: one method per atomic section of the source. */
  class Pool {
    var tasks: seq<Task>
    var stopped: bool
    var workers: seq<Worker>
    var entering: set<Task>
    var notifies: nat
    var shutdown: Shutdown
    ghost var offered: set<Task>
    ghost var accepted: seq<Task>
    ghost var dequeued: seq<Task>
    ghost var finished: seq<Task>
    ghost var dropped: seq<Task>

    ghost function View(): State
      reads this
    {
      State(tasks, stopped, workers, entering, notifies, shutdown, offered, accepted, dequeued, finished, dropped)
    }

    constructor (numThreads: nat)
      ensures View() == Init(numThreads) && Inv(View())
      ensures |workers| == (if numThreads == 0 then 1 else numThreads) && tasks == [] && !stopped
      ensures forall i :: 0 <= i < |workers| ==> workers[i].Ready?
    {
      var n := numThreads;
      if n == 0 {
        n := 1;
      }
      tasks, stopped, workers := [], false, seq(n, _ => Ready);
      entering, notifies, shutdown := {}, 0, NotCalled;
      offered, accepted, dequeued, finished, dropped := {}, [], [], [], [];
      new;
      InitInv(numThreads);
    }

    /** `enqueue` up to the lock: false is the "ThreadPool is stopped" exception. */
    method EnqueueTest(t: Task) returns (admitted: bool)
      requires Inv(View()) && t !in offered
      modifies this
      ensures View() == Apply(old(View()), Enter(t)) && Inv(View())
      ensures admitted == !old(stopped) && tasks == old(tasks)
      ensures entering == old(entering) + if admitted then {t} else {}
    {
      ghost var s := View();
      offered := offered + {t};
      admitted := !stopped;
      if admitted {
        entering := entering + {t};
      }
      StepInv(s, Enter(t));
    }

    /** The lock section of `enqueue`, with its second test of the flag. */
    method EnqueueLocked(t: Task) returns (admitted: bool)
      requires Inv(View()) && t in entering
      modifies this
      ensures View() == Apply(old(View()), Push(t)) && Inv(View())
      ensures admitted == !old(stopped) && entering == old(entering) - {t}
      ensures admitted ==>
        tasks == old(tasks) + [t] && accepted == old(accepted) + [t] && notifies == old(notifies) + 1
      ensures !admitted ==> tasks == old(tasks) && accepted == old(accepted) && notifies == old(notifies)
    {
      ghost var s := View();
      entering := entering - {t};
      admitted := !stopped;
      if admitted {
        tasks := tasks + [t];
        accepted := accepted + [t];
        notifies := notifies + 1;
      }
      StepInv(s, Push(t));
    }

    /** The locked part of one round of worker w: wait, exit test, pop. */
    method WorkerLocked(w: nat) returns (ghost a: Action)
      requires Inv(View()) && w < |workers| && workers[w].Ready?
      modifies this
      ensures a in {Sleep(w), Exit(w), Take(w)}
      ensures Enabled(old(View()), a) && View() == Apply(old(View()), a) && Inv(View())
      ensures if old(tasks) != [] then
                workers == old(workers)[w := Busy(old(tasks)[0])] && tasks == old(tasks)[1..]
              else
                workers == old(workers)[w := if stopped then Exited else Asleep] && tasks == []
    {
      ghost var s := View();
      if !(stopped || tasks != []) {
        workers := workers[w := Asleep];
        a := Sleep(w);
      } else if stopped && tasks == [] {
        workers := workers[w := Exited];
        a := Exit(w);
      } else {
        var task := tasks[0];
        tasks := tasks[1..];
        dequeued := dequeued + [task];
        workers := workers[w := Busy(task)];
        a := Take(w);
      }
      StepInv(s, a);
    }

    /** The task returns or throws; either way the worker goes back to its loop. */
    method TaskEnds(w: nat)
      requires Inv(View()) && w < |workers| && workers[w].Busy?
      modifies this
      ensures View() == Apply(old(View()), Finish(w)) && Inv(View())
      ensures workers == old(workers)[w := Ready] && finished == old(finished) + [old(workers)[w].task]
    {
      ghost var s := View();
      finished := finished + [workers[w].task];
      workers := workers[w := Ready];
      StepInv(s, Finish(w));
    }

    method ShutdownSetFlag()
      requires Inv(View()) && (shutdown.NotCalled? || shutdown.Returned?)
      modifies this
      ensures View() == Apply(old(View()), SetStopped) && Inv(View()) && stopped
    {
      ghost var s := View();
      stopped := true;
      shutdown := Stopping;
      StepInv(s, SetStopped);
    }

    method ShutdownNotifyAll()
      requires Inv(View()) && shutdown.Stopping?
      modifies this
      ensures View() == Apply(old(View()), NotifyAll) && Inv(View()) && NoneAsleep(workers)
    {
      ghost var s := View();
      workers := WakeAll(workers);
      shutdown := Joining(0);
      StepInv(s, NotifyAll);
    }

    /** The clearing loop at the end of `shutdown`, on any queue. */
    method DiscardQueue()
      modifies this`tasks, this`dropped
      ensures tasks == [] && dropped == old(dropped) + old(tasks)
    {
      while tasks != []
        invariant dropped + tasks == old(dropped) + old(tasks)
        decreases |tasks|
      {
        dropped := dropped + [tasks[0]];
        tasks := tasks[1..];
      }
    }

    /** One round of the join loop; the join returns once the worker has exited. */
    method ShutdownJoin()
      requires Inv(View()) && Enabled(View(), Join)
      modifies this
      ensures View() == Apply(old(View()), Join) && Inv(View())
    {
      StepInv(View(), Join);
      shutdown := Joining(shutdown.next + 1);
    }

    /** The end of `shutdown`: the clearing loop finds nothing to discard. */
    method ShutdownClear()
      requires Inv(View()) && Enabled(View(), Clear)
      modifies this
      ensures View() == Apply(old(View()), Clear) && Inv(View())
      ensures old(tasks) == [] && dropped == [] && multiset(finished) == multiset(accepted)
    {
      ghost var s := View();
      StepInv(s, Clear);
      DiscardQueue();
      shutdown := Returned;
      assert View() == Apply(s, Clear);
      AllFinished(View());
    }

    /** A join waits: here the worker that is being joined runs until it exits. */
    method RunUntilExit(w: nat)
      requires Inv(View()) && shutdown.Joining? && w < |workers|
      modifies this
      ensures Inv(View()) && shutdown == old(shutdown) && accepted == old(accepted)
      ensures |workers| == old(|workers|) && workers[w].Exited?
    {
      while !workers[w].Exited?
        invariant Inv(View()) && shutdown == old(shutdown) && accepted == old(accepted)
        invariant |workers| == old(|workers|)
        decreases Measure(View())
      {
        ghost var s := View();
        if workers[w].Busy? {
          MeasureStep(s, Finish(w));
          TaskEnds(w);
        } else {
          assert workers[w].Ready?;
          ghost var a := WorkerLocked(w);
          MeasureStep(s, a);
        }
      }
    }

    /** `shutdown` from its join loop on, from any state of the workers: it returns with
        every accepted task finished and none dropped. */
    method ShutdownTail()
      requires Inv(View()) && shutdown == Joining(0)
      modifies this
      ensures Inv(View()) && shutdown.Returned? && AllExited(workers)
      ensures tasks == [] && dropped == [] && multiset(finished) == multiset(old(accepted))
    {
      while shutdown.next < |workers|
        invariant Inv(View()) && shutdown.Joining? && accepted == old(accepted)
        decreases |workers| - shutdown.next
      {
        RunUntilExit(shutdown.next);
        ShutdownJoin();
      }
      ShutdownClear();
    }

    /** `notify_one` after the lock section of `enqueue`: wakes a sleeper if there is one. */
    method NotifySomeone() returns (ghost a: Action)
      requires Inv(View()) && notifies > 0
      modifies this
      ensures a.NotifyNone? || a.NotifyOne?
      ensures Enabled(old(View()), a) && View() == Apply(old(View()), a) && Inv(View())
      ensures notifies == old(notifies) - 1
      ensures if NoneAsleep(old(workers)) then workers == old(workers)
              else exists w: nat :: w < |old(workers)| && old(workers)[w].Asleep? && workers == old(workers)[w := Ready]
    {
      ghost var s := View();
      notifies := notifies - 1;
      if w: nat :| w < |workers| && workers[w].Asleep? {
        workers := workers[w := Ready];
        a := NotifyOne(w);
      } else {
        a := NotifyNone;
      }
      StepInv(s, a);
    }

    /** `condition_.wait` may return on its own. */
    method SpuriousWake(w: nat)
      requires Inv(View()) && Enabled(View(), Wake(w))
      modifies this
      ensures View() == Apply(old(View()), Wake(w)) && Inv(View())
      ensures workers == old(workers)[w := Ready] && tasks == old(tasks)
    {
      StepInv(View(), Wake(w));
      workers := workers[w := Ready];
    }
  }
}
