/** The shutdown protocol of `ThreadManager` in src/streaming.cpp as a step system: one step per
unlocked test or exchange and per section under `threadsMutex_`. The stopping caller keeps
the mutex from its first join to the clearing of the list. */
module ThreadManager {

  type Id = nat
  type Caller = nat

  datatype Stage =
    | Open
    | Requested            // one `stop` has won the exchange and wants the mutex
    | Joining(next: nat)   // it holds the mutex; threads before `next` are joined
    | Closed               // it has returned

  datatype State = State(
    shouldStop: bool,
    threads: seq<Id>,
    counter: nat,
    entering: set<Caller>,   // `addThread` callers past their first test of the flag
    stage: Stage,
    // history of the run
    added: seq<Id>,
    ended: set<Id>,
    joined: seq<Id>)

  datatype Action =
    | AddTest(c: Caller)
    | AddLocked(c: Caller, spawned: bool)   // `spawned` is false when creating the thread throws
    | StopCall                              // the atomic exchange
    | StopLock
    | ThreadEnds(id: Id)
    | JoinNext
    | ClearList

  const INIT := State(false, [], 0, {}, Open, [], {}, [])

  predicate Enabled(s: State, a: Action) {
    match a
    case AddTest(c) => c !in s.entering
    case AddLocked(c, _) => c in s.entering && !s.stage.Joining?
    case StopCall => true
    case StopLock => s.stage.Requested?
    case ThreadEnds(id) => id in s.added && id !in s.ended
    case JoinNext => s.stage.Joining? && s.stage.next < |s.threads| && s.threads[s.stage.next] in s.ended
    case ClearList => s.stage.Joining? && s.stage.next >= |s.threads|
  }

  function Apply(s: State, a: Action): State
    requires Enabled(s, a)
  {
    match a
    case AddTest(c) => if s.shouldStop then s else s.(entering := s.entering + {c})
    case AddLocked(c, spawned) =>
      var left := s.(entering := s.entering - {c});
      if s.shouldStop then left
      else if !spawned then left.(counter := s.counter + 1)
      else left.(counter := s.counter + 1, threads := s.threads + [s.counter], added := s.added + [s.counter])
    case StopCall => if s.shouldStop then s else s.(shouldStop := true, stage := Requested)
    case StopLock => s.(stage := Joining(0))
    case ThreadEnds(id) => s.(ended := s.ended + {id})
    case JoinNext => s.(stage := Joining(s.stage.next + 1), joined := s.joined + [s.threads[s.stage.next]])
    case ClearList => s.(stage := Closed, threads := [])
  }

  /** The step is an `addThread` that returns true. */
  predicate Admits(s: State, a: Action) { a.AddLocked? && a.spawned && !s.shouldStop }

  predicate CanRun(s: State, run: seq<Action>)
    decreases |run|
  {
    run == [] || (Enabled(s, run[0]) && CanRun(Apply(s, run[0]), run[1..]))
  }

  function After(s: State, run: seq<Action>): State
    requires CanRun(s, run)
    decreases |run|
  {
    if run == [] then s else After(Apply(s, run[0]), run[1..])
  }

  /** How many `addThread` calls return true during the run. */
  function Admissions(s: State, run: seq<Action>): nat
    requires CanRun(s, run)
    decreases |run|
  {
    if run == [] then 0 else (if Admits(s, run[0]) then 1 else 0) + Admissions(Apply(s, run[0]), run[1..])
  }

  ghost predicate Inv(s: State) {
    && (s.shouldStop <==> !s.stage.Open?)
    && (s.stage.Open? || s.stage.Requested? ==> s.threads == s.added && s.joined == [])
    && (s.stage.Joining? ==>
          s.threads == s.added && s.stage.next <= |s.added| && s.joined == s.added[..s.stage.next])
    && (s.stage.Closed? ==> s.threads == [] && s.joined == s.added)
    && (forall i :: 0 <= i < |s.added| ==> s.added[i] < s.counter)
    && (forall i, j :: 0 <= i < j < |s.added| ==> s.added[i] < s.added[j])
    && (forall i :: 0 <= i < |s.joined| ==> s.joined[i] in s.ended)
  }

  lemma StepInv(s: State, a: Action)
    requires Inv(s) && Enabled(s, a)
    ensures Inv(Apply(s, a))
  {
    if a.JoinNext? {
      assert s.added[..s.stage.next + 1] == s.added[..s.stage.next] + [s.added[s.stage.next]];
    } else if a.ClearList? {
      assert s.added[..|s.added|] == s.added;
    }
  }

  lemma {:induction false} RunInv(s: State, run: seq<Action>)
    requires Inv(s) && CanRun(s, run)
    ensures Inv(After(s, run))
    decreases |run|
  {
    if run != [] {
      StepInv(s, run[0]);
      RunInv(Apply(s, run[0]), run[1..]);
    }
  }

  // ----- main results -----

  /** In every interleaving: issued ids are distinct; the joined threads are the earliest
      added ones, all of them ended; and once the winning `stop` has returned, every thread
      ever added has been joined and the list is empty. */
  lemma StopJoinsEverything(run: seq<Action>)
    requires CanRun(INIT, run)
    ensures var s := After(INIT, run);
      && (forall i, j :: 0 <= i < j < |s.added| ==> s.added[i] != s.added[j])
      && s.joined <= s.added
      && (forall i :: 0 <= i < |s.joined| ==> s.joined[i] in s.ended)
      && (s.stage.Closed? ==> s.joined == s.added && s.threads == [])
  {
    RunInv(INIT, run);
  }

  /** The ids of the threads started before the first `stop`, from the action list alone: a
      caller under the mutex draws the next number, whether its thread starts or not. */
  function StartedIds(run: seq<Action>, next: nat): seq<Id> {
    if run == [] || run[0].StopCall? then []
    else if run[0].AddLocked? then (if run[0].spawned then [next] else []) + StartedIds(run[1..], next + 1)
    else StartedIds(run[1..], next)
  }

  function EndedIds(run: seq<Action>): set<Id> {
    if run == [] then {} else (if run[0].ThreadEnds? then {run[0].id} else {}) + EndedIds(run[1..])
  }

  lemma {:induction false} RunAdds(s: State, run: seq<Action>)
    requires CanRun(s, run)
    ensures After(s, run).added == s.added + if s.shouldStop then [] else StartedIds(run, s.counter)
    ensures |After(s, run).added| == |s.added| + Admissions(s, run)
    ensures After(s, run).ended == s.ended + EndedIds(run)
    decreases |run|
  {
    if run != [] { RunAdds(Apply(s, run[0]), run[1..]); }
  }

  /** In every run the manager holds exactly the threads that were started before the first
      `stop`, one per `addThread` that returned true; and once the winning `stop` has
      returned, each of them has ended and been joined, in the order of starting. */
  lemma StartedAreJoined(run: seq<Action>)
    requires CanRun(INIT, run)
    ensures var s := After(INIT, run);
      && s.added == StartedIds(run, 0) && |s.added| == Admissions(INIT, run)
      && (s.stage.Closed? ==>
            s.joined == StartedIds(run, 0) && forall id :: id in StartedIds(run, 0) ==> id in EndedIds(run))
  {
    RunAdds(INIT, run);
    RunInv(INIT, run);
  }

  /** From the moment the flag is set no `addThread` returns true and nothing is added;
      and after the winning `stop` has returned the list stays empty for ever. */
  lemma {:induction false} NothingAfterStop(s: State, run: seq<Action>)
    requires Inv(s) && s.shouldStop && CanRun(s, run)
    ensures Admissions(s, run) == 0
    ensures After(s, run).added == s.added && After(s, run).shouldStop
    ensures s.stage.Closed? ==> After(s, run).stage.Closed? && After(s, run).threads == []
    decreases |run|
  {
    if run != [] {
      StepInv(s, run[0]);
      NothingAfterStop(Apply(s, run[0]), run[1..]);
    }
  }

  /** Steps the winning `stop` still has to make. */
  function Remaining(s: State): nat
    requires Inv(s)
  {
    match s.stage
    case Open => |s.threads| + 3
    case Requested => |s.threads| + 2
    case Joining(next) => |s.threads| - next + 1
    case Closed => 0
  }

  /** Its own steps bring it one closer, nobody else's delay it, and all it ever waits
      for is that the thread it is joining ends. */
  lemma StopAdvances(s: State, a: Action)
    requires Inv(s) && s.shouldStop && Enabled(s, a)
    ensures Inv(Apply(s, a))
    ensures Remaining(Apply(s, a)) == Remaining(s) - (if a.StopLock? || a.JoinNext? || a.ClearList? then 1 else 0)
  {
    StepInv(s, a);
  }

  lemma {:induction false} StopCompletes(s: State) returns (run: seq<Action>)
    requires Inv(s) && s.shouldStop
    ensures CanRun(s, run)
    ensures After(s, run).stage.Closed? && After(s, run).joined == s.added
    decreases Remaining(s)
  {
    if s.stage.Closed? {
      run := [];
    } else {
      var first: seq<Action> := [];
      var t := s;
      if s.stage.Joining? && s.stage.next < |s.threads| && s.threads[s.stage.next] !in s.ended {
        first := [ThreadEnds(s.threads[s.stage.next])];
        StopAdvances(s, first[0]);
        t := Apply(s, first[0]);
      }
      var a := if t.stage.Requested? then StopLock
               else if t.stage.next < |t.threads| then JoinNext else ClearList;
      StopAdvances(t, a);
      var rest := StopCompletes(Apply(t, a));
      run := first + ([a] + rest);
      assert ([a] + rest)[1..] == rest;
      if first != [] { assert run[1..] == [a] + rest; } else { assert run == [a] + rest; }
    }
  }

  /** The manager object: one method per atomic section of the source. */
  class Manager {
    var shouldStop: bool
    var threads: seq<Id>
    var counter: nat
    var entering: set<Caller>
    var stage: Stage
    var ended: set<Id>   // kept by the operating system
    ghost var added: seq<Id>
    ghost var joined: seq<Id>

    ghost function View(): State
      reads this
    {
      State(shouldStop, threads, counter, entering, stage, added, ended, joined)
    }

    constructor ()
      ensures View() == INIT && Inv(View())
    {
      shouldStop, threads, counter, entering, stage := false, [], 0, {}, Open;
      added, ended, joined := [], {}, [];
    }

    /** `addThread` before the mutex. */
    method AddThreadTest(c: Caller) returns (mayGoOn: bool)
      requires Inv(View()) && c !in entering
      modifies this
      ensures View() == Apply(old(View()), AddTest(c)) && Inv(View())
      ensures mayGoOn == !old(shouldStop) && threads == old(threads)
      ensures entering == old(entering) + if mayGoOn then {c} else {}
    {
      mayGoOn := !shouldStop;
      if mayGoOn {
        entering := entering + {c};
      }
    }

    /** `addThread` under the mutex. */
    method AddThreadLocked(c: Caller, spawned: bool) returns (result: bool)
      requires Inv(View()) && c in entering && !stage.Joining?
      modifies this
      ensures View() == Apply(old(View()), AddLocked(c, spawned)) && Inv(View())
      ensures result <==> spawned && !old(shouldStop)
      ensures result ==> threads == old(threads) + [old(counter)] && added == old(added) + [old(counter)]
      ensures !result ==> threads == old(threads) && added == old(added)
      ensures entering == old(entering) - {c} && counter == old(counter) + if old(shouldStop) then 0 else 1
    {
      ghost var s := View();
      StepInv(s, AddLocked(c, spawned));
      entering := entering - {c};
      if shouldStop {
        return false;
      }
      var id := counter;
      counter := counter + 1;
      if !spawned {
        return false;
      }
      threads := threads + [id];
      added := added + [id];
      result := true;
    }

    /** The exchange at the head of `stop`; true for the one call that goes on. */
    method StopExchange() returns (won: bool)
      requires Inv(View())
      modifies this
      ensures View() == Apply(old(View()), StopCall) && Inv(View())
      ensures won == !old(shouldStop) && shouldStop
    {
      won := !shouldStop;
      shouldStop := true;
      if won {
        stage := Requested;
      }
    }

    /** The winner takes the mutex. */
    method StopTakesLock()
      requires Inv(View()) && stage.Requested?
      modifies this
      ensures View() == Apply(old(View()), StopLock) && Inv(View())
    {
      StepInv(View(), StopLock);
      stage := Joining(0);
    }

    /** A thread's function returns or throws; both end the thread. */
    method ThreadFinishes(id: Id)
      requires Inv(View()) && Enabled(View(), ThreadEnds(id))
      modifies this
      ensures View() == Apply(old(View()), ThreadEnds(id)) && Inv(View()) && ended == old(ended) + {id}
    {
      StepInv(View(), ThreadEnds(id));
      ended := ended + {id};
    }

    /** A join returns once its thread has ended. */
    method StopJoinsNext()
      requires Inv(View()) && Enabled(View(), JoinNext)
      modifies this
      ensures View() == Apply(old(View()), JoinNext) && Inv(View())
      ensures joined == old(joined) + [old(threads)[old(stage).next]] && threads == old(threads)
    {
      StepInv(View(), JoinNext);
      joined := joined + [threads[stage.next]];
      stage := Joining(stage.next + 1);
    }

    method StopClears()
      requires Inv(View()) && Enabled(View(), ClearList)
      modifies this
      ensures View() == Apply(old(View()), ClearList) && Inv(View())
    {
      StepInv(View(), ClearList);
      threads, stage := [], Closed;
    }

    /** The rest of `stop`, whatever threads still run: a join waits for its thread to end. */
    method StopLocked()
      requires Inv(View()) && stage.Requested?
      modifies this
      ensures Inv(View()) && stage.Closed? && threads == []
      ensures joined == added == old(added) && shouldStop
      ensures forall id :: id in added ==> id in ended
    {
      StopTakesLock();
      while stage.next < |threads|
        invariant Inv(View()) && stage.Joining? && added == old(added)
        decreases |threads| - stage.next
      {
        if threads[stage.next] !in ended {
          ThreadFinishes(threads[stage.next]);
        }
        StopJoinsNext();
      }
      StopClears();
    }
  }
}
