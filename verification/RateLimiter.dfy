/** The fixed-window limiter of include/tradier/common/async.hpp.

Times are clock ticks. Each `tryAcquire` and each round of the loop in `waitForSlot` is one
attempt under the mutex, so any interleaving of callers is a sequence of attempts. */
module RateLimiting {

  datatype Window = Window(start: int, count: int)

  datatype Limit = Limit(max: int, duration: int) {
    /** The most a window can grant. */
    function Cap(): nat { if max < 0 then 0 else max }
  }

  datatype Attempt = Attempt(next: Window, granted: bool)

  function Try(l: Limit, w: Window, now: int): (a: Attempt) {
    var w' := if now - w.start > l.duration then Window(now, 0) else w;
    if w'.count < l.max then Attempt(w'.(count := w'.count + 1), true) else Attempt(w', false)
  }

  /** The window and the grant times after attempts at the given times. */
  datatype Log = Log(window: Window, grants: seq<int>)

  function Attempts(l: Limit, created: int, times: seq<int>): Log {
    if times == [] then Log(Window(created, 0), [])
    else
      var log := Attempts(l, created, times[..|times| - 1]);
      Extend(l, log, times[|times| - 1])
  }

  function Extend(l: Limit, log: Log, now: int): Log {
    var a := Try(l, log.window, now);
    Log(a.next, if a.granted then log.grants + [now] else log.grants)
  }

  lemma AttemptsSnoc(l: Limit, created: int, times: seq<int>, now: int)
    ensures Attempts(l, created, times + [now]) == Extend(l, Attempts(l, created, times), now)
  {
  }

  /** The steady clock never goes back. */
  ghost predicate Clock(created: int, times: seq<int>) {
    && (forall i :: 0 <= i < |times| ==> created <= times[i])
    && (forall i, j :: 0 <= i < j < |times| ==> times[i] <= times[j])
  }

  /** Successive readings of a clock that moves on between them. */
  ghost predicate Advances(clock: nat -> int) { forall i: nat, j: nat :: i < j ==> clock(i) < clock(j) }

  /** The i-th wait, decided at reading 2i + 1, lasts until the deadline. */
  ghost predicate WaitsUntil(deadline: int, clock: nat -> int, waits: seq<int>) {
    forall i :: 0 <= i < |waits| ==> 0 < waits[i] == deadline - clock(2 * i + 1)
  }

  lemma WaitsAreShort(start: int, duration: int, clock: nat -> int, waits: seq<int>)
    requires WaitsUntil(start + duration, clock, waits) && Advances(clock) && start <= clock(0)
    ensures forall i :: 0 <= i < |waits| ==> 0 < waits[i] <= duration
  {
  }

  lemma ClockSnoc(created: int, times: seq<int>, now: int)
    requires Clock(created, times) && (if times == [] then created else times[|times| - 1]) <= now
    ensures Clock(created, times + [now])
  {
  }

  /** How many of the given times lie in the closed interval [lo, hi]. */
  function CountIn(ts: seq<int>, lo: int, hi: int): nat {
    if ts == [] then 0
    else CountIn(ts[..|ts| - 1], lo, hi) + (if lo <= ts[|ts| - 1] <= hi then 1 else 0)
  }

  /** The same for the closed interval of length d that starts at lo. */
  function CountWithin(ts: seq<int>, lo: int, d: int): nat { CountIn(ts, lo, lo + d) }

  lemma {:induction false} CountSplit(a: seq<int>, b: seq<int>, lo: int, hi: int)
    ensures CountIn(a + b, lo, hi) == CountIn(a, lo, hi) + CountIn(b, lo, hi)
  {
    if b == [] {
      assert a + b == a;
    } else {
      assert (a + b)[..|a + b| - 1] == a + b[..|b| - 1];
      CountSplit(a, b[..|b| - 1], lo, hi);
    }
  }

  lemma {:induction false} CountAtMost(ts: seq<int>, lo: int, hi: int)
    ensures CountIn(ts, lo, hi) <= |ts|
  {
    if ts != [] { CountAtMost(ts[..|ts| - 1], lo, hi); }
  }

  lemma {:induction false} CountNone(ts: seq<int>, lo: int, hi: int)
    requires forall i :: 0 <= i < |ts| ==> ts[i] < lo || hi < ts[i]
    ensures CountIn(ts, lo, hi) == 0
  {
    if ts != [] { CountNone(ts[..|ts| - 1], lo, hi); }
  }

  lemma {:induction false} CountAll(ts: seq<int>, lo: int, hi: int)
    requires forall i :: 0 <= i < |ts| ==> lo <= ts[i] <= hi
    ensures CountIn(ts, lo, hi) == |ts|
  {
    if ts != [] { CountAll(ts[..|ts| - 1], lo, hi); }
  }

  /** At time `now`, `before` holds the grants of earlier windows and the rest belong to
      the current one. */
  ghost predicate Shape(l: Limit, log: Log, now: int, before: nat) {
    && before <= |log.grants|
    && log.window.count == |log.grants| - before
    && log.window.count <= l.Cap()
    && log.window.start <= now
    && (forall i :: 0 <= i < before ==> log.grants[i] < log.window.start)
    && (forall i :: before <= i < |log.grants| ==>
          log.window.start <= log.grants[i] <= now && log.grants[i] - log.window.start <= l.duration)
    && (forall lo, hi :: lo >= log.window.start - l.duration ==> CountIn(log.grants[..before], lo, hi) <= l.Cap())
    && (forall lo :: CountWithin(log.grants, lo, l.duration) <= 2 * l.Cap())
  }

  /** Opening a new window: the old one becomes the only one within reach behind it. */
  lemma Reopen(l: Limit, log: Log, before: nat, then': int, now: int)
    requires l.duration >= 0 && then' <= now && Shape(l, log, then', before)
    requires now - log.window.start > l.duration
    ensures Shape(l, Log(Window(now, 0), log.grants), now, |log.grants|)
  {
    var n := |log.grants|;
    assert log.grants[..n] == log.grants;
    forall lo, hi | lo >= now - l.duration ensures CountIn(log.grants[..n], lo, hi) <= l.Cap() {
      var old', cur := log.grants[..before], log.grants[before..];
      assert log.grants == old' + cur;
      CountSplit(old', cur, lo, hi);
      CountNone(old', lo, hi);
      CountAtMost(cur, lo, hi);
    }
  }

  /** Only the current window and the one just before it reach into the interval. */
  lemma GrantBound(l: Limit, log: Log, before: nat, then': int, now: int, lo: int)
    requires l.duration >= 0 && then' <= now && Shape(l, log, then', before)
    requires now - log.window.start <= l.duration && log.window.count < l.max
    ensures CountWithin(log.grants + [now], lo, l.duration) <= 2 * l.Cap()
  {
    var hi := lo + l.duration;
    var old', cur := log.grants[..before], log.grants[before..];
    assert log.grants == old' + cur;
    assert (log.grants + [now])[..|log.grants|] == log.grants;
    assert CountWithin(log.grants, lo, l.duration) <= 2 * l.Cap();
    if lo <= now <= hi {
      CountSplit(old', cur, lo, hi);
      CountAtMost(cur, lo, hi);
    }
  }

  lemma Grant(l: Limit, log: Log, before: nat, then': int, now: int)
    requires l.duration >= 0 && then' <= now && Shape(l, log, then', before)
    requires now - log.window.start <= l.duration && log.window.count < l.max
    ensures Shape(l, Log(Window(log.window.start, log.window.count + 1), log.grants + [now]), now, before)
  {
    assert (log.grants + [now])[..before] == log.grants[..before];
    forall lo ensures CountWithin(log.grants + [now], lo, l.duration) <= 2 * l.Cap() {
      GrantBound(l, log, before, then', now, lo);
    }
  }

  lemma StepShape(l: Limit, log: Log, before: nat, then': int, now: int) returns (before': nat)
    requires l.duration >= 0 && then' <= now && Shape(l, log, then', before)
    ensures Shape(l, Extend(l, log, now), now, before')
  {
    before' := before;
    var current := log;
    if now - log.window.start > l.duration {
      Reopen(l, log, before, then', now);
      before' := |log.grants|;
      current := Log(Window(now, 0), log.grants);
    }
    if current.window.count < l.max {
      Grant(l, current, before', if current == log then then' else now, now);
    }
  }

  lemma {:induction false} RunShape(l: Limit, created: int, times: seq<int>) returns (before: nat)
    requires l.duration >= 0 && Clock(created, times)
    ensures Shape(l, Attempts(l, created, times), if times == [] then created else times[|times| - 1], before)
  {
    if times == [] {
      before := 0;
    } else {
      var front, now := times[..|times| - 1], times[|times| - 1];
      before := RunShape(l, created, front);
      before := StepShape(l, Attempts(l, created, front), before, if front == [] then created else front[|front| - 1], now);
    }
  }

  // ----- main results -----

  /** Over every run, every closed interval as long as the window holds at most twice
      the configured number of grants. */
  lemma SlidingBound(l: Limit, created: int, times: seq<int>, lo: int)
    requires Clock(created, times)
    ensures CountWithin(Attempts(l, created, times).grants, lo, l.duration) <= 2 * l.Cap()
  {
    var grants := Attempts(l, created, times).grants;
    if l.duration < 0 {
      CountNone(grants, lo, lo + l.duration);
    } else {
      var _ := RunShape(l, created, times);
    }
  }

  lemma {:induction false} StartsInThePast(l: Limit, created: int, times: seq<int>)
    requires Clock(created, times)
    ensures Attempts(l, created, times).window.start <= if times == [] then created else times[|times| - 1]
  {
    if times != [] { StartsInThePast(l, created, times[..|times| - 1]); }
  }

  /** Grants of the current window that a closed interval covers count in full. */
  lemma CurrentCounts(l: Limit, log: Log, now: int, before: nat, lo: int)
    requires Shape(l, log, now, before) && lo <= log.window.start
    ensures CountIn(log.grants, lo, now) >= log.window.count
  {
    var old', cur := log.grants[..before], log.grants[before..];
    assert log.grants == old' + cur;
    CountSplit(old', cur, lo, now);
    CountAll(cur, lo, now);
  }

  lemma {:induction false} CountMonotone(ts: seq<int>, lo: int, hi: int, hi': int)
    requires hi <= hi'
    ensures CountIn(ts, lo, hi) <= CountIn(ts, lo, hi')
  {
    if ts != [] { CountMonotone(ts[..|ts| - 1], lo, hi, hi'); }
  }

  /** An attempt is refused only when the limit has been used up within the last
      window length: the limiter never under-serves. */
  lemma RefusalIsJustified(l: Limit, created: int, times: seq<int>, last: int, now: int)
    requires Clock(created, times)
    requires last == (if times == [] then created else times[|times| - 1]) && last <= now
    requires !Try(l, Attempts(l, created, times).window, now).granted
    ensures CountIn(Attempts(l, created, times).grants, now - l.duration, now) >= l.Cap()
  {
    var log := Attempts(l, created, times);
    StartsInThePast(l, created, times);
    if l.max > 0 {
      var before := RunShape(l, created, times);
      CurrentCounts(l, log, last, before, now - l.duration);
      CountMonotone(log.grants, now - l.duration, last, now);
    }
  }

  function Repeat(t: int, n: nat): (r: seq<int>)
    ensures |r| == n && forall i :: 0 <= i < n ==> r[i] == t
  {
    seq(n, _ => t)
  }

  /** n attempts at one time inside a window with room for them are all granted. */
  lemma {:induction false} Burst(l: Limit, created: int, times: seq<int>, log: Log, t: int, n: nat)
    requires log == Attempts(l, created, times) && log.window.start <= t
    requires t - log.window.start <= l.duration && log.window.count + n <= l.max
    ensures Attempts(l, created, times + Repeat(t, n))
         == Log(Window(log.window.start, log.window.count + n), log.grants + Repeat(t, n))
    decreases n
  {
    if n == 0 {
      assert times + Repeat(t, n) == times && log.grants + Repeat(t, n) == log.grants;
    } else {
      var fewer := Repeat(t, n - 1);
      Burst(l, created, times, log, t, n - 1);
      AttemptsSnoc(l, created, times + fewer, t);
      RepeatSnoc(times, t, n);
      RepeatSnoc(log.grants, t, n);
    }
  }

  lemma RepeatSnoc(s: seq<int>, t: int, n: nat)
    requires n > 0
    ensures s + Repeat(t, n) == s + Repeat(t, n - 1) + [t]
  {
  }

  /** A full burst at the end of the first window, then the first grant of the next. */
  lemma FirstBurst(l: Limit, created: int, end: int)
    requires l.max >= 1 && l.duration >= 1 && end == created + l.duration
    ensures var first := Repeat(end, l.max);
      Attempts(l, created, first + [end + 1]) == Log(Window(end + 1, 1), first + [end + 1])
  {
    var first := Repeat(end, l.max);
    Burst(l, created, [], Attempts(l, created, []), end, l.max);
    assert [] + first == first;
    AttemptsSnoc(l, created, first, end + 1);
  }

  /** Two bursts on either side of a window change, one tick apart. */
  lemma TwoBursts(l: Limit, created: int, end: int)
    requires l.max >= 1 && l.duration >= 1 && end == created + l.duration
    ensures var times := Repeat(end, l.max) + [end + 1] + Repeat(end + 1, l.max - 1);
      Attempts(l, created, times).grants == times
  {
    FirstBurst(l, created, end);
    var restarted := Repeat(end, l.max) + [end + 1];
    Burst(l, created, restarted, Attempts(l, created, restarted), end + 1, l.max - 1);
  }

  /** The bound is exact: for every positive limit and duration some run grants exactly
      twice the limit within one window length. */
  lemma SlidingBoundAttained(l: Limit, created: int) returns (times: seq<int>)
    requires l.max >= 1 && l.duration >= 1
    ensures Clock(created, times)
    ensures CountWithin(Attempts(l, created, times).grants, created + 1, l.duration) == 2 * l.max
  {
    var end := created + l.duration;
    times := Repeat(end, l.max) + [end + 1] + Repeat(end + 1, l.max - 1);
    TwoBursts(l, created, end);
    CountAll(times, created + 1, created + 1 + l.duration);
  }

  /** So "at most `max` grants in any interval of one window length" is a promise the
      limiter keeps on every run exactly when no limit or no window was configured. */
  lemma SlidingLimitHoldsIff(l: Limit, created: int)
    ensures (forall times, lo | Clock(created, times) ::
               CountWithin(Attempts(l, created, times).grants, lo, l.duration) <= l.Cap())
            <==> l.max <= 0 || l.duration <= 0
  {
    if l.max <= 0 || l.duration <= 0 {
      forall times, lo | Clock(created, times)
        ensures CountWithin(Attempts(l, created, times).grants, lo, l.duration) <= l.Cap()
      {
        if l.max <= 0 {
          SlidingBound(l, created, times, lo);
        } else if l.duration < 0 {
          CountNone(Attempts(l, created, times).grants, lo, lo + l.duration);
        } else {
          SingleTick(l, created, times, lo);
        }
      }
    } else {
      var times := SlidingBoundAttained(l, created);
      assert CountWithin(Attempts(l, created, times).grants, created + 1, l.duration) > l.Cap();
    }
  }

  /** With an empty window every tick is its own window. */
  lemma {:induction false} SingleTick(l: Limit, created: int, times: seq<int>, lo: int)
    requires l.duration == 0 && Clock(created, times)
    ensures CountWithin(Attempts(l, created, times).grants, lo, 0) <= l.Cap()
  {
    if times != [] {
      var front, now := times[..|times| - 1], times[|times| - 1];
      SingleTick(l, created, front, lo);
      var log := Attempts(l, created, times);
      if lo == now {
        var before := RunShape(l, created, times);
        TickOfWindow(l, log, now, before, lo);
      } else if log.grants != Attempts(l, created, front).grants {
        assert log.grants[..|log.grants| - 1] == Attempts(l, created, front).grants;
      }
    }
  }

  lemma TickOfWindow(l: Limit, log: Log, now: int, before: nat, lo: int)
    requires l.duration == 0 && Shape(l, log, now, before) && log.window.start <= lo
    ensures CountIn(log.grants, lo, lo) <= l.Cap()
  {
    var old', cur := log.grants[..before], log.grants[before..];
    assert log.grants == old' + cur;
    CountSplit(old', cur, lo, lo);
    CountAtMost(cur, lo, lo);
    CountNone(old', lo, lo);
  }

  /** With no positive limit nothing is ever granted, so `waitForSlot` would never return;
      with one, `WaitForSlot` below always does. */
  lemma {:induction false} NothingEverGranted(l: Limit, created: int, times: seq<int>)
    requires l.max <= 0
    ensures Attempts(l, created, times).grants == []
    ensures Attempts(l, created, times).window.count == 0
  {
    if times != [] { NothingEverGranted(l, created, times[..|times| - 1]); }
  }

  class RateLimiter {
    var windowStart: int
    var requestCount: int
    const maxRequests: int
    const windowDuration: int
    ghost const created: int
    ghost var times: seq<int>

    ghost function Limits(): Limit { Limit(maxRequests, windowDuration) }

    /** The fields are the outcome of the attempts made so far. */
    ghost predicate Valid()
      reads this
    {
      && Clock(created, times)
      && windowStart <= LastTime()
      && Window(windowStart, requestCount) == Attempts(Limits(), created, times).window
    }

    ghost function Grants(): seq<int>
      reads this
    {
      Attempts(Limits(), created, times).grants
    }

    /** The sliding bound, for whatever calls have been made on this object. */
    lemma Bounded(lo: int)
      requires Valid()
      ensures CountWithin(Grants(), lo, windowDuration) <= 2 * Limits().Cap()
    {
      SlidingBound(Limits(), created, times, lo);
    }

    ghost function LastTime(): int
      reads this
    {
      if times == [] then created else times[|times| - 1]
    }

    constructor (maxRequests: int, windowDuration: int, now: int)
      ensures Valid() && times == [] && LastTime() == now
      ensures this.maxRequests == maxRequests && this.windowDuration == windowDuration
    {
      this.maxRequests, this.windowDuration := maxRequests, windowDuration;
      windowStart, requestCount := now, 0;
      created, times := now, [];
    }

    /** `tryAcquire`, and `tryAcquireInternal` which has the same body. */
    method TryAcquire(now: int) returns (granted: bool)
      requires Valid() && LastTime() <= now
      modifies this
      ensures Valid() && times == old(times) + [now]
      ensures granted == Try(Limits(), old(Window(windowStart, requestCount)), now).granted
      ensures !granted && maxRequests >= 1 ==> windowStart == old(windowStart) && now - windowStart <= windowDuration
      ensures Grants() == old(Grants()) + (if granted then [now] else [])
    {
      ghost var log, after := Attempts(Limits(), created, times), Attempts(Limits(), created, times + [now]);
      AttemptsSnoc(Limits(), created, times, now);
      assert after == Extend(Limits(), log, now);
      ClockSnoc(created, times, now);
      if now - windowStart > windowDuration {
        windowStart := now;
        requestCount := 0;
      }
      granted := requestCount < maxRequests;
      if granted {
        requestCount := requestCount + 1;
      }
      times := times + [now];
    }

    /** `waitForSlot` for a sole caller: it reads the clock until it has one grant.
        `clock(k)` is the k-th reading; a timed wait may end early, but time advances.
        `waits` lists the waiting times it asks for. */
    method WaitForSlot(clock: nat -> int) returns (readings: nat, waits: seq<int>)
      requires Valid() && LastTime() <= clock(0) && Advances(clock)
      requires maxRequests >= 1
      modifies this
      ensures Valid() && readings >= 1 && LastTime() == clock(readings - 1)
      ensures |times| > |old(times)| && times[..|old(times)|] == old(times)
      ensures Grants() == old(Grants()) + [LastTime()]
      // each wait asks for what is left of the window that was full at the call
      ensures WaitsUntil(old(windowStart) + windowDuration, clock, waits)
      ensures forall i :: 0 <= i < |waits| ==> 0 < waits[i] <= windowDuration
    {
      readings, waits := 1, [];
      var granted := TryAcquire(clock(0));
      while !granted
        invariant readings >= 1 && Valid() && LastTime() == clock(readings - 1)
        invariant |times| > |old(times)| && times[..|old(times)|] == old(times)
        invariant Grants() == old(Grants()) + (if granted then [LastTime()] else [])
        invariant !granted ==> LastTime() - windowStart <= windowDuration
        invariant !granted ==> windowStart == old(windowStart) && readings == 2 * |waits| + 1
        invariant WaitsUntil(old(windowStart) + windowDuration, clock, waits)
        decreases !granted, windowStart + windowDuration + 1 - clock(readings - 1)
      {
        var timeToWait := windowDuration - (clock(readings) - windowStart);
        if timeToWait > 0 {
          waits := waits + [timeToWait];
        }
        granted := TryAcquire(clock(readings + 1));
        readings := readings + 2;
      }
      WaitsAreShort(old(windowStart), windowDuration, clock, waits);
    }
  }
}
