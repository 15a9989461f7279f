/** The two retry loops: `HttpClient::Impl::performRequest` of src/common/http_client.cpp, which
also keeps statistics and consults the limiter, and `retryWithBackoff` of
include/tradier/common/async.hpp. The transport is an abstract stream of outcomes. */
module HttpRetry {
  import opened RateLimiting

  /** One attempt: a response, the `ConnectionError` that the transport throws, or any
      other exception, which leaves either loop at once. */
  datatype Outcome = Reply(status: int, body: string) | ConnectionFailure | OtherException

  predicate Success(o: Outcome) { o.Reply? && 200 <= o.status < 300 }

  /** `performRequest` tries again on these ... */
  predicate HttpRetries(o: Outcome) { o.ConnectionFailure? || (o.Reply? && (o.status >= 500 || o.status == 429)) }

  /** ... and `retryWithBackoff` on these; a connection failure is a result with status code
      0 there. */
  predicate AsyncRetries(o: Outcome) {
    o.ConnectionFailure? || (o.Reply? && !(Success(o) || 400 <= o.status < 500))
  }

  // ----- the shared back-off schedule -----

  datatype Backoff = Backoff(initialDelay: int, multiplier: real)

  function Pow(b: real, n: nat): real { if n == 0 then 1.0 else b * Pow(b, n - 1) }

  /** `duration_cast` truncates toward zero. */
  function Truncate(x: real): int { if x >= 0.0 then x.Floor else -(-x).Floor }

  /** The pause before retry k + 1, counting from zero. */
  function Delay(p: Backoff, k: nat): int { Truncate(p.initialDelay as real * Pow(p.multiplier, k)) }

  /** The pause before rounding: the initial delay, multiplied once per earlier retry. */
  function Exact(p: Backoff, k: nat): real {
    if k == 0 then p.initialDelay as real else Exact(p, k - 1) * p.multiplier
  }

  lemma {:induction false} ExactIsPower(p: Backoff, k: nat)
    ensures Exact(p, k) == p.initialDelay as real * Pow(p.multiplier, k)
  {
    if k > 0 {
      ExactIsPower(p, k - 1);
      Regroup(p.initialDelay as real, Pow(p.multiplier, k - 1), p.multiplier);
    }
  }

  lemma Regroup(a: real, b: real, c: real)
    ensures a * b * c == a * (c * b)
  {
  }

  /** For every real multiplier the pause is the whole part of the exact one, which
      rounding moves toward zero by less than one millisecond. */
  lemma DelayBracket(p: Backoff, k: nat)
    ensures Exact(p, k) >= 0.0 ==> 0 <= Delay(p, k) && Delay(p, k) as real <= Exact(p, k) < Delay(p, k) as real + 1.0
    ensures Exact(p, k) <= 0.0 ==> Delay(p, k) <= 0 && Delay(p, k) as real - 1.0 < Exact(p, k) <= Delay(p, k) as real
  {
    ExactIsPower(p, k);
  }

  function Delays(p: Backoff, n: nat): (d: seq<int>)
    ensures |d| == n && forall i :: 0 <= i < n ==> d[i] == Delay(p, i)
  {
    seq(n, i requires 0 <= i < n => Delay(p, i))
  }

  function Total(ds: seq<int>): int { if ds == [] then 0 else Total(ds[..|ds| - 1]) + ds[|ds| - 1] }

  function IntPow(m: int, n: nat): int { if n == 0 then 1 else m * IntPow(m, n - 1) }

  lemma {:induction false} WholePow(m: int, n: nat)
    ensures Pow(m as real, n) == IntPow(m, n) as real
  {
    if n > 0 {
      WholePow(m, n - 1);
    }
  }

  lemma WholeDelay(p: Backoff, m: int, k: nat)
    requires p.multiplier == m as real
    ensures Delay(p, k) == p.initialDelay * IntPow(m, k)
  {
    WholePow(m, k);
  }

  /** The total back-off of r retries is a geometric sum. */
  lemma {:induction false} TotalBackoff(p: Backoff, m: int, r: nat)
    requires p.multiplier == m as real
    ensures (m - 1) * Total(Delays(p, r)) == p.initialDelay * (IntPow(m, r) - 1)
  {
    if r > 0 {
      TotalBackoff(p, m, r - 1);
      WholeDelay(p, m, r - 1);
      assert Delays(p, r)[..r - 1] == Delays(p, r - 1);
      GeometricStep(p.initialDelay, m, IntPow(m, r - 1), Total(Delays(p, r - 1)));
    }
  }

  lemma GeometricStep(d: int, m: int, x: int, t: int)
    requires (m - 1) * t == d * (x - 1)
    ensures (m - 1) * (t + d * x) == d * (m * x - 1)
  {
  }

  // ----- where a retry loop stops -----

  /** Attempt k is the last: all before it asked for a retry, and k is either the last one
      the budget allows or needs none. */
  ghost predicate StopsAt(outcomes: nat -> Outcome, again: Outcome -> bool, retries: nat, k: nat) {
    && k <= retries
    && (forall j: nat :: j < k ==> again(outcomes(j)))
    && (k == retries || !again(outcomes(k)))
  }

  function LastAttempt(outcomes: nat -> Outcome, again: Outcome -> bool, retries: nat, from: nat): (k: nat)
    requires from <= retries
    ensures from <= k <= retries
    ensures forall j: nat :: from <= j < k ==> again(outcomes(j))
    ensures k == retries || !again(outcomes(k))
    decreases retries - from
  {
    if from == retries || !again(outcomes(from)) then from
    else LastAttempt(outcomes, again, retries, from + 1)
  }

  lemma StopsAtUnique(outcomes: nat -> Outcome, again: Outcome -> bool, retries: nat, k: nat)
    ensures StopsAt(outcomes, again, retries, k) <==> k == LastAttempt(outcomes, again, retries, 0)
  {
  }

  /** By status numbers: every attempt before k failed to connect or was answered 429 or 5xx
      and above, and k is the last allowed or was not. */
  ghost predicate HttpLast(outcomes: nat -> Outcome, retries: nat, k: nat) {
    && k <= retries
    && (forall j: nat :: j < k ==>
          outcomes(j).ConnectionFailure? || (outcomes(j).Reply? && (outcomes(j).status == 429 || outcomes(j).status >= 500)))
    && (k < retries ==>
          !outcomes(k).ConnectionFailure? && !(outcomes(k).Reply? && (outcomes(k).status == 429 || outcomes(k).status >= 500)))
  }

  lemma HttpStopsAt(outcomes: nat -> Outcome, retries: nat, k: nat)
    ensures k == LastAttempt(outcomes, HttpRetries, retries, 0) <==> HttpLast(outcomes, retries, k)
  {
    StopsAtUnique(outcomes, HttpRetries, retries, k);
  }

  /** The same for `retryWithBackoff`, which goes on after a status below 200, from 300 to
      399, or from 500. */
  ghost predicate AsyncLast(outcomes: nat -> Outcome, retries: nat, k: nat) {
    && k <= retries
    && (forall j: nat :: j < k ==>
          outcomes(j).ConnectionFailure?
          || (outcomes(j).Reply? && (outcomes(j).status < 200 || 300 <= outcomes(j).status <= 399 || outcomes(j).status >= 500)))
    && (k < retries ==>
          outcomes(k).OtherException? || (outcomes(k).Reply? && (200 <= outcomes(k).status <= 299 || 400 <= outcomes(k).status <= 499)))
  }

  lemma AsyncStopsAt(outcomes: nat -> Outcome, retries: nat, k: nat)
    ensures k == LastAttempt(outcomes, AsyncRetries, retries, 0) <==> AsyncLast(outcomes, retries, k)
  {
    StopsAtUnique(outcomes, AsyncRetries, retries, k);
  }

  // ----- the two loops compared -----

  /** Statuses on which the two loops are meant to agree. */
  predicate Agreed(o: Outcome) {
    !o.Reply? || 200 <= o.status < 300 || (400 <= o.status < 500 && o.status != 429) || o.status >= 500
  }

  /** Every attempt before the last allowed one that both loops reach is an agreed one. */
  ghost predicate NoParting(outcomes: nat -> Outcome, n: nat) {
    forall j: nat :: j < n && (forall i: nat :: i < j ==> HttpRetries(outcomes(i)) && AsyncRetries(outcomes(i)))
      ==> Agreed(outcomes(j))
  }

  lemma LoopsAgreeIff(outcomes: nat -> Outcome, n: nat)
    ensures LastAttempt(outcomes, HttpRetries, n, 0) == LastAttempt(outcomes, AsyncRetries, n, 0)
      <==> NoParting(outcomes, n)
  {
  }

  /** For outcome streams without 429, 3xx and other unusual statuses, both loops stop at
      the same attempt. */
  lemma LoopsAgree(outcomes: nat -> Outcome, n: nat)
    requires forall j: nat :: j < n ==> Agreed(outcomes(j))
    ensures LastAttempt(outcomes, HttpRetries, n, 0) == LastAttempt(outcomes, AsyncRetries, n, 0)
  {
    LoopsAgreeIff(outcomes, n);
  }

  /** Status 429 and 3xx are where the two loops part. */
  lemma LoopsPart()
    ensures LastAttempt(_ => Reply(429, ""), HttpRetries, 3, 0) == 3
    ensures LastAttempt(_ => Reply(429, ""), AsyncRetries, 3, 0) == 0
    ensures LastAttempt(_ => Reply(302, ""), HttpRetries, 3, 0) == 0
    ensures LastAttempt(_ => Reply(302, ""), AsyncRetries, 3, 0) == 3
  {
  }

  /** `Last(OtherException)` is that exception on its way to the caller. */
  datatype AsyncResult = NoAttemptsMade | Last(outcome: Outcome)

  /** `retryWithBackoff`; the operation's k-th call yields `operation(k)`. */
  method RetryWithBackoff(operation: nat -> Outcome, maxRetries: int, p: Backoff)
    returns (r: AsyncResult, calls: nat, delays: seq<int>)
    ensures maxRetries <= 0 ==> r == NoAttemptsMade && calls == 0 && delays == []
    ensures maxRetries > 0 ==>
      && calls == LastAttempt(operation, AsyncRetries, maxRetries - 1, 0) + 1
      && r == Last(operation(calls - 1))
      && delays == Delays(p, calls - 1)
    ensures maxRetries > 0 ==> AsyncLast(operation, maxRetries - 1, calls - 1)
  {
    r, calls, delays := NoAttemptsMade, 0, [];
    var attempt := 0;
    while attempt < maxRetries
      invariant 0 <= attempt && calls == attempt
      invariant if maxRetries <= 0 then attempt == 0 else attempt <= maxRetries
      invariant forall j: nat :: j < attempt ==> AsyncRetries(operation(j))
      invariant attempt > 0 ==> r == Last(operation(attempt - 1))
      invariant attempt == 0 ==> r == NoAttemptsMade
      invariant delays == Delays(p, if maxRetries > 0 && attempt == maxRetries then attempt - 1 else attempt)
    {
      r := Last(operation(attempt));
      calls := calls + 1;
      if r.outcome.OtherException? || Success(r.outcome) || (r.outcome.Reply? && 400 <= r.outcome.status < 500) {
        AsyncStopsAt(operation, maxRetries - 1, attempt);
        return;
      }
      if attempt < maxRetries - 1 {
        delays := delays + [Delay(p, attempt)];
      }
      attempt := attempt + 1;
    }
    if maxRetries > 0 {
      AsyncStopsAt(operation, maxRetries - 1, maxRetries - 1);
    }
  }

  /** Both loops on one stream, with the same schedule and the same number of attempts
      allowed: they make the same calls exactly when the stream never parts them, and then
      they pause alike and end on the same outcome. A stream of agreed statuses, in
      particular, never parts them. */
  method RunBothLoops(client: HttpClient, stream: nat -> Outcome)
    returns (response: Outcome, attempts: nat, delays: seq<int>, r: AsyncResult, calls: nat, pauses: seq<int>)
    requires client.Budget() >= 0
    modifies client`stats
    ensures attempts == calls <==> NoParting(stream, client.Budget())
    ensures attempts == calls ==> delays == pauses && r == Last(response)
    ensures (forall j: nat :: j < client.Budget() ==> Agreed(stream(j))) ==>
      attempts == calls && delays == pauses && r == Last(response)
  {
    response, attempts, delays := client.Send(stream);
    r, calls, pauses := RetryWithBackoff(stream, client.Budget() + 1, client.backoff);
    LoopsAgreeIff(stream, client.Budget());
  }

  // ----- statistics -----

  datatype Statistics = Statistics(
    total: nat, successful: nat, failed: nat, rateLimited: nat, retried: nat, latency: int)

  const NO_REQUESTS := Statistics(0, 0, 0, 0, 0, 0)

  /** One request: its retry budget, what the transport answers, whether the limiter made
      it wait, and how long it took. */
  datatype Request = Request(retries: nat, outcomes: nat -> Outcome, waited: bool, elapsed: int) {
    function Last(): nat { LastAttempt(outcomes, HttpRetries, retries, 0) }
    function Result(): Outcome { outcomes(Last()) }
  }

  /** What one request adds to the statistics; an exception skips the closing entries. */
  function Tally(s: Statistics, retried: nat, result: Outcome, waited: bool, elapsed: int): Statistics {
    var started := s.(total := s.total + 1,
                      rateLimited := s.rateLimited + (if waited then 1 else 0),
                      retried := s.retried + retried);
    if !result.Reply? then started
    else if Success(result) then started.(latency := s.latency + elapsed, successful := s.successful + 1)
    else started.(latency := s.latency + elapsed, failed := s.failed + 1)
  }

  function Serve(s: Statistics, q: Request): Statistics {
    Tally(s, q.Last(), q.Result(), q.waited, q.elapsed)
  }

  function ServeAll(qs: seq<Request>): Statistics {
    if |qs| == 0 then NO_REQUESTS else Serve(ServeAll(qs[..|qs| - 1]), qs[|qs| - 1])
  }

  lemma ServeAllAppend(qs: seq<Request>, q: Request)
    ensures ServeAll(qs + [q]) == Serve(ServeAll(qs), q)
  {
  }

  /** How many of the requests ended in a reply with a status from lo to hi. */
  function EndedWithin(qs: seq<Request>, lo: int, hi: int): nat {
    if |qs| == 0 then 0
    else
      var r := qs[|qs| - 1].Result();
      EndedWithin(qs[..|qs| - 1], lo, hi) + if r.Reply? && lo <= r.status <= hi then 1 else 0
  }

  /** How many ended in an exception. */
  function Thrown(qs: seq<Request>): nat {
    if |qs| == 0 then 0 else Thrown(qs[..|qs| - 1]) + if qs[|qs| - 1].Result().Reply? then 0 else 1
  }

  function Waits(qs: seq<Request>): nat {
    if |qs| == 0 then 0 else Waits(qs[..|qs| - 1]) + if qs[|qs| - 1].waited then 1 else 0
  }

  /** The time taken by the requests that were answered. */
  function AnsweredTime(qs: seq<Request>): int {
    if |qs| == 0 then 0
    else AnsweredTime(qs[..|qs| - 1]) + if qs[|qs| - 1].Result().Reply? then qs[|qs| - 1].elapsed else 0
  }

  function TransportCalls(qs: seq<Request>): nat {
    if |qs| == 0 then 0 else TransportCalls(qs[..|qs| - 1]) + qs[|qs| - 1].Last() + 1
  }

  function RetriesAllowed(qs: seq<Request>): nat {
    if |qs| == 0 then 0 else RetriesAllowed(qs[..|qs| - 1]) + qs[|qs| - 1].retries
  }

  /** The books balance after every sequence of requests since the last reset. */
  lemma {:induction false} StatisticsBalance(qs: seq<Request>)
    ensures var s := ServeAll(qs);
      && s.total == |qs| == s.successful + s.failed + Thrown(qs)
      && s.successful == EndedWithin(qs, 200, 299)
      && TransportCalls(qs) == s.total + s.retried
      && s.retried <= RetriesAllowed(qs)
      && s.rateLimited == Waits(qs) <= s.total
      && s.latency == AnsweredTime(qs)
  {
    if |qs| > 0 { StatisticsBalance(qs[..|qs| - 1]); }
  }

  class HttpClient {
    var limiter: RateLimiter
    var rateLimitEnabled: bool
    var maxRetries: int
    var backoff: Backoff
    var retriesEnabled: bool
    var stats: Statistics
    ghost var served: seq<Request>   // since the last reset

    ghost predicate Valid()
      reads this, limiter
    {
      limiter.Valid() && stats == ServeAll(served)
    }

    function Budget(): int
      reads this
    {
      if retriesEnabled then maxRetries else 0
    }

    constructor (now: int)
      ensures Valid() && fresh(limiter) && served == []
      ensures !rateLimitEnabled && !retriesEnabled && maxRetries == 3 && backoff == Backoff(1000, 2.0)
      ensures limiter.maxRequests == 60 && limiter.windowDuration == 60_000
    {
      limiter := new RateLimiter(60, 60_000, now);
      rateLimitEnabled, maxRetries, backoff, retriesEnabled := false, 3, Backoff(1000, 2.0), false;
      stats, served := NO_REQUESTS, [];
    }

    method ResetStatistics()
      requires Valid()
      modifies this`stats, this`served
      ensures Valid() && served == [] && stats == Statistics(0, 0, 0, 0, 0, 0)
    {
      stats, served := NO_REQUESTS, [];
    }

    /** The first attempt of the limiter, made on window w, is granted. */
    ghost predicate QuickPath(w: Window, now: int)
      reads this
    {
      Try(limiter.Limits(), w, now).granted
    }

    /** The limiter part of `performRequest`: one grant, by the quick path or by waiting. */
    method TakeSlot(now: int, clock: nat -> int) returns (waited: bool)
      requires limiter.Valid()
      requires limiter.LastTime() <= now <= clock(0) && Advances(clock)
      requires rateLimitEnabled ==> limiter.maxRequests >= 1
      modifies this`stats, limiter
      ensures limiter.Valid()
      ensures waited <==> rateLimitEnabled && !QuickPath(old(Window(limiter.windowStart, limiter.requestCount)), now)
      ensures stats == old(stats).(rateLimited := old(stats).rateLimited + if waited then 1 else 0)
      ensures limiter.Grants() == old(limiter.Grants()) + if rateLimitEnabled then [limiter.LastTime()] else []
    {
      waited := false;
      if rateLimitEnabled {
        var slot := limiter.TryAcquire(now);
        if !slot {
          waited := true;
          stats := stats.(rateLimited := stats.rateLimited + 1);
          var _, _ := limiter.WaitForSlot(clock);
        }
      }
    }

    /** The retry loop of `performRequest`; a response that is not a reply is the exception
        that leaves the loop. */
    method Send(transport: nat -> Outcome) returns (response: Outcome, attempts: nat, delays: seq<int>)
      requires Budget() >= 0
      modifies this`stats
      ensures attempts == LastAttempt(transport, HttpRetries, Budget(), 0) + 1
      ensures response == transport(attempts - 1)
      ensures delays == Delays(backoff, attempts - 1)
      ensures HttpLast(transport, if retriesEnabled then maxRetries else 0, attempts - 1)
      ensures stats == old(stats).(retried := old(stats).retried + attempts - 1)
    {
      var budget := Budget();
      attempts, delays := 0, [];
      var success, thrown := false, false;
      response := ConnectionFailure;
      while !success && !thrown && attempts <= budget
        invariant attempts <= budget && (success || thrown ==> response == transport(attempts))
        invariant forall j: nat :: j < attempts ==> HttpRetries(transport(j))
        invariant success || thrown ==> attempts == budget || !HttpRetries(transport(attempts))
        invariant delays == Delays(backoff, attempts)
        invariant stats == old(stats).(retried := old(stats).retried + attempts)
        decreases !success && !thrown, budget - attempts
      {
        response := transport(attempts);
        if response.Reply? {
          if (response.status >= 500 || response.status == 429) && attempts < budget {
            stats := stats.(retried := stats.retried + 1);
            attempts := attempts + 1;
            delays := delays + [Delay(backoff, attempts - 1)];
            continue;
          }
          success := true;
        } else if response.ConnectionFailure? && attempts < budget {
          stats := stats.(retried := stats.retried + 1);
          attempts := attempts + 1;
          delays := delays + [Delay(backoff, attempts - 1)];
        } else {
          thrown := true;
        }
      }
      HttpStopsAt(transport, budget, attempts);
      attempts := attempts + 1;
    }

    /** The closing bookkeeping, skipped when an exception leaves the function. */
    method Record(response: Outcome, elapsed: int)
      modifies this`stats
      ensures stats == old(stats).(
          latency := old(stats).latency + elapsed,
          successful := old(stats).successful + (if response.Reply? && 200 <= response.status <= 299 then 1 else 0),
          failed := old(stats).failed + (if response.Reply? && 200 <= response.status <= 299 then 0 else 1))
    {
      stats := stats.(latency := stats.latency + elapsed);
      if Success(response) {
        stats := stats.(successful := stats.successful + 1);
      } else {
        stats := stats.(failed := stats.failed + 1);
      }
    }

    /** `performRequest`. `now` and `clock` are the limiter's clock readings, `elapsed` the
        measured latency. */
    method PerformRequest(transport: nat -> Outcome, now: int, clock: nat -> int, elapsed: int)
      returns (response: Outcome, attempts: nat, delays: seq<int>, ghost q: Request)
      requires Valid() && Budget() >= 0
      requires limiter.LastTime() <= now <= clock(0) && Advances(clock)
      requires rateLimitEnabled ==> limiter.maxRequests >= 1
      modifies this`stats, this`served, limiter
      ensures Valid()
      // the response of the last attempt, and the back-off schedule up to it
      ensures attempts == LastAttempt(transport, HttpRetries, Budget(), 0) + 1
      ensures response == transport(attempts - 1)
      ensures delays == Delays(backoff, attempts - 1)
      ensures HttpLast(transport, if retriesEnabled then maxRetries else 0, attempts - 1)
      // exactly one grant, however many attempts
      ensures limiter.Grants() == old(limiter.Grants()) + if rateLimitEnabled then [limiter.LastTime()] else []
      // one more request in the books
      ensures served == old(served) + [q] && q.retries == Budget() && q.outcomes == transport
      ensures q.waited <==> rateLimitEnabled && !QuickPath(old(Window(limiter.windowStart, limiter.requestCount)), now)
      ensures q.elapsed == elapsed
      ensures stats == Serve(old(stats), q)
      ensures stats.successful == old(stats).successful + if response.Reply? && 200 <= response.status <= 299 then 1 else 0
      ensures stats.failed == old(stats).failed + if response.Reply? && !(200 <= response.status <= 299) then 1 else 0
    {
      stats := stats.(total := stats.total + 1);
      var waited := TakeSlot(now, clock);
      response, attempts, delays, q := DeliverAndBook(transport, waited, elapsed, old(stats));
    }

    /** Everything after the limiter, with the request entered in the history. */
    method DeliverAndBook(transport: nat -> Outcome, ghost waited: bool, elapsed: int, ghost before: Statistics)
      returns (response: Outcome, attempts: nat, delays: seq<int>, ghost q: Request)
      requires Budget() >= 0 && before == ServeAll(served)
      requires stats == before.(total := before.total + 1, rateLimited := before.rateLimited + if waited then 1 else 0)
      modifies this`stats, this`served
      ensures attempts == LastAttempt(transport, HttpRetries, Budget(), 0) + 1
      ensures HttpLast(transport, if retriesEnabled then maxRetries else 0, attempts - 1)
      ensures response == transport(attempts - 1)
      ensures delays == Delays(backoff, attempts - 1)
      ensures q == Request(Budget(), transport, waited, elapsed) && served == old(served) + [q]
      ensures stats == Serve(before, q) == ServeAll(served)
      ensures stats.successful == before.successful + if response.Reply? && 200 <= response.status <= 299 then 1 else 0
      ensures stats.failed == before.failed + if response.Reply? && !(200 <= response.status <= 299) then 1 else 0
    {
      response, attempts, delays := Deliver(transport, waited, elapsed, before);
      q := Request(Budget(), transport, waited, elapsed);
      ServeAllAppend(served, q);
      served := served + [q];
    }

    /** The retry loop and the closing bookkeeping. */
    method Deliver(transport: nat -> Outcome, ghost waited: bool, elapsed: int, ghost before: Statistics)
      returns (response: Outcome, attempts: nat, delays: seq<int>)
      requires Budget() >= 0
      requires stats == before.(total := before.total + 1, rateLimited := before.rateLimited + if waited then 1 else 0)
      modifies this`stats
      ensures attempts == LastAttempt(transport, HttpRetries, Budget(), 0) + 1
      ensures HttpLast(transport, if retriesEnabled then maxRetries else 0, attempts - 1)
      ensures response == transport(attempts - 1)
      ensures delays == Delays(backoff, attempts - 1)
      ensures stats == Tally(before, attempts - 1, response, waited, elapsed)
    {
      response, attempts, delays := Send(transport);
      if response.Reply? {
        Record(response, elapsed);
      }
    }
  }
}
