/** The retry loop of GET requests to a node, and its backoff arithmetic. */
module Retry {
  import opened Common

  const MIN_INT64 := -0x8000_0000_0000_0000
  const SECOND := 1_000_000_000

  // ---- int64 durations

  /** Signed 64-bit wrap-around. */
  function Wrap64(n: int): int {
    (n - MIN_INT64) % 0x1_0000_0000_0000_0000 + MIN_INT64
  }

  function Pow2(k: nat): nat {
    if k == 0 then 1 else 2 * Pow2(k - 1)
  }

  /** time.Duration(math.Pow(2, k)): exact up to 2^62, the lowest int64 where the conversion overflows on amd64. */
  function PowDuration(k: nat): int {
    if k < 63 then Pow2(k) else MIN_INT64
  }

  /** The backoff before the given attempt, in nanoseconds. */
  function Delay(base: int, attempt: nat): int
    requires attempt > 0
  {
    Wrap64(base * PowDuration(attempt - 1))
  }

  lemma Wrap64Exact(n: int)
    ensures Wrap64(n) == n <==> MIN_INT64 <= n < -MIN_INT64
    ensures MIN_INT64 <= Wrap64(n) < -MIN_INT64
  {
  }

  lemma {:induction false} Pow2Monotone(j: nat, k: nat)
    requires j <= k
    ensures Pow2(j) <= Pow2(k)
  {
    if j < k {
      Pow2Monotone(j, k - 1);
    }
  }

  lemma {:induction false} Pow2Sum(j: nat, k: nat)
    ensures Pow2(j + k) == Pow2(j) * Pow2(k)
  {
    if j > 0 {
      Pow2Sum(j - 1, k);
      var a: int, b: int := Pow2(j - 1), Pow2(k);
      assert Pow2(j) == 2 * a && Pow2(j + k) == 2 * (a * b);
      assert 2 * (a * b) == (2 * a) * b;
    }
  }

  lemma Pow2At63()
    ensures Pow2(63) == -MIN_INT64
  {
    assert Pow2(1) == 2 && Pow2(3) == 8;
    Pow2Sum(3, 3);
    Pow2Sum(1, 6);
    Pow2Sum(7, 7);
    Pow2Sum(7, 14);
    Pow2Sum(21, 21);
    Pow2Sum(21, 42);
  }

  lemma ProductBounds(base: int, n: nat)
    ensures base > 0 ==> base * n >= n
    ensures base < -1 ==> base * n <= -2 * n
  {
  }

  /** The backoff is the exponential one exactly when that one fits in an int64; otherwise it is some other value. */
  lemma DelayExactIff(base: int, attempt: nat)
    requires attempt > 0
    ensures Delay(base, attempt) == base * Pow2(attempt - 1)
       <==> MIN_INT64 <= base * Pow2(attempt - 1) < -MIN_INT64
  {
    var k := attempt - 1;
    var exact := base * Pow2(k);
    Wrap64Exact(base * PowDuration(k));
    if k < 63 {
      assert base * PowDuration(k) == exact;
    } else {
      Pow2At63();
      Pow2Monotone(63, k);
      ProductBounds(base, Pow2(k));
      if base == -1 {
        assert Delay(base, attempt) == Wrap64(-MIN_INT64) == MIN_INT64;
      }
    }
  }

  /** The default base of 500 ms overflows at the 36th retry: the delay comes out negative, so there is no wait. */
  lemma LongBackoffIsNegative()
    ensures Delay(500_000_000, 36) == -1_266_874_889_709_551_616
  {
    assert Pow2(1) == 2 && Pow2(3) == 8;
    Pow2Sum(1, 3);
    Pow2Sum(1, 4);
    Pow2Sum(5, 5);
    Pow2Sum(10, 10);
    Pow2Sum(10, 5);
    Pow2Sum(20, 15);
    assert Pow2(35) == 34_359_738_368;
  }

  // ---- GET

  datatype Reply =
    | TransportError(msg: string)
    | ReadError(msg: string)
    | Http(status: int, body: string, retryAfter: Option<int>)

  /**
   What happens to one attempt: whether the context ends during the backoff before it, the rate limiter's error,
   the reply, and whether the context ends while a Retry-After is honoured.
   */
  datatype Attempt = Attempt(cancelBackoff: bool, limiterError: Option<string>, reply: Reply, cancelRetryAfter: bool)

  datatype Error = Cancelled | Limited(msg: string) | Failed(msg: string) | Status(code: int, body: string)

  /** The pair (body, error) that the loop returns. */
  datatype Outcome = Outcome(body: Option<string>, err: Option<Error>)

  datatype Sleep = Backoff(ns: int) | RetryAfter(ns: int)

  /** A whole call: what it returns, how many requests it sent, and what it slept. */
  datatype Trace = Trace(outcome: Outcome, requests: nat, sleeps: seq<Sleep>)

  /** A call that has already sent `requests` and slept `sleeps` and goes on as `t`. */
  function After(requests: nat, sleeps: seq<Sleep>, t: Trace): Trace {
    Trace(t.outcome, requests + t.requests, sleeps + t.sleeps)
  }

  function ErrorOf(r: Reply): Error {
    match r
    case TransportError(m) => Failed(m)
    case ReadError(m) => Failed(m)
    case Http(status, body, _) => Status(status, body)
  }

  predicate Retryable(r: Reply) {
    match r
    case Http(status, _, _) => status != 200 && (status == 429 || status >= 500)
    case _ => true
  }

  /** The honoured Retry-After of a reply; `retryAfter` is the header as an integer, if it is one. */
  function Honoured(r: Reply): seq<Sleep> {
    match r
    case Http(429, _, Some(secs)) => if secs > 0 then [RetryAfter(Wrap64(secs * SECOND))] else []
    case _ => []
  }

  /** A Retry-After is waited for as long as it says exactly when that many nanoseconds fit in an int64. */
  lemma HonouredExactIff(body: string, secs: int)
    requires secs > 0
    ensures Honoured(Http(429, body, Some(secs))) == [RetryAfter(secs * SECOND)] <==> secs * SECOND < -MIN_INT64
  {
    Wrap64Exact(secs * SECOND);
  }

  /** A Retry-After of some 292 years is not waited for at all: its duration comes out negative. */
  lemma LongRetryAfterIsNegative(body: string)
    ensures Honoured(Http(429, body, Some(9_223_372_037))) == [RetryAfter(-9_223_372_036_709_551_616)]
  {
    assert 9_223_372_037 * SECOND == 9_223_372_037_000_000_000;
  }

  /** What one attempt does: it ends the call, or it sleeps and lets the loop go on. */
  datatype Verdict = Stop(t: Trace) | Again(sleeps: seq<Sleep>)

  function Try(base: int, attempt: nat, a: Attempt): Verdict {
    if attempt > 0 && a.cancelBackoff then Stop(Trace(Outcome(None, Some(Cancelled)), 0, []))
    else
      var slept := if attempt > 0 then [Backoff(Delay(base, attempt))] else [];
      if a.limiterError.Some? then Stop(Trace(Outcome(None, Some(Limited(a.limiterError.value))), 0, slept))
      else if !Retryable(a.reply) then Stop(Trace(FinalOutcome(a.reply), 1, slept))
      else if Honoured(a.reply) != [] && a.cancelRetryAfter then Stop(Trace(Outcome(None, Some(Cancelled)), 1, slept))
      else Again(slept + Honoured(a.reply))
  }

  function FinalOutcome(r: Reply): Outcome
    requires !Retryable(r)
  {
    if r.status == 200 then Outcome(Some(r.body), None) else Outcome(None, Some(ErrorOf(r)))
  }

  /** The loop from a given attempt on. */
  function Run(maxRetries: int, base: int, env: nat -> Attempt, attempt: nat, lastErr: Option<Error>): Trace
    decreases maxRetries - attempt
  {
    if attempt > maxRetries then Trace(Outcome(None, lastErr), 0, [])
    else match Try(base, attempt, env(attempt))
      case Stop(t) => t
      case Again(slept) => After(1, slept, Run(maxRetries, base, env, attempt + 1, Some(ErrorOf(env(attempt).reply))))
  }

  lemma AfterAfter(requests: nat, sleeps: seq<Sleep>, more: seq<Sleep>, t: Trace)
    ensures After(requests, sleeps, After(1, more, t)) == After(requests + 1, sleeps + more, t)
  {
    assert sleeps + (more + t.sleeps) == sleeps + more + t.sleeps;
  }

  class RetryingClient {
    const maxRetries: int
    const baseDelay: int

    constructor (maxRetries: int, baseDelay: int)
      ensures this.maxRetries == maxRetries && this.baseDelay == baseDelay
    {
      this.maxRetries := maxRetries;
      this.baseDelay := baseDelay;
    }

    method Get(env: nat -> Attempt) returns (outcome: Outcome, requests: nat, sleeps: seq<Sleep>)
      ensures Trace(outcome, requests, sleeps) == Run(maxRetries, baseDelay, env, 0, None)
      ensures maxRetries >= 0 ==>
        var f := FirstEnd(maxRetries, env, 0);
        if f <= maxRetries then f <= requests <= f + 1 && EndsWith(f, env(f), outcome, requests == f + 1)
        else requests == maxRetries + 1 && outcome.body.None? && outcome.err.Some?
             && LastError(env(maxRetries), outcome.err.value)
    {
      hide Delay, Wrap64, FirstEnd, EndsWith, LastError;
      if maxRetries >= 0 {
        GetEnds(maxRetries, baseDelay, env);
      }
      var lastErr: Option<Error> := None;
      requests, sleeps := 0, [];
      var attempt: nat := 0;
      while attempt <= maxRetries
        invariant Run(maxRetries, baseDelay, env, 0, None)
               == After(requests, sleeps, Run(maxRetries, baseDelay, env, attempt, lastErr))
        decreases maxRetries - attempt
      {
        var a := env(attempt);
        ghost var verdict := Try(baseDelay, attempt, a);
        ghost var r0, s0 := requests, sleeps;
        if attempt > 0 {
          if a.cancelBackoff {
            return Outcome(None, Some(Cancelled)), requests, sleeps;
          }
          sleeps := sleeps + [Backoff(Delay(baseDelay, attempt))];
        }
        if a.limiterError.Some? {
          assert verdict.Stop? && sleeps == s0 + verdict.t.sleeps;
          return Outcome(None, Some(Limited(a.limiterError.value))), requests, sleeps;
        }
        requests := requests + 1;
        lastErr := Some(ErrorOf(a.reply));
        if a.reply.Http? {
          if a.reply.status == 200 {
            assert verdict.Stop? && sleeps == s0 + verdict.t.sleeps;
            return Outcome(Some(a.reply.body), None), requests, sleeps;
          }
          if a.reply.status == 429 || a.reply.status >= 500 {
            if a.reply.status == 429 && a.reply.retryAfter.Some? && a.reply.retryAfter.value > 0 {
              if a.cancelRetryAfter {
                assert verdict.Stop? && sleeps == s0 + verdict.t.sleeps;
                return Outcome(None, Some(Cancelled)), requests, sleeps;
              }
              sleeps := sleeps + [RetryAfter(Wrap64(a.reply.retryAfter.value * SECOND))];
            }
          } else {
            assert verdict.Stop? && sleeps == s0 + verdict.t.sleeps;
            return Outcome(None, lastErr), requests, sleeps;
          }
        }
        assert verdict.Again? && sleeps == s0 + verdict.sleeps;
        AfterAfter(r0, s0, verdict.sleeps, Run(maxRetries, baseDelay, env, attempt + 1, lastErr));
        attempt := attempt + 1;
      }
      outcome := Outcome(None, lastErr);
    }
  }

  /** The context stays live and the rate limiter permits every attempt. */
  ghost predicate Undisturbed(env: nat -> Attempt) {
    forall k: nat :: !env(k).cancelBackoff && env(k).limiterError.None? && !env(k).cancelRetryAfter
  }

  lemma {:induction false} GetStopsAt(maxRetries: int, base: int, env: nat -> Attempt, attempt: nat,
                                      lastErr: Option<Error>, f: nat)
    requires Undisturbed(env) && attempt <= f <= maxRetries
    requires (forall k: nat :: attempt <= k < f ==> Retryable(env(k).reply)) && !Retryable(env(f).reply)
    ensures var t := Run(maxRetries, base, env, attempt, lastErr);
      t.requests == f - attempt + 1 && t.outcome == FinalOutcome(env(f).reply)
    decreases f - attempt
  {
    if attempt < f {
      GetStopsAt(maxRetries, base, env, attempt + 1, Some(ErrorOf(env(attempt).reply)), f);
    }
  }

  lemma {:induction false} GetGivesUp(maxRetries: int, base: int, env: nat -> Attempt, attempt: nat,
                                      lastErr: Option<Error>)
    requires Undisturbed(env) && attempt <= maxRetries
    requires forall k: nat :: attempt <= k <= maxRetries ==> Retryable(env(k).reply)
    ensures var t := Run(maxRetries, base, env, attempt, lastErr);
      t.requests == maxRetries - attempt + 1 && t.outcome == Outcome(None, Some(ErrorOf(env(maxRetries).reply)))
    decreases maxRetries - attempt
  {
    if attempt < maxRetries {
      GetGivesUp(maxRetries, base, env, attempt + 1, Some(ErrorOf(env(attempt).reply)));
    }
  }

  /** The first attempt from `attempt` on whose reply ends the loop, or one past the last attempt. */
  function FirstFinal(maxRetries: int, env: nat -> Attempt, attempt: nat): (f: nat)
    requires attempt <= maxRetries + 1
    ensures attempt <= f <= maxRetries + 1 && forall k: nat :: attempt <= k < f ==> Retryable(env(k).reply)
    ensures f <= maxRetries ==> !Retryable(env(f).reply)
    decreases maxRetries - attempt
  {
    if attempt > maxRetries || !Retryable(env(attempt).reply) then attempt
    else FirstFinal(maxRetries, env, attempt + 1)
  }

  /** The result is that of the first reply that is not retried, which ends the requests; or else the last error. */
  lemma GetReturnsFirstFinal(maxRetries: int, base: int, env: nat -> Attempt)
    requires maxRetries >= 0 && Undisturbed(env)
    ensures
      var t := Run(maxRetries, base, env, 0, None);
      var f := FirstFinal(maxRetries, env, 0);
      && t.requests == (if f <= maxRetries then f + 1 else maxRetries + 1)
      && t.outcome == if f <= maxRetries then FinalOutcome(env(f).reply)
                      else Outcome(None, Some(ErrorOf(env(maxRetries).reply)))
  {
    var f := FirstFinal(maxRetries, env, 0);
    if f <= maxRetries {
      GetStopsAt(maxRetries, base, env, 0, None, f);
    } else {
      GetGivesUp(maxRetries, base, env, 0, None);
    }
  }

  // ---- the outcome in terms of what happened

  /** The attempt is not the first and its backoff is interrupted. */
  predicate StoppedBefore(k: nat, a: Attempt) {
    k > 0 && a.cancelBackoff
  }

  /** The reply is a 429 whose Retry-After is being waited for when the context ends. */
  predicate StoppedAfter(a: Attempt) {
    a.reply.Http? && a.reply.status == 429 && a.reply.retryAfter.Some? && a.reply.retryAfter.value > 0
    && a.cancelRetryAfter
  }

  /** The reply is an error that the loop tries again: no reply at all, an unreadable one, status 429, or 500 and up. */
  predicate TriedAgain(a: Attempt) {
    a.reply.Http? ==> a.reply.status == 429 || a.reply.status >= 500
  }

  /** After this attempt comes another one, if there is one left. */
  predicate GoesOn(k: nat, a: Attempt) {
    !StoppedBefore(k, a) && a.limiterError.None? && TriedAgain(a) && !StoppedAfter(a)
  }

  /** What the call returns if it ends at this attempt, and whether that attempt sent a request. */
  ghost predicate EndsWith(k: nat, a: Attempt, outcome: Outcome, sent: bool) {
    if StoppedBefore(k, a) then outcome == Outcome(None, Some(Cancelled)) && !sent
    else if a.limiterError.Some? then outcome == Outcome(None, Some(Limited(a.limiterError.value))) && !sent
    else if TriedAgain(a) then outcome == Outcome(None, Some(Cancelled)) && sent
    else if a.reply.status == 200 then outcome == Outcome(Some(a.reply.body), None) && sent
    else outcome == Outcome(None, Some(Status(a.reply.status, a.reply.body))) && sent
  }

  /** The error that remains when the attempts run out. */
  ghost predicate LastError(a: Attempt, e: Error) {
    match a.reply
    case TransportError(m) => e == Failed(m)
    case ReadError(m) => e == Failed(m)
    case Http(status, body, _) => e == Status(status, body)
  }

  /** Every call ends at the first attempt that does not go on, whatever came before it. */
  lemma {:induction false} GetEndsAt(maxRetries: int, base: int, env: nat -> Attempt, attempt: nat,
                                     lastErr: Option<Error>, f: nat)
    requires attempt <= f <= maxRetries && !GoesOn(f, env(f))
    requires forall k: nat :: attempt <= k < f ==> GoesOn(k, env(k))
    ensures
      var t := Run(maxRetries, base, env, attempt, lastErr);
      attempt + t.requests <= f + 1 && f <= attempt + t.requests
      && EndsWith(f, env(f), t.outcome, attempt + t.requests == f + 1)
    decreases f - attempt
  {
    if attempt < f {
      GetEndsAt(maxRetries, base, env, attempt + 1, Some(ErrorOf(env(attempt).reply)), f);
    }
  }

  /** When every attempt goes on, maxRetries+1 requests are sent and the last error is returned. */
  lemma {:induction false} GetRunsOut(maxRetries: int, base: int, env: nat -> Attempt, attempt: nat,
                                      lastErr: Option<Error>)
    requires attempt <= maxRetries && forall k: nat :: attempt <= k <= maxRetries ==> GoesOn(k, env(k))
    ensures
      var t := Run(maxRetries, base, env, attempt, lastErr);
      && t.requests == maxRetries + 1 - attempt && t.outcome.body.None? && t.outcome.err.Some?
      && LastError(env(maxRetries), t.outcome.err.value)
    decreases maxRetries - attempt
  {
    if attempt < maxRetries {
      GetRunsOut(maxRetries, base, env, attempt + 1, Some(ErrorOf(env(attempt).reply)));
    }
  }

  /** The first attempt that does not go on, or one past the last attempt. */
  function FirstEnd(maxRetries: int, env: nat -> Attempt, attempt: nat): (f: nat)
    requires attempt <= maxRetries + 1
    ensures attempt <= f <= maxRetries + 1 && forall k: nat :: attempt <= k < f ==> GoesOn(k, env(k))
    ensures f <= maxRetries ==> !GoesOn(f, env(f))
    decreases maxRetries - attempt
  {
    if attempt > maxRetries || !GoesOn(attempt, env(attempt)) then attempt
    else FirstEnd(maxRetries, env, attempt + 1)
  }

  /**
   The outcome of every call, interrupted or not. A backoff or a Retry-After cut short gives the context's error, the
   limiter's error is returned as it is, a 200 gives its body, any other status below 500 but 429 is returned as the
   error; after nothing but replies that are tried again, the last error is returned.
   */
  lemma GetEnds(maxRetries: int, base: int, env: nat -> Attempt)
    requires maxRetries >= 0
    ensures
      var t := Run(maxRetries, base, env, 0, None);
      var f := FirstEnd(maxRetries, env, 0);
      if f <= maxRetries then f <= t.requests <= f + 1 && EndsWith(f, env(f), t.outcome, t.requests == f + 1)
      else t.requests == maxRetries + 1 && t.outcome.body.None? && t.outcome.err.Some?
           && LastError(env(maxRetries), t.outcome.err.value)
  {
    var f := FirstEnd(maxRetries, env, 0);
    if f <= maxRetries {
      GetEndsAt(maxRetries, base, env, 0, None, f);
    } else {
      GetRunsOut(maxRetries, base, env, 0, None);
    }
  }

  /** A 500 is tried again. */
  lemma ServerErrorRetried(base: int, env: nat -> Attempt, body: string)
    requires Undisturbed(env)
    requires env(0).reply == Http(500, "busy", None) && env(1).reply == Http(200, body, None)
    ensures Run(3, base, env, 0, None).outcome == Outcome(Some(body), None)
  {
    GetEndsAt(3, base, env, 0, None, 1);
  }

  /** Whatever happens, at most maxRetries+1 requests are sent. */
  lemma {:induction false} RequestsBounded(maxRetries: int, base: int, env: nat -> Attempt, attempt: nat,
                                           lastErr: Option<Error>)
    requires attempt <= maxRetries + 1
    ensures Run(maxRetries, base, env, attempt, lastErr).requests <= maxRetries + 1 - attempt
    decreases maxRetries - attempt
  {
    if attempt <= maxRetries {
      RequestsBounded(maxRetries, base, env, attempt + 1, Some(ErrorOf(env(attempt).reply)));
    }
  }

  /** With a negative retry count nothing is sent and the loop returns neither a body nor an error. */
  lemma NegativeRetriesReturnNothing(maxRetries: int, base: int, env: nat -> Attempt)
    ensures Run(maxRetries, base, env, 0, None).outcome == Outcome(None, None) <==> maxRetries < 0
  {
    if maxRetries >= 0 {
      SomethingReturned(maxRetries, base, env, 0, None);
    }
  }

  lemma {:induction false} SomethingReturned(maxRetries: int, base: int, env: nat -> Attempt, attempt: nat,
                                             lastErr: Option<Error>)
    requires attempt <= maxRetries || lastErr.Some?
    ensures var o := Run(maxRetries, base, env, attempt, lastErr).outcome; o.body.Some? <==> o.err.None?
    decreases maxRetries - attempt
  {
    if attempt <= maxRetries {
      SomethingReturned(maxRetries, base, env, attempt + 1, Some(ErrorOf(env(attempt).reply)));
    }
  }

  // ---- time slept

  function TotalSleep(sleeps: seq<Sleep>): int {
    if sleeps == [] then 0 else sleeps[0].ns + TotalSleep(sleeps[1..])
  }

  lemma {:induction false} TotalSleepConcat(a: seq<Sleep>, b: seq<Sleep>)
    ensures TotalSleep(a + b) == TotalSleep(a) + TotalSleep(b)
  {
    if a == [] {
      assert a + b == b;
    } else {
      assert (a + b)[1..] == a[1..] + b;
      TotalSleepConcat(a[1..], b);
    }
  }

  /** The honoured Retry-After times of the replies to the attempts from `from` up to `to`. */
  function HonouredTotal(env: nat -> Attempt, from: nat, to: nat): int
    decreases to - from
  {
    if from >= to then 0 else TotalSleep(Honoured(env(from).reply)) + HonouredTotal(env, from + 1, to)
  }

  /** The seconds that a reply asks to wait, where the loop honours that. */
  function RetryAfterSeconds(r: Reply): nat {
    match r
    case Http(429, _, Some(secs)) => if secs > 0 then secs else 0
    case _ => 0
  }

  function SecondsTotal(env: nat -> Attempt, from: nat, to: nat): nat
    decreases if from < to then to - from else 0
  {
    if from >= to then 0 else RetryAfterSeconds(env(from).reply) + SecondsTotal(env, from + 1, to)
  }

  /** The headers of the replies to the attempts from `from` up to `to` fit in an int64 of nanoseconds. */
  ghost predicate HeadersFit(env: nat -> Attempt, from: nat, to: nat) {
    forall k: nat :: from <= k < to ==> RetryAfterSeconds(env(k).reply) * SECOND < -MIN_INT64
  }

  lemma {:induction false} HonouredInSeconds(env: nat -> Attempt, from: nat, to: nat)
    requires HeadersFit(env, from, to)
    ensures HonouredTotal(env, from, to) == SecondsTotal(env, from, to) * SECOND
    decreases if from < to then to - from else 0
  {
    if from < to {
      HonouredInSeconds(env, from + 1, to);
      var r := env(from).reply;
      Wrap64Exact(RetryAfterSeconds(r) * SECOND);
      assert TotalSleep(Honoured(r)) == RetryAfterSeconds(r) * SECOND;
    }
  }

  /** The exponential backoffs before the attempts from `attempt` up to `to`. */
  function BackoffTotal(base: int, attempt: nat, to: nat): int
    requires attempt > 0
    decreases if attempt < to then to - attempt else 0
  {
    if attempt >= to then 0 else base * Pow2(attempt - 1) + BackoffTotal(base, attempt + 1, to)
  }

  lemma {:induction false} BackoffTotalClosed(base: int, attempt: nat, to: nat)
    requires 0 < attempt <= to
    ensures BackoffTotal(base, attempt, to) == base * (Pow2(to - 1) - Pow2(attempt - 1))
    decreases if attempt < to then to - attempt else 0
  {
    if attempt < to {
      BackoffTotalClosed(base, attempt + 1, to);
      var p: int, q: int := Pow2(attempt - 1), Pow2(to - 1);
      assert Pow2(attempt) == 2 * p;
      assert base * p + base * (q - 2 * p) == base * (q - p);
    }
  }

  predicate NoOverflow(maxRetries: int, base: int) {
    0 <= base && (maxRetries >= 1 ==> base * Pow2(maxRetries - 1) < -MIN_INT64)
  }

  lemma ProductMonotone(base: int, m: nat, n: nat)
    requires base >= 0 && m <= n
    ensures base * m <= base * n
  {
  }

  lemma BackoffInRange(maxRetries: int, base: int, attempt: nat)
    requires NoOverflow(maxRetries, base) && 0 < attempt <= maxRetries
    ensures Delay(base, attempt) == base * Pow2(attempt - 1)
  {
    var low, high := Pow2(attempt - 1), Pow2(maxRetries - 1);
    Pow2Monotone(attempt - 1, maxRetries - 1);
    Pow2Monotone(0, attempt - 1);
    ProductMonotone(base, 1, low);
    ProductMonotone(base, low, high);
    DelayExactIff(base, attempt);
  }

  lemma {:induction false} SleepFrom(maxRetries: int, base: int, env: nat -> Attempt, attempt: nat,
                                     lastErr: Option<Error>)
    requires Undisturbed(env) && NoOverflow(maxRetries, base) && 0 < attempt <= maxRetries + 1
    ensures var t := Run(maxRetries, base, env, attempt, lastErr);
      TotalSleep(t.sleeps) == BackoffTotal(base, attempt, attempt + t.requests)
                            + HonouredTotal(env, attempt, attempt + t.requests)
    decreases maxRetries - attempt
  {
    hide Delay, Wrap64;
    if attempt <= maxRetries {
      var a := env(attempt);
      var slept := [Backoff(Delay(base, attempt))];
      BackoffInRange(maxRetries, base, attempt);
      var t := Run(maxRetries, base, env, attempt, lastErr);
      if Retryable(a.reply) {
        var rest := Run(maxRetries, base, env, attempt + 1, Some(ErrorOf(a.reply)));
        SleepFrom(maxRetries, base, env, attempt + 1, Some(ErrorOf(a.reply)));
        TotalSleepConcat(slept, Honoured(a.reply));
        TotalSleepConcat(slept + Honoured(a.reply), rest.sleeps);
      }
    }
  }

  /**
   Without overflow of the backoff, a call that sends r requests sleeps baseDelay * (2^(r-1) - 1) plus the honoured
   Retry-After durations of all its replies, the last one's included; where none of those overflows, they add up to the
   seconds that the headers say.
   */
  lemma SleepIsExponential(maxRetries: int, base: int, env: nat -> Attempt)
    requires Undisturbed(env) && maxRetries >= 0 && NoOverflow(maxRetries, base)
    ensures var t := Run(maxRetries, base, env, 0, None);
      && t.requests >= 1
      && TotalSleep(t.sleeps) == base * (Pow2(t.requests - 1) - 1) + HonouredTotal(env, 0, t.requests)
      && (HeadersFit(env, 0, t.requests) ==>
            TotalSleep(t.sleeps) == base * (Pow2(t.requests - 1) - 1) + SecondsTotal(env, 0, t.requests) * SECOND)
  {
    var a := env(0);
    var t := Run(maxRetries, base, env, 0, None);
    BackoffTotalClosed(base, 1, t.requests);
    if Retryable(a.reply) {
      FirstSleeps(maxRetries, base, env);
    }
    if HeadersFit(env, 0, t.requests) {
      HonouredInSeconds(env, 0, t.requests);
    }
  }

  lemma FirstSleeps(maxRetries: int, base: int, env: nat -> Attempt)
    requires Undisturbed(env) && maxRetries >= 0 && NoOverflow(maxRetries, base) && Retryable(env(0).reply)
    ensures var t := Run(maxRetries, base, env, 0, None);
      TotalSleep(t.sleeps) == BackoffTotal(base, 1, t.requests) + HonouredTotal(env, 0, t.requests)
  {
    var r := env(0).reply;
    var t := Run(maxRetries, base, env, 0, None);
    var rest := Run(maxRetries, base, env, 1, Some(ErrorOf(r)));
    assert Try(base, 0, env(0)) == Again([] + Honoured(r));
    SleepFrom(maxRetries, base, env, 1, Some(ErrorOf(r)));
    assert t.sleeps == Honoured(r) + rest.sleeps;
    TotalSleepConcat(Honoured(r), rest.sleeps);
  }
}
