/** The client of the delegated proving service: its token cache and its submission loop. */
module Proving {
  import opened Common
  import Decimal
  import Retry

  /** Times are in nanoseconds. */
  const BUFFER := 300 * Retry.SECOND
  const HOUR := 3600 * Retry.SECOND

  // ---- token cache

  /** The cached token and the expiry recorded for it; the empty token means none. */
  datatype Cache = Cache(jwt: string, exp: int)

  /** The service's answer to a token request; `authorization` is the response header, empty if it is missing. */
  datatype JwtReply = TransportError(msg: string) | Response(status: int, authorization: string)

  /** One call of GetJWT: the clock at its start, the reply if it asks for a token, and the clock when that arrives. */
  datatype Call = Call(now: int, reply: JwtReply, later: int)

  function FetchJWT(reply: JwtReply): Option<string> {
    if reply.TransportError? || (reply.status != 200 && reply.status != 201) || reply.authorization == "" then None
    else Some(reply.authorization)
  }

  /** The expiry recorded for a token; `claim` reads the exp claim, where there is a usable one. */
  function Expiry(claim: string -> Option<int>, token: string, now: int): int {
    match claim(token)
    case Some(exp) => exp
    case None => now + HOUR
  }

  predicate Fresh(c: Cache, now: int) {
    c.jwt != "" && now < c.exp - BUFFER
  }

  /** One call: the cache afterwards and the token returned, None for an error. */
  function Serve(claim: string -> Option<int>, c: Cache, call: Call): (Cache, Option<string>) {
    if Fresh(c, call.now) then (c, Some(c.jwt))
    else match FetchJWT(call.reply)
      case None => (c, None)
      case Some(jwt) => (Cache(jwt, Expiry(claim, jwt, call.later)), Some(jwt))
  }

  const NANOS: int := 1_000_000_000

  /** The token that the service hands out: the header of a 200 or 201 answer, if it is not empty. */
  ghost predicate HandsOut(reply: JwtReply, token: string) {
    reply.Response? && (reply.status == 200 || reply.status == 201) && reply.authorization == token && token != ""
  }

  /** A cached token with more than 300 seconds left is returned, and nothing changes. */
  lemma CachedTokenServed(claim: string -> Option<int>, c: Cache, call: Call)
    requires c.jwt != "" && call.now + 300 * NANOS < c.exp
    ensures Serve(claim, c, call) == (c, Some(c.jwt))
  {
  }

  /**
   Otherwise the service is asked. Its token is returned and cached, with its exp claim as the expiry, or an hour from
   then if it has no usable one; without a token an error is returned and nothing changes.
   */
  lemma OtherwiseFetched(claim: string -> Option<int>, c: Cache, call: Call)
    requires c.jwt == "" || c.exp <= call.now + 300 * NANOS
    ensures var (c', token) := Serve(claim, c, call);
      && (forall t :: token == Some(t) <==> HandsOut(call.reply, t))
      && (token.None? ==> c' == c)
      && (token.Some? ==>
            && c'.jwt == token.value
            && (claim(token.value).Some? ==> c'.exp == claim(token.value).value)
            && (claim(token.value).None? ==> c'.exp == call.later + 3600 * NANOS))
  {
  }

  class TokenCache {
    var jwt: string
    var jwtExp: int

    constructor ()
      ensures State() == Cache("", 0)
    {
      jwt := "";
      jwtExp := 0;
    }

    ghost function State(): Cache
      reads this
    {
      Cache(jwt, jwtExp)
    }

    method GetJWT(claim: string -> Option<int>, call: Call) returns (token: Option<string>)
      modifies this
      ensures (State(), token) == Serve(claim, old(State()), call)
      ensures old(jwt) != "" && call.now + 300 * NANOS < old(jwtExp) ==>
        token == Some(old(jwt)) && jwt == old(jwt) && jwtExp == old(jwtExp)
      ensures old(jwt) == "" || old(jwtExp) <= call.now + 300 * NANOS ==>
        && (forall t :: token == Some(t) <==> HandsOut(call.reply, t))
        && (token.Some? ==> jwt == token.value && jwtExp == Expiry(claim, jwt, call.later))
        && (token.None? ==> jwt == old(jwt) && jwtExp == old(jwtExp))
    {
      if jwt != "" && call.now < jwtExp - BUFFER {
        return Some(jwt);
      }
      token := FetchJWT(call.reply);
      if token.Some? {
        jwt := token.value;
        jwtExp := Expiry(claim, token.value, call.later);
      }
    }
  }

  // ---- histories of calls

  /** The calls follow one another in time. */
  ghost predicate Clocked(calls: seq<Call>, start: int) {
    calls == [] || (start <= calls[0].now <= calls[0].later && Clocked(calls[1..], calls[0].later))
  }

  /** The cache after a history of calls. */
  function CacheAfter(claim: string -> Option<int>, c: Cache, calls: seq<Call>): Cache
    decreases calls
  {
    if calls == [] then c else CacheAfter(claim, Serve(claim, c, calls[0]).0, calls[1..])
  }

  /** Whether a call asks the service and gets a token. */
  predicate Fetches(c: Cache, call: Call) {
    !Fresh(c, call.now) && FetchJWT(call.reply).Some?
  }

  function FetchCount(claim: string -> Option<int>, c: Cache, calls: seq<Call>): nat
    decreases calls
  {
    if calls == [] then 0
    else (if Fetches(c, calls[0]) then 1 else 0) + FetchCount(claim, Serve(claim, c, calls[0]).0, calls[1..])
  }

  /** The call fetched the cached token, and the recorded expiry is the one that token has. */
  ghost predicate Recorded(claim: string -> Option<int>, c: Cache, call: Call) {
    FetchJWT(call.reply) == Some(c.jwt) && c.exp == Expiry(claim, c.jwt, call.later)
  }

  /** After any history of calls the cache is as it was, or holds the token of one of them, with its own expiry. */
  lemma {:induction false} CachedTokenWasFetched(claim: string -> Option<int>, c: Cache, calls: seq<Call>)
    ensures var c' := CacheAfter(claim, c, calls);
      c' == c || exists i :: 0 <= i < |calls| && Recorded(claim, c', calls[i])
    decreases calls
  {
    if calls != [] {
      var c1 := Serve(claim, c, calls[0]).0;
      CachedTokenWasFetched(claim, c1, calls[1..]);
      var c' := CacheAfter(claim, c1, calls[1..]);
      if c' == c1 {
        assert c1 != c ==> Recorded(claim, c1, calls[0]);
      } else {
        var i :| 0 <= i < |calls[1..]| && Recorded(claim, c', calls[1..][i]);
        assert calls[1..][i] == calls[i + 1];
      }
    }
  }

  /**
   A token handed out without asking the service was fetched by an earlier call and has more than five minutes left
   before its expiry; a call that asks and fails leaves the cache as it was.
   */
  lemma ServedTokenIsAlive(claim: string -> Option<int>, calls: seq<Call>, call: Call)
    ensures
      var c := CacheAfter(claim, Cache("", 0), calls);
      var (c', token) := Serve(claim, c, call);
      && (token.Some? && !Fetches(c, call) ==>
            exists i :: 0 <= i < |calls| && FetchJWT(calls[i].reply) == token
                        && call.now + 300 * NANOS < Expiry(claim, token.value, calls[i].later))
      && (token.None? ==> c' == c)
  {
    var c := CacheAfter(claim, Cache("", 0), calls);
    CachedTokenWasFetched(claim, Cache("", 0), calls);
    if Fresh(c, call.now) {
      var i :| 0 <= i < |calls| && Recorded(claim, c, calls[i]);
    }
  }

  /** Every call of a history starts more than 300 seconds before `exp`. */
  ghost predicate AllBefore(calls: seq<Call>, exp: int) {
    forall i :: 0 <= i < |calls| ==> calls[i].now + 300 * NANOS < exp
  }

  /** While a cached token has more than 300 seconds left, every call returns it, and it stays cached. */
  lemma {:induction false} TokenIsServedOn(claim: string -> Option<int>, c: Cache, calls: seq<Call>, call: Call)
    requires c.jwt != "" && AllBefore(calls, c.exp) && call.now + 300 * NANOS < c.exp
    ensures CacheAfter(claim, c, calls) == c && Serve(claim, CacheAfter(claim, c, calls), call).1 == Some(c.jwt)
    decreases calls
  {
    if calls == [] {
      CachedTokenServed(claim, c, call);
    } else {
      CachedTokenServed(claim, c, calls[0]);
      assert forall i :: 0 <= i < |calls| - 1 ==> calls[1..][i] == calls[i + 1];
      TokenIsServedOn(claim, c, calls[1..], call);
    }
  }

  /** After a call that fetched a token, every call more than 300 seconds before its expiry returns the same token. */
  lemma FetchedTokenServedOn(claim: string -> Option<int>, c: Cache, first: Call, calls: seq<Call>, call: Call,
                             token: string, exp: int)
    requires c.jwt == "" || c.exp <= first.now + 300 * NANOS
    requires HandsOut(first.reply, token)
    requires exp == if claim(token).Some? then claim(token).value else first.later + 3600 * NANOS
    requires AllBefore(calls, exp) && call.now + 300 * NANOS < exp
    ensures Serve(claim, CacheAfter(claim, c, [first] + calls), call).1 == Some(token)
  {
    OtherwiseFetched(claim, c, first);
    var c1 := Serve(claim, c, first).0;
    assert c1 == Cache(token, exp);
    TokenIsServedOn(claim, c1, calls, call);
    assert ([first] + calls)[0] == first && ([first] + calls)[1..] == calls;
  }

  /** Every token fetched lives at least `life`. */
  ghost predicate Lives(claim: string -> Option<int>, calls: seq<Call>, life: int) {
    forall i :: 0 <= i < |calls| && FetchJWT(calls[i].reply).Some? ==>
      calls[i].later + life <= Expiry(claim, FetchJWT(calls[i].reply).value, calls[i].later)
  }

  /** With a token cached at time `t`, fetches are at least `life - BUFFER` apart. */
  lemma {:induction false} FetchesAreSpaced(claim: string -> Option<int>, c: Cache, calls: seq<Call>, t: int, life: int)
    requires Clocked(calls, t) && Lives(claim, calls, life) && life > BUFFER
    requires c.jwt != "" && t + life <= c.exp
    ensures calls != [] ==> FetchCount(claim, c, calls) * (life - BUFFER) <= Last(calls).now - t
    ensures calls == [] ==> FetchCount(claim, c, calls) == 0
    decreases calls
  {
    if calls != [] {
      var call, rest := calls[0], calls[1..];
      var c1 := Serve(claim, c, call).0;
      LivesTail(claim, calls, life);
      ClockedTail(calls, t);
      if Fetches(c, call) {
        assert call.later + life <= c1.exp && t + life - BUFFER <= call.now;
        FetchesAreSpaced(claim, c1, rest, call.later, life);
        OneMore(FetchCount(claim, c1, rest), life - BUFFER);
      } else {
        FetchesAreSpaced(claim, c, rest, t, life);
      }
    }
  }

  lemma OneMore(n: nat, d: int)
    ensures (n + 1) * d == n * d + d
  {
  }

  lemma LivesTail(claim: string -> Option<int>, calls: seq<Call>, life: int)
    requires calls != [] && Lives(claim, calls, life)
    ensures Lives(claim, calls[1..], life)
  {
    assert forall i :: 0 <= i < |calls| - 1 ==> calls[1..][i] == calls[i + 1];
  }

  lemma {:induction false} ClockedTail(calls: seq<Call>, t: int)
    requires calls != [] && Clocked(calls, t)
    ensures Clocked(calls[1..], calls[0].later) && Clocked(calls[1..], t)
    ensures t <= calls[0].now <= calls[0].later <= (if |calls| > 1 then Last(calls).now else calls[0].later)
  {
    if |calls| > 1 {
      ClockedTail(calls[1..], calls[0].later);
    }
  }

  /** Whatever is cached at first: all fetches but the first are at least `life - BUFFER` after the one before. */
  lemma {:induction false} FetchesFromAny(claim: string -> Option<int>, c: Cache, calls: seq<Call>, t: int, life: int)
    requires calls != [] && Clocked(calls, t) && Lives(claim, calls, life) && life > BUFFER
    ensures (FetchCount(claim, c, calls) - 1) * (life - BUFFER) <= Last(calls).now - calls[0].now
    decreases calls
  {
    var call, rest := calls[0], calls[1..];
    var c1 := Serve(claim, c, call).0;
    LivesTail(claim, calls, life);
    ClockedTail(calls, t);
    if Fetches(c, call) {
      FetchesAreSpaced(claim, c1, rest, call.later, life);
      assert FetchCount(claim, c, calls) - 1 == FetchCount(claim, c1, rest);
    } else if rest != [] {
      FetchesFromAny(claim, c1, rest, call.later, life);
    } else {
      assert (0 - 1) * (life - BUFFER) <= 0;
    }
  }

  lemma QuotientBound(n: int, d: int, span: int)
    requires d > 0 && (n - 1) * d <= span
    ensures n <= 1 + span / d
  {
    var q := span / d;
    assert span == q * d + span % d && span % d < d;
    assert (n - 1) * d < (q + 1) * d;
  }

  /**
   If every token fetched lives `life` > 5 min, the calls within a time span fetch at most 1 + span / (life - 5 min)
   tokens, wherever in a run the span lies and whatever is cached when it begins.
   */
  lemma FetchesAreRare(claim: string -> Option<int>, c: Cache, calls: seq<Call>, t: int, life: int)
    requires calls != [] && Clocked(calls, t) && Lives(claim, calls, life) && life > BUFFER
    ensures FetchCount(claim, c, calls) <= 1 + (Last(calls).now - calls[0].now) / (life - BUFFER)
  {
    FetchesFromAny(claim, c, calls, t, life);
    QuotientBound(FetchCount(claim, c, calls), life - BUFFER, Last(calls).now - calls[0].now);
  }

  /** Tokens that live five minutes or less are never served from the cache: every call asks the service. */
  lemma {:induction false} ShortTokensNeverCached(claim: string -> Option<int>, c: Cache, calls: seq<Call>, t: int,
                                                 call: Call)
    requires Clocked(calls + [call], t) && !Fresh(c, t)
    requires forall i :: 0 <= i < |calls| && FetchJWT(calls[i].reply).Some? ==>
      Expiry(claim, FetchJWT(calls[i].reply).value, calls[i].later) <= calls[i].later + BUFFER
    ensures !Fresh(CacheAfter(claim, c, calls), call.now)
    decreases calls
  {
    if calls != [] {
      assert (calls + [call])[1..] == calls[1..] + [call];
      ClockedTail(calls + [call], t);
      assert forall i :: 0 <= i < |calls| - 1 ==> calls[1..][i] == calls[i + 1];
      ShortTokensNeverCached(claim, Serve(claim, c, calls[0]).0, calls[1..], calls[0].later, call);
    }
  }

  // ---- submissions

  datatype ProvingResult = Good(data: string) | Bad(status: int, message: string)

  /** How one submission ends: a transport or encoding error, or the prover's HTTP response. */
  datatype Submission = Broken(err: string) | Answered(status: nat, body: string)

  /** One attempt: whether the context ends during the backoff before it, and the submission. */
  datatype Attempt = Attempt(cancelBackoff: bool, submission: Submission)

  datatype Submitted = NoToken | Cancelled | Error(err: string) | Result(result: ProvingResult)

  /** How the prover's JSON bodies are read: the proving response, and the message field of an error. */
  datatype Bodies = Bodies(response: string -> Option<string>, message: string -> Option<string>)

  function ExtractErrMsg(b: Bodies, body: string, status: nat): string {
    if b.message(body).Some? && b.message(body).value != "" then b.message(body).value
    else if body != "" then body
    else "HTTP " + Decimal.Print(status)
  }

  function HandleProvingResponse(b: Bodies, status: nat, body: string): ProvingResult {
    if status == 200 || status == 201 then
      match b.response(body)
      case Some(data) => Good(data)
      case None => Bad(status, "invalid proving response format")
    else Bad(status, ExtractErrMsg(b, body, status))
  }

  const EXHAUSTED := Bad(503, "max retries exceeded")

  /** What a call of the submission loop returns, how many submissions it sends, and the backoffs it sleeps. */
  datatype Delivery = Delivery(outcome: Submitted, submissions: nat, sleeps: seq<int>)

  /** A call that has already sent `n` submissions and slept `sleeps` and goes on as `d`. */
  function After(n: nat, sleeps: seq<int>, d: Delivery): Delivery {
    Delivery(d.outcome, n + d.submissions, sleeps + d.sleeps)
  }

  /** The backoff before an attempt; none before the first. */
  function Backoff(base: int, attempt: nat): seq<int> {
    if attempt > 0 then [Retry.Delay(base, attempt)] else []
  }

  /** The submission loop from a given attempt on. */
  function Submit(b: Bodies, maxRetries: int, base: int, env: nat -> Attempt, attempt: nat): Delivery
    decreases maxRetries - attempt
  {
    if attempt > maxRetries then Delivery(Result(EXHAUSTED), 0, [])
    else
      var a := env(attempt);
      var slept := Backoff(base, attempt);
      if attempt > 0 && a.cancelBackoff then Delivery(Cancelled, 0, [])
      else match a.submission
        case Broken(err) => Delivery(Error(err), 1, slept)
        case Answered(status, body) =>
          var result := HandleProvingResponse(b, status, body);
          if result.Bad? && (result.status == 500 || result.status == 503) then
            After(1, slept, Submit(b, maxRetries, base, env, attempt + 1))
          else Delivery(Result(result), 1, slept)
  }

  /** Submits with the token obtained beforehand; None is the error result of GetJWT. */
  method SubmitProvingRequestSafe(b: Bodies, maxRetries: int, baseDelay: int, jwt: Option<string>, env: nat -> Attempt)
    returns (r: Submitted, submissions: nat, sleeps: seq<int>)
    ensures Delivery(r, submissions, sleeps)
         == if jwt.None? then Delivery(NoToken, 0, []) else Submit(b, maxRetries, baseDelay, env, 0)
  {
    submissions, sleeps := 0, [];
    if jwt.None? {
      return NoToken, 0, [];
    }
    var attempt: nat := 0;
    while attempt <= maxRetries
      invariant Submit(b, maxRetries, baseDelay, env, 0)
             == After(submissions, sleeps, Submit(b, maxRetries, baseDelay, env, attempt))
      decreases maxRetries - attempt
    {
      var a := env(attempt);
      ghost var before := sleeps;
      if attempt > 0 {
        if a.cancelBackoff {
          return Cancelled, submissions, sleeps;
        }
        sleeps := sleeps + [Retry.Delay(baseDelay, attempt)];
      }
      assert sleeps == before + Backoff(baseDelay, attempt);
      submissions := submissions + 1;
      if a.submission.Broken? {
        return Error(a.submission.err), submissions, sleeps;
      }
      var result := HandleProvingResponse(b, a.submission.status, a.submission.body);
      if result.Good? || (result.status != 500 && result.status != 503) {
        return Result(result), submissions, sleeps;
      }
      ghost var rest := Submit(b, maxRetries, baseDelay, env, attempt + 1);
      AfterAfter(submissions - 1, before, Backoff(baseDelay, attempt), rest);
      attempt := attempt + 1;
    }
    r := Result(EXHAUSTED);
  }

  lemma AfterAfter(n: nat, sleeps: seq<int>, more: seq<int>, d: Delivery)
    ensures After(n, sleeps, After(1, more, d)) == After(n + 1, sleeps + more, d)
  {
    assert sleeps + (more + d.sleeps) == sleeps + more + d.sleeps;
  }

  /** A submission is retried exactly when the prover answers 500 or 503. */
  predicate Retried(s: Submission) {
    s.Answered? && (s.status == 500 || s.status == 503)
  }

  function FirstSettled(maxRetries: int, env: nat -> Attempt, attempt: nat): (f: nat)
    requires attempt <= maxRetries + 1
    ensures attempt <= f <= maxRetries + 1 && forall k: nat :: attempt <= k < f ==> Retried(env(k).submission)
    ensures f <= maxRetries ==> !Retried(env(f).submission)
    decreases maxRetries - attempt
  {
    if attempt > maxRetries || !Retried(env(attempt).submission) then attempt
    else FirstSettled(maxRetries, env, attempt + 1)
  }

  function Settled(b: Bodies, s: Submission): Submitted {
    match s
    case Broken(err) => Error(err)
    case Answered(status, body) => Result(HandleProvingResponse(b, status, body))
  }

  /** What a caller is told of an answer. */
  lemma AnswerRead(b: Bodies, status: nat, body: string)
    ensures
      var r := HandleProvingResponse(b, status, body);
      var ok := status == 200 || status == 201;
      && (forall data :: r == Good(data) <==> ok && b.response(body) == Some(data))
      && (r.Bad? ==> r.status == status)
      && (r.Bad? && ok ==> r.message == "invalid proving response format")
      && (r.Bad? && !ok ==>
            if b.message(body).Some? && b.message(body).value != "" then r.message == b.message(body).value
            else if body != "" then r.message == body
            else r.message == "HTTP " + Decimal.Print(status))
  {
  }

  /** The backoffs before the attempts from `attempt` up to `to`. */
  function Backoffs(base: int, attempt: nat, to: nat): seq<int>
    decreases if attempt < to then to - attempt else 0
  {
    if attempt >= to then [] else Backoff(base, attempt) + Backoffs(base, attempt + 1, to)
  }

  /**
   While the context is live, the result is that of the first submission the prover does not answer with 500 or 503,
   which is also the last one sent; when there is none, maxRetries+1 are sent and a made-up status 503 is returned.
   */
  lemma {:induction false} SubmitReturnsFirstSettled(b: Bodies, maxRetries: int, base: int, env: nat -> Attempt,
                                                     attempt: nat)
    requires attempt <= maxRetries + 1 && forall k: nat :: !env(k).cancelBackoff
    ensures
      var f := FirstSettled(maxRetries, env, attempt);
      var sent := (if f <= maxRetries then f + 1 else maxRetries + 1) - attempt;
      Submit(b, maxRetries, base, env, attempt)
      == Delivery(if f <= maxRetries then Settled(b, env(f).submission) else Result(EXHAUSTED), sent,
                  Backoffs(base, attempt, attempt + sent))
    decreases maxRetries - attempt
  {
    if attempt <= maxRetries && Retried(env(attempt).submission) {
      SubmitReturnsFirstSettled(b, maxRetries, base, env, attempt + 1);
    } else if attempt <= maxRetries {
      assert Backoffs(base, attempt, attempt + 1) == Backoff(base, attempt);
    }
  }

  /**
   The outcome of every call, interrupted or not: at the first attempt whose backoff is cut short, the context's error;
   at the first submission not answered with 500 or 503, its error or what the answer says; failing both, a made-up 503.
   */
  lemma {:induction false} SubmitEnds(b: Bodies, maxRetries: int, base: int, env: nat -> Attempt, attempt: nat, f: nat)
    requires attempt <= f <= maxRetries + 1
    requires forall k: nat :: attempt <= k < f ==> Retried(env(k).submission) && !(k > 0 && env(k).cancelBackoff)
    requires f <= maxRetries ==> !Retried(env(f).submission) || (f > 0 && env(f).cancelBackoff)
    ensures
      var d := Submit(b, maxRetries, base, env, attempt);
      if f > maxRetries then
        d.submissions == f - attempt && d.outcome == Result(Bad(503, "max retries exceeded"))
      else if f > 0 && env(f).cancelBackoff then d.submissions == f - attempt && d.outcome == Cancelled
      else
        && d.submissions == f - attempt + 1
        && match env(f).submission
           case Broken(err) => d.outcome == Error(err)
           case Answered(status, body) => d.outcome == Result(HandleProvingResponse(b, status, body))
    decreases f - attempt
  {
    if attempt < f {
      SubmitEnds(b, maxRetries, base, env, attempt + 1, f);
    }
  }

  function Total(sleeps: seq<int>): int {
    if sleeps == [] then 0 else sleeps[0] + Total(sleeps[1..])
  }

  lemma {:induction false} BackoffsAddUp(maxRetries: int, base: int, attempt: nat, to: nat)
    requires Retry.NoOverflow(maxRetries, base) && 0 < attempt <= to <= maxRetries + 1
    ensures Total(Backoffs(base, attempt, to)) == Retry.BackoffTotal(base, attempt, to)
    decreases if attempt < to then to - attempt else 0
  {
    if attempt < to {
      Retry.BackoffInRange(maxRetries, base, attempt);
      BackoffsAddUp(maxRetries, base, attempt + 1, to);
      assert Backoffs(base, attempt, to)[1..] == Backoffs(base, attempt + 1, to);
    }
  }

  lemma BackoffsFromStart(maxRetries: int, base: int, n: nat)
    requires Retry.NoOverflow(maxRetries, base) && 0 < n <= maxRetries + 1
    ensures Total(Backoffs(base, 0, n)) == base * (Retry.Pow2(n - 1) - 1)
  {
    assert Backoffs(base, 0, n) == Backoffs(base, 1, n);
    BackoffsAddUp(maxRetries, base, 1, n);
    Retry.BackoffTotalClosed(base, 1, n);
  }

  lemma SubmitBackoffs(b: Bodies, maxRetries: int, base: int, env: nat -> Attempt)
    requires maxRetries >= 0 && forall k: nat :: !env(k).cancelBackoff
    ensures var d := Submit(b, maxRetries, base, env, 0);
      1 <= d.submissions <= maxRetries + 1 && d.sleeps == Backoffs(base, 0, d.submissions)
  {
    SubmitReturnsFirstSettled(b, maxRetries, base, env, 0);
  }

  /** Without overflow, a live call that sends `n` submissions sleeps baseDelay * (2^(n-1) - 1). */
  lemma SubmitSleepIsExponential(b: Bodies, maxRetries: int, base: int, env: nat -> Attempt)
    requires Retry.NoOverflow(maxRetries, base) && maxRetries >= 0 && forall k: nat :: !env(k).cancelBackoff
    ensures var d := Submit(b, maxRetries, base, env, 0);
      && 1 <= d.submissions <= maxRetries + 1
      && Total(d.sleeps) == base * (Retry.Pow2(d.submissions - 1) - 1)
  {
    var d := Submit(b, maxRetries, base, env, 0);
    SubmitBackoffs(b, maxRetries, base, env);
    BackoffsFromStart(maxRetries, base, d.submissions);
  }
}
