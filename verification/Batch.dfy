/**
 ExecuteBatch as a transition system: one goroutine per request, an eight-slot semaphore, a wait group, one result
 slot per request, and one program cache shared by all of them. A schedule is any interleaving of the steps.
 */
module Batch {
  import opened Common

  const MAX_CONCURRENCY := 8

  /** What a program fetch returns: the source, or None for an error. */
  type Answer = Option<string>

  datatype ExecuteResult = ExecuteResult(txID: string, err: Option<string>)

  /**
   The environment of one batch: the number of requests, the network snapshot, and the programs each request asks for.
   `ask(i, h)` is the program that request `i` asks for after receiving the answers `h`, or None when it asks no more.
   */
  datatype Env = Env(n: nat, net: Sources, ask: (nat, seq<Answer>) -> Option<string>)

  /**
   Where a goroutine is. `Asking`, `Missed` and `Fetched` are inside Execute: between fetches, after a cache miss,
   and after the network's reply. From `Returned` on the phase carries the result that Execute returned.
   */
  datatype Phase =
    | NotStarted
    | Queued
    | Asking
    | Missed(id: string)
    | Fetched(id: string, answer: Answer)
    | Returned(result: ExecuteResult)
    | Stored(result: ExecuteResult)
    | Released(result: ExecuteResult)
    | Finished(result: ExecuteResult)

  datatype Worker = Worker(phase: Phase, history: seq<Answer>)

  /** The caller: before wg.Add(1) and before `go` of request `i`, in wg.Wait, after it. */
  datatype Caller = Adding(i: nat) | Starting(i: nat) | Joining | Joined

  datatype State = State(caller: Caller, workers: seq<Worker>, sem: nat, wg: nat, cache: Sources,
                         results: seq<Option<ExecuteResult>>, writes: seq<nat>)

  /** One step of a goroutine. */
  datatype Op = Acquire | Load | Fetch | Keep | Return(result: ExecuteResult) | Write | Release | Finish

  datatype Action = Add | Spawn | Join | Work(i: nat, op: Op)

  function Lookup(m: Sources, id: string): Answer {
    if id in m then Some(m[id]) else None
  }

  function Init(e: Env, cache: Sources): State {
    State(if e.n == 0 then Joining else Adding(0), seq(e.n, _ => Worker(NotStarted, [])), 0, 0, cache,
          seq(e.n, _ => None), seq(e.n, _ => 0))
  }

  predicate CanWork(e: Env, s: State, i: nat, op: Op)
    requires i < |s.workers|
  {
    var w := s.workers[i];
    match op
    case Acquire => w.phase.Queued? && s.sem < MAX_CONCURRENCY
    case Load => w.phase.Asking? && e.ask(i, w.history).Some?
    case Fetch => w.phase.Missed?
    case Keep => w.phase.Fetched?
    case Return(_) => w.phase.Asking? && e.ask(i, w.history).None?
    case Write => w.phase.Returned? && i < |s.results| && i < |s.writes|
    case Release => w.phase.Stored? && s.sem > 0
    case Finish => w.phase.Released? && s.wg > 0
  }

  predicate Enabled(e: Env, s: State, a: Action) {
    match a
    case Add => s.caller.Adding?
    case Spawn => s.caller.Starting? && s.caller.i < |s.workers|
    case Join => s.caller.Joining? && s.wg == 0
    case Work(i, op) => i < |s.workers| && CanWork(e, s, i, op)
  }

  /** The goroutine after one step. */
  function Moved(e: Env, s: State, i: nat, op: Op): Worker
    requires i < |s.workers| && CanWork(e, s, i, op)
  {
    var w := s.workers[i];
    match op
    case Acquire => w.(phase := Asking)
    case Load =>
      var id := e.ask(i, w.history).value;
      if id in s.cache then Worker(Asking, w.history + [Some(s.cache[id])]) else w.(phase := Missed(id))
    case Fetch => w.(phase := Fetched(w.phase.id, Lookup(e.net, w.phase.id)))
    case Keep => Worker(Asking, w.history + [w.phase.answer])
    case Return(r) => w.(phase := Returned(r))
    case Write => w.(phase := Stored(w.phase.result))
    case Release => w.(phase := Released(w.phase.result))
    case Finish => w.(phase := Finished(w.phase.result))
  }

  /** What one step of a goroutine does to the shared variables. */
  function Shared(e: Env, s: State, i: nat, op: Op): State
    requires i < |s.workers| && CanWork(e, s, i, op)
  {
    var w := s.workers[i];
    match op
    case Acquire => s.(sem := s.sem + 1)
    case Keep => if w.phase.answer.Some? then s.(cache := s.cache[w.phase.id := w.phase.answer.value]) else s
    case Write => s.(results := s.results[i := Some(w.phase.result)], writes := s.writes[i := s.writes[i] + 1])
    case Release => s.(sem := s.sem - 1)
    case Finish => s.(wg := s.wg - 1)
    case _ => s
  }

  function Step(e: Env, s: State, a: Action): State
    requires Enabled(e, s, a)
  {
    match a
    case Add => s.(caller := Starting(s.caller.i), wg := s.wg + 1)
    case Spawn =>
      var i := s.caller.i;
      s.(workers := s.workers[i := s.workers[i].(phase := Queued)],
         caller := if i + 1 < e.n then Adding(i + 1) else Joining)
    case Join => s.(caller := Joined)
    case Work(i, op) => Shared(e, s, i, op).(workers := s.workers[i := Moved(e, s, i, op)])
  }

  /** The state after a schedule, if every step of the schedule was enabled. */
  function After(e: Env, cache: Sources, schedule: seq<Action>): Option<State> {
    if schedule == [] then Some(Init(e, cache))
    else match After(e, cache, schedule[..|schedule| - 1])
      case None => None
      case Some(s) => if Enabled(e, s, Last(schedule)) then Some(Step(e, s, Last(schedule))) else None
  }

  // ---- counting workers

  function Sum(ws: seq<Worker>, f: (nat, Worker) -> nat): nat {
    if ws == [] then 0 else Sum(ws[..|ws| - 1], f) + f(|ws| - 1, Last(ws))
  }

  lemma {:induction false} SumUpdate(ws: seq<Worker>, f: (nat, Worker) -> nat, i: nat, w: Worker)
    requires i < |ws|
    ensures Sum(ws[i := w], f) + f(i, ws[i]) == Sum(ws, f) + f(i, w)
  {
    var n := |ws| - 1;
    if i < n {
      assert ws[i := w][..n] == ws[..n][i := w];
      SumUpdate(ws[..n], f, i, w);
    } else {
      assert ws[i := w][..n] == ws[..n];
    }
  }

  lemma {:induction false} SumZero(ws: seq<Worker>, f: (nat, Worker) -> nat)
    ensures Sum(ws, f) == 0 <==> forall i :: 0 <= i < |ws| ==> f(i, ws[i]) == 0
  {
    if ws != [] {
      SumZero(ws[..|ws| - 1], f);
      assert forall i :: 0 <= i < |ws| - 1 ==> ws[..|ws| - 1][i] == ws[i];
    }
  }

  predicate Holds(w: Worker) {
    w.phase.Asking? || w.phase.Missed? || w.phase.Fetched? || w.phase.Returned? || w.phase.Stored?
  }

  predicate Live(w: Worker) {
    Holds(w) || w.phase.Queued? || w.phase.Released?
  }

  function HoldsWeight(i: nat, w: Worker): nat {
    if Holds(w) then 1 else 0
  }

  function LiveWeight(i: nat, w: Worker): nat {
    if Live(w) then 1 else 0
  }

  /** The workers between acquiring and releasing the semaphore. */
  function Holders(s: State): nat {
    Sum(s.workers, HoldsWeight)
  }

  // ---- invariant

  /** `h` is what request `i` sees when it runs alone against the snapshot, with no cache. */
  ghost predicate Solo(e: Env, i: nat, h: seq<Answer>) {
    forall k :: 0 <= k < |h| ==> e.ask(i, h[..k]).Some? && h[k] == Lookup(e.net, e.ask(i, h[..k]).value)
  }

  ghost predicate WorkerInv(e: Env, i: nat, w: Worker, slot: Option<ExecuteResult>, writes: nat) {
    && Solo(e, i, w.history)
    && (match w.phase
        case NotStarted => w.history == []
        case Queued => w.history == []
        case Asking => true
        case Missed(id) => e.ask(i, w.history) == Some(id)
        case Fetched(id, answer) => e.ask(i, w.history) == Some(id) && answer == Lookup(e.net, id)
        case _ => e.ask(i, w.history) == None)
    && (match w.phase
        case Stored(r) => slot == Some(r) && writes == 1
        case Released(r) => slot == Some(r) && writes == 1
        case Finished(r) => slot == Some(r) && writes == 1
        case _ => slot == None && writes == 0)
  }

  function Spawned(e: Env, c: Caller): nat {
    match c
    case Adding(i) => i
    case Starting(i) => i
    case _ => e.n
  }

  /** The semaphore counts the workers that hold a slot, the wait group those that are not done. */
  ghost predicate Counted(s: State) {
    && s.sem == Holders(s) && s.sem <= MAX_CONCURRENCY
    && s.wg == Sum(s.workers, LiveWeight) + (if s.caller.Starting? then 1 else 0)
  }

  /** The goroutines started so far are those before the caller's position. */
  ghost predicate Started(e: Env, s: State) {
    && |s.workers| == |s.results| == |s.writes| == e.n
    && (s.caller.Adding? || s.caller.Starting? ==> s.caller.i < e.n)
    && (forall i :: 0 <= i < e.n ==> (s.workers[i].phase.NotStarted? <==> Spawned(e, s.caller) <= i))
  }

  ghost predicate Inv(e: Env, s: State) {
    && Started(e, s)
    && (forall i :: 0 <= i < e.n ==> WorkerInv(e, i, s.workers[i], s.results[i], s.writes[i]))
    && Counted(s)
    && (s.caller.Joined? ==> s.wg == 0)
    && Agrees(e.net, s.cache)
  }

  lemma InitInv(e: Env, cache: Sources)
    requires Agrees(e.net, cache)
    ensures Inv(e, Init(e, cache))
  {
    SumZero(Init(e, cache).workers, HoldsWeight);
    SumZero(Init(e, cache).workers, LiveWeight);
  }

  lemma SoloExtend(e: Env, i: nat, h: seq<Answer>, id: string)
    requires Solo(e, i, h) && e.ask(i, h) == Some(id)
    ensures Solo(e, i, h + [Lookup(e.net, id)])
  {
    var h' := h + [Lookup(e.net, id)];
    forall k | 0 <= k < |h'| ensures e.ask(i, h'[..k]).Some? && h'[k] == Lookup(e.net, e.ask(i, h'[..k]).value) {
      if k < |h| {
        assert h'[..k] == h[..k];
      } else {
        assert h'[..k] == h;
      }
    }
  }

  /** A goroutine's own step keeps its part of the invariant. */
  lemma MovedInv(e: Env, s: State, i: nat, op: Op)
    requires i < |s.workers| && i < |s.results| && i < |s.writes| && CanWork(e, s, i, op) && Agrees(e.net, s.cache)
    requires WorkerInv(e, i, s.workers[i], s.results[i], s.writes[i])
    ensures var s' := Shared(e, s, i, op);
      && |s'.results| == |s.results| && |s'.writes| == |s.writes|
      && WorkerInv(e, i, Moved(e, s, i, op), s'.results[i], s'.writes[i])
  {
    var w := s.workers[i];
    if op.Load? || op.Keep? {
      SoloExtend(e, i, w.history, e.ask(i, w.history).value);
    }
  }

  lemma StepWorkerInv(e: Env, s: State, a: Action, i: nat)
    requires Inv(e, s) && Enabled(e, s, a) && i < e.n
    ensures var s' := Step(e, s, a);
      |s'.workers| == |s'.results| == |s'.writes| == e.n && WorkerInv(e, i, s'.workers[i], s'.results[i], s'.writes[i])
  {
    assert WorkerInv(e, i, s.workers[i], s.results[i], s.writes[i]);
    if a.Work? && a.i == i {
      MovedInv(e, s, i, a.op);
    }
  }

  lemma StepStarted(e: Env, s: State, a: Action)
    requires Started(e, s) && Enabled(e, s, a)
    ensures Started(e, Step(e, s, a))
  {
  }

  lemma MovedWeights(e: Env, s: State, i: nat, op: Op)
    requires i < |s.workers| && CanWork(e, s, i, op)
    ensures var s' := Shared(e, s, i, op);
      && HoldsWeight(i, Moved(e, s, i, op)) - HoldsWeight(i, s.workers[i]) == s'.sem - s.sem
      && LiveWeight(i, Moved(e, s, i, op)) - LiveWeight(i, s.workers[i]) == s'.wg - s.wg
      && s'.workers == s.workers && s'.caller == s.caller
      && (s.sem <= MAX_CONCURRENCY ==> s'.sem <= MAX_CONCURRENCY)
  {
  }

  lemma StepCounts(e: Env, s: State, a: Action)
    requires Counted(s) && Enabled(e, s, a)
    requires a.Spawn? ==> s.workers[s.caller.i].phase.NotStarted?
    ensures Counted(Step(e, s, a))
  {
    if a.Spawn? {
      var i := s.caller.i;
      SumUpdate(s.workers, HoldsWeight, i, s.workers[i].(phase := Queued));
      SumUpdate(s.workers, LiveWeight, i, s.workers[i].(phase := Queued));
    } else if a.Work? {
      MovedWeights(e, s, a.i, a.op);
      SumUpdate(s.workers, HoldsWeight, a.i, Moved(e, s, a.i, a.op));
      SumUpdate(s.workers, LiveWeight, a.i, Moved(e, s, a.i, a.op));
    }
  }

  lemma StepInv(e: Env, s: State, a: Action)
    requires Inv(e, s) && Enabled(e, s, a)
    ensures Inv(e, Step(e, s, a))
  {
    var s' := Step(e, s, a);
    StepStarted(e, s, a);
    StepCounts(e, s, a);
    StepCache(e, s, a);
    StepJoined(e, s, a);
    forall i | 0 <= i < e.n ensures WorkerInv(e, i, s'.workers[i], s'.results[i], s'.writes[i]) {
      StepWorkerInv(e, s, a, i);
    }
  }

  lemma StepJoined(e: Env, s: State, a: Action)
    requires Inv(e, s) && Enabled(e, s, a)
    ensures var s' := Step(e, s, a); s'.caller.Joined? ==> s'.wg == 0
  {
    if s.caller.Joined? {
      SumZero(s.workers, LiveWeight);
    }
  }

  /** The shared cache only grows and keeps agreeing with the snapshot, whoever stores into it. */
  lemma StepCache(e: Env, s: State, a: Action)
    requires Inv(e, s) && Enabled(e, s, a)
    ensures var s' := Step(e, s, a);
      Agrees(e.net, s'.cache) && s.cache.Keys <= s'.cache.Keys
  {
    if a.Work? {
      assert WorkerInv(e, a.i, s.workers[a.i], s.results[a.i], s.writes[a.i]);
    }
  }

  /** Every state of every schedule. */
  lemma {:induction false} ScheduleInv(e: Env, cache: Sources, schedule: seq<Action>)
    requires Agrees(e.net, cache) && After(e, cache, schedule).Some?
    ensures Inv(e, After(e, cache, schedule).value)
  {
    if schedule == [] {
      InitInv(e, cache);
    } else {
      ScheduleInv(e, cache, schedule[..|schedule| - 1]);
      StepInv(e, After(e, cache, schedule[..|schedule| - 1]).value, Last(schedule));
    }
  }

  // ---- safety

  function ResultOf(p: Phase): seq<ExecuteResult> {
    match p
    case Returned(r) => [r]
    case Stored(r) => [r]
    case Released(r) => [r]
    case Finished(r) => [r]
    case _ => []
  }

  /** The results that Execute returned to goroutine `i` in the course of a schedule. */
  function Returns(schedule: seq<Action>, i: nat): seq<ExecuteResult> {
    if schedule == [] then []
    else
      var a := Last(schedule);
      Returns(schedule[..|schedule| - 1], i)
      + if a.Work? && a.i == i && a.op.Return? then [a.op.result] else []
  }

  lemma StepResult(e: Env, s: State, a: Action, i: nat)
    requires i < |s.workers| && Enabled(e, s, a)
    requires a.Spawn? ==> s.workers[s.caller.i].phase.NotStarted?
    ensures ResultOf(Step(e, s, a).workers[i].phase)
         == ResultOf(s.workers[i].phase) + if a.Work? && a.i == i && a.op.Return? then [a.op.result] else []
  {
  }

  lemma {:induction false} ReturnsAtMostOnce(e: Env, cache: Sources, schedule: seq<Action>, i: nat)
    requires Agrees(e.net, cache) && After(e, cache, schedule).Some? && i < e.n
    ensures var s := After(e, cache, schedule).value;
      i < |s.workers| && Returns(schedule, i) == ResultOf(s.workers[i].phase)
  {
    ScheduleInv(e, cache, schedule);
    if schedule != [] {
      var before := schedule[..|schedule| - 1];
      ReturnsAtMostOnce(e, cache, before, i);
      ScheduleInv(e, cache, before);
      StepResult(e, After(e, cache, before).value, Last(schedule), i);
    }
  }

  /**
   At every point of every schedule at most eight goroutines hold a slot, the semaphore counts them, and no result is
   written twice.
   */
  lemma AtMostEightExecute(e: Env, cache: Sources, schedule: seq<Action>)
    requires Agrees(e.net, cache) && After(e, cache, schedule).Some?
    ensures var s := After(e, cache, schedule).value;
      && s.sem == Holders(s) <= 8
      && |s.writes| == e.n && forall i :: 0 <= i < e.n ==> s.writes[i] <= 1
  {
    ScheduleInv(e, cache, schedule);
    var s := After(e, cache, schedule).value;
    forall i | 0 <= i < e.n ensures s.writes[i] <= 1 {
      assert WorkerInv(e, i, s.workers[i], s.results[i], s.writes[i]);
    }
  }

  /** Once the caller is past wg.Wait every goroutine is done, the semaphore is empty, each slot was written once. */
  lemma JoinedMeansDone(e: Env, s: State)
    requires Inv(e, s) && s.caller.Joined?
    ensures s.sem == 0 && forall i :: 0 <= i < e.n ==> s.workers[i].phase.Finished? && s.writes[i] == 1
  {
    SumZero(s.workers, LiveWeight);
    forall i | 0 <= i < e.n ensures s.workers[i].phase.Finished? && s.writes[i] == 1 {
      assert LiveWeight(i, s.workers[i]) == 0 && WorkerInv(e, i, s.workers[i], s.results[i], s.writes[i]);
    }
    forall i | 0 <= i < e.n ensures HoldsWeight(i, s.workers[i]) == 0 {
      assert LiveWeight(i, s.workers[i]) == 0;
    }
    SumZero(s.workers, HoldsWeight);
  }

  /** Under every schedule the batch returns, for each request, the one result that its own Execute returned. */
  lemma BatchReturnsOwnResults(e: Env, cache: Sources, schedule: seq<Action>, i: nat)
    requires Agrees(e.net, cache) && After(e, cache, schedule).Some? && After(e, cache, schedule).value.caller.Joined?
    requires i < e.n
    ensures var s := After(e, cache, schedule).value;
      && |s.results| == |s.writes| == e.n
      && s.results[i].Some? && Returns(schedule, i) == [s.results[i].value] && s.writes[i] == 1
  {
    var s := After(e, cache, schedule).value;
    ScheduleInv(e, cache, schedule);
    JoinedMeansDone(e, s);
    ReturnsAtMostOnce(e, cache, schedule, i);
    assert WorkerInv(e, i, s.workers[i], s.results[i], s.writes[i]);
  }

  /** A request has at most one complete solo run. */
  lemma {:induction false} SoloUnique(e: Env, i: nat, h: seq<Answer>, h': seq<Answer>, k: nat)
    requires Solo(e, i, h) && Solo(e, i, h') && e.ask(i, h).None? && e.ask(i, h').None?
    requires k <= |h|
    ensures k <= |h'| && h[..k] == h'[..k]
  {
    if k > 0 {
      SoloUnique(e, i, h, h', k - 1);
      assert e.ask(i, h[..k - 1]).Some?;
      assert h'[..|h'|] == h';
      assert h[..k] == h[..k - 1] + [h[k - 1]] && h'[..k] == h'[..k - 1] + [h'[k - 1]];
    }
  }

  /**
   Sharing the cache is invisible: whatever two schedules and whatever two caches that agree with the snapshot, when
   both batches are joined each request has received the same answers, those of running alone on the snapshot.
   */
  lemma AnswersIndependentOfSchedule(e: Env, c1: Sources, schedule1: seq<Action>, c2: Sources, schedule2: seq<Action>,
                                     i: nat)
    requires Agrees(e.net, c1) && After(e, c1, schedule1).Some? && After(e, c1, schedule1).value.caller.Joined?
    requires Agrees(e.net, c2) && After(e, c2, schedule2).Some? && After(e, c2, schedule2).value.caller.Joined?
    requires i < e.n
    ensures
      var s1 := After(e, c1, schedule1).value;
      var s2 := After(e, c2, schedule2).value;
      && i < |s1.workers| && i < |s2.workers|
      && s1.workers[i].history == s2.workers[i].history
      && Solo(e, i, s1.workers[i].history) && e.ask(i, s1.workers[i].history).None?
  {
    var s1 := After(e, c1, schedule1).value;
    var s2 := After(e, c2, schedule2).value;
    ScheduleInv(e, c1, schedule1);
    ScheduleInv(e, c2, schedule2);
    JoinedMeansDone(e, s1);
    JoinedMeansDone(e, s2);
    assert WorkerInv(e, i, s1.workers[i], s1.results[i], s1.writes[i]);
    assert WorkerInv(e, i, s2.workers[i], s2.results[i], s2.writes[i]);
    var h1, h2 := s1.workers[i].history, s2.workers[i].history;
    SoloUnique(e, i, h1, h2, |h1|);
    SoloUnique(e, i, h2, h1, |h2|);
    assert h1[..|h1|] == h1 && h2[..|h2|] == h2;
  }

  /** Along a schedule the shared cache only grows, and it agrees with the snapshot at every point. */
  lemma {:induction false} CacheOnlyGrows(e: Env, cache: Sources, schedule: seq<Action>, k: nat)
    requires Agrees(e.net, cache) && After(e, cache, schedule).Some? && k <= |schedule|
    ensures
      && After(e, cache, schedule[..k]).Some?
      && After(e, cache, schedule[..k]).value.cache.Keys <= After(e, cache, schedule).value.cache.Keys
      && Agrees(e.net, After(e, cache, schedule[..k]).value.cache)
  {
    if k == |schedule| {
      assert schedule[..k] == schedule;
      ScheduleInv(e, cache, schedule);
    } else {
      var before := schedule[..|schedule| - 1];
      CacheOnlyGrows(e, cache, before, k);
      assert before[..k] == schedule[..k];
      ScheduleInv(e, cache, before);
      StepCache(e, After(e, cache, before).value, Last(schedule));
    }
  }

  // ---- what the cache holds

  /** Every successful answer in `h` is in the cache under the ID it was asked for. */
  ghost predicate Kept(e: Env, i: nat, h: seq<Answer>, cache: Sources) {
    forall k :: 0 <= k < |h| && h[k].Some? ==>
      var id := e.ask(i, h[..k]);
      id.Some? && id.value in cache && cache[id.value] == h[k].value
  }

  /** `id` was asked for and answered in some goroutine's history. */
  ghost predicate GotBy(e: Env, i: nat, h: seq<Answer>, id: string) {
    exists k :: 0 <= k < |h| && h[k].Some? && e.ask(i, h[..k]) == Some(id)
  }

  ghost predicate Got(e: Env, s: State, id: string) {
    exists i :: 0 <= i < |s.workers| && GotBy(e, i, s.workers[i].history, id)
  }

  /** The cache holds what it started with, every successful answer received, and nothing else. */
  ghost predicate CacheIs(e: Env, start: Sources, s: State) {
    && (forall id :: id in start ==> id in s.cache && s.cache[id] == start[id])
    && (forall i :: 0 <= i < |s.workers| ==> Kept(e, i, s.workers[i].history, s.cache))
    && (forall id :: id in s.cache ==> id in start || Got(e, s, id))
  }

  lemma KeptExtend(e: Env, i: nat, h: seq<Answer>, id: string, answer: Answer, cache: Sources)
    requires Kept(e, i, h, cache) && e.ask(i, h) == Some(id)
    requires answer.Some? ==> id in cache && cache[id] == answer.value
    ensures Kept(e, i, h + [answer], cache)
  {
    var h' := h + [answer];
    forall k | 0 <= k < |h'| && h'[k].Some?
      ensures var id' := e.ask(i, h'[..k]); id'.Some? && id'.value in cache && cache[id'.value] == h'[k].value
    {
      assert h'[..k] == h[..k];
      assert k == |h| ==> h[..k] == h;
    }
  }

  lemma GotExtend(e: Env, i: nat, h: seq<Answer>, more: seq<Answer>, id: string)
    requires GotBy(e, i, h, id)
    ensures GotBy(e, i, h + more, id)
  {
    var k :| 0 <= k < |h| && h[k].Some? && e.ask(i, h[..k]) == Some(id);
    assert (h + more)[..k] == h[..k] && (h + more)[k] == h[k];
  }

  lemma GotNow(e: Env, i: nat, h: seq<Answer>, id: string, source: string)
    requires e.ask(i, h) == Some(id)
    ensures GotBy(e, i, h + [Some(source)], id)
  {
    var h' := h + [Some(source)];
    assert h'[..|h|] == h && h'[|h|] == Some(source);
  }

  /** A step appends at most one answer to a history, and a successful one is in the cache by then. */
  lemma StepAnswers(e: Env, s: State, a: Action, i: nat) returns (more: seq<Answer>)
    requires Inv(e, s) && Enabled(e, s, a) && i < e.n
    ensures var s' := Step(e, s, a);
      && i < |s'.workers| && s'.workers[i].history == s.workers[i].history + more && |more| <= 1
      && (more != [] ==> e.ask(i, s.workers[i].history).Some?)
      && (more != [] && more[0].Some? ==>
            var id := e.ask(i, s.workers[i].history).value;
            id in s'.cache && s'.cache[id] == more[0].value)
  {
    var w := s.workers[i];
    assert WorkerInv(e, i, w, s.results[i], s.writes[i]);
    more := [];
    if a.Work? && a.i == i && (a.op.Load? || a.op.Keep?) {
      more := Step(e, s, a).workers[i].history[|w.history|..];
    }
  }

  /** No step takes anything out of the cache, or replaces anything in it. */
  lemma StepKeeps(e: Env, s: State, a: Action)
    requires Inv(e, s) && Enabled(e, s, a)
    ensures var s' := Step(e, s, a);
      |s'.workers| == |s.workers| && forall id :: id in s.cache ==> id in s'.cache && s'.cache[id] == s.cache[id]
  {
    if a.Work? {
      assert WorkerInv(e, a.i, s.workers[a.i], s.results[a.i], s.writes[a.i]);
    }
  }

  /** What a step adds to the cache, some goroutine has just received. */
  lemma StepAdds(e: Env, s: State, a: Action, id: string)
    requires Inv(e, s) && Enabled(e, s, a) && id in Step(e, s, a).cache && id !in s.cache
    ensures Got(e, Step(e, s, a), id)
  {
    assert a.Work? && a.op.Keep?;
    var w := s.workers[a.i];
    assert WorkerInv(e, a.i, w, s.results[a.i], s.writes[a.i]);
    GotNow(e, a.i, w.history, id, w.phase.answer.value);
    assert Step(e, s, a).workers[a.i].history == w.history + [Some(w.phase.answer.value)];
  }

  lemma StepCacheIs(e: Env, start: Sources, s: State, a: Action)
    requires Inv(e, s) && Enabled(e, s, a) && CacheIs(e, start, s)
    ensures CacheIs(e, start, Step(e, s, a))
  {
    var s' := Step(e, s, a);
    StepKeeps(e, s, a);
    forall i | 0 <= i < |s'.workers| ensures Kept(e, i, s'.workers[i].history, s'.cache) {
      var more := StepAnswers(e, s, a, i);
      var h := s.workers[i].history;
      assert Kept(e, i, h, s.cache);
      if more == [] {
        assert h + more == h;
      } else {
        assert more == [more[0]];
        KeptExtend(e, i, h, e.ask(i, h).value, more[0], s'.cache);
      }
    }
    forall id | id in s'.cache ensures id in start || Got(e, s', id) {
      if id !in s.cache {
        StepAdds(e, s, a, id);
      } else if id !in start {
        var i :| 0 <= i < |s.workers| && GotBy(e, i, s.workers[i].history, id);
        var more := StepAnswers(e, s, a, i);
        GotExtend(e, i, s.workers[i].history, more, id);
      }
    }
  }

  /**
   At every point of every schedule the shared cache holds what it started with, each successful answer that any
   goroutine has received, under the ID it was asked for, and nothing else.
   */
  lemma {:induction false} CacheHoldsAnswers(e: Env, cache: Sources, schedule: seq<Action>)
    requires Agrees(e.net, cache) && After(e, cache, schedule).Some?
    ensures CacheIs(e, cache, After(e, cache, schedule).value)
  {
    if schedule != [] {
      var before := schedule[..|schedule| - 1];
      CacheHoldsAnswers(e, cache, before);
      ScheduleInv(e, cache, before);
      StepCacheIs(e, cache, After(e, cache, before).value, Last(schedule));
    }
  }

  /** Once a program is cached, a goroutine that is not already on its way to the network never asks it there. */
  lemma {:induction false} CachedIsNotFetched(e: Env, cache: Sources, schedule: seq<Action>, k: nat, i: nat, id: string)
    requires Agrees(e.net, cache) && After(e, cache, schedule).Some? && k <= |schedule| && i < e.n
    requires var s := After(e, cache, schedule[..k]);
      s.Some? ==> id in s.value.cache && i < |s.value.workers| && s.value.workers[i].phase != Missed(id)
    ensures var s := After(e, cache, schedule).value;
      id in s.cache && i < |s.workers| && s.workers[i].phase != Missed(id)
  {
    if k == |schedule| {
      assert schedule[..k] == schedule;
    } else {
      var before := schedule[..|schedule| - 1];
      assert before[..k] == schedule[..k];
      CachedIsNotFetched(e, cache, before, k, i, id);
      ScheduleInv(e, cache, before);
      StepKeeps(e, After(e, cache, before).value, Last(schedule));
    }
  }

  /** A waiting goroutine can go on exactly while fewer than eight hold a slot. */
  lemma AcquireIff(e: Env, s: State, i: nat)
    requires Inv(e, s) && i < e.n
    ensures Enabled(e, s, Work(i, Acquire)) <==> s.workers[i].phase.Queued? && Holders(s) < 8
  {
  }

  // ---- liveness

  lemma {:induction false} SomeWeight(ws: seq<Worker>, f: (nat, Worker) -> nat) returns (i: nat)
    requires Sum(ws, f) > 0
    ensures i < |ws| && f(i, ws[i]) > 0
  {
    if f(|ws| - 1, Last(ws)) > 0 {
      i := |ws| - 1;
    } else {
      i := SomeWeight(ws[..|ws| - 1], f);
    }
  }

  lemma HolderCanMove(e: Env, s: State, i: nat) returns (a: Action)
    requires Inv(e, s) && i < e.n && (Holds(s.workers[i]) || s.workers[i].phase.Released?)
    ensures Enabled(e, s, a)
  {
    var w := s.workers[i];
    SumZero(s.workers, HoldsWeight);
    SumZero(s.workers, LiveWeight);
    assert LiveWeight(i, w) == 1 && (Holds(w) ==> HoldsWeight(i, w) == 1);
    a := match w.phase
      case Asking => Work(i, if e.ask(i, w.history).Some? then Load else Return(ExecuteResult("", None)))
      case Missed(_) => Work(i, Fetch)
      case Fetched(_, _) => Work(i, Keep)
      case Returned(_) => Work(i, Write)
      case Stored(_) => Work(i, Release)
      case _ => Work(i, Finish);
  }

  /** No deadlock: until the batch is joined, some step is enabled. */
  lemma Progress(e: Env, s: State) returns (a: Action)
    requires Inv(e, s) && !s.caller.Joined?
    ensures Enabled(e, s, a)
  {
    if s.caller.Adding? {
      a := Add;
    } else if s.caller.Starting? {
      a := Spawn;
    } else if s.wg == 0 {
      a := Join;
    } else {
      var i := SomeWeight(s.workers, LiveWeight);
      if !s.workers[i].phase.Queued? {
        a := HolderCanMove(e, s, i);
      } else if s.sem < MAX_CONCURRENCY {
        a := Work(i, Acquire);
      } else {
        var j := SomeWeight(s.workers, HoldsWeight);
        a := HolderCanMove(e, s, j);
      }
    }
  }

  /** Every request stops asking: on its own it receives at most `limit[i]` answers. */
  ghost predicate Halts(e: Env, limit: seq<nat>) {
    |limit| == e.n && forall i, h :: 0 <= i < e.n && Solo(e, i, h) ==> |h| <= limit[i]
  }

  function Rank(limit: seq<nat>, i: nat, w: Worker): nat {
    var l := if i < |limit| then limit[i] else 0;
    var left := if |w.history| <= l then l - |w.history| else 0;
    match w.phase
    case NotStarted => 6 + 3 * l
    case Queued => 5 + 3 * l
    case Asking => 4 + 3 * left
    case Missed(_) => 3 + 3 * left
    case Fetched(_, _) => 2 + 3 * left
    case Returned(_) => 3
    case Stored(_) => 2
    case Released(_) => 1
    case Finished(_) => 0
  }

  function CallerRank(e: Env, c: Caller): nat {
    match c
    case Adding(i) => if i <= e.n then 2 * (e.n - i) + 1 else 0
    case Starting(i) => if i <= e.n then 2 * (e.n - i) else 0
    case Joining => 1
    case Joined => 0
  }

  function RankBy(limit: seq<nat>): (nat, Worker) -> nat {
    (i: nat, w: Worker) => Rank(limit, i, w)
  }

  function Measure(e: Env, limit: seq<nat>, s: State): nat {
    Sum(s.workers, RankBy(limit)) + CallerRank(e, s.caller)
  }

  lemma MovedRank(e: Env, limit: seq<nat>, s: State, i: nat, op: Op)
    requires i < |s.workers| && i < |limit| && CanWork(e, s, i, op)
    requires |s.workers[i].history| <= limit[i] && |Moved(e, s, i, op).history| <= limit[i]
    requires s.workers[i].phase.Queued? ==> s.workers[i].history == []
    ensures Rank(limit, i, Moved(e, s, i, op)) < Rank(limit, i, s.workers[i])
  {
  }

  lemma WorkDecreases(e: Env, limit: seq<nat>, s: State, i: nat, op: Op)
    requires Inv(e, s) && Halts(e, limit) && Enabled(e, s, Work(i, op))
    ensures Rank(limit, i, Moved(e, s, i, op)) < Rank(limit, i, s.workers[i])
  {
    assert WorkerInv(e, i, s.workers[i], s.results[i], s.writes[i]);
    MovedInv(e, s, i, op);
    MovedRank(e, limit, s, i, op);
  }

  /** Every step of every schedule brings the batch closer to its end. */
  lemma StepDecreases(e: Env, limit: seq<nat>, s: State, a: Action)
    requires Inv(e, s) && Halts(e, limit) && Enabled(e, s, a)
    ensures Measure(e, limit, Step(e, s, a)) < Measure(e, limit, s)
  {
    var f := RankBy(limit);
    if a.Spawn? {
      SumUpdate(s.workers, f, s.caller.i, s.workers[s.caller.i].(phase := Queued));
    } else if a.Work? {
      WorkDecreases(e, limit, s, a.i, a.op);
      SumUpdate(s.workers, f, a.i, Moved(e, s, a.i, a.op));
    }
  }

  /** Every schedule terminates: none is longer than the initial measure. */
  lemma {:induction false} SchedulesAreBounded(e: Env, limit: seq<nat>, cache: Sources, schedule: seq<Action>)
    requires Agrees(e.net, cache) && Halts(e, limit) && After(e, cache, schedule).Some?
    ensures |schedule| + Measure(e, limit, After(e, cache, schedule).value) <= Measure(e, limit, Init(e, cache))
  {
    if schedule != [] {
      var before := schedule[..|schedule| - 1];
      SchedulesAreBounded(e, limit, cache, before);
      ScheduleInv(e, cache, before);
      StepDecreases(e, limit, After(e, cache, before).value, Last(schedule));
    }
  }

  /** A schedule that cannot be continued has returned from wg.Wait. */
  lemma StuckMeansJoined(e: Env, cache: Sources, schedule: seq<Action>)
    requires Agrees(e.net, cache) && After(e, cache, schedule).Some?
    requires forall a :: !Enabled(e, After(e, cache, schedule).value, a)
    ensures After(e, cache, schedule).value.caller.Joined?
  {
    ScheduleInv(e, cache, schedule);
    var s := After(e, cache, schedule).value;
    if !s.caller.Joined? {
      var a := Progress(e, s);
    }
  }
}
