/**
 A batch whose requests resolve imports through the shared program cache. What a goroutine asks for next is read out of
 the sources it has received so far, whoever put them into the cache.
 */
module BatchResolution {
  import opened Common
  import opened ImportLines
  import opened Batch
  import ImportGraph
  import Resolver
  import Resolution

  // ---- a traversal driven by the answers

  /**
   A traversal that has consumed its answers: it waits for a program, or it has visited everything and leaves `rest`
   unread, or a fetch failed. `order` and `sources` are what it appended to its list.
   */
  datatype Walk =
    | Wants(id: string)
    | Ended(visited: set<string>, order: seq<string>, sources: seq<string>, rest: seq<Answer>)
    | Broken(id: string)

  /** A walk that continues a list. */
  function Onto(order: seq<string>, sources: seq<string>, w: Walk): Walk {
    match w
    case Ended(visited, o, s, rest) => Ended(visited, order + o, sources + s, rest)
    case _ => w
  }

  /** Visits the imports `ids`, depth first, taking the sources it fetches from `answers`. */
  function Replay(ids: seq<string>, visited: set<string>, answers: seq<Answer>): (w: Walk)
    ensures w.Ended? ==> |w.rest| <= |answers|
    decreases |answers|, |ids|
  {
    if ids == [] then Ended(visited, [], [], answers)
    else if ids[0] in visited || ids[0] == ImportGraph.CREDITS then Replay(ids[1..], visited, answers)
    else if answers == [] then Wants(ids[0])
    else if answers[0].None? then Broken(ids[0])
    else
      var source := answers[0].value;
      var inner := Replay(ImportIds(source), visited + {ids[0]}, answers[1..]);
      if !inner.Ended? then inner
      else Onto(inner.order + [ids[0]], inner.sources + [source], Replay(ids[1..], inner.visited, inner.rest))
  }

  /** The program a request for `name` asks for after the answers `h`: the program itself, then its imports. */
  function NextAsk(name: string, h: seq<Answer>): Option<string> {
    if h == [] then Some(name)
    else if h[0].None? then None
    else
      var w := Replay(ImportIds(h[0].value), {}, h[1..]);
      if w.Wants? then Some(w.id) else None
  }

  /** A batch of requests for the programs `names`. */
  function BatchOf(net: Sources, names: seq<string>): Env {
    Env(|names|, net, (i: nat, h: seq<Answer>) => if i < |names| then NextAsk(names[i], h) else None)
  }

  // ---- the traversal on truthful answers

  function Answers(net: Sources, ids: seq<string>): seq<Answer> {
    seq(|ids|, i requires 0 <= i < |ids| => Lookup(net, ids[i]))
  }

  /** The walk on the answers of a tour that has run its course. */
  function WalkOf(net: Sources, visited: set<string>, t: ImportGraph.Tour, rest: seq<Answer>): Walk {
    match t.outcome
    case Done => Ended(visited + Elements(t.asked), t.order, Resolver.SourcesOf(net, t.order), rest)
    case Missing(id) => Broken(id)
  }

  lemma AnswersConcat(net: Sources, a: seq<string>, b: seq<string>)
    ensures Answers(net, a + b) == Answers(net, a) + Answers(net, b)
  {
  }

  lemma AnswersSplit(net: Sources, a: seq<string>, b: seq<string>, rest: seq<Answer>)
    ensures Answers(net, a + b) + rest == Answers(net, a) + (Answers(net, b) + rest)
  {
  }

  /** What the walk does with the source of the program it visits first. */
  function Through(ids: seq<string>, visited: set<string>, source: string, more: seq<Answer>): Walk
    requires ids != []
  {
    var inner := Replay(ImportIds(source), visited + {ids[0]}, more);
    if !inner.Ended? then inner
    else Onto(inner.order + [ids[0]], inner.sources + [source], Replay(ids[1..], inner.visited, inner.rest))
  }

  lemma ReplayFirst(net: Sources, ids: seq<string>, visited: set<string>, asked: seq<string>, rest: seq<Answer>)
    requires ids != [] && ids[0] !in visited && ids[0] != ImportGraph.CREDITS && ids[0] in net
    ensures Replay(ids, visited, Answers(net, [ids[0]] + asked) + rest)
         == Through(ids, visited, net[ids[0]], Answers(net, asked) + rest)
  {
    var answers := Answers(net, [ids[0]] + asked) + rest;
    assert answers[0] == Some(net[ids[0]]) && answers[1..] == Answers(net, asked) + rest;
  }

  lemma WalkThrough(net: Sources, visited: set<string>, id: string, t: ImportGraph.Tour, u: ImportGraph.Tour,
                    rest: seq<Answer>)
    requires id in net
    ensures Onto(t.order + [id], Resolver.SourcesOf(net, t.order) + [net[id]],
                 WalkOf(net, visited + {id} + Elements(t.asked), u, rest))
         == WalkOf(net, visited, ImportGraph.Tour(u.outcome, [id] + t.asked + u.asked, t.order + [id] + u.order), rest)
  {
    ElementsConcat([id], t.asked);
    ElementsConcat([id] + t.asked, u.asked);
    Resolver.SourcesOfConcat(net, t.order, [id]);
    Resolver.SourcesOfConcat(net, t.order + [id], u.order);
  }

  /** Given the answers of the graph traversal, the walk does what the traversal does and leaves the rest unread. */
  lemma {:induction false} ReplayFollowsVisit(net: Sources, ids: seq<string>, visited: set<string>, rest: seq<Answer>)
    ensures
      var t := ImportGraph.Visit(Resolver.GraphOf(net), ids, visited);
      Replay(ids, visited, Answers(net, t.asked) + rest) == WalkOf(net, visited, t, rest)
    decreases net.Keys - visited, |ids|
  {
    var g := Resolver.GraphOf(net);
    if ids == [] {
      assert Answers(net, []) + rest == rest;
    } else if ids[0] in visited || ids[0] == ImportGraph.CREDITS {
      ReplayFollowsVisit(net, ids[1..], visited, rest);
    } else if ids[0] !in net {
      assert (Answers(net, [ids[0]]) + rest)[0] == None;
    } else {
      var inner := ImportGraph.Visit(g, g[ids[0]], visited + {ids[0]});
      if inner.outcome.Missing? {
        ReplayFollowsVisit(net, g[ids[0]], visited + {ids[0]}, rest);
        ReplayFirst(net, ids, visited, inner.asked, rest);
      } else {
        ReplayBoth(net, ids, visited, rest);
      }
    }
  }

  lemma ReplayJoins(net: Sources, ids: seq<string>, visited: set<string>, t: ImportGraph.Tour, u: ImportGraph.Tour,
                    rest: seq<Answer>)
    requires ids != [] && ids[0] !in visited && ids[0] != ImportGraph.CREDITS && ids[0] in net && t.outcome.Done?
    requires var more := Answers(net, u.asked) + rest;
      && Replay(ImportIds(net[ids[0]]), visited + {ids[0]}, Answers(net, t.asked) + more)
         == WalkOf(net, visited + {ids[0]}, t, more)
      && Replay(ids[1..], visited + {ids[0]} + Elements(t.asked), more)
         == WalkOf(net, visited + {ids[0]} + Elements(t.asked), u, rest)
    ensures Replay(ids, visited, Answers(net, [ids[0]] + t.asked + u.asked) + rest)
         == WalkOf(net, visited,
                   ImportGraph.Tour(u.outcome, [ids[0]] + t.asked + u.asked, t.order + [ids[0]] + u.order), rest)
  {
    var more := Answers(net, u.asked) + rest;
    AnswersSplit(net, [ids[0]] + t.asked, u.asked, rest);
    ReplayFirst(net, ids, visited, t.asked, more);
    WalkThrough(net, visited, ids[0], t, u, rest);
  }

  lemma ReplayBoth(net: Sources, ids: seq<string>, visited: set<string>, rest: seq<Answer>)
    requires ids != [] && ids[0] !in visited && ids[0] != ImportGraph.CREDITS && ids[0] in net
    requires ImportGraph.Visit(Resolver.GraphOf(net), ImportIds(net[ids[0]]), visited + {ids[0]}).outcome.Done?
    ensures
      var t := ImportGraph.Visit(Resolver.GraphOf(net), ids, visited);
      Replay(ids, visited, Answers(net, t.asked) + rest) == WalkOf(net, visited, t, rest)
    decreases net.Keys - visited, |ids|, 0
  {
    var imports := ImportIds(net[ids[0]]);
    var inner := ImportGraph.Visit(Resolver.GraphOf(net), imports, visited + {ids[0]});
    var seen := visited + {ids[0]} + Elements(inner.asked);
    var next := ImportGraph.Visit(Resolver.GraphOf(net), ids[1..], seen);
    ReplayFollowsVisit(net, imports, visited + {ids[0]}, Answers(net, next.asked) + rest);
    ReplayFollowsVisit(net, ids[1..], seen, rest);
    ReplayJoins(net, ids, visited, inner, next, rest);
  }

  /** Given only the first `k` of those answers, the walk waits for the next program of the traversal. */
  lemma {:induction false} ReplayWants(net: Sources, ids: seq<string>, visited: set<string>, k: nat)
    requires k < |ImportGraph.Visit(Resolver.GraphOf(net), ids, visited).asked|
    ensures
      var asked := ImportGraph.Visit(Resolver.GraphOf(net), ids, visited).asked;
      Replay(ids, visited, Answers(net, asked[..k])) == Wants(asked[k])
    decreases net.Keys - visited, |ids|
  {
    var g := Resolver.GraphOf(net);
    if ids[0] in visited || ids[0] == ImportGraph.CREDITS {
      ReplayWants(net, ids[1..], visited, k);
    } else if k > 0 {
      if k <= |ImportGraph.Visit(g, g[ids[0]], visited + {ids[0]}).asked| {
        WantsInside(net, ids, visited, k);
      } else {
        WantsAfter(net, ids, visited, k);
      }
    }
  }

  lemma AskedInside(g: ImportGraph.Graph, ids: seq<string>, visited: set<string>, k: nat)
    requires ids != [] && ids[0] !in visited && ids[0] != ImportGraph.CREDITS && ids[0] in g
    requires 0 < k <= |ImportGraph.Visit(g, g[ids[0]], visited + {ids[0]}).asked|
    ensures
      var asked := ImportGraph.Visit(g, ids, visited).asked;
      var inner := ImportGraph.Visit(g, g[ids[0]], visited + {ids[0]}).asked;
      k < |asked| && asked[..k] == [ids[0]] + inner[..k - 1] && asked[k] == inner[k - 1]
  {
    var asked := ImportGraph.Visit(g, ids, visited).asked;
    var head := [ids[0]] + ImportGraph.Visit(g, g[ids[0]], visited + {ids[0]}).asked;
    assert head <= asked;
    assert asked[..k] == head[..k] && asked[k] == head[k];
  }

  lemma WantsInside(net: Sources, ids: seq<string>, visited: set<string>, k: nat)
    requires ids != [] && ids[0] !in visited && ids[0] != ImportGraph.CREDITS && ids[0] in net
    requires 0 < k <= |ImportGraph.Visit(Resolver.GraphOf(net), ImportIds(net[ids[0]]), visited + {ids[0]}).asked|
    ensures
      var asked := ImportGraph.Visit(Resolver.GraphOf(net), ids, visited).asked;
      k < |asked| && Replay(ids, visited, Answers(net, asked[..k])) == Wants(asked[k])
    decreases net.Keys - visited, |ids|, 0
  {
    var imports := ImportIds(net[ids[0]]);
    var before := ImportGraph.Visit(Resolver.GraphOf(net), imports, visited + {ids[0]}).asked[..k - 1];
    AskedInside(Resolver.GraphOf(net), ids, visited, k);
    ReplayWants(net, imports, visited + {ids[0]}, k - 1);
    ReplayFirst(net, ids, visited, before, []);
    assert Answers(net, [ids[0]] + before) + [] == Answers(net, [ids[0]] + before);
    assert Answers(net, before) + [] == Answers(net, before);
  }

  lemma WantsAfter(net: Sources, ids: seq<string>, visited: set<string>, k: nat)
    requires ids != [] && ids[0] !in visited && ids[0] != ImportGraph.CREDITS && ids[0] in net
    requires |ImportGraph.Visit(Resolver.GraphOf(net), ImportIds(net[ids[0]]), visited + {ids[0]}).asked| < k
    requires k < |ImportGraph.Visit(Resolver.GraphOf(net), ids, visited).asked|
    ensures
      var asked := ImportGraph.Visit(Resolver.GraphOf(net), ids, visited).asked;
      Replay(ids, visited, Answers(net, asked[..k])) == Wants(asked[k])
    decreases net.Keys - visited, |ids|, 0
  {
    var id, imports := ids[0], ImportIds(net[ids[0]]);
    var asked := ImportGraph.Visit(Resolver.GraphOf(net), ids, visited).asked;
    var inner := ImportGraph.Visit(Resolver.GraphOf(net), imports, visited + {id});
    var seen := visited + {id} + Elements(inner.asked);
    var next := ImportGraph.Visit(Resolver.GraphOf(net), ids[1..], seen).asked;
    var j := k - 1 - |inner.asked|;
    assert asked[..k] == [id] + inner.asked + next[..j] && asked[k] == next[j];
    ReplayWants(net, ids[1..], seen, j);
    ReplayFollowsVisit(net, imports, visited + {id}, Answers(net, next[..j]));
    AnswersConcat(net, [id] + inner.asked, next[..j]);
    ReplayFirst(net, ids, visited, inner.asked, Answers(net, next[..j]));
  }

  // ---- requests running alone

  /** What resolution fetches for `name`, in order: the program, then its imports as the graph traversal visits them. */
  function Plan(net: Sources, name: string): (plan: seq<string>)
    ensures plan != []
  {
    [name] + if name in net then Resolution.TourOf(net, net[name]).asked else []
  }

  lemma AloneIs(net: Sources, source: string)
    ensures var t := Resolution.TourOf(net, source);
      Resolution.Resolve(net, None, source)
      == (t.outcome,
          Resolver.Session(Elements(t.asked), Resolver.SourcesOf(net, t.order), t.order, None, t.asked))
  {
    Resolution.ResolveIs(net, None, source);
    assert Resolver.View(net, Resolution.Start(None)) == net;
    assert Resolver.Cached(Resolution.Start(None)).Keys == {};
    Resolution.WithoutNothing(Resolution.TourOf(net, source).asked);
  }

  /** `Plan` is what the resolver itself asks of the network when it runs without a cache. */
  lemma PlanIsResolution(net: Sources, name: string)
    requires name in net
    ensures Plan(net, name) == [name] + Resolution.Resolve(net, None, net[name]).1.requests
  {
    AloneIs(net, net[name]);
  }

  lemma {:induction false} DistinctSize(s: seq<string>)
    requires Distinct(s)
    ensures |Elements(s)| == |s|
  {
    if s != [] {
      DistinctSize(s[1..]);
      ElementsConcat([s[0]], s[1..]);
      assert s == [s[0]] + s[1..] && Elements([s[0]]) == {s[0]};
    }
  }

  lemma DistinctBounded(s: seq<string>, keys: set<string>)
    requires Distinct(s) && Elements(s) <= keys
    ensures |s| <= |keys|
  {
    DistinctSize(s);
    assert keys == Elements(s) + (keys - Elements(s));
  }

  /** A traversal fetches at most one program that the network does not have. */
  lemma AskedBounded(g: ImportGraph.Graph, ids: seq<string>)
    ensures |ImportGraph.Visit(g, ids, {}).asked| <= |g.Keys| + 1
  {
    var t := ImportGraph.Visit(g, ids, {});
    ImportGraph.AskedOnce(g, ids, {});
    ImportGraph.OrderIsAsked(g, ids, {});
    DistinctBounded(if t.outcome.Done? then t.asked else t.asked[..|t.asked| - 1], g.Keys);
  }

  /** After the first `k` answers of the plan the request asks for its next program, and after all of them no more. */
  lemma NextAskFollowsPlan(net: Sources, name: string, k: nat)
    requires k <= |Plan(net, name)|
    ensures var plan := Plan(net, name);
      NextAsk(name, Answers(net, plan[..k])) == if k < |plan| then Some(plan[k]) else None
  {
    var plan := Plan(net, name);
    if k > 0 && name in net {
      var asked := Resolution.TourOf(net, net[name]).asked;
      var h := Answers(net, plan[..k]);
      assert plan[..k] == [name] + asked[..k - 1];
      assert h[0] == Some(net[name]) && h[1..] == Answers(net, asked[..k - 1]);
      if k < |plan| {
        ReplayWants(net, ImportIds(net[name]), {}, k - 1);
      } else {
        ReplayFollowsVisit(net, ImportIds(net[name]), {}, []);
        assert asked[..k - 1] == asked && Answers(net, asked) + [] == Answers(net, asked);
      }
    }
  }

  lemma SoloPrefix(e: Env, i: nat, h: seq<Answer>)
    requires h != [] && Solo(e, i, h)
    ensures var k := |h| - 1;
      Solo(e, i, h[..k]) && e.ask(i, h[..k]).Some? && h[k] == Lookup(e.net, e.ask(i, h[..k]).value)
  {
    var k := |h| - 1;
    assert forall j :: 0 <= j < k ==> h[..k][..j] == h[..j];
  }

  lemma AnswersSnoc(net: Sources, plan: seq<string>, h: seq<Answer>, k: nat)
    requires |h| == k + 1 <= |plan| && h[..k] == Answers(net, plan[..k]) && h[k] == Lookup(net, plan[k])
    ensures h == Answers(net, plan[..k + 1])
  {
    forall j | 0 <= j < k + 1 ensures h[j] == Lookup(net, plan[j]) {
      assert j < k ==> h[j] == h[..k][j];
    }
  }

  /** Running alone, a request receives the answers of its plan, one after the other. */
  lemma {:induction false} SoloFollowsPlan(net: Sources, names: seq<string>, i: nat, h: seq<Answer>)
    requires i < |names| && Solo(BatchOf(net, names), i, h)
    ensures |h| <= |Plan(net, names[i])| && h == Answers(net, Plan(net, names[i])[..|h|])
    decreases |h|
  {
    if h != [] {
      var k := |h| - 1;
      SoloPrefix(BatchOf(net, names), i, h);
      SoloFollowsPlan(net, names, i, h[..k]);
      NextAskFollowsPlan(net, names[i], k);
      AnswersSnoc(net, Plan(net, names[i]), h, k);
    }
  }

  /** Every batch of resolutions halts: a request fetches at most two programs more than the network has. */
  lemma BatchOfHalts(net: Sources, names: seq<string>)
    ensures Halts(BatchOf(net, names), seq(|names|, _ => |net| + 2))
  {
    var e := BatchOf(net, names);
    forall i, h | 0 <= i < e.n && Solo(e, i, h) ensures |h| <= |net| + 2 {
      SoloFollowsPlan(net, names, i, h);
      if names[i] in net {
        AskedBounded(Resolver.GraphOf(net), ImportIds(net[names[i]]));
        assert Resolver.GraphOf(net).Keys == net.Keys;
      }
    }
  }

  /** The walk over the answers to `name` does what resolution of `name` without a cache does. */
  ghost predicate WalksAsAlone(net: Sources, name: string, h: seq<Answer>)
    requires name in net && h != []
  {
    var (o, alone) := Resolution.Resolve(net, None, net[name]);
    Replay(ImportIds(net[name]), {}, h[1..])
    == match o
       case Done => Ended(alone.visited, alone.ids, alone.ordered, [])
       case Missing(id) => Broken(id)
  }

  lemma PlanWalksAsAlone(net: Sources, name: string)
    requires name in net
    ensures WalksAsAlone(net, name, Answers(net, Plan(net, name)))
  {
    var t := Resolution.TourOf(net, net[name]);
    ReplayFollowsVisit(net, ImportIds(net[name]), {}, []);
    assert Answers(net, Plan(net, name))[1..] == Answers(net, t.asked) + [];
    assert {} + Elements(t.asked) == Elements(t.asked);
    AloneIs(net, net[name]);
  }

  /** A request that has run its course alone has received the answers of its plan. */
  lemma SoloIsPlan(net: Sources, names: seq<string>, i: nat, h: seq<Answer>)
    requires i < |names| && Solo(BatchOf(net, names), i, h) && BatchOf(net, names).ask(i, h).None?
    ensures h == Answers(net, Plan(net, names[i]))
  {
    SoloFollowsPlan(net, names, i, h);
    NextAskFollowsPlan(net, names[i], |h|);
    assert Plan(net, names[i])[..|Plan(net, names[i])|] == Plan(net, names[i]);
  }

  /**
   However the goroutines interleave on the shared cache, a joined request has received the sources that resolution
   without a cache fetches for its program, in the same order, and made the same of them: the same programs in the same
   order with the same sources, or a failure at the same program.
   */
  lemma BatchResolvesAsAlone(net: Sources, names: seq<string>, cache: Sources, schedule: seq<Action>, i: nat)
    requires Agrees(net, cache) && i < |names|
    requires var end := After(BatchOf(net, names), cache, schedule); end.Some? && end.value.caller.Joined?
    ensures
      var s := After(BatchOf(net, names), cache, schedule).value;
      && i < |s.workers| && s.workers[i].history == Answers(net, Plan(net, names[i]))
      && (names[i] in net ==> WalksAsAlone(net, names[i], s.workers[i].history))
  {
    var e := BatchOf(net, names);
    AnswersIndependentOfSchedule(e, cache, schedule, cache, schedule, i);
    SoloIsPlan(net, names, i, After(e, cache, schedule).value.workers[i].history);
    if names[i] in net {
      PlanWalksAsAlone(net, names[i]);
    }
  }

  /** `id` is among the programs that one of the requests fetches. */
  ghost predicate Planned(net: Sources, names: seq<string>, id: string) {
    exists i :: 0 <= i < |names| && id in Plan(net, names[i])
  }

  lemma PlanKept(net: Sources, names: seq<string>, i: nat, h: seq<Answer>, id: string)
    requires i < |names| && h == Answers(net, Plan(net, names[i]))
    ensures GotBy(BatchOf(net, names), i, h, id) <==> id in Plan(net, names[i]) && id in net
  {
    var e, plan := BatchOf(net, names), Plan(net, names[i]);
    forall k | 0 <= k < |plan| ensures e.ask(i, h[..k]) == Some(plan[k]) {
      NextAskFollowsPlan(net, names[i], k);
      assert h[..k] == Answers(net, plan[..k]);
    }
    if id in plan && id in net {
      var k :| 0 <= k < |plan| && plan[k] == id;
      assert h[k].Some? && e.ask(i, h[..k]) == Some(id);
    }
  }

  /** Past Wait the shared cache holds what it started with and every program of the requests that the network has. */
  lemma BatchFillsCache(net: Sources, names: seq<string>, cache: Sources, schedule: seq<Action>, id: string)
    requires Agrees(net, cache)
    requires var end := After(BatchOf(net, names), cache, schedule); end.Some? && end.value.caller.Joined?
    ensures var s := After(BatchOf(net, names), cache, schedule).value;
      && (id in s.cache <==> id in cache || (Planned(net, names, id) && id in net))
      && (id in s.cache ==> id in net && s.cache[id] == net[id])
  {
    var e := BatchOf(net, names);
    var s := After(e, cache, schedule).value;
    ScheduleInv(e, cache, schedule);
    CacheHoldsAnswers(e, cache, schedule);
    forall i | 0 <= i < |names|
      ensures GotBy(e, i, s.workers[i].history, id) <==> id in Plan(net, names[i]) && id in net
    {
      BatchResolvesAsAlone(net, names, cache, schedule, i);
      PlanKept(net, names, i, s.workers[i].history, id);
    }
    if Planned(net, names, id) && id in net {
      var i :| 0 <= i < |names| && id in Plan(net, names[i]);
      var h := s.workers[i].history;
      assert Kept(e, i, h, s.cache) && GotBy(e, i, h, id);
    }
  }
}
