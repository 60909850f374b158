/** What import resolution promises, for every network snapshot, every cache and every program source. */
module Resolution {
  import opened Common
  import opened ImportLines
  import opened ImportGraph
  import opened Resolver

  function Start(cache: Option<Sources>): Session {
    Session({}, [], [], cache, [])
  }

  function Resolve(net: Sources, cache: Option<Sources>, source: string): (Outcome, Session) {
    Collect(net, ImportIds(source), Start(cache))
  }

  /** The traversal of the import graph that resolution amounts to. */
  function TourOf(view: Sources, source: string): Tour {
    Visit(GraphOf(view), ImportIds(source), {})
  }

  /** The whole result of a resolution in terms of the graph traversal. */
  lemma ResolveIs(net: Sources, cache: Option<Sources>, source: string)
    ensures
      var view := View(net, Start(cache));
      var t := TourOf(view, source);
      Resolve(net, cache, source) ==
      (t.outcome, Session(Elements(t.asked), SourcesOf(view, t.order), t.order,
                          if cache.Some? then Some(Filled(net, cache.value, Elements(t.asked))) else None,
                          Without(t.asked, Cached(Start(cache)).Keys)))
  {
    CollectRefinesVisit(net, ImportIds(source), Start(cache));
    CollectFetches(net, ImportIds(source), Start(cache));
    var t := TourOf(View(net, Start(cache)), source);
    assert {} + Elements(t.asked) == Elements(t.asked);
    assert [] + t.order == t.order;
    assert [] + SourcesOf(View(net, Start(cache)), t.order) == SourcesOf(View(net, Start(cache)), t.order);
    assert [] + Without(t.asked, Cached(Start(cache)).Keys) == Without(t.asked, Cached(Start(cache)).Keys);
  }

  /** Exact closure, exact failure and dependency order, from any cache, on any import graph. */
  lemma ResolvesExactly(net: Sources, cache: Option<Sources>, source: string)
    ensures
      var view := View(net, Start(cache));
      var g := GraphOf(view);
      var imports := ImportIds(source);
      var (o, s) := Resolve(net, cache, source);
      && (o.Done? <==> forall x :: Reachable(g, imports, x) ==> x in view)
      && (o.Missing? ==> Reachable(g, imports, o.id) && o.id !in view)
      && (o.Done? ==>
            && s.ordered == SourcesOf(view, s.ids)
            && Distinct(s.ids)
            && (forall x :: x in s.ids <==> Reachable(g, imports, x))
            && PostOrder(g, {}, s.ids)
            && (Topological(g, s.ids) <==> !CycleFrom(g, imports)))
  {
    var view := View(net, Start(cache));
    var g := GraphOf(view);
    var imports := ImportIds(source);
    ResolveIs(net, cache, source);
    var o := Resolve(net, cache, source).0;
    CollectsExactly(g, imports);
    if o.Done? {
      OrderIsAsked(g, imports, {});
      ImportsPrecedeOrCycle(g, imports);
      TopologicalIffAcyclic(g, imports);
    }
  }

  /** credits.aleo is never reachable, so it is never collected. */
  lemma {:induction false} CreditsNeverReachable(g: Graph, p: seq<string>)
    requires IsPath(g, p)
    ensures CREDITS !in p
  {
    if |p| > 1 {
      CreditsNeverReachable(g, p[1..]);
      assert p == [p[0]] + p[1..];
    }
  }

  /** Whatever the cache holds, resolution through it is uncached resolution on the network it shadows. */
  lemma CacheShadowsNetwork(net: Sources, c: Sources, source: string)
    ensures
      var (o, cached) := Resolve(net, Some(c), source);
      var (o', plain) := Resolve(net + c, None, source);
      && o == o' && cached.visited == plain.visited && cached.ids == plain.ids && cached.ordered == plain.ordered
  {
    ResolveIs(net, Some(c), source);
    ResolveIs(net + c, None, source);
    assert View(net, Start(Some(c))) == View(net + c, Start(None));
  }

  /** An agreeing cache changes nothing but the requests: it saves exactly those for programs it already held. */
  lemma CacheTransparent(net: Sources, c: Sources, source: string)
    requires Agrees(net, c)
    ensures
      var (o, cached) := Resolve(net, Some(c), source);
      var (o', plain) := Resolve(net, None, source);
      && o == o' && cached.ids == plain.ids && cached.ordered == plain.ordered
      && cached.requests == Without(plain.requests, c.Keys)
      && cached.cache.Some? && Agrees(net, cached.cache.value) && c.Keys <= cached.cache.value.Keys
  {
    assert View(net, Start(Some(c))) == net == View(net, Start(None));
    ResolveIs(net, Some(c), source);
    ResolveIs(net, None, source);
    WithoutNothing(TourOf(net, source).asked);
    assert Cached(Start(None)).Keys == {};
  }

  lemma {:induction false} WithoutNothing(s: seq<string>)
    ensures Without(s, {}) == s
  {
    if s != [] {
      WithoutNothing(s[1..]);
    }
  }

  lemma {:induction false} WithoutAll(s: seq<string>, keys: set<string>)
    requires forall x :: x in s ==> x in keys
    ensures Without(s, keys) == []
  {
    if s != [] {
      WithoutAll(s[1..], keys);
    }
  }

  /** A successful run asks the network once for each transitive import not yet cached; a repeat run asks nothing. */
  lemma OneRequestPerProgram(net: Sources, c: Sources, source: string)
    requires Agrees(net, c) && Resolve(net, Some(c), source).0.Done?
    ensures
      var s := Resolve(net, Some(c), source).1;
      var (o', again) := Resolve(net, s.cache, source);
      && Distinct(s.requests)
      && (forall x :: x in s.requests <==> Reachable(GraphOf(net), ImportIds(source), x) && x !in c)
      && o'.Done? && again == s.(requests := [])
  {
    var t := TourOf(net, source);
    assert View(net, Start(Some(c))) == net;
    ResolveIs(net, Some(c), source);
    AskedExactly(net, source);
    WithoutMembers(t.asked, c.Keys);
    var filled := Filled(net, c, Elements(t.asked));
    RepeatRun(net, filled, source);
  }

  /** With every program cached, resolution asks the network nothing and leaves the cache as it is. */
  lemma RepeatRun(net: Sources, c: Sources, source: string)
    requires Agrees(net, c) && forall x :: x in TourOf(net, source).asked ==> x in c
    ensures
      var t := TourOf(net, source);
      Resolve(net, Some(c), source)
      == (t.outcome, Session(Elements(t.asked), SourcesOf(net, t.order), t.order, Some(c), []))
  {
    var t := TourOf(net, source);
    assert View(net, Start(Some(c))) == net;
    ResolveIs(net, Some(c), source);
    WithoutAll(t.asked, c.Keys);
    assert Filled(net, c, Elements(t.asked)) == c;
  }

  /** A successful traversal fetches exactly the transitive imports, each once. */
  lemma AskedExactly(view: Sources, source: string)
    requires TourOf(view, source).outcome.Done?
    ensures
      var asked := TourOf(view, source).asked;
      && Distinct(asked)
      && (forall x :: x in asked <==> Reachable(GraphOf(view), ImportIds(source), x))
      && (forall x :: x in asked ==> x in view)
  {
    var t := TourOf(view, source);
    AskedOnce(GraphOf(view), ImportIds(source), {});
    OrderIsAsked(GraphOf(view), ImportIds(source), {});
    CollectsExactly(GraphOf(view), ImportIds(source));
    forall x ensures x in t.asked <==> x in t.order {
      assert x in Elements(t.asked) <==> x in Elements(t.order);
    }
  }

  // ---- the second traversal

  /** The traversal that builds a map instead of a list; it runs without a cache. */
  function CollectMap(net: Sources, ids: seq<string>, visited: set<string>, imports: Sources)
    : (r: (Outcome, set<string>, Sources))
    ensures visited <= r.1
    decreases net.Keys - visited, |ids|
  {
    if ids == [] then (Done, visited, imports)
    else if ids[0] in visited || ids[0] == CREDITS then CollectMap(net, ids[1..], visited, imports)
    else if ids[0] !in net then (Missing(ids[0]), visited + {ids[0]}, imports)
    else
      var (o, visited', imports') := CollectMap(net, ImportIds(net[ids[0]]), visited + {ids[0]}, imports);
      if o.Missing? then (o, visited', imports')
      else CollectMap(net, ids[1..], visited', imports'[ids[0] := net[ids[0]]])
  }

  function Table(view: Sources, ids: seq<string>): Sources {
    map id | id in ids && id in view :: view[id]
  }

  /** `r` is the result of a map traversal that did `t` from `visited` and `imports`. */
  ghost predicate MapExtends(net: Sources, visited: set<string>, imports: Sources, t: Tour,
                             r: (Outcome, set<string>, Sources)) {
    r.0 == t.outcome && r.1 == visited + Elements(t.asked) && r.2 == imports + Table(net, t.order)
  }

  lemma MapExtendsThrough(net: Sources, visited: set<string>, imports: Sources, id: string, t: Tour,
                          r: (Outcome, set<string>, Sources))
    requires id in net && MapExtends(net, visited + {id}, imports, t, r)
    ensures MapExtends(net, visited, imports, Tour(t.outcome, [id] + t.asked, t.order), r)
    ensures MapExtends(net, visited, imports, Tour(t.outcome, [id] + t.asked, t.order + [id]),
                       (r.0, r.1, r.2[id := net[id]]))
  {
    ElementsConcat([id], t.asked);
    assert forall x :: x in t.order + [id] <==> x in t.order || x == id;
  }

  lemma MapExtendsSeries(net: Sources, visited: set<string>, imports: Sources, t: Tour,
                         r: (Outcome, set<string>, Sources), u: Tour, q: (Outcome, set<string>, Sources))
    requires MapExtends(net, visited, imports, t, r) && MapExtends(net, r.1, r.2, u, q)
    ensures MapExtends(net, visited, imports, Tour(u.outcome, t.asked + u.asked, t.order + u.order), q)
  {
    ElementsConcat(t.asked, u.asked);
    assert forall x :: x in t.order + u.order <==> x in t.order || x in u.order;
  }

  lemma {:induction false} MapRefinesVisit(net: Sources, ids: seq<string>, visited: set<string>, imports: Sources)
    ensures MapExtends(net, visited, imports, Visit(GraphOf(net), ids, visited), CollectMap(net, ids, visited, imports))
    decreases net.Keys - visited, |ids|
  {
    var g := GraphOf(net);
    if ids == [] {
    } else if ids[0] in visited || ids[0] == CREDITS {
      MapRefinesVisit(net, ids[1..], visited, imports);
    } else if ids[0] in net {
      var id := ids[0];
      assert g[id] == ImportIds(net[id]);
      var inner := Visit(g, g[id], visited + {id});
      var r := CollectMap(net, g[id], visited + {id}, imports);
      MapRefinesVisit(net, g[id], visited + {id}, imports);
      MapExtendsThrough(net, visited, imports, id, inner, r);
      if inner.outcome.Done? {
        var imports' := r.2[id := net[id]];
        MapRefinesVisit(net, ids[1..], r.1, imports');
        ElementsConcat([id], inner.asked);
        MapExtendsSeries(net, visited, imports, Tour(Done, [id] + inner.asked, inner.order + [id]),
                         (Done, r.1, imports'), Visit(g, ids[1..], r.1), CollectMap(net, ids[1..], r.1, imports'));
      }
    }
  }

  /** GetProgramImports and the list traversal succeed together and collect the same programs with the same sources. */
  lemma TraversalsAgree(net: Sources, source: string)
    ensures
      var (o, s) := Resolve(net, None, source);
      var (o', visited, imports) := CollectMap(net, ImportIds(source), {}, map[]);
      && o == o' && s.visited == visited
      && imports == Table(net, s.ids) && imports.Keys == Elements(s.ids) && s.ordered == SourcesOf(imports, s.ids)
  {
    hide Filled, Without, Visit, CollectMap, Collect;
    assert View(net, Start(None)) == net;
    ResolveIs(net, None, source);
    MapRefinesVisit(net, ImportIds(source), {}, map[]);
    OrderDefined(GraphOf(net), ImportIds(source), {});
    var t := TourOf(net, source);
    assert map[] + Table(net, t.order) == Table(net, t.order);
    forall x | x in t.order ensures x in net {
      assert x in Elements(t.order);
    }
  }

  /** Even a failed traversal has collected only programs that it could fetch. */
  lemma {:induction false} OrderDefined(g: Graph, ids: seq<string>, visited: set<string>)
    ensures Elements(Visit(g, ids, visited).order) <= g.Keys
    decreases g.Keys - visited, |ids|
  {
    if ids == [] {
    } else if ids[0] in visited || ids[0] == CREDITS {
      OrderDefined(g, ids[1..], visited);
    } else if ids[0] in g {
      var inner := Visit(g, g[ids[0]], visited + {ids[0]});
      OrderDefined(g, g[ids[0]], visited + {ids[0]});
      if inner.outcome.Done? {
        OrderDefined(g, ids[1..], visited + {ids[0]} + Elements(inner.asked));
      }
    }
  }

  // ---- the built-in program

  /** In both traversals credits.aleo is never asked for or collected, and on success every other import is. */
  lemma OnlyCreditsSkipped(net: Sources, cache: Option<Sources>, source: string)
    ensures
      var (o, s) := Resolve(net, cache, source);
      && "credits.aleo" !in s.ids && "credits.aleo" !in s.requests && "credits.aleo" !in s.visited
      && (o.Done? ==> forall id :: id in ImportIds(source) && id != "credits.aleo" ==> id in s.ids)
    ensures
      var (o, visited, imports) := CollectMap(net, ImportIds(source), {}, map[]);
      && "credits.aleo" !in imports && "credits.aleo" !in visited
      && (o.Done? ==> forall id :: id in ImportIds(source) && id != "credits.aleo" ==> id in imports)
  {
    OnlyCreditsSkippedIn(net, cache, source);
    OnlyCreditsSkippedIn(net, None, source);
    TraversalsAgree(net, source);
    var ids := Resolve(net, None, source).1.ids;
    assert "credits.aleo" !in Elements(ids);
    assert forall id :: id in ids ==> id in Elements(ids);
  }

  lemma OnlyCreditsSkippedIn(net: Sources, cache: Option<Sources>, source: string)
    ensures
      var (o, s) := Resolve(net, cache, source);
      && "credits.aleo" !in s.ids && "credits.aleo" !in s.requests && "credits.aleo" !in s.visited
      && (o.Done? ==> forall id :: id in ImportIds(source) && id != "credits.aleo" ==> id in s.ids)
  {
    var view := View(net, Start(cache));
    var g := GraphOf(view);
    var t := TourOf(view, source);
    ResolveIs(net, cache, source);
    AskedOnce(g, ImportIds(source), {});
    WithoutMembers(t.asked, Cached(Start(cache)).Keys);
    OrderInAsked(g, ImportIds(source), {});
    assert "credits.aleo" !in Elements(t.asked);
    assert "credits.aleo" in t.order ==> "credits.aleo" in Elements(t.order);
    if t.outcome.Done? {
      ImportsAsked(g, ImportIds(source), {});
      OrderIsAsked(g, ImportIds(source), {});
      forall id | id in ImportIds(source) && id != "credits.aleo" ensures id in t.order {
        assert id in Elements(t.order);
      }
    }
  }

  /** Even a failed traversal has collected only programs that it fetched. */
  lemma {:induction false} OrderInAsked(g: Graph, ids: seq<string>, visited: set<string>)
    ensures var t := Visit(g, ids, visited); Elements(t.order) <= Elements(t.asked)
    decreases g.Keys - visited, |ids|
  {
    if ids == [] {
    } else if ids[0] in visited || ids[0] == CREDITS {
      OrderInAsked(g, ids[1..], visited);
    } else if ids[0] in g {
      var id := ids[0];
      var inner := Visit(g, g[id], visited + {id});
      OrderInAsked(g, g[id], visited + {id});
      ElementsConcat([id], inner.asked);
      if inner.outcome.Done? {
        var rest := Visit(g, ids[1..], visited + {id} + Elements(inner.asked));
        OrderInAsked(g, ids[1..], visited + {id} + Elements(inner.asked));
        ElementsConcat([id] + inner.asked, rest.asked);
        ElementsConcat(inner.order, [id]);
        ElementsConcat(inner.order + [id], rest.order);
      }
    }
  }
}
