/** What a request to authorize asks of the network and leaves in the program cache, however it ends. */
module BuildTraffic {
  import opened Common
  import opened ImportLines
  import opened ImportGraph
  import opened Resolver
  import opened Resolution
  import opened RustProcess
  import opened Authorization

  /** The state after a request that began with `before` requests and the given cache. */
  function Final(net: Sources, cache: Option<Sources>, before: seq<string>, parse: string -> Option<Program>,
                 opts: Options): Session
  {
    Build(net, Start(cache).(requests := before), parse, opts).1
  }

  /** The imports that resolution of `name` visits, in visiting order; none if the program itself cannot be fetched. */
  function ImportsVisited(view: Sources, name: string): seq<string> {
    if name in view then TourOf(view, view[name]).asked else []
  }

  /** Of the program `name` and then `imports`, those that the cache does not hold when their turn comes. */
  ghost predicate AskedFor(cache: Option<Sources>, name: string, imports: seq<string>, asked: seq<string>) {
    match cache
    case None => asked == [name] + imports
    case Some(c) => asked == (if name in c then [] else [name]) + Without(imports, c.Keys + {name})
  }

  /** `c'` is `c` with what the network has of `name` and `imports` added, and nothing replaced. */
  ghost predicate FilledWith(net: Sources, c: Sources, name: string, imports: seq<string>, c': Sources) {
    && (forall id :: id in c' <==> id in c || ((id == name || id in imports) && id in net))
    && (forall id :: id in c' ==> c'[id] == if id in c then c[id] else net[id])
  }

  lemma FirstFetch(net: Sources, s: Session, name: string)
    ensures
      var s' := Fetch(net, s, name).1;
      && s'.requests == s.requests + (if name in Cached(s) then [] else [name])
      && s'.cache == (if s.cache.Some? then Some(Filled(net, s.cache.value, {name})) else None)
      && s' == s.(requests := s'.requests, cache := s'.cache)
  {
    if s.cache.Some? {
      assert Filled(net, s.cache.value, {name})
          == if name in net && name !in s.cache.value then s.cache.value[name := net[name]] else s.cache.value;
    }
  }

  /** `s` is a session from `before` requests and `cache` that has fetched `name` and then visited `imports`. */
  ghost predicate Traffic(net: Sources, cache: Option<Sources>, before: seq<string>, name: string,
                          imports: seq<string>, s: Session)
  {
    && before <= s.requests && AskedFor(cache, name, imports, s.requests[|before|..])
    && (s.cache.Some? <==> cache.Some?)
    && (cache.Some? ==> FilledWith(net, cache.value, name, imports, s.cache.value))
  }

  lemma CannotFetchTraffic(net: Sources, cache: Option<Sources>, before: seq<string>, name: string)
    requires name !in View(net, Start(cache))
    ensures Traffic(net, cache, before, name, [], Fetch(net, Start(cache).(requests := before), name).1)
  {
    FirstFetch(net, Start(cache).(requests := before), name);
  }

  lemma AskedWithCache(c: Sources, held: set<string>, name: string, imports: seq<string>)
    requires forall x :: x in imports ==> (x in held <==> x in c.Keys + {name})
    ensures AskedFor(Some(c), name, imports, (if name in c then [] else [name]) + Without(imports, held))
  {
    WithoutAgree(imports, held, c.Keys + {name});
  }

  lemma AskedWithoutCache(name: string, imports: seq<string>)
    ensures AskedFor(None, name, imports, [name] + Without(imports, {}))
  {
    WithoutNothing(imports);
  }

  lemma FilledTwiceIs(net: Sources, c: Sources, name: string, imports: seq<string>)
    ensures FilledWith(net, c, name, imports, Filled(net, Filled(net, c, {name}), Elements(imports)))
  {
  }

  lemma FetchedTraffic(net: Sources, cache: Option<Sources>, before: seq<string>, name: string, imports: seq<string>,
                       s: Session)
    requires name in View(net, Start(cache))
    requires FetchedBy(net, Fetch(net, Start(cache).(requests := before), name).1, s, imports)
    ensures Traffic(net, cache, before, name, imports, s)
  {
    hide Fetch, Without, AskedFor, FilledWith;
    var start := Start(cache).(requests := before);
    var s0 := Fetch(net, start, name).1;
    FirstFetch(net, start, name);
    var asked := (if name in Cached(start) then [] else [name]) + Without(imports, Cached(s0).Keys);
    assert s.requests == before + asked && s.requests[|before|..] == asked;
    match cache {
      case None =>
        assert Cached(s0).Keys == {};
        AskedWithoutCache(name, imports);
      case Some(c) =>
        assert forall x :: x in c || x == name <==> x in c.Keys + {name};
        AskedWithCache(c, Cached(s0).Keys, name, imports);
        FilledTwiceIs(net, c, name, imports);
    }
  }

  /**
   However a request ends, and whatever was requested before it: without a key it asks nothing and leaves the cache
   alone. Otherwise it asks, in visiting order, for those of the target and the imports visited that are not cached, and
   the cache afterwards is the one before with those that the network has added to it.
   */
  lemma BuildTrafficIs(net: Sources, cache: Option<Sources>, before: seq<string>, parse: string -> Option<Program>,
                       opts: Options)
    ensures
      var view := View(net, Start(cache));
      var s := Final(net, cache, before, parse, opts);
      if opts.privateKey == "" then s.requests == before && s.cache == cache
      else Traffic(net, cache, before, opts.program, ImportsVisited(view, opts.program), s)
  {
    var start := Start(cache).(requests := before);
    var view, name := View(net, Start(cache)), opts.program;
    assert View(net, start) == view;
    if opts.privateKey != "" {
      FetchReadsView(net, start, name);
      if name !in view {
        CannotFetchTraffic(net, cache, before, name);
      } else {
        var s0 := Fetch(net, start, name).1;
        CollectFetches(net, ImportIds(view[name]), s0);
        FetchedTraffic(net, cache, before, name, ImportsVisited(view, name),
                       Collect(net, ImportIds(view[name]), s0).1);
      }
    }
  }

  /** In terms of the import graph: the imports visited when all can be fetched are the transitive ones, each once. */
  lemma VisitedAreReachable(view: Sources, name: string)
    requires name in view && ImportsFetchable(GraphOf(view), name)
    ensures var imports := ImportsVisited(view, name);
      Distinct(imports) && forall x :: x in imports <==> Reachable(GraphOf(view), GraphOf(view)[name], x)
  {
    CollectsExactly(GraphOf(view), ImportIds(view[name]));
    AskedExactly(view, view[name]);
  }

  /** With everything fetchable, the outcome depends on what the cache and the network together hold. */
  lemma SameOutcome(net: Sources, c: Sources, before: seq<string>, c': Sources, before': seq<string>,
                    parse: string -> Option<Program>, opts: Options)
    requires View(net, Start(Some(c))) == net == View(net, Start(Some(c'))) && opts.privateKey != ""
    requires opts.program in net && ImportsFetchable(GraphOf(net), opts.program)
    ensures Build(net, Start(Some(c)).(requests := before), parse, opts).0
         == Build(net, Start(Some(c')).(requests := before'), parse, opts).0
  {
    hide Build;
    BuildEndsExactly(net, Some(c), before, parse, opts);
    BuildEndsExactly(net, Some(c'), before', parse, opts);
  }

  /** With the target and its imports cached, nothing is asked for and the cache stays as it is. */
  lemma CachedAsksNothing(net: Sources, c: Sources, before: seq<string>, parse: string -> Option<Program>,
                          opts: Options)
    requires Agrees(net, c) && opts.privateKey != "" && opts.program in c
    requires forall id :: id in ImportsVisited(net, opts.program) ==> id in c
    ensures var s := Final(net, Some(c), before, parse, opts);
      s.requests == before && s.cache == Some(c)
  {
    hide Final, Build;
    assert View(net, Start(Some(c))) == net;
    BuildTrafficIs(net, Some(c), before, parse, opts);
    WithoutAll(ImportsVisited(net, opts.program), c.Keys + {opts.program});
    var s := Final(net, Some(c), before, parse, opts);
    assert s.cache.value == c;
    assert s.requests == before + s.requests[|before|..];
  }

  /** From an agreeing cache, once the target and its imports were fetched, the same request asks for nothing again. */
  lemma RepeatAsksNothing(net: Sources, c: Sources, before: seq<string>, parse: string -> Option<Program>,
                          opts: Options)
    requires Agrees(net, c) && opts.privateKey != "" && opts.program in net
    requires ImportsFetchable(GraphOf(net), opts.program)
    ensures
      var (built, s) := Build(net, Start(Some(c)).(requests := before), parse, opts);
      s.cache.Some? && Build(net, Start(s.cache).(requests := s.requests), parse, opts).0 == built
    ensures
      var s := Final(net, Some(c), before, parse, opts);
      var again := Final(net, s.cache, s.requests, parse, opts);
      again.requests == s.requests && again.cache == s.cache
  {
    var s := Final(net, Some(c), before, parse, opts);
    hide Build;
    assert View(net, Start(Some(c))) == net;
    BuildTrafficIs(net, Some(c), before, parse, opts);
    VisitedAreReachable(net, opts.program);
    assert Agrees(net, s.cache.value);
    assert View(net, Start(s.cache)) == net;
    CachedAsksNothing(net, s.cache.value, s.requests, parse, opts);
    SameOutcome(net, c, before, s.cache.value, s.requests, parse, opts);
  }
}
