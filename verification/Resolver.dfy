/**
 Import resolution over a network snapshot and an optional program cache.
 `Collect` is the traversal as a function of the state it mutates. `Authorization.ListWalk.CollectImports` is the
 traversal itself and computes that function. The lemmas relate the function to the graph traversal of ImportGraph.
 */
module Resolver {
  import opened Common
  import opened GoStrings
  import opened ImportLines
  import opened ImportGraph

  /**
   Everything one resolution mutates. `ids` names the programs whose sources are in `ordered`.
   `requests` lists the IDs asked of the network. `cache` is None for a nil cache.
   */
  datatype Session = Session(visited: set<string>, ordered: seq<string>, ids: seq<string>,
                             cache: Option<Sources>, requests: seq<string>)

  function Cached(s: Session): Sources {
    if s.cache.Some? then s.cache.value else map[]
  }

  /** What a fetch returns for each ID: the cached source if there is one, otherwise the network's. */
  function View(net: Sources, s: Session): Sources {
    net + Cached(s)
  }

  function GraphOf(view: Sources): Graph {
    map id | id in view :: ImportIds(view[id])
  }

  function Fetch(net: Sources, s: Session, id: string): (Option<string>, Session) {
    if id in Cached(s) then (Some(Cached(s)[id]), s)
    else if id !in net then (None, s.(requests := s.requests + [id]))
    else (Some(net[id]), s.(requests := s.requests + [id],
                            cache := if s.cache.Some? then Some(s.cache.value[id := net[id]]) else None))
  }

  /** Visits the imports `ids`, depth first. */
  function Collect(net: Sources, ids: seq<string>, s: Session): (r: (Outcome, Session))
    ensures View(net, r.1) == View(net, s) && s.visited <= r.1.visited
    decreases View(net, s).Keys - s.visited, |ids|
  {
    if ids == [] then (Done, s)
    else if ids[0] in s.visited || ids[0] == CREDITS then Collect(net, ids[1..], s)
    else
      var (src, s1) := Fetch(net, Mark(s, ids[0]), ids[0]);
      FetchReadsView(net, Mark(s, ids[0]), ids[0]);
      if src.None? then (Missing(ids[0]), s1)
      else
        var (o, s2) := Collect(net, ImportIds(src.value), s1);
        if o.Missing? then (o, s2) else Collect(net, ids[1..], Append(s2, ids[0], src.value))
  }

  function Mark(s: Session, id: string): Session {
    s.(visited := s.visited + {id})
  }

  function Append(s: Session, id: string, source: string): Session {
    s.(ordered := s.ordered + [source], ids := s.ids + [id])
  }

  /** A fetch answers from the view and leaves the view, the visited set and the collected programs alone. */
  lemma FetchReadsView(net: Sources, s: Session, id: string)
    ensures
      var (src, s') := Fetch(net, s, id);
      && View(net, s') == View(net, s)
      && src == (if id in View(net, s) then Some(View(net, s)[id]) else None)
      && s' == s.(cache := s'.cache, requests := s'.requests)
  {
  }

  // ---- the traversal refines the plain graph traversal

  function SourcesOf(view: Sources, ids: seq<string>): seq<string> {
    seq(|ids|, i requires 0 <= i < |ids| => if ids[i] in view then view[ids[i]] else "")
  }

  lemma SourcesOfConcat(view: Sources, a: seq<string>, b: seq<string>)
    ensures SourcesOf(view, a + b) == SourcesOf(view, a) + SourcesOf(view, b)
  {
  }

  /** `s'` is `s` after a traversal that did `t`. */
  ghost predicate Extends(view: Sources, s: Session, t: Tour, s': Session) {
    && s'.visited == s.visited + Elements(t.asked)
    && s'.ids == s.ids + t.order
    && s'.ordered == s.ordered + SourcesOf(view, t.order)
  }

  lemma ExtendsThrough(view: Sources, s: Session, id: string, s1: Session, t: Tour, s2: Session)
    requires id in view && s1 == Mark(s, id).(cache := s1.cache, requests := s1.requests) && Extends(view, s1, t, s2)
    ensures Extends(view, s, Tour(t.outcome, [id] + t.asked, t.order), s2)
    ensures Extends(view, s, Tour(t.outcome, [id] + t.asked, t.order + [id]), Append(s2, id, view[id]))
  {
    ElementsConcat([id], t.asked);
    SourcesOfConcat(view, t.order, [id]);
  }

  lemma ExtendsSeries(view: Sources, s: Session, t: Tour, s1: Session, u: Tour, s2: Session)
    requires Extends(view, s, t, s1) && Extends(view, s1, u, s2)
    ensures Extends(view, s, Tour(u.outcome, t.asked + u.asked, t.order + u.order), s2)
  {
    ElementsConcat(t.asked, u.asked);
    SourcesOfConcat(view, t.order, u.order);
  }

  /** From any cache, the outcome, the visited set and the collected programs are those of the graph traversal. */
  lemma {:induction false} CollectRefinesVisit(net: Sources, ids: seq<string>, s: Session)
    ensures
      var t := Visit(GraphOf(View(net, s)), ids, s.visited);
      var (o, s') := Collect(net, ids, s);
      o == t.outcome && Extends(View(net, s), s, t, s')
    decreases View(net, s).Keys - s.visited, |ids|
  {
    var view := View(net, s);
    var g := GraphOf(view);
    if ids == [] {
    } else if ids[0] in s.visited || ids[0] == CREDITS {
      CollectRefinesVisit(net, ids[1..], s);
    } else {
      var id := ids[0];
      var (src, s1) := Fetch(net, Mark(s, id), id);
      FetchReadsView(net, Mark(s, id), id);
      if src.Some? {
        var (o, s2) := Collect(net, ImportIds(src.value), s1);
        CollectRefinesVisit(net, ImportIds(src.value), s1);
        var inner := Visit(g, ImportIds(src.value), s1.visited);
        ExtendsThrough(view, s, id, s1, inner, s2);
        if o.Done? {
          var s3 := Append(s2, id, src.value);
          CollectRefinesVisit(net, ids[1..], s3);
          ExtendsSeries(view, s, Tour(inner.outcome, [id] + inner.asked, inner.order + [id]), s3,
                        Visit(g, ids[1..], s3.visited), Collect(net, ids[1..], s3).1);
        }
      }
    }
  }

  /** The members of `s` that are not in `keys`, in order. */
  function Without(s: seq<string>, keys: set<string>): seq<string> {
    if s == [] then [] else (if s[0] in keys then [] else [s[0]]) + Without(s[1..], keys)
  }

  lemma {:induction false} WithoutConcat(a: seq<string>, b: seq<string>, keys: set<string>)
    ensures Without(a + b, keys) == Without(a, keys) + Without(b, keys)
  {
    if a == [] {
      assert a + b == b;
    } else {
      assert (a + b)[1..] == a[1..] + b;
      WithoutConcat(a[1..], b, keys);
    }
  }

  lemma {:induction false} WithoutAgree(s: seq<string>, keys: set<string>, more: set<string>)
    requires forall x :: x in s ==> (x in keys <==> x in more)
    ensures Without(s, keys) == Without(s, more)
  {
    if s != [] {
      WithoutAgree(s[1..], keys, more);
    }
  }

  lemma {:induction false} WithoutMembers(s: seq<string>, keys: set<string>)
    requires Distinct(s)
    ensures Distinct(Without(s, keys)) && forall x :: x in Without(s, keys) <==> x in s && x !in keys
  {
    if s != [] {
      WithoutMembers(s[1..], keys);
    }
  }

  /** The cache after the programs in `asked` were fetched through it. */
  function Filled(net: Sources, c: Sources, asked: set<string>): Sources {
    map id | id in c.Keys + asked * net.Keys :: if id in c then c[id] else net[id]
  }

  lemma FilledTwice(net: Sources, c: Sources, a: set<string>, b: set<string>)
    ensures Filled(net, Filled(net, c, a), b) == Filled(net, c, a + b)
  {
  }

  /** Fetching the programs in `asked` took the requests and the cache of `s` to those of `s'`. */
  ghost predicate FetchedBy(net: Sources, s: Session, s': Session, asked: seq<string>) {
    && s'.requests == s.requests + Without(asked, Cached(s).Keys)
    && s'.cache == if s.cache.Some? then Some(Filled(net, s.cache.value, Elements(asked))) else None
  }

  lemma FetchedNothing(net: Sources, s: Session)
    ensures FetchedBy(net, s, s, [])
  {
    if s.cache.Some? {
      assert Filled(net, s.cache.value, Elements([])) == s.cache.value;
    }
  }

  lemma FetchStep(net: Sources, s: Session, id: string)
    ensures FetchedBy(net, s, Fetch(net, Mark(s, id), id).1, [id])
  {
    if s.cache.Some? {
      assert Filled(net, s.cache.value, Elements([id]))
          == if id in net && id !in s.cache.value then s.cache.value[id := net[id]] else s.cache.value;
    }
    assert Without([id], Cached(s).Keys) == if id in Cached(s) then [] else [id];
  }

  lemma FetchedThenAppended(net: Sources, s: Session, s': Session, asked: seq<string>, id: string, source: string)
    requires FetchedBy(net, s, s', asked)
    ensures FetchedBy(net, s, Append(s', id, source), asked)
  {
  }

  lemma FetchSeries(net: Sources, s: Session, s1: Session, s2: Session, a: seq<string>, b: seq<string>)
    requires FetchedBy(net, s, s1, a) && FetchedBy(net, s1, s2, b) && Elements(a) !! Elements(b)
    ensures FetchedBy(net, s, s2, a + b)
  {
    WithoutConcat(a, b, Cached(s).Keys);
    forall x | x in b ensures x in Cached(s) <==> x in Cached(s1) {
      assert x in Elements(b) && x !in Elements(a);
    }
    WithoutAgree(b, Cached(s).Keys, Cached(s1).Keys);
    ElementsConcat(a, b);
    if s.cache.Some? {
      FilledTwice(net, s.cache.value, Elements(a), Elements(b));
    }
  }

  /** The network is asked once for each program not already cached, in visiting order; each answer is stored. */
  lemma {:induction false} CollectFetches(net: Sources, ids: seq<string>, s: Session)
    ensures FetchedBy(net, s, Collect(net, ids, s).1, Visit(GraphOf(View(net, s)), ids, s.visited).asked)
    decreases View(net, s).Keys - s.visited, |ids|
  {
    hide FetchedBy, Filled, Without;
    var view := View(net, s);
    var g := GraphOf(view);
    if ids == [] {
      FetchedNothing(net, s);
    } else if ids[0] in s.visited || ids[0] == CREDITS {
      CollectFetches(net, ids[1..], s);
    } else {
      var id := ids[0];
      var (src, s1) := Fetch(net, Mark(s, id), id);
      FetchReadsView(net, Mark(s, id), id);
      FetchStep(net, s, id);
      if src.Some? {
        var inner := Visit(g, ImportIds(src.value), s1.visited);
        var s2 := Collect(net, ImportIds(src.value), s1).1;
        CollectFetches(net, ImportIds(src.value), s1);
        CollectRefinesVisit(net, ImportIds(src.value), s1);
        AskedOnce(g, ImportIds(src.value), s1.visited);
        FetchSeries(net, s, s1, s2, [id], inner.asked);
        if inner.outcome.Done? {
          var s3 := Append(s2, id, src.value);
          FetchedThenAppended(net, s, s2, [id] + inner.asked, id, src.value);
          CollectFetches(net, ids[1..], s3);
          AskedOnce(g, ids[1..], s3.visited);
          ElementsConcat([id], inner.asked);
          FetchSeries(net, s, s3, Collect(net, ids[1..], s3).1, [id] + inner.asked,
                      Visit(g, ids[1..], s3.visited).asked);
        }
      }
    }
  }
}
