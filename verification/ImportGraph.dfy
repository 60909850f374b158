/**
 The depth-first traversal behind import resolution, on an arbitrary (possibly cyclic) import graph.
 A program that the graph does not define cannot be fetched. `credits.aleo` is built in and never visited.
 */
module ImportGraph {
  import opened Common

  type Graph = map<string, seq<string>>

  const CREDITS := "credits.aleo"

  datatype Outcome = Done | Missing(id: string)

  /** What one traversal adds: `asked` in the order programs are fetched, `order` in the order they are finished. */
  datatype Tour = Tour(outcome: Outcome, asked: seq<string>, order: seq<string>)

  function Visit(g: Graph, ids: seq<string>, visited: set<string>): Tour
    decreases g.Keys - visited, |ids|
  {
    if ids == [] then Tour(Done, [], [])
    else if ids[0] in visited || ids[0] == CREDITS then Visit(g, ids[1..], visited)
    else if ids[0] !in g then Tour(Missing(ids[0]), [ids[0]], [])
    else
      var id := ids[0];
      var inner := Visit(g, g[id], visited + {id});
      if inner.outcome.Missing? then Tour(inner.outcome, [id] + inner.asked, inner.order)
      else
        var rest := Visit(g, ids[1..], visited + {id} + Elements(inner.asked));
        Tour(rest.outcome, [id] + inner.asked + rest.asked, inner.order + [id] + rest.order)
  }

  // ---- paths

  ghost predicate Edge(g: Graph, u: string, v: string) {
    u in g && v in g[u] && v != CREDITS
  }

  /** A nonempty chain of imports that does not go through credits.aleo. */
  ghost predicate IsPath(g: Graph, p: seq<string>) {
    && p != [] && p[0] != CREDITS
    && (|p| > 1 ==> Edge(g, p[0], p[1]) && IsPath(g, p[1..]))
  }

  ghost predicate PathFrom(g: Graph, ids: seq<string>, p: seq<string>, x: string) {
    IsPath(g, p) && p[0] in ids && Last(p) == x
  }

  /** `x` is a transitive import of a program that imports `ids`. */
  ghost predicate Reachable(g: Graph, ids: seq<string>, x: string) {
    exists p :: PathFrom(g, ids, p, x)
  }

  ghost predicate PathBetween(g: Graph, u: string, p: seq<string>, v: string) {
    IsPath(g, p) && |p| >= 2 && p[0] == u && Last(p) == v
  }

  /** `u` imports `v`, directly or not. */
  ghost predicate Reaches(g: Graph, u: string, v: string) {
    exists p :: PathBetween(g, u, p, v)
  }

  lemma {:induction false} PathConcat(g: Graph, p: seq<string>, q: seq<string>)
    requires IsPath(g, p) && IsPath(g, q) && Edge(g, Last(p), q[0])
    ensures IsPath(g, p + q)
  {
    if |p| == 1 {
      assert (p + q)[1..] == q;
    } else {
      PathConcat(g, p[1..], q);
      assert (p + q)[1..] == p[1..] + q;
    }
  }

  lemma {:induction false} PathSuffix(g: Graph, p: seq<string>, k: nat)
    requires IsPath(g, p) && k < |p|
    ensures IsPath(g, p[k..])
  {
    if k == 0 {
      assert p[0..] == p;
    } else {
      PathSuffix(g, p[1..], k - 1);
      assert p[1..][k - 1..] == p[k..];
    }
  }

  lemma ReachableDirect(g: Graph, ids: seq<string>, x: string)
    requires x in ids && x != CREDITS
    ensures Reachable(g, ids, x)
  {
    assert PathFrom(g, ids, [x], x);
  }

  lemma ReachableThrough(g: Graph, ids: seq<string>, id: string, x: string)
    requires id in ids && id != CREDITS && id in g && Reachable(g, g[id], x)
    ensures Reachable(g, ids, x)
  {
    var p :| PathFrom(g, g[id], p, x);
    PathConcat(g, [id], p);
    assert PathFrom(g, ids, [id] + p, x);
  }

  lemma ReachableWeaken(g: Graph, ids: seq<string>, more: seq<string>, x: string)
    requires Reachable(g, ids, x) && forall id :: id in ids ==> id in more
    ensures Reachable(g, more, x)
  {
    var p :| PathFrom(g, ids, p, x);
    assert PathFrom(g, more, p, x);
  }

  // ---- the order of visits

  /** One tour and then another, of which the first failed or not. */
  function Both(t: Tour, u: Tour): Tour {
    if t.outcome.Done? then Tour(u.outcome, t.asked + u.asked, t.order + u.order) else t
  }

  /** The tour of a program whose imports were visited as `inner`, and then `rest`. */
  function Then(id: string, inner: Tour, rest: Tour): Tour {
    Tour(rest.outcome, [id] + inner.asked + rest.asked, inner.order + [id] + rest.order)
  }

  lemma ThenBoth(id: string, inner: Tour, t: Tour, u: Tour)
    ensures Then(id, inner, Both(t, u)) == Both(Then(id, inner, t), u)
  {
    if t.outcome.Done? {
      Prepend([id] + inner.asked, t.asked + u.asked, t.asked, u.asked);
      Prepend(inner.order + [id], t.order + u.order, t.order, u.order);
    }
  }

  lemma VisitThen(g: Graph, ids: seq<string>, visited: set<string>)
    requires ids != [] && ids[0] !in visited && ids[0] != CREDITS && ids[0] in g
    ensures
      var inner := Visit(g, g[ids[0]], visited + {ids[0]});
      Visit(g, ids, visited)
      == if inner.outcome.Done?
         then Then(ids[0], inner, Visit(g, ids[1..], visited + {ids[0]} + Elements(inner.asked)))
         else Tour(inner.outcome, [ids[0]] + inner.asked, inner.order)
  {
  }

  /** Imports are visited from left to right: what follows in a list changes nothing about what its beginning does. */
  lemma {:induction false} LeftToRight(g: Graph, a: seq<string>, b: seq<string>, visited: set<string>)
    ensures var t := Visit(g, a, visited);
      Visit(g, a + b, visited) == Both(t, Visit(g, b, visited + Elements(t.asked)))
    decreases g.Keys - visited, |a|
  {
    if a == [] {
      assert a + b == b && visited + Elements<string>([]) == visited;
      assert Visit(g, a, visited) == Tour(Done, [], []);
      assert [] + Visit(g, b, visited).asked == Visit(g, b, visited).asked;
      assert [] + Visit(g, b, visited).order == Visit(g, b, visited).order;
    } else {
      assert (a + b)[0] == a[0] && (a + b)[1..] == a[1..] + b;
      if a[0] in visited || a[0] == CREDITS {
        LeftToRight(g, a[1..], b, visited);
      } else if a[0] in g {
        VisitThen(g, a, visited);
        VisitThen(g, a + b, visited);
        if Visit(g, g[a[0]], visited + {a[0]}).outcome.Done? {
          LeftToRightVisit(g, a, b, visited);
        }
      }
    }
  }

  lemma LeftToRightVisit(g: Graph, a: seq<string>, b: seq<string>, visited: set<string>)
    requires a != [] && a[0] !in visited && a[0] != CREDITS && a[0] in g
    requires Visit(g, g[a[0]], visited + {a[0]}).outcome.Done? && (a + b)[0] == a[0] && (a + b)[1..] == a[1..] + b
    ensures var t := Visit(g, a, visited);
      Visit(g, a + b, visited) == Both(t, Visit(g, b, visited + Elements(t.asked)))
    decreases g.Keys - visited, |a|, 0
  {
    var inner := Visit(g, g[a[0]], visited + {a[0]});
    var seen := visited + {a[0]} + Elements(inner.asked);
    var t := Visit(g, a[1..], seen);
    LeftToRight(g, a[1..], b, seen);
    VisitThen(g, a, visited);
    VisitThen(g, a + b, visited);
    SeenAfter(visited, a[0], inner.asked, t.asked);
    ThenBoth(a[0], inner, t, Visit(g, b, seen + Elements(t.asked)));
  }

  lemma SeenAfter(visited: set<string>, id: string, asked: seq<string>, more: seq<string>)
    ensures visited + {id} + Elements(asked) + Elements(more) == visited + Elements([id] + asked + more)
  {
    ElementsConcat([id], asked);
    ElementsConcat([id] + asked, more);
  }

  // ---- what the traversal collects

  /** Every program is fetched at most once, none twice, credits.aleo never. */
  lemma {:induction false} AskedOnce(g: Graph, ids: seq<string>, visited: set<string>)
    ensures var t := Visit(g, ids, visited);
      Distinct(t.asked) && CREDITS !in t.asked && Elements(t.asked) !! visited
    decreases g.Keys - visited, |ids|
  {
    if ids == [] {
    } else if ids[0] in visited || ids[0] == CREDITS {
      AskedOnce(g, ids[1..], visited);
    } else if ids[0] in g {
      var id := ids[0];
      var inner := Visit(g, g[id], visited + {id});
      AskedOnce(g, g[id], visited + {id});
      DistinctConcat([id], inner.asked);
      if inner.outcome.Done? {
        var seen := visited + {id} + Elements(inner.asked);
        AskedOnce(g, ids[1..], seen);
        DistinctConcat([id] + inner.asked, Visit(g, ids[1..], seen).asked);
      }
    }
  }

  lemma OrderConcat(asked: seq<string>, order: seq<string>, id: string, asked': seq<string>, order': seq<string>)
    requires Elements(order) == Elements(asked) && Elements(order') == Elements(asked')
    requires Distinct(order) && Distinct(order') && id !in asked && Elements([id] + asked) !! Elements(asked')
    ensures Elements(order + [id] + order') == Elements([id] + asked + asked') && Distinct(order + [id] + order')
  {
    ElementsConcat(order, [id]);
    ElementsConcat([id], asked);
    assert id in Elements(order) <==> id in Elements(asked);
    DistinctConcat(order, [id]);
    ElementsConcat(order + [id], order');
    ElementsConcat([id] + asked, asked');
    DistinctConcat(order + [id], order');
  }

  /** A successful traversal collects exactly the programs it fetched, each once. */
  lemma {:induction false} OrderIsAskedWhenDone(g: Graph, ids: seq<string>, visited: set<string>)
    requires Visit(g, ids, visited).outcome.Done?
    ensures var t := Visit(g, ids, visited);
      Elements(t.order) == Elements(t.asked) && Elements(t.asked) <= g.Keys && Distinct(t.order)
    decreases g.Keys - visited, |ids|
  {
    if ids == [] {
    } else if ids[0] in visited || ids[0] == CREDITS {
      OrderIsAskedWhenDone(g, ids[1..], visited);
    } else {
      var id := ids[0];
      var inner := Visit(g, g[id], visited + {id});
      var seen := visited + {id} + Elements(inner.asked);
      var rest := Visit(g, ids[1..], seen);
      OrderIsAskedWhenDone(g, g[id], visited + {id});
      AskedOnce(g, g[id], visited + {id});
      OrderIsAskedWhenDone(g, ids[1..], seen);
      AskedOnce(g, ids[1..], seen);
      assert id !in inner.asked by {
        assert id in inner.asked ==> id in Elements(inner.asked);
      }
      ElementsConcat([id], inner.asked);
      ElementsConcat([id] + inner.asked, rest.asked);
      OrderConcat(inner.asked, inner.order, id, rest.asked, rest.order);
    }
  }

  /** `asked` ends in `id`, the only program in it that the graph does not define. */
  ghost predicate FailsAt(g: Graph, asked: seq<string>, id: string) {
    asked != [] && id == Last(asked) && id !in g && Elements(asked[..|asked| - 1]) <= g.Keys
  }

  lemma FailsAtPrepend(g: Graph, before: seq<string>, asked: seq<string>, id: string)
    requires Elements(before) <= g.Keys && FailsAt(g, asked, id)
    ensures FailsAt(g, before + asked, id)
  {
    var all := before + asked;
    assert all[..|all| - 1] == before + asked[..|asked| - 1];
    ElementsConcat(before, asked[..|asked| - 1]);
  }

  /** A failed traversal stops at the fetch that failed. */
  lemma {:induction false} AskedUpToMissing(g: Graph, ids: seq<string>, visited: set<string>)
    requires Visit(g, ids, visited).outcome.Missing?
    ensures var t := Visit(g, ids, visited); FailsAt(g, t.asked, t.outcome.id)
    decreases g.Keys - visited, |ids|
  {
    var id := ids[0];
    if id in visited || id == CREDITS {
      AskedUpToMissing(g, ids[1..], visited);
    } else if id in g {
      var inner := Visit(g, g[id], visited + {id});
      if inner.outcome.Missing? {
        AskedUpToMissing(g, g[id], visited + {id});
        FailsAtPrepend(g, [id], inner.asked, inner.outcome.id);
      } else {
        var seen := visited + {id} + Elements(inner.asked);
        var rest := Visit(g, ids[1..], seen);
        OrderIsAskedWhenDone(g, g[id], visited + {id});
        AskedUpToMissing(g, ids[1..], seen);
        ElementsConcat([id], inner.asked);
        FailsAtPrepend(g, [id] + inner.asked, rest.asked, rest.outcome.id);
      }
    }
  }

  /** On success exactly the fetched programs are collected, each once; on failure the last fetch is the failed one. */
  lemma OrderIsAsked(g: Graph, ids: seq<string>, visited: set<string>)
    ensures var t := Visit(g, ids, visited);
      match t.outcome
      case Done => Elements(t.order) == Elements(t.asked) && Elements(t.asked) <= g.Keys && Distinct(t.order)
      case Missing(m) => FailsAt(g, t.asked, m)
  {
    if Visit(g, ids, visited).outcome.Done? {
      OrderIsAskedWhenDone(g, ids, visited);
    } else {
      AskedUpToMissing(g, ids, visited);
    }
  }

  /** Only transitive imports are fetched. */
  lemma {:induction false} AskedReachable(g: Graph, ids: seq<string>, visited: set<string>, x: string)
    requires x in Visit(g, ids, visited).asked
    ensures Reachable(g, ids, x)
    decreases g.Keys - visited, |ids|
  {
    var id := ids[0];
    if id in visited || id == CREDITS {
      AskedReachable(g, ids[1..], visited, x);
      ReachableWeaken(g, ids[1..], ids, x);
    } else if x == id {
      ReachableDirect(g, ids, x);
    } else {
      var inner := Visit(g, g[id], visited + {id});
      if x in inner.asked {
        AskedReachable(g, g[id], visited + {id}, x);
        ReachableThrough(g, ids, id, x);
      } else {
        AskedReachable(g, ids[1..], visited + {id} + Elements(inner.asked), x);
        ReachableWeaken(g, ids[1..], ids, x);
      }
    }
  }

  /** After a successful traversal the visited programs contain `ids` and every import of a program it fetched. */
  lemma {:induction false} ImportsAsked(g: Graph, ids: seq<string>, visited: set<string>)
    requires Visit(g, ids, visited).outcome.Done?
    ensures var t := Visit(g, ids, visited);
      && (forall v :: v in ids && v != CREDITS ==> v in visited + Elements(t.asked))
      && (forall u, v :: u in t.asked && Edge(g, u, v) ==> v in visited + Elements(t.asked))
    decreases g.Keys - visited, |ids|
  {
    if ids == [] {
    } else if ids[0] in visited || ids[0] == CREDITS {
      ImportsAsked(g, ids[1..], visited);
    } else {
      var id := ids[0];
      var inner := Visit(g, g[id], visited + {id});
      var seen := visited + {id} + Elements(inner.asked);
      ImportsAsked(g, g[id], visited + {id});
      ImportsAsked(g, ids[1..], seen);
      ElementsConcat([id], inner.asked);
      ElementsConcat([id] + inner.asked, Visit(g, ids[1..], seen).asked);
      assert ids == [id] + ids[1..];
    }
  }

  lemma {:induction false} PathStaysInside(g: Graph, p: seq<string>, inside: set<string>)
    requires IsPath(g, p) && p[0] in inside
    requires forall u, v :: u in inside && Edge(g, u, v) ==> v in inside
    ensures Last(p) in inside
  {
    if |p| > 1 {
      PathStaysInside(g, p[1..], inside);
    }
  }

  /** Exact closure and exact failure. */
  lemma CollectsExactly(g: Graph, ids: seq<string>)
    ensures var t := Visit(g, ids, {});
      && (t.outcome.Done? <==> forall x :: Reachable(g, ids, x) ==> x in g)
      && (t.outcome.Done? ==> forall x :: x in t.order <==> Reachable(g, ids, x))
      && (t.outcome.Missing? ==> Reachable(g, ids, t.outcome.id) && t.outcome.id !in g)
  {
    var t := Visit(g, ids, {});
    OrderIsAsked(g, ids, {});
    forall x | x in t.asked ensures Reachable(g, ids, x) {
      AskedReachable(g, ids, {}, x);
    }
    if t.outcome.Done? {
      ImportsAsked(g, ids, {});
      forall x | Reachable(g, ids, x) ensures x in t.asked {
        var p :| PathFrom(g, ids, p, x);
        PathStaysInside(g, p, Elements(t.asked));
      }
      assert forall x :: x in t.order <==> x in Elements(t.order);
    }
  }

  // ---- the order

  /** Every import of `u` is among `before`, or is part of a cycle with `u`. */
  ghost predicate Settled(g: Graph, before: set<string>, u: string) {
    forall v :: Edge(g, u, v) ==> v in before || Reaches(g, v, u)
  }

  /** Every import of a collected program was finished before it, or is part of a cycle with it. */
  ghost predicate PostOrder(g: Graph, finished: set<string>, order: seq<string>) {
    forall i :: 0 <= i < |order| ==> Settled(g, finished + Elements(order[..i]), order[i])
  }

  /** `stack` is the chain of programs whose imports are being visited. */
  ghost predicate IsStack(g: Graph, stack: seq<string>, ids: seq<string>) {
    stack != [] ==> IsPath(g, stack) && Last(stack) in g && forall id :: id in ids ==> id in g[Last(stack)]
  }

  lemma StackReaches(g: Graph, stack: seq<string>, ids: seq<string>, id: string, v: string)
    requires IsStack(g, stack, ids) && id in ids && id != CREDITS && v in stack
    ensures Reaches(g, v, id)
  {
    var k :| 0 <= k < |stack| && stack[k] == v;
    PathSuffix(g, stack, k);
    PathConcat(g, stack[k..], [id]);
    assert PathBetween(g, v, stack[k..] + [id], id);
  }

  lemma StackPush(g: Graph, stack: seq<string>, ids: seq<string>, id: string)
    requires IsStack(g, stack, ids) && id in ids && id != CREDITS && id in g
    ensures IsStack(g, stack + [id], g[id])
  {
    if stack != [] {
      PathConcat(g, stack, [id]);
    }
  }

  lemma PostOrderConcat(g: Graph, finished: set<string>, a: seq<string>, b: seq<string>)
    requires PostOrder(g, finished, a) && PostOrder(g, finished + Elements(a), b)
    ensures PostOrder(g, finished, a + b)
  {
    var s := a + b;
    forall i | 0 <= i < |s| ensures Settled(g, finished + Elements(s[..i]), s[i]) {
      if i < |a| {
        assert s[i] == a[i] && s[..i] == a[..i];
      } else {
        var k := i - |a|;
        assert s[i] == b[k] && s[..i] == a + b[..k];
        ElementsConcat(a, b[..k]);
        assert Settled(g, finished + Elements(a) + Elements(b[..k]), b[k]);
      }
    }
  }

  /** The depth-first invariant: what is visited but not finished is exactly the stack. */
  lemma {:induction false} VisitsInPostOrder(g: Graph, ids: seq<string>, finished: set<string>, stack: seq<string>)
    requires IsStack(g, stack, ids)
    requires Visit(g, ids, finished + Elements(stack)).outcome.Done?
    ensures PostOrder(g, finished, Visit(g, ids, finished + Elements(stack)).order)
    decreases g.Keys - (finished + Elements(stack)), |ids|
  {
    var visited := finished + Elements(stack);
    if ids == [] {
    } else if ids[0] in visited || ids[0] == CREDITS {
      VisitsInPostOrder(g, ids[1..], finished, stack);
    } else {
      var id := ids[0];
      var inner := Visit(g, g[id], visited + {id});
      StackPush(g, stack, ids, id);
      assert visited + {id} == finished + Elements(stack + [id]);
      VisitsInPostOrder(g, g[id], finished, stack + [id]);
      VisitedLast(g, ids, finished, stack, id);
      PostOrderConcat(g, finished, inner.order, [id]);
      OrderIsAsked(g, g[id], visited + {id});
      var done := finished + Elements(inner.order + [id]);
      assert visited + {id} + Elements(inner.asked) == done + Elements(stack);
      VisitsInPostOrder(g, ids[1..], done, stack);
      PostOrderConcat(g, finished, inner.order + [id], Visit(g, ids[1..], done + Elements(stack)).order);
    }
  }

  /** A program is finished only when each of its imports is finished or still on the stack. */
  lemma VisitedLast(g: Graph, ids: seq<string>, finished: set<string>, stack: seq<string>, id: string)
    requires IsStack(g, stack, ids) && id in ids && id != CREDITS && id in g
    requires Visit(g, g[id], finished + Elements(stack) + {id}).outcome.Done?
    ensures var order := Visit(g, g[id], finished + Elements(stack) + {id}).order;
      PostOrder(g, finished + Elements(order), [id])
  {
    var visited := finished + Elements(stack) + {id};
    var inner := Visit(g, g[id], visited);
    ImportsAsked(g, g[id], visited);
    OrderIsAsked(g, g[id], visited);
    forall v | Edge(g, id, v) ensures v in finished + Elements(inner.order) || Reaches(g, v, id) {
      if v == id {
        var loop := [id, id];
        assert loop[1..] == [id] && Last(loop) == id;
        assert PathBetween(g, id, loop, id);
      } else if v in stack {
        StackReaches(g, stack, ids, id, v);
      } else {
        assert v in visited + Elements(inner.asked);
      }
    }
  }

  /** Every program comes after all of its imports. */
  ghost predicate Topological(g: Graph, order: seq<string>) {
    forall i :: 0 <= i < |order| ==> forall v :: Edge(g, order[i], v) ==> v in order[..i]
  }

  /** Some transitive import of `ids` imports itself, directly or not. */
  ghost predicate CycleFrom(g: Graph, ids: seq<string>) {
    exists x :: Reachable(g, ids, x) && Reaches(g, x, x)
  }

  /** On every graph, cyclic or not. */
  lemma ImportsPrecedeOrCycle(g: Graph, ids: seq<string>)
    requires Visit(g, ids, {}).outcome.Done?
    ensures PostOrder(g, {}, Visit(g, ids, {}).order)
  {
    assert {} + Elements<string>([]) == {};
    VisitsInPostOrder(g, ids, {}, []);
  }

  lemma {:induction false} PathDescends(g: Graph, order: seq<string>, p: seq<string>, i: nat) returns (j: nat)
    requires Topological(g, order) && IsPath(g, p) && i < |order| && p[0] == order[i]
    ensures j <= i && order[j] == Last(p) && (|p| > 1 ==> j < i)
  {
    if |p| == 1 {
      j := i;
    } else {
      assert p[1] in order[..i];
      var k :| 0 <= k < i && order[..i][k] == p[1];
      j := PathDescends(g, order, p[1..], k);
    }
  }

  /** The collected order is a topological order exactly when no cycle of imports is reachable. */
  lemma TopologicalIffAcyclic(g: Graph, ids: seq<string>)
    requires Visit(g, ids, {}).outcome.Done?
    ensures Topological(g, Visit(g, ids, {}).order) <==> !CycleFrom(g, ids)
  {
    var order := Visit(g, ids, {}).order;
    CollectsExactly(g, ids);
    OrderIsAsked(g, ids, {});
    if Topological(g, order) && CycleFrom(g, ids) {
      var x :| Reachable(g, ids, x) && Reaches(g, x, x);
      var p :| PathBetween(g, x, p, x);
      var i :| 0 <= i < |order| && order[i] == x;
      var j := PathDescends(g, order, p, i);
      assert false;
    }
    if !CycleFrom(g, ids) {
      ImportsPrecedeOrCycle(g, ids);
      forall i, v | 0 <= i < |order| && Edge(g, order[i], v) ensures v in order[..i] {
        assert Settled(g, {} + Elements(order[..i]), order[i]);
        if Reaches(g, v, order[i]) {
          CloseCycle(g, v, order[i]);
          assert false;
        }
      }
    }
  }

  lemma CloseCycle(g: Graph, v: string, u: string)
    requires Reaches(g, v, u) && Edge(g, u, v)
    ensures Reaches(g, u, u)
  {
    var p :| PathBetween(g, v, p, u);
    PathConcat(g, p, [v]);
    PathSuffix(g, p + [v], 1);
    var q := [u] + p;
    assert u != CREDITS by {
      PathSuffix(g, p, |p| - 1);
    }
    PathConcat(g, [u], p);
    assert PathBetween(g, u, q, u);
  }

  /** The traversal of two programs that import each other. */
  lemma CycleTour(g: Graph, a: string, b: string)
    requires a != b && a != CREDITS && b != CREDITS
    requires a in g && b in g && g[a] == [b] && g[b] == [a]
    ensures Visit(g, [a], {}) == Tour(Done, [a, b], [b, a])
  {
    var visited := {} + {a};
    SoleVisit(g, b, visited);
    SoleVisit(g, a, {});
    assert Visit(g, g[b], visited + {b}) == Visit(g, [], visited + {b}) by {
      assert [a][1..] == [];
    }
  }

  /** A list of one program is visited by visiting its imports. */
  lemma SoleVisit(g: Graph, id: string, visited: set<string>)
    requires id in g && id !in visited && id != CREDITS && Visit(g, g[id], visited + {id}).outcome.Done?
    ensures var t := Visit(g, g[id], visited + {id});
      Visit(g, [id], visited) == Tour(Done, [id] + t.asked, t.order + [id])
  {
    assert [id][1..] == [];
  }

  /** Two programs that import each other: resolution succeeds, and its order is not topological. */
  lemma CycleIsCollected(g: Graph, a: string, b: string)
    requires a != b && a != CREDITS && b != CREDITS
    requires a in g && b in g && g[a] == [b] && g[b] == [a]
    ensures Visit(g, [a], {}) == Tour(Done, [a, b], [b, a])
    ensures CycleFrom(g, [a]) && !Topological(g, [b, a])
  {
    CycleTour(g, a, b);
    var order := [b, a];
    assert Edge(g, order[0], a) && order[..0] == [];
    TopologicalIffAcyclic(g, [a]);
  }
}
