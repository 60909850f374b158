/**
 The Rust side of an authorization: programs are added to a fresh process one after another.
 `parse` stands for snarkVM's program parser. snarkVM's `add_program` is assumed to reject a program exactly when
 one of its imports is not loaded yet.
 */
module RustProcess {
  import opened Common
  import opened ImportGraph

  datatype Program = Program(id: string, imports: seq<string>)

  datatype Loading = Loaded(programs: set<string>) | Unparsed(source: string) | MissingImport(id: string, dep: string)

  function FirstMissing(imports: seq<string>, loaded: set<string>): (r: Option<string>)
    ensures r.None? <==> forall v :: v in imports ==> v in loaded
    ensures r.Some? ==> r.value in imports && r.value !in loaded
  {
    if imports == [] then None
    else if imports[0] !in loaded then Some(imports[0])
    else FirstMissing(imports[1..], loaded)
  }

  /** Adds the programs of `sources` in order. */
  function AddAll(parse: string -> Option<Program>, sources: seq<string>, loaded: set<string>): Loading {
    if sources == [] then Loaded(loaded)
    else match parse(sources[0])
      case None => Unparsed(sources[0])
      case Some(p) =>
        var missing := FirstMissing(p.imports, loaded);
        if missing.Some? then MissingImport(p.id, missing.value)
        else AddAll(parse, sources[1..], loaded + {p.id})
  }

  /** A snarkVM process. A fresh one holds credits.aleo only. */
  class Process {
    var programs: set<string>

    constructor Load()
      ensures programs == {"credits.aleo"}
    {
      programs := {CREDITS};
    }

    method AddProgram(p: Program) returns (missing: Option<string>)
      modifies this
      ensures missing == FirstMissing(p.imports, old(programs))
      ensures programs == if missing.None? then old(programs) + {p.id} else old(programs)
    {
      missing := FirstMissing(p.imports, programs);
      if missing.None? {
        programs := programs + {p.id};
      }
    }

    /** The import loop of `aleo_authorize`. */
    method AddPrograms(parse: string -> Option<Program>, sources: seq<string>) returns (r: Loading)
      modifies this
      ensures r == AddAll(parse, sources, old(programs))
      ensures r.Loaded? ==> programs == r.programs
    {
      for i := 0 to |sources|
        invariant AddAll(parse, sources, old(programs)) == AddAll(parse, sources[i..], programs)
      {
        assert sources[i..] == [sources[i]] + sources[i + 1..];
        var p := parse(sources[i]);
        if p.None? {
          return Unparsed(sources[i]);
        }
        var missing := AddProgram(p.value);
        if missing.Some? {
          return MissingImport(p.value.id, missing.value);
        }
      }
      r := Loaded(programs);
    }
  }

  // ---- when the list loads

  /** The IDs of the programs that the sources parse to. */
  ghost function Ids(parse: string -> Option<Program>, sources: seq<string>): set<string> {
    set s | s in sources && parse(s).Some? :: parse(s).value.id
  }

  /** Every source is a program whose imports are loaded or come before it. */
  ghost predicate InTime(parse: string -> Option<Program>, loaded: set<string>, sources: seq<string>) {
    forall i :: 0 <= i < |sources| ==>
      parse(sources[i]).Some?
      && forall v :: v in parse(sources[i]).value.imports ==> v in loaded + Ids(parse, sources[..i])
  }

  lemma IdsCons(parse: string -> Option<Program>, source: string, more: seq<string>)
    requires parse(source).Some?
    ensures Ids(parse, [source] + more) == {parse(source).value.id} + Ids(parse, more)
  {
    assert forall s :: s in [source] + more <==> s == source || s in more;
  }

  lemma InTimeStep(parse: string -> Option<Program>, loaded: set<string>, source: string, more: seq<string>)
    requires parse(source).Some?
    ensures var p := parse(source).value;
      InTime(parse, loaded, [source] + more)
      <==> (forall v :: v in p.imports ==> v in loaded) && InTime(parse, loaded + {p.id}, more)
  {
    var all := [source] + more;
    var id := parse(source).value.id;
    assert Ids(parse, all[..0]) == {};
    forall i | 0 <= i < |more|
      ensures more[i] == all[i + 1] && loaded + {id} + Ids(parse, more[..i]) == loaded + Ids(parse, all[..i + 1])
    {
      assert all[..i + 1] == [source] + more[..i];
      IdsCons(parse, source, more[..i]);
    }
    if InTime(parse, loaded, all) {
      assert all[0] == source;
    }
    if (forall v :: v in parse(source).value.imports ==> v in loaded) && InTime(parse, loaded + {id}, more) {
      forall i | 0 <= i < |all|
        ensures parse(all[i]).Some?
        ensures forall v :: v in parse(all[i]).value.imports ==> v in loaded + Ids(parse, all[..i])
      {
        if i > 0 {
          assert all[i] == more[i - 1];
        }
      }
    }
  }

  /** Whatever snarkVM reads: the list loads exactly when every source parses and has its imports loaded before it. */
  lemma {:induction false} AddsAllIff(parse: string -> Option<Program>, sources: seq<string>, loaded: set<string>)
    ensures
      var r := AddAll(parse, sources, loaded);
      && (r.Loaded? <==> InTime(parse, loaded, sources))
      && (r.Loaded? ==> r.programs == loaded + Ids(parse, sources))
  {
    if sources == [] {
    } else if parse(sources[0]).None? {
      assert !InTime(parse, loaded, sources);
    } else {
      assert sources == [sources[0]] + sources[1..];
      AddsAllIff(parse, sources[1..], loaded + {parse(sources[0]).value.id});
      InTimeStep(parse, loaded, sources[0], sources[1..]);
      IdsCons(parse, sources[0], sources[1..]);
    }
  }

  /** snarkVM reads the sources as the programs `order`, with the imports `deps`. */
  ghost predicate ReadAs(parse: string -> Option<Program>, deps: Graph, order: seq<string>, sources: seq<string>) {
    |sources| == |order| && forall i :: 0 <= i < |order| ==>
      order[i] in deps && parse(sources[i]) == Some(Program(order[i], deps[order[i]]))
  }

  /** Every import of a program in `order` is loaded or comes before it. */
  ghost predicate LoadedInTime(g: Graph, loaded: set<string>, order: seq<string>) {
    forall i :: 0 <= i < |order| && order[i] in g ==>
      forall v :: v in g[order[i]] ==> v in loaded + Elements(order[..i])
  }

  lemma ReadIds(parse: string -> Option<Program>, deps: Graph, order: seq<string>, sources: seq<string>)
    requires ReadAs(parse, deps, order, sources)
    ensures Ids(parse, sources) == Elements(order)
  {
    forall id | id in Elements(order) ensures id in Ids(parse, sources) {
      var i :| 0 <= i < |order| && order[i] == id;
      assert sources[i] in sources;
    }
  }

  /** In terms of the imports that snarkVM reads. */
  lemma ReadLoadsIff(parse: string -> Option<Program>, deps: Graph, loaded: set<string>, order: seq<string>,
                     sources: seq<string>)
    requires ReadAs(parse, deps, order, sources)
    ensures InTime(parse, loaded, sources) <==> LoadedInTime(deps, loaded, order)
    ensures Ids(parse, sources) == Elements(order)
  {
    ReadIds(parse, deps, order, sources);
    forall i | 0 <= i < |order| ensures Ids(parse, sources[..i]) == Elements(order[..i]) {
      ReadIds(parse, deps, order[..i], sources[..i]);
    }
  }

  /** From a fresh process the list loads exactly when it is in topological order. */
  lemma FreshProcessLoadsIff(g: Graph, order: seq<string>)
    requires forall id :: id in order ==> id in g
    ensures LoadedInTime(g, {CREDITS}, order) <==> Topological(g, order)
  {
    if LoadedInTime(g, {CREDITS}, order) {
      forall i, v | 0 <= i < |order| && Edge(g, order[i], v) ensures v in order[..i] {
        assert v in {CREDITS} + Elements(order[..i]);
      }
    }
    if Topological(g, order) {
      forall i, v | 0 <= i < |order| && order[i] in g && v in g[order[i]]
        ensures v in {CREDITS} + Elements(order[..i])
      {
        if v != CREDITS {
          assert Edge(g, order[i], v);
        }
      }
    }
  }
}
