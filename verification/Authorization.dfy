/** Building an authorization: fetch the program, resolve its imports, hand everything to the Rust process. */
module Authorization {
  import opened Common
  import opened GoStrings
  import opened ImportLines
  import opened ImportGraph
  import opened Resolver
  import opened Resolution
  import opened RustProcess
  import Json

  /** A client of a network that serves `programs`; `requests` records the IDs it was asked for. */
  class NetworkClient {
    const programs: Sources
    ghost var requests: seq<string>

    constructor (programs: Sources)
      ensures this.programs == programs && requests == []
    {
      this.programs := programs;
      requests := [];
    }

    method GetProgram(id: string) returns (source: Option<string>)
      modifies this`requests
      ensures source == if id in programs then Some(programs[id]) else None
      ensures requests == old(requests) + [id]
    {
      requests := requests + [id];
      source := if id in programs then Some(programs[id]) else None;
    }

    /** GetProgramImports: None is the error result. */
    method GetProgramImports(source: string) returns (imports: Option<Sources>)
      modifies this`requests
      ensures
        var (o, _, collected) := CollectMap(programs, ImportIds(source), {}, map[]);
        imports == if o.Done? then Some(collected) else None
    {
      var walk := new MapWalk(this);
      var o := walk.CollectImportsMap(source);
      imports := if o.Done? then Some(walk.imports) else None;
    }
  }

  /** The sync.Map that caches program sources. */
  class ProgramCache {
    var entries: Sources

    constructor ()
      ensures entries == map[]
    {
      entries := map[];
    }

    method Store(id: string, source: string)
      modifies this
      ensures entries == old(entries)[id := source]
    {
      entries := entries[id := source];
    }
  }

  /** The state that the list traversal shares between its recursive calls. */
  class ListWalk {
    const nc: NetworkClient
    const cache: ProgramCache?
    var visited: set<string>
    var ordered: seq<string>
    ghost var ids: seq<string>

    constructor (nc: NetworkClient, cache: ProgramCache?)
      ensures this.nc == nc && this.cache == cache
      ensures State() == Start(if cache == null then None else Some(cache.entries)).(requests := nc.requests)
    {
      this.nc := nc;
      this.cache := cache;
      visited := {};
      ordered := [];
      ids := [];
    }

    ghost function State(): Session
      reads this, nc, cache
    {
      Session(visited, ordered, ids, if cache == null then None else Some(cache.entries), nc.requests)
    }

    method FetchProgramCached(id: string) returns (source: Option<string>)
      modifies nc`requests, cache
      ensures (source, State()) == Fetch(nc.programs, old(State()), id)
    {
      if cache != null && id in cache.entries {
        return Some(cache.entries[id]);
      }
      source := nc.GetProgram(id);
      if source.Some? && cache != null {
        cache.Store(id, source.value);
      }
    }

    method CollectImports(source: string) returns (r: Outcome)
      modifies this, nc`requests, cache
      ensures (r, State()) == Collect(nc.programs, ImportIds(source), old(State()))
      decreases View(nc.programs, State()).Keys - visited
    {
      hide TrimSpace, Fields, TrimSuffix, HasPrefix;
      var lines := Lines(source);
      for i := 0 to |lines|
        invariant Collect(nc.programs, IdsOf(lines), old(State())) == Collect(nc.programs, IdsOf(lines[i..]), State())
        invariant View(nc.programs, State()) == View(nc.programs, old(State())) && old(visited) <= visited
      {
        assert lines[i..][1..] == lines[i + 1..];
        var line := TrimSpace(lines[i]);
        if !HasPrefix(line, "import ") {
          continue;
        }
        var parts := Fields(line);
        if |parts| < 2 {
          continue;
        }
        var progID := TrimSuffix(parts[1], ";");
        assert ImportOf(lines[i]) == Some(progID);
        if progID in visited || progID == CREDITS {
          continue;
        }
        visited := visited + {progID};
        ghost var marked := State();
        var impSrc := FetchProgramCached(progID);
        FetchReadsView(nc.programs, marked, progID);
        if impSrc.None? {
          return Missing(progID);
        }
        var o := CollectImports(impSrc.value);
        if o.Missing? {
          return o;
        }
        ordered := ordered + [impSrc.value];
        ids := ids + [progID];
      }
      r := Done;
    }
  }

  /** The state that the map traversal shares between its recursive calls. */
  class MapWalk {
    const nc: NetworkClient
    var visited: set<string>
    var imports: Sources

    constructor (nc: NetworkClient)
      ensures this.nc == nc && visited == {} && imports == map[]
    {
      this.nc := nc;
      visited := {};
      imports := map[];
    }

    method CollectImportsMap(source: string) returns (r: Outcome)
      modifies this, nc`requests
      ensures (r, visited, imports) == CollectMap(nc.programs, ImportIds(source), old(visited), old(imports))
      decreases nc.programs.Keys - visited
    {
      hide TrimSpace, Fields, TrimSuffix, HasPrefix;
      var lines := Lines(source);
      for i := 0 to |lines|
        invariant CollectMap(nc.programs, IdsOf(lines), old(visited), old(imports))
               == CollectMap(nc.programs, IdsOf(lines[i..]), visited, imports)
        invariant old(visited) <= visited
      {
        assert lines[i..][1..] == lines[i + 1..];
        var line := TrimSpace(lines[i]);
        if !HasPrefix(line, "import ") {
          continue;
        }
        var parts := Fields(line);
        if |parts| < 2 {
          continue;
        }
        var progID := TrimSuffix(parts[1], ";");
        assert ImportOf(lines[i]) == Some(progID);
        if progID in visited || progID == CREDITS {
          continue;
        }
        visited := visited + {progID};
        var impSrc := nc.GetProgram(progID);
        if impSrc.None? {
          return Missing(progID);
        }
        var o := CollectImportsMap(impSrc.value);
        if o.Missing? {
          return o;
        }
        imports := imports[progID := impSrc.value];
      }
      r := Done;
    }
  }

  // ---- the whole request

  /** What the caller asks for; None is the nil slice. */
  datatype Options = Options(privateKey: string, program: string, fn: string, inputs: Option<seq<string>>)

  /** What snarkVM's authorize is called with. */
  datatype Call = Call(privateKey: string, program: string, fn: string, inputs: seq<string>)

  /** How a request to authorize ends. `Ready` holds the programs loaded when snarkVM's authorize is called. */
  datatype Built =
    | NoPrivateKey
    | CannotFetch(id: string)
    | CannotResolve(id: string)
    | BridgeError
    | Ready(programs: set<string>, call: Call)

  /** The five texts handed to the Rust side. */
  datatype Texts = Texts(privateKey: string, source: string, fn: string, inputs: string, imports: string)

  function Handover(opts: Options, source: string, imports: seq<string>): Texts {
    Texts(opts.privateKey, source, opts.fn, Json.MarshalList(opts.inputs), Json.MarshalList(Some(imports)))
  }

  /** What the Rust side makes of the texts. */
  function Bridge(parse: string -> Option<Program>, t: Texts): Built {
    BridgeLists(parse, Json.CString(t.privateKey), Json.CString(t.source), Json.CString(t.fn),
                Json.ParseList(Json.CString(t.inputs)), Json.ParseList(Json.CString(t.imports)))
  }

  /** The same once the two lists are parsed. */
  function BridgeLists(parse: string -> Option<Program>, privateKey: string, source: string, fn: string,
                       inputs: Option<seq<string>>, imports: Option<seq<string>>): Built
  {
    if inputs.None? || imports.None? then BridgeError
    else match AddAll(parse, imports.value, {CREDITS})
      case Loaded(programs) =>
        var target := parse(source);
        if target.None? || FirstMissing(target.value.imports, programs).Some? then BridgeError
        else Ready(programs + {target.value.id}, Call(privateKey, target.value.id, fn, inputs.value))
      case _ => BridgeError
  }

  function Build(net: Sources, start: Session, parse: string -> Option<Program>, opts: Options): (Built, Session) {
    if opts.privateKey == "" then (NoPrivateKey, start)
    else
      var (source, s0) := Fetch(net, start, opts.program);
      if source.None? then (CannotFetch(opts.program), s0)
      else
        var (o, s) := Collect(net, ImportIds(source.value), s0);
        if o.Missing? then (CannotResolve(o.id), s) else (Bridge(parse, Handover(opts, source.value, s.ordered)), s)
  }

  /** The Rust function, from parsed lists to the moment it asks snarkVM for the authorization. */
  method CallBridge(parse: string -> Option<Program>, t: Texts) returns (r: Built)
    ensures r == Bridge(parse, t)
  {
    var inputs := Json.ParseList(Json.CString(t.inputs));
    var imports := Json.ParseList(Json.CString(t.imports));
    if inputs.None? || imports.None? {
      return BridgeError;
    }
    var process := new Process.Load();
    var loading := process.AddPrograms(parse, imports.value);
    if !loading.Loaded? {
      return BridgeError;
    }
    var program := parse(Json.CString(t.source));
    if program.None? {
      return BridgeError;
    }
    var missing := process.AddProgram(program.value);
    if missing.Some? {
      return BridgeError;
    }
    r := Ready(process.programs,
               Call(Json.CString(t.privateKey), program.value.id, Json.CString(t.fn), inputs.value));
  }

  method BuildAuthorizationWithCache(nc: NetworkClient, cache: ProgramCache?, parse: string -> Option<Program>,
                                     opts: Options)
    returns (r: Built)
    modifies nc`requests, cache
    ensures
      var start := Start(if cache == null then None else Some(old(cache.entries)));
      var (built, s) := Build(nc.programs, start.(requests := old(nc.requests)), parse, opts);
      && r == built
      && nc.requests == s.requests
      && (cache != null ==> s.cache == Some(cache.entries))
  {
    if opts.privateKey == "" {
      return NoPrivateKey;
    }
    var walk := new ListWalk(nc, cache);
    var source := walk.FetchProgramCached(opts.program);
    if source.None? {
      return CannotFetch(opts.program);
    }
    var o := walk.CollectImports(source.value);
    if o.Missing? {
      return CannotResolve(o.id);
    }
    r := CallBridge(parse, Handover(opts, source.value, walk.ordered));
  }

  // ---- how it ends

  /** Every transitive import of a program can be fetched. */
  ghost predicate ImportsFetchable(g: Graph, name: string)
    requires name in g
  {
    forall x :: Reachable(g, g[name], x) ==> x in g
  }

  /** The programs that resolution collects for `name`, in order. */
  function Collected(view: Sources, name: string): seq<string>
    requires name in view
  {
    TourOf(view, view[name]).order
  }

  /** The sources that the Rust side adds to the fresh process: the collected imports, then the target. */
  function Handed(view: Sources, name: string): seq<string>
    requires name in view
  {
    SourcesOf(view, Collected(view, name)) + [Json.CString(view[name])]
  }

  /** The Rust side works on the very lists that the Go side holds, and on the other texts up to their first NUL. */
  lemma TextsCross(parse: string -> Option<Program>, opts: Options, source: string, imports: seq<string>)
    ensures Bridge(parse, Handover(opts, source, imports))
         == BridgeLists(parse, Json.CString(opts.privateKey), Json.CString(source), Json.CString(opts.fn),
                        opts.inputs, Some(imports))
  {
    Json.ListCrosses(opts.inputs);
    Json.ListCrosses(Some(imports));
  }

  lemma {:induction false} AddsLast(parse: string -> Option<Program>, sources: seq<string>, last: string,
                                    loaded: set<string>)
    ensures AddAll(parse, sources + [last], loaded)
         == match AddAll(parse, sources, loaded)
            case Loaded(programs) => AddAll(parse, [last], programs)
            case failed => failed
  {
    if sources == [] {
      assert sources + [last] == [last];
    } else {
      assert (sources + [last])[1..] == sources[1..] + [last];
      if parse(sources[0]).Some? {
        AddsLast(parse, sources[1..], last, loaded + {parse(sources[0]).value.id});
      }
    }
  }

  /**
   The Rust side accepts exactly a non-nil input list with programs that parse and come after their imports; snarkVM is
   then called with the key, the function name and the inputs that the caller gave.
   */
  lemma BridgeLoads(parse: string -> Option<Program>, opts: Options, source: string, imports: seq<string>)
    ensures
      var built := Bridge(parse, Handover(opts, source, imports));
      var target := Json.CString(source);
      var sources := imports + [target];
      if opts.inputs.Some? && InTime(parse, {"credits.aleo"}, sources) then
        && parse(target).Some?
        && built == Ready({"credits.aleo"} + Ids(parse, sources),
                          Call(Json.CString(opts.privateKey), parse(target).value.id, Json.CString(opts.fn),
                               opts.inputs.value))
      else built == BridgeError
  {
    var target := Json.CString(source);
    TextsCross(parse, opts, source, imports);
    AddsAllIff(parse, imports + [target], {CREDITS});
    AddsLast(parse, imports, target, {CREDITS});
    AddsOne(parse, target, AddAll(parse, imports, {CREDITS}));
  }

  lemma AddsOne(parse: string -> Option<Program>, last: string, before: Loading)
    ensures before.Loaded? ==>
      AddAll(parse, [last], before.programs)
      == match parse(last)
         case None => Unparsed(last)
         case Some(p) =>
           var missing := FirstMissing(p.imports, before.programs);
           if missing.Some? then MissingImport(p.id, missing.value) else Loaded(before.programs + {p.id})
  {
    assert [last][1..] == [];
  }

  /** A request once its program is fetched. */
  lemma FetchedEnds(net: Sources, name: string, s0: Session)
    requires name in View(net, s0) && s0.visited == {} && s0.ids == [] && s0.ordered == []
    ensures
      var view := View(net, s0);
      var g := GraphOf(view);
      var (o, s) := Collect(net, g[name], s0);
      && (o.Done? <==> ImportsFetchable(g, name))
      && (o.Missing? ==> Reachable(g, g[name], o.id) && o.id !in view)
      && (o.Done? ==> s.ordered == SourcesOf(view, Collected(view, name)))
  {
    var view := View(net, s0);
    var g := GraphOf(view);
    CollectRefinesVisit(net, g[name], s0);
    CollectsExactly(g, g[name]);
    var order := Collected(view, name);
    assert [] + SourcesOf(view, order) == SourcesOf(view, order);
  }

  /** The call that a request makes of snarkVM. */
  function CallOf(parse: string -> Option<Program>, view: Sources, opts: Options): Option<Call>
    requires opts.program in view
  {
    match (parse(Json.CString(view[opts.program])), opts.inputs)
    case (Some(p), Some(inputs)) => Some(Call(Json.CString(opts.privateKey), p.id, Json.CString(opts.fn), inputs))
    case _ => None
  }

  /**
   How a request ends, exactly, on every network, with every cache and whatever snarkVM reads: the five conditions
   exclude one another and leave nothing over. It reaches snarkVM when there is a private key, the input list is not
   the nil slice, the program and all its transitive imports can be fetched, and every source handed over parses to a
   program whose imports were handed over before it; the process then holds those programs and credits.aleo, and
   snarkVM is called with the caller's key, function name and inputs.
   */
  lemma BuildEndsExactly(net: Sources, cache: Option<Sources>, requests: seq<string>,
                         parse: string -> Option<Program>, opts: Options)
    ensures
      var view := View(net, Start(cache));
      var g := GraphOf(view);
      var name := opts.program;
      match Build(net, Start(cache).(requests := requests), parse, opts).0
      case NoPrivateKey => opts.privateKey == ""
      case CannotFetch(id) => opts.privateKey != "" && id == name && name !in view
      case CannotResolve(id) => opts.privateKey != "" && name in view && Reachable(g, g[name], id) && id !in view
      case BridgeError =>
        && opts.privateKey != "" && name in view && ImportsFetchable(g, name)
        && (opts.inputs.None? || !InTime(parse, {"credits.aleo"}, Handed(view, name)))
      case Ready(programs, call) =>
        && opts.privateKey != "" && name in view && ImportsFetchable(g, name)
        && opts.inputs.Some? && InTime(parse, {"credits.aleo"}, Handed(view, name))
        && programs == {"credits.aleo"} + Ids(parse, Handed(view, name))
        && CallOf(parse, view, opts) == Some(call)
  {
    var start := Start(cache).(requests := requests);
    var view, name := View(net, Start(cache)), opts.program;
    assert View(net, start) == view;
    if opts.privateKey != "" && name in view {
      FetchReadsView(net, start, name);
      FetchedEnds(net, name, Fetch(net, start, name).1);
      BridgeLoads(parse, opts, view[name], SourcesOf(view, Collected(view, name)));
    }
  }

  // ---- in terms of the imports that snarkVM reads

  /** snarkVM reads the target and the collected programs as the programs they were fetched for, with imports `deps`. */
  ghost predicate Reads(parse: string -> Option<Program>, deps: Graph, view: Sources, name: string)
    requires name in view
  {
    && name in deps && parse(Json.CString(view[name])) == Some(Program(name, deps[name]))
    && forall x :: x in Collected(view, name) ==>
         x in view && x in deps && parse(view[x]) == Some(Program(x, deps[x]))
  }

  lemma HandedLoads(parse: string -> Option<Program>, deps: Graph, view: Sources, name: string)
    requires name in view && Reads(parse, deps, view, name)
    ensures InTime(parse, {CREDITS}, Handed(view, name)) <==> Topological(deps, Collected(view, name) + [name])
    ensures Ids(parse, Handed(view, name)) == Elements(Collected(view, name)) + {name}
  {
    var order := Collected(view, name);
    var all := order + [name];
    forall i | 0 <= i < |all|
      ensures all[i] in deps && parse(Handed(view, name)[i]) == Some(Program(all[i], deps[all[i]]))
    {
      assert i < |order| ==> all[i] in order;
    }
    ReadLoadsIff(parse, deps, {CREDITS}, all, Handed(view, name));
    FreshProcessLoadsIff(deps, all);
    ElementsConcat(order, [name]);
  }

  lemma CollectedIs(view: Sources, name: string)
    requires name in view && ImportsFetchable(GraphOf(view), name)
    ensures forall x :: x in Collected(view, name) <==> Reachable(GraphOf(view), GraphOf(view)[name], x)
  {
    CollectsExactly(GraphOf(view), ImportIds(view[name]));
  }

  lemma ReadyIff(net: Sources, cache: Option<Sources>, parse: string -> Option<Program>, opts: Options)
    ensures
      var view := View(net, Start(cache));
      var name := opts.program;
      var built := Build(net, Start(cache), parse, opts).0;
      && (built.Ready? <==> opts.privateKey != "" && name in view && ImportsFetchable(GraphOf(view), name)
                            && opts.inputs.Some? && InTime(parse, {"credits.aleo"}, Handed(view, name)))
      && (built.Ready? ==> built.programs == {"credits.aleo"} + Ids(parse, Handed(view, name))
                           && CallOf(parse, view, opts) == Some(built.call))
  {
    assert Start(cache).(requests := []) == Start(cache);
    BuildEndsExactly(net, cache, [], parse, opts);
  }

  /**
   A request reaches snarkVM exactly when, besides, the collected programs followed by the target are in topological
   order of the imports that snarkVM reads, whatever the SDK's line scanner reads.
   */
  lemma ReadyIffTopological(net: Sources, cache: Option<Sources>, parse: string -> Option<Program>, deps: Graph,
                            opts: Options)
    requires var view := View(net, Start(cache));
      opts.program in view ==> Reads(parse, deps, view, opts.program)
    ensures
      var view := View(net, Start(cache));
      var g := GraphOf(view);
      var name := opts.program;
      var built := Build(net, Start(cache), parse, opts).0;
      && (built.Ready? <==> opts.privateKey != "" && name in view && ImportsFetchable(g, name) && opts.inputs.Some?
                            && Topological(deps, Collected(view, name) + [name]))
      && (built.Ready? ==>
            && (forall x :: x in built.programs <==> x == "credits.aleo" || x == name || Reachable(g, g[name], x))
            && built.call == Call(Json.CString(opts.privateKey), name, Json.CString(opts.fn), opts.inputs.value))
  {
    hide Build, InTime, Topological;
    var view, name := View(net, Start(cache)), opts.program;
    ReadyIff(net, cache, parse, opts);
    if name in view {
      HandedLoads(parse, deps, view, name);
      if ImportsFetchable(GraphOf(view), name) {
        CollectedIs(view, name);
      }
    }
  }

  /** The target may follow its transitive imports, in whatever order they are. */
  lemma TargetLast(g: Graph, order: seq<string>, name: string)
    requires name in g && forall x :: Reachable(g, g[name], x) ==> x in order
    ensures Topological(g, order + [name]) <==> Topological(g, order)
  {
    var all := order + [name];
    forall i | 0 <= i < |order| ensures all[i] == order[i] && all[..i] == order[..i] {
    }
    assert all[..|order|] == order;
    forall v | Edge(g, name, v) ensures v in order {
      ReachableDirect(g, g[name], v);
    }
    if Topological(g, order) {
      forall i, v | 0 <= i < |all| && Edge(g, all[i], v) ensures v in all[..i] {
        if i < |order| {
          assert all[i] == order[i];
        }
      }
    }
    if Topological(g, all) {
      forall i, v | 0 <= i < |order| && Edge(g, order[i], v) ensures v in order[..i] {
        assert all[i] == order[i];
      }
    }
  }

  /** Where snarkVM reads the imports that the scanner reads, exactly when no cycle of imports is reachable. */
  lemma ReadyIffAcyclic(net: Sources, cache: Option<Sources>, parse: string -> Option<Program>, opts: Options)
    requires var view := View(net, Start(cache));
      opts.program in view ==> Reads(parse, GraphOf(view), view, opts.program)
    ensures
      var view := View(net, Start(cache));
      var g := GraphOf(view);
      var name := opts.program;
      var built := Build(net, Start(cache), parse, opts).0;
      built.Ready? <==> opts.privateKey != "" && name in view && ImportsFetchable(g, name) && opts.inputs.Some?
                        && !CycleFrom(g, g[name])
  {
    var view, name := View(net, Start(cache)), opts.program;
    var g := GraphOf(view);
    ReadyIffTopological(net, cache, parse, g, opts);
    if name in view && ImportsFetchable(g, name) {
      CollectsExactly(g, g[name]);
      TargetLast(g, Collected(view, name), name);
      TopologicalIffAcyclic(g, g[name]);
    }
  }

  /** An import that snarkVM reads in the target or a collected program, and that was not collected, is fatal. */
  lemma MissedImportFails(net: Sources, cache: Option<Sources>, parse: string -> Option<Program>, deps: Graph,
                          opts: Options, u: string, v: string)
    requires var view := View(net, Start(cache));
      var name := opts.program;
      && name in view && Reads(parse, deps, view, name)
      && (u == name || u in Collected(view, name))
      && v in deps[u] && v != "credits.aleo" && v !in Collected(view, name)
    ensures !Build(net, Start(cache), parse, opts).0.Ready?
  {
    var name := opts.program;
    var order := Collected(View(net, Start(cache)), name);
    var all := order + [name];
    assert !Topological(deps, all) by {
      var i :| 0 <= i < |all| && all[i] == u;
      assert Edge(deps, all[i], v);
      assert all[..i] == order[..i];
    }
    ReadyIffTopological(net, cache, parse, deps, opts);
  }

  // ---- two imports on a line

  lemma OneImportTour(g: Graph, id: string)
    requires id in g && g[id] == [] && id != CREDITS
    ensures Visit(g, [id], {}) == Tour(Done, [id], [id])
  {
    assert [id][1..] == [];
  }

  /** What the scanner reads of a source whose only imports are two statements on its first line. */
  lemma FirstOfTwoRead(a: string, b: string, body: string)
    requires NoSpaces(a) && NoSpaces(b) && ImportIds(body) == []
    ensures ImportIds(Statement(a) + " " + Statement(b) + "\n" + body) == [a]
  {
    var tail := " " + Statement(b);
    StatementIsLine(a);
    StatementIsLine(b);
    StatementRead(a, tail);
    assert Statement(a) + tail == Statement(a) + " " + Statement(b);
    LineByLine(Statement(a) + tail, body);
  }

  /** What the resolver makes of a source that imports two programs on one line. */
  lemma FirstOfTwoCollected(net: Sources, name: string, a: string)
    requires a in net && name in net && a != CREDITS && ImportIds(net[name]) == [a] && ImportIds(net[a]) == []
    ensures var g := GraphOf(net);
      ImportsFetchable(g, name) && !CycleFrom(g, g[name]) && Collected(net, name) == [a]
  {
    var g := GraphOf(net);
    OneImportTour(g, a);
    CollectsExactly(g, [a]);
    assert Topological(g, [a]);
    TopologicalIffAcyclic(g, [a]);
  }

  /**
   A program whose source begins with the line `import a; import b;`: everything can be fetched, no import is cyclic,
   and yet the Rust side meets a missing import.
   */
  lemma SecondStatementIsFatal(net: Sources, parse: string -> Option<Program>, deps: Graph, opts: Options,
                               a: string, b: string, body: string)
    requires opts.privateKey != "" && opts.inputs.Some?
    requires a in net && opts.program in net && a != "credits.aleo" && b != "credits.aleo" && a != b
    requires NoSpaces(a) && NoSpaces(b) && net[opts.program] == Statement(a) + " " + Statement(b) + "\n" + body
    requires ImportIds(body) == [] && ImportIds(net[a]) == []
    requires Reads(parse, deps, net, opts.program) && deps[opts.program] == [a, b]
    ensures ImportsFetchable(GraphOf(net), opts.program)
    ensures !CycleFrom(GraphOf(net), GraphOf(net)[opts.program])
    ensures Build(net, Start(None), parse, opts).0 == BridgeError
  {
    assert View(net, Start(None)) == net;
    FirstOfTwoRead(a, b, body);
    FirstOfTwoCollected(net, opts.program, a);
    assert b in deps[opts.program];
    MissedImportFails(net, None, parse, deps, opts, opts.program, b);
    assert Start(None).(requests := []) == Start(None);
    BuildEndsExactly(net, None, [], parse, opts);
  }
}
