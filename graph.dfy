/**
 * The build graph as far as dependency discovery sees it: entry-point nodes
 * with a mutable set of depends-on edges, other nodes it passes through, the
 * selection of the entry points still to analyse, and the lookup of an entry
 * point by module id.
 */
module Graph {
  import opened Wrappers
  import opened Seqs
  import opened Sources

  /** Lifecycle marker of a node, set by the scheduler; this pass only reads it. */
  datatype State = Pending | Processing | Done | Error

  /** An entry point's compiler configuration; opaque to this pass. */
  datatype TsConfig = TsConfig(rootNames: seq<string>, options: seq<(string, string)>)

  /**
   * An entry-point node; `deps` holds the targets of its depends-on edges,
   * and the ghost `calls` logs the target of every `DependsOn` call in order.
   */
  class EntryPoint {
    const moduleId: string
    const tsConfig: TsConfig
    var state: State
    var deps: set<EntryPoint>
    ghost var calls: seq<EntryPoint>

    constructor (moduleId: string, tsConfig: TsConfig, state: State)
      ensures this.moduleId == moduleId && this.tsConfig == tsConfig
      ensures this.state == state && deps == {} && calls == []
    {
      this.moduleId := moduleId;
      this.tsConfig := tsConfig;
      this.state := state;
      deps := {};
      calls := [];
    }

    /** Adds the edge `this -> dep`; adding it twice leaves one edge. */
    method DependsOn(dep: EntryPoint)
      modifies this`deps, this`calls
      ensures deps == old(deps) + {dep}
      ensures calls == old(calls) + [dep]
    {
      deps := deps + {dep};
      calls := calls + [dep];
    }
  }

  /** A graph node: an entry point, or any other node, which this pass ignores. */
  datatype GraphNode = EntryPointNode(entryPoint: EntryPoint) | OtherNode(url: string)

  /** The entry points held by the nodes of `graph`. */
  function EntryPointsOf(graph: seq<GraphNode>): set<EntryPoint> {
    set n | n in graph && n.EntryPointNode? :: n.entryPoint
  }

  /** The entry points that are selected for analysis: those not yet done. */
  predicate Selected(n: GraphNode)
    reads if n.EntryPointNode? then {n.entryPoint} else {}
  {
    n.EntryPointNode? && n.entryPoint.state != Done
  }

  /** The entry-point nodes of `graph` that are not done, in graph order. */
  function ToAnalyse(graph: seq<GraphNode>): (eps: seq<EntryPoint>)
    reads EntryPointsOf(graph)
    ensures forall e :: e in eps ==> EntryPointNode(e) in graph && e in EntryPointsOf(graph)
  {
    if |graph| == 0 then []
    else
      var n := graph[|graph| - 1];
      assert EntryPointsOf(graph[..|graph| - 1]) <= EntryPointsOf(graph);
      ToAnalyse(graph[..|graph| - 1]) + (if Selected(n) then [n.entryPoint] else [])
  }

  /** An entry point is analysed exactly when some entry-point node of the graph holds it and it is not done. */
  lemma {:induction false} ToAnalyseIff(graph: seq<GraphNode>, e: EntryPoint)
    ensures e in ToAnalyse(graph) <==> EntryPointNode(e) in graph && e.state != Done
  {
    if |graph| > 0 {
      var init := graph[..|graph| - 1];
      ToAnalyseIff(init, e);
      assert graph == init + [graph[|graph| - 1]];
    }
  }

  /** Selection keeps graph order: it distributes over concatenation. */
  lemma {:induction false} ToAnalyseAppend(a: seq<GraphNode>, b: seq<GraphNode>)
    ensures ToAnalyse(a + b) == ToAnalyse(a) + ToAnalyse(b)
  {
    if |b| > 0 {
      var b' := b[..|b| - 1];
      assert (a + b)[..|a + b| - 1] == a + b';
      ToAnalyseAppend(a, b');
    } else {
      assert a + b == a;
    }
  }

  /** `entryPoints.find(ep => ep.moduleId === name)`: the first entry point with that module id. */
  function Find(entryPoints: seq<EntryPoint>, name: string): (r: Option<EntryPoint>)
    ensures r.None? <==> forall e :: e in entryPoints ==> e.moduleId != name
    ensures r.Some? ==> exists k :: 0 <= k < |entryPoints| && entryPoints[k] == r.value &&
                                    r.value.moduleId == name &&
                                    forall j :: 0 <= j < k ==> entryPoints[j].moduleId != name
  {
    if |entryPoints| == 0 then None
    else if entryPoints[0].moduleId == name then
      Some(entryPoints[0])
    else
      var r := Find(entryPoints[1..], name);
      assert forall e :: e in entryPoints ==> e == entryPoints[0] || e in entryPoints[1..];
      if r.Some? then
        var k :| 0 <= k < |entryPoints[1..]| && entryPoints[1..][k] == r.value &&
                 forall j :: 0 <= j < k ==> entryPoints[1..][j].moduleId != name;
        assert entryPoints[k + 1] == r.value;
        r
      else r
  }

  /** The entry points that the names in `names` resolve to. */
  function Links(names: set<string>, entryPoints: seq<EntryPoint>): (links: set<EntryPoint>)
    ensures forall d :: d in links ==> d in entryPoints && d.moduleId in names
  {
    set n | n in names && Find(entryPoints, n).Some? :: Find(entryPoints, n).value
  }

  /** The entry point `name` resolves to, as a list of at most one. */
  function Resolved(entryPoints: seq<EntryPoint>, name: string): seq<EntryPoint> {
    if Find(entryPoints, name).Some? then [Find(entryPoints, name).value] else []
  }

  /**
   * The entry points the names resolve to, one per resolved name, in the
   * order of the names: the calls `dependsOn` receives when it is called for
   * every name that `find` resolves.
   */
  function Resolve(names: seq<string>, entryPoints: seq<EntryPoint>): (targets: seq<EntryPoint>)
    ensures |targets| <= |names|
    ensures forall d :: d in targets ==> d in entryPoints && d.moduleId in names
  {
    if |names| == 0 then []
    else Resolve(names[..|names| - 1], entryPoints) + Resolved(entryPoints, names[|names| - 1])
  }

  /** Resolving one more name of a list appends at most the entry point it resolves to. */
  lemma ResolveStep(names: seq<string>, i: nat, entryPoints: seq<EntryPoint>)
    requires i < |names|
    ensures Resolve(names[..i + 1], entryPoints) == Resolve(names[..i], entryPoints) + Resolved(entryPoints, names[i])
  {
    assert names[..i + 1][..i] == names[..i];
  }

  /** Distinct names resolve to distinct entry points, since each carries its name as module id. */
  lemma {:induction false} ResolveDistinct(names: seq<string>, entryPoints: seq<EntryPoint>)
    requires Distinct(names)
    ensures Distinct(Resolve(names, entryPoints))
  {
    if |names| > 0 {
      var init := names[..|names| - 1];
      var n := names[|names| - 1];
      assert Distinct(init);
      ResolveDistinct(init, entryPoints);
      assert n !in init;
    }
  }

  /** The resolved entry points, as a set, are the link targets of the names. */
  lemma {:induction false} ResolveLinks(names: seq<string>, entryPoints: seq<EntryPoint>)
    ensures Elems(Resolve(names, entryPoints)) == Links(Elems(names), entryPoints)
  {
    if |names| > 0 {
      var init := names[..|names| - 1];
      var n := names[|names| - 1];
      ResolveLinks(init, entryPoints);
      assert names == init + [n];
      assert Elems(names) == Elems(init) + {n};
      LinksAdd(Elems(init), n, entryPoints);
    }
  }

  /** A link target is the first entry point carrying one of the names as its module id. */
  lemma LinksIff(names: set<string>, entryPoints: seq<EntryPoint>, d: EntryPoint)
    ensures d in Links(names, entryPoints) <==>
            d in entryPoints && d.moduleId in names && Find(entryPoints, d.moduleId) == Some(d)
  {
    if d in entryPoints && d.moduleId in names && Find(entryPoints, d.moduleId) == Some(d) {
      assert Find(entryPoints, d.moduleId).value == d;
    }
  }

  /** With unique module ids, the link targets are exactly the entry points whose module id is named. */
  lemma LinksUniqueIds(names: set<string>, entryPoints: seq<EntryPoint>, d: EntryPoint)
    requires forall i, j :: 0 <= i < j < |entryPoints| ==> entryPoints[i].moduleId != entryPoints[j].moduleId
    ensures d in Links(names, entryPoints) <==> d in entryPoints && d.moduleId in names
  {
    LinksIff(names, entryPoints, d);
    if d in entryPoints && d.moduleId in names {
      var r := Find(entryPoints, d.moduleId);
      var k :| 0 <= k < |entryPoints| && entryPoints[k] == r.value && r.value.moduleId == d.moduleId;
      var m :| 0 <= m < |entryPoints| && entryPoints[m] == d;
      assert k == m;
    }
  }

  /** Adding one name adds at most the entry point it resolves to. */
  lemma LinksAdd(names: set<string>, n: string, entryPoints: seq<EntryPoint>)
    ensures Links(names + {n}, entryPoints) == Links(names, entryPoints) + Elems(Resolved(entryPoints, n))
  {
    assert Find(entryPoints, n).Some? ==> Elems(Resolved(entryPoints, n)) == {Find(entryPoints, n).value};
  }

  /** Names that resolve to nothing contribute no links. */
  lemma LinksUnresolved(names: set<string>, n: string, entryPoints: seq<EntryPoint>)
    requires Find(entryPoints, n).None?
    ensures Links(names, entryPoints) == Links(names - {n}, entryPoints)
  {
  }

  lemma LinksMonotone(a: set<string>, b: set<string>, entryPoints: seq<EntryPoint>)
    requires a <= b
    ensures Links(a, entryPoints) <= Links(b, entryPoints)
  {
  }
}
