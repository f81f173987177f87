/**
 * The dependency-discovery pass: for every entry point of the graph that is
 * not done, ask the compiler for its program, reject semantic diagnostics,
 * collect the non-relative module specifiers and link each one that names an
 * entry point, rejecting an import of the entry point's own module id.
 */
module Analysis {
  import opened Wrappers
  import opened Seqs
  import opened Sources
  import opened Graph

  /**
   * The compiler service, a black box: `createProgram` stands for building
   * the program of an entry point from its configuration with path mappings
   * to the sources of the listed entry points; `formatDiagnostics` renders
   * diagnostics as text.
   */
  datatype CompilerService = CompilerService(
    createProgram: (TsConfig, seq<EntryPoint>) -> Program,
    formatDiagnostics: seq<Diagnostic> -> string)

  /** The two errors the pass throws. */
  datatype AnalysisError =
    | SemanticAnalysisError(formatted: string)
    | CircularDependencyError(moduleName: string)
  {
    /** The message of the thrown error. */
    function Message(): string {
      match this
      case SemanticAnalysisError(formatted) => formatted
      case CircularDependencyError(moduleName) =>
        "Entry point " + moduleName + " has a circular dependency on itself."
    }
  }

  function ProgramOf(e: EntryPoint, entryPoints: seq<EntryPoint>, compiler: CompilerService): Program {
    compiler.createProgram(e.tsConfig, entryPoints)
  }

  /** The deduplicated specifiers of `e`'s program, as a set. */
  function NamesOf(e: EntryPoint, entryPoints: seq<EntryPoint>, compiler: CompilerService): set<string> {
    Elems(ModuleNames(ProgramOf(e, entryPoints, compiler).sourceFiles))
  }

  /** `e` imports its own module id, and that id resolves to an entry point. */
  predicate SelfImport(e: EntryPoint, entryPoints: seq<EntryPoint>, compiler: CompilerService) {
    e.moduleId in NamesOf(e, entryPoints, compiler) && Find(entryPoints, e.moduleId).Some?
  }

  /** How analysing `e` ends; it depends only on the compiler's answer, not on any edge. */
  function AnalysisResult(e: EntryPoint, entryPoints: seq<EntryPoint>, compiler: CompilerService): Outcome<AnalysisError> {
    var program := ProgramOf(e, entryPoints, compiler);
    if |program.semanticDiagnostics| > 0 then
      Fail(SemanticAnalysisError(compiler.formatDiagnostics(program.semanticDiagnostics)))
    else if SelfImport(e, entryPoints, compiler) then
      Fail(CircularDependencyError(e.moduleId))
    else
      Pass
  }

  /** The edges analysing `e` may add: none after semantic diagnostics, else the link targets of its other names. */
  function LinkTargets(e: EntryPoint, entryPoints: seq<EntryPoint>, compiler: CompilerService): set<EntryPoint> {
    if |ProgramOf(e, entryPoints, compiler).semanticDiagnostics| > 0 then {}
    else Links(NamesOf(e, entryPoints, compiler) - {e.moduleId}, entryPoints)
  }

  /**
   * The callback of the last loop of `analyseEntryPoint`, for one name: the
   * first entry point with that module id becomes a dependency, unless the
   * name is the entry point's own module id, which is an error and adds
   * nothing. A name that resolves to no entry point is ignored.
   */
  method LinkModule(entryPoint: EntryPoint, moduleName: string, entryPoints: seq<EntryPoint>)
    returns (r: Outcome<AnalysisError>)
    modifies entryPoint`deps, entryPoint`calls
    ensures var dep := Find(entryPoints, moduleName);
            && (r.Fail? <==> dep.Some? && moduleName == entryPoint.moduleId)
            && (r.Fail? ==> r == Fail(CircularDependencyError(moduleName)) &&
                            entryPoint.deps == old(entryPoint.deps) && entryPoint.calls == old(entryPoint.calls))
            && (r.Pass? ==> entryPoint.deps == old(entryPoint.deps) + Elems(Resolved(entryPoints, moduleName)) &&
                            entryPoint.calls == old(entryPoint.calls) + Resolved(entryPoints, moduleName))
  {
    var dep := Find(entryPoints, moduleName);
    if dep.Some? {
      if entryPoint.moduleId == moduleName {
        return Fail(CircularDependencyError(moduleName));
      }
      entryPoint.DependsOn(dep.value);
    }
    return Pass;
  }

  /**
   * The last loop of `analyseEntryPoint`: for each distinct name, the first
   * entry point with that module id becomes a dependency, except that the
   * entry point's own module id is an error. On success `DependsOn` has been
   * called once for every name that resolves, in order; on the error, once
   * for every resolving name before the own module id.
   */
  method LinkModules(entryPoint: EntryPoint, moduleStatements: seq<string>, entryPoints: seq<EntryPoint>)
    returns (r: Outcome<AnalysisError>)
    requires Distinct(moduleStatements)
    modifies entryPoint`deps, entryPoint`calls
    ensures var names := Elems(moduleStatements); var moduleId := entryPoint.moduleId;
            && (r.Pass? <==> !(moduleId in names && Find(entryPoints, moduleId).Some?))
            && (r.Fail? ==> r == Fail(CircularDependencyError(moduleId)))
            && (r.Pass? ==> entryPoint.deps == old(entryPoint.deps) + Links(names - {moduleId}, entryPoints))
            && (r.Fail? ==> old(entryPoint.deps) <= entryPoint.deps <=
                            old(entryPoint.deps) + Links(names - {moduleId}, entryPoints))
    ensures r.Pass? ==> entryPoint.calls == old(entryPoint.calls) + Resolve(moduleStatements, entryPoints)
    ensures r.Fail? ==> exists p :: 0 <= p < |moduleStatements| && moduleStatements[p] == entryPoint.moduleId &&
                                    entryPoint.calls == old(entryPoint.calls) + Resolve(moduleStatements[..p], entryPoints)
    ensures old(entryPoint.calls) <= entryPoint.calls
    ensures entryPoint.deps == old(entryPoint.deps) + Elems(entryPoint.calls[|old(entryPoint.calls)|..])
  {
    var moduleId := entryPoint.moduleId;
    ghost var names := Elems(moduleStatements);
    for i := 0 to |moduleStatements|
      invariant entryPoint.deps == old(entryPoint.deps) + Links(Elems(moduleStatements[..i]), entryPoints)
      invariant entryPoint.calls == old(entryPoint.calls) + Resolve(moduleStatements[..i], entryPoints)
      invariant forall j :: 0 <= j < i ==> !(moduleStatements[j] == moduleId && Find(entryPoints, moduleId).Some?)
    {
      ResolveStep(moduleStatements, i, entryPoints);
      ElemsStep(moduleStatements, i);
      LinksAdd(Elems(moduleStatements[..i]), moduleStatements[i], entryPoints);
      r := LinkModule(entryPoint, moduleStatements[i], entryPoints);
      if r.Fail? {
        LinksMonotone(Elems(moduleStatements[..i]), names - {moduleId}, entryPoints);
        assert entryPoint.deps == old(entryPoint.deps) + Elems(entryPoint.calls[|old(entryPoint.calls)|..]) by {
          ResolveLinks(moduleStatements[..i], entryPoints);
          assert entryPoint.calls[|old(entryPoint.calls)|..] == Resolve(moduleStatements[..i], entryPoints);
        }
        return;
      }
    }
    assert moduleStatements[..|moduleStatements|] == moduleStatements;
    assert entryPoint.deps == old(entryPoint.deps) + Elems(entryPoint.calls[|old(entryPoint.calls)|..]) by {
      ResolveLinks(moduleStatements, entryPoints);
      assert entryPoint.calls[|old(entryPoint.calls)|..] == Resolve(moduleStatements, entryPoints);
    }
    if moduleId in names {
      LinksUnresolved(names, moduleId, entryPoints);
    } else {
      assert names - {moduleId} == names;
    }
    return Pass;
  }

  /**
   * `analyseEntryPoint`: rejects semantic diagnostics, collects and
   * deduplicates the specifiers, and links them. It ends as
   * `AnalysisResult` says, and on success adds exactly `LinkTargets`. The
   * ghost `names` is the deduplicated list of collected names; the calls to
   * `DependsOn` are the resolved entry points of all of it on success, and
   * of a prefix free of the own module id on failure.
   */
  method AnalyseEntryPoint(entryPoint: EntryPoint, entryPoints: seq<EntryPoint>, compiler: CompilerService)
    returns (r: Outcome<AnalysisError>, ghost names: seq<string>)
    modifies entryPoint`deps, entryPoint`calls
    ensures r == AnalysisResult(entryPoint, entryPoints, compiler)
    ensures r.Pass? ==> entryPoint.deps == old(entryPoint.deps) + LinkTargets(entryPoint, entryPoints, compiler)
    ensures r.Fail? ==> old(entryPoint.deps) <= entryPoint.deps <=
                        old(entryPoint.deps) + LinkTargets(entryPoint, entryPoints, compiler)
    ensures Distinct(names)
    ensures |ProgramOf(entryPoint, entryPoints, compiler).semanticDiagnostics| > 0 ==> names == []
    ensures |ProgramOf(entryPoint, entryPoints, compiler).semanticDiagnostics| == 0 ==>
            Elems(names) == NamesOf(entryPoint, entryPoints, compiler)
    ensures r.Pass? ==> entryPoint.calls == old(entryPoint.calls) + Resolve(names, entryPoints)
    ensures r.Pass? ==> CalledOnceEach(old(entryPoint.calls), entryPoint.calls, LinkTargets(entryPoint, entryPoints, compiler))
    ensures r.Fail? ==> exists p :: 0 <= p <= |names| &&
                                    (forall j :: 0 <= j < p ==> names[j] != entryPoint.moduleId) &&
                                    entryPoint.calls == old(entryPoint.calls) + Resolve(names[..p], entryPoints)
    ensures r.Fail? && r.error.CircularDependencyError? ==>
            exists p :: 0 <= p < |names| && names[p] == entryPoint.moduleId &&
                        entryPoint.calls == old(entryPoint.calls) + Resolve(names[..p], entryPoints)
    ensures old(entryPoint.calls) <= entryPoint.calls
    ensures entryPoint.deps == old(entryPoint.deps) + Elems(entryPoint.calls[|old(entryPoint.calls)|..])
  {
    var program := compiler.createProgram(entryPoint.tsConfig, entryPoints);
    var diagnostics := program.semanticDiagnostics;
    if |diagnostics| > 0 {
      names := [];
      assert names[..0] == names;
      assert entryPoint.calls[|old(entryPoint.calls)|..] == [];
      return Fail(SemanticAnalysisError(compiler.formatDiagnostics(diagnostics))), names;
    }
    var moduleStatements := CollectModuleNames(program.sourceFiles);
    assert Elems(moduleStatements) == NamesOf(entryPoint, entryPoints, compiler);
    moduleStatements := Unique(moduleStatements);
    assert Elems(moduleStatements) == NamesOf(entryPoint, entryPoints, compiler);
    names := moduleStatements;
    r := LinkModules(entryPoint, moduleStatements, entryPoints);
    if r.Pass? {
      ResolveDistinct(names, entryPoints);
      ResolveLinks(names, entryPoints);
      assert entryPoint.calls[|old(entryPoint.calls)|..] == Resolve(names, entryPoints);
      if entryPoint.moduleId in Elems(names) {
        LinksUnresolved(Elems(names), entryPoint.moduleId, entryPoints);
      } else {
        assert Elems(names) - {entryPoint.moduleId} == Elems(names);
      }
    }
  }

  /**
   * The index of the first entry point of `todo` whose analysis fails, or
   * `|todo|` when none does.
   */
  function FirstFailure(todo: seq<EntryPoint>, entryPoints: seq<EntryPoint>, compiler: CompilerService): (k: nat)
    ensures k <= |todo|
    ensures forall j :: 0 <= j < k ==> AnalysisResult(todo[j], entryPoints, compiler).Pass?
    ensures k < |todo| ==> AnalysisResult(todo[k], entryPoints, compiler).Fail?
  {
    if |todo| == 0 then 0
    else if AnalysisResult(todo[0], entryPoints, compiler).Fail? then 0
    else 1 + FirstFailure(todo[1..], entryPoints, compiler)
  }

  /**
   * The edges after analysing `entryPoints` in order up to a failure at
   * index `k` (or to the end, when `k == |entryPoints|`): the entry points
   * before `k` have all their link targets added, the one at `k` some of
   * them, and the ones after it none.
   */
  twostate predicate AnalysedUpTo(entryPoints: seq<EntryPoint>, compiler: CompilerService, k: nat)
    requires k <= |entryPoints|
    reads Elems(entryPoints)
  {
    && (forall e :: e in entryPoints[..k] ==> e.deps == old(e.deps) + LinkTargets(e, entryPoints, compiler))
    && (k < |entryPoints| ==>
          var e := entryPoints[k]; old(e.deps) <= e.deps <= old(e.deps) + LinkTargets(e, entryPoints, compiler))
    && (forall e :: e in entryPoints[k..] && e !in entryPoints[..k + 1] ==>
          e.deps == old(e.deps) && e.calls == old(e.calls))
    && (Distinct(entryPoints) ==>
          forall e :: e in entryPoints[..k] ==> CalledOnceEach(old(e.calls), e.calls, LinkTargets(e, entryPoints, compiler)))
  }

  /**
   * The call log `after` is `before` extended by one `DependsOn` call for
   * each of the `targets`, each exactly once, in some order.
   */
  predicate CalledOnceEach(before: seq<EntryPoint>, after: seq<EntryPoint>, targets: set<EntryPoint>) {
    && |before| <= |after| && after[..|before|] == before
    && Distinct(after[|before|..]) && Elems(after[|before|..]) == targets
  }

  /**
   * The loop of `analyseSourcesTransform`: analyses the entry points in
   * order and stops at the first error.
   */
  method AnalyseAll(entryPoints: seq<EntryPoint>, compiler: CompilerService) returns (r: Outcome<AnalysisError>)
    modifies Elems(entryPoints)`deps, Elems(entryPoints)`calls
    ensures var k := FirstFailure(entryPoints, entryPoints, compiler);
            && (k == |entryPoints| ==> r == Pass)
            && (k < |entryPoints| ==> r == AnalysisResult(entryPoints[k], entryPoints, compiler))
            && AnalysedUpTo(entryPoints, compiler, k)
  {
    ghost var k := FirstFailure(entryPoints, entryPoints, compiler);
    ghost var seen: set<EntryPoint> := {};
    for i := 0 to |entryPoints|
      invariant i <= k
      invariant seen == Elems(entryPoints[..i])
      invariant forall e :: e in seen ==> e.deps == old(e.deps) + LinkTargets(e, entryPoints, compiler)
      invariant forall e :: e in Elems(entryPoints) - seen ==> e.deps == old(e.deps) && e.calls == old(e.calls)
      invariant Distinct(entryPoints) ==>
                forall e :: e in seen ==> CalledOnceEach(old(e.calls), e.calls, LinkTargets(e, entryPoints, compiler))
    {
      var entryPoint := entryPoints[i];
      ElemsStep(entryPoints, i);
      assert Distinct(entryPoints) ==> entryPoint !in seen;
      var res, names := AnalyseEntryPoint(entryPoint, entryPoints, compiler);
      if res.Fail? {
        assert i == k;
        return res;
      }
      assert i != k;
      seen := seen + {entryPoint};
    }
    assert entryPoints[..|entryPoints|] == entryPoints;
    return Pass;
  }

  /** The pass succeeds exactly when every selected entry point's analysis succeeds. */
  lemma {:induction false} NoFailureIff(todo: seq<EntryPoint>, entryPoints: seq<EntryPoint>, compiler: CompilerService)
    ensures FirstFailure(todo, entryPoints, compiler) == |todo| <==>
            forall e :: e in todo ==> AnalysisResult(e, entryPoints, compiler).Pass?
  {
    if |todo| > 0 {
      NoFailureIff(todo[1..], entryPoints, compiler);
      assert forall e :: e in todo <==> e == todo[0] || e in todo[1..];
    }
  }

  /**
   * `analyseSourcesTransform`: selects the entry points of the graph that
   * are not done, in graph order, analyses them and stops at the first
   * error, and returns the graph as it was given. Only the `deps` of
   * selected entry points can change.
   */
  method AnalyseSources(graph: seq<GraphNode>, compiler: CompilerService)
    returns (r: Result<seq<GraphNode>, AnalysisError>)
    modifies EntryPointsOf(graph)`deps, EntryPointsOf(graph)`calls
    ensures var eps := old(ToAnalyse(graph)); var k := FirstFailure(eps, eps, compiler);
            && (k == |eps| ==> r == Success(graph))
            && (k < |eps| ==> r == Failure(AnalysisResult(eps[k], eps, compiler).error))
            && AnalysedUpTo(eps, compiler, k)
    ensures forall e :: e in EntryPointsOf(graph) && e !in old(ToAnalyse(graph)) ==>
                          e.deps == old(e.deps) && e.calls == old(e.calls)
  {
    var entryPoints := ToAnalyse(graph);
    var outcome := AnalyseAll(entryPoints, compiler);
    if outcome.Fail? {
      return Failure(outcome.error);
    }
    return Success(graph);
  }
}
