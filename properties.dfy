/**
 * Properties of the dependency-discovery pass, stated over the
 * specification functions of `Analysis`, and three concrete scenarios.
 */
module Properties {
  import opened Wrappers
  import opened Seqs
  import opened Sources
  import opened Graph
  import opened Analysis

  /** The circular-dependency message names the module. */
  lemma CircularMessageNamesModule(moduleName: string)
    ensures Contains(CircularDependencyError(moduleName).Message(), moduleName)
  {
    var m := CircularDependencyError(moduleName).Message();
    assert m[12..12 + |moduleName|] == moduleName;
    assert OccursAt(m, moduleName, 12);
    ContainsIff(m, moduleName);
  }

  /** An entry point never gains an edge to itself. */
  lemma NoSelfEdge(e: EntryPoint, entryPoints: seq<EntryPoint>, compiler: CompilerService)
    ensures e !in LinkTargets(e, entryPoints, compiler)
  {
    if |ProgramOf(e, entryPoints, compiler).semanticDiagnostics| == 0 {
      LinksIff(NamesOf(e, entryPoints, compiler) - {e.moduleId}, entryPoints, e);
    }
  }

  /** Semantic diagnostics fail the analysis with their formatted text, and no edge is added. */
  lemma DiagnosticsFail(e: EntryPoint, entryPoints: seq<EntryPoint>, compiler: CompilerService)
    requires |ProgramOf(e, entryPoints, compiler).semanticDiagnostics| > 0
    ensures AnalysisResult(e, entryPoints, compiler) ==
            Fail(SemanticAnalysisError(compiler.formatDiagnostics(ProgramOf(e, entryPoints, compiler).semanticDiagnostics)))
    ensures LinkTargets(e, entryPoints, compiler) == {}
  {
  }

  /** Importing one's own module id fails with a circular-dependency error naming it. */
  lemma SelfImportFails(e: EntryPoint, entryPoints: seq<EntryPoint>, compiler: CompilerService)
    requires e in entryPoints
    requires |ProgramOf(e, entryPoints, compiler).semanticDiagnostics| == 0
    requires e.moduleId in ModuleNames(ProgramOf(e, entryPoints, compiler).sourceFiles)
    ensures AnalysisResult(e, entryPoints, compiler) == Fail(CircularDependencyError(e.moduleId))
    ensures Contains(AnalysisResult(e, entryPoints, compiler).error.Message(), e.moduleId)
  {
    assert Find(entryPoints, e.moduleId).Some?;
    CircularMessageNamesModule(e.moduleId);
  }

  /** For an entry point of the list, analysis succeeds exactly without diagnostics and without a self-import. */
  lemma PassIff(e: EntryPoint, entryPoints: seq<EntryPoint>, compiler: CompilerService)
    requires e in entryPoints
    ensures AnalysisResult(e, entryPoints, compiler).Pass? <==>
            |ProgramOf(e, entryPoints, compiler).semanticDiagnostics| == 0 &&
            e.moduleId !in ModuleNames(ProgramOf(e, entryPoints, compiler).sourceFiles)
  {
    assert Find(entryPoints, e.moduleId).Some?;
  }

  /**
   * An edge `e -> d` is added exactly for an entry point `d` of the list,
   * other than `e` by module id, that is the first one carrying a name `e`
   * collected.
   */
  lemma LinkTargetsIff(e: EntryPoint, entryPoints: seq<EntryPoint>, compiler: CompilerService, d: EntryPoint)
    ensures d in LinkTargets(e, entryPoints, compiler) <==>
            && |ProgramOf(e, entryPoints, compiler).semanticDiagnostics| == 0
            && d in entryPoints && d.moduleId != e.moduleId
            && d.moduleId in ModuleNames(ProgramOf(e, entryPoints, compiler).sourceFiles)
            && Find(entryPoints, d.moduleId) == Some(d)
  {
    if |ProgramOf(e, entryPoints, compiler).semanticDiagnostics| == 0 {
      LinksIff(NamesOf(e, entryPoints, compiler) - {e.moduleId}, entryPoints, d);
    }
  }

  /** Every edge comes from a non-relative import or export in a scanned file. */
  lemma EdgeHasImport(e: EntryPoint, entryPoints: seq<EntryPoint>, compiler: CompilerService, d: EntryPoint)
    requires d in LinkTargets(e, entryPoints, compiler)
    ensures var files := ProgramOf(e, entryPoints, compiler).sourceFiles;
            && !IsRelative(d.moduleId)
            && exists i :: 0 <= i < |files| && FileContributes(files[i], d.moduleId)
  {
    var files := ProgramOf(e, entryPoints, compiler).sourceFiles;
    LinkTargetsIff(e, entryPoints, compiler, d);
    ModuleNamesIff(files, d.moduleId);
    NoRelativeNames(files, d.moduleId);
  }

  /**
   * With unique module ids, an import of another entry point's module id in
   * a scanned file of `e` gives the edge `e -> d`; `deps` being a set, there
   * is one such edge however many files import it.
   */
  lemma ImportGivesEdge(e: EntryPoint, entryPoints: seq<EntryPoint>, compiler: CompilerService,
                        d: EntryPoint, i: nat, j: nat)
    requires forall x, y :: 0 <= x < y < |entryPoints| ==> entryPoints[x].moduleId != entryPoints[y].moduleId
    requires e in entryPoints && d in entryPoints && d != e
    requires |ProgramOf(e, entryPoints, compiler).semanticDiagnostics| == 0
    requires var files := ProgramOf(e, entryPoints, compiler).sourceFiles;
             i < |files| && !Excluded(files[i].fileName) &&
             j < |files[i].statements| && Contributes(files[i].statements[j], d.moduleId)
    ensures d in LinkTargets(e, entryPoints, compiler)
  {
    var files := ProgramOf(e, entryPoints, compiler).sourceFiles;
    assert FileContributes(files[i], d.moduleId);
    ModuleNamesIff(files, d.moduleId);
    var names := NamesOf(e, entryPoints, compiler) - {e.moduleId};
    var x :| 0 <= x < |entryPoints| && entryPoints[x] == e;
    var y :| 0 <= y < |entryPoints| && entryPoints[y] == d;
    assert d.moduleId != e.moduleId;
    LinksUniqueIds(names, entryPoints, d);
  }

  /** Names that match no entry point give no edge and no error. */
  lemma UnknownImportsIgnored(e: EntryPoint, entryPoints: seq<EntryPoint>, compiler: CompilerService)
    requires |ProgramOf(e, entryPoints, compiler).semanticDiagnostics| == 0
    requires forall d :: d in entryPoints ==> d.moduleId !in ModuleNames(ProgramOf(e, entryPoints, compiler).sourceFiles)
    ensures AnalysisResult(e, entryPoints, compiler) == Pass
    ensures LinkTargets(e, entryPoints, compiler) == {}
  {
    forall d | d in LinkTargets(e, entryPoints, compiler)
      ensures false
    {
      LinkTargetsIff(e, entryPoints, compiler, d);
    }
  }

  // ----- Scenarios -----

  /** An `import ... from '<moduleName>'` declaration. */
  function ImportOf(moduleName: string): Statement {
    ImportDeclaration(Some("'" + moduleName + "'"))
  }

  /** A quoted import contributes its module name unless the name is relative. */
  lemma ImportOfNames(moduleName: string)
    ensures StatementNames(ImportOf(moduleName)) == if IsRelative(moduleName) then [] else [moduleName]
  {
    TrimQuoted('\'', moduleName, '\'');
    assert "'" + moduleName + "'" == ['\''] + moduleName + ['\''];
  }

  /** The names of a program made of one scanned file and no diagnostics. */
  lemma OneFileProgram(e: EntryPoint, entryPoints: seq<EntryPoint>, compiler: CompilerService, f: SourceFile)
    requires ProgramOf(e, entryPoints, compiler) == Program([], [f])
    requires !Excluded(f.fileName)
    ensures NamesOf(e, entryPoints, compiler) == Elems(FileNames(f.statements))
  {
    ConcatMapSingleton(f, ScannedNames);
  }

  lemma ScenarioImportsOfA()
    ensures FileNames([ImportOf("B"), ImportOf("./util"), OtherStatement]) == ["B"]
  {
    var x, y, z := ImportOf("B"), ImportOf("./util"), OtherStatement;
    assert FileNames([x]) == ["B"] by {
      ImportOfNames("B");
      IsRelativeFirst("B");
      ConcatMapSingleton(x, StatementNames);
    }
    assert FileNames([y]) == [] by {
      ImportOfNames("./util");
      IsRelativeFirst("./util");
      ConcatMapSingleton(y, StatementNames);
    }
    assert FileNames([z]) == [] by {
      ConcatMapSingleton(z, StatementNames);
    }
    assert [x, y, z] == [x] + [y] + [z];
    ConcatMapAppend([x] + [y], [z], StatementNames);
    ConcatMapAppend([x], [y], StatementNames);
  }

  lemma ScenarioImportsOfC()
    ensures FileNames([ImportOf("external-pkg")]) == ["external-pkg"]
  {
    ImportOfNames("external-pkg");
    IsRelativeFirst("external-pkg");
    ConcatMapSingleton(ImportOf("external-pkg"), StatementNames);
  }

  lemma ScenarioEntryA(a: EntryPoint, b: EntryPoint, c: EntryPoint, compiler: CompilerService)
    requires a.moduleId == "A" && b.moduleId == "B" && c.moduleId == "C"
    requires compiler.createProgram(a.tsConfig, [a, b, c]) ==
             Program([], [SourceFile("a.ts", [ImportOf("B"), ImportOf("./util"), OtherStatement])])
    ensures AnalysisResult(a, [a, b, c], compiler).Pass?
    ensures LinkTargets(a, [a, b, c], compiler) == {b}
  {
    var eps := [a, b, c];
    ScenarioImportsOfA();
    ShortNameScanned("a.ts");
    OneFileProgram(a, eps, compiler, SourceFile("a.ts", [ImportOf("B"), ImportOf("./util"), OtherStatement]));
    assert NamesOf(a, eps, compiler) == {"B"};
    assert Find(eps, "B") == Some(b);
    assert {"B"} - {"A"} == {"B"};
  }

  lemma ScenarioEntryB(a: EntryPoint, b: EntryPoint, c: EntryPoint, compiler: CompilerService)
    requires compiler.createProgram(b.tsConfig, [a, b, c]) == Program([], [SourceFile("b.ts", [OtherStatement])])
    ensures AnalysisResult(b, [a, b, c], compiler).Pass?
    ensures LinkTargets(b, [a, b, c], compiler) == {}
  {
    ConcatMapSingleton(OtherStatement, StatementNames);
    ShortNameScanned("b.ts");
    OneFileProgram(b, [a, b, c], compiler, SourceFile("b.ts", [OtherStatement]));
  }

  lemma ScenarioEntryC(a: EntryPoint, b: EntryPoint, c: EntryPoint, compiler: CompilerService)
    requires a.moduleId == "A" && b.moduleId == "B" && c.moduleId == "C"
    requires compiler.createProgram(c.tsConfig, [a, b, c]) == Program([], [SourceFile("c.ts", [ImportOf("external-pkg")])])
    ensures AnalysisResult(c, [a, b, c], compiler).Pass?
    ensures LinkTargets(c, [a, b, c], compiler) == {}
  {
    var eps := [a, b, c];
    ScenarioImportsOfC();
    ShortNameScanned("c.ts");
    OneFileProgram(c, eps, compiler, SourceFile("c.ts", [ImportOf("external-pkg")]));
    assert NamesOf(c, eps, compiler) == {"external-pkg"};
    assert Find(eps, "external-pkg") == None;
    assert {"external-pkg"} - {"C"} == {"external-pkg"};
  }

  /**
   * `A` imports `B` and a relative file, `B` imports nothing, `C` imports an
   * external package: the pass succeeds with the single edge `A -> B`.
   */
  lemma ScenarioThreeEntryPoints(a: EntryPoint, b: EntryPoint, c: EntryPoint, compiler: CompilerService)
    requires a.moduleId == "A" && b.moduleId == "B" && c.moduleId == "C"
    requires compiler.createProgram(a.tsConfig, [a, b, c]) ==
             Program([], [SourceFile("a.ts", [ImportOf("B"), ImportOf("./util"), OtherStatement])])
    requires compiler.createProgram(b.tsConfig, [a, b, c]) == Program([], [SourceFile("b.ts", [OtherStatement])])
    requires compiler.createProgram(c.tsConfig, [a, b, c]) == Program([], [SourceFile("c.ts", [ImportOf("external-pkg")])])
    ensures FirstFailure([a, b, c], [a, b, c], compiler) == 3
    ensures LinkTargets(a, [a, b, c], compiler) == {b}
    ensures LinkTargets(b, [a, b, c], compiler) == {}
    ensures LinkTargets(c, [a, b, c], compiler) == {}
  {
    var eps := [a, b, c];
    ScenarioEntryA(a, b, c, compiler);
    ScenarioEntryB(a, b, c, compiler);
    ScenarioEntryC(a, b, c, compiler);
    NoFailureIff(eps, eps, compiler);
  }

  /** `A` importing `A` stops the pass at `A` with an error naming `A`; `B` after it is never analysed. */
  lemma ScenarioSelfImport(a: EntryPoint, b: EntryPoint, compiler: CompilerService)
    requires a.moduleId == "A" && b.moduleId == "B"
    requires compiler.createProgram(a.tsConfig, [a, b]) == Program([], [SourceFile("a.ts", [ImportOf("A")])])
    ensures FirstFailure([a, b], [a, b], compiler) == 0
    ensures AnalysisResult(a, [a, b], compiler) == Fail(CircularDependencyError("A"))
  {
    ImportOfNames("A");
    IsRelativeFirst("A");
    ConcatMapSingleton(ImportOf("A"), StatementNames);
    ShortNameScanned("a.ts");
    OneFileProgram(a, [a, b], compiler, SourceFile("a.ts", [ImportOf("A")]));
    assert "A" in ModuleNames(ProgramOf(a, [a, b], compiler).sourceFiles);
    SelfImportFails(a, [a, b], compiler);
  }

  /** Two diagnostics for `D` fail the pass at `D` with their formatted text, and no edge is added. */
  lemma ScenarioDiagnostics(d: EntryPoint, compiler: CompilerService, d1: Diagnostic, d2: Diagnostic)
    requires compiler.createProgram(d.tsConfig, [d]).semanticDiagnostics == [d1, d2]
    ensures FirstFailure([d], [d], compiler) == 0
    ensures AnalysisResult(d, [d], compiler) == Fail(SemanticAnalysisError(compiler.formatDiagnostics([d1, d2])))
    ensures LinkTargets(d, [d], compiler) == {}
  {
  }
}
