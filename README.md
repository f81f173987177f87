# Dependency discovery of ng-packagr's `analyseSourcesTransform`

This project models, in Dafny, the pass of ng-packagr's build graph that
discovers the dependencies between the entry points of a library. For each
entry point that is not yet done, in graph order, the pass asks the Angular
compiler for a program. It fails with the formatted semantic diagnostics
when there are any. Otherwise it collects the module specifiers of the
top-level `import` and `export` declarations of every scanned source file
and strips their quotes. It drops relative specifiers (those starting with
`.`) and deduplicates the rest. Then, for every name that is the `moduleId`
of an entry point of the analysed list, it adds a depends-on edge to that
entry point. The one exception is the entry point's own module id, which
raises a circular-dependency error that stops the whole pass. The graph is
returned as it was given; only the edges of its entry points change.

Files:

- `wrappers.dfy` (module `Wrappers`) holds `Option`, `Result`, and
  `Outcome` (pass, or fail with an error).
- `seqs.dfy` (module `Seqs`) holds the flattening map `ConcatMap` and its
  laws, plus `Distinct` and `Elems`.
- `sources.dfy` (module `Sources`) covers the compiler's view of a program:
  - diagnostics, source files, and statements;
  - the file-name filter `Excluded`;
  - quote trimming, written as JavaScript's `substring`;
  - the relative-specifier test;
  - the collected names (`ModuleNames`), and the nested loops that collect
    them (`CollectModuleNames`);
  - deduplication (`Unique`).
- `graph.dfy` (module `Graph`) covers the graph:
  - the `EntryPoint` class, whose mutable `deps` set holds the targets of
    its depends-on edges;
  - graph nodes, and the selection of the entry points that are not done
    (`ToAnalyse`);
  - `Find`, the first entry point with a given module id;
  - the link targets of a set of names (`Links`).
- `analysis.dfy` (module `Analysis`) covers the pass itself:
  - the compiler as a parameter (`CompilerService`) and the two errors;
  - the specification functions `AnalysisResult` (how analysing one entry
    point ends), `LinkTargets` (the edges it may add) and `FirstFailure`
    (where the pass stops);
  - the imperative methods `LinkModule` (one name), `LinkModules`, `AnalyseEntryPoint`,
    `AnalyseAll` and `AnalyseSources`, each proved against those functions.
- `properties.dfy` (module `Properties`) holds lemmas about the
  specification functions: when an edge exists, when analysis fails, and
  what the error says. It also has three concrete scenarios.

The compiler is not modelled. `CompilerService.createProgram` maps an
entry point's tsconfig and the analysed list to a `Program`. That program
holds the semantic diagnostics and the source files as lists of top-level
statements. `CompilerService.formatDiagnostics` maps diagnostics to an
opaque message.

A thrown `Error` is modelled as a returned failure. The code throws a
plain `Error` both after diagnostics
(src/lib/ng-v5/init/analyse-sources.transform.ts:51) and on a self-import
(src/lib/ng-v5/init/analyse-sources.transform.ts:86). The two tags
`SemanticAnalysisError` and `CircularDependencyError` are the model's own
way of telling them apart. An error thrown by the compiler itself cannot
arise, because `CompilerService.createProgram` is a total function.
`AnalyseEntryPoint`
returns an `Outcome`. `AnalyseSources` returns `Success(graph)` (the very
sequence it received) or `Failure(error)`. Its contract states the edges
in both cases:

- every entry point analysed before the failing one has all its link
  targets added;
- the failing one has a subset of its link targets added;
- the entry points after it, and every entry point not selected, keep
  their edges and their call logs;
- when no entry point is listed twice, each one analysed before the
  failing one has had `DependsOn` called exactly once for each of its
  link targets.

A circular-dependency error does not undo the edges already added. The
names linked before the module's own id have had `dependsOn` called for
them by the time the error is thrown
(src/lib/ng-v5/init/analyse-sources.transform.ts:80-89). The model
follows this. The ghost call log of `DependsOn` pins down the calls on
that error: one per resolving name of the deduplicated list, in order, up
to the position of the module's own id. The edges gained are exactly the
targets of those calls.

An entry point whose state is `done` gets no edge when an analysed one
imports it, because `find` searches only the analysed list. The model
follows the code on this as well.

## Model

| member | source | states |
|---|---|---|
| Sources.ContainsIff | src/lib/ng-v5/init/analyse-sources.transform.ts:61 | the substring test used by the file filter holds exactly when the pattern occurs at some index |
| Sources.Excluded | src/lib/ng-v5/init/analyse-sources.transform.ts:61 | the file filter: a name containing `node_modules`, `.ngfactory` or `.ngstyle`, or ending in `.d.ts`; the lemmas below state its cases |
| Sources.InfixContained | src/lib/ng-v5/init/analyse-sources.transform.ts:61 | an unanchored pattern is found wherever it is placed in a name |
| Sources.ShortNameScanned | src/lib/ng-v5/init/analyse-sources.transform.ts:61 | a file name shorter than every pattern is never filtered out |
| Sources.VendoredExcluded | src/lib/ng-v5/init/analyse-sources.transform.ts:61 | every file name containing `node_modules`, anywhere, is filtered out |
| Sources.GeneratedExcluded | src/lib/ng-v5/init/analyse-sources.transform.ts:61 | every file name containing `.ngfactory` or `.ngstyle`, anywhere, is filtered out |
| Sources.DeclarationExcluded | src/lib/ng-v5/init/analyse-sources.transform.ts:61 | every file name ending in `.d.ts` is filtered out |
| Sources.JsSubstring | src/lib/ng-v5/init/analyse-sources.transform.ts:72 | JavaScript's `substring`: never longer than the text, the plain slice when the bounds are in range, and the slice between them when they are reversed |
| Sources.TrimQuoted | src/lib/ng-v5/init/analyse-sources.transform.ts:71-72 | trimming a quoted specifier gives back exactly the text between the quotes, whatever the quote characters |
| Sources.Trim | src/lib/ng-v5/init/analyse-sources.transform.ts:71-72 | a text of two or more characters loses exactly its first and last; a shorter text comes back unchanged, as `substring(1, length - 1)` with clamping and swapping gives |
| Sources.IsRelativeFirst | src/lib/ng-v5/init/analyse-sources.transform.ts:73 | a name is relative exactly when it is non-empty and its first character is `.` |
| Sources.IsRelative | src/lib/ng-v5/init/analyse-sources.transform.ts:73 | `startsWith('.')`; `IsRelativeFirst` states what it means |
| Sources.StatementNames | src/lib/ng-v5/init/analyse-sources.transform.ts:63-75 | a statement contributes at most one name, and a name exactly when it is an import or export declaration with a specifier whose trimmed text is that name and is not relative |
| Sources.FileNamesIff | src/lib/ng-v5/init/analyse-sources.transform.ts:63-75 | a name is collected from a file's statements exactly when some import or export declaration carries a specifier whose trimmed text is that name and is not relative |
| Sources.ModuleNames | src/lib/ng-v5/init/analyse-sources.transform.ts:58-77 | all names the scanned files contribute, in file order with duplicates kept; `ModuleNamesIff` states which |
| Sources.ModuleNamesIff | src/lib/ng-v5/init/analyse-sources.transform.ts:58-77 | a name is collected exactly when some file that passes the filter has a top-level statement contributing it |
| Sources.NoRelativeNames | src/lib/ng-v5/init/analyse-sources.transform.ts:73-75 | no relative specifier is ever collected |
| Sources.ExcludedFileIgnored | src/lib/ng-v5/init/analyse-sources.transform.ts:61 | inserting a filtered-out file anywhere in the file list leaves the collected names unchanged, whatever it imports |
| Sources.CollectModuleNames | src/lib/ng-v5/init/analyse-sources.transform.ts:56-77 | the nested loops push exactly the names `ModuleNames` specifies, in file and statement order, duplicates kept |
| Sources.Unique | src/lib/ng-v5/init/analyse-sources.transform.ts:79 | deduplication keeps exactly the same set of names and leaves no name twice |
| Seqs.ConcatMapIff | src/lib/ng-v5/init/analyse-sources.transform.ts:62-77 | an element is in the flattened result exactly when one of the inputs contributes it |
| Seqs.ConcatMapAppend | src/lib/ng-v5/init/analyse-sources.transform.ts:62-77 | flattening distributes over concatenation, so collection follows file order |
| Graph.EntryPoint.constructor | src/lib/ng-v5/init/analyse-sources.transform.ts:29-31 | a new entry point has the given module id, tsconfig and state, and no edges |
| Graph.EntryPoint.DependsOn | src/lib/ng-v5/init/analyse-sources.transform.ts:89 | the depends-on edges gain exactly `dep`, so calling it twice leaves one edge, and the call log gains `dep` at its end |
| Graph.Selected | src/lib/ng-v5/init/analyse-sources.transform.ts:14 | the filter's test: an entry-point node whose state is not done; `ToAnalyseIff` states it over the graph |
| Graph.ToAnalyse | src/lib/ng-v5/init/analyse-sources.transform.ts:14 | every selected entry point is held by an entry-point node of the graph |
| Graph.ToAnalyseIff | src/lib/ng-v5/init/analyse-sources.transform.ts:14 | an entry point is selected exactly when an entry-point node of the graph holds it and its state is not done |
| Graph.ToAnalyseAppend | src/lib/ng-v5/init/analyse-sources.transform.ts:14 | selection distributes over concatenation of graphs, so it keeps graph order |
| Graph.Find | src/lib/ng-v5/init/analyse-sources.transform.ts:81 | `find` returns nothing exactly when no entry point has the module id, and otherwise the first entry point that has it |
| Graph.Links | src/lib/ng-v5/init/analyse-sources.transform.ts:80-91 | every link target is an entry point of the list whose module id is among the names |
| Graph.Resolve | src/lib/ng-v5/init/analyse-sources.transform.ts:80-91 | at most one entry point per name, each from the list and carrying one of the names as its module id |
| Graph.ResolveLinks | src/lib/ng-v5/init/analyse-sources.transform.ts:80-91 | the resolved entry points, as a set, are exactly the link targets of the names |
| Graph.ResolveDistinct | src/lib/ng-v5/init/analyse-sources.transform.ts:79-80 | distinct names resolve to distinct entry points, so `dependsOn` never receives the same target twice |
| Graph.LinksIff | src/lib/ng-v5/init/analyse-sources.transform.ts:80-91 | a link target is an entry point of the list carrying one of the names, and the first one with that module id |
| Graph.LinksUniqueIds | src/lib/ng-v5/init/analyse-sources.transform.ts:80-91 | with unique module ids, the link targets are exactly the entry points whose module id is among the names |
| Graph.LinksAdd | src/lib/ng-v5/init/analyse-sources.transform.ts:80-91 | one more name adds at most the entry point `find` returns for it |
| Graph.LinksUnresolved | src/lib/ng-v5/init/analyse-sources.transform.ts:82 | a name that matches no entry point adds no link |
| Graph.LinksMonotone | src/lib/ng-v5/init/analyse-sources.transform.ts:80-91 | more names never give fewer link targets |
| Analysis.AnalysisError.Message | src/lib/ng-v5/init/analyse-sources.transform.ts:86 | the text of the thrown error; `CircularMessageNamesModule` states that it names the module |
| Analysis.AnalysisResult | src/lib/ng-v5/init/analyse-sources.transform.ts:49-91 | how analysing one entry point ends; `PassIff`, `DiagnosticsFail` and `SelfImportFails` state its cases |
| Analysis.LinkTargets | src/lib/ng-v5/init/analyse-sources.transform.ts:49-91 | the edges analysing one entry point may add; `LinkTargetsIff`, `NoSelfEdge` and `EdgeHasImport` state them |
| Analysis.LinkModules | src/lib/ng-v5/init/analyse-sources.transform.ts:80-91 | over distinct names, linking throws the circular error naming the module exactly when its own module id is a name that `find` resolves. On success the edges gain exactly the links of the other names, and `DependsOn` is called once per resolving name, in order. On the error, `DependsOn` is called exactly for the resolving names before the own id, in order. In both cases the edges gained are exactly the targets of the calls made |
| Analysis.LinkModule | src/lib/ng-v5/init/analyse-sources.transform.ts:81-90 | for one name: if `find` resolves it and it is the own module id, the circular error naming it with nothing changed; otherwise `DependsOn` is called for the resolved entry point, if any |
| Analysis.AnalyseEntryPoint | src/lib/ng-v5/init/analyse-sources.transform.ts:29-92 | analysis ends as `AnalysisResult` says: the diagnostics error first, then the circular error, else success. On success the edges gain exactly `LinkTargets`, and on failure a subset of them. The calls to `DependsOn` are the resolved entry points of a distinct list of exactly the collected names: all of it on success, a prefix free of the own module id on failure, and on the circular error the prefix that stops at the own module id. After diagnostics there are none. The edges gained are always exactly the targets of the calls made |
| Analysis.FirstFailure | src/lib/ng-v5/init/analyse-sources.transform.ts:15-17 | the index where the pass stops: every entry point before it passes, and the one at it fails |
| Analysis.NoFailureIff | src/lib/ng-v5/init/analyse-sources.transform.ts:15-17 | the pass runs to the end exactly when every selected entry point's analysis passes |
| Analysis.AnalyseAll | src/lib/ng-v5/init/analyse-sources.transform.ts:15-17 | the loop analyses the entry points in order and stops at the first failure with its error; the ones before it have all their link targets added, and, with no entry point listed twice, one `DependsOn` call for each of them. The failing one gains a subset of its link targets. The ones after it keep their edges and call logs |
| Analysis.AnalyseSources | src/lib/ng-v5/init/analyse-sources.transform.ts:13-20 | the pass returns the very graph it was given, or the first error; only selected entry points gain edges or `DependsOn` calls, each as `AnalyseAll` states |
| Properties.CircularMessageNamesModule | src/lib/ng-v5/init/analyse-sources.transform.ts:86 | the circular-dependency message contains the module name |
| Properties.NoSelfEdge | src/lib/ng-v5/init/analyse-sources.transform.ts:85-89 | analysing an entry point never adds an edge to itself |
| Properties.DiagnosticsFail | src/lib/ng-v5/init/analyse-sources.transform.ts:49-52 | semantic diagnostics fail the analysis with their formatted text, and no edge is added |
| Properties.SelfImportFails | src/lib/ng-v5/init/analyse-sources.transform.ts:81-87 | without diagnostics, collecting one's own module id fails with the circular error whose message names the module |
| Properties.PassIff | src/lib/ng-v5/init/analyse-sources.transform.ts:49-92 | analysis succeeds exactly when there are no diagnostics and the entry point's own module id is not collected |
| Properties.LinkTargetsIff | src/lib/ng-v5/init/analyse-sources.transform.ts:79-91 | an edge to `d` is possible exactly when there are no diagnostics, `d` is in the analysed list with a module id other than the current one, that id is collected, and `d` is the first entry point with it |
| Properties.EdgeHasImport | src/lib/ng-v5/init/analyse-sources.transform.ts:58-91 | every edge comes from a non-relative import or export declaration in some file that passes the filter |
| Properties.ImportGivesEdge | src/lib/ng-v5/init/analyse-sources.transform.ts:58-91 | with unique module ids, an import of another analysed entry point in a file that passes the filter gives the edge to it |
| Properties.UnknownImportsIgnored | src/lib/ng-v5/init/analyse-sources.transform.ts:81-82 | names that match no analysed entry point raise no error and add no edge |
| Properties.ImportOfNames | src/lib/ng-v5/init/analyse-sources.transform.ts:66-75 | a single-quoted import contributes its module name, or nothing when the name is relative |
| Properties.OneFileProgram | src/lib/ng-v5/init/analyse-sources.transform.ts:58-79 | the names of a one-file program without diagnostics whose file passes the filter are the names its statements contribute |
| Properties.ScenarioThreeEntryPoints | src/lib/ng-v5/init/analyse-sources.transform.ts:13-92 | `A` imports `B` and `./util`, `B` imports nothing, and `C` imports `external-pkg`: the pass succeeds with the single edge `A -> B` |
| Properties.ScenarioSelfImport | src/lib/ng-v5/init/analyse-sources.transform.ts:15-16 | `A` importing `A` stops the pass at `A` with the circular error, before `B` |
| Properties.ScenarioDiagnostics | src/lib/ng-v5/init/analyse-sources.transform.ts:49-52 | two diagnostics stop the pass at that entry point with their formatted text, and no edge is added |

## Left out

- The Angular and TypeScript compiler is not modelled: `ng.createProgram`, `getNgSemanticDiagnostics`, `getTsProgram().getSourceFiles()`, `ng.formatDiagnostics` and the `getText()` of a specifier. `CompilerService` takes their place as a parameter. Its results are arbitrary, and the formatted message is an opaque string.
- `setDependenciesTsConfigPaths` is defined in a file that is not part of this model. `createProgram` receives the entry point's tsconfig and the analysed list, which are that call's inputs.
- `cacheCompilerHost`, the `readResource` stub and the source-file and module-resolution caches are left out. They are I/O and memoisation.
- `log.debug` is logging, and the rxjs `pipe`/`map` wrapper is stream plumbing. The transform is modelled as a method over the node sequence.
- Statements that are neither import nor export declarations, and nested declarations, are all `OtherStatement`. Only top-level statements are visited.
- `unique` comes from a utility module that is not part of this model. `Unique` deduplicates while keeping first occurrences, and the contracts rely only on its set of names and on their being distinct, never on its order.
- Analysis.AnalyseEntryPoint: the contract names the calls through the ghost list `names`, which is some distinct ordering of the collected names. Which names come before the own module id depends on the order `unique` returns, which is not modelled.
- Analysis.AnalyseAll: only bounds the edges of the failing entry point, between the old edges and the old edges plus its link targets, and does not state its call log. The call logs of the earlier entry points are stated only when no entry point is listed twice, because a repeated entry point is analysed again with the calls of its first analysis already in its log.
- Graph.EntryPoint.DependsOn: it adds the target to the entry point's `deps` only, and logs the call in the ghost `calls`. The build graph's `dependsOn` belongs to a node class that is not part of this model, and may also record the reverse edge on the target.
- Cycles through several entry points (A -> B -> A) are not detected by the code, and the model claims nothing about them.
