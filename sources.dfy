/**
 * The compiler's syntactic view of an entry point's program, and the
 * extraction of the non-relative module specifiers that its source files
 * import from or re-export from.
 */
module Sources {
  import opened Wrappers
  import opened Seqs

  /** A semantic diagnostic reported by the compiler; its content is opaque here. */
  datatype Diagnostic = Diagnostic(messageText: string)

  /**
   * A top-level statement of a source file. Only import and export
   * declarations matter. The specifier is the raw source text of the
   * specifier expression, quotes included (what `getText()` returns); an
   * export declaration without `from` (a local re-export) has none.
   */
  datatype Statement =
    | ImportDeclaration(moduleSpecifier: Option<string>)
    | ExportDeclaration(moduleSpecifier: Option<string>)
    | OtherStatement

  datatype SourceFile = SourceFile(fileName: string, statements: seq<Statement>)

  /** The compiler's answer for one entry point: its semantic diagnostics and its source files. */
  datatype Program = Program(semanticDiagnostics: seq<Diagnostic>, sourceFiles: seq<SourceFile>)

  // ----- Strings, with the semantics of the JavaScript operations used -----

  predicate StartsWith(s: string, prefix: string) {
    |prefix| <= |s| && s[..|prefix|] == prefix
  }

  predicate EndsWith(s: string, suffix: string) {
    |suffix| <= |s| && s[|s| - |suffix|..] == suffix
  }

  /** `t` occurs in `s` starting at position `i`. */
  predicate OccursAt(s: string, t: string, i: nat) {
    i + |t| <= |s| && s[i..i + |t|] == t
  }

  /** Unanchored search for `t` in `s`, as a regular-expression alternative without anchors matches. */
  predicate Contains(s: string, t: string)
    decreases |s|
  {
    StartsWith(s, t) || (|s| > 0 && Contains(s[1..], t))
  }

  lemma {:induction false} ContainsIff(s: string, t: string)
    ensures Contains(s, t) <==> exists i: nat :: OccursAt(s, t, i)
    decreases |s|
  {
    if StartsWith(s, t) {
      assert OccursAt(s, t, 0);
    } else if |s| > 0 {
      ContainsIff(s[1..], t);
      forall i: nat | OccursAt(s[1..], t, i)
        ensures OccursAt(s, t, i + 1)
      {
        assert s[1..][i..i + |t|] == s[i + 1..i + 1 + |t|];
      }
      forall i: nat | OccursAt(s, t, i)
        ensures i > 0 && OccursAt(s[1..], t, i - 1)
      {
        assert s[..|t|] == s[0..|t|];
        if i > 0 {
          assert s[1..][i - 1..i - 1 + |t|] == s[i..i + |t|];
        }
      }
    }
  }

  /**
   * A file whose path contains `node_modules`, `.ngfactory` or `.ngstyle`,
   * or ends in `.d.ts`, is not scanned for imports.
   */
  predicate Excluded(fileName: string) {
    || Contains(fileName, "node_modules")
    || Contains(fileName, ".ngfactory")
    || Contains(fileName, ".ngstyle")
    || EndsWith(fileName, ".d.ts")
  }

  /** A string shorter than the pattern cannot contain it. */
  lemma ShortNotContains(s: string, t: string)
    requires |s| < |t|
    ensures !Contains(s, t)
  {
    ContainsIff(s, t);
  }

  /** A file name shorter than every pattern is scanned. */
  lemma ShortNameScanned(fileName: string)
    requires |fileName| < 5
    ensures !Excluded(fileName)
  {
    ShortNotContains(fileName, "node_modules");
    ShortNotContains(fileName, ".ngfactory");
    ShortNotContains(fileName, ".ngstyle");
  }

  /** A string contains every pattern placed inside it. */
  lemma InfixContained(pre: string, t: string, post: string)
    ensures Contains(pre + t + post, t)
  {
    var s := pre + t + post;
    assert s[|pre|..|pre| + |t|] == t;
    assert OccursAt(s, t, |pre|);
    ContainsIff(s, t);
  }

  /** Every file whose name contains `node_modules` is excluded. */
  lemma VendoredExcluded(pre: string, post: string)
    ensures Excluded(pre + "node_modules" + post)
  {
    InfixContained(pre, "node_modules", post);
  }

  /** Every generated factory or style file is excluded. */
  lemma GeneratedExcluded(pre: string, post: string)
    ensures Excluded(pre + ".ngfactory" + post)
    ensures Excluded(pre + ".ngstyle" + post)
  {
    InfixContained(pre, ".ngfactory", post);
    InfixContained(pre, ".ngstyle", post);
  }

  /** Every declaration file is excluded. */
  lemma DeclarationExcluded(base: string)
    ensures Excluded(base + ".d.ts")
  {
    var s := base + ".d.ts";
    assert s[|s| - 5..] == ".d.ts";
  }

  function Clamp(x: int, lo: int, hi: int): int
    requires lo <= hi
  {
    if x < lo then lo else if x > hi then hi else x
  }

  /**
   * `s.substring(start, end)` in JavaScript: both bounds are clamped to
   * `[0, |s|]` and swapped when `start > end`.
   */
  function JsSubstring(s: string, start: int, end: int): (sub: string)
    ensures |sub| <= |s|
    ensures 0 <= start <= end <= |s| ==> sub == s[start..end]
    ensures 0 <= end <= start <= |s| ==> sub == s[end..start]
  {
    var a := Clamp(start, 0, |s|);
    var b := Clamp(end, 0, |s|);
    if a <= b then s[a..b] else s[b..a]
  }

  /**
   * `text.substring(1, text.length - 1)`: the text without its first and
   * last characters (the quotes); a text too short to hold two comes back
   * unchanged.
   */
  function Trim(text: string): (trimmed: string)
    ensures |text| >= 2 ==> trimmed == text[1..|text| - 1]
    ensures |text| < 2 ==> trimmed == text
  {
    JsSubstring(text, 1, |text| - 1)
  }

  lemma TrimQuoted(open: char, body: string, close: char)
    ensures Trim([open] + body + [close]) == body
  {
    var text := [open] + body + [close];
    assert text[1..|text| - 1] == body;
  }

  /** A specifier starting with `.` names a file of the same entry point. */
  predicate IsRelative(name: string) {
    StartsWith(name, ".")
  }

  /** Relativity is decided by the first character alone. */
  lemma IsRelativeFirst(name: string)
    ensures IsRelative(name) <==> |name| > 0 && name[0] == '.'
  {
    if |name| > 0 {
      assert name[..1] == [name[0]];
    }
  }

  function SpecifierOf(st: Statement): Option<string> {
    match st
    case ImportDeclaration(s) => s
    case ExportDeclaration(s) => s
    case OtherStatement => None
  }

  /** Statement `st` contributes the module name `name`. */
  predicate Contributes(st: Statement, name: string) {
    SpecifierOf(st).Some? && Trim(SpecifierOf(st).value) == name && !IsRelative(name)
  }

  /** What one statement contributes: its trimmed specifier, unless there is none or it is relative. */
  function StatementNames(st: Statement): (names: seq<string>)
    ensures |names| <= 1
    ensures forall name :: name in names <==> Contributes(st, name)
  {
    match SpecifierOf(st)
    case None => []
    case Some(text) =>
      var trimmedText := Trim(text);
      if IsRelative(trimmedText) then [] else [trimmedText]
  }

  /** The names the statements contribute, in order, duplicates kept. */
  function FileNames(statements: seq<Statement>): seq<string> {
    ConcatMap(statements, StatementNames)
  }

  /** What one source file contributes: nothing when it is excluded. */
  function ScannedNames(f: SourceFile): seq<string> {
    if Excluded(f.fileName) then [] else FileNames(f.statements)
  }

  /** The names all scanned files contribute, in file order, duplicates kept. */
  function ModuleNames(files: seq<SourceFile>): seq<string> {
    ConcatMap(files, ScannedNames)
  }

  /** Some top-level statement of the scanned file `f` contributes `name`. */
  predicate FileContributes(f: SourceFile, name: string) {
    !Excluded(f.fileName) && exists j :: 0 <= j < |f.statements| && Contributes(f.statements[j], name)
  }

  lemma FileNamesIff(statements: seq<Statement>, name: string)
    ensures name in FileNames(statements) <==>
            exists j :: 0 <= j < |statements| && Contributes(statements[j], name)
  {
    ConcatMapIff(statements, StatementNames, name);
    forall j | 0 <= j < |statements|
      ensures name in StatementNames(statements[j]) <==> Contributes(statements[j], name)
    {
    }
  }

  /** A name is collected exactly when some scanned file has a top-level statement contributing it. */
  lemma ModuleNamesIff(files: seq<SourceFile>, name: string)
    ensures name in ModuleNames(files) <==> exists i :: 0 <= i < |files| && FileContributes(files[i], name)
  {
    ConcatMapIff(files, ScannedNames, name);
    forall i | 0 <= i < |files|
      ensures name in ScannedNames(files[i]) <==> FileContributes(files[i], name)
    {
      FileNamesIff(files[i].statements, name);
    }
  }

  /** Relative specifiers are never collected. */
  lemma NoRelativeNames(files: seq<SourceFile>, name: string)
    requires name in ModuleNames(files)
    ensures !IsRelative(name)
  {
    ModuleNamesIff(files, name);
    var i :| 0 <= i < |files| && FileContributes(files[i], name);
  }

  /** An excluded file contributes nothing, wherever it appears and whatever it imports. */
  lemma ExcludedFileIgnored(before: seq<SourceFile>, f: SourceFile, after: seq<SourceFile>)
    requires Excluded(f.fileName)
    ensures ModuleNames(before + [f] + after) == ModuleNames(before + after)
  {
    assert ModuleNames([f]) == [] by {
      assert [f][..0] == [];
      assert ConcatMap([f], ScannedNames) == ConcatMap([], ScannedNames) + ScannedNames(f);
    }
    ConcatMapAppend(before, [f], ScannedNames);
    ConcatMapAppend(before + [f], after, ScannedNames);
    ConcatMapAppend(before, after, ScannedNames);
  }

  /**
   * The nested loops over the source files and their statements that push
   * every collected name onto a growing list.
   */
  method CollectModuleNames(files: seq<SourceFile>) returns (moduleStatements: seq<string>)
    ensures moduleStatements == ModuleNames(files)
  {
    moduleStatements := [];
    for i := 0 to |files|
      invariant moduleStatements == ModuleNames(files[..i])
    {
      var sourceFile := files[i];
      ConcatMapStep(files, i, ScannedNames);
      if !Excluded(sourceFile.fileName) {
        for j := 0 to |sourceFile.statements|
          invariant moduleStatements == ModuleNames(files[..i]) + FileNames(sourceFile.statements[..j])
        {
          ConcatMapStep(sourceFile.statements, j, StatementNames);
          match SpecifierOf(sourceFile.statements[j])
          case None =>
          case Some(text) =>
            var trimmedText := Trim(text);
            if !IsRelative(trimmedText) {
              moduleStatements := moduleStatements + [trimmedText];
            }
        }
        assert sourceFile.statements[..|sourceFile.statements|] == sourceFile.statements;
      }
    }
    assert files[..|files|] == files;
  }

  /** Deduplication keeping the first occurrence of each element. */
  function Unique(xs: seq<string>): (u: seq<string>)
    ensures forall x :: x in u <==> x in xs
    ensures Distinct(u)
  {
    if |xs| == 0 then []
    else
      var u := Unique(xs[..|xs| - 1]);
      var last := xs[|xs| - 1];
      assert forall x :: x in xs <==> x in xs[..|xs| - 1] || x == last;
      if last in u then u else u + [last]
  }
}
