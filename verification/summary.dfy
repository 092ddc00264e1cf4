/** `createProjectSummary` (DocumentationGenerator.ts:130-180) and the function selection of
    `generateCodeExamples` (DocumentationGenerator.ts:251-255). The summary is modelled as a
    sequence of entries, each rendered to the text the source appends for it; the project
    configuration the source passes in is not read. */
module ProjectSummary {
  import opened Wrappers
  import opened Text
  import opened Entities
  import opened Lists
  import opened Kinds

  /** `codeFiles.reduce((sum, file) => sum + <list>.length, 0)` for the list of kind `k` */
  function Total(files: seq<CodeFile>, k: Kind): nat
    decreases |files|
  {
    if |files| == 0 then 0 else Total(files[..|files| - 1], k) + Count(files[|files| - 1], k)
  }

  /** The totals add up over consecutive groups of files */
  lemma {:induction false} TotalAppend(a: seq<CodeFile>, b: seq<CodeFile>, k: Kind)
    ensures Total(a + b, k) == Total(a, k) + Total(b, k)
    decreases |b|
  {
    if |b| == 0 {
      assert a + b == a;
    } else {
      var b' := b[..|b| - 1];
      assert (a + b)[..|a + b| - 1] == a + b';
      TotalAppend(a, b', k);
    }
  }

  /** A total is the number of entities of that kind across all files */
  lemma {:induction false} TotalCountsEntities(files: seq<CodeFile>, k: Kind)
    ensures Total(files, k) == |FlatMap(files, (file: CodeFile) => OfKind(file, k))|
    decreases |files|
  {
    if |files| > 0 {
      TotalCountsEntities(files[..|files| - 1], k);
    }
  }

  /** One piece of the summary text */
  datatype Entry =
    | Statistics(fileCount: nat, functions: nat, classes: nat, interfaces: nat, types: nat)
    | FileStats(path: string, functions: nat, classes: nat, interfaces: nat, types: nat)
    | KeyComponents
    | FunctionsOf(path: string)
    | FunctionLine(name: string, parameterNames: seq<string>)
    | ClassesOf(path: string)
    | ClassLine(name: string, extendsName: Option<string>)

  /** The text the source appends for an entry */
  function Render(e: Entry): string
  {
    match e
    case Statistics(n, f, c, i, t) =>
      "Project Statistics:\n- Total Files: " + Decimal(n) + "\n- Total Functions: " + Decimal(f)
      + "\n- Total Classes: " + Decimal(c) + "\n- Total Interfaces: " + Decimal(i)
      + "\n- Total Types: " + Decimal(t) + "\n\nFile Structure:\n"
    case FileStats(p, f, c, i, t) =>
      "\n\U{1F4C1} " + p + "\n  - Functions: " + Decimal(f) + "\n  - Classes: " + Decimal(c)
      + "\n  - Interfaces: " + Decimal(i) + "\n  - Types: " + Decimal(t)
    case KeyComponents => "\n\nKey Components:"
    case FunctionsOf(p) => "\n\n\U{1F527} " + p + " - Functions:"
    case FunctionLine(n, ps) => "\n  - " + n + "(" + JoinWith(ps, ", ") + ")"
    case ClassesOf(p) => "\n\n\U{1F3D7}\U{FE0F} " + p + " - Classes:"
    case ClassLine(n, x) => "\n  - " + n + (if x.Some? then " extends " + x.value else "")
  }

  /** JavaScript truthiness of an optional string: present and not empty */
  predicate Truthy(x: Option<string>)
  {
    x.Some? && x.value != ""
  }

  function StatsOf(file: CodeFile): Entry
  {
    FileStats(file.path, |file.functions|, |file.classes|, |file.interfaces|, |file.types|)
  }

  function ParameterName(p: ParameterInfo): string
  {
    p.name
  }

  function FunctionLineOf(f: FunctionInfo): Entry
  {
    FunctionLine(f.name, Map(f.parameters, ParameterName))
  }

  function ClassLineOf(c: ClassInfo): Entry
  {
    ClassLine(c.name, if Truthy(c.extendsName) then c.extendsName else None)
  }

  predicate ExportedFunction(f: FunctionInfo)
  {
    f.isExported
  }

  predicate ExportedClass(c: ClassInfo)
  {
    c.isExported
  }

  /** `file.functions.filter(f => f.isExported).slice(0, 5)` */
  function ListedFunctions(file: CodeFile): seq<FunctionInfo>
  {
    Take(Filter(file.functions, ExportedFunction), 5)
  }

  /** The functions heading and lines of one file, present when the file has a function */
  function FunctionPart(file: CodeFile): seq<Entry>
  {
    if |file.functions| > 0 then [FunctionsOf(file.path)] + Map(ListedFunctions(file), FunctionLineOf) else []
  }

  /** The classes heading and lines of one file, present when the file has a class */
  function ClassPart(file: CodeFile): seq<Entry>
  {
    if |file.classes| > 0 then [ClassesOf(file.path)] + Map(Filter(file.classes, ExportedClass), ClassLineOf) else []
  }

  /** The key components of one file */
  function KeyEntries(file: CodeFile): seq<Entry>
  {
    FunctionPart(file) + ClassPart(file)
  }

  function ProjectEntries(files: seq<CodeFile>): seq<Entry>
  {
    [Statistics(|files|, Total(files, FunctionKind), Total(files, ClassKind), Total(files, InterfaceKind),
                Total(files, TypeKind))]
    + Map(files, StatsOf) + [KeyComponents] + FlatMap(files, KeyEntries)
  }

  /** `createProjectSummary(codeFiles, config)` */
  function CreateProjectSummary(files: seq<CodeFile>): string
  {
    FlatMap(ProjectEntries(files), Render)
  }

  predicate IsFileStats(e: Entry)
  {
    e.FileStats?
  }

  /** The key components hold no statistics block */
  lemma KeysHoldNoStats(files: seq<CodeFile>)
    ensures Filter(FlatMap(files, KeyEntries), IsFileStats) == []
  {
    forall i | 0 <= i < |files|
      ensures Filter(KeyEntries(files[i]), IsFileStats) == []
    {
      FilterNone(KeyEntries(files[i]), IsFileStats);
    }
    FlatMapFilterNone(files, KeyEntries, IsFileStats);
  }

  /** The summary holds one statistics block per file, in input order, counting the file's
      own lists */
  lemma FileStatsInOrder(files: seq<CodeFile>)
    ensures |Filter(ProjectEntries(files), IsFileStats)| == |files|
    ensures forall i :: 0 <= i < |files| ==>
      Filter(ProjectEntries(files), IsFileStats)[i]
      == FileStats(files[i].path, |files[i].functions|, |files[i].classes|, |files[i].interfaces|, |files[i].types|)
  {
    var head := [ProjectEntries(files)[0]];
    var blocks := Map(files, StatsOf);
    var keys := FlatMap(files, KeyEntries);
    var front := head + blocks + [KeyComponents];
    assert ProjectEntries(files) == front + keys;
    FilterAppend(front, keys, IsFileStats);
    KeysHoldNoStats(files);
    FilterAppend(head + blocks, [KeyComponents], IsFileStats);
    FilterAppend(head, blocks, IsFileStats);
    FilterAll(blocks, IsFileStats);
    assert Filter(head, IsFileStats) == [];
    assert Filter([KeyComponents], IsFileStats) == [];
    assert Filter(ProjectEntries(files), IsFileStats) == blocks;
  }

  /** The totals of the statistics header count every entity of every file */
  lemma TotalsCountEntities(files: seq<CodeFile>)
    ensures var s := ProjectEntries(files)[0];
      s.fileCount == |files|
      && s.functions == |FlatMap(files, (file: CodeFile) => OfKind(file, FunctionKind))|
      && s.classes == |FlatMap(files, (file: CodeFile) => OfKind(file, ClassKind))|
      && s.interfaces == |FlatMap(files, (file: CodeFile) => OfKind(file, InterfaceKind))|
      && s.types == |FlatMap(files, (file: CodeFile) => OfKind(file, TypeKind))|
  {
    TotalCountsEntities(files, FunctionKind);
    TotalCountsEntities(files, ClassKind);
    TotalCountsEntities(files, InterfaceKind);
    TotalCountsEntities(files, TypeKind);
  }

  /** The functions heading appears exactly when the file has a function, exported or not,
      and the classes heading exactly when it has a class */
  lemma KeyHeadings(file: CodeFile)
    ensures FunctionsOf(file.path) in KeyEntries(file) <==> |file.functions| > 0
    ensures ClassesOf(file.path) in KeyEntries(file) <==> |file.classes| > 0
  {
    var fs, cs := FunctionPart(file), ClassPart(file);
    assert forall k :: 0 <= k < |fs| ==> !fs[k].ClassesOf?;
    assert forall k :: 0 <= k < |cs| ==> !cs[k].FunctionsOf?;
    if |file.functions| > 0 {
      assert KeyEntries(file)[0] == FunctionsOf(file.path);
    }
    if |file.classes| > 0 {
      assert KeyEntries(file)[|fs|] == ClassesOf(file.path);
    }
  }

  predicate IsFunctionLine(e: Entry)
  {
    e.FunctionLine?
  }

  predicate IsClassLine(e: Entry)
  {
    e.ClassLine?
  }

  /** Filtering a part that is present only under a condition and opens with a heading
      the filter rejects */
  lemma HeadedPart(present: bool, h: Entry, xs: seq<Entry>, p: Entry -> bool)
    requires !p(h)
    ensures Filter(if present then [h] + xs else [], p) == if present then Filter(xs, p) else []
  {
    if present {
      FilterCons(h, xs, p);
    }
  }

  lemma FunctionPartLines(file: CodeFile)
    ensures Filter(FunctionPart(file), IsFunctionLine) == Map(ListedFunctions(file), FunctionLineOf)
    ensures Filter(FunctionPart(file), IsClassLine) == []
  {
    var fl := Map(ListedFunctions(file), FunctionLineOf);
    HeadedPart(|file.functions| > 0, FunctionsOf(file.path), fl, IsFunctionLine);
    HeadedPart(|file.functions| > 0, FunctionsOf(file.path), fl, IsClassLine);
    FilterAll(fl, IsFunctionLine);
    FilterNone(fl, IsClassLine);
    if |file.functions| == 0 {
      assert ListedFunctions(file) == [];
    }
  }

  lemma ClassPartLines(file: CodeFile)
    ensures Filter(ClassPart(file), IsClassLine) == Map(Filter(file.classes, ExportedClass), ClassLineOf)
    ensures Filter(ClassPart(file), IsFunctionLine) == []
  {
    var cl := Map(Filter(file.classes, ExportedClass), ClassLineOf);
    HeadedPart(|file.classes| > 0, ClassesOf(file.path), cl, IsClassLine);
    HeadedPart(|file.classes| > 0, ClassesOf(file.path), cl, IsFunctionLine);
    FilterAll(cl, IsClassLine);
    FilterNone(cl, IsFunctionLine);
    if |file.classes| == 0 {
      assert Filter(file.classes, ExportedClass) == [];
    }
  }

  /** The function lines of a file are those of its listed functions, in order, and its class
      lines those of all its exported classes, in order */
  lemma KeyLines(file: CodeFile)
    ensures Filter(KeyEntries(file), IsFunctionLine) == Map(ListedFunctions(file), FunctionLineOf)
    ensures Filter(KeyEntries(file), IsClassLine) == Map(Filter(file.classes, ExportedClass), ClassLineOf)
  {
    FilterAppend(FunctionPart(file), ClassPart(file), IsFunctionLine);
    FilterAppend(FunctionPart(file), ClassPart(file), IsClassLine);
    FunctionPartLines(file);
    ClassPartLines(file);
  }

  /** The listed functions are the first exported ones: at most five, all exported, and all
      the exported functions of a prefix of the list that is the whole list unless five were
      found */
  lemma ListedFirstFive(file: CodeFile)
    ensures |ListedFunctions(file)| <= 5
    ensures forall k :: 0 <= k < |ListedFunctions(file)| ==> ListedFunctions(file)[k].isExported
    ensures exists j ::
      && 0 <= j <= |file.functions|
      && ListedFunctions(file) == Filter(file.functions[..j], ExportedFunction)
      && (j == |file.functions| || |ListedFunctions(file)| == 5)
  {
    TakeFiltered(file.functions, ExportedFunction, 5);
  }

  /** A class line names its superclass exactly when the class has a non-empty one */
  lemma ClassLineExtends(c: ClassInfo)
    ensures Render(ClassLineOf(c)) == "\n  - " + c.name + " extends " + c.extendsName.value <== Truthy(c.extendsName)
    ensures Render(ClassLineOf(c)) == "\n  - " + c.name <== !Truthy(c.extendsName)
  {
  }

  // ---------------------------------------------------------------------------------
  // The functions `generateCodeExamples` asks for (DocumentationGenerator.ts:251-255)

  function FunctionsOfFile(file: CodeFile): seq<FunctionInfo>
  {
    file.functions
  }

  /** Exported and with a description (a non-empty string is truthy) */
  predicate Exemplary(f: FunctionInfo)
  {
    f.isExported && f.description != ""
  }

  /** `codeFiles.flatMap(file => file.functions).filter(...).slice(0, 5)` */
  function Examples(files: seq<CodeFile>): seq<FunctionInfo>
  {
    Take(Filter(FlatMap(files, FunctionsOfFile), Exemplary), 5)
  }

  /** The examples are the first five exemplary functions across the files, in file order */
  lemma ExamplesFirstFive(files: seq<CodeFile>)
    ensures |Examples(files)| <= 5
    ensures forall k :: 0 <= k < |Examples(files)| ==> Exemplary(Examples(files)[k])
    ensures exists j ::
      && 0 <= j <= |FlatMap(files, FunctionsOfFile)|
      && Examples(files) == Filter(FlatMap(files, FunctionsOfFile)[..j], Exemplary)
      && (j == |FlatMap(files, FunctionsOfFile)| || |Examples(files)| == 5)
  {
    TakeFiltered(FlatMap(files, FunctionsOfFile), Exemplary, 5);
  }
}
