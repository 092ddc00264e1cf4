/** The record of one analysed file, and the walk over the project's files
    (CodeAnalyzer.ts:9-35). Finding the files (`glob`), reading them and making their paths
    relative are I/O: a source here arrives with its relative path, its extension, and its
    content or the failure to read it. */
module Analysis {
  import opened Wrappers
  import opened Text
  import opened Entities
  import opened Analyzer
  import opened FunctionScan

  /** A file found under the project: `content` is `None` when reading it failed */
  datatype Source = Source(path: string, ext: string, content: Option<string>)

  /** The `CodeFile` built for one file that could be read */
  function AnalyzeFile(path: string, ext: string, content: string): (f: CodeFile)
    ensures f.path == path && f.content == content && f.language == Language(ext)
    ensures FoundFrom(Split(content, '\n'), 0, f.functions)
    ensures forall a, b :: 0 <= a < b < |f.functions| ==> f.functions[a].lineNumber <= f.functions[b].lineNumber
    ensures ReportsByLine(ClassesOf(Split(content, '\n')), f.classes, ClassLine, 0)
    ensures ReportsByLine(InterfacesOf(Split(content, '\n')), f.interfaces, InterfaceLine, 0)
    ensures ReportsByLine(TypesOf(Split(content, '\n')), f.types, TypeLine, 0)
  {
    CodeFile(path, content, Language(ext), ExtractFunctions(content), ExtractClasses(content),
      ExtractInterfaces(content), ExtractTypes(content))
  }

  /** What analysing one source gives: its record, or nothing when it could not be read */
  function Attempt(s: Source): (r: Option<CodeFile>)
    ensures r.Some? <==> s.content.Some?
  {
    match s.content
    case None => None
    case Some(content) => Some(AnalyzeFile(s.path, s.ext, content))
  }

  function Attempts(sources: seq<Source>): (xs: seq<Option<CodeFile>>)
    ensures |xs| == |sources| && forall k :: 0 <= k < |sources| ==> xs[k] == Attempt(sources[k])
  {
    seq(|sources|, k requires 0 <= k < |sources| => Attempt(sources[k]))
  }

  /** `analyzeProject`: one record per file that could be read, in the order the files were
      found; a file that could not be read is skipped */
  function AnalyzeProject(sources: seq<Source>): (files: seq<CodeFile>)
    ensures |files| <= |sources|
    ensures forall a :: 0 <= a < |files| ==> exists k :: 0 <= k < |sources| && Attempt(sources[k]) == Some(files[a])
    ensures forall k :: 0 <= k < |sources| && sources[k].content.Some? ==> Attempt(sources[k]).value in files
  {
    var xs := Attempts(sources);
    SomesOrigin(xs);
    SomesComplete(xs);
    Somes(xs)
  }

  /** When every file can be read there is one record per file, at the file's position */
  lemma {:induction false} AllRead(sources: seq<Source>)
    requires forall k :: 0 <= k < |sources| ==> sources[k].content.Some?
    ensures |AnalyzeProject(sources)| == |sources|
    ensures forall k :: 0 <= k < |sources| ==> Some(AnalyzeProject(sources)[k]) == Attempt(sources[k])
  {
    AllPresent(Attempts(sources));
  }
}
