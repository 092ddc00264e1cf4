/** Four discrepancies between what `extractFunctions` (CodeAnalyzer.ts:63-103) does and what
    it evidently means to do, each shown on a small input: the scan as written against the
    corrected scan the rest of the model uses. */
module ScanFindings {
  import opened Wrappers
  import opened Text
  import opened Entities
  import opened Shapes
  import opened Analyzer
  import opened FunctionScan
  import opened FunctionLines
  import opened ArrowLines

  /** Two lines joined by a newline split back into the two lines */
  lemma {:induction false} TwoLines(l0: string, l1: string)
    requires NoTerminator(l0) && NoTerminator(l1)
    ensures Split(l0 + "\n" + l1, '\n') == [l0, l1]
  {
    assert '\n' !in l0 && '\n' !in l1;
    assert JoinWith([l0, l1], ['\n']) == l0 + "\n" + l1 by {
      assert [l0, l1][1..] == [l1];
    }
    SplitJoin([l0, l1], '\n');
  }

  /** As written, of two regular declarations on consecutive lines only the first is
      reported: the regular pattern's `lastIndex` is left at the end of the first line, and
      the search of the second line starts there, past the only place `^` holds */
  lemma {:induction false} SecondDeclarationMissedAsWritten(e1: bool, n1: string, p1: string, r1: string,
                                                           e2: bool, n2: string, p2: string, r2: string)
    requires CallParts(n1, p1, r1) && CallParts(n2, p2, r2)
    ensures var fs := ExtractFunctionsAsWritten(RegularLine(e1, n1, p1, r1) + "\n" + RegularLine(e2, n2, p2, r2));
      |fs| == 1 && fs[0].name == n1 && fs[0].lineNumber == 1
  {
    var l0, l1 := RegularLine(e1, n1, p1, r1), RegularLine(e2, n2, p2, r2);
    var lines := [l0, l1];
    RegularLineOneLine(e1, n1, p1, r1);
    RegularLineOneLine(e2, n2, p2, r2);
    TwoLines(l0, l1);
    RegularLineAsWritten(lines, 0, Cursors(0, 0, 0), e1, n1, p1, r1);
    RegularLineMissedAsWritten(lines, 1, Cursors(|l0|, 0, 0), e2, n2, p2, r2);
    RegularRecordAsWritten(lines, 0, e1, n1, p1, r1);
    var rec := FunctionAsWritten(RegularGroups(e1, n1, p1, r1), lines, 0);
    assert ScanAsWritten(lines, 2, Cursors(0, 0, 0)) == [];
    assert ScanAsWritten(lines, 1, Cursors(|l0|, 0, 0)) == [];
    assert ScanAsWritten(lines, 0, Cursors(0, 0, 0)) == [rec];
  }

  /** The corrected scan reports both declarations, each with its own line */
  lemma {:induction false} BothDeclarationsFound(e1: bool, n1: string, p1: string, r1: string,
                                                e2: bool, n2: string, p2: string, r2: string)
    requires CallParts(n1, p1, r1) && CallParts(n2, p2, r2)
    ensures var fs := ExtractFunctions(RegularLine(e1, n1, p1, r1) + "\n" + RegularLine(e2, n2, p2, r2));
      && |fs| == 2
      && fs[0].name == n1 && fs[0].lineNumber == 1 && fs[0].isExported == e1
      && fs[1].name == n2 && fs[1].lineNumber == 2 && fs[1].isExported == e2
  {
    var l0, l1 := RegularLine(e1, n1, p1, r1), RegularLine(e2, n2, p2, r2);
    RegularLineOneLine(e1, n1, p1, r1);
    RegularLineOneLine(e2, n2, p2, r2);
    TwoLines(l0, l1);
    BothLinesScanned([l0, l1], e1, n1, p1, r1, e2, n2, p2, r2);
  }

  lemma {:induction false} BothLinesScanned(lines: seq<string>, e1: bool, n1: string, p1: string, r1: string,
                                           e2: bool, n2: string, p2: string, r2: string)
    requires CallParts(n1, p1, r1) && CallParts(n2, p2, r2)
    requires |lines| == 2 && lines[0] == RegularLine(e1, n1, p1, r1) && lines[1] == RegularLine(e2, n2, p2, r2)
    ensures ScanFrom(lines, 0) ==
      [FunctionInfo(n1, ParseParameters(p1), Trim(r1), Description(lines, 0), 1, false, e1),
       FunctionInfo(n2, ParseParameters(p2), Trim(r2), Description(lines, 1), 2, false, e2)]
  {
    ScanRegularLine(lines, 0, e1, n1, p1, r1);
    ScanRegularLine(lines, 1, e2, n2, p2, r2);
    assert ScanFrom(lines, 2) == [];
  }

  /** The corrected scan from a line holding a regular declaration: its record, then the
      records of the lines after it */
  lemma ScanRegularLine(lines: seq<string>, i: nat, e: bool, n: string, p: string, r: string)
    requires i < |lines| && lines[i] == RegularLine(e, n, p, r) && CallParts(n, p, r)
    ensures ScanFrom(lines, i) ==
      [FunctionInfo(n, ParseParameters(p), Trim(r), Description(lines, i), i + 1, false, e)] + ScanFrom(lines, i + 1)
  {
    RegularLineFunctions(lines, i, e, n, p, r);
  }

  // ---------------------------------------------------------------------------------
  // One layout of groups for three patterns

  /** A line without a newline splits into itself */
  lemma OneLine(s: string)
    requires NoTerminator(s)
    ensures Split(s, '\n') == [s]
  {
    assert '\n' !in s;
    SplitJoin([s], '\n');
  }

  lemma ScanOneLine(lines: seq<string>)
    requires |lines| == 1
    ensures ScanFrom(lines, 0) == LineFunctions(lines, 0)
  {
    assert ScanFrom(lines, 1) == [];
  }

  lemma ScanAsWrittenOneLine(lines: seq<string>)
    requires |lines| == 1
    ensures ScanAsWritten(lines, 0, Cursors(0, 0, 0)) == LineAsWritten(lines, 0, Cursors(0, 0, 0)).0
  {
    assert ScanAsWritten(lines, 1, LineAsWritten(lines, 0, Cursors(0, 0, 0)).1) == [];
  }

  /** As written, a bare signature `name(params): ret` is reported with the parameter text as
      its name, the return type parsed as its parameters, and `void` as its return type */
  lemma {:induction false} SignatureMisreadAsWritten(name: string, params: string, ret: string)
    requires CallParts(name, params, ret) && params != ""
    ensures var fs := ExtractFunctionsAsWritten(CallText(name, params, ret));
      && |fs| == 1
      && fs[0].name == params && fs[0].parameters == ParseParameters(ret) && fs[0].returnType == "void"
  {
    var lines := [CallText(name, params, ret)];
    MethodLineOneLine(name, params, ret);
    OneLine(lines[0]);
    MethodLineRecognised(lines, 0, name, params, ret);
    LineMethodLikeFresh(lines, 0, Cursors(0, 0, 0), MethodGroups(name, params, ret));
    MethodRecordAsWritten(lines, 0, name, params, ret);
    ScanAsWrittenOneLine(lines);
  }

  /** The corrected scan reads the name, the parameters and the return type of a bare
      signature from the method-like pattern's own groups */
  lemma {:induction false} SignatureRead(name: string, params: string, ret: string)
    requires CallParts(name, params, ret)
    ensures var fs := ExtractFunctions(CallText(name, params, ret));
      && |fs| == 1
      && fs[0].name == name && fs[0].parameters == ParseParameters(params) && fs[0].returnType == Trim(ret)
  {
    var lines := [CallText(name, params, ret)];
    MethodLineOneLine(name, params, ret);
    OneLine(lines[0]);
    MethodLineFunctions(lines, 0, name, params, ret);
    ScanOneLine(lines);
  }

  /** As written, a regular declaration without parameters is reported with its return type
      parsed as a parameter list, which is never empty */
  lemma {:induction false} ParameterlessMisreadAsWritten(exported: bool, name: string, ret: string)
    requires CallParts(name, "", ret)
    ensures var fs := ExtractFunctionsAsWritten(RegularLine(exported, name, "", ret));
      |fs| == 1 && fs[0].parameters == ParseParameters(ret) && fs[0].parameters != []
  {
    var lines := [RegularLine(exported, name, "", ret)];
    RegularLineOneLine(exported, name, "", ret);
    OneLine(lines[0]);
    RegularLineAsWritten(lines, 0, Cursors(0, 0, 0), exported, name, "", ret);
    RegularRecordAsWritten(lines, 0, exported, name, "", ret);
    ScanAsWrittenOneLine(lines);
    assert !AllSpaces(ret);
  }

  /** The corrected scan gives it no parameters */
  lemma {:induction false} ParameterlessRead(exported: bool, name: string, ret: string)
    requires CallParts(name, "", ret)
    ensures var fs := ExtractFunctions(RegularLine(exported, name, "", ret));
      |fs| == 1 && fs[0].parameters == [] && fs[0].returnType == Trim(ret)
  {
    var lines := [RegularLine(exported, name, "", ret)];
    RegularLineOneLine(exported, name, "", ret);
    OneLine(lines[0]);
    RegularLineFunctions(lines, 0, exported, name, "", ret);
    ScanOneLine(lines);
  }

  /** As written, an arrow function is never reported as async, an async one gets the single
      parameter `async`, and the parameter text stands in for the return type unless it is
      empty: the record is read from the arrow pattern's groups as if they were the regular
      pattern's */
  lemma {:induction false} ArrowMisreadAsWritten(exported: bool, kw: string, name: string, isAsync: bool,
                                                params: string, ret: string, rest: string)
    requires ArrowParts(kw, name, params, ret, rest)
    ensures var fs := ExtractFunctionsAsWritten(ArrowLine(exported, kw, name, isAsync, params, ret, rest));
      && |fs| == 1 && fs[0].name == name && !fs[0].isAsync
      && fs[0].parameters == (if isAsync then [ParameterInfo("async", "any", "", false)] else ParseParameters(params))
      && fs[0].returnType == Trim(if params != "" then params else ret)
  {
    var lines := [ArrowLine(exported, kw, name, isAsync, params, ret, rest)];
    ArrowLineOneLine(exported, kw, name, isAsync, params, ret, rest);
    OneLine(lines[0]);
    ArrowLineAsWritten(lines, 0, Cursors(0, 0, 0), exported, kw, name, isAsync, params, ret, rest);
    ScanAsWrittenOneLine(lines);
    AsyncParsed();
  }

  /** The corrected scan reads the arrow pattern's own groups: the name, the parameters, the
      return type, whether it is async and whether it is exported */
  lemma {:induction false} ArrowRead(exported: bool, kw: string, name: string, isAsync: bool,
                                    params: string, ret: string, rest: string)
    requires ArrowParts(kw, name, params, ret, rest)
    ensures ExtractFunctions(ArrowLine(exported, kw, name, isAsync, params, ret, rest)) ==
      [FunctionInfo(name, ParseParameters(params), Trim(ret), "", 1, isAsync, exported)]
  {
    var lines := [ArrowLine(exported, kw, name, isAsync, params, ret, rest)];
    ArrowLineOneLine(exported, kw, name, isAsync, params, ret, rest);
    OneLine(lines[0]);
    ArrowLineFunctions(lines, 0, exported, kw, name, isAsync, params, ret, rest);
    ScanOneLine(lines);
    DescriptionAtTop(lines);
  }
}
