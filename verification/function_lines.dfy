/** What the function patterns of CodeAnalyzer.ts:70-72 read from well-formed one-line
    declarations, and what the scans of CodeAnalyzer.ts:63-103 make of them. */
module FunctionLines {
  import opened Wrappers
  import opened Text
  import opened Entities
  import opened Shapes
  import opened Analyzer
  import opened FunctionScan

  /** The signature `name(params): ret` */
  function CallText(name: string, params: string, ret: string): string
  {
    name + "(" + params + "): " + ret
  }

  /** A signature the patterns read back: a word as the name, parameter text without `)`,
      a return type that starts with a non-space and holds no `{`, all on one line */
  predicate CallParts(name: string, params: string, ret: string)
  {
    && IsWord(name)
    && ')' !in params && NoTerminator(params)
    && ret != "" && !IsSpace(ret[0]) && '{' !in ret && NoTerminator(ret)
  }

  /** A keyword cannot be followed by whitespace inside a word that a non-space ends */
  lemma KeywordAbsent(s: string, i: nat, kw: string)
    requires i <= |s| && IsWord(kw)
    requires SkipWord(s, i) < |s| && !IsSpace(s[SkipWord(s, i)])
    ensures KeywordSpace(s, i, kw) == None
  {
    var n := SkipWord(s, i);
    if HasAt(s, i, kw) && i + |kw| < |s| {
      assert forall k :: i <= k < i + |kw| ==> s[k] == kw[k - i];
    }
  }

  /** The keywords of the function patterns are words */
  lemma KeywordsAreWords()
    ensures IsWord("export") && IsWord("async") && IsWord("function")
    ensures IsWord("const") && IsWord("let") && IsWord("var")
  {
  }

  /** The name of a signature at `|pre|` is the word there */
  lemma {:induction false} CallName(pre: string, name: string, params: string, ret: string)
    requires CallParts(name, params, ret)
    ensures var s := pre + CallText(name, params, ret);
      var n := |pre| + |name|;
      && n < |s| && SkipWord(s, |pre|) == n && s[|pre|..n] == name && SkipSpaces(s, n) == n
  {
    var s := pre + CallText(name, params, ret);
    var j, n := |pre|, |pre| + |name|;
    assert forall k :: j <= k < n ==> s[k] == name[k - j];
    assert s[n] == '(';
    SkipWordAt(s, j, n);
    SkipSpacesAt(s, n, n);
    assert s[j..n] == name;
  }

  /** ... where the pieces below are read, `n` after the name and `b` at the `)` */
  lemma CallNameAt(pre: string, name: string, params: string, ret: string, s: string, n: nat)
    requires CallParts(name, params, ret)
    requires s == pre + CallText(name, params, ret) && n == |pre| + |name|
    ensures n < |s| && SkipWord(s, |pre|) == n && s[|pre|..n] == name && SkipSpaces(s, n) == n
  {
    CallName(pre, name, params, ret);
  }

  /** ... followed by the parameter list and the colon */
  lemma {:induction false} CallParams(pre: string, name: string, params: string, ret: string,
                                      s: string, n: nat, b: nat)
    requires CallParts(name, params, ret)
    requires s == pre + CallText(name, params, ret) && n == |pre| + |name| && b == n + 1 + |params|
    ensures b + 3 < |s| && ParenColon(s, n) == Some((Span(n + 1, b), b + 2)) && s[n + 1..b] == params
  {
    assert s[n] == '(' && s[b] == ')' && s[b + 1] == ':';
    assert forall k :: n + 1 <= k < b ==> s[k] == params[k - n - 1];
    SkipUntilAt(s, n + 1, b, {')'});
    SkipSpacesAt(s, b + 1, b + 1);
    assert s[n + 1..b] == params;
  }

  /** The rest of a signature: the return type runs to the end of the line */
  lemma {:induction false} CallTail(pre: string, name: string, params: string, ret: string,
                                    s: string, b: nat)
    requires CallParts(name, params, ret)
    requires s == pre + CallText(name, params, ret) && b == |pre| + |name| + 1 + |params|
    ensures b + 3 < |s| && SpacedRun(s, b + 2, {'{'}) == Some(Span(b + 3, |s|)) && s[b + 3..|s|] == ret
  {
    var c := b + 2;
    assert s[c] == ' ';
    assert forall k :: c + 1 <= k < |s| ==> s[k] == ret[k - c - 1];
    SkipSpacesAt(s, c, c + 1);
    SkipUntilAt(s, c + 1, |s|, {'{'});
    assert s[c + 1..|s|] == ret;
  }

  /** The parameters and the return type, read from where the parts were found */
  lemma ParamsReturnAt(s: string, n: nat, b: nat, params: string, ret: string)
    requires n + 1 <= b && b + 3 < |s|
    requires ParenColon(s, n) == Some((Span(n + 1, b), b + 2)) && s[n + 1..b] == params
    requires SpacedRun(s, b + 2, {'{'}) == Some(Span(b + 3, |s|)) && s[b + 3..|s|] == ret
    ensures ParamsReturn(s, n, {'{'}) == Some(([Some(params), Some(ret)], |s|))
  {
  }

  /** The name in front of them */
  lemma CallCoreAt(s: string, j: nat, n: nat, name: string, g: seq<Option<string>>)
    requires j < n <= |s| && |g| == 2
    requires SkipWord(s, j) == n && SkipSpaces(s, n) == n && s[j..n] == name
    requires ParamsReturn(s, n, {'{'}) == Some((g, |s|))
    ensures CallCore(s, j) == Some(([Some(name), g[0], g[1]], |s|))
  {
  }

  /** `(\w+)\s*\(([^)]*)\)\s*:\s*([^{]+)` reads a signature's name, parameters and return
      type, up to the end of the line */
  lemma {:induction false} CallCoreReads(pre: string, name: string, params: string, ret: string)
    requires CallParts(name, params, ret)
    ensures var s := pre + CallText(name, params, ret);
      CallCore(s, |pre|) == Some(([Some(name), Some(params), Some(ret)], |s|))
  {
    var s := pre + CallText(name, params, ret);
    var n := |pre| + |name|;
    var b := n + 1 + |params|;
    CallNameAt(pre, name, params, ret, s, n);
    CallParams(pre, name, params, ret, s, n, b);
    CallTail(pre, name, params, ret, s, b);
    ParamsReturnAt(s, n, b, params, ret);
    CallCoreAt(s, |pre|, n, name, [Some(params), Some(ret)]);
  }

  // ---------------------------------------------------------------------------------
  // Regular function declarations

  /** `export ` when the declaration is exported */
  function ExportText(exported: bool): string
  {
    if exported then "export " else ""
  }

  /** The words in front of a regular function's signature */
  function RegularHead(exported: bool): string
  {
    ExportText(exported) + "function "
  }

  /** A one-line declaration `[export ]function name(params): ret` */
  function RegularLine(exported: bool, name: string, params: string, ret: string): string
  {
    RegularHead(exported) + CallText(name, params, ret)
  }

  /** `kw` at `i` followed by one space and a non-space at `h` */
  lemma KeywordRead(s: string, i: nat, kw: string, h: nat)
    requires h == i + |kw| + 1 && h < |s|
    requires HasAt(s, i, kw) && IsSpace(s[i + |kw|]) && !IsSpace(s[h])
    ensures KeywordSpace(s, i, kw) == Some(h)
  {
    SkipSpacesAt(s, i + |kw|, h);
  }

  /** A keyword is absent where its first letter is not */
  lemma KeywordMismatch(s: string, i: nat, kw: string)
    requires i < |s| && kw != "" && s[i] != kw[0]
    ensures KeywordSpace(s, i, kw) == None
  {
    HasAtFirst(s, i, kw);
  }

  /** A literal found in a prefix is found in the whole text */
  lemma PrefixHasAt(a: string, b: string, i: nat, lit: string)
    requires HasAt(a, i, lit)
    ensures HasAt(a + b, i, lit)
  {
    assert (a + b)[i..i + |lit|] == a[i..i + |lit|];
  }

  /** The letters of the two heads of a regular declaration */
  lemma HeadLetters(exported: bool)
    ensures var a := RegularHead(exported);
      var i1 := |ExportText(exported)|;
      && |a| == i1 + 9 && HasAt(a, i1, "function") && a[i1] == 'f' && a[i1 + 8] == ' '
      && (exported ==> HasAt(a, 0, "export") && a[6] == ' ' && a[7] == 'f')
      && (!exported ==> a[0] == 'f')
  {
    if exported {
      assert "export function "[7..15] == "function";
      assert "export function "[..6] == "export";
    } else {
      assert "function "[..8] == "function";
    }
  }

  /** The head of a regular declaration: the optional `export`, no `async`, then `function` */
  lemma {:induction false} RegularHeadReads(exported: bool, rest: string)
    requires rest != "" && IsWordChar(rest[0])
    ensures var s := RegularHead(exported) + rest;
      var i1 := |ExportText(exported)|;
      && ExportPrefix(s) == (if exported then Some(7) else None)
      && KeywordSpace(s, i1, "async") == None
      && KeywordSpace(s, i1, "function") == Some(|RegularHead(exported)|)
  {
    var a := RegularHead(exported);
    var s := a + rest;
    var i1 := |ExportText(exported)|;
    HeadLetters(exported);
    PrefixHasAt(a, rest, i1, "function");
    assert s[i1] == 'f' && s[i1 + 8] == ' ' && s[|a|] == rest[0];
    KeywordRead(s, i1, "function", |a|);
    KeywordMismatch(s, i1, "async");
    if exported {
      PrefixHasAt(a, rest, 0, "export");
      assert s[6] == ' ' && s[7] == 'f';
      KeywordRead(s, 0, "export", 7);
    } else {
      assert s[0] == 'f';
      KeywordMismatch(s, 0, "export");
    }
  }

  /** The regular pattern, from the pieces it finds */
  lemma RegularFunctionAt(s: string, x: Option<nat>, f: nat, g: seq<Option<string>>, e: nat)
    requires x.Some? ==> x.value <= |s|
    requires ExportPrefix(s) == x
    requires KeywordSpace(s, x.GetOr(0), "async") == None
    requires KeywordSpace(s, x.GetOr(0), "function") == Some(f)
    requires f <= |s| && CallCore(s, f) == Some((g, e))
    ensures RegularFunction(s) == Some(RegexMatch(e, [Some(s[..e]), ExportGroup(s, x), None, g[0], g[1], g[2]]))
  {
  }

  /** The pieces the regular pattern finds in a regular declaration */
  lemma {:induction false} RegularLinePieces(exported: bool, name: string, params: string, ret: string,
                                             s: string, x: Option<nat>)
    requires CallParts(name, params, ret)
    requires s == RegularLine(exported, name, params, ret) && x == (if exported then Some(7) else None)
    ensures x.Some? ==> x.value <= |s|
    ensures ExportPrefix(s) == x
    ensures KeywordSpace(s, x.GetOr(0), "async") == None
    ensures KeywordSpace(s, x.GetOr(0), "function") == Some(|RegularHead(exported)|)
    ensures CallCore(s, |RegularHead(exported)|) == Some(([Some(name), Some(params), Some(ret)], |s|))
    ensures ExportGroup(s, x) == (if exported then Some("export ") else None)
  {
    RegularHeadReads(exported, CallText(name, params, ret));
    CallCoreReads(RegularHead(exported), name, params, ret);
    if exported {
      ExportedHeadStart(CallText(name, params, ret));
    }
  }

  /** An exported declaration starts with `export ` */
  lemma ExportedHeadStart(rest: string)
    ensures (RegularHead(true) + rest)[..7] == "export "
  {
    assert RegularHead(true) + rest == "export " + ("function " + rest);
  }

  /** `^(export\s+)?(async\s+)?function\s+(\w+)\s*\(([^)]*)\)\s*:\s*([^{]+)` reads a regular
      declaration's parts: `export ` or nothing, no `async`, the name, the parameter text and
      the return type */
  lemma {:induction false} RegularLineReads(exported: bool, name: string, params: string, ret: string)
    requires CallParts(name, params, ret)
    ensures var s := RegularLine(exported, name, params, ret);
      RegularFunction(s) == Some(RegexMatch(|s|,
        [Some(s), if exported then Some("export ") else None, None, Some(name), Some(params), Some(ret)]))
  {
    var s := RegularLine(exported, name, params, ret);
    var x: Option<nat> := if exported then Some(7) else None;
    RegularLinePieces(exported, name, params, ret, s, x);
    RegularFunctionAt(s, x, |RegularHead(exported)|,
      [Some(name), Some(params), Some(ret)], |s|);
    assert s[..|s|] == s;
  }

  /** A literal found at `i` starts with the character at `i` */
  lemma HasAtFirst(s: string, i: nat, lit: string)
    requires i < |s| && lit != ""
    ensures HasAt(s, i, lit) ==> s[i] == lit[0]
  {
    if HasAt(s, i, lit) {
      assert s[i..i + |lit|][0] == s[i];
    }
  }

  /** A line whose first word after the optional `export` starts with `f` is not an arrow
      function: `const`, `let` and `var` do not start with `f` */
  lemma NotArrowAt(s: string)
    requires var i1 := ExportPrefix(s).GetOr(0); i1 < |s| && s[i1] == 'f'
    ensures ArrowFunction(s) == None
  {
    var i1 := ExportPrefix(s).GetOr(0);
    HasAtFirst(s, i1, "const");
    HasAtFirst(s, i1, "let");
    HasAtFirst(s, i1, "var");
  }

  /** A regular declaration is not an arrow function */
  lemma {:induction false} RegularNotArrow(exported: bool, name: string, params: string, ret: string)
    requires CallParts(name, params, ret)
    ensures ArrowFunction(RegularLine(exported, name, params, ret)) == None
  {
    var s := RegularLine(exported, name, params, ret);
    RegularHeadReads(exported, CallText(name, params, ret));
    assert s[|ExportText(exported)|] == 'f';
    NotArrowAt(s);
  }

  /** ... nor method-like: the first word is followed by a space, not by `(` */
  lemma {:induction false} RegularNotMethodLike(exported: bool, name: string, params: string, ret: string)
    requires CallParts(name, params, ret)
    ensures MethodLikeFunction(RegularLine(exported, name, params, ret)) == None
  {
    var s := RegularLine(exported, name, params, ret);
    var n := if exported then 6 else 8;
    assert s[0] == if exported then 'e' else 'f';
    assert forall k :: 0 <= k < n ==> IsWordChar(s[k]);
    assert s[n] == ' ' && IsWordChar(s[n + 1]);
    SkipWordAt(s, 0, n);
    SkipSpacesAt(s, n, n + 1);
    NotMethodLikeAt(s, n);
  }

  /** A line starting with a word other than `async` that a space and then a word character
      follow is not method-like */
  lemma NotMethodLikeAt(s: string, n: nat)
    requires 0 < n && n + 1 < |s| && !IsSpace(s[0]) && s[0] != 'a'
    requires SkipWord(s, 0) == n && SkipSpaces(s, n) == n + 1 && s[n + 1] != '('
    ensures MethodLikeFunction(s) == None
  {
    SkipSpacesAt(s, 0, 0);
    KeywordMismatch(s, 0, "async");
  }

  lemma {:induction false} RegularLineOneLine(exported: bool, name: string, params: string, ret: string)
    requires CallParts(name, params, ret)
    ensures NoTerminator(RegularLine(exported, name, params, ret))
  {
    var s := RegularLine(exported, name, params, ret);
    var h, n := |RegularHead(exported)|, |RegularHead(exported)| + |name|;
    var b := n + 1 + |params|;
    forall k | 0 <= k < |s|
      ensures !IsLineTerminator(s[k])
    {
      if h <= k < n {
        assert s[k] == name[k - h];
      } else if n < k < b {
        assert s[k] == params[k - n - 1];
      } else if b + 3 <= k {
        assert s[k] == ret[k - b - 3];
      }
    }
  }

  /** A non-blank return type starting with a non-space survives trimming as a non-empty string */
  lemma NonBlankReturn(ret: string)
    requires ret != "" && !IsSpace(ret[0])
    ensures Trim(ret) != ""
  {
    TrimEmpty(ret);
  }

  /** The record the corrected scan makes of a line a pattern recognises */
  lemma FunctionAtRecognised(lines: seq<string>, i: nat, p: Pattern, m: RegexMatch)
    requires i < |lines| && NoTerminator(lines[i]) && Recognise(p, lines[i]) == Some(m)
    ensures FunctionAt(lines, i, p) == Some(FunctionFrom(p, m, lines, i))
  {
    FreshExec(p, lines[i]);
  }

  /** A line holding a regular declaration gives a record from the regular pattern, with the
      declaration's name, parameters, trimmed return type and export flag */
  lemma {:induction false} RegularLineRecord(lines: seq<string>, i: nat, exported: bool, name: string,
                                            params: string, ret: string)
    requires i < |lines| && lines[i] == RegularLine(exported, name, params, ret)
    requires CallParts(name, params, ret)
    ensures FunctionAt(lines, i, Regular) ==
      Some(FunctionInfo(name, ParseParameters(params), Trim(ret), Description(lines, i), i + 1, false, exported))
  {
    RecogniseBy(lines[i]);
    RegularLineOneLine(exported, name, params, ret);
    RegularLineReads(exported, name, params, ret);
    FunctionAtRecognised(lines, i, Regular, RegularGroups(exported, name, params, ret));
    RegularRecord(lines, i, exported, name, params, ret);
  }

  /** The record the regular pattern's own groups give */
  lemma RegularRecord(lines: seq<string>, i: nat, exported: bool, name: string, params: string,
                      ret: string)
    requires i < |lines| && ret != "" && !IsSpace(ret[0])
    ensures FunctionFrom(Regular, RegularGroups(exported, name, params, ret), lines, i) ==
      FunctionInfo(name, ParseParameters(params), Trim(ret), Description(lines, i), i + 1, false, exported)
  {
    NonBlankReturn(ret);
    ExportFlag(exported);
    RegularFromGroups(RegularGroups(exported, name, params, ret), lines, i,
      if exported then Some("export ") else None, name, params, ret);
  }

  /** `match[1]?.includes("export")` on the export group of a regular declaration */
  lemma ExportFlag(exported: bool)
    ensures GroupIncludes(if exported then Some("export ") else None, "export") == exported
  {
    if exported {
      assert OccursAt("export ", "export", 0);
    }
  }

  /** The corrected record of any match whose groups 1 to 5 are those of a regular
      declaration */
  lemma RegularFromGroups(m: RegexMatch, lines: seq<string>, i: nat, e: Option<string>, name: string,
                          params: string, ret: string)
    requires i < |lines| && Trim(ret) != ""
    requires |m.groups| == 6 && m.groups[1] == e && m.groups[2] == None
    requires m.groups[3] == Some(name) && m.groups[4] == Some(params) && m.groups[5] == Some(ret)
    ensures FunctionFrom(Regular, m, lines, i) ==
      FunctionInfo(name, ParseParameters(params), Trim(ret), Description(lines, i), i + 1, false,
        GroupIncludes(e, "export"))
  {
    var f := FunctionFrom(Regular, m, lines, i);
    assert f.name == name;
    assert f.parameters == ParseParameters(params);
    assert f.returnType == Trim(ret);
    assert !f.isAsync;
    assert f.isExported == GroupIncludes(e, "export");
  }

  /** ... and no record from the other two patterns */
  lemma {:induction false} RegularLineOnly(lines: seq<string>, i: nat, exported: bool, name: string,
                                          params: string, ret: string)
    requires i < |lines| && lines[i] == RegularLine(exported, name, params, ret)
    requires CallParts(name, params, ret)
    ensures FunctionAt(lines, i, Arrow) == None && FunctionAt(lines, i, MethodLike) == None
  {
    RecogniseBy(lines[i]);
    RegularLineOneLine(exported, name, params, ret);
    RegularNotArrow(exported, name, params, ret);
    RegularNotMethodLike(exported, name, params, ret);
  }

  // ---------------------------------------------------------------------------------
  // Method-like lines

  /** Without `export`, `async` or `function` at its start a line is no regular declaration */
  lemma NotRegularAt(s: string)
    requires KeywordSpace(s, 0, "export") == None && KeywordSpace(s, 0, "async") == None
    requires KeywordSpace(s, 0, "function") == None
    ensures RegularFunction(s) == None
  {
  }

  /** Without `export`, `const`, `let` or `var` at its start a line is no arrow function */
  lemma NotArrowAtStart(s: string)
    requires KeywordSpace(s, 0, "export") == None && KeywordSpace(s, 0, "const") == None
    requires KeywordSpace(s, 0, "let") == None && KeywordSpace(s, 0, "var") == None
    ensures ArrowFunction(s) == None
  {
  }

  /** A line whose first word is followed by neither whitespace nor a word character is
      neither a regular nor an arrow function declaration */
  lemma NeitherRegularNorArrow(s: string)
    requires SkipWord(s, 0) < |s| && !IsSpace(s[SkipWord(s, 0)])
    ensures RegularFunction(s) == None && ArrowFunction(s) == None
  {
    RegularKeywordsAbsent(s);
    NotRegularAt(s);
    ArrowKeywordsAbsent(s);
    NotArrowAtStart(s);
  }

  lemma RegularKeywordsAbsent(s: string)
    requires SkipWord(s, 0) < |s| && !IsSpace(s[SkipWord(s, 0)])
    ensures KeywordSpace(s, 0, "export") == None && KeywordSpace(s, 0, "async") == None
    ensures KeywordSpace(s, 0, "function") == None
  {
    KeywordsAreWords();
    KeywordAbsent(s, 0, "export");
    KeywordAbsent(s, 0, "async");
    KeywordAbsent(s, 0, "function");
  }

  lemma ArrowKeywordsAbsent(s: string)
    requires SkipWord(s, 0) < |s| && !IsSpace(s[SkipWord(s, 0)])
    ensures KeywordSpace(s, 0, "const") == None && KeywordSpace(s, 0, "let") == None
    ensures KeywordSpace(s, 0, "var") == None
  {
    KeywordsAreWords();
    KeywordAbsent(s, 0, "const");
    KeywordAbsent(s, 0, "let");
    KeywordAbsent(s, 0, "var");
  }

  /** `(async\s+)?` absent in front of a call core */
  lemma AsyncCallAbsent(s: string, j: nat, g: seq<Option<string>>, e: nat)
    requires j <= |s| && |g| == 3 && KeywordSpace(s, j, "async") == None
    requires CallCore(s, j) == Some((g, e))
    ensures AsyncCall(s, j) == Some(([None, g[0], g[1], g[2]], e))
  {
  }

  /** The method-like pattern, from the pieces it finds at the start of a line */
  lemma MethodLikeAt(s: string, g: seq<Option<string>>)
    requires |g| == 4 && SkipSpaces(s, 0) == 0
    requires AsyncCall(s, 0) == Some((g, |s|))
    ensures MethodLikeFunction(s) == Some(RegexMatch(|s|, [Some(s), g[0], g[1], g[2], g[3]]))
  {
    assert s[..|s|] == s;
  }

  /** A bare signature reads as a method-like function: no `async`, then the name, the
      parameter text and the return type */
  lemma {:induction false} MethodLineReads(name: string, params: string, ret: string)
    requires CallParts(name, params, ret)
    ensures var s := CallText(name, params, ret);
      MethodLikeFunction(s) == Some(RegexMatch(|s|, [Some(s), None, Some(name), Some(params), Some(ret)]))
  {
    var s := CallText(name, params, ret);
    MethodLinePieces(name, params, ret);
    AsyncCallAbsent(s, 0, [Some(name), Some(params), Some(ret)], |s|);
    MethodLikeAt(s, [None, Some(name), Some(params), Some(ret)]);
  }

  /** The pieces the method-like pattern finds in a bare signature */
  lemma {:induction false} MethodLinePieces(name: string, params: string, ret: string)
    requires CallParts(name, params, ret)
    ensures var s := CallText(name, params, ret);
      && SkipSpaces(s, 0) == 0 && KeywordSpace(s, 0, "async") == None
      && CallCore(s, 0) == Some(([Some(name), Some(params), Some(ret)], |s|))
  {
    var t := "" + CallText(name, params, ret);
    CallName("", name, params, ret);
    CallCoreReads("", name, params, ret);
    var n := SkipWord(t, 0);
    assert !IsSpace(t[n]) by {
      assert SkipSpaces(t, n) == n;
    }
    KeywordsAreWords();
    KeywordAbsent(t, 0, "async");
    assert t[0] == name[0];
    SkipSpacesAt(t, 0, 0);
    assert t == CallText(name, params, ret);
  }

  /** ... and neither as a regular nor as an arrow function: its first word is followed by `(` */
  lemma {:induction false} MethodLineOnly(name: string, params: string, ret: string)
    requires CallParts(name, params, ret)
    ensures var s := CallText(name, params, ret);
      RegularFunction(s) == None && ArrowFunction(s) == None
  {
    var s := CallText(name, params, ret);
    assert "" + s == s;
    CallName("", name, params, ret);
    NeitherRegularNorArrow(s);
  }

  lemma {:induction false} MethodLineOneLine(name: string, params: string, ret: string)
    requires CallParts(name, params, ret)
    ensures NoTerminator(CallText(name, params, ret))
  {
    var s := CallText(name, params, ret);
    var n := |name|;
    var b := n + 1 + |params|;
    forall k | 0 <= k < |s|
      ensures !IsLineTerminator(s[k])
    {
      if k < n {
        assert s[k] == name[k];
      } else if n < k < b {
        assert s[k] == params[k - n - 1];
      } else if b + 3 <= k {
        assert s[k] == ret[k - b - 3];
      }
    }
  }

  // ---------------------------------------------------------------------------------
  // What the two scans make of these lines

  /** The corrected scan's records for a line holding a regular declaration */
  lemma {:induction false} RegularLineFunctions(lines: seq<string>, i: nat, exported: bool, name: string,
                                               params: string, ret: string)
    requires i < |lines| && lines[i] == RegularLine(exported, name, params, ret)
    requires CallParts(name, params, ret)
    ensures LineFunctions(lines, i) ==
      [FunctionInfo(name, ParseParameters(params), Trim(ret), Description(lines, i), i + 1, false, exported)]
  {
    RegularLineRecord(lines, i, exported, name, params, ret);
    RegularLineOnly(lines, i, exported, name, params, ret);
    LineOfThree(lines, i);
  }

  /** A pattern that does not recognise a one-line string finds nothing in it, from whatever
      cursor, and leaves its cursor at 0 */
  lemma TryUnrecognised(lines: seq<string>, i: nat, c: Cursors, p: Pattern)
    requires i < |lines| && NoTerminator(lines[i]) && Recognise(p, lines[i]).None?
    ensures TryAsWritten(lines, i, c, p) == ([], WithCursor(c, p, 0))
  {
    if CursorOf(c, p) == 0 {
      FreshExec(p, lines[i]);
    } else {
      StickyExec(p, lines[i], CursorOf(c, p));
    }
  }

  /** A pattern whose cursor has moved finds nothing in a one-line string and resets */
  lemma TrySticky(lines: seq<string>, i: nat, c: Cursors, p: Pattern)
    requires i < |lines| && NoTerminator(lines[i]) && CursorOf(c, p) > 0
    ensures TryAsWritten(lines, i, c, p) == ([], WithCursor(c, p, 0))
  {
    StickyExec(p, lines[i], CursorOf(c, p));
  }

  /** A pattern at cursor 0 that recognises a one-line string pushes the record of its match
      and moves its cursor to the end of the match */
  lemma TryRecognised(lines: seq<string>, i: nat, c: Cursors, p: Pattern, m: RegexMatch)
    requires i < |lines| && NoTerminator(lines[i]) && Recognise(p, lines[i]) == Some(m)
    requires CursorOf(c, p) == 0
    ensures TryAsWritten(lines, i, c, p) == ([FunctionAsWritten(m, lines, i)], WithCursor(c, p, m.end))
  {
    FreshExec(p, lines[i]);
  }

  /** The groups the regular pattern gives a regular declaration */
  function RegularGroups(exported: bool, name: string, params: string, ret: string): RegexMatch
  {
    var s := RegularLine(exported, name, params, ret);
    RegexMatch(|s|, [Some(s), if exported then Some("export ") else None, None, Some(name), Some(params), Some(ret)])
  }

  /** As written, a line only the regular pattern recognises gives one record when that
      pattern's cursor is at 0, and moves only that cursor */
  lemma LineRegularFresh(lines: seq<string>, i: nat, c: Cursors, m: RegexMatch)
    requires i < |lines| && NoTerminator(lines[i]) && c.regular == 0
    requires Recognise(Regular, lines[i]) == Some(m)
    requires Recognise(Arrow, lines[i]).None? && Recognise(MethodLike, lines[i]).None?
    ensures LineAsWritten(lines, i, c).0 == [FunctionAsWritten(m, lines, i)]
    ensures LineAsWritten(lines, i, c).1 == Cursors(m.end, 0, 0)
  {
    var c1 := Cursors(m.end, c.arrow, c.methodLike);
    var c2 := Cursors(m.end, 0, c.methodLike);
    TryRecognised(lines, i, c, Regular, m);
    TryUnrecognised(lines, i, c1, Arrow);
    TryUnrecognised(lines, i, c2, MethodLike);
    LineOfTries(lines, i, c, [FunctionAsWritten(m, lines, i)], c1, [], c2, [], Cursors(m.end, 0, 0));
  }

  /** A line as written, from what each of the three patterns does on it */
  lemma LineOfTries(lines: seq<string>, i: nat, c: Cursors, a: seq<FunctionInfo>, c1: Cursors,
                    b: seq<FunctionInfo>, c2: Cursors, d: seq<FunctionInfo>, c3: Cursors)
    requires i < |lines|
    requires TryAsWritten(lines, i, c, Regular) == (a, c1)
    requires TryAsWritten(lines, i, c1, Arrow) == (b, c2)
    requires TryAsWritten(lines, i, c2, MethodLike) == (d, c3)
    ensures LineAsWritten(lines, i, c).0 == a + b + d && LineAsWritten(lines, i, c).1 == c3
  {
    LineAsWrittenBy(lines, i, c);
  }

  /** ... and none when that cursor has moved, which it resets */
  lemma LineRegularSticky(lines: seq<string>, i: nat, c: Cursors)
    requires i < |lines| && NoTerminator(lines[i]) && c.regular > 0
    requires Recognise(Arrow, lines[i]).None? && Recognise(MethodLike, lines[i]).None?
    ensures LineAsWritten(lines, i, c).0 == [] && LineAsWritten(lines, i, c).1 == Cursors(0, 0, 0)
  {
    var c1 := Cursors(0, c.arrow, c.methodLike);
    var c2 := Cursors(0, 0, c.methodLike);
    TrySticky(lines, i, c, Regular);
    TryUnrecognised(lines, i, c1, Arrow);
    TryUnrecognised(lines, i, c2, MethodLike);
    LineOfTries(lines, i, c, [], c1, [], c2, [], Cursors(0, 0, 0));
  }

  /** What the three patterns recognise in a line holding a regular declaration */
  lemma {:induction false} RegularLineRecognised(lines: seq<string>, i: nat, exported: bool, name: string,
                                                params: string, ret: string)
    requires i < |lines| && lines[i] == RegularLine(exported, name, params, ret)
    requires CallParts(name, params, ret)
    ensures NoTerminator(lines[i])
    ensures Recognise(Regular, lines[i]) == Some(RegularGroups(exported, name, params, ret))
    ensures Recognise(Arrow, lines[i]).None? && Recognise(MethodLike, lines[i]).None?
  {
    RecogniseBy(lines[i]);
    RegularLineOneLine(exported, name, params, ret);
    RegularLineReads(exported, name, params, ret);
    RegularNotArrow(exported, name, params, ret);
    RegularNotMethodLike(exported, name, params, ret);
  }

  /** As written, a regular declaration searched from cursor 0 gives one record and moves the
      regular pattern's cursor to the end of the line */
  lemma {:induction false} RegularLineAsWritten(lines: seq<string>, i: nat, c: Cursors, exported: bool,
                                               name: string, params: string, ret: string)
    requires i < |lines| && lines[i] == RegularLine(exported, name, params, ret)
    requires CallParts(name, params, ret) && c.regular == 0
    ensures LineAsWritten(lines, i, c).0 == [FunctionAsWritten(RegularGroups(exported, name, params, ret), lines, i)]
    ensures LineAsWritten(lines, i, c).1 == Cursors(|lines[i]|, 0, 0)
  {
    RegularLineRecognised(lines, i, exported, name, params, ret);
    LineRegularFresh(lines, i, c, RegularGroups(exported, name, params, ret));
  }

  /** ... and searched from a moved cursor, none, with every cursor back at 0 */
  lemma {:induction false} RegularLineMissedAsWritten(lines: seq<string>, i: nat, c: Cursors, exported: bool,
                                                     name: string, params: string, ret: string)
    requires i < |lines| && lines[i] == RegularLine(exported, name, params, ret)
    requires CallParts(name, params, ret) && c.regular > 0
    ensures LineAsWritten(lines, i, c).0 == [] && LineAsWritten(lines, i, c).1 == Cursors(0, 0, 0)
  {
    RegularLineRecognised(lines, i, exported, name, params, ret);
    LineRegularSticky(lines, i, c);
  }

  /** The record the scan as written makes of a regular declaration: name, return type, line
      and flags are right; the parameters come from the return type when the parameter list
      is empty, and the description is the walk as written, which ends a JSDoc block in ` /` */
  lemma RegularRecordAsWritten(lines: seq<string>, i: nat, exported: bool, name: string, params: string,
                               ret: string)
    requires i < |lines| && CallParts(name, params, ret)
    ensures FunctionAsWritten(RegularGroups(exported, name, params, ret), lines, i) ==
      FunctionInfo(name, ParseParameters(if params != "" then params else ret), Trim(ret),
        DescriptionAsWritten(lines, i), i + 1, false, exported)
  {
    ExportFlag(exported);
    RegularAsWrittenFromGroups(RegularGroups(exported, name, params, ret), lines, i,
      if exported then Some("export ") else None, name, params, ret);
  }

  /** The record the scan as written makes of any match whose groups 1 to 5 are those of a
      regular declaration */
  lemma RegularAsWrittenFromGroups(m: RegexMatch, lines: seq<string>, i: nat, e: Option<string>,
                                   name: string, params: string, ret: string)
    requires i < |lines| && name != "" && ret != ""
    requires |m.groups| == 6 && m.groups[1..] == [e, None, Some(name), Some(params), Some(ret)]
    ensures FunctionAsWritten(m, lines, i) ==
      FunctionInfo(name, ParseParameters(if params != "" then params else ret), Trim(ret),
        DescriptionAsWritten(lines, i), i + 1, false, GroupIncludes(e, "export"))
  {
    assert m.groups[1] == e && m.groups[2] == None && m.groups[3] == Some(name);
    assert m.groups[4] == Some(params) && m.groups[5] == Some(ret);
  }

  /** The groups the method-like pattern gives a bare signature */
  function MethodGroups(name: string, params: string, ret: string): RegexMatch
  {
    var s := CallText(name, params, ret);
    RegexMatch(|s|, [Some(s), None, Some(name), Some(params), Some(ret)])
  }

  /** What the three patterns recognise in a line holding a bare signature */
  lemma {:induction false} MethodLineRecognised(lines: seq<string>, i: nat, name: string, params: string,
                                               ret: string)
    requires i < |lines| && lines[i] == CallText(name, params, ret)
    requires CallParts(name, params, ret)
    ensures NoTerminator(lines[i])
    ensures Recognise(MethodLike, lines[i]) == Some(MethodGroups(name, params, ret))
    ensures Recognise(Regular, lines[i]).None? && Recognise(Arrow, lines[i]).None?
  {
    RecogniseBy(lines[i]);
    MethodLineOneLine(name, params, ret);
    MethodLineReads(name, params, ret);
    MethodLineOnly(name, params, ret);
  }

  /** The corrected scan's record for a line holding a bare signature */
  lemma {:induction false} MethodLineFunctions(lines: seq<string>, i: nat, name: string, params: string,
                                              ret: string)
    requires i < |lines| && lines[i] == CallText(name, params, ret)
    requires CallParts(name, params, ret)
    ensures LineFunctions(lines, i) ==
      [FunctionInfo(name, ParseParameters(params), Trim(ret), Description(lines, i), i + 1, false, false)]
  {
    MethodLineRecognised(lines, i, name, params, ret);
    FunctionAtRecognised(lines, i, MethodLike, MethodGroups(name, params, ret));
    NonBlankReturn(ret);
    LineOfThree(lines, i);
  }

  /** As written, a line only the method-like pattern recognises gives one record when that
      pattern's cursor is at 0 */
  lemma LineMethodLikeFresh(lines: seq<string>, i: nat, c: Cursors, m: RegexMatch)
    requires i < |lines| && NoTerminator(lines[i]) && c.methodLike == 0
    requires Recognise(MethodLike, lines[i]) == Some(m)
    requires Recognise(Regular, lines[i]).None? && Recognise(Arrow, lines[i]).None?
    ensures LineAsWritten(lines, i, c).0 == [FunctionAsWritten(m, lines, i)]
  {
    var c1 := WithCursor(c, Regular, 0);
    var c2 := WithCursor(c1, Arrow, 0);
    TryUnrecognised(lines, i, c, Regular);
    TryUnrecognised(lines, i, c1, Arrow);
    TryRecognised(lines, i, c2, MethodLike, m);
    LineOfTries(lines, i, c, [], c1, [], c2, [FunctionAsWritten(m, lines, i)], WithCursor(c2, MethodLike, m.end));
  }

  /** The record the scan as written makes of a bare signature: the group it takes for the name
      holds the parameter text, the one it parses as parameters holds the return type, and the
      return type falls back to `void` */
  lemma MethodRecordAsWritten(lines: seq<string>, i: nat, name: string, params: string, ret: string)
    requires i < |lines| && CallParts(name, params, ret) && params != ""
    ensures FunctionAsWritten(MethodGroups(name, params, ret), lines, i) ==
      FunctionInfo(params, ParseParameters(ret), "void", DescriptionAsWritten(lines, i), i + 1, Includes(name, "async"), false)
  {
    assert IsTrimmed("void");
    TrimOfTrimmed("void");
  }

  // ---------------------------------------------------------------------------------
  // A declaration with a declared parameter list

  /** Every character of `s` passes `ok` */
  ghost predicate AllChars(s: string, ok: char -> bool)
  {
    forall k :: 0 <= k < |s| ==> ok(s[k])
  }

  /** Joining keeps a property every character of the parts and of the separator has */
  lemma {:induction false} JoinWithChars(parts: seq<string>, sep: string, ok: char -> bool)
    requires AllChars(sep, ok)
    requires forall j :: 0 <= j < |parts| ==> AllChars(parts[j], ok)
    ensures AllChars(JoinWith(parts, sep), ok)
    decreases |parts|
  {
    if |parts| > 1 {
      JoinWithChars(parts[1..], sep, ok);
      var rest := JoinWith(parts[1..], sep);
      var s := parts[0] + sep + rest;
      assert JoinWith(parts, sep) == s;
      forall k | 0 <= k < |s|
        ensures ok(s[k])
      {
        if k < |parts[0]| {
          assert s[k] == parts[0][k];
        } else if k < |parts[0]| + |sep| {
          assert s[k] == sep[k - |parts[0]|];
        } else {
          assert s[k] == rest[k - |parts[0]| - |sep|];
        }
      }
    }
  }

  /** A parameter list fits on the line and inside the parentheses */
  predicate ListChar(c: char)
  {
    c != ')' && !IsLineTerminator(c)
  }

  /** A declared parameter whose type holds no `)` */
  predicate InParentheses(p: ParameterInfo)
  {
    Declarable(p) && ')' !in p.typeText
  }

  lemma DeclarationChars(p: ParameterInfo)
    requires InParentheses(p)
    ensures AllChars(Declaration(p), ListChar)
  {
    var d := Declaration(p);
    var n := |p.name| + (if p.isOptional then 1 else 0) + 2;
    assert d == TypedText(p.name, p.isOptional, p.typeText);
    forall k | 0 <= k < |d|
      ensures ListChar(d[k])
    {
      if k < |p.name| {
        assert d[k] == p.name[k];
      } else if k >= n {
        assert d[k] == p.typeText[k - n];
      }
    }
  }

  /** The text of a declared parameter list fits inside the parentheses of a signature */
  lemma {:induction false} DeclaredListParts(name: string, ps: seq<ParameterInfo>, ret: string)
    requires IsWord(name) && ret != "" && !IsSpace(ret[0]) && '{' !in ret && NoTerminator(ret)
    requires forall k :: 0 <= k < |ps| ==> InParentheses(ps[k])
    ensures CallParts(name, JoinWith(Declarations(ps), ", "), ret)
  {
    var ds := Declarations(ps);
    var text := JoinWith(ds, ", ");
    forall j | 0 <= j < |ds|
      ensures AllChars(ds[j], ListChar)
    {
      DeclarationChars(ps[j]);
    }
    JoinWithChars(ds, ", ", ListChar);
    assert ')' !in text by {
      forall k | 0 <= k < |text|
        ensures text[k] != ')'
      {
        assert ListChar(text[k]);
      }
    }
  }

  /** An exported one-line declaration with a declared parameter list, alone in a file, gives
      one record: its name, its parameters, its trimmed return type, exported, on line 1 */
  lemma {:induction false} ExportedDeclarationRead(name: string, ps: seq<ParameterInfo>, ret: string)
    requires IsWord(name) && ret != "" && !IsSpace(ret[0]) && '{' !in ret && NoTerminator(ret)
    requires forall k :: 0 <= k < |ps| ==> InParentheses(ps[k])
    ensures var line := RegularLine(true, name, JoinWith(Declarations(ps), ", "), ret);
      ExtractFunctions(line) == [FunctionInfo(name, ps, Trim(ret), "", 1, false, true)]
  {
    var params := JoinWith(Declarations(ps), ", ");
    var line := RegularLine(true, name, params, ret);
    var lines := [line];
    DeclaredListParts(name, ps, ret);
    RegularLineOneLine(true, name, params, ret);
    assert '\n' !in line;
    SplitJoin(lines, '\n');
    RegularLineFunctions(lines, 0, true, name, params, ret);
    assert ScanFrom(lines, 1) == [];
    ParseDeclaredParameters(ps);
    DescriptionAtTop(lines);
  }
}
