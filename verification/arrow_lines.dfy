/** What the arrow-function pattern of CodeAnalyzer.ts:72 reads from a well-formed one-line
    arrow function, and the record each scan of CodeAnalyzer.ts:63-103 makes of it. */
module ArrowLines {
  import opened Wrappers
  import opened Text
  import opened Entities
  import opened Shapes
  import opened Analyzer
  import opened FunctionScan
  import opened FunctionLines

  /** `async ` in front of the parameter list of an async arrow function */
  function AsyncText(isAsync: bool): string
  {
    if isAsync then "async " else ""
  }

  /** The words in front of an arrow function's parameter list: `[export ]kw name = [async ]` */
  function ArrowHeadText(exported: bool, kw: string, name: string, isAsync: bool): string
  {
    ExportText(exported) + kw + " " + name + " = " + AsyncText(isAsync)
  }

  /** The parameter list, the return type and what follows it: `(params): ret rest` */
  function ArrowTail(params: string, ret: string, rest: string): string
  {
    "(" + params + "): " + ret + rest
  }

  /** A one-line arrow function `[export ]kw name = [async ](params): ret rest` */
  function ArrowLine(exported: bool, kw: string, name: string, isAsync: bool, params: string, ret: string,
                     rest: string): string
  {
    ArrowHeadText(exported, kw, name, isAsync) + ArrowTail(params, ret, rest)
  }

  predicate DeclarationKeyword(kw: string)
  {
    kw == "const" || kw == "let" || kw == "var"
  }

  /** A parameter list without `)`, a return type that starts with a non-space and holds no
      `{` or `=`, and after it nothing or the `=>` or `{` that ends it, all on one line */
  predicate TailParts(params: string, ret: string, rest: string)
  {
    && ')' !in params && NoTerminator(params)
    && ret != "" && !IsSpace(ret[0]) && '{' !in ret && '=' !in ret && NoTerminator(ret)
    && (rest == "" || rest[0] == '=' || rest[0] == '{') && NoTerminator(rest)
  }

  /** The parts of an arrow function the pattern reads back */
  predicate ArrowParts(kw: string, name: string, params: string, ret: string, rest: string)
  {
    DeclarationKeyword(kw) && IsWord(name) && TailParts(params, ret, rest)
  }

  // ---------------------------------------------------------------------------------
  // The parameter list and the return type

  /** `\(([^)]*)\)\s*:` reads the parameter list */
  lemma {:induction false} TailParen(pre: string, params: string, ret: string, rest: string, s: string,
                                     a: nat, b: nat)
    requires TailParts(params, ret, rest)
    requires s == pre + ArrowTail(params, ret, rest) && a == |pre| && b == a + 1 + |params|
    ensures b + 3 < |s| && ParenColon(s, a) == Some((Span(a + 1, b), b + 2)) && s[a + 1..b] == params
  {
    assert s[a] == '(' && s[b] == ')' && s[b + 1] == ':';
    assert forall k :: a + 1 <= k < b ==> s[k] == params[k - a - 1];
    SkipUntilAt(s, a + 1, b, {')'});
    SkipSpacesAt(s, b + 1, b + 1);
    assert s[a + 1..b] == params;
  }

  /** `\s*([^{=]+)` after the colon reads the return type, up to what follows it */
  lemma {:induction false} TailReturn(pre: string, params: string, ret: string, rest: string, s: string,
                                      b: nat, e: nat)
    requires TailParts(params, ret, rest)
    requires s == pre + ArrowTail(params, ret, rest) && b == |pre| + 1 + |params| && e == b + 3 + |ret|
    ensures e <= |s| && SpacedRun(s, b + 2, {'{', '='}) == Some(Span(b + 3, e)) && s[b + 3..e] == ret
  {
    var c := b + 2;
    assert s[c] == ' ';
    assert forall k :: c + 1 <= k < e ==> s[k] == ret[k - c - 1];
    assert e < |s| ==> s[e] == rest[0];
    SkipSpacesAt(s, c, c + 1);
    SkipUntilAt(s, c + 1, e, {'{', '='});
    assert s[c + 1..e] == ret;
  }

  /** `\(([^)]*)\)\s*:\s*([^{=]+)` reads the parameter list and the return type */
  lemma {:induction false} TailReads(pre: string, params: string, ret: string, rest: string, s: string, e: nat)
    requires TailParts(params, ret, rest)
    requires s == pre + ArrowTail(params, ret, rest) && e == |pre| + |params| + 4 + |ret|
    ensures e <= |s| && ParamsReturn(s, |pre|, {'{', '='}) == Some(([Some(params), Some(ret)], e))
  {
    var a := |pre|;
    var b := a + 1 + |params|;
    TailParen(pre, params, ret, rest, s, a, b);
    TailReturn(pre, params, ret, rest, s, b, b + 3 + |ret|);
    TailFrom(s, a, b, b + 3 + |ret|, params, ret);
  }

  /** The tail's groups, from the pieces it finds */
  lemma TailFrom(s: string, a: nat, b: nat, e: nat, params: string, ret: string)
    requires a < b && b + 3 < |s| && e <= |s|
    requires ParenColon(s, a) == Some((Span(a + 1, b), b + 2)) && s[a + 1..b] == params
    requires SpacedRun(s, b + 2, {'{', '='}) == Some(Span(b + 3, e)) && s[b + 3..e] == ret
    ensures ParamsReturn(s, a, {'{', '='}) == Some(([Some(params), Some(ret)], e))
  {
  }

  // ---------------------------------------------------------------------------------
  // The words in front of the parameter list

  /** Where the letters of an arrow function's head are in a line `s` that starts with it:
      `export ` when exported, the keyword, a space, the name, ` = `, `async ` when async,
      and the `(` of the parameter list */
  predicate HeadLayout(s: string, exported: bool, kw: string, name: string, isAsync: bool)
  {
    var x := if exported then 7 else 0;
    var v := x + |kw| + 1;
    var n := v + |name|;
    var a := n + 3 + (if isAsync then 6 else 0);
    && a < |s| && s[a] == '('
    && (exported ==> HasAt(s, 0, "export") && s[6] == ' ')
    && HasAt(s, x, kw) && s[x + |kw|] == ' '
    && s[v..n] == name
    && s[n] == ' ' && s[n + 1] == '=' && s[n + 2] == ' '
    && (isAsync ==> HasAt(s, n + 3, "async") && s[n + 8] == ' ')
  }

  /** An arrow function's head in front of a parameter list is laid out so */
  lemma {:induction false} HeadLayoutOf(exported: bool, kw: string, name: string, isAsync: bool, tail: string)
    requires tail != "" && tail[0] == '('
    ensures HeadLayout(ArrowHeadText(exported, kw, name, isAsync) + tail, exported, kw, name, isAsync)
    ensures |ArrowHeadText(exported, kw, name, isAsync)|
      == (if exported then 7 else 0) + |kw| + |name| + 4 + (if isAsync then 6 else 0)
  {
    var h := ArrowHeadText(exported, kw, name, isAsync);
    HeadExportKeyword(exported, kw, name, isAsync, tail, h + tail);
    HeadName(exported, kw, name, isAsync, tail, h + tail);
    HeadAsync(exported, kw, name, isAsync, tail, h + tail);
  }

  /** The head starts with `export ` when exported, and the keyword and a space follow */
  lemma HeadExportKeyword(exported: bool, kw: string, name: string, isAsync: bool, tail: string, s: string)
    requires s == ArrowHeadText(exported, kw, name, isAsync) + tail
    ensures exported ==> HasAt(s, 0, "export") && s[6] == ' '
    ensures var x := if exported then 7 else 0; HasAt(s, x, kw) && s[x + |kw|] == ' '
  {
    var e := ExportText(exported);
    var x := |e|;
    assert s[..x + |kw| + 1] == e + kw + " ";
    assert s[x..x + |kw|] == (e + kw + " ")[x..x + |kw|] == kw;
    if exported {
      assert s[..6] == (e + kw + " ")[..6] == "export";
    }
  }

  /** The name follows the keyword, and ` = ` follows the name */
  lemma HeadName(exported: bool, kw: string, name: string, isAsync: bool, tail: string, s: string)
    requires s == ArrowHeadText(exported, kw, name, isAsync) + tail
    ensures var n := (if exported then 7 else 0) + |kw| + 1 + |name|;
      n + 2 < |s| && s[n - |name|..n] == name && s[n] == ' ' && s[n + 1] == '=' && s[n + 2] == ' '
  {
    var p := ExportText(exported) + kw + " ";
    var n := |p| + |name|;
    assert s[..n + 3] == p + name + " = ";
    assert s[|p|..n] == (p + name + " = ")[|p|..n] == name;
  }

  /** `async ` follows ` = ` when the function is async, and the `(` comes next */
  lemma HeadAsync(exported: bool, kw: string, name: string, isAsync: bool, tail: string, s: string)
    requires tail != "" && tail[0] == '('
    requires s == ArrowHeadText(exported, kw, name, isAsync) + tail
    ensures var n := (if exported then 7 else 0) + |kw| + 1 + |name|;
      && |ArrowHeadText(exported, kw, name, isAsync)| == n + 3 + (if isAsync then 6 else 0)
      && s[n + 3 + (if isAsync then 6 else 0)] == '('
      && (isAsync ==> HasAt(s, n + 3, "async") && s[n + 8] == ' ')
  {
    var p := ExportText(exported) + kw + " " + name + " = ";
    var n := |p| - 3;
    if isAsync {
      assert s[n + 3..n + 8] == (p + "async ")[n + 3..n + 8] == "async";
      assert s[n + 8] == (p + "async ")[n + 8];
    }
  }

  /** The first letter of a literal found at `i` */
  lemma HasAtHead(s: string, i: nat, lit: string)
    requires lit != "" && HasAt(s, i, lit)
    ensures i < |s| && s[i] == lit[0]
  {
    assert s[i..i + |lit|][0] == s[i];
  }

  /** `(export\s+)?` reads `export ` when the function is exported */
  lemma ArrowExport(s: string, exported: bool, kw: string, x: nat)
    requires DeclarationKeyword(kw) && x == (if exported then 7 else 0) && HasAt(s, x, kw)
    requires exported ==> HasAt(s, 0, "export") && s[6] == ' '
    ensures ExportPrefix(s) == (if exported then Some(7) else None)
    ensures exported ==> s[..7] == "export "
  {
    HasAtHead(s, x, kw);
    if exported {
      assert s[7] != ' ';
      KeywordRead(s, 0, "export", 7);
      assert s[..7] == "export ";
    } else {
      KeywordMismatch(s, 0, "export");
    }
  }

  /** `(const|let|var)\s+(\w+)\s*=\s*` reads the keyword and the name */
  lemma ArrowKeywordName(s: string, kw: string, name: string, x: nat, v: nat, n: nat)
    requires DeclarationKeyword(kw) && IsWord(name)
    requires v == x + |kw| + 1 && n == v + |name| && n + 3 < |s|
    requires HasAt(s, x, kw) && s[x + |kw|] == ' ' && s[v..n] == name
    requires s[n] == ' ' && s[n + 1] == '=' && s[n + 2] == ' ' && !IsSpace(s[n + 3])
    ensures (if HasAt(s, x, "const") then "const" else if HasAt(s, x, "let") then "let" else "var") == kw
    ensures KeywordSpace(s, x, kw) == Some(v)
    ensures SkipWord(s, v) == n
    ensures SkipSpaces(s, n) == n + 1 && SkipSpaces(s, n + 2) == n + 3
  {
    KeywordChoice(s, x, kw);
    NameAt(s, v, n, name);
    KeywordRead(s, x, kw, v);
    EqualsAt(s, n);
  }

  /** `\s*=\s*` reads ` = ` in front of a letter that is no space */
  lemma EqualsAt(s: string, n: nat)
    requires n + 3 < |s| && s[n] == ' ' && s[n + 1] == '=' && s[n + 2] == ' ' && !IsSpace(s[n + 3])
    ensures SkipSpaces(s, n) == n + 1 && SkipSpaces(s, n + 2) == n + 3
  {
    SkipSpacesAt(s, n, n + 1);
    SkipSpacesAt(s, n + 2, n + 3);
  }

  /** `(const|let|var)` takes the keyword that is there */
  lemma KeywordChoice(s: string, x: nat, kw: string)
    requires DeclarationKeyword(kw) && HasAt(s, x, kw)
    ensures (if HasAt(s, x, "const") then "const" else if HasAt(s, x, "let") then "let" else "var") == kw
  {
    HasAtHead(s, x, kw);
    HasAtFirst(s, x, "const");
    HasAtFirst(s, x, "let");
  }

  /** `(\w+)` reads a name that a space follows */
  lemma NameAt(s: string, v: nat, n: nat, name: string)
    requires v <= n < |s| && s[v..n] == name && IsWord(name) && s[n] == ' '
    ensures SkipWord(s, v) == n && s[v] == name[0]
  {
    assert forall k :: v <= k < n ==> s[k] == s[v..n][k - v];
    SkipWordAt(s, v, n);
  }

  /** `(async\s+)?` in front of the parameter list reads `async ` when it is there */
  lemma ArrowAsync(s: string, isAsync: bool, a0: nat, a: nat)
    requires a == a0 + (if isAsync then 6 else 0) && a < |s| && s[a] == '('
    requires isAsync ==> HasAt(s, a0, "async") && s[a0 + 5] == ' '
    ensures KeywordSpace(s, a0, "async") == if isAsync then Some(a) else None
    ensures isAsync ==> s[a0..a] == "async "
  {
    if isAsync {
      KeywordRead(s, a0, "async", a0 + 6);
      assert s[a0..a0 + 6] == "async ";
    } else {
      KeywordMismatch(s, a0, "async");
    }
  }

  /** `^(export\s+)?(const|let|var)\s+(\w+)\s*=\s*` reads the export group, the keyword
      and the name, and `(async\s+)?` then reads `async ` when it is there */
  lemma {:induction false} ArrowHeadReads(s: string, exported: bool, kw: string, name: string, isAsync: bool,
                                          x: nat, v: nat, n: nat, a0: nat, a: nat)
    requires HeadLayout(s, exported, kw, name, isAsync) && DeclarationKeyword(kw) && IsWord(name)
    requires x == (if exported then 7 else 0) && v == x + |kw| + 1 && n == v + |name|
    requires a0 == n + 3 && a == a0 + (if isAsync then 6 else 0)
    ensures a < |s|
    ensures ArrowHead(s) == Some(([if exported then Some("export ") else None, Some(kw), Some(name)], a0))
    ensures KeywordSpace(s, a0, "async") == if isAsync then Some(a) else None
    ensures isAsync ==> s[a0..a] == "async "
  {
    if isAsync {
      HasAtHead(s, a0, "async");
    }
    ArrowExport(s, exported, kw, x);
    ArrowKeywordName(s, kw, name, x, v, n);
    ArrowAsync(s, isAsync, a0, a);
    ArrowHeadFrom(s, exported, kw, name, x, v, n, a0);
  }

  /** The arrow head, from the pieces it finds */
  lemma ArrowHeadFrom(s: string, exported: bool, kw: string, name: string, x: nat, v: nat, n: nat, a0: nat)
    requires x == (if exported then 7 else 0) && a0 == n + 3
    requires ExportPrefix(s) == (if exported then Some(7) else None)
    requires exported ==> s[..7] == "export "
    requires n + 3 < |s|
    requires (if HasAt(s, x, "const") then "const" else if HasAt(s, x, "let") then "let" else "var") == kw
    requires KeywordSpace(s, x, kw) == Some(v)
    requires v < n && SkipWord(s, v) == n && s[v..n] == name
    requires SkipSpaces(s, n) == n + 1 && s[n + 1] == '=' && SkipSpaces(s, n + 2) == n + 3
    ensures ArrowHead(s) == Some(([if exported then Some("export ") else None, Some(kw), Some(name)], a0))
  {
    var g := if exported then Some("export ") else None;
    if exported {
      assert ExportPrefix(s).GetOr(0) == x && ExportGroup(s, ExportPrefix(s)) == g;
    } else {
      assert ExportPrefix(s).GetOr(0) == x && ExportGroup(s, ExportPrefix(s)) == g;
    }
    assert Cut(s, Span(v, n)) == Some(name);
    assert ArrowHead(s) == Some(([ExportGroup(s, ExportPrefix(s)), Some(kw), Cut(s, Span(v, n))], SkipSpaces(s, n + 2)));
  }

  // ---------------------------------------------------------------------------------
  // The whole line

  /** The groups the arrow pattern gives an arrow function */
  function ArrowGroups(exported: bool, kw: string, name: string, isAsync: bool, params: string, ret: string,
                       rest: string): RegexMatch
  {
    var s := ArrowLine(exported, kw, name, isAsync, params, ret, rest);
    var e := |s| - |rest|;
    RegexMatch(e, [Some(s[..e]), if exported then Some("export ") else None, Some(kw), Some(name),
      if isAsync then Some("async ") else None, Some(params), Some(ret)])
  }

  /** `^(export\s+)?(const|let|var)\s+(\w+)\s*=\s*(async\s+)?\(([^)]*)\)\s*:\s*([^{=]+)` reads
      an arrow function's parts: `export ` or nothing, the keyword, the name, `async ` or
      nothing, the parameter text and the return type */
  lemma {:induction false} ArrowLineReads(exported: bool, kw: string, name: string, isAsync: bool, params: string,
                                          ret: string, rest: string)
    requires ArrowParts(kw, name, params, ret, rest)
    ensures ArrowFunction(ArrowLine(exported, kw, name, isAsync, params, ret, rest))
      == Some(ArrowGroups(exported, kw, name, isAsync, params, ret, rest))
  {
    var h := ArrowHeadText(exported, kw, name, isAsync);
    var tail := ArrowTail(params, ret, rest);
    var s := ArrowLine(exported, kw, name, isAsync, params, ret, rest);
    var x: nat := if exported then 7 else 0;
    var n: nat := x + |kw| + 1 + |name|;
    var a0: nat := n + 3;
    var e: nat := |h| + |params| + 4 + |ret|;
    var g1: Option<string> := if exported then Some("export ") else None;
    assert s == h + tail && tail[0] == '(';
    HeadReadsOf(exported, kw, name, isAsync, tail, s, x, n, a0, |h|);
    TailReads(h, params, ret, rest, s, e);
    LineFrom(s, g1, Some(kw), Some(name), a0, isAsync, |h|, params, ret, e);
    GroupsOfLine(exported, kw, name, isAsync, params, ret, rest, s, e);
  }

  /** The groups, read off the line */
  lemma GroupsOfLine(exported: bool, kw: string, name: string, isAsync: bool, params: string, ret: string,
                     rest: string, s: string, e: nat)
    requires s == ArrowLine(exported, kw, name, isAsync, params, ret, rest)
    requires e == |ArrowHeadText(exported, kw, name, isAsync)| + |params| + 4 + |ret|
    ensures e == |s| - |rest|
    ensures ArrowGroups(exported, kw, name, isAsync, params, ret, rest) ==
      RegexMatch(e, [Some(s[..e]), if exported then Some("export ") else None, Some(kw), Some(name),
        if isAsync then Some("async ") else None, Some(params), Some(ret)])
  {
  }

  /** What the head of an arrow function reads as, in front of its parameter list */
  lemma {:induction false} HeadReadsOf(exported: bool, kw: string, name: string, isAsync: bool, tail: string,
                                       s: string, x: nat, n: nat, a0: nat, a: nat)
    requires DeclarationKeyword(kw) && IsWord(name) && tail != "" && tail[0] == '('
    requires s == ArrowHeadText(exported, kw, name, isAsync) + tail
    requires x == (if exported then 7 else 0) && n == x + |kw| + 1 + |name|
    requires a0 == n + 3 && a == a0 + (if isAsync then 6 else 0)
    ensures a == |ArrowHeadText(exported, kw, name, isAsync)| < |s|
    ensures ArrowHead(s) == Some(([if exported then Some("export ") else None, Some(kw), Some(name)], a0))
    ensures KeywordSpace(s, a0, "async") == if isAsync then Some(a) else None
    ensures isAsync ==> s[a0..a] == "async "
  {
    HeadLayoutOf(exported, kw, name, isAsync, tail);
    ArrowHeadReads(s, exported, kw, name, isAsync, x, x + |kw| + 1, n, a0, a);
  }

  /** The arrow pattern on a line whose head and tail read as found */
  lemma LineFrom(s: string, g1: Option<string>, g2: Option<string>, g3: Option<string>, a0: nat, isAsync: bool,
                 a: nat, params: string, ret: string, e: nat)
    requires a0 <= a <= e <= |s|
    requires ArrowHead(s) == Some(([g1, g2, g3], a0))
    requires KeywordSpace(s, a0, "async") == if isAsync then Some(a) else None
    requires !isAsync ==> a == a0
    requires isAsync ==> s[a0..a] == "async "
    requires ParamsReturn(s, a, {'{', '='}) == Some(([Some(params), Some(ret)], e))
    ensures ArrowFunction(s) == Some(RegexMatch(e, [Some(s[..e]), g1, g2, g3,
      if isAsync then Some("async ") else None, Some(params), Some(ret)]))
  {
    ArrowFrom(s, g1, g2, g3, a0, isAsync, a, [Some(params), Some(ret)], e);
  }

  /** The arrow pattern, from the pieces it finds */
  lemma ArrowFrom(s: string, g1: Option<string>, g2: Option<string>, g3: Option<string>, a0: nat, isAsync: bool,
                  a: nat, g: seq<Option<string>>, e: nat)
    requires |g| == 2 && a0 <= a <= |s| && e <= |s|
    requires ArrowHead(s) == Some(([g1, g2, g3], a0))
    requires KeywordSpace(s, a0, "async") == if isAsync then Some(a) else None
    requires !isAsync ==> a == a0
    requires isAsync ==> s[a0..a] == "async "
    requires ParamsReturn(s, a, {'{', '='}) == Some((g, e))
    ensures ArrowFunction(s) == Some(RegexMatch(e, [Some(s[..e]), g1, g2, g3,
      if isAsync then Some("async ") else None, g[0], g[1]]))
  {
  }

  /** ... and no regular declaration: the word after the optional `export` is not `async` or
      `function` */
  lemma {:induction false} ArrowNotRegular(s: string, exported: bool, kw: string, name: string, isAsync: bool)
    requires HeadLayout(s, exported, kw, name, isAsync) && DeclarationKeyword(kw)
    ensures RegularFunction(s) == None
  {
    var x := if exported then 7 else 0;
    ArrowExport(s, exported, kw, x);
    HasAtHead(s, x, kw);
    KeywordMismatch(s, x, "async");
    KeywordMismatch(s, x, "function");
  }

  /** ... nor method-like: the first word is followed by a space and a word character */
  lemma {:induction false} ArrowNotMethodLike(s: string, exported: bool, kw: string, name: string, isAsync: bool)
    requires HeadLayout(s, exported, kw, name, isAsync) && DeclarationKeyword(kw) && IsWord(name)
    ensures MethodLikeFunction(s) == None
  {
    var x := if exported then 7 else 0;
    var v := x + |kw| + 1;
    KeywordsAreWords();
    HasAtHead(s, x, kw);
    if exported {
      WordAt(s, 0, "export");
      NotMethodLikeAt(s, 6);
    } else {
      WordAt(s, 0, kw);
      assert s[v] == s[v..v + |name|][0] == name[0];
      SkipSpacesAt(s, |kw|, v);
      NotMethodLikeAt(s, |kw|);
    }
  }

  /** A word found at `i` and followed by a space is what `\w+` reads there */
  lemma WordAt(s: string, i: nat, w: string)
    requires IsWord(w) && HasAt(s, i, w) && i + |w| < |s| && s[i + |w|] == ' '
    ensures SkipWord(s, i) == i + |w|
  {
    assert forall k :: i <= k < i + |w| ==> s[k] == s[i..i + |w|][k - i];
    SkipWordAt(s, i, i + |w|);
  }

  /** Joining keeps lines whole */
  lemma NoTerminatorJoin(a: string, b: string)
    requires NoTerminator(a) && NoTerminator(b)
    ensures NoTerminator(a + b)
  {
    forall k | 0 <= k < |a + b|
      ensures !IsLineTerminator((a + b)[k])
    {
      if k >= |a| {
        assert (a + b)[k] == b[k - |a|];
      }
    }
  }

  lemma WordOneLine(w: string)
    requires IsWord(w)
    ensures NoTerminator(w)
  {
  }

  /** An arrow function written on one line has no line terminator in it */
  lemma {:induction false} ArrowLineOneLine(exported: bool, kw: string, name: string, isAsync: bool, params: string,
                                            ret: string, rest: string)
    requires ArrowParts(kw, name, params, ret, rest)
    ensures NoTerminator(ArrowLine(exported, kw, name, isAsync, params, ret, rest))
  {
    KeywordsAreWords();
    WordOneLine(kw);
    WordOneLine(name);
    assert NoTerminator(ExportText(exported)) && NoTerminator(" ") && NoTerminator(" = ");
    assert NoTerminator(AsyncText(isAsync)) && NoTerminator("(") && NoTerminator("): ");
    NoTerminatorJoin(ExportText(exported), kw);
    NoTerminatorJoin(ExportText(exported) + kw, " ");
    NoTerminatorJoin(ExportText(exported) + kw + " ", name);
    NoTerminatorJoin(ExportText(exported) + kw + " " + name, " = ");
    NoTerminatorJoin(ExportText(exported) + kw + " " + name + " = ", AsyncText(isAsync));
    NoTerminatorJoin("(", params);
    NoTerminatorJoin("(" + params, "): ");
    NoTerminatorJoin("(" + params + "): ", ret);
    NoTerminatorJoin("(" + params + "): " + ret, rest);
    NoTerminatorJoin(ArrowHeadText(exported, kw, name, isAsync), ArrowTail(params, ret, rest));
  }

  /** What the three patterns recognise in a line holding an arrow function */
  lemma {:induction false} ArrowLineRecognised(lines: seq<string>, i: nat, exported: bool, kw: string, name: string,
                                               isAsync: bool, params: string, ret: string, rest: string)
    requires i < |lines| && lines[i] == ArrowLine(exported, kw, name, isAsync, params, ret, rest)
    requires ArrowParts(kw, name, params, ret, rest)
    ensures NoTerminator(lines[i])
    ensures Recognise(Arrow, lines[i]) == Some(ArrowGroups(exported, kw, name, isAsync, params, ret, rest))
    ensures Recognise(Regular, lines[i]).None? && Recognise(MethodLike, lines[i]).None?
  {
    var tail := ArrowTail(params, ret, rest);
    RecogniseBy(lines[i]);
    ArrowLineOneLine(exported, kw, name, isAsync, params, ret, rest);
    ArrowLineReads(exported, kw, name, isAsync, params, ret, rest);
    HeadLayoutOf(exported, kw, name, isAsync, tail);
    ArrowNotRegular(lines[i], exported, kw, name, isAsync);
    ArrowNotMethodLike(lines[i], exported, kw, name, isAsync);
  }

  // ---------------------------------------------------------------------------------
  // The records

  /** `match[k]?.includes("async")` on a group holding a declaration keyword is false */
  lemma KeywordNotAsync(kw: string)
    requires DeclarationKeyword(kw)
    ensures !GroupIncludes(Some(kw), "async")
  {
    forall i: nat | i + 5 <= |kw|
      ensures !OccursAt(kw, "async", i)
    {
      assert kw == "const" && i == 0;
      assert kw[i..i + 5][0] == 'c';
    }
  }

  /** ... and on the `async` group it is true exactly when the group is there */
  lemma AsyncFlag(isAsync: bool)
    ensures GroupIncludes(if isAsync then Some("async ") else None, "async") == isAsync
  {
    if isAsync {
      assert OccursAt("async ", "async", 0);
    }
  }

  /** The record the corrected scan makes of an arrow function: its name, its parameters, its
      trimmed return type, whether it is async and whether it is exported */
  lemma ArrowRecord(lines: seq<string>, i: nat, exported: bool, kw: string, name: string, isAsync: bool,
                    params: string, ret: string, rest: string)
    requires i < |lines| && ArrowParts(kw, name, params, ret, rest)
    ensures FunctionFrom(Arrow, ArrowGroups(exported, kw, name, isAsync, params, ret, rest), lines, i) ==
      FunctionInfo(name, ParseParameters(params), Trim(ret), Description(lines, i), i + 1, isAsync, exported)
  {
    NonBlankReturn(ret);
    ExportFlag(exported);
    AsyncFlag(isAsync);
  }

  /** The record the scan as written makes of an arrow function. It reads groups 1 to 6 as if
      they were the regular pattern's: the name survives, but the `async` flag is read from
      the keyword group and is always false, the parameters come from the `async` group when
      it is there, the return type is the parameter text unless that is empty, and the
      description is the walk as written */
  lemma ArrowRecordAsWritten(lines: seq<string>, i: nat, exported: bool, kw: string, name: string, isAsync: bool,
                             params: string, ret: string, rest: string)
    requires i < |lines| && ArrowParts(kw, name, params, ret, rest)
    ensures FunctionAsWritten(ArrowGroups(exported, kw, name, isAsync, params, ret, rest), lines, i) ==
      FunctionInfo(name, ParseParameters(if isAsync then "async " else params),
        Trim(if params != "" then params else ret), DescriptionAsWritten(lines, i), i + 1, false, exported)
  {
    ExportFlag(exported);
    KeywordNotAsync(kw);
  }

  /** The corrected scan's record for a line holding an arrow function */
  lemma {:induction false} ArrowLineFunctions(lines: seq<string>, i: nat, exported: bool, kw: string, name: string,
                                              isAsync: bool, params: string, ret: string, rest: string)
    requires i < |lines| && lines[i] == ArrowLine(exported, kw, name, isAsync, params, ret, rest)
    requires ArrowParts(kw, name, params, ret, rest)
    ensures LineFunctions(lines, i) ==
      [FunctionInfo(name, ParseParameters(params), Trim(ret), Description(lines, i), i + 1, isAsync, exported)]
  {
    var m := ArrowGroups(exported, kw, name, isAsync, params, ret, rest);
    ArrowLineRecognised(lines, i, exported, kw, name, isAsync, params, ret, rest);
    FunctionAtRecognised(lines, i, Arrow, m);
    ArrowRecord(lines, i, exported, kw, name, isAsync, params, ret, rest);
    LineOfThree(lines, i);
  }

  /** As written, a line only the arrow pattern recognises gives one record when that
      pattern's cursor is at 0 */
  lemma LineArrowFresh(lines: seq<string>, i: nat, c: Cursors, m: RegexMatch)
    requires i < |lines| && NoTerminator(lines[i]) && c.arrow == 0
    requires Recognise(Arrow, lines[i]) == Some(m)
    requires Recognise(Regular, lines[i]).None? && Recognise(MethodLike, lines[i]).None?
    ensures LineAsWritten(lines, i, c).0 == [FunctionAsWritten(m, lines, i)]
  {
    var c1 := WithCursor(c, Regular, 0);
    var c2 := WithCursor(c1, Arrow, m.end);
    TryUnrecognised(lines, i, c, Regular);
    TryRecognised(lines, i, c1, Arrow, m);
    TryUnrecognised(lines, i, c2, MethodLike);
    LineOfTries(lines, i, c, [], c1, [FunctionAsWritten(m, lines, i)], c2, [], WithCursor(c2, MethodLike, 0));
  }

  /** The scan as written on a line holding an arrow function, from cursor 0 */
  lemma {:induction false} ArrowLineAsWritten(lines: seq<string>, i: nat, c: Cursors, exported: bool, kw: string,
                                              name: string, isAsync: bool, params: string, ret: string, rest: string)
    requires i < |lines| && lines[i] == ArrowLine(exported, kw, name, isAsync, params, ret, rest)
    requires ArrowParts(kw, name, params, ret, rest) && c.arrow == 0
    ensures LineAsWritten(lines, i, c).0 ==
      [FunctionInfo(name, ParseParameters(if isAsync then "async " else params),
        Trim(if params != "" then params else ret), DescriptionAsWritten(lines, i), i + 1, false, exported)]
  {
    var m := ArrowGroups(exported, kw, name, isAsync, params, ret, rest);
    ArrowLineRecognised(lines, i, exported, kw, name, isAsync, params, ret, rest);
    LineArrowFresh(lines, i, c, m);
    ArrowRecordAsWritten(lines, i, exported, kw, name, isAsync, params, ret, rest);
  }

  /** The parameter list `async ` parses as one parameter named `async` of type `any` */
  lemma AsyncParsed()
    ensures ParseParameters("async ") == [ParameterInfo("async", "any", "", false)]
  {
    AsyncTrimmed();
    AsyncSplit();
    AsyncUntyped();
  }

  lemma AsyncTrimmed()
    ensures Trim("async ") == "async"
  {
    assert "async " == "" + "async" + " ";
    TrimPadded("", "async", " ");
  }

  lemma AsyncSplit()
    ensures Split("async ", ',') == ["async "]
  {
    assert JoinWith(["async "], [',']) == "async ";
    SplitJoin(["async "], ',');
  }

  lemma AsyncUntyped()
    ensures TypedParameter("async") == None
  {
    SkipWordAt("async", 0, 5);
  }
}
