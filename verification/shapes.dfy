/** Hand-written recognisers for the regular expressions of src/core/CodeAnalyzer.ts.
    Each recogniser tries its pattern anchored at index 0 of the string it is given and
    returns what JavaScript's `exec` returns: the match length and the array of capture
    groups (`groups[0]` is the whole match, an absent group is None).

    The patterns are read with JavaScript's backtracking semantics. For these patterns the
    quantifiers are deterministic except in two places, which the recognisers reproduce:
    an optional keyword group (`(async\s+)?`, `(private\s+|...)?`, `(static\s+)?`,
    `(readonly\s+)?`) directly followed by `\w+` is first tried present and, if the rest
    then fails, absent (so `async (x): T` has the name `async`); and a greedy `\s*` in front
    of a non-empty run class gives back one whitespace character when the run would
    otherwise be empty (so `): {` captures a single space as the return type). */
module Shapes {
  import opened Wrappers
  import opened Text

  datatype Span = Span(start: nat, end: nat)

  datatype RegexMatch = RegexMatch(end: nat, groups: seq<Option<string>>)

  /** `match[k]`, undefined beyond the groups the pattern has */
  function Group(m: RegexMatch, k: nat): Option<string>
  {
    if k < |m.groups| then m.groups[k] else None
  }

  /** A match of a pattern with `n` groups, taken at the start of `s` */
  predicate MatchOf(s: string, m: RegexMatch, n: nat)
  {
    && m.end <= |s|
    && |m.groups| == n + 1
    && m.groups[0] == Some(s[..m.end])
  }

  function Cut(s: string, sp: Span): Option<string>
    requires sp.start <= sp.end <= |s|
  {
    Some(s[sp.start..sp.end])
  }

  predicate ValidSpan(s: string, sp: Span)
  {
    sp.start <= sp.end <= |s|
  }

  const Terminators: set<char> := {'\n', '\r', '\U{2028}', '\U{2029}'}

  lemma TerminatorsAreLineTerminators(c: char)
    ensures c in Terminators <==> IsLineTerminator(c)
  {
  }

  // ---------------------------------------------------------------------------------
  // Pattern fragments

  /** `kw\s+` at `i`: the index after the keyword and its whole whitespace run */
  function KeywordSpace(s: string, i: nat, kw: string): (r: Option<nat>)
    requires i <= |s|
    ensures r.Some? ==> i + |kw| < r.value <= |s|
  {
    if HasAt(s, i, kw) && i + |kw| < |s| && IsSpace(s[i + |kw|])
    then Some(SkipSpaces(s, i + |kw|))
    else None
  }

  /** `\s*([^stops]+)` at `i`, with nothing required after it */
  function SpacedRun(s: string, i: nat, stops: set<char>): (r: Option<Span>)
    requires i <= |s|
    requires stops <= {'{', '='}
    ensures r.Some? ==> i <= r.value.start < r.value.end <= |s|
    ensures r.Some? ==> forall k :: r.value.start <= k < r.value.end ==> s[k] !in stops
    ensures r.Some? ==> r.value.end == |s| || s[r.value.end] in stops
  {
    var d := SkipSpaces(s, i);
    var e := SkipUntil(s, d, stops);
    if d < e then Some(Span(d, e))
    else if i < d then Some(Span(d - 1, SkipUntil(s, d - 1, stops)))
    else None
  }

  /** `\s*(.+)` followed by `;?$` or `$` at `i`: `.` refuses line terminators and the
      greedy `.+` also takes a final `;` */
  function DotRest(s: string, i: nat): (r: Option<Span>)
    requires i <= |s|
    ensures r.Some? ==> i <= r.value.start < r.value.end == |s|
    ensures r.Some? ==> forall k :: r.value.start <= k < |s| ==> !IsLineTerminator(s[k])
  {
    var d := SkipSpaces(s, i);
    if d < |s| then
      if SkipUntil(s, d, Terminators) == |s| then Some(Span(d, |s|)) else None
    else if i < d && !IsLineTerminator(s[d - 1]) then Some(Span(d - 1, |s|))
    else None
  }

  /** `\s*([^;]+);?$` at `i` */
  function SemiTail(s: string, i: nat): (r: Option<Span>)
    requires i <= |s|
    ensures r.Some? ==> i <= r.value.start < r.value.end <= |s|
    ensures r.Some? ==> forall k :: r.value.start <= k < r.value.end ==> s[k] != ';'
    ensures r.Some? ==> r.value.end == |s| || (s[r.value.end] == ';' && r.value.end + 1 == |s|)
  {
    var d := SkipSpaces(s, i);
    var e := SkipUntil(s, d, {';'});
    if !(e == |s| || e + 1 == |s|) then None
    else if d < e then Some(Span(d, e))
    else if i < d then Some(Span(d - 1, e))
    else None
  }

  /** `\s*([^=;]+)(?:\s*=\s*[^;]+)?;?$` at `i`: a class property's type, an optional
      initialiser, an optional final `;` */
  function PropertyTail(s: string, i: nat): (r: Option<Span>)
    requires i <= |s|
    ensures r.Some? ==> i <= r.value.start < r.value.end <= |s|
    ensures r.Some? ==> forall k :: r.value.start <= k < r.value.end ==> s[k] != '=' && s[k] != ';'
  {
    var d := SkipSpaces(s, i);
    var q := SkipUntil(s, d, {'=', ';'});
    var tailOk := q == |s| || (s[q] == ';' && q + 1 == |s|) || (s[q] == '=' && SemiTail(s, q + 1).Some?);
    if !tailOk then None
    else if d < q then Some(Span(d, q))
    else if i < d then Some(Span(d - 1, q))
    else None
  }

  /** `\(([^)]*)\)\s*:` at `a`: the parameter text and the index just after the colon */
  function ParenColon(s: string, a: nat): (r: Option<(Span, nat)>)
    requires a <= |s|
    ensures r.Some? ==> a < r.value.0.start <= r.value.0.end < r.value.1 <= |s|
    ensures r.Some? ==> r.value.0.start == a + 1 && s[a] == '(' && s[r.value.0.end] == ')'
    ensures r.Some? ==> s[r.value.1 - 1] == ':'
    ensures r.Some? ==> forall k :: r.value.0.start <= k < r.value.0.end ==> s[k] != ')'
  {
    if a == |s| || s[a] != '(' then None
    else
      var b := SkipUntil(s, a + 1, {')'});
      if b == |s| then None
      else
        var c := SkipSpaces(s, b + 1);
        if c == |s| || s[c] != ':' then None
        else Some((Span(a + 1, b), c + 1))
  }

  /** `\s+kw\s+([^{]+)\s*{` at `i`: a class `implements` or interface `extends` list and
      the index of the opening brace */
  function ListClause(s: string, i: nat, kw: string): (r: Option<(Span, nat)>)
    requires i <= |s|
    ensures r.Some? ==> i < r.value.0.start < r.value.0.end == r.value.1 < |s|
    ensures r.Some? ==> s[r.value.1] == '{'
    ensures r.Some? ==> forall k :: r.value.0.start <= k < r.value.0.end ==> s[k] != '{'
  {
    var sp := SkipSpaces(s, i);
    if sp == i then None
    else
      match KeywordSpace(s, sp, kw)
      case None => None
      case Some(k) =>
        var e := SkipUntil(s, k, {'{'});
        if e == |s| then None
        else if k < e then Some((Span(k, e), e))
        else if sp + |kw| + 1 < k then Some((Span(k - 1, e), e))
        else None
  }

  /** `(export\s+)?` at 0: the group's end (0 when absent). A line starting with `export`
      and whitespace cannot match any of these patterns with the group absent, since the
      next fragment starts with another letter. */
  function ExportPrefix(s: string): (r: Option<nat>)
    ensures r.Some? ==> 0 < r.value <= |s|
  {
    KeywordSpace(s, 0, "export")
  }

  function ExportGroup(s: string, x: Option<nat>): Option<string>
    requires x.Some? ==> x.value <= |s|
  {
    if x.Some? then Some(s[..x.value]) else None
  }

  // ---------------------------------------------------------------------------------
  // Top-level declarations (CodeAnalyzer.ts:70-72, 111, 157, 201)

  /** `\(([^)]*)\)\s*:\s*([^stops]+)` at `a`: groups parameters, return type */
  function ParamsReturn(s: string, a: nat, stops: set<char>): (r: Option<(seq<Option<string>>, nat)>)
    requires a <= |s|
    requires stops <= {'{', '='}
    ensures r.Some? ==> a < r.value.1 <= |s| && |r.value.0| == 2
  {
    match ParenColon(s, a)
    case None => None
    case Some((p, c)) =>
      match SpacedRun(s, c, stops)
      case None => None
      case Some(ret) => Some(([Cut(s, p), Cut(s, ret)], ret.end))
  }

  /** `(\w+)\s*\(([^)]*)\)\s*:\s*([^{]+)` at `j`: groups name, parameters, return type */
  function CallCore(s: string, j: nat): (r: Option<(seq<Option<string>>, nat)>)
    requires j <= |s|
    ensures r.Some? ==> j < r.value.1 <= |s| && |r.value.0| == 3
  {
    var n := SkipWord(s, j);
    if n == j then None
    else
      match ParamsReturn(s, SkipSpaces(s, n), {'{'})
      case None => None
      case Some((g, e)) => Some(([Cut(s, Span(j, n)), g[0], g[1]], e))
  }

  /** `^(export\s+)?(async\s+)?function\s+(\w+)\s*\(([^)]*)\)\s*:\s*([^{]+)` */
  function RegularFunction(s: string): (r: Option<RegexMatch>)
    ensures r.Some? ==> MatchOf(s, r.value, 5)
    ensures r.Some? ==> r.value.end > 0
  {
    var x := ExportPrefix(s);
    var i1 := x.GetOr(0);
    var y := KeywordSpace(s, i1, "async");
    var asyncGroup := if y.Some? then Some(s[i1..y.value]) else None;
    match KeywordSpace(s, y.GetOr(i1), "function")
    case None => None
    case Some(f) =>
      match CallCore(s, f)
      case None => None
      case Some((g, e)) => Some(RegexMatch(e, [Some(s[..e]), ExportGroup(s, x), asyncGroup, g[0], g[1], g[2]]))
  }

  /** `^(export\s+)?(const|let|var)\s+(\w+)\s*=\s*` at 0: groups export, keyword, name and
      the index after the whitespace following `=` */
  function ArrowHead(s: string): (r: Option<(seq<Option<string>>, nat)>)
    ensures r.Some? ==> 0 < r.value.1 <= |s| && |r.value.0| == 3
  {
    var x := ExportPrefix(s);
    var i1 := x.GetOr(0);
    var kw := if HasAt(s, i1, "const") then "const" else if HasAt(s, i1, "let") then "let" else "var";
    match KeywordSpace(s, i1, kw)
    case None => None
    case Some(v) =>
      var n := SkipWord(s, v);
      if n == v then None
      else
        var a := SkipSpaces(s, n);
        if a == |s| || s[a] != '=' then None
        else Some(([ExportGroup(s, x), Some(kw), Cut(s, Span(v, n))], SkipSpaces(s, a + 1)))
  }

  /** `^(export\s+)?(const|let|var)\s+(\w+)\s*=\s*(async\s+)?\(([^)]*)\)\s*:\s*([^{=]+)` */
  function ArrowFunction(s: string): (r: Option<RegexMatch>)
    ensures r.Some? ==> MatchOf(s, r.value, 6)
    ensures r.Some? ==> r.value.end > 0
  {
    match ArrowHead(s)
    case None => None
    case Some((h, b)) =>
      var z := KeywordSpace(s, b, "async");
      var asyncGroup := if z.Some? then Some(s[b..z.value]) else None;
      match ParamsReturn(s, z.GetOr(b), {'{', '='})
      case None => None
      case Some((g, e)) => Some(RegexMatch(e, [Some(s[..e]), h[0], h[1], h[2], asyncGroup, g[0], g[1]]))
  }

  /** `(async\s+)?` in front of a call core at `j`, tried present first */
  function AsyncCall(s: string, j: nat): (r: Option<(seq<Option<string>>, nat)>)
    requires j <= |s|
    ensures r.Some? ==> j < r.value.1 <= |s| && |r.value.0| == 4
  {
    var y := KeywordSpace(s, j, "async");
    var present := if y.Some? then CallCore(s, y.value) else None;
    if present.Some? then
      var g := present.value.0;
      Some(([Some(s[j..y.value]), g[0], g[1], g[2]], present.value.1))
    else
      match CallCore(s, j)
      case None => None
      case Some((g, e)) => Some(([None, g[0], g[1], g[2]], e))
  }

  /** `^\s*(async\s+)?(\w+)\s*\(([^)]*)\)\s*:\s*([^{]+)` */
  function MethodLikeFunction(s: string): (r: Option<RegexMatch>)
    ensures r.Some? ==> MatchOf(s, r.value, 4)
    ensures r.Some? ==> r.value.end > 0
  {
    match AsyncCall(s, SkipSpaces(s, 0))
    case None => None
    case Some((g, e)) => Some(RegexMatch(e, [Some(s[..e]), g[0], g[1], g[2], g[3]]))
  }

  /** `(?:\s+extends\s+(\w+))?` after a class name ending at `n`: the group and the index
      where the match goes on. When the clause is present the group cannot be dropped by
      backtracking, because `extends` is not a valid continuation without it. */
  function ExtendsName(s: string, n: nat): (r: (Option<string>, nat))
    requires n <= |s|
    ensures n <= r.1 <= |s|
  {
    var sp := SkipSpaces(s, n);
    var ext := if sp > n then KeywordSpace(s, sp, "extends") else None;
    if ext.None? then (None, n)
    else
      var e := SkipWord(s, ext.value);
      if e > ext.value then (Some(s[ext.value..e]), e) else (None, n)
  }

  /** `(?:\s+kw\s+([^{]+))?\s*{` at `i`: the list group and the index after the brace */
  function ListThenBrace(s: string, i: nat, kw: string): (r: Option<(Option<string>, nat)>)
    requires i <= |s|
    ensures r.Some? ==> i < r.value.1 <= |s|
  {
    match ListClause(s, i, kw)
    case Some((list, brace)) => Some((Cut(s, list), brace + 1))
    case None =>
      var b := SkipSpaces(s, i);
      if b == |s| || s[b] != '{' then None else Some((None, b + 1))
  }

  /** `^(export\s+)?kw\s+(\w+)` for a declaration keyword: the export group and the name span */
  function Declared(s: string, kw: string): (r: Option<(Option<string>, Span)>)
    ensures r.Some? ==> 0 < r.value.1.start < r.value.1.end <= |s|
  {
    var x := ExportPrefix(s);
    match KeywordSpace(s, x.GetOr(0), kw)
    case None => None
    case Some(c) =>
      var n := SkipWord(s, c);
      if n == c then None else Some((ExportGroup(s, x), Span(c, n)))
  }

  /** `^(export\s+)?class\s+(\w+)(?:\s+extends\s+(\w+))?(?:\s+implements\s+([^{]+))?\s*{` */
  function ClassDeclaration(s: string): (r: Option<RegexMatch>)
    ensures r.Some? ==> MatchOf(s, r.value, 4)
  {
    match Declared(s, "class")
    case None => None
    case Some((x, name)) =>
      var (ext, i2) := ExtendsName(s, name.end);
      match ListThenBrace(s, i2, "implements")
      case None => None
      case Some((list, e)) => Some(RegexMatch(e, [Some(s[..e]), x, Cut(s, name), ext, list]))
  }

  /** `^(export\s+)?interface\s+(\w+)(?:\s+extends\s+([^{]+))?\s*{` */
  function InterfaceDeclaration(s: string): (r: Option<RegexMatch>)
    ensures r.Some? ==> MatchOf(s, r.value, 3)
  {
    match Declared(s, "interface")
    case None => None
    case Some((x, name)) =>
      match ListThenBrace(s, name.end, "extends")
      case None => None
      case Some((list, e)) => Some(RegexMatch(e, [Some(s[..e]), x, Cut(s, name), list]))
  }

  /** `^(export\s+)?type\s+(\w+)\s*=\s*(.+);?$` */
  function TypeDeclaration(s: string): (r: Option<RegexMatch>)
    ensures r.Some? ==> MatchOf(s, r.value, 3) && r.value.end == |s|
  {
    var x := ExportPrefix(s);
    match KeywordSpace(s, x.GetOr(0), "type")
    case None => None
    case Some(t) =>
      var n := SkipWord(s, t);
      if n == t then None
      else
        var a := SkipSpaces(s, n);
        if a == |s| || s[a] != '=' then None
        else
          match DotRest(s, a + 1)
          case None => None
          case Some(def) =>
            Some(RegexMatch(|s|, [Some(s[..|s|]), ExportGroup(s, x), Cut(s, Span(t, n)), Cut(s, def)]))
  }

  // ---------------------------------------------------------------------------------
  // Members inside a class or interface body (CodeAnalyzer.ts:227, 259, 287, 314)

  /** `(static\s+)?(async\s+)?` and a call core at `j` */
  function StaticCall(s: string, j: nat): (r: Option<(seq<Option<string>>, nat)>)
    requires j <= |s|
    ensures r.Some? ==> j < r.value.1 <= |s| && |r.value.0| == 5
  {
    var y := KeywordSpace(s, j, "static");
    var present := if y.Some? then AsyncCall(s, y.value) else None;
    if present.Some? then
      var g := present.value.0;
      Some(([Some(s[j..y.value]), g[0], g[1], g[2], g[3]], present.value.1))
    else
      match AsyncCall(s, j)
      case None => None
      case Some((g, e)) => Some(([None, g[0], g[1], g[2], g[3]], e))
  }

  /** `(private\s+|public\s+|protected\s+)` at `j`: at most one alternative applies */
  function Visibility(s: string, j: nat): (r: Option<nat>)
    requires j <= |s|
    ensures r.Some? ==> j < r.value <= |s|
  {
    var p := KeywordSpace(s, j, "private");
    if p.Some? then p
    else
      var q := KeywordSpace(s, j, "public");
      if q.Some? then q else KeywordSpace(s, j, "protected")
  }

  /** `^\s*(private\s+|public\s+|protected\s+)?(static\s+)?(async\s+)?(\w+)\s*\(([^)]*)\)\s*:\s*([^{]+)` */
  function ClassMethod(s: string): (r: Option<RegexMatch>)
    ensures r.Some? ==> MatchOf(s, r.value, 6)
  {
    var j := SkipSpaces(s, 0);
    var v := Visibility(s, j);
    var present := if v.Some? then StaticCall(s, v.value) else None;
    if present.Some? then
      var e := present.value.1;
      var g := present.value.0;
      Some(RegexMatch(e, [Some(s[..e]), Some(s[j..v.value]), g[0], g[1], g[2], g[3], g[4]]))
    else
      match StaticCall(s, j)
      case None => None
      case Some((g, e)) => Some(RegexMatch(e, [Some(s[..e]), None, g[0], g[1], g[2], g[3], g[4]]))
  }

  /** `(\w+)(\?)?\s*:\s*([^=;]+)(?:\s*=\s*[^;]+)?;?$` at `j`: groups name, `?`, type */
  function PropertyCore(s: string, j: nat): (r: Option<seq<Option<string>>>)
    requires j <= |s|
    ensures r.Some? ==> |r.value| == 3
  {
    var n := SkipWord(s, j);
    if n == j then None
    else
      var opt := n < |s| && s[n] == '?';
      var q := if opt then n + 1 else n;
      var c := SkipSpaces(s, q);
      if c == |s| || s[c] != ':' then None
      else
        match PropertyTail(s, c + 1)
        case None => None
        case Some(ty) => Some([Cut(s, Span(j, n)), if opt then Some("?") else None, Cut(s, ty)])
  }

  /** `(readonly\s+)?` and a property core at `j` */
  function ReadonlyProperty(s: string, j: nat): (r: Option<seq<Option<string>>>)
    requires j <= |s|
    ensures r.Some? ==> |r.value| == 4
  {
    var y := KeywordSpace(s, j, "readonly");
    var present := if y.Some? then PropertyCore(s, y.value) else None;
    if present.Some? then
      var g := present.value;
      Some([Some(s[j..y.value]), g[0], g[1], g[2]])
    else
      match PropertyCore(s, j)
      case None => None
      case Some(g) => Some([None, g[0], g[1], g[2]])
  }

  /** `^\s*(private\s+|public\s+|protected\s+)?(readonly\s+)?(\w+)(\?)?\s*:\s*([^=;]+)(?:\s*=\s*[^;]+)?;?$` */
  function ClassProperty(s: string): (r: Option<RegexMatch>)
    ensures r.Some? ==> MatchOf(s, r.value, 5) && r.value.end == |s|
  {
    var j := SkipSpaces(s, 0);
    var v := Visibility(s, j);
    var present := if v.Some? then ReadonlyProperty(s, v.value) else None;
    if present.Some? then
      var g := present.value;
      Some(RegexMatch(|s|, [Some(s[..|s|]), Some(s[j..v.value]), g[0], g[1], g[2], g[3]]))
    else
      match ReadonlyProperty(s, j)
      case None => None
      case Some(g) => Some(RegexMatch(|s|, [Some(s[..|s|]), None, g[0], g[1], g[2], g[3]]))
  }

  /** `^\s*(\w+)(\?)?\s*:\s*([^;]+);?$` */
  function InterfaceProperty(s: string): (r: Option<RegexMatch>)
    ensures r.Some? ==> MatchOf(s, r.value, 3) && r.value.end == |s|
  {
    var j := SkipSpaces(s, 0);
    var n := SkipWord(s, j);
    if n == j then None
    else
      var opt := n < |s| && s[n] == '?';
      var c := SkipSpaces(s, if opt then n + 1 else n);
      if c == |s| || s[c] != ':' then None
      else
        match SemiTail(s, c + 1)
        case None => None
        case Some(ty) =>
          Some(RegexMatch(|s|, [Some(s[..|s|]), Cut(s, Span(j, n)), if opt then Some("?") else None, Cut(s, ty)]))
  }

  /** `^\s*(\w+)\s*\(([^)]*)\)\s*:\s*([^;]+);?$` */
  function InterfaceMethod(s: string): (r: Option<RegexMatch>)
    ensures r.Some? ==> MatchOf(s, r.value, 3) && r.value.end == |s|
  {
    var j := SkipSpaces(s, 0);
    var n := SkipWord(s, j);
    if n == j then None
    else
      match ParenColon(s, SkipSpaces(s, n))
      case None => None
      case Some((p, c)) =>
        match SemiTail(s, c)
        case None => None
        case Some(ret) =>
          Some(RegexMatch(|s|, [Some(s[..|s|]), Cut(s, Span(j, n)), Cut(s, p), Cut(s, ret)]))
  }

  /** `^(\w+)(\?)?\s*:\s*(.+)$`, applied to one trimmed piece of a parameter list */
  function TypedParameter(s: string): (r: Option<RegexMatch>)
    ensures r.Some? ==> MatchOf(s, r.value, 3) && r.value.end == |s|
  {
    var n := SkipWord(s, 0);
    if n == 0 then None
    else
      var opt := n < |s| && s[n] == '?';
      var c := SkipSpaces(s, if opt then n + 1 else n);
      if c == |s| || s[c] != ':' then None
      else
        match DotRest(s, c + 1)
        case None => None
        case Some(ty) =>
          Some(RegexMatch(|s|, [Some(s[..|s|]), Cut(s, Span(0, n)), if opt then Some("?") else None, Cut(s, ty)]))
  }

  // ---------------------------------------------------------------------------------
  // What the recognisers read back from well-formed declarations

  /** The text of a declared parameter `name: type` or `name?: type` */
  function TypedText(name: string, optional: bool, ty: string): string
  {
    name + (if optional then "?" else "") + ": " + ty
  }

  /** In a declared parameter the name is a maximal word, followed by the optional question
      mark and the colon */
  lemma {:induction false} TypedTextHead(name: string, optional: bool, ty: string)
    requires IsWord(name)
    ensures var s := TypedText(name, optional, ty);
      var n := |name|;
      var c := n + (if optional then 1 else 0);
      && c + 2 <= |s|
      && SkipWord(s, 0) == n && s[..n] == name
      && (n < |s| && s[n] == '?') == optional
      && SkipSpaces(s, c) == c && s[c] == ':'
  {
    var s := TypedText(name, optional, ty);
    var n := |name|;
    var c := n + (if optional then 1 else 0);
    assert forall k :: 0 <= k < n ==> s[k] == name[k];
    assert s[c] == ':';
    assert n < |s| && !IsWordChar(s[n]);
    SkipWordAt(s, 0, n);
    SkipSpacesAt(s, c, c);
  }

  /** ... and the type is everything after the colon and one space */
  lemma {:induction false} TypedTextTail(name: string, optional: bool, ty: string)
    requires ty != "" && IsTrimmed(ty) && NoTerminator(ty)
    ensures var s := TypedText(name, optional, ty);
      var c := |name| + (if optional then 1 else 0);
      c + 2 < |s| && DotRest(s, c + 1) == Some(Span(c + 2, |s|)) && s[c + 2..] == ty
  {
    var s := TypedText(name, optional, ty);
    var c := |name| + (if optional then 1 else 0);
    assert s[c + 1] == ' ';
    assert forall k :: c + 2 <= k < |s| ==> s[k] == ty[k - c - 2];
    SkipSpacesAt(s, c + 1, c + 2);
    forall k | c + 2 <= k < |s|
      ensures s[k] !in Terminators
    {
      TerminatorsAreLineTerminators(s[k]);
    }
    SkipUntilAt(s, c + 2, |s|, Terminators);
    assert s[c + 2..] == ty;
  }

  /** A declared parameter matches the parameter pattern with the name, the question mark
      and the type as its groups */
  lemma {:induction false} TypedParameterReads(name: string, optional: bool, ty: string)
    requires IsWord(name) && ty != "" && IsTrimmed(ty) && NoTerminator(ty)
    ensures var s := TypedText(name, optional, ty);
      TypedParameter(s) == Some(RegexMatch(|s|, [Some(s), Some(name), if optional then Some("?") else None, Some(ty)]))
  {
    var s := TypedText(name, optional, ty);
    TypedTextHead(name, optional, ty);
    TypedTextTail(name, optional, ty);
    assert s[..|s|] == s;
  }
}
