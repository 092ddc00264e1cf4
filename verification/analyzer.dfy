/** The line-by-line extractors of src/core/CodeAnalyzer.ts: the language of a file, the
    parameter list parser, the JSDoc description found above a declaration, and the class,
    interface, type and member extractors. The function extractor, whose patterns keep
    state from one line to the next, is in module FunctionScan. */
module Analyzer {
  import opened Wrappers
  import opened Text
  import opened Entities
  import opened Shapes

  // ---------------------------------------------------------------------------------
  // JavaScript glue on match groups

  /** `match[k]` for a group every match of the pattern defines */
  function Val(m: RegexMatch, k: nat): string
  {
    Group(m, k).GetOr("")
  }

  /** `a || b` on possibly undefined strings, where the empty string counts as false */
  function Or(a: Option<string>, b: Option<string>): (r: Option<string>)
    ensures r == a || r == b
    ensures (r.Some? && r.value != "") <==> (a.Some? && a.value != "") || (b.Some? && b.value != "")
  {
    if a.Some? && a.value != "" then a else b
  }

  /** `g?.includes(w) || false` */
  function GroupIncludes(g: Option<string>, w: string): bool
  {
    g.Some? && Includes(g.value, w)
  }

  /** `g?.trim() || fallback` */
  function TrimOr(g: Option<string>, fallback: string): (r: string)
    ensures r == fallback || (g.Some? && r == Trim(g.value) && r != "")
    ensures IsTrimmed(fallback) ==> IsTrimmed(r)
  {
    if g.Some? && Trim(g.value) != "" then Trim(g.value) else fallback
  }

  /** `text.split(",").map(s => s.trim())` */
  function TrimmedList(text: string): (r: seq<string>)
    ensures |r| == |Split(text, ',')| >= 1
    ensures forall k :: 0 <= k < |r| ==> r[k] == Trim(Split(text, ',')[k])
  {
    var parts := Split(text, ',');
    seq(|parts|, k requires 0 <= k < |parts| => Trim(parts[k]))
  }

  /** `g?.split(",").map(trim) || []`, then `list.length > 0 ? list : undefined` */
  function ListGroup(g: Option<string>): (r: Option<seq<string>>)
    ensures r.Some? <==> g.Some?
    ensures r.Some? ==> r.value == TrimmedList(g.value)
  {
    var list := if g.Some? then TrimmedList(g.value) else [];
    if |list| > 0 then Some(list) else None
  }

  // ---------------------------------------------------------------------------------
  // Language of a file (CodeAnalyzer.ts:53-61)

  const LanguageMap: map<string, string> :=
    map[".ts" := "typescript", ".js" := "javascript", ".tsx" := "typescript", ".jsx" := "javascript"]

  /** `languageMap[ext] || "unknown"`; the extension comes from `path.extname`, so it is
      empty or starts with a dot and never names an inherited property of the map object */
  function Language(ext: string): (r: string)
    ensures r == "typescript" <==> ext == ".ts" || ext == ".tsx"
    ensures r == "javascript" <==> ext == ".js" || ext == ".jsx"
    ensures r == "unknown" <==> ext !in {".ts", ".js", ".tsx", ".jsx"}
  {
    if ext in LanguageMap && LanguageMap[ext] != "" then LanguageMap[ext] else "unknown"
  }

  // ---------------------------------------------------------------------------------
  // Parameter lists (CodeAnalyzer.ts:337-360)

  /** One comma-separated piece: `name?: type` after trimming, or else the whole trimmed
      piece as a name of type `any` */
  function ParseParameter(piece: string): (p: ParameterInfo)
    ensures p.description == ""
    ensures TypedParameter(Trim(piece)).None? ==> p == ParameterInfo(Trim(piece), "any", "", false)
    ensures TypedParameter(Trim(piece)).Some? ==> IsTrimmed(p.typeText)
  {
    var t := Trim(piece);
    match TypedParameter(t)
    case Some(m) => ParameterInfo(Val(m, 1), Trim(Val(m, 3)), "", Group(m, 2) == Some("?"))
    case None => ParameterInfo(t, "any", "", false)
  }

  /** `parseParameters`: nothing for a blank list, otherwise one parameter per comma-separated
      piece, in order */
  function ParseParameters(text: string): (ps: seq<ParameterInfo>)
    ensures ps == [] <==> AllSpaces(text)
    ensures ps != [] ==> |ps| == |Split(text, ',')|
    ensures ps != [] ==> forall k :: 0 <= k < |ps| ==> ps[k] == ParseParameter(Split(text, ',')[k])
  {
    TrimEmpty(text);
    if Trim(text) == "" then []
    else
      var pieces := Split(text, ',');
      seq(|pieces|, k requires 0 <= k < |pieces| => ParseParameter(pieces[k]))
  }

  /** How TypeScript declares a parameter: `name: type` or `name?: type` */
  function Declaration(p: ParameterInfo): string
  {
    TypedText(p.name, p.isOptional, p.typeText)
  }

  function Declarations(ps: seq<ParameterInfo>): seq<string>
  {
    seq(|ps|, k requires 0 <= k < |ps| => Declaration(ps[k]))
  }

  /** A parameter the parser can read back: a word for its name, and a one-line trimmed type
      without commas */
  predicate Declarable(p: ParameterInfo)
  {
    && IsWord(p.name)
    && p.typeText != "" && IsTrimmed(p.typeText) && NoTerminator(p.typeText)
    && ',' !in p.typeText
    && p.description == ""
  }

  /** Every piece but the first, with the space `", "` leaves in front of it */
  function SpacedTail(xs: seq<string>): seq<string>
  {
    seq(|xs|, k requires 0 <= k < |xs| => " " + xs[k])
  }

  lemma {:induction false} JoinPrefixed(p: string, x: string, rest: seq<string>, sep: string)
    ensures JoinWith([p + x] + rest, sep) == p + JoinWith([x] + rest, sep)
  {
    if |rest| > 0 {
      assert ([p + x] + rest)[1..] == rest;
      assert ([x] + rest)[1..] == rest;
    }
  }

  /** Joining with `", "` is joining with `","` after putting a space in front of every piece
      but the first */
  lemma {:induction false} JoinCommaSpace(xs: seq<string>)
    requires |xs| >= 1
    ensures JoinWith(xs, ", ") == JoinWith([xs[0]] + SpacedTail(xs[1..]), ",")
    decreases |xs|
  {
    if |xs| > 1 {
      var tail := SpacedTail(xs[1..]);
      JoinCommaSpace(xs[1..]);
      assert xs[1..][1..] == xs[2..];
      assert tail == [" " + xs[1]] + SpacedTail(xs[2..]);
      JoinPrefixed(" ", xs[1], SpacedTail(xs[2..]), ",");
      assert ([xs[0]] + tail)[1..] == tail;
    }
  }

  /** A declared parameter, trimmed, is its own declaration */
  lemma {:induction false} DeclarationTrimmed(p: ParameterInfo)
    requires Declarable(p)
    ensures IsTrimmed(Declaration(p)) && !IsSpace(Declaration(p)[0])
  {
    var d := Declaration(p);
    assert d[0] == p.name[0] && IsWordChar(p.name[0]);
    assert d[|d| - 1] == p.typeText[|p.typeText| - 1];
  }

  lemma {:induction false} TrimDeclaration(p: ParameterInfo, pad: string)
    requires Declarable(p) && (pad == "" || pad == " ")
    ensures Trim(pad + Declaration(p)) == Declaration(p)
  {
    var d := Declaration(p);
    DeclarationTrimmed(p);
    TrimPadded(pad, d, "");
    assert pad + d + "" == pad + d;
  }

  /** A declared parameter, with or without the space in front of it, parses back */
  lemma {:induction false} ParseDeclaredParameter(p: ParameterInfo, pad: string)
    requires Declarable(p) && (pad == "" || pad == " ")
    ensures ParseParameter(pad + Declaration(p)) == p
  {
    TrimDeclaration(p, pad);
    TypedParameterReads(p.name, p.isOptional, p.typeText);
    TrimOfTrimmed(p.typeText);
  }

  /** Splitting a declared list at its commas gives the declarations back, each but the
      first with the space in front of it */
  lemma {:induction false} SplitDeclarations(ps: seq<ParameterInfo>)
    requires |ps| >= 1
    requires forall k :: 0 <= k < |ps| ==> Declarable(ps[k])
    ensures var ds := Declarations(ps);
      Split(JoinWith(ds, ", "), ',') == [ds[0]] + SpacedTail(ds[1..])
  {
    var ds := Declarations(ps);
    var pieces := [ds[0]] + SpacedTail(ds[1..]);
    JoinCommaSpace(ds);
    forall k | 0 <= k < |pieces|
      ensures ',' !in pieces[k]
    {
      assert forall c :: c in ps[k].name ==> IsWordChar(c);
    }
    SplitJoin(pieces, ',');
  }

  /** A declared list does not consist of whitespace only */
  lemma {:induction false} DeclarationsNotBlank(ps: seq<ParameterInfo>)
    requires |ps| >= 1 && Declarable(ps[0])
    ensures !AllSpaces(JoinWith(Declarations(ps), ", "))
  {
    var ds := Declarations(ps);
    var text := JoinWith(ds, ", ");
    DeclarationTrimmed(ps[0]);
    if |ds| > 1 {
      assert text == ds[0] + ", " + JoinWith(ds[1..], ", ");
    }
    assert text[0] == ds[0][0];
  }

  /** Each piece of a split declared list parses back to its parameter */
  lemma {:induction false} ParsePieces(ps: seq<ParameterInfo>)
    requires |ps| >= 1
    requires forall k :: 0 <= k < |ps| ==> Declarable(ps[k])
    ensures var ds := Declarations(ps);
      var pieces := [ds[0]] + SpacedTail(ds[1..]);
      forall k :: 0 <= k < |ps| ==> ParseParameter(pieces[k]) == ps[k]
  {
    var ds := Declarations(ps);
    var pieces := [ds[0]] + SpacedTail(ds[1..]);
    forall k | 0 <= k < |ps|
      ensures ParseParameter(pieces[k]) == ps[k]
    {
      if k == 0 {
        assert pieces[k] == "" + ds[k];
        ParseDeclaredParameter(ps[k], "");
      } else {
        assert pieces[k] == " " + ds[k];
        ParseDeclaredParameter(ps[k], " ");
      }
    }
  }

  /** Parameter lists round-trip: parsing the declared list `a: A, b?: B, ...` gives back the
      parameters, in order */
  lemma {:induction false} ParseDeclaredParameters(ps: seq<ParameterInfo>)
    requires forall k :: 0 <= k < |ps| ==> Declarable(ps[k])
    ensures ParseParameters(JoinWith(Declarations(ps), ", ")) == ps
  {
    var text := JoinWith(Declarations(ps), ", ");
    if |ps| == 0 {
      assert AllSpaces(text);
    } else {
      SplitDeclarations(ps);
      DeclarationsNotBlank(ps);
      ParsePieces(ps);
    }
  }

  // ---------------------------------------------------------------------------------
  // The description above a declaration (CodeAnalyzer.ts:362-382)

  /** What `line.replace(/^\*\s*\/, "")` leaves of a trimmed line starting with `*` */
  function CommentText(line: string): string
    requires StartsWith(line, "*")
  {
    line[SkipSpaces(line, 1)..]
  }

  /** What one line does to the upward walk of `extractDescription`: end it, be passed over,
      or prepend its comment text */
  datatype Step = Stop | Pass | Prepend(text: string)

  /** The step for a line: a JSDoc tag, the opening line of a block or a line of code ends the
      walk, blank and `//` lines are passed over, and a comment line gives its text. With
      `skipClose` the closing line of a block is passed over too. */
  function LineStep(line: string, skipClose: bool): Step
  {
    var t := Trim(line);
    if skipClose && t == "*/" then Pass
    else if StartsWith(t, "*") then
      var comment := CommentText(t);
      if StartsWith(comment, "@") then Stop else Prepend(comment)
    else if StartsWith(t, "/**") then Stop
    else if t != "" && !StartsWith(t, "//") then Stop
    else Pass
  }

  /** `LineStep` reached after `hops` steps: the walk passes a count that is never a literal,
      so proofs about walks over many lines do not unfold the step of every line;
      `StepAfterAny` unfolds it where a proof needs it */
  function StepAfter(line: string, skipClose: bool, hops: nat): Step
    decreases hops
  {
    if hops > 0 then StepAfter(line, skipClose, hops - 1) else LineStep(line, skipClose)
  }

  /** However many steps it takes, the walk reads the step of the line. This only lifts the
      gate; what the walk does is stated by `WalkFrame`, `WalkPassesOver`, `WalkPrepends` and
      the `WalkStops` lemmas below */
  lemma {:induction false} StepAfterAny(line: string, skipClose: bool, hops: nat)
    ensures StepAfter(line, skipClose, hops) == LineStep(line, skipClose)
    decreases hops
  {
    if hops > 0 {
      StepAfterAny(line, skipClose, hops - 1);
    }
  }

  /** The upward walk of `extractDescription` from line `i`, with the text gathered so far */
  function DescriptionWalk(lines: seq<string>, i: int, acc: string, skipClose: bool): string
    requires i < |lines|
    decreases i + 1
  {
    if i < 0 then acc
    else
      match StepAfter(lines[i], skipClose, |lines[i]| + 1)
      case Stop => acc
      case Pass => DescriptionWalk(lines, i - 1, acc, skipClose)
      case Prepend(comment) =>
        DescriptionWalk(lines, i - 1, comment + (if acc != "" then " " + acc else ""), skipClose)
  }

  /** `extractDescription(content, index)` as written: the closing line of a block starts
      with `*`, so it is read as comment text */
  function DescriptionAsWritten(lines: seq<string>, index: nat): (d: string)
    requires index <= |lines|
    ensures IsTrimmed(d)
  {
    Described(lines, index, false, |lines| + 1)
  }

  /** The description of the declaration on line `index`, with the closing line of a block
      left out of the text */
  function Description(lines: seq<string>, index: nat): (d: string)
    requires index <= |lines|
    ensures IsTrimmed(d)
  {
    Described(lines, index, true, |lines| + 1)
  }

  /** The trimmed text of the walk from line `index - 1`, reached after `hops` steps. The two
      descriptions pass a count that is never a literal, so proofs about declarations do not
      unfold the walk; `DescribedAny` unfolds it where a proof needs it. */
  function Described(lines: seq<string>, index: nat, skipClose: bool, hops: nat): (d: string)
    requires index <= |lines|
    ensures IsTrimmed(d)
    decreases hops
  {
    if hops > 0 then Described(lines, index, skipClose, hops - 1)
    else Trim(DescriptionWalk(lines, index - 1, "", skipClose))
  }

  /** However many steps it takes, the description is the trimmed walk. Like `StepAfterAny`,
      this only lifts the gate */
  lemma {:induction false} DescribedAny(lines: seq<string>, index: nat, skipClose: bool, hops: nat)
    requires index <= |lines|
    ensures Described(lines, index, skipClose, hops) == Trim(DescriptionWalk(lines, index - 1, "", skipClose))
    decreases hops
  {
    if hops > 0 {
      DescribedAny(lines, index, skipClose, hops - 1);
    }
  }

  /** A declaration on the first line has no description */
  lemma DescriptionAtTop(lines: seq<string>)
    ensures Description(lines, 0) == "" && DescriptionAsWritten(lines, 0) == ""
  {
    DescribedAny(lines, 0, true, |lines| + 1);
    DescribedAny(lines, 0, false, |lines| + 1);
    TrimOfTrimmed("");
  }

  /** A line of code right above a declaration leaves it without a description */
  lemma {:induction false} DescriptionAfterCode(lines: seq<string>, index: nat)
    requires 0 < index <= |lines|
    requires var t := Trim(lines[index - 1]);
      t != "" && !StartsWith(t, "*") && !StartsWith(t, "//")
    ensures Description(lines, index) == "" && DescriptionAsWritten(lines, index) == ""
  {
    DescribedAny(lines, index, true, |lines| + 1);
    DescribedAny(lines, index, false, |lines| + 1);
    StepAfterAny(lines[index - 1], true, |lines[index - 1]| + 1);
    StepAfterAny(lines[index - 1], false, |lines[index - 1]| + 1);
    TrimOfTrimmed("");
  }

  /** Text a comment line can carry: non-empty, trimmed, not a JSDoc tag */
  predicate CommentLine(t: string)
  {
    t != "" && IsTrimmed(t) && t[0] != '@'
  }

  /** A JSDoc block occupying the lines right above line `index`: its opening line, one
      line ` * t` for each text `t`, and its closing line */
  predicate BlockAbove(lines: seq<string>, index: nat, texts: seq<string>)
  {
    && |texts| + 2 <= index <= |lines|
    && lines[index - |texts| - 2] == "/**"
    && (forall k :: 0 <= k < |texts| ==> lines[index - |texts| - 1 + k] == " * " + texts[k])
    && lines[index - 1] == " */"
  }

  lemma {:induction false} JoinSnoc(xs: seq<string>, x: string, sep: string)
    requires |xs| >= 1
    ensures JoinWith(xs + [x], sep) == JoinWith(xs, sep) + sep + x
    decreases |xs|
  {
    if |xs| > 1 {
      JoinSnoc(xs[1..], x, sep);
      assert (xs + [x])[1..] == xs[1..] + [x];
    }
  }

  lemma {:induction false} JoinTrimmed(xs: seq<string>, sep: string)
    requires |xs| >= 1
    requires forall k :: 0 <= k < |xs| ==> xs[k] != "" && IsTrimmed(xs[k])
    ensures JoinWith(xs, sep) != "" && IsTrimmed(JoinWith(xs, sep))
    decreases |xs|
  {
    if |xs| > 1 {
      JoinTrimmed(xs[1..], sep);
      var j := JoinWith(xs, sep);
      var r := JoinWith(xs[1..], sep);
      assert j == xs[0] + sep + r;
      assert j[0] == xs[0][0];
      assert j[|j| - 1] == r[|r| - 1];
    }
  }

  /** The comment line ` * t` trims to `* t` */
  lemma {:induction false} CommentLineTrim(t: string)
    requires CommentLine(t)
    ensures Trim(" * " + t) == "* " + t
  {
    var line := "* " + t;
    assert IsTrimmed(line) by {
      assert line[0] == '*' && line[|line| - 1] == t[|t| - 1];
    }
    assert " * " + t == " " + line + "";
    TrimPadded(" ", line, "");
  }

  /** ... and contributes the text `t` */
  lemma {:induction false} CommentLineContent(t: string)
    requires CommentLine(t)
    ensures StartsWith("* " + t, "*") && CommentText("* " + t) == t
  {
    var line := "* " + t;
    assert line[1] == ' ' && line[2] == t[0];
    SkipSpacesAt(line, 1, 2);
    assert line[2..] == t;
  }

  /** One step of the walk over a comment line ` * t` */
  lemma {:induction false} WalkOverComment(lines: seq<string>, i: nat, t: string, acc: string, skipClose: bool)
    requires i < |lines| && lines[i] == " * " + t && CommentLine(t)
    ensures DescriptionWalk(lines, i, acc, skipClose)
         == DescriptionWalk(lines, i - 1, t + (if acc != "" then " " + acc else ""), skipClose)
  {
    StepAfterAny(lines[i], skipClose, |lines[i]| + 1);
    CommentLineTrim(t);
    CommentLineContent(t);
    assert ("* " + t)[1] == ' ';
  }

  /** The walk ends at the opening line of a block */
  lemma {:induction false} WalkAtOpening(lines: seq<string>, i: nat, acc: string, skipClose: bool)
    requires i < |lines| && lines[i] == "/**"
    ensures DescriptionWalk(lines, i, acc, skipClose) == acc
  {
    StepAfterAny(lines[i], skipClose, |lines[i]| + 1);
    TrimOfTrimmed("/**");
  }

  /** The closing line ` *\/` trims to the two characters star and slash */
  lemma ClosingTrim()
    ensures Trim(" */") == "*/"
  {
    TrimPadded(" ", "*/", "");
    assert " " + "*/" + "" == " */";
  }

  /** One step of the walk over the closing line of a block: passed over when `skipClose`,
      read as the comment text `/` otherwise */
  lemma {:induction false} WalkOverClosing(lines: seq<string>, i: nat, acc: string, skipClose: bool)
    requires i < |lines| && lines[i] == " */"
    ensures skipClose ==> DescriptionWalk(lines, i, acc, skipClose) == DescriptionWalk(lines, i - 1, acc, skipClose)
    ensures !skipClose ==>
      DescriptionWalk(lines, i, acc, skipClose) == DescriptionWalk(lines, i - 1, "/" + (if acc != "" then " " + acc else ""), skipClose)
  {
    StepAfterAny(lines[i], skipClose, |lines[i]| + 1);
    ClosingTrim();
    assert CommentText("*/") == "/" by {
      SkipSpacesAt("*/", 1, 1);
    }
  }

  /** Walking up through the text lines of a block gathers their texts joined by spaces,
      in front of what was gathered below them */
  lemma {:induction false} WalkOverTexts(lines: seq<string>, b: nat, texts: seq<string>, n: nat,
                                         acc: string, skipClose: bool)
    requires 1 <= n <= |texts| && b + n < |lines|
    requires lines[b] == "/**" && lines[b + 1..b + 1 + n] == TextLines(texts[..n])
    requires forall k :: 0 <= k < n ==> CommentLine(texts[k])
    ensures DescriptionWalk(lines, b + n, acc, skipClose)
         == JoinWith(texts[..n], " ") + (if acc != "" then " " + acc else "")
    decreases n
  {
    if n == 1 {
      WalkOverFirstText(lines, b, texts, acc, skipClose);
    } else {
      var tail := if acc != "" then " " + acc else "";
      FewerTextLines(lines, b, texts, n);
      WalkOverTexts(lines, b, texts, n - 1, texts[n - 1] + tail, skipClose);
      WalkOverLaterText(lines, b, texts, n, acc, skipClose);
    }
  }

  /** The first text line of a block, right under its opening line */
  lemma WalkOverFirstText(lines: seq<string>, b: nat, texts: seq<string>, acc: string, skipClose: bool)
    requires 1 <= |texts| && b + 1 < |lines|
    requires lines[b] == "/**" && lines[b + 1..b + 2] == TextLines(texts[..1])
    requires forall k :: 0 <= k < 1 ==> CommentLine(texts[k])
    ensures DescriptionWalk(lines, b + 1, acc, skipClose)
         == JoinWith(texts[..1], " ") + (if acc != "" then " " + acc else "")
  {
    var tail := if acc != "" then " " + acc else "";
    WalkOverTextLine(lines, b, texts, 1, acc, skipClose);
    WalkAtOpening(lines, b, texts[0] + tail, skipClose);
    assert texts[..1] == [texts[0]];
  }

  /** Text line `n` of a block, under the first `n - 1`: the walk over it prepends its text
      to what was gathered below, and the walk over the lines above joins the rest in front */
  lemma WalkOverLaterText(lines: seq<string>, b: nat, texts: seq<string>, n: nat, acc: string, skipClose: bool)
    requires 2 <= n <= |texts| && b + n < |lines|
    requires lines[b + 1..b + 1 + n] == TextLines(texts[..n])
    requires forall k :: 0 <= k < n ==> CommentLine(texts[k])
    requires var tail := if acc != "" then " " + acc else "";
      DescriptionWalk(lines, b + n - 1, texts[n - 1] + tail, skipClose)
      == JoinWith(texts[..n - 1], " ") + (if texts[n - 1] + tail != "" then " " + (texts[n - 1] + tail) else "")
    ensures DescriptionWalk(lines, b + n, acc, skipClose)
         == JoinWith(texts[..n], " ") + (if acc != "" then " " + acc else "")
  {
    var tail := if acc != "" then " " + acc else "";
    WalkOverTextLine(lines, b, texts, n, acc, skipClose);
    JoinPrefixThen(texts, n, tail);
  }

  /** The text lines ` * t` of a block, one per text */
  function TextLines(texts: seq<string>): (r: seq<string>)
    ensures |r| == |texts|
  {
    if |texts| == 0 then [] else TextLines(texts[..|texts| - 1]) + [" * " + texts[|texts| - 1]]
  }

  lemma {:induction false} TextLineAt(texts: seq<string>, k: nat)
    requires k < |texts|
    ensures TextLines(texts)[k] == " * " + texts[k]
    decreases |texts|
  {
    if k < |texts| - 1 {
      TextLineAt(texts[..|texts| - 1], k);
    }
  }

  /** Lines holding the first `n` texts hold the first `n - 1` */
  lemma FewerTextLines(lines: seq<string>, b: nat, texts: seq<string>, n: nat)
    requires 2 <= n <= |texts| && b + n < |lines|
    requires lines[b + 1..b + 1 + n] == TextLines(texts[..n])
    ensures lines[b + 1..b + n] == TextLines(texts[..n - 1])
  {
    assert texts[..n][..n - 1] == texts[..n - 1];
    assert lines[b + 1..b + n] == lines[b + 1..b + 1 + n][..n - 1];
  }

  /** The walk over text line `n` of a block prepends its text */
  lemma WalkOverTextLine(lines: seq<string>, b: nat, texts: seq<string>, n: nat, acc: string, skipClose: bool)
    requires 1 <= n <= |texts| && b + n < |lines|
    requires lines[b + 1..b + 1 + n] == TextLines(texts[..n])
    requires forall k :: 0 <= k < n ==> CommentLine(texts[k])
    ensures texts[n - 1] != ""
    ensures DescriptionWalk(lines, b + n, acc, skipClose)
         == DescriptionWalk(lines, b + n - 1, texts[n - 1] + (if acc != "" then " " + acc else ""), skipClose)
  {
    TextLineAt(texts[..n], n - 1);
    assert lines[b + n] == lines[b + 1..b + 1 + n][n - 1];
    WalkOverComment(lines, b + n, texts[n - 1], acc, skipClose);
  }

  /** A block's text lines, read off the lines themselves */
  lemma BlockTextLines(lines: seq<string>, index: nat, texts: seq<string>)
    requires BlockAbove(lines, index, texts)
    ensures lines[index - |texts| - 1..index - 1] == TextLines(texts[..|texts|])
  {
    var b := index - |texts| - 2;
    assert texts[..|texts|] == texts;
    forall k | 0 <= k < |texts|
      ensures lines[b + 1..b + 1 + |texts|][k] == TextLines(texts)[k]
    {
      TextLineAt(texts, k);
    }
  }

  /** Gathering text `n - 1` below the first `n - 1` texts gives the first `n` */
  lemma JoinPrefixThen(texts: seq<string>, n: nat, tail: string)
    requires 2 <= n <= |texts|
    ensures JoinWith(texts[..n - 1], " ") + (" " + (texts[n - 1] + tail)) == JoinWith(texts[..n], " ") + tail
  {
    assert texts[..n] == texts[..n - 1] + [texts[n - 1]];
    JoinThen(texts[..n - 1], texts[n - 1], tail);
  }

  /** Gathering `t` below the texts `head` joins it onto them with a space */
  lemma JoinThen(head: seq<string>, t: string, tail: string)
    requires |head| >= 1
    ensures JoinWith(head, " ") + (" " + (t + tail)) == JoinWith(head + [t], " ") + tail
  {
    JoinSnoc(head, t, " ");
    AppendAssoc(JoinWith(head, " "), " ", t + tail);
    AppendAssoc(JoinWith(head, " ") + " ", t, tail);
  }

  /** The walk from the closing line of a JSDoc block gathers the block's texts joined by
      spaces, followed by ` /` when the closing line is read as comment text */
  lemma {:induction false} WalkOverBlock(lines: seq<string>, index: nat, texts: seq<string>, skipClose: bool)
    requires BlockAbove(lines, index, texts)
    requires 1 <= |texts|
    requires forall k :: 0 <= k < |texts| ==> CommentLine(texts[k])
    ensures DescriptionWalk(lines, index - 1, "", skipClose) == JoinWith(texts, " ") + (if skipClose then "" else " /")
  {
    var b := index - |texts| - 2;
    WalkOverClosing(lines, index - 1, "", skipClose);
    BlockTextLines(lines, index, texts);
    assert texts[..|texts|] == texts;
    if skipClose {
      WalkOverTexts(lines, b, texts, |texts|, "", true);
    } else {
      assert "/" + "" == "/";
      WalkOverTexts(lines, b, texts, |texts|, "/", false);
    }
  }

  /** The description of a declaration under a JSDoc block is the block's text lines joined
      by single spaces */
  lemma {:induction false} DescriptionOfBlock(lines: seq<string>, index: nat, texts: seq<string>)
    requires BlockAbove(lines, index, texts)
    requires 1 <= |texts|
    requires forall k :: 0 <= k < |texts| ==> CommentLine(texts[k])
    ensures Description(lines, index) == JoinWith(texts, " ")
  {
    DescribedAny(lines, index, true, |lines| + 1);
    WalkOverBlock(lines, index, texts, true);
    assert JoinWith(texts, " ") + "" == JoinWith(texts, " ");
    JoinTrimmed(texts, " ");
    TrimOfTrimmed(JoinWith(texts, " "));
  }

  /** As written, the closing line of the block starts with `*` and is read as the comment
      text `/`, so the description ends in ` /` */
  lemma {:induction false} DescriptionAsWrittenOfBlock(lines: seq<string>, index: nat, texts: seq<string>)
    requires BlockAbove(lines, index, texts)
    requires 1 <= |texts|
    requires forall k :: 0 <= k < |texts| ==> CommentLine(texts[k])
    ensures DescriptionAsWritten(lines, index) == JoinWith(texts, " ") + " /"
  {
    DescribedAny(lines, index, false, |lines| + 1);
    WalkOverBlock(lines, index, texts, false);
    JoinTrimmed(texts, " ");
    SlashTrimmed(JoinWith(texts, " "));
  }

  /** A trimmed text followed by ` /` is trimmed */
  lemma SlashTrimmed(j: string)
    requires j != "" && IsTrimmed(j)
    ensures Trim(j + " /") == j + " /"
  {
    var d := j + " /";
    assert IsTrimmed(d) by {
      assert d[0] == j[0] && d[|d| - 1] == '/';
    }
    TrimOfTrimmed(d);
  }

  // ---------------------------------------------------------------------------------
  // What each kind of line does to the walk

  /** The comment text of the closing line of a block is `/` */
  lemma ClosingText()
    ensures StartsWith("*/", "*") && CommentText("*/") == "/"
  {
    SkipSpacesAt("*/", 1, 1);
  }

  /** The walk from line `i` reads no line below `i`: two texts that agree up to line `i`
      give the same walk */
  lemma {:induction false} WalkFrame(lines: seq<string>, lines2: seq<string>, i: int, acc: string, skipClose: bool)
    requires i < |lines| && i < |lines2|
    requires i >= 0 ==> lines[..i + 1] == lines2[..i + 1]
    ensures DescriptionWalk(lines, i, acc, skipClose) == DescriptionWalk(lines2, i, acc, skipClose)
    decreases i + 1
  {
    if i >= 0 {
      assert lines[i] == lines[..i + 1][i] == lines2[i];
      assert lines[..i] == lines[..i + 1][..i] && lines2[..i] == lines2[..i + 1][..i];
      match StepAfter(lines[i], skipClose, |lines[i]| + 1)
      case Stop =>
      case Pass =>
        WalkFrame(lines, lines2, i - 1, acc, skipClose);
      case Prepend(comment) =>
        WalkFrame(lines, lines2, i - 1, comment + (if acc != "" then " " + acc else ""), skipClose);
    }
  }

  /** The description of the declaration on line `index` depends on the lines above it only */
  lemma DescriptionFrame(lines: seq<string>, lines2: seq<string>, index: nat)
    requires index <= |lines| && index <= |lines2| && lines[..index] == lines2[..index]
    ensures Description(lines, index) == Description(lines2, index)
    ensures DescriptionAsWritten(lines, index) == DescriptionAsWritten(lines2, index)
  {
    DescribedFrame(lines, lines2, index, true);
    DescribedFrame(lines, lines2, index, false);
  }

  lemma DescribedFrame(lines: seq<string>, lines2: seq<string>, index: nat, skipClose: bool)
    requires index <= |lines| && index <= |lines2| && lines[..index] == lines2[..index]
    ensures Described(lines, index, skipClose, |lines| + 1) == Described(lines2, index, skipClose, |lines2| + 1)
  {
    DescribedAny(lines, index, skipClose, |lines| + 1);
    DescribedAny(lines2, index, skipClose, |lines2| + 1);
    WalkFrame(lines, lines2, index - 1, "", skipClose);
  }

  /** A blank line or a `//` comment is passed over */
  lemma WalkPassesOver(lines: seq<string>, i: nat, acc: string, skipClose: bool)
    requires i < |lines|
    requires Trim(lines[i]) == "" || StartsWith(Trim(lines[i]), "//")
    ensures DescriptionWalk(lines, i, acc, skipClose) == DescriptionWalk(lines, i - 1, acc, skipClose)
  {
    StepAfterAny(lines[i], skipClose, |lines[i]| + 1);
    var t := Trim(lines[i]);
    if t != "" {
      assert t[..2] == "//";
      assert t[0] == '/' && t[1] == '/';
    }
  }

  /** ... so a declaration under such a line has the description it would have on that line */
  lemma DescriptionPassesOver(lines: seq<string>, index: nat)
    requires 0 < index <= |lines|
    requires Trim(lines[index - 1]) == "" || StartsWith(Trim(lines[index - 1]), "//")
    ensures Description(lines, index) == Description(lines, index - 1)
    ensures DescriptionAsWritten(lines, index) == DescriptionAsWritten(lines, index - 1)
  {
    DescribedPassesOver(lines, index, true);
    DescribedPassesOver(lines, index, false);
  }

  lemma {:induction false} DescribedPassesOver(lines: seq<string>, index: nat, skipClose: bool)
    requires 0 < index <= |lines|
    requires Trim(lines[index - 1]) == "" || StartsWith(Trim(lines[index - 1]), "//")
    ensures Described(lines, index, skipClose, |lines| + 1) == Described(lines, index - 1, skipClose, |lines| + 1)
  {
    WalkPassesOver(lines, index - 1, "", skipClose);
    DescribedByWalk(lines, index, index - 1, skipClose);
  }

  /** Two declarations whose walks gather the same text have the same description */
  lemma DescribedByWalk(lines: seq<string>, index: nat, index2: nat, skipClose: bool)
    requires index <= |lines| && index2 <= |lines|
    requires DescriptionWalk(lines, index - 1, "", skipClose) == DescriptionWalk(lines, index2 - 1, "", skipClose)
    ensures Described(lines, index, skipClose, |lines| + 1) == Described(lines, index2, skipClose, |lines| + 1)
  {
    DescribedAny(lines, index, skipClose, |lines| + 1);
    DescribedAny(lines, index2, skipClose, |lines| + 1);
  }

  /** A line starting with `*` prepends its comment text to what was gathered below it,
      unless it is a closing line that `skipClose` passes over or its text is a JSDoc tag */
  lemma WalkPrepends(lines: seq<string>, i: nat, acc: string, skipClose: bool)
    requires i < |lines| && StartsWith(Trim(lines[i]), "*")
    requires !(skipClose && Trim(lines[i]) == "*/") && !StartsWith(CommentText(Trim(lines[i])), "@")
    ensures var comment := CommentText(Trim(lines[i]));
      DescriptionWalk(lines, i, acc, skipClose)
      == DescriptionWalk(lines, i - 1, comment + (if acc != "" then " " + acc else ""), skipClose)
  {
    StepAfterAny(lines[i], skipClose, |lines[i]| + 1);
  }

  /** The walk ends at a comment line whose text is a JSDoc tag such as `@param` */
  lemma WalkStopsAtTag(lines: seq<string>, i: nat, acc: string, skipClose: bool)
    requires i < |lines| && StartsWith(Trim(lines[i]), "*") && StartsWith(CommentText(Trim(lines[i])), "@")
    ensures DescriptionWalk(lines, i, acc, skipClose) == acc
  {
    ClosingText();
    StepAfterAny(lines[i], skipClose, |lines[i]| + 1);
  }

  /** The walk ends at a line that opens a block, whatever follows the slash and the two
      stars on it */
  lemma WalkStopsAtOpening(lines: seq<string>, i: nat, acc: string, skipClose: bool)
    requires i < |lines| && StartsWith(Trim(lines[i]), "/**")
    ensures DescriptionWalk(lines, i, acc, skipClose) == acc
  {
    var t := Trim(lines[i]);
    assert t[..3] == "/**" && t[0] == '/';
    StepAfterAny(lines[i], skipClose, |lines[i]| + 1);
  }

  /** The walk ends at a line of code: one that is neither blank nor a comment */
  lemma WalkStopsAtCode(lines: seq<string>, i: nat, acc: string, skipClose: bool)
    requires i < |lines|
    requires var t := Trim(lines[i]); t != "" && !StartsWith(t, "*") && !StartsWith(t, "//")
    ensures DescriptionWalk(lines, i, acc, skipClose) == acc
  {
    StepAfterAny(lines[i], skipClose, |lines[i]| + 1);
  }

  // ---------------------------------------------------------------------------------
  // Line-by-line extraction

  /** The present values of `xs`, in order: what a loop over the lines pushes */
  function Somes<T>(xs: seq<Option<T>>): (r: seq<T>)
    ensures |r| <= |xs|
  {
    if |xs| == 0 then [] else (if xs[0].Some? then [xs[0].value] else []) + Somes(xs[1..])
  }

  /** Each value is taken from the line its number names */
  lemma {:induction false} SomesFromLines<T>(xs: seq<Option<T>>, line: T -> int, startLine: int)
    requires NumberedFrom(xs, line, startLine)
    ensures TakenFromLines(xs, Somes(xs), line, startLine)
    decreases |xs|
  {
    if |xs| > 0 {
      var tail := xs[1..];
      var h: seq<T> := if xs[0].Some? then [xs[0].value] else [];
      var rest := Somes(tail);
      SomesFromLines(tail, line, startLine + 1);
      var r := Somes(xs);
      assert r == h + rest;
      forall a | 0 <= a < |r|
        ensures startLine < line(r[a]) <= startLine + |xs| && xs[line(r[a]) - startLine - 1] == Some(r[a])
      {
        if a >= |h| {
          var a' := a - |h|;
          assert r[a] == rest[a'];
          assert tail[line(rest[a']) - (startLine + 1) - 1] == Some(rest[a']);
        }
      }
    }
  }

  /** The values come out in the order of their lines */
  lemma {:induction false} SomesInOrder<T>(xs: seq<Option<T>>, line: T -> int, startLine: int)
    requires NumberedFrom(xs, line, startLine)
    ensures InLineOrder(Somes(xs), line)
    decreases |xs|
  {
    if |xs| > 0 {
      var tail := xs[1..];
      var h: seq<T> := if xs[0].Some? then [xs[0].value] else [];
      var rest := Somes(tail);
      SomesInOrder(tail, line, startLine + 1);
      SomesFromLines(tail, line, startLine + 1);
      var r := Somes(xs);
      assert r == h + rest;
      forall a, b | 0 <= a < b < |r|
        ensures line(r[a]) < line(r[b])
      {
        assert r[b] == rest[b - |h|];
        if a < |h| {
          assert line(r[a]) == startLine + 1;
        } else {
          assert r[a] == rest[a - |h|];
        }
      }
    }
  }

  /** Every present value is reported */
  lemma {:induction false} SomesComplete<T>(xs: seq<Option<T>>)
    ensures NoneLeftOut(xs, Somes(xs))
    decreases |xs|
  {
    if |xs| > 0 {
      var tail := xs[1..];
      SomesComplete(tail);
      forall k | 0 <= k < |xs| && xs[k].Some?
        ensures xs[k].value in Somes(xs)
      {
        if k > 0 {
          assert xs[k] == tail[k - 1];
        }
      }
    }
  }

  /** Every reported value is present at some position */
  lemma {:induction false} SomesOrigin<T>(xs: seq<Option<T>>)
    ensures forall a :: 0 <= a < |Somes(xs)| ==> exists k :: 0 <= k < |xs| && xs[k] == Some(Somes(xs)[a])
    decreases |xs|
  {
    if |xs| > 0 {
      var tail := xs[1..];
      var h: seq<T> := if xs[0].Some? then [xs[0].value] else [];
      SomesOrigin(tail);
      var r := Somes(xs);
      assert r == h + Somes(tail);
      forall a | 0 <= a < |r|
        ensures exists k :: 0 <= k < |xs| && xs[k] == Some(r[a])
      {
        if a >= |h| {
          assert r[a] == Somes(tail)[a - |h|];
          var k :| 0 <= k < |tail| && tail[k] == Some(Somes(tail)[a - |h|]);
          assert xs[k + 1] == Some(r[a]);
        } else {
          assert xs[0] == Some(r[a]);
        }
      }
    } else {
      assert Somes(xs) == [];
    }
  }

  /** When every value is present, nothing is dropped */
  lemma {:induction false} AllPresent<T>(xs: seq<Option<T>>)
    requires forall k :: 0 <= k < |xs| ==> xs[k].Some?
    ensures |Somes(xs)| == |xs| && forall k :: 0 <= k < |xs| ==> Some(Somes(xs)[k]) == xs[k]
    decreases |xs|
  {
    if |xs| > 0 {
      AllPresent(xs[1..]);
    }
  }

  /** Reporting distributes over concatenation */
  lemma {:induction false} SomesAppend<T>(a: seq<Option<T>>, b: seq<Option<T>>)
    ensures Somes(a + b) == Somes(a) + Somes(b)
    decreases |a|
  {
    if |a| == 0 {
      assert a + b == b;
    } else {
      assert (a + b)[0] == a[0];
      assert (a + b)[1..] == a[1..] + b;
      SomesAppend(a[1..], b);
    }
  }

  /** When no value is present, nothing is reported */
  lemma {:induction false} NonePresent<T>(xs: seq<Option<T>>)
    requires forall k :: 0 <= k < |xs| ==> xs[k].None?
    ensures Somes(xs) == []
    decreases |xs|
  {
    if |xs| > 0 {
      NonePresent(xs[1..]);
    }
  }

  /** What a line-by-line extractor reports from its per-line results `xs`: the values of
      the matching lines, each taken from the line its number names, in line order, and
      none left out. Line `k` is numbered `startLine + k + 1`. */
  ghost predicate ReportsByLine<T>(xs: seq<Option<T>>, r: seq<T>, line: T -> int, startLine: int)
  {
    InLineOrder(r, line) && TakenFromLines(xs, r, line, startLine) && NoneLeftOut(xs, r)
  }

  ghost predicate InLineOrder<T>(r: seq<T>, line: T -> int)
  {
    forall a, b :: 0 <= a < b < |r| ==> line(r[a]) < line(r[b])
  }

  ghost predicate TakenFromLines<T>(xs: seq<Option<T>>, r: seq<T>, line: T -> int, startLine: int)
  {
    forall a :: 0 <= a < |r| ==>
      startLine < line(r[a]) <= startLine + |xs| && xs[line(r[a]) - startLine - 1] == Some(r[a])
  }

  ghost predicate NoneLeftOut<T>(xs: seq<Option<T>>, r: seq<T>)
  {
    forall k :: 0 <= k < |xs| && xs[k].Some? ==> xs[k].value in r
  }

  /** The present values of numbered lines are what a line-by-line extractor reports */
  lemma SomesReport<T>(xs: seq<Option<T>>, line: T -> int, startLine: int)
    requires NumberedFrom(xs, line, startLine)
    ensures ReportsByLine(xs, Somes(xs), line, startLine)
  {
    SomesFromLines(xs, line, startLine);
    SomesInOrder(xs, line, startLine);
    SomesComplete(xs);
  }

  function MethodLine(x: MethodInfo): int { x.lineNumber }
  function PropertyLine(x: PropertyInfo): int { x.lineNumber }

  /** Results numbered `startLine + k + 1` for line `k` of a body */
  predicate NumberedFrom<T>(xs: seq<Option<T>>, line: T -> int, startLine: int)
  {
    forall k :: 0 <= k < |xs| && xs[k].Some? ==> line(xs[k].value) == startLine + k + 1
  }

  /** One line of a class body as a method (CodeAnalyzer.ts:227-246). The description is
      looked up in the body only. */
  function MethodAt(lines: seq<string>, k: nat, startLine: int): (r: Option<MethodInfo>)
    requires k < |lines|
    ensures r.Some? <==> ClassMethod(lines[k]).Some?
    ensures r.Some? ==> r.value.lineNumber == startLine + k + 1
  {
    match ClassMethod(lines[k])
    case None => None
    case Some(m) =>
      Some(MethodInfo(Val(m, 4), ParseParameters(Val(m, 5)), TrimOr(Group(m, 6), "void"),
        Description(lines, k), startLine + k + 1,
        GroupIncludes(Group(m, 3), "async"), GroupIncludes(Group(m, 1), "private"),
        GroupIncludes(Group(m, 2), "static")))
  }

  function MethodsOf(lines: seq<string>, startLine: int): (xs: seq<Option<MethodInfo>>)
    ensures |xs| == |lines| && NumberedFrom(xs, MethodLine, startLine)
    ensures forall k :: 0 <= k < |lines| ==> xs[k] == MethodAt(lines, k, startLine)
  {
    seq(|lines|, k requires 0 <= k < |lines| => MethodAt(lines, k, startLine))
  }

  /** `extractMethods(content, startLine)` (CodeAnalyzer.ts:221-251) */
  function ExtractMethods(content: string, startLine: int): (r: seq<MethodInfo>)
    ensures ReportsByLine(MethodsOf(Split(content, '\n'), startLine), r, MethodLine, startLine)
  {
    var xs := MethodsOf(Split(content, '\n'), startLine);
    SomesReport(xs, MethodLine, startLine);
    Somes(xs)
  }

  /** One line of a class body as a property (CodeAnalyzer.ts:259-274) */
  function ClassPropertyAt(lines: seq<string>, k: nat, startLine: int): (r: Option<PropertyInfo>)
    requires k < |lines|
    ensures r.Some? <==> ClassProperty(lines[k]).Some?
    ensures r.Some? ==> r.value.lineNumber == startLine + k + 1
  {
    match ClassProperty(lines[k])
    case None => None
    case Some(m) =>
      Some(PropertyInfo(Val(m, 3), TrimOr(Group(m, 5), "any"), Description(lines, k), startLine + k + 1,
        Group(m, 4) == Some("?"), GroupIncludes(Group(m, 2), "readonly")))
  }

  function ClassPropertiesOf(lines: seq<string>, startLine: int): (xs: seq<Option<PropertyInfo>>)
    ensures |xs| == |lines| && NumberedFrom(xs, PropertyLine, startLine)
    ensures forall k :: 0 <= k < |lines| ==> xs[k] == ClassPropertyAt(lines, k, startLine)
  {
    seq(|lines|, k requires 0 <= k < |lines| => ClassPropertyAt(lines, k, startLine))
  }

  /** `extractClassProperties(content, startLine)` (CodeAnalyzer.ts:253-279) */
  function ExtractClassProperties(content: string, startLine: int): (r: seq<PropertyInfo>)
    ensures ReportsByLine(ClassPropertiesOf(Split(content, '\n'), startLine), r, PropertyLine, startLine)
  {
    var xs := ClassPropertiesOf(Split(content, '\n'), startLine);
    SomesReport(xs, PropertyLine, startLine);
    Somes(xs)
  }

  /** One line of an interface body as a property (CodeAnalyzer.ts:287-301) */
  function InterfacePropertyAt(lines: seq<string>, k: nat, startLine: int): (r: Option<PropertyInfo>)
    requires k < |lines|
    ensures r.Some? <==> InterfaceProperty(lines[k]).Some?
    ensures r.Some? ==> r.value.lineNumber == startLine + k + 1 && !r.value.isReadonly
  {
    match InterfaceProperty(lines[k])
    case None => None
    case Some(m) =>
      Some(PropertyInfo(Val(m, 1), TrimOr(Group(m, 3), "any"), Description(lines, k), startLine + k + 1,
        Group(m, 2) == Some("?"), false))
  }

  function InterfacePropertiesOf(lines: seq<string>, startLine: int): (xs: seq<Option<PropertyInfo>>)
    ensures |xs| == |lines| && NumberedFrom(xs, PropertyLine, startLine)
    ensures forall k :: 0 <= k < |lines| ==> xs[k] == InterfacePropertyAt(lines, k, startLine)
  {
    seq(|lines|, k requires 0 <= k < |lines| => InterfacePropertyAt(lines, k, startLine))
  }

  /** `extractInterfaceProperties(content, startLine)` (CodeAnalyzer.ts:281-306) */
  function ExtractInterfaceProperties(content: string, startLine: int): (r: seq<PropertyInfo>)
    ensures ReportsByLine(InterfacePropertiesOf(Split(content, '\n'), startLine), r, PropertyLine, startLine)
  {
    var xs := InterfacePropertiesOf(Split(content, '\n'), startLine);
    SomesReport(xs, PropertyLine, startLine);
    Somes(xs)
  }

  /** One line of an interface body as a method signature (CodeAnalyzer.ts:314-330) */
  function InterfaceMethodAt(lines: seq<string>, k: nat, startLine: int): (r: Option<MethodInfo>)
    requires k < |lines|
    ensures r.Some? <==> InterfaceMethod(lines[k]).Some?
    ensures r.Some? ==> r.value.lineNumber == startLine + k + 1
    ensures r.Some? ==> !r.value.isAsync && !r.value.isPrivate && !r.value.isStatic
  {
    match InterfaceMethod(lines[k])
    case None => None
    case Some(m) =>
      Some(MethodInfo(Val(m, 1), ParseParameters(Val(m, 2)), TrimOr(Group(m, 3), "void"),
        Description(lines, k), startLine + k + 1, false, false, false))
  }

  function InterfaceMethodsOf(lines: seq<string>, startLine: int): (xs: seq<Option<MethodInfo>>)
    ensures |xs| == |lines| && NumberedFrom(xs, MethodLine, startLine)
    ensures forall k :: 0 <= k < |lines| ==> xs[k] == InterfaceMethodAt(lines, k, startLine)
  {
    seq(|lines|, k requires 0 <= k < |lines| => InterfaceMethodAt(lines, k, startLine))
  }

  /** `extractInterfaceMethods(content, startLine)` (CodeAnalyzer.ts:308-335) */
  function ExtractInterfaceMethods(content: string, startLine: int): (r: seq<MethodInfo>)
    ensures ReportsByLine(InterfaceMethodsOf(Split(content, '\n'), startLine), r, MethodLine, startLine)
  {
    var xs := InterfaceMethodsOf(Split(content, '\n'), startLine);
    SomesReport(xs, MethodLine, startLine);
    Somes(xs)
  }

  // ---------------------------------------------------------------------------------
  // Declaration bodies

  /** The change in brace depth over one line: its `{` count less its `}` count */
  function Net(line: string): int
  {
    Occurrences(line, '{') - Occurrences(line, '}')
  }

  /** The change in brace depth over several lines */
  function Balance(ls: seq<string>): int
  {
    if |ls| == 0 then 0 else Net(ls[0]) + Balance(ls[1..])
  }

  /** The lines the brace-counting loop of CodeAnalyzer.ts:120-129 pushes, starting at line
      `j` with depth `depth`: a contiguous run of the lines */
  function Body(lines: seq<string>, j: nat, depth: int): (body: seq<string>)
    requires j <= |lines|
    ensures j + |body| <= |lines| && body == lines[j..j + |body|]
    decreases |lines| - j
  {
    if j < |lines| && depth > 0 then [lines[j]] + Body(lines, j + 1, depth + Net(lines[j])) else []
  }

  /** The loop pushes a line exactly when the depth before it is positive, and stops at the
      end of the file or right after the first line that brings the depth to zero or below */
  lemma {:induction false} BodyStops(lines: seq<string>, j: nat, depth: int)
    requires j <= |lines|
    ensures forall k :: 0 <= k < |Body(lines, j, depth)| ==> depth + Balance(Body(lines, j, depth)[..k]) > 0
    ensures j + |Body(lines, j, depth)| == |lines| || depth + Balance(Body(lines, j, depth)) <= 0
    decreases |lines| - j
  {
    var body := Body(lines, j, depth);
    if j < |lines| && depth > 0 {
      var d := depth + Net(lines[j]);
      var rest := Body(lines, j + 1, d);
      BodyStops(lines, j + 1, d);
      assert body == [lines[j]] + rest;
      assert body[1..] == rest;
      forall k | 0 <= k < |body|
        ensures depth + Balance(body[..k]) > 0
      {
        if k > 0 {
          assert body[..k][0] == lines[j];
          assert body[..k][1..] == rest[..k - 1];
        }
      }
    }
  }

  /** Joining the body and splitting it again gives the body back; an empty body reads as
      one empty line */
  lemma BodyLines(lines: seq<string>, j: nat, depth: int)
    requires j <= |lines|
    requires forall k :: 0 <= k < |lines| ==> '\n' !in lines[k]
    ensures var body := Body(lines, j, depth);
      Split(JoinWith(body, "\n"), '\n') == if |body| == 0 then [""] else body
  {
    var body := Body(lines, j, depth);
    if |body| > 0 {
      forall k | 0 <= k < |body|
        ensures '\n' !in body[k]
      {
        assert body[k] == lines[j + k];
      }
      SplitJoin(body, '\n');
    } else {
      assert JoinWith(body, "\n") == "";
    }
  }

  /** A line opening with `export` and whitespace: the declarations on it are exported */
  predicate ExportedLine(s: string)
  {
    StartsWith(s, "export") && 6 < |s| && IsSpace(s[6])
  }

  lemma ExportGroupIncludes(s: string)
    ensures GroupIncludes(ExportGroup(s, ExportPrefix(s)), "export") <==> ExportedLine(s)
  {
    var x := ExportPrefix(s);
    if x.Some? {
      assert s[..x.value][0..6] == s[0..6];
      assert OccursAt(s[..x.value], "export", 0);
    }
  }

  // ---------------------------------------------------------------------------------
  // Classes, interfaces and type aliases

  function ClassLine(x: ClassInfo): int { x.lineNumber }
  function InterfaceLine(x: InterfaceInfo): int { x.lineNumber }
  function TypeLine(x: TypeInfo): int { x.lineNumber }

  /** The class declared on line `i`, if any (CodeAnalyzer.ts:111-144): its members come
      from the body lines, numbered as lines of the file */
  function ClassAt(lines: seq<string>, i: nat): (r: Option<ClassInfo>)
    requires i < |lines|
    ensures r.Some? <==> ClassDeclaration(lines[i]).Some?
    ensures r.Some? ==> r.value.lineNumber == i + 1
    ensures r.Some? ==> (r.value.isExported <==> ExportedLine(lines[i]))
  {
    match ClassDeclaration(lines[i])
    case None => None
    case Some(m) =>
      var body := JoinWith(Body(lines, i + 1, 1), "\n");
      ExportGroupIncludes(lines[i]);
      Some(ClassInfo(Val(m, 2), ExtractMethods(body, i + 1), ExtractClassProperties(body, i + 1),
        Description(lines, i), i + 1, GroupIncludes(Group(m, 1), "export"), Group(m, 3),
        ListGroup(Group(m, 4))))
  }

  function ClassesOf(lines: seq<string>): (xs: seq<Option<ClassInfo>>)
    ensures |xs| == |lines| && NumberedFrom(xs, ClassLine, 0)
    ensures forall k :: 0 <= k < |lines| ==> xs[k] == ClassAt(lines, k)
  {
    seq(|lines|, k requires 0 <= k < |lines| => ClassAt(lines, k))
  }

  /** `extractClasses(content)` (CodeAnalyzer.ts:105-149) */
  function ExtractClasses(content: string): (r: seq<ClassInfo>)
    ensures ReportsByLine(ClassesOf(Split(content, '\n')), r, ClassLine, 0)
  {
    var xs := ClassesOf(Split(content, '\n'));
    SomesReport(xs, ClassLine, 0);
    Somes(xs)
  }

  /** The interface declared on line `i`, if any (CodeAnalyzer.ts:157-188) */
  function InterfaceAt(lines: seq<string>, i: nat): (r: Option<InterfaceInfo>)
    requires i < |lines|
    ensures r.Some? <==> InterfaceDeclaration(lines[i]).Some?
    ensures r.Some? ==> r.value.lineNumber == i + 1
    ensures r.Some? ==> (r.value.isExported <==> ExportedLine(lines[i]))
  {
    match InterfaceDeclaration(lines[i])
    case None => None
    case Some(m) =>
      var body := JoinWith(Body(lines, i + 1, 1), "\n");
      ExportGroupIncludes(lines[i]);
      Some(InterfaceInfo(Val(m, 2), ExtractInterfaceProperties(body, i + 1),
        ExtractInterfaceMethods(body, i + 1), Description(lines, i), i + 1,
        GroupIncludes(Group(m, 1), "export"), ListGroup(Group(m, 3))))
  }

  function InterfacesOf(lines: seq<string>): (xs: seq<Option<InterfaceInfo>>)
    ensures |xs| == |lines| && NumberedFrom(xs, InterfaceLine, 0)
    ensures forall k :: 0 <= k < |lines| ==> xs[k] == InterfaceAt(lines, k)
  {
    seq(|lines|, k requires 0 <= k < |lines| => InterfaceAt(lines, k))
  }

  /** `extractInterfaces(content)` (CodeAnalyzer.ts:151-193) */
  function ExtractInterfaces(content: string): (r: seq<InterfaceInfo>)
    ensures ReportsByLine(InterfacesOf(Split(content, '\n')), r, InterfaceLine, 0)
  {
    var xs := InterfacesOf(Split(content, '\n'));
    SomesReport(xs, InterfaceLine, 0);
    Somes(xs)
  }

  /** The type alias declared on line `i`, if any (CodeAnalyzer.ts:201-214) */
  function TypeAt(lines: seq<string>, i: nat): (r: Option<TypeInfo>)
    requires i < |lines|
    ensures r.Some? <==> TypeDeclaration(lines[i]).Some?
    ensures r.Some? ==> r.value.lineNumber == i + 1 && IsTrimmed(r.value.definition)
    ensures r.Some? ==> (r.value.isExported <==> ExportedLine(lines[i]))
  {
    match TypeDeclaration(lines[i])
    case None => None
    case Some(m) =>
      ExportGroupIncludes(lines[i]);
      Some(TypeInfo(Val(m, 2), Trim(Val(m, 3)), Description(lines, i), i + 1,
        GroupIncludes(Group(m, 1), "export")))
  }

  function TypesOf(lines: seq<string>): (xs: seq<Option<TypeInfo>>)
    ensures |xs| == |lines| && NumberedFrom(xs, TypeLine, 0)
    ensures forall k :: 0 <= k < |lines| ==> xs[k] == TypeAt(lines, k)
  {
    seq(|lines|, k requires 0 <= k < |lines| => TypeAt(lines, k))
  }

  /** `extractTypes(content)` (CodeAnalyzer.ts:195-219) */
  function ExtractTypes(content: string): (r: seq<TypeInfo>)
    ensures ReportsByLine(TypesOf(Split(content, '\n')), r, TypeLine, 0)
  {
    var xs := TypesOf(Split(content, '\n'));
    SomesReport(xs, TypeLine, 0);
    Somes(xs)
  }

  /** What a member extractor reports from the `n` body lines starting at line `j`: results
      read from body lines that `matches` accepts, each numbered as the line of the file it
      was read from, and none of those lines left out */
  ghost predicate ReportsBody<T>(lines: seq<string>, j: nat, n: nat, r: seq<T>, line: T -> int,
                                 matches: string -> bool)
    requires j + n <= |lines|
  {
    && (forall a :: 0 <= a < |r| ==> j < line(r[a]) <= j + n && matches(lines[line(r[a]) - 1]))
    && (forall k :: j <= k < j + n && matches(lines[k]) ==> exists a :: 0 <= a < |r| && line(r[a]) == k + 1)
  }

  /** A line-by-line extractor run over a slice of the file reports on the file's lines */
  lemma ReportsOnSlice<T>(lines: seq<string>, j: nat, bl: seq<string>, xs: seq<Option<T>>, r: seq<T>,
                          line: T -> int, matches: string -> bool)
    requires j + |bl| <= |lines| && bl == lines[j..j + |bl|]
    requires |xs| == |bl| && forall k :: 0 <= k < |xs| ==> (xs[k].Some? <==> matches(bl[k]))
    requires NumberedFrom(xs, line, j) && ReportsByLine(xs, r, line, j)
    ensures ReportsBody(lines, j, |bl|, r, line, matches)
  {
    forall a | 0 <= a < |r|
      ensures matches(lines[line(r[a]) - 1])
    {
      var k := line(r[a]) - j - 1;
      assert xs[k] == Some(r[a]);
      assert bl[k] == lines[j + k];
    }
    forall k | j <= k < j + |bl| && matches(lines[k])
      ensures exists a :: 0 <= a < |r| && line(r[a]) == k + 1
    {
      assert bl[k - j] == lines[k];
      var x := xs[k - j].value;
      assert x in r;
      assert line(x) == k + 1;
    }
  }

  /** A line-by-line extractor run over a joined body reports on the lines of the file */
  lemma BodyReport<T>(lines: seq<string>, j: nat, depth: int, xs: seq<Option<T>>, r: seq<T>,
                      line: T -> int, matches: string -> bool)
    requires j <= |lines|
    requires forall k :: 0 <= k < |lines| ==> '\n' !in lines[k]
    requires var bl := Split(JoinWith(Body(lines, j, depth), "\n"), '\n');
      |xs| == |bl| && forall k :: 0 <= k < |xs| ==> (xs[k].Some? <==> matches(bl[k]))
    requires NumberedFrom(xs, line, j) && ReportsByLine(xs, r, line, j)
    requires !matches("")
    ensures ReportsBody(lines, j, |Body(lines, j, depth)|, r, line, matches)
  {
    var body := Body(lines, j, depth);
    BodyLines(lines, j, depth);
    if |body| == 0 {
      assert xs[0].None?;
    } else {
      ReportsOnSlice(lines, j, body, xs, r, line, matches);
    }
  }

  predicate IsMethodLine(s: string) { ClassMethod(s).Some? }

  /** The methods found in a body are read from its lines, each numbered as the line of
      the file it was read from, and every method line of the body is reported */
  lemma MethodsOfBody(lines: seq<string>, j: nat, depth: int)
    requires j <= |lines|
    requires forall k :: 0 <= k < |lines| ==> '\n' !in lines[k]
    ensures ReportsBody(lines, j, |Body(lines, j, depth)|,
      ExtractMethods(JoinWith(Body(lines, j, depth), "\n"), j), MethodLine, IsMethodLine)
  {
    var bl := Split(JoinWith(Body(lines, j, depth), "\n"), '\n');
    assert !IsMethodLine("");
    BodyReport(lines, j, depth, MethodsOf(bl, j), ExtractMethods(JoinWith(Body(lines, j, depth), "\n"), j),
      MethodLine, IsMethodLine);
  }

  predicate IsClassPropertyLine(s: string) { ClassProperty(s).Some? }

  /** The class properties found in a body are read from its lines, each numbered as the line of
      the file it was read from, and every property line of the body is reported */
  lemma ClassPropertiesOfBody(lines: seq<string>, j: nat, depth: int)
    requires j <= |lines|
    requires forall k :: 0 <= k < |lines| ==> '\n' !in lines[k]
    ensures ReportsBody(lines, j, |Body(lines, j, depth)|,
      ExtractClassProperties(JoinWith(Body(lines, j, depth), "\n"), j), PropertyLine, IsClassPropertyLine)
  {
    var bl := Split(JoinWith(Body(lines, j, depth), "\n"), '\n');
    assert !IsClassPropertyLine("");
    BodyReport(lines, j, depth, ClassPropertiesOf(bl, j), ExtractClassProperties(JoinWith(Body(lines, j, depth), "\n"), j),
      PropertyLine, IsClassPropertyLine);
  }

  predicate IsInterfacePropertyLine(s: string) { InterfaceProperty(s).Some? }

  /** The interface properties found in a body are read from its lines, each numbered as the line of
      the file it was read from, and every property line of the body is reported */
  lemma InterfacePropertiesOfBody(lines: seq<string>, j: nat, depth: int)
    requires j <= |lines|
    requires forall k :: 0 <= k < |lines| ==> '\n' !in lines[k]
    ensures ReportsBody(lines, j, |Body(lines, j, depth)|,
      ExtractInterfaceProperties(JoinWith(Body(lines, j, depth), "\n"), j), PropertyLine, IsInterfacePropertyLine)
  {
    var bl := Split(JoinWith(Body(lines, j, depth), "\n"), '\n');
    assert !IsInterfacePropertyLine("");
    BodyReport(lines, j, depth, InterfacePropertiesOf(bl, j), ExtractInterfaceProperties(JoinWith(Body(lines, j, depth), "\n"), j),
      PropertyLine, IsInterfacePropertyLine);
  }

  predicate IsInterfaceMethodLine(s: string) { InterfaceMethod(s).Some? }

  /** The interface methods found in a body are read from its lines, each numbered as the line of
      the file it was read from, and every method signature line of the body is reported */
  lemma InterfaceMethodsOfBody(lines: seq<string>, j: nat, depth: int)
    requires j <= |lines|
    requires forall k :: 0 <= k < |lines| ==> '\n' !in lines[k]
    ensures ReportsBody(lines, j, |Body(lines, j, depth)|,
      ExtractInterfaceMethods(JoinWith(Body(lines, j, depth), "\n"), j), MethodLine, IsInterfaceMethodLine)
  {
    var bl := Split(JoinWith(Body(lines, j, depth), "\n"), '\n');
    assert !IsInterfaceMethodLine("");
    BodyReport(lines, j, depth, InterfaceMethodsOf(bl, j), ExtractInterfaceMethods(JoinWith(Body(lines, j, depth), "\n"), j),
      MethodLine, IsInterfaceMethodLine);
  }

  /** The members of the class declared on line `i` are read from the lines of its body,
      numbered as lines of the file, with no method or property line of the body left out */
  lemma ClassMembersOnTheirLines(lines: seq<string>, i: nat)
    requires i < |lines| && ClassAt(lines, i).Some?
    requires forall k :: 0 <= k < |lines| ==> '\n' !in lines[k]
    ensures var c := ClassAt(lines, i).value; var n := |Body(lines, i + 1, 1)|;
      && ReportsBody(lines, i + 1, n, c.methods, MethodLine, IsMethodLine)
      && ReportsBody(lines, i + 1, n, c.properties, PropertyLine, IsClassPropertyLine)
  {
    var text := JoinWith(Body(lines, i + 1, 1), "\n");
    MethodsOfBody(lines, i + 1, 1);
    ClassPropertiesOfBody(lines, i + 1, 1);
    assert ClassAt(lines, i).value.methods == ExtractMethods(text, i + 1);
    assert ClassAt(lines, i).value.properties == ExtractClassProperties(text, i + 1);
  }

  /** The members of the interface declared on line `i` are read from the lines of its
      body, numbered as lines of the file, with no property or method line left out */
  lemma InterfaceMembersOnTheirLines(lines: seq<string>, i: nat)
    requires i < |lines| && InterfaceAt(lines, i).Some?
    requires forall k :: 0 <= k < |lines| ==> '\n' !in lines[k]
    ensures var c := InterfaceAt(lines, i).value; var n := |Body(lines, i + 1, 1)|;
      && ReportsBody(lines, i + 1, n, c.properties, PropertyLine, IsInterfacePropertyLine)
      && ReportsBody(lines, i + 1, n, c.methods, MethodLine, IsInterfaceMethodLine)
  {
    var text := JoinWith(Body(lines, i + 1, 1), "\n");
    InterfacePropertiesOfBody(lines, i + 1, 1);
    InterfaceMethodsOfBody(lines, i + 1, 1);
    assert InterfaceAt(lines, i).value.properties == ExtractInterfaceProperties(text, i + 1);
    assert InterfaceAt(lines, i).value.methods == ExtractInterfaceMethods(text, i + 1);
  }
}
