/** Function extraction (CodeAnalyzer.ts:63-103). The three function patterns carry the
    `g` and `m` flags and are created once per call, so each keeps its `lastIndex` from one
    line to the next: `exec` searches a line from the position where the previous match of
    the same pattern ended, and `^` only matches at the start of the line or after a line
    terminator inside it. The record pushed for a match reads groups 1 to 6 by the same
    indices whichever pattern matched.

    `ExtractFunctionsAsWritten` keeps both behaviours. `ExtractFunctions` searches every line
    from its start and reads each pattern's own groups; it is the one the rest of the model
    uses. */
module FunctionScan {
  import opened Wrappers
  import opened Text
  import opened Entities
  import opened Shapes
  import opened Analyzer

  /** The function patterns, in the order they are tried on each line */
  datatype Pattern = Regular | Arrow | MethodLike

  function GroupCount(p: Pattern): nat
  {
    match p
    case Regular => 5
    case Arrow => 6
    case MethodLike => 4
  }

  /** The pattern tried at the start of `s` */
  function Recognise(p: Pattern, s: string): (r: Option<RegexMatch>)
    ensures r.Some? ==> MatchOf(s, r.value, GroupCount(p)) && r.value.end > 0
  {
    RecogniseAfter(p, s, |s|)
  }

  /** The recogniser of `p`, reached after `hops` steps. `Recognise` takes as many steps
      as the text is long, a count that is never a literal, so the recognisers stay folded
      in proofs about searches, which mention `Recognise` at many positions of a line;
      `RecogniseBy` unfolds it where a proof needs the recogniser. */
  function RecogniseAfter(p: Pattern, s: string, hops: nat): (r: Option<RegexMatch>)
    ensures r.Some? ==> MatchOf(s, r.value, GroupCount(p)) && r.value.end > 0
    decreases hops
  {
    if hops > 0 then RecogniseAfter(p, s, hops - 1)
    else
      match p
      case Regular => RegularFunction(s)
      case Arrow => ArrowFunction(s)
      case MethodLike => MethodLikeFunction(s)
  }

  /** Each pattern is tried by its own recogniser */
  lemma RecogniseBy(s: string)
    ensures Recognise(Regular, s) == RegularFunction(s)
    ensures Recognise(Arrow, s) == ArrowFunction(s)
    ensures Recognise(MethodLike, s) == MethodLikeFunction(s)
  {
    RecogniseAfterAny(Regular, s, |s|);
    RecogniseAfterAny(Arrow, s, |s|);
    RecogniseAfterAny(MethodLike, s, |s|);
  }

  /** However many steps it takes, the gate reaches the same recogniser */
  lemma {:induction false} RecogniseAfterAny(p: Pattern, s: string, hops: nat)
    ensures RecogniseAfter(p, s, hops) == RecogniseAfter(p, s, 0)
    decreases hops
  {
    if hops > 0 {
      RecogniseAfterAny(p, s, hops - 1);
    }
  }

  /** `^` under the `m` flag: the start of the string, or just after a line terminator */
  predicate AnchorAt(s: string, q: nat)
    requires q <= |s|
  {
    q == 0 || IsLineTerminator(s[q - 1])
  }

  /** What the pattern finds at position `k` of `s`: a match of `s[k..]` where `^` holds */
  function HitAt(p: Pattern, s: string, k: nat): (r: Option<RegexMatch>)
    requires k <= |s|
    ensures r.Some? ==> AnchorAt(s, k)
  {
    if AnchorAt(s, k) then Recognise(p, s[k..]) else None
  }

  /** The first position from `q` on where the pattern finds a match, the end of `s`
      included */
  function FirstHit(p: Pattern, s: string, q: nat): (r: Option<nat>)
    requires q <= |s| + 1
    ensures r.Some? ==> q <= r.value <= |s| && HitAt(p, s, r.value).Some?
    decreases |s| + 1 - q
  {
    if q == |s| + 1 then None
    else if HitAt(p, s, q).Some? then Some(q)
    else FirstHit(p, s, q + 1)
  }

  /** No position between `q` and the first hit holds a match */
  lemma {:induction false} NothingBeforeFirstHit(p: Pattern, s: string, q: nat, k: nat)
    requires q <= k <= |s|
    requires FirstHit(p, s, q).None? || k < FirstHit(p, s, q).value
    ensures HitAt(p, s, k).None?
    decreases k - q
  {
    var here := HitAt(p, s, q);
    assert FirstHit(p, s, q) == if here.Some? then Some(q) else FirstHit(p, s, q + 1);
    if k > q {
      assert here.None?;
      NothingBeforeFirstHit(p, s, q + 1, k);
    }
  }

  /** A match found at `index`, its groups read from `s[index..]` */
  datatype Found = Found(index: nat, m: RegexMatch)

  /** `pattern.exec(s)` on a global regular expression whose `lastIndex` is `last`: the
      first match at or after `last`, and the `lastIndex` it leaves behind (RegExpBuiltinExec,
      section 22.2.7.2 of ECMA-262). A search that fails, or that starts beyond the end,
      resets it to 0. */
  function Exec(p: Pattern, s: string, last: nat): (r: (Option<Found>, nat))
    ensures r.0.Some? ==> last <= r.0.value.index <= |s| && HitAt(p, s, r.0.value.index) == Some(r.0.value.m)
    ensures r.0.Some? ==> r.1 == r.0.value.index + r.0.value.m.end > 0
    ensures r.0.None? ==> r.1 == 0
  {
    if last > |s| then (None, 0)
    else
      match FirstHit(p, s, last)
      case None => (None, 0)
      case Some(k) =>
        var m := HitAt(p, s, k).value;
        (Some(Found(k, m)), k + m.end)
  }

  /** The match `exec` reports is the first one at or after `lastIndex`, and a failed search
      means there is none */
  lemma ExecFirst(p: Pattern, s: string, last: nat, k: nat)
    requires last <= k <= |s|
    requires Exec(p, s, last).0.None? || k < Exec(p, s, last).0.value.index
    ensures HitAt(p, s, k).None?
  {
    NothingBeforeFirstHit(p, s, last, k);
  }

  /** In a line without line terminators `^` only holds at the start */
  lemma AnchorOnlyAtStart(s: string, q: nat)
    requires NoTerminator(s) && q <= |s|
    ensures AnchorAt(s, q) <==> q == 0
  {
    if q > 0 {
      assert !IsLineTerminator(s[q - 1]);
    }
  }

  /** Searching a line without line terminators from its start: the pattern matches there
      or nowhere */
  lemma FreshExec(p: Pattern, s: string)
    ensures NoTerminator(s) ==> (Exec(p, s, 0).0.Some? <==> Recognise(p, s).Some?)
    ensures NoTerminator(s) && Exec(p, s, 0).0.Some? ==> Exec(p, s, 0).0.value == Found(0, Recognise(p, s).value)
  {
    assert s[0..] == s;
    if NoTerminator(s) {
      forall k | 0 < k <= |s|
        ensures HitAt(p, s, k).None?
      {
        NoHitPastStart(p, s, k);
      }
      if Exec(p, s, 0).0.None? {
        ExecFirst(p, s, 0, 0);
      }
    }
  }

  /** In a line without line terminators nothing is found past the start */
  lemma NoHitPastStart(p: Pattern, s: string, k: nat)
    requires NoTerminator(s) && 0 < k <= |s|
    ensures HitAt(p, s, k).None?
  {
    AnchorOnlyAtStart(s, k);
  }

  /** Searching a line without line terminators from a position past its start finds
      nothing, and resets `lastIndex` */
  lemma StickyExec(p: Pattern, s: string, last: nat)
    requires NoTerminator(s) && last > 0
    ensures Exec(p, s, last) == (None, 0)
  {
    forall k | last <= k <= |s|
      ensures HitAt(p, s, k).None?
    {
      NoHitPastStart(p, s, k);
    }
  }

  // ---------------------------------------------------------------------------------
  // Reading a match

  /** `a || b` for a fallback string */
  function OrElse(a: Option<string>, fallback: string): (r: string)
    ensures (a.Some? && a.value != "" && r == a.value) || r == fallback
  {
    if a.Some? && a.value != "" then a.value else fallback
  }

  /** The record CodeAnalyzer.ts:83-96 builds from a match on line `i`, whichever pattern
      produced it */
  function FunctionAsWritten(m: RegexMatch, lines: seq<string>, i: nat): (f: FunctionInfo)
    requires i < |lines|
    ensures f.lineNumber == i + 1 && IsTrimmed(f.returnType)
  {
    FunctionInfo(
      Or(Group(m, 3), Group(m, 2)).GetOr(""),
      ParseParameters(Or(Group(m, 4), Group(m, 5)).GetOr("")),
      Trim(OrElse(Or(Group(m, 5), Group(m, 6)), "void")),
      DescriptionAsWritten(lines, i), i + 1,
      GroupIncludes(Group(m, 2), "async"),
      GroupIncludes(Group(m, 1), "export"))
  }

  /** Under a JSDoc block the record as written carries the block's text followed by ` /`,
      the description the source's upward walk reads from the closing line */
  lemma FunctionAsWrittenUnderBlock(m: RegexMatch, lines: seq<string>, i: nat, texts: seq<string>)
    requires i < |lines| && BlockAbove(lines, i, texts) && 1 <= |texts|
    requires forall k :: 0 <= k < |texts| ==> CommentLine(texts[k])
    ensures FunctionAsWritten(m, lines, i).description == JoinWith(texts, " ") + " /"
  {
    DescriptionAsWrittenOfBlock(lines, i, texts);
  }

  /** Where each pattern puts the parts of a function */
  datatype Layout = Layout(exportGroup: Option<nat>, asyncGroup: nat, nameGroup: nat, paramsGroup: nat,
                           returnGroup: nat)

  function LayoutOf(p: Pattern): (l: Layout)
    ensures l.exportGroup.Some? ==> l.exportGroup.value <= GroupCount(p)
    ensures l.asyncGroup <= GroupCount(p) && l.nameGroup <= GroupCount(p)
    ensures l.paramsGroup <= GroupCount(p) && l.returnGroup <= GroupCount(p)
  {
    match p
    case Regular => Layout(Some(1), 2, 3, 4, 5)
    case Arrow => Layout(Some(1), 4, 3, 5, 6)
    case MethodLike => Layout(None, 1, 2, 3, 4)
  }

  /** The record for a match of pattern `p` on line `i`, each part read from the group the
      pattern declares for it */
  function FunctionFrom(p: Pattern, m: RegexMatch, lines: seq<string>, i: nat): (f: FunctionInfo)
    requires i < |lines|
    ensures f.lineNumber == i + 1 && IsTrimmed(f.returnType)
    ensures f.name == Val(m, LayoutOf(p).nameGroup)
    ensures f.parameters == ParseParameters(Val(m, LayoutOf(p).paramsGroup))
    ensures p == MethodLike ==> !f.isExported
  {
    var l := LayoutOf(p);
    assert IsTrimmed("void");
    FunctionInfo(
      Val(m, l.nameGroup),
      ParseParameters(Val(m, l.paramsGroup)),
      TrimOr(Group(m, l.returnGroup), "void"),
      Description(lines, i), i + 1,
      GroupIncludes(Group(m, l.asyncGroup), "async"),
      l.exportGroup.Some? && GroupIncludes(Group(m, l.exportGroup.value), "export"))
  }

  // ---------------------------------------------------------------------------------
  // The scan as written: cursors shared across lines, one record layout for all patterns

  /** The `lastIndex` of each of the three pattern objects */
  datatype Cursors = Cursors(regular: nat, arrow: nat, methodLike: nat)

  function CursorOf(c: Cursors, p: Pattern): nat
  {
    match p
    case Regular => c.regular
    case Arrow => c.arrow
    case MethodLike => c.methodLike
  }

  function WithCursor(c: Cursors, p: Pattern, v: nat): (d: Cursors)
    ensures CursorOf(d, p) == v
    ensures forall q :: q != p ==> CursorOf(d, q) == CursorOf(c, q)
  {
    match p
    case Regular => c.(regular := v)
    case Arrow => c.(arrow := v)
    case MethodLike => c.(methodLike := v)
  }

  /** One pattern on line `i`: the record pushed if its search from its own cursor finds a
      match, and the cursors afterwards */
  function TryAsWritten(lines: seq<string>, i: nat, c: Cursors, p: Pattern): (r: (seq<FunctionInfo>, Cursors))
    requires i < |lines|
    ensures |r.0| <= 1 && (r.0 != [] <==> Exec(p, lines[i], CursorOf(c, p)).0.Some?)
    ensures CursorOf(r.1, p) == Exec(p, lines[i], CursorOf(c, p)).1
    ensures forall q :: q != p ==> CursorOf(r.1, q) == CursorOf(c, q)
    ensures forall k :: 0 <= k < |r.0| ==> r.0[k].lineNumber == i + 1 && IsTrimmed(r.0[k].returnType)
  {
    var (found, next) := Exec(p, lines[i], CursorOf(c, p));
    (if found.Some? then [FunctionAsWritten(found.value.m, lines, i)] else [], WithCursor(c, p, next))
  }

  /** Line `i` as written: the three patterns in order, each moving only its own cursor */
  function LineAsWritten(lines: seq<string>, i: nat, c: Cursors): (r: (seq<FunctionInfo>, Cursors))
    requires i < |lines|
  {
    LineAsWrittenAfter(lines, i, c, |lines|)
  }

  /** Line `i` as written, reached after `hops` steps. `LineAsWritten` takes as many steps as
      there are lines, so the searches of a line stay folded in the inductions over the lines;
      `LineAsWrittenBy` unfolds them where a proof needs them */
  function LineAsWrittenAfter(lines: seq<string>, i: nat, c: Cursors, hops: nat): (r: (seq<FunctionInfo>, Cursors))
    requires i < |lines|
    decreases hops
  {
    if hops > 0 then LineAsWrittenAfter(lines, i, c, hops - 1)
    else
      var a := TryAsWritten(lines, i, c, Regular);
      var b := TryAsWritten(lines, i, a.1, Arrow);
      var d := TryAsWritten(lines, i, b.1, MethodLike);
      (a.0 + b.0 + d.0, d.1)
  }

  /** However many steps it takes, the gate reaches the same line */
  lemma {:induction false} LineAsWrittenAny(lines: seq<string>, i: nat, c: Cursors, hops: nat)
    requires i < |lines|
    ensures LineAsWrittenAfter(lines, i, c, hops) == LineAsWrittenAfter(lines, i, c, 0)
    decreases hops
  {
    if hops > 0 {
      LineAsWrittenAny(lines, i, c, hops - 1);
    }
  }

  /** Line `i` as written is its three searches */
  lemma LineAsWrittenBy(lines: seq<string>, i: nat, c: Cursors)
    requires i < |lines|
    ensures LineAsWritten(lines, i, c) == LineAsWrittenAfter(lines, i, c, 0)
  {
    LineAsWrittenAny(lines, i, c, |lines|);
  }

  /** Every record line `i` gives carries the line's number and a trimmed return type */
  lemma LineNumbered(lines: seq<string>, i: nat, c: Cursors)
    requires i < |lines|
    ensures forall k :: 0 <= k < |LineAsWritten(lines, i, c).0| ==>
      LineAsWritten(lines, i, c).0[k].lineNumber == i + 1 && IsTrimmed(LineAsWritten(lines, i, c).0[k].returnType)
  {
    LineAsWrittenBy(lines, i, c);
    var a := TryAsWritten(lines, i, c, Regular);
    var b := TryAsWritten(lines, i, a.1, Arrow);
    var d := TryAsWritten(lines, i, b.1, MethodLike);
    NumberedJoin(a.0, b.0, d.0, i + 1);
  }

  lemma NumberedJoin(xs: seq<FunctionInfo>, ys: seq<FunctionInfo>, zs: seq<FunctionInfo>, n: int)
    requires forall k :: 0 <= k < |xs| ==> xs[k].lineNumber == n && IsTrimmed(xs[k].returnType)
    requires forall k :: 0 <= k < |ys| ==> ys[k].lineNumber == n && IsTrimmed(ys[k].returnType)
    requires forall k :: 0 <= k < |zs| ==> zs[k].lineNumber == n && IsTrimmed(zs[k].returnType)
    ensures forall k :: 0 <= k < |xs + ys + zs| ==>
      (xs + ys + zs)[k].lineNumber == n && IsTrimmed((xs + ys + zs)[k].returnType)
  {
  }

  /** After line `i` every cursor is where its own pattern's search of the line left it */
  lemma LineCursors(lines: seq<string>, i: nat, c: Cursors)
    requires i < |lines|
    ensures forall p :: CursorOf(LineAsWritten(lines, i, c).1, p) == Exec(p, lines[i], CursorOf(c, p)).1
  {
    LineAsWrittenBy(lines, i, c);
    var a := TryAsWritten(lines, i, c, Regular);
    var b := TryAsWritten(lines, i, a.1, Arrow);
    var d := TryAsWritten(lines, i, b.1, MethodLike);
    CursorsAfterTries(lines, i, c, a, b, d);
  }

  /** Each pattern of a line moves only its own cursor, so after the three tries every
      cursor is where its own search left it */
  lemma CursorsAfterTries(lines: seq<string>, i: nat, c: Cursors, a: (seq<FunctionInfo>, Cursors),
                          b: (seq<FunctionInfo>, Cursors), d: (seq<FunctionInfo>, Cursors))
    requires i < |lines|
    requires a == TryAsWritten(lines, i, c, Regular) && b == TryAsWritten(lines, i, a.1, Arrow)
    requires d == TryAsWritten(lines, i, b.1, MethodLike)
    ensures forall p :: CursorOf(d.1, p) == Exec(p, lines[i], CursorOf(c, p)).1
  {
    forall p
      ensures CursorOf(d.1, p) == Exec(p, lines[i], CursorOf(c, p)).1
    {
      if p == Regular {
        assert CursorOf(d.1, p) == CursorOf(a.1, p);
      } else if p == Arrow {
        assert CursorOf(d.1, p) == CursorOf(b.1, p) && CursorOf(a.1, p) == CursorOf(c, p);
      } else {
        assert CursorOf(b.1, p) == CursorOf(c, p);
      }
    }
  }

  function ScanAsWritten(lines: seq<string>, i: nat, c: Cursors): (fs: seq<FunctionInfo>)
    requires i <= |lines|
    ensures forall k :: 0 <= k < |fs| ==> i < fs[k].lineNumber <= |lines| && IsTrimmed(fs[k].returnType)
    decreases |lines| - i
  {
    if i == |lines| then []
    else
      var line := LineAsWritten(lines, i, c);
      LineNumbered(lines, i, c);
      NumberedAbove(line.0, ScanAsWritten(lines, i + 1, line.1), i, |lines|);
      line.0 + ScanAsWritten(lines, i + 1, line.1)
  }

  /** Records of line `i + 1` followed by records of the lines below it, up to line `n`, lie
      below line `i` and no further than line `n` */
  lemma NumberedAbove(here: seq<FunctionInfo>, rest: seq<FunctionInfo>, i: nat, n: nat)
    requires forall k :: 0 <= k < |here| ==> here[k].lineNumber == i + 1 <= n && IsTrimmed(here[k].returnType)
    requires forall k :: 0 <= k < |rest| ==> i + 1 < rest[k].lineNumber <= n && IsTrimmed(rest[k].returnType)
    ensures forall k :: 0 <= k < |here + rest| ==>
      i < (here + rest)[k].lineNumber <= n && IsTrimmed((here + rest)[k].returnType)
  {
  }

  /** `extractFunctions(content)` as CodeAnalyzer.ts:63-103 writes it: the records are those
      the patterns push line by line from the cursors the earlier lines left, in line order */
  function ExtractFunctionsAsWritten(content: string): (fs: seq<FunctionInfo>)
    ensures FoundAsWritten(Split(content, '\n'), 0, fs)
    ensures forall a, b :: 0 <= a < b < |fs| ==> fs[a].lineNumber <= fs[b].lineNumber
    ensures forall k :: 0 <= k < |fs| ==> 0 < fs[k].lineNumber <= |Split(content, '\n')|
    ensures forall k :: 0 <= k < |fs| ==> IsTrimmed(fs[k].returnType)
  {
    var lines := Split(content, '\n');
    ScanAsWrittenFound(lines, 0, Cursors(0, 0, 0));
    ScanAsWrittenInOrder(lines, 0, Cursors(0, 0, 0));
    ScanAsWritten(lines, 0, Cursors(0, 0, 0))
  }

  /** The records of the scan as written from line `i` on come in line order */
  lemma {:induction false} ScanAsWrittenInOrder(lines: seq<string>, i: nat, c: Cursors)
    requires i <= |lines|
    ensures LinesNonDecreasing(ScanAsWritten(lines, i, c))
    decreases |lines| - i
  {
    if i < |lines| {
      var line := LineAsWritten(lines, i, c);
      LineNumbered(lines, i, c);
      ScanAsWrittenInOrder(lines, i + 1, line.1);
      OrderedAfterLine(line.0, ScanAsWritten(lines, i + 1, line.1), i + 1);
    }
  }

  /** The cursors the scan as written carries into line `i` */
  function CursorsAt(lines: seq<string>, i: nat): Cursors
    requires i <= |lines|
    decreases i
  {
    if i == 0 then Cursors(0, 0, 0) else LineAsWritten(lines, i - 1, CursorsAt(lines, i - 1)).1
  }

  /** The record pattern `p` pushes on line `i` in the scan as written, if any */
  function RecordAsWritten(lines: seq<string>, i: nat, p: Pattern): Option<FunctionInfo>
    requires i < |lines|
  {
    RecordAsWrittenAfter(lines, i, p, |lines|)
  }

  /** The record of line `i`, reached after `hops` steps, so that statements about which lines
      hold records leave the search folded; `RecordAsWrittenBy` unfolds it */
  function RecordAsWrittenAfter(lines: seq<string>, i: nat, p: Pattern, hops: nat): Option<FunctionInfo>
    requires i < |lines|
    decreases hops
  {
    if hops > 0 then RecordAsWrittenAfter(lines, i, p, hops - 1)
    else
      match Exec(p, lines[i], CursorOf(CursorsAt(lines, i), p)).0
      case None => None
      case Some(f) => Some(FunctionAsWritten(f.m, lines, i))
  }

  /** However many steps it takes, the gate reaches the same record */
  lemma {:induction false} RecordAsWrittenAny(lines: seq<string>, i: nat, p: Pattern, hops: nat)
    requires i < |lines|
    ensures RecordAsWrittenAfter(lines, i, p, hops) == RecordAsWrittenAfter(lines, i, p, 0)
    decreases hops
  {
    if hops > 0 {
      RecordAsWrittenAny(lines, i, p, hops - 1);
    }
  }

  /** The record of line `i` is what the search of the line from the pattern's cursor finds */
  lemma RecordAsWrittenBy(lines: seq<string>, i: nat, p: Pattern)
    requires i < |lines|
    ensures RecordAsWritten(lines, i, p) == RecordAsWrittenAfter(lines, i, p, 0)
  {
    RecordAsWrittenAny(lines, i, p, |lines|);
  }

  /** On a line without line terminators, a pattern pushes a record exactly when it recognises
      the line and pushed none on the line before; the record is read from its match */
  lemma ReportedAsWritten(lines: seq<string>, i: nat, p: Pattern)
    requires i < |lines| && NoTerminator(lines[i])
    ensures RecordAsWritten(lines, i, p).Some? <==>
      Recognise(p, lines[i]).Some? && (i == 0 || RecordAsWritten(lines, i - 1, p).None?)
    ensures RecordAsWritten(lines, i, p).Some? ==>
      RecordAsWritten(lines, i, p) == Some(FunctionAsWritten(Recognise(p, lines[i]).value, lines, i))
  {
    RecordFound(lines, i, p);
    ExecFromCursor(p, lines[i], CursorOf(CursorsAt(lines, i), p));
    CursorAtStart(lines, i, p);
  }

  /** Pattern `p` pushes a record on line `i` exactly when its search from its cursor finds a
      match, and the record is read from that match */
  lemma RecordFound(lines: seq<string>, i: nat, p: Pattern)
    requires i < |lines|
    ensures RecordAsWritten(lines, i, p).Some? <==> Exec(p, lines[i], CursorOf(CursorsAt(lines, i), p)).0.Some?
    ensures RecordAsWritten(lines, i, p).Some? ==>
      RecordAsWritten(lines, i, p).value == FunctionAsWritten(Exec(p, lines[i], CursorOf(CursorsAt(lines, i), p)).0.value.m, lines, i)
  {
    RecordAsWrittenBy(lines, i, p);
  }

  /** A pattern's cursor is at the start of line `i` exactly when it pushed no record on the
      line before */
  lemma CursorAtStart(lines: seq<string>, i: nat, p: Pattern)
    requires i < |lines|
    ensures CursorOf(CursorsAt(lines, i), p) == 0 <==> i == 0 || RecordAsWritten(lines, i - 1, p).None?
  {
    if i > 0 {
      RecordFound(lines, i - 1, p);
      CursorFromAbove(lines, i, p);
    }
  }

  /** On a line without line terminators a search finds a match only from the start of the
      line, and then it finds what the pattern recognises */
  lemma ExecFromCursor(p: Pattern, s: string, last: nat)
    requires NoTerminator(s)
    ensures Exec(p, s, last).0.Some? <==> last == 0 && Recognise(p, s).Some?
    ensures Exec(p, s, last).0.Some? ==> Exec(p, s, last).0.value.m == Recognise(p, s).value
  {
    if last == 0 {
      FreshExec(p, s);
    } else {
      StickyExec(p, s, last);
    }
  }

  /** The cursor a pattern carries into line `i` is where its search of line `i - 1` left it */
  lemma CursorFromAbove(lines: seq<string>, i: nat, p: Pattern)
    requires 0 < i < |lines|
    ensures CursorOf(CursorsAt(lines, i), p) == Exec(p, lines[i - 1], CursorOf(CursorsAt(lines, i - 1), p)).1
  {
    LineCursors(lines, i - 1, CursorsAt(lines, i - 1));
  }

  /** A try on line `i` from cursors that put `p` where the scan as written has it pushes the
      record of `RecordAsWritten` */
  lemma TryIsRecord(lines: seq<string>, i: nat, c: Cursors, p: Pattern)
    requires i < |lines| && CursorOf(c, p) == CursorOf(CursorsAt(lines, i), p)
    ensures TryAsWritten(lines, i, c, p).0 == Present(RecordAsWritten(lines, i, p))
  {
    RecordAsWrittenBy(lines, i, p);
  }

  /** The records of line `i`: the regular pattern's, then the arrow pattern's, then the
      method-like pattern's */
  lemma LineAsWrittenRecords(lines: seq<string>, i: nat)
    requires i < |lines|
    ensures LineAsWritten(lines, i, CursorsAt(lines, i)).0 == Present(RecordAsWritten(lines, i, Regular))
      + Present(RecordAsWritten(lines, i, Arrow)) + Present(RecordAsWritten(lines, i, MethodLike))
  {
    var c := CursorsAt(lines, i);
    LineAsWrittenBy(lines, i, c);
    var a := TryAsWritten(lines, i, c, Regular);
    var b := TryAsWritten(lines, i, a.1, Arrow);
    TryIsRecord(lines, i, c, Regular);
    TryIsRecord(lines, i, a.1, Arrow);
    TryIsRecord(lines, i, b.1, MethodLike);
  }

  /** `fs` holds exactly the records the scan as written pushes on the lines from `i` on */
  ghost predicate FoundAsWritten(lines: seq<string>, i: nat, fs: seq<FunctionInfo>)
  {
    forall f :: f in fs <==> RecordedFrom(lines, i, f)
  }

  /** Some pattern pushes `f` on some line from `i` on in the scan as written */
  ghost predicate RecordedFrom(lines: seq<string>, i: nat, f: FunctionInfo)
  {
    exists k, p :: i <= k < |lines| && RecordAsWritten(lines, k, p) == Some(f)
  }

  /** A record pushed from line `i` on is pushed on line `i` or below it */
  lemma RecordedSplit(lines: seq<string>, i: nat, f: FunctionInfo)
    requires i < |lines|
    ensures RecordedFrom(lines, i, f) <==>
      (exists p :: RecordAsWritten(lines, i, p) == Some(f)) || RecordedFrom(lines, i + 1, f)
  {
    if RecordedFrom(lines, i, f) {
      var k, p :| i <= k < |lines| && RecordAsWritten(lines, k, p) == Some(f);
      if k > i {
        assert i + 1 <= k < |lines| && RecordAsWritten(lines, k, p) == Some(f);
      } else {
        assert RecordAsWritten(lines, i, p) == Some(f);
      }
    }
    if exists p :: RecordAsWritten(lines, i, p) == Some(f) {
      var p :| RecordAsWritten(lines, i, p) == Some(f);
      assert i <= i < |lines| && RecordAsWritten(lines, i, p) == Some(f);
    }
    if RecordedFrom(lines, i + 1, f) {
      var k, p :| i + 1 <= k < |lines| && RecordAsWritten(lines, k, p) == Some(f);
      assert i <= k < |lines| && RecordAsWritten(lines, k, p) == Some(f);
    }
  }

  /** The records of line `i` are those its patterns push */
  lemma LineAsWrittenFound(lines: seq<string>, i: nat)
    requires i < |lines|
    ensures forall f :: f in LineAsWritten(lines, i, CursorsAt(lines, i)).0 <==>
      exists p :: RecordAsWritten(lines, i, p) == Some(f)
  {
    LineAsWrittenRecords(lines, i);
    forall f
      ensures f in LineAsWritten(lines, i, CursorsAt(lines, i)).0 <==> exists p :: RecordAsWritten(lines, i, p) == Some(f)
    {
      PresentOfThree(RecordAsWritten(lines, i, Regular), RecordAsWritten(lines, i, Arrow),
        RecordAsWritten(lines, i, MethodLike), f);
      if exists p :: RecordAsWritten(lines, i, p) == Some(f) {
        var p :| RecordAsWritten(lines, i, p) == Some(f);
        assert p == Regular || p == Arrow || p == MethodLike;
      }
    }
  }

  /** What three optional values put together hold */
  lemma PresentOfThree<T>(a: Option<T>, b: Option<T>, c: Option<T>, x: T)
    ensures x in Present(a) + Present(b) + Present(c) <==> a == Some(x) || b == Some(x) || c == Some(x)
  {
  }

  /** The scan as written from line `i` on, with the cursors `c` the lines above left,
      pushes the records of those lines */
  lemma {:induction false} ScanAsWrittenFound(lines: seq<string>, i: nat, c: Cursors)
    requires i <= |lines| && c == CursorsAt(lines, i)
    ensures FoundAsWritten(lines, i, ScanAsWritten(lines, i, c))
    decreases |lines| - i
  {
    if i < |lines| {
      ScanAsWrittenFound(lines, i + 1, CursorsAt(lines, i + 1));
      FoundNext(lines, i);
    }
  }

  /** If the scan as written from line `i + 1` finds what the patterns push there, so does the
      scan from line `i` */
  lemma FoundNext(lines: seq<string>, i: nat)
    requires i < |lines|
    requires FoundAsWritten(lines, i + 1, ScanAsWritten(lines, i + 1, CursorsAt(lines, i + 1)))
    ensures FoundAsWritten(lines, i, ScanAsWritten(lines, i, CursorsAt(lines, i)))
  {
    var c := CursorsAt(lines, i);
    var line := LineAsWritten(lines, i, c);
    CursorsAfterLine(lines, i, c);
    FoundStep(lines, i, c, line.0, line.1, ScanAsWritten(lines, i + 1, line.1));
  }

  /** The cursors a line leaves are those the scan carries into the next line */
  lemma CursorsAfterLine(lines: seq<string>, i: nat, c: Cursors)
    requires i < |lines| && c == CursorsAt(lines, i)
    ensures LineAsWritten(lines, i, c).1 == CursorsAt(lines, i + 1)
  {
  }

  /** One line of the scan as written: its records, then those of the lines below it */
  lemma FoundStep(lines: seq<string>, i: nat, c: Cursors, here: seq<FunctionInfo>, next: Cursors,
                  rest: seq<FunctionInfo>)
    requires i < |lines| && c == CursorsAt(lines, i) && LineAsWritten(lines, i, c) == (here, next)
    requires rest == ScanAsWritten(lines, i + 1, next) && FoundAsWritten(lines, i + 1, rest)
    ensures FoundAsWritten(lines, i, ScanAsWritten(lines, i, c))
  {
    LineAsWrittenFound(lines, i);
    FoundJoin(lines, i, here, rest);
  }

  /** The records of line `i` followed by those of the lines below it are those of the lines
      from `i` on */
  lemma FoundJoin(lines: seq<string>, i: nat, here: seq<FunctionInfo>, rest: seq<FunctionInfo>)
    requires i < |lines|
    requires forall f :: f in here <==> exists p :: RecordAsWritten(lines, i, p) == Some(f)
    requires FoundAsWritten(lines, i + 1, rest)
    ensures FoundAsWritten(lines, i, here + rest)
  {
    forall f
      ensures f in here + rest <==> RecordedFrom(lines, i, f)
    {
      RecordedSplit(lines, i, f);
    }
  }

  /** As written, once a pattern has matched a line it cannot match the next line if that
      line has no line terminator in it: its search starts past the start of the line */
  lemma NextLineMissedAsWritten(lines: seq<string>, i: nat, c: Cursors, p: Pattern)
    requires i + 1 < |lines| && NoTerminator(lines[i + 1])
    requires Exec(p, lines[i], CursorOf(c, p)).0.Some?
    ensures Exec(p, lines[i + 1], CursorOf(LineAsWritten(lines, i, c).1, p)) == (None, 0)
  {
    LineCursors(lines, i, c);
    StickyExec(p, lines[i + 1], CursorOf(LineAsWritten(lines, i, c).1, p));
  }

  // ---------------------------------------------------------------------------------
  // The scan with a fresh search on every line and each pattern's own groups

  /** The function pattern `p` finds on line `i` */
  function FunctionAt(lines: seq<string>, i: nat, p: Pattern): (r: Option<FunctionInfo>)
    requires i < |lines|
    ensures r.Some? <==> Exec(p, lines[i], 0).0.Some?
    ensures NoTerminator(lines[i]) ==> (r.Some? <==> Recognise(p, lines[i]).Some?)
    ensures r.Some? ==> r.value.lineNumber == i + 1 && IsTrimmed(r.value.returnType)
  {
    FreshExec(p, lines[i]);
    match Exec(p, lines[i], 0).0
    case None => None
    case Some(f) => Some(FunctionFrom(p, f.m, lines, i))
  }

  function Present<T>(o: Option<T>): (r: seq<T>)
    ensures |r| == if o.Some? then 1 else 0
    ensures forall k :: 0 <= k < |r| ==> o == Some(r[k])
  {
    if o.Some? then [o.value] else []
  }

  /** The patterns in the order they are tried on each line */
  const Patterns: seq<Pattern> := [Regular, Arrow, MethodLike]

  /** What the patterns `ps` find on line `i`, one record per matching pattern, in order */
  function FoundBy(lines: seq<string>, i: nat, ps: seq<Pattern>): (fs: seq<FunctionInfo>)
    requires i < |lines|
    ensures forall k :: 0 <= k < |fs| ==> fs[k].lineNumber == i + 1 && IsTrimmed(fs[k].returnType)
  {
    if |ps| == 0 then [] else Present(FunctionAt(lines, i, ps[0])) + FoundBy(lines, i, ps[1..])
  }

  /** What line `i` contributes */
  function LineFunctions(lines: seq<string>, i: nat): (fs: seq<FunctionInfo>)
    requires i < |lines|
    ensures forall k :: 0 <= k < |fs| ==> fs[k].lineNumber == i + 1 && IsTrimmed(fs[k].returnType)
  {
    FoundBy(lines, i, Patterns)
  }

  /** A line's records: the regular pattern's, then the arrow pattern's, then the
      method-like pattern's */
  lemma LineOfThree(lines: seq<string>, i: nat)
    requires i < |lines|
    ensures LineFunctions(lines, i) == Present(FunctionAt(lines, i, Regular))
      + Present(FunctionAt(lines, i, Arrow)) + Present(FunctionAt(lines, i, MethodLike))
  {
    PatternsTails();
    assert FoundBy(lines, i, [MethodLike]) == Present(FunctionAt(lines, i, MethodLike)) + FoundBy(lines, i, []);
    assert FoundBy(lines, i, [Arrow, MethodLike]) ==
      Present(FunctionAt(lines, i, Arrow)) + FoundBy(lines, i, [MethodLike]);
  }

  /** A line gives at most one record per pattern */
  lemma AtMostOnePerPattern(lines: seq<string>, i: nat)
    requires i < |lines|
    ensures |LineFunctions(lines, i)| <= |Patterns|
  {
    LineOfThree(lines, i);
  }

  lemma PatternsTails()
    ensures Patterns[1..] == [Arrow, MethodLike]
    ensures Patterns[1..][1..] == [MethodLike]
    ensures Patterns[1..][1..][1..] == []
  {
  }

  /** The records of a line are those its patterns find */
  lemma LineFunctionsFound(lines: seq<string>, i: nat)
    requires i < |lines|
    ensures forall f :: f in LineFunctions(lines, i) <==> exists p :: FunctionAt(lines, i, p) == Some(f)
  {
    LineOfThree(lines, i);
    forall f
      ensures f in LineFunctions(lines, i) <==> exists p :: FunctionAt(lines, i, p) == Some(f)
    {
      if exists p :: FunctionAt(lines, i, p) == Some(f) {
        var p :| FunctionAt(lines, i, p) == Some(f);
        assert p == Regular || p == Arrow || p == MethodLike;
      }
    }
  }

  /** The records of the lines from line `i` on, line by line */
  function ScanFrom(lines: seq<string>, i: nat): (fs: seq<FunctionInfo>)
    requires i <= |lines|
    ensures forall k :: 0 <= k < |fs| ==> i < fs[k].lineNumber <= |lines| && IsTrimmed(fs[k].returnType)
    decreases |lines| - i
  {
    if i == |lines| then [] else LineFunctions(lines, i) + ScanFrom(lines, i + 1)
  }

  /** `fs` holds exactly the records the patterns find on the lines from `i` on */
  ghost predicate FoundFrom(lines: seq<string>, i: nat, fs: seq<FunctionInfo>)
  {
    forall f :: f in fs <==> exists k, p :: i <= k < |lines| && FunctionAt(lines, k, p) == Some(f)
  }

  /** The records of the lines from `i` on are those the patterns find on those lines */
  lemma {:induction false} ScanFound(lines: seq<string>, i: nat)
    requires i <= |lines|
    ensures FoundFrom(lines, i, ScanFrom(lines, i))
    decreases |lines| - i
  {
    if i < |lines| {
      ScanFound(lines, i + 1);
      LineFunctionsFound(lines, i);
      var here, rest := LineFunctions(lines, i), ScanFrom(lines, i + 1);
      assert ScanFrom(lines, i) == here + rest;
      forall f
        ensures f in here + rest <==> exists k, p :: i <= k < |lines| && FunctionAt(lines, k, p) == Some(f)
      {
        if exists k, p :: i <= k < |lines| && FunctionAt(lines, k, p) == Some(f) {
          var k, p :| i <= k < |lines| && FunctionAt(lines, k, p) == Some(f);
          if k == i {
            assert f in here;
          } else {
            assert f in rest;
          }
        }
      }
    }
  }

  predicate LinesNonDecreasing(fs: seq<FunctionInfo>)
  {
    forall a, b :: 0 <= a < b < |fs| ==> fs[a].lineNumber <= fs[b].lineNumber
  }

  /** Records of one line followed by ordered records of later lines are ordered */
  lemma OrderedAfterLine(here: seq<FunctionInfo>, rest: seq<FunctionInfo>, n: int)
    requires forall k :: 0 <= k < |here| ==> here[k].lineNumber == n
    requires forall k :: 0 <= k < |rest| ==> n < rest[k].lineNumber
    requires LinesNonDecreasing(rest)
    ensures LinesNonDecreasing(here + rest)
  {
    var fs := here + rest;
    forall a, b | 0 <= a < b < |fs|
      ensures fs[a].lineNumber <= fs[b].lineNumber
    {
      if b >= |here| {
        assert fs[b] == rest[b - |here|];
        if a >= |here| {
          assert fs[a] == rest[a - |here|];
        }
      }
    }
  }

  /** The records of the lines from `i` on come in line order */
  lemma {:induction false} ScanInOrder(lines: seq<string>, i: nat)
    requires i <= |lines|
    ensures LinesNonDecreasing(ScanFrom(lines, i))
    decreases |lines| - i
  {
    if i < |lines| {
      ScanInOrder(lines, i + 1);
      OrderedAfterLine(LineFunctions(lines, i), ScanFrom(lines, i + 1), i + 1);
    }
  }

  /** `extractFunctions(content)` with a fresh search on every line and each pattern's own
      groups: the records are those the patterns find on the lines, in line order */
  function ExtractFunctions(content: string): (fs: seq<FunctionInfo>)
    ensures FoundFrom(Split(content, '\n'), 0, fs)
    ensures forall a, b :: 0 <= a < b < |fs| ==> fs[a].lineNumber <= fs[b].lineNumber
    ensures forall a :: 0 <= a < |fs| ==> 0 < fs[a].lineNumber <= |Split(content, '\n')|
    ensures forall a :: 0 <= a < |fs| ==> IsTrimmed(fs[a].returnType)
  {
    var lines := Split(content, '\n');
    ScanFound(lines, 0);
    ScanInOrder(lines, 0);
    ScanFrom(lines, 0)
  }
}
