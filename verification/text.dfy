/** Strings as the analyser sees them: JavaScript character classes (`\s`, `\w`, line
    terminators), `trim`, `split` on a character, `split` on a run of separator characters,
    `join`, `includes`, ASCII `toLowerCase`, and the decimal rendering of counts. */
module Text {

  /** JavaScript's `\s`, which is also the set `String.prototype.trim` removes */
  predicate IsSpace(c: char) {
    || c == ' ' || c == '\t' || c == '\n' || c == '\r' || c == '\U{000B}' || c == '\U{000C}'
    || c == '\U{00A0}' || c == '\U{1680}' || ('\U{2000}' <= c <= '\U{200A}')
    || c == '\U{2028}' || c == '\U{2029}' || c == '\U{202F}' || c == '\U{205F}'
    || c == '\U{3000}' || c == '\U{FEFF}'
  }

  /** The characters after which `^` matches under the `m` flag, and which `.` refuses */
  predicate IsLineTerminator(c: char) {
    c == '\n' || c == '\r' || c == '\U{2028}' || c == '\U{2029}'
  }

  /** JavaScript's `\w` */
  predicate IsWordChar(c: char) {
    ('a' <= c <= 'z') || ('A' <= c <= 'Z') || ('0' <= c <= '9') || c == '_'
  }

  predicate AllSpaces(s: string) {
    forall k :: 0 <= k < |s| ==> IsSpace(s[k])
  }

  predicate IsWord(s: string) {
    |s| > 0 && forall k :: 0 <= k < |s| ==> IsWordChar(s[k])
  }

  predicate NoTerminator(s: string) {
    forall k :: 0 <= k < |s| ==> !IsLineTerminator(s[k])
  }

  lemma TerminatorIsSpace(c: char)
    requires IsLineTerminator(c)
    ensures IsSpace(c)
  {
  }

  /** `s` starts with `lit` at index `i` */
  predicate HasAt(s: string, i: nat, lit: string) {
    i + |lit| <= |s| && s[i..i + |lit|] == lit
  }

  predicate StartsWith(s: string, prefix: string) {
    HasAt(s, 0, prefix)
  }

  /** The end of the maximal run of `\s` starting at `i` (what a greedy `\s*` consumes) */
  function SkipSpaces(s: string, i: nat): (j: nat)
    requires i <= |s|
    ensures i <= j <= |s|
    ensures forall k :: i <= k < j ==> IsSpace(s[k])
    ensures j == |s| || !IsSpace(s[j])
    decreases |s| - i
  {
    if i < |s| && IsSpace(s[i]) then SkipSpaces(s, i + 1) else i
  }

  /** The end of the maximal run of `\w` starting at `i` (what a greedy `\w+` consumes) */
  function SkipWord(s: string, i: nat): (j: nat)
    requires i <= |s|
    ensures i <= j <= |s|
    ensures forall k :: i <= k < j ==> IsWordChar(s[k])
    ensures j == |s| || !IsWordChar(s[j])
    decreases |s| - i
  {
    if i < |s| && IsWordChar(s[i]) then SkipWord(s, i + 1) else i
  }

  /** The first index at or after `i` holding one of `stops`, or `|s|`
      (what a greedy negated class `[^...]*` consumes) */
  function SkipUntil(s: string, i: nat, stops: set<char>): (j: nat)
    requires i <= |s|
    ensures i <= j <= |s|
    ensures forall k :: i <= k < j ==> s[k] !in stops
    ensures j == |s| || s[j] in stops
    decreases |s| - i
  {
    if i < |s| && s[i] !in stops then SkipUntil(s, i + 1, stops) else i
  }

  lemma SkipSpacesAt(s: string, i: nat, j: nat)
    requires i <= j <= |s|
    requires forall k :: i <= k < j ==> IsSpace(s[k])
    requires j == |s| || !IsSpace(s[j])
    ensures SkipSpaces(s, i) == j
  {
  }

  lemma SkipWordAt(s: string, i: nat, j: nat)
    requires i <= j <= |s|
    requires forall k :: i <= k < j ==> IsWordChar(s[k])
    requires j == |s| || !IsWordChar(s[j])
    ensures SkipWord(s, i) == j
  {
  }

  lemma SkipUntilAt(s: string, i: nat, j: nat, stops: set<char>)
    requires i <= j <= |s|
    requires forall k :: i <= k < j ==> s[k] !in stops
    requires j == |s| || s[j] in stops
    ensures SkipUntil(s, i, stops) == j
  {
  }

  /** The start of the trailing run of `\s` in `s[lo..j]` */
  function ContentEnd(s: string, lo: nat, j: nat): (e: nat)
    requires lo <= j <= |s|
    ensures lo <= e <= j
    ensures forall k :: e <= k < j ==> IsSpace(s[k])
    ensures e == lo || !IsSpace(s[e - 1])
    decreases j
  {
    if j > lo && IsSpace(s[j - 1]) then ContentEnd(s, lo, j - 1) else j
  }

  lemma ContentEndAt(s: string, lo: nat, j: nat, e: nat)
    requires lo <= e <= j <= |s|
    requires forall k :: e <= k < j ==> IsSpace(s[k])
    requires e == lo || !IsSpace(s[e - 1])
    ensures ContentEnd(s, lo, j) == e
  {
  }

  /** `String.prototype.trim`: the part of `s` between its leading and trailing whitespace */
  function Trim(s: string): (t: string)
    ensures |t| <= |s|
    ensures t == "" || (!IsSpace(t[0]) && !IsSpace(t[|t| - 1]))
  {
    var a := SkipSpaces(s, 0);
    var b := ContentEnd(s, a, |s|);
    s[a..b]
  }

  /** Trimming removes only white space, from both ends */
  lemma TrimIsSlice(s: string)
    ensures exists a :: 0 <= a && a + |Trim(s)| <= |s| && s[a..a + |Trim(s)|] == Trim(s)
                        && AllSpaces(s[..a]) && AllSpaces(s[a + |Trim(s)|..])
  {
    var a := SkipSpaces(s, 0);
    var b := ContentEnd(s, a, |s|);
    assert AllSpaces(s[..a]);
    assert AllSpaces(s[b..]);
    assert s[a..a + |Trim(s)|] == Trim(s);
  }

  predicate IsTrimmed(s: string) {
    s == "" || (!IsSpace(s[0]) && !IsSpace(s[|s| - 1]))
  }

  /** A string with no surrounding whitespace is its own trim */
  lemma TrimOfTrimmed(s: string)
    requires IsTrimmed(s)
    ensures Trim(s) == s
  {
    var a := SkipSpaces(s, 0);
    if s != "" {
      SkipSpacesAt(s, 0, 0);
      assert a == 0;
      var b := ContentEnd(s, a, |s|);
      assert b == |s|;
    }
  }

  lemma TrimIdempotent(s: string)
    ensures Trim(Trim(s)) == Trim(s)
  {
    TrimOfTrimmed(Trim(s));
  }

  /** Trimming a string made only of whitespace gives the empty string */
  lemma TrimOfSpaces(s: string)
    requires AllSpaces(s)
    ensures Trim(s) == ""
  {
  }

  /** Surrounding whitespace does not change the trim of a trimmed core */
  lemma TrimPadded(w1: string, t: string, w2: string)
    requires AllSpaces(w1) && AllSpaces(w2) && IsTrimmed(t)
    ensures Trim(w1 + t + w2) == t
  {
    var s := w1 + t + w2;
    if t == "" {
      assert AllSpaces(s);
      TrimOfSpaces(s);
    } else {
      SkipSpacesAt(s, 0, |w1|);
      assert s[|w1| + |t| - 1] == t[|t| - 1];
      ContentEndAt(s, |w1|, |s|, |w1| + |t|);
      assert s[|w1|..|w1| + |t|] == t;
    }
  }

  /** Trimming gives the empty string exactly for strings of whitespace */
  lemma TrimEmpty(s: string)
    ensures Trim(s) == "" <==> AllSpaces(s)
  {
    if AllSpaces(s) {
      TrimOfSpaces(s);
    } else {
      var k :| 0 <= k < |s| && !IsSpace(s[k]);
      var a := SkipSpaces(s, 0);
      assert a <= k;
      var b := ContentEnd(s, a, |s|);
      assert k < b;
    }
  }

  lemma AppendAssoc(a: string, b: string, c: string)
    ensures (a + b) + c == a + (b + c)
  {
  }

  /** `parts.join(sep)` */
  function JoinWith(parts: seq<string>, sep: string): (s: string)
  {
    if |parts| == 0 then ""
    else if |parts| == 1 then parts[0]
    else parts[0] + sep + JoinWith(parts[1..], sep)
  }

  /** `s.split(c)` for a one-character separator string */
  function Split(s: string, sep: char): (parts: seq<string>)
    ensures |parts| >= 1
    ensures forall k :: 0 <= k < |parts| ==> sep !in parts[k]
    ensures JoinWith(parts, [sep]) == s
    decreases |s|
  {
    var i := SkipUntil(s, 0, {sep});
    if i == |s| then
      assert s[..i] == s;
      [s]
    else
      var rest := Split(s[i + 1..], sep);
      assert s == s[..i] + [sep] + s[i + 1..];
      assert ([s[..i]] + rest)[1..] == rest;
      [s[..i]] + rest
  }

  /** Splitting a join undoes it, when no part contains the separator */
  lemma {:induction false} SplitJoin(parts: seq<string>, sep: char)
    requires |parts| >= 1
    requires forall k :: 0 <= k < |parts| ==> sep !in parts[k]
    ensures Split(JoinWith(parts, [sep]), sep) == parts
    decreases |parts|
  {
    var s := JoinWith(parts, [sep]);
    var p0 := parts[0];
    if |parts| == 1 {
      SkipUntilAt(s, 0, |s|, {sep});
    } else {
      var rest := JoinWith(parts[1..], [sep]);
      assert s == p0 + [sep] + rest;
      SkipUntilAt(s, 0, |p0|, {sep});
      assert s[..|p0|] == p0;
      assert s[|p0| + 1..] == rest;
      SplitJoin(parts[1..], sep);
    }
  }

  /** The regex-split `s.split(/[C]+/)` for a character class C that cannot match the empty
      string: the pieces between maximal runs of separator characters */
  function SplitRuns(s: string, isSep: char -> bool): (parts: seq<string>)
    ensures |parts| >= 1
    decreases |s|
  {
    var i := FirstWhere(s, 0, isSep);
    if i == |s| then [s]
    else
      var j := RunEnd(s, i, isSep);
      [s[..i]] + SplitRuns(s[j..], isSep)
  }

  function FirstWhere(s: string, i: nat, p: char -> bool): (j: nat)
    requires i <= |s|
    ensures i <= j <= |s|
    ensures forall k :: i <= k < j ==> !p(s[k])
    ensures j == |s| || p(s[j])
    decreases |s| - i
  {
    if i < |s| && !p(s[i]) then FirstWhere(s, i + 1, p) else i
  }

  function RunEnd(s: string, i: nat, p: char -> bool): (j: nat)
    requires i < |s| && p(s[i])
    ensures i < j <= |s|
    ensures forall k :: i <= k < j ==> p(s[k])
    ensures j == |s| || !p(s[j])
    decreases |s| - i
  {
    if i + 1 < |s| && p(s[i + 1]) then RunEnd(s, i + 1, p) else i + 1
  }

  /** The characters of `s` that are not separators, in order */
  function Keep(s: string, isSep: char -> bool): string
  {
    if |s| == 0 then "" else (if isSep(s[0]) then "" else [s[0]]) + Keep(s[1..], isSep)
  }

  function Concat(parts: seq<string>): string
  {
    if |parts| == 0 then "" else parts[0] + Concat(parts[1..])
  }

  lemma KeepAppend(a: string, b: string, isSep: char -> bool)
    ensures Keep(a + b, isSep) == Keep(a, isSep) + Keep(b, isSep)
  {
    if |a| > 0 {
      var h: string := if isSep(a[0]) then "" else [a[0]];
      assert (a + b)[0] == a[0];
      assert (a + b)[1..] == a[1..] + b;
      KeepAppend(a[1..], b, isSep);
      calc {
        Keep(a + b, isSep);
        h + Keep(a[1..] + b, isSep);
        h + (Keep(a[1..], isSep) + Keep(b, isSep));
        (h + Keep(a[1..], isSep)) + Keep(b, isSep);
      }
    } else {
      assert a + b == b;
    }
  }

  lemma KeepNone(a: string, isSep: char -> bool)
    requires forall k :: 0 <= k < |a| ==> !isSep(a[k])
    ensures Keep(a, isSep) == a
  {
  }

  lemma KeepAll(a: string, isSep: char -> bool)
    requires forall k :: 0 <= k < |a| ==> isSep(a[k])
    ensures Keep(a, isSep) == ""
  {
  }

  predicate NoSeparator(p: string, isSep: char -> bool) {
    forall m :: 0 <= m < |p| ==> !isSep(p[m])
  }

  /** The pieces of a regex split hold no separator */
  lemma {:induction false} SplitRunsClean(s: string, isSep: char -> bool)
    ensures forall k :: 0 <= k < |SplitRuns(s, isSep)| ==> NoSeparator(SplitRuns(s, isSep)[k], isSep)
    decreases |s|
  {
    var i := FirstWhere(s, 0, isSep);
    if i < |s| {
      var j := RunEnd(s, i, isSep);
      SplitRunsClean(s[j..], isSep);
      var parts := SplitRuns(s, isSep);
      assert parts == [s[..i]] + SplitRuns(s[j..], isSep);
      forall k | 0 <= k < |parts|
        ensures NoSeparator(parts[k], isSep)
      {
        if k > 0 {
          assert parts[k] == SplitRuns(s[j..], isSep)[k - 1];
        }
      }
    }
  }

  /** Dropping the separators from a plain piece, a run of separators and a rest */
  lemma {:induction false} KeepAround(s: string, i: nat, j: nat, isSep: char -> bool)
    requires i <= j <= |s|
    requires forall k :: 0 <= k < i ==> !isSep(s[k])
    requires forall k :: i <= k < j ==> isSep(s[k])
    ensures Keep(s, isSep) == s[..i] + Keep(s[j..], isSep)
  {
    var a, b, c := s[..i], s[i..j], s[j..];
    assert s == (a + b) + c;
    KeepAppend(a + b, c, isSep);
    KeepAppend(a, b, isSep);
    KeepNone(a, isSep);
    KeepAll(b, isSep);
  }

  /** Together the pieces of a regex split give back every non-separator character of the
      input, in order */
  lemma {:induction false} SplitRunsKeep(s: string, isSep: char -> bool)
    ensures Concat(SplitRuns(s, isSep)) == Keep(s, isSep)
    decreases |s|
  {
    var i := FirstWhere(s, 0, isSep);
    if i == |s| {
      assert s[..i] == s;
      KeepNone(s, isSep);
    } else {
      var j := RunEnd(s, i, isSep);
      SplitRunsKeep(s[j..], isSep);
      var rest := SplitRuns(s[j..], isSep);
      var parts := SplitRuns(s, isSep);
      assert parts == [s[..i]] + rest;
      assert parts[1..] == rest;
      KeepAround(s, i, j, isSep);
    }
  }

  /** `needle` occurs in `hay` at index `i` */
  predicate OccursAt(hay: string, needle: string, i: nat) {
    i + |needle| <= |hay| && hay[i..i + |needle|] == needle
  }

  /** `hay.includes(needle)`; every string includes the empty string */
  function Includes(hay: string, needle: string): (r: bool)
    ensures r <==> exists i: nat :: OccursAt(hay, needle, i)
  {
    IncludesFrom(hay, needle, 0)
  }

  function IncludesFrom(hay: string, needle: string, i: nat): (r: bool)
    ensures r <==> exists k: nat :: i <= k && OccursAt(hay, needle, k)
    decreases |hay| - i
  {
    if i + |needle| > |hay| then false
    else if OccursAt(hay, needle, i) then true
    else IncludesFrom(hay, needle, i + 1)
  }

  function LowerChar(c: char): char
  {
    if 'A' <= c <= 'Z' then (c as int - 'A' as int + 'a' as int) as char else c
  }

  /** `toLowerCase` restricted to the ASCII letters */
  function Lower(s: string): (r: string)
    ensures |r| == |s|
    ensures forall k :: 0 <= k < |s| ==> r[k] == LowerChar(s[k])
  {
    seq(|s|, k requires 0 <= k < |s| => LowerChar(s[k]))
  }

  function Digit(d: nat): char
    requires d < 10
  {
    ('0' as int + d) as char
  }

  /** The value of a string of decimal digits */
  function DigitsValue(s: string): nat
    requires forall k :: 0 <= k < |s| ==> '0' <= s[k] <= '9'
  {
    if |s| == 0 then 0 else DigitsValue(s[..|s| - 1]) * 10 + (s[|s| - 1] as int - '0' as int)
  }

  /** `${n}` for a count: its decimal digits, which read back as `n` */
  function Decimal(n: nat): (r: string)
    ensures |r| >= 1
    ensures forall k :: 0 <= k < |r| ==> '0' <= r[k] <= '9'
    ensures DigitsValue(r) == n
    ensures |r| > 1 ==> r[0] != '0'
  {
    if n < 10 then [Digit(n)]
    else
      var r := Decimal(n / 10) + [Digit(n % 10)];
      assert r[..|r| - 1] == Decimal(n / 10);
      r
  }

  /** Number of occurrences of `c` in `s` (the length of `s.match(/c/g) || []`) */
  function Occurrences(s: string, c: char): nat
  {
    if |s| == 0 then 0 else (if s[0] == c then 1 else 0) + Occurrences(s[1..], c)
  }
}
