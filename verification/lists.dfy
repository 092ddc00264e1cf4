/** Sequence operations the index and the summaries share: `filter`, `slice(0, n)`, and the
    first elements of a sequence that pass a test. */
module Lists {

  /** `xs.filter(p)` */
  function Filter<T>(xs: seq<T>, p: T -> bool): (r: seq<T>)
    ensures |r| <= |xs|
    ensures forall k :: 0 <= k < |r| ==> p(r[k])
  {
    if |xs| == 0 then [] else (if p(xs[0]) then [xs[0]] else []) + Filter(xs[1..], p)
  }

  /** The filter keeps exactly the accepted elements */
  lemma {:induction false} FilterMembers<T>(xs: seq<T>, p: T -> bool)
    ensures forall k :: 0 <= k < |Filter(xs, p)| ==> Filter(xs, p)[k] in xs
    ensures forall k :: 0 <= k < |xs| && p(xs[k]) ==> xs[k] in Filter(xs, p)
    decreases |xs|
  {
    if |xs| > 0 {
      FilterMembers(xs[1..], p);
      var rest := Filter(xs[1..], p);
      assert Filter(xs, p) == (if p(xs[0]) then [xs[0]] else []) + rest;
      forall k | 0 <= k < |xs| && p(xs[k])
        ensures xs[k] in Filter(xs, p)
      {
        if k > 0 {
          assert xs[1..][k - 1] == xs[k];
        }
      }
    }
  }

  /** Filtering distributes over concatenation */
  lemma {:induction false} FilterAppend<T>(a: seq<T>, b: seq<T>, p: T -> bool)
    ensures Filter(a + b, p) == Filter(a, p) + Filter(b, p)
    decreases |a|
  {
    if |a| == 0 {
      assert a + b == b;
    } else {
      assert (a + b)[0] == a[0];
      assert (a + b)[1..] == a[1..] + b;
      FilterAppend(a[1..], b, p);
    }
  }

  /** Filtering a sequence that starts with `x` */
  lemma FilterCons<T>(x: T, xs: seq<T>, p: T -> bool)
    ensures Filter([x] + xs, p) == (if p(x) then [x] else []) + Filter(xs, p)
  {
    assert ([x] + xs)[0] == x && ([x] + xs)[1..] == xs;
  }

  /** Filtering one more element */
  lemma FilterSnoc<T>(xs: seq<T>, x: T, p: T -> bool)
    ensures Filter(xs + [x], p) == Filter(xs, p) + (if p(x) then [x] else [])
  {
    FilterAppend(xs, [x], p);
    assert Filter([x], p) == (if p(x) then [x] else []) + Filter([], p);
  }

  /** `xs.slice(0, n)` for a count `n` that is not negative */
  function Take<T>(xs: seq<T>, n: nat): (r: seq<T>)
    ensures |r| == if n < |xs| then n else |xs|
    ensures r <= xs
  {
    if n < |xs| then xs[..n] else xs
  }

  /** `xs.filter(p).slice(0, n)` keeps what `p` accepts in a prefix of `xs`: the prefix is
      all of `xs` unless `n` elements have been accepted by its end */
  lemma {:induction false} TakeFiltered<T>(xs: seq<T>, p: T -> bool, n: nat)
    ensures exists j ::
      && 0 <= j <= |xs|
      && Take(Filter(xs, p), n) == Filter(xs[..j], p)
      && (j == |xs| || |Take(Filter(xs, p), n)| == n)
    decreases |xs|
  {
    if n == 0 {
      assert Take(Filter(xs, p), n) == Filter(xs[..0], p);
    } else if |xs| == 0 {
      assert xs[..0] == xs;
    } else {
      var m: nat := if p(xs[0]) then n - 1 else n;
      TakeFiltered(xs[1..], p, m);
      var j :| && 0 <= j <= |xs[1..]|
               && Take(Filter(xs[1..], p), m) == Filter(xs[1..][..j], p)
               && (j == |xs[1..]| || |Take(Filter(xs[1..], p), m)| == m);
      FilterPrefixCons(xs, p, j);
      TakeCons(xs, p, n, m);
    }
  }

  /** Filtering a non-empty prefix: its first element, then the rest */
  lemma FilterPrefixCons<T>(xs: seq<T>, p: T -> bool, j: nat)
    requires 0 < |xs| && j < |xs|
    ensures Filter(xs[..j + 1], p) == (if p(xs[0]) then [xs[0]] else []) + Filter(xs[1..][..j], p)
    ensures j + 1 == |xs| ==> xs[..j + 1] == xs
  {
    assert (xs[..j + 1])[0] == xs[0];
    assert (xs[..j + 1])[1..] == xs[1..][..j];
  }

  /** Taking `n` of a filter: the first element if accepted, then what is left to take */
  lemma TakeCons<T>(xs: seq<T>, p: T -> bool, n: nat, m: nat)
    requires 0 < |xs| && n > 0 && m == if p(xs[0]) then n - 1 else n
    ensures Take(Filter(xs, p), n) == (if p(xs[0]) then [xs[0]] else []) + Take(Filter(xs[1..], p), m)
  {
  }

  /** `xs.flatMap(f)`, built from the back as a loop that pushes each element's part */
  function FlatMap<T, U>(xs: seq<T>, f: T -> seq<U>): seq<U>
    decreases |xs|
  {
    if |xs| == 0 then [] else FlatMap(xs[..|xs| - 1], f) + f(xs[|xs| - 1])
  }

  /** The parts of two lists are those of the first list, then those of the second */
  lemma {:induction false} FlatMapAppend<T, U>(a: seq<T>, b: seq<T>, f: T -> seq<U>)
    ensures FlatMap(a + b, f) == FlatMap(a, f) + FlatMap(b, f)
    decreases |b|
  {
    if |b| == 0 {
      assert a + b == a;
    } else {
      var b' := b[..|b| - 1];
      assert (a + b)[..|a + b| - 1] == a + b';
      FlatMapAppend(a, b', f);
    }
  }

  /** The parts before `xs[i]`, then its own part, then the parts after it */
  lemma FlatMapAround<T, U>(xs: seq<T>, i: nat, f: T -> seq<U>)
    requires i < |xs|
    ensures FlatMap(xs, f) == FlatMap(xs[..i], f) + f(xs[i]) + FlatMap(xs[i + 1..], f)
  {
    assert xs[..i + 1] + xs[i + 1..] == xs;
    FlatMapAppend(xs[..i + 1], xs[i + 1..], f);
    assert xs[..i + 1][..i] == xs[..i];
  }

  /** Every element of the result lies in the part of some element */
  lemma {:induction false} FlatMapOrigin<T, U>(xs: seq<T>, f: T -> seq<U>, k: nat)
    requires k < |FlatMap(xs, f)|
    ensures exists i, j :: 0 <= i < |xs| && 0 <= j < |f(xs[i])| && FlatMap(xs, f)[k] == f(xs[i])[j]
    decreases |xs|
  {
    var init := xs[..|xs| - 1];
    if k < |FlatMap(init, f)| {
      FlatMapOrigin(init, f, k);
      var i, j :| 0 <= i < |init| && 0 <= j < |f(init[i])| && FlatMap(init, f)[k] == f(init[i])[j];
      assert xs[i] == init[i];
    } else {
      var j := k - |FlatMap(init, f)|;
      assert FlatMap(xs, f)[k] == f(xs[|xs| - 1])[j];
    }
  }

  /** `xs.map(f)` */
  function Map<T, U>(xs: seq<T>, f: T -> U): (r: seq<U>)
    ensures |r| == |xs|
    ensures forall k :: 0 <= k < |xs| ==> r[k] == f(xs[k])
  {
    seq(|xs|, k requires 0 <= k < |xs| => f(xs[k]))
  }

  /** A filter that accepts nothing returns nothing */
  lemma {:induction false} FilterNone<T>(xs: seq<T>, p: T -> bool)
    requires forall k :: 0 <= k < |xs| ==> !p(xs[k])
    ensures Filter(xs, p) == []
    decreases |xs|
  {
    if |xs| > 0 {
      FilterNone(xs[1..], p);
    }
  }

  /** A filter that accepts everything returns its input */
  lemma {:induction false} FilterAll<T>(xs: seq<T>, p: T -> bool)
    requires forall k :: 0 <= k < |xs| ==> p(xs[k])
    ensures Filter(xs, p) == xs
    decreases |xs|
  {
    if |xs| > 0 {
      FilterAll(xs[1..], p);
      assert xs == [xs[0]] + xs[1..];
    }
  }

  /** When no part holds an accepted element, neither does the whole */
  lemma {:induction false} FlatMapFilterNone<T, U>(xs: seq<T>, f: T -> seq<U>, p: U -> bool)
    requires forall i :: 0 <= i < |xs| ==> Filter(f(xs[i]), p) == []
    ensures Filter(FlatMap(xs, f), p) == []
    decreases |xs|
  {
    if |xs| > 0 {
      var init := xs[..|xs| - 1];
      assert forall i :: 0 <= i < |init| ==> init[i] == xs[i];
      FlatMapFilterNone(init, f, p);
      FilterAppend(FlatMap(init, f), f(xs[|xs| - 1]), p);
    }
  }
}
