/** Ranking search hits (SemanticSearch.ts:118-134): `sort((a, b) => b.similarity -
    a.similarity)`, which is a stable sort (section 23.1.3.30 of ECMA-262, 2019 and later),
    followed by `slice(0, limit)`. The sort is stated for any key, here the similarity. */
module Ranking {
  import opened Lists

  /** Non-increasing in the key */
  predicate Descending<T>(ys: seq<T>, key: T -> real)
  {
    forall i, j :: 0 <= i < j < |ys| ==> key(ys[i]) >= key(ys[j])
  }

  /** `x` placed after the elements with a greater key and before the others */
  function Insert<T>(x: T, ys: seq<T>, key: T -> real): (r: seq<T>)
    ensures multiset(r) == multiset(ys) + multiset{x}
    ensures |r| == |ys| + 1
  {
    if |ys| == 0 then [x]
    else if key(ys[0]) <= key(x) then [x] + ys
    else
      assert ys == [ys[0]] + ys[1..];
      [ys[0]] + Insert(x, ys[1..], key)
  }

  /** The stable sort by decreasing key: an insertion sort from the back, each element
      inserted before the equal-keyed elements that follow it in the input */
  function SortDesc<T>(xs: seq<T>, key: T -> real): (r: seq<T>)
    ensures multiset(r) == multiset(xs)
    ensures |r| == |xs|
  {
    if |xs| == 0 then []
    else
      assert xs == [xs[0]] + xs[1..];
      Insert(xs[0], SortDesc(xs[1..], key), key)
  }

  /** Inserting into a descending sequence keeps it descending */
  lemma {:induction false} InsertDescending<T>(x: T, ys: seq<T>, key: T -> real)
    requires Descending(ys, key)
    ensures Descending(Insert(x, ys, key), key)
    decreases |ys|
  {
    if |ys| > 0 && key(ys[0]) > key(x) {
      var rest := ys[1..];
      InsertDescending(x, rest, key);
      var r := Insert(x, ys, key);
      var tail := Insert(x, rest, key);
      assert r == [ys[0]] + tail;
      InsertMembers(x, rest, key);
      forall i, j | 0 <= i < j < |r|
        ensures key(r[i]) >= key(r[j])
      {
        if i == 0 {
          assert r[j] == tail[j - 1];
          if tail[j - 1] != x {
            var k :| 0 <= k < |rest| && rest[k] == tail[j - 1];
            assert rest[k] == ys[k + 1];
          }
        } else {
          assert r[i] == tail[i - 1] && r[j] == tail[j - 1];
        }
      }
    }
  }

  /** Insertion adds `x` and nothing else */
  lemma {:induction false} InsertMembers<T>(x: T, ys: seq<T>, key: T -> real)
    ensures forall k :: 0 <= k < |Insert(x, ys, key)| ==> Insert(x, ys, key)[k] == x || Insert(x, ys, key)[k] in ys
  {
    var r := Insert(x, ys, key);
    forall k | 0 <= k < |r|
      ensures r[k] == x || r[k] in ys
    {
      assert r[k] in multiset(ys) + multiset{x};
    }
  }

  /** The sort is descending */
  lemma {:induction false} SortDescending<T>(xs: seq<T>, key: T -> real)
    ensures Descending(SortDesc(xs, key), key)
    decreases |xs|
  {
    if |xs| > 0 {
      SortDescending(xs[1..], key);
      InsertDescending(xs[0], SortDesc(xs[1..], key), key);
    }
  }

  /** The elements with key `v`, in order */
  function WithKey<T>(xs: seq<T>, key: T -> real, v: real): (r: seq<T>)
    ensures |r| <= |xs|
  {
    if |xs| == 0 then [] else (if key(xs[0]) == v then [xs[0]] else []) + WithKey(xs[1..], key, v)
  }

  lemma WithKeyCons<T>(x: T, xs: seq<T>, key: T -> real, v: real)
    ensures WithKey([x] + xs, key, v) == (if key(x) == v then [x] else []) + WithKey(xs, key, v)
  {
    assert ([x] + xs)[0] == x && ([x] + xs)[1..] == xs;
  }

  /** Inserting into a descending sequence puts `x` ahead of every element with its key */
  lemma {:induction false} InsertWithKey<T>(x: T, ys: seq<T>, key: T -> real, v: real)
    requires Descending(ys, key)
    ensures WithKey(Insert(x, ys, key), key, v) == (if key(x) == v then [x] else []) + WithKey(ys, key, v)
    decreases |ys|
  {
    if |ys| == 0 {
      WithKeyCons(x, [], key, v);
    } else if key(ys[0]) <= key(x) {
      WithKeyCons(x, ys, key, v);
    } else {
      var rest := ys[1..];
      assert Descending(rest, key);
      InsertWithKey(x, rest, key, v);
      WithKeyCons(ys[0], Insert(x, rest, key), key, v);
      WithKeyCons(ys[0], rest, key, v);
      assert ys == [ys[0]] + rest;
    }
  }

  /** The sort is stable: the elements with any one key keep their input order */
  lemma {:induction false} SortStable<T>(xs: seq<T>, key: T -> real, v: real)
    ensures WithKey(SortDesc(xs, key), key, v) == WithKey(xs, key, v)
    decreases |xs|
  {
    if |xs| > 0 {
      SortStable(xs[1..], key, v);
      SortDescending(xs[1..], key);
      InsertWithKey(xs[0], SortDesc(xs[1..], key), key, v);
    }
  }

  /** The end position `slice(0, limit)` uses on a sequence of length `n` (section 23.1.3.28
      of ECMA-262): a negative limit counts back from the end */
  function SliceEnd(n: nat, limit: int): (e: nat)
    ensures e <= n
    ensures 0 <= limit ==> (e == limit || e == n) && (limit < n ==> e == limit)
    ensures limit < 0 ==> e + (-limit) == n || (e == 0 && n <= -limit)
  {
    if limit < 0 then (if n + limit < 0 then 0 else n + limit)
    else if limit < n then limit else n
  }

  /** `sort(...).slice(0, limit)` */
  function Top<T>(xs: seq<T>, key: T -> real, limit: int): (r: seq<T>)
  {
    var sorted := SortDesc(xs, key);
    sorted[..SliceEnd(|sorted|, limit)]
  }

  /** What `slice(0, limit)` leaves out of the sorted hits */
  function Dropped<T>(xs: seq<T>, key: T -> real, limit: int): seq<T>
  {
    var sorted := SortDesc(xs, key);
    sorted[SliceEnd(|sorted|, limit)..]
  }

  /** Cutting a descending sequence: the front ranks at least as high as the back */
  lemma SplitDescending<T>(ys: seq<T>, key: T -> real, e: nat)
    requires Descending(ys, key) && e <= |ys|
    ensures Descending(ys[..e], key)
    ensures forall i, j :: 0 <= i < e && 0 <= j < |ys| - e ==> key(ys[..e][i]) >= key(ys[e..][j])
  {
    forall i, j | 0 <= i < e && 0 <= j < |ys| - e
      ensures key(ys[..e][i]) >= key(ys[e..][j])
    {
      assert ys[..e][i] == ys[i] && ys[e..][j] == ys[e + j];
    }
  }

  /** The ranked hits are the best of all: in order, no dropped element ranks above a
      returned one, and returned plus dropped elements are exactly the input */
  lemma TopBest<T>(xs: seq<T>, key: T -> real, limit: int)
    ensures Descending(Top(xs, key, limit), key)
    ensures |Top(xs, key, limit)| == SliceEnd(|xs|, limit)
    ensures multiset(Top(xs, key, limit)) + multiset(Dropped(xs, key, limit)) == multiset(xs)
    ensures forall i, j :: 0 <= i < |Top(xs, key, limit)| && 0 <= j < |Dropped(xs, key, limit)| ==>
      key(Top(xs, key, limit)[i]) >= key(Dropped(xs, key, limit)[j])
  {
    var sorted := SortDesc(xs, key);
    SortDescending(xs, key);
    var e := SliceEnd(|sorted|, limit);
    assert sorted == sorted[..e] + sorted[e..];
    SplitDescending(sorted, key, e);
  }
}
