/** Cosine similarity of two embedding vectors (SemanticSearch.ts:175-191). Arithmetic is
    on exact reals. `Math.sqrt` is a parameter; all the model needs of it is that it is not
    zero on a non-zero number, which holds of `Math.sqrt` (a negative number gives NaN). */
module Similarity {
  import opened Entities

  /** `Math.sqrt` is not zero on a non-zero number */
  ghost predicate NonZeroRoot(sqrt: real -> real)
  {
    forall x :: x != 0.0 ==> sqrt(x) != 0.0
  }

  /** The sum of `a[i] * b[i]` over the common positions */
  function Dot(a: Vector, b: Vector): real
    requires |a| == |b|
  {
    if |a| == 0 then 0.0 else Dot(a[..|a| - 1], b[..|b| - 1]) + a[|a| - 1] * b[|b| - 1]
  }

  /** The squared norm, `normA` after the loop */
  function SqNorm(a: Vector): real
  {
    Dot(a, a)
  }

  /** `cosineSimilarity(a, b)`: 0 for vectors of different lengths or when either squared
      norm is zero, and otherwise the dot product over the product of the norms */
  function Cosine(a: Vector, b: Vector, sqrt: real -> real): real
    requires NonZeroRoot(sqrt)
  {
    if |a| != |b| then 0.0
    else if SqNorm(a) == 0.0 || SqNorm(b) == 0.0 then 0.0
    else
      NonZeroProduct(sqrt(SqNorm(a)), sqrt(SqNorm(b)));
      Dot(a, b) / (sqrt(SqNorm(a)) * sqrt(SqNorm(b)))
  }

  lemma NonZeroProduct(x: real, y: real)
    requires x != 0.0 && y != 0.0
    ensures x * y != 0.0
  {
  }

  /** The loop of `cosineSimilarity` computes the similarity */
  method CosineSimilarity(a: Vector, b: Vector, sqrt: real -> real) returns (r: real)
    requires NonZeroRoot(sqrt)
    ensures r == Cosine(a, b, sqrt)
  {
    if |a| != |b| {
      return 0.0;
    }
    var dot, normA, normB := 0.0, 0.0, 0.0;
    for i := 0 to |a|
      invariant dot == Dot(a[..i], b[..i])
      invariant normA == SqNorm(a[..i]) && normB == SqNorm(b[..i])
    {
      assert a[..i + 1][..i] == a[..i] && b[..i + 1][..i] == b[..i];
      dot := dot + a[i] * b[i];
      normA := normA + a[i] * a[i];
      normB := normB + b[i] * b[i];
    }
    assert a[..|a|] == a && b[..|b|] == b;
    if normA == 0.0 || normB == 0.0 {
      return 0.0;
    }
    NonZeroProduct(sqrt(normA), sqrt(normB));
    r := dot / (sqrt(normA) * sqrt(normB));
  }

  /** The dot product does not depend on the order of its arguments */
  lemma {:induction false} DotSymmetric(a: Vector, b: Vector)
    requires |a| == |b|
    ensures Dot(a, b) == Dot(b, a)
    decreases |a|
  {
    if |a| > 0 {
      DotSymmetric(a[..|a| - 1], b[..|b| - 1]);
    }
  }

  /** Similarity is symmetric */
  lemma CosineSymmetric(a: Vector, b: Vector, sqrt: real -> real)
    requires NonZeroRoot(sqrt)
    ensures Cosine(a, b, sqrt) == Cosine(b, a, sqrt)
  {
    if |a| == |b| {
      DotSymmetric(a, b);
    }
  }

  /** A vector whose squared norm is not zero is perfectly similar to itself, when `sqrt`
      squares back to that norm */
  lemma CosineSelf(a: Vector, sqrt: real -> real)
    requires NonZeroRoot(sqrt)
    requires SqNorm(a) != 0.0 && sqrt(SqNorm(a)) * sqrt(SqNorm(a)) == SqNorm(a)
    ensures Cosine(a, a, sqrt) == 1.0
  {
    SelfRatio(SqNorm(a), sqrt(SqNorm(a)));
  }

  lemma SelfRatio(n: real, s: real)
    requires s * s == n && n != 0.0
    ensures n / (s * s) == 1.0
  {
  }

  /** The zero vector has squared norm zero, so its similarity with every vector is 0 */
  lemma {:induction false} ZeroVector(a: Vector, b: Vector, sqrt: real -> real)
    requires NonZeroRoot(sqrt)
    requires forall i :: 0 <= i < |a| ==> a[i] == 0.0
    ensures SqNorm(a) == 0.0
    ensures Cosine(a, b, sqrt) == 0.0
    decreases |a|
  {
    if |a| > 0 {
      ZeroVector(a[..|a| - 1], b, sqrt);
      assert a[|a| - 1] * a[|a| - 1] == 0.0 * 0.0;
    }
  }
}
