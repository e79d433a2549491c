/** Cosine similarity of embedding vectors (crates/abigail-memory/src/embeddings.rs),
    over the reals. */
module Embeddings {
  type Vector = seq<real>

  /** The sum of the products of corresponding components. */
  function Dot(a: Vector, b: Vector): real
    requires |a| == |b|
  {
    if a == [] then 0.0
    else
      var n := |a| - 1;
      Dot(a[..n], b[..n]) + a[n] * b[n]
  }

  /** `root` is the non-negative square root. */
  ghost predicate IsSqrt(root: real -> real) {
    forall x: real :: 0.0 <= x ==> 0.0 <= root(x) && root(x) * root(x) == x
  }

  lemma ProductNonZero(x: real, y: real)
    requires x != 0.0 && y != 0.0
    ensures x * y != 0.0
  {
  }

  function CosineSimilarity(a: Vector, b: Vector, root: real -> real): real {
    if |a| != |b| || a == [] then 0.0
    else
      var normA, normB := root(Dot(a, a)), root(Dot(b, b));
      if normA == 0.0 || normB == 0.0 then 0.0
      else
        ProductNonZero(normA, normB);
        Dot(a, b) / (normA * normB)
  }

  ghost predicate IsZero(a: Vector) {
    forall i :: 0 <= i < |a| ==> a[i] == 0.0
  }

  function Scaled(k: real, a: Vector): (r: Vector)
    ensures |r| == |a|
  {
    seq(|a|, i requires 0 <= i < |a| => k * a[i])
  }

  // ---- Sums ----

  lemma {:induction false} DotCommutes(a: Vector, b: Vector)
    requires |a| == |b|
    ensures Dot(a, b) == Dot(b, a)
  {
    if a != [] {
      DotCommutes(a[..|a| - 1], b[..|a| - 1]);
    }
  }

  lemma ScaledInit(k: real, a: Vector)
    requires a != []
    ensures Scaled(k, a)[..|a| - 1] == Scaled(k, a[..|a| - 1])
  {
    var l, r := Scaled(k, a)[..|a| - 1], Scaled(k, a[..|a| - 1]);
    forall i | 0 <= i < |a| - 1
      ensures l[i] == r[i]
    {
      assert a[..|a| - 1][i] == a[i];
    }
  }

  lemma {:induction false} DotScales(k: real, a: Vector, b: Vector)
    requires |a| == |b|
    ensures Dot(Scaled(k, a), b) == k * Dot(a, b)
  {
    if a != [] {
      var n := |a| - 1;
      DotScales(k, a[..n], b[..n]);
      ScaledInit(k, a);
      assert k * a[n] * b[n] == k * (a[n] * b[n]);
      Distribute(k, Dot(a[..n], b[..n]), a[n] * b[n], Dot(a, b));
    }
  }

  lemma PositiveFactor(t: real, x: real)
    requires 0.0 < t
    ensures 0.0 <= t * x <==> 0.0 <= x
    ensures t * x == 0.0 <==> x == 0.0
  {
  }

  lemma SquareNonNegative(x: real)
    ensures 0.0 <= x * x && (x * x == 0.0 <==> x == 0.0)
  {
    if x < 0.0 {
      PositiveFactor(-x, -x);
      assert -x * -x == x * x;
    } else if 0.0 < x {
      PositiveFactor(x, x);
    }
  }

  /** A sum of squares is zero for the zero vector only. */
  lemma {:induction false} NormIsDefinite(a: Vector)
    ensures 0.0 <= Dot(a, a) && (Dot(a, a) == 0.0 <==> IsZero(a))
  {
    if a != [] {
      var n := |a| - 1;
      NormIsDefinite(a[..n]);
      SquareNonNegative(a[n]);
      assert IsZero(a) <==> IsZero(a[..n]) && a[n] == 0.0 by {
        assert forall i :: 0 <= i < n ==> a[..n][i] == a[i];
      }
    }
  }

  /** `p * a + q * b`. */
  function Combined(p: real, a: Vector, q: real, b: Vector): (r: Vector)
    requires |a| == |b|
    ensures |r| == |a|
  {
    seq(|a|, i requires 0 <= i < |a| => p * a[i] + q * b[i])
  }

  lemma CombinedAt(p: real, a: Vector, q: real, b: Vector, i: nat)
    requires |a| == |b| && i < |a|
    ensures Combined(p, a, q, b)[i] == p * a[i] + q * b[i]
  {
  }

  lemma CombinedInit(p: real, a: Vector, q: real, b: Vector)
    requires |a| == |b| && a != []
    ensures Combined(p, a, q, b)[..|a| - 1] == Combined(p, a[..|a| - 1], q, b[..|a| - 1])
  {
    var n := |a| - 1;
    var l, r := Combined(p, a, q, b)[..n], Combined(p, a[..n], q, b[..n]);
    forall i | 0 <= i < n
      ensures l[i] == r[i]
    {
      assert a[..n][i] == a[i] && b[..n][i] == b[i];
    }
  }

  /** The square of `p * a + q * b`, from the products of `a` and `b`. */
  function Quadratic(p: real, aa: real, q: real, ab: real, bb: real): real {
    p * p * aa + 2.0 * p * q * ab + q * q * bb
  }

  lemma ExpandStep(p: real, x: real, q: real, y: real, s': real, d': real, t': real, s: real, d: real, t: real,
                   c': real, c: real)
    requires s == s' + x * x && d == d' + x * y && t == t' + y * y
    requires c' == Quadratic(p, s', q, d', t')
    requires c == c' + (p * x + q * y) * (p * x + q * y)
    ensures c == Quadratic(p, s, q, d, t)
  {
  }

  lemma DotStep(a: Vector, b: Vector)
    requires |a| == |b| && a != []
    ensures var n := |a| - 1; Dot(a, b) == Dot(a[..n], b[..n]) + a[n] * b[n]
  {
  }

  lemma {:induction false} SquareExpands(p: real, a: Vector, q: real, b: Vector)
    requires |a| == |b|
    ensures var c := Combined(p, a, q, b);
            Dot(c, c) == Quadratic(p, Dot(a, a), q, Dot(a, b), Dot(b, b))
  {
    if a == [] {
      assert Combined(p, a, q, b) == [];
    } else {
      hide Dot, Combined, Quadratic;
      var c, n := Combined(p, a, q, b), |a| - 1;
      var a', b', c' := a[..n], b[..n], c[..n];
      SquareExpands(p, a', q, b');
      CombinedInit(p, a, q, b);
      CombinedAt(p, a, q, b, n);
      DotStep(a, a);
      DotStep(a, b);
      DotStep(b, b);
      DotStep(c, c);
      ExpandStep(p, a[n], q, b[n], Dot(a', a'), Dot(a', b'), Dot(b', b'),
                 Dot(a, a), Dot(a, b), Dot(b, b), Dot(c', c'), Dot(c, c));
    }
  }

  lemma Distribute(k: real, x: real, y: real, z: real)
    requires z == x + y
    ensures k * z == k * x + k * y
  {
  }

  // ---- Cauchy-Schwarz ----

  lemma {:induction false} DotWithZero(a: Vector, b: Vector)
    requires |a| == |b| && IsZero(b)
    ensures Dot(a, b) == 0.0
  {
    if a != [] {
      DotWithZero(a[..|a| - 1], b[..|a| - 1]);
    }
  }

  /** What is left of `a` across `b`, scaled by the square of `b`. */
  lemma Residue(a: Vector, b: Vector)
    requires |a| == |b|
    ensures var s, d, t := Dot(a, a), Dot(a, b), Dot(b, b);
            var c := Combined(t, a, -d, b);
            Dot(c, c) == t * (s * t - d * d)
  {
    var s, d, t := Dot(a, a), Dot(a, b), Dot(b, b);
    hide Dot, Combined, Quadratic;
    var c := Combined(t, a, -d, b);
    SquareExpands(t, a, -d, b);
    ResidueAlgebra(s, d, t, Dot(c, c));
  }

  lemma ResidueAlgebra(s: real, d: real, t: real, c: real)
    requires c == Quadratic(t, s, -d, d, t)
    ensures c == t * (s * t - d * d)
  {
  }

  /** The squared sum of products is at most the product of the sums of squares,
      with equality for parallel vectors only. */
  lemma CauchySchwarz(a: Vector, b: Vector)
    requires |a| == |b|
    ensures Dot(a, b) * Dot(a, b) <= Dot(a, a) * Dot(b, b)
    ensures Dot(a, b) * Dot(a, b) == Dot(a, a) * Dot(b, b) <==> Parallel(a, b)
  {
    hide Dot, Parallel, Combined;
    var s, d, t := Dot(a, a), Dot(a, b), Dot(b, b);
    NormIsDefinite(b);
    if t == 0.0 {
      DotWithZero(a, b);
      ZeroIsParallel(a, b);
    } else {
      var c := Combined(t, a, -d, b);
      Residue(a, b);
      NormIsDefinite(c);
      PositiveFactor(t, s * t - d * d);
      ResidueIsZero(a, b);
    }
  }

  /** The components are in one proportion. */
  ghost predicate Parallel(a: Vector, b: Vector)
    requires |a| == |b|
  {
    forall i :: 0 <= i < |a| ==> Proportional(Dot(b, b), a[i], Dot(a, b), b[i])
  }

  predicate Proportional(t: real, x: real, d: real, y: real) {
    t * x == d * y
  }

  lemma ComponentIsZero(t: real, a: Vector, d: real, b: Vector, i: nat)
    requires |a| == |b| && i < |a|
    ensures Combined(t, a, -d, b)[i] == 0.0 <==> Proportional(t, a[i], d, b[i])
  {
  }

  lemma ZeroIsParallel(a: Vector, b: Vector)
    requires |a| == |b| && Dot(b, b) == 0.0 && Dot(a, b) == 0.0
    ensures Parallel(a, b)
  {
  }

  lemma ResidueIsZero(a: Vector, b: Vector)
    requires |a| == |b|
    ensures IsZero(Combined(Dot(b, b), a, -Dot(a, b), b)) <==> Parallel(a, b)
  {
    hide Dot, Combined, Proportional;
    var d, t := Dot(a, b), Dot(b, b);
    var c := Combined(t, a, -d, b);
    forall i | 0 <= i < |a|
      ensures c[i] == 0.0 <==> Proportional(t, a[i], d, b[i])
    {
      ComponentIsZero(t, a, d, b, i);
    }
  }

  // ---- The similarity ----

  lemma ProductOfSquares(x: real, y: real)
    ensures (x * y) * (x * y) == (x * x) * (y * y)
  {
  }

  lemma SquareOrder(x: real, y: real)
    requires 0.0 <= x && 0.0 <= y
    ensures x * x <= y * y <==> x <= y
    ensures x * x == y * y <==> x == y
  {
    if 0.0 < x + y {
      PositiveFactor(x + y, y - x);
      assert (x + y) * (y - x) == y * y - x * x;
    }
  }

  lemma Quotient(d: real, m: real)
    requires 0.0 < m && d * d <= m * m
    ensures -1.0 <= d / m <= 1.0
    ensures d / m == 1.0 <==> d == m
  {
    var q := d / m;
    assert q * m == d;
    if 0.0 <= d {
      SquareOrder(d, m);
    } else {
      assert -d * -d == d * d;
      SquareOrder(-d, m);
    }
    PositiveFactor(m, 1.0 - q);
    PositiveFactor(m, 1.0 + q);
    assert m * (1.0 - q) == m - q * m;
    assert m * (1.0 + q) == m + q * m;
  }

  lemma RootIsPositive(x: real, root: real -> real)
    requires IsSqrt(root) && 0.0 <= x
    ensures 0.0 <= root(x) && root(x) * root(x) == x && (root(x) == 0.0 <==> x == 0.0)
  {
    SquareNonNegative(root(x));
  }

  /** When both vectors are non-zero, the similarity is the quotient. */
  lemma SimilarityIs(a: Vector, b: Vector, root: real -> real)
    requires IsSqrt(root)
    ensures var m := root(Dot(a, a)) * root(Dot(b, b));
            if |a| == |b| && !IsZero(a) && !IsZero(b)
            then 0.0 < m && m * m == Dot(a, a) * Dot(b, b)
                 && CosineSimilarity(a, b, root) == Dot(a, b) / m
            else CosineSimilarity(a, b, root) == 0.0
  {
    hide Dot, IsSqrt;
    NormIsDefinite(a);
    NormIsDefinite(b);
    RootIsPositive(Dot(a, a), root);
    RootIsPositive(Dot(b, b), root);
    var x, y := root(Dot(a, a)), root(Dot(b, b));
    ProductOfSquares(x, y);
    if 0.0 < x && 0.0 < y {
      PositiveFactor(x, y);
    }
  }

  /** The similarity of any two vectors is between -1 and 1. */
  lemma SimilarityIsBounded(a: Vector, b: Vector, root: real -> real)
    requires IsSqrt(root)
    ensures -1.0 <= CosineSimilarity(a, b, root) <= 1.0
  {
    hide Dot, CosineSimilarity, IsSqrt, IsZero;
    SimilarityIs(a, b, root);
    if |a| == |b| && !IsZero(a) && !IsZero(b) {
      CauchySchwarz(a, b);
      Quotient(Dot(a, b), root(Dot(a, a)) * root(Dot(b, b)));
    }
  }

  lemma SimilarityIsSymmetric(a: Vector, b: Vector, root: real -> real)
    ensures CosineSimilarity(a, b, root) == CosineSimilarity(b, a, root)
  {
    hide Dot;
    if |a| == |b| {
      DotCommutes(a, b);
    }
  }

  lemma NormScales(k: real, a: Vector)
    ensures Dot(Scaled(k, a), Scaled(k, a)) == (k * k) * Dot(a, a)
  {
    var c := Scaled(k, a);
    DotScales(k, a, c);
    DotCommutes(a, c);
    DotScales(k, a, a);
    assert k * (k * Dot(a, a)) == (k * k) * Dot(a, a);
  }

  lemma ScaledQuotient(k: real, d: real, m: real, d': real, m': real)
    requires 0.0 < k && 0.0 < m && d' == k * d && m' == k * m
    ensures 0.0 < m' && d' / m' == d / m
  {
  }

  lemma ScaledNorms(k: real, d: real, x: real, y: real, d': real, x': real)
    requires 0.0 < k && 0.0 < x * y && d' == k * d && x' == k * x
    ensures 0.0 < x' * y && d' / (x' * y) == d / (x * y)
  {
    assert (k * x) * y == k * (x * y);
    ScaledQuotient(k, d, x * y, d', x' * y);
  }

  lemma RootScales(k: real, x: real, x': real, root: real -> real)
    requires IsSqrt(root) && 0.0 < k && 0.0 <= x && x' == (k * k) * x
    ensures 0.0 <= x' && root(x') == k * root(x)
  {
    hide IsSqrt;
    SquareNonNegative(k);
    PositiveFactor(k * k, x);
    RootIsPositive(x, root);
    RootIsPositive(x', root);
    ProductOfSquares(k, root(x));
    PositiveFactor(k, root(x));
    SquareOrder(root(x'), k * root(x));
  }

  lemma ScaledIsZero(k: real, a: Vector)
    requires 0.0 < k
    ensures IsZero(Scaled(k, a)) <==> IsZero(a)
  {
    hide Dot, IsZero, Scaled;
    NormIsDefinite(a);
    NormIsDefinite(Scaled(k, a));
    NormScales(k, a);
    SquareNonNegative(k);
    PositiveFactor(k * k, Dot(a, a));
  }

  lemma RootOfScaled(k: real, a: Vector, root: real -> real)
    requires IsSqrt(root) && 0.0 < k
    ensures root(Dot(Scaled(k, a), Scaled(k, a))) == k * root(Dot(a, a))
  {
    hide Dot, IsSqrt, Scaled;
    NormScales(k, a);
    NormIsDefinite(a);
    RootScales(k, Dot(a, a), Dot(Scaled(k, a), Scaled(k, a)), root);
  }

  lemma SimilarityIsQuotient(a: Vector, b: Vector, root: real -> real)
    requires IsSqrt(root) && |a| == |b| && !IsZero(a) && !IsZero(b)
    ensures 0.0 < root(Dot(a, a)) * root(Dot(b, b))
    ensures CosineSimilarity(a, b, root) == Dot(a, b) / (root(Dot(a, a)) * root(Dot(b, b)))
  {
    hide Dot, CosineSimilarity, IsSqrt, IsZero;
    SimilarityIs(a, b, root);
  }

  lemma OtherwiseZero(a: Vector, b: Vector, root: real -> real)
    requires IsSqrt(root) && (|a| != |b| || IsZero(a) || IsZero(b))
    ensures CosineSimilarity(a, b, root) == 0.0
  {
    hide Dot, CosineSimilarity, IsSqrt, IsZero;
    SimilarityIs(a, b, root);
  }

  /** Lengthening or shortening a vector does not change its similarity to another. */
  lemma SimilarityIgnoresScale(k: real, a: Vector, b: Vector, root: real -> real)
    requires IsSqrt(root) && 0.0 < k
    ensures CosineSimilarity(Scaled(k, a), b, root) == CosineSimilarity(a, b, root)
  {
    hide Dot, CosineSimilarity, IsSqrt, IsZero, Scaled;
    var c := Scaled(k, a);
    ScaledIsZero(k, a);
    if |a| == |b| && !IsZero(a) && !IsZero(b) {
      SimilarityIsQuotient(a, b, root);
      SimilarityIsQuotient(c, b, root);
      DotScales(k, a, b);
      RootOfScaled(k, a, root);
      ScaledNorms(k, Dot(a, b), root(Dot(a, a)), root(Dot(b, b)), Dot(c, b), root(Dot(c, c)));
    } else {
      OtherwiseZero(a, b, root);
      OtherwiseZero(c, b, root);
    }
  }

  /** The similarity is 1 exactly for a positive multiple of a non-zero vector; in
      particular for a non-zero vector and itself. */
  lemma SimilarityOneExact(a: Vector, b: Vector, root: real -> real)
    requires IsSqrt(root)
    ensures CosineSimilarity(a, b, root) == 1.0
       <==> !IsZero(b) && exists k: real :: 0.0 < k && a == Scaled(k, b)
  {
    hide Dot, CosineSimilarity, IsSqrt, Parallel, Scaled, IsZero;
    SimilarityIs(a, b, root);
    if |a| == |b| && !IsZero(a) && !IsZero(b) {
      var m, d := root(Dot(a, a)) * root(Dot(b, b)), Dot(a, b);
      CauchySchwarz(a, b);
      Quotient(d, m);
      NormIsDefinite(b);
      if d == m {
        ParallelIsMultiple(a, b, d);
      }
    }
    if !IsZero(b) && exists k: real :: 0.0 < k && a == Scaled(k, b) {
      var k: real :| 0.0 < k && a == Scaled(k, b);
      SimilarityIgnoresScale(k, b, b, root);
      SimilarityWithSelf(b, root);
    }
  }

  lemma Proportion(t: real, x: real, d: real, y: real)
    requires 0.0 < t && Proportional(t, x, d, y)
    ensures x == (d / t) * y
  {
  }

  lemma ParallelIsMultiple(a: Vector, b: Vector, d: real)
    requires |a| == |b| && 0.0 < d && 0.0 < Dot(b, b)
    requires Parallel(a, b) && d == Dot(a, b)
    ensures exists k: real :: 0.0 < k && a == Scaled(k, b)
  {
    hide Dot, Scaled, Proportional;
    var t := Dot(b, b);
    var k := d / t;
    assert 0.0 < k by {
      assert k * t == d;
      PositiveFactor(t, k);
    }
    forall i | 0 <= i < |a|
      ensures a[i] == Scaled(k, b)[i]
    {
      Proportion(t, a[i], d, b[i]);
      ScaledAt(k, b, i);
    }
    assert a == Scaled(k, b);
  }

  lemma ScaledAt(k: real, a: Vector, i: nat)
    requires i < |a|
    ensures Scaled(k, a)[i] == k * a[i]
  {
  }

  lemma SimilarityWithSelf(a: Vector, root: real -> real)
    requires IsSqrt(root) && !IsZero(a)
    ensures CosineSimilarity(a, a, root) == 1.0
  {
    hide Dot, CosineSimilarity, IsSqrt;
    NormIsDefinite(a);
    SimilarityIs(a, a, root);
    var m := root(Dot(a, a)) * root(Dot(a, a));
    SquareOrder(m, Dot(a, a));
    Quotient(Dot(a, a), m);
  }
}
