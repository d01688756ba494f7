/**
 What the similarities measure: dense cosine is 1 exactly for vectors of one direction, sparse cosine is the
 dense cosine of the vectors written out, and the blend moves from one to the other with its weight.
 */
module SimilarityLaws {
  import opened Similarity

  // ---- Direction ----

  function Term(x: real, u: real, y: real, v: real): real { x * u - y * v }

  /** x * a - y * b, entry by entry. */
  function Mix(x: real, a: Dense, y: real, b: Dense): (c: Dense)
    requires |a| == |b|
    ensures |c| == |a| && forall i :: 0 <= i < |a| ==> c[i] == Term(x, a[i], y, b[i])
  {
    seq(|a|, i requires 0 <= i < |a| => Term(x, a[i], y, b[i]))
  }

  lemma MixPrefix(x: real, a: Dense, y: real, b: Dense, n: nat)
    requires |a| == |b| && n <= |a|
    ensures Mix(x, a, y, b)[..n] == Mix(x, a[..n], y, b[..n])
  {
  }

  lemma SquareIsZero(x: real)
    requires x * x == 0.0
    ensures x == 0.0
  {
    assert 0.0 * 0.0 == 0.0;
    OrderOfSquares(x, 0.0);
  }

  lemma MixTerm(x: real, u: real, y: real, v: real)
    ensures Term(x, u, y, v) * Term(x, u, y, v) == (x * x) * (u * u) - (2.0 * (x * y)) * (u * v) + (y * y) * (v * v)
  {
    var p, q := x * u, y * v;
    assert (p - q) * (p - q) == p * p - 2.0 * (p * q) + q * q;
    assert p * p == (x * x) * (u * u) && q * q == (y * y) * (v * v);
    assert p * q == (x * y) * (u * v);
  }

  lemma Collect(x: real, d: real, u: real)
    ensures x * (d + u) == x * d + x * u
  {
  }

  lemma {:induction false} NormOfMix(x: real, a: Dense, y: real, b: Dense)
    requires |a| == |b|
    ensures var c := Mix(x, a, y, b);
      Dot(c, c) == (x * x) * Dot(a, a) - (2.0 * (x * y)) * Dot(a, b) + (y * y) * Dot(b, b)
  {
    if a != [] {
      var n := |a| - 1;
      NormOfMix(x, a[..n], y, b[..n]);
      MixPrefix(x, a, y, b, n);
      MixTerm(x, a[n], y, b[n]);
      Collect(x * x, Dot(a[..n], a[..n]), a[n] * a[n]);
      Collect(2.0 * (x * y), Dot(a[..n], b[..n]), a[n] * b[n]);
      Collect(y * y, Dot(b[..n], b[..n]), b[n] * b[n]);
    }
  }

  lemma {:induction false} ZeroNormZeroVector(c: Dense, i: nat)
    requires Dot(c, c) == 0.0 && i < |c|
    ensures c[i] == 0.0
  {
    var n := |c| - 1;
    CauchySchwarz(c[..n], c[..n]);
    SquareNonNegative(c[n]);
    SquareIsZero(c[n]);
    if i < n {
      ZeroNormZeroVector(c[..n], i);
    }
  }

  /** b points the way a does. */
  ghost predicate SameDirection(a: Dense, b: Dense) {
    |a| == |b| && exists t: real :: t > 0.0 && IsMultiple(t, a, b)
  }

  predicate IsMultiple(t: real, a: Dense, b: Dense)
    requires |a| == |b|
  {
    forall i :: 0 <= i < |a| ==> b[i] == t * a[i]
  }

  function Times(t: real, x: real): real { t * x }

  lemma MultipleTerm(t: real, u: real, v: real, d: real)
    requires v == t * u
    ensures Times(t, d) + u * v == Times(t, d + u * u)
    ensures Times(t, Times(t, d)) + v * v == Times(t, Times(t, d + u * u))
  {
    Collect(t, d, u * u);
    Collect(t, t * d, t * (u * u));
    assert u * v == t * (u * u) && v * v == t * (t * (u * u));
  }

  lemma {:induction false} DotNext(a: Dense, b: Dense, u: real, v: real)
    requires |a| == |b|
    ensures Dot(a + [u], b + [v]) == Dot(a, b) + u * v
  {
    assert (a + [u])[..|a|] == a && (b + [v])[..|b|] == b;
  }

  ghost predicate DotsOfMultiple(t: real, a: Dense, b: Dense)
    requires |a| == |b|
  {
    Dot(a, b) == Times(t, Dot(a, a)) && Dot(b, b) == Times(t, Times(t, Dot(a, a)))
  }

  lemma {:induction false} MultipleNext(t: real, a: Dense, b: Dense, u: real, v: real)
    requires |a| == |b| && DotsOfMultiple(t, a, b) && v == t * u
    ensures DotsOfMultiple(t, a + [u], b + [v])
  {
    DotNext(a, b, u, v);
    DotNext(a, a, u, u);
    DotNext(b, b, v, v);
    MultipleTerm(t, u, v, Dot(a, a));
  }

  lemma {:induction false} DotOfMultiple(t: real, a: Dense, b: Dense)
    requires |a| == |b| && IsMultiple(t, a, b)
    ensures DotsOfMultiple(t, a, b)
  {
    if a != [] {
      var n := |a| - 1;
      DotOfMultiple(t, a[..n], b[..n]);
      MultipleNext(t, a[..n], b[..n], a[n], b[n]);
      assert a == a[..n] + [a[n]] && b == b[..n] + [b[n]];
    } else {
      NothingMultiplied(t);
    }
  }

  lemma NothingMultiplied(t: real)
    ensures DotsOfMultiple(t, [], [])
  {
    assert Times(t, 0.0) == 0.0;
  }

  lemma {:induction false} LastTerm(a: Dense, b: Dense)
    requires |a| == |b| > 0
    ensures var n := |a| - 1; Dot(a, b) == Dot(a[..n], b[..n]) + a[n] * b[n]
  {
    var n := |a| - 1;
    DotNext(a[..n], b[..n], a[n], b[n]);
    assert a == a[..n] + [a[n]] && b == b[..n] + [b[n]];
  }

  lemma EqualSquares(p: real, q: real)
    requires p >= 0.0 && q >= 0.0 && p * p == q * q
    ensures p == q
  {
    OrderOfSquares(p, q);
    OrderOfSquares(q, p);
  }

  lemma ProductOfRoots(r: real, s: real)
    ensures (r * s) * (r * s) == (r * r) * (s * s)
  {
  }

  lemma PositiveRoot(r: real, x: real)
    requires r >= 0.0 && r * r == x && x > 0.0
    ensures r > 0.0
  {
    assert r == 0.0 ==> r * r == 0.0;
  }

  lemma PositiveProduct(x: real, y: real)
    requires x > 0.0 && y > 0.0
    ensures x * y > 0.0
  {
  }

  lemma QuotientIsOneIff(dot: real, denom: real)
    requires denom > 0.0
    ensures dot / denom == 1.0 <==> dot == denom
  {
    assert dot / denom * denom == dot;
  }

  lemma TightIff(dot: real, denom: real, square: real)
    requires denom > 0.0 && denom * denom == square
    ensures dot / denom == 1.0 <==> dot > 0.0 && dot * dot == square
  {
    QuotientIsOneIff(dot, denom);
    if dot > 0.0 && dot * dot == square {
      EqualSquares(dot, denom);
    }
  }

  /** The similarity is 1 exactly if the dot product is positive and its square the product of the norms. */
  lemma {:induction false} CosineIsOneIff(sqrt: real -> real, a: Dense, b: Dense)
    requires IsSqrt(sqrt) && |a| == |b| > 0 && Dot(a, a) > 0.0 && Dot(b, b) > 0.0
    ensures Cosine(sqrt, a, b) == 1.0 <==> Dot(a, b) > 0.0 && Dot(a, b) * Dot(a, b) == Dot(a, a) * Dot(b, b)
  {
    var x, y := Dot(a, a), Dot(b, b);
    QuotientIsTightIff(sqrt, Dot(a, b), x, y);
    assert Cosine(sqrt, a, b) == Quotient(sqrt, Dot(a, b), x, y);
  }

  lemma QuotientIsTightIff(sqrt: real -> real, dot: real, x: real, y: real)
    requires IsSqrt(sqrt) && x > 0.0 && y > 0.0
    ensures Quotient(sqrt, dot, x, y) == 1.0 <==> dot > 0.0 && dot * dot == x * y
  {
    var r, s := sqrt(x), sqrt(y);
    PositiveRoot(r, x);
    PositiveRoot(s, y);
    PositiveProduct(r, s);
    ProductOfRoots(r, s);
    TightIff(dot, r * s, x * y);
  }

  lemma MixedNorm(x: real, d: real, y: real)
    requires d * d == x * y
    ensures (d * d) * x - (2.0 * (d * x)) * d + (x * x) * y == 0.0
  {
    assert (2.0 * (d * x)) * d == 2.0 * (x * (d * d));
    assert (x * x) * y == x * (x * y);
    assert (d * d) * x == x * (d * d);
  }

  lemma MultipleFromMix(d: real, u: real, x: real, v: real)
    requires x > 0.0 && Term(d, u, x, v) == 0.0
    ensures v == d / x * u
  {
    assert v == (d * u) / x;
  }

  lemma {:induction false} ParallelIfTight(a: Dense, b: Dense)
    requires |a| == |b| && Dot(a, a) > 0.0 && Dot(a, b) > 0.0 && Dot(a, b) * Dot(a, b) == Dot(a, a) * Dot(b, b)
    ensures SameDirection(a, b)
  {
    var x, d := Dot(a, a), Dot(a, b);
    MixIsZero(a, b);
    forall i | 0 <= i < |a| ensures b[i] == d / x * a[i] {
      ZeroNormZeroVector(Mix(d, a, x, b), i);
      MultipleFromMix(d, a[i], x, b[i]);
    }
    PositiveQuotient(d, x);
    assert IsMultiple(d / x, a, b);
  }

  lemma PositiveQuotient(d: real, x: real)
    requires d > 0.0 && x > 0.0
    ensures d / x > 0.0
  {
  }

  lemma {:induction false} MixIsZero(a: Dense, b: Dense)
    requires |a| == |b| && Dot(a, b) * Dot(a, b) == Dot(a, a) * Dot(b, b)
    ensures var c := Mix(Dot(a, b), a, Dot(a, a), b); Dot(c, c) == 0.0
  {
    NormOfMix(Dot(a, b), a, Dot(a, a), b);
    MixedNorm(Dot(a, a), Dot(a, b), Dot(b, b));
  }

  lemma TightMultiple(t: real, x: real)
    requires t > 0.0 && x > 0.0
    ensures t * x > 0.0 && (t * x) * (t * x) == x * (t * (t * x))
  {
  }

  /** Of two vectors that are not zero, the similarity is 1 exactly if one is a positive multiple of the other. */
  lemma {:induction false} CosineIsOneIffSameDirection(sqrt: real -> real, a: Dense, b: Dense)
    requires IsSqrt(sqrt) && |a| == |b| > 0 && Dot(a, a) > 0.0 && Dot(b, b) > 0.0
    ensures Cosine(sqrt, a, b) == 1.0 <==> SameDirection(a, b)
  {
    CosineIsOneIff(sqrt, a, b);
    if Cosine(sqrt, a, b) == 1.0 {
      ParallelIfTight(a, b);
    }
    if SameDirection(a, b) {
      var t: real :| t > 0.0 && IsMultiple(t, a, b);
      DotOfMultiple(t, a, b);
      TightMultiple(t, Dot(a, a));
    }
  }

  /** A vector is not zero exactly if its norm is positive. */
  lemma {:induction false} NormIsPositiveIff(a: Dense)
    ensures Dot(a, a) > 0.0 <==> exists i :: 0 <= i < |a| && a[i] != 0.0
  {
    CauchySchwarz(a, a);
    if Dot(a, a) == 0.0 {
      forall i | 0 <= i < |a| ensures a[i] == 0.0 {
        ZeroNormZeroVector(a, i);
      }
    } else {
      SomeEntryIsNotZero(a);
    }
  }

  lemma {:induction false} SomeEntryIsNotZero(a: Dense)
    requires Dot(a, a) != 0.0
    ensures exists i :: 0 <= i < |a| && a[i] != 0.0
  {
    var n := |a| - 1;
    if a[n] == 0.0 {
      SomeEntryIsNotZero(a[..n]);
      var i :| 0 <= i < n && a[..n][i] != 0.0;
      assert a[i] != 0.0;
    }
  }

  // ---- Sparse vectors written out ----

  /** The entries of a sparse vector at the given tokens. */
  function Written(a: Sparse, keys: seq<TokenID>): (r: Dense)
    ensures |r| == |keys| && forall i :: 0 <= i < |keys| ==> r[i] == if keys[i] in a then a[keys[i]] else 0.0
  {
    seq(|keys|, i requires 0 <= i < |keys| => At(a, keys[i]))
  }

  predicate Once(keys: seq<TokenID>) { forall i, j :: 0 <= i < j < |keys| ==> keys[i] != keys[j] }

  function Members(keys: seq<TokenID>): set<TokenID> { set k | k in keys }

  /** The sum of f over a list of keys. */
  function SumOf(f: TokenID -> real, keys: seq<TokenID>): real {
    if keys == [] then 0.0 else SumOf(f, keys[..|keys| - 1]) + f(keys[|keys| - 1])
  }

  lemma {:induction false} SumInOrder(f: TokenID -> real, keys: seq<TokenID>)
    requires Once(keys)
    ensures Sum(f, Members(keys)) == SumOf(f, keys)
  {
    if keys != [] {
      var init, k := keys[..|keys| - 1], keys[|keys| - 1];
      SumInOrder(f, init);
      assert keys == init + [k] && k !in init;
      assert k in Members(keys) && Members(keys) - {k} == Members(init);
      SumPick(f, Members(keys), k);
    } else {
      assert Members(keys) == {};
    }
  }

  lemma {:induction false} DotInOrder(a: Sparse, b: Sparse, keys: seq<TokenID>)
    ensures SumOf(Product(a, b), keys) == Dot(Written(a, keys), Written(b, keys))
  {
    if keys != [] {
      var n := |keys| - 1;
      DotInOrder(a, b, keys[..n]);
      assert Written(a, keys)[..n] == Written(a, keys[..n]);
      assert Written(b, keys)[..n] == Written(b, keys[..n]);
      LastTerm(Written(a, keys), Written(b, keys));
    }
  }

  lemma {:induction false} SumIsDot(a: Sparse, b: Sparse, keys: seq<TokenID>)
    requires Once(keys)
    ensures Sum(Product(a, b), Members(keys)) == Dot(Written(a, keys), Written(b, keys))
  {
    SumInOrder(Product(a, b), keys);
    DotInOrder(a, b, keys);
  }

  lemma RootOfZero(sqrt: real -> real, x: real)
    requires IsSqrt(sqrt) && x == 0.0
    ensures sqrt(x) == 0.0
  {
    SquareIsZero(sqrt(x));
  }

  lemma {:induction false} NothingHasNoNorm(a: Sparse)
    requires |a| == 0
    ensures SparseNorm(a) == 0.0
  {
    assert a.Keys == {};
  }

  lemma ZeroQuotient(sqrt: real -> real, dot: real, x: real, y: real)
    requires IsSqrt(sqrt) && (x == 0.0 || y == 0.0)
    ensures Quotient(sqrt, dot, x, y) == 0.0
  {
    if x == 0.0 {
      RootOfZero(sqrt, x);
    } else {
      RootOfZero(sqrt, y);
    }
  }

  /**
   The sparse similarity is the dense similarity of the two vectors written out over any list of tokens,
   in any order, that has all of theirs.
   */
  lemma {:induction false} SparseIsDenseWrittenOut(sqrt: real -> real, a: Sparse, b: Sparse, keys: seq<TokenID>)
    requires IsSqrt(sqrt) && Once(keys) && forall k :: k in a || k in b ==> k in keys
    ensures SparseCosine(sqrt, a, b) == Cosine(sqrt, Written(a, keys), Written(b, keys))
  {
    SumIsDot(a, b, keys);
    SumIsDot(a, a, keys);
    SumIsDot(b, b, keys);
    SumIgnores(Product(a, b), a.Keys + b.Keys, Members(keys));
    SumIgnores(Product(a, a), a.Keys, Members(keys));
    SumIgnores(Product(b, b), b.Keys, Members(keys));
    var dot, x, y := SparseDot(a, b), SparseNorm(a), SparseNorm(b);
    if |a| == 0 {
      NothingHasNoNorm(a);
    }
    if |b| == 0 {
      NothingHasNoNorm(b);
    }
    if x == 0.0 || y == 0.0 {
      ZeroQuotient(sqrt, dot, x, y);
    }
  }

  // ---- The blend ----

  /** With weight 1 the blend is the sparse similarity, with 0, or without both sparse vectors, the dense one. */
  lemma BlendEnds(sqrt: real -> real, w: real, a: Dense, sa: Sparse, b: Dense, sb: Sparse)
    ensures |sa| > 0 && |sb| > 0 ==> Hybrid(sqrt, 1.0, a, sa, b, sb) == SparseCosine(sqrt, sa, sb)
    ensures w <= 0.0 || |sa| == 0 || |sb| == 0 ==> Hybrid(sqrt, w, a, sa, b, sb) == Cosine(sqrt, a, b)
  {
  }

  /** In between, every bit of weight moves it by the same part of the way. */
  lemma BlendMovesEvenly(sqrt: real -> real, v: real, w: real, a: Dense, sa: Sparse, b: Dense, sb: Sparse)
    requires 0.0 <= v && 0.0 <= w && |sa| > 0 && |sb| > 0
    ensures Hybrid(sqrt, w, a, sa, b, sb) - Hybrid(sqrt, v, a, sa, b, sb)
      == (w - v) * (SparseCosine(sqrt, sa, sb) - Cosine(sqrt, a, b))
  {
    Even(v, w, Cosine(sqrt, a, b), SparseCosine(sqrt, sa, sb));
    AtZero(Cosine(sqrt, a, b), SparseCosine(sqrt, sa, sb));
  }

  lemma Even(v: real, w: real, d: real, s: real)
    ensures Blend(w, d, s) - Blend(v, d, s) == (w - v) * (s - d)
  {
  }

  lemma AtZero(d: real, s: real)
    ensures Blend(0.0, d, s) == d
  {
  }
}
