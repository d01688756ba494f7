/**
 Cosine similarity of dense and of sparse vectors, and their blend (memory/memory.go,
 vectorstore/vectorstore.go). Numbers are exact reals; the square root is a parameter that is only
 assumed to be one.
 */
module Similarity {

  type Dense = seq<real>
  newtype TokenID = x: int | -0x8000_0000 <= x < 0x8000_0000
  type Sparse = map<TokenID, real>

  ghost predicate IsSqrt(sqrt: real -> real) {
    forall x: real :: x >= 0.0 ==> sqrt(x) >= 0.0 && sqrt(x) * sqrt(x) == x
  }

  /** dot / (sqrt(normA) * sqrt(normB)), or 0 where that has no value. */
  function Quotient(sqrt: real -> real, dot: real, normA: real, normB: real): real {
    var denom := sqrt(normA) * sqrt(normB);
    if denom == 0.0 then 0.0 else dot / denom
  }

  // ---- Dense vectors ----

  function Dot(a: Dense, b: Dense): real
    requires |a| == |b|
  {
    if a == [] then 0.0 else Dot(a[..|a| - 1], b[..|b| - 1]) + a[|a| - 1] * b[|b| - 1]
  }

  function Cosine(sqrt: real -> real, a: Dense, b: Dense): real {
    if |a| != |b| || |a| == 0 then 0.0 else Quotient(sqrt, Dot(a, b), Dot(a, a), Dot(b, b))
  }

  method CosineSimilarity(sqrt: real -> real, a: Dense, b: Dense) returns (sim: real)
    ensures sim == Cosine(sqrt, a, b)
  {
    if |a| != |b| || |a| == 0 {
      return 0.0;
    }
    var dot, normA, normB := 0.0, 0.0, 0.0;
    for i := 0 to |a|
      invariant dot == Dot(a[..i], b[..i]) && normA == Dot(a[..i], a[..i]) && normB == Dot(b[..i], b[..i])
    {
      var ai, bi := a[i], b[i];
      assert a[..i + 1][..i] == a[..i] && b[..i + 1][..i] == b[..i];
      dot := dot + ai * bi;
      normA := normA + ai * ai;
      normB := normB + bi * bi;
    }
    assert a[..|a|] == a && b[..|b|] == b;
    sim := Divide(sqrt, dot, normA, normB);
  }

  // ---- The Cauchy-Schwarz inequality ----

  lemma SquareNonNegative(x: real)
    ensures x * x >= 0.0
  {
  }

  lemma ProductNonNegative(x: real, y: real)
    requires x >= 0.0 && y >= 0.0
    ensures x * y >= 0.0
  {
  }

  lemma TimesKeepsOrder(x: real, y: real, c: real)
    requires x < y && c > 0.0
    ensures x * c < y * c
  {
  }

  lemma SquaresGrow(p: real, q: real)
    requires p > q >= 0.0
    ensures p * p > q * q
  {
    var d := p - q;
    assert p * p == q * q + 2.0 * (d * q) + d * d;
    ProductNonNegative(d, q);
    TimesKeepsOrder(0.0, d, d);
  }

  lemma OrderOfSquares(p: real, q: real)
    requires q >= 0.0 && p * p <= q * q
    ensures -q <= p <= q
  {
    if p > q { SquaresGrow(p, q); }
    if -p > q { SquaresGrow(-p, q); }
  }

  lemma Scale(x: real, y: real, c: real)
    requires x <= y && c >= 0.0
    ensures x * c <= y * c
  {
  }

  /** 2dp <= Av + Bu whenever dd <= AB and pp <= uv. */
  lemma CrossTerm(d: real, normA: real, normB: real, p: real, u: real, v: real)
    requires normA >= 0.0 && normB >= 0.0 && u >= 0.0 && v >= 0.0
    requires d * d <= normA * normB && p * p <= u * v
    ensures 2.0 * (d * p) <= normA * v + normB * u
  {
    var s, t := normA * v, normB * u;
    ProductNonNegative(normA, v);
    ProductNonNegative(normB, u);
    SquareNonNegative(p);
    ProductNonNegative(normA, normB);
    var q := 2.0 * (d * p);
    assert q * q == 4.0 * ((d * d) * (p * p));
    Scale(d * d, normA * normB, p * p);
    Scale(p * p, u * v, normA * normB);
    Regroup(normA, normB, u, v);
    FourProducts(s, t);
    OrderOfSquares(q, s + t);
  }

  lemma FourProducts(s: real, t: real)
    ensures 4.0 * (s * t) <= (s + t) * (s + t)
  {
    SquareNonNegative(s - t);
    assert (s + t) * (s + t) - 4.0 * (s * t) == (s - t) * (s - t);
  }

  lemma Regroup(a: real, b: real, u: real, v: real)
    ensures (u * v) * (a * b) == (a * v) * (b * u) && (a * b) * (u * v) == (u * v) * (a * b)
  {
  }

  /** The inequality between a dot product and two norms. */
  predicate Dominated(dot: real, normA: real, normB: real) {
    normA >= 0.0 && normB >= 0.0 && dot * dot <= normA * normB
  }

  /** One more term keeps the inequality. */
  lemma ExtendInequality(d: real, normA: real, normB: real, p: real, u: real, v: real)
    requires Dominated(d, normA, normB) && Dominated(p, u, v)
    ensures Dominated(d + p, normA + u, normB + v)
  {
    CrossTerm(d, normA, normB, p, u, v);
    assert (d + p) * (d + p) == d * d + 2.0 * (d * p) + p * p;
    assert (normA + u) * (normB + v) == normA * normB + (normA * v + normB * u) + u * v;
  }

  lemma TermDominated(x: real, y: real)
    ensures Dominated(x * y, x * x, y * y)
  {
    SquareNonNegative(x);
    SquareNonNegative(y);
    assert (x * y) * (x * y) == (x * x) * (y * y);
  }

  /** The square of the accumulated dot product never exceeds the product of the accumulated norms. */
  lemma {:induction false} CauchySchwarz(a: Dense, b: Dense)
    requires |a| == |b|
    ensures Dominated(Dot(a, b), Dot(a, a), Dot(b, b))
  {
    if a != [] {
      var n := |a| - 1;
      CauchySchwarz(a[..n], b[..n]);
      TermDominated(a[n], b[n]);
      ExtendInequality(Dot(a[..n], b[..n]), Dot(a[..n], a[..n]), Dot(b[..n], b[..n]), a[n] * b[n], a[n] * a[n], b[n] * b[n]);
    }
  }

  lemma {:induction false} DotCommutes(a: Dense, b: Dense)
    requires |a| == |b|
    ensures Dot(a, b) == Dot(b, a)
  {
    if a != [] {
      DotCommutes(a[..|a| - 1], b[..|b| - 1]);
    }
  }

  lemma DividedIsBounded(dot: real, denom: real)
    requires denom > 0.0 && -denom <= dot <= denom
    ensures -1.0 <= dot / denom <= 1.0
  {
    var q := dot / denom;
    assert q * denom == dot;
    if q > 1.0 { TimesKeepsOrder(1.0, q, denom); }
    if q < -1.0 { TimesKeepsOrder(q, -1.0, denom); }
  }

  lemma BoundByRoots(dot: real, r: real, s: real)
    requires r >= 0.0 && s >= 0.0 && dot * dot <= (r * r) * (s * s)
    ensures 0.0 <= r * s && -(r * s) <= dot <= r * s
  {
    ProductNonNegative(r, s);
    assert (r * s) * (r * s) == (r * r) * (s * s);
    OrderOfSquares(dot, r * s);
  }

  lemma QuotientIsBounded(sqrt: real -> real, dot: real, normA: real, normB: real)
    requires IsSqrt(sqrt) && Dominated(dot, normA, normB)
    ensures -1.0 <= Quotient(sqrt, dot, normA, normB) <= 1.0
  {
    var r, s := sqrt(normA), sqrt(normB);
    assert r >= 0.0 && s >= 0.0 && r * r == normA && s * s == normB;
    BoundByRoots(dot, r, s);
    var denom := r * s;
    if denom != 0.0 {
      DividedIsBounded(dot, denom);
    }
    assert Quotient(sqrt, dot, normA, normB) == if denom == 0.0 then 0.0 else dot / denom;
  }

  lemma QuotientCommutes(sqrt: real -> real, dot: real, normA: real, normB: real)
    ensures Quotient(sqrt, dot, normA, normB) == Quotient(sqrt, dot, normB, normA)
  {
    assert sqrt(normA) * sqrt(normB) == sqrt(normB) * sqrt(normA);
  }

  /** Dense similarity lies in [-1, 1] and does not depend on the order of its arguments. */
  lemma CosineIsBoundedAndSymmetric(sqrt: real -> real, a: Dense, b: Dense)
    requires IsSqrt(sqrt)
    ensures -1.0 <= Cosine(sqrt, a, b) <= 1.0 && Cosine(sqrt, a, b) == Cosine(sqrt, b, a)
  {
    if |a| == |b| && |a| != 0 {
      CauchySchwarz(a, b);
      DotCommutes(a, b);
      QuotientIsBounded(sqrt, Dot(a, b), Dot(a, a), Dot(b, b));
      QuotientCommutes(sqrt, Dot(a, b), Dot(a, a), Dot(b, b));
    }
  }

  // ---- Sparse vectors ----

  /** Some key of a set; nothing is known about which one. */
  ghost function Pick(keys: set<TokenID>): (k: TokenID)
    requires keys != {}
    ensures k in keys
  {
    var k :| k in keys;
    k
  }

  /** One step of a map iteration: any key may come next. */
  method Next(keys: set<TokenID>) returns (k: TokenID)
    requires keys != {}
    ensures k in keys
  {
    k :| k in keys;
  }

  function At(a: Sparse, k: TokenID): real { if k in a then a[k] else 0.0 }

  /** The sum of f over a set of keys. */
  ghost function Sum(f: TokenID -> real, keys: set<TokenID>): real {
    if keys == {} then 0.0
    else
      var k := Pick(keys);
      f(k) + Sum(f, keys - {k})
  }

  /** The sum does not depend on the order in which the keys are visited. */
  lemma {:induction false} SumPick(f: TokenID -> real, keys: set<TokenID>, k: TokenID)
    requires k in keys
    ensures Sum(f, keys) == f(k) + Sum(f, keys - {k})
    decreases |keys|
  {
    var j := Pick(keys);
    if j != k {
      SumPick(f, keys - {j}, k);
      SumPick(f, keys - {k}, j);
      assert keys - {j} - {k} == keys - {k} - {j};
    }
  }

  lemma {:induction false} SumSame(f: TokenID -> real, g: TokenID -> real, keys: set<TokenID>)
    requires forall k :: k in keys ==> f(k) == g(k)
    ensures Sum(f, keys) == Sum(g, keys)
    decreases |keys|
  {
    if keys != {} {
      SumSame(f, g, keys - {Pick(keys)});
    }
  }

  /** Keys that add nothing may be left out. */
  lemma {:induction false} SumIgnores(f: TokenID -> real, keys: set<TokenID>, more: set<TokenID>)
    requires keys <= more && forall k :: k in more && k !in keys ==> f(k) == 0.0
    ensures Sum(f, keys) == Sum(f, more)
    decreases |more|
  {
    if more - keys != {} {
      var k := Pick(more - keys);
      SumPick(f, more, k);
      SumIgnores(f, keys, more - {k});
    } else {
      assert more == keys;
    }
  }

  lemma {:induction false} SumNonNegative(f: TokenID -> real, keys: set<TokenID>)
    requires forall k :: k in keys ==> f(k) >= 0.0
    ensures Sum(f, keys) >= 0.0
    decreases |keys|
  {
    if keys != {} {
      SumNonNegative(f, keys - {Pick(keys)});
    }
  }

  /** Term by term product, absent keys counting as zero. */
  function Product(a: Sparse, b: Sparse): TokenID -> real { k => At(a, k) * At(b, k) }

  /** Cauchy-Schwarz for sums of terms that satisfy it one by one. */
  lemma {:induction false} SumsDominated(f: TokenID -> real, g: TokenID -> real, h: TokenID -> real, keys: set<TokenID>)
    requires forall k :: k in keys ==> Dominated(f(k), g(k), h(k))
    ensures Dominated(Sum(f, keys), Sum(g, keys), Sum(h, keys))
    decreases |keys|
  {
    if keys != {} {
      var k := Pick(keys);
      SumsDominated(f, g, h, keys - {k});
      ExtendInequality(Sum(f, keys - {k}), Sum(g, keys - {k}), Sum(h, keys - {k}), f(k), g(k), h(k));
      Reorder(f, keys);
      Reorder(g, keys);
      Reorder(h, keys);
    } else {
      NothingDominated();
    }
  }

  lemma NothingDominated()
    ensures Dominated(0.0, 0.0, 0.0)
  {
  }

  lemma {:induction false} Reorder(f: TokenID -> real, keys: set<TokenID>)
    requires keys != {}
    ensures Sum(f, keys) == Sum(f, keys - {Pick(keys)}) + f(Pick(keys))
  {
  }

  lemma {:induction false} SparseCauchySchwarz(a: Sparse, b: Sparse, keys: set<TokenID>)
    ensures Dominated(Sum(Product(a, b), keys), Sum(Product(a, a), keys), Sum(Product(b, b), keys))
  {
    forall k | k in keys ensures Dominated(Product(a, b)(k), Product(a, a)(k), Product(b, b)(k)) {
      TermDominated(At(a, k), At(b, k));
    }
    SumsDominated(Product(a, b), Product(a, a), Product(b, b), keys);
  }

  ghost function SparseDot(a: Sparse, b: Sparse): real { Sum(Product(a, b), a.Keys + b.Keys) }

  ghost function SparseNorm(a: Sparse): real { Sum(Product(a, a), a.Keys) }

  ghost function SparseCosine(sqrt: real -> real, a: Sparse, b: Sparse): real {
    if |a| == 0 || |b| == 0 || SparseNorm(a) == 0.0 || SparseNorm(b) == 0.0 then 0.0
    else Quotient(sqrt, SparseDot(a, b), SparseNorm(a), SparseNorm(b))
  }

  lemma ZeroOutside(a: Sparse, b: Sparse, k: TokenID)
    requires k !in a || k !in b
    ensures Product(a, b)(k) == 0.0
  {
  }

  lemma {:induction false} DotOver(a: Sparse, b: Sparse, keys: set<TokenID>, all: set<TokenID>)
    requires keys <= all && forall k :: k in all && k in a && k in b ==> k in keys
    ensures Sum(Product(a, b), keys) == Sum(Product(a, b), all)
  {
    forall k | k in all && k !in keys ensures Product(a, b)(k) == 0.0 {
      ZeroOutside(a, b, k);
    }
    SumIgnores(Product(a, b), keys, all);
  }

  lemma DotCommutesSparse(a: Sparse, b: Sparse)
    ensures SparseDot(a, b) == SparseDot(b, a)
  {
    forall k | k in a.Keys + b.Keys ensures Product(a, b)(k) == Product(b, a)(k) {
      assert At(a, k) * At(b, k) == At(b, k) * At(a, k);
    }
    SumSame(Product(a, b), Product(b, a), a.Keys + b.Keys);
    assert b.Keys + a.Keys == a.Keys + b.Keys;
  }

  lemma SparseDotBound(a: Sparse, b: Sparse)
    ensures Dominated(SparseDot(a, b), SparseNorm(a), SparseNorm(b))
    ensures SparseDot(a, b) == SparseDot(b, a)
  {
    var all := a.Keys + b.Keys;
    DotOver(a, a, a.Keys, all);
    DotOver(b, b, b.Keys, all);
    SparseCauchySchwarz(a, b, all);
    DotCommutesSparse(a, b);
  }

  /** Sparse similarity lies in [-1, 1] and does not depend on the order of its arguments. */
  lemma SparseCosineIsBoundedAndSymmetric(sqrt: real -> real, a: Sparse, b: Sparse)
    requires IsSqrt(sqrt)
    ensures -1.0 <= SparseCosine(sqrt, a, b) <= 1.0 && SparseCosine(sqrt, a, b) == SparseCosine(sqrt, b, a)
  {
    SparseDotBound(a, b);
    QuotientIsBounded(sqrt, SparseDot(a, b), SparseNorm(a), SparseNorm(b));
    QuotientCommutes(sqrt, SparseDot(a, b), SparseNorm(a), SparseNorm(b));
  }

  predicate NonNegativeWeights(a: Sparse) { forall k :: k in a ==> a[k] >= 0.0 }

  lemma {:induction false} NonNegativeSum(a: Sparse, b: Sparse, keys: set<TokenID>)
    requires NonNegativeWeights(a) && NonNegativeWeights(b)
    ensures Sum(Product(a, b), keys) >= 0.0
  {
    forall k | k in keys ensures Product(a, b)(k) >= 0.0 {
      ProductNonNegative(At(a, k), At(b, k));
    }
    SumNonNegative(Product(a, b), keys);
  }

  /** With non-negative weights it lies in [0, 1]. */
  lemma SparseCosineOfWeights(sqrt: real -> real, a: Sparse, b: Sparse)
    requires IsSqrt(sqrt) && NonNegativeWeights(a) && NonNegativeWeights(b)
    ensures 0.0 <= SparseCosine(sqrt, a, b) <= 1.0
  {
    SparseCosineIsBoundedAndSymmetric(sqrt, a, b);
    NonNegativeSum(a, b, a.Keys + b.Keys);
    SparseDotBound(a, b);
    NonNegativeQuotient(sqrt, SparseDot(a, b), SparseNorm(a), SparseNorm(b));
  }

  lemma NonNegativeQuotient(sqrt: real -> real, dot: real, normA: real, normB: real)
    requires IsSqrt(sqrt) && dot >= 0.0 && normA >= 0.0 && normB >= 0.0
    ensures Quotient(sqrt, dot, normA, normB) >= 0.0
  {
    ProductNonNegative(sqrt(normA), sqrt(normB));
  }

  lemma ZeroNormZeroDot(a: Sparse, b: Sparse)
    requires SparseNorm(a) == 0.0 || SparseNorm(b) == 0.0
    ensures SparseDot(a, b) == 0.0
  {
    SparseDotBound(a, b);
    OrderOfSquares(SparseDot(a, b), 0.0);
  }

  // ---- The two implementations ----

  /** One loop body: add the term of k to a running sum. */
  method AddTerm(a: Sparse, b: Sparse, k: TokenID, sum: real) returns (sum': real)
    requires k in b
    ensures sum' == sum + Product(a, b)(k)
  {
    sum' := sum;
    if k in a {
      sum' := sum + a[k] * b[k];
    }
  }

  /** Sum of squares, in any iteration order. */
  method SumSquares(a: Sparse) returns (sum: real)
    ensures sum == SparseNorm(a)
  {
    sum := 0.0;
    ghost var f := Product(a, a);
    var pending := a.Keys;
    while pending != {}
      invariant pending <= a.Keys && sum + Sum(f, pending) == Sum(f, a.Keys)
      decreases pending
    {
      var k := Next(pending);
      SumPick(f, pending, k);
      sum := AddTerm(a, a, k, sum);
      pending := pending - {k};
    }
  }

  /** Dot product and norm in one pass over b, in any iteration order. */
  method DotAndNorm(a: Sparse, b: Sparse) returns (dot: real, norm: real)
    ensures dot == SparseDot(a, b) && norm == SparseNorm(b)
  {
    dot, norm := 0.0, 0.0;
    ghost var f, g := Product(a, b), Product(b, b);
    var pending := b.Keys;
    while pending != {}
      invariant pending <= b.Keys
      invariant norm + Sum(g, pending) == Sum(g, b.Keys)
      invariant dot + Sum(f, pending) == Sum(f, b.Keys)
      decreases pending
    {
      var k := Next(pending);
      SumPick(g, pending, k);
      SumPick(f, pending, k);
      norm := AddTerm(b, b, k, norm);
      dot := AddTerm(a, b, k, dot);
      pending := pending - {k};
    }
    DotOver(a, b, b.Keys, a.Keys + b.Keys);
  }

  /** The memory store's version: order the maps by size, then one pass over each. */
  method SparseCosineBySwapping(sqrt: real -> real, a0: Sparse, b0: Sparse) returns (sim: real)
    requires IsSqrt(sqrt)
    ensures sim == SparseCosine(sqrt, a0, b0)
  {
    if |a0| == 0 || |b0| == 0 {
      return 0.0;
    }
    var a, b := a0, b0;
    if |a| > |b| {
      a, b := b, a;
    }
    SparseCosineIsBoundedAndSymmetric(sqrt, a0, b0);
    SparseDotBound(a, b);
    var na := SumSquares(a);
    var dot, nb := DotAndNorm(a, b);
    if na == 0.0 || nb == 0.0 {
      return 0.0;
    }
    sim := DivideByRoots(sqrt, dot, na, nb);
  }

  method DivideByRoots(sqrt: real -> real, dot: real, na: real, nb: real) returns (sim: real)
    requires IsSqrt(sqrt) && na >= 0.0 && nb >= 0.0 && na != 0.0 && nb != 0.0
    ensures sim == Quotient(sqrt, dot, na, nb)
  {
    PositiveDenominator(sqrt, na, nb);
    return dot / (sqrt(na) * sqrt(nb));
  }

  lemma PositiveDenominator(sqrt: real -> real, x: real, y: real)
    requires IsSqrt(sqrt) && x >= 0.0 && y >= 0.0 && x != 0.0 && y != 0.0
    ensures sqrt(x) * sqrt(y) > 0.0
  {
    var r, s := sqrt(x), sqrt(y);
    assert r != 0.0 && s != 0.0 by {
      assert r * r == x && s * s == y;
    }
  }

  /** Dot product in one pass over b, in any iteration order. */
  method DotProduct(a: Sparse, b: Sparse) returns (dot: real)
    ensures dot == SparseDot(a, b)
  {
    dot := 0.0;
    ghost var f := Product(a, b);
    var pending := b.Keys;
    while pending != {}
      invariant pending <= b.Keys && dot + Sum(f, pending) == Sum(f, b.Keys)
      decreases pending
    {
      var k := Next(pending);
      SumPick(f, pending, k);
      dot := AddTerm(a, b, k, dot);
      pending := pending - {k};
    }
    DotOver(a, b, b.Keys, a.Keys + b.Keys);
  }

  /** The vector store's version: dot product over the smaller map, and nothing more if that is zero. */
  method SparseCosineEarlyZero(sqrt: real -> real, a: Sparse, b: Sparse) returns (sim: real)
    requires IsSqrt(sqrt)
    ensures sim == SparseCosine(sqrt, a, b)
  {
    if |a| == 0 || |b| == 0 {
      return 0.0;
    }
    var small, large := a, b;
    if |b| < |a| {
      small, large := b, a;
    }
    DotCommutesSparse(a, b);
    var dot := DotProduct(large, small);
    if dot == 0.0 {
      ZeroDotZeroCosine(sqrt, a, b);
      return 0.0;
    }
    var normA := SumSquares(a);
    var normB := SumSquares(b);
    NonZeroDotCosine(sqrt, a, b);
    sim := Divide(sqrt, dot, normA, normB);
  }

  /** The last lines of all versions. */
  method Divide(sqrt: real -> real, dot: real, normA: real, normB: real) returns (sim: real)
    ensures sim == Quotient(sqrt, dot, normA, normB)
  {
    var denom := sqrt(normA) * sqrt(normB);
    if denom == 0.0 {
      return 0.0;
    }
    return dot / denom;
  }

  lemma ZeroDotZeroCosine(sqrt: real -> real, a: Sparse, b: Sparse)
    requires SparseDot(a, b) == 0.0
    ensures SparseCosine(sqrt, a, b) == 0.0
  {
    ZeroDotZeroQuotient(sqrt, SparseNorm(a), SparseNorm(b));
  }

  lemma NonZeroDotCosine(sqrt: real -> real, a: Sparse, b: Sparse)
    requires SparseDot(a, b) != 0.0 && |a| > 0 && |b| > 0
    ensures SparseCosine(sqrt, a, b) == Quotient(sqrt, SparseDot(a, b), SparseNorm(a), SparseNorm(b))
  {
    if SparseNorm(a) == 0.0 || SparseNorm(b) == 0.0 {
      ZeroNormZeroDot(a, b);
    }
  }

  lemma ZeroDotZeroQuotient(sqrt: real -> real, normA: real, normB: real)
    ensures Quotient(sqrt, 0.0, normA, normB) == 0.0
  {
  }

  // ---- The blend ----

  function Blend(w: real, dense: real, sparse: real): real { (1.0 - w) * dense + w * sparse }

  /** The similarity used for retrieval: dense only, or blended where both sides have sparse vectors. */
  ghost function Hybrid(sqrt: real -> real, w: real, a: Dense, sa: Sparse, b: Dense, sb: Sparse): real {
    var dense := Cosine(sqrt, a, b);
    if w > 0.0 && |sa| > 0 && |sb| > 0 then Blend(w, dense, SparseCosine(sqrt, sa, sb)) else dense
  }

  lemma HybridIsBounded(sqrt: real -> real, w: real, a: Dense, sa: Sparse, b: Dense, sb: Sparse)
    requires IsSqrt(sqrt) && 0.0 <= w <= 1.0
    ensures -1.0 <= Hybrid(sqrt, w, a, sa, b, sb) <= 1.0
    ensures Hybrid(sqrt, w, a, sa, b, sb) == Hybrid(sqrt, w, b, sb, a, sa)
  {
    CosineIsBoundedAndSymmetric(sqrt, a, b);
    SparseCosineIsBoundedAndSymmetric(sqrt, sa, sb);
    BlendIsBounded(w, Cosine(sqrt, a, b), SparseCosine(sqrt, sa, sb));
  }

  lemma BlendIsBounded(w: real, d: real, s: real)
    requires 0.0 <= w <= 1.0 && -1.0 <= d <= 1.0 && -1.0 <= s <= 1.0
    ensures -1.0 <= Blend(w, d, s) <= 1.0
  {
    ProductNonNegative(1.0 - w, 1.0 - d);
    ProductNonNegative(1.0 - w, 1.0 + d);
    ProductNonNegative(w, 1.0 - s);
    ProductNonNegative(w, 1.0 + s);
  }

  method HybridSimilarity(sqrt: real -> real, w: real, a: Dense, sa: Sparse, b: Dense, sb: Sparse) returns (sim: real)
    requires IsSqrt(sqrt)
    ensures sim == Hybrid(sqrt, w, a, sa, b, sb)
  {
    sim := CosineSimilarity(sqrt, a, b);
    if w > 0.0 && |sa| > 0 && |sb| > 0 {
      var lexical := SparseCosineBySwapping(sqrt, sa, sb);
      sim := Blend(w, sim, lexical);
    }
  }
}
