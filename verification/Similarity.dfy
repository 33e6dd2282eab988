/** Cosine similarity of embeddings (src/cache/semantic_cache.rs), in exact arithmetic. */
module Similarity {

  /** `f32::sqrt` by its specification. */
  ghost predicate IsSqrt(sqrt: real -> real) {
    forall x :: x >= 0.0 ==> sqrt(x) >= 0.0 && sqrt(x) * sqrt(x) == x
  }

  function Dot(a: seq<real>, b: seq<real>): real
    requires |a| == |b|
  {
    if a == [] then 0.0 else Dot(a[..|a| - 1], b[..|b| - 1]) + a[|a| - 1] * b[|b| - 1]
  }

  function Ratio(dot: real, denom: real): real { if denom == 0.0 then 0.0 else dot / denom }

  function Cosine(a: seq<real>, b: seq<real>, sqrt: real -> real): real {
    if |a| != |b| || a == [] then 0.0
    else Ratio(Dot(a, b), sqrt(Dot(a, a)) * sqrt(Dot(b, b)))
  }

  method CosineSimilarity(a: seq<real>, b: seq<real>, sqrt: real -> real) returns (r: real)
    ensures r == Cosine(a, b, sqrt)
  {
    if |a| != |b| || |a| == 0 {
      return 0.0;
    }
    var dot, normA, normB := 0.0, 0.0, 0.0;
    for i := 0 to |a|
      invariant dot == Dot(a[..i], b[..i]) && normA == Dot(a[..i], a[..i]) && normB == Dot(b[..i], b[..i])
    {
      assert a[..i + 1][..i] == a[..i] && b[..i + 1][..i] == b[..i];
      dot := dot + a[i] * b[i];
      normA := normA + a[i] * a[i];
      normB := normB + b[i] * b[i];
    }
    assert a[..|a|] == a && b[..|b|] == b;
    var denom := sqrt(normA) * sqrt(normB);
    r := if denom == 0.0 then 0.0 else dot / denom;
  }

  // ---------------------------------------------------------------------------------------
  // Cauchy-Schwarz
  // ---------------------------------------------------------------------------------------

  lemma {:induction false} SquareNonNegative(x: real)
    ensures x * x >= 0.0
  {
  }

  lemma {:induction false} ProductNonNegative(x: real, y: real)
    requires x >= 0.0 && y >= 0.0
    ensures x * y >= 0.0
  {
  }

  lemma {:induction false} ProductMonotone(x: real, y: real, z: real)
    requires x <= y && z >= 0.0
    ensures x * z <= y * z
  {
    ProductNonNegative(y - x, z);
    assert (y - x) * z == y * z - x * z;
  }

  /** Absolute values compare like squares. */
  lemma {:induction false} SquareRootOfInequality(t: real, q: real)
    requires q >= 0.0 && t * t <= q * q
    ensures -q <= t <= q
  {
    UpperRoot(t, q);
    assert (-t) * (-t) == t * t;
    UpperRoot(-t, q);
  }

  lemma {:induction false} UpperRoot(t: real, q: real)
    requires q >= 0.0 && t * t <= q * q
    ensures t <= q
  {
    assert t * t - q * q == (t - q) * (t + q);
    if t > q {
      StrictProduct(t - q, t + q);
      assert false;
    }
  }

  lemma {:induction false} StrictProduct(x: real, y: real)
    requires x > 0.0 && y > 0.0
    ensures x * y > 0.0
  {
  }

  /** 4uv <= (u+v)^2. */
  lemma {:induction false} MeanInequality(u: real, v: real)
    ensures 4.0 * (u * v) <= (u + v) * (u + v)
  {
    SquareNonNegative(u - v);
    assert (u + v) * (u + v) - 4.0 * (u * v) == (u - v) * (u - v);
  }

  /** The cross terms of one accumulation step: 2dxy <= ay^2 + bx^2. */
  lemma {:induction false} CrossTerms(d: real, a: real, b: real, x: real, y: real)
    requires a >= 0.0 && b >= 0.0 && d * d <= a * b
    ensures 2.0 * (d * (x * y)) <= a * (y * y) + b * (x * x)
  {
    var u, v, t := a * (y * y), b * (x * x), 2.0 * (d * (x * y));
    SquareNonNegative(x);
    SquareNonNegative(y);
    ProductNonNegative(a, y * y);
    ProductNonNegative(b, x * x);
    SquareNonNegative(x * y);
    ProductMonotone(d * d, a * b, (x * y) * (x * y));
    assert t * t == 4.0 * ((d * d) * ((x * y) * (x * y)));
    assert u * v == (a * b) * ((x * y) * (x * y));
    MeanInequality(u, v);
    SquareRootOfInequality(t, u + v);
  }

  lemma {:induction false} NormNonNegative(a: seq<real>)
    ensures Dot(a, a) >= 0.0
  {
    if a != [] {
      NormNonNegative(a[..|a| - 1]);
      SquareNonNegative(a[|a| - 1]);
    }
  }

  lemma {:induction false} ExpandSquares(d: real, a: real, b: real, x: real, y: real)
    ensures (d + x * y) * (d + x * y) == d * d + 2.0 * (d * (x * y)) + (x * y) * (x * y)
    ensures (a + x * x) * (b + y * y) == a * b + (a * (y * y) + b * (x * x)) + (x * y) * (x * y)
  {
  }

  lemma {:induction false} CauchySchwarz(a: seq<real>, b: seq<real>)
    requires |a| == |b|
    ensures Dot(a, b) * Dot(a, b) <= Dot(a, a) * Dot(b, b)
  {
    if a != [] {
      var n := |a| - 1;
      CauchySchwarz(a[..n], b[..n]);
      NormNonNegative(a[..n]);
      NormNonNegative(b[..n]);
      CrossTerms(Dot(a[..n], b[..n]), Dot(a[..n], a[..n]), Dot(b[..n], b[..n]), a[n], b[n]);
      ExpandSquares(Dot(a[..n], b[..n]), Dot(a[..n], a[..n]), Dot(b[..n], b[..n]), a[n], b[n]);
    }
  }

  lemma {:induction false} RatioBound(dot: real, denom: real)
    requires denom >= 0.0 && -denom <= dot <= denom
    ensures -1.0 <= Ratio(dot, denom) <= 1.0
  {
    if denom > 0.0 {
      var q := dot / denom;
      assert q * denom == dot;
      assert (1.0 - q) * denom == denom - dot && (1.0 + q) * denom == denom + dot;
    }
  }

  lemma {:induction false} RootsMultiply(p: real, q: real, a: real, b: real)
    requires p >= 0.0 && q >= 0.0 && p * p == a && q * q == b
    ensures p * q >= 0.0 && (p * q) * (p * q) == a * b
  {
  }

  lemma {:induction false} CosineOfNorms(dot: real, a: real, b: real, p: real, q: real)
    requires dot * dot <= a * b && p >= 0.0 && q >= 0.0 && p * p == a && q * q == b
    ensures -1.0 <= Ratio(dot, p * q) <= 1.0
  {
    RootsMultiply(p, q, a, b);
    SquareRootOfInequality(dot, p * q);
    RatioBound(dot, p * q);
  }

  /** The similarity of any two vectors lies between -1 and 1. */
  lemma {:induction false} CosineBounds(a: seq<real>, b: seq<real>, sqrt: real -> real)
    requires IsSqrt(sqrt)
    ensures -1.0 <= Cosine(a, b, sqrt) <= 1.0
  {
    if |a| == |b| && a != [] {
      CauchySchwarz(a, b);
      NormNonNegative(a);
      NormNonNegative(b);
      var p, q := sqrt(Dot(a, a)), sqrt(Dot(b, b));
      CosineOfNorms(Dot(a, b), Dot(a, a), Dot(b, b), p, q);
    }
  }

  lemma {:induction false} PositiveSum(rest: real, x: real, y: real, sum: real)
    requires rest >= 0.0 && x > 0.0 && y > 0.0 && sum == rest + x * y
    ensures sum > 0.0
  {
  }

  lemma {:induction false} SelfQuotient(x: real)
    requires x > 0.0
    ensures x / x == 1.0
  {
    var q := x / x;
    assert q * x == x && (q - 1.0) * x == 0.0;
  }

  ghost predicate NonZero(a: seq<real>) { exists i :: 0 <= i < |a| && a[i] != 0.0 }

  lemma {:induction false} NormPositive(a: seq<real>)
    requires NonZero(a)
    ensures Dot(a, a) > 0.0
  {
    var n := |a| - 1;
    var rest, x := Dot(a[..n], a[..n]), a[n];
    assert Dot(a, a) == rest + x * x;
    NormNonNegative(a[..n]);
    assert rest >= 0.0;
    if x == 0.0 {
      var i :| 0 <= i < |a| && a[i] != 0.0;
      assert a[..n][i] == a[i];
      NormPositive(a[..n]);
    } else {
      var size := if x > 0.0 then x else -x;
      PositiveSum(rest, size, size, Dot(a, a));
    }
  }

  /** A vector is fully similar to itself unless it is zero. */
  lemma {:induction false} CosineOfSelf(a: seq<real>, sqrt: real -> real)
    requires IsSqrt(sqrt) && NonZero(a)
    ensures Cosine(a, a, sqrt) == 1.0
  {
    NormPositive(a);
    var p, norm := sqrt(Dot(a, a)), Dot(a, a);
    assert p * p == norm;
    SelfQuotient(norm);
  }

  lemma {:induction false} DotSymmetric(a: seq<real>, b: seq<real>)
    requires |a| == |b|
    ensures Dot(a, b) == Dot(b, a)
  {
    if a != [] {
      DotSymmetric(a[..|a| - 1], b[..|b| - 1]);
    }
  }

  lemma {:induction false} CosineSymmetric(a: seq<real>, b: seq<real>, sqrt: real -> real)
    ensures Cosine(a, b, sqrt) == Cosine(b, a, sqrt)
  {
    if |a| == |b| {
      DotSymmetric(a, b);
    }
  }

  // ---------------------------------------------------------------------------------------
  // What the dot product is: linear, and the coordinates on unit vectors
  // ---------------------------------------------------------------------------------------

  function Plus(a: seq<real>, b: seq<real>): (c: seq<real>)
    requires |a| == |b|
    ensures |c| == |a|
  {
    seq(|a|, i requires 0 <= i < |a| => a[i] + b[i])
  }

  function Scaled(k: real, a: seq<real>): (c: seq<real>)
    ensures |c| == |a|
  {
    seq(|a|, i requires 0 <= i < |a| => k * a[i])
  }

  function Unit(n: nat, i: nat): (c: seq<real>)
    ensures |c| == n
  {
    seq(n, j => if j == i then 1.0 else 0.0)
  }

  lemma {:induction false} DotOfSum(a: seq<real>, a': seq<real>, b: seq<real>)
    requires |a| == |a'| == |b|
    ensures Dot(Plus(a, a'), b) == Dot(a, b) + Dot(a', b)
  {
    if a != [] {
      var n := |a| - 1;
      DotOfSum(a[..n], a'[..n], b[..n]);
      assert Plus(a, a')[..n] == Plus(a[..n], a'[..n]);
      Distribute(a[n], a'[n], b[n]);
    }
  }

  lemma {:induction false} Distribute(x: real, y: real, z: real)
    ensures (x + y) * z == x * z + y * z
  {
  }

  lemma {:induction false} DotOfScaled(k: real, a: seq<real>, b: seq<real>)
    requires |a| == |b|
    ensures Dot(Scaled(k, a), b) == k * Dot(a, b)
  {
    if a != [] {
      var n := |a| - 1;
      DotOfScaled(k, a[..n], b[..n]);
      ScaledPrefix(k, a, n);
      ScaleOneStep(k, Dot(a[..n], b[..n]), a[n], b[n]);
    }
  }

  lemma {:induction false} ScaledPrefix(k: real, a: seq<real>, n: nat)
    requires n <= |a|
    ensures Scaled(k, a)[..n] == Scaled(k, a[..n])
  {
    forall i | 0 <= i < n
      ensures Scaled(k, a)[..n][i] == Scaled(k, a[..n])[i]
    {
      assert a[..n][i] == a[i];
    }
  }

  lemma {:induction false} ScaleOneStep(k: real, d: real, x: real, y: real)
    ensures k * d + (k * x) * y == k * (d + x * y)
  {
  }

  lemma {:induction false} DotOfZeros(a: seq<real>, b: seq<real>)
    requires |a| == |b| && forall i :: 0 <= i < |a| ==> a[i] == 0.0
    ensures Dot(a, b) == 0.0
  {
    if a != [] {
      DotOfZeros(a[..|a| - 1], b[..|b| - 1]);
    }
  }

  lemma {:induction false} DotWithUnit(b: seq<real>, i: nat)
    requires i < |b|
    ensures Dot(Unit(|b|, i), b) == b[i]
  {
    var n := |b| - 1;
    assert Unit(|b|, i)[..n] == Unit(n, i);
    if i < n {
      DotWithUnit(b[..n], i);
    } else {
      DotOfZeros(Unit(n, i), b[..n]);
    }
  }

  // ---------------------------------------------------------------------------------------
  // What the similarity is
  // ---------------------------------------------------------------------------------------

  /** `r` is the cosine for this dot product and these squared norms, told without division and roots. */
  ghost predicate IsCosine(r: real, dot: real, a: real, b: real) {
    && r * r * (a * b) == dot * dot
    && (r > 0.0 <==> dot > 0.0) && (r < 0.0 <==> dot < 0.0)
  }

  lemma {:induction false} QuotientIsCosine(dot: real, d: real, ab: real)
    requires d > 0.0 && d * d == ab
    ensures var r := dot / d; r * d == dot && r * r * ab == dot * dot && (r > 0.0 <==> dot > 0.0) && (r < 0.0 <==> dot < 0.0)
  {
    var r := dot / d;
    assert r * d == dot;
    assert r * r * (d * d) == (r * d) * (r * d);
    SignKept(r, d);
  }

  lemma {:induction false} SignKept(r: real, d: real)
    requires d > 0.0
    ensures (r > 0.0 <==> r * d > 0.0) && (r < 0.0 <==> r * d < 0.0)
  {
    if r > 0.0 {
      StrictProduct(r, d);
    } else if r < 0.0 {
      StrictProduct(-r, d);
      assert (-r) * d == -(r * d);
    }
  }

  lemma {:induction false} RootPositive(p: real, a: real)
    requires p >= 0.0 && p * p == a && a > 0.0
    ensures p > 0.0
  {
    assert p == 0.0 ==> p * p == 0.0;
  }

  /** The product of the two norms. */
  lemma {:induction false} NormProduct(a: seq<real>, b: seq<real>, sqrt: real -> real)
    requires IsSqrt(sqrt) && NonZero(a) && NonZero(b)
    ensures var d := sqrt(Dot(a, a)) * sqrt(Dot(b, b)); d > 0.0 && d * d == Dot(a, a) * Dot(b, b)
  {
    NormPositive(a);
    NormPositive(b);
    var p, q := sqrt(Dot(a, a)), sqrt(Dot(b, b));
    RootPositive(p, Dot(a, a));
    RootPositive(q, Dot(b, b));
    StrictProduct(p, q);
    RootsMultiply(p, q, Dot(a, a), Dot(b, b));
  }

  /** The similarity of nonzero vectors: its square times both squared norms is the squared dot product, and it has its sign. */
  lemma {:induction false} CosineValue(a: seq<real>, b: seq<real>, sqrt: real -> real)
    requires IsSqrt(sqrt) && |a| == |b| && NonZero(a) && NonZero(b)
    ensures IsCosine(Cosine(a, b, sqrt), Dot(a, b), Dot(a, a), Dot(b, b))
  {
    NormProduct(a, b, sqrt);
    QuotientIsCosine(Dot(a, b), sqrt(Dot(a, a)) * sqrt(Dot(b, b)), Dot(a, a) * Dot(b, b));
  }

  lemma {:induction false} ZeroRoot(p: real)
    requires p * p == 0.0
    ensures p == 0.0
  {
    var size := if p >= 0.0 then p else -p;
    assert size * size == p * p;
    ZeroProduct(size, size, p * p);
  }

  lemma {:induction false} ZeroProduct(x: real, y: real, product: real)
    requires x >= 0.0 && y >= 0.0 && product == x * y && product == 0.0
    ensures x == 0.0 || y == 0.0
  {
    if x > 0.0 && y > 0.0 {
      StrictProduct(x, y);
    }
  }

  lemma {:induction false} ZeroFactor(x: real, y: real)
    requires x == 0.0 || y == 0.0
    ensures x * y == 0.0
  {
  }

  /** Vectors of different lengths and zero vectors have similarity 0. */
  lemma {:induction false} CosineOfZero(a: seq<real>, b: seq<real>, sqrt: real -> real)
    requires IsSqrt(sqrt) && (|a| != |b| || !NonZero(a) || !NonZero(b))
    ensures Cosine(a, b, sqrt) == 0.0
  {
    if |a| == |b| && a != [] {
      if !NonZero(a) {
        DotOfZeros(a, a);
        ZeroRoot(sqrt(Dot(a, a)));
      } else {
        DotOfZeros(b, b);
        ZeroRoot(sqrt(Dot(b, b)));
      }
    }
  }

  lemma {:induction false} RootUnique(p: real, q: real)
    requires p >= 0.0 && q >= 0.0 && p * p == q * q
    ensures p == q
  {
    SquareRootOfInequality(p, q);
    SquareRootOfInequality(q, p);
  }

  /** IsCosine leaves no choice. */
  lemma {:induction false} CosineUnique(r: real, r': real, dot: real, a: real, b: real)
    requires a > 0.0 && b > 0.0 && IsCosine(r, dot, a, b) && IsCosine(r', dot, a, b)
    ensures r == r'
  {
    StrictProduct(a, b);
    CancelFactor(r * r, r' * r', a * b);
    if r >= 0.0 {
      RootUnique(r, r');
    } else {
      assert (-r) * (-r) == r * r && (-r') * (-r') == r' * r';
      RootUnique(-r, -r');
    }
  }

  lemma {:induction false} CancelFactor(x: real, y: real, f: real)
    requires f > 0.0 && x * f == y * f
    ensures x == y
  {
    assert (x - y) * f == 0.0;
    if x > y {
      StrictProduct(x - y, f);
    } else if x < y {
      StrictProduct(y - x, f);
    }
  }

  /** Orthogonal vectors have similarity 0. */
  lemma {:induction false} CosineOfOrthogonal(a: seq<real>, b: seq<real>, sqrt: real -> real)
    requires IsSqrt(sqrt) && |a| == |b| && Dot(a, b) == 0.0
    ensures Cosine(a, b, sqrt) == 0.0
  {
    if NonZero(a) && NonZero(b) {
      CosineValue(a, b, sqrt);
    } else {
      CosineOfZero(a, b, sqrt);
    }
  }

  lemma {:induction false} ScaledCosine(k: real, r: real, dot: real, a: real, b: real, r': real, dot': real, a': real)
    requires k != 0.0 && IsCosine(r, dot, a, b)
    requires r' == (if k > 0.0 then r else -r) && dot' == k * dot && a' == k * (k * a)
    ensures IsCosine(r', dot', a', b)
  {
    ScaledSquares(k, r, dot, a, b, r', dot', a');
    if k > 0.0 {
      SignKept(dot, k);
    } else {
      SignKept(dot, -k);
      assert dot * (-k) == -(k * dot);
    }
  }

  lemma {:induction false} ScaledSquares(k: real, r: real, dot: real, a: real, b: real, r': real, dot': real, a': real)
    requires r * r * (a * b) == dot * dot && (r' == r || r' == -r) && dot' == k * dot && a' == k * (k * a)
    ensures r' * r' * (a' * b) == dot' * dot'
  {
    assert r' * r' == r * r;
    assert a' * b == (k * k) * (a * b);
    assert (r * r) * ((k * k) * (a * b)) == (k * k) * (r * r * (a * b));
    assert dot' * dot' == (k * k) * (dot * dot);
  }

  lemma {:induction false} ScaledNonZero(k: real, a: seq<real>)
    requires k != 0.0
    ensures NonZero(Scaled(k, a)) <==> NonZero(a)
  {
    forall i | 0 <= i < |a|
      ensures Scaled(k, a)[i] == 0.0 <==> a[i] == 0.0
    {
      NoZeroDivisor(k, a[i]);
    }
  }

  lemma {:induction false} NoZeroDivisor(x: real, y: real)
    requires x != 0.0
    ensures x * y == 0.0 <==> y == 0.0
  {
  }

  /** The length of a vector does not matter, its direction does. */
  lemma {:induction false} CosineOfScaled(k: real, a: seq<real>, b: seq<real>, sqrt: real -> real)
    requires IsSqrt(sqrt) && k != 0.0
    ensures Cosine(Scaled(k, a), b, sqrt) == if k > 0.0 then Cosine(a, b, sqrt) else -Cosine(a, b, sqrt)
  {
    ScaledNonZero(k, a);
    var ka := Scaled(k, a);
    if |a| == |b| && NonZero(a) && NonZero(b) {
      CosineValue(a, b, sqrt);
      CosineValue(ka, b, sqrt);
      DotOfScaled(k, a, b);
      DotOfScaled(k, a, ka);
      DotSymmetric(a, ka);
      DotOfScaled(k, a, a);
      NormPositive(ka);
      NormPositive(b);
      var r := if k > 0.0 then Cosine(a, b, sqrt) else -Cosine(a, b, sqrt);
      ScaledCosine(k, Cosine(a, b, sqrt), Dot(a, b), Dot(a, a), Dot(b, b), r, Dot(ka, b), Dot(ka, ka));
      CosineUnique(Cosine(ka, b, sqrt), r, Dot(ka, b), Dot(ka, ka), Dot(b, b));
    } else {
      CosineOfZero(a, b, sqrt);
      CosineOfZero(ka, b, sqrt);
    }
  }

  /** The dot product reaches the share `t` of the norms, told without roots. */
  ghost predicate Reaches(a: seq<real>, b: seq<real>, t: real) {
    |a| == |b| && Dot(a, b) > 0.0 && Dot(a, b) * Dot(a, b) >= (t * t) * (Dot(a, a) * Dot(b, b))
  }

  lemma {:induction false} QuotientReaches(dot: real, d: real, ab: real, t: real)
    requires d > 0.0 && d * d == ab && t > 0.0
    ensures dot / d >= t <==> dot > 0.0 && dot * dot >= (t * t) * ab
  {
    var r := dot / d;
    assert r * d == dot && (r - t) * d == dot - t * d;
    StrictProduct(t, d);
    SignKept(r - t, d);
    assert (t * d) * (t * d) == (t * t) * ab;
    if dot > 0.0 {
      if dot * dot >= (t * t) * ab {
        UpperRoot(t * d, dot);
      }
      if dot >= t * d {
        ProductMonotone(t * d, dot, t * d);
        ProductMonotone(t * d, dot, dot);
      }
    }
  }

  lemma {:induction false} PositiveFactors(x: real, y: real, square: real, a: real, b: real, product: real)
    requires x > 0.0 && y > 0.0 && square == x * y && a >= 0.0 && b >= 0.0 && product == a * b && square <= product
    ensures a > 0.0 && b > 0.0
  {
    StrictProduct(x, y);
    if a == 0.0 || b == 0.0 {
      ZeroFactor(a, b);
    }
  }

  lemma {:induction false} ZeroIfNotNonZero(a: seq<real>)
    ensures Dot(a, a) > 0.0 ==> NonZero(a)
  {
    if !NonZero(a) {
      DotOfZeros(a, a);
    }
  }

  /** A positive threshold is met exactly if the dot product is positive and reaches its share of the norms. */
  lemma {:induction false} CosineReachesIff(a: seq<real>, b: seq<real>, sqrt: real -> real, t: real)
    requires IsSqrt(sqrt) && t > 0.0
    ensures Cosine(a, b, sqrt) >= t <==> Reaches(a, b, t)
  {
    if |a| == |b| {
      CauchySchwarz(a, b);
      NormNonNegative(a);
      NormNonNegative(b);
      if Dot(a, b) > 0.0 {
        PositiveFactors(Dot(a, b), Dot(a, b), Dot(a, b) * Dot(a, b), Dot(a, a), Dot(b, b), Dot(a, a) * Dot(b, b));
        ZeroIfNotNonZero(a);
        ZeroIfNotNonZero(b);
      }
    }
    if |a| == |b| && NonZero(a) && NonZero(b) {
      NormProduct(a, b, sqrt);
      QuotientReaches(Dot(a, b), sqrt(Dot(a, a)) * sqrt(Dot(b, b)), Dot(a, a) * Dot(b, b), t);
    } else {
      CosineOfZero(a, b, sqrt);
    }
  }
}
