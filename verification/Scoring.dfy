/**
  Cosine similarity and relevance, over exact reals.  The square root is a
  parameter; what the two operations compute is said without one.
 */
module Scoring {
  import opened Prelude

  type Vector = seq<real>

  /** The two ways a pair of vectors is ErrScoreValidation. */
  datatype Fault = EmptyVector | DimensionMismatch

  function FaultOf(a: Vector, b: Vector): Option<Fault> {
    if a == [] || b == [] then Some(EmptyVector)
    else if |a| != |b| then Some(DimensionMismatch)
    else None
  }

  ghost predicate RootAt(sqrt: real -> real, x: real) {
    x >= 0.0 ==> sqrt(x) >= 0.0 && sqrt(x) * sqrt(x) == x
  }

  ghost predicate IsSqrt(sqrt: real -> real) { forall x :: RootAt(sqrt, x) }

  /** The inner product of the first n coordinates. */
  ghost function Dot(a: Vector, b: Vector, n: nat): real
    requires n <= |a| && n <= |b|
  {
    if n == 0 then 0.0 else Dot(a, b, n - 1) + a[n - 1] * b[n - 1]
  }

  ghost function Inner(a: Vector, b: Vector): real
    requires |a| == |b|
  {
    Dot(a, b, |a|)
  }

  ghost function NormSquared(a: Vector): real { Dot(a, a, |a|) }

  // ------------------------------------------------ what the inner product is

  /** A unit vector of n coordinates. */
  function Unit(n: nat, i: nat): (u: Vector)
    ensures |u| == n
  {
    seq(n, j requires 0 <= j < n => if j == i then 1.0 else 0.0)
  }

  function Plus(a: Vector, b: Vector): (s: Vector)
    requires |a| == |b|
    ensures |s| == |a|
  {
    seq(|a|, i requires 0 <= i < |a| => a[i] + b[i])
  }

  lemma {:induction false} DotSymmetric(a: Vector, b: Vector, n: nat)
    requires n <= |a| && n <= |b|
    ensures Dot(a, b, n) == Dot(b, a, n)
  {
    if n > 0 {
      DotSymmetric(a, b, n - 1);
      assert a[n - 1] * b[n - 1] == b[n - 1] * a[n - 1];
    }
  }

  lemma {:induction false} DotAdditive(a: Vector, b: Vector, s: Vector, c: Vector, n: nat)
    requires |a| == |b| == |s| == |c| && n <= |a| && forall i :: 0 <= i < |a| ==> s[i] == a[i] + b[i]
    ensures Dot(s, c, n) == Dot(a, c, n) + Dot(b, c, n)
  {
    if n > 0 {
      DotAdditive(a, b, s, c, n - 1);
      Distributed(c[n - 1], a[n - 1], b[n - 1]);
    }
  }

  lemma {:induction false} DotOfUnit(i: nat, b: Vector, n: nat)
    requires i < |b| && n <= |b|
    ensures Dot(Unit(|b|, i), b, n) == if i < n then b[i] else 0.0
  {
    if n > 0 {
      DotOfUnit(i, b, n - 1);
    }
  }

  /**
    The inner product is symmetric, additive and homogeneous, and a unit vector picks
    out a coordinate: there is only one such form.
   */
  lemma InnerProduct(a: Vector, b: Vector, c: Vector, k: real, i: nat)
    requires |a| == |b| == |c| && i < |a|
    ensures Inner(a, b) == Inner(b, a)
    ensures Inner(Plus(a, b), c) == Inner(a, c) + Inner(b, c)
    ensures Inner(Scaled(k, a), c) == k * Inner(a, c)
    ensures Inner(Unit(|a|, i), a) == a[i]
  {
    DotSymmetric(a, b, |a|);
    DotAdditive(a, b, Plus(a, b), c, |a|);
    ScaledIs(k, a);
    SameIsScaled(c);
    ScaledDot(k, 1.0, k, a, c, Scaled(k, a), c, |a|);
    DotOfUnit(i, a, |a|);
  }

  /** Unit vectors are orthonormal. */
  lemma UnitsOrthonormal(n: nat, i: nat, j: nat)
    requires i < n && j < n
    ensures Inner(Unit(n, i), Unit(n, j)) == if i == j then 1.0 else 0.0
  {
    DotOfUnit(i, Unit(n, j), n);
  }

  /** q behaves as the square of x. */
  ghost predicate SquareLike(q: real, x: real) { if x == 0.0 then q == 0.0 else q > 0.0 }

  lemma SquarePositive(x: real)
    requires x != 0.0
    ensures x * x > 0.0
  {
    if x > 0.0 {
      SignOfProduct(x, x);
    } else {
      SignOfProduct(x, -x);
      assert x * x == -(x * -x);
    }
  }

  lemma ZeroProduct(p: real, x: real, y: real)
    requires Multiple(p, x, y) && (x == 0.0 || y == 0.0)
    ensures p == 0.0
  {
  }

  lemma SquareFacts(q: real, x: real)
    requires Multiple(q, x, x)
    ensures SquareLike(q, x)
  {
    if x == 0.0 {
      ZeroProduct(q, x, x);
    } else {
      SquarePositive(x);
    }
  }

  lemma {:induction false} SumOfSquares(a: Vector, n: nat)
    requires n <= |a|
    ensures Dot(a, a, n) >= 0.0
    ensures Dot(a, a, n) == 0.0 <==> forall i :: 0 <= i < n ==> a[i] == 0.0
  {
    if n > 0 {
      SumOfSquares(a, n - 1);
      var q := a[n - 1] * a[n - 1];
      SquareFacts(q, a[n - 1]);
      NullSum(Dot(a, a, n), Dot(a, a, n - 1), q, a[n - 1]);
    }
  }

  lemma NullSum(sum: real, before: real, q: real, x: real)
    requires before >= 0.0 && sum == before + q && SquareLike(q, x)
    ensures sum >= 0.0 && (sum == 0.0 <==> before == 0.0 && x == 0.0)
  {
  }

  /** Only the null vector has norm 0. */
  lemma NullNorm(a: Vector)
    ensures NormSquared(a) == 0.0 <==> forall i :: 0 <= i < |a| ==> a[i] == 0.0
  {
    SumOfSquares(a, |a|);
  }

  // ------------------------------------------------------- Cauchy-Schwarz

  lemma SquareNonNegative(x: real)
    ensures x * x >= 0.0
  {
  }

  lemma DifferenceSquared(s: real, t: real, x: real, y: real)
    ensures s * s * (x * x) - 2.0 * s * t * (x * y) + t * t * (y * y) == (s * x - t * y) * (s * x - t * y)
  {
  }

  /** The squared norm of s*a - t*b, multiplied out, is not negative. */
  ghost predicate Spread(na: real, nb: real, dot: real, s: real, t: real) {
    s * s * na - 2.0 * s * t * dot + t * t * nb >= 0.0
  }

  lemma {:induction false} CombinationNonNegative(a: Vector, b: Vector, s: real, t: real, n: nat)
    requires n <= |a| && n <= |b|
    ensures Spread(Dot(a, a, n), Dot(b, b, n), Dot(a, b, n), s, t)
  {
    if n == 0 {
      SpreadOfZero(Dot(a, a, n), Dot(b, b, n), Dot(a, b, n), s, t);
    } else {
      CombinationNonNegative(a, b, s, t, n - 1);
      SpreadStep(Dot(a, a, n - 1), Dot(b, b, n - 1), Dot(a, b, n - 1),
                 Dot(a, a, n), Dot(b, b, n), Dot(a, b, n), s, t, a[n - 1], b[n - 1]);
    }
  }

  lemma SpreadOfZero(na: real, nb: real, dot: real, s: real, t: real)
    requires na == 0.0 && nb == 0.0 && dot == 0.0
    ensures Spread(na, nb, dot, s, t)
  {
  }

  lemma SpreadStep(na: real, nb: real, dot: real, na': real, nb': real, dot': real, s: real, t: real, x: real, y: real)
    requires Spread(na, nb, dot, s, t)
    requires na' == na + x * x && nb' == nb + y * y && dot' == dot + x * y
    ensures Spread(na', nb', dot', s, t)
  {
    DifferenceSquared(s, t, x, y);
    SquareNonNegative(s * x - t * y);
    Distribute(s, t, na, dot, nb, x * x, x * y, y * y);
  }

  lemma Distribute(s: real, t: real, aa: real, ab: real, bb: real, xx: real, xy: real, yy: real)
    ensures s * s * (aa + xx) - 2.0 * s * t * (ab + xy) + t * t * (bb + yy)
      == (s * s * aa - 2.0 * s * t * ab + t * t * bb) + (s * s * xx - 2.0 * s * t * xy + t * t * yy)
  {
  }

  /** dot*dot <= na*nb, for vectors of any length. */
  lemma CauchySchwarz(a: Vector, b: Vector)
    requires |a| == |b|
    ensures NormSquared(a) >= 0.0 && NormSquared(b) >= 0.0
    ensures Inner(a, b) * Inner(a, b) <= NormSquared(a) * NormSquared(b)
  {
    var na, nb, dot := NormSquared(a), NormSquared(b), Inner(a, b);
    CombinationNonNegative(a, b, 1.0, 0.0, |a|);
    CombinationNonNegative(a, b, 0.0, 1.0, |a|);
    CombinationNonNegative(a, b, nb, dot, |a|);
    CombinationNonNegative(a, b, dot, na + 1.0, |a|);
    Discriminant(na, nb, dot);
  }

  lemma Discriminant(na: real, nb: real, dot: real)
    requires Spread(na, nb, dot, 1.0, 0.0) && Spread(na, nb, dot, 0.0, 1.0)
    requires Spread(na, nb, dot, nb, dot) && Spread(na, nb, dot, dot, na + 1.0)
    ensures na >= 0.0 && nb >= 0.0 && dot * dot <= na * nb
  {
    if nb > 0.0 {
      assert nb * (na * nb - dot * dot) >= 0.0;
    } else {
      assert dot * dot * (na + 2.0) <= 0.0;
    }
  }

  // --------------------------------------------------------------- cosine

  /** c is the cosine of the angle between a and b, or 0 if either has no direction. */
  ghost predicate IsCosine(c: real, a: Vector, b: Vector)
    requires |a| == |b|
  {
    CosineFrom(c, NormSquared(a), NormSquared(b), Inner(a, b))
  }

  /** The same, from the two squared norms and the inner product. */
  ghost predicate CosineFrom(c: real, na: real, nb: real, dot: real) {
    if na == 0.0 || nb == 0.0 then c == 0.0
    else c * c * (na * nb) == dot * dot && (c > 0.0 <==> dot > 0.0) && (c < 0.0 <==> dot < 0.0)
  }

  lemma SignOfProduct(c: real, d: real)
    requires d > 0.0
    ensures (c > 0.0 <==> c * d > 0.0) && (c < 0.0 <==> c * d < 0.0)
  {
  }

  lemma Cancel(p: real, x: real, y: real)
    requires p > 0.0
    ensures (p * x == p * y <==> x == y) && (p * y <= p * x <==> y <= x)
  {
    SignOfProduct(x - y, p);
    assert p * (x - y) == p * x - p * y;
  }

  lemma ScaleOrder(p: real, q: real, m: real)
    requires m > 0.0
    ensures p * m <= q * m <==> p <= q
  {
    Cancel(m, q, p);
    assert m * p == p * m && m * q == q * m;
  }

  lemma SquareOrder(x: real, y: real)
    requires x >= 0.0 && y >= 0.0
    ensures x * x <= y * y <==> x <= y
  {
    assert (x - y) * (x + y) == x * x - y * y;
    if x + y > 0.0 {
      SignOfProduct(x - y, x + y);
    }
  }

  /** Squaring keeps order among non-negative numbers. */
  lemma SquaresOrder(x: real, y: real, m: real)
    requires x >= 0.0 && y >= 0.0 && m > 0.0
    ensures x * x * m <= y * y * m <==> x <= y
  {
    SquareOrder(x, y);
    ScaleOrder(x * x, y * y, m);
  }

  lemma NormsPositive(a: Vector, b: Vector)
    requires |a| == |b| && NormSquared(a) != 0.0 && NormSquared(b) != 0.0
    ensures NormSquared(a) * NormSquared(b) > 0.0
  {
    CauchySchwarz(a, b);
  }

  function Abs(x: real): real { if x < 0.0 then -x else x }

  lemma AbsSquared(x: real, m: real)
    ensures Abs(x) * Abs(x) * m == x * x * m
  {
  }

  /** Two vectors have at most one cosine, whichever square root computed it. */
  lemma CosineUnique(c: real, d: real, a: Vector, b: Vector)
    requires |a| == |b| && IsCosine(c, a, b) && IsCosine(d, a, b)
    ensures c == d
  {
    if NormSquared(a) != 0.0 && NormSquared(b) != 0.0 {
      var m := NormSquared(a) * NormSquared(b);
      NormsPositive(a, b);
      AbsSquared(c, m);
      AbsSquared(d, m);
      SquaresOrder(Abs(c), Abs(d), m);
      SquaresOrder(Abs(d), Abs(c), m);
    }
  }

  /** A cosine lies in [-1, 1]. */
  lemma CosineInRange(c: real, a: Vector, b: Vector)
    requires |a| == |b| && IsCosine(c, a, b)
    ensures -1.0 <= c <= 1.0
  {
    if NormSquared(a) != 0.0 && NormSquared(b) != 0.0 {
      var m := NormSquared(a) * NormSquared(b);
      NormsPositive(a, b);
      CauchySchwarz(a, b);
      AbsSquared(c, m);
      SquaresOrder(Abs(c), 1.0, m);
    }
  }

  /** The cosine times the two norms, whatever roots are taken for them, is the inner product. */
  lemma CosineTimesNorms(c: real, a: Vector, b: Vector, ra: real, rb: real)
    requires |a| == |b| && IsCosine(c, a, b) && ra >= 0.0 && rb >= 0.0
    requires ra * ra == NormSquared(a) && rb * rb == NormSquared(b)
    ensures c * (ra * rb) == Inner(a, b)
  {
    var dot, rr := Inner(a, b), ra * rb;
    if ra == 0.0 || rb == 0.0 {
      CauchySchwarz(a, b);
      SquareFacts(NormSquared(a), ra);
      SquareFacts(NormSquared(b), rb);
      SquareFacts(dot * dot, dot);
      NullCase(c, rr, ra, rb, NormSquared(a), NormSquared(b), NormSquared(a) * NormSquared(b), dot, dot * dot);
    } else {
      QuotientIsCosine(a, b, ra, rb);
      CosineUnique(c, dot / rr, a, b);
      Undivide(dot, rr);
    }
  }

  lemma Undivide(x: real, y: real)
    requires y != 0.0
    ensures x / y * y == x
  {
  }

  lemma NullCase(c: real, rr: real, ra: real, rb: real, na: real, nb: real, m: real, dot: real, dd: real)
    requires (ra == 0.0 || rb == 0.0) && SquareLike(na, ra) && SquareLike(nb, rb) && SquareLike(dd, dot)
    requires Multiple(m, na, nb) && Multiple(rr, ra, rb) && dd <= m
    ensures c * rr == dot
  {
    ZeroProduct(m, na, nb);
    ZeroProduct(rr, ra, rb);
    ZeroProduct(c * rr, c, rr);
  }

  /** A vector that is not null has cosine 1 with itself and its positive multiples, -1 with the negative ones. */
  lemma CosineOfMultiples(c: real, a: Vector, k: real)
    requires k != 0.0 && IsCosine(c, a, Scaled(k, a)) && exists i :: 0 <= i < |a| && a[i] != 0.0
    ensures c == if k > 0.0 then 1.0 else -1.0
  {
    var b, one, kk := Scaled(k, a), 1.0, k * k;
    NullNorm(a);
    SumOfSquares(a, |a|);
    ScaledIs(k, a);
    SameIsScaled(a);
    ScaledDot(one, k, k, a, a, a, b, |a|);
    ScaledDot(k, k, kk, a, a, b, b, |a|);
    SquareFacts(kk, k);
    OppositeOrSame(c, k, kk, NormSquared(a), NormSquared(b), Inner(a, b));
  }

  lemma SameIsScaled(a: Vector)
    ensures IsScaled(a, 1.0, a)
  {
  }

  lemma OppositeOrSame(c: real, k: real, kk: real, na: real, nb: real, dot: real)
    requires na > 0.0 && k != 0.0 && Multiple(kk, k, k) && kk > 0.0
    requires Multiple(dot, k, na) && Multiple(nb, kk, na) && CosineFrom(c, na, nb, dot)
    ensures c == if k > 0.0 then 1.0 else -1.0
  {
    var m, cc := na * nb, c * c;
    SignOfMultiple(nb, kk, na);
    SignOfMultiple(m, na, nb);
    EquationOfOne(c, cc, k, kk, na, nb, dot, m);
    Cancel(m, cc, 1.0);
    UnitSquare(c, cc);
    SignOfProduct(k, na);
  }

  lemma EquationOfOne(c: real, cc: real, k: real, kk: real, na: real, nb: real, dot: real, m: real)
    requires Multiple(kk, k, k) && Multiple(dot, k, na) && Multiple(nb, kk, na)
    requires Multiple(m, na, nb) && Multiple(cc, c, c) && na != 0.0 && nb != 0.0 && CosineFrom(c, na, nb, dot)
    ensures m * cc == m * 1.0
  {
    var dd := dot * dot;
    SquareOfMultiple(k, kk, na, nb, dot);
    CosineEquation(c, cc, na, nb, dot, m, dd);
  }

  lemma SquareOfMultiple(k: real, kk: real, na: real, nb: real, dot: real)
    requires Multiple(kk, k, k) && Multiple(dot, k, na) && Multiple(nb, kk, na)
    ensures dot * dot == na * nb
  {
    assert dot * dot == (k * na) * (k * na);
    assert (k * na) * (k * na) == na * (k * k * na);
  }

  lemma CosineEquation(c: real, cc: real, na: real, nb: real, dot: real, m: real, dd: real)
    requires Multiple(cc, c, c) && Multiple(m, na, nb) && Multiple(dd, dot, dot)
    requires na != 0.0 && nb != 0.0 && CosineFrom(c, na, nb, dot)
    ensures m * cc == dd
  {
    assert m * cc == c * c * (na * nb);
  }

  lemma UnitSquare(c: real, cc: real)
    requires Multiple(cc, c, c) && cc == 1.0
    ensures c == 1.0 || c == -1.0
  {
    assert (c - 1.0) * (c + 1.0) == c * c - 1.0;
  }

  lemma QuotientIsCosine(a: Vector, b: Vector, ra: real, rb: real)
    requires |a| == |b| && ra > 0.0 && rb > 0.0 && ra * ra == NormSquared(a) && rb * rb == NormSquared(b)
    ensures ra * rb > 0.0 && IsCosine(Inner(a, b) / (ra * rb), a, b)
  {
    var dot, d := Inner(a, b), ra * rb;
    var c := dot / d;
    assert c * d == dot;
    assert d * d == NormSquared(a) * NormSquared(b) by {
      assert d * d == (ra * ra) * (rb * rb);
    }
    assert c * c * (d * d) == (c * d) * (c * d);
    SignOfProduct(c, d);
  }

  lemma RootsGiveCosine(sqrt: real -> real, a: Vector, b: Vector)
    requires IsSqrt(sqrt) && |a| == |b| && NormSquared(a) != 0.0 && NormSquared(b) != 0.0
    ensures sqrt(NormSquared(a)) * sqrt(NormSquared(b)) != 0.0
    ensures IsCosine(Inner(a, b) / (sqrt(NormSquared(a)) * sqrt(NormSquared(b))), a, b)
  {
    CauchySchwarz(a, b);
    assert RootAt(sqrt, NormSquared(a)) && RootAt(sqrt, NormSquared(b));
    QuotientIsCosine(a, b, sqrt(NormSquared(a)), sqrt(NormSquared(b)));
  }

  /** The loop of Cosine: inner product and squared norms in one pass. */
  method Accumulate(a: Vector, b: Vector) returns (dot: real, na: real, nb: real)
    requires |a| == |b|
    ensures dot == Inner(a, b) && na == NormSquared(a) && nb == NormSquared(b)
  {
    dot, na, nb := 0.0, 0.0, 0.0;
    for i := 0 to |a|
      invariant dot == Dot(a, b, i) && na == Dot(a, a, i) && nb == Dot(b, b, i)
    {
      var x, y := a[i], b[i];
      dot := dot + x * y;
      na := na + x * x;
      nb := nb + y * y;
    }
  }

  method Divide(sqrt: real -> real, ghost a: Vector, ghost b: Vector, dot: real, na: real, nb: real) returns (c: real)
    requires IsSqrt(sqrt) && |a| == |b| && na != 0.0 && nb != 0.0
    requires dot == Inner(a, b) && na == NormSquared(a) && nb == NormSquared(b)
    ensures IsCosine(c, a, b)
  {
    RootsGiveCosine(sqrt, a, b);
    c := dot / (sqrt(na) * sqrt(nb));
  }

  method Cosine(sqrt: real -> real, a: Vector, b: Vector) returns (r: Result<real, Fault>)
    requires IsSqrt(sqrt)
    ensures r == Err(EmptyVector) <==> |a| == 0 || |b| == 0
    ensures r == Err(DimensionMismatch) <==> |a| != 0 && |b| != 0 && |a| != |b|
    ensures r.Err? ==> Some(r.error) == FaultOf(a, b)
    ensures r.Ok? ==> IsCosine(r.value, a, b)
  {
    if |a| == 0 || |b| == 0 {
      return Err(EmptyVector);
    }
    if |a| != |b| {
      return Err(DimensionMismatch);
    }
    var dot, na, nb := Accumulate(a, b);
    if na == 0.0 || nb == 0.0 {
      return Ok(0.0);
    }
    var c := Divide(sqrt, a, b, dot, na, nb);
    r := Ok(c);
  }

  // ------------------------------------------------------------ relevance

  /** The cosine of a and b is at most v, for v >= 0; said without a square root. */
  ghost predicate CosineAtMost(a: Vector, b: Vector, v: real)
    requires |a| == |b|
  {
    AtMostFrom(v, NormSquared(a), NormSquared(b), Inner(a, b))
  }

  ghost predicate AtMostFrom(v: real, na: real, nb: real, dot: real) {
    dot <= 0.0 || dot * dot <= v * v * (na * nb)
  }

  lemma CosineBound(c: real, a: Vector, b: Vector, v: real)
    requires |a| == |b| && IsCosine(c, a, b) && v >= 0.0
    ensures CosineAtMost(a, b, v) <==> c <= v
  {
    CauchySchwarz(a, b);
    BoundFrom(c, v, NormSquared(a), NormSquared(b), Inner(a, b));
  }

  lemma NullBound(v: real, na: real, nb: real, dot: real)
    requires (na == 0.0 || nb == 0.0) && dot * dot <= na * nb
    ensures AtMostFrom(v, na, nb, dot)
  {
  }

  lemma BoundFrom(c: real, v: real, na: real, nb: real, dot: real)
    requires CosineFrom(c, na, nb, dot) && na >= 0.0 && nb >= 0.0 && dot * dot <= na * nb && v >= 0.0
    ensures AtMostFrom(v, na, nb, dot) <==> c <= v
  {
    if na == 0.0 || nb == 0.0 {
      NullBound(v, na, nb, dot);
    } else if c > 0.0 {
      assert na * nb > 0.0;
      SquaresOrder(c, v, na * nb);
    }
  }

  ghost predicate Comparable(post: Vector, interests: seq<Vector>) {
    forall b :: b in interests ==> FaultOf(post, b).None?
  }

  /** v is the largest of 0 and the cosines of the post with its interests. */
  ghost predicate IsRelevance(v: real, post: Vector, interests: seq<Vector>)
    requires Comparable(post, interests)
  {
    && v >= 0.0
    && (forall b :: b in interests ==> CosineAtMost(post, b, v))
    && (v == 0.0 || exists b :: b in interests && IsCosine(v, post, b))
  }

  method Relevance(sqrt: real -> real, post: Vector, interests: seq<Vector>) returns (r: Result<real, Fault>)
    requires IsSqrt(sqrt)
    ensures r.Ok? <==> Comparable(post, interests)
    ensures r.Ok? ==> IsRelevance(r.value, post, interests)
    ensures r.Err? ==> exists i ::
      0 <= i < |interests| && FaultOf(post, interests[i]) == Some(r.error) && Comparable(post, interests[..i])
  {
    if |interests| == 0 {
      return Ok(0.0);
    }
    var best := 0.0;
    for i := 0 to |interests|
      invariant Comparable(post, interests[..i]) && 0.0 <= best <= 1.0
      invariant IsRelevance(best, post, interests[..i])
    {
      var c := Cosine(sqrt, post, interests[i]);
      if c.Err? {
        return Err(c.error);
      }
      CosineInRange(c.value, post, interests[i]);
      RelevanceSnoc(best, post, interests[..i], interests[i], c.value);
      assert interests[..i + 1] == interests[..i] + [interests[i]];
      if c.value > best {
        best := c.value;
      }
    }
    assert interests[..|interests|] == interests;
    if best < 0.0 {
      best := 0.0;
    }
    if best > 1.0 {
      best := 1.0;
    }
    r := Ok(best);
  }

  /** The two have the same number of coordinates, and this cosine. */
  ghost predicate HasCosine(c: real, a: Vector, b: Vector) { |a| == |b| && IsCosine(c, a, b) }

  /** No interest is closer to the post than its relevance says, and if it is not 0 one is exactly that close. */
  lemma RelevanceIsLargest(v: real, post: Vector, interests: seq<Vector>)
    requires Comparable(post, interests) && IsRelevance(v, post, interests)
    ensures v >= 0.0 && forall i, c :: 0 <= i < |interests| && HasCosine(c, post, interests[i]) ==> c <= v
    ensures v > 0.0 ==> exists i :: 0 <= i < |interests| && HasCosine(v, post, interests[i])
  {
    forall i, c | 0 <= i < |interests| && HasCosine(c, post, interests[i]) ensures c <= v {
      assert interests[i] in interests;
      CosineBound(c, post, interests[i], v);
    }
    if v > 0.0 {
      var b :| b in interests && IsCosine(v, post, b);
      var i :| 0 <= i < |interests| && interests[i] == b;
      assert HasCosine(v, post, interests[i]);
    }
  }

  lemma RelevanceSnoc(v: real, post: Vector, interests: seq<Vector>, b: Vector, c: real)
    requires Comparable(post, interests) && IsRelevance(v, post, interests)
    requires FaultOf(post, b).None? && IsCosine(c, post, b)
    ensures IsRelevance(if c > v then c else v, post, interests + [b])
  {
    var best := if c > v then c else v;
    forall x | x in interests + [b] ensures CosineAtMost(post, x, best) {
      if x == b {
        CosineBound(c, post, b, best);
      } else {
        BoundGrows(post, x, v, best);
      }
    }
    if c > v {
      assert b in interests + [b];
    } else if v != 0.0 {
      var x :| x in interests && IsCosine(v, post, x);
      assert x in interests + [b];
    }
  }

  lemma BoundGrows(a: Vector, b: Vector, v: real, w: real)
    requires |a| == |b| && CosineAtMost(a, b, v) && 0.0 <= v <= w
    ensures CosineAtMost(a, b, w)
  {
    CauchySchwarz(a, b);
    var m := NormSquared(a) * NormSquared(b);
    if m > 0.0 {
      SquaresOrder(v, w, m);
    }
  }

  /** Relevance never decreases as interests are added, in any order and however repeated. */
  lemma RelevanceGrows(v: real, w: real, post: Vector, some: seq<Vector>, all: seq<Vector>)
    requires Comparable(post, all) && forall b :: b in some ==> b in all
    requires IsRelevance(v, post, some) && IsRelevance(w, post, all)
    ensures v <= w
  {
    if v != 0.0 {
      var b :| b in some && IsCosine(v, post, b);
      assert CosineAtMost(post, b, w);
      CosineBound(v, post, b, w);
    }
  }

  /** The relevance is one number: it depends only on the post and on which interests there are. */
  lemma RelevanceOfASet(v: real, w: real, post: Vector, one: seq<Vector>, other: seq<Vector>)
    requires Comparable(post, one) && forall b :: b in one <==> b in other
    requires IsRelevance(v, post, one) && IsRelevance(w, post, other)
    ensures v == w
  {
    RelevanceGrows(v, w, post, one, other);
    RelevanceGrows(w, v, post, other, one);
  }

  /** Relevance lies in [0, 1], so the clamp of the code never changes it. */
  lemma RelevanceInRange(v: real, post: Vector, interests: seq<Vector>)
    requires Comparable(post, interests) && IsRelevance(v, post, interests)
    ensures 0.0 <= v <= 1.0
  {
    if v != 0.0 {
      var b :| b in interests && IsCosine(v, post, b);
      CosineInRange(v, post, b);
    }
  }

  // -------------------------------------------------------------- scaling

  function Scaled(k: real, a: Vector): (s: Vector)
    ensures |s| == |a|
  {
    seq(|a|, i requires 0 <= i < |a| => k * a[i])
  }

  ghost predicate Multiple(x': real, p: real, x: real) { x' == p * x }

  /** The two agree up to the factor, component by component. */
  ghost predicate IsScaled(a': Vector, k: real, a: Vector) {
    |a'| == |a| && forall i :: 0 <= i < |a| ==> Multiple(a'[i], k, a[i])
  }

  lemma ScaledIs(k: real, a: Vector)
    ensures IsScaled(Scaled(k, a), k, a)
  {
  }

  lemma {:induction false} ScaledDot(k: real, l: real, m: real, a: Vector, b: Vector, a': Vector, b': Vector, n: nat)
    requires n <= |a| && n <= |b| && Multiple(m, k, l) && IsScaled(a', k, a) && IsScaled(b', l, b)
    ensures Multiple(Dot(a', b', n), m, Dot(a, b, n))
  {
    if n > 0 {
      ScaledDot(k, l, m, a, b, a', b', n - 1);
      ScaledTerm(k, l, m, a[n - 1], b[n - 1], a'[n - 1], b'[n - 1],
                 Dot(a, b, n - 1), Dot(a', b', n - 1), Dot(a, b, n), Dot(a', b', n));
    }
  }

  lemma ScaledTerm(k: real, l: real, m: real, x: real, y: real, x': real, y': real, d: real, d': real, e: real,
                   e': real)
    requires Multiple(m, k, l) && Multiple(d', m, d) && Multiple(x', k, x) && Multiple(y', l, y)
    requires e == d + x * y && e' == d' + x' * y'
    ensures Multiple(e', m, e)
  {
    ProductOfMultiples(k, l, m, x, y, x', y');
    Distributed(m, d, x * y);
  }

  lemma ProductOfMultiples(k: real, l: real, m: real, x: real, y: real, x': real, y': real)
    requires Multiple(m, k, l) && Multiple(x', k, x) && Multiple(y', l, y)
    ensures Multiple(x' * y', m, x * y)
  {
    Regroup(k, l, x, y);
  }

  lemma Regroup(k: real, l: real, x: real, y: real)
    ensures (k * x) * (l * y) == k * l * (x * y)
  {
  }

  lemma Distributed(p: real, x: real, y: real)
    ensures p * (x + y) == p * x + p * y
  {
  }

  ghost predicate SameSign(x': real, x: real) { (x' > 0.0 <==> x > 0.0) && (x' < 0.0 <==> x < 0.0) }

  lemma SignOfMultiple(x': real, p: real, x: real)
    requires p > 0.0 && Multiple(x', p, x)
    ensures SameSign(x', x)
  {
    SignOfProduct(x, p);
    assert x * p == p * x;
  }

  lemma ProductOf(k: real, l: real) returns (m: real)
    requires k > 0.0 && l > 0.0
    ensures m > 0.0 && Multiple(m, k, l)
  {
    m := k * l;
  }

  /** No sign changes, and both sides of the cosine's equation grow by the factor p. */
  ghost predicate Factored(p: real, na: real, nb: real, dot: real, na': real, nb': real, dot': real) {
    && p > 0.0 && SameSign(na', na) && SameSign(nb', nb) && SameSign(dot', dot)
    && Multiple(na' * nb', p, na * nb) && Multiple(dot' * dot', p, dot * dot)
  }

  /** Scaling multiplies both sides of the cosine's equation by one positive factor. */
  lemma ScaledFacts(a: Vector, b: Vector, k: real, l: real) returns (p: real)
    requires |a| == |b| && k > 0.0 && l > 0.0
    ensures Factored(p, NormSquared(a), NormSquared(b), Inner(a, b),
                     NormSquared(Scaled(k, a)), NormSquared(Scaled(l, b)), Inner(Scaled(k, a), Scaled(l, b)))
  {
    var kk := ProductOf(k, k);
    var ll := ProductOf(l, l);
    var m := ProductOf(k, l);
    var a', b' := Scaled(k, a), Scaled(l, b);
    ScaledIs(k, a);
    ScaledIs(l, b);
    ScaledDot(k, k, kk, a, a, a', a', |a|);
    ScaledDot(l, l, ll, b, b, b', b', |a|);
    ScaledDot(k, l, m, a, b, a', b', |a|);
    p := ProductOf(m, m);
    SquareOfProduct(k, l, kk, ll, m, p);
    FactorOf(kk, ll, m, p, NormSquared(a), NormSquared(b), Inner(a, b),
             NormSquared(a'), NormSquared(b'), Inner(a', b'));
  }

  lemma SquareOfProduct(k: real, l: real, kk: real, ll: real, m: real, p: real)
    requires Multiple(kk, k, k) && Multiple(ll, l, l) && Multiple(m, k, l) && Multiple(p, m, m)
    ensures Multiple(p, kk, ll)
  {
    Regroup(k, k, l, l);
  }

  lemma FactorOf(kk: real, ll: real, m: real, p: real, na: real, nb: real, dot: real, na': real, nb': real, dot': real)
    requires kk > 0.0 && ll > 0.0 && m > 0.0 && p > 0.0 && Multiple(p, m, m) && Multiple(p, kk, ll)
    requires Multiple(na', kk, na) && Multiple(nb', ll, nb) && Multiple(dot', m, dot)
    ensures Factored(p, na, nb, dot, na', nb', dot')
  {
    SignOfMultiple(na', kk, na);
    SignOfMultiple(nb', ll, nb);
    SignOfMultiple(dot', m, dot);
    ProductOfMultiples(m, m, p, dot, dot, dot', dot');
    ProductOfMultiples(kk, ll, p, na, nb, na', nb');
  }

  /** Scaling either vector by a positive factor keeps the cosine, and every bound on it. */
  lemma CosineScales(c: real, a: Vector, b: Vector, k: real, l: real)
    requires |a| == |b| && k > 0.0 && l > 0.0
    ensures IsCosine(c, a, b) <==> IsCosine(c, Scaled(k, a), Scaled(l, b))
    ensures CosineAtMost(a, b, c) <==> CosineAtMost(Scaled(k, a), Scaled(l, b), c)
  {
    var p := ScaledFacts(a, b, k, l);
    ScaledNorms(c, NormSquared(a), NormSquared(b), Inner(a, b), p,
                NormSquared(Scaled(k, a)), NormSquared(Scaled(l, b)), Inner(Scaled(k, a), Scaled(l, b)));
  }

  lemma ScaledNorms(c: real, na: real, nb: real, dot: real, p: real, na': real, nb': real, dot': real)
    requires Factored(p, na, nb, dot, na', nb', dot')
    ensures CosineFrom(c, na', nb', dot') <==> CosineFrom(c, na, nb, dot)
    ensures AtMostFrom(c, na', nb', dot') <==> AtMostFrom(c, na, nb, dot)
  {
    MultipleTimes(c * c, na' * nb', p, na * nb);
    ScaledComparison(p, c * c * (na * nb), c * c * (na' * nb'), dot * dot, dot' * dot');
  }

  lemma MultipleTimes(z: real, x': real, p: real, x: real)
    requires Multiple(x', p, x)
    ensures Multiple(z * x', p, z * x)
  {
    Exchange(z, p, x);
  }

  lemma Exchange(z: real, p: real, x: real)
    ensures z * (p * x) == p * (z * x)
  {
  }

  /** Multiplying both sides by a positive p changes neither equality nor order. */
  lemma ScaledComparison(p: real, x: real, x': real, y: real, y': real)
    requires p > 0.0 && Multiple(x', p, x) && Multiple(y', p, y)
    ensures (x' == y' <==> x == y) && (y' <= x' <==> y <= x)
  {
    Cancel(p, x, y);
  }

  /** Each interest of ys is a positive multiple of the interest of xs at its place. */
  ghost predicate Rescaled(xs: seq<Vector>, ys: seq<Vector>, factors: seq<real>) {
    && |xs| == |ys| == |factors|
    && forall i :: 0 <= i < |xs| ==> factors[i] > 0.0 && ys[i] == Scaled(factors[i], xs[i])
  }

  /** Positive scaling of the post and of every interest leaves the relevance as it is. */
  lemma RelevanceScales(v: real, post: Vector, xs: seq<Vector>, k: real, ys: seq<Vector>, factors: seq<real>)
    requires Comparable(post, xs) && IsRelevance(v, post, xs) && k > 0.0 && Rescaled(xs, ys, factors)
    ensures Comparable(Scaled(k, post), ys) && IsRelevance(v, Scaled(k, post), ys)
  {
    forall i | 0 <= i < |ys| ensures |post| == |ys[i]| && FaultOf(post, xs[i]).None? {
      assert xs[i] in xs;
    }
    forall i | 0 <= i < |ys| ensures CosineAtMost(Scaled(k, post), ys[i], v) {
      assert xs[i] in xs;
      CosineScales(v, post, xs[i], k, factors[i]);
    }
    if v != 0.0 {
      var b :| b in xs && IsCosine(v, post, b);
      var i :| 0 <= i < |xs| && xs[i] == b;
      CosineScales(v, post, b, k, factors[i]);
      assert ys[i] in ys;
    }
  }
}
