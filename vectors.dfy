/** Exact-real model of the parts of Unity's Vector3 that the fish controller uses.
    Magnitude comparisons are done on squared magnitudes; the square root itself is an
    engine primitive handed in as a function that satisfies IsSqrt. */
module Vectors {

  datatype Vec3 = Vec3(x: real, y: real, z: real)

  const Zero := Vec3(0.0, 0.0, 0.0)

  function Add(a: Vec3, b: Vec3): Vec3 { Vec3(a.x + b.x, a.y + b.y, a.z + b.z) }

  function Sub(a: Vec3, b: Vec3): Vec3 { Vec3(a.x - b.x, a.y - b.y, a.z - b.z) }

  function Scale(v: Vec3, k: real): Vec3 { Vec3(k * v.x, k * v.y, k * v.z) }

  function Dot(a: Vec3, b: Vec3): real { a.x * b.x + a.y * b.y + a.z * b.z }

  function Cross(a: Vec3, b: Vec3): Vec3
  {
    Vec3(a.y * b.z - a.z * b.y, a.z * b.x - a.x * b.z, a.x * b.y - a.y * b.x)
  }

  /** The square of a real; facts about squares are stated on this function. */
  function Sq(a: real): real { a * a }

  /** Vector3.sqrMagnitude */
  function SqrMag(v: Vec3): real
  {
    Sq(v.x) + Sq(v.y) + Sq(v.z)
  }

  lemma AddZero(v: Vec3)
    ensures Add(v, Zero) == v
  {
  }

  /** Only the zero vector has zero length. */
  lemma SqrMagSign(v: Vec3)
    ensures 0.0 <= SqrMag(v)
    ensures v != Zero ==> 0.0 < SqrMag(v)
  {
    SqrMagNonneg(v);
    if v.x != 0.0 { SqPos(v.x); }
    if v.y != 0.0 { SqPos(v.y); }
    if v.z != 0.0 { SqPos(v.z); }
  }

  lemma SqrMagNonneg(v: Vec3)
    ensures 0.0 <= SqrMag(v)
  {
    SqNonneg(v.x); SqNonneg(v.y); SqNonneg(v.z);
  }

  function SqrDist(a: Vec3, b: Vec3): real { SqrMag(Sub(a, b)) }

  /** `v.magnitude > s`, stated without a square root. */
  predicate MagnitudeAbove(v: Vec3, s: real) { s < 0.0 || SqrMag(v) > Sq(s) }

  /** `Vector3.Distance(a, b) < r`, stated without a square root. */
  predicate WithinDistance(a: Vec3, b: Vec3, r: real) { 0.0 < r && SqrDist(a, b) < Sq(r) }

  /** The engine's square root: non-negative, and it squares back to its argument. */
  ghost predicate IsSqrt(sqrt: real -> real)
  {
    forall q: real :: 0.0 <= q ==> 0.0 <= sqrt(q) && Sq(sqrt(q)) == q
  }

  /** Vector3.magnitude */
  function Magnitude(v: Vec3, sqrt: real -> real): (m: real)
    requires IsSqrt(sqrt)
    ensures 0.0 <= m && Sq(m) == SqrMag(v)
  {
    SqrMagSign(v);
    sqrt(SqrMag(v))
  }

  /** Vector3.normalized, without the engine's small-magnitude cutoff: the unit vector
      pointing the same way as v, or the zero vector for the zero vector. */
  function Normalized(v: Vec3, sqrt: real -> real): (r: Vec3)
    requires IsSqrt(sqrt)
    ensures v == Zero ==> r == Zero
    ensures v != Zero ==> SqrMag(r) == 1.0 && Cross(r, v) == Zero && Dot(r, v) > 0.0
  {
    if v == Zero then Zero
    else
      var m := Magnitude(v, sqrt);
      SqrMagSign(v);
      RootPos(SqrMag(v), m);
      UnitScale(v, m);
      Scale(v, 1.0 / m)
  }

  /** Vector3.MoveTowards: step from `current` toward `target` by at most `maxDelta`,
      landing on the target when it is that close (the engine's published algorithm;
      its `sqdist == 0` test is written here as `toVector == Zero`, which is the same). */
  function MoveTowards(current: Vec3, target: Vec3, maxDelta: real, sqrt: real -> real): (r: Vec3)
    requires IsSqrt(sqrt)
    ensures 0.0 <= maxDelta ==> SqrDist(r, current) <= Sq(maxDelta)
    ensures 0.0 <= maxDelta && SqrDist(target, current) <= Sq(maxDelta) ==> r == target
  {
    var toVector := Sub(target, current);
    var sqdist := SqrMag(toVector);
    SqrMagSign(toVector);
    if toVector == Zero || (0.0 <= maxDelta && sqdist <= Sq(maxDelta)) then
      SqNonneg(maxDelta);
      target
    else
      var dist := sqrt(sqdist);
      var r := Add(current, Scale(toVector, maxDelta / dist));
      RootPos(sqdist, dist);
      StepLength(current, toVector, maxDelta, dist);
      r
  }

  // ---------------------------------------------------------------- scalar arithmetic

  lemma SqNonneg(a: real)
    ensures 0.0 <= Sq(a)
  {
  }

  lemma SqPos(a: real)
    requires a != 0.0
    ensures 0.0 < Sq(a)
  {
    assert Sq(a) * (1.0 / a) == a;
    SqNonneg(a);
  }

  lemma MulPos(a: real, b: real)
    requires 0.0 < a && 0.0 < b
    ensures 0.0 < a * b
  {
  }

  lemma MulMono(a: real, b: real, c: real)
    requires a <= b && 0.0 <= c
    ensures a * c <= b * c
  {
    assert 0.0 <= (b - a) * c;
    assert (b - a) * c == b * c - a * c;
  }

  lemma SqAtMostOne(u: real)
    requires 0.0 <= u <= 1.0
    ensures Sq(u) <= 1.0
  {
    assert u * u <= 1.0 * u by { MulMono(u, 1.0, u); }
  }

  /** On non-negative reals, squaring is strictly monotone. */
  lemma SqLess(a: real, b: real)
    requires 0.0 <= a < b
    ensures Sq(a) < Sq(b)
  {
    SquareLess(a, b);
  }

  lemma SquareLess(a: real, b: real)
    requires 0.0 <= a < b
    ensures a * a < b * b
  {
    assert b * b - a * a == (b - a) * (b + a);
    MulPos(b - a, b + a);
  }

  /** A real whose square is bounded by a product of two numbers below s2 is below s2. */
  lemma RootOfProductBound(A: real, B: real, D: real, s2: real)
    requires Sq(D) <= A * B && 0.0 <= A <= s2 && 0.0 <= B <= s2
    ensures D <= s2
  {
    MulMono(A, s2, B);
    MulMono(B, s2, s2);
    assert A * B <= s2 * s2;
    if D > s2 {
      SqLess(s2, D);
    }
  }

  /** A positive number's non-negative root is positive. */
  lemma RootPos(q: real, m: real)
    requires 0.0 < q && 0.0 <= m && Sq(m) == q
    ensures 0.0 < m
  {
    assert m == 0.0 ==> Sq(m) == 0.0;
  }

  /** Non-negative numbers with equal squares are equal. */
  lemma SqInjective(a: real, b: real)
    requires 0.0 <= a && 0.0 <= b && Sq(a) == Sq(b)
    ensures a == b
  {
    if a < b { SqLess(a, b); }
    if b < a { SqLess(b, a); }
  }

  /** A quotient of a non-negative number by a larger one lies in [0, 1). */
  lemma FractionBelowOne(a: real, b: real)
    requires 0.0 <= a < b
    ensures 0.0 <= a / b < 1.0
  {
    var q := a / b;
    assert q * b == a;
    if q < 0.0 { MulPos(-q, b); }
    if 1.0 <= q { MulMono(1.0, q, b); }
  }

  // ---------------------------------------------------------------- algebra lemmas

  lemma ScaleSqrMag(v: Vec3, k: real)
    ensures SqrMag(Scale(v, k)) == Sq(k) * SqrMag(v)
  {
    SqOfProduct(k, v.x);
    SqOfProduct(k, v.y);
    SqOfProduct(k, v.z);
    Distribute(Sq(k), Sq(v.x), Sq(v.y), Sq(v.z));
  }

  /** A vector scaled by k is parallel to the vector. */
  lemma CrossScaledSelf(v: Vec3, k: real)
    ensures Cross(Scale(v, k), v) == Zero
  {
    ScaledCrossTerm(k, v.y, v.z);
    ScaledCrossTerm(k, v.z, v.x);
    ScaledCrossTerm(k, v.x, v.y);
  }

  lemma DotScaledSelf(v: Vec3, k: real)
    ensures Dot(Scale(v, k), v) == k * SqrMag(v)
  {
    ScaledSquare(k, v.x);
    ScaledSquare(k, v.y);
    ScaledSquare(k, v.z);
    Distribute(k, Sq(v.x), Sq(v.y), Sq(v.z));
  }

  lemma ScaleCompose(v: Vec3, k: real, c: real)
    ensures Scale(Scale(v, k), c) == Scale(v, c * k)
  {
    MulAssoc(c, k, v.x);
    MulAssoc(c, k, v.y);
    MulAssoc(c, k, v.z);
  }

  lemma ScaleNonZero(v: Vec3, k: real)
    requires k != 0.0 && v != Zero
    ensures Scale(v, k) != Zero
  {
    if v.x != 0.0 { MulNonZero(k, v.x); }
    else if v.y != 0.0 { MulNonZero(k, v.y); }
    else { MulNonZero(k, v.z); }
  }

  lemma ScaledCrossTerm(k: real, p: real, q: real)
    ensures (k * p) * q - (k * q) * p == 0.0
  {
  }

  lemma ScaledSquare(k: real, p: real)
    ensures (k * p) * p == k * Sq(p)
  {
  }

  lemma MulAssoc(c: real, k: real, p: real)
    ensures c * (k * p) == (c * k) * p
  {
  }

  lemma MulNonZero(k: real, p: real)
    requires k != 0.0 && p != 0.0
    ensures k * p != 0.0
  {
    assert (k * p) * (1.0 / k) == p;
  }

  lemma ReciprocalSquare(m: real)
    requires m != 0.0
    ensures Sq(1.0 / m) * Sq(m) == 1.0
  {
  }

  lemma ReciprocalOfProduct(k: real, m: real)
    requires k != 0.0 && m != 0.0
    ensures (1.0 / (k * m)) * k == 1.0 / m
  {
    MulNonZero(k, m);
  }

  lemma ScaleCross(a: Vec3, b: Vec3, k: real)
    ensures Cross(Scale(a, k), b) == Scale(Cross(a, b), k)
  {
    var l, r := Cross(Scale(a, k), b), Scale(Cross(a, b), k);
    assert l.x == r.x by { ScaleDifference(k, a.y, b.z, a.z, b.y); }
    assert l.y == r.y by { ScaleDifference(k, a.z, b.x, a.x, b.z); }
    assert l.z == r.z by { ScaleDifference(k, a.x, b.y, a.y, b.x); }
  }

  lemma DotScaleLeft(a: Vec3, b: Vec3, k: real)
    ensures Dot(Scale(a, k), b) == k * Dot(a, b)
  {
    MulAssoc(k, a.x, b.x);
    MulAssoc(k, a.y, b.y);
    MulAssoc(k, a.z, b.z);
    Distribute(k, a.x * b.x, a.y * b.y, a.z * b.z);
  }

  lemma SqrMagOfNegation(v: Vec3)
    ensures SqrMag(Sub(Zero, v)) == SqrMag(v)
  {
    SqOfNegation(v.x);
    SqOfNegation(v.y);
    SqOfNegation(v.z);
  }

  lemma SqOfNegation(p: real)
    ensures Sq(0.0 - p) == Sq(p)
  {
  }

  lemma ScaleDifference(k: real, p: real, q: real, r: real, s: real)
    ensures (k * p) * q - (k * r) * s == k * (p * q - r * s)
  {
  }

  lemma SqOfProduct(k: real, p: real)
    ensures Sq(k * p) == Sq(k) * Sq(p)
  {
  }

  lemma SqOfSum(p: real, q: real)
    ensures Sq(p + q) == Sq(p) + 2.0 * (p * q) + Sq(q)
  {
  }

  lemma Distribute(k: real, p: real, q: real, r: real)
    ensures k * (p + q + r) == k * p + k * q + k * r
  {
  }

  /** Scaling a non-zero vector by the reciprocal of its magnitude gives a unit vector
      along it. */
  lemma UnitScale(v: Vec3, m: real)
    requires 0.0 < m && Sq(m) == SqrMag(v)
    ensures SqrMag(Scale(v, 1.0 / m)) == 1.0
    ensures Cross(Scale(v, 1.0 / m), v) == Zero
    ensures Dot(Scale(v, 1.0 / m), v) > 0.0
  {
    var k := 1.0 / m;
    ScaleSqrMag(v, k);
    ReciprocalSquare(m);
    CrossScaledSelf(v, k);
    DotScaledSelf(v, k);
    SqPos(m);
    MulPos(k, SqrMag(v));
  }

  /** The step MoveTowards takes when the target is farther than maxDelta has length maxDelta. */
  lemma StepLength(current: Vec3, toVector: Vec3, maxDelta: real, dist: real)
    requires 0.0 < dist && Sq(dist) == SqrMag(toVector)
    ensures SqrDist(Add(current, Scale(toVector, maxDelta / dist)), current) == Sq(maxDelta)
  {
    var k := maxDelta / dist;
    assert Sub(Add(current, Scale(toVector, k)), current) == Scale(toVector, k);
    ScaleSqrMag(toVector, k);
    assert Sq(k) * Sq(dist) == Sq(maxDelta);
  }

  /** The squared tests agree with the engine's magnitude comparisons. */
  lemma MagnitudeAboveIsMagnitudeTest(v: Vec3, s: real, sqrt: real -> real)
    requires IsSqrt(sqrt)
    ensures MagnitudeAbove(v, s) <==> Magnitude(v, sqrt) > s
  {
    var m := Magnitude(v, sqrt);
    if 0.0 <= s {
      if s < m { SqLess(s, m); }
      if m < s { SqLess(m, s); }
    }
  }

  lemma WithinDistanceIsDistanceTest(a: Vec3, b: Vec3, r: real, sqrt: real -> real)
    requires IsSqrt(sqrt)
    ensures WithinDistance(a, b, r) <==> Magnitude(Sub(a, b), sqrt) < r
  {
    var d := Magnitude(Sub(a, b), sqrt);
    if 0.0 < r {
      if d < r { SqLess(d, r); }
      if r < d { SqLess(r, d); }
    }
  }

  /** Scaling by a non-negative factor scales the magnitude by that factor. */
  lemma MagnitudeOfScale(v: Vec3, k: real, sqrt: real -> real)
    requires IsSqrt(sqrt)
    requires 0.0 <= k
    ensures Magnitude(Scale(v, k), sqrt) == k * Magnitude(v, sqrt)
  {
    var m, mk := Magnitude(v, sqrt), Magnitude(Scale(v, k), sqrt);
    ScaleSqrMag(v, k);
    SqOfProduct(k, m);
    MulMono(0.0, k, m);
    SqInjective(mk, k * m);
  }

  /** Normalizing is insensitive to positive scaling: normalizing an average gives the
      same direction as normalizing the sum. */
  lemma NormalizedOfPositiveScale(v: Vec3, k: real, sqrt: real -> real)
    requires IsSqrt(sqrt)
    requires 0.0 < k
    ensures Normalized(Scale(v, k), sqrt) == Normalized(v, sqrt)
  {
    if v != Zero {
      var m := Magnitude(v, sqrt);
      SqrMagSign(v);
      RootPos(SqrMag(v), m);
      ScaleNonZero(v, k);
      MagnitudeOfScale(v, k, sqrt);
      ScaleCompose(v, k, 1.0 / (k * m));
      ReciprocalOfProduct(k, m);
    } else {
      assert Scale(v, k) == Zero;
    }
  }

  /** A unit vector is its own normalization. */
  lemma NormalizedUnit(v: Vec3, sqrt: real -> real)
    requires IsSqrt(sqrt)
    requires SqrMag(v) == 1.0
    ensures Normalized(v, sqrt) == v
  {
    assert v != Zero by { assert SqrMag(Zero) == 0.0; }
    var m := Magnitude(v, sqrt);
    assert Sq(1.0) == 1.0;
    SqInjective(m, 1.0);
    assert Scale(v, 1.0 / m) == v;
  }

  /** Cauchy-Schwarz, through Lagrange's identity. */
  lemma CauchySchwarz(a: Vec3, b: Vec3)
    ensures Sq(Dot(a, b)) <= SqrMag(a) * SqrMag(b)
  {
    var c := Cross(a, b);
    Lagrange(a.x, a.y, a.z, b.x, b.y, b.z, SqrMag(a), SqrMag(b), Dot(a, b), SqrMag(c));
    SqrMagSign(c);
  }

  lemma Lagrange(a1: real, a2: real, a3: real, b1: real, b2: real, b3: real, A: real, B: real, D: real, C: real)
    requires A == Sq(a1) + Sq(a2) + Sq(a3) && B == Sq(b1) + Sq(b2) + Sq(b3)
    requires D == a1 * b1 + a2 * b2 + a3 * b3
    requires C == Sq(a2 * b3 - a3 * b2) + Sq(a3 * b1 - a1 * b3) + Sq(a1 * b2 - a2 * b1)
    ensures A * B - Sq(D) == C
  {
  }

  lemma DotBound(a: Vec3, b: Vec3, s2: real)
    requires SqrMag(a) <= s2 && SqrMag(b) <= s2
    ensures Dot(a, b) <= s2
  {
    CauchySchwarz(a, b);
    SqrMagSign(a);
    SqrMagSign(b);
    RootOfProductBound(SqrMag(a), SqrMag(b), Dot(a, b), s2);
  }

  /** The squared length of a point of the segment from a to b, in terms of its ends. */
  lemma SegmentSqrMag(a: Vec3, b: Vec3, t: real)
    ensures SqrMag(Add(a, Scale(Sub(b, a), t)))
         == Sq(1.0 - t) * SqrMag(a) + 2.0 * (t * (1.0 - t)) * Dot(a, b) + Sq(t) * SqrMag(b)
  {
    var u := 1.0 - t;
    calc {
      SqrMag(Add(a, Scale(Sub(b, a), t)));
    == { SegmentAsCombination(a, b, t, u); }
      SqrMag(Add(Scale(a, u), Scale(b, t)));
    == { SqrMagOfSum(Scale(a, u), Scale(b, t)); }
      SqrMag(Scale(a, u)) + 2.0 * Dot(Scale(a, u), Scale(b, t)) + SqrMag(Scale(b, t));
    == { ScaleSqrMag(a, u); ScaleDot(a, b, u, t); ScaleSqrMag(b, t); }
      Sq(u) * SqrMag(a) + 2.0 * ((t * u) * Dot(a, b)) + Sq(t) * SqrMag(b);
    == { MulAssoc(2.0, t * u, Dot(a, b)); }
      Sq(1.0 - t) * SqrMag(a) + 2.0 * (t * (1.0 - t)) * Dot(a, b) + Sq(t) * SqrMag(b);
    }
  }

  lemma SegmentAsCombination(a: Vec3, b: Vec3, t: real, u: real)
    requires u == 1.0 - t
    ensures Add(a, Scale(Sub(b, a), t)) == Add(Scale(a, u), Scale(b, t))
  {
    SegmentComponents(a, b, t);
    CombinationComponents(a, b, t, u);
    InterpolateComponents(a, b, t, u);
  }

  /** The two sides of SegmentAsCombination, written component by component. */
  lemma SegmentComponents(a: Vec3, b: Vec3, t: real)
    ensures Add(a, Scale(Sub(b, a), t)) == Vec3(a.x + t * (b.x - a.x), a.y + t * (b.y - a.y), a.z + t * (b.z - a.z))
  {
  }

  lemma CombinationComponents(a: Vec3, b: Vec3, t: real, u: real)
    ensures Add(Scale(a, u), Scale(b, t)) == Vec3(u * a.x + t * b.x, u * a.y + t * b.y, u * a.z + t * b.z)
  {
  }

  lemma InterpolateComponents(a: Vec3, b: Vec3, t: real, u: real)
    requires u == 1.0 - t
    ensures Vec3(a.x + t * (b.x - a.x), a.y + t * (b.y - a.y), a.z + t * (b.z - a.z))
         == Vec3(u * a.x + t * b.x, u * a.y + t * b.y, u * a.z + t * b.z)
  {
    assert a.x + t * (b.x - a.x) == u * a.x + t * b.x by { Interpolate(a.x, b.x, t, u); }
    assert a.y + t * (b.y - a.y) == u * a.y + t * b.y by { Interpolate(a.y, b.y, t, u); }
    assert a.z + t * (b.z - a.z) == u * a.z + t * b.z by { Interpolate(a.z, b.z, t, u); }
  }

  lemma Interpolate(p: real, q: real, t: real, u: real)
    requires u == 1.0 - t
    ensures p + t * (q - p) == u * p + t * q
  {
  }

  lemma SqrMagOfSum(a: Vec3, b: Vec3)
    ensures SqrMag(Add(a, b)) == SqrMag(a) + 2.0 * Dot(a, b) + SqrMag(b)
  {
    SqOfSum(a.x, b.x);
    SqOfSum(a.y, b.y);
    SqOfSum(a.z, b.z);
  }

  lemma ScaleDot(a: Vec3, b: Vec3, u: real, t: real)
    ensures Dot(Scale(a, u), Scale(b, t)) == (t * u) * Dot(a, b)
  {
  }

  /** Every point of the segment from a to b lies in a ball (about the origin) holding both ends. */
  lemma SegmentInBall(a: Vec3, b: Vec3, t: real, s2: real)
    requires 0.0 <= t <= 1.0
    requires SqrMag(a) <= s2 && SqrMag(b) <= s2
    ensures SqrMag(Add(a, Scale(Sub(b, a), t))) <= s2
  {
    calc {
      SqrMag(Add(a, Scale(Sub(b, a), t)));
    == { SegmentSqrMag(a, b, t); }
      Sq(1.0 - t) * SqrMag(a) + 2.0 * (t * (1.0 - t)) * Dot(a, b) + Sq(t) * SqrMag(b);
    <= { DotBound(a, b, s2); ConvexCombinationBound(SqrMag(a), SqrMag(b), Dot(a, b), t, s2); }
      s2;
    }
  }

  lemma ConvexCombinationBound(A: real, B: real, D: real, t: real, s2: real)
    requires 0.0 <= t <= 1.0
    requires A <= s2 && B <= s2 && D <= s2
    ensures Sq(1.0 - t) * A + 2.0 * (t * (1.0 - t)) * D + Sq(t) * B <= s2
  {
    var u := 1.0 - t;
    SqNonneg(u);
    SqNonneg(t);
    MulMono(0.0, t, u);
    WeightedBound(Sq(u), 2.0 * (t * u), Sq(t), A, D, B, s2);
  }

  /** A weighted average of numbers below s2 is below s2. */
  lemma WeightedBound(c1: real, c2: real, c3: real, x1: real, x2: real, x3: real, s2: real)
    requires 0.0 <= c1 && 0.0 <= c2 && 0.0 <= c3 && c1 + c2 + c3 == 1.0
    requires x1 <= s2 && x2 <= s2 && x3 <= s2
    ensures c1 * x1 + c2 * x2 + c3 * x3 <= s2
  {
    var p1, p2, p3 := c1 * x1, c2 * x2, c3 * x3;
    var q1, q2, q3 := c1 * s2, c2 * s2, c3 * s2;
    calc {
      p1 + p2 + p3;
    <= { MulMono(x1, s2, c1); assert p1 <= q1;
         MulMono(x2, s2, c2); assert p2 <= q2;
         MulMono(x3, s2, c3); assert p3 <= q3; }
      q1 + q2 + q3;
    == { assert c3 == 1.0 - c1 - c2; }
      c1 * s2 + c2 * s2 + (1.0 - c1 - c2) * s2;
    ==
      s2;
    }
  }

  /** The fraction of the way from current to target that MoveTowards goes. */
  function StepFraction(current: Vec3, target: Vec3, maxDelta: real, sqrt: real -> real): real
    requires IsSqrt(sqrt)
  {
    var toVector := Sub(target, current);
    SqrMagSign(toVector);
    if toVector == Zero || (0.0 <= maxDelta && SqrMag(toVector) <= Sq(maxDelta)) then 1.0
    else
      var dist := sqrt(SqrMag(toVector));
      RootPos(SqrMag(toVector), dist);
      maxDelta / dist
  }

  /** MoveTowards never overshoots: it returns a point of the segment from current to target. */
  lemma MoveTowardsOnSegment(current: Vec3, target: Vec3, maxDelta: real, sqrt: real -> real)
    requires IsSqrt(sqrt)
    requires 0.0 <= maxDelta
    ensures 0.0 <= StepFraction(current, target, maxDelta, sqrt) <= 1.0
    ensures MoveTowards(current, target, maxDelta, sqrt)
         == Add(current, Scale(Sub(target, current), StepFraction(current, target, maxDelta, sqrt)))
  {
    var toVector := Sub(target, current);
    if toVector == Zero || SqrMag(toVector) <= Sq(maxDelta) {
      WholeStep(current, target);
    } else {
      PartialStep(current, target, maxDelta, sqrt);
    }
  }

  lemma WholeStep(current: Vec3, target: Vec3)
    ensures Add(current, Scale(Sub(target, current), 1.0)) == target
  {
  }

  lemma PartialStep(current: Vec3, target: Vec3, maxDelta: real, sqrt: real -> real)
    requires IsSqrt(sqrt)
    requires 0.0 <= maxDelta && Sq(maxDelta) < SqrMag(Sub(target, current))
    ensures 0.0 <= StepFraction(current, target, maxDelta, sqrt) < 1.0
    ensures MoveTowards(current, target, maxDelta, sqrt)
         == Add(current, Scale(Sub(target, current), StepFraction(current, target, maxDelta, sqrt)))
  {
    var toVector := Sub(target, current);
    var sqdist := SqrMag(toVector);
    SqNonneg(maxDelta);
    assert toVector != Zero by { assert SqrMag(Zero) == 0.0; }
    assert !(toVector == Zero || (0.0 <= maxDelta && sqdist <= Sq(maxDelta)));
    FarStep(sqdist, sqrt(sqdist), maxDelta);
    assert StepFraction(current, target, maxDelta, sqrt) == maxDelta / sqrt(sqdist);
    assert MoveTowards(current, target, maxDelta, sqrt) == Add(current, Scale(toVector, maxDelta / sqrt(sqdist)));
  }

  /** Beyond reach, the fraction of the way MoveTowards goes lies in [0, 1). */
  lemma FarStep(sqdist: real, dist: real, maxDelta: real)
    requires 0.0 <= maxDelta && Sq(maxDelta) < sqdist && 0.0 <= dist && Sq(dist) == sqdist
    ensures 0.0 <= maxDelta / dist < 1.0
  {
    SqNonneg(maxDelta);
    RootPos(sqdist, dist);
    if dist <= maxDelta {
      if dist < maxDelta { SqLess(dist, maxDelta); }
    }
    FractionBelowOne(maxDelta, dist);
  }
}
