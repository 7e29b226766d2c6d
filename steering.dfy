/** Obstacle avoidance from three whisker raycasts (forward, right, left). The raycasts
    themselves are the engine's; what the fish does with their hits is modelled here. */
module Steering {
  import opened Wrappers
  import opened Vectors

  /** One raycast hit: distance along the ray and the surface normal at the hit point. */
  datatype Hit = Hit(distance: real, normal: Vec3)

  /** Lengths of the forward, right and left whiskers. */
  function WhiskerLengths(distance: real, sideMultiplier: real): (lens: seq<real>)
    ensures |lens| == 3 && lens[0] == distance
    ensures lens[1] == lens[2] == distance * sideMultiplier
  {
    [distance, distance * sideMultiplier, distance * sideMultiplier]
  }

  /** The engine reports a hit on a ray of positive length only, no farther than that length. */
  predicate HitWithin(h: Hit, len: real)
  {
    0.0 < len && 0.0 <= h.distance <= len
  }

  /** The raycast results fit the whiskers they were cast along. */
  predicate HitsFit(hits: seq<Option<Hit>>, lens: seq<real>)
  {
    |hits| == |lens| && forall i :: 0 <= i < |hits| && hits[i].Some? ==> HitWithin(hits[i].value, lens[i])
  }

  /** How close the obstacle is: 1 at the whisker's root, 0 at its tip. */
  function Proximity(h: Hit, len: real): (p: real)
    requires HitWithin(h, len)
    ensures 0.0 <= p <= 1.0
    ensures p == 1.0 <==> h.distance == 0.0
    ensures p == 0.0 <==> h.distance == len
  {
    FractionOfLength(h.distance, len);
    1.0 - h.distance / len
  }

  lemma FractionOfLength(d: real, len: real)
    requires 0.0 < len && 0.0 <= d <= len
    ensures 0.0 <= d / len <= 1.0
    ensures d / len == 0.0 <==> d == 0.0
    ensures d / len == 1.0 <==> d == len
  {
    var q := d / len;
    assert q * len == d;
    if q < 0.0 { MulPos(-q, len); }
    if q > 1.0 { MulMono(1.0, q, len); }
  }

  /** What one whisker adds to the avoidance sum: its hit normal weighted by proximity. */
  function Contribution(hit: Option<Hit>, len: real): Vec3
    requires hit.Some? ==> HitWithin(hit.value, len)
  {
    if hit.Some? then Scale(hit.value.normal, Proximity(hit.value, len)) else Zero
  }

  /** The avoidance sum over the first n whiskers. */
  function HitSum(hits: seq<Option<Hit>>, lens: seq<real>, n: nat): Vec3
    requires HitsFit(hits, lens) && n <= |hits|
  {
    if n == 0 then Zero else Add(HitSum(hits, lens, n - 1), Contribution(hits[n - 1], lens[n - 1]))
  }

  /** The number of whiskers among the first n that hit something. */
  function HitCount(hits: seq<Option<Hit>>, n: nat): (k: nat)
    requires n <= |hits|
    ensures k <= n
    ensures k == 0 <==> forall i :: 0 <= i < n ==> hits[i].None?
  {
    if n == 0 then 0 else HitCount(hits, n - 1) + (if hits[n - 1].Some? then 1 else 0)
  }

  /** CalculateObstacleAvoidance's result: the zero vector when no whisker hits, otherwise
      the direction of the averaged sum scaled to the avoidance force magnitude. */
  function AvoidanceForce(hits: seq<Option<Hit>>, lens: seq<real>, magnitude: real, sqrt: real -> real): Vec3
    requires HitsFit(hits, lens) && IsSqrt(sqrt)
  {
    var count := HitCount(hits, |hits|);
    if count == 0 then Zero
    else Scale(Normalized(Scale(HitSum(hits, lens, |hits|), 1.0 / (count as real)), sqrt), magnitude)
  }

  /** Whiskers that miss add nothing: with no hit at all the sum is exactly zero. */
  lemma {:induction false} NoHitNoSum(hits: seq<Option<Hit>>, lens: seq<real>, n: nat)
    requires HitsFit(hits, lens) && n <= |hits|
    requires forall i :: 0 <= i < n ==> hits[i].None?
    ensures HitSum(hits, lens, n) == Zero
  {
    if n > 0 {
      NoHitNoSum(hits, lens, n - 1);
    }
  }

  /** No whisker hits: no avoidance force. */
  lemma NoHitNoForce(hits: seq<Option<Hit>>, lens: seq<real>, magnitude: real, sqrt: real -> real)
    requires HitsFit(hits, lens) && IsSqrt(sqrt)
    requires forall i :: 0 <= i < |hits| ==> hits[i].None?
    ensures AvoidanceForce(hits, lens, magnitude, sqrt) == Zero
  {
  }

  /** When whiskers hit and their weighted normals do not cancel, the force has exactly the
      configured magnitude and points along the sum of the weighted normals; averaging
      by the hit count changes nothing but the length. */
  lemma AvoidanceAlongSum(hits: seq<Option<Hit>>, lens: seq<real>, magnitude: real, sqrt: real -> real)
    requires HitsFit(hits, lens) && IsSqrt(sqrt)
    requires HitCount(hits, |hits|) > 0
    ensures AvoidanceForce(hits, lens, magnitude, sqrt)
         == Scale(Normalized(HitSum(hits, lens, |hits|), sqrt), magnitude)
    ensures HitSum(hits, lens, |hits|) != Zero ==>
              SqrMag(AvoidanceForce(hits, lens, magnitude, sqrt)) == Sq(magnitude)
    ensures HitSum(hits, lens, |hits|) == Zero ==> AvoidanceForce(hits, lens, magnitude, sqrt) == Zero
  {
    var sum, count := HitSum(hits, lens, |hits|), HitCount(hits, |hits|);
    NormalizedOfPositiveScale(sum, 1.0 / (count as real), sqrt);
    var u := Normalized(sum, sqrt);
    ScaleSqrMag(u, magnitude);
    if sum == Zero {
      assert Scale(Zero, magnitude) == Zero;
    }
  }

  /** A single whisker touching an obstacle at distance below its length pushes the fish
      along that obstacle's (unit) surface normal with the full configured magnitude. */
  lemma SingleContact(hits: seq<Option<Hit>>, lens: seq<real>, magnitude: real, sqrt: real -> real, k: nat)
    requires HitsFit(hits, lens) && IsSqrt(sqrt)
    requires k < |hits| && hits[k].Some? && hits[k].value.distance < lens[k]
    requires SqrMag(hits[k].value.normal) == 1.0
    requires forall i :: 0 <= i < |hits| && i != k ==> hits[i].None?
    ensures AvoidanceForce(hits, lens, magnitude, sqrt) == Scale(hits[k].value.normal, magnitude)
  {
    var h := hits[k].value;
    var p := Proximity(h, lens[k]);
    SumOfSingle(hits, lens, k, |hits|);
    CountOfSingle(hits, k, |hits|);
    AvoidanceAlongSum(hits, lens, magnitude, sqrt);
    NormalizedOfPositiveScale(h.normal, p, sqrt);
    NormalizedUnit(h.normal, sqrt);
  }

  lemma {:induction false} SumOfSingle(hits: seq<Option<Hit>>, lens: seq<real>, k: nat, n: nat)
    requires HitsFit(hits, lens) && k < n <= |hits| && hits[k].Some?
    requires forall i :: 0 <= i < |hits| && i != k ==> hits[i].None?
    ensures HitSum(hits, lens, n) == Contribution(hits[k], lens[k])
  {
    if n - 1 == k {
      NoHitNoSum(hits, lens, k);
      assert Add(Zero, Contribution(hits[k], lens[k])) == Contribution(hits[k], lens[k]);
    } else {
      SumOfSingle(hits, lens, k, n - 1);
      assert Add(Contribution(hits[k], lens[k]), Zero) == Contribution(hits[k], lens[k]);
    }
  }

  lemma {:induction false} CountOfSingle(hits: seq<Option<Hit>>, k: nat, n: nat)
    requires k < n <= |hits| && hits[k].Some?
    requires forall i :: 0 <= i < |hits| && i != k ==> hits[i].None?
    ensures HitCount(hits, n) == 1
  {
    if n - 1 != k {
      CountOfSingle(hits, k, n - 1);
    }
  }
}
