/** What the fish perceives of its surroundings: the overlap-sphere query result and
    the closest-food choice that DetectFood makes from it. */
module Perception {
  import opened Wrappers
  import opened Vectors

  /** Identity of a scene object (the engine's Transform / GameObject reference). */
  type EntityId = nat

  /** One collider returned by the overlap query: the object it belongs to, whether it
      carries the food tag, and its transform position. */
  datatype Candidate = Candidate(entity: EntityId, isFood: bool, position: Vec3)

  /** The squared distance DetectFood measures to a candidate. */
  function FoodDistance(c: Candidate, pos: Vec3): real
  {
    SqrDist(pos, c.position)
  }

  /** The loop of DetectFood run over the candidates in order, starting from `bound`: the
      index of the food candidate whose squared distance is smallest and below `bound`,
      the earliest one on ties (the loop replaces its choice only on a strict `<`). */
  function Closest(cs: seq<Candidate>, pos: Vec3, bound: real): (r: Option<nat>)
    ensures r.Some? ==> r.value < |cs| && cs[r.value].isFood
    ensures r.Some? ==> FoodDistance(cs[r.value], pos) < bound
    ensures r.Some? ==> forall j :: 0 <= j < |cs| && cs[j].isFood ==>
              FoodDistance(cs[r.value], pos) <= FoodDistance(cs[j], pos)
    ensures r.Some? ==> forall j :: 0 <= j < r.value && cs[j].isFood ==>
              FoodDistance(cs[r.value], pos) < FoodDistance(cs[j], pos)
    ensures r.None? <==> forall j :: 0 <= j < |cs| && cs[j].isFood ==> bound <= FoodDistance(cs[j], pos)
    decreases |cs|
  {
    if |cs| == 0 then None
    else
      var prev := Closest(cs[..|cs| - 1], pos, bound);
      var last := cs[|cs| - 1];
      if last.isFood && FoodDistance(last, pos) < BestDistance(cs[..|cs| - 1], pos, bound, prev) then
        Some(|cs| - 1)
      else
        prev
  }

  /** The running minimum DetectFood keeps beside its choice: the chosen candidate's
      squared distance, or the starting bound while nothing has been chosen. */
  function BestDistance(cs: seq<Candidate>, pos: Vec3, bound: real, choice: Option<nat>): real
    requires choice.Some? ==> choice.value < |cs|
  {
    if choice.Some? then FoodDistance(cs[choice.value], pos) else bound
  }

  /** The entity behind a chosen index. */
  function EntityOf(cs: seq<Candidate>, choice: Option<nat>): (e: Option<EntityId>)
    requires choice.Some? ==> choice.value < |cs|
    ensures e.Some? <==> choice.Some?
    ensures choice.Some? ==> e == Some(cs[choice.value].entity)
  {
    if choice.Some? then Some(cs[choice.value].entity) else None
  }

  /** The starting bound of DetectFood: one more than the squared detection radius. */
  function SearchBound(radius: real): real
  {
    Sq(radius) + 1.0
  }

  /** The food DetectFood chooses among the overlap query's colliders. */
  function ClosestFood(cs: seq<Candidate>, pos: Vec3, radius: real): (e: Option<EntityId>)
    ensures e.None? <==> forall j :: 0 <= j < |cs| && cs[j].isFood ==> SearchBound(radius) <= FoodDistance(cs[j], pos)
    ensures e.Some? ==> exists k :: 0 <= k < |cs| && cs[k].entity == e.value && IsNearestFood(cs, pos, radius, k)
  {
    var choice := Closest(cs, pos, SearchBound(radius));
    assert choice.Some? ==> IsNearestFood(cs, pos, radius, choice.value);
    EntityOf(cs, choice)
  }

  /** Candidate k is food, lies below the search bound and no food candidate is nearer. */
  predicate IsNearestFood(cs: seq<Candidate>, pos: Vec3, radius: real, k: nat)
  {
    k < |cs| && cs[k].isFood && FoodDistance(cs[k], pos) < SearchBound(radius) &&
    forall j :: 0 <= j < |cs| && cs[j].isFood ==> FoodDistance(cs[k], pos) <= FoodDistance(cs[j], pos)
  }

  /** Food whose centre lies within the detection radius is never missed. */
  lemma FoodInRadiusFound(cs: seq<Candidate>, pos: Vec3, radius: real, i: nat)
    requires i < |cs| && cs[i].isFood && FoodDistance(cs[i], pos) <= Sq(radius)
    ensures ClosestFood(cs, pos, radius).Some?
  {
    assert FoodDistance(cs[i], pos) < SearchBound(radius);
  }

  /** The choice is determined by its characterisation: a food candidate below the bound,
      no farther than any food candidate and strictly nearer than every earlier one, is
      the one Closest picks. */
  lemma ClosestUnique(cs: seq<Candidate>, pos: Vec3, bound: real, k: nat)
    requires k < |cs| && cs[k].isFood && FoodDistance(cs[k], pos) < bound
    requires forall j :: 0 <= j < |cs| && cs[j].isFood ==> FoodDistance(cs[k], pos) <= FoodDistance(cs[j], pos)
    requires forall j :: 0 <= j < k && cs[j].isFood ==> FoodDistance(cs[k], pos) < FoodDistance(cs[j], pos)
    ensures Closest(cs, pos, bound) == Some(k)
  {
  }

  /** Candidates that are not food never influence the choice: inserting one anywhere in
      the overlap query's result leaves the chosen entity as it was. */
  lemma NonFoodIgnored(cs: seq<Candidate>, pos: Vec3, bound: real, c: Candidate, i: nat)
    requires !c.isFood && i <= |cs|
    ensures var ds := cs[..i] + [c] + cs[i..];
      EntityOf(ds, Closest(ds, pos, bound)) == EntityOf(cs, Closest(cs, pos, bound))
  {
    var ds := cs[..i] + [c] + cs[i..];
    assert forall j :: 0 <= j < i ==> ds[j] == cs[j];
    assert forall j :: i < j < |ds| ==> ds[j] == cs[j - 1];
    assert IsInsertion(cs, ds, i) && ds[i] == c;
    NonFoodInserted(cs, ds, pos, bound, i);
  }

  /** The same, for ds being cs with a non-food candidate at index i. */
  lemma NonFoodInserted(cs: seq<Candidate>, ds: seq<Candidate>, pos: Vec3, bound: real, i: nat)
    requires IsInsertion(cs, ds, i) && !ds[i].isFood
    ensures EntityOf(ds, Closest(ds, pos, bound)) == EntityOf(cs, Closest(cs, pos, bound))
  {
    var r := Closest(cs, pos, bound);
    if r.Some? {
      var k := r.value;
      var k' := if k < i then k else k + 1;
      InsertionKeepsNearest(cs, ds, pos, bound, i, k);
      ClosestUnique(ds, pos, bound, k');
    } else {
      InsertionKeepsAbsence(cs, ds, pos, bound, i);
    }
  }

  /** ds is cs with one more candidate at index i. */
  predicate IsInsertion(cs: seq<Candidate>, ds: seq<Candidate>, i: nat)
  {
    i <= |cs| && |ds| == |cs| + 1 &&
    (forall j :: 0 <= j < i ==> ds[j] == cs[j]) &&
    (forall j :: i < j < |ds| ==> ds[j] == cs[j - 1])
  }

  lemma InsertionKeepsNearest(cs: seq<Candidate>, ds: seq<Candidate>, pos: Vec3, bound: real, i: nat, k: nat)
    requires IsInsertion(cs, ds, i) && !ds[i].isFood
    requires k < |cs| && cs[k].isFood && FoodDistance(cs[k], pos) < bound
    requires forall j :: 0 <= j < |cs| && cs[j].isFood ==> FoodDistance(cs[k], pos) <= FoodDistance(cs[j], pos)
    requires forall j :: 0 <= j < k && cs[j].isFood ==> FoodDistance(cs[k], pos) < FoodDistance(cs[j], pos)
    ensures var k' := if k < i then k else k + 1;
      ds[k'] == cs[k] &&
      (forall j :: 0 <= j < |ds| && ds[j].isFood ==> FoodDistance(ds[k'], pos) <= FoodDistance(ds[j], pos)) &&
      (forall j :: 0 <= j < k' && ds[j].isFood ==> FoodDistance(ds[k'], pos) < FoodDistance(ds[j], pos))
  {
    var k' := if k < i then k else k + 1;
    forall j | 0 <= j < |ds| && ds[j].isFood
      ensures FoodDistance(ds[k'], pos) <= FoodDistance(ds[j], pos)
    {
      var j' := if j < i then j else j - 1;
      assert ds[j] == cs[j'];
    }
    forall j | 0 <= j < k' && ds[j].isFood
      ensures FoodDistance(ds[k'], pos) < FoodDistance(ds[j], pos)
    {
      var j' := if j < i then j else j - 1;
      assert ds[j] == cs[j'];
    }
  }

  lemma InsertionKeepsAbsence(cs: seq<Candidate>, ds: seq<Candidate>, pos: Vec3, bound: real, i: nat)
    requires IsInsertion(cs, ds, i) && !ds[i].isFood
    requires forall j :: 0 <= j < |cs| && cs[j].isFood ==> bound <= FoodDistance(cs[j], pos)
    ensures forall j :: 0 <= j < |ds| && ds[j].isFood ==> bound <= FoodDistance(ds[j], pos)
  {
    forall j | 0 <= j < |ds| && ds[j].isFood
      ensures bound <= FoodDistance(ds[j], pos)
    {
      var j' := if j < i then j else j - 1;
      assert ds[j] == cs[j'];
    }
  }
}
