/** The fish's behaviour component: each frame it perceives food, picks one of three states
    by priority (pursue, then seek food, then wander), computes the direction the state
    wants, adds obstacle avoidance, caps the result at its cruising speed and eases its
    velocity, position and heading toward it. */
module Fish {
  import opened Wrappers
  import opened Vectors
  import opened Perception
  import opened Steering
  import opened Motion

  datatype FishState = Wandering | SeekingFood | PursuingTarget

  /** The inspector-tunable settings of the component. */
  datatype Config = Config(
    speed: real,
    rotationSpeed: real,
    acceleration: real,
    deceleration: real,
    wanderChangeInterval: real,
    foodDetectionRadius: real,
    pursuitDetectionRadius: real,
    obstacleAvoidanceDistance: real,
    obstacleAvoidanceForceMagnitude: real,
    whiskerAngle: real,
    sideWhiskerLengthMultiplier: real)

  /** The settings the component ships with. */
  const Defaults := Config(3.0, 120.0, 5.0, 8.0, 5.0, 8.0, 12.0, 2.5, 10.0, 30.0, 0.7)

  /** The settings the speed bound depends on are not negative. */
  predicate WellFormed(c: Config)
  {
    0.0 <= c.speed && 0.0 <= c.acceleration && 0.0 <= c.deceleration
  }

  /** The shipped settings meet the constructor's condition for the speed invariant. */
  lemma DefaultsWellFormed()
    ensures WellFormed(Defaults)
  {
  }

  /** How far a new wander point may lie from the fish. */
  const WanderRange := 10.0

  /** A wander point closer than this counts as reached. */
  const ArriveDistance := 1.0

  /** Food closer than this is eaten. */
  const EatDistance := 0.8

  /** A unit quaternion; the model never looks inside one. */
  datatype Rotation = Rotation(x: real, y: real, z: real, w: real)

  /** The engine primitives the component calls: the square root behind magnitudes and
      normalisation, Quaternion.LookRotation and Quaternion.RotateTowards. */
  datatype Engine = Engine(
    sqrt: real -> real,
    lookRotation: Vec3 -> Rotation,
    rotateTowards: (Rotation, Rotation, real) -> Rotation)

  /** A point drawn by Random.insideUnitCircle. */
  datatype Point2 = Point2(x: real, y: real)

  predicate InUnitDisk(p: Point2)
  {
    Sq(p.x) + Sq(p.y) <= 1.0
  }

  /** The positions of the scene objects that still exist. */
  type World = map<EntityId, Vec3>

  /** A reference that is not (engine-)null: set, and its object not destroyed. */
  predicate IsLive(ref: Option<EntityId>, world: World)
  {
    ref.Some? && ref.value in world
  }

  /** The overlap query reports objects of the scene, at their current positions. */
  predicate CandidatesLive(cs: seq<Candidate>, world: World)
  {
    forall i :: 0 <= i < |cs| ==> cs[i].entity in world && world[cs[i].entity] == cs[i].position
  }

  /** A point on the fish's horizontal plane, at most WanderRange away when the random
      point lies in the unit disk. */
  function NewWanderTarget(pos: Vec3, p: Point2): (r: Vec3)
    ensures r.y == pos.y
    ensures InUnitDisk(p) ==> Sq(r.x - pos.x) + Sq(r.z - pos.z) <= Sq(WanderRange)
  {
    var r := Add(pos, Vec3(WanderRange * p.x, 0.0, WanderRange * p.y));
    assert r.x - pos.x == WanderRange * p.x && r.z - pos.z == WanderRange * p.y;
    SqOfProduct(WanderRange, p.x);
    SqOfProduct(WanderRange, p.y);
    r
  }

  /** The food target DetectFood leaves behind: none while pursuing, the current target
      while seeking a live one, otherwise the nearest food the overlap query reports. */
  function DetectedFood(state: FishState, food: Option<EntityId>, world: World, cs: seq<Candidate>,
                        pos: Vec3, radius: real): Option<EntityId>
  {
    if state == PursuingTarget then None
    else if IsLive(food, world) && state == SeekingFood then food
    else ClosestFood(cs, pos, radius)
  }

  /** Whatever DetectFood keeps or picks is a live object; and what it picks anew is the
      nearest food candidate below the search bound, found whenever one exists. */
  lemma DetectedFoodSound(state: FishState, food: Option<EntityId>, world: World, cs: seq<Candidate>,
                          pos: Vec3, radius: real)
    requires CandidatesLive(cs, world)
    ensures var r := DetectedFood(state, food, world, cs, pos, radius);
      (r.None? || IsLive(r, world)) &&
      (state == PursuingTarget ==> r.None?) &&
      (state == SeekingFood && IsLive(food, world) ==> r == food) &&
      (state != PursuingTarget && !(state == SeekingFood && IsLive(food, world)) ==>
        (r.Some? ==> exists k :: 0 <= k < |cs| && cs[k].entity == r.value && IsNearestFood(cs, pos, radius, k)) &&
        (r.None? <==> forall j :: 0 <= j < |cs| && cs[j].isFood ==> SearchBound(radius) <= FoodDistance(cs[j], pos)))
  {
    var r := DetectedFood(state, food, world, cs, pos, radius);
    if state != PursuingTarget && !(state == SeekingFood && IsLive(food, world)) && r.Some? {
      var k :| 0 <= k < |cs| && cs[k].entity == r.value && IsNearestFood(cs, pos, radius, k);
      assert r.value in world;
    }
  }

  /** The lengths of the forward, right and left whiskers. */
  function Lens(c: Config): (lens: seq<real>)
    ensures |lens| == 3
  {
    WhiskerLengths(c.obstacleAvoidanceDistance, c.sideWhiskerLengthMultiplier)
  }

  /** The state's steering plus obstacle avoidance, capped at the cruising speed. */
  function DesiredVelocity(c: Config, direction: Vec3, avoidance: Vec3, sqrt: real -> real): (r: Vec3)
    requires IsSqrt(sqrt)
    ensures 0.0 <= c.speed ==> SqrMag(r) <= Sq(c.speed)
  {
    ClampToSpeed(Add(Scale(direction, c.speed), avoidance), c.speed, sqrt)
  }

  class FishAI {
    const cfg: Config
    var state: FishState
    var velocity: Vec3
    var wanderTimer: real
    var wanderTarget: Vec3
    var foodTarget: Option<EntityId>
    var pursueTarget: Option<EntityId>
    /** The fish's transform. */
    var position: Vec3
    var rotation: Rotation

    /** The settings are sound and the fish never moves faster than its cruising speed. */
    ghost predicate Valid()
      reads this
    {
      WellFormed(cfg) && SqrMag(velocity) <= Sq(cfg.speed)
    }

    /** The target of the pursuit state is live and nearer than the pursuit radius. */
    predicate PursuitInRange(world: World)
      reads this
    {
      IsLive(pursueTarget, world) && WithinDistance(position, world[pursueTarget.value], cfg.pursuitDetectionRadius)
    }

    /** The field initialisers followed by Start: at rest, wandering, with a fresh wander
        point and an expired wander timer. */
    constructor (cfg: Config, position: Vec3, rotation: Rotation, pursueTarget: Option<EntityId>, sample: Point2)
      ensures this.cfg == cfg && this.position == position && this.rotation == rotation
      ensures this.pursueTarget == pursueTarget
      ensures state == Wandering && velocity == Zero && foodTarget == None
      ensures wanderTimer == 0.0 && wanderTarget == NewWanderTarget(position, sample)
      ensures WellFormed(cfg) ==> Valid()
    {
      this.cfg := cfg;
      this.position := position;
      this.rotation := rotation;
      this.pursueTarget := pursueTarget;
      state := Wandering;
      velocity := Zero;
      foodTarget := None;
      wanderTarget := Zero;
      new;
      wanderTimer := 0.0;
      CalculateNewWanderTarget(sample);
      SqNonneg(cfg.speed);
    }

    /** Picks a wander point around the current position from a random point of the unit
        disk (Random.insideUnitCircle is the parameter `sample`). */
    method CalculateNewWanderTarget(sample: Point2)
      modifies this`wanderTarget
      ensures wanderTarget == NewWanderTarget(position, sample)
    {
      var randomPointInCircle := Point2(sample.x * WanderRange, sample.y * WanderRange);
      wanderTarget := Add(position, Vec3(randomPointInCircle.x, 0.0, randomPointInCircle.y));
    }

    /** The perception phase: scans the overlap query's colliders for the nearest food,
        unless pursuing (which drops food) or already seeking a live food target. */
    method DetectFood(world: World, cs: seq<Candidate>)
      modifies this`foodTarget
      ensures foodTarget == DetectedFood(state, old(foodTarget), world, cs, position, cfg.foodDetectionRadius)
    {
      if state == PursuingTarget {
        foodTarget := None;
        return;
      }
      if IsLive(foodTarget, world) && state == SeekingFood {
        return;
      }
      var bound := cfg.foodDetectionRadius * cfg.foodDetectionRadius + 1.0;
      assert bound == SearchBound(cfg.foodDetectionRadius);
      var closestFood: Option<EntityId> := None;
      var minDistanceSqr := bound;
      ghost var best: Option<nat> := None;
      for i := 0 to |cs|
        invariant best == Closest(cs[..i], position, bound)
        invariant closestFood == EntityOf(cs, best)
        invariant minDistanceSqr == BestDistance(cs[..i], position, bound, best)
      {
        assert cs[..i + 1][..i] == cs[..i];
        if cs[i].isFood {
          var distanceSqr := SqrMag(Sub(position, cs[i].position));
          if distanceSqr < minDistanceSqr {
            minDistanceSqr := distanceSqr;
            closestFood := Some(cs[i].entity);
            best := Some(i);
          }
        }
      }
      assert cs[..|cs|] == cs;
      if closestFood.Some? {
        foodTarget := closestFood;
      } else {
        foodTarget := None;
      }
    }

    /** The state determination phase: pursue a target in range, else seek a live food
        target, else wander; entering pursuit drops the food target. */
    method DecideState(world: World)
      modifies this`state, this`foodTarget
      ensures PursuitInRange(world) ==>
                state == PursuingTarget && foodTarget == (if old(state) == PursuingTarget then old(foodTarget) else None)
      ensures !PursuitInRange(world) && IsLive(old(foodTarget), world) ==>
                state == SeekingFood && foodTarget == old(foodTarget)
      ensures !PursuitInRange(world) && !IsLive(old(foodTarget), world) ==>
                state == Wandering && foodTarget == old(foodTarget)
    {
      if IsLive(pursueTarget, world) &&
         WithinDistance(position, world[pursueTarget.value], cfg.pursuitDetectionRadius) {
        if state != PursuingTarget {
          state := PursuingTarget;
          foodTarget := None;
        }
      } else if IsLive(foodTarget, world) {
        if state != SeekingFood {
          state := SeekingFood;
        }
      } else {
        if state != Wandering {
          state := Wandering;
        }
      }
    }

    /** The behaviour execution phase: the direction the current state steers toward.
        `proceed` is false where the frame ends early because the state's target is gone;
        `eaten` is the food destroyed this frame. */
    method ExecuteBehaviour(dt: real, world: World, cs: seq<Candidate>, sample: Point2, sqrt: real -> real)
      returns (proceed: bool, direction: Vec3, eaten: Option<EntityId>)
      requires IsSqrt(sqrt)
      modifies this`state, this`foodTarget, this`wanderTimer, this`wanderTarget
      ensures old(state) == Wandering ==>
                proceed && eaten == None && state == Wandering && foodTarget == old(foodTarget) &&
                direction == Normalized(Sub(wanderTarget, position), sqrt)
      ensures old(state) == Wandering &&
              (old(wanderTimer) - dt <= 0.0 || WithinDistance(position, old(wanderTarget), ArriveDistance)) ==>
                wanderTarget == NewWanderTarget(position, sample) && wanderTimer == cfg.wanderChangeInterval
      ensures old(state) == Wandering &&
              !(old(wanderTimer) - dt <= 0.0 || WithinDistance(position, old(wanderTarget), ArriveDistance)) ==>
                wanderTarget == old(wanderTarget) && wanderTimer == old(wanderTimer) - dt
      ensures old(state) != Wandering ==> wanderTarget == old(wanderTarget) && wanderTimer == old(wanderTimer)
      ensures old(state) == SeekingFood && !IsLive(old(foodTarget), world) ==>
                !proceed && eaten == None && state == Wandering &&
                foodTarget == ClosestFood(cs, position, cfg.foodDetectionRadius)
      ensures old(state) == SeekingFood && IsLive(old(foodTarget), world) ==>
                proceed && direction == Normalized(Sub(world[old(foodTarget).value], position), sqrt)
      ensures old(state) == SeekingFood && IsLive(old(foodTarget), world) &&
              WithinDistance(position, world[old(foodTarget).value], EatDistance) ==>
                eaten == old(foodTarget) && foodTarget == None && state == Wandering
      ensures old(state) == SeekingFood && IsLive(old(foodTarget), world) &&
              !WithinDistance(position, world[old(foodTarget).value], EatDistance) ==>
                eaten == None && foodTarget == old(foodTarget) && state == SeekingFood
      ensures old(state) == PursuingTarget ==>
                eaten == None && foodTarget == old(foodTarget) && (proceed <==> IsLive(pursueTarget, world))
      ensures old(state) == PursuingTarget && IsLive(pursueTarget, world) ==>
                state == PursuingTarget && direction == Normalized(Sub(world[pursueTarget.value], position), sqrt)
      ensures old(state) == PursuingTarget && !IsLive(pursueTarget, world) ==> state == Wandering
    {
      direction, eaten := Zero, None;
      match state {
        case Wandering =>
          wanderTimer := wanderTimer - dt;
          if wanderTimer <= 0.0 || WithinDistance(position, wanderTarget, ArriveDistance) {
            CalculateNewWanderTarget(sample);
            wanderTimer := cfg.wanderChangeInterval;
          }
          direction := Normalized(Sub(wanderTarget, position), sqrt);
        case SeekingFood =>
          if !IsLive(foodTarget, world) {
            state := Wandering;
            DetectFood(world, cs);
            return false, direction, eaten;
          }
          var foodPosition := world[foodTarget.value];
          direction := Normalized(Sub(foodPosition, position), sqrt);
          if WithinDistance(position, foodPosition, EatDistance) {
            eaten := foodTarget;
            foodTarget := None;
            state := Wandering;
          }
        case PursuingTarget =>
          if !IsLive(pursueTarget, world) {
            state := Wandering;
            return false, direction, eaten;
          }
          direction := Normalized(Sub(world[pursueTarget.value], position), sqrt);
      }
      proceed := true;
    }

    /** CalculateObstacleAvoidance: sums the proximity-weighted normals of the whiskers
        that hit, and scales the direction of their average to the avoidance magnitude. */
    method CalculateObstacleAvoidance(hits: seq<Option<Hit>>, sqrt: real -> real) returns (force: Vec3)
      requires IsSqrt(sqrt) && HitsFit(hits, Lens(cfg))
      ensures force == AvoidanceForce(hits, Lens(cfg), cfg.obstacleAvoidanceForceMagnitude, sqrt)
    {
      var whiskerLengths := Lens(cfg);
      var avoidanceSteeringForce := Zero;
      var detectedObstaclesCount := 0;
      for i := 0 to |hits|
        invariant avoidanceSteeringForce == HitSum(hits, whiskerLengths, i)
        invariant detectedObstaclesCount == HitCount(hits, i)
      {
        if hits[i].Some? {
          var hit := hits[i].value;
          var proximityFactor := 1.0 - hit.distance / whiskerLengths[i];
          avoidanceSteeringForce := Add(avoidanceSteeringForce, Scale(hit.normal, proximityFactor));
          detectedObstaclesCount := detectedObstaclesCount + 1;
        } else {
          AddZero(avoidanceSteeringForce);
        }
      }
      if detectedObstaclesCount > 0 {
        var average := Scale(avoidanceSteeringForce, 1.0 / (detectedObstaclesCount as real));
        return Scale(Normalized(average, sqrt), cfg.obstacleAvoidanceForceMagnitude);
      }
      return Zero;
    }

    /** Steering, movement and rotation: the desired velocity is the state's direction at
        cruising speed plus avoidance, capped at that speed; the velocity eases toward it,
        the fish moves by it and turns toward it when moving noticeably. */
    method SteerAndMove(direction: Vec3, hits: seq<Option<Hit>>, dt: real, eng: Engine)
      requires IsSqrt(eng.sqrt) && HitsFit(hits, Lens(cfg))
      modifies this`velocity, this`position, this`rotation
      ensures velocity == NextVelocity(old(velocity),
                DesiredVelocity(cfg, direction, AvoidanceForce(hits, Lens(cfg), cfg.obstacleAvoidanceForceMagnitude, eng.sqrt), eng.sqrt),
                cfg.acceleration, cfg.deceleration, dt, eng.sqrt)
      ensures position == Add(old(position), Scale(velocity, dt))
      ensures MagnitudeAbove(velocity, RotateThreshold) ==>
                rotation == eng.rotateTowards(old(rotation), eng.lookRotation(Normalized(velocity, eng.sqrt)), cfg.rotationSpeed * dt)
      ensures !MagnitudeAbove(velocity, RotateThreshold) ==> rotation == old(rotation)
      ensures 0.0 <= dt && old(Valid()) ==> Valid()
    {
      var finalDesiredVelocity := CalculateDesiredVelocity(direction, hits, eng.sqrt);
      if 0.0 <= dt && Valid() {
        NextVelocityWithinSpeed(velocity, finalDesiredVelocity, cfg.acceleration, cfg.deceleration, dt,
                               eng.sqrt, Sq(cfg.speed));
      }
      EaseVelocity(finalDesiredVelocity, dt, eng.sqrt);
      position := Add(position, Scale(velocity, dt));
      Turn(dt, eng);
    }

    /** The state's direction at cruising speed plus obstacle avoidance, cut back to the
        cruising speed when longer. */
    method CalculateDesiredVelocity(direction: Vec3, hits: seq<Option<Hit>>, sqrt: real -> real)
      returns (finalDesiredVelocity: Vec3)
      requires IsSqrt(sqrt) && HitsFit(hits, Lens(cfg))
      ensures finalDesiredVelocity ==
                DesiredVelocity(cfg, direction, AvoidanceForce(hits, Lens(cfg), cfg.obstacleAvoidanceForceMagnitude, sqrt), sqrt)
    {
      var steeringForState := Scale(direction, cfg.speed);
      var steeringForAvoidance := CalculateObstacleAvoidance(hits, sqrt);
      finalDesiredVelocity := Add(steeringForState, steeringForAvoidance);
      if MagnitudeAbove(finalDesiredVelocity, cfg.speed) {
        finalDesiredVelocity := Scale(Normalized(finalDesiredVelocity, sqrt), cfg.speed);
      }
    }

    /** Turns toward the direction of motion, at most rotationSpeed degrees per second,
        once the fish moves faster than the turning threshold. */
    method Turn(dt: real, eng: Engine)
      requires IsSqrt(eng.sqrt)
      modifies this`rotation
      ensures MagnitudeAbove(velocity, RotateThreshold) ==>
                rotation == eng.rotateTowards(old(rotation), eng.lookRotation(Normalized(velocity, eng.sqrt)), cfg.rotationSpeed * dt)
      ensures !MagnitudeAbove(velocity, RotateThreshold) ==> rotation == old(rotation)
    {
      if MagnitudeAbove(velocity, RotateThreshold) {
        var targetRotation := eng.lookRotation(Normalized(velocity, eng.sqrt));
        rotation := eng.rotateTowards(rotation, targetRotation, cfg.rotationSpeed * dt);
      }
    }

    /** Moves the velocity toward the desired one at the acceleration rate, or toward rest
        at the deceleration rate when nothing is desired; a fish that neither wants to move
        nor moves is left alone. */
    method EaseVelocity(finalDesiredVelocity: Vec3, dt: real, sqrt: real -> real)
      requires IsSqrt(sqrt)
      modifies this`velocity
      ensures velocity == NextVelocity(old(velocity), finalDesiredVelocity, cfg.acceleration, cfg.deceleration, dt, sqrt)
    {
      if MagnitudeAbove(finalDesiredVelocity, MoveThreshold) || MagnitudeAbove(velocity, MoveThreshold) {
        if MagnitudeAbove(finalDesiredVelocity, MoveThreshold) {
          velocity := MoveTowards(velocity, finalDesiredVelocity, cfg.acceleration * dt, sqrt);
        } else {
          velocity := MoveTowards(velocity, Zero, cfg.deceleration * dt, sqrt);
        }
      }
    }

    /** The perception and state determination phases together: pursuit of a target in
        range wins and holds no food target; otherwise the fish seeks the food DetectFood
        settled on, or wanders when there is none. */
    method PerceiveAndDecide(world: World, cs: seq<Candidate>) returns (ghost chosen: Option<EntityId>)
      requires CandidatesLive(cs, world)
      modifies this`state, this`foodTarget
      ensures chosen == DetectedFood(old(state), old(foodTarget), world, cs, position, cfg.foodDetectionRadius)
      ensures PursuitInRange(world) ==> state == PursuingTarget && foodTarget == None
      ensures !PursuitInRange(world) && chosen.Some? ==>
                chosen.value in world && state == SeekingFood && foodTarget == chosen
      ensures !PursuitInRange(world) && chosen.None? ==> state == Wandering && foodTarget == None
    {
      chosen := DetectedFood(state, foodTarget, world, cs, position, cfg.foodDetectionRadius);
      DetectedFoodSound(state, foodTarget, world, cs, position, cfg.foodDetectionRadius);
      DetectFood(world, cs);
      DecideState(world);
    }

    /** One frame. `chosen` is the food target the perception phase settles on and `goal`
        the point the behaviour phase steers toward; `eaten` is the food destroyed. */
    method Update(dt: real, world: World, cs: seq<Candidate>, hits: seq<Option<Hit>>, sample: Point2, eng: Engine)
      returns (eaten: Option<EntityId>, ghost chosen: Option<EntityId>, ghost goal: Vec3)
      requires 0.0 <= dt && IsSqrt(eng.sqrt)
      requires CandidatesLive(cs, world) && HitsFit(hits, Lens(cfg))
      modifies this
      ensures chosen == old(DetectedFood(state, foodTarget, world, cs, position, cfg.foodDetectionRadius))
      ensures pursueTarget == old(pursueTarget)
      // Priority: pursue, then seek food, then wander.
      ensures old(PursuitInRange(world)) ==>
                state == PursuingTarget && foodTarget == None && eaten == None && goal == world[pursueTarget.value]
      ensures !old(PursuitInRange(world)) && chosen.Some? ==>
                chosen.value in world && goal == world[chosen.value]
      ensures !old(PursuitInRange(world)) && chosen.Some? && WithinDistance(old(position), goal, EatDistance) ==>
                eaten == chosen && foodTarget == None && state == Wandering
      ensures !old(PursuitInRange(world)) && chosen.Some? && !WithinDistance(old(position), goal, EatDistance) ==>
                eaten == None && foodTarget == chosen && state == SeekingFood
      ensures !old(PursuitInRange(world)) && chosen.None? ==>
                eaten == None && foodTarget == None && state == Wandering && goal == wanderTarget
      // Leaving pursuit: DetectFood ran while the state was still pursuit, so this frame wanders.
      ensures old(state) == PursuingTarget && !old(PursuitInRange(world)) ==> state == Wandering && eaten == None
      // The wander timer and point change only while wandering.
      ensures !old(PursuitInRange(world)) && chosen.None? &&
              (old(wanderTimer) - dt <= 0.0 || old(WithinDistance(position, wanderTarget, ArriveDistance))) ==>
                wanderTarget == NewWanderTarget(old(position), sample) && wanderTimer == cfg.wanderChangeInterval
      ensures !old(PursuitInRange(world)) && chosen.None? &&
              !(old(wanderTimer) - dt <= 0.0 || old(WithinDistance(position, wanderTarget, ArriveDistance))) ==>
                wanderTarget == old(wanderTarget) && wanderTimer == old(wanderTimer) - dt
      ensures old(PursuitInRange(world)) || chosen.Some? ==>
                wanderTarget == old(wanderTarget) && wanderTimer == old(wanderTimer)
      // A food target is held exactly while seeking it, and it is live.
      ensures foodTarget.Some? <==> state == SeekingFood
      ensures state == SeekingFood ==> IsLive(foodTarget, world)
      // Movement.
      ensures velocity == NextVelocity(old(velocity),
                DesiredVelocity(cfg, Normalized(Sub(goal, old(position)), eng.sqrt),
                                AvoidanceForce(hits, Lens(cfg), cfg.obstacleAvoidanceForceMagnitude, eng.sqrt), eng.sqrt),
                cfg.acceleration, cfg.deceleration, dt, eng.sqrt)
      ensures position == Add(old(position), Scale(velocity, dt))
      ensures MagnitudeAbove(velocity, RotateThreshold) ==>
                rotation == eng.rotateTowards(old(rotation), eng.lookRotation(Normalized(velocity, eng.sqrt)), cfg.rotationSpeed * dt)
      ensures !MagnitudeAbove(velocity, RotateThreshold) ==> rotation == old(rotation)
      ensures old(Valid()) ==> Valid()
    {
      ghost var inRange := PursuitInRange(world);
      chosen := PerceiveAndDecide(world, cs);
      goal := if inRange then world[pursueTarget.value]
              else if chosen.Some? then world[chosen.value]
              else NewWanderTarget(position, sample);
      var proceed, direction;
      proceed, direction, eaten := ExecuteBehaviour(dt, world, cs, sample, eng.sqrt);
      if !inRange && chosen.None? {
        goal := wanderTarget;
      }
      if proceed {
        SteerAndMove(direction, hits, dt, eng);
      }
    }
  }
}
