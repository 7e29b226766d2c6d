# Fish behaviour model

A Dafny model of the `FishAI` component of a Unity fish/boid simulation
(`Assets/fishAI.cs`). Each frame the fish:

- **perceives food.** It keeps the nearest food-tagged collider from an
  overlap-sphere query, first one on ties.
- **picks a state** by priority: pursue a target in range, else seek food, else wander.
- **acts on the state.** It works out the direction the state steers toward. A wandering
  fish renews its wander point on a timer; a seeking fish eats food once close.
- **avoids obstacles.** Three whisker rays each add a proximity-weighted surface normal.
- **moves.** The desired velocity is capped at cruising speed. The velocity then eases
  toward it at the acceleration or deceleration rate. Finally the fish moves, and turns
  toward its motion.

The component is modelled as the class `Fish.FishAI` with the component's fields. Its
methods change those fields as the source does. The loops of `DetectFood` and
`CalculateObstacleAvoidance` are `for` loops whose invariants tie them to the recursive
specification functions `Perception.Closest` and `Steering.HitSum`/`HitCount`. The
vector algebra the component relies on is exact real arithmetic in `Vectors`:
`Vector3.magnitude`, `.normalized` and `Vector3.MoveTowards`.

Modules:

- `Vectors` (vectors.dfy): vectors, magnitudes, normalising, `MoveTowards`, and the
  algebra behind them.
- `Perception` (perception.dfy): the overlap-query candidates and the closest-food choice.
- `Steering` (steering.dfy): the whisker hits and the avoidance force.
- `Motion` (motion.dfy): the speed cap and velocity easing.
- `Fish` (fish.dfy): the settings, the state machine and the `FishAI` class.
- `Wrappers` (wrappers.dfy): `Option`.

What the engine provides is passed in:

- **Scene.** A `World` map from live object ids to positions. A Unity `== null` test
  becomes "not in the map".
- **Overlap query.** `Physics.OverlapSphere` with `CompareTag` becomes a sequence of
  candidates `(entity, isFood, position)`, each at its live position.
- **Raycasts.** `Physics.Raycast` becomes one optional hit `(distance, normal)` per
  whisker, with `0 <= distance <= length`. A whisker whose length is not positive
  reports no hit.
- **Random point.** `Random.insideUnitCircle` becomes a point parameter.
- **Frame time.** `Time.deltaTime` becomes `dt >= 0`.
- **Square root.** Any function satisfying `IsSqrt`.
- **Quaternions.** `Quaternion.LookRotation` and `Quaternion.RotateTowards` are
  uninterpreted functions in an `Engine` record.

`Destroy` of eaten food is reported as `Update`'s `eaten` result; removing the object
from the world is the caller's part.

## Model

| member | source | states |
|---|---|---|
| Fish.FishAI.constructor | Assets/fishAI.cs:42-46 | field initialisers then Start: wandering, at rest, no food, timer 0, wander point from the sample; the speed invariant holds for sound settings |
| Fish.FishAI.CalculateNewWanderTarget | Assets/fishAI.cs:174-181 | the wander point is the position offset by ten times the random disk point in the horizontal plane |
| Fish.NewWanderTarget | Assets/fishAI.cs:176-181 | a new wander point keeps the fish's height and lies within WanderRange horizontally when the sample is in the unit disk |
| Fish.FishAI.DetectFood | Assets/fishAI.cs:195-233 | the loop keeps the index chosen by Closest over the prefix scanned and its distance as the running minimum; the result is DetectedFood: none while pursuing, the live target kept while seeking, otherwise ClosestFood |
| Fish.DetectedFoodSound | Assets/fishAI.cs:199-232 | DetectFood's guards (pursuit clears food, a live target is kept while seeking); a new choice is a live, nearest food candidate below the search bound, and there is none exactly when every food candidate is at or beyond that bound |
| Perception.Closest | Assets/fishAI.cs:209-222 | the scan's choice is a food candidate below the bound, no farther than any food candidate, strictly nearer than every earlier one (first wins ties), and absent exactly when no food candidate is below the bound |
| Perception.ClosestFood | Assets/fishAI.cs:207-232 | the chosen entity is a nearest food candidate below radius² + 1; there is none exactly when every food candidate is at or beyond radius² + 1 |
| Perception.ClosestUnique | Assets/fishAI.cs:216-219 | the nearest-and-earliest characterisation determines the choice uniquely |
| Perception.NonFoodIgnored | Assets/fishAI.cs:213 | inserting a candidate without the food tag at any position of the overlap result leaves the chosen entity unchanged |
| Perception.FoodInRadiusFound | Assets/fishAI.cs:209 | a food target is chosen whenever some food centre lies within the radius |
| Fish.FishAI.DecideState | Assets/fishAI.cs:55-79 | a live pursue target nearer than the pursuit radius gives pursuit, and entering pursuit drops food; else a live food target gives seeking; else wandering |
| Fish.FishAI.PerceiveAndDecide | Assets/fishAI.cs:51-79 | after perception and decision: pursuit holds no food; otherwise the fish seeks exactly the food DetectFood settled on, which is live, or wanders with no food |
| Fish.FishAI.ExecuteBehaviour | Assets/fishAI.cs:84-125 | wander: timer decreases by dt, a new point and a full timer when it runs out or the point is within 1.0; seek: steer to the food and eat it within 0.8 (food dropped, back to wandering); a gone target reverts to wandering and ends the frame without moving |
| Fish.FishAI.CalculateObstacleAvoidance | Assets/fishAI.cs:235-286 | the loop accumulates HitSum and HitCount; the result is AvoidanceForce: zero with no hit, else the averaged sum's direction times the force magnitude |
| Steering.WhiskerLengths | Assets/fishAI.cs:251-255 | three whiskers: the forward length and two side lengths scaled by the multiplier |
| Steering.Proximity | Assets/fishAI.cs:271 | the proximity factor lies in [0, 1], is 1 exactly at distance 0 and 0 exactly at the whisker's length |
| Steering.HitCount | Assets/fishAI.cs:273 | the count of hits never exceeds the whiskers scanned and is zero exactly when none hit |
| Steering.NoHitNoForce | Assets/fishAI.cs:277-285 | no hit gives exactly the zero vector |
| Steering.AvoidanceAlongSum | Assets/fishAI.cs:280 | averaging does not change the direction; a non-cancelling sum gives a force of exactly the configured magnitude |
| Steering.SingleContact | Assets/fishAI.cs:264-282 | one whisker touching an obstacle pushes along that surface's unit normal with the full magnitude |
| Fish.FishAI.CalculateDesiredVelocity | Assets/fishAI.cs:128-139 | the desired velocity is the state's direction at speed plus avoidance, capped (DesiredVelocity) |
| Fish.DesiredVelocity | Assets/fishAI.cs:128-139 | the capped desired velocity is never longer than the speed |
| Motion.ClampToSpeed | Assets/fishAI.cs:136-139 | a vector longer than speed is cut to exactly speed and keeps its direction; a shorter one is unchanged |
| Fish.FishAI.EaseVelocity | Assets/fishAI.cs:146-159 | the velocity becomes NextVelocity of the old velocity and the desired one |
| Motion.NextVelocityIdle | Assets/fishAI.cs:146 | both desired and current speed at most 0.01: the velocity is unchanged |
| Motion.NextVelocityAccelerates | Assets/fishAI.cs:149-152 | a desired speed above 0.01: the velocity moves at most acceleration·dt, and lands on the desired one when that close |
| Motion.NextVelocityBrakes | Assets/fishAI.cs:154-157 | desired speed at most 0.01 while moving: the velocity moves at most deceleration·dt, never speeds up, and stops when that slow |
| Motion.BrakingNeverSpeedsUp | Assets/fishAI.cs:157 | stepping toward rest never increases the speed |
| Motion.NextVelocityWithinSpeed | Assets/fishAI.cs:146-159 | easing between two velocities within a speed bound stays within it |
| Fish.FishAI.Turn | Assets/fishAI.cs:166-171 | the rotation turns toward the motion only when the speed exceeds 0.05, else it is unchanged |
| Fish.FishAI.SteerAndMove | Assets/fishAI.cs:128-171 | the new velocity is NextVelocity toward the capped desired velocity; the position moves by velocity·dt; the rotation rule; the speed bound is preserved |
| Fish.FishAI.Update | Assets/fishAI.cs:48-172 | one frame: the priority outcome (pursuit, seeking the chosen food, eating it within 0.8, wandering), the wander timer rule, a food target held exactly while seeking and always live, one frame of wandering on leaving pursuit, the motion as a function of the goal, and the speed bound preserved |
| Vectors.Magnitude | Assets/fishAI.cs:136 | Vector3.magnitude is non-negative and squares to the squared magnitude |
| Vectors.MagnitudeAboveIsMagnitudeTest | Assets/fishAI.cs:136 | the squared test used for `magnitude > s` agrees with the magnitude comparison |
| Vectors.WithinDistanceIsDistanceTest | Assets/fishAI.cs:55 | the squared test used for `Vector3.Distance(a, b) < r` agrees with the distance comparison |
| Vectors.Normalized | Assets/fishAI.cs:94 | `.normalized` of a non-zero vector has unit length and points the same way; of zero it is zero |
| Vectors.MoveTowards | Assets/fishAI.cs:152 | Vector3.MoveTowards moves at most maxDelta and reaches a target that close |
| Vectors.MoveTowardsOnSegment | Assets/fishAI.cs:157 | MoveTowards lands on the segment from the current point to the target |

## Left out

- Floating point: vectors are exact reals. `.normalized` has no small-magnitude cutoff.
  The square root is any exact root (`IsSqrt`).
- Whisker geometry: the forward direction, `Quaternion.Euler` by `whiskerAngle`, the ray
  origin offset of 0.1 and the obstacle layer are not modelled. Each ray's outcome is an
  input.
- Quaternions: `LookRotation` and `RotateTowards` are uninterpreted. No property of the
  resulting rotation is claimed beyond which arguments it is computed from.
- `Destroy`: it is an effect reported through `eaten`. The scene update is the caller's.
- Object identity and tags: an object is an id. `CompareTag(foodTag)` is the candidate's
  `isFood` flag.
- Debug output: `Debug.Log`, `Debug.DrawRay`, `Debug.DrawLine` and
  `OnDrawGizmosSelected` draw or log only.
- Other files: the spawning and keyboard control scripts (`BoidSimulation.cs`,
  `BoidSimulationControl.cs`) and `Boid.cs` are not part of this model.
- Fish.FishAI.Update: within one frame nothing else destroys objects, so the world is
  the same for the whole call. As a result, the early returns for a gone food or
  pursue target are unreachable right after the decision phase. They are modelled in
  `ExecuteBehaviour`, where `proceed` is false and no movement follows.
- Fish.FishAI.Update: it requires `dt >= 0`. It guarantees the speed bound only when
  the invariant held before the call, so it does not require sound settings.
- Fish.FishAI.DetectFood: while seeking, a live target is kept without re-checking its
  distance.
  - The comment on the state decision says the food is "in range (checked in
    DetectFood)"; the model follows the code, which does not re-check.
  - Colliders whose centre lies at or beyond radius² + 1 (squared) are skipped even
    though the overlap query reported them. The model follows the code.
