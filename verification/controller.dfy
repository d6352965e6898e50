/**
 The movement resolution of TDCharacterController2D: one call of Move turns a
 requested motion into the agent's next transform position, using one circle
 cast along the motion and, when the agent hits something at an angle, one
 overlap test at the end of a slide along the surface.
 */
module Controller {
  import opened Geometry
  import opened Physics

  /** What the component fixes in Awake: the agent's own collider, which the
      hit selection skips, and the minimum distance a move must cover. */
  datatype Agent = Agent(own: ColliderRef, minimumMovementThreshold: real)

  /** The inspector default of MinimumMovementThreshold. */
  const DefaultMinimumMovementThreshold: real := 0.1

  /** How far the contact point is pushed off the surface; a literal in the
      component, independent of MinimumMovementThreshold. */
  const CollisionNudge: real := 0.1

  /** Incidence angles smaller than this in magnitude count as head-on. */
  const HeadOnCutoff: real := 0.01

  /** The squared threshold cached in Awake, compared against squared
      lengths. Squaring forgets the sign: a negative threshold acts as its
      magnitude. */
  function SqrMinimumMovementThreshold(agent: Agent): (r: real)
    ensures r >= 0.0
  {
    agent.minimumMovementThreshold * agent.minimumMovementThreshold
  }

  /** The cached square is the square of the threshold's magnitude. */
  lemma SqrThresholdOfMagnitude(agent: Agent)
    ensures SqrMinimumMovementThreshold(agent)
         == Abs(agent.minimumMovementThreshold) * Abs(agent.minimumMovementThreshold)
  {
  }

  /** Only a zero threshold squares to zero. */
  lemma SqrThresholdIsPositive(agent: Agent)
    requires agent.minimumMovementThreshold != 0.0
    ensures SqrMinimumMovementThreshold(agent) > 0.0
  {
    SqrComparisonMatchesLength(agent, 0.0);
  }

  /** Comparing squares against the squared threshold compares the lengths
      themselves against the magnitude of the threshold. */
  lemma SqrComparisonMatchesLength(agent: Agent, length: real)
    requires length >= 0.0
    ensures length * length < SqrMinimumMovementThreshold(agent) <==> length < Abs(agent.minimumMovementThreshold)
  {
    var t := Abs(agent.minimumMovementThreshold);
    var ll, lt, tt := length * length, length * t, t * t;
    SqrThresholdOfMagnitude(agent);
    if length < t {
      assert ll <= lt < tt;
    } else {
      assert ll >= lt >= tt;
    }
  }

  /** `direction` and `distance` are what motion.normalized and
      motion.magnitude return: a unit vector and a length whose product is
      the motion, or the zero vector and 0 for a zero motion. */
  predicate IsPolarForm(motion: Vec2, direction: Vec2, distance: real) {
    && distance >= 0.0
    && motion == Scale(direction, distance)
    && (distance == 0.0 ==> direction == Zero)
    && (distance > 0.0 ==> IsUnit(direction))
  }

  /** The index of the first buffer entry whose collider is not `own`, in
      buffer order, or None when every entry belongs to `own`. */
  function FirstForeign(hits: seq<Hit>, own: ColliderRef): (r: Option<nat>)
    ensures r.Some? ==> r.value < |hits| && hits[r.value].collider != own
    ensures r.Some? ==> forall j :: 0 <= j < r.value ==> hits[j].collider == own
    ensures r.None? <==> forall j :: 0 <= j < |hits| ==> hits[j].collider == own
    decreases |hits|
  {
    if |hits| == 0 then None
    else if hits[0].collider != own then Some(0)
    else
      match FirstForeign(hits[1..], own)
      case None => None
      case Some(i) => Some(i + 1)
  }

  /** True when the hit selection can succeed; otherwise First() throws. */
  predicate HasForeignHit(cast: CastResult, own: ColliderRef) {
    FirstForeign(cast.buffer, own).Some?
  }

  /** The contact point reached after `fraction` of the cast, pushed off the
      surface along the hit normal: for a unit normal it lies exactly 0.1
      from the contact, straight out of the surface. */
  function PositionAtCollision(position: Vec2, direction: Vec2, distance: real, hit: Hit): (r: Vec2)
    ensures var offset := Sub(r, Add(position, Scale(direction, distance * hit.fraction)));
            && offset == Scale(hit.normal, CollisionNudge)
            && (IsUnit(hit.normal) ==>
                  Dot(offset, hit.normal) == CollisionNudge && SqrMagnitude(offset) == CollisionNudge * CollisionNudge)
  {
    var contact := Add(position, Scale(direction, distance * hit.fraction));
    var nudge := Scale(hit.normal, CollisionNudge);
    assert Sub(Add(contact, nudge), contact) == nudge;
    DotOfScale(hit.normal, CollisionNudge, hit.normal);
    Add(contact, nudge)
  }

  /** The normalized angle from the reversed motion direction to the surface
      normal: 0 for a head-on hit, near -1 or 1 for a grazing one. */
  function IncidenceAngle(direction: Vec2, hit: Hit): real {
    GetNormalizedAngle(Neg(direction), hit.normal)
  }

  predicate IsHeadOn(angle: real) {
    Abs(angle) < HeadOnCutoff
  }

  /** The motion left after the contact, scaled by how oblique the hit was. */
  function RemainingDistance(distance: real, fraction: real, angle: real): real {
    distance * (1.0 - fraction) * Abs(angle)
  }

  /** The turn whose sign is the angle's sign, +90 for a zero angle. */
  function SlideTurn(angle: real): (t: QuarterTurn)
    ensures (if t == Plus90 then angle else -angle) == Abs(angle)
  {
    if angle < 0.0 then Minus90 else Plus90
  }

  /** The surface normal turned a quarter towards the side the motion leans
      to: tangent to the surface and as long as the normal. */
  function SlideDirection(normal: Vec2, angle: real): (r: Vec2)
    ensures Dot(r, normal) == 0.0
    ensures SqrMagnitude(r) == SqrMagnitude(normal)
    ensures IsUnit(normal) ==> IsUnit(r)
  {
    RotateAboutBack(normal, SlideTurn(angle))
  }

  /** Where a hit sends the agent: the contact point, or the contact point
      plus a slide along the surface when the hit is oblique and the overlap
      test at the slide's end finds no collider. */
  function GetValidPositionFromCollision(position: Vec2, direction: Vec2, distance: real,
                                         hit: Hit, overlap: OverlapQuery): (r: Vec2)
    ensures var atCollision := PositionAtCollision(position, direction, distance, hit);
            var angle := IncidenceAngle(direction, hit);
            var slide := Scale(SlideDirection(hit.normal, angle),
                               RemainingDistance(distance, hit.fraction, angle));
            && (IsHeadOn(angle) ==> r == atCollision)
            && (!IsHeadOn(angle) && overlap(Add(atCollision, slide)) != NoCollider ==> r == atCollision)
            && (!IsHeadOn(angle) && overlap(Add(atCollision, slide)) == NoCollider ==> r == Add(atCollision, slide))
    // the agent never ends up deeper into the surface than the contact point
    ensures Dot(Sub(r, PositionAtCollision(position, direction, distance, hit)), hit.normal) == 0.0
  {
    var atCollision := PositionAtCollision(position, direction, distance, hit);
    var angle := IncidenceAngle(direction, hit);
    if IsHeadOn(angle) then atCollision
    else
      var remaining := RemainingDistance(distance, hit.fraction, angle);
      var adjusted := Scale(SlideDirection(hit.normal, angle), remaining);
      DotOfScale(SlideDirection(hit.normal, angle), remaining, hit.normal);
      if overlap(Add(atCollision, adjusted)) != NoCollider then atCollision
      else Add(atCollision, adjusted)
  }

  /** The position one step of `motion` leads to from `position`: the full
      motion when the cast reports nothing, otherwise the position the first
      hit not on the agent's own collider allows. */
  function GetNewPosition(agent: Agent, position: Vec2, motion: Vec2, direction: Vec2, distance: real,
                          cast: CastResult, overlap: OverlapQuery): (r: Vec2)
    requires IsPolarForm(motion, direction, distance)
    requires cast.count == 0 || HasForeignHit(cast, agent.own)
    ensures cast.count == 0 ==> r == Add(position, motion)
    ensures cast.count != 0 ==>
              exists i :: 0 <= i < |cast.buffer| && cast.buffer[i].collider != agent.own &&
                          r == GetValidPositionFromCollision(position, direction, distance, cast.buffer[i], overlap)
  {
    if cast.count == 0 then Add(position, motion)
    else
      var hit := cast.buffer[FirstForeign(cast.buffer, agent.own).value];
      GetValidPositionFromCollision(position, direction, distance, hit, overlap)
  }

  /** Lines 45-49 of Move: the resolved position takes the transform's z and
      is written back only when it lies at least the minimum movement
      threshold away from the transform. */
  function CommitPosition(agent: Agent, transform: Vec3, newPosition: Vec2): (r: Vec3)
    ensures r.z == transform.z
    ensures var step := SqrMagnitude(Sub(newPosition, Flatten(transform)));
            && (step < SqrMinimumMovementThreshold(agent) ==> r == transform)
            && (step >= SqrMinimumMovementThreshold(agent) ==> Flatten(r) == newPosition)
    // a committed move always covers at least the threshold
    ensures r == transform || SqrMagnitude3(Sub3(r, transform)) >= SqrMinimumMovementThreshold(agent)
  {
    var lifted := Lift(newPosition, transform.z);
    if SqrMagnitude3(Sub3(lifted, transform)) < SqrMinimumMovementThreshold(agent) then transform
    else lifted
  }

  /** The transform position after Move(motion): the new position with the
      original z, unless it lies closer than the minimum movement threshold,
      in which case the transform does not move. */
  function Move(agent: Agent, transform: Vec3, motion: Vec2, direction: Vec2, distance: real,
                cast: CastResult, overlap: OverlapQuery): (r: Vec3)
    requires IsPolarForm(motion, direction, distance)
    requires cast.count == 0 || HasForeignHit(cast, agent.own)
    ensures r.z == transform.z
    ensures r == transform
         || Flatten(r) == GetNewPosition(agent, Flatten(transform), motion, direction, distance, cast, overlap)
    ensures r == transform || SqrMagnitude3(Sub3(r, transform)) >= SqrMinimumMovementThreshold(agent)
  {
    CommitPosition(agent, transform,
                   GetNewPosition(agent, Flatten(transform), motion, direction, distance, cast, overlap))
  }
}
