/**
 The shapes of the answers the physics engine gives the controller. The
 engine's collision detection itself is not modelled: a circle cast is
 represented by the buffer it fills and the count it returns, and an overlap
 test by a function from the tested centre to the collider found there.
 */
module Physics {
  import opened Geometry

  datatype Option<T> = None | Some(value: T)

  /** A reference to a Collider2D, which may be null. */
  datatype ColliderRef = NoCollider | Collider(id: nat)

  /** One entry of a RaycastHit2D buffer. A default-constructed entry has no
      collider, a zero fraction and a zero normal. */
  datatype Hit = Hit(collider: ColliderRef, fraction: real, normal: Vec2)

  const EmptyHit: Hit := Hit(NoCollider, 0.0, Zero)

  /** The controller owns one buffer with room for two hits. */
  const HitBufferSize: nat := 2

  /** The result of CircleCastNonAlloc: the number of hits it wrote, and the
      whole buffer, whose slots from `count` on still hold whatever an earlier
      cast left there. */
  datatype CastResult = CastResult(count: nat, buffer: seq<Hit>)

  /** What the engine guarantees about a cast result: a full-size buffer and a
      count that fits in it. */
  predicate WellFormedCast(c: CastResult) {
    |c.buffer| == HitBufferSize && c.count <= HitBufferSize
  }

  /** What a genuine contact reports: a fraction of the cast distance in
      [0, 1] and a unit surface normal. */
  predicate GenuineHit(h: Hit) {
    0.0 <= h.fraction <= 1.0 && IsUnit(h.normal)
  }

  /** OverlapCircle at a given centre, with the agent's radius and collision
      layers fixed: the collider found there, or NoCollider for null. */
  type OverlapQuery = Vec2 -> ColliderRef
}
