# TDCharacterController2D movement resolution in Dafny

This project models the movement core of the Unity component
`TDCharacterController2D`. A call to `Move(motion)` does four things:

- It casts the agent's circle along the motion. The cast fills a two-slot hit buffer.
- It picks the first hit that is not on the agent's own collider.
- It puts the agent at the contact point, pushed 0.1 off the surface.
- If the hit is oblique, it also slides the agent along the surface. The slide is taken only when a single overlap test at the slide's end finds nothing there.

The resolved position is written back to the transform only if it lies at least
the magnitude of `MinimumMovementThreshold` away from where the transform already
is. The guard compares squares, so a negative threshold acts as its magnitude.

Coordinates are exact reals. The two Physics2D queries become inputs:

- the cast is a `CastResult`: the count it returned plus the whole two-slot buffer;
- the overlap test is a function from the tested centre to the collider found there, where `NoCollider` stands for null.

The quarter turn `Quaternion.AngleAxis(±90, Vector3.back)` is written out as a
formula. `motion.normalized` and `motion.magnitude` become the inputs
`direction` and `distance`, tied to `motion` by `Controller.IsPolarForm`.

Files:

- `geometry.dfy` (`Geometry`): vectors, the perp-dot `GetNormalizedAngle`, the quarter turn, and small ordered-field lemmas.
- `physics.dfy` (`Physics`): the shapes of the engine's answers — collider references, hits, cast results and overlap queries.
- `controller.dfy` (`Controller`): `GetValidPositionFromCollision`, `GetNewPosition` and `Move`, plus the pieces they are built from.
- `properties.dfy` (`ControllerProperties`): the properties of one step — branch outcomes, slide bounds, the no-overshoot bound and the threshold guard.
- `scenarios.dfy` (`ControllerScenarios`): two concrete steps worked through the model. One hits a wall head-on; the other grazes a floor.

A few consequences of the code are worth stating plainly:

- A zero motion with a reported hit is still pushed 0.1 along the normal (`ControllerProperties.ZeroMotionIsPushedOut`).
- The slide is checked by one overlap test.
- The nudge is the literal 0.1, independent of the threshold.
- `GetNormalizedAngle(a, b)` is 1 when b is a's clockwise quarter turn, which is b to the right of a with y pointing up, and -1 when b is a quarter turn to the left (`Geometry.AngleOfPerpendicular`, `Geometry.AngleOfRightTurn`). The doc comment at line 84 says "-1 and 1 mean that b is 90 degrees right or left from a". Read in that order, it gives the signs the other way round. The slide at line 76 relies on the sign the code computes: the turn it picks always leans with the motion (`ControllerProperties.SlideFollowsMotion`).

Three behaviours of the code are stated as lemmas rather than corrected:

- Line 60 scans the whole buffer whatever the count is, so a slot left over from an earlier cast can be resolved (`ControllerProperties.StaleSlotIsResolved`).
- A slot no cast has written holds a null collider, which line 60 does not skip. Resolving it leaves the agent where it is (`ControllerProperties.UnwrittenSlotHoldsStill`).
- The overlap test at line 79 does not skip the agent's own collider (`ControllerProperties.OwnColliderRefusesSlide`).

## Model

| member | source | states |
|---|---|---|
| Geometry.GetNormalizedAngle | Assets/TDCharacterController2D.cs:85-87 | The perp-dot product -a.x*b.y + a.y*b.x. It has no contract of its own; the lemmas below state its meaning. |
| Geometry.AngleIsTurnedDot | Assets/TDCharacterController2D.cs:84-87 | The angle is b's component along a turned a quarter clockwise, and minus its component along a turned a quarter counter-clockwise. |
| Geometry.AngleOfSelfIsZero | Assets/TDCharacterController2D.cs:84-87 | The normalized angle of a vector with itself is 0 ("0 means they are the same"). |
| Geometry.AngleIsAntisymmetric | Assets/TDCharacterController2D.cs:84-87 | Swapping the arguments negates the angle. |
| Geometry.AngleOfNegation | Assets/TDCharacterController2D.cs:69 | Reversing the first argument, as line 69 does with `-direction`, negates the angle. |
| Geometry.AngleAndDot | Assets/TDCharacterController2D.cs:84-87 | The squared angle plus the squared dot product is the product of the squared lengths, so for unit vectors the angle is the sine of the angle between them. |
| Geometry.AngleIsBounded | Assets/TDCharacterController2D.cs:84-87 | For unit vectors the normalized angle lies in [-1, 1]. |
| Geometry.AngleOfQuarterTurn | Assets/TDCharacterController2D.cs:84-87 | From a to its clockwise quarter turn the angle is a's squared length; to its counter-clockwise quarter turn it is minus that. |
| Geometry.AngleOfPerpendicular | Assets/TDCharacterController2D.cs:84-87 | Perpendicular unit vectors give exactly -1 or 1. The angle is 1 exactly when b is a's clockwise quarter turn (to the right), and -1 exactly when b is the counter-clockwise one (to the left). |
| Geometry.AngleOfRightTurn | Assets/TDCharacterController2D.cs:84-87 | In Unity's y-up axes, from up (0, 1) to right (1, 0) the angle is 1, not -1. |
| Geometry.RotateAboutBack | Assets/TDCharacterController2D.cs:76 | A quarter turn about Vector3.back, (x, y) to (y, -x) for +90 and (-y, x) for -90. It is perpendicular to its input and keeps its length. |
| Geometry.RotationInverse | Assets/TDCharacterController2D.cs:76 | Turning -90 degrees undoes a +90 degree turn, and the reverse. |
| Geometry.RotationsAreOpposite | Assets/TDCharacterController2D.cs:76 | The -90 and +90 degree turns of a vector point in opposite directions. |
| Controller.SqrMinimumMovementThreshold | Assets/TDCharacterController2D.cs:26 | The squared threshold cached in Awake is never negative, whatever the sign of the threshold. |
| Controller.SqrThresholdOfMagnitude | Assets/TDCharacterController2D.cs:26 | The cached square is the square of the threshold's magnitude. |
| Controller.SqrThresholdIsPositive | Assets/TDCharacterController2D.cs:26 | Any non-zero threshold, negative ones included, gives a positive square. |
| Controller.SqrComparisonMatchesLength | Assets/TDCharacterController2D.cs:26 | For any threshold, comparing a non-negative length's square against the cached square is the same as comparing the length against the threshold's magnitude. |
| Controller.FirstForeign | Assets/TDCharacterController2D.cs:60 | Returns the index of the first buffer entry whose collider is not the agent's, with every earlier entry the agent's own. It returns none exactly when every entry is the agent's own, which is when `First()` would throw. |
| Controller.PositionAtCollision | Assets/TDCharacterController2D.cs:66-67 | The contact point reached after `fraction` of the cast, pushed along the normal. The push is normal*0.1: for a unit normal it is exactly 0.1 long and points straight out of the surface. |
| Controller.IncidenceAngle | Assets/TDCharacterController2D.cs:69 | The normalized angle from the reversed motion direction to the hit normal. |
| Controller.RemainingDistance | Assets/TDCharacterController2D.cs:73-74 | distance*(1 - fraction) times the angle's magnitude: the motion left after the contact, scaled by how oblique the hit is. Its bounds are stated in `ControllerProperties.RemainingDistanceBounds`. |
| Controller.SlideTurn | Assets/TDCharacterController2D.cs:76 | The turn's sign is the angle's sign: the angle times the turn's sign is the angle's magnitude, with +90 for a zero angle. |
| Controller.SlideDirection | Assets/TDCharacterController2D.cs:76 | The normal turned by that quarter turn. It is tangent to the surface and as long as the normal, so it is a unit vector for a unit normal. |
| Controller.GetValidPositionFromCollision | Assets/TDCharacterController2D.cs:65-82 | There are three outcomes: a head-on hit gives the contact point; an oblique hit whose slide end is occupied gives the contact point; an oblique hit with a clear slide end gives the contact point plus the slide. In every case the result lies on the line through the nudged contact point along the surface, never deeper in. |
| Controller.GetNewPosition | Assets/TDCharacterController2D.cs:52-63 | With a zero hit count the result is position plus motion. Otherwise it is the collision resolution of some buffer entry that is not on the agent's own collider. |
| Controller.CommitPosition | Assets/TDCharacterController2D.cs:44-49 | The transform keeps its z. It stays put when the planar step to the new position is shorter than the threshold, and otherwise takes the new x and y. Any committed move covers at least the threshold. |
| Controller.Move | Assets/TDCharacterController2D.cs:43-50 | The transform keeps its z. It either stays put or moves to the resolved position, and any move it makes covers at least the squared threshold. |
| ControllerProperties.PolarFormLength | Assets/TDCharacterController2D.cs:53-54 | The squared length of the motion is the square of its distance. |
| ControllerProperties.NoHitMovesFreely | Assets/TDCharacterController2D.cs:56-58 | With a zero hit count the step is exactly position plus motion. It does not depend on the overlap test, and it covers the whole distance. |
| ControllerProperties.SelectedHitIsFirstForeign | Assets/TDCharacterController2D.cs:60-62 | The resolved hit is not on the agent's own collider, and every buffer entry before it is. |
| ControllerProperties.SelectionIgnoresCount | Assets/TDCharacterController2D.cs:58-60 | Two casts with the same buffer and non-zero counts resolve to the same position, whatever the counts are. |
| ControllerProperties.StaleSlotIsResolved | Assets/TDCharacterController2D.cs:56-60 | When the one reported hit is the agent's own collider, the second slot, left over from an earlier cast, is the one resolved. |
| ControllerProperties.EmptyHitKeepsPosition | Assets/TDCharacterController2D.cs:65-71 | A default hit entry (no collider, fraction 0, zero normal) resolves to the current position, whatever the motion and the overlap test. |
| ControllerProperties.UnwrittenSlotHoldsStill | Assets/TDCharacterController2D.cs:56-62 | When the one reported hit is the agent's own collider and the second slot was never written, line 60 selects that slot, and the step resolves to the current position. |
| ControllerProperties.HeadOnStopsAtContact | Assets/TDCharacterController2D.cs:66-71 | A head-on hit (angle magnitude below 0.01) gives exactly position + direction*(distance*fraction) + normal*0.1, whatever the overlap test says. |
| ControllerProperties.ZeroMotionIsPushedOut | Assets/TDCharacterController2D.cs:52-71 | A zero motion with a reported foreign hit is not short-circuited: the agent is pushed 0.1 along that hit's normal. |
| ControllerProperties.RemainingDistanceBounds | Assets/TDCharacterController2D.cs:73-74 | For a fraction in [0, 1] and an angle of magnitude at most 1, the remaining distance lies between 0 and distance*(1 - fraction). Outside the head-on branch it is at least 0.01 of that rest. |
| ControllerProperties.RemainingDistanceMonotone | Assets/TDCharacterController2D.cs:73-74 | The remaining distance never decreases with the magnitude of the angle. It strictly increases while motion is left after the contact. |
| ControllerProperties.SlideFollowsMotion | Assets/TDCharacterController2D.cs:69-76 | The sign choice turns the normal towards the motion: the slide direction's component along the motion equals the magnitude of the angle, which is never negative. |
| ControllerProperties.IncidenceAngleIsBounded | Assets/TDCharacterController2D.cs:69 | For a unit direction and a unit normal the incidence angle has magnitude at most 1. |
| ControllerProperties.OwnColliderRefusesSlide | Assets/TDCharacterController2D.cs:79 | If the overlap test at the slide's end reports the agent's own collider, the slide is refused and the agent stops at the contact point. |
| ControllerProperties.SlideStaysWithinRemaining | Assets/TDCharacterController2D.cs:77-81 | For a unit normal the result is either the contact point or exactly the remaining distance away from it, and never further. |
| ControllerProperties.ContactReach | Assets/TDCharacterController2D.cs:66-67 | Against a surface facing the motion, the nudged contact point lies at most distance*fraction along the motion. |
| ControllerProperties.SlideReach | Assets/TDCharacterController2D.cs:73-77 | For a genuine hit, the slide advances at most distance*(1 - fraction) along the motion. |
| ControllerProperties.NoOvershoot | Assets/TDCharacterController2D.cs:65-82 | Against a surface facing the motion, a resolved step never carries the agent further along the motion than the requested distance. |
| ControllerProperties.CommitStaysIffBelowThreshold | Assets/TDCharacterController2D.cs:44-49 | The transform stays put exactly when the resolved position equals its current x/y or lies closer than the threshold. |
| ControllerProperties.MoveStaysIffBelowThreshold | Assets/TDCharacterController2D.cs:43-50 | For a positive threshold, Move leaves the transform unchanged exactly when the resolved position's squared distance from it is below the squared threshold. |
| ControllerProperties.ShortFreeMotionIsDropped | Assets/TDCharacterController2D.cs:43-58 | With no hits and a non-zero threshold, the transform stays put exactly when the motion is shorter than the threshold's magnitude. Otherwise it lands at position plus motion, with z unchanged. |
| ControllerProperties.ZeroThresholdAlwaysCommits | Assets/TDCharacterController2D.cs:47-49 | With a zero threshold, Move always writes the resolved position, keeping z. |
| ControllerScenarios.CommitFromOrigin | Assets/TDCharacterController2D.cs:47-49 | With the default threshold 0.1, a step from the origin to a point at least 0.1 along x is committed. |
| ControllerScenarios.HeadOnCollision | Assets/TDCharacterController2D.cs:65-71 | A wall with normal (-1, 0), hit halfway through a two-unit move along +x, stops the agent at (0.9, 0). |
| ControllerScenarios.HeadOnMove | Assets/TDCharacterController2D.cs:43-71 | For the same wall, the whole Move takes the transform from the origin to (0.9, 0, 0), whatever the overlap test says. |
| ControllerScenarios.GrazingSlide | Assets/TDCharacterController2D.cs:65-81 | A floor with normal (0, 1), grazed halfway, slides the agent along it by the whole remaining unit to (2, 0.1) when that point is clear. |
| ControllerScenarios.GrazingBlocked | Assets/TDCharacterController2D.cs:65-79 | The same graze leaves the agent at the contact point (1, 0.1) when the slide end is occupied. |
| ControllerScenarios.GrazingMove | Assets/TDCharacterController2D.cs:43-81 | The whole Move on that floor ends at (2, 0.1, 0) with a clear slide end and at (1, 0.1, 0) otherwise. |

## Left out

- `Awake` and `SetRigidbodyKinematic` (lines 21-40): component lookup, the kinematic rigidbody setup and the log warning are host wiring. What `Awake` fixes is the agent's own collider and the threshold, which the model carries in `Controller.Agent`. The squared threshold is computed on demand by `Controller.SqrMinimumMovementThreshold`.
- `Physics2D.CircleCastNonAlloc` and `Physics2D.OverlapCircle` (lines 56 and 79): engine collision detection is not modelled. Their results are inputs. The radius, `RadiusBuffer` and `CollisionLayers` only feed these queries, so they live inside the inputs.
- `Quaternion.AngleAxis`: only its effect on a planar vector, a quarter turn about (0, 0, -1), is modelled.
- Floating-point rounding: all arithmetic is exact, and the literals `0.1f` and `0.01f` are the exact reals 0.1 and 0.01.
- `Vector2.normalized` and `Vector2.magnitude`: the square root is not modelled. `direction` and `distance` are inputs satisfying `Controller.IsPolarForm`. Unity's rule that a vector too short to normalize gives the zero vector is not modelled either.
- The exception `First()` throws when every buffer entry is the agent's own collider: `GetNewPosition` and `Move` require `Controller.HasForeignHit` whenever the count is non-zero, instead of modelling the exception.
- Writing `Transform.position`: `Move` returns the transform position after the call instead of assigning it.
- `ControllerProperties.MoveStaysIffBelowThreshold`: requires a positive squared threshold. With a zero threshold, a step that resolves to the current position leaves the transform equal to itself without being below the threshold. `ControllerProperties.CommitStaysIffBelowThreshold` states the general case.
- `ControllerProperties.ShortFreeMotionIsDropped`: requires a non-zero threshold. With a zero threshold, a zero motion leaves the transform equal to itself, yet its length 0 is not below the threshold. Negative thresholds are covered: the bound is the threshold's magnitude.
- `ControllerProperties.NoOvershoot`: assumes a unit direction, a genuine hit and a surface facing the motion. The code itself promises nothing for other hits.
