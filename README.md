# Balls and walls: a model of the quicksilver/nphysics demo

The demo is an interactive 2D sandbox. Dragging the left mouse button in ball mode inserts a
dynamic disc. Its radius is drawn as 5 + 15·scale for a random scale in [0, 1), and its
velocity is twice the drag vector. Dragging in wall mode (key W), or dragging the right button
in either mode, inserts a static axis-aligned wall spanning the dragged rectangle. Every frame
the physics step walks the engine's contact events and rewrites velocities:

- when either body of a started contact is a cuboid, both velocities are reflected about the
  deepest contact normal;
- when both are discs, the one-dimensional elastic-collision formulas are applied along the
  line between the centres.

The model has four modules:

- `Vectors` (vectors.dfy): 2D vectors over the reals.
- `Collision` (collision.dfy): the closed-form responses as pure functions.
  - Reflection `v - 2 (v·n) n`.
  - The axial formulas `AxialElastic`.
  - The full 2D disc response `DiscResponse`.
  - The collision axis.
  - Each comes with its law: sign flip of the normal component, speed kept, involution, tangent
    kept, momentum and energy conserved, equal masses swap.
- `Physics` (physics.dfy): the physics wrapper.
  - The scene is a `seq<Body>`; a handle is an index into it.
  - `class Physics` has the insertion methods `AddBall` and `AddWall`.
  - Its step loop `Step` is proved against the pure specification `ApplyEvents`/`ApplyEvent`.
  - Proved about those: the dispatch lemmas, conservation of the scene's kinetic energy for
    every physically well-formed event, and conservation of momentum for disc–disc contacts.
- `Interaction` (interaction.dfy): the application state of main.rs.
  - `GetRect`, the drag rectangle.
  - The input state machine as a pure transition function `Next(state, event, mouse, scale)`,
    returning the new state and the bodies it appends.
  - `class DrawGeometry`, whose `Event` method updates its fields in place. It is proved to agree
    with `Next`, and to keep the invariant that every inserted body is well formed.

Things the source reads from its environment become parameters:

- the mouse position;
- the random draw (`scale`, with 0 <= scale < 1);
- the engine's contact events. A `ContactEvent` carries:
  - the handles;
  - the contact pair, absent when the engine has none;
  - the deepest contact normal;
  - the two bodies' current centres. A disc's `pos` is only where it was inserted, because the
    engine's integration, which moves it, is not modelled;
  - for the disc branch, the unit centre-line axis.

`IsCollisionAxis` states which vector that axis must be, in both directions. It is a unit
vector, parallel to `centre1 - centre2` and pointing the same way, exactly when it is
`(centre1 - centre2)/|centre1 - centre2|`.

Where the documented intent and the code differ, the model follows the code:

- The documented intent is that every ball's radius lies in [5, 20]. The code only draws a
  radius on a ball-mode left press, and it reads the mode again at release. Pressing W, then
  the left button, then B, then releasing, from the initial state, therefore calls `add_ball`
  with radius 0.0 at the initial point (0, 0). This is `Interaction.StaleRadiusBall`; see
  "## Findings". After an earlier ball drag, the same sequence instead appends a ball with the
  stale radius and at the stale press point of that drag, with a velocity measured from that
  point (`Interaction.ModeSwitchReusesLastBall`). What ncollide's `Ball::new` and
  nphysics's `RigidBodyDesc::mass` do with a zero radius and mass is outside the model.
- The invariant the code actually keeps is `rad == 0 || 5 <= rad < 20` (`Interaction.RadiusOk`).

## Model

| member | source | states |
|---|---|---|
| Collision.Reflect | src/physics.rs:103 | the reflection `v - 2 (v·n) n` scales the normal component by 1 - 2 abs(n)², so negates it for a unit normal; the Reflect lemmas below pin the rest |
| Collision.ReflectFlipsNormal | src/physics.rs:102-104 | reflecting about a unit normal negates the velocity's normal component |
| Collision.ReflectKeepsTangent | src/physics.rs:102-104 | any component orthogonal to the normal is unchanged by the reflection |
| Collision.ReflectInvolutive | src/physics.rs:116-118 | reflecting twice about the same unit normal gives back the original velocity |
| Collision.ReflectKeepsSpeed | src/physics.rs:116-118 | the reflection about a unit normal keeps the speed |
| Collision.ReflectZero | src/physics.rs:48-52 | a body at rest (a static wall) stays at rest when reflected |
| Collision.AxialElastic | src/physics.rs:151-154 | the final axial velocities conserve axial momentum m1 u1 + m2 u2 |
| Collision.AxialImpulse | src/physics.rs:151-154 | the formulas exchange an impulse: w1 = u1 + 2 m2 q and w2 = u2 - 2 m1 q with q = (u2 - u1)/(m1 + m2) |
| Collision.AxialElasticKeepsEnergy | src/physics.rs:151-154 | the axial formulas conserve kinetic energy m1 u1² + m2 u2² |
| Collision.AxialElasticEqualMassSwaps | src/physics.rs:151-154 | with equal positive masses the two axial velocities are exchanged |
| Collision.DiscResponse | src/physics.rs:148-157 | each disc's velocity changes only along the axis |
| Collision.DiscResponseAxial | src/physics.rs:148-157 | along a unit axis the new velocities' axial components are exactly the 1-D formulas' results |
| Collision.DiscResponseKeepsPerpendicular | src/physics.rs:156-157 | components perpendicular to the axis are preserved for both discs |
| Collision.DiscResponseKeepsMomentum | src/physics.rs:148-157 | the pair's 2D momentum m1 v1 + m2 v2 is conserved |
| Collision.DiscResponseKeepsEnergy | src/physics.rs:148-157 | with a unit axis the pair's kinetic energy m1 abs(v1)² + m2 abs(v2)² is conserved |
| Collision.DiscResponseEqualMassSwaps | src/physics.rs:148-157 | two discs of equal mass exchange their axial velocity components |
| Collision.IsCollisionAxis | src/physics.rs:143-146 | the normalised centre difference: a unit vector parallel to p1 - p2 and pointing the same way; pinned both ways by the next two lemmas |
| Collision.CollisionAxisIsCentreLine | src/physics.rs:143-146 | a collision axis implies distinct centres, and the centre difference is the axis scaled by its projection |
| Collision.CentreLineIsCollisionAxis | src/physics.rs:143-146 | every unit vector that is a positive multiple of p1 - p2 is a collision axis |
| Physics.Velocity | src/physics.rs:102 | the linear velocity read from a body: a disc's own velocity, and zero for a static wall |
| Physics.WithVelocity | src/physics.rs:104 | setting a velocity changes nothing but the velocity, and a disc gets exactly the given one |
| Physics.NewBall | src/physics.rs:27-46 | the inserted disc has the given position, velocity and radius and mass pi r² |
| Physics.NewWall | src/physics.rs:48-64 | the inserted wall is centred at (x, y) with half-extents half the width and height |
| Physics.IsCuboid | src/physics.rs:85-86 | a body's shape is a cuboid exactly when it is a wall |
| Physics.EventDefined | src/physics.rs:95-152 | the response is defined: for a started contact with a pair, both handles name bodies of the scene (the `unwrap`s at lines 95-134), and a disc pair's mass sum, the divisor at line 152, is positive; it is the precondition of the step |
| Physics.EventPhysical | src/physics.rs:88-146 | what the energy and momentum lemmas assume: two distinct bodies, a unit deepest-contact normal (line 92), and for two discs an axis that is the normalised difference of the current centres the event reports (lines 138-146) |
| Physics.ApplyEvent | src/physics.rs:71-182 | one event's response changes only velocities, and only those of the two bodies named |
| Physics.ApplyEvents | src/physics.rs:67-183 | a sequence of responses changes only velocities |
| Physics.ApplyEventsFirst | src/physics.rs:67-183 | after the first event's response the remaining events stay defined and complete the step |
| Physics.StoppedChangesNothing | src/physics.rs:181 | a stopped contact leaves the scene unchanged |
| Physics.MissingContactSkipped | src/physics.rs:73-91 | a started contact without a contact pair, or a cuboid contact without a deepest contact, changes nothing |
| Physics.CuboidContactReflects | src/physics.rs:85-119 | with a cuboid involved both velocities are reflected about the normal: normal components flip, speeds are kept |
| Physics.DiscContactExchanges | src/physics.rs:120-177 | two discs both get the disc response, computed from their velocities before the event |
| Physics.EventKeepsEnergy | src/physics.rs:72-180 | every physically well-formed event keeps the scene's total kinetic energy |
| Physics.DiscEventKeepsMomentum | src/physics.rs:120-177 | a disc–disc contact keeps the scene's total momentum |
| Physics.EventsKeepEnergy | src/physics.rs:67-183 | a whole step of well-formed events keeps the scene's total kinetic energy |
| Physics.Physics.constructor | src/main.rs:76-88 | the wrapper starts with an empty scene |
| Physics.Physics.AddBall | src/physics.rs:27-46 | appends exactly the disc NewBall describes, keeping mass equal to pi r² for every disc |
| Physics.Physics.AddWall | src/physics.rs:48-64 | appends exactly the wall NewWall describes |
| Physics.Physics.Step | src/physics.rs:66-183 | the loop's final scene is ApplyEvents of the events in order; only velocities change; kinetic energy is kept when every event is well formed |
| Physics.Physics.Respond | src/physics.rs:71-182 | the loop body's in-place update produces exactly ApplyEvent |
| Interaction.ToScene | src/main.rs:134 | the scene point keeps x and flips y against the window height |
| Interaction.GetRect | src/main.rs:41-67 | non-negative half-extents, and the rectangle runs from the smaller to the larger corner coordinate on each axis |
| Interaction.GetRectSymmetric | src/main.rs:41-67 | swapping the two corners gives the same rectangle |
| Interaction.RectWall | src/main.rs:150 | the wall for a rectangle is centred at its centre with its half-extents (the doubled half sizes halved again by `add_wall`); used on the right release at line 182 too |
| Interaction.RectWallCoversDrag | src/main.rs:148-150 | the inserted wall covers exactly the dragged rectangle |
| Interaction.InitialInput | src/main.rs:106-115 | ball mode, no button down, both points at the origin, radius 0; it meets the radius invariant and, with no left drag latched, the corrected machine's invariant |
| Interaction.Next | src/main.rs:123-214 | an event appends at most one body, and only on a left or right button release |
| Interaction.ButtonsDebounced | src/main.rs:130-186 | a press while the button is down, or a release while it is up, changes nothing |
| Interaction.OtherInputIgnored | src/main.rs:124-212 | held and not-pressed states, the middle button, other keys and other events change nothing |
| Interaction.KeysSelectMode | src/main.rs:190-208 | W selects wall mode and B ball mode, whatever the key state, and nothing else changes |
| Interaction.BallPress | src/main.rs:135-141 | a ball-mode left press records the scene point and a radius in [5, 20) |
| Interaction.CornerPress | src/main.rs:131-175 | a wall-mode left press, or any right press, records the first corner and marks the button down |
| Interaction.BallRelease | src/main.rs:151-159 | a ball-mode left release appends one disc at the recorded point and radius, with twice the drag as velocity |
| Interaction.WallRelease | src/main.rs:144-183 | a wall-mode left release, or any right release, appends one wall spanning the first corner and the release point |
| Interaction.BallDrag | src/main.rs:131-159 | a whole ball drag in screen terms gives velocity (2 (q.x - p.x), 2 (p.y - q.y)) and a radius in [5, 20) |
| Interaction.RightDragAddsWall | src/main.rs:165-187 | a whole right drag in either mode gives one wall exactly covering the dragged rectangle |
| Interaction.NextKeepsInvariant | src/main.rs:123-214 | every event keeps the radius invariant and appends only well-formed bodies |
| Interaction.StaleRadiusBall | src/main.rs:131-159 | from the initial state, W, left press, B, left release appends a ball of radius 0 at the origin |
| Interaction.ModeSwitchReusesLastBall | src/main.rs:131-159 | from any state with the left button up, W, left press, B, left release appends a ball at the stored press point with the stored radius and a velocity measured from that point |
| Interaction.NextLatched | src/main.rs:131-160 | the corrected transition: the left release dispatches on the mode its press saw; at most one body per event |
| Interaction.NextLatchedBallsSized | src/main.rs:131-160 | under the corrected transition every event keeps the latch invariant and every appended ball has a radius in [5, 20) |
| Interaction.RunLatched | src/main.rs:123-214 | the corrected machine over a run of window inputs: the final state and every body appended, in order |
| Interaction.RunLatchedBallsSized | src/main.rs:131-160 | from any state meeting the latch invariant, no run appends a ball outside [5, 20) |
| Interaction.LatchedRunsSizeBalls | src/main.rs:106-160 | from the initial state, every ball of every run of the corrected machine has a radius in [5, 20) |
| Interaction.NextLatchedAgrees | src/main.rs:123-214 | without a mode switch during a left drag the corrected transition gives exactly Next's state and bodies |
| Interaction.LatchedModeSwitchAddsWall | src/main.rs:131-160 | the sequence W, left press, B, left release appends a wall and no ball under the corrected transition |
| Interaction.BoundaryWalls | src/main.rs:90-97 | four well-formed walls: two 1200 wide and 20 high, then two 20 wide and 900 high, whose inner faces are at y = 20, y = 840, x = 20 and x = 1180 |
| Interaction.DrawGeometry.constructor | src/main.rs:72-116 | the scene starts with the four boundary walls, in ball mode with no button down |
| Interaction.DrawGeometry.Update | src/main.rs:118-121 | a frame's update is the physics step's contact response and keeps the state valid |
| Interaction.DrawGeometry.Event | src/main.rs:123-214 | the fields change as Next prescribes and the scene grows by exactly Next's bodies |
| Interaction.DrawGeometry.LeftButton | src/main.rs:126-164 | the left-button arm updates fields and scene as Next prescribes for a left-button event |
| Interaction.DrawGeometry.RightButton | src/main.rs:165-187 | the right-button arm updates fields and scene as Next prescribes for a right-button event |

## Findings

| source | as written | input that shows it | evidently intended | confidence | as-written member | corrected member |
|---|---|---|---|---|---|---|
| src/main.rs:131-160 | the left release re-reads `is_wall`, so a drag started in wall mode ends as a ball with the radius never drawn (0.0 initially, src/main.rs:110) | W, left press, B, left release from the initial state | a left drag ends as the kind it started as, so every ball's radius is in [5, 20) | likely; not executed | Interaction.StaleRadiusBall | Interaction.LatchedRunsSizeBalls |

The as-written transition `Next` stays the model of the code: `DrawGeometry.Event` is proved
against it. `NextLatched` records the mode when the left press happens and dispatches the
release on it. `NextLatchedAgrees` shows that it differs from `Next` only when the mode is
switched during a left drag.

## Left out

- Drawing, the window, fonts and the status text asset (`draw`, `state_text`, `run`, `Settings`) are output only and are not modelled.
- The engine's integration step (`mechanical_world.step`, src/physics.rs:185-191) is not modelled. It moves bodies, resolves penetration and applies the engine's own contact forces, and it is part of nphysics rather than this repository.
- Contact detection is not modelled: the event stream, `contact_pair`, the manifold and its deepest contact come from ncollide. They are inputs to `Physics.Physics.Step`. Collider handles and body handles are identified, and a body's handle is its index in the scene.
- The mouse position and the random number generator are parameters of `Event` (`mouse`, `scale`).
- The `Result` plumbing and the `unwrap`/`downcast` calls are not modelled. In the source they cannot fail for bodies the demo inserted.
- Single-precision arithmetic is not modelled: the model uses exact reals, and so it ignores rounding, NaN and infinities. In particular 5 + 15·scale can round to exactly 20.0 in f32, which the model's bound `< 20` does not capture.
- `PI` is a fixed real close to pi, not the f32 constant. No proof depends on its value.
- Physics.ApplyEvent: requires the two masses of a disc pair to have a positive sum, because the source divides by that sum. `add_ball` can be called with radius 0 (`Interaction.StaleRadiusBall`); what mass the engine then gives the body, and so whether such a sum can be zero, is outside the model.
- Physics.ApplyEvent: the disc branch's axis is supplied with the event instead of being computed with a square root from the current centres. The centres are supplied with the event too. `EventPhysical` and `IsCollisionAxis` state which axis those centres determine. Coincident centres, where the source divides by distance 0, are excluded by that predicate.
- Static walls carry no velocity. The step only ever writes the reflection of zero to a wall, and that is zero (`Collision.ReflectZero`).
- Physics.Physics.Step: energy conservation is stated only for events that `EventPhysical` describes, an assumption about the engine's output that the model does not derive. Momentum conservation holds only for disc–disc contacts (`Physics.DiscEventKeepsMomentum`), because a reflection off a static wall does not conserve momentum.
