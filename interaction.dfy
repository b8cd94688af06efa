/**
 * The application state of the demo: the rectangle spanned by a drag, the debounced
 * mouse-and-key state machine that turns input into new bodies, and the object that owns it
 * together with the physics wrapper.
 *
 * Screen coordinates have y growing downwards; the scene's y grows upwards, so every mouse
 * position is flipped to (x, HEIGHT_LOCAL - y) before it is stored or used.
 */
module Interaction {
  import opened Vectors
  import opened Physics

  const WIDTH_LOCAL: real := 1200.0
  const HEIGHT_LOCAL: real := 900.0

  /** The scene point under the mouse at screen position `mouse`. */
  function ToScene(mouse: Vec2): (p: Vec2)
    ensures p.x == mouse.x && p.y + mouse.y == HEIGHT_LOCAL
  {
    Vec2(mouse.x, HEIGHT_LOCAL - mouse.y)
  }

  // ---------------------------------------------------------------------------------------
  // The rectangle of a drag
  // ---------------------------------------------------------------------------------------

  datatype Rect = Rect(centerX: real, centerY: real, halfX: real, halfY: real)

  function Min(a: real, b: real): real { if a < b then a else b }
  function Max(a: real, b: real): real { if a < b then b else a }

  /**
   * The axis-aligned rectangle with corners `anchor` and (x, y), as a centre and
   * half-extents: whichever way the drag went, the half-extents are non-negative and the
   * rectangle runs from the smaller to the larger coordinate on each axis.
   */
  function GetRect(anchor: Vec2, x: real, y: real): (r: Rect)
    ensures r.halfX >= 0.0 && r.halfY >= 0.0
    ensures r.centerX - r.halfX == Min(anchor.x, x) && r.centerX + r.halfX == Max(anchor.x, x)
    ensures r.centerY - r.halfY == Min(anchor.y, y) && r.centerY + r.halfY == Max(anchor.y, y)
  {
    var halfX := if anchor.x < x then (x - anchor.x) / 2.0 else (anchor.x - x) / 2.0;
    var centerX := if anchor.x < x then anchor.x + halfX else x + halfX;
    var halfY := if anchor.y < y then (y - anchor.y) / 2.0 else (anchor.y - y) / 2.0;
    var centerY := if anchor.y < y then anchor.y + halfY else y + halfY;
    Rect(centerX, centerY, halfX, halfY)
  }

  /** Swapping the two corners gives the same rectangle. */
  lemma GetRectSymmetric(a: Vec2, b: Vec2)
    ensures GetRect(a, b.x, b.y) == GetRect(b, a.x, a.y)
  {
    var r1, r2 := GetRect(a, b.x, b.y), GetRect(b, a.x, a.y);
    assert Min(a.x, b.x) == Min(b.x, a.x) && Max(a.x, b.x) == Max(b.x, a.x);
    assert Min(a.y, b.y) == Min(b.y, a.y) && Max(a.y, b.y) == Max(b.y, a.y);
    assert r1.halfX == r2.halfX && r1.centerX == r2.centerX;
    assert r1.halfY == r2.halfY && r1.centerY == r2.centerY;
  }

  /** The wall inserted for a rectangle: twice the half-extents as width and height. */
  function RectWall(r: Rect): (w: Body)
    ensures w.Wall? && w.pos == Vec2(r.centerX, r.centerY) && w.halfExtents == Vec2(r.halfX, r.halfY)
  {
    NewWall(r.centerX, r.centerY, r.halfX * 2.0, r.halfY * 2.0)
  }

  /** The wall of a drag covers exactly the dragged rectangle. */
  lemma RectWallCoversDrag(anchor: Vec2, x: real, y: real)
    ensures var w := RectWall(GetRect(anchor, x, y));
      && w.Wall? && w.halfExtents.x >= 0.0 && w.halfExtents.y >= 0.0
      && w.pos.x - w.halfExtents.x == Min(anchor.x, x) && w.pos.x + w.halfExtents.x == Max(anchor.x, x)
      && w.pos.y - w.halfExtents.y == Min(anchor.y, y) && w.pos.y + w.halfExtents.y == Max(anchor.y, y)
  {
    var r := GetRect(anchor, x, y);
    var w := RectWall(r);
    assert w.halfExtents == Vec2(r.halfX, r.halfY);
  }

  // ---------------------------------------------------------------------------------------
  // Input events and the state machine
  // ---------------------------------------------------------------------------------------

  datatype Button = Left | Right | Middle
  datatype ButtonState = Pressed | Held | Released | NotPressed
  datatype KeyCode = W | B | OtherKey

  /** The window events the demo reacts to; every other event is `OtherEvent`. */
  datatype InputEvent =
    | MouseButton(button: Button, state: ButtonState)
    | Key(key: KeyCode, keyState: ButtonState)
    | OtherEvent

  /** The input-handling fields of the application state. */
  datatype InputState = InputState(
    prevPt: Vec2,         // where the ball being dragged will be placed
    initialRectPt: Vec2,  // the first corner of the wall being dragged
    rad: real,            // the radius of the ball being dragged
    leftDown: bool,
    rightDown: bool,
    isWall: bool)         // left drags draw walls rather than balls

  /** The state an event leaves behind, and the bodies it appends to the scene, in order. */
  datatype Outcome = Outcome(state: InputState, added: seq<Body>)

  /** Ball mode, no button down, both points at the origin and no radius drawn yet. */
  function InitialInput(): (s: InputState)
    ensures !s.leftDown && !s.rightDown && !s.isWall && s.rad == 0.0
    ensures s.prevPt == ZERO && s.initialRectPt == ZERO
    ensures RadiusOk(s.rad) && LatchOk(LatchedInput(s, false))
  {
    InputState(ZERO, ZERO, 0.0, false, false, false)
  }

  /**
   * The effect of one event, with the mouse at screen position `mouse` and the random draw
   * `scale` (in [0, 1)) that sizes a new ball. At most one body is appended, and only on a
   * button release.
   */
  function Next(s: InputState, e: InputEvent, mouse: Vec2, scale: real): (r: Outcome)
    ensures |r.added| <= 1
    ensures r.added != [] ==> e.MouseButton? && e.button != Middle && e.state == Released
  {
    match e
    case MouseButton(Left, st) =>
      var p := ToScene(mouse);
      if st == Pressed && !s.leftDown then
        if s.isWall then Outcome(s.(leftDown := true, initialRectPt := p), [])
        else Outcome(s.(leftDown := true, rad := 5.0 + 15.0 * scale, prevPt := p), [])
      else if st == Released && s.leftDown then
        if s.isWall then
          Outcome(s.(leftDown := false), [RectWall(GetRect(s.initialRectPt, p.x, p.y))])
        else
          var vel := Scale(2.0, Sub(p, s.prevPt));
          Outcome(s.(leftDown := false), [NewBall(s.prevPt.x, s.prevPt.y, vel, s.rad)])
      else
        Outcome(s, [])
    case MouseButton(Right, st) =>
      var p := ToScene(mouse);
      if st == Pressed && !s.rightDown then
        Outcome(s.(rightDown := true, initialRectPt := p), [])
      else if st == Released && s.rightDown then
        Outcome(s.(rightDown := false), [RectWall(GetRect(s.initialRectPt, p.x, p.y))])
      else
        Outcome(s, [])
    case MouseButton(Middle, _) => Outcome(s, [])
    case Key(W, _) => Outcome(s.(isWall := true), [])
    case Key(B, _) => Outcome(s.(isWall := false), [])
    case Key(OtherKey, _) => Outcome(s, [])
    case OtherEvent => Outcome(s, [])
  }

  function LeftPress(): InputEvent { MouseButton(Left, Pressed) }
  function LeftRelease(): InputEvent { MouseButton(Left, Released) }
  function RightPress(): InputEvent { MouseButton(Right, Pressed) }
  function RightRelease(): InputEvent { MouseButton(Right, Released) }

  /** A press while the button is already down, or a release while it is up, changes nothing. */
  lemma ButtonsDebounced(s: InputState, mouse: Vec2, scale: real)
    ensures s.leftDown ==> Next(s, LeftPress(), mouse, scale) == Outcome(s, [])
    ensures !s.leftDown ==> Next(s, LeftRelease(), mouse, scale) == Outcome(s, [])
    ensures s.rightDown ==> Next(s, RightPress(), mouse, scale) == Outcome(s, [])
    ensures !s.rightDown ==> Next(s, RightRelease(), mouse, scale) == Outcome(s, [])
  {
  }

  /** Held and not-pressed button states, the middle button and other events are ignored. */
  lemma OtherInputIgnored(s: InputState, e: InputEvent, mouse: Vec2, scale: real)
    requires || e.OtherEvent?
             || (e.Key? && e.key == OtherKey)
             || (e.MouseButton? && (e.button == Middle || e.state == Held || e.state == NotPressed))
    ensures Next(s, e, mouse, scale) == Outcome(s, [])
  {
  }

  /** W selects wall mode and B ball mode, whatever the key state; nothing else changes. */
  lemma KeysSelectMode(s: InputState, st: ButtonState, mouse: Vec2, scale: real)
    ensures Next(s, Key(W, st), mouse, scale) == Outcome(s.(isWall := true), [])
    ensures Next(s, Key(B, st), mouse, scale) == Outcome(s.(isWall := false), [])
  {
  }

  /** A left press in ball mode picks a radius in [5, 20) and records the scene point. */
  lemma BallPress(s: InputState, mouse: Vec2, scale: real)
    requires !s.leftDown && !s.isWall && 0.0 <= scale < 1.0
    ensures var r := Next(s, LeftPress(), mouse, scale);
      && r.added == []
      && r.state == s.(leftDown := true, rad := 5.0 + 15.0 * scale, prevPt := ToScene(mouse))
      && 5.0 <= r.state.rad < 20.0
  {
  }

  /** A left press in wall mode, and any right press, records the first corner. */
  lemma CornerPress(s: InputState, mouse: Vec2, scale: real)
    ensures !s.leftDown && s.isWall ==>
      Next(s, LeftPress(), mouse, scale) == Outcome(s.(leftDown := true, initialRectPt := ToScene(mouse)), [])
    ensures !s.rightDown ==>
      Next(s, RightPress(), mouse, scale) == Outcome(s.(rightDown := true, initialRectPt := ToScene(mouse)), [])
  {
  }

  /**
   * A left release in ball mode appends exactly one ball, at the recorded point with the
   * recorded radius and twice the drag vector as velocity, and lifts the button.
   */
  lemma BallRelease(s: InputState, mouse: Vec2, scale: real)
    requires s.leftDown && !s.isWall
    ensures var r := Next(s, LeftRelease(), mouse, scale);
      && r.state == s.(leftDown := false)
      && |r.added| == 1 && r.added[0].Ball?
      && r.added[0].pos == s.prevPt && r.added[0].radius == s.rad
      && r.added[0].vel == Scale(2.0, Sub(ToScene(mouse), s.prevPt))
      && MassFromArea(r.added[0])
  {
  }

  /**
   * A left release in wall mode, and a right release in either mode, appends exactly one
   * wall spanning the first corner and the release point, and lifts that button.
   */
  lemma WallRelease(s: InputState, mouse: Vec2, scale: real)
    ensures s.leftDown && s.isWall ==>
      Next(s, LeftRelease(), mouse, scale) ==
        Outcome(s.(leftDown := false), [RectWall(GetRect(s.initialRectPt, ToScene(mouse).x, ToScene(mouse).y))])
    ensures s.rightDown ==>
      Next(s, RightRelease(), mouse, scale) ==
        Outcome(s.(rightDown := false), [RectWall(GetRect(s.initialRectPt, ToScene(mouse).x, ToScene(mouse).y))])
  {
  }

  /**
   * A whole ball drag: press at screen point p and release at q in ball mode gives one ball
   * at p's scene point whose velocity is twice the drag in scene coordinates, so
   * (2 (q.x - p.x), 2 (p.y - q.y)) in screen terms.
   */
  lemma BallDrag(s: InputState, p: Vec2, q: Vec2, scale: real, scale': real)
    requires !s.leftDown && !s.isWall && 0.0 <= scale < 1.0
    ensures var s1 := Next(s, LeftPress(), p, scale).state;
      var r := Next(s1, LeftRelease(), q, scale');
      && r.state == s1.(leftDown := false)
      && |r.added| == 1 && r.added[0].Ball?
      && r.added[0].pos == ToScene(p)
      && r.added[0].vel == Vec2(2.0 * (q.x - p.x), 2.0 * (p.y - q.y))
      && 5.0 <= r.added[0].radius < 20.0
  {
    BallPress(s, p, scale);
    var s1 := Next(s, LeftPress(), p, scale).state;
    BallRelease(s1, q, scale');
  }

  /**
   * A whole right-button drag, in either mode, gives one wall whose extent is exactly the
   * rectangle between the press and release points, with non-negative half-extents.
   */
  lemma RightDragAddsWall(s: InputState, p: Vec2, q: Vec2, scale: real, scale': real)
    requires !s.rightDown
    ensures var s1 := Next(s, RightPress(), p, scale).state;
      var r := Next(s1, RightRelease(), q, scale');
      var a, b := ToScene(p), ToScene(q);
      && r.state == s.(initialRectPt := a)
      && |r.added| == 1 && r.added[0].Wall?
      && r.added[0].halfExtents.x >= 0.0 && r.added[0].halfExtents.y >= 0.0
      && r.added[0].pos.x - r.added[0].halfExtents.x == Min(a.x, b.x)
      && r.added[0].pos.x + r.added[0].halfExtents.x == Max(a.x, b.x)
      && r.added[0].pos.y - r.added[0].halfExtents.y == Min(a.y, b.y)
      && r.added[0].pos.y + r.added[0].halfExtents.y == Max(a.y, b.y)
  {
    var a, b := ToScene(p), ToScene(q);
    CornerPress(s, p, scale);
    var s1 := Next(s, RightPress(), p, scale).state;
    WallRelease(s1, q, scale');
    RectWallCoversDrag(a, b.x, b.y);
  }

  // ---------------------------------------------------------------------------------------
  // What every body the demo inserts looks like
  // ---------------------------------------------------------------------------------------

  /**
   * The radius the state machine holds: zero before the first ball press, then in [5, 20).
   * A ball of radius zero is reachable (see StaleRadiusBall).
   */
  predicate RadiusOk(rad: real) {
    rad == 0.0 || 5.0 <= rad < 20.0
  }

  predicate SceneBodyOk(b: Body) {
    && MassFromArea(b)
    && (b.Ball? ==> RadiusOk(b.radius))
    && (b.Wall? ==> b.halfExtents.x >= 0.0 && b.halfExtents.y >= 0.0)
  }

  /** Every event keeps the radius invariant and appends only well-formed bodies. */
  lemma NextKeepsInvariant(s: InputState, e: InputEvent, mouse: Vec2, scale: real)
    requires RadiusOk(s.rad) && 0.0 <= scale < 1.0
    ensures RadiusOk(Next(s, e, mouse, scale).state.rad)
    ensures forall b :: b in Next(s, e, mouse, scale).added ==> SceneBodyOk(b)
  {
    var p := ToScene(mouse);
    RectWallCoversDrag(s.initialRectPt, p.x, p.y);
  }

  /**
   * Switching to wall mode, pressing the left button, switching back to ball mode and
   * releasing it appends a ball with the initial radius 0 at the initial point: the mode is
   * read on release, and the radius is only drawn by a ball-mode press.
   */
  lemma StaleRadiusBall(mouse: Vec2, scale: real)
    ensures var s1 := Next(InitialInput(), Key(W, Pressed), mouse, scale).state;
      var s2 := Next(s1, LeftPress(), mouse, scale).state;
      var s3 := Next(s2, Key(B, Pressed), mouse, scale).state;
      var r := Next(s3, LeftRelease(), mouse, scale);
      && |r.added| == 1 && r.added[0].Ball?
      && r.added[0].radius == 0.0 && r.added[0].pos == ZERO
      && !(5.0 <= r.added[0].radius)
  {
  }

  // ---------------------------------------------------------------------------------------
  // A left drag whose kind is fixed when it starts
  // ---------------------------------------------------------------------------------------

  /**
   * The input state together with the kind of the left drag in progress, latched at the
   * press: `leftWallDrag` is the mode the press saw.
   */
  datatype LatchedInput = LatchedInput(input: InputState, leftWallDrag: bool)

  /**
   * The transition with the left release dispatched on the latched kind rather than on the
   * current mode. Every other event behaves as in Next.
   */
  function NextLatched(d: LatchedInput, e: InputEvent, mouse: Vec2, scale: real): (r: (LatchedInput, seq<Body>))
    ensures |r.1| <= 1
  {
    var s := d.input;
    match e
    case MouseButton(Left, Pressed) =>
      var o := Next(s, e, mouse, scale);
      if !s.leftDown then (LatchedInput(o.state, s.isWall), o.added) else (d, o.added)
    case MouseButton(Left, Released) =>
      var o := Next(s.(isWall := d.leftWallDrag), e, mouse, scale);
      (LatchedInput(o.state.(isWall := s.isWall), d.leftWallDrag), o.added)
    case _ =>
      var o := Next(s, e, mouse, scale);
      (LatchedInput(o.state, d.leftWallDrag), o.added)
  }

  /** A ball drag in progress holds a radius drawn by its own press. */
  predicate LatchOk(d: LatchedInput) {
    RadiusOk(d.input.rad) && (d.input.leftDown && !d.leftWallDrag ==> 5.0 <= d.input.rad < 20.0)
  }

  /** Every event keeps LatchOk, and every ball appended has a radius in [5, 20). */
  lemma NextLatchedBallsSized(d: LatchedInput, e: InputEvent, mouse: Vec2, scale: real)
    requires LatchOk(d) && 0.0 <= scale < 1.0
    ensures LatchOk(NextLatched(d, e, mouse, scale).0)
    ensures forall b :: b in NextLatched(d, e, mouse, scale).1 ==> SceneBodyOk(b) && (b.Ball? ==> 5.0 <= b.radius < 20.0)
  {
    var s := d.input;
    NextKeepsInvariant(s, e, mouse, scale);
    NextKeepsInvariant(s.(isWall := d.leftWallDrag), e, mouse, scale);
  }

  /** An input as the window delivers it: the event, the mouse position and the random draw. */
  datatype WindowInput = WindowInput(event: InputEvent, mouse: Vec2, scale: real)

  /** The latched state after a run of inputs, and every body appended on the way, in order. */
  function RunLatched(d: LatchedInput, inputs: seq<WindowInput>): (r: (LatchedInput, seq<Body>))
    decreases |inputs|
  {
    if inputs == [] then (d, [])
    else
      var step := NextLatched(d, inputs[0].event, inputs[0].mouse, inputs[0].scale);
      var rest := RunLatched(step.0, inputs[1..]);
      (rest.0, step.1 + rest.1)
  }

  /** From a state meeting LatchOk, no run of inputs ever appends a ball outside [5, 20). */
  lemma {:induction false} RunLatchedBallsSized(d: LatchedInput, inputs: seq<WindowInput>)
    requires LatchOk(d) && forall i :: 0 <= i < |inputs| ==> 0.0 <= inputs[i].scale < 1.0
    ensures LatchOk(RunLatched(d, inputs).0)
    ensures forall b :: b in RunLatched(d, inputs).1 ==> SceneBodyOk(b) && (b.Ball? ==> 5.0 <= b.radius < 20.0)
    decreases |inputs|
  {
    if inputs != [] {
      var step := NextLatched(d, inputs[0].event, inputs[0].mouse, inputs[0].scale);
      NextLatchedBallsSized(d, inputs[0].event, inputs[0].mouse, inputs[0].scale);
      RunLatchedBallsSized(step.0, inputs[1..]);
    }
  }

  /** With the drag kind latched, every ball of every run from the start has a radius in [5, 20). */
  lemma LatchedRunsSizeBalls(inputs: seq<WindowInput>)
    requires forall i :: 0 <= i < |inputs| ==> 0.0 <= inputs[i].scale < 1.0
    ensures forall b :: b in RunLatched(LatchedInput(InitialInput(), false), inputs).1 ==>
      b.Ball? ==> 5.0 <= b.radius < 20.0
  {
    RunLatchedBallsSized(LatchedInput(InitialInput(), false), inputs);
  }

  /** Without a mode switch during a left drag, the latched transition is exactly Next. */
  lemma NextLatchedAgrees(d: LatchedInput, e: InputEvent, mouse: Vec2, scale: real)
    requires d.input.leftDown ==> d.leftWallDrag == d.input.isWall
    ensures NextLatched(d, e, mouse, scale).0.input == Next(d.input, e, mouse, scale).state
    ensures NextLatched(d, e, mouse, scale).1 == Next(d.input, e, mouse, scale).added
  {
  }

  /** The sequence of StaleRadiusBall now ends the drag it started: a wall, and no ball. */
  lemma LatchedModeSwitchAddsWall(mouse: Vec2, scale: real)
    ensures var d0 := LatchedInput(InitialInput(), false);
      var d1 := NextLatched(d0, Key(W, Pressed), mouse, scale).0;
      var d2 := NextLatched(d1, LeftPress(), mouse, scale).0;
      var d3 := NextLatched(d2, Key(B, Pressed), mouse, scale).0;
      var r := NextLatched(d3, LeftRelease(), mouse, scale);
      && |r.1| == 1 && r.1[0].Wall?
      && !r.0.input.leftDown && !r.0.input.isWall
  {
  }

  /**
   * In general the same sequence reuses whatever the last ball-mode press stored: the ball
   * is placed at that press point, with that radius, and its velocity is measured from there.
   */
  lemma ModeSwitchReusesLastBall(s: InputState, p: Vec2, q: Vec2, scale: real)
    requires !s.leftDown
    ensures var s1 := Next(s, Key(W, Pressed), p, scale).state;
      var s2 := Next(s1, LeftPress(), p, scale).state;
      var s3 := Next(s2, Key(B, Pressed), q, scale).state;
      var r := Next(s3, LeftRelease(), q, scale);
      && r.added == [NewBall(s.prevPt.x, s.prevPt.y, Scale(2.0, Sub(ToScene(q), s.prevPt)), s.rad)]
      && r.state == s.(initialRectPt := ToScene(p), isWall := false)
  {
  }

  lemma SameShapesKeepSceneBodies(s: seq<Body>, t: seq<Body>)
    requires SameShapes(s, t) && forall b :: b in s ==> SceneBodyOk(b)
    ensures forall b :: b in t ==> SceneBodyOk(b)
  {
    forall b | b in t ensures SceneBodyOk(b) {
      var i :| 0 <= i < |t| && t[i] == b;
      assert SameShape(s[i], t[i]) && s[i] in s;
    }
  }

  /** The four boundary walls the demo starts with: bottom, top, left and right. */
  function BoundaryWalls(): (r: seq<Body>)
    ensures |r| == 4 && forall b :: b in r ==> b.Wall? && SceneBodyOk(b)
    ensures r[0].pos.y + r[0].halfExtents.y == 20.0 && r[2].pos.x + r[2].halfExtents.x == 20.0
    ensures r[3].pos.x - r[3].halfExtents.x == WIDTH_LOCAL - 20.0
    ensures r[1].pos.y - r[1].halfExtents.y == HEIGHT_LOCAL - 60.0
    ensures forall i :: 0 <= i < 2 ==> 2.0 * r[i].halfExtents.y == 20.0 && 2.0 * r[i].halfExtents.x == WIDTH_LOCAL
    ensures forall i :: 2 <= i < 4 ==> 2.0 * r[i].halfExtents.x == 20.0 && 2.0 * r[i].halfExtents.y == HEIGHT_LOCAL
  {
    [ NewWall(WIDTH_LOCAL / 2.0, 10.0, WIDTH_LOCAL, 20.0),
      NewWall(WIDTH_LOCAL / 2.0, HEIGHT_LOCAL - 50.0, WIDTH_LOCAL, 20.0),
      NewWall(10.0, HEIGHT_LOCAL / 2.0, 20.0, HEIGHT_LOCAL),
      NewWall(WIDTH_LOCAL - 10.0, HEIGHT_LOCAL / 2.0, 20.0, HEIGHT_LOCAL) ]
  }

  // ---------------------------------------------------------------------------------------
  // The application state
  // ---------------------------------------------------------------------------------------

  class DrawGeometry {
    const physics: Physics
    var prevPt: Vec2
    var initialRectPt: Vec2
    var rad: real
    var leftDown: bool
    var rightDown: bool
    var isWall: bool

    ghost function Input(): InputState
      reads this
    {
      InputState(prevPt, initialRectPt, rad, leftDown, rightDown, isWall)
    }

    ghost predicate Valid()
      reads this, physics
    {
      && physics.Valid()
      && RadiusOk(rad)
      && forall b :: b in physics.bodies ==> SceneBodyOk(b)
    }

    /** A fresh scene holding the four boundary walls, in ball mode with no button down. */
    constructor ()
      ensures Valid() && fresh(physics)
      ensures Input() == InitialInput()
      ensures physics.bodies == BoundaryWalls()
    {
      var p := new Physics();
      p.AddWall(WIDTH_LOCAL / 2.0, 10.0, WIDTH_LOCAL, 20.0);
      p.AddWall(WIDTH_LOCAL / 2.0, HEIGHT_LOCAL - 50.0, WIDTH_LOCAL, 20.0);
      p.AddWall(10.0, HEIGHT_LOCAL / 2.0, 20.0, HEIGHT_LOCAL);
      p.AddWall(WIDTH_LOCAL - 10.0, HEIGHT_LOCAL / 2.0, 20.0, HEIGHT_LOCAL);
      physics := p;
      prevPt := ZERO;
      leftDown := false;
      rad := 0.0;
      initialRectPt := ZERO;
      rightDown := false;
      isWall := false;
    }

    /** One frame's update: the contact responses of the physics step. */
    method Update(events: seq<ContactEvent>)
      requires Valid()
      requires forall e :: e in events ==> EventDefined(physics.bodies, e)
      modifies physics
      ensures Valid()
      ensures physics.bodies == ApplyEvents(old(physics.bodies), events)
    {
      physics.Step(events);
      SameShapesKeepSceneBodies(old(physics.bodies), physics.bodies);
    }

    /**
     * Handles one window event, with the mouse at screen position `mouse` and the random
     * draw `scale` for a new ball's radius.
     */
    method Event(e: InputEvent, mouse: Vec2, scale: real)
      requires Valid() && 0.0 <= scale < 1.0
      modifies this, physics
      ensures Valid()
      ensures Input() == Next(old(Input()), e, mouse, scale).state
      ensures physics.bodies == old(physics.bodies) + Next(old(Input()), e, mouse, scale).added
    {
      NextKeepsInvariant(Input(), e, mouse, scale);
      match e {
        case MouseButton(Left, st) =>
          LeftButton(st, mouse, scale);
        case MouseButton(Right, st) =>
          RightButton(st, mouse, scale);
        case MouseButton(Middle, _) =>
        case Key(W, _) =>
          isWall := true;
        case Key(B, _) =>
          isWall := false;
        case Key(OtherKey, _) =>
        case OtherEvent =>
      }
    }

    /** The left-button arm of Event: a ball or, in wall mode, a wall per press-release pair. */
    method LeftButton(st: ButtonState, mouse: Vec2, scale: real)
      requires physics.Valid()
      modifies this, physics
      ensures physics.Valid()
      ensures Input() == Next(old(Input()), MouseButton(Left, st), mouse, scale).state
      ensures physics.bodies == old(physics.bodies) + Next(old(Input()), MouseButton(Left, st), mouse, scale).added
    {
      var x, y := mouse.x, mouse.y;
      if st == Pressed && !leftDown {
        leftDown := true;
        if isWall {
          initialRectPt := Vec2(x, HEIGHT_LOCAL - y);
        } else {
          rad := 5.0 + 15.0 * scale;
          prevPt := Vec2(x, HEIGHT_LOCAL - y);
        }
      } else if st == Released && leftDown {
        leftDown := false;
        if isWall {
          var r := GetRect(initialRectPt, x, HEIGHT_LOCAL - y);
          physics.AddWall(r.centerX, r.centerY, r.halfX * 2.0, r.halfY * 2.0);
        } else {
          var pt := Vec2(x, HEIGHT_LOCAL - y);
          var vel := Sub(pt, prevPt);
          vel := Scale(2.0, vel);
          physics.AddBall(prevPt.x, prevPt.y, vel, rad);
        }
      }
    }

    /** The right-button arm of Event: a wall per press-release pair, in either mode. */
    method RightButton(st: ButtonState, mouse: Vec2, scale: real)
      requires physics.Valid()
      modifies this, physics
      ensures physics.Valid()
      ensures Input() == Next(old(Input()), MouseButton(Right, st), mouse, scale).state
      ensures physics.bodies == old(physics.bodies) + Next(old(Input()), MouseButton(Right, st), mouse, scale).added
    {
      var x, y := mouse.x, mouse.y;
      if st == Pressed && !rightDown {
        rightDown := true;
        initialRectPt := Vec2(x, HEIGHT_LOCAL - y);
      } else if st == Released && rightDown {
        rightDown := false;
        var r := GetRect(initialRectPt, x, HEIGHT_LOCAL - y);
        physics.AddWall(r.centerX, r.centerY, r.halfX * 2.0, r.halfY * 2.0);
      }
    }
  }
}
