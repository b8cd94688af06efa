/**
 * The scene held by the physics wrapper: an append-only sequence of bodies, the two insertion
 * operations, and the contact-response part of one simulation step, which walks the engine's
 * contact events and rewrites the velocities of the two bodies of each started contact.
 */
module Physics {
  import opened Vectors
  import opened Collision

  /** Stand-in for the single-precision pi of the source; no proof depends on its value. */
  const PI: real := 3.14159265358979

  datatype Option<T> = None | Some(value: T)

  /**
   * A dynamic disc, or a static axis-aligned rectangle (a cuboid) that never moves. A disc's
   * `pos` is where it was inserted; the contact events carry the current centres.
   */
  datatype Body =
    | Ball(pos: Vec2, vel: Vec2, radius: real, mass: real)
    | Wall(pos: Vec2, halfExtents: Vec2)

  predicate IsCuboid(b: Body) {
    b.Wall?
  }

  /** The linear velocity of a body; a static wall is always at rest. */
  function Velocity(b: Body): (v: Vec2)
    ensures b.Ball? ==> v == b.vel
    ensures b.Wall? ==> v == ZERO
  {
    if b.Ball? then b.vel else ZERO
  }

  /**
   * Sets the linear velocity. A static wall keeps its (zero) velocity: the only velocity the
   * step ever writes to one is the reflection of zero, which is zero (Collision.ReflectZero).
   */
  function WithVelocity(b: Body, v: Vec2): (r: Body)
    ensures SameShape(b, r)
    ensures b.Ball? ==> Velocity(r) == v
  {
    if b.Ball? then b.(vel := v) else b
  }

  /** `b` and `c` differ at most in their velocity. */
  predicate SameShape(b: Body, c: Body) {
    match b
    case Wall(_, _) => c == b
    case Ball(p, _, r, m) => c.Ball? && c.pos == p && c.radius == r && c.mass == m
  }

  predicate SameShapes(s: seq<Body>, t: seq<Body>) {
    |s| == |t| && forall i :: 0 <= i < |s| ==> SameShape(s[i], t[i])
  }

  /** The body `add_ball` inserts: a disc with mass pi r². */
  function NewBall(x: real, y: real, velocity: Vec2, radius: real): (b: Body)
    ensures b.Ball? && b.pos == Vec2(x, y) && b.vel == velocity && b.radius == radius
    ensures b.mass == PI * radius * radius
  {
    Ball(Vec2(x, y), velocity, radius, PI * radius * radius)
  }

  /** The body `add_wall` inserts: a static cuboid centred at (x, y), half as wide and high. */
  function NewWall(x: real, y: real, width: real, height: real): (b: Body)
    ensures b.Wall? && b.pos == Vec2(x, y)
    ensures 2.0 * b.halfExtents.x == width && 2.0 * b.halfExtents.y == height
  {
    Wall(Vec2(x, y), Vec2(width / 2.0, height / 2.0))
  }

  /** The bodies' mass agrees with the area of the disc, as `add_ball` sets it. */
  predicate MassFromArea(b: Body) {
    b.Ball? ==> b.mass == PI * b.radius * b.radius
  }

  // ---------------------------------------------------------------------------------------
  // Contact events
  // ---------------------------------------------------------------------------------------

  /** What the engine knows about a touching pair: the normal of its deepest contact, if any. */
  datatype Manifold = Manifold(deepestNormal: Option<Vec2>)

  /**
   * A contact event on the bodies with handles h1 and h2 (their indices in the scene).
   * `pair` is the engine's contact pair, absent when the engine no longer holds one.
   * `centre1` and `centre2` are the bodies' current centres as the engine reports them; they
   * differ from the insertion points in `Body.pos` once the bodies have moved, since the
   * engine's integration is not modelled. `axis` stands for (centre1 - centre2) /
   * |centre1 - centre2|, which the disc branch computes from them; it is supplied so that no
   * square root is needed, and EventPhysical says which vector it must be.
   */
  datatype ContactEvent =
    | Started(h1: nat, h2: nat, pair: Option<Manifold>, centre1: Vec2, centre2: Vec2, axis: Vec2)
    | Stopped(h1: nat, h2: nat)

  /** The response to `e` is defined on the scene `s`: the handles exist and a disc pair has mass. */
  predicate EventDefined(s: seq<Body>, e: ContactEvent) {
    match e
    case Stopped(_, _) => true
    case Started(h1, h2, pair, _, _, _) =>
      pair.None? ||
      (h1 < |s| && h2 < |s| &&
       (IsCuboid(s[h1]) || IsCuboid(s[h2]) || s[h1].mass + s[h2].mass > 0.0))
  }

  /**
   * What the energy and momentum lemmas assume of the event on top of that: two distinct
   * bodies, a unit contact normal, and for two discs the collision axis between the current
   * centres the event reports.
   */
  predicate EventPhysical(s: seq<Body>, e: ContactEvent)
    requires EventDefined(s, e)
  {
    match e
    case Stopped(_, _) => true
    case Started(h1, h2, pair, c1, c2, axis) =>
      pair.None? ||
      (h1 != h2 &&
       if IsCuboid(s[h1]) || IsCuboid(s[h2]) then
         pair.value.deepestNormal.Some? ==> IsUnit(pair.value.deepestNormal.value)
       else
         IsCollisionAxis(c1, c2, axis))
  }

  /** The scene after the velocity response to one contact event. */
  function ApplyEvent(s: seq<Body>, e: ContactEvent): (r: seq<Body>)
    requires EventDefined(s, e)
    ensures SameShapes(s, r)
    ensures forall k :: 0 <= k < |s| && k != e.h1 && k != e.h2 ==> r[k] == s[k]
  {
    match e
    case Stopped(_, _) => s
    case Started(h1, h2, pair, _, _, axis) =>
      match pair
      case None => s
      case Some(m) =>
        if IsCuboid(s[h1]) || IsCuboid(s[h2]) then
          match m.deepestNormal
          case None => s
          case Some(n) =>
            var s1 := s[h1 := WithVelocity(s[h1], Reflect(Velocity(s[h1]), n))];
            s1[h2 := WithVelocity(s1[h2], Reflect(Velocity(s1[h2]), n))]
        else
          var r := DiscResponse(s[h1].vel, s[h2].vel, s[h1].mass, s[h2].mass, axis);
          s[h1 := s[h1].(vel := r.0)][h2 := s[h2].(vel := r.1)]
  }

  lemma DefinedUnderSameShapes(s: seq<Body>, t: seq<Body>, e: ContactEvent)
    requires SameShapes(s, t)
    ensures EventDefined(s, e) ==> EventDefined(t, e)
    ensures EventDefined(s, e) && EventPhysical(s, e) ==> EventPhysical(t, e)
  {
    if e.Started? && e.pair.Some? && e.h1 < |s| && e.h2 < |s| {
      assert SameShape(s[e.h1], t[e.h1]) && SameShape(s[e.h2], t[e.h2]);
    }
  }

  lemma SameShapesKeepMass(s: seq<Body>, t: seq<Body>)
    requires SameShapes(s, t) && forall b :: b in s ==> MassFromArea(b)
    ensures forall b :: b in t ==> MassFromArea(b)
  {
    forall b | b in t ensures MassFromArea(b) {
      var i :| 0 <= i < |t| && t[i] == b;
      assert SameShape(s[i], t[i]) && s[i] in s;
    }
  }

  /** The scene after the responses to a sequence of contact events, in order. */
  function ApplyEvents(s: seq<Body>, events: seq<ContactEvent>): (r: seq<Body>)
    requires forall e :: e in events ==> EventDefined(s, e)
    ensures SameShapes(s, r)
    decreases |events|
  {
    if events == [] then s
    else
      var t := ApplyEvent(s, events[0]);
      forall e | e in events[1..] ensures EventDefined(t, e) {
        DefinedUnderSameShapes(s, t, e);
      }
      ApplyEvents(t, events[1..])
  }

  /** Handling the first event leaves the rest defined, and the rest then finish the job. */
  lemma ApplyEventsFirst(s: seq<Body>, events: seq<ContactEvent>)
    requires events != [] && forall e :: e in events ==> EventDefined(s, e)
    ensures forall e :: e in events[1..] ==> EventDefined(ApplyEvent(s, events[0]), e)
    ensures ApplyEvents(s, events) == ApplyEvents(ApplyEvent(s, events[0]), events[1..])
  {
    var t := ApplyEvent(s, events[0]);
    forall e | e in events[1..] ensures EventDefined(t, e) {
      DefinedUnderSameShapes(s, t, e);
    }
  }

  // ---------------------------------------------------------------------------------------
  // The dispatch of one event
  // ---------------------------------------------------------------------------------------

  /** A stopped contact changes nothing. */
  lemma StoppedChangesNothing(s: seq<Body>, h1: nat, h2: nat)
    ensures ApplyEvent(s, Stopped(h1, h2)) == s
  {
  }

  /**
   * A started contact the engine holds no pair for changes nothing, and neither does one
   * involving a cuboid whose manifold has no deepest contact.
   */
  lemma MissingContactSkipped(s: seq<Body>, e: ContactEvent)
    requires e.Started? && EventDefined(s, e)
    requires e.pair.None? ||
      ((IsCuboid(s[e.h1]) || IsCuboid(s[e.h2])) && e.pair.value.deepestNormal.None?)
    ensures ApplyEvent(s, e) == s
  {
  }

  /**
   * When at least one of the two shapes is a cuboid, both bodies' velocities are reflected
   * about the deepest contact normal: each normal component changes sign and each speed is kept.
   */
  lemma CuboidContactReflects(s: seq<Body>, h1: nat, h2: nat, n: Vec2, c1: Vec2, c2: Vec2, axis: Vec2)
    requires h1 < |s| && h2 < |s| && h1 != h2 && IsUnit(n)
    requires IsCuboid(s[h1]) || IsCuboid(s[h2])
    ensures var r := ApplyEvent(s, Started(h1, h2, Some(Manifold(Some(n))), c1, c2, axis));
      && Velocity(r[h1]) == Reflect(Velocity(s[h1]), n)
      && Velocity(r[h2]) == Reflect(Velocity(s[h2]), n)
      && Dot(Velocity(r[h1]), n) == -Dot(Velocity(s[h1]), n)
      && Dot(Velocity(r[h2]), n) == -Dot(Velocity(s[h2]), n)
      && NormSq(Velocity(r[h1])) == NormSq(Velocity(s[h1]))
      && NormSq(Velocity(r[h2])) == NormSq(Velocity(s[h2]))
  {
    ReflectZero(n);
    ReflectFlipsNormal(Velocity(s[h1]), n);
    ReflectFlipsNormal(Velocity(s[h2]), n);
    ReflectKeepsSpeed(Velocity(s[h1]), n);
    ReflectKeepsSpeed(Velocity(s[h2]), n);
  }

  /**
   * When neither shape is a cuboid, both discs get the disc-disc response, computed from the
   * velocities both had before the event; the manifold's content plays no part.
   */
  lemma DiscContactExchanges(s: seq<Body>, h1: nat, h2: nat, m: Manifold, c1: Vec2, c2: Vec2, axis: Vec2)
    requires h1 < |s| && h2 < |s| && h1 != h2
    requires !IsCuboid(s[h1]) && !IsCuboid(s[h2]) && s[h1].mass + s[h2].mass > 0.0
    ensures var r := ApplyEvent(s, Started(h1, h2, Some(m), c1, c2, axis));
      var d := DiscResponse(s[h1].vel, s[h2].vel, s[h1].mass, s[h2].mass, axis);
      r[h1].vel == d.0 && r[h2].vel == d.1
  {
  }

  // ---------------------------------------------------------------------------------------
  // Kinetic energy and momentum of the scene
  // ---------------------------------------------------------------------------------------

  /** Twice the kinetic energy of a body; a static wall has none. */
  function BodyEnergy(b: Body): real {
    if b.Ball? then b.mass * NormSq(b.vel) else 0.0
  }

  function KineticEnergy(s: seq<Body>): real
    decreases |s|
  {
    if s == [] then 0.0 else BodyEnergy(s[0]) + KineticEnergy(s[1..])
  }

  function BodyMomentum(b: Body): Vec2 {
    if b.Ball? then Scale(b.mass, b.vel) else ZERO
  }

  function Momentum(s: seq<Body>): Vec2
    decreases |s|
  {
    if s == [] then ZERO else Add(BodyMomentum(s[0]), Momentum(s[1..]))
  }

  /** Replacing one body changes the total energy by the difference of the two bodies' energies. */
  lemma {:induction false} EnergyUpdate(s: seq<Body>, i: nat, b: Body)
    requires i < |s|
    ensures KineticEnergy(s[i := b]) == KineticEnergy(s) - BodyEnergy(s[i]) + BodyEnergy(b)
    decreases |s|
  {
    if i == 0 {
      assert s[i := b][1..] == s[1..];
    } else {
      assert s[i := b][1..] == s[1..][i - 1 := b];
      EnergyUpdate(s[1..], i - 1, b);
    }
  }

  /** Replacing one body changes the total momentum by the difference of the two bodies' momenta. */
  lemma {:induction false} MomentumUpdate(s: seq<Body>, i: nat, b: Body)
    requires i < |s|
    ensures Add(Momentum(s[i := b]), BodyMomentum(s[i])) == Add(Momentum(s), BodyMomentum(b))
    decreases |s|
  {
    var t := s[1..];
    if i == 0 {
      assert s[i := b][1..] == t;
      AddSwap(BodyMomentum(b), Momentum(t), BodyMomentum(s[0]));
    } else {
      assert s[i := b][1..] == t[i - 1 := b];
      MomentumUpdate(t, i - 1, b);
      AddFront(BodyMomentum(s[0]), Momentum(t[i - 1 := b]), Momentum(t), BodyMomentum(s[i]), BodyMomentum(b));
    }
  }

  lemma AddSwap(a: Vec2, b: Vec2, c: Vec2)
    ensures Add(Add(a, b), c) == Add(Add(c, b), a)
  {
  }

  lemma AddFront(a: Vec2, x: Vec2, y: Vec2, c: Vec2, d: Vec2)
    requires Add(x, c) == Add(y, d)
    ensures Add(Add(a, x), c) == Add(Add(a, y), d)
  {
    assert x.x + c.x == y.x + d.x && x.y + c.y == y.y + d.y;
  }

  /** Every physically well-formed contact response is perfectly elastic for the whole scene. */
  lemma EventKeepsEnergy(s: seq<Body>, e: ContactEvent)
    requires EventDefined(s, e) && EventPhysical(s, e)
    ensures KineticEnergy(ApplyEvent(s, e)) == KineticEnergy(s)
  {
    if e.Started? && e.pair.Some? {
      var h1, h2 := e.h1, e.h2;
      if IsCuboid(s[h1]) || IsCuboid(s[h2]) {
        if e.pair.value.deepestNormal.Some? {
          CuboidEventKeepsEnergy(s, h1, h2, e.pair.value.deepestNormal.value);
        }
      } else {
        DiscEventKeepsEnergy(s, h1, h2, e.axis);
      }
    }
  }

  lemma CuboidEventKeepsEnergy(s: seq<Body>, h1: nat, h2: nat, n: Vec2)
    requires h1 < |s| && h2 < |s| && h1 != h2 && IsUnit(n)
    ensures var s1 := s[h1 := WithVelocity(s[h1], Reflect(Velocity(s[h1]), n))];
      KineticEnergy(s1[h2 := WithVelocity(s1[h2], Reflect(Velocity(s1[h2]), n))]) == KineticEnergy(s)
  {
    var b1 := WithVelocity(s[h1], Reflect(Velocity(s[h1]), n));
    var s1 := s[h1 := b1];
    var b2 := WithVelocity(s1[h2], Reflect(Velocity(s1[h2]), n));
    ReflectKeepsSpeed(Velocity(s[h1]), n);
    ReflectKeepsSpeed(Velocity(s[h2]), n);
    assert BodyEnergy(b1) == BodyEnergy(s[h1]);
    assert BodyEnergy(b2) == BodyEnergy(s[h2]);
    EnergyUpdate(s, h1, b1);
    EnergyUpdate(s1, h2, b2);
  }

  lemma DiscEventKeepsEnergy(s: seq<Body>, h1: nat, h2: nat, axis: Vec2)
    requires h1 < |s| && h2 < |s| && h1 != h2 && s[h1].Ball? && s[h2].Ball?
    requires s[h1].mass + s[h2].mass > 0.0 && IsUnit(axis)
    ensures var d := DiscResponse(s[h1].vel, s[h2].vel, s[h1].mass, s[h2].mass, axis);
      KineticEnergy(s[h1 := s[h1].(vel := d.0)][h2 := s[h2].(vel := d.1)]) == KineticEnergy(s)
  {
    var d := DiscResponse(s[h1].vel, s[h2].vel, s[h1].mass, s[h2].mass, axis);
    var b1 := s[h1].(vel := d.0);
    var b2 := s[h2].(vel := d.1);
    var s1 := s[h1 := b1];
    DiscResponseKeepsEnergy(s[h1].vel, s[h2].vel, s[h1].mass, s[h2].mass, axis);
    assert BodyEnergy(b1) + BodyEnergy(b2) == BodyEnergy(s[h1]) + BodyEnergy(s[h2]);
    EnergyUpdate(s, h1, b1);
    assert s1[h2] == s[h2];
    EnergyUpdate(s1, h2, b2);
  }

  /** A started contact between two discs conserves the momentum of the whole scene. */
  lemma DiscEventKeepsMomentum(s: seq<Body>, e: ContactEvent)
    requires EventDefined(s, e) && EventPhysical(s, e) && e.Started? && e.pair.Some?
    requires !IsCuboid(s[e.h1]) && !IsCuboid(s[e.h2])
    ensures Momentum(ApplyEvent(s, e)) == Momentum(s)
  {
    var h1, h2, axis := e.h1, e.h2, e.axis;
    var d := DiscResponse(s[h1].vel, s[h2].vel, s[h1].mass, s[h2].mass, axis);
    var b1 := s[h1].(vel := d.0);
    var b2 := s[h2].(vel := d.1);
    var s1 := s[h1 := b1];
    DiscResponseKeepsMomentum(s[h1].vel, s[h2].vel, s[h1].mass, s[h2].mass, axis);
    assert Add(BodyMomentum(b1), BodyMomentum(b2)) == Add(BodyMomentum(s[h1]), BodyMomentum(s[h2]));
    MomentumUpdate(s, h1, b1);
    assert s1[h2] == s[h2];
    MomentumUpdate(s1, h2, b2);
    MomentumBalance(Momentum(s), Momentum(s1), Momentum(s1[h2 := b2]),
                    BodyMomentum(s[h1]), BodyMomentum(s[h2]), BodyMomentum(b1), BodyMomentum(b2));
  }

  /** Two replacements whose momenta balance those of the bodies replaced keep the total. */
  lemma MomentumBalance(m0: Vec2, m1: Vec2, m2: Vec2, p1: Vec2, p2: Vec2, q1: Vec2, q2: Vec2)
    requires Add(m1, p1) == Add(m0, q1) && Add(m2, p2) == Add(m1, q2)
    requires Add(q1, q2) == Add(p1, p2)
    ensures m2 == m0
  {
    assert m2.x == m0.x && m2.y == m0.y;
  }

  /** The contact responses of a whole step keep the scene's kinetic energy. */
  lemma {:induction false} EventsKeepEnergy(s: seq<Body>, events: seq<ContactEvent>)
    requires forall e :: e in events ==> EventDefined(s, e) && EventPhysical(s, e)
    ensures KineticEnergy(ApplyEvents(s, events)) == KineticEnergy(s)
    decreases |events|
  {
    if events != [] {
      var t := ApplyEvent(s, events[0]);
      EventKeepsEnergy(s, events[0]);
      forall e | e in events[1..] ensures EventDefined(t, e) && EventPhysical(t, e) {
        DefinedUnderSameShapes(s, t, e);
      }
      EventsKeepEnergy(t, events[1..]);
    }
  }

  // ---------------------------------------------------------------------------------------
  // The physics wrapper
  // ---------------------------------------------------------------------------------------

  class Physics {
    /** The bodies in insertion order; a body's handle is its index. */
    var bodies: seq<Body>

    ghost predicate Valid()
      reads this
    {
      forall b :: b in bodies ==> MassFromArea(b)
    }

    constructor ()
      ensures Valid() && bodies == []
    {
      bodies := [];
    }

    /** Inserts a dynamic disc at (x, y) with the given velocity and radius. */
    method AddBall(x: real, y: real, velocity: Vec2, radius: real)
      requires Valid()
      modifies this
      ensures Valid()
      ensures bodies == old(bodies) + [NewBall(x, y, velocity, radius)]
    {
      bodies := bodies + [NewBall(x, y, velocity, radius)];
    }

    /** Inserts a static cuboid centred at (x, y) with the given width and height. */
    method AddWall(x: real, y: real, width: real, height: real)
      requires Valid()
      modifies this
      ensures Valid()
      ensures bodies == old(bodies) + [NewWall(x, y, width, height)]
    {
      bodies := bodies + [NewWall(x, y, width, height)];
    }

    /**
     * The contact-response loop of one step: every event is handled in order, and only the
     * velocities of the bodies change. When every event is physical, the scene's kinetic
     * energy is the same afterwards.
     */
    method Step(events: seq<ContactEvent>)
      requires Valid()
      requires forall e :: e in events ==> EventDefined(bodies, e)
      modifies this
      ensures Valid()
      ensures bodies == ApplyEvents(old(bodies), events)
      ensures SameShapes(old(bodies), bodies)
      ensures (forall e :: e in events ==> EventPhysical(old(bodies), e)) ==>
        KineticEnergy(bodies) == KineticEnergy(old(bodies))
    {
      var i := 0;
      while i < |events|
        invariant 0 <= i <= |events|
        invariant SameShapes(old(bodies), bodies)
        invariant forall e :: e in events[i..] ==> EventDefined(bodies, e)
        invariant ApplyEvents(old(bodies), events) == ApplyEvents(bodies, events[i..])
      {
        var e := events[i];
        assert e in events[i..];
        ghost var before := bodies;
        Respond(e);
        ApplyEventsFirst(before, events[i..]);
        assert events[i..][1..] == events[i + 1..];
        i := i + 1;
      }
      assert events[i..] == [];
      if forall e :: e in events ==> EventPhysical(old(bodies), e) {
        EventsKeepEnergy(old(bodies), events);
      }
      SameShapesKeepMass(old(bodies), bodies);
    }

    /** The response to one contact event, as the body of the step's loop performs it. */
    method Respond(e: ContactEvent)
      requires EventDefined(bodies, e)
      modifies this
      ensures bodies == ApplyEvent(old(bodies), e)
    {
      match e {
        case Stopped(_, _) =>
        case Started(h1, h2, pair, _, _, axis) =>
          match pair {
            case None =>
            case Some(m) =>
              if IsCuboid(bodies[h1]) || IsCuboid(bodies[h2]) {
                match m.deepestNormal {
                  case None =>
                  case Some(n) =>
                    var v1 := Velocity(bodies[h1]);
                    bodies := bodies[h1 := WithVelocity(bodies[h1], Reflect(v1, n))];
                    var v2 := Velocity(bodies[h2]);
                    bodies := bodies[h2 := WithVelocity(bodies[h2], Reflect(v2, n))];
                }
              } else {
                var v1, v2 := bodies[h1].vel, bodies[h2].vel;
                var r := DiscResponse(v1, v2, bodies[h1].mass, bodies[h2].mass, axis);
                bodies := bodies[h1 := bodies[h1].(vel := r.0)];
                bodies := bodies[h2 := bodies[h2].(vel := r.1)];
              }
          }
      }
    }
  }
}
