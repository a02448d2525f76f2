/** The image particle field: the grid cells of a sampled picture, each pulled
    back to its home cell by a damped spring and pushed away by the pointer
    while the pointer is active. The pointer is a small state machine driven
    by the container's pointer and key handlers. All positions are
    percentages of the container. */
module ImageParticles {
  import GridSampler
  import opened Geometry

  type Particle = GridSampler.Particle

  const ForceRadius: real := 100.0
  const SpringStrength: real := 0.1
  const Damping: real := 0.8
  const MouseForce: real := 2.0
  /** A particle whose speed on both axes is at most this is at rest. */
  const RestThreshold: real := 0.01

  // ---------------------------------------------------------------------------
  // Pointer state

  /** A pointer coordinate as the pointer record holds it: a finite number, or
      one of the `Infinity`, `-Infinity` and `NaN` that dividing by a zero
      extent of the container gives. The field treats the three alike, since
      none of them passes the force-radius test. */
  datatype Coord = Finite(value: real) | NonFinite

  /** The pointer as the handlers leave it: its last position in percent of the
      container, whether it is active, and whether a press is held. */
  datatype Pointer = Pointer(x: Coord, y: Coord, moving: bool, touchActive: bool)

  /** The events the container reacts to; a move carries the pointer position
      already converted to percent. */
  datatype Event =
    | PointerMove(px: Coord, py: Coord)
    | PointerLeave
    | PointerDown
    | PointerUp
    | KeyDown(key: string)

  /** The keys that toggle the interaction. */
  predicate IsToggleKey(key: string) {
    key == "Enter" || key == " "
  }

  /** The pointer after one event. */
  function Next(s: Pointer, e: Event): (t: Pointer)
    ensures e.PointerMove? ==> t.moving && t.x == e.px && t.y == e.py
    ensures e.PointerLeave? || e.PointerUp? ==> !t.moving
    ensures e.PointerDown? ==> t.moving && t.touchActive
    ensures e.PointerUp? ==> !t.touchActive
    ensures !e.PointerDown? && !e.PointerUp? ==> t.touchActive == s.touchActive
    ensures !e.PointerMove? ==> t.x == s.x && t.y == s.y
    ensures e.KeyDown? ==> t.moving == (s.moving != IsToggleKey(e.key))
  {
    match e
    case PointerMove(px, py) => Pointer(px, py, true, s.touchActive)
    case PointerLeave => s.(moving := false)
    case PointerDown => s.(moving := true, touchActive := true)
    case PointerUp => s.(moving := false, touchActive := false)
    case KeyDown(key) => if IsToggleKey(key) then s.(moving := !s.moving) else s
  }

  /** The pointer after a sequence of events, in order. */
  function Replay(s: Pointer, events: seq<Event>): Pointer
    decreases |events|
  {
    if events == [] then s else Next(Replay(s, events[..|events| - 1]), events[|events| - 1])
  }

  /** Whether a press is held after the events: set by the last of the down and
      up events, the initial flag if there is none. */
  function HeldAfter(held: bool, events: seq<Event>): bool
    decreases |events|
  {
    if events == [] then held
    else
      var e := events[|events| - 1];
      if e.PointerDown? then true
      else if e.PointerUp? then false
      else HeldAfter(held, events[..|events| - 1])
  }

  /** Only pressing and releasing change touchActive: whatever the moves, leaves
      and keys in between, it is set exactly when the last of them was a press. */
  lemma {:induction false} TouchFollowsLastPress(s: Pointer, events: seq<Event>)
    ensures Replay(s, events).touchActive == HeldAfter(s.touchActive, events)
    decreases |events|
  {
    if events != [] {
      TouchFollowsLastPress(s, events[..|events| - 1]);
    }
  }

  /** Two toggle keys in a row, the same or different (Enter then Space, say),
      leave the pointer as it was. */
  lemma ToggleTwice(s: Pointer, k1: string, k2: string)
    requires IsToggleKey(k1) && IsToggleKey(k2)
    ensures Next(Next(s, KeyDown(k1)), KeyDown(k2)) == s
  {
  }

  /** Releasing after pressing clears both flags and keeps the position. */
  lemma PressRelease(s: Pointer)
    ensures Next(Next(s, PointerDown), PointerUp) == Pointer(s.x, s.y, false, false)
  {
  }

  /** Press, move, release: the pointer ends idle, with no press held, at the
      position of the move. */
  lemma PressMoveRelease(s: Pointer, px: Coord, py: Coord)
    ensures Replay(s, [PointerDown, PointerMove(px, py), PointerUp]) == Pointer(px, py, false, false)
  {
    assert [PointerDown, PointerMove(px, py), PointerUp][..2] == [PointerDown, PointerMove(px, py)];
    assert [PointerDown, PointerMove(px, py)][..1] == [PointerDown];
    assert [PointerDown][..0] == [];
  }

  /** `(client - origin) / extent * 100`: a coordinate relative to the
      container, in percent of its extent; not a finite number when the extent
      is zero. */
  function Percent(client: real, origin: real, extent: real): (r: Coord)
    ensures r.NonFinite? <==> extent == 0.0
    ensures r.Finite? ==> r.value * extent == (client - origin) * 100.0
    ensures 0.0 < extent && origin <= client <= origin + extent ==> r.Finite? && 0.0 <= r.value <= 100.0
    ensures extent != 0.0 && client == origin ==> r == Finite(0.0)
    ensures extent != 0.0 && client == origin + extent ==> r == Finite(100.0)
  {
    if extent == 0.0 then NonFinite
    else
      PercentOf(client - origin, extent);
      Finite((client - origin) / extent * 100.0)
  }

  /** The percentage that a part t is of a non-zero whole. */
  lemma PercentOf(t: real, extent: real)
    requires extent != 0.0
    ensures (t / extent * 100.0) * extent == t * 100.0
    ensures 0.0 < extent && 0.0 <= t <= extent ==> 0.0 <= t / extent * 100.0 <= 100.0
    ensures t == 0.0 ==> t / extent * 100.0 == 0.0
    ensures t == extent ==> t / extent * 100.0 == 100.0
  {
    var q := t / extent;
    assert q * extent == t;
    assert (q * 100.0) * extent == (q * extent) * 100.0;
    if 0.0 < extent {
      QuotientInUnit(t, extent);
    }
  }

  /** A part of a positive whole is a fraction between 0 and 1 of it. */
  lemma QuotientInUnit(t: real, extent: real)
    requires extent > 0.0
    ensures 0.0 <= t <= extent ==> 0.0 <= t / extent <= 1.0
  {
    var q := t / extent;
    assert q * extent == t;
    if t < 0.0 || extent < t {
    } else if q < 0.0 {
      PositiveProduct(-q, extent);
      assert false;
    } else if q > 1.0 {
      PositiveProduct(q - 1.0, extent);
      assert false;
    }
  }

  lemma PositiveProduct(a: real, b: real)
    requires a > 0.0 && b > 0.0
    ensures a * b > 0.0
  {
  }

  /** The box the container occupies on the page. */
  datatype Bounds = Bounds(left: real, top: real, width: real, height: real)

  /** The pointer state the container keeps between frames: the pointer record
      and the separate touch flag. */
  class PointerTracker {
    var x: Coord
    var y: Coord
    var moving: bool
    var touchActive: bool

    function State(): Pointer
      reads this
    {
      Pointer(x, y, moving, touchActive)
    }

    /** At mount the pointer is at the origin, idle, with no press held. */
    constructor ()
      ensures State() == Pointer(Finite(0.0), Finite(0.0), false, false)
    {
      x, y, moving, touchActive := Finite(0.0), Finite(0.0), false, false;
    }

    /** Stores the pointer as percentages of the container and marks it active. */
    method HandlePointerMove(clientX: real, clientY: real, rect: Bounds)
      modifies this
      ensures State() == Next(old(State()), PointerMove(Percent(clientX, rect.left, rect.width), Percent(clientY, rect.top, rect.height)))
      ensures 0.0 < rect.width && rect.left <= clientX <= rect.left + rect.width ==> x.Finite? && 0.0 <= x.value <= 100.0
      ensures 0.0 < rect.height && rect.top <= clientY <= rect.top + rect.height ==> y.Finite? && 0.0 <= y.value <= 100.0
      ensures rect.width == 0.0 ==> x == NonFinite
      ensures rect.height == 0.0 ==> y == NonFinite
    {
      var px := Percent(clientX, rect.left, rect.width);
      var py := Percent(clientY, rect.top, rect.height);
      x, y, moving := px, py, true;
    }

    method HandlePointerLeave()
      modifies this
      ensures State() == Next(old(State()), PointerLeave)
    {
      moving := false;
    }

    method HandlePointerDown()
      modifies this
      ensures State() == Next(old(State()), PointerDown)
    {
      touchActive := true;
      moving := true;
    }

    method HandlePointerUp()
      modifies this
      ensures State() == Next(old(State()), PointerUp)
    {
      touchActive := false;
      moving := false;
    }

    method HandleKeyDown(key: string)
      modifies this
      ensures State() == Next(old(State()), KeyDown(key))
    {
      if key == "Enter" || key == " " {
        moving := !moving;
      }
    }

    /** One particle's frame, reading the pointer as it stands; see Updated. */
    method UpdateParticlePosition(particle: Particle, push: (real, real, real) -> (real, real)) returns (q: Particle)
      ensures q == Updated(particle, State(), push)
    {
      var x, y, vx, vy, originalX, originalY := particle.x, particle.y, particle.vx, particle.vy, particle.originalX, particle.originalY;

      // A non-finite pointer coordinate makes the distance `Infinity` or
      // `NaN`, which fails the radius test.
      if this.moving && this.x.Finite? && this.y.Finite? {
        var dx := this.x.value - x;
        var dy := this.y.value - y;
        var distanceSquared := dx * dx + dy * dy;
        if distanceSquared < ForceRadius * ForceRadius {
          var forceMultiplier := if touchActive then MouseForce * 1.5 else MouseForce;
          var away := push(dx, dy, forceMultiplier);
          vx := vx - away.0;
          vy := vy - away.1;
        }
      }
      assert (vx, vy) == Repelled(particle, State(), push);

      var springX := originalX - x;
      var springY := originalY - y;
      vx := vx + springX * SpringStrength;
      vy := vy + springY * SpringStrength;

      vx := vx * Damping;
      vy := vy * Damping;

      x := x + vx;
      y := y + vy;

      q := particle.(x := x, y := y, vx := vx, vy := vy);
    }
  }

  // ---------------------------------------------------------------------------
  // The spring step

  /** The repulsion multiplier: half as strong again while a press is held. */
  function ForceMultiplier(touchActive: bool): (m: real)
    ensures touchActive ==> m == 3.0
    ensures !touchActive ==> m == 2.0
  {
    if touchActive then MouseForce * 1.5 else MouseForce
  }

  /** The velocity after the pointer's push. `push(dx, dy, m)` is the amount
      taken off the velocity of a particle (dx, dy) short of an active
      pointer, with multiplier m: the normalised offset scaled by
      `(1 - distance / 100) * m` in the source. */
  function Repelled(p: Particle, pointer: Pointer, push: (real, real, real) -> (real, real)): (real, real) {
    if pointer.moving && WithinForce(pointer, p.x, p.y) then
      var dx, dy := pointer.x.value - p.x, pointer.y.value - p.y;
      (p.vx - push(dx, dy, ForceMultiplier(pointer.touchActive)).0, p.vy - push(dx, dy, ForceMultiplier(pointer.touchActive)).1)
    else (p.vx, p.vy)
  }

  /** `distance < FORCE_RADIUS` for a particle at (x, y): false whenever a
      pointer coordinate is not finite, since the distance is then `Infinity`
      or `NaN`. */
  predicate WithinForce(pointer: Pointer, x: real, y: real) {
    && pointer.x.Finite? && pointer.y.Finite?
    && SquaredLength(pointer.x.value - x, pointer.y.value - y) < ForceRadius * ForceRadius
  }

  /** One update step of one particle: the pointer's push, the spring toward the home
      cell, damping, then integration. The colour and the home cell are kept;
      with the pointer idle the step is the linear spring. */
  function Updated(p: Particle, pointer: Pointer, push: (real, real, real) -> (real, real)): (q: Particle)
    ensures q.color == p.color && q.originalX == p.originalX && q.originalY == p.originalY
    ensures !pointer.moving ==>
      && q.vx == (p.vx + (p.originalX - p.x) * SpringStrength) * Damping && q.x == p.x + q.vx
      && q.vy == (p.vy + (p.originalY - p.y) * SpringStrength) * Damping && q.y == p.y + q.vy
  {
    var (vx, vy) := Repelled(p, pointer, push);
    var vx' := (vx + (p.originalX - p.x) * SpringStrength) * Damping;
    var vy' := (vy + (p.originalY - p.y) * SpringStrength) * Damping;
    p.(x := p.x + vx', y := p.y + vy', vx := vx', vy := vy')
  }

  /** A pointer left with a coordinate that is not a number, by a move over a
      container of zero width or height, pushes nothing: one update step is
      the idle pointer's step. Frames keep running while `moving` is set,
      though; see NonFiniteMoveKeepsStepping. */
  lemma NonFinitePointerIsIdle(p: Particle, pointer: Pointer, push: (real, real, real) -> (real, real))
    requires pointer.x.NonFinite? || pointer.y.NonFinite?
    ensures Updated(p, pointer, push) == Updated(p, pointer.(moving := false), push)
  {
  }

  /** A particle at home and at rest stays there while the pointer is idle. */
  lemma HomeIsFixed(p: Particle, pointer: Pointer, push: (real, real, real) -> (real, real))
    requires !pointer.moving
    requires p.x == p.originalX && p.y == p.originalY && p.vx == 0.0 && p.vy == 0.0
    ensures Updated(p, pointer, push) == p
  {
  }

  /** One axis of a particle relative to its home cell. */
  datatype Axis = Axis(offset: real, velocity: real)

  function XAxis(p: Particle): Axis { Axis(p.x - p.originalX, p.vx) }

  function YAxis(p: Particle): Axis { Axis(p.y - p.originalY, p.vy) }

  /** The idle step of one axis: `v' = 0.8 v - 0.08 e`, `e' = e + v'`. */
  function IdleAxisStep(a: Axis): (b: Axis)
    ensures b.offset == a.offset + b.velocity
  {
    Axis(0.92 * a.offset + 0.8 * a.velocity, 0.8 * a.velocity - 0.08 * a.offset)
  }

  /** With the pointer idle the two axes move independently, each by the
      linear recurrence of IdleAxisStep. */
  lemma IdleStepLinear(p: Particle, pointer: Pointer, push: (real, real, real) -> (real, real))
    requires !pointer.moving
    ensures XAxis(Updated(p, pointer, push)) == IdleAxisStep(XAxis(p))
    ensures YAxis(Updated(p, pointer, push)) == IdleAxisStep(YAxis(p))
  {
  }

  /** A particle released at rest closes 8% of its distance to home in its first update step. */
  lemma ReleaseFromRest(p: Particle, pointer: Pointer, push: (real, real, real) -> (real, real))
    requires !pointer.moving && p.vx == 0.0 && p.vy == 0.0
    ensures var q := Updated(p, pointer, push);
      q.x - q.originalX == 0.92 * (p.x - p.originalX) && q.y - q.originalY == 0.92 * (p.y - p.originalY)
  {
    IdleStepLinear(p, pointer, push);
  }

  /** The energy of an axis with displacement e and velocity v: a positive
      definite quadratic form, which the idle step scales by exactly 0.8 and
      which bounds both the displacement and the velocity. */
  function Energy(a: Axis): (w: real)
    ensures w >= 0.0625 * (a.offset * a.offset)
    ensures w >= 9.4375 * (a.velocity * a.velocity)
  {
    EnergyBounds(a.offset, a.velocity);
    a.offset * a.offset + 1.5 * a.offset * a.velocity + 10.0 * a.velocity * a.velocity
  }

  /** The form written as sums of squares, two ways. */
  lemma EnergyBounds(e: real, v: real)
    ensures e * e + 1.5 * e * v + 10.0 * v * v >= 0.0625 * (e * e)
    ensures e * e + 1.5 * e * v + 10.0 * v * v >= 9.4375 * (v * v)
  {
    var u, u' := e + 0.75 * v, e + 0.8 * v;
    assert e * e + 1.5 * e * v + 10.0 * v * v == u * u + 9.4375 * (v * v);
    assert e * e + 1.5 * e * v + 10.0 * v * v == 0.0625 * (e * e) + 0.9375 * (u' * u') + 9.4 * (v * v);
    NonNegativeSquare(u);
    NonNegativeSquare(u');
    NonNegativeSquare(v);
  }

  lemma NonNegativeSquare(a: real)
    ensures a * a >= 0.0
  {
    if a < 0.0 {
      var b := -a;
      assert a * a == b * b;
    }
  }

  /** Every idle step takes a fifth off the energy of an axis. */
  lemma EnergyContracts(a: Axis)
    ensures Energy(IdleAxisStep(a)) == 0.8 * Energy(a)
  {
    var e, v := a.offset, a.velocity;
    var e', v' := 0.92 * e + 0.8 * v, 0.8 * v - 0.08 * e;
    assert e' * e' == 0.8464 * (e * e) + 1.472 * (e * v) + 0.64 * (v * v);
    assert e' * v' == -0.0736 * (e * e) + 0.672 * (e * v) + 0.64 * (v * v);
    assert v' * v' == 0.0064 * (e * e) - 0.128 * (e * v) + 0.64 * (v * v);
  }

  /** `0.8` to the power n. */
  function Decay(n: nat): (d: real)
    ensures 0.0 < d <= 1.0
  {
    if n == 0 then 1.0 else 0.8 * Decay(n - 1)
  }

  /** An axis after n idle steps. */
  function AxisSteps(a: Axis, n: nat): Axis {
    if n == 0 then a else IdleAxisStep(AxisSteps(a, n - 1))
  }

  /** The particle after n calls of the update with the pointer idle
      throughout. A frame of the field makes such a call only while it has
      work (see NeedsUpdate), so these are steps, not frames. */
  function IdleSteps(p: Particle, pointer: Pointer, push: (real, real, real) -> (real, real), n: nat): Particle
    requires !pointer.moving
  {
    if n == 0 then p else Updated(IdleSteps(p, pointer, push, n - 1), pointer, push)
  }

  /** n idle update steps of a particle are n idle steps of each of its axes. */
  lemma {:induction false} IdleStepsByAxis(p: Particle, pointer: Pointer, push: (real, real, real) -> (real, real), n: nat)
    requires !pointer.moving
    ensures XAxis(IdleSteps(p, pointer, push, n)) == AxisSteps(XAxis(p), n)
    ensures YAxis(IdleSteps(p, pointer, push, n)) == AxisSteps(YAxis(p), n)
  {
    if n > 0 {
      IdleStepsByAxis(p, pointer, push, n - 1);
      IdleStepLinear(IdleSteps(p, pointer, push, n - 1), pointer, push);
    }
  }

  /** Left alone, an axis loses energy geometrically: after n idle steps it
      has `0.8^n` of what it had. */
  lemma {:induction false} EnergyDecays(a: Axis, n: nat)
    ensures Energy(AxisSteps(a, n)) == Decay(n) * Energy(a)
  {
    if n > 0 {
      EnergyDecays(a, n - 1);
      EnergyContracts(AxisSteps(a, n - 1));
      Rescale(Energy(AxisSteps(a, n - 1)), Energy(AxisSteps(a, n)), Decay(n - 1), Energy(a));
    }
  }

  lemma Rescale(a: real, b: real, d: real, e: real)
    requires a == d * e && b == 0.8 * a
    ensures b == (0.8 * d) * e
  {
  }

  /** An axis left alone returns to zero: after n idle steps its squared
      displacement is at most `16 * 0.8^n` times its initial energy. With
      IdleStepsByAxis this bounds the distance from home of a particle after
      n idle update steps, for as long as the field keeps updating it. */
  lemma AxisReturnsHome(a: Axis, n: nat)
    ensures AxisSteps(a, n).offset * AxisSteps(a, n).offset <= 16.0 * (Decay(n) * Energy(a))
  {
    EnergyDecays(a, n);
    var b := AxisSteps(a, n);
    assert Energy(b) >= 0.0625 * (b.offset * b.offset);
  }

  /** The idle spring is underdamped, so the distance from home is not
      monotone: an axis released at rest one unit from home has crossed home
      and is about 0.065 past it after 7 steps, and about 0.171 past it after 8. */
  lemma Overshoots()
    ensures var seven := AxisSteps(Axis(1.0, 0.0), 7).offset;
            var eight := AxisSteps(Axis(1.0, 0.0), 8).offset;
      -0.07 < seven < -0.06 && eight < -0.17 && Abs(seven) < Abs(eight)
  {
    var a := Axis(1.0, 0.0);
    var a1 := IdleAxisStep(a);
    var a2 := IdleAxisStep(a1);
    var a3 := IdleAxisStep(a2);
    var a4 := IdleAxisStep(a3);
    var a5 := IdleAxisStep(a4);
    var a6 := IdleAxisStep(a5);
    var a7 := IdleAxisStep(a6);
    var a8 := IdleAxisStep(a7);
    assert AxisSteps(a, 1) == a1;
    assert AxisSteps(a, 2) == a2;
    assert AxisSteps(a, 3) == a3;
    assert AxisSteps(a, 4) == a4;
    assert AxisSteps(a, 5) == a5;
    assert AxisSteps(a, 6) == a6;
    assert AxisSteps(a, 7) == a7;
    assert AxisSteps(a, 8) == a8;
  }

  // ---------------------------------------------------------------------------
  // The frame

  /** The test `Math.abs(vx) > 0.01 || Math.abs(vy) > 0.01` of the frame. */
  predicate Restless(p: Particle) {
    Abs(p.vx) > RestThreshold || Abs(p.vy) > RestThreshold
  }

  /** Whether a frame has anything to do: the pointer is active or some
      particle is not at rest. */
  function NeedsUpdate(pointer: Pointer, ps: seq<Particle>): (b: bool)
    ensures b <==> pointer.moving || exists i :: 0 <= i < |ps| && Restless(ps[i])
    decreases |ps|
  {
    if ps == [] then pointer.moving
    else NeedsUpdate(pointer, ps[..|ps| - 1]) || Restless(ps[|ps| - 1])
  }

  /** One frame over the field: every particle stepped, in order, or the
      current array itself when there is nothing to do. */
  function UpdateParticles(ps: seq<Particle>, pointer: Pointer, push: (real, real, real) -> (real, real)): (r: seq<Particle>)
    ensures |r| == |ps|
    ensures NeedsUpdate(pointer, ps) ==> forall i :: 0 <= i < |ps| ==> r[i] == Updated(ps[i], pointer, push)
    ensures !NeedsUpdate(pointer, ps) ==> r == ps
  {
    if !NeedsUpdate(pointer, ps) then ps
    else seq(|ps|, i requires 0 <= i < |ps| => Updated(ps[i], pointer, push))
  }

  /** An idle pointer over a field at rest leaves the field alone. */
  lemma IdleFrameIsKept(ps: seq<Particle>, pointer: Pointer, push: (real, real, real) -> (real, real))
    requires !pointer.moving
    requires forall i :: 0 <= i < |ps| ==> Abs(ps[i].vx) <= RestThreshold && Abs(ps[i].vy) <= RestThreshold
    ensures UpdateParticles(ps, pointer, push) == ps
  {
  }

  /** The field after n frames. */
  function Frames(ps: seq<Particle>, pointer: Pointer, push: (real, real, real) -> (real, real), n: nat): seq<Particle> {
    if n == 0 then ps else UpdateParticles(Frames(ps, pointer, push, n - 1), pointer, push)
  }

  /** A field at rest under an idle pointer is frozen: no later frame changes
      it, wherever its particles stand. */
  lemma {:induction false} FrozenFieldStaysFrozen(ps: seq<Particle>, pointer: Pointer, push: (real, real, real) -> (real, real), n: nat)
    requires !pointer.moving
    requires forall i :: 0 <= i < |ps| ==> Abs(ps[i].vx) <= RestThreshold && Abs(ps[i].vy) <= RestThreshold
    ensures Frames(ps, pointer, push, n) == ps
  {
    if n > 0 {
      FrozenFieldStaysFrozen(ps, pointer, push, n - 1);
      IdleFrameIsKept(ps, pointer, push);
    }
  }

  /** The field can freeze away from home: a particle at rest one unit from
      its home cell stays there for every frame, although one update step
      would move it 8% of the way home. */
  lemma FrozenOffHome(p: Particle, pointer: Pointer, push: (real, real, real) -> (real, real), n: nat)
    requires !pointer.moving
    requires p.x == p.originalX + 1.0 && p.y == p.originalY && p.vx == 0.0 && p.vy == 0.0
    ensures Frames([p], pointer, push, n) == [p]
    ensures Updated(p, pointer, push).x == p.originalX + 0.92
  {
    FrozenFieldStaysFrozen([p], pointer, push, n);
  }

  /** A move over a zero-size container leaves `moving` set, so the frame keeps
      stepping a field at rest, where an idle pointer would leave it alone: a
      particle at rest one unit from home is moved to 0.92 units from home. */
  lemma NonFiniteMoveKeepsStepping(s: Pointer, p: Particle, push: (real, real, real) -> (real, real))
    requires p.x == p.originalX + 1.0 && p.y == p.originalY && p.vx == 0.0 && p.vy == 0.0
    ensures var pointer := Next(s, PointerMove(NonFinite, NonFinite));
      && UpdateParticles([p], pointer, push)[0].x == p.originalX + 0.92
      && UpdateParticles([p], pointer.(moving := false), push) == [p]
  {
    var pointer := Next(s, PointerMove(NonFinite, NonFinite));
    assert NeedsUpdate(pointer, [p]);
    NonFinitePointerIsIdle(p, pointer, push);
    IdleFrameIsKept([p], pointer.(moving := false), push);
  }

  /** A frame never changes the colours or the home cells, whatever the pointer does. */
  lemma FrameKeepsPicture(ps: seq<Particle>, pointer: Pointer, push: (real, real, real) -> (real, real))
    ensures var r := UpdateParticles(ps, pointer, push);
      forall i :: 0 <= i < |ps| ==>
        r[i].color == ps[i].color && r[i].originalX == ps[i].originalX && r[i].originalY == ps[i].originalY
  {
  }
}
