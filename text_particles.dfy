/** The text particle field: one particle per character of a word, laid out as
    a centred row of letter slots, advanced once per animation frame toward its
    slot while reacting to the pointer and bouncing off the container walls. */
module TextParticles {
  import opened Geometry

  const Friction: real := 0.97
  const InitialVelocityRange: real := 4.0
  const KeyboardStep: real := 20.0
  const LetterGap: real := 4.0
  const LetterWidth: real := 40.0
  const MouseRadius: real := 40.0
  const DampingDistance: real := 5.0
  /** The extra velocity factor applied near the target. */
  const NearDamping: real := 0.8

  /** A UTF-16 code unit, the element of a JavaScript string. */
  newtype CodeUnit = n: int | 0 <= n < 0x1_0000

  datatype Particle = Particle(x: real, y: real, vx: real, vy: real, letter: CodeUnit, targetX: real, targetY: real)

  /** The container's bounding box as far as the field uses it. */
  datatype Rect = Rect(width: real, height: real)

  datatype Point = Point(x: real, y: real)

  // ---------------------------------------------------------------------------
  // Words as JavaScript strings

  /** The UTF-16 encoding of a word, which is what a JavaScript string holds:
      `word.length` counts these code units and `word.split('')` yields them
      one by one. Characters of the Basic Multilingual Plane are one unit
      each, any other character is a surrogate pair. */
  function Utf16(s: string): (u: seq<CodeUnit>)
    ensures |s| <= |u| <= 2 * |s|
    ensures (forall i :: 0 <= i < |s| ==> (s[i] as int) < 0x1_0000) ==>
      |u| == |s| && forall i :: 0 <= i < |s| ==> u[i] as int == s[i] as int
    decreases |s|
  {
    if s == [] then []
    else
      var front := s[..|s| - 1];
      assert forall i :: 0 <= i < |front| ==> front[i] == s[i];
      Utf16(front) + CodeUnits(s[|s| - 1])
  }

  /** The code units of one character: itself below 0x10000, otherwise a high
      surrogate followed by a low one, which decode back to the character. */
  function CodeUnits(c: char): (u: seq<CodeUnit>)
    ensures (c as int) < 0x1_0000 ==> u == [c as int as CodeUnit]
    ensures (c as int) >= 0x1_0000 ==>
      && |u| == 2
      && 0xD800 <= u[0] < 0xDC00 && 0xDC00 <= u[1] < 0xE000
      && ((u[0] - 0xD800) as int) * 0x400 + ((u[1] - 0xDC00) as int) + 0x1_0000 == c as int
  {
    var n := c as int;
    if n < 0x1_0000 then [n as CodeUnit]
    else [(0xD800 + (n - 0x1_0000) / 0x400) as CodeUnit, (0xDC00 + (n - 0x1_0000) % 0x400) as CodeUnit]
  }

  // ---------------------------------------------------------------------------
  // Layout

  /** The width of a row of n letter slots, `n * 40 + (n - 1) * 4`. */
  function WordWidth(n: nat): real {
    (n as real) * LetterWidth + ((n - 1) as real) * LetterGap
  }

  /** The target x of slot i in a row of n slots centred in a container of the given width. */
  function SlotX(n: nat, width: real, i: nat): real {
    (width - WordWidth(n)) / 2.0 + (i as real) * (LetterWidth + LetterGap)
  }

  /** Neighbouring slots are one letter and one gap apart. */
  lemma SlotsEvenlySpaced(n: nat, width: real, i: nat)
    ensures SlotX(n, width, i + 1) - SlotX(n, width, i) == 44.0
  {
  }

  /** The row is centred: the space left of the first slot equals the space right of the last. */
  lemma RowCentred(n: nat, width: real)
    requires n > 0
    ensures SlotX(n, width, 0) == width - (SlotX(n, width, n - 1) + LetterWidth)
  {
  }

  predicate InUnit(r: real) { 0.0 <= r < 1.0 }

  /** `(Math.random() - 0.5) * 4` for a random value r. */
  function InitialVelocity(r: real): (v: real)
    requires InUnit(r)
    ensures -2.0 <= v < 2.0
  {
    (r - 0.5) * InitialVelocityRange
  }

  /** The particles of a new word: one per code unit, in order, all starting
      at the centre of the container with a random velocity, each aimed at its
      own slot. `randoms[i]` are the two random values drawn for code unit i. */
  function InitializeParticles(word: seq<CodeUnit>, rect: Rect, randoms: seq<(real, real)>): (ps: seq<Particle>)
    requires |randoms| == |word|
    requires forall i :: 0 <= i < |randoms| ==> InUnit(randoms[i].0) && InUnit(randoms[i].1)
    ensures |ps| == |word|
    ensures forall i :: 0 <= i < |ps| ==>
      && ps[i].letter == word[i]
      && ps[i].x == rect.width / 2.0 && ps[i].y == rect.height / 2.0
      && -2.0 <= ps[i].vx < 2.0 && -2.0 <= ps[i].vy < 2.0
      && ps[i].targetX == SlotX(|word|, rect.width, i) && ps[i].targetY == rect.height / 2.0
  {
    seq(|word|, i requires 0 <= i < |word| =>
      Particle(rect.width / 2.0, rect.height / 2.0,
               InitialVelocity(randoms[i].0), InitialVelocity(randoms[i].1),
               word[i], SlotX(|word|, rect.width, i), rect.height / 2.0))
  }

  /** The layout of a new word: consecutive targets 44 apart on the centre
      line, the row centred in the container. */
  lemma InitialLayout(word: seq<CodeUnit>, rect: Rect, randoms: seq<(real, real)>)
    requires |randoms| == |word|
    requires forall i :: 0 <= i < |randoms| ==> InUnit(randoms[i].0) && InUnit(randoms[i].1)
    ensures var ps := InitializeParticles(word, rect, randoms);
      && (forall i :: 0 <= i < |ps| - 1 ==> ps[i + 1].targetX - ps[i].targetX == 44.0)
      && (|ps| > 0 ==> ps[0].targetX == rect.width - (ps[|ps| - 1].targetX + LetterWidth))
  {
    var ps := InitializeParticles(word, rect, randoms);
    forall i | 0 <= i < |ps| - 1 ensures ps[i + 1].targetX - ps[i].targetX == 44.0 {
      SlotsEvenlySpaced(|word|, rect.width, i);
    }
    if |ps| > 0 {
      RowCentred(|word|, rect.width);
    }
  }

  /** The word of the component's tests in their 1000 x 1000 container: four
      particles T, E, S, T aimed at x = 414, 458, 502, 546 on the line y = 500. */
  lemma TestWordLayout(randoms: seq<(real, real)>)
    requires |randoms| == 4
    requires forall i :: 0 <= i < 4 ==> InUnit(randoms[i].0) && InUnit(randoms[i].1)
    ensures var ps := InitializeParticles(Utf16("TEST"), Rect(1000.0, 1000.0), randoms);
      && |ps| == 4
      && (forall i :: 0 <= i < 4 ==> ps[i].letter as int == "TEST"[i] as int)
      && ps[0].targetX == 414.0 && ps[1].targetX == 458.0 && ps[2].targetX == 502.0 && ps[3].targetX == 546.0
      && forall i :: 0 <= i < 4 ==> ps[i].targetY == 500.0 && ps[i].x == 500.0 && ps[i].y == 500.0
  {
  }

  /** A character outside the Basic Multilingual Plane takes two slots: "A"
      followed by U+1F600 lays out a row of three particles, the second and
      third holding the two surrogate halves, in the slots 436, 480 and 524 of
      a 1000-pixel container. */
  lemma SurrogatePairTakesTwoSlots(randoms: seq<(real, real)>)
    requires |randoms| == 3
    requires forall i :: 0 <= i < 3 ==> InUnit(randoms[i].0) && InUnit(randoms[i].1)
    ensures var ps := InitializeParticles(Utf16("A\U{1F600}"), Rect(1000.0, 1000.0), randoms);
      && |ps| == 3
      && ps[0].letter == 0x41 && ps[1].letter == 0xD83D && ps[2].letter == 0xDE00
      && ps[0].targetX == 436.0 && ps[1].targetX == 480.0 && ps[2].targetX == 524.0
  {
    assert Utf16("A\U{1F600}") == [0x41, 0xD83D, 0xDE00];
  }

  /** The resize handler: every target is rewritten for the new container,
      with the layout of a word of `wordLength` letters; position, velocity
      and letter are kept, so the particles glide to their new slots. */
  function HandleResize(prev: seq<Particle>, wordLength: nat, rect: Rect): (ps: seq<Particle>)
    ensures |ps| == |prev|
    ensures forall i :: 0 <= i < |ps| ==>
      && ps[i].x == prev[i].x && ps[i].y == prev[i].y
      && ps[i].vx == prev[i].vx && ps[i].vy == prev[i].vy
      && ps[i].letter == prev[i].letter
      && ps[i].targetX == SlotX(wordLength, rect.width, i) && ps[i].targetY == rect.height / 2.0
  {
    seq(|prev|, i requires 0 <= i < |prev| =>
      prev[i].(targetX := SlotX(wordLength, rect.width, i), targetY := rect.height / 2.0))
  }

  /** Only the last resize counts. */
  lemma ResizeTwice(prev: seq<Particle>, wordLength: nat, first: Rect, second: Rect)
    ensures HandleResize(HandleResize(prev, wordLength, first), wordLength, second)
         == HandleResize(prev, wordLength, second)
  {
  }

  /** Resizing a freshly laid-out word gives the targets a fresh layout in the
      new container would give, and keeps everything else. */
  lemma ResizeMatchesFreshLayout(word: seq<CodeUnit>, before: Rect, after: Rect, randoms: seq<(real, real)>)
    requires |randoms| == |word|
    requires forall i :: 0 <= i < |randoms| ==> InUnit(randoms[i].0) && InUnit(randoms[i].1)
    ensures var resized := HandleResize(InitializeParticles(word, before, randoms), |word|, after);
            var laidOut := InitializeParticles(word, after, randoms);
      forall i :: 0 <= i < |word| ==>
        resized[i] == laidOut[i].(x := before.width / 2.0, y := before.height / 2.0)
  {
  }

  // ---------------------------------------------------------------------------
  // Keyboard

  /** An arrow key moves the pointer 20 pixels; any other key leaves it. */
  function HandleKeyboardNavigation(pointer: Point, key: string): (r: Point)
    ensures key == "ArrowUp" ==> r == Point(pointer.x, pointer.y - 20.0)
    ensures key == "ArrowDown" ==> r == Point(pointer.x, pointer.y + 20.0)
    ensures key == "ArrowLeft" ==> r == Point(pointer.x - 20.0, pointer.y)
    ensures key == "ArrowRight" ==> r == Point(pointer.x + 20.0, pointer.y)
    ensures key !in {"ArrowUp", "ArrowDown", "ArrowLeft", "ArrowRight"} ==> r == pointer
  {
    match key
    case "ArrowUp" => pointer.(y := pointer.y - KeyboardStep)
    case "ArrowDown" => pointer.(y := pointer.y + KeyboardStep)
    case "ArrowLeft" => pointer.(x := pointer.x - KeyboardStep)
    case "ArrowRight" => pointer.(x := pointer.x + KeyboardStep)
    case _ => pointer
  }

  /** Opposite arrows undo each other. */
  lemma OppositeArrowsCancel(pointer: Point)
    ensures HandleKeyboardNavigation(HandleKeyboardNavigation(pointer, "ArrowUp"), "ArrowDown") == pointer
    ensures HandleKeyboardNavigation(HandleKeyboardNavigation(pointer, "ArrowLeft"), "ArrowRight") == pointer
  {
  }

  // ---------------------------------------------------------------------------
  // The frame step

  /** What one frame reads besides the particles. The pointer repulsion and the
      distance-scaled spring (square roots and trigonometry in the source) enter
      as velocity increments: `repulsion(dx, dy)` for a particle (dx, dy) away
      from the pointer, `spring(tx, ty)` for a particle (tx, ty) short of its target. */
  datatype Frame = Frame(
    rect: Rect,
    focused: bool,
    pointer: Point,
    repulsion: (real, real) -> (real, real),
    spring: (real, real) -> (real, real))

  /** The distance comparisons of the source, without the square root: for a
      distance d whose square is the squared distance, d < r exactly when the
      squared distance is below r^2, and d is zero exactly when the squared
      distance is. */
  lemma DistanceComparison(squared: real, d: real, r: real)
    requires d >= 0.0 && d * d == squared && r > 0.0
    ensures d < r <==> squared < r * r
    ensures d == 0.0 <==> squared == 0.0
  {
    if d < r {
      SquareBelow(d, r);
    } else if r < d {
      SquareBelow(r, d);
    }
    if d > 0.0 {
      SquareBelow(0.0, d);
    }
  }

  /** Squaring is strictly monotone on the non-negative reals. */
  lemma SquareBelow(d: real, r: real)
    requires 0.0 <= d < r
    ensures d * d < r * r
  {
    var dd, dr, rr := d * d, d * r, r * r;
    assert dd <= dr;
    assert dr < rr;
  }

  /** Integration has placed the particle at pos on an axis of the given
      length: the wall reflection keeps it inside, turned inward at a wall. */
  function WallClamp(pos: real, vel: real, limit: real): (r: (real, real))
    ensures 0.0 <= limit ==> 0.0 <= r.0 <= limit
    ensures pos <= 0.0 ==> r.0 == 0.0 && r.1 >= 0.0 && Abs(r.1) == Abs(vel)
    ensures 0.0 < pos && limit <= pos ==> r.0 == limit && r.1 <= 0.0 && Abs(r.1) == Abs(vel)
    ensures 0.0 < pos < limit ==> r == (pos, vel)
  {
    if pos <= 0.0 then (0.0, Abs(vel))
    else if pos >= limit then (limit, -Abs(vel))
    else (pos, vel)
  }

  /** The target y this frame steers toward: the container's centre line while
      the input has focus, the stored target otherwise. */
  function EffectiveTargetY(p: Particle, f: Frame): real {
    if f.focused then f.rect.height / 2.0 else p.targetY
  }

  /** The pointer repulsion, applied inside the mouse radius; (dx, dy) is the
      particle's offset from the pointer and `squared` its squared length. */
  function Repelled(dx: real, dy: real, squared: real, vx: real, vy: real, f: Frame): (real, real) {
    if squared < MouseRadius * MouseRadius
    then (vx + f.repulsion(dx, dy).0, vy + f.repulsion(dx, dy).1)
    else (vx, vy)
  }

  /** The spring toward the target, skipped when the target is reached (which
      spares the source a division by a zero distance), then the extra
      damping within 5 pixels of the target. (tx, ty) is what is left to go
      and `squared` its squared length. */
  function Pulled(tx: real, ty: real, squared: real, vx: real, vy: real, f: Frame): (real, real) {
    var (vx, vy) := if squared != 0.0 then (vx + f.spring(tx, ty).0, vy + f.spring(tx, ty).1) else (vx, vy);
    if squared < DampingDistance * DampingDistance then (vx * NearDamping, vy * NearDamping) else (vx, vy)
  }

  /** One frame of one particle: integrate, reflect at the walls, repulsion
      inside the mouse radius, spring toward a target not yet reached, extra
      damping within 5 pixels of the target, then friction. */
  function Stepped(p: Particle, f: Frame): (q: Particle)
    ensures q.letter == p.letter && q.targetX == p.targetX && q.targetY == p.targetY
    ensures f.rect.width >= 0.0 ==> 0.0 <= q.x <= f.rect.width
    ensures f.rect.height >= 0.0 ==> 0.0 <= q.y <= f.rect.height
  {
    var horizontal := WallClamp(p.x + p.vx, p.vx, f.rect.width);
    var vertical := WallClamp(p.y + p.vy, p.vy, f.rect.height);
    var x, y := horizontal.0, vertical.0;
    var dx, dy := x - f.pointer.x, y - f.pointer.y;
    var repelled := Repelled(dx, dy, SquaredLength(dx, dy), horizontal.1, vertical.1, f);
    var tx, ty := p.targetX - x, EffectiveTargetY(p, f) - y;
    var pulled := Pulled(tx, ty, SquaredLength(tx, ty), repelled.0, repelled.1, f);
    p.(x := x, y := y, vx := pulled.0 * Friction, vy := pulled.1 * Friction)
  }

  /** The focus override is a target for this frame only: stepping a focused
      particle is stepping it with its target moved to the centre line, and
      then putting the stored target back. */
  lemma FocusOverride(p: Particle, f: Frame)
    requires f.focused
    ensures Stepped(p, f) == Stepped(p.(targetY := f.rect.height / 2.0), f.(focused := false)).(targetY := p.targetY)
  {
    var p', f' := p.(targetY := f.rect.height / 2.0), f.(focused := false);
    assert EffectiveTargetY(p', f') == EffectiveTargetY(p, f);
  }

  /** A particle resting on its target inside the container, out of the
      pointer's reach, stays exactly where it is. */
  lemma RestIsFixed(p: Particle, f: Frame)
    requires 0.0 <= p.x <= f.rect.width && 0.0 <= p.y <= f.rect.height
    requires p.vx == 0.0 && p.vy == 0.0
    requires p.x == p.targetX && p.y == EffectiveTargetY(p, f)
    requires (p.x - f.pointer.x) * (p.x - f.pointer.x) + (p.y - f.pointer.y) * (p.y - f.pointer.y) >= MouseRadius * MouseRadius
    ensures Stepped(p, f) == p
  {
    assert WallClamp(p.x + p.vx, p.vx, f.rect.width) == (p.x, 0.0);
    assert WallClamp(p.y + p.vy, p.vy, f.rect.height) == (p.y, 0.0);
    var dx, dy := p.x - f.pointer.x, p.y - f.pointer.y;
    assert Repelled(dx, dy, SquaredLength(dx, dy), 0.0, 0.0, f) == (0.0, 0.0);
    assert SquaredLength(0.0, 0.0) == 0.0;
  }

  /** A word too wide for its container puts slots outside it: twenty letters
      in a 375-pixel container run from -250.5 to 585.5. Every step clamps x
      into the container, so a particle whose slot lies outside is held at or
      inside the wall and never stands on its target. */
  lemma LongWordOverflows(p: Particle, f: Frame)
    requires f.rect.width == 375.0 && p.targetX == SlotX(20, f.rect.width, 0)
    ensures SlotX(20, f.rect.width, 0) == -250.5 && SlotX(20, f.rect.width, 19) == 585.5
    ensures Stepped(p, f).x != p.targetX
  {
  }

  /** The change test of the frame: position or velocity differs. */
  predicate Moved(p: Particle, q: Particle) {
    q.x != p.x || q.y != p.y || q.vx != p.vx || q.vy != p.vy
  }

  /** A step that moves nothing returns the particle itself, so skipping such
      a frame loses nothing. */
  lemma UnmovedIsUnchanged(p: Particle, f: Frame)
    requires !Moved(p, Stepped(p, f))
    ensures Stepped(p, f) == p
  {
  }

  /** The wall test of one axis, done in place on the position and velocity. */
  method Bounce(pos: real, vel: real, limit: real) returns (pos': real, vel': real)
    ensures (pos', vel') == WallClamp(pos, vel, limit)
  {
    pos', vel' := pos, vel;
    if pos' <= 0.0 {
      pos' := 0.0;
      vel' := Abs(vel');
    } else if pos' >= limit {
      pos' := limit;
      vel' := -Abs(vel');
    }
  }

  /** The body of the frame's map over the particles, which reassigns its local
      copies of position, velocity and target step by step. */
  method StepParticle(particle: Particle, f: Frame) returns (q: Particle)
    ensures q == Stepped(particle, f)
  {
    var centerY := f.rect.height / 2.0;
    var x, y, vx, vy, targetX, targetY := particle.x, particle.y, particle.vx, particle.vy, particle.targetX, particle.targetY;

    if f.focused {
      targetY := centerY;
    }

    x := x + vx;
    y := y + vy;

    x, vx := Bounce(x, vx, f.rect.width);
    y, vy := Bounce(y, vy, f.rect.height);

    var dx := x - f.pointer.x;
    var dy := y - f.pointer.y;
    var distanceSquared := dx * dx + dy * dy;
    if distanceSquared < MouseRadius * MouseRadius {
      var push := f.repulsion(dx, dy);
      vx := vx + push.0;
      vy := vy + push.1;
    }
    assert (vx, vy) == Repelled(dx, dy, SquaredLength(dx, dy), WallClamp(particle.x + particle.vx, particle.vx, f.rect.width).1,
      WallClamp(particle.y + particle.vy, particle.vy, f.rect.height).1, f);
    ghost var repelled := (vx, vy);

    var toTargetX := targetX - x;
    var toTargetY := targetY - y;
    var squaredDistance := toTargetX * toTargetX + toTargetY * toTargetY;
    if squaredDistance != 0.0 {
      var pull := f.spring(toTargetX, toTargetY);
      vx := vx + pull.0;
      vy := vy + pull.1;
    }

    if squaredDistance < DampingDistance * DampingDistance {
      vx := vx * NearDamping;
      vy := vy * NearDamping;
    }
    assert targetY == EffectiveTargetY(particle, f);
    assert (vx, vy) == Pulled(toTargetX, toTargetY, SquaredLength(toTargetX, toTargetY), repelled.0, repelled.1, f);

    vx := vx * Friction;
    vy := vy * Friction;

    q := particle.(x := x, y := y, vx := vx, vy := vy);
  }

  /** One animation frame over the whole field. `replaced` tells whether a new
      array is handed over (and the field re-rendered); when no particle moved,
      the previous array is returned as it is. */
  method Animate(prev: seq<Particle>, f: Frame) returns (next: seq<Particle>, replaced: bool)
    ensures |next| == |prev|
    ensures forall i :: 0 <= i < |prev| ==> next[i] == Stepped(prev[i], f)
    ensures replaced <==> exists i :: 0 <= i < |prev| && Moved(prev[i], Stepped(prev[i], f))
    ensures !replaced ==> next == prev
  {
    var hasChanged := false;
    var newParticles: seq<Particle> := [];
    for k := 0 to |prev|
      invariant |newParticles| == k
      invariant forall i :: 0 <= i < k ==> newParticles[i] == Stepped(prev[i], f)
      invariant hasChanged <==> exists i :: 0 <= i < k && Moved(prev[i], Stepped(prev[i], f))
    {
      var particle := prev[k];
      var stepped := StepParticle(particle, f);
      if stepped.x != particle.x || stepped.y != particle.y || stepped.vx != particle.vx || stepped.vy != particle.vy {
        hasChanged := true;
      }
      newParticles := newParticles + [stepped];
    }
    if hasChanged {
      next, replaced := newParticles, true;
    } else {
      forall i | 0 <= i < |prev| ensures newParticles[i] == prev[i] {
        UnmovedIsUnchanged(prev[i], f);
      }
      next, replaced := prev, false;
    }
  }

  /** A field entirely at rest on its targets, out of the pointer's reach, is
      left alone by a frame. */
  lemma SettledFieldIsKept(prev: seq<Particle>, f: Frame)
    requires forall i :: 0 <= i < |prev| ==>
      && 0.0 <= prev[i].x <= f.rect.width && 0.0 <= prev[i].y <= f.rect.height
      && prev[i].vx == 0.0 && prev[i].vy == 0.0
      && prev[i].x == prev[i].targetX && prev[i].y == EffectiveTargetY(prev[i], f)
      && (prev[i].x - f.pointer.x) * (prev[i].x - f.pointer.x) + (prev[i].y - f.pointer.y) * (prev[i].y - f.pointer.y)
         >= MouseRadius * MouseRadius
    ensures !exists i :: 0 <= i < |prev| && Moved(prev[i], Stepped(prev[i], f))
  {
    forall i | 0 <= i < |prev| ensures !Moved(prev[i], Stepped(prev[i], f)) {
      RestIsFixed(prev[i], f);
    }
  }
}
