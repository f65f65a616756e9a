/**
 * One ball of the kinetic-balls animation as a value, and the stages of its
 * per-frame update (Particle.update) as functions on that value: soft wall
 * push, integration, hard wall clamp with reflection, mouse repulsion,
 * friction, and the speed floor and ceiling.
 *
 * Coordinates are reals. `Math.sqrt` and the pair
 * (`Math.cos(Math.atan2(dy, dx))`, `Math.sin(Math.atan2(dy, dx))`) are
 * library functions the caller supplies; `IsSqrt` and `IsPolar` state what
 * the model relies on about them.
 */
module Physics {

  const Speed: real := 0.8
  const Friction: real := 0.995
  const MinVelocity: real := 1.5
  const MaxSpeed: real := 8.0
  const Margin: real := 50.0
  const Repulsion: real := 0.2
  const InteractionRadius: real := 180.0
  const MouseStrength: real := 1.5

  datatype Body = Body(radius: real, x: real, y: real, vx: real, vy: real, color: string)

  datatype Mouse = Mouse(x: real, y: real, active: bool)

  /** (c, s) is a unit vector. */
  predicate IsUnit(c: real, s: real) {
    c * c + s * s == 1.0
  }

  /** `len` is the Euclidean length of (dx, dy). */
  predicate IsNorm(len: real, dx: real, dy: real) {
    0.0 <= len && len * len == dx * dx + dy * dy
  }

  /** (c, s) is the unit vector that, scaled by the length `dist`, gives (dx, dy). */
  predicate Toward(c: real, s: real, dx: real, dy: real, dist: real) {
    IsUnit(c, s) && c * dist == dx && s * dist == dy
  }

  /** `dx * dx + dy * dy`, the argument every `Math.sqrt` call of the animation is given. */
  function SquaredLength(dx: real, dy: real): real {
    dx * dx + dy * dy
  }

  /** `sqrt` behaves as `Math.sqrt` on non-negative reals. */
  ghost predicate IsSqrt(sqrt: real -> real) {
    forall v :: 0.0 <= v ==> 0.0 <= sqrt(v) && sqrt(v) * sqrt(v) == v
  }

  /**
   * `polar(dx, dy)` is (cos θ, sin θ) for θ = atan2(dy, dx): the unit vector
   * pointing along (dx, dy), and (1, 0) for the zero vector, as atan2(0, 0) = 0.
   */
  ghost predicate IsPolar(sqrt: real -> real, polar: (real, real) -> (real, real)) {
    && (forall dx, dy :: Toward(polar(dx, dy).0, polar(dx, dy).1, dx, dy, sqrt(SquaredLength(dx, dy))))
    && polar(0.0, 0.0) == (1.0, 0.0)
  }

  lemma SqrtIsNorm(sqrt: real -> real, dx: real, dy: real)
    requires IsSqrt(sqrt)
    ensures IsNorm(sqrt(SquaredLength(dx, dy)), dx, dy)
  {
    assert 0.0 <= dx * dx && 0.0 <= dy * dy;
  }

  lemma PolarToward(sqrt: real -> real, polar: (real, real) -> (real, real), dx: real, dy: real)
    requires IsPolar(sqrt, polar)
    ensures Toward(polar(dx, dy).0, polar(dx, dy).1, dx, dy, sqrt(SquaredLength(dx, dy)))
  {
  }

  // Small algebraic facts, each stated over plain variables.

  lemma ScaledUnit(c: real, s: real, m: real)
    requires IsUnit(c, s)
    ensures (c * m) * (c * m) + (s * m) * (s * m) == m * m
  {
    assert (c * m) * (c * m) + (s * m) * (s * m) == (c * c + s * s) * (m * m);
  }

  /** A velocity `m` times a unit vector has speed `m`. */
  lemma UnitVelocity(b: Body, c: real, s: real, m: real)
    requires IsUnit(c, s) && b.vx == c * m && b.vy == s * m
    ensures Speed2(b) == m * m
  {
    ScaledUnit(c, s, m);
  }

  lemma ScaledToward(c: real, s: real, m: real, dx: real, dy: real, dist: real)
    requires Toward(c, s, dx, dy, dist)
    ensures (c * m) * dist == m * dx && (s * m) * dist == m * dy
  {
    assert (c * m) * dist == m * (c * dist);
    assert (s * m) * dist == m * (s * dist);
  }

  lemma SmallSquare(v: real)
    requires -0.5 <= v < 0.5
    ensures v * v <= 0.25
  {
    if 0.0 <= v {
      assert v * v <= v * 0.5;
    } else {
      assert v * v <= (-v) * 0.5;
    }
  }

  lemma SquareMono(a: real, b: real)
    requires 0.0 <= a <= b
    ensures a * a <= b * b
  {
    assert a * a <= a * b;
    assert a * b <= b * b;
  }

  function Speed2(b: Body): real {
    SquaredLength(b.vx, b.vy)
  }

  /** Nothing but the velocity differs. */
  predicate SameButVelocity(r: Body, b: Body) {
    r.radius == b.radius && r.x == b.x && r.y == b.y && r.color == b.color
  }

  /**
   * Stage 0, soft wall push: within `Margin` of an edge the velocity gains
   * `Repulsion` away from that edge.
   */
  function SoftWallPush(b: Body, width: real, height: real): (r: Body)
    ensures SameButVelocity(r, b)
    ensures Margin <= b.x <= width - Margin ==> r.vx == b.vx
    ensures b.x < Margin && b.x <= width - Margin ==> r.vx == b.vx + Repulsion
    ensures width - Margin < b.x && Margin <= b.x ==> r.vx == b.vx - Repulsion
    ensures b.x < Margin && width - Margin < b.x ==> r.vx == b.vx
    ensures Margin <= b.y <= height - Margin ==> r.vy == b.vy
    ensures b.y < Margin && b.y <= height - Margin ==> r.vy == b.vy + Repulsion
    ensures height - Margin < b.y && Margin <= b.y ==> r.vy == b.vy - Repulsion
    ensures b.y < Margin && height - Margin < b.y ==> r.vy == b.vy
  {
    var vx1 := if b.x < Margin then b.vx + Repulsion else b.vx;
    var vx2 := if b.x > width - Margin then vx1 - Repulsion else vx1;
    var vy1 := if b.y < Margin then b.vy + Repulsion else b.vy;
    var vy2 := if b.y > height - Margin then vy1 - Repulsion else vy1;
    b.(vx := vx2, vy := vy2)
  }

  /** Stage 1, integration: the position moves by `Speed` times the velocity. */
  function Advance(b: Body): (r: Body)
    ensures r.radius == b.radius && r.vx == b.vx && r.vy == b.vy && r.color == b.color
    ensures r.x - b.x == Speed * b.vx && r.y - b.y == Speed * b.vy
  {
    b.(x := b.x + b.vx * Speed, y := b.y + b.vy * Speed)
  }

  predicate OutsideAxis(p: real, r: real, extent: real) {
    p > extent - r || p < r
  }

  /**
   * Stage 2 on one axis: a centre past `extent - r` or before `r` is put on
   * that boundary and the velocity component is reversed.
   */
  function WallAxis(p: real, v: real, r: real, extent: real): (pv: (real, real))
    ensures pv.1 == if OutsideAxis(p, r, extent) then -v else v
    ensures !OutsideAxis(p, r, extent) ==> pv.0 == p
    ensures p > extent - r ==> pv.0 == extent - r
    ensures extent - r >= p && p < r ==> pv.0 == r
    ensures 2.0 * r <= extent ==> r <= pv.0 <= extent - r
  {
    if p > extent - r then (extent - r, v * -1.0)
    else if p < r then (r, v * -1.0)
    else (p, v)
  }

  /** Stage 2, hard wall collision, on both axes with the radius as padding. */
  function WallCollide(b: Body, width: real, height: real): (r: Body)
    ensures r.radius == b.radius && r.color == b.color
    ensures (r.x, r.vx) == WallAxis(b.x, b.vx, b.radius, width)
    ensures (r.y, r.vy) == WallAxis(b.y, b.vy, b.radius, height)
  {
    var (x, vx) := WallAxis(b.x, b.vx, b.radius, width);
    var (y, vy) := WallAxis(b.y, b.vy, b.radius, height);
    b.(x := x, vx := vx, y := y, vy := vy)
  }

  /**
   * After the wall stage the centre is inside the walls (when the surface is
   * at least a diameter wide and high), a ball already inside has not moved,
   * and the speed is unchanged.
   */
  lemma WallCollideBounds(b: Body, width: real, height: real)
    ensures var r := WallCollide(b, width, height);
            && (2.0 * b.radius <= width ==> b.radius <= r.x <= width - b.radius)
            && (2.0 * b.radius <= height ==> b.radius <= r.y <= height - b.radius)
            && (!OutsideAxis(b.x, b.radius, width) && !OutsideAxis(b.y, b.radius, height) ==> r == b)
            && Speed2(r) == Speed2(b)
  {
  }

  /** The mouse force `(minDist - dist) / minDist` times the strength 1.5. */
  function PushMagnitude(dist: real): (m: real)
    ensures 0.0 <= dist < InteractionRadius ==> 0.0 < m <= MouseStrength
  {
    MouseStrength * ((InteractionRadius - dist) / InteractionRadius)
  }

  /**
   * Stage 3, mouse repulsion. `dist` is the length of the offset from the
   * mouse to the centre and (c, s) its direction.
   */
  function Repel(b: Body, ptr: Mouse, dist: real, c: real, s: real): (r: Body)
    ensures SameButVelocity(r, b)
    ensures !ptr.active || dist >= InteractionRadius ==> r == b
  {
    if ptr.active && dist < InteractionRadius then
      var force := (InteractionRadius - dist) / InteractionRadius;
      b.(vx := b.vx + c * force * MouseStrength, vy := b.vy + s * force * MouseStrength)
    else b
  }

  /**
   * Within the interaction radius of an active mouse the velocity gains a
   * vector of length 1.5 * (180 - dist) / 180, a value in (0, 1.5], pointing
   * from the mouse towards the ball.
   */
  lemma RepulsionPointsAway(b: Body, ptr: Mouse, dist: real, c: real, s: real)
    requires IsNorm(dist, b.x - ptr.x, b.y - ptr.y)
    requires Toward(c, s, b.x - ptr.x, b.y - ptr.y, dist)
    requires ptr.active && dist < InteractionRadius
    ensures var r := Repel(b, ptr, dist, c, s);
            var ax, ay, m := r.vx - b.vx, r.vy - b.vy, PushMagnitude(dist);
            && 0.0 < m <= MouseStrength
            && ax * ax + ay * ay == m * m
            && ax * dist == m * (b.x - ptr.x) && ay * dist == m * (b.y - ptr.y)
  {
    var m := PushMagnitude(dist);
    var r := Repel(b, ptr, dist, c, s);
    assert r.vx - b.vx == c * m && r.vy - b.vy == s * m;
    ScaledUnit(c, s, m);
    ScaledToward(c, s, m, b.x - ptr.x, b.y - ptr.y, dist);
  }

  /** Stage 4a, friction: both components are multiplied by 0.995. */
  function ApplyFriction(b: Body): (r: Body)
    ensures SameButVelocity(r, b)
    ensures r.vx == Friction * b.vx && r.vy == Friction * b.vy
  {
    b.(vx := b.vx * Friction, vy := b.vy * Friction)
  }

  /** Friction never speeds a ball up. */
  lemma FrictionSlows(b: Body)
    ensures Speed2(ApplyFriction(b)) == Friction * Friction * Speed2(b)
    ensures Speed2(ApplyFriction(b)) <= Speed2(b)
  {
    var r := ApplyFriction(b);
    assert Speed2(r) == Friction * Friction * Speed2(b);
    assert 0.0 <= Speed2(b);
  }

  function Scale(b: Body, k: real): (r: Body)
    ensures SameButVelocity(r, b)
    ensures r.vx == k * b.vx && r.vy == k * b.vy
  {
    b.(vx := b.vx * k, vy := b.vy * k)
  }

  /**
   * Stage 4b, speed floor and ceiling. `s` is the speed measured once after
   * friction; (u1, u2) are the two `Math.random()` draws used only when `s`
   * is zero. The ceiling test uses the same measured `s`.
   */
  function SpeedControl(b: Body, s: real, u1: real, u2: real): (r: Body)
    ensures SameButVelocity(r, b)
  {
    var b1 :=
      if s < MinVelocity && s > 0.0 then Scale(b, MinVelocity / s)
      else if s == 0.0 then b.(vx := u1 - 0.5, vy := u2 - 0.5)
      else b;
    if s > MaxSpeed then Scale(b1, MaxSpeed / s) else b1
  }

  lemma ScaledSpeed(b: Body, s: real, target: real)
    requires IsNorm(s, b.vx, b.vy) && 0.0 < s
    ensures Speed2(Scale(b, target / s)) == target * target
  {
    var k := target / s;
    assert k * s == target;
    calc {
      Speed2(Scale(b, k));
      (b.vx * k) * (b.vx * k) + (b.vy * k) * (b.vy * k);
      (k * k) * (s * s);
      (k * s) * (k * s);
    }
  }

  lemma ScaledDirection(b: Body, k: real)
    requires 0.0 < k && 0.0 < Speed2(b)
    ensures var r := Scale(b, k);
            r.vx * b.vy == r.vy * b.vx && 0.0 < r.vx * b.vx + r.vy * b.vy
  {
    var r := Scale(b, k);
    assert r.vx * b.vx + r.vy * b.vy == k * Speed2(b);
  }

  /**
   * After the floor/ceiling stage: a positive speed below 1.5 becomes 1.5, a
   * speed above 8 becomes 8, a speed in [1.5, 8] is left alone, and a
   * non-zero velocity keeps its direction.
   */
  lemma SpeedControlBand(b: Body, s: real, u1: real, u2: real)
    requires IsNorm(s, b.vx, b.vy)
    ensures var r := SpeedControl(b, s, u1, u2);
            && (0.0 < s < MinVelocity ==> Speed2(r) == MinVelocity * MinVelocity)
            && (MaxSpeed < s ==> Speed2(r) == MaxSpeed * MaxSpeed)
            && (MinVelocity <= s <= MaxSpeed ==> r == b)
            && (0.0 < s ==> r.vx * b.vy == r.vy * b.vx && 0.0 < r.vx * b.vx + r.vy * b.vy)
  {
    if 0.0 < s {
      assert 0.0 < Speed2(b) by { assert s * s == Speed2(b); }
      if s < MinVelocity {
        ScaledSpeed(b, s, MinVelocity);
        ScaledDirection(b, MinVelocity / s);
      } else if MaxSpeed < s {
        ScaledSpeed(b, s, MaxSpeed);
        ScaledDirection(b, MaxSpeed / s);
      }
    }
  }

  /**
   * A ball whose measured speed is exactly zero is reseeded with components
   * in [-0.5, 0.5); its speed is then below the 1.5 floor, which this frame
   * does not restore.
   */
  lemma ReseedBelowFloor(b: Body, u1: real, u2: real)
    requires 0.0 <= u1 < 1.0 && 0.0 <= u2 < 1.0
    ensures var r := SpeedControl(b, 0.0, u1, u2);
            && r.vx == u1 - 0.5 && r.vy == u2 - 0.5
            && Speed2(r) < MinVelocity * MinVelocity
  {
    var r := SpeedControl(b, 0.0, u1, u2);
    SmallSquare(r.vx);
    SmallSquare(r.vy);
  }

  /** Stages 0 to 4a of Particle.update: everything before the speed is measured. */
  function Coast(b: Body, width: real, height: real, ptr: Mouse,
                 sqrt: real -> real, polar: (real, real) -> (real, real)): (r: Body)
    ensures r.radius == b.radius && r.color == b.color
  {
    var b3 := WallCollide(Advance(SoftWallPush(b, width, height)), width, height);
    var dx, dy := b3.x - ptr.x, b3.y - ptr.y;
    var h := polar(dx, dy);
    ApplyFriction(Repel(b3, ptr, sqrt(SquaredLength(dx, dy)), h.0, h.1))
  }

  /** Particle.update: the stages in source order, then the speed floor and ceiling. */
  function StepBody(b: Body, width: real, height: real, ptr: Mouse,
                    sqrt: real -> real, polar: (real, real) -> (real, real), u1: real, u2: real): (r: Body)
    ensures r.radius == b.radius && r.color == b.color
  {
    var b5 := Coast(b, width, height, ptr, sqrt, polar);
    SpeedControl(b5, sqrt(Speed2(b5)), u1, u2)
  }

  /**
   * Right after an update the centre lies within the walls, when the surface
   * is at least a diameter wide and high: the stages after the wall clamp
   * change only the velocity.
   */
  lemma StepBodyInBounds(b: Body, width: real, height: real, ptr: Mouse,
                         sqrt: real -> real, polar: (real, real) -> (real, real), u1: real, u2: real)
    ensures var r := StepBody(b, width, height, ptr, sqrt, polar, u1, u2);
            && (2.0 * b.radius <= width ==> b.radius <= r.x <= width - b.radius)
            && (2.0 * b.radius <= height ==> b.radius <= r.y <= height - b.radius)
  {
    var b2 := Advance(SoftWallPush(b, width, height));
    WallCollideBounds(b2, width, height);
  }

  /**
   * Right after an update the speed is within [1.5, 8], unless the ball was
   * found at rest after friction and reseeded with components in [-0.5, 0.5).
   */
  lemma StepBodySpeed(b: Body, width: real, height: real, ptr: Mouse,
                      sqrt: real -> real, polar: (real, real) -> (real, real), u1: real, u2: real)
    requires IsSqrt(sqrt)
    requires 0.0 <= u1 < 1.0 && 0.0 <= u2 < 1.0
    ensures var r := StepBody(b, width, height, ptr, sqrt, polar, u1, u2);
            || MinVelocity * MinVelocity <= Speed2(r) <= MaxSpeed * MaxSpeed
            || (r.vx == u1 - 0.5 && r.vy == u2 - 0.5 && Speed2(r) < MinVelocity * MinVelocity)
  {
    var b5 := Coast(b, width, height, ptr, sqrt, polar);
    SqrtIsNorm(sqrt, b5.vx, b5.vy);
    SpeedBand(b5, sqrt(Speed2(b5)), u1, u2);
  }

  lemma SpeedBand(b: Body, s: real, u1: real, u2: real)
    requires IsNorm(s, b.vx, b.vy)
    requires 0.0 <= u1 < 1.0 && 0.0 <= u2 < 1.0
    ensures var r := SpeedControl(b, s, u1, u2);
            || MinVelocity * MinVelocity <= Speed2(r) <= MaxSpeed * MaxSpeed
            || (r.vx == u1 - 0.5 && r.vy == u2 - 0.5 && Speed2(r) < MinVelocity * MinVelocity)
  {
    SpeedControlBand(b, s, u1, u2);
    if s == 0.0 {
      ReseedBelowFloor(b, u1, u2);
    } else if MinVelocity <= s <= MaxSpeed {
      SquareMono(MinVelocity, s);
      SquareMono(s, MaxSpeed);
    }
  }
}
