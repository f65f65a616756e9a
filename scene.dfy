/**
 * The mutable state of the kinetic-balls animation: the `Particle` objects
 * whose fields each frame updates in place, and the scene around them (the
 * canvas size, the particle list and the `mouse` record) with the handlers
 * and the frame step that change it.
 *
 * Every `Math.random()` draw is a parameter; a random angle θ enters as its
 * unit vector (cos θ, sin θ). `Math.sqrt` and (cos, sin) of `Math.atan2`
 * are the functions `sqrt` and `polar` of the Physics module.
 */
module KineticBalls {
  import opened Colors
  import opened Physics
  import opened Collisions

  /** `config.count`. */
  const Count: nat := 10
  const StartSpeed: real := 5.0
  /** The speed every ball is given by a click (`force`). */
  const ClickSpeed: real := 10.0
  const MinRadius: real := 10.0
  const RadiusRange: real := 12.0
  /** Balls are spawned at least this far from every edge. */
  const SpawnInset: real := 50.0

  /** The random draws one `new Particle()` consumes. */
  datatype SpawnDraws = SpawnDraws(size: real, across: real, down: real, heading: (real, real),
                                   first: real, indexDraws: seq<real>, mix: real)

  predicate ValidDraws(d: SpawnDraws) {
    && Uniform(d.size) && Uniform(d.across) && Uniform(d.down)
    && IsUnit(d.heading.0, d.heading.1)
    && Uniform(d.first) && AllUniform(d.indexDraws) && Uniform(d.mix)
    && EventuallyDiffers(d.indexDraws, PickIndex(d.first))
  }

  /**
   * The ball a `new Particle()` creates on a `width` by `height` canvas, given
   * the colour string `getRandomBlendedColor()` returned for it.
   */
  function Spawn(width: real, height: real, d: SpawnDraws, color: string): Body {
    Body(MinRadius + d.size * RadiusRange,
         Place(d.across, width), Place(d.down, height),
         d.heading.0 * StartSpeed, d.heading.1 * StartSpeed,
         color)
  }

  /**
   * A spawn coordinate, `Math.random() * (extent - 100) + 50`: the draw `u`
   * scaled over the extent less the inset at both ends.
   */
  function Place(u: real, extent: real): (p: real)
    ensures Uniform(u) && 2.0 * SpawnInset <= extent ==> SpawnInset <= p <= extent - SpawnInset
  {
    var span := extent - 2.0 * SpawnInset;
    UniformScale(u, span);
    u * span + SpawnInset
  }

  lemma UniformScale(u: real, w: real)
    ensures Uniform(u) && 0.0 <= w ==> 0.0 <= u * w <= w
  {
    if Uniform(u) && 0.0 <= w {
      assert u * w <= 1.0 * w;
    }
  }

  /**
   * A new ball has radius in [10, 22) and, on a canvas at least 100 wide and
   * high, a centre at least 50 from every edge.
   */
  lemma SpawnPlacement(width: real, height: real, d: SpawnDraws, color: string)
    requires Uniform(d.size) && Uniform(d.across) && Uniform(d.down)
    ensures var b := Spawn(width, height, d, color);
            && MinRadius <= b.radius < MinRadius + RadiusRange
            && (2.0 * SpawnInset <= width ==> SpawnInset <= b.x <= width - SpawnInset)
            && (2.0 * SpawnInset <= height ==> SpawnInset <= b.y <= height - SpawnInset)
  {
  }

  /** A new ball moves at speed 5. */
  lemma SpawnSpeed(width: real, height: real, d: SpawnDraws, color: string)
    requires IsUnit(d.heading.0, d.heading.1)
    ensures Speed2(Spawn(width, height, d, color)) == StartSpeed * StartSpeed
  {
    var b := Spawn(width, height, d, color);
    UnitVelocity(b, d.heading.0, d.heading.1, StartSpeed);
  }

  class Particle {
    var radius: real
    var x: real
    var y: real
    var vx: real
    var vy: real
    var color: string

    /** The particle's fields as a value. */
    function AsBody(): Body
      reads this
    {
      Body(radius, x, y, vx, vy, color)
    }

    /** `new Particle()`, drawing radius, position, heading and colour. */
    constructor (width: real, height: real, d: SpawnDraws)
      requires ValidDraws(d)
      ensures AsBody() == Spawn(width, height, d, color)
      ensures color == FormatRgb(BlendedColor(d.first, d.indexDraws, d.mix))
    {
      radius := MinRadius + d.size * RadiusRange;
      x := Place(d.across, width);
      y := Place(d.down, height);
      vx := d.heading.0 * StartSpeed;
      vy := d.heading.1 * StartSpeed;
      var idx1, idx2, c := RandomBlendedColor(d.first, d.indexDraws, d.mix);
      color := c;
    }

    /**
     * Particle.update on a `width` by `height` canvas and mouse record `mouse`;
     * (u1, u2) are the draws the zero-speed reseed would use.
     */
    method Update(width: real, height: real, mouse: Mouse,
                  sqrt: real -> real, polar: (real, real) -> (real, real), u1: real, u2: real)
      modifies this
      ensures AsBody() == StepBody(old(AsBody()), width, height, mouse, sqrt, polar, u1, u2)
    {
      PushOffWalls(width, height);
      Move();
      BounceOffWalls(width, height);
      RepelFrom(mouse, sqrt, polar);
      SlowDown();
      ControlSpeed(sqrt, u1, u2);
    }

    /** Stage 0: a ball within `Margin` of a wall is nudged away from it. */
    method PushOffWalls(width: real, height: real)
      modifies this
      ensures AsBody() == SoftWallPush(old(AsBody()), width, height)
    {
      if x < Margin { vx := vx + Repulsion; }
      if x > width - Margin { vx := vx - Repulsion; }
      if y < Margin { vy := vy + Repulsion; }
      if y > height - Margin { vy := vy - Repulsion; }
    }

    /** Stage 1: movement. */
    method Move()
      modifies this
      ensures AsBody() == Advance(old(AsBody()))
    {
      x := x + vx * Speed;
      y := y + vy * Speed;
    }

    /** Stage 2: wall collisions, with the radius as padding. */
    method BounceOffWalls(width: real, height: real)
      modifies this
      ensures AsBody() == WallCollide(old(AsBody()), width, height)
    {
      var padding := radius;
      if x > width - padding {
        x := width - padding;
        vx := vx * -1.0;
      } else if x < padding {
        x := padding;
        vx := vx * -1.0;
      }
      if y > height - padding {
        y := height - padding;
        vy := vy * -1.0;
      } else if y < padding {
        y := padding;
        vy := vy * -1.0;
      }
    }

    /** Stage 3: repulsion from an active mouse closer than `InteractionRadius`. */
    method RepelFrom(mouse: Mouse, sqrt: real -> real, polar: (real, real) -> (real, real))
      modifies this
      ensures var dx, dy := old(x) - mouse.x, old(y) - mouse.y;
              var h := polar(dx, dy);
              AsBody() == Repel(old(AsBody()), mouse, sqrt(SquaredLength(dx, dy)), h.0, h.1)
    {
      if mouse.active {
        var dx := x - mouse.x;
        var dy := y - mouse.y;
        var dist := sqrt(SquaredLength(dx, dy));
        if dist < InteractionRadius {
          var direction := polar(dx, dy);
          var force := (InteractionRadius - dist) / InteractionRadius;
          vx := vx + direction.0 * force * MouseStrength;
          vy := vy + direction.1 * force * MouseStrength;
        }
      }
    }

    /** Stage 4a: friction. */
    method SlowDown()
      modifies this
      ensures AsBody() == ApplyFriction(old(AsBody()))
    {
      vx := vx * Friction;
      vy := vy * Friction;
    }

    /** Stage 4b: the speed floor (with the zero-speed reseed from `u1`, `u2`) and the ceiling. */
    method ControlSpeed(sqrt: real -> real, u1: real, u2: real)
      modifies this
      ensures AsBody() == SpeedControl(old(AsBody()), sqrt(Speed2(old(AsBody()))), u1, u2)
    {
      var currentSpeed := sqrt(SquaredLength(vx, vy));
      if currentSpeed < MinVelocity && currentSpeed > 0.0 {
        var scale := MinVelocity / currentSpeed;
        vx := vx * scale;
        vy := vy * scale;
      } else if currentSpeed == 0.0 {
        vx := u1 - 0.5;
        vy := u2 - 0.5;
      }
      if currentSpeed > MaxSpeed {
        var scale := MaxSpeed / currentSpeed;
        vx := vx * scale;
        vy := vy * scale;
      }
    }
  }

  /** The values of a list of particles, in order. */
  function Bodies(ps: seq<Particle>): (bs: seq<Body>)
    reads ps
    ensures |bs| == |ps|
    ensures forall k :: 0 <= k < |ps| ==> bs[k] == ps[k].AsBody()
  {
    if ps == [] then [] else Bodies(ps[..|ps| - 1]) + [ps[|ps| - 1].AsBody()]
  }

  /** No particle object appears twice in the list. */
  predicate Distinct(ps: seq<Particle>) {
    forall i, j :: 0 <= i < j < |ps| ==> ps[i] != ps[j]
  }

  /** Particle.update as a value: a ball and the reseed draws it would use to the ball after the update. */
  function UpdateRule(width: real, height: real, mouse: Mouse,
                      sqrt: real -> real, polar: (real, real) -> (real, real)): (Body, (real, real)) -> Body
  {
    (b: Body, u: (real, real)) => StepBody(b, width, height, mouse, sqrt, polar, u.0, u.1)
  }

  /** `particles.forEach(p => p.update())`, the k-th ball using reseed draws `reseeds[k]`. */
  function StepAll(bs: seq<Body>, step: (Body, (real, real)) -> Body, reseeds: seq<(real, real)>): (r: seq<Body>)
    requires |reseeds| == |bs|
    ensures |r| == |bs|
  {
    seq(|bs|, k requires 0 <= k < |bs| => step(bs[k], reseeds[k]))
  }

  /**
   * One pair of resolveCollisions: push overlapping balls apart along the
   * line between their centres, then exchange the normal component of their
   * relative velocity.
   */
  method CollideParticles(p1: Particle, p2: Particle, sqrt: real -> real, polar: (real, real) -> (real, real))
    requires p1 != p2
    modifies p1, p2
    ensures (p1.AsBody(), p2.AsBody()) == ResolvePair(old(p1.AsBody()), old(p2.AsBody()), sqrt, polar)
  {
    ghost var b1, b2 := p1.AsBody(), p2.AsBody();
    var dx := p2.x - p1.x;
    var dy := p2.y - p1.y;
    var dist := sqrt(SquaredLength(dx, dy));
    var minDist := p1.radius + p2.radius;
    ghost var h := polar(dx, dy);
    assert ResolvePair(b1, b2, sqrt, polar) == CollidePair(b1, b2, dist, h.0, h.1);
    if dist < minDist {
      var angle := polar(dx, dy);
      PushApart(p1, p2, minDist - dist, angle.0, angle.1);
      ghost var moved := (p1.AsBody(), p2.AsBody());
      assert moved == Separate(b1, b2, b1.radius + b2.radius - dist, h.0, h.1);
      if dist != 0.0 {
        ExchangeVelocities(p1, p2, dx / dist, dy / dist);
        assert (p1.AsBody(), p2.AsBody()) == Exchange(moved.0, moved.1, (b2.x - b1.x) / dist, (b2.y - b1.y) / dist);
      }
    }
  }

  /** The overlap half of a collision: each ball moves half the overlap along (c, s), in opposite directions. */
  method PushApart(p1: Particle, p2: Particle, overlap: real, c: real, s: real)
    requires p1 != p2
    modifies p1, p2
    ensures (p1.AsBody(), p2.AsBody()) == Separate(old(p1.AsBody()), old(p2.AsBody()), overlap, c, s)
  {
    var moveX := (c * overlap) / 2.0;
    var moveY := (s * overlap) / 2.0;
    p1.x := p1.x - moveX;
    p1.y := p1.y - moveY;
    p2.x := p2.x + moveX;
    p2.y := p2.y + moveY;
  }

  /** The velocity half of a collision, along the normal (nx, ny). */
  method ExchangeVelocities(p1: Particle, p2: Particle, nx: real, ny: real)
    requires p1 != p2
    modifies p1, p2
    ensures (p1.AsBody(), p2.AsBody()) == Exchange(old(p1.AsBody()), old(p2.AsBody()), nx, ny)
  {
    var dot := (p1.vx - p2.vx) * nx + (p1.vy - p2.vy) * ny;
    p1.vx := p1.vx - dot * nx;
    p1.vy := p1.vy - dot * ny;
    p2.vx := p2.vx + dot * nx;
    p2.vy := p2.vy + dot * ny;
    ghost var e := Exchange(old(p1.AsBody()), old(p2.AsBody()), nx, ny);
    assert e.0 == p1.AsBody();
    assert e.1 == p2.AsBody();
  }

  /** The animation's state: canvas size, particle list and mouse record. */
  class Scene {
    var width: real
    var height: real
    var particles: seq<Particle>
    var mouse: Mouse

    ghost predicate Valid()
      reads this
    {
      Distinct(particles)
    }

    /** The particles' values. */
    function Values(): (bs: seq<Body>)
      reads this, particles
    {
      Bodies(particles)
    }

    /** Before `resize` and `init`: a zero-sized canvas, no particles, the mouse parked off-canvas and inactive. */
    constructor ()
      ensures Valid()
      ensures width == 0.0 && height == 0.0 && particles == []
      ensures mouse == Mouse(-1000.0, -1000.0, false)
    {
      width := 0.0;
      height := 0.0;
      particles := [];
      mouse := Mouse(-1000.0, -1000.0, false);
    }

    /** `resize`, with the container's measured size as parameters. */
    method Resize(w: real, h: real)
      modifies this
      ensures width == w && height == h
      ensures particles == old(particles) && mouse == old(mouse)
    {
      width := w;
      height := h;
    }

    /** `init`: empty the list, then push `config.count` new particles. */
    method Init(draws: seq<SpawnDraws>)
      requires |draws| == Count
      requires forall k :: 0 <= k < |draws| ==> ValidDraws(draws[k])
      modifies this
      ensures Valid()
      ensures |particles| == Count
      ensures forall k :: 0 <= k < Count ==> fresh(particles[k])
      ensures forall k :: 0 <= k < Count ==> particles[k].AsBody() == Spawn(width, height, draws[k], particles[k].color)
      ensures width == old(width) && height == old(height) && mouse == old(mouse)
    {
      particles := [];
      var i := 0;
      while i < Count
        invariant 0 <= i <= Count && |particles| == i
        invariant Distinct(particles)
        invariant forall k :: 0 <= k < i ==> fresh(particles[k])
        invariant forall k :: 0 <= k < i ==> particles[k].AsBody() == Spawn(width, height, draws[k], particles[k].color)
        invariant width == old(width) && height == old(height) && mouse == old(mouse)
      {
        var p := new Particle(width, height, draws[i]);
        particles := particles + [p];
        i := i + 1;
      }
    }

    /** `particles.forEach(p => p.update())`. */
    method UpdateAll(sqrt: real -> real, polar: (real, real) -> (real, real), reseeds: seq<(real, real)>)
      requires Valid() && |reseeds| == |particles|
      modifies particles
      ensures Values() == StepAll(old(Values()), UpdateRule(width, height, mouse, sqrt, polar), reseeds)
    {
      ghost var before := Values();
      ghost var rule := UpdateRule(width, height, mouse, sqrt, polar);
      var i := 0;
      while i < |particles|
        invariant 0 <= i <= |particles|
        invariant forall k :: 0 <= k < i ==> particles[k].AsBody() == rule(before[k], reseeds[k])
        invariant forall k :: i <= k < |particles| ==> particles[k].AsBody() == before[k]
      {
        UpdateAt(i, sqrt, polar, reseeds[i]);
        i := i + 1;
      }
    }

    /** One particle's update, seen from the list: the others keep their values. */
    method UpdateAt(i: nat, sqrt: real -> real, polar: (real, real) -> (real, real), reseed: (real, real))
      requires Valid() && i < |particles|
      modifies particles[i]
      ensures particles[i].AsBody() == UpdateRule(width, height, mouse, sqrt, polar)(old(particles[i].AsBody()), reseed)
      ensures forall k :: 0 <= k < |particles| && k != i ==> particles[k].AsBody() == old(particles[k].AsBody())
    {
      particles[i].Update(width, height, mouse, sqrt, polar, reseed.0, reseed.1);
    }

    /** The body of resolveCollisions' inner loop for the pair (i, j). */
    method CollidePairAt(i: nat, j: nat, sqrt: real -> real, polar: (real, real) -> (real, real))
      requires Valid() && i < j < |particles|
      modifies particles[i], particles[j]
      ensures Values() == CollideAt(old(Values()), i, j, PairRule(sqrt, polar))
    {
      ghost var before := Values();
      CollideParticles(particles[i], particles[j], sqrt, polar);
      assert Values() == before[i := particles[i].AsBody()][j := particles[j].AsBody()];
    }

    /** resolveCollisions: every pair i < j in row order, each resolved in place. */
    method ResolveCollisions(sqrt: real -> real, polar: (real, real) -> (real, real))
      requires Valid()
      modifies particles
      ensures Values() == ResolveAll(old(Values()), sqrt, polar)
    {
      var n := |particles|;
      var i := 0;
      while i < n
        invariant 0 <= i <= n
        invariant Sweep(Values(), i, i + 1, PairRule(sqrt, polar)) == ResolveAll(old(Values()), sqrt, polar)
      {
        ResolveRow(i, sqrt, polar);
        i := i + 1;
      }
      SweepDone(Values(), i, i + 1, PairRule(sqrt, polar));
    }

    /** The inner loop of resolveCollisions for row i: the pairs (i, j), j = i + 1 .. n - 1. */
    method ResolveRow(i: nat, sqrt: real -> real, polar: (real, real) -> (real, real))
      requires Valid() && i < |particles|
      modifies particles
      ensures Sweep(Values(), i + 1, i + 2, PairRule(sqrt, polar)) == Sweep(old(Values()), i, i + 1, PairRule(sqrt, polar))
    {
      var rule := PairRule(sqrt, polar);
      var n := |particles|;
      var j := i + 1;
      while j < n
        invariant i + 1 <= j <= n
        invariant Sweep(Values(), i, j, rule) == Sweep(old(Values()), i, i + 1, rule)
      {
        SweepStep(Values(), i, j, rule);
        CollidePairAt(i, j, sqrt, polar);
        j := j + 1;
      }
      SweepNextRow(Values(), i, j, rule);
    }

    /** One frame of `animate`, without the drawing: every update, then the collision pass. */
    method Animate(sqrt: real -> real, polar: (real, real) -> (real, real), reseeds: seq<(real, real)>)
      requires Valid() && |reseeds| == |particles|
      modifies particles
      ensures Values() == ResolveAll(StepAll(old(Values()), UpdateRule(width, height, mouse, sqrt, polar), reseeds), sqrt, polar)
    {
      UpdateAll(sqrt, polar, reseeds);
      ResolveCollisions(sqrt, polar);
    }

    /** handleMouseMove, with the container's offset (`left`, `top`) as parameters. */
    method HandleMouseMove(clientX: real, clientY: real, left: real, top: real)
      modifies this
      ensures mouse == Mouse(clientX - left, clientY - top, true)
      ensures width == old(width) && height == old(height) && particles == old(particles)
    {
      mouse := mouse.(x := clientX - left, y := clientY - top, active := true);
    }

    /** handleMouseLeave: the mouse goes inactive where it was. */
    method HandleMouseLeave()
      modifies this
      ensures mouse == old(mouse).(active := false)
      ensures width == old(width) && height == old(height) && particles == old(particles)
    {
      mouse := mouse.(active := false);
    }

    /** handleClick: every ball gets a velocity of length 10 along its drawn heading. */
    method HandleClick(headings: seq<(real, real)>)
      requires Valid() && |headings| == |particles|
      modifies particles
      ensures forall k :: 0 <= k < |particles| ==>
                particles[k].AsBody() == old(particles[k].AsBody()).(vx := headings[k].0 * ClickSpeed,
                                                                     vy := headings[k].1 * ClickSpeed)
    {
      var i := 0;
      while i < |particles|
        invariant 0 <= i <= |particles|
        invariant forall k :: 0 <= k < i ==>
                    particles[k].AsBody() == old(particles[k].AsBody()).(vx := headings[k].0 * ClickSpeed,
                                                                         vy := headings[k].1 * ClickSpeed)
        invariant forall k :: i <= k < |particles| ==> particles[k].AsBody() == old(particles[k].AsBody())
      {
        var p := particles[i];
        p.vx := headings[i].0 * ClickSpeed;
        p.vy := headings[i].1 * ClickSpeed;
        i := i + 1;
      }
    }
  }

  /** After a click with unit headings every ball moves at speed 10, where it was, with its radius and colour. */
  lemma ClickSpeedIsTen(b: Body, c: real, s: real)
    requires IsUnit(c, s)
    ensures var r := b.(vx := c * ClickSpeed, vy := s * ClickSpeed);
            && Speed2(r) == ClickSpeed * ClickSpeed
            && r.x == b.x && r.y == b.y && r.radius == b.radius && r.color == b.color
  {
    UnitVelocity(b.(vx := c * ClickSpeed, vy := s * ClickSpeed), c, s, ClickSpeed);
  }
}
