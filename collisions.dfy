/**
 * The pairwise collision pass of the kinetic-balls animation
 * (resolveCollisions): every unordered pair (i, j) with i < j is visited
 * once, in row order, and an overlapping pair is pushed apart along the line
 * of centres and exchanges the normal components of its velocities.
 */
module Collisions {
  import opened Physics

  /** Overlap test: the centres are closer than the sum of the radii. */
  predicate Overlaps(p1: Body, p2: Body, dist: real) {
    dist < p1.radius + p2.radius
  }

  /**
   * The positional correction: each centre moves half the overlap along the
   * direction (c, s) from the first centre to the second, the first backwards
   * and the second forwards.
   */
  function Separate(p1: Body, p2: Body, overlap: real, c: real, s: real): (r: (Body, Body))
    ensures SameButPosition(r.0, p1) && SameButPosition(r.1, p2)
    ensures r.0.x + r.1.x == p1.x + p2.x && r.0.y + r.1.y == p1.y + p2.y
  {
    var moveX, moveY := (c * overlap) / 2.0, (s * overlap) / 2.0;
    (p1.(x := p1.x - moveX, y := p1.y - moveY), p2.(x := p2.x + moveX, y := p2.y + moveY))
  }

  predicate SameButPosition(r: Body, b: Body) {
    r.radius == b.radius && r.vx == b.vx && r.vy == b.vy && r.color == b.color
  }

  /**
   * The velocity exchange along the normal (nx, ny): the relative velocity's
   * normal component `dot` is taken from the first body and given to the
   * second.
   */
  function Exchange(p1: Body, p2: Body, nx: real, ny: real): (r: (Body, Body))
    ensures SameButVelocity(r.0, p1) && SameButVelocity(r.1, p2)
    ensures r.0.vx + r.1.vx == p1.vx + p2.vx && r.0.vy + r.1.vy == p1.vy + p2.vy
  {
    var dot := (p1.vx - p2.vx) * nx + (p1.vy - p2.vy) * ny;
    (p1.(vx := p1.vx - dot * nx, vy := p1.vy - dot * ny),
     p2.(vx := p2.vx + dot * nx, vy := p2.vy + dot * ny))
  }

  /**
   * One pair. `dist` is the length of (dx, dy) = p2 - p1 and (c, s) its
   * direction. When the centres coincide the source divides 0 by 0 for the
   * exchange normal; there the model pushes the pair apart and leaves the
   * velocities as they were.
   */
  function CollidePair(p1: Body, p2: Body, dist: real, c: real, s: real): (r: (Body, Body))
    ensures r.0.radius == p1.radius && r.0.color == p1.color
    ensures r.1.radius == p2.radius && r.1.color == p2.color
    ensures !Overlaps(p1, p2, dist) ==> r == (p1, p2)
    ensures r.0.x + r.1.x == p1.x + p2.x && r.0.y + r.1.y == p1.y + p2.y
    ensures r.0.vx + r.1.vx == p1.vx + p2.vx && r.0.vy + r.1.vy == p1.vy + p2.vy
  {
    if Overlaps(p1, p2, dist) then
      var moved := Separate(p1, p2, p1.radius + p2.radius - dist, c, s);
      if dist == 0.0 then moved
      else Exchange(moved.0, moved.1, (p2.x - p1.x) / dist, (p2.y - p1.y) / dist)
    else (p1, p2)
  }

  // Algebraic helpers over plain variables.

  /** The exchange normal computed by division is the direction (c, s). */
  lemma NormalIsDirection(x1: real, y1: real, x2: real, y2: real, dist: real, c: real, s: real)
    requires Toward(c, s, x2 - x1, y2 - y1, dist) && 0.0 < dist
    ensures (x2 - x1) / dist == c && (y2 - y1) / dist == s
  {
  }

  lemma HalfOverlap(c: real, r1: real, r2: real, dist: real, d: real)
    requires c * dist == d
    ensures d + 2.0 * ((c * (r1 + r2 - dist)) / 2.0) == c * (r1 + r2)
  {
  }

  /** Moving both centres by half the overlap leaves them `minDist` apart along (c, s). */
  lemma SeparateDistance(p1: Body, p2: Body, dist: real, c: real, s: real)
    requires Toward(c, s, p2.x - p1.x, p2.y - p1.y, dist)
    requires 0.0 <= dist < p1.radius + p2.radius
    ensures var r := Separate(p1, p2, p1.radius + p2.radius - dist, c, s);
            var minDist := p1.radius + p2.radius;
            && r.1.x - r.0.x == c * minDist && r.1.y - r.0.y == s * minDist
            && IsNorm(minDist, r.1.x - r.0.x, r.1.y - r.0.y)
  {
    HalfOverlap(c, p1.radius, p2.radius, dist, p2.x - p1.x);
    HalfOverlap(s, p1.radius, p2.radius, dist, p2.y - p1.y);
    ScaledUnit(c, s, p1.radius + p2.radius);
  }

  /** The component of the velocity (vx, vy) along the direction (c, s). */
  function Along(vx: real, vy: real, c: real, s: real): real {
    vx * c + vy * s
  }

  /** Along a unit normal, taking the relative normal velocity `k` from one body and giving it to the other swaps the normal components. */
  lemma NormalSwap(v1: real, w1: real, v2: real, w2: real, c: real, s: real)
    requires IsUnit(c, s)
    ensures var k := (v1 - v2) * c + (w1 - w2) * s;
            && Along(v1 - k * c, w1 - k * s, c, s) == Along(v2, w2, c, s)
            && Along(v2 + k * c, w2 + k * s, c, s) == Along(v1, w1, c, s)
  {
    var k := (v1 - v2) * c + (w1 - w2) * s;
    assert (v1 - k * c) * c + (w1 - k * s) * s == v1 * c + w1 * s - k * (c * c + s * s);
    assert (v2 + k * c) * c + (w2 + k * s) * s == v2 * c + w2 * s + k * (c * c + s * s);
  }

  /** A change along (c, s) leaves the component across it, along (-s, c), alone. */
  lemma TangentKept(v1: real, w1: real, v2: real, w2: real, c: real, s: real)
    ensures var k := (v1 - v2) * c + (w1 - w2) * s;
            && Along(v1 - k * c, w1 - k * s, -s, c) == Along(v1, w1, -s, c)
            && Along(v2 + k * c, w2 + k * s, -s, c) == Along(v2, w2, -s, c)
  {
  }

  /** With a unit normal, the exchange swaps the normal components and keeps the tangential ones. */
  lemma ExchangeSwaps(p1: Body, p2: Body, c: real, s: real)
    requires IsUnit(c, s)
    ensures var r := Exchange(p1, p2, c, s);
            && Along(r.0.vx, r.0.vy, c, s) == Along(p2.vx, p2.vy, c, s) && Along(r.1.vx, r.1.vy, c, s) == Along(p1.vx, p1.vy, c, s)
            && Along(r.0.vx, r.0.vy, -s, c) == Along(p1.vx, p1.vy, -s, c) && Along(r.1.vx, r.1.vy, -s, c) == Along(p2.vx, p2.vy, -s, c)
  {
    NormalSwap(p1.vx, p1.vy, p2.vx, p2.vy, c, s);
    TangentKept(p1.vx, p1.vy, p2.vx, p2.vy, c, s);
  }

  /**
   * An overlapping pair ends exactly `r1 + r2` apart along its original
   * direction: each body moves half the overlap, in opposite directions.
   */
  lemma CollisionSeparates(p1: Body, p2: Body, dist: real, c: real, s: real)
    requires IsNorm(dist, p2.x - p1.x, p2.y - p1.y)
    requires Toward(c, s, p2.x - p1.x, p2.y - p1.y, dist)
    requires Overlaps(p1, p2, dist)
    ensures var r := CollidePair(p1, p2, dist, c, s);
            var minDist := p1.radius + p2.radius;
            && r.1.x - r.0.x == c * minDist && r.1.y - r.0.y == s * minDist
            && IsNorm(minDist, r.1.x - r.0.x, r.1.y - r.0.y)
  {
    var m := Separate(p1, p2, p1.radius + p2.radius - dist, c, s);
    var r := CollidePair(p1, p2, dist, c, s);
    assert r.0.x == m.0.x && r.0.y == m.0.y && r.1.x == m.1.x && r.1.y == m.1.y;
    SeparateDistance(p1, p2, dist, c, s);
  }

  /**
   * For separated centres the velocity exchange is an elastic collision of
   * equal masses: along the normal (c, s) the two bodies swap their velocity
   * components, and across it (-s, c) each keeps its own.
   */
  lemma CollisionExchanges(p1: Body, p2: Body, dist: real, c: real, s: real)
    requires IsNorm(dist, p2.x - p1.x, p2.y - p1.y)
    requires Toward(c, s, p2.x - p1.x, p2.y - p1.y, dist)
    requires Overlaps(p1, p2, dist) && dist != 0.0
    ensures var r := CollidePair(p1, p2, dist, c, s);
            && Along(r.0.vx, r.0.vy, c, s) == Along(p2.vx, p2.vy, c, s) && Along(r.1.vx, r.1.vy, c, s) == Along(p1.vx, p1.vy, c, s)
            && Along(r.0.vx, r.0.vy, -s, c) == Along(p1.vx, p1.vy, -s, c) && Along(r.1.vx, r.1.vy, -s, c) == Along(p2.vx, p2.vy, -s, c)
  {
    ExchangeAlongDirection(p1, p2, dist, c, s);
    SeparateThenExchange(p1, p2, dist, c, s);
  }

  /** The push does not touch velocities, so the exchange after it swaps the original normal components. */
  lemma SeparateThenExchange(p1: Body, p2: Body, dist: real, c: real, s: real)
    requires IsUnit(c, s)
    ensures var moved := Separate(p1, p2, p1.radius + p2.radius - dist, c, s);
            var r := Exchange(moved.0, moved.1, c, s);
            && Along(r.0.vx, r.0.vy, c, s) == Along(p2.vx, p2.vy, c, s) && Along(r.1.vx, r.1.vy, c, s) == Along(p1.vx, p1.vy, c, s)
            && Along(r.0.vx, r.0.vy, -s, c) == Along(p1.vx, p1.vy, -s, c) && Along(r.1.vx, r.1.vy, -s, c) == Along(p2.vx, p2.vy, -s, c)
  {
    var moved := Separate(p1, p2, p1.radius + p2.radius - dist, c, s);
    ExchangeSwaps(moved.0, moved.1, c, s);
  }

  /** Past the push, the pair step is the exchange along (c, s). */
  lemma ExchangeAlongDirection(p1: Body, p2: Body, dist: real, c: real, s: real)
    requires Toward(c, s, p2.x - p1.x, p2.y - p1.y, dist)
    requires Overlaps(p1, p2, dist) && 0.0 < dist
    ensures var moved := Separate(p1, p2, p1.radius + p2.radius - dist, c, s);
            CollidePair(p1, p2, dist, c, s) == Exchange(moved.0, moved.1, c, s)
  {
    NormalIsDirection(p1.x, p1.y, p2.x, p2.y, dist, c, s);
  }

  /**
   * The wall clamp runs before the collision pass, so a collision can leave a
   * body outside the walls: two radius-10 balls at x = 10 and x = 14 on a
   * line overlap by 16, and the left one ends at x = 2, left of its radius.
   */
  lemma CollisionCanCrossWall()
    ensures var p1 := Body(10.0, 10.0, 50.0, 0.0, 0.0, "");
            var p2 := Body(10.0, 14.0, 50.0, 0.0, 0.0, "");
            && IsNorm(4.0, p2.x - p1.x, p2.y - p1.y)
            && Toward(1.0, 0.0, p2.x - p1.x, p2.y - p1.y, 4.0)
            && p1.radius <= p1.x
            && CollidePair(p1, p2, 4.0, 1.0, 0.0).0.x < p1.radius
  {
  }

  /**
   * The pair rule with the library functions: `dist` is the square root of
   * dx*dx + dy*dy and (c, s) is (cos, sin) of atan2(dy, dx), both taken
   * before either body moves.
   */
  function ResolvePair(p1: Body, p2: Body, sqrt: real -> real, polar: (real, real) -> (real, real)): (r: (Body, Body))
    ensures Conserving(p1, p2, r)
  {
    var dx, dy := p2.x - p1.x, p2.y - p1.y;
    var h := polar(dx, dy);
    CollidePair(p1, p2, sqrt(SquaredLength(dx, dy)), h.0, h.1)
  }

  /** The second centre of the pair `r` lies `d` from the first, in the direction (c, s). */
  predicate ApartAlong(r: (Body, Body), c: real, s: real, d: real) {
    && r.1.x - r.0.x == c * d && r.1.y - r.0.y == s * d
    && IsNorm(d, r.1.x - r.0.x, r.1.y - r.0.y)
  }

  /**
   * With the true square root and atan2: an overlapping pair ends exactly
   * `r1 + r2` apart along the line through its original centres.
   */
  lemma ResolvePairSeparates(p1: Body, p2: Body, sqrt: real -> real, polar: (real, real) -> (real, real))
    requires IsSqrt(sqrt) && IsPolar(sqrt, polar)
    ensures var dx, dy := p2.x - p1.x, p2.y - p1.y;
            Overlaps(p1, p2, sqrt(SquaredLength(dx, dy))) ==>
              ApartAlong(ResolvePair(p1, p2, sqrt, polar), polar(dx, dy).0, polar(dx, dy).1, p1.radius + p2.radius)
  {
    var dx, dy := p2.x - p1.x, p2.y - p1.y;
    var dist, h := sqrt(SquaredLength(dx, dy)), polar(dx, dy);
    if Overlaps(p1, p2, dist) {
      SqrtIsNorm(sqrt, dx, dy);
      PolarToward(sqrt, polar, dx, dy);
      SeparatedGap(p1, p2, dist, h.0, h.1, ResolvePair(p1, p2, sqrt, polar));
    }
  }

  /** `CollisionSeparates` for a pair `r` known to be the pair step's result. */
  lemma SeparatedGap(p1: Body, p2: Body, dist: real, c: real, s: real, r: (Body, Body))
    requires IsNorm(dist, p2.x - p1.x, p2.y - p1.y)
    requires Toward(c, s, p2.x - p1.x, p2.y - p1.y, dist)
    requires Overlaps(p1, p2, dist)
    requires r == CollidePair(p1, p2, dist, c, s)
    ensures ApartAlong(r, c, s, p1.radius + p2.radius)
  {
    CollisionSeparates(p1, p2, dist, c, s);
  }

  /**
   * With the true square root and atan2: an overlapping pair whose centres
   * differ swaps its velocity components along the line through the centres
   * and keeps those across it.
   */
  lemma ResolvePairExchanges(p1: Body, p2: Body, sqrt: real -> real, polar: (real, real) -> (real, real))
    requires IsSqrt(sqrt) && IsPolar(sqrt, polar)
    ensures var dx, dy := p2.x - p1.x, p2.y - p1.y;
            var c, s := polar(dx, dy).0, polar(dx, dy).1;
            var r := ResolvePair(p1, p2, sqrt, polar);
            Overlaps(p1, p2, sqrt(SquaredLength(dx, dy))) && (dx, dy) != (0.0, 0.0) ==>
              && Along(r.0.vx, r.0.vy, c, s) == Along(p2.vx, p2.vy, c, s)
              && Along(r.1.vx, r.1.vy, c, s) == Along(p1.vx, p1.vy, c, s)
              && Along(r.0.vx, r.0.vy, -s, c) == Along(p1.vx, p1.vy, -s, c)
              && Along(r.1.vx, r.1.vy, -s, c) == Along(p2.vx, p2.vy, -s, c)
  {
    var dx, dy := p2.x - p1.x, p2.y - p1.y;
    var dist, h := sqrt(SquaredLength(dx, dy)), polar(dx, dy);
    if Overlaps(p1, p2, dist) && (dx, dy) != (0.0, 0.0) {
      SqrtIsNorm(sqrt, dx, dy);
      PolarToward(sqrt, polar, dx, dy);
      assert dist != 0.0;
      CollisionExchanges(p1, p2, dist, h.0, h.1);
    }
  }

  /** The pair rule as a value, for the sweep. */
  function PairRule(sqrt: real -> real, polar: (real, real) -> (real, real)): (Body, Body) -> (Body, Body) {
    (p1: Body, p2: Body) => ResolvePair(p1, p2, sqrt, polar)
  }

  /** What every pair step keeps: radii, colours, and the pair's summed position and velocity. */
  predicate Conserving(p1: Body, p2: Body, r: (Body, Body)) {
    && r.0.radius == p1.radius && r.0.color == p1.color
    && r.1.radius == p2.radius && r.1.color == p2.color
    && r.0.x + r.1.x == p1.x + p2.x && r.0.y + r.1.y == p1.y + p2.y
    && r.0.vx + r.1.vx == p1.vx + p2.vx && r.0.vy + r.1.vy == p1.vy + p2.vy
  }

  ghost predicate ConservingRule(pair: (Body, Body) -> (Body, Body)) {
    forall p1: Body, p2: Body :: Conserving(p1, p2, pair(p1, p2))
  }

  lemma PairRuleConserves(sqrt: real -> real, polar: (real, real) -> (real, real))
    ensures ConservingRule(PairRule(sqrt, polar))
  {
    forall p1: Body, p2: Body
      ensures Conserving(p1, p2, PairRule(sqrt, polar)(p1, p2))
    {
      var r := ResolvePair(p1, p2, sqrt, polar);
    }
  }

  /** The pair (i, j) of the list, resolved in place by the pair rule. */
  function CollideAt(bs: seq<Body>, i: nat, j: nat, pair: (Body, Body) -> (Body, Body)): (r: seq<Body>)
    requires i < j < |bs|
    ensures |r| == |bs|
    ensures forall k :: 0 <= k < |bs| && k != i && k != j ==> r[k] == bs[k]
  {
    var q := pair(bs[i], bs[j]);
    bs[i := q.0][j := q.1]
  }

  /**
   * The nested loop from pair (i, j) on: the inner index runs over
   * j .. |bs| - 1, then the outer index moves on to i + 1 with j = i + 2.
   */
  function Sweep(bs: seq<Body>, i: nat, j: nat, pair: (Body, Body) -> (Body, Body)): (r: seq<Body>)
    requires i < j
    ensures |r| == |bs|
    decreases |bs| - i, |bs| - j
  {
    if i >= |bs| then bs
    else if j >= |bs| then Sweep(bs, i + 1, i + 2, pair)
    else Sweep(CollideAt(bs, i, j, pair), i, j + 1, pair)
  }

  /** One step of the sweep: the pair (i, j), then the rest of the row. */
  lemma SweepStep(bs: seq<Body>, i: nat, j: nat, pair: (Body, Body) -> (Body, Body))
    requires i < j < |bs|
    ensures Sweep(bs, i, j, pair) == Sweep(CollideAt(bs, i, j, pair), i, j + 1, pair)
  {
  }

  /** A finished row hands over to the next one. */
  lemma SweepNextRow(bs: seq<Body>, i: nat, j: nat, pair: (Body, Body) -> (Body, Body))
    requires i < |bs| <= j
    ensures Sweep(bs, i, j, pair) == Sweep(bs, i + 1, i + 2, pair)
  {
  }

  /** Past the last row nothing is left to do. */
  lemma SweepDone(bs: seq<Body>, i: nat, j: nat, pair: (Body, Body) -> (Body, Body))
    requires |bs| <= i < j
    ensures Sweep(bs, i, j, pair) == bs
  {
  }

  /** resolveCollisions over the whole list. */
  function ResolveAll(bs: seq<Body>, sqrt: real -> real, polar: (real, real) -> (real, real)): (r: seq<Body>)
    ensures |r| == |bs|
  {
    Sweep(bs, 0, 1, PairRule(sqrt, polar))
  }

  /** The pairs the nested loop visits from (i, j) on, in visiting order. */
  function PairsFrom(n: nat, i: nat, j: nat): (ps: seq<(nat, nat)>)
    requires i < j
    ensures forall k :: 0 <= k < |ps| ==> i <= ps[k].0 < ps[k].1 < n
    decreases n - i, n - j
  {
    if i >= n then []
    else if j >= n then PairsFrom(n, i + 1, i + 2)
    else [(i, j)] + PairsFrom(n, i, j + 1)
  }

  /** Resolving the listed pairs one after another (a pair that is not an index pair is skipped). */
  function ApplyPairs(bs: seq<Body>, ps: seq<(nat, nat)>, pair: (Body, Body) -> (Body, Body)): (r: seq<Body>)
    ensures |r| == |bs|
    decreases |ps|
  {
    if ps == [] then bs
    else if ps[0].0 < ps[0].1 < |bs| then ApplyPairs(CollideAt(bs, ps[0].0, ps[0].1, pair), ps[1..], pair)
    else ApplyPairs(bs, ps[1..], pair)
  }

  /**
   * The pairs visited from (i, j) are exactly (i, b) for j <= b < n and
   * (a, b) for i < a < b < n.
   */
  lemma {:induction false} PairsFromMembers(n: nat, i: nat, j: nat, a: nat, b: nat)
    requires i < j
    ensures (a, b) in PairsFrom(n, i, j) <==>
            ((a == i && j <= b < n) || (i < a && a < b < n))
    decreases n - i, n - j
  {
    if i >= n {
    } else if j >= n {
      PairsFromMembers(n, i + 1, i + 2, a, b);
    } else {
      PairsFromMembers(n, i, j + 1, a, b);
    }
  }

  /** Lexicographic order on index pairs. */
  predicate Before(p: (nat, nat), q: (nat, nat)) {
    p.0 < q.0 || (p.0 == q.0 && p.1 < q.1)
  }

  /** The visiting order is strictly increasing, so no pair is visited twice. */
  lemma {:induction false} PairsFromOrdered(n: nat, i: nat, j: nat)
    requires i < j
    ensures forall k, m :: 0 <= k < m < |PairsFrom(n, i, j)| ==>
              Before(PairsFrom(n, i, j)[k], PairsFrom(n, i, j)[m])
    decreases n - i, n - j
  {
    if i >= n {
    } else if j >= n {
      PairsFromOrdered(n, i + 1, i + 2);
    } else {
      var rest := PairsFrom(n, i, j + 1);
      PairsFromOrdered(n, i, j + 1);
      forall m | 0 <= m < |rest|
        ensures Before((i, j), rest[m])
      {
        PairsFromMembers(n, i, j + 1, rest[m].0, rest[m].1);
        assert rest[m] in rest;
      }
    }
  }

  /** Resolving the pairs from (i, j) is resolving (i, j) and then the pairs after it. */
  lemma ApplyPairsStep(bs: seq<Body>, i: nat, j: nat, pair: (Body, Body) -> (Body, Body))
    requires i < j < |bs|
    ensures ApplyPairs(bs, PairsFrom(|bs|, i, j), pair)
         == ApplyPairs(CollideAt(bs, i, j, pair), PairsFrom(|bs|, i, j + 1), pair)
  {
    var ps := PairsFrom(|bs|, i, j);
    assert ps[0] == (i, j) && ps[1..] == PairsFrom(|bs|, i, j + 1);
  }

  /** The sweep from (i, j) resolves the pairs PairsFrom lists from (i, j), in that order. */
  ghost predicate SweepsPairs(bs: seq<Body>, i: nat, j: nat, pair: (Body, Body) -> (Body, Body))
    requires i < j
  {
    Sweep(bs, i, j, pair) == ApplyPairs(bs, PairsFrom(|bs|, i, j), pair)
  }

  lemma {:induction false} SweepAgrees(bs: seq<Body>, i: nat, j: nat, pair: (Body, Body) -> (Body, Body))
    requires i < j
    ensures SweepsPairs(bs, i, j, pair)
    decreases |bs| - i, |bs| - j
  {
    if i >= |bs| {
      SweepDone(bs, i, j, pair);
    } else if j >= |bs| {
      SweepAgrees(bs, i + 1, i + 2, pair);
      SweepAgreesNextRow(bs, i, j, pair);
    } else {
      SweepAgrees(CollideAt(bs, i, j, pair), i, j + 1, pair);
      SweepAgreesStep(bs, i, j, pair);
    }
  }

  lemma SweepAgreesNextRow(bs: seq<Body>, i: nat, j: nat, pair: (Body, Body) -> (Body, Body))
    requires i < |bs| <= j
    requires SweepsPairs(bs, i + 1, i + 2, pair)
    ensures SweepsPairs(bs, i, j, pair)
  {
    SweepNextRow(bs, i, j, pair);
  }

  lemma SweepAgreesStep(bs: seq<Body>, i: nat, j: nat, pair: (Body, Body) -> (Body, Body))
    requires i < j < |bs|
    requires SweepsPairs(CollideAt(bs, i, j, pair), i, j + 1, pair)
    ensures SweepsPairs(bs, i, j, pair)
  {
    SweepStep(bs, i, j, pair);
    ApplyPairsStep(bs, i, j, pair);
  }

  /**
   * resolveCollisions resolves the pairs (a, b) with a < b < n, each once,
   * in row order (first index, then second).
   */
  lemma ResolveAllVisitsEachPairOnce(bs: seq<Body>, sqrt: real -> real, polar: (real, real) -> (real, real))
    ensures ResolveAll(bs, sqrt, polar) == ApplyPairs(bs, PairsFrom(|bs|, 0, 1), PairRule(sqrt, polar))
    ensures forall a: nat, b: nat :: (a, b) in PairsFrom(|bs|, 0, 1) <==> a < b < |bs|
    ensures forall k, m :: 0 <= k < m < |PairsFrom(|bs|, 0, 1)| ==>
              Before(PairsFrom(|bs|, 0, 1)[k], PairsFrom(|bs|, 0, 1)[m])
  {
    SweepAgrees(bs, 0, 1, PairRule(sqrt, polar));
    forall a: nat, b: nat
      ensures (a, b) in PairsFrom(|bs|, 0, 1) <==> a < b < |bs|
    {
      PairsFromMembers(|bs|, 0, 1, a, b);
    }
    PairsFromOrdered(|bs|, 0, 1);
  }

  /** Which quantity a total is taken of. */
  datatype Component = X | Y | VX | VY

  function Get(b: Body, q: Component): real {
    match q
    case X => b.x
    case Y => b.y
    case VX => b.vx
    case VY => b.vy
  }

  function Total(bs: seq<Body>, q: Component): real
    decreases |bs|
  {
    if bs == [] then 0.0 else Total(bs[..|bs| - 1], q) + Get(bs[|bs| - 1], q)
  }

  /** Replacing one element changes the total by the difference. */
  lemma {:induction false} TotalUpdate(bs: seq<Body>, i: nat, v: Body, q: Component)
    requires i < |bs|
    ensures Total(bs[i := v], q) == Total(bs, q) - Get(bs[i], q) + Get(v, q)
    decreases |bs|
  {
    var n := |bs| - 1;
    var us := bs[i := v];
    assert us[..n] == if i == n then bs[..n] else bs[..n][i := v];
    if i < n {
      TotalUpdate(bs[..n], i, v, q);
    }
  }

  /** A conserving pair step keeps each total. */
  lemma ConservingGet(p1: Body, p2: Body, r: (Body, Body), q: Component)
    requires Conserving(p1, p2, r)
    ensures Get(r.0, q) + Get(r.1, q) == Get(p1, q) + Get(p2, q)
  {
  }

  /** One pair step keeps the totals of x, y, vx and vy, and every radius and colour. */
  lemma CollideAtPreserves(bs: seq<Body>, i: nat, j: nat, pair: (Body, Body) -> (Body, Body), q: Component)
    requires i < j < |bs|
    requires ConservingRule(pair)
    ensures var r := CollideAt(bs, i, j, pair);
            && Total(r, q) == Total(bs, q)
            && forall k :: 0 <= k < |bs| ==> r[k].radius == bs[k].radius && r[k].color == bs[k].color
  {
    var r := pair(bs[i], bs[j]);
    assert Conserving(bs[i], bs[j], r);
    ConservingGet(bs[i], bs[j], r, q);
    TotalUpdate(bs, i, r.0, q);
    TotalUpdate(bs[i := r.0], j, r.1, q);
  }

  /**
   * A sweep with a conserving pair rule keeps each body's radius and colour
   * and the totals of x, y, vx and vy.
   */
  lemma {:induction false} SweepPreserves(bs: seq<Body>, i: nat, j: nat, pair: (Body, Body) -> (Body, Body), q: Component)
    requires i < j
    requires ConservingRule(pair)
    ensures var r := Sweep(bs, i, j, pair);
            && Total(r, q) == Total(bs, q)
            && forall k :: 0 <= k < |bs| ==> r[k].radius == bs[k].radius && r[k].color == bs[k].color
    decreases |bs| - i, |bs| - j
  {
    if i >= |bs| {
      SweepDone(bs, i, j, pair);
    } else if j >= |bs| {
      SweepNextRow(bs, i, j, pair);
      SweepPreserves(bs, i + 1, i + 2, pair, q);
    } else {
      SweepStep(bs, i, j, pair);
      CollideAtPreserves(bs, i, j, pair, q);
      SweepPreserves(CollideAt(bs, i, j, pair), i, j + 1, pair, q);
    }
  }

  /**
   * resolveCollisions keeps the number of bodies, every radius and colour,
   * and the summed position and summed velocity of the whole system.
   */
  lemma ResolveAllPreserves(bs: seq<Body>, sqrt: real -> real, polar: (real, real) -> (real, real))
    ensures var r := ResolveAll(bs, sqrt, polar);
            && |r| == |bs|
            && (forall k :: 0 <= k < |bs| ==> r[k].radius == bs[k].radius && r[k].color == bs[k].color)
            && Total(r, X) == Total(bs, X) && Total(r, Y) == Total(bs, Y)
            && Total(r, VX) == Total(bs, VX) && Total(r, VY) == Total(bs, VY)
  {
    PairRuleConserves(sqrt, polar);
    SweepPreserves(bs, 0, 1, PairRule(sqrt, polar), X);
    SweepPreserves(bs, 0, 1, PairRule(sqrt, polar), Y);
    SweepPreserves(bs, 0, 1, PairRule(sqrt, polar), VX);
    SweepPreserves(bs, 0, 1, PairRule(sqrt, polar), VY);
  }
}
