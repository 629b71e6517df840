/**
 * The physics of one emoji ball and of one colliding pair, as pure functions over
 * a value snapshot of a ball's kinematic state. The classes in emoji_rain.dfy
 * update their fields step by step and promise to agree with these functions.
 *
 * Numbers are Dafny reals: the model is exact where the component uses IEEE-754
 * doubles. The distance Math.sqrt returns is an argument; the lemmas that depend
 * on its value require d >= 0 and d*d == dx*dx + dy*dy (IsDistance).
 */
module Physics {

  /** Position, velocity, radius and mass of one ball. */
  datatype Body = Body(x: real, y: real, vx: real, vy: real, radius: real, mass: real)

  /** What every ball satisfies: a positive radius, and a mass equal to it. */
  predicate WellFormed(b: Body) {
    b.radius > 0.0 && b.mass == b.radius
  }

  // Constants of Ball.update.
  const Gravity: real := 0.15
  const WallRestitution: real := 0.8
  const FloorRestitution: real := 0.3
  const FloorFriction: real := 0.7
  const RestDecay: real := 0.9
  const NearFloorBand: real := 3.0
  const NearFloorDampX: real := 0.95
  const NearFloorDampY: real := 0.98
  const AirDamping: real := 0.999

  function Abs(r: real): real {
    if r < 0.0 then -r else r
  }

  function Sq(r: real): real {
    r * r
  }

  // ---------------------------------------------------------------------------
  // One ball, one tick: the stages of Ball.update in program order.
  // ---------------------------------------------------------------------------

  function ApplyGravity(b: Body, gravityEnabled: bool): Body {
    if gravityEnabled then b.(vy := b.vy + Gravity) else b
  }

  function Advance(b: Body, speedMultiplier: real): Body {
    b.(x := b.x + b.vx * speedMultiplier, y := b.y + b.vy * speedMultiplier)
  }

  function LeftWall(b: Body): Body {
    if b.x - b.radius <= 0.0 then b.(x := b.radius, vx := -b.vx * WallRestitution) else b
  }

  function RightWall(b: Body, width: real): Body {
    if b.x + b.radius >= width then b.(x := width - b.radius, vx := -b.vx * WallRestitution) else b
  }

  function TopWall(b: Body): Body {
    if b.y - b.radius <= 0.0 then b.(y := b.radius, vy := -b.vy * WallRestitution) else b
  }

  /** True when the rest rule fires: both speeds below one after the floor bounce. */
  predicate SlowEnoughToRest(b: Body) {
    Abs(b.vy) < 1.0 && Abs(b.vx) < 1.0
  }

  function FloorBounce(b: Body, height: real): Body {
    if b.y + b.radius >= height then
      var f := b.(y := height - b.radius, vy := -b.vy * FloorRestitution, vx := b.vx * FloorFriction);
      if SlowEnoughToRest(f) then f.(vy := 0.0, vx := f.vx * RestDecay) else f
    else
      b
  }

  /** Ambient damping changes velocities only, and never speeds a ball up. */
  function Damping(b: Body, height: real): (r: Body)
    ensures r.x == b.x && r.y == b.y && r.radius == b.radius && r.mass == b.mass
    ensures Abs(r.vx) <= Abs(b.vx) && Abs(r.vy) <= Abs(b.vy)
    ensures b.y > height - NearFloorBand * b.radius ==> r.vx == NearFloorDampX * b.vx && r.vy == NearFloorDampY * b.vy
    ensures b.y <= height - NearFloorBand * b.radius ==> r.vx == AirDamping * b.vx && r.vy == AirDamping * b.vy
  {
    if b.y > height - b.radius * NearFloorBand then
      b.(vx := b.vx * NearFloorDampX, vy := b.vy * NearFloorDampY)
    else
      b.(vx := b.vx * AirDamping, vy := b.vy * AirDamping)
  }

  /** The state that reaches the floor test: gravity, integration, then the left, right and top walls. */
  function BeforeFloor(b: Body, width: real, gravityEnabled: bool, speedMultiplier: real): Body {
    TopWall(RightWall(LeftWall(Advance(ApplyGravity(b, gravityEnabled), speedMultiplier)), width))
  }

  /**
   * Ball.update. The centre ends on or inside the right and bottom limits
   * whatever the container size; it is also on or inside the left and top
   * limits when the container is at least one diameter across, since otherwise
   * the right and bottom clamps, applied later, win.
   */
  function Step(b: Body, width: real, height: real, gravityEnabled: bool, speedMultiplier: real): (r: Body)
    ensures r.radius == b.radius && r.mass == b.mass
    ensures r.x <= width - b.radius && r.y <= height - b.radius
    ensures width >= 2.0 * b.radius ==> b.radius <= r.x
    ensures height >= 2.0 * b.radius ==> b.radius <= r.y
  {
    Damping(FloorBounce(BeforeFloor(b, width, gravityEnabled, speedMultiplier), height), height)
  }

  /**
   * A floor hit always ends in the near-floor damping band (the centre sits one
   * radius above the floor, inside three radii), loses at least 70% of its
   * vertical and 30% of its horizontal speed, and stops vertically when the
   * rest rule fires.
   */
  lemma FloorHitSettles(b: Body, width: real, height: real, gravityEnabled: bool, speedMultiplier: real)
    requires b.radius > 0.0
    requires BeforeFloor(b, width, gravityEnabled, speedMultiplier).y + b.radius >= height
    ensures var p := BeforeFloor(b, width, gravityEnabled, speedMultiplier);
            var r := Step(b, width, height, gravityEnabled, speedMultiplier);
            && r.y == height - b.radius
            && r.y > height - NearFloorBand * b.radius
            && Abs(r.vy) <= NearFloorDampY * FloorRestitution * Abs(p.vy)
            && Abs(r.vx) <= NearFloorDampX * FloorFriction * Abs(p.vx)
            && (SlowEnoughToRest(p.(vy := -p.vy * FloorRestitution, vx := p.vx * FloorFriction)) <==> r.vy == 0.0 && r.vx == NearFloorDampX * RestDecay * FloorFriction * p.vx)
  {
    var p := BeforeFloor(b, width, gravityEnabled, speedMultiplier);
    var f := FloorBounce(p, height);
    var g := p.(y := height - b.radius, vy := -p.vy * FloorRestitution, vx := p.vx * FloorFriction);
    assert f.y == height - b.radius;
    assert f.y > height - NearFloorBand * b.radius;
    assert Abs(g.vy) == FloorRestitution * Abs(p.vy);
    assert Abs(g.vx) == FloorFriction * Abs(p.vx);
    if SlowEnoughToRest(g) {
      assert f == g.(vy := 0.0, vx := g.vx * RestDecay);
    } else {
      assert f == g;
      assert !(Abs(g.vy) < 1.0) || g.vx != 0.0;
    }
  }

  // ---------------------------------------------------------------------------
  // A pair of balls: Ball.checkCollision and Ball.resolveCollision.
  // ---------------------------------------------------------------------------

  /** The squared distance between the two centres. */
  function CentreDistanceSq(a: Body, b: Body): real {
    Sq(a.x - b.x) + Sq(a.y - b.y)
  }

  /** d is what Math.sqrt returns for the distance between the two centres. */
  predicate IsDistance(a: Body, b: Body, d: real) {
    d >= 0.0 && d * d == CentreDistanceSq(a, b)
  }

  /**
   * Ball.checkCollision, with both sides of `distance < r1 + r2` squared. For
   * balls of positive size it agrees with the test on the true distance.
   */
  predicate Overlapping(a: Body, b: Body): (r: bool)
    ensures forall d :: IsDistance(a, b, d) && a.radius + b.radius > 0.0 ==> (r <==> d < a.radius + b.radius)
  {
    SquaredTestIffCloser(a, b);
    CentreDistanceSq(a, b) < Sq(a.radius + b.radius)
  }

  /** Comparing the squared distance with the squared radius sum is comparing the distance itself. */
  lemma SquaredTestIffCloser(a: Body, b: Body)
    ensures forall d :: IsDistance(a, b, d) && a.radius + b.radius > 0.0 ==>
              (CentreDistanceSq(a, b) < Sq(a.radius + b.radius) <==> d < a.radius + b.radius)
  {
    forall d | IsDistance(a, b, d) && a.radius + b.radius > 0.0
      ensures CentreDistanceSq(a, b) < Sq(a.radius + b.radius) <==> d < a.radius + b.radius
    {
      SquareMonotone(d, a.radius + b.radius);
    }
  }

  lemma OverlappingSymmetric(a: Body, b: Body)
    ensures Overlapping(a, b) <==> Overlapping(b, a)
  {
    assert Sq(a.x - b.x) == Sq(b.x - a.x);
    assert Sq(a.y - b.y) == Sq(b.y - a.y);
  }

  /** For non-negative reals, comparing squares is comparing the numbers. */
  lemma SquareMonotone(d: real, s: real)
    requires d >= 0.0 && s > 0.0
    ensures d * d < s * s <==> d < s
  {
    if d < s {
      calc {
        d * d;
      <= d * s;
      <  s * s;
      }
    } else {
      assert d * d >= s * d;
      assert s * d >= s * s;
    }
  }

  /** The unit normal from b to a, for centres d apart: nx and ny in Ball.resolveCollision. */
  function NormalX(a: Body, b: Body, d: real): real
    requires d != 0.0
  {
    (a.x - b.x) / d
  }

  function NormalY(a: Body, b: Body, d: real): real
    requires d != 0.0
  {
    (a.y - b.y) / d
  }

  /** The relative velocity of a with respect to b along (nx, ny): dvn in Ball.resolveCollision. */
  function Approach(a: Body, b: Body, nx: real, ny: real): real {
    (a.vx - b.vx) * nx + (a.vy - b.vy) * ny
  }

  /** resolveCollision goes past both early returns: distinct centres and a pair not separating. */
  predicate Engaged(a: Body, b: Body, d: real) {
    d != 0.0 && Approach(a, b, NormalX(a, b, d), NormalY(a, b, d)) <= 0.0
  }

  /** How far the two balls overlap when their centres are d apart. */
  function Overlap(a: Body, b: Body, d: real): real {
    a.radius + b.radius - d
  }

  /** The impulse of the pair along (nx, ny), per unit of the other ball's mass. */
  function Impulse(a: Body, b: Body, nx: real, ny: real): real
    requires WellFormed(a) && WellFormed(b)
  {
    2.0 * Approach(a, b, nx, ny) / (a.mass + b.mass)
  }

  /**
   * Ball.resolveCollision on (a, b): an elastic impulse along the normal, then
   * half the overlap each along it. Nothing happens for coincident centres or a
   * pair that is already separating.
   */
  function Resolve(a: Body, b: Body, d: real): (r: (Body, Body))
    requires WellFormed(a) && WellFormed(b)
    ensures r.0.radius == a.radius && r.0.mass == a.mass
    ensures r.1.radius == b.radius && r.1.mass == b.mass
    ensures !Engaged(a, b, d) ==> r == (a, b)
  {
    if d == 0.0 then (a, b)
    else ResolveAlong(a, b, d, NormalX(a, b, d), NormalY(a, b, d))
  }

  /** resolveCollision once the unit normal (nx, ny) from b to a is known. */
  function ResolveAlong(a: Body, b: Body, d: real, nx: real, ny: real): (Body, Body)
    requires WellFormed(a) && WellFormed(b)
  {
    if Approach(a, b, nx, ny) > 0.0 then (a, b)
    else Push(a, b, nx, ny, Impulse(a, b, nx, ny), Overlap(a, b, d))
  }

  /** The impulse applied along the normal, then half the overlap along it to each ball, in opposite directions. */
  function Push(a: Body, b: Body, nx: real, ny: real, impulse: real, overlap: real): (Body, Body) {
    var sx, sy := nx * overlap * 0.5, ny * overlap * 0.5;
    ( Body(a.x + sx, a.y + sy, a.vx - impulse * b.mass * nx, a.vy - impulse * b.mass * ny, a.radius, a.mass)
    , Body(b.x - sx, b.y - sy, b.vx + impulse * a.mass * nx, b.vy + impulse * a.mass * ny, b.radius, b.mass) )
  }

  /** An engaged pair is resolved by the push along its own normal, with its own impulse and half its overlap. */
  lemma ResolveIsPush(a: Body, b: Body, d: real)
    requires WellFormed(a) && WellFormed(b) && Engaged(a, b, d)
    ensures var nx, ny := NormalX(a, b, d), NormalY(a, b, d);
            Resolve(a, b, d) == Push(a, b, nx, ny, Impulse(a, b, nx, ny), Overlap(a, b, d))
  {
  }

  /**
   * The push field by field, for masses read separately (as resolveCollision
   * does, one assignment at a time).
   */
  lemma PushFields(a: Body, b: Body, nx: real, ny: real, impulse: real, overlap: real, ma: real, mb: real)
    requires ma == a.mass && mb == b.mass
    ensures var p := Push(a, b, nx, ny, impulse, overlap);
            && p.0.vx == a.vx - impulse * mb * nx && p.0.vy == a.vy - impulse * mb * ny
            && p.1.vx == b.vx + impulse * ma * nx && p.1.vy == b.vy + impulse * ma * ny
            && p.0.x == a.x + nx * overlap * 0.5 && p.0.y == a.y + ny * overlap * 0.5
            && p.1.x == b.x - nx * overlap * 0.5 && p.1.y == b.y - ny * overlap * 0.5
            && p.0.radius == a.radius && p.0.mass == a.mass && p.1.radius == b.radius && p.1.mass == b.mass
  {
  }

  // Facts about the unit normal of a pair whose centres are d apart.

  /** The unit normal (dx/d, dy/d) is parallel to (dx, dy). */
  lemma NormalParallel(a: Body, b: Body, d: real)
    requires d != 0.0
    ensures NormalY(a, b, d) * (a.x - b.x) == NormalX(a, b, d) * (a.y - b.y)
  {
    var dx, dy := a.x - b.x, a.y - b.y;
    assert (dy / d) * dx == (dy * dx) / d;
    assert (dx / d) * dy == (dx * dy) / d;
  }

  /** The unit normal scaled by the distance is the offset between the centres, and its dot product with that offset is the distance. */
  lemma NormalSpansOffset(a: Body, b: Body, d: real)
    requires IsDistance(a, b, d) && d != 0.0
    ensures NormalX(a, b, d) * d == a.x - b.x && NormalY(a, b, d) * d == a.y - b.y
    ensures NormalX(a, b, d) * (a.x - b.x) + NormalY(a, b, d) * (a.y - b.y) == d
  {
    var dx, dy := a.x - b.x, a.y - b.y;
    assert (dx / d) * dx + (dy / d) * dy == (dx * dx + dy * dy) / d;
  }

  /** For equal masses the impulse times the mass is the normal approach speed itself. */
  lemma ImpulseEqualMasses(a: Body, b: Body, nx: real, ny: real)
    requires WellFormed(a) && WellFormed(b) && a.mass == b.mass
    ensures Impulse(a, b, nx, ny) * a.mass == Approach(a, b, nx, ny)
  {
  }

  // Properties of the push itself, for any normal, impulse and overlap.

  /** Mass-weighted momentum, per component. */
  function MomentumX(b: Body): real { b.mass * b.vx }
  function MomentumY(b: Body): real { b.mass * b.vy }

  /** The velocity's dot product with (dx, dy): its component along that direction, times its length. */
  function VelocityAlong(b: Body, dx: real, dy: real): real { b.vx * dx + b.vy * dy }

  /** The velocity's cross product with (dx, dy): its component across that direction, times its length. */
  function VelocityAcross(b: Body, dx: real, dy: real): real { b.vy * dx - b.vx * dy }

  /** Opposite impulses weighted by the other mass cancel in the total momentum, and opposite moves in the sum of centres. */
  lemma PushConserves(a: Body, b: Body, nx: real, ny: real, impulse: real, overlap: real)
    ensures var p := Push(a, b, nx, ny, impulse, overlap);
            && MomentumX(p.0) + MomentumX(p.1) == MomentumX(a) + MomentumX(b)
            && MomentumY(p.0) + MomentumY(p.1) == MomentumY(a) + MomentumY(b)
            && p.0.x + p.1.x == a.x + b.x
            && p.0.y + p.1.y == a.y + b.y
  {
    assert a.mass * (impulse * b.mass * nx) == b.mass * (impulse * a.mass * nx);
    assert a.mass * (impulse * b.mass * ny) == b.mass * (impulse * a.mass * ny);
  }

  /** An impulse along a normal parallel to (dx, dy) leaves each velocity's cross product with (dx, dy) alone. */
  lemma PushKeepsCross(a: Body, b: Body, nx: real, ny: real, impulse: real, overlap: real, dx: real, dy: real)
    requires ny * dx == nx * dy
    ensures var p := Push(a, b, nx, ny, impulse, overlap);
            && VelocityAcross(p.0, dx, dy) == VelocityAcross(a, dx, dy)
            && VelocityAcross(p.1, dx, dy) == VelocityAcross(b, dx, dy)
  {
    CrossUnchanged(a.vx, a.vy, -(impulse * b.mass), nx, ny, dx, dy);
    CrossUnchanged(b.vx, b.vy, impulse * a.mass, nx, ny, dx, dy);
  }

  lemma CrossUnchanged(vx: real, vy: real, k: real, nx: real, ny: real, dx: real, dy: real)
    requires ny * dx == nx * dy
    ensures (vy + k * ny) * dx - (vx + k * nx) * dy == vy * dx - vx * dy
  {
    assert (k * ny) * dx == k * (ny * dx);
    assert (k * nx) * dy == k * (nx * dy);
  }

  /**
   * For equal masses, an impulse equal to the approach speed along a unit
   * normal n with d * n == (dx, dy) swaps the two velocities' components along (dx, dy).
   */
  lemma PushSwapsAlong(a: Body, b: Body, nx: real, ny: real, impulse: real, overlap: real, dx: real, dy: real, d: real)
    requires a.mass == b.mass && impulse * a.mass == Approach(a, b, nx, ny)
    requires nx * d == dx && ny * d == dy && nx * dx + ny * dy == d
    ensures var p := Push(a, b, nx, ny, impulse, overlap);
            && VelocityAlong(p.0, dx, dy) == VelocityAlong(b, dx, dy)
            && VelocityAlong(p.1, dx, dy) == VelocityAlong(a, dx, dy)
  {
    var k := impulse * a.mass;
    var dvn := Approach(a, b, nx, ny);
    assert dvn * d == (a.vx - b.vx) * dx + (a.vy - b.vy) * dy;
    assert (k * nx) * dx + (k * ny) * dy == k * d;
  }

  /** The push moves the two centres apart by twice the separation. */
  lemma PushSeparates(a: Body, b: Body, nx: real, ny: real, impulse: real, overlap: real)
    ensures var p := Push(a, b, nx, ny, impulse, overlap);
            p.0.x - p.1.x == (a.x - b.x) + 2.0 * (nx * overlap * 0.5) && p.0.y - p.1.y == (a.y - b.y) + 2.0 * (ny * overlap * 0.5)
  {
  }

  // The same properties for Resolve.

  /** Mass-weighted momentum and the sum of the two centres are the same before and after. */
  lemma ResolveConserves(a: Body, b: Body, d: real)
    requires WellFormed(a) && WellFormed(b)
    ensures var r := Resolve(a, b, d);
            && MomentumX(r.0) + MomentumX(r.1) == MomentumX(a) + MomentumX(b)
            && MomentumY(r.0) + MomentumY(r.1) == MomentumY(a) + MomentumY(b)
            && r.0.x + r.1.x == a.x + b.x
            && r.0.y + r.1.y == a.y + b.y
  {
    if Engaged(a, b, d) {
      var nx, ny := NormalX(a, b, d), NormalY(a, b, d);
      ResolveIsPush(a, b, d);
      PushConserves(a, b, nx, ny, Impulse(a, b, nx, ny), Overlap(a, b, d));
    }
  }

  /** The impulse acts along the normal: each ball's velocity component across it is unchanged. */
  lemma ResolveKeepsTangentialVelocity(a: Body, b: Body, d: real)
    requires WellFormed(a) && WellFormed(b)
    ensures var r := Resolve(a, b, d);
            var dx, dy := a.x - b.x, a.y - b.y;
            && VelocityAcross(r.0, dx, dy) == VelocityAcross(a, dx, dy)
            && VelocityAcross(r.1, dx, dy) == VelocityAcross(b, dx, dy)
  {
    if Engaged(a, b, d) {
      var nx, ny := NormalX(a, b, d), NormalY(a, b, d);
      ResolveIsPush(a, b, d);
      NormalParallel(a, b, d);
      PushKeepsCross(a, b, nx, ny, Impulse(a, b, nx, ny), Overlap(a, b, d),
                     a.x - b.x, a.y - b.y);
    }
  }

  /**
   * Equal masses exchange their velocity components along the normal (stated as
   * dot products with the unnormalised normal dx, dy).
   */
  lemma ResolveEqualMassesSwapNormalVelocity(a: Body, b: Body, d: real)
    requires WellFormed(a) && WellFormed(b) && IsDistance(a, b, d)
    requires a.mass == b.mass && Engaged(a, b, d)
    ensures var r := Resolve(a, b, d);
            var dx, dy := a.x - b.x, a.y - b.y;
            && VelocityAlong(r.0, dx, dy) == VelocityAlong(b, dx, dy)
            && VelocityAlong(r.1, dx, dy) == VelocityAlong(a, dx, dy)
  {
    ResolveIsPush(a, b, d);
    PushSwapsAlongNormal(a, b, d, Overlap(a, b, d));
  }

  /** PushSwapsAlong for the pair's own unit normal and impulse. */
  lemma PushSwapsAlongNormal(a: Body, b: Body, d: real, overlap: real)
    requires WellFormed(a) && WellFormed(b) && IsDistance(a, b, d) && d != 0.0 && a.mass == b.mass
    ensures var nx, ny := NormalX(a, b, d), NormalY(a, b, d);
            var p := Push(a, b, nx, ny, Impulse(a, b, nx, ny), overlap);
            && VelocityAlong(p.0, a.x - b.x, a.y - b.y) == VelocityAlong(b, a.x - b.x, a.y - b.y)
            && VelocityAlong(p.1, a.x - b.x, a.y - b.y) == VelocityAlong(a, a.x - b.x, a.y - b.y)
  {
    var nx, ny := NormalX(a, b, d), NormalY(a, b, d);
    NormalSpansOffset(a, b, d);
    ImpulseEqualMasses(a, b, nx, ny);
    PushSwapsAlong(a, b, nx, ny, Impulse(a, b, nx, ny), overlap, a.x - b.x, a.y - b.y, d);
  }

  /**
   * After an engaged resolution the centres are exactly r1 + r2 apart (touching,
   * no longer overlapping), displaced along the original normal.
   */
  lemma ResolveSeparatesToContact(a: Body, b: Body, d: real)
    requires WellFormed(a) && WellFormed(b) && IsDistance(a, b, d)
    requires Engaged(a, b, d)
    ensures var r := Resolve(a, b, d);
            && CentreDistanceSq(r.0, r.1) == Sq(a.radius + b.radius)
            && !Overlapping(r.0, r.1)
            && (r.0.x - r.1.x) * (a.y - b.y) == (r.0.y - r.1.y) * (a.x - b.x)
  {
    var r := Resolve(a, b, d);
    var nx, ny := NormalX(a, b, d), NormalY(a, b, d);
    var o := Overlap(a, b, d);
    ResolveIsPush(a, b, d);
    PushSeparates(a, b, nx, ny, Impulse(a, b, nx, ny), o);
    ContactAlgebra(a.x - b.x, a.y - b.y, r.0.x - r.1.x, r.0.y - r.1.y, d, a.radius + b.radius, nx, ny, o);
  }

  /**
   * Moving the two ends of an offset (dx, dy) of length d apart by half the
   * overlap s - d each, along the unit normal, gives an offset of length s
   * pointing the same way.
   */
  lemma ContactAlgebra(dx: real, dy: real, rx: real, ry: real, d: real, s: real, nx: real, ny: real, o: real)
    requires d > 0.0 && d * d == Sq(dx) + Sq(dy)
    requires nx == dx / d && ny == dy / d && o == s - d
    requires rx == dx + 2.0 * (nx * o * 0.5) && ry == dy + 2.0 * (ny * o * 0.5)
    ensures Sq(rx) + Sq(ry) == Sq(s)
    ensures rx * dy == ry * dx
  {
    SeparationScales(dx, d, s);
    SeparationScales(dy, d, s);
    ScaledLength(dx, dy, d, s);
  }

  /** Moving both ends by half the overlap along the unit normal scales the offset by s / d. */
  lemma SeparationScales(dx: real, d: real, s: real)
    requires d > 0.0
    ensures dx + 2.0 * ((dx / d) * (s - d) * 0.5) == dx * (s / d)
  {
    assert (dx / d) * (s - d) == dx * (s / d) - dx;
  }

  /** Scaling an offset of length d by s / d gives length s. */
  lemma ScaledLength(dx: real, dy: real, d: real, s: real)
    requires d > 0.0 && d * d == Sq(dx) + Sq(dy)
    ensures Sq(dx * (s / d)) + Sq(dy * (s / d)) == Sq(s)
    ensures (dx * (s / d)) * dy == (dy * (s / d)) * dx
  {
    var k := s / d;
    assert Sq(dx * k) + Sq(dy * k) == (Sq(dx) + Sq(dy)) * (k * k);
    assert d * k == s;
    assert (d * d) * (k * k) == (d * k) * (d * k);
  }

  /**
   * The equal-mass head-on case: two balls of radius 20 on one horizontal line,
   * 30 apart, moving at +5 and -5, swap their velocities and end 40 apart.
   */
  lemma HeadOnExchange()
    ensures var a := Body(130.0, 50.0, -5.0, 0.0, 20.0, 20.0);
            var b := Body(100.0, 50.0, 5.0, 0.0, 20.0, 20.0);
            IsDistance(a, b, 30.0) && Resolve(a, b, 30.0) == (a.(vx := 5.0, x := 135.0), b.(vx := -5.0, x := 95.0))
  {
    var a := Body(130.0, 50.0, -5.0, 0.0, 20.0, 20.0);
    var b := Body(100.0, 50.0, 5.0, 0.0, 20.0, 20.0);
    assert NormalX(a, b, 30.0) == 1.0 && NormalY(a, b, 30.0) == 0.0;
    assert Approach(a, b, 1.0, 0.0) == -10.0;
    assert Impulse(a, b, 1.0, 0.0) == -0.5;
    ResolveIsPush(a, b, 30.0);
  }
}
