/**
 * The EmojiRain component: the Ball class and the engine state the component
 * keeps in refs (the ball list, the id counter, the rain flag, the interval and
 * the animation-frame registration), with one method per callback.
 *
 * Host services become parameters: the container's size (None when the
 * container element is missing), Math.random() draws, and Math.sqrt. The host
 * scheduler becomes two methods, OnAnimationFrame and OnRainInterval, that the
 * host calls when a registered callback is due.
 */
module EmojiRain {
  import opened Wrappers
  import opened Physics
  import opened Pass
  import opened Spawn
  import Rain

  /** gravityEnabled (a state that is never changed) and speed, as the component fixes them. */
  const GravityEnabled: bool := true
  const Speed: real := 0.1

  /** clientWidth and clientHeight of the container. */
  datatype Bounds = Bounds(width: real, height: real)

  class Ball {
    const id: int
    const radius: real
    const mass: real
    const isRain: bool
    var x: real
    var y: real
    var vx: real
    var vy: real
    /** The ball's element is a child of the container. */
    var attached: bool

    /** The ball's kinematic state as a value. */
    function Snapshot(): Body
      reads this
    {
      Body(x, y, vx, vy, radius, mass)
    }

    /**
     * Takes the id the engine hands out and the two velocity draws. Only
     * createBall constructs balls, after checking that the container exists, so
     * createElement always attaches the new element.
     */
    constructor (id: int, x: real, y: real, radius: real, isRain: bool, d: Draws)
      requires InUnit(d)
      ensures this.id == id && this.x == x && this.y == y && this.radius == radius && this.isRain == isRain
      ensures mass == radius
      ensures (vx, vy) == InitialVelocity(isRain, d)
      ensures attached
    {
      this.id := id;
      this.x := x;
      this.y := y;
      this.radius := radius;
      this.isRain := isRain;
      if isRain {
        vx := (d.vx - 0.5) * 1.0;
        vy := d.vy * 1.5 + 1.0;
      } else {
        vx := (d.vx - 0.5) * 6.0;
        vy := (d.vy - 0.5) * 6.0;
      }
      this.mass := radius;
      attached := true;
    }

    /**
     * Ball.update, one stage per helper in program order; the element's
     * repositioning is display only.
     */
    method Update(containerWidth: real, containerHeight: real, gravityEnabled: bool, speedMultiplier: real)
      modifies this`x, this`y, this`vx, this`vy
      ensures Snapshot() == Step(old(Snapshot()), containerWidth, containerHeight, gravityEnabled, speedMultiplier)
      ensures x <= containerWidth - radius && y <= containerHeight - radius
      ensures containerWidth >= 2.0 * radius ==> radius <= x
      ensures containerHeight >= 2.0 * radius ==> radius <= y
    {
      Fall(gravityEnabled);
      Move(speedMultiplier);
      BounceOffWalls(containerWidth);
      BounceOffFloor(containerHeight);
      Damp(containerHeight);
    }

    /** Gravity adds to the vertical velocity when it is enabled. */
    method Fall(gravityEnabled: bool)
      modifies this`vy
      ensures Snapshot() == ApplyGravity(old(Snapshot()), gravityEnabled)
    {
      if gravityEnabled {
        vy := vy + Gravity;
      }
    }

    /** The centre moves by the velocity scaled by the speed multiplier. */
    method Move(speedMultiplier: real)
      modifies this`x, this`y
      ensures Snapshot() == Advance(old(Snapshot()), speedMultiplier)
    {
      x := x + vx * speedMultiplier;
      y := y + vy * speedMultiplier;
    }

    /** The left, right and top walls, in that order: clamp the centre and reflect with restitution. */
    method BounceOffWalls(containerWidth: real)
      modifies this`x, this`y, this`vx, this`vy
      ensures Snapshot() == TopWall(RightWall(LeftWall(old(Snapshot())), containerWidth))
    {
      if x - radius <= 0.0 {
        x := radius;
        vx := -vx * WallRestitution;
      }
      if x + radius >= containerWidth {
        x := containerWidth - radius;
        vx := -vx * WallRestitution;
      }
      if y - radius <= 0.0 {
        y := radius;
        vy := -vy * WallRestitution;
      }
    }

    /** The floor: clamp, bounce with friction, and come to rest when both speeds are below one. */
    method BounceOffFloor(containerHeight: real)
      modifies this`y, this`vx, this`vy
      ensures Snapshot() == FloorBounce(old(Snapshot()), containerHeight)
    {
      if y + radius >= containerHeight {
        y := containerHeight - radius;
        vy := -vy * FloorRestitution;
        vx := vx * FloorFriction;
        if Abs(vy) < 1.0 && Abs(vx) < 1.0 {
          vy := 0.0;
          vx := vx * RestDecay;
        }
      }
    }

    /** Stronger damping within three radii of the floor, air resistance elsewhere. */
    method Damp(containerHeight: real)
      modifies this`vx, this`vy
      ensures Snapshot() == Damping(old(Snapshot()), containerHeight)
    {
      if y > containerHeight - radius * NearFloorBand {
        vx := vx * NearFloorDampX;
        vy := vy * NearFloorDampY;
      } else {
        vx := vx * AirDamping;
        vy := vy * AirDamping;
      }
    }

    /** Ball.checkCollision: the centres are closer than the sum of the radii. */
    predicate CheckCollision(other: Ball): (r: bool)
      reads this, other
      ensures r <==> Overlapping(other.Snapshot(), Snapshot())
      ensures forall d :: IsDistance(Snapshot(), other.Snapshot(), d) && radius + other.radius > 0.0 ==>
                (r <==> d < radius + other.radius)
    {
      OverlappingSymmetric(Snapshot(), other.Snapshot());
      Overlapping(Snapshot(), other.Snapshot())
    }

    /**
     * Ball.resolveCollision, given the distance Math.sqrt computes for the pair.
     * A ball is at distance 0 from itself, so a ball resolved against itself
     * returns at the first early exit.
     */
    method ResolveCollision(other: Ball, distance: real)
      requires WellFormed(Snapshot()) && WellFormed(other.Snapshot())
      requires other == this ==> distance == 0.0
      modifies this`x, this`y, this`vx, this`vy, other`x, other`y, other`vx, other`vy
      ensures Snapshot() == Resolve(old(Snapshot()), old(other.Snapshot()), distance).0
      ensures other.Snapshot() == Resolve(old(Snapshot()), old(other.Snapshot()), distance).1
    {
      ghost var a, b := Snapshot(), other.Snapshot();
      var dx := x - other.x;
      var dy := y - other.y;
      if distance == 0.0 {
        return;
      }
      var nx := dx / distance;
      var ny := dy / distance;
      assert nx == NormalX(a, b, distance) && ny == NormalY(a, b, distance);
      var dvx := vx - other.vx;
      var dvy := vy - other.vy;
      var dvn := dvx * nx + dvy * ny;
      assert dvn == Approach(a, b, nx, ny);
      if dvn > 0.0 {
        return;
      }
      var totalMass := mass + other.mass;
      var impulse := 2.0 * dvn / totalMass;
      assert impulse == Impulse(a, b, nx, ny);
      ApplyImpulse(other, impulse, nx, ny);

      var overlap := radius + other.radius - distance;
      var separationX := nx * overlap * 0.5;
      var separationY := ny * overlap * 0.5;
      assert overlap == Overlap(a, b, distance);
      Separate(other, separationX, separationY);
      ResolveIsPush(a, b, distance);
      PushFields(a, b, nx, ny, impulse, overlap, mass, other.mass);
    }

    /** The velocity half of resolveCollision: equal and opposite impulses along (nx, ny). */
    method ApplyImpulse(other: Ball, impulse: real, nx: real, ny: real)
      requires other != this
      modifies this`vx, this`vy, other`vx, other`vy
      ensures vx == old(vx) - impulse * other.mass * nx && vy == old(vy) - impulse * other.mass * ny
      ensures other.vx == old(other.vx) + impulse * mass * nx && other.vy == old(other.vy) + impulse * mass * ny
    {
      vx := vx - impulse * other.mass * nx;
      vy := vy - impulse * other.mass * ny;
      other.vx := other.vx + impulse * mass * nx;
      other.vy := other.vy + impulse * mass * ny;
    }

    /** The position half of resolveCollision: the two centres move apart by (sx, sy) each. */
    method Separate(other: Ball, sx: real, sy: real)
      requires other != this
      modifies this`x, this`y, other`x, other`y
      ensures x == old(x) + sx && y == old(y) + sy
      ensures other.x == old(other.x) - sx && other.y == old(other.y) - sy
    {
      x := x + sx;
      y := y + sy;
      other.x := other.x - sx;
      other.y := other.y - sy;
    }

    /** Ball.destroy: removes the element if it is still attached; a second call does nothing. */
    method Destroy()
      modifies this`attached
      ensures !attached
    {
      if attached {
        attached := false;
      }
    }
  }

  class Engine {
    /** ballsRef: the live balls in insertion order. */
    var balls: seq<Ball>
    /** nextIdRef: the id the next ball gets. */
    var nextId: int
    /** The rainEnabled state. */
    var rainEnabled: bool
    /** rainIntervalRef holds a registered 300 ms interval. */
    var intervalActive: bool
    /** animationIdRef holds a registered animation-frame callback. */
    var framePending: bool

    /**
     * Every ball has a positive radius and mass equal to it, the ids along the
     * list are consecutive and end just below the counter (so they increase
     * along the list and no two balls share one), and the interval only runs
     * while rain is enabled.
     */
    ghost predicate Valid()
      reads this`balls, this`nextId, this`rainEnabled, this`intervalActive
    {
      && nextId >= 0
      && (forall k :: 0 <= k < |balls| ==> balls[k].radius > 0.0 && balls[k].mass == balls[k].radius)
      && (forall k :: 0 <= k < |balls| ==> balls[k].id == nextId - |balls| + k)
      && Rain.Consistent(RainView())
    }

    /** The balls' kinematic states, in list order. */
    ghost function Bodies(): (s: seq<Body>)
      reads this`balls, balls
      ensures |s| == |balls|
      ensures forall k :: 0 <= k < |balls| ==> s[k] == balls[k].Snapshot()
    {
      Snapshots(balls)
    }

    /** The kinematic states of a list of balls, in list order. */
    static ghost function Snapshots(bs: seq<Ball>): (s: seq<Body>)
      reads bs
      ensures |s| == |bs|
      ensures forall k :: 0 <= k < |bs| ==> s[k] == bs[k].Snapshot()
    {
      if bs == [] then [] else Snapshots(bs[..|bs| - 1]) + [bs[|bs| - 1].Snapshot()]
    }

    /** Whether each ball's element is still in the container, in list order. */
    ghost function Attached(): (f: seq<bool>)
      reads this`balls, balls`attached
      ensures |f| == |balls|
      ensures forall k :: 0 <= k < |balls| ==> f[k] == balls[k].attached
    {
      AttachedFlags(balls)
    }

    static ghost function AttachedFlags(bs: seq<Ball>): (f: seq<bool>)
      reads bs`attached
      ensures |f| == |bs|
      ensures forall k :: 0 <= k < |bs| ==> f[k] == bs[k].attached
    {
      if bs == [] then [] else AttachedFlags(bs[..|bs| - 1]) + [bs[|bs| - 1].attached]
    }

    /** The engine as the rain controller sees it. */
    function RainView(): Rain.Controller
      reads this`balls, this`rainEnabled, this`intervalActive
    {
      Rain.Controller(|balls|, rainEnabled, intervalActive)
    }

    constructor ()
      ensures Valid()
      ensures balls == [] && nextId == 0
      ensures !rainEnabled && !intervalActive && !framePending
    {
      balls := [];
      nextId := 0;
      rainEnabled := false;
      intervalActive := false;
      framePending := false;
    }

    lemma WellFormedBodies()
      requires Valid()
      ensures AllWellFormed(Bodies())
    {
    }

    /** Ids increase along the list, so distinct positions hold distinct balls. */
    lemma DistinctBalls(i: nat, j: nat)
      requires Valid() && i < |balls| && j < |balls| && i != j
      ensures balls[i] != balls[j]
      ensures i < j ==> balls[i].id < balls[j].id
    {
      assert balls[i].id == nextId - |balls| + i;
      assert balls[j].id == nextId - |balls| + j;
    }

    /**
     * createBall: nothing without a container; otherwise one new ball, with the
     * next id, appended after the existing balls, which are left as they were.
     */
    method CreateBall(container: Option<Bounds>, x: Option<real>, y: Option<real>, isRain: bool, d: Draws)
      requires Valid() && InUnit(d)
      modifies this
      ensures Valid()
      ensures rainEnabled == old(rainEnabled) && intervalActive == old(intervalActive) && framePending == old(framePending)
      ensures container.None? ==> balls == old(balls) && nextId == old(nextId)
      ensures container.Some? ==>
                && |balls| == |old(balls)| + 1
                && balls[..|old(balls)|] == old(balls)
                && nextId == old(nextId) + 1
      ensures container.Some? ==>
                var b := balls[|old(balls)|];
                && fresh(b)
                && b.id == old(nextId)
                && b.isRain == isRain && b.attached
                && b.radius == SpawnRadius(isRain, d.radius)
                && (b.x, b.y) == SpawnPosition(isRain, x, y, b.radius, container.value.width, container.value.height, d)
                && (b.vx, b.vy) == InitialVelocity(isRain, d)
    {
      if container.None? {
        return;
      }
      var containerWidth := container.value.width;
      var containerHeight := container.value.height;

      var radius := SpawnRadius(isRain, d.radius);

      var ballX := if x.Some? then x.value else 0.0;
      var ballY := if y.Some? then y.value else 0.0;

      if isRain {
        ballX := InsideCoordinate(d.x, radius, containerWidth);
        ballY := -radius;
      } else if x.None? || y.None? {
        ballX := InsideCoordinate(d.x, radius, containerWidth);
        ballY := InsideCoordinate(d.y, radius, containerHeight);
      }

      var ball := new Ball(nextId, ballX, ballY, radius, isRain, d);
      nextId := nextId + 1;
      balls := balls + [ball];
    }

    /** startRain: does nothing while rain is enabled; otherwise enables it and registers the interval. */
    method StartRain()
      requires Valid()
      modifies this
      ensures Valid()
      ensures RainView() == Rain.Next(old(RainView()), Rain.StartRain)
      ensures balls == old(balls) && nextId == old(nextId) && framePending == old(framePending)
    {
      if rainEnabled {
        return;
      }
      rainEnabled := true;
      intervalActive := true;
    }

    /** stopRain: disables rain and clears the interval if one is registered. */
    method StopRain()
      requires Valid()
      modifies this
      ensures Valid()
      ensures !rainEnabled && !intervalActive
      ensures RainView() == Rain.Next(old(RainView()), Rain.StopRain)
      ensures balls == old(balls) && nextId == old(nextId) && framePending == old(framePending)
    {
      rainEnabled := false;
      if intervalActive {
        intervalActive := false;
      }
    }

    /** The effect on ballCount: more than 45 balls stops the rain. */
    method EnforceCap()
      requires Valid()
      modifies this
      ensures Valid()
      ensures RainView() == Rain.Capped(old(RainView()))
      ensures balls == old(balls) && nextId == old(nextId) && framePending == old(framePending)
    {
      if |balls| > Rain.Cap {
        StopRain();
      }
    }

    /**
     * A click on the container (coordinates already relative to it): one manual
     * ball centred exactly there, then the cap effect.
     */
    method Click(container: Option<Bounds>, cx: real, cy: real, d: Draws)
      requires Valid() && InUnit(d)
      modifies this
      ensures Valid()
      ensures RainView() == Rain.Next(old(RainView()), Rain.Click(container.Some?))
      ensures framePending == old(framePending)
      ensures container.None? ==> balls == old(balls) && nextId == old(nextId)
      ensures container.Some? ==>
                && |balls| == |old(balls)| + 1 && balls[..|old(balls)|] == old(balls)
                && nextId == old(nextId) + 1
                && var b := balls[|old(balls)|];
                   && fresh(b) && b.id == old(nextId) && !b.isRain && b.attached
                   && b.x == cx && b.y == cy && 20.0 <= b.radius < 50.0
                   && (b.vx, b.vy) == InitialVelocity(false, d)
    {
      if container.None? {
        return;
      }
      CreateBall(container, Some(cx), Some(cy), false, d);
      EnforceCap();
    }

    /**
     * The host fires the rain interval. A cleared interval never fires, so
     * nothing happens unless one is registered; otherwise addRainBall spawns a
     * rain ball above the top edge, then the cap effect runs.
     */
    method OnRainInterval(container: Option<Bounds>, d: Draws)
      requires Valid() && InUnit(d)
      modifies this
      ensures Valid()
      ensures RainView() == Rain.Next(old(RainView()), Rain.RainTimer(container.Some?))
      ensures framePending == old(framePending)
      ensures !(old(intervalActive) && container.Some?) ==> balls == old(balls) && nextId == old(nextId)
      ensures old(intervalActive) && container.Some? ==>
                && |balls| == |old(balls)| + 1 && balls[..|old(balls)|] == old(balls)
                && nextId == old(nextId) + 1
                && var b := balls[|old(balls)|];
                   && fresh(b) && b.id == old(nextId) && b.isRain && b.attached && b.y == -b.radius && 15.0 <= b.radius < 40.0
                   && (b.vx, b.vy) == InitialVelocity(true, d)
                   && (container.value.width >= 2.0 * b.radius ==> b.radius <= b.x <= container.value.width - b.radius)
                   && (container.value.width > 2.0 * b.radius ==> b.x < container.value.width - b.radius)
    {
      if !intervalActive || container.None? {
        return;
      }
      CreateBall(container, Some(0.0), Some(0.0), true, d);
      EnforceCap();
    }

    /** The update phase of animate: every ball's update, in list order. */
    method UpdateAll(containerWidth: real, containerHeight: real)
      requires Valid()
      modifies balls
      ensures balls == old(balls)
      ensures Attached() == old(Attached())
      ensures Valid()
      ensures Bodies() == StepAll(old(Bodies()), containerWidth, containerHeight, GravityEnabled, Speed)
    {
      ghost var before := Bodies();
      var k := 0;
      while k < |balls|
        invariant 0 <= k <= |balls|
        invariant forall m :: 0 <= m < k ==>
                    balls[m].Snapshot() == Step(before[m], containerWidth, containerHeight, GravityEnabled, Speed)
        invariant forall m :: k <= m < |balls| ==> balls[m].Snapshot() == before[m]
        invariant Attached() == old(Attached())
      {
        k := UpdateNext(before, k, containerWidth, containerHeight);
      }
    }

    /**
     * One step of the update phase: ball k's update, which leaves every other ball as it was.
     *
     * This method, CollideNextRow and CollideColumn are the bodies of the three loops. Each
     * returns the next index, so that the loop invariant is its postcondition as stated:
     * with `k := k + 1` after the call, the verifier has to equate F(.., k + 1) with F(.., k)
     * for the new k, which is costly.
     */
    method UpdateNext(ghost before: seq<Body>, k: nat, containerWidth: real, containerHeight: real) returns (next: nat)
      requires Valid() && k < |balls| && |before| == |balls|
      requires forall m :: 0 <= m < k ==>
                 balls[m].Snapshot() == Step(before[m], containerWidth, containerHeight, GravityEnabled, Speed)
      requires forall m :: k <= m < |balls| ==> balls[m].Snapshot() == before[m]
      modifies balls
      ensures next == k + 1
      ensures forall m :: 0 <= m < next ==>
                balls[m].Snapshot() == Step(before[m], containerWidth, containerHeight, GravityEnabled, Speed)
      ensures forall m :: next <= m < |balls| ==> balls[m].Snapshot() == before[m]
      ensures Attached() == old(Attached())
    {
      forall m | 0 <= m < |balls| && m != k
        ensures balls[m] != balls[k]
      {
        DistinctBalls(m, k);
      }
      balls[k].Update(containerWidth, containerHeight, GravityEnabled, Speed);
      next := k + 1;
    }

    /** The collision phase of animate: row i for every ball i, in list order. */
    method CollideAll(sqrt: real -> real)
      requires Valid()
      modifies balls
      ensures Attached() == old(Attached())
      ensures balls == old(balls) && Valid() && AllWellFormed(old(Bodies()))
      ensures Bodies() == CollisionPass(old(Bodies()), sqrt)
    {
      WellFormedBodies();
      ghost var start := Bodies();
      var i := 0;
      while i < |balls|
        invariant 0 <= i <= |balls| && |start| == |balls| && AllWellFormed(start)
        invariant Bodies() == Rows(start, i, sqrt)
        invariant Attached() == old(Attached())
      {
        i := CollideNextRow(start, i, sqrt);
      }
    }

    /** One more row of the collision phase: row i takes Rows(start, i) to Rows(start, i + 1). */
    method CollideNextRow(ghost start: seq<Body>, i: nat, sqrt: real -> real) returns (next: nat)
      requires Valid() && i < |balls| && |start| == |balls| && AllWellFormed(start)
      requires Bodies() == Rows(start, i, sqrt)
      modifies balls
      ensures next == i + 1
      ensures balls == old(balls) && Valid()
      ensures Attached() == old(Attached())
      ensures Bodies() == Rows(start, next, sqrt)
    {
      RowsNext(start, i, sqrt);
      CollideRow(i, sqrt);
      next := i + 1;
    }

    /** Row i of the collision phase: ball i against every later ball, in list order. */
    method CollideRow(i: nat, sqrt: real -> real)
      requires Valid() && i < |balls|
      modifies balls
      ensures Attached() == old(Attached())
      ensures balls == old(balls) && Valid() && AllWellFormed(old(Bodies()))
      ensures Bodies() == Row(old(Bodies()), i, |balls|, sqrt)
    {
      WellFormedBodies();
      ghost var start := Bodies();
      var j := i + 1;
      while j < |balls|
        invariant i + 1 <= j <= |balls| && |start| == |balls| && AllWellFormed(start)
        invariant Bodies() == Row(start, i, j, sqrt)
        invariant Attached() == old(Attached())
      {
        j := CollideColumn(start, i, j, sqrt);
      }
    }

    /** One more column of row i: the pair (i, j) takes Row(start, i, j) to Row(start, i, j + 1). */
    method CollideColumn(ghost start: seq<Body>, i: nat, j: nat, sqrt: real -> real) returns (next: nat)
      requires Valid() && i < j < |balls| && |start| == |balls| && AllWellFormed(start)
      requires Bodies() == Row(start, i, j, sqrt)
      modifies balls
      ensures next == j + 1
      ensures balls == old(balls) && Valid()
      ensures Attached() == old(Attached())
      ensures Bodies() == Row(start, i, next, sqrt)
    {
      RowNext(start, i, j, sqrt);
      CollidePair(i, j, sqrt);
      next := j + 1;
    }

    /** One pair of the collision phase: checkCollision, then resolveCollision at the Math.sqrt distance. */
    method CollidePair(i: nat, j: nat, sqrt: real -> real)
      requires Valid() && i < j < |balls|
      modifies balls
      ensures Attached() == old(Attached())
      ensures balls == old(balls) && Valid() && AllWellFormed(old(Bodies()))
      ensures Bodies() == PairStep(old(Bodies()), i, j, sqrt)
    {
      WellFormedBodies();
      ghost var s := Bodies();
      if balls[i].CheckCollision(balls[j]) {
        var dx := balls[i].x - balls[j].x;
        var dy := balls[i].y - balls[j].y;
        assert dx * dx + dy * dy == CentreDistanceSq(s[i], s[j]);
        var distance := sqrt(dx * dx + dy * dy);
        DistinctBalls(i, j);
        forall m | 0 <= m < |balls| && m != i && m != j
          ensures balls[m] != balls[i] && balls[m] != balls[j]
        {
          DistinctBalls(m, i);
          DistinctBalls(m, j);
        }
        balls[i].ResolveCollision(balls[j], distance);
        ghost var p := Resolve(s[i], s[j], distance);
        assert Bodies() == s[i := p.0][j := p.1];
      }
    }

    /**
     * animate: without a container it returns before re-registering, so the
     * frame loop ends; otherwise the update phase, the collision phase, and a
     * new animation-frame registration.
     */
    method Animate(container: Option<Bounds>, sqrt: real -> real)
      requires Valid()
      modifies this`framePending, balls
      ensures balls == old(balls)
      ensures Attached() == old(Attached())
      ensures Valid()
      ensures framePending == container.Some?
      ensures container.None? ==> Bodies() == old(Bodies())
      ensures container.Some? ==>
                Bodies() == Frame(old(Bodies()), container.value.width, container.value.height, GravityEnabled, Speed, sqrt)
    {
      if container.None? {
        framePending := false;
        return;
      }
      Simulate(container.value.width, container.value.height, sqrt);
      framePending := true;
    }

    /** The two phases of one animate call: every ball's update, then the pairwise collisions. */
    method Simulate(containerWidth: real, containerHeight: real, sqrt: real -> real)
      requires Valid()
      modifies balls
      ensures balls == old(balls)
      ensures Attached() == old(Attached())
      ensures Valid() && AllWellFormed(old(Bodies()))
      ensures Bodies() == Frame(old(Bodies()), containerWidth, containerHeight, GravityEnabled, Speed, sqrt)
    {
      WellFormedBodies();
      UpdateAll(containerWidth, containerHeight);
      ghost var stepped := Bodies();
      CollideAll(sqrt);
      assert Bodies() == CollisionPass(stepped, sqrt);
    }

    /** The host delivers the registered animation frame; a cancelled one is never delivered. */
    method OnAnimationFrame(container: Option<Bounds>, sqrt: real -> real)
      requires Valid()
      modifies this`framePending, balls
      ensures balls == old(balls)
      ensures Attached() == old(Attached())
      ensures Valid()
      ensures !old(framePending) ==> !framePending && Bodies() == old(Bodies())
      ensures old(framePending) && container.None? ==> !framePending && Bodies() == old(Bodies())
      ensures old(framePending) && container.Some? ==>
                framePending &&
                Bodies() == Frame(old(Bodies()), container.value.width, container.value.height, GravityEnabled, Speed, sqrt)
    {
      if framePending {
        framePending := false;
        Animate(container, sqrt);
      }
    }

    /**
     * The unmount cleanup: cancels the frame, clears the interval, destroys every
     * ball and empties the list. rainEnabled is left as it was, and the id counter
     * keeps counting. A second call changes nothing.
     */
    method Teardown()
      requires Valid()
      modifies this, balls
      ensures Valid()
      ensures balls == [] && !framePending && !intervalActive
      ensures forall k :: 0 <= k < |old(balls)| ==> !old(balls)[k].attached
      ensures nextId == old(nextId) && rainEnabled == old(rainEnabled)
      ensures RainView() == Rain.Next(old(RainView()), Rain.Teardown)
    {
      if framePending {
        framePending := false;
      }
      if intervalActive {
        intervalActive := false;
      }
      var k := 0;
      while k < |balls|
        modifies balls
        invariant 0 <= k <= |balls|
        invariant forall m :: 0 <= m < k ==> !balls[m].attached
      {
        balls[k].Destroy();
        k := k + 1;
      }
      balls := [];
    }

    /**
     * The mount sequence on a fresh engine: one manual ball at a random point,
     * the first animate from startAnimation, the second from the effect on
     * animate, the cap effect, then startRain.
     */
    method Mount(container: Option<Bounds>, d: Draws, sqrt: real -> real)
      requires Valid() && InUnit(d)
      requires balls == [] && !rainEnabled && !intervalActive && !framePending
      modifies this
      ensures Valid()
      ensures rainEnabled && intervalActive
      ensures framePending == container.Some?
      ensures |balls| == (if container.Some? then 1 else 0)
      ensures container.Some? ==>
                && fresh(balls[0]) && balls[0].id == old(nextId) && !balls[0].isRain
                && balls[0].attached && 20.0 <= balls[0].radius < 50.0
    {
      CreateBall(container, None, None, false, d);
      StartAnimation(container, sqrt);
      StartAnimation(container, sqrt);
      EnforceCap();
      StartRain();
    }

    /** startAnimation, and the effect on animate: cancel the registered frame if there is one, then animate. */
    method StartAnimation(container: Option<Bounds>, sqrt: real -> real)
      requires Valid()
      modifies this`framePending, balls
      ensures balls == old(balls)
      ensures Attached() == old(Attached())
      ensures Valid()
      ensures framePending == container.Some?
      ensures container.None? ==> Bodies() == old(Bodies())
      ensures container.Some? ==>
                Bodies() == Frame(old(Bodies()), container.value.width, container.value.height, GravityEnabled, Speed, sqrt)
    {
      if framePending {
        framePending := false;
      }
      Animate(container, sqrt);
    }
  }
}
