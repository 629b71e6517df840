/**
 * How createBall and the Ball constructor turn Math.random() draws into a new
 * ball's radius, centre and initial velocity. Each draw is a parameter in [0, 1).
 */
module Spawn {
  import opened Wrappers

  /** The Math.random() results one createBall call consumes, in the order it draws them. */
  datatype Draws = Draws(radius: real, x: real, y: real, vx: real, vy: real)

  predicate Unit(u: real) {
    0.0 <= u < 1.0
  }

  predicate InUnit(d: Draws) {
    Unit(d.radius) && Unit(d.x) && Unit(d.y) && Unit(d.vx) && Unit(d.vy)
  }

  /** A draw stretched over [0, span] stays there, and below span when span is positive. */
  lemma Stretch(u: real, span: real)
    requires Unit(u) && span >= 0.0
    ensures 0.0 <= u * span <= span
    ensures span > 0.0 ==> u * span < span
  {
    assert span - u * span == (1.0 - u) * span;
  }

  /** Rain balls have radius in [15, 40), manual balls in [20, 50). */
  function SpawnRadius(isRain: bool, u: real): (r: real)
    requires Unit(u)
    ensures isRain ==> 15.0 <= r < 40.0
    ensures !isRain ==> 20.0 <= r < 50.0
  {
    Stretch(u, 25.0);
    Stretch(u, 30.0);
    u * (if isRain then 25.0 else 30.0) + (if isRain then 15.0 else 20.0)
  }

  /** A coordinate drawn so that the ball lies inside [0, extent] when that is at least one diameter. */
  function InsideCoordinate(u: real, radius: real, extent: real): (c: real)
    requires Unit(u)
    ensures extent >= 2.0 * radius ==> radius <= c <= extent - radius
    ensures extent > 2.0 * radius ==> c < extent - radius
  {
    var span := extent - radius * 2.0;
    var c := u * span + radius;
    if span >= 0.0 then Stretch(u, span); c else c
  }

  /**
   * The centre createBall gives a new ball. A rain ball starts one radius above
   * the top edge at a random column; a manual ball with both coordinates given
   * starts exactly there; a manual ball missing either coordinate starts at a
   * random point inside the container.
   */
  function SpawnPosition(isRain: bool, x: Option<real>, y: Option<real>, radius: real,
                         width: real, height: real, d: Draws): (p: (real, real))
    requires InUnit(d)
    ensures isRain ==> p.1 == -radius
    ensures (isRain || x.None? || y.None?) && width >= 2.0 * radius ==> radius <= p.0 <= width - radius
    ensures (isRain || x.None? || y.None?) && width > 2.0 * radius ==> p.0 < width - radius
    ensures !isRain && (x.None? || y.None?) && height >= 2.0 * radius ==> radius <= p.1 <= height - radius
    ensures !isRain && x.Some? && y.Some? ==> p == (x.value, y.value)
  {
    if isRain then
      (InsideCoordinate(d.x, radius, width), -radius)
    else if x.None? || y.None? then
      (InsideCoordinate(d.x, radius, width), InsideCoordinate(d.y, radius, height))
    else
      (x.value, y.value)
  }

  /** Rain balls drift down gently; manual balls burst in any direction at up to 3 per axis. */
  function InitialVelocity(isRain: bool, d: Draws): (v: (real, real))
    requires InUnit(d)
    ensures isRain ==> -0.5 <= v.0 < 0.5 && 1.0 <= v.1 < 2.5
    ensures !isRain ==> -3.0 <= v.0 < 3.0 && -3.0 <= v.1 < 3.0
  {
    if isRain then ((d.vx - 0.5) * 1.0, d.vy * 1.5 + 1.0)
    else ((d.vx - 0.5) * 6.0, (d.vy - 0.5) * 6.0)
  }
}
