/**
 * One animation frame over the whole population, as pure functions on the
 * sequence of ball snapshots in insertion order: every ball is stepped, then
 * every pair i < j is tested once and resolved if it overlaps, left to right,
 * on the state left by the pairs before it.
 */
module Pass {
  import opened Physics

  predicate AllWellFormed(s: seq<Body>) {
    forall k :: 0 <= k < |s| ==> WellFormed(s[k])
  }

  /** sqrt behaves as Math.sqrt does on non-negative arguments, over the reals. */
  ghost predicate IsSqrt(sqrt: real -> real) {
    forall v :: v >= 0.0 ==> sqrt(v) >= 0.0 && sqrt(v) * sqrt(v) == v
  }

  lemma SqNonNegative(r: real)
    ensures Sq(r) >= 0.0
  {
    if r < 0.0 {
      assert Sq(r) == (-r) * (-r);
    }
  }

  /** The distance the host's square root gives for a pair really is their distance. */
  lemma SqrtGivesDistance(sqrt: real -> real, a: Body, b: Body)
    requires IsSqrt(sqrt)
    ensures IsDistance(a, b, sqrt(CentreDistanceSq(a, b)))
  {
    SqNonNegative(a.x - b.x);
    SqNonNegative(a.y - b.y);
  }

  /**
   * The update phase: every ball stepped against the same container. Radii and
   * masses are kept, and every centre ends within the container's limits.
   */
  function StepAll(s: seq<Body>, width: real, height: real, gravityEnabled: bool, speedMultiplier: real): (r: seq<Body>)
    ensures |r| == |s|
    ensures forall k :: 0 <= k < |s| ==> r[k].radius == s[k].radius && r[k].mass == s[k].mass
    ensures forall k :: 0 <= k < |s| ==> r[k].x <= width - s[k].radius && r[k].y <= height - s[k].radius
    ensures forall k :: 0 <= k < |s| && width >= 2.0 * s[k].radius ==> s[k].radius <= r[k].x
    ensures forall k :: 0 <= k < |s| && height >= 2.0 * s[k].radius ==> s[k].radius <= r[k].y
  {
    seq(|s|, k requires 0 <= k < |s| => Step(s[k], width, height, gravityEnabled, speedMultiplier))
  }

  /** The pair (i, j) of the collision phase: resolved when it overlaps, left alone otherwise. */
  function PairStep(s: seq<Body>, i: nat, j: nat, sqrt: real -> real): (r: seq<Body>)
    requires i < j < |s| && AllWellFormed(s)
    ensures |r| == |s| && AllWellFormed(r)
    ensures forall k :: 0 <= k < |s| ==> r[k].radius == s[k].radius && r[k].mass == s[k].mass
    ensures forall k :: 0 <= k < |s| && k != i && k != j ==> r[k] == s[k]
    ensures !Overlapping(s[i], s[j]) ==> r == s
  {
    if Overlapping(s[i], s[j]) then
      var p := Resolve(s[i], s[j], sqrt(CentreDistanceSq(s[i], s[j])));
      s[i := p.0][j := p.1]
    else
      s
  }

  /** Row i of the collision phase up to (not including) column j: the pairs (i, i+1), ..., (i, j-1) in order. */
  function Row(s: seq<Body>, i: nat, j: nat, sqrt: real -> real): (r: seq<Body>)
    requires i < j <= |s| && AllWellFormed(s)
    ensures |r| == |s| && AllWellFormed(r)
    decreases j
  {
    if j == i + 1 then s else PairStep(Row(s, i, j - 1, sqrt), i, j - 1, sqrt)
  }

  /** A row one column longer is the shorter row, then the pair at that column. */
  lemma RowNext(s: seq<Body>, i: nat, j: nat, sqrt: real -> real)
    requires i < j < |s| && AllWellFormed(s)
    ensures Row(s, i, j + 1, sqrt) == PairStep(Row(s, i, j, sqrt), i, j, sqrt)
  {
  }

  /** The first n rows of the collision phase, each against every later ball, row by row. */
  function Rows(s: seq<Body>, n: nat, sqrt: real -> real): (r: seq<Body>)
    requires n <= |s| && AllWellFormed(s)
    ensures |r| == |s| && AllWellFormed(r)
  {
    if n == 0 then s else Row(Rows(s, n - 1, sqrt), n - 1, |s|, sqrt)
  }

  /** One more row is the rows before it, then that row against every later ball. */
  lemma RowsNext(s: seq<Body>, n: nat, sqrt: real -> real)
    requires n < |s| && AllWellFormed(s)
    ensures Rows(s, n + 1, sqrt) == Row(Rows(s, n, sqrt), n, |s|, sqrt)
  {
  }

  /** The collision phase: every pair i < j once, in row order, each on the state the pairs before it left. */
  function CollisionPass(s: seq<Body>, sqrt: real -> real): seq<Body>
    requires AllWellFormed(s)
  {
    Rows(s, |s|, sqrt)
  }

  /** One call of animate: the update phase, then the collision phase. */
  function Frame(s: seq<Body>, width: real, height: real, gravityEnabled: bool, speedMultiplier: real, sqrt: real -> real): seq<Body>
    requires AllWellFormed(s)
  {
    CollisionPass(StepAll(s, width, height, gravityEnabled, speedMultiplier), sqrt)
  }

  // ---------------------------------------------------------------------------
  // Conserved totals of the collision phase.
  // ---------------------------------------------------------------------------

  function CentreX(b: Body): real { b.x }
  function CentreY(b: Body): real { b.y }

  /** The sum of f over the population. */
  function Total(s: seq<Body>, f: Body -> real): real {
    if s == [] then 0.0 else Total(s[..|s| - 1], f) + f(s[|s| - 1])
  }

  /** Replacing one ball changes a total by the difference for that ball. */
  lemma {:induction false} TotalUpdate(s: seq<Body>, i: nat, b: Body, f: Body -> real)
    requires i < |s|
    ensures Total(s[i := b], f) == Total(s, f) - f(s[i]) + f(b)
  {
    var n := |s| - 1;
    if i < n {
      assert s[i := b][..n] == s[..n][i := b];
      TotalUpdate(s[..n], i, b, f);
    } else {
      assert s[i := b][..n] == s[..n];
    }
  }

  /** Four quantities that a pair resolution leaves unchanged in total. */
  predicate SameTotals(s: seq<Body>, t: seq<Body>) {
    && Total(s, MomentumX) == Total(t, MomentumX)
    && Total(s, MomentumY) == Total(t, MomentumY)
    && Total(s, CentreX) == Total(t, CentreX)
    && Total(s, CentreY) == Total(t, CentreY)
  }

  lemma PairStepConserves(s: seq<Body>, i: nat, j: nat, sqrt: real -> real)
    requires i < j < |s| && AllWellFormed(s)
    ensures SameTotals(PairStep(s, i, j, sqrt), s)
  {
    if Overlapping(s[i], s[j]) {
      var d := sqrt(CentreDistanceSq(s[i], s[j]));
      var p := Resolve(s[i], s[j], d);
      ResolveConserves(s[i], s[j], d);
      var t := s[i := p.0];
      assert t[j] == s[j];
      TotalUpdate(s, i, p.0, MomentumX);
      TotalUpdate(t, j, p.1, MomentumX);
      TotalUpdate(s, i, p.0, MomentumY);
      TotalUpdate(t, j, p.1, MomentumY);
      TotalUpdate(s, i, p.0, CentreX);
      TotalUpdate(t, j, p.1, CentreX);
      TotalUpdate(s, i, p.0, CentreY);
      TotalUpdate(t, j, p.1, CentreY);
    }
  }

  /** A row conserves the four totals, pair by pair. */
  lemma {:induction false} RowConserves(s: seq<Body>, i: nat, j: nat, sqrt: real -> real)
    requires i < j <= |s| && AllWellFormed(s)
    ensures SameTotals(Row(s, i, j, sqrt), s)
    decreases j
  {
    if j > i + 1 {
      RowConserves(s, i, j - 1, sqrt);
      PairStepConserves(Row(s, i, j - 1, sqrt), i, j - 1, sqrt);
    }
  }

  lemma {:induction false} RowsConserve(s: seq<Body>, n: nat, sqrt: real -> real)
    requires n <= |s| && AllWellFormed(s)
    ensures SameTotals(Rows(s, n, sqrt), s)
  {
    if n > 0 {
      RowsConserve(s, n - 1, sqrt);
      RowConserves(Rows(s, n - 1, sqrt), n - 1, |s|, sqrt);
    }
  }

  /**
   * The collision phase conserves the population's total mass-weighted momentum
   * in both components, and the sum of all centres: every resolution moves its
   * two balls by opposite amounts.
   */
  lemma CollisionPassConserves(s: seq<Body>, sqrt: real -> real)
    requires AllWellFormed(s)
    ensures SameTotals(CollisionPass(s, sqrt), s)
  {
    RowsConserve(s, |s|, sqrt);
  }

  /** No overlapping pair: every row leaves the population alone. */
  predicate NoOverlaps(s: seq<Body>) {
    forall p, q :: 0 <= p < q < |s| ==> !Overlapping(s[p], s[q])
  }

  lemma {:induction false} RowNoOverlap(s: seq<Body>, i: nat, j: nat, sqrt: real -> real)
    requires i < j <= |s| && AllWellFormed(s) && NoOverlaps(s)
    ensures Row(s, i, j, sqrt) == s
    decreases j
  {
    if j > i + 1 {
      RowNoOverlap(s, i, j - 1, sqrt);
      assert !Overlapping(s[i], s[j - 1]);
    }
  }

  lemma {:induction false} RowsNoOverlap(s: seq<Body>, n: nat, sqrt: real -> real)
    requires n <= |s| && AllWellFormed(s) && NoOverlaps(s)
    ensures Rows(s, n, sqrt) == s
  {
    if n > 0 {
      RowsNoOverlap(s, n - 1, sqrt);
      RowNoOverlap(s, n - 1, |s|, sqrt);
    }
  }

  /** A population with no overlapping pair passes through the collision phase unchanged. */
  lemma CollisionPassNoOverlap(s: seq<Body>, sqrt: real -> real)
    requires AllWellFormed(s) && NoOverlaps(s)
    ensures CollisionPass(s, sqrt) == s
  {
    RowsNoOverlap(s, |s|, sqrt);
  }

  /**
   * With the true square root, a pair that overlaps and is not already
   * separating ends its step exactly touching.
   */
  lemma PairStepTouches(s: seq<Body>, i: nat, j: nat, sqrt: real -> real)
    requires i < j < |s| && AllWellFormed(s) && IsSqrt(sqrt)
    requires Overlapping(s[i], s[j]) && Engaged(s[i], s[j], sqrt(CentreDistanceSq(s[i], s[j])))
    ensures var r := PairStep(s, i, j, sqrt);
            CentreDistanceSq(r[i], r[j]) == Sq(s[i].radius + s[j].radius) && !Overlapping(r[i], r[j])
  {
    SqrtGivesDistance(sqrt, s[i], s[j]);
    ResolveSeparatesToContact(s[i], s[j], sqrt(CentreDistanceSq(s[i], s[j])));
  }
}
