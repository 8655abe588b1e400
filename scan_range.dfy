/** The scan-range enumerator `generateRange` (services/physics.ts): the list of
    sweep values for one axis. An ascending sweep steps from start up to end; a
    sweep whose start lies above its end runs through 360 degrees and wraps. */
module Sweep {
  import opened JsNumber

  /** The tolerance the source adds to the end of a sweep. */
  const Epsilon: real := 0.0001

  /** The distance covered after k steps. */
  function Offset(k: int, step: real): real
  {
    k as real * step
  }

  lemma ScaleBelow(a: real, b: real, c: real)
    requires a <= b && c > 0.0
    ensures a * c <= b * c
  {
  }

  lemma ScaleAbove(a: real, b: real, c: real)
    requires a < b && c > 0.0
    ensures a * c < b * c
  {
  }

  /** Steps of a positive length cover strictly more distance the more of them are taken. */
  lemma OffsetMonotone(j: int, k: int, step: real)
    requires j <= k && step > 0.0
    ensures Offset(j, step) <= Offset(k, step)
    ensures j < k ==> Offset(j, step) < Offset(k, step)
  {
    ScaleBelow(j as real, k as real, step);
    if j < k {
      ScaleAbove(j as real, k as real, step);
    }
  }

  lemma NextOffset(k: int, step: real)
    ensures Offset(k + 1, step) == Offset(k, step) + step
  {
  }

  lemma FloorQuotientBounds(limit: real, step: real, f: int)
    requires step > 0.0 && limit >= 0.0 && f == (limit / step).Floor
    ensures f >= 0
    ensures Offset(f, step) <= limit < Offset(f + 1, step)
  {
    var q := limit / step;
    assert q * step == limit;
    assert f as real <= q < (f + 1) as real;
    ScaleBelow(f as real, q, step);
    ScaleAbove(q, (f + 1) as real, step);
    var hi := (f + 1) as real * step;
    assert q * step < hi;
    assert Offset(f, step) == f as real * step;
    assert Offset(f + 1, step) == hi;
  }

  /** How many of the offsets 0, step, 2*step, ... of a positive step lie within
      `limit`: the offsets before the count do, the one at the count does not. */
  function StepCount(limit: real, step: real): (n: nat)
    requires step > 0.0
    ensures n > 0 ==> Offset(n - 1, step) <= limit
    ensures Offset(n, step) > limit
  {
    if limit >= 0.0 then
      var f := (limit / step).Floor;
      FloorQuotientBounds(limit, step, f);
      f + 1
    else 0
  }

  /** An offset within the limit comes before the count. */
  lemma WithinBeforeCount(limit: real, step: real, k: nat)
    requires step > 0.0 && Offset(k, step) <= limit
    ensures k < StepCount(limit, step)
  {
    var n := StepCount(limit, step);
    if k >= n {
      OffsetMonotone(n, k, step);
    }
  }

  /** Every offset before the count is within the limit. */
  lemma BeforeCountWithin(limit: real, step: real, k: nat)
    requires step > 0.0 && k < StepCount(limit, step)
    ensures Offset(k, step) <= limit
  {
    OffsetMonotone(k, StepCount(limit, step) - 1, step);
  }

  /** An offset beyond the limit, not past the count, is the count. */
  lemma BeyondIsCount(limit: real, step: real, k: nat)
    requires step > 0.0 && Offset(k, step) > limit && k <= StepCount(limit, step)
    ensures k == StepCount(limit, step)
  {
    if k < StepCount(limit, step) {
      BeforeCountWithin(limit, step, k);
    }
  }

  /** The first n points of an ascending sweep: start, start + step, start + 2*step, ... */
  function Ascending(start: real, step: real, n: nat): (pts: seq<real>)
    ensures |pts| == n
    ensures forall k :: 0 <= k < n ==> pts[k] == start + Offset(k, step)
  {
    if n == 0 then [] else Ascending(start, step, n - 1) + [start + Offset(n - 1, step)]
  }

  /** The first n points of a wrapping sweep: start + k*step brought into [0, 360). */
  function Wrapping(start: real, step: real, n: nat): (pts: seq<real>)
    ensures |pts| == n
    ensures forall k :: 0 <= k < n ==> pts[k] == WrapInto(start + Offset(k, step), 360.0)
  {
    if n == 0 then [] else Wrapping(start, step, n - 1) + [WrapInto(start + Offset(n - 1, step), 360.0)]
  }

  /** The sweep in closed form: one point per offset within the distance to cover,
      which is end - start for an ascending sweep and (360 - start) + end for one
      that wraps, each widened by Epsilon. */
  function SweepPoints(start: real, end: real, step: real): seq<real>
  {
    if step <= 0.0 then [start]
    else if start <= end then Ascending(start, step, StepCount(end + Epsilon - start, step))
    else Wrapping(start, step, StepCount((360.0 - start) + end + Epsilon, step))
  }

  /** `generateRange(start, end, step)`. */
  method GenerateRange(start: real, end: real, step: real) returns (pts: seq<real>)
    ensures pts == SweepPoints(start, end, step)
  {
    if step <= 0.0 {
      return [start];
    }
    if start <= end {
      pts := AscendingLoop(start, end, step);
    } else {
      pts := WrappingLoop(start, end, step);
    }
  }

  /** The loop of an ascending sweep: add `step` until the value passes end + Epsilon. */
  method AscendingLoop(start: real, end: real, step: real) returns (pts: seq<real>)
    requires step > 0.0
    ensures pts == Ascending(start, step, StepCount(end + Epsilon - start, step))
  {
    pts := [];
    ghost var limit := end + Epsilon - start;
    ghost var n := StepCount(limit, step);
    var v := start;
    ghost var k: nat := 0;
    while v <= end + Epsilon
      invariant k <= n
      invariant v == start + Offset(k, step)
      invariant pts == Ascending(start, step, k)
      decreases n - k
    {
      WithinBeforeCount(limit, step, k);
      pts := pts + [v];
      v := v + step;
      NextOffset(k, step);
      k := k + 1;
    }
    BeyondIsCount(limit, step, k);
  }

  /** The loop of a wrapping sweep: track the distance covered and wrap each value
      into [0, 360) until the distance passes (360 - start) + end + Epsilon. */
  method WrappingLoop(start: real, end: real, step: real) returns (pts: seq<real>)
    requires step > 0.0
    ensures pts == Wrapping(start, step, StepCount((360.0 - start) + end + Epsilon, step))
  {
    pts := [];
    var totalDist := (360.0 - start) + end;
    ghost var n := StepCount(totalDist + Epsilon, step);
    var distCovered := 0.0;
    ghost var k: nat := 0;
    while distCovered <= totalDist + Epsilon
      invariant k <= n
      invariant distCovered == Offset(k, step)
      invariant pts == Wrapping(start, step, k)
      decreases n - k
    {
      WithinBeforeCount(totalDist + Epsilon, step, k);
      var val := JsMod(start + distCovered, 360.0);
      if val < 0.0 {
        val := val + 360.0;
      }
      pts := pts + [val];
      distCovered := distCovered + step;
      NextOffset(k, step);
      k := k + 1;
    }
    BeyondIsCount(totalDist + Epsilon, step, k);
  }

  /** A non-positive step collapses the axis to its start value. */
  lemma NonPositiveStep(start: real, end: real, step: real)
    requires step <= 0.0
    ensures SweepPoints(start, end, step) == [start]
  {
  }

  /** An ascending sweep is start, start + step, start + 2*step, ...: it begins at
      start, every point is within end + Epsilon, and one more step would pass it. */
  lemma AscendingSweep(start: real, end: real, step: real)
    requires step > 0.0 && start <= end
    ensures var pts := SweepPoints(start, end, step);
      && |pts| >= 1 && pts[0] == start
      && (forall k :: 0 <= k < |pts| ==> pts[k] == start + Offset(k, step) && pts[k] <= end + Epsilon)
      && start + Offset(|pts|, step) > end + Epsilon
  {
    var limit := end + Epsilon - start;
    var n := StepCount(limit, step);
    var pts := Ascending(start, step, n);
    WithinBeforeCount(limit, step, 0);
    forall k | 0 <= k < n ensures pts[k] <= end + Epsilon {
      BeforeCountWithin(limit, step, k);
    }
  }

  /** A wrapping sweep visits start + k*step brought into [0, 360) for every k whose
      distance k*step is within (360 - start) + end + Epsilon, and no further. */
  lemma WrappingSweep(start: real, end: real, step: real)
    requires step > 0.0 && start > end
    ensures var pts := SweepPoints(start, end, step);
      && (forall k :: 0 <= k < |pts| ==>
            && pts[k] == WrapInto(start + Offset(k, step), 360.0)
            && 0.0 <= pts[k] < 360.0
            && Offset(k, step) <= (360.0 - start) + end + Epsilon)
      && Offset(|pts|, step) > (360.0 - start) + end + Epsilon
  {
    var limit := (360.0 - start) + end + Epsilon;
    var n := StepCount(limit, step);
    forall k | 0 <= k < n ensures Offset(k, step) <= limit {
      BeforeCountWithin(limit, step, k);
    }
  }

  /** Every point of a wrapping sweep differs from start + k*step by whole turns. */
  lemma WrappingSweepTurns(start: real, end: real, step: real, k: nat)
    requires step > 0.0 && start > end && k < |SweepPoints(start, end, step)|
    ensures var x := start + Offset(k, step);
      SweepPoints(start, end, step)[k] == x - 360.0 * (x / 360.0).Floor as real
  {
    var pts := Wrapping(start, step, StepCount((360.0 - start) + end + Epsilon, step));
    assert SweepPoints(start, end, step) == pts;
    assert pts[k] == WrapInto(start + Offset(k, step), 360.0);
    WrapIntoIsFloorMod(start + Offset(k, step), 360.0);
  }

  /** A wrapping sweep whose start lies beyond a full turn past its end is empty. */
  lemma WrappingSweepEmpty(start: real, end: real, step: real)
    requires step > 0.0 && start > 360.0 + end + Epsilon
    ensures SweepPoints(start, end, step) == []
  {
  }

  /** generateRange(0, 30, 5) is [0, 5, 10, 15, 20, 25, 30]. */
  lemma AscendingExample()
    ensures SweepPoints(0.0, 30.0, 5.0) == [0.0, 5.0, 10.0, 15.0, 20.0, 25.0, 30.0]
  {
    assert (30.0001 / 5.0).Floor == 6;
  }

  /** generateRange(350, 10, 5) wraps through 360: [350, 355, 0, 5, 10]. */
  lemma WrappingExample()
    ensures SweepPoints(350.0, 10.0, 5.0) == [350.0, 355.0, 0.0, 5.0, 10.0]
  {
    assert (20.0001 / 5.0).Floor == 4;
    WrapIntoIdentity(350.0, 360.0);
    WrapIntoIdentity(355.0, 360.0);
    WrapIntoIsFloorMod(360.0, 360.0);
    WrapIntoIsFloorMod(365.0, 360.0);
    WrapIntoIsFloorMod(370.0, 360.0);
    assert (360.0 / 360.0).Floor == 1;
    assert (365.0 / 360.0).Floor == 1;
    assert (370.0 / 360.0).Floor == 1;
  }
}
