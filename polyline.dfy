/**
 * chop_subsegment: cut the first `dist` units of length off a polyline.
 * Points are an abstract type; the per-segment distance and the
 * interpolation (interp over PointLL::AffineCombination) are parameters.
 * Lengths are reals where the source uses double.
 */
module Polyline {

  /** Every segment of `seg` has positive length under `dist`. */
  predicate PositiveSteps<P>(seg: seq<P>, dist: (P, P) -> real) {
    forall k :: 1 <= k < |seg| ==> dist(seg[k - 1], seg[k]) > 0.0
  }

  /** No segment of `seg` has negative length under `dist`. */
  predicate NonNegativeSteps<P>(seg: seq<P>, dist: (P, P) -> real) {
    forall k :: 1 <= k < |seg| ==> dist(seg[k - 1], seg[k]) >= 0.0
  }

  /**
   * What chop_subsegment needs of its input: at least two points, no
   * negative segment length, and for a zero distance a first segment of
   * positive length (otherwise the cut fraction would be 0/0).
   */
  predicate Choppable<P>(seg: seq<P>, d: nat, dist: (P, P) -> real) {
    && |seg| > 1
    && NonNegativeSteps(seg, dist)
    && (d == 0 ==> dist(seg[0], seg[1]) > 0.0)
  }

  /** The length along the polyline from seg[0] to seg[j]. */
  function LengthTo<P>(seg: seq<P>, j: nat, dist: (P, P) -> real): real
    requires j < |seg|
  {
    if j == 0 then 0.0 else LengthTo(seg, j - 1, dist) + dist(seg[j - 1], seg[j])
  }

  /** The length of a polyline: the sum of its segment lengths. */
  function PathLength<P>(seg: seq<P>, dist: (P, P) -> real): real
  {
    if seg == [] then 0.0 else LengthTo(seg, |seg| - 1, dist)
  }

  /** With positive segment lengths, the length along the polyline strictly grows. */
  lemma {:induction false} LengthToGrows<P>(seg: seq<P>, j: nat, k: nat, dist: (P, P) -> real)
    requires PositiveSteps(seg, dist)
    requires j < k < |seg|
    ensures LengthTo(seg, j, dist) < LengthTo(seg, k, dist)
  {
    if j < k - 1 {
      LengthToGrows(seg, j, k - 1, dist);
    }
  }

  /** Without negative segment lengths, the length along the polyline never shrinks. */
  lemma {:induction false} LengthToMonotone<P>(seg: seq<P>, j: nat, k: nat, dist: (P, P) -> real)
    requires NonNegativeSteps(seg, dist)
    requires j <= k < |seg|
    ensures LengthTo(seg, j, dist) <= LengthTo(seg, k, dist)
  {
    if j < k {
      LengthToMonotone(seg, j, k - 1, dist);
    }
  }

  /** The first index i >= from at which the length along the polyline reaches `d`, or |seg|. */
  function CutFrom<P>(seg: seq<P>, d: real, dist: (P, P) -> real, from: nat): (i: nat)
    requires 1 <= from <= |seg|
    ensures from <= i <= |seg|
    ensures i < |seg| ==> LengthTo(seg, i, dist) >= d
    ensures forall j :: from <= j < i ==> LengthTo(seg, j, dist) < d
    decreases |seg| - from
  {
    if from == |seg| then from
    else if LengthTo(seg, from, dist) >= d then from
    else CutFrom(seg, d, dist, from + 1)
  }

  /** The index of the point that the cut falls just before. */
  function CutIndex<P>(seg: seq<P>, d: real, dist: (P, P) -> real): (i: nat)
    requires |seg| > 1
    ensures 1 <= i <= |seg|
  {
    CutFrom(seg, d, dist, 1)
  }

  /** The cut falls inside the polyline exactly when the polyline is at least `d` long. */
  lemma CutInside<P>(seg: seq<P>, d: real, dist: (P, P) -> real)
    requires |seg| > 1 && NonNegativeSteps(seg, dist)
    ensures CutIndex(seg, d, dist) < |seg| <==> PathLength(seg, dist) >= d
  {
    var i := CutIndex(seg, d, dist);
    if i < |seg| - 1 {
      LengthToMonotone(seg, i, |seg| - 1, dist);
    } else if i == |seg| {
      assert LengthTo(seg, |seg| - 1, dist) < d;
    }
  }

  /** The interpolated point where the cut falls, between seg[i-1] and seg[i]. */
  function CutPoint<P>(seg: seq<P>, d: real, dist: (P, P) -> real, interp: (P, P, real) -> P, i: nat): P
    requires 1 <= i < |seg| && dist(seg[i - 1], seg[i]) > 0.0
  {
    interp(seg[i - 1], seg[i], (d - LengthTo(seg, i - 1, dist)) / dist(seg[i - 1], seg[i]))
  }

  /**
   * The segment the cut falls in has positive length: the length along the
   * polyline reaches `d` at its end but not at its start (for the first
   * segment, because `d` is positive or the segment is).
   */
  lemma CutStepPositive<P>(seg: seq<P>, d: nat, dist: (P, P) -> real)
    requires Choppable(seg, d, dist)
    requires CutIndex(seg, d as real, dist) < |seg|
    ensures var i := CutIndex(seg, d as real, dist); dist(seg[i - 1], seg[i]) > 0.0
  {
    var i := CutIndex(seg, d as real, dist);
    assert LengthTo(seg, i, dist) >= d as real;
    assert LengthTo(seg, i, dist) == LengthTo(seg, i - 1, dist) + dist(seg[i - 1], seg[i]);
    if i > 1 {
      assert LengthTo(seg, i - 1, dist) < d as real;
    } else {
      assert LengthTo(seg, 0, dist) == 0.0;
    }
  }

  /** A cut inside the polyline splits it at the cut point. */
  lemma ChopAt<P>(seg: seq<P>, d: nat, dist: (P, P) -> real, interp: (P, P, real) -> P, i: nat)
    requires Choppable(seg, d, dist)
    requires 1 <= i < |seg| && CutIndex(seg, d as real, dist) == i
    ensures dist(seg[i - 1], seg[i]) > 0.0
    ensures var m := CutPoint(seg, d as real, dist, interp, i);
      Chop(seg, d, dist, interp) == Split(seg[..i] + [m], [m] + seg[i..])
  {
    CutStepPositive(seg, d, dist);
  }

  /** The loop's break: the cut falls at the i-th point, and the loop's pieces are the chop. */
  lemma ChopStops<P>(seg: seq<P>, d: nat, dist: (P, P) -> real, interp: (P, P, real) -> P, i: nat)
    requires Choppable(seg, d, dist)
    requires 1 <= i < |seg| && CutFrom(seg, d as real, dist, i) == CutIndex(seg, d as real, dist)
    requires LengthTo(seg, i - 1, dist) + dist(seg[i - 1], seg[i]) >= d as real
    ensures dist(seg[i - 1], seg[i]) > 0.0
    ensures var m := interp(seg[i - 1], seg[i], (d as real - LengthTo(seg, i - 1, dist)) / dist(seg[i - 1], seg[i]));
      Chop(seg, d, dist, interp) == Split(seg[..i] + [m], seg[i - 1..][0 := m])
  {
    assert CutFrom(seg, d as real, dist, i) == i;
    CutStepPositive(seg, d, dist);
    var m := CutPoint(seg, d as real, dist, interp, i);
    ChopAt(seg, d, dist, interp, i);
    assert seg[i - 1..][0 := m] == [m] + seg[i..];
  }

  /** A step the loop takes without cutting: the cut lies further on. */
  lemma ChopContinues<P>(seg: seq<P>, d: nat, dist: (P, P) -> real, i: nat)
    requires Choppable(seg, d, dist)
    requires 1 <= i < |seg| && CutFrom(seg, d as real, dist, i) == CutIndex(seg, d as real, dist)
    requires LengthTo(seg, i - 1, dist) + dist(seg[i - 1], seg[i]) < d as real
    ensures LengthTo(seg, i, dist) == LengthTo(seg, i - 1, dist) + dist(seg[i - 1], seg[i])
    ensures CutFrom(seg, d as real, dist, i + 1) == CutIndex(seg, d as real, dist)
    ensures seg[..i + 1] == seg[..i] + [seg[i]]
  {
  }

  /** The two pieces of a chop: what was cut off, and what is left. */
  datatype Split<P> = Split(taken: seq<P>, rest: seq<P>)

  /** What chop_subsegment returns (taken) and leaves in its argument (rest). */
  function Chop<P>(seg: seq<P>, d: nat, dist: (P, P) -> real, interp: (P, P, real) -> P): Split<P>
    requires Choppable(seg, d, dist)
  {
    var i := CutIndex(seg, d as real, dist);
    if i == |seg| then Split(seg, [])
    else
      CutStepPositive(seg, d, dist);
      var m := CutPoint(seg, d as real, dist, interp, i);
      Split(seg[..i] + [m], [m] + seg[i..])
  }

  /**
   * The chop promises: the piece taken starts at seg[0]; a polyline shorter
   * than `d` is taken whole and nothing is left; otherwise the cut falls at
   * the first point whose length along the polyline reaches `d`, the taken
   * piece ends and the rest begins at the cut point, and together they give
   * back the polyline with the cut point inserted.
   */
  lemma ChopSplits<P>(seg: seq<P>, d: nat, dist: (P, P) -> real, interp: (P, P, real) -> P)
    requires Choppable(seg, d, dist)
    ensures var s := Chop(seg, d, dist, interp);
      && |s.taken| >= 2 && s.taken[0] == seg[0]
      && (PathLength(seg, dist) < d as real ==> s.taken == seg && s.rest == [])
      && (PathLength(seg, dist) >= d as real ==>
            var i := CutIndex(seg, d as real, dist);
            && 1 <= i < |seg|
            && LengthTo(seg, i, dist) >= d as real
            && (forall j :: 1 <= j < i ==> LengthTo(seg, j, dist) < d as real)
            && s.rest != [] && s.taken[|s.taken| - 1] == s.rest[0]
            && s.taken == seg[..i] + [s.rest[0]] && s.rest == [s.rest[0]] + seg[i..]
            && s.taken + s.rest[1..] == seg[..i] + [s.rest[0]] + seg[i..])
  {
    CutInside(seg, d as real, dist);
    var s := Chop(seg, d, dist, interp);
    var i := CutIndex(seg, d as real, dist);
    if i < |seg| {
      assert s.rest[1..] == seg[i..];
    }
  }

  /**
   * Chopping zero length takes the first point twice (seg[0] and the cut at
   * fraction 0) and, when interpolating at fraction 0 gives the start point,
   * leaves the polyline as it was.
   */
  lemma ChopZero<P>(seg: seq<P>, dist: (P, P) -> real, interp: (P, P, real) -> P)
    requires Choppable(seg, 0, dist)
    requires interp(seg[0], seg[1], 0.0) == seg[0]
    ensures Chop(seg, 0, dist, interp) == Split([seg[0], seg[0]], seg)
  {
    assert LengthTo(seg, 1, dist) == dist(seg[0], seg[1]);
    assert CutIndex(seg, 0.0, dist) == 1;
    assert seg[..1] == [seg[0]];
    assert [seg[0]] + seg[1..] == seg;
  }

  /**
   * Chopping exactly the whole length cuts inside the last segment at
   * fraction 1: everything is taken, yet the rest is not emptied; it keeps
   * the last point twice (the cut point and the old last point).
   */
  lemma ChopWholeLength<P>(seg: seq<P>, d: nat, dist: (P, P) -> real, interp: (P, P, real) -> P)
    requires |seg| > 1 && PositiveSteps(seg, dist)
    requires PathLength(seg, dist) == d as real
    requires interp(seg[|seg| - 2], seg[|seg| - 1], 1.0) == seg[|seg| - 1]
    ensures Chop(seg, d, dist, interp) == Split(seg, [seg[|seg| - 1], seg[|seg| - 1]])
  {
    var n := |seg|;
    assert Choppable(seg, d, dist) by { assert dist(seg[0], seg[1]) > 0.0; }
    CutAtLast(seg, d as real, dist);
    ChopAt(seg, d, dist, interp, n - 1);
    var segdist := dist(seg[n - 2], seg[n - 1]);
    assert segdist > 0.0 && d as real - LengthTo(seg, n - 2, dist) == segdist;
    DivideSelf(segdist);
    assert seg[..n - 1] + [seg[n - 1]] == seg;
  }

  lemma DivideSelf(x: real)
    requires x > 0.0
    ensures x / x == 1.0
  {
  }

  /** A cut at exactly the polyline's length falls at its last point. */
  lemma CutAtLast<P>(seg: seq<P>, d: real, dist: (P, P) -> real)
    requires |seg| > 1 && PositiveSteps(seg, dist)
    requires PathLength(seg, dist) == d
    ensures CutIndex(seg, d, dist) == |seg| - 1
  {
    var i := CutIndex(seg, d, dist);
    CutInside(seg, d, dist);
    if i < |seg| - 1 {
      LengthToGrows(seg, i, |seg| - 1, dist);
    }
  }

  /**
   * chop_subsegment(seg, dist). The loop walks the segments accumulating the
   * length `acc`; at the first segment that reaches `d` it appends the cut
   * point, drops the first i-1 points of `rest` and overwrites its head with
   * the cut point. If the loop runs out, `rest` is cleared.
   */
  method ChopSubsegment<P>(seg: seq<P>, d: nat, dist: (P, P) -> real, interp: (P, P, real) -> P)
    returns (result: seq<P>, rest: seq<P>)
    requires Choppable(seg, d, dist)
    ensures Split(result, rest) == Chop(seg, d, dist, interp)
  {
    var len := |seg|;
    rest := seg;
    result := [seg[0]];
    var acc := 0.0;
    var i := 1;
    while i < len
      invariant 1 <= i <= len
      invariant rest == seg
      invariant acc == LengthTo(seg, i - 1, dist)
      invariant result == seg[..i]
      invariant CutFrom(seg, d as real, dist, i) == CutIndex(seg, d as real, dist)
    {
      var segdist := dist(seg[i - 1], seg[i]);
      if acc + segdist >= d as real {
        ChopStops(seg, d, dist, interp, i);
        var frac := (d as real - acc) / segdist;
        var midpoint := interp(seg[i - 1], seg[i], frac);
        result := result + [midpoint];
        rest := rest[i - 1..];
        rest := rest[0 := midpoint];
        break;
      } else {
        ChopContinues(seg, d, dist, i);
        acc := acc + segdist;
        result := result + [seg[i]];
      }
      i := i + 1;
    }
    if i == len {
      assert seg[..len] == seg;
      rest := [];
    }
  }
}
