/**
 * The per-sub-leg match score of match_edges: the circular bearing
 * difference and the five integer penalty terms. The score is computed for
 * every sub-leg and then discarded; it never decides whether a segment is
 * accepted.
 */
module Scoring {
  import opened Edges

  const TwoTo32: nat := 0x1_0000_0000
  const TwoTo31: nat := 0x8000_0000

  /** A value of a C++ uint32_t. */
  type U32 = x: nat | x < TwoTo32

  function Abs(x: int): (r: nat)
    ensures r == x || r == -x
  {
    if x < 0 then -x else x
  }

  /** C++ integer division by 10, which truncates toward zero. */
  function Div10(x: int): (q: int)
    ensures Abs(q) * 10 <= Abs(x) < (Abs(q) + 1) * 10
    ensures q == 0 || (q < 0 <==> x < 0)
  {
    if x >= 0 then x / 10 else -((-x) / 10)
  }

  /** The elapsed times of a path summed in a uint32_t, which wraps at 2^32. */
  function WrappingSum(times: seq<U32>): (r: U32)
  {
    if times == [] then 0
    else (WrappingSum(times[..|times| - 1]) + times[|times| - 1]) % TwoTo32
  }

  /** The sum of `times` without wrap-around. */
  function ExactSum(times: seq<U32>): nat
  {
    if times == [] then 0 else ExactSum(times[..|times| - 1]) + times[|times| - 1]
  }

  /** The wrapping sum is the exact sum modulo 2^32. */
  lemma {:induction false} WrappingSumIsModular(times: seq<U32>)
    ensures WrappingSum(times) == ExactSum(times) % TwoTo32
  {
    if times != [] {
      WrappingSumIsModular(times[..|times| - 1]);
    }
  }

  /** int(x) of a uint32_t x: the two's complement reading of its bits. */
  function AsInt32(x: U32): (r: int)
    ensures -(TwoTo31 as int) <= r < TwoTo31 as int
    ensures r % TwoTo32 == x
  {
    if x < TwoTo31 then x else x - TwoTo32
  }

  /** std::abs(int(sum) - int(length)) / 10: the length mismatch in tens of units. */
  function LengthTerm(sum: U32, length: U32): (t: nat)
    ensures sum < TwoTo31 && length < TwoTo31 ==> t == Abs(sum - length) / 10
  {
    Abs(AsInt32(sum) - AsInt32(length)) / 10
  }

  /** The difference between the declared and the matched road class. */
  function ClassTerm(declared: nat, actual: RoadClass): (t: nat)
    ensures t == 0 <==> declared == actual
  {
    Abs(declared - actual)
  }

  /** The bearing difference before the (dead) correction for negative values. */
  function BearingFold(bear1: int, bear2: int): int
  {
    var diff := Abs(bear1 - bear2);
    if diff > 180 then 360 - diff else diff
  }

  /** The bearing difference exactly as match_edges computes it. */
  function BearingDiff(bear1: int, bear2: int): int
  {
    var diff := BearingFold(bear1, bear2);
    if diff < 0 then diff + 360 else diff
  }

  /** The angle between two compass bearings, measured the short way round. */
  function CircularDistance(a: int, b: int): (r: int)
  {
    var d := (a - b) % 360;
    if d <= 180 then d else 360 - d
  }

  /** A bearing from the graph (rounded heading, so possibly 360) or from a location reference. */
  predicate IsBearing(b: int) {
    0 <= b <= 360
  }

  /**
   * For bearings in range, the difference lies in [0, 180], is symmetric,
   * is the circular distance, and the correction branch for negative values
   * is never taken.
   */
  lemma BearingDiffProperties(bear1: int, bear2: int)
    requires IsBearing(bear1) && IsBearing(bear2)
    ensures BearingFold(bear1, bear2) >= 0
    ensures 0 <= BearingDiff(bear1, bear2) <= 180
    ensures BearingDiff(bear1, bear2) == BearingDiff(bear2, bear1)
    ensures BearingDiff(bear1, bear2) == CircularDistance(bear1, bear2)
  {
    var x := bear1 - bear2;
    if x < 0 {
      assert (x + 360) % 360 == x % 360;
      if x > -360 { assert x % 360 == x + 360; } else { assert x % 360 == 0; }
    } else {
      if x < 360 { assert x % 360 == x; } else { assert x % 360 == 0; }
    }
  }

  /**
   * Outside the range the fold can be negative, the one correction does not
   * repair it, and the bearing term is then negative, rounded toward zero.
   */
  lemma BearingDiffOutOfRange()
    ensures BearingFold(0, 1000) == -640
    ensures BearingDiff(0, 1000) == -280
    ensures BearingDiff(0, 1005) == -285 && Div10(BearingDiff(0, 1005)) == -28
  {
  }

  /** 0 when the edge's form of way has the declared code, 5 otherwise. */
  function FowTerm(edge: DirectedEdge, declaredFow: nat): (t: nat)
    ensures t == 0 <==> FowCode(FormOfWayOf(edge)) == declaredFow
    ensures t == 0 || t == 5
  {
    if FowCode(FormOfWayOf(edge)) == declaredFow then 0 else 5
  }

  /** The score of one sub-leg: the sum of the five penalty terms. */
  function LegScore(pathSum: U32, declaredLength: U32, declaredClass: nat, first: DirectedEdge,
                    offsetTerm: nat, edgeBearing: int, declaredBearing: int, declaredFow: nat): int
  {
    LengthTerm(pathSum, declaredLength)
    + ClassTerm(declaredClass, first.classification)
    + offsetTerm
    + Div10(BearingDiff(edgeBearing, declaredBearing))
    + FowTerm(first, declaredFow)
  }

  /**
   * For bearings in range the score is a non-negative integer, and it is
   * zero exactly when every term is: lengths within 10 units, the same
   * road class, no offset, bearings within 10 degrees, the same form of way.
   */
  lemma LegScoreZero(pathSum: U32, declaredLength: U32, declaredClass: nat, first: DirectedEdge,
                     offsetTerm: nat, edgeBearing: int, declaredBearing: int, declaredFow: nat)
    requires IsBearing(edgeBearing) && IsBearing(declaredBearing)
    ensures LegScore(pathSum, declaredLength, declaredClass, first, offsetTerm,
                     edgeBearing, declaredBearing, declaredFow) >= 0
    ensures LegScore(pathSum, declaredLength, declaredClass, first, offsetTerm,
                     edgeBearing, declaredBearing, declaredFow) == 0
      <==> && LengthTerm(pathSum, declaredLength) == 0
           && declaredClass == first.classification
           && offsetTerm == 0
           && BearingDiff(edgeBearing, declaredBearing) < 10
           && FowCode(FormOfWayOf(first)) == declaredFow
  {
    BearingDiffProperties(edgeBearing, declaredBearing);
  }
}
