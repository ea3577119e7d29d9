/**
 * match_edges: match one traffic segment, sub-leg by sub-leg, to a path of
 * graph edges. The calls the source makes into Valhalla (the nearest-edge
 * search, A*, tile and node lookups, the heading of an edge's shape) are
 * replaced by their results, supplied per segment in a SegmentOracle; the
 * graph reader is a function from edge id to directed edge.
 */
module Matcher {
  import opened Wrappers
  import opened GraphIds
  import opened Edges
  import opened Scoring
  import opened Dedupe

  /** A location reference point of the segment, as far as the score reads it. */
  datatype Lrp = Lrp(length: U32, bear: U32, frc: nat, fow: nat)

  /**
   * One edge of a search result: its id, int(e.projected.Distance(coord))
   * and bearing(tile, id, e.dist), as the source computes them from the graph.
   */
  datatype CandidateEdge = CandidateEdge(id: GraphId, offsetTerm: nat, bearing: int)

  /** A search result (baldr::PathLocation): the candidate edges near one point. */
  datatype PathLocation = PathLocation(edges: seq<CandidateEdge>)

  /** One step of an A* path (thor::PathInfo). */
  datatype PathInfo = PathInfo(edgeid: GraphId, elapsedTime: U32)

  /**
   * What the outside world answers for sub-leg i: the search results near
   * lrps[i+1], the path A* finds from the current origin to dests[0], and
   * whether the path's end node lies within 10 m of lrps[i+1].
   */
  datatype Leg = Leg(dests: seq<PathLocation>, path: seq<PathInfo>, endsNear: bool)

  /**
   * A segment and the external answers about it: its location references,
   * the search results near lrps[0], one Leg per sub-leg, and whether the
   * matched path's start and end coordinates are approx_equal (squared
   * distance at most 100) to the segment's first and last references.
   */
  datatype SegmentOracle = SegmentOracle(
    lrps: seq<Lrp>,
    origins: seq<PathLocation>,
    legs: seq<Leg>,
    startAgrees: bool,
    endAgrees: bool)

  /** A segment has at least two location references and one Leg per sub-leg. */
  type Segment = s: SegmentOracle | |s.lrps| >= 2 && |s.legs| == |s.lrps| - 1
    witness SegmentOracle([Lrp(0, 0, 0, 0), Lrp(0, 0, 0, 0)], [], [Leg([], [], false)], false, false)

  /** Why a segment could not be matched, with the sub-leg where it happened. */
  datatype MatchError =
    | NoEdgeNearOrigin
    | NoEdgeNearPoint(leg: nat)
    | NoRoute(leg: nat)
    | RouteEndsTooFar(leg: nat)
    | EdgeNotAccessible(leg: nat)
    | EdgeNotAtOrigin(leg: nat)

  /** The first candidate with edge id `id`, if any. */
  function FindCandidate(cands: seq<CandidateEdge>, id: GraphId): (r: Option<CandidateEdge>)
    ensures r.None? <==> forall k :: 0 <= k < |cands| ==> cands[k].id != id
    ensures r.Some? ==> exists k :: 0 <= k < |cands| && cands[k] == r.value && r.value.id == id
                                    && forall j :: 0 <= j < k ==> cands[j].id != id
  {
    if cands == [] then None
    else if cands[0].id == id then Some(cands[0])
    else
      var r := FindCandidate(cands[1..], id);
      assert forall k :: 1 <= k < |cands| ==> cands[k] == cands[1..][k - 1];
      r
  }

  /** The checks of one sub-leg, in the order the source makes them. */
  function LegFailure(reader: GraphId -> DirectedEdge, origin: PathLocation, leg: Leg, i: nat)
    : (r: Option<MatchError>)
    ensures r.None? <==>
      && |leg.dests| > 0 && |leg.path| > 0 && leg.endsNear
      && CheckAccess(reader(leg.path[0].edgeid))
      && FindCandidate(origin.edges, leg.path[0].edgeid).Some?
  {
    if |leg.dests| == 0 then Some(NoEdgeNearPoint(i))
    else if |leg.path| == 0 then Some(NoRoute(i))
    else if !leg.endsNear then Some(RouteEndsTooFar(i))
    else if !CheckAccess(reader(leg.path[0].edgeid)) then Some(EdgeNotAccessible(i))
    else if FindCandidate(origin.edges, leg.path[0].edgeid).None? then Some(EdgeNotAtOrigin(i))
    else None
  }

  /** The first failing sub-leg from leg `i` on; each sub-leg's destination is the next one's origin. */
  function FailureFrom(reader: GraphId -> DirectedEdge, origin: PathLocation, legs: seq<Leg>, i: nat)
    : Option<MatchError>
    decreases |legs|
  {
    if legs == [] then None
    else match LegFailure(reader, origin, legs[0], i)
      case Some(err) => Some(err)
      case None => FailureFrom(reader, legs[0].dests[0], legs[1..], i + 1)
  }

  /** Why match_edges gives up on the segment, or None when it succeeds. */
  function MatchFailure(reader: GraphId -> DirectedEdge, s: Segment): Option<MatchError>
  {
    if s.origins == [] then Some(NoEdgeNearOrigin)
    else FailureFrom(reader, s.origins[0], s.legs, 0)
  }

  /** The edge ids of a path, in order. */
  function PathIds(path: seq<PathInfo>): (ids: seq<GraphId>)
    ensures |ids| == |path| && forall k :: 0 <= k < |path| ==> ids[k] == path[k].edgeid
  {
    seq(|path|, k requires 0 <= k < |path| => path[k].edgeid)
  }

  /** The edge ids of all sub-leg paths, concatenated. */
  function Flatten(legs: seq<Leg>): seq<GraphId>
  {
    if legs == [] then [] else Flatten(legs[..|legs| - 1]) + PathIds(legs[|legs| - 1].path)
  }

  /** What match_edges returns: nothing on any failure, else the deduplicated concatenation. */
  function MatchedEdges(reader: GraphId -> DirectedEdge, s: Segment): seq<GraphId>
  {
    if MatchFailure(reader, s).Some? then [] else Dedup(Flatten(s.legs))
  }

  /** A sub-leg passes all of the source's checks. */
  predicate LegPasses(reader: GraphId -> DirectedEdge, origin: PathLocation, leg: Leg) {
    LegFailure(reader, origin, leg, 0).None?
  }

  /** When no sub-leg fails, every sub-leg's path is non-empty, starts on an accessible
      edge that the search at its origin found, and the paths join into a non-empty list. */
  lemma {:induction false} AllLegsPass(reader: GraphId -> DirectedEdge, origin: PathLocation,
                                       legs: seq<Leg>, i: nat)
    requires FailureFrom(reader, origin, legs, i).None?
    ensures forall k :: 0 <= k < |legs| ==>
      |legs[k].path| > 0 && |legs[k].dests| > 0 && legs[k].endsNear
      && CheckAccess(reader(legs[k].path[0].edgeid))
    ensures legs != [] ==> LegPasses(reader, origin, legs[0])
    ensures legs != [] ==> Flatten(legs) != [] && Flatten(legs)[0] == legs[0].path[0].edgeid
    decreases |legs|
  {
    if legs != [] {
      AllLegsPass(reader, legs[0].dests[0], legs[1..], i + 1);
      forall k | 1 <= k < |legs| ensures legs[k] == legs[1..][k - 1] { }
      FlattenStartsWithFirst(legs);
    }
  }

  lemma {:induction false} FlattenStartsWithFirst(legs: seq<Leg>)
    requires legs != [] && |legs[0].path| > 0
    ensures Flatten(legs) != [] && Flatten(legs)[0] == legs[0].path[0].edgeid
  {
    if |legs| > 1 {
      var p := legs[..|legs| - 1];
      assert p[0] == legs[0];
      FlattenStartsWithFirst(p);
    }
  }

  lemma {:induction false} FlattenEndsWithLast(legs: seq<Leg>)
    requires legs != [] && |legs[|legs| - 1].path| > 0
    ensures Flatten(legs) != []
    ensures Flatten(legs)[|Flatten(legs)| - 1] == legs[|legs| - 1].path[|legs[|legs| - 1].path| - 1].edgeid
  {
  }

  /** match_edges returns an empty list exactly when one of its checks fails. */
  lemma MatchedEdgesEmpty(reader: GraphId -> DirectedEdge, s: Segment)
    ensures MatchedEdges(reader, s) == [] <==> MatchFailure(reader, s).Some?
  {
    if MatchFailure(reader, s).None? {
      AllLegsPass(reader, s.origins[0], s.legs, 0);
      DedupNoAdjacent(Flatten(s.legs));
    }
  }

  /** In a match, every sub-leg's path is non-empty and its first edge passes the access rule. */
  lemma MatchedLegsAccessible(reader: GraphId -> DirectedEdge, s: Segment)
    ensures MatchFailure(reader, s).None? ==>
      forall k :: 0 <= k < |s.legs| ==>
        |s.legs[k].path| > 0 && AccessRule(reader(s.legs[k].path[0].edgeid))
  {
    if MatchFailure(reader, s).None? {
      AllLegsPass(reader, s.origins[0], s.legs, 0);
    }
  }

  /**
   * A match starts on the first sub-leg's first edge, ends on the last
   * sub-leg's last edge, and has no adjacent repeats.
   */
  lemma MatchedEdgesShape(reader: GraphId -> DirectedEdge, s: Segment)
    ensures MatchFailure(reader, s).None? ==>
      var es := MatchedEdges(reader, s);
      var last := s.legs[|s.legs| - 1].path;
      && |s.legs[0].path| > 0
      && |last| > 0
      && NoAdjacentDuplicates(es)
      && es != []
      && es[0] == s.legs[0].path[0].edgeid
      && es[|es| - 1] == last[|last| - 1].edgeid
  {
    if MatchFailure(reader, s).None? {
      MatchedEdgesEnds(reader, s);
      DedupNoAdjacent(Flatten(s.legs));
    }
  }

  lemma MatchedEdgesEnds(reader: GraphId -> DirectedEdge, s: Segment)
    requires MatchFailure(reader, s).None?
    ensures |s.legs[0].path| > 0 && |s.legs[|s.legs| - 1].path| > 0
    ensures var fl := Flatten(s.legs);
      var last := s.legs[|s.legs| - 1].path;
      && fl != []
      && fl[0] == s.legs[0].path[0].edgeid
      && fl[|fl| - 1] == last[|last| - 1].edgeid
      && MatchedEdges(reader, s) == Dedup(fl)
  {
    AllLegsPass(reader, s.origins[0], s.legs, 0);
    FlattenEndsWithLast(s.legs);
  }

  /** The score never gates acceptance: the declared lengths, bearings, classes and
      forms of way of the references do not change what match_edges returns. */
  lemma ScoreDoesNotGate(reader: GraphId -> DirectedEdge, s: Segment, lrps: seq<Lrp>)
    requires |lrps| == |s.lrps|
    ensures MatchedEdges(reader, s.(lrps := lrps)) == MatchedEdges(reader, s)
  {
  }

  /** The failure from sub-leg i on is that sub-leg's own, or else the failure from the next one on. */
  lemma FailureFromStep(reader: GraphId -> DirectedEdge, origin: PathLocation, legs: seq<Leg>, i: nat)
    requires i < |legs|
    ensures FailureFrom(reader, origin, legs[i..], i) ==
      if LegFailure(reader, origin, legs[i], i).Some? then LegFailure(reader, origin, legs[i], i)
      else FailureFrom(reader, legs[i].dests[0], legs[i + 1..], i + 1)
  {
    assert legs[i..][0] == legs[i] && legs[i..][1..] == legs[i + 1..];
  }

  lemma FlattenSnoc(legs: seq<Leg>, i: nat)
    requires i < |legs|
    ensures Flatten(legs[..i + 1]) == Flatten(legs[..i]) + PathIds(legs[i].path)
  {
    assert legs[..i + 1][..i] == legs[..i];
  }

  /** The loop over origin.edges that looks for the path's first edge, stopping at the first hit. */
  method FindAtOrigin(cands: seq<CandidateEdge>, id: GraphId) returns (r: Option<CandidateEdge>)
    ensures r == FindCandidate(cands, id)
  {
    r := None;
    var k := 0;
    while k < |cands|
      invariant 0 <= k <= |cands|
      invariant FindCandidate(cands, id) == FindCandidate(cands[k..], id)
    {
      if cands[k].id == id {
        r := Some(cands[k]);
        break;
      }
      assert cands[k..][1..] == cands[k + 1..];
      k := k + 1;
    }
  }

  /** The elapsed times along a path. */
  function ElapsedTimes(path: seq<PathInfo>): (ts: seq<U32>)
    ensures |ts| == |path| && forall k :: 0 <= k < |path| ==> ts[k] == path[k].elapsedTime
  {
    seq(|path|, k requires 0 <= k < |path| => path[k].elapsedTime)
  }

  /** The loop summing the path's elapsed times into a uint32_t. */
  method SumElapsed(path: seq<PathInfo>) returns (sum: U32)
    ensures sum == WrappingSum(ElapsedTimes(path))
    ensures sum == ExactSum(ElapsedTimes(path)) % TwoTo32
  {
    ghost var ts := ElapsedTimes(path);
    sum := 0;
    var k := 0;
    while k < |path|
      invariant 0 <= k <= |path|
      invariant sum == WrappingSum(ts[..k])
    {
      assert ts[..k + 1][..k] == ts[..k];
      sum := (sum + path[k].elapsedTime) % TwoTo32;
      k := k + 1;
    }
    assert ts[..|path|] == ts;
    WrappingSumIsModular(ts);
  }

  /** The loop appending each path step's edge id to the running list. */
  method AppendPathIds(edges: seq<GraphId>, path: seq<PathInfo>) returns (r: seq<GraphId>)
    ensures r == edges + PathIds(path)
  {
    r := edges;
    var k := 0;
    while k < |path|
      invariant 0 <= k <= |path|
      invariant r == edges + PathIds(path)[..k]
    {
      r := r + [path[k].edgeid];
      assert PathIds(path)[..k + 1] == PathIds(path)[..k] + [path[k].edgeid];
      k := k + 1;
    }
    assert PathIds(path)[..|path|] == PathIds(path);
  }

  /** The std::unique and erase on the vector of edge ids. */
  method UniqueErase(edges: seq<GraphId>) returns (r: seq<GraphId>)
    ensures r == Dedup(edges)
  {
    var a := new GraphId[|edges|](k requires 0 <= k < |edges| => edges[k]);
    assert a[..] == edges;
    var newEnd := Unique(a);
    r := a[..newEnd];
  }

  /**
   * match_edges. Each sub-leg searches near the next reference, asks for a
   * path, checks where it ends, scores it (the score is not used), checks the
   * first edge's access and that the origin search found it, appends the
   * path's edges and makes the destination the next origin. An empty list
   * with the reason is returned at the first failure. Finally consecutive
   * duplicates are collapsed in place.
   */
  method MatchEdges(reader: GraphId -> DirectedEdge, s: Segment)
    returns (edges: seq<GraphId>, failure: Option<MatchError>)
    ensures edges == MatchedEdges(reader, s)
    ensures failure == MatchFailure(reader, s)
  {
    if |s.origins| == 0 {
      return [], Some(NoEdgeNearOrigin);
    }
    var origin := s.origins[0];
    edges := [];
    var i := 0;
    while i < |s.legs|
      invariant 0 <= i <= |s.legs|
      invariant MatchFailure(reader, s) == FailureFrom(reader, origin, s.legs[i..], i)
      invariant edges == Flatten(s.legs[..i])
    {
      var lrp := s.lrps[i];
      var leg := s.legs[i];
      FailureFromStep(reader, origin, s.legs, i);
      var roadClass := lrp.frc;
      if |leg.dests| == 0 {
        return [], Some(NoEdgeNearPoint(i));
      }
      var dest := leg.dests[0];
      var path := leg.path;
      if |path| == 0 {
        return [], Some(NoRoute(i));
      }
      if !leg.endsNear {
        return [], Some(RouteEndsTooFar(i));
      }
      var sum := SumElapsed(path);
      var edgeId := path[0].edgeid;
      var edge := reader(edgeId);
      if !CheckAccess(edge) {
        return [], Some(EdgeNotAccessible(i));
      }
      var hit := FindAtOrigin(origin.edges, edgeId);
      if hit.None? {
        return [], Some(EdgeNotAtOrigin(i));
      }
      // The sub-leg's score; match_edges computes it and never uses it.
      var score := LegScore(sum, lrp.length, roadClass, edge, hit.value.offsetTerm,
                            hit.value.bearing, AsInt32(lrp.bear), lrp.fow);
      FlattenSnoc(s.legs, i);
      edges := AppendPathIds(edges, path);
      origin := dest;
      i := i + 1;
    }
    assert s.legs[..|s.legs|] == s.legs;
    edges := UniqueErase(edges);
    failure := None;
  }
}
