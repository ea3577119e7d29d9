/**
 * DistanceOnlyCost: the cost adapter handed to the A* search so that it
 * finds the shortest-distance path over vehicular, eligible edges. The
 * unused arguments of the C++ overloads (predecessor label, tile, edge id,
 * opposing edge) are dropped; node records are an opaque type parameter.
 */
module DistanceOnlyCost {
  import opened Edges

  /** vs::Cost: a cost and an elapsed time, both in the search's units. */
  datatype Cost = Cost(cost: real, secs: real)

  /** access_mode(): the vehicular access bits. */
  function AccessMode(): (m: bv32)
    ensures m & AutoAccess != 0 && m & TruckAccess != 0 && m & TaxiAccess != 0
    ensures m & BusAccess != 0 && m & HovAccess != 0
    ensures m & PedestrianAccess == 0 && m & BicycleAccess == 0 && m & EmergencyAccess == 0
  {
    Vehicular
  }

  /** Allowed(edge, ...): forward traversal follows the access rule. */
  function Allowed(e: DirectedEdge): (r: bool)
    ensures r <==> AccessRule(e)
  {
    CheckAccess(e)
  }

  /** AllowedReverse(edge, ...): the reverse search applies the same rule to the edge itself. */
  function AllowedReverse(e: DirectedEdge): (r: bool)
    ensures r <==> AccessRule(e)
  {
    CheckAccess(e)
  }

  /** Allowed(node): no node is ever excluded. */
  function AllowedNode<N>(node: N): (r: bool)
    ensures r
  {
    true
  }

  /** EdgeCost(edge): the edge length, used both as cost and as elapsed time. */
  function EdgeCost(e: DirectedEdge): (c: Cost)
    ensures c.cost == c.secs == e.length as real
  {
    Cost(e.length as real, e.length as real)
  }

  /** GetEdgeFilter(): 1.0 for an edge the search may use, 0.0 for one it must skip. */
  function EdgeFilter(e: DirectedEdge): (f: real)
    ensures f == 1.0 <==> AccessRule(e)
    ensures f == 0.0 <==> !AccessRule(e)
  {
    if CheckAccess(e) then 1.0 else 0.0
  }

  /** GetNodeFilter(): a node filter answering "filter out?" with false for every node. */
  function NodeFilter<N>(node: N): (r: bool)
    ensures !r
  {
    false
  }

  /** AStarCostFactor(): the heuristic is not scaled. */
  function AStarCostFactor(): (k: real)
    ensures k == 1.0
  {
    1.0
  }

  /** The summed cost of traversing `es` in order. */
  function PathCost(es: seq<DirectedEdge>): Cost
  {
    if es == [] then Cost(0.0, 0.0)
    else
      var c := PathCost(es[..|es| - 1]);
      var last := EdgeCost(es[|es| - 1]);
      Cost(c.cost + last.cost, c.secs + last.secs)
  }

  /** The summed length of `es`. */
  function PathEdgeLength(es: seq<DirectedEdge>): nat
  {
    if es == [] then 0 else PathEdgeLength(es[..|es| - 1]) + es[|es| - 1].length
  }

  /** Under this cost model a path's cost and its elapsed time are both its length,
      so the cheapest path is the shortest one. */
  lemma {:induction false} PathCostIsLength(es: seq<DirectedEdge>)
    ensures PathCost(es).cost == PathEdgeLength(es) as real
    ensures PathCost(es).secs == PathEdgeLength(es) as real
  {
    if es != [] {
      PathCostIsLength(es[..|es| - 1]);
    }
  }

  /** The four entry points that decide eligibility agree with each other. */
  lemma FiltersAgree(e: DirectedEdge)
    ensures Allowed(e) == AllowedReverse(e) == CheckAccess(e)
    ensures EdgeFilter(e) == (if Allowed(e) then 1.0 else 0.0)
  {
  }
}
