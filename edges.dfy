/**
 * Edge eligibility and classification rules of the association tool:
 * edge_pred, check_access, is_oneway and form_of_way, over an abstract
 * directed-edge record that carries only the attributes these rules read.
 */
module Edges {

  /** Valhalla's per-mode access bits (values of baldr's graph constants). */
  const AutoAccess: bv32 := 1
  const PedestrianAccess: bv32 := 2
  const BicycleAccess: bv32 := 4
  const TruckAccess: bv32 := 8
  const EmergencyAccess: bv32 := 16
  const TaxiAccess: bv32 := 32
  const BusAccess: bv32 := 64
  const HovAccess: bv32 := 128
  const AllAccess: bv32 := 255

  /** The modes the tool counts as vehicular traffic. */
  const Vehicular: bv32 := AutoAccess | TruckAccess | TaxiAccess | BusAccess | HovAccess

  /** Road classes are Valhalla's RoadClass values; smaller is more important. */
  type RoadClass = nat
  const Motorway: RoadClass := 0
  const Tertiary: RoadClass := 4

  /** The edge uses the rules single out; every other Valhalla use is OtherUse. */
  datatype Use = Ferry | TransitConnection | OtherUse(code: nat)

  /** A directed edge, reduced to the attributes the tool reads. */
  datatype DirectedEdge = DirectedEdge(
    use: Use,
    transUp: bool,
    transDown: bool,
    isShortcut: bool,
    forwardAccess: bv32,
    reverseAccess: bv32,
    classification: RoadClass,
    link: bool,
    roundabout: bool,
    length: nat)

  /** Does `mask` let at least one vehicular mode through, mode by mode? */
  predicate SomeVehicleAllowed(mask: bv32) {
    mask & AutoAccess != 0 || mask & TruckAccess != 0 || mask & TaxiAccess != 0
    || mask & BusAccess != 0 || mask & HovAccess != 0
  }

  /** The access rule as a reader would state it, independent of the code's bit masks. */
  predicate AccessRule(e: DirectedEdge) {
    && !e.isShortcut
    && e.use != Ferry && e.use != TransitConnection
    && !e.transUp && !e.transDown
    && SomeVehicleAllowed(e.forwardAccess)
  }

  /**
   * edge_pred: no ferry, no transit connection, no hierarchy transition. It is
   * the part of the access rule that does not look at the shortcut flag or
   * the access bits.
   */
  function EdgePred(e: DirectedEdge): (r: bool)
    ensures AccessRule(e) ==> r
    ensures r <==> AccessRule(e.(isShortcut := false, forwardAccess := AllAccess))
  {
    e.use != Ferry && e.use != TransitConnection && !e.transUp && !e.transDown
  }

  /** check_access: the forward access mask, masked by kAllAccess, meets the vehicular set,
      and the edge is neither a shortcut nor excluded by edge_pred. */
  function CheckAccess(e: DirectedEdge): (r: bool)
    ensures r <==> AccessRule(e)
  {
    var access := AllAccess & e.forwardAccess;
    if e.isShortcut then false
    else if !EdgePred(e) then false
    else access & Vehicular != 0
  }

  /** is_oneway: no vehicular mode may use the edge against its direction. */
  function IsOneway(e: DirectedEdge): (r: bool)
    ensures r <==> !SomeVehicleAllowed(e.reverseAccess)
  {
    e.reverseAccess & Vehicular == 0
  }

  /** The OpenLR form-of-way values, in the order of their numeric codes 0 to 7. */
  datatype FormOfWay =
    | Undefined
    | MotorwayFow
    | MultipleCarriageway
    | SingleCarriageway
    | Roundabout
    | TrafficSquare
    | SlipRoad
    | OtherFow

  /** The numeric code of a form of way, as FormOfWay's underlying integer. */
  function FowCode(f: FormOfWay): (c: nat)
    ensures c <= 7
  {
    match f
    case Undefined => 0
    case MotorwayFow => 1
    case MultipleCarriageway => 2
    case SingleCarriageway => 3
    case Roundabout => 4
    case TrafficSquare => 5
    case SlipRoad => 6
    case OtherFow => 7
  }

  lemma FowCodeInjective(f: FormOfWay, g: FormOfWay)
    ensures FowCode(f) == FowCode(g) <==> f == g
  {
  }

  /**
   * form_of_way: a priority-ordered guess from the link and roundabout flags,
   * the road class and one-way-ness. Each outcome is characterised in both
   * directions, so the rules are mutually exclusive and their order is visible.
   */
  function FormOfWayOf(e: DirectedEdge): (f: FormOfWay)
    ensures f == SlipRoad <==> e.link
    ensures f == Roundabout <==> !e.link && e.roundabout
    ensures f == MotorwayFow <==>
      !e.link && !e.roundabout && e.classification == Motorway && IsOneway(e)
    ensures f == MultipleCarriageway <==>
      !e.link && !e.roundabout && e.classification != Motorway
      && e.classification <= Tertiary && IsOneway(e)
    ensures f == SingleCarriageway <==>
      !e.link && !e.roundabout && e.classification <= Tertiary && !IsOneway(e)
    ensures f == OtherFow <==> !e.link && !e.roundabout && e.classification > Tertiary
    ensures f != Undefined && f != TrafficSquare
  {
    var oneway := IsOneway(e);
    var rclass := e.classification;
    if e.link then SlipRoad
    else if e.roundabout then Roundabout
    else if rclass == Motorway && oneway then MotorwayFow
    else if rclass <= Tertiary && oneway then MultipleCarriageway
    else if rclass <= Tertiary then SingleCarriageway
    else OtherFow
  }

  /** One rule of a first-match decision list: when `guard` holds, answer `result`. */
  datatype Rule = Rule(guard: bool, result: FormOfWay)

  /** The answer of the first rule whose guard holds, or `fallback`. */
  function FirstMatch(rules: seq<Rule>, fallback: FormOfWay): FormOfWay
  {
    if rules == [] then fallback
    else if rules[0].guard then rules[0].result
    else FirstMatch(rules[1..], fallback)
  }

  /** The form-of-way heuristics written as an ordered decision list. */
  function FormOfWayRules(e: DirectedEdge): seq<Rule> {
    [ Rule(e.link, SlipRoad),
      Rule(e.roundabout, Roundabout),
      Rule(e.classification == Motorway && IsOneway(e), MotorwayFow),
      Rule(e.classification <= Tertiary && IsOneway(e), MultipleCarriageway),
      Rule(e.classification <= Tertiary, SingleCarriageway) ]
  }

  /** form_of_way is the first-match reading of that decision list, ending in "other". */
  lemma FormOfWayIsFirstMatch(e: DirectedEdge)
    ensures FormOfWayOf(e) == FirstMatch(FormOfWayRules(e), OtherFow)
  {
    var r0 := FormOfWayRules(e);
    var r1 := r0[1..];
    var r2 := r1[1..];
    var r3 := r2[1..];
    var r4 := r3[1..];
    assert r4[1..] == [];
    assert FirstMatch(r4, OtherFow) == if e.classification <= Tertiary then SingleCarriageway else OtherFow;
    assert FirstMatch(r3, OtherFow) ==
      if r3[0].guard then MultipleCarriageway else FirstMatch(r4, OtherFow);
    assert FirstMatch(r2, OtherFow) ==
      if r2[0].guard then MotorwayFow else FirstMatch(r3, OtherFow);
    assert FirstMatch(r1, OtherFow) ==
      if e.roundabout then Roundabout else FirstMatch(r2, OtherFow);
  }
}
