/**
 * The edge_association object: it matches each segment of a traffic tile to
 * routing-graph edges and records the results in one tile builder per graph
 * tile. Tile builders are modelled by value (the tile they belong to and the
 * association records appended to them, in order), and the flush in finish()
 * is modelled as a log of the builders on which it was called.
 */
module Association {
  import opened GraphIds
  import opened Edges
  import opened Matcher
  import opened Dedupe

  /** A single-precision percentage: a number, or what a division by zero produces. */
  datatype Pct = Num(value: real) | NaN | PosInf | NegInf

  /**
   * Float division of a cumulative length by the total length. Dividing by
   * zero gives NaN for 0/0 and an infinity of the numerator's sign otherwise.
   * (assign_one_to_many only meets 0/0: its running totals are non-negative
   * and never exceed the total.)
   */
  function Ratio(a: real, b: real): (p: Pct)
    ensures p.NaN? <==> b == 0.0 && a == 0.0
    ensures p.PosInf? <==> b == 0.0 && a > 0.0
    ensures p.NegInf? <==> b == 0.0 && a < 0.0
    ensures b != 0.0 ==> p == Num(a / b)
  {
    if b != 0.0 then Num(a / b)
    else if a == 0.0 then NaN
    else if a > 0.0 then PosInf
    else NegInf
  }

  /** What one edge covers of one traffic segment. */
  datatype TrafficAssociation = TrafficAssociation(segment: GraphId, begin: Pct, end: Pct)

  /** An association together with its weight. */
  datatype WeightedAssociation = WeightedAssociation(assoc: TrafficAssociation, weight: real)

  /** One call of AddTrafficSegmentAssociation: an edge and its weighted associations. */
  datatype Write = Write(edge: GraphId, assocs: seq<WeightedAssociation>)

  /** A tile builder: the tile it writes and the association writes it received, in order. */
  datatype TileBuilder = TileBuilder(tile: GraphId, writes: seq<Write>)

  /** A match that did not line up with the segment's ends, kept for later. */
  datatype PartialChunk = PartialChunk(edges: seq<GraphId>, segments: seq<GraphId>)

  /** Builders are keyed by the tile base of the edges they hold, and each builder writes its key's tile. */
  ghost predicate WellKeyed(tiles: map<GraphId, TileBuilder>) {
    forall t :: t in tiles ==> tiles[t].tile == t && IsTileBase(t)
  }

  /** The writes a tile already has; none when it has no builder yet. */
  function Existing(tiles: map<GraphId, TileBuilder>, t: GraphId): seq<Write> {
    if t in tiles then tiles[t].writes else []
  }

  /** The builder map after looking up (and, if absent, creating) the builder for tile t. */
  function WithBuilder(tiles: map<GraphId, TileBuilder>, t: GraphId): (m: map<GraphId, TileBuilder>)
    ensures t in m && m.Keys == tiles.Keys + {t}
    ensures t in tiles ==> m == tiles
    ensures forall u :: u in tiles ==> m[u] == tiles[u]
    ensures t !in tiles ==> m[t] == TileBuilder(t, [])
  {
    if t in tiles then tiles else tiles[t := TileBuilder(t, [])]
  }

  /** The builder map after one write goes to the builder of its edge's tile. */
  function AddWrite(tiles: map<GraphId, TileBuilder>, w: Write): map<GraphId, TileBuilder> {
    var t := TileBase(w.edge);
    var m := WithBuilder(tiles, t);
    m[t := m[t].(writes := m[t].writes + [w])]
  }

  /** The builder map after a sequence of writes, in order. */
  function WriteAll(tiles: map<GraphId, TileBuilder>, ws: seq<Write>): map<GraphId, TileBuilder> {
    if ws == [] then tiles else AddWrite(WriteAll(tiles, ws[..|ws| - 1]), ws[|ws| - 1])
  }

  /** The writes of ws whose edge lies in tile t, in order. */
  function WritesFor(ws: seq<Write>, t: GraphId): (r: seq<Write>)
    ensures forall k :: 0 <= k < |r| ==> r[k] in ws && TileBase(r[k].edge) == t
  {
    if ws == [] then []
    else WritesFor(ws[..|ws| - 1], t) + (if TileBase(ws[|ws| - 1].edge) == t then [ws[|ws| - 1]] else [])
  }

  /** A write reaches only its own tile's builder, creating it when needed, and is appended there. */
  lemma AddWriteRoutes(tiles: map<GraphId, TileBuilder>, w: Write, t: GraphId)
    ensures t in AddWrite(tiles, w) <==> t in tiles || t == TileBase(w.edge)
    ensures t in AddWrite(tiles, w) ==>
      AddWrite(tiles, w)[t].writes == Existing(tiles, t) + (if t == TileBase(w.edge) then [w] else [])
    ensures t in tiles && t != TileBase(w.edge) ==> AddWrite(tiles, w)[t] == tiles[t]
  {
  }

  lemma AddWriteWellKeyed(tiles: map<GraphId, TileBuilder>, w: Write)
    requires WellKeyed(tiles)
    ensures WellKeyed(AddWrite(tiles, w))
  {
  }

  /**
   * After a sequence of writes, tile t has a builder exactly when it had one
   * before or some write is for one of its edges, and that builder holds its
   * old writes followed by exactly the writes for its edges, in order.
   */
  lemma {:induction false} WriteAllRoutes(tiles: map<GraphId, TileBuilder>, ws: seq<Write>, t: GraphId)
    ensures t in WriteAll(tiles, ws) <==> t in tiles || WritesFor(ws, t) != []
    ensures t in WriteAll(tiles, ws) ==> WriteAll(tiles, ws)[t].writes == Existing(tiles, t) + WritesFor(ws, t)
  {
    if ws != [] {
      var init := ws[..|ws| - 1];
      var w := ws[|ws| - 1];
      WriteAllRoutes(tiles, init, t);
      AddWriteRoutes(WriteAll(tiles, init), w, t);
    }
  }

  lemma WriteAllSnoc(tiles: map<GraphId, TileBuilder>, ws: seq<Write>, i: nat)
    requires i < |ws|
    ensures WriteAll(tiles, ws[..i + 1]) == AddWrite(WriteAll(tiles, ws[..i]), ws[i])
  {
    assert ws[..i + 1][..i] == ws[..i];
  }

  lemma {:induction false} WriteAllWellKeyed(tiles: map<GraphId, TileBuilder>, ws: seq<Write>)
    requires WellKeyed(tiles)
    ensures WellKeyed(WriteAll(tiles, ws))
  {
    if ws != [] {
      WriteAllWellKeyed(tiles, ws[..|ws| - 1]);
      AddWriteWellKeyed(WriteAll(tiles, ws[..|ws| - 1]), ws[|ws| - 1]);
    }
  }

  /** The record of assign_one_to_one: the edge covers the whole segment, with weight 1. */
  function OneToOneWrite(edge: GraphId, segment: GraphId): Write {
    Write(edge, [WeightedAssociation(TrafficAssociation(segment, Num(0.0), Num(1.0)), 1.0)])
  }

  /** The lengths of the edges, read through the graph reader. */
  function Lengths(reader: GraphId -> DirectedEdge, edges: seq<GraphId>): (lens: seq<nat>)
    ensures |lens| == |edges|
    ensures forall i :: 0 <= i < |edges| ==> lens[i] == reader(edges[i]).length
  {
    seq(|edges|, i requires 0 <= i < |edges| => reader(edges[i]).length)
  }

  function Sum(lens: seq<nat>): nat {
    if lens == [] then 0 else Sum(lens[..|lens| - 1]) + lens[|lens| - 1]
  }

  /** The running totals of the lengths: entry i is the length of the first i + 1 edges. */
  function Cumulative(lens: seq<nat>): (cum: seq<real>)
    ensures |cum| == |lens|
  {
    if lens == [] then [] else Cumulative(lens[..|lens| - 1]) + [Sum(lens) as real]
  }

  /** Where the i-th edge ends along the segment: the last one at 1, the others at their share of the total. */
  function EndPct(cum: seq<real>, total: real, i: nat): Pct
    requires i < |cum|
  {
    if i == |cum| - 1 then Num(1.0) else Ratio(cum[i], total)
  }

  /** Where the i-th edge begins along the segment: the first at 0, the others where their predecessor ends. */
  function BeginPct(cum: seq<real>, total: real, i: nat): Pct
    requires i <= |cum|
  {
    if i == 0 then Num(0.0) else EndPct(cum, total, i - 1)
  }

  /** The records of assign_one_to_many from the running totals and the total, one per edge, in edge order. */
  function Records(edges: seq<GraphId>, segment: GraphId, cum: seq<real>, total: real): (ws: seq<Write>)
    requires |cum| == |edges|
    ensures |ws| == |edges|
  {
    seq(|edges|, i requires 0 <= i < |edges| =>
      Write(edges[i], [WeightedAssociation(TrafficAssociation(segment, BeginPct(cum, total, i), EndPct(cum, total, i)), 1.0)]))
  }

  lemma RecordAt(edges: seq<GraphId>, segment: GraphId, cum: seq<real>, total: real, i: nat)
    requires |cum| == |edges| && i < |edges|
    ensures Records(edges, segment, cum, total)[i] ==
      Write(edges[i], [WeightedAssociation(TrafficAssociation(segment, BeginPct(cum, total, i), EndPct(cum, total, i)), 1.0)])
  {
  }

  /** The records of assign_one_to_many for edges of the given lengths. */
  function OneToManyWrites(edges: seq<GraphId>, segment: GraphId, lens: seq<nat>): seq<Write>
    requires |lens| == |edges|
  {
    Records(edges, segment, Cumulative(lens), Sum(lens) as real)
  }

  /** The record a single-record write carries. */
  function Record(w: Write): TrafficAssociation
    requires w.assocs != []
  {
    w.assocs[0].assoc
  }

  /** Extending a prefix of the lengths by one edge extends its sum and its running totals. */
  lemma PrefixSnoc(lens: seq<nat>, k: nat)
    requires k < |lens|
    ensures Sum(lens[..k + 1]) == Sum(lens[..k]) + lens[k]
    ensures Cumulative(lens[..k + 1]) == Cumulative(lens[..k]) + [Sum(lens[..k + 1]) as real]
  {
    assert lens[..k + 1][..k] == lens[..k];
  }

  lemma {:induction false} CumulativeAt(lens: seq<nat>, i: nat)
    requires i < |lens|
    ensures Cumulative(lens)[i] == Sum(lens[..i + 1]) as real
  {
    var init := lens[..|lens| - 1];
    if i < |lens| - 1 {
      CumulativeAt(init, i);
      assert init[..i + 1] == lens[..i + 1];
    } else {
      assert lens[..i + 1] == lens;
    }
  }

  /** A sum over a prefix is at most the sum over a longer prefix. */
  lemma {:induction false} SumPrefixGrows(lens: seq<nat>, i: nat, j: nat)
    requires i <= j <= |lens|
    ensures Sum(lens[..i]) <= Sum(lens[..j])
    decreases j - i
  {
    if i < j {
      SumPrefixGrows(lens, i, j - 1);
      assert lens[..j][..j - 1] == lens[..j - 1];
    }
  }

  /** The running totals never decrease and never exceed the total. */
  lemma CumulativeBounds(lens: seq<nat>, i: nat)
    requires 0 < i < |lens|
    ensures Cumulative(lens)[i - 1] <= Cumulative(lens)[i] <= Sum(lens) as real
  {
    CumulativeAt(lens, i - 1);
    CumulativeAt(lens, i);
    SumPrefixGrows(lens, i, i + 1);
    SumPrefixGrows(lens, i + 1, |lens|);
    assert lens[..|lens|] == lens;
  }

  lemma CumulativeFirst(lens: seq<nat>)
    requires |lens| > 0
    ensures 0.0 <= Cumulative(lens)[0] <= Sum(lens) as real
  {
    CumulativeAt(lens, 0);
    SumPrefixGrows(lens, 1, |lens|);
    assert lens[..|lens|] == lens;
  }

  lemma DivideBelow(a: real, b: real, t: real)
    requires 0.0 <= a <= b && t > 0.0
    ensures 0.0 <= a / t <= b / t
  {
    assert a / t * t == a;
    assert b / t * t == b;
  }

  lemma DivideAtMostOne(a: real, t: real)
    requires 0.0 <= a <= t && t > 0.0
    ensures 0.0 <= a / t <= 1.0
  {
    DivideBelow(a, t, t);
  }

  /** The end of every edge of a one-to-many match is a number in [0, 1] when the edges have length. */
  lemma EndInRange(lens: seq<nat>, i: nat)
    requires i < |lens| && Sum(lens) > 0
    ensures EndPct(Cumulative(lens), Sum(lens) as real, i).Num?
    ensures 0.0 <= EndPct(Cumulative(lens), Sum(lens) as real, i).value <= 1.0
  {
    if i < |lens| - 1 {
      if i == 0 {
        CumulativeFirst(lens);
      } else {
        CumulativeBounds(lens, i);
        CumulativeFirst(lens);
        CumulativeNonNegative(lens, i);
      }
      DivideAtMostOne(Cumulative(lens)[i], Sum(lens) as real);
    }
  }

  lemma CumulativeNonNegative(lens: seq<nat>, i: nat)
    requires i < |lens|
    ensures Cumulative(lens)[i] >= 0.0
  {
    CumulativeAt(lens, i);
  }

  /** Successive ends of a one-to-many match never decrease. */
  lemma EndsGrow(lens: seq<nat>, i: nat)
    requires 0 < i < |lens| && Sum(lens) > 0
    ensures EndPct(Cumulative(lens), Sum(lens) as real, i - 1).value <= EndPct(Cumulative(lens), Sum(lens) as real, i).value
  {
    EndInRange(lens, i - 1);
    EndInRange(lens, i);
    if i < |lens| - 1 {
      CumulativeBounds(lens, i);
      CumulativeNonNegative(lens, i - 1);
      DivideBelow(Cumulative(lens)[i - 1], Cumulative(lens)[i], Sum(lens) as real);
    }
  }

  /**
   * A one-to-many match writes one record of weight 1 per edge, in edge
   * order; the records tile the segment: the first starts at 0, the last
   * ends at 1, and each one starts where the previous one ends. When the
   * edges have some length every bound is a number in [0, 1], and the
   * bounds never decrease along the edges.
   */
  lemma OneToManyRanges(edges: seq<GraphId>, segment: GraphId, lens: seq<nat>)
    requires |lens| == |edges| > 0
    ensures var ws := OneToManyWrites(edges, segment, lens);
      && |ws| == |edges|
      && (forall i :: 0 <= i < |ws| ==>
            ws[i].edge == edges[i] && |ws[i].assocs| == 1 && ws[i].assocs[0].weight == 1.0
            && Record(ws[i]).segment == segment)
      && Record(ws[0]).begin == Num(0.0)
      && Record(ws[|ws| - 1]).end == Num(1.0)
      && (forall i :: 0 < i < |ws| ==> Record(ws[i]).begin == Record(ws[i - 1]).end)
    ensures var ws := OneToManyWrites(edges, segment, lens);
      Sum(lens) > 0 ==>
        (forall i :: 0 <= i < |ws| ==>
           Record(ws[i]).begin.Num? && Record(ws[i]).end.Num?
           && 0.0 <= Record(ws[i]).begin.value <= Record(ws[i]).end.value <= 1.0)
  {
    var ws := OneToManyWrites(edges, segment, lens);
    if Sum(lens) > 0 {
      forall i | 0 <= i < |ws|
        ensures Record(ws[i]).begin.Num? && Record(ws[i]).end.Num?
        ensures 0.0 <= Record(ws[i]).begin.value <= Record(ws[i]).end.value <= 1.0
      {
        EndInRange(lens, i);
        if i > 0 {
          EndInRange(lens, i - 1);
          EndsGrow(lens, i);
        }
      }
    }
  }

  /** When all the edges have length zero, every inner bound of a one-to-many match is NaN. */
  lemma OneToManyZeroLength(edges: seq<GraphId>, segment: GraphId, lens: seq<nat>, i: nat)
    requires |lens| == |edges| && Sum(lens) == 0 && i < |edges| - 1
    ensures Record(OneToManyWrites(edges, segment, lens)[i]).end == NaN
    ensures Record(OneToManyWrites(edges, segment, lens)[i + 1]).begin == NaN
  {
    CumulativeAt(lens, i);
    SumPrefixGrows(lens, i + 1, |lens|);
    assert lens[..|lens|] == lens;
    RecordAt(edges, segment, Cumulative(lens), 0.0, i);
    RecordAt(edges, segment, Cumulative(lens), 0.0, i + 1);
  }

  /** Two edges of lengths 30 and 70 split the segment at 0.3. */
  lemma OneToManyTwoEdges(a: GraphId, b: GraphId, segment: GraphId)
    ensures var ws := OneToManyWrites([a, b], segment, [30, 70]);
      && ws[0] == Write(a, [WeightedAssociation(TrafficAssociation(segment, Num(0.0), Num(0.3)), 1.0)])
      && ws[1] == Write(b, [WeightedAssociation(TrafficAssociation(segment, Num(0.3), Num(1.0)), 1.0)])
  {
    var lens: seq<nat> := [30, 70];
    assert lens[..1] == [30] && [30][..0] == [];
    assert Sum([30]) == 30 && Sum(lens) == 100;
    assert Cumulative([30]) == [30.0];
    assert Cumulative(lens) == [30.0, 100.0];
    RecordAt([a, b], segment, Cumulative(lens), 100.0, 0);
    RecordAt([a, b], segment, Cumulative(lens), 100.0, 1);
  }

  /**
   * Only adjacent duplicates collapse: a path that comes back to an edge
   * after another keeps both visits, and a one-to-many match then writes two
   * records for the same segment to that edge.
   */
  lemma RevisitedEdgeWrittenTwice(a: GraphId, b: GraphId, segment: GraphId, lens: seq<nat>)
    requires a != b && |lens| == 3
    ensures Dedup([a, b, a]) == [a, b, a]
    ensures var ws := OneToManyWrites([a, b, a], segment, lens);
      && ws[0].edge == a && ws[2].edge == a
      && Record(ws[0]).segment == segment && Record(ws[2]).segment == segment
  {
    assert [a, b, a][..2] == [a, b] && [a, b][..1] == [a];
    assert Dedup([a, b]) == Dedup([a]) + [b];
    OneToManyRanges([a, b, a], segment, lens);
    var ws := OneToManyWrites([a, b, a], segment, lens);
    assert Record(ws[0]).begin == Num(0.0) && Record(ws[2]).end == Num(1.0);
  }

  /** The four ways match_segment can end. */
  datatype Outcome = Unmatched | OneToOne | OneToMany | Deferred

  /**
   * How a segment is handled, from the number of matched edges and whether
   * the segment's first and last points agree with the ends of the match.
   */
  function Classify(count: nat, startAgrees: bool, endAgrees: bool): (o: Outcome)
    ensures o == Unmatched <==> count == 0
    ensures o == OneToOne <==> count == 1 && startAgrees && endAgrees
    ensures o == OneToMany <==> count > 1 && startAgrees && endAgrees
    ensures o == Deferred <==> count > 0 && !(startAgrees && endAgrees)
  {
    if count == 0 then Unmatched
    else if startAgrees && endAgrees then (if count == 1 then OneToOne else OneToMany)
    else Deferred
  }

  /** The state the association pass keeps: the builders and the partial chunks. */
  datatype Store = Store(tiles: map<GraphId, TileBuilder>, chunks: seq<PartialChunk>)

  /** What match_segment does to the state, given the matched edges and the end agreement. */
  function ApplyMatch(st: Store, reader: GraphId -> DirectedEdge, segment: GraphId,
                      edges: seq<GraphId>, startAgrees: bool, endAgrees: bool): Store
  {
    match Classify(|edges|, startAgrees, endAgrees)
    case Unmatched => st
    case OneToOne => st.(tiles := AddWrite(st.tiles, OneToOneWrite(edges[0], segment)))
    case OneToMany => st.(tiles := WriteAll(st.tiles, OneToManyWrites(edges, segment, Lengths(reader, edges))))
    case Deferred => st.(chunks := st.chunks + [PartialChunk(edges, [segment])])
  }

  /** What match_segment does to the state for one segment. */
  function ApplySegment(st: Store, reader: GraphId -> DirectedEdge, segment: GraphId, s: Segment): Store {
    ApplyMatch(st, reader, segment, MatchedEdges(reader, s), s.startAgrees, s.endAgrees)
  }

  /**
   * The outcomes of match_segment: an unmatched segment leaves the state
   * alone; a two-ended match writes only to the builders of its edges'
   * tiles, leaving the chunks alone (a single edge gets one whole-segment
   * record); any other match is kept as a chunk of its own and no builder
   * changes.
   */
  lemma {:induction false} MatchSegmentOutcomes(st: Store, reader: GraphId -> DirectedEdge, segment: GraphId, s: Segment)
    ensures var es := MatchedEdges(reader, s);
      es == [] ==> ApplySegment(st, reader, segment, s) == st
    ensures var es := MatchedEdges(reader, s);
      var r := ApplySegment(st, reader, segment, s);
      es != [] && !(s.startAgrees && s.endAgrees) ==>
        r.tiles == st.tiles && r.chunks == st.chunks + [PartialChunk(es, [segment])]
    ensures var es := MatchedEdges(reader, s);
      var r := ApplySegment(st, reader, segment, s);
      |es| == 1 && s.startAgrees && s.endAgrees ==>
        r.chunks == st.chunks
        && (forall t :: t in r.tiles <==> t in st.tiles || t == TileBase(es[0]))
        && (forall t :: t in r.tiles ==>
              r.tiles[t].writes == Existing(st.tiles, t) + (if t == TileBase(es[0]) then [OneToOneWrite(es[0], segment)] else []))
    ensures var es := MatchedEdges(reader, s);
      var r := ApplySegment(st, reader, segment, s);
      var ws := OneToManyWrites(es, segment, Lengths(reader, es));
      |es| > 1 && s.startAgrees && s.endAgrees ==>
        r.chunks == st.chunks
        && (forall t :: t in r.tiles <==> t in st.tiles || WritesFor(ws, t) != [])
        && (forall t :: t in r.tiles ==> r.tiles[t].writes == Existing(st.tiles, t) + WritesFor(ws, t))
  {
    var es := MatchedEdges(reader, s);
    var r := ApplySegment(st, reader, segment, s);
    if |es| == 1 && s.startAgrees && s.endAgrees {
      forall t
        ensures t in r.tiles <==> t in st.tiles || t == TileBase(es[0])
        ensures t in r.tiles ==>
          r.tiles[t].writes == Existing(st.tiles, t) + (if t == TileBase(es[0]) then [OneToOneWrite(es[0], segment)] else [])
      {
        AddWriteRoutes(st.tiles, OneToOneWrite(es[0], segment), t);
      }
    }
    if |es| > 1 && s.startAgrees && s.endAgrees {
      var ws := OneToManyWrites(es, segment, Lengths(reader, es));
      forall t
        ensures t in r.tiles <==> t in st.tiles || WritesFor(ws, t) != []
        ensures t in r.tiles ==> r.tiles[t].writes == Existing(st.tiles, t) + WritesFor(ws, t)
      {
        WriteAllRoutes(st.tiles, ws, t);
      }
    }
  }

  lemma ApplyMatchWellKeyed(st: Store, reader: GraphId -> DirectedEdge, segment: GraphId,
                            edges: seq<GraphId>, startAgrees: bool, endAgrees: bool)
    requires WellKeyed(st.tiles)
    ensures WellKeyed(ApplyMatch(st, reader, segment, edges, startAgrees, endAgrees).tiles)
  {
    if |edges| > 1 && startAgrees && endAgrees {
      WriteAllWellKeyed(st.tiles, OneToManyWrites(edges, segment, Lengths(reader, edges)));
    } else if |edges| == 1 && startAgrees && endAgrees {
      AddWriteWellKeyed(st.tiles, OneToOneWrite(edges[0], segment));
    }
  }

  /** An entry of a traffic tile: a marker, or a segment. */
  datatype Entry = Marker | SegmentEntry(segment: Segment)

  /** A segment with the id it gets from its position in the tile. */
  datatype NumberedSegment = NumberedSegment(id: GraphId, segment: Segment)

  /** The segments of a tile's entries, each numbered by its entry's position; markers are skipped but counted. */
  function NumberedSegments(base: GraphId, entries: seq<Entry>): seq<NumberedSegment> {
    if entries == [] then []
    else
      var init := NumberedSegments(base, entries[..|entries| - 1]);
      match entries[|entries| - 1]
      case Marker => init
      case SegmentEntry(s) => init + [NumberedSegment(Plus(base, |entries| - 1), s)]
  }

  /** The positions of the segment entries of a tile, in increasing order. */
  function SegmentPositions(entries: seq<Entry>): (ps: seq<nat>)
    ensures forall k :: 0 <= k < |ps| ==> ps[k] < |entries| && entries[ps[k]].SegmentEntry?
    ensures forall j :: 0 <= j < |entries| && entries[j].SegmentEntry? ==> j in ps
    ensures forall k1, k2 :: 0 <= k1 < k2 < |ps| ==> ps[k1] < ps[k2]
  {
    if entries == [] then []
    else
      var ps := SegmentPositions(entries[..|entries| - 1]);
      if entries[|entries| - 1].SegmentEntry? then ps + [|entries| - 1] else ps
  }

  lemma NumberedSnoc(base: GraphId, entries: seq<Entry>, e: Entry)
    ensures NumberedSegments(base, entries + [e]) ==
      NumberedSegments(base, entries) + (if e.SegmentEntry? then [NumberedSegment(Plus(base, |entries|), e.segment)] else [])
  {
    assert (entries + [e])[..|entries|] == entries;
  }

  /**
   * The k-th segment matched is the k-th segment entry, under the id of
   * its position: markers get no match but use up their id. The ids stay
   * in the tile of the base id and strictly increase, so no two segments
   * share one.
   */
  lemma {:induction false} NumberingByPosition(base: GraphId, entries: seq<Entry>)
    ensures var ns := NumberedSegments(base, entries);
      var ps := SegmentPositions(entries);
      && |ns| == |ps|
      && forall k :: 0 <= k < |ns| ==> ns[k] == NumberedSegment(Plus(base, ps[k]), entries[ps[k]].segment)
    ensures var ns := NumberedSegments(base, entries);
      forall k :: 0 <= k < |ns| ==> TileBase(ns[k].id) == TileBase(base) && ns[k].id.id < base.id + |entries|
    ensures var ns := NumberedSegments(base, entries);
      forall k1, k2 :: 0 <= k1 < k2 < |ns| ==> ns[k1].id.id < ns[k2].id.id
  {
    if entries != [] {
      var init := entries[..|entries| - 1];
      NumberingByPosition(base, init);
      var ns0 := NumberedSegments(base, init);
      var ps0 := SegmentPositions(init);
      var ns := NumberedSegments(base, entries);
      var ps := SegmentPositions(entries);
      forall k | 0 <= k < |ns0|
        ensures ns[k] == NumberedSegment(Plus(base, ps[k]), entries[ps[k]].segment)
      {
        assert ns[k] == ns0[k] && ps[k] == ps0[k];
        assert entries[ps0[k]] == init[ps0[k]];
      }
    }
  }

  /** Matches a sequence of numbered segments in order. */
  function ApplyAll(st: Store, reader: GraphId -> DirectedEdge, ns: seq<NumberedSegment>): Store {
    if ns == [] then st
    else ApplySegment(ApplyAll(st, reader, ns[..|ns| - 1]), reader, ns[|ns| - 1].id, ns[|ns| - 1].segment)
  }

  /** One step of add_tile: entry j is matched under its id when it is a segment, and skipped when it is a marker. */
  lemma AddTileStep(st: Store, reader: GraphId -> DirectedEdge, base: GraphId, entries: seq<Entry>, j: nat)
    requires j < |entries|
    ensures ApplyAll(st, reader, NumberedSegments(base, entries[..j + 1])) ==
      if entries[j].SegmentEntry?
      then ApplySegment(ApplyAll(st, reader, NumberedSegments(base, entries[..j])), reader, Plus(base, j), entries[j].segment)
      else ApplyAll(st, reader, NumberedSegments(base, entries[..j]))
  {
    assert entries[..j + 1] == entries[..j] + [entries[j]];
    NumberedSnoc(base, entries[..j], entries[j]);
    var ns := NumberedSegments(base, entries[..j]);
    if entries[j].SegmentEntry? {
      var n := NumberedSegment(Plus(base, j), entries[j].segment);
      assert (ns + [n])[..|ns|] == ns;
    } else {
      assert ns + [] == ns;
    }
  }

  /** The builders of the given tiles, in the given order. */
  function Builders(tiles: map<GraphId, TileBuilder>, order: seq<GraphId>): (bs: seq<TileBuilder>)
    requires forall t :: t in order ==> t in tiles
    ensures |bs| == |order|
    ensures forall k :: 0 <= k < |order| ==> bs[k] == tiles[order[k]]
  {
    seq(|order|, k requires 0 <= k < |order| => tiles[order[k]])
  }

  lemma BuildersSnoc(tiles: map<GraphId, TileBuilder>, order: seq<GraphId>, t: GraphId)
    requires forall u :: u in order ==> u in tiles
    requires t in tiles
    ensures Builders(tiles, order + [t]) == Builders(tiles, order) + [tiles[t]]
  {
  }

  lemma AppendOne<T>(a: seq<T>, b: seq<T>, x: T)
    ensures (a + b) + [x] == a + (b + [x])
  {
  }

  /** The association pass: builders, partial chunks, and the log of builders flushed by finish(). */
  class EdgeAssociation {
    const reader: GraphId -> DirectedEdge
    var tiles: map<GraphId, TileBuilder>
    var partialChunks: seq<PartialChunk>
    var flushed: seq<TileBuilder>

    ghost predicate Valid()
      reads this
    {
      WellKeyed(tiles)
    }

    function State(): Store
      reads this
    {
      Store(tiles, partialChunks)
    }

    constructor(reader: GraphId -> DirectedEdge)
      ensures Valid()
      ensures this.reader == reader && tiles == map[] && partialChunks == [] && flushed == []
    {
      this.reader := reader;
      tiles := map[];
      partialChunks := [];
      flushed := [];
    }

    /** Finds the builder for an edge's tile, creating an empty one on the first edge of that tile. */
    method BuilderForEdge(edgeId: GraphId) returns (b: TileBuilder)
      requires Valid()
      modifies this
      ensures Valid()
      ensures tiles == WithBuilder(old(tiles), TileBase(edgeId))
      ensures b == tiles[TileBase(edgeId)] && b.tile == TileBase(edgeId)
      ensures TileBase(edgeId) in old(tiles) ==> tiles == old(tiles) && b == old(tiles)[TileBase(edgeId)]
      ensures TileBase(edgeId) !in old(tiles) ==>
        && tiles.Keys == old(tiles).Keys + {TileBase(edgeId)}
        && (forall u :: u in old(tiles) ==> tiles[u] == old(tiles)[u])
        && b.writes == []
      ensures partialChunks == old(partialChunks) && flushed == old(flushed)
    {
      var tileId := TileBase(edgeId);
      if tileId !in tiles {
        tiles := tiles[tileId := TileBuilder(tileId, [])];
      }
      b := tiles[tileId];
    }

    /** Appends one write to the builder of the edge's tile. */
    method AddAssociation(edgeId: GraphId, assocs: seq<WeightedAssociation>)
      requires Valid()
      modifies this
      ensures Valid()
      ensures tiles == AddWrite(old(tiles), Write(edgeId, assocs))
      ensures partialChunks == old(partialChunks) && flushed == old(flushed)
    {
      var b := BuilderForEdge(edgeId);
      tiles := tiles[b.tile := b.(writes := b.writes + [Write(edgeId, assocs)])];
    }

    method AssignOneToOne(edgeId: GraphId, segmentId: GraphId)
      requires Valid()
      modifies this
      ensures Valid()
      ensures tiles == AddWrite(old(tiles), OneToOneWrite(edgeId, segmentId))
      ensures partialChunks == old(partialChunks) && flushed == old(flushed)
    {
      var assoc := [WeightedAssociation(TrafficAssociation(segmentId, Num(0.0), Num(1.0)), 1.0)];
      AddAssociation(edgeId, assoc);
    }

    /** The first loop of assign_one_to_many: the total length and the running totals. */
    method RunningLengths(edges: seq<GraphId>) returns (totalLength: real, lengths: seq<real>)
      ensures totalLength == Sum(Lengths(reader, edges)) as real
      ensures lengths == Cumulative(Lengths(reader, edges))
    {
      ghost var lens := Lengths(reader, edges);
      totalLength := 0.0;
      lengths := [];
      var k := 0;
      while k < |edges|
        invariant 0 <= k <= |edges|
        invariant totalLength == Sum(lens[..k]) as real
        invariant lengths == Cumulative(lens[..k])
      {
        var edge := reader(edges[k]);
        PrefixSnoc(lens, k);
        totalLength := totalLength + edge.length as real;
        lengths := lengths + [totalLength];
        k := k + 1;
      }
      assert lens[..k] == lens;
    }

    method AssignOneToMany(edges: seq<GraphId>, segmentId: GraphId)
      requires Valid()
      modifies this
      ensures Valid()
      ensures tiles == WriteAll(old(tiles), OneToManyWrites(edges, segmentId, Lengths(reader, edges)))
      ensures partialChunks == old(partialChunks) && flushed == old(flushed)
    {
      var totalLength, lengths := RunningLengths(edges);
      WriteRecords(edges, segmentId, lengths, totalLength);
    }

    /** The second loop of assign_one_to_many: one record per edge, each beginning where the last ended. */
    method WriteRecords(edges: seq<GraphId>, segmentId: GraphId, lengths: seq<real>, totalLength: real)
      requires Valid() && |lengths| == |edges|
      modifies this
      ensures Valid()
      ensures tiles == WriteAll(old(tiles), Records(edges, segmentId, lengths, totalLength))
      ensures partialChunks == old(partialChunks) && flushed == old(flushed)
    {
      ghost var ws := Records(edges, segmentId, lengths, totalLength);
      var beginPct := Num(0.0);
      var i := 0;
      while i < |edges|
        invariant 0 <= i <= |edges|
        invariant Valid()
        invariant tiles == WriteAll(old(tiles), ws[..i])
        invariant beginPct == BeginPct(lengths, totalLength, i)
        invariant partialChunks == old(partialChunks) && flushed == old(flushed)
      {
        var edgeId := edges[i];
        var endPct := if i == |edges| - 1 then Num(1.0) else Ratio(lengths[i], totalLength);
        var assoc := [WeightedAssociation(TrafficAssociation(segmentId, beginPct, endPct), 1.0)];
        RecordAt(edges, segmentId, lengths, totalLength, i);
        assert ws[i] == Write(edgeId, assoc);
        WriteAllSnoc(old(tiles), ws, i);
        AddAssociation(edgeId, assoc);
        beginPct := endPct;
        i := i + 1;
      }
      assert ws[..i] == ws;
    }

    method SaveChunkForLater(edges: seq<GraphId>, segmentId: GraphId)
      requires Valid()
      modifies this
      ensures Valid()
      ensures partialChunks == old(partialChunks) + [PartialChunk(edges, [segmentId])]
      ensures tiles == old(tiles) && flushed == old(flushed)
    {
      partialChunks := partialChunks + [PartialChunk(edges, [segmentId])];
    }

    /** Matches one segment and records the result according to its outcome. */
    method MatchSegment(segmentId: GraphId, s: Segment)
      requires Valid()
      modifies this
      ensures Valid()
      ensures State() == ApplySegment(old(State()), reader, segmentId, s)
      ensures flushed == old(flushed)
    {
      var edges, _ := MatchEdges(reader, s);
      if |edges| == 0 {
        return;
      }
      if s.startAgrees && s.endAgrees {
        if |edges| == 1 {
          AssignOneToOne(edges[0], segmentId);
        } else {
          AssignOneToMany(edges, segmentId);
        }
      } else {
        SaveChunkForLater(edges, segmentId);
      }
    }

    /** Matches every segment entry of a tile, numbering entries from the tile's base id. */
    method AddTile(baseId: GraphId, entries: seq<Entry>)
      requires Valid()
      modifies this
      ensures Valid()
      ensures State() == ApplyAll(old(State()), reader, NumberedSegments(baseId, entries))
      ensures flushed == old(flushed)
    {
      var entryId := 0;
      while entryId < |entries|
        invariant 0 <= entryId <= |entries|
        invariant Valid()
        invariant State() == ApplyAll(old(State()), reader, NumberedSegments(baseId, entries[..entryId]))
        invariant flushed == old(flushed)
      {
        AddTileStep(old(State()), reader, baseId, entries, entryId);
        var entry := entries[entryId];
        if entry.SegmentEntry? {
          MatchSegment(Plus(baseId, entryId), entry.segment);
        }
        entryId := entryId + 1;
      }
      assert entries[..entryId] == entries;
    }

    /**
     * Flushes every builder once, in some order, and drops them all; the
     * partial chunks are kept as they are. `order` is the order of the
     * tiles in the map, which the model does not fix.
     */
    method Finish() returns (ghost order: seq<GraphId>)
      requires Valid()
      modifies this
      ensures Valid()
      ensures tiles == map[] && partialChunks == old(partialChunks)
      ensures forall t :: t in order <==> t in old(tiles)
      ensures forall i, j :: 0 <= i < j < |order| ==> order[i] != order[j]
      ensures flushed == old(flushed) + Builders(old(tiles), order)
    {
      var remaining := tiles.Keys;
      order := [];
      while remaining != {}
        invariant tiles == old(tiles) && partialChunks == old(partialChunks)
        invariant remaining <= tiles.Keys
        invariant forall t :: t in order <==> t in tiles && t !in remaining
        invariant forall i, j :: 0 <= i < j < |order| ==> order[i] != order[j]
        invariant flushed == old(flushed) + Builders(tiles, order)
        decreases remaining
      {
        var t :| t in remaining;
        BuildersSnoc(tiles, order, t);
        AppendOne(old(flushed), Builders(tiles, order), tiles[t]);
        flushed := flushed + [tiles[t]];
        order := order + [t];
        remaining := remaining - {t};
      }
      tiles := map[];
    }
  }
}
