# valhalla_associate_segments, modelled in Dafny

`valhalla_associate_segments` associates OpenTraffic (OSMLR) traffic
segments with the edges of a Valhalla routing graph. For every segment of a
traffic tile it does the following:

- Matches the segment's location reference points, sub-leg by sub-leg, to a
  path of graph edges. It uses the nearest-edge search and A* with a
  distance-only cost model.
- Removes consecutive duplicate edge ids from the path.
- Classifies the match:
  - unmatched;
  - one edge covering the whole segment;
  - several edges splitting the segment by their lengths;
  - a partial match kept for later.
- Writes the resulting traffic associations into one tile builder per graph
  tile. `finish()` flushes every builder.

The model covers the rules and the state of the tool. The graph, the
spatial search, A* and the float geometry are replaced by their answers.

| file | module | models |
|---|---|---|
| `wrappers.dfy` | `Wrappers` | `Option` |
| `graph_ids.dfy` | `GraphIds` | `GraphId`, `Tile_Base()`, `operator+` |
| `edges.dfy` | `Edges` | `edge_pred`, `check_access`, `is_oneway`, `FormOfWay`, `form_of_way` |
| `cost.dfy` | `DistanceOnlyCost` | the `DistanceOnlyCost` cost adapter |
| `polyline.dfy` | `Polyline` | `chop_subsegment` |
| `scoring.dfy` | `Scoring` | the per-sub-leg score, the bearing difference and the `uint32_t` sum of `match_edges` |
| `dedupe.dfy` | `Dedupe` | `std::unique` + `erase` on the matched edge ids |
| `matcher.dfy` | `Matcher` | `match_edges` |
| `association.dfy` | `Association` | `edge_association`: `match_segment`, `builder_for_edge`, `assign_one_to_one`, `assign_one_to_many`, `save_chunk_for_later`, `add_tile`'s numbering, `finish` |

Modelling choices:

- **Imperative parts.** Code that works step by step is imperative Dafny,
  proved against pure functions that define their results. That covers the loop of
  `chop_subsegment`, the sub-leg loop of `match_edges`, the in-place unique
  over an array, the two loops of `assign_one_to_many`, the numbering loop
  of `add_tile` and the flush loop of `finish`.
- **`edge_association`.** It is a class, `Association.EdgeAssociation`. Its
  `tiles` field is a map from tile base to builder. Its `partialChunks`
  field is a sequence. Its `flushed` field logs the builders `finish()`
  flushed.
- **Tile builders.** Each builder is a value: the tile it writes and the
  association writes it received, in order. `AddTrafficSegmentAssociation`
  is an append to that log.
- **Graph access.** The graph reader is a function from edge id to a
  directed-edge record. The record carries only the attributes the rules
  read: use, transition, shortcut, link and roundabout flags, the access
  masks, road class and length.
- **Answers of the outside world.** Each segment carries, in a
  `Matcher.SegmentOracle`:
  - the search results near each location reference;
  - the A* path of each sub-leg;
  - whether that path ends within 10 m of the next reference;
  - whether the matched path's start and end are `approx_equal` to the
    segment's ends.
- **Float percentages.** `float` percentages are `real`. A division by
  zero gives `NaN` (0/0) or an infinity, the other values of
  `Association.Pct`. `assign_one_to_many` computes 0/0 when every edge has
  length zero.
- **Unsigned sum.** The `uint32_t` sum of elapsed times wraps modulo 2^32
  explicitly. `int(...)` of a `uint32_t` is its two's complement reading.

### Behaviour of the code worth noting

- **Chop at the whole length.** When `chop_subsegment` is asked for exactly
  the polyline's length and every segment has positive length, the cut
  falls inside the last segment at fraction 1. The loop breaks, so the
  remainder is not cleared: it holds the last point twice
  (`Polyline.ChopWholeLength`). Only a strictly longer distance empties the
  remainder. With zero-length segments at the end, the cut falls earlier,
  at the first point where the whole length is reached.
- **Chop at zero.** When the first segment has positive length, chopping
  zero length returns two points, the first point and the cut at
  fraction 0. The remainder is the polyline unchanged
  (`Polyline.ChopZero`).
- **Bearing range.** A heading below 360 that is rounded to a whole degree
  can become 360, so bearings lie in [0, 360]. On that range the
  correction for a negative difference is never taken
  (`Scoring.BearingDiffProperties`).
- **The score.** It is computed for every sub-leg and then dropped. It
  never rejects a match (`Matcher.ScoreDoesNotGate`).
- **Revisited edges.** Only adjacent duplicate ids collapse. A path that
  comes back to an edge after another edge keeps both visits, and a
  one-to-many match then writes two records for the same segment to that
  edge (`Association.RevisitedEdgeWrittenTwice`).

## Model

| member | source | states |
|---|---|---|
| GraphIds.TileBase | src/valhalla_associate_segments.cc:536 | the tile base keeps the tile and level of the id and has index 0 |
| GraphIds.Plus | src/valhalla_associate_segments.cc:613 | `base_id + entry_id` stays in the same tile and level, with the index advanced by the offset |
| Edges.EdgePred | src/valhalla_associate_segments.cc:154-159 | holds exactly when the edge is not a ferry, not a transit connection and not a transition up or down: the access rule with the shortcut flag and the access bits set aside; every edge under the access rule passes it |
| Edges.CheckAccess | src/valhalla_associate_segments.cc:154-181 | holds exactly when the edge is not a shortcut, not a ferry, not a transit connection, not a transition up or down, and its forward mask (within kAllAccess) admits a vehicular mode |
| Edges.IsOneway | src/valhalla_associate_segments.cc:183-189 | holds exactly when no vehicular mode is allowed in the reverse access mask |
| Edges.FowCodeInjective | src/valhalla_associate_segments.cc:191-200 | the eight form-of-way values have distinct codes |
| Edges.FormOfWayOf | src/valhalla_associate_segments.cc:217-246 | each outcome holds exactly under its rule with all earlier rules failing; link gives SlipRoad whatever else holds; never Undefined or TrafficSquare |
| Edges.FormOfWayIsFirstMatch | src/valhalla_associate_segments.cc:217-246 | form_of_way is the first-match reading of the ordered rule list link, roundabout, motorway-and-oneway, tertiary-and-oneway, tertiary, with Other as the fallback |
| DistanceOnlyCost.AccessMode | src/valhalla_associate_segments.cc:276-280 | the access mode has the auto, truck, taxi, bus and HOV bits and none of pedestrian, bicycle or emergency |
| DistanceOnlyCost.Allowed | src/valhalla_associate_segments.cc:282-287 | forward traversal is allowed exactly under the access rule |
| DistanceOnlyCost.AllowedReverse | src/valhalla_associate_segments.cc:289-295 | reverse traversal is allowed exactly under the same access rule, applied to the edge itself |
| DistanceOnlyCost.AllowedNode | src/valhalla_associate_segments.cc:297-299 | every node is allowed |
| DistanceOnlyCost.EdgeCost | src/valhalla_associate_segments.cc:301-304 | cost and elapsed time of an edge both equal its length |
| DistanceOnlyCost.EdgeFilter | src/valhalla_associate_segments.cc:306-310 | the edge filter is 1.0 exactly for edges under the access rule and 0.0 exactly for the others |
| DistanceOnlyCost.NodeFilter | src/valhalla_associate_segments.cc:312-316 | no node is filtered out |
| DistanceOnlyCost.AStarCostFactor | src/valhalla_associate_segments.cc:318-320 | the A* heuristic is unscaled (factor 1.0) |
| DistanceOnlyCost.PathCostIsLength | src/valhalla_associate_segments.cc:301-304 | a path's summed cost and summed time are both its summed length, so the cheapest path is the shortest |
| DistanceOnlyCost.FiltersAgree | src/valhalla_associate_segments.cc:282-310 | Allowed, AllowedReverse, check_access and the edge filter give the same answer for every edge |
| Polyline.LengthToGrows | src/valhalla_associate_segments.cc:63-79 | with positive segment lengths, the accumulated length strictly grows along the polyline |
| Polyline.LengthToMonotone | src/valhalla_associate_segments.cc:63-79 | with no negative segment length, the accumulated length never shrinks along the polyline |
| Polyline.CutFrom | src/valhalla_associate_segments.cc:65-80 | the loop's stopping index: the first index from the start at which the accumulated length reaches the distance, or the end |
| Polyline.CutIndex | src/valhalla_associate_segments.cc:64-80 | the value of `i` when the loop stops, between 1 and the number of points |
| Polyline.CutStepPositive | src/valhalla_associate_segments.cc:66-68 | the segment the cut falls in has positive length, so the fraction at line 68 never divides by zero |
| Polyline.CutPoint | src/valhalla_associate_segments.cc:66-69 | the interpolated point at fraction (distance minus length so far) over the length of the cut segment |
| Polyline.Chop | src/valhalla_associate_segments.cc:57-88 | the piece taken and the remainder, characterised by Polyline.ChopSplits, ChopZero and ChopWholeLength |
| Polyline.CutInside | src/valhalla_associate_segments.cc:65-85 | the loop breaks (the cut falls inside the polyline) exactly when the polyline's length is at least the distance |
| Polyline.ChopSubsegment | src/valhalla_associate_segments.cc:57-88 | the imperative chop's two results, the piece taken (`result`) and the remainder the code leaves in `seg` (`rest`), are exactly the two pieces `Polyline.Chop` defines |
| Polyline.ChopSplits | src/valhalla_associate_segments.cc:57-88 | the result starts at seg[0] and has at least two points. A shorter polyline is taken whole and the argument is emptied. Otherwise the cut falls at the first point whose accumulated length reaches the distance: the result is the points before that index followed by the cut point, the remainder is the cut point followed by the points from that index on, and together they give the polyline with the cut point inserted |
| Polyline.ChopZero | src/valhalla_associate_segments.cc:57-88 | when the first segment has positive length, chopping zero gives [seg[0], seg[0]] and leaves the polyline unchanged |
| Polyline.ChopWholeLength | src/valhalla_associate_segments.cc:57-88 | when every segment has positive length, chopping exactly the whole length returns the whole polyline but leaves the last point twice in the argument |
| Polyline.CutAtLast | src/valhalla_associate_segments.cc:65-75 | when every segment has positive length, a distance equal to the polyline's length is cut in its last segment |
| Scoring.WrappingSum | src/valhalla_associate_segments.cc:406-412 | the uint32_t running sum of the elapsed times; Scoring.WrappingSumIsModular gives its value |
| Scoring.WrappingSumIsModular | src/valhalla_associate_segments.cc:405-412 | the uint32_t running sum of elapsed times is the exact sum modulo 2^32 |
| Scoring.AsInt32 | src/valhalla_associate_segments.cc:413 | int(x) of a uint32_t lies in the int32 range and agrees with x modulo 2^32 |
| Scoring.LengthTerm | src/valhalla_associate_segments.cc:413 | for operands below 2^31, the length term is the absolute length difference divided by 10 |
| Scoring.ClassTerm | src/valhalla_associate_segments.cc:424 | the road-class term is zero exactly when the declared and the matched classes are equal |
| Scoring.Div10 | src/valhalla_associate_segments.cc:413-441 | C++ integer division by 10: the quotient's magnitude is the dividend's magnitude divided by 10 and rounded down, and a non-zero quotient has the dividend's sign |
| Scoring.BearingFold | src/valhalla_associate_segments.cc:434-437 | the absolute difference folded onto the short way round; non-negative for bearings in range (Scoring.BearingDiffProperties) |
| Scoring.BearingDiff | src/valhalla_associate_segments.cc:432-441 | the bearing difference after the correction for negative values, characterised by Scoring.BearingDiffProperties |
| Scoring.BearingDiffProperties | src/valhalla_associate_segments.cc:432-441 | for bearings in [0, 360], the difference lies in [0, 180], is symmetric, equals the short-way angle between the bearings, and the less-than-zero correction is never reached |
| Scoring.BearingDiffOutOfRange | src/valhalla_associate_segments.cc:432-441 | outside that range the fold can be negative (0 against 1000 gives -640), the single +360 correction leaves it negative (-280), and the bearing term then rounds toward zero (-285 gives -28) |
| Scoring.FowTerm | src/valhalla_associate_segments.cc:451-454 | the form-of-way term is 0 when the edge's form of way has the declared code and 5 otherwise |
| Scoring.LegScore | src/valhalla_associate_segments.cc:405-454 | the sum of the five terms that match_edges adds up for a sub-leg, with the bearing term divided toward zero; Matcher.MatchEdges computes it for each sub-leg |
| Scoring.LegScoreZero | src/valhalla_associate_segments.cc:405-454 | for bearings in range the sub-leg score is non-negative, and it is zero exactly when the length term, class term, offset and bearing term are zero and the form of way agrees |
| Dedupe.Unique | src/valhalla_associate_segments.cc:465-466 | the in-place unique over an array leaves, before the returned end, exactly the run-collapsed input |
| Dedupe.DedupNoAdjacent | src/valhalla_associate_segments.cc:465-466 | after the collapse no two adjacent ids are equal and the result is no longer than the input; a non-empty input keeps its first and last id |
| Dedupe.DedupEnds | src/valhalla_associate_segments.cc:465-466 | a non-empty input collapses to a non-empty result with the same first and last element |
| Dedupe.DedupCollapsesRuns | src/valhalla_associate_segments.cc:465-466 | the input is recovered by repeating each kept id by its positive run length, so the result is the input with each run of equal ids collapsed to one |
| Dedupe.DedupOfExpand | src/valhalla_associate_segments.cc:465-466 | repeating each element of an adjacent-distinct sequence a positive number of times and collapsing gives that sequence back |
| Dedupe.DedupIdempotent | src/valhalla_associate_segments.cc:465-466 | collapsing twice is the same as collapsing once |
| Matcher.FindCandidate | src/valhalla_associate_segments.cc:426-449 | the search over the origin's edges finds nothing exactly when no candidate has the id; otherwise it finds the first candidate with the id |
| Matcher.FindAtOrigin | src/valhalla_associate_segments.cc:426-449 | the loop over the origin's edges, with its break, returns that first candidate |
| Matcher.LegFailure | src/valhalla_associate_segments.cc:373-449 | a sub-leg passes exactly when a destination was found, the path is non-empty, ends near the next point, starts on an accessible edge, and that edge is among the origin's candidates |
| Matcher.PathIds | src/valhalla_associate_segments.cc:456-458 | the ids appended for a path are its edge ids, one per path entry, in order |
| Matcher.FailureFrom | src/valhalla_associate_segments.cc:366-462 | the first failing sub-leg from leg i on, where each sub-leg's destination becomes the next one's origin; Matcher.AllLegsPass states what the absence of a failure implies |
| Matcher.MatchFailure | src/valhalla_associate_segments.cc:358-449 | which early return of match_edges fires, if any; Matcher.MatchedEdgesEmpty ties it to the empty result |
| Matcher.MatchedEdges | src/valhalla_associate_segments.cc:349-469 | what match_edges returns: nothing on a failure, otherwise the collapsed concatenation of the paths' ids; characterised by Matcher.MatchedEdgesShape |
| Matcher.AllLegsPass | src/valhalla_associate_segments.cc:366-462 | when no sub-leg fails, every sub-leg found a destination, has a non-empty path that ends near its target and starts on an accessible edge, and the concatenated ids start with the first path's first edge |
| Matcher.MatchedEdgesEmpty | src/valhalla_associate_segments.cc:349-469 | match_edges returns an empty list exactly when one of its early returns fires |
| Matcher.MatchedLegsAccessible | src/valhalla_associate_segments.cc:415-422 | in a successful match the first edge of every sub-leg's path satisfies the access rule |
| Matcher.MatchedEdgesShape | src/valhalla_associate_segments.cc:349-469 | a successful match is non-empty, has no adjacent duplicates, starts with the first path's first edge and ends with the last path's last edge |
| Matcher.ScoreDoesNotGate | src/valhalla_associate_segments.cc:405-454 | the location references' length, bearing, class and form of way, which feed only the score, do not change the matched edges |
| Matcher.SumElapsed | src/valhalla_associate_segments.cc:406-412 | the loop's uint32_t sum equals the wrapping sum of the path's elapsed times, which is the exact sum modulo 2^32 |
| Matcher.AppendPathIds | src/valhalla_associate_segments.cc:456-458 | the edges list grows by exactly the path's edge ids, in order |
| Matcher.UniqueErase | src/valhalla_associate_segments.cc:464-466 | unique followed by erase gives the run-collapsed list |
| Matcher.MatchEdges | src/valhalla_associate_segments.cc:349-469 | the imperative sub-leg loop returns exactly `Matcher.MatchedEdges` and the failure reason `Matcher.MatchFailure` |
| Association.Ratio | src/valhalla_associate_segments.cc:575 | float division: the quotient for a non-zero divisor; for a zero divisor NaN exactly when the numerator is zero, and otherwise an infinity of the numerator's sign |
| Association.WithBuilder | src/valhalla_associate_segments.cc:535-546 | lookup-or-insert: the key set gains exactly the tile; a present tile leaves the map unchanged; other entries are never changed; a new tile gets an empty builder |
| Association.AddWrite | src/valhalla_associate_segments.cc:555 | `builder_for_edge(edge_id).AddTrafficSegmentAssociation(...)` on the builder map, characterised by Association.AddWriteRoutes |
| Association.WriteAll | src/valhalla_associate_segments.cc:573-581 | the builder map after a sequence of writes, characterised by Association.WriteAllRoutes |
| Association.WritesFor | src/valhalla_associate_segments.cc:573-581 | the writes of a sequence whose edge lies in a given tile, in order; each one is in the sequence and in that tile |
| Association.AddWriteRoutes | src/valhalla_associate_segments.cc:535-556 | a write reaches only the builder of its edge's tile base (creating it when absent) and is appended to its log; every other builder is unchanged |
| Association.WriteAllRoutes | src/valhalla_associate_segments.cc:573-581 | after a sequence of writes a tile has a builder exactly when it had one or some write is on one of its edges, and its log is the old log followed by exactly those writes, in order |
| Association.WriteAllWellKeyed | src/valhalla_associate_segments.cc:535-546 | writes keep at most one builder per tile base, each keyed by the tile it writes |
| Association.Lengths | src/valhalla_associate_segments.cc:564-569 | one length per edge, read from the graph |
| Association.OneToOneWrite | src/valhalla_associate_segments.cc:552-555 | the single whole-segment record (segment, 0.0, 1.0) with weight 1.0; Association.MatchSegmentOutcomes states it is the only write of a one-to-one match |
| Association.CumulativeAt | src/valhalla_associate_segments.cc:562-569 | the i-th running total is the length of the first i+1 edges |
| Association.EndPct | src/valhalla_associate_segments.cc:575 | the last edge ends at 1.0 and the others at their running total over the total, by float division (Association.Ratio) |
| Association.BeginPct | src/valhalla_associate_segments.cc:571-580 | the first edge begins at 0.0 and each other edge where the previous one ends |
| Association.Records | src/valhalla_associate_segments.cc:571-581 | one single-record write per edge, in edge order; Association.RecordAt gives each |
| Association.OneToManyWrites | src/valhalla_associate_segments.cc:559-582 | the writes of assign_one_to_many for the edges' lengths, characterised by Association.OneToManyRanges, OneToManyZeroLength and OneToManyTwoEdges |
| Association.OneToManyRanges | src/valhalla_associate_segments.cc:559-582 | k edges give k records in edge order, each with weight 1 and the segment's id. The first begins at 0, the last ends at exactly 1, and each begins where the previous ends. With a positive total, every bound is a number and 0 <= begin <= end <= 1 |
| Association.OneToManyZeroLength | src/valhalla_associate_segments.cc:571-581 | with all lengths zero, every inner bound is NaN |
| Association.OneToManyTwoEdges | src/valhalla_associate_segments.cc:559-582 | edges of lengths 30 and 70 get the ranges 0 to 0.3 and 0.3 to 1 |
| Association.RevisitedEdgeWrittenTwice | src/valhalla_associate_segments.cc:464-466 | a path a, b, a keeps both visits to a after the collapse, and a one-to-many match writes a record for the same segment to a twice |
| Association.Classify | src/valhalla_associate_segments.cc:502-533 | unmatched exactly for no edges; one-to-one exactly for one edge with both ends agreeing; one-to-many exactly for several edges with both ends agreeing; deferred exactly when some edge matched but an end disagrees |
| Association.ApplyMatch | src/valhalla_associate_segments.cc:504-532 | the effect of the classification on the builders and the chunks, characterised by Association.MatchSegmentOutcomes |
| Association.ApplySegment | src/valhalla_associate_segments.cc:502-533 | match_segment on the state: ApplyMatch of match_edges' result and the endpoint agreement |
| Association.MatchSegmentOutcomes | src/valhalla_associate_segments.cc:502-533 | an empty match changes nothing. A deferred match appends one chunk (edges, [segment]) and touches no builder. A one-edge match adds exactly the record (segment, 0, 1) with weight 1 to that edge's tile and saves no chunk. A several-edge match appends the one-to-many records to their tiles' builders and saves no chunk |
| Association.ApplyMatchWellKeyed | src/valhalla_associate_segments.cc:502-533 | matching a segment keeps one builder per tile base |
| Association.NumberedSegments | src/valhalla_associate_segments.cc:607-617 | the segment entries of a tile with the ids add_tile gives them, characterised by Association.NumberingByPosition |
| Association.ApplyAll | src/valhalla_associate_segments.cc:608-617 | the state after matching the numbered segments in order |
| Association.SegmentPositions | src/valhalla_associate_segments.cc:607-617 | the positions of the segment entries of a tile, all of them, in increasing order |
| Association.NumberingByPosition | src/valhalla_associate_segments.cc:604-617 | the k-th segment matched has id base + its position among all entries, markers included; the ids stay in the base's tile, are below base + entry count, and strictly increase |
| Association.Builders | src/valhalla_associate_segments.cc:625-627 | the builders of a list of tiles, one per tile, in the list's order |
| Association.EdgeAssociation.constructor | src/valhalla_associate_segments.cc:342-347 | a new association has no builders, no chunks and has flushed nothing |
| Association.EdgeAssociation.BuilderForEdge | src/valhalla_associate_segments.cc:535-546 | returns the builder of the edge's tile base. A present tile leaves the map unchanged and returns its builder. A new tile adds exactly that key with an empty builder and changes no other entry |
| Association.EdgeAssociation.AddAssociation | src/valhalla_associate_segments.cc:555 | the write is appended to the builder of the edge's tile, created when absent |
| Association.EdgeAssociation.AssignOneToOne | src/valhalla_associate_segments.cc:549-556 | appends the single record (segment, 0.0, 1.0) with weight 1.0 to the edge's builder |
| Association.EdgeAssociation.RunningLengths | src/valhalla_associate_segments.cc:562-569 | the first loop computes the total length and the running totals of the edges' lengths |
| Association.EdgeAssociation.WriteRecords | src/valhalla_associate_segments.cc:571-581 | the second loop appends the one-to-many records, in edge order, each to its edge's builder |
| Association.EdgeAssociation.AssignOneToMany | src/valhalla_associate_segments.cc:559-582 | the builders end up exactly as after applying the one-to-many records of the edges' lengths in order |
| Association.EdgeAssociation.SaveChunkForLater | src/valhalla_associate_segments.cc:584-589 | appends exactly the chunk (edges, [segment]) and touches no builder |
| Association.EdgeAssociation.MatchSegment | src/valhalla_associate_segments.cc:502-533 | the new builders and chunks are those `Association.ApplySegment` gives for the segment's matched edges and endpoint agreement |
| Association.EdgeAssociation.AddTile | src/valhalla_associate_segments.cc:604-617 | the state is that of matching, in order, every segment entry under id base + its entry position |
| Association.EdgeAssociation.Finish | src/valhalla_associate_segments.cc:620-629 | every builder present is flushed exactly once, in some order, and the builder map is left empty; chunks are kept |

## Left out

- `main` (command-line options, configuration, logging set-up, walking the tile directory) is I/O and is not modelled.
- Reading and decoding the protobuf traffic tile in `add_tile`, and `parse_file_name`, are I/O. `Association.EdgeAssociation.AddTile` takes the tile's base id and its entries.
- `loki_search_single`/`vl::Search`, `AStarPathAlgorithm::GetBestPath`/`Clear`, and the graph reader's tile and node access are outside code. They enter as data in a `Matcher.SegmentOracle`: the search results near the first point, and, in each `Matcher.Leg`, the search results, the path and the 10 m end check. `lookup_start_coord` and `lookup_end_coord` enter only through the two `approx_equal` answers, `startAgrees` and `endAgrees`.
- `coord_for_lrp`, `approx_equal` with its squared-distance threshold of 100, `interp`/`AffineCombination`, `Distance` and `HeadingAlongPolyline` are float geometry. `approx_equal`'s two answers are booleans of the segment. The distance and interpolation of `chop_subsegment` are function parameters. The offset term `int(e.projected.Distance(coord))` and the edge bearing `bearing(tile, edge, dist)` are given per candidate edge.
- `bearing` (both overloads) is not modelled beyond the value it supplies, which depends on `HeadingAlongPolyline`.
- `GraphTileBuilder` internals are outside code. `InitializeTrafficSegments` is the empty log of a new builder, `AddTrafficSegmentAssociation` is an append, and `UpdateTrafficSegments` is an entry in the flush log.
- The partial chunks are only collected, as the code leaves their resolution unimplemented.
- `std::to_string`, `operator<<` for `FormOfWay` and every `LOG_WARN` are diagnostics and are not modelled. `Matcher.MatchError` records which early return fired.
- Valhalla's graph constants are not part of this model. The access bits use their usual values, kAllAccess is taken as 255 (all modes), and road classes are naturals with motorway 0 and tertiary 4.
- Polyline.ChopSubsegment: requires no negative segment length (distances are never negative) and, for a distance of 0, a first segment of positive length. The code only asserts at least two points; in that excluded case it computes the fraction 0/0, a NaN that exact reals do not have. Repeated points elsewhere are allowed.
- Polyline.ChopSubsegment: lengths and the requested distance are exact reals, not `double`.
- Scoring.BearingDiffProperties: stated for bearings in [0, 360], the range of the rounded headings and the declared bearings; Scoring.BearingDiffOutOfRange shows it fails outside.
- Scoring.LengthTerm: relates to the plain length difference only when both values are below 2^31. A subtraction that overflows int32 (undefined in C++) is taken exactly.
- Scoring.BearingFold: `bear1 - bear2` is taken exactly. In the code, `int(lrp.bear())` can be negative and the `int` subtraction can then overflow (undefined in C++); the score is discarded, so no result depends on it.
- Matcher.MatchEdges: computes each sub-leg's score through `Scoring.LegScore` and returns none, since the code discards it. The declared road class `lrp.start_frc()` is taken as a natural number: its conversion to the `RoadClass` enum, which is not part of this model, is left out. The declared bearing is converted to `int` as the code does, and the bearing term divides toward zero as C++ does.
- Association.EdgeAssociation.Finish: the order of `unordered_map` iteration is not fixed. The flush order is a ghost result about which only distinctness and coverage are stated.
- Association.Ratio: single-precision rounding and the sign of zero are not modelled; division by zero is.
- GraphIds.Plus: the 64-bit packing of a GraphId (tile, level and a 21-bit index) is not modelled. In particular, an index of `base_id + entry_id` that overflows its 21 bits is not.
