/**
 * Valhalla graph identifiers (baldr::GraphId), as far as the association
 * tool uses them: a tile, a hierarchy level and an index inside the tile.
 * The 64-bit packing of the three fields is not modelled.
 */
module GraphIds {

  datatype GraphId = GraphId(tileid: nat, level: nat, id: nat)

  /** GraphId::Tile_Base(): the identifier of the tile that holds `g`. */
  function TileBase(g: GraphId): (b: GraphId)
    ensures b.tileid == g.tileid && b.level == g.level && b.id == 0
  {
    GraphId(g.tileid, g.level, 0)
  }

  /** GraphId::operator+(offset): the same tile and level, `offset` entries further on. */
  function Plus(g: GraphId, offset: nat): (r: GraphId)
    ensures TileBase(r) == TileBase(g)
    ensures r.id == g.id + offset
  {
    GraphId(g.tileid, g.level, g.id + offset)
  }

  /** A tile base is its own tile base. */
  predicate IsTileBase(g: GraphId) {
    g.id == 0
  }
}
