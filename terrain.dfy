/**
 * The tile index of UselessEngine/GameWorldTerrain.swift: tiles keyed by
 * the grid position their position rounds to.
 */
module LegacyTerrain {
  import opened Wrappers
  import opened Numeric
  import opened LegacyGeometry
  import opened LegacyTile

  /** `UnitPosition`. */
  type Key = (int, int)

  /** `gridPosition(from:)`: each coordinate divided by the tile size and rounded (not floored). */
  function GridPosition(x: real, y: real, tileWidth: real, tileHeight: real): Key
    requires tileWidth != 0.0 && tileHeight != 0.0
  {
    (Round(x / tileWidth), Round(y / tileHeight))
  }

  /** Points within half a tile of a tile's position share its key; whole multiples of the size key to the multiple. */
  lemma GridPositionOfMultiple(i: int, j: int, tileWidth: real, tileHeight: real)
    requires tileWidth != 0.0 && tileHeight != 0.0
    ensures GridPosition(i as real * tileWidth, j as real * tileHeight, tileWidth, tileHeight) == (i, j)
  {
    assert i as real * tileWidth / tileWidth == i as real;
    assert j as real * tileHeight / tileHeight == j as real;
    RoundOfInteger(i);
    RoundOfInteger(j);
  }

  /** Rounding, not flooring: a point just below a key's midpoint with the next key belongs to that key. */
  lemma RoundsToNearest()
    ensures GridPosition(1.4, -1.4, 1.0, 1.0) == (1, -1)
    ensures GridPosition(1.5, -1.5, 1.0, 1.0) == (2, -2)
  {
  }

  class Terrain {
    /** `tileSize`, set once. */
    const tileWidth: real
    const tileHeight: real
    var tiles: set<GameTile>
    var tileByGridPosition: map<Key, GameTile>

    /** Every indexed tile is in `tiles`. */
    predicate Valid()
      reads this
    {
      && tileWidth != 0.0 && tileHeight != 0.0
      && forall k :: k in tileByGridPosition ==> tileByGridPosition[k] in tiles
    }

    /** `init(tileSize:)`; a zero size would make every key computation trap. */
    constructor (width: real, height: real)
      requires width != 0.0 && height != 0.0
      ensures Valid() && tileWidth == width && tileHeight == height
      ensures tiles == {} && tileByGridPosition == map[]
    {
      tileWidth, tileHeight := width, height;
      tiles, tileByGridPosition := {}, map[];
    }

    /** `tile(at:)`. */
    function TileAt(x: real, y: real): (r: Option<GameTile>)
      requires Valid()
      reads this
      ensures r.Some? <==> GridPosition(x, y, tileWidth, tileHeight) in tileByGridPosition
      ensures r.Some? ==> r.value in tiles
    {
      var k := GridPosition(x, y, tileWidth, tileHeight);
      if k in tileByGridPosition then Some(tileByGridPosition[k]) else None
    }

    /**
     * `add(tile:)`: refused, with nothing changed, when the tile's key is
     * taken; otherwise indexed under its key and inserted into `tiles`, so
     * that `tile(at:)` at its position finds it.
     */
    method Add(tile: GameTile) returns (success: bool)
      requires Valid()
      modifies this
      ensures Valid()
      ensures var k := GridPosition(tile.position.x, tile.position.y, tileWidth, tileHeight);
        && (success <==> k !in old(tileByGridPosition))
        && (success ==> tileByGridPosition == old(tileByGridPosition)[k := tile] && tiles == old(tiles) + {tile})
        && (!success ==> tileByGridPosition == old(tileByGridPosition) && tiles == old(tiles))
      ensures success ==> TileAt(tile.position.x, tile.position.y) == Some(tile)
    {
      var k := GridPosition(tile.position.x, tile.position.y, tileWidth, tileHeight);
      if k in tileByGridPosition {
        return false;
      }
      tileByGridPosition := tileByGridPosition[k := tile];
      tiles := tiles + {tile};
      return true;
    }

    /**
     * `elevation(at:)`: 0 where no tile is indexed; otherwise the tile's
     * profile, `profile(elevation, offset)`, at the point's offset from the
     * tile's position.
     */
    function Elevation(x: real, y: real, profile: (int, Position) -> real): (e: real)
      requires Valid()
      reads this, tileByGridPosition.Values
      ensures TileAt(x, y).None? ==> e == 0.0
      ensures TileAt(x, y).Some? ==>
        var t := TileAt(x, y).value;
        e == profile(t.elevation, PlaneMinus(Plane(x, y), t.position))
    {
      match TileAt(x, y)
      case None => 0.0
      case Some(t) =>
        assert t in tileByGridPosition.Values;
        profile(t.elevation, PlaneMinus(Plane(x, y), t.position))
    }
  }
}
