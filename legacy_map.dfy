/**
 * The older tile map in src/map.rs: the same row-major grid as `Grid.Map`, with
 * tiles that are `solid` rather than `wall`, no wrapped access, and a
 * `CaveMap` that owns a map and the generator's settings.
 */
module LegacyMap {
  import opened Options
  import Grid

  /** `Tile`: one cell, solid rock or open. */
  datatype Tile = Tile(solid: bool)

  /** `Display for Tile`: a full block when solid, a space otherwise. */
  function TileGlyph(t: Tile): (c: char)
    ensures c == '█' <==> t.solid
    ensures c == ' ' <==> !t.solid
  {
    if t.solid then '█' else ' '
  }

  class Map {
    const width: nat
    const height: nat
    var tiles: seq<Tile>

    /** The tile vector holds exactly `width * height` tiles. */
    ghost predicate Valid()
      reads this
    {
      |tiles| == width * height
    }

    /** `Map::new`: every tile solid. */
    constructor (width: nat, height: nat)
      ensures this.width == width && this.height == height
      ensures Valid()
      ensures forall i :: 0 <= i < |tiles| ==> tiles[i].solid
    {
      this.width := width;
      this.height := height;
      tiles := seq(width * height, _ => Tile(true));
    }

    /** `xy_to_idx`: the row-major index, which must lie inside the tile vector. */
    function XyToIdx(x: nat, y: nat): (index: nat)
      reads this
      requires y * width + x < |tiles|
      ensures index < |tiles|
    {
      y * width + x
    }

    /** Two cells inside the grid share an index only if they are the same cell. */
    lemma XyToIdxInjective(x: nat, y: nat, x': nat, y': nat)
      requires x < width && x' < width
      requires y * width + x < |tiles| && y' * width + x' < |tiles|
      requires XyToIdx(x, y) == XyToIdx(x', y')
      ensures x == x' && y == y'
    {
      Grid.RowMajorInjective(x, y, x', y', width);
    }

    /** `get_tile`: never `None`; an index outside the tiles fails the assertion instead. */
    function GetTile(x: nat, y: nat): (t: Option<Tile>)
      reads this
      requires y * width + x < |tiles|
      ensures t.Some?
      ensures t.value == tiles[XyToIdx(x, y)]
    {
      Some(tiles[XyToIdx(x, y)])
    }

    /** `get_tile_mut(x, y).unwrap().solid = solid`: changes that one tile and no other. */
    method SetSolid(x: nat, y: nat, solid: bool)
      requires y * width + x < |tiles|
      modifies this
      ensures |tiles| == |old(tiles)|
      ensures tiles == old(tiles)[XyToIdx(x, y) := Tile(solid)]
      ensures GetTile(x, y) == Some(Tile(solid))
    {
      tiles := tiles[XyToIdx(x, y) := Tile(solid)];
    }

    /** `Display for Map`: `height` lines of `width` glyphs, each line ending in a newline. */
    method Render() returns (text: string)
      requires Valid()
      ensures text == Grid.GridText(width, height, tiles, TileGlyph)
    {
      text := "";
      var y := 0;
      while y < height
        invariant y <= height
        invariant y * width <= |tiles|
        invariant text == Grid.GridText(width, y, tiles, TileGlyph)
      {
        var x := 0;
        Grid.MulMonotone(y + 1, height, width);
        ghost var row := Grid.RowText(width, y, tiles, TileGlyph);
        while x < width
          invariant x <= width
          invariant text == Grid.GridText(width, y, tiles, TileGlyph) + row[..x]
        {
          Grid.RowMajorInRange(x, y, width, height);
          match GetTile(x, y) {
            case Some(t) => text := text + [TileGlyph(t)];
            case None => text := text + "X";
          }
          x := x + 1;
        }
        text := text + "\n";
        assert row == row[..width] + "\n";
        y := y + 1;
      }
    }
  }

  /**
   * Rendering yields `height` lines, each `width` glyphs and a newline, and
   * never the 'X' of a missing tile.
   */
  lemma RenderShape(m: Map, x: nat, y: nat)
    requires m.Valid() && x <= m.width && y < m.height
    ensures x < m.width ==> y * m.width + x < |m.tiles|
    ensures |Grid.GridText(m.width, m.height, m.tiles, TileGlyph)| == m.height * (m.width + 1)
    ensures Grid.GridText(m.width, m.height, m.tiles, TileGlyph)[y * (m.width + 1) + x] ==
              if x == m.width then '\n' else TileGlyph(m.tiles[y * m.width + x])
    ensures Grid.GridText(m.width, m.height, m.tiles, TileGlyph)[y * (m.width + 1) + x] != 'X'
  {
    if x < m.width {
      Grid.RowMajorInRange(x, y, m.width, m.height);
    }
    Grid.GridTextAt(m.width, m.height, m.tiles, TileGlyph, x, y);
  }

  class CaveMap {
    var tileMap: Map
    const edgeRepulsionDist: nat
    const coverage: real

    /**
     * `CaveMap::new`: an all-solid map with the generator's defaults, a
     * repulsion distance of 10 cells from the edges and a floor coverage of
     * 0.3. The `gen` call that then carves the cave is not part of this model.
     */
    constructor (width: nat, height: nat)
      ensures fresh(tileMap)
      ensures tileMap.width == width && tileMap.height == height && tileMap.Valid()
      ensures forall i :: 0 <= i < |tileMap.tiles| ==> tileMap.tiles[i].solid
      ensures edgeRepulsionDist == 10 && coverage == 0.3
    {
      tileMap := new Map(width, height);
      edgeRepulsionDist := 10;
      coverage := 0.3;
    }
  }
}
