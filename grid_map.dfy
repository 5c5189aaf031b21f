/**
 * The tile grid `Map` (src/maps/map.rs) and its `Tile` (src/maps/tile.rs):
 * `width * height` tiles stored row by row.
 */
module Grid {
  import opened Options

  /** `Tile`: one cell, a wall or floor. */
  datatype Tile = Tile(wall: bool)

  /** `Display for Tile`: a full block for a wall, a space for floor. */
  function TileGlyph(t: Tile): (c: char)
    ensures c == '█' <==> t.wall
    ensures c == ' ' <==> !t.wall
  {
    if t.wall then '█' else ' '
  }

  /** Multiplying by the same width keeps the order of two row numbers. */
  lemma MulMonotone(a: nat, b: nat, width: nat)
    ensures a <= b ==> a * width <= b * width
  {
    if a <= b {
      assert b * width == a * width + (b - a) * width;
    }
  }

  /** A cell inside the grid has a row-major index inside the tile vector. */
  lemma RowMajorInRange(x: nat, y: nat, width: nat, height: nat)
    requires x < width && y < height
    ensures y * width + x < width * height
  {
    MulMonotone(y + 1, height, width);
    assert (y + 1) * width == y * width + width;
  }

  /** Distinct cells of a grid `width` wide have distinct row-major indices. */
  lemma RowMajorInjective(x: nat, y: nat, x': nat, y': nat, width: nat)
    requires x < width && x' < width
    ensures y * width + x == y' * width + x' ==> x == x' && y == y'
  {
    MulMonotone(y + 1, y', width);
    MulMonotone(y' + 1, y, width);
    assert (y + 1) * width == y * width + width;
    assert (y' + 1) * width == y' * width + width;
  }

  /** `rem_euclid`: the remainder of `v` by `n`, always in `[0, n)`. */
  function Wrap(v: int, n: nat): (r: nat)
    requires n > 0
    ensures r < n
    ensures 0 <= v < n ==> r == v
  {
    v % n
  }

  /** A nonzero multiple of `n` is at least `n` away from zero. */
  lemma MulAtLeast(k: int, n: nat)
    ensures k >= 1 ==> k * n >= n
    ensures k <= -1 ==> k * n <= 0 - n
  {
    if k >= 1 { assert k * n == n + (k - 1) * n; }
    if k <= -1 { assert k * n == 0 - n + (k + 1) * n; }
  }

  /** Any split `a == q * n + r` with `0 <= r < n` gives the remainder. */
  lemma ModUnique(a: int, n: nat, q: int, r: int)
    requires n > 0 && a == q * n + r && 0 <= r < n
    ensures a % n == r
  {
    var q', r' := a / n, a % n;
    assert (q - q') * n == r' - r;
    MulAtLeast(q - q', n);
  }

  /** Wrapping forgets whole turns: `v` and `v + n` wrap to the same place. */
  lemma WrapPeriodic(v: int, n: nat)
    requires n > 0
    ensures Wrap(v + n, n) == Wrap(v, n)
  {
    ModUnique(v + n, n, v / n + 1, v % n);
  }

  /** The row-major index of the cell that `(x, y)` wraps onto in a `width` by `height` grid. */
  function WrapIndex(width: nat, height: nat, x: int, y: int): (i: nat)
    requires width > 0 && height > 0
    ensures i < width * height
    ensures 0 <= x < width && 0 <= y < height ==> i == y * width + x
  {
    RowMajorInRange(Wrap(x, width), Wrap(y, height), width, height);
    Wrap(y, height) * width + Wrap(x, width)
  }

  /** On a ring of at least two cells, a step to either side leaves the cell. */
  lemma WrapShift(v: int, n: nat)
    requires n >= 2
    ensures Wrap(v + 1, n) != Wrap(v, n)
    ensures Wrap(v - 1, n) != Wrap(v, n)
  {
    var q, r := v / n, v % n;
    if r + 1 < n {
      ModUnique(v + 1, n, q, r + 1);
    } else {
      ModUnique(v + 1, n, q + 1, 0);
    }
    if r > 0 {
      ModUnique(v - 1, n, q, r - 1);
    } else {
      ModUnique(v - 1, n, q - 1, n - 1);
    }
  }

  /**
   * In a grid at least two cells wide and high, none of the eight cells
   * around `(x, y)` wraps onto `(x, y)` itself.
   */
  lemma NeighbourIsOther(width: nat, height: nat, x: int, y: int, dx: int, dy: int)
    requires width >= 2 && height >= 2
    requires -1 <= dx <= 1 && -1 <= dy <= 1 && (dx != 0 || dy != 0)
    ensures WrapIndex(width, height, x + dx, y + dy) != WrapIndex(width, height, x, y)
  {
    WrapShift(x, width);
    WrapShift(y, height);
    RowMajorInjective(Wrap(x + dx, width), Wrap(y + dy, height), Wrap(x, width), Wrap(y, height), width);
  }

  /** One row of a rendered grid: the glyph of each of its `width` tiles, then a newline. */
  function RowText<T>(width: nat, y: nat, tiles: seq<T>, glyph: T -> char): (s: string)
    requires (y + 1) * width <= |tiles|
    ensures |s| == width + 1 && s[width] == '\n'
    ensures forall x :: 0 <= x < width ==> s[x] == glyph(tiles[y * width + x])
  {
    seq(width, x requires 0 <= x < width => glyph(tiles[y * width + x])) + "\n"
  }

  /** The first `rows` rows of a rendered grid. */
  function GridText<T>(width: nat, rows: nat, tiles: seq<T>, glyph: T -> char): (s: string)
    requires rows * width <= |tiles|
    ensures |s| == rows * (width + 1)
  {
    if rows == 0 then "" else GridText(width, rows - 1, tiles, glyph) + RowText(width, rows - 1, tiles, glyph)
  }

  /** Character `x` of line `y` of the text is the glyph of tile `(x, y)`; each line ends in a newline. */
  lemma {:induction false} GridTextAt<T>(width: nat, rows: nat, tiles: seq<T>, glyph: T -> char, x: nat, y: nat)
    requires rows * width <= |tiles|
    requires x <= width && y < rows
    ensures y * (width + 1) + x < |GridText(width, rows, tiles, glyph)|
    ensures y * width + x <= |tiles|
    ensures GridText(width, rows, tiles, glyph)[y * (width + 1) + x] ==
              if x == width then '\n' else glyph(tiles[y * width + x])
  {
    var prefix := GridText(width, rows - 1, tiles, glyph);
    assert (y + 1) * (width + 1) <= rows * (width + 1) by {
      assert rows * (width + 1) == (y + 1) * (width + 1) + (rows - y - 1) * (width + 1);
    }
    assert (y + 1) * width <= rows * width by {
      assert rows * width == (y + 1) * width + (rows - y - 1) * width;
    }
    if y < rows - 1 {
      GridTextAt(width, rows - 1, tiles, glyph, x, y);
    } else {
      assert |prefix| == y * (width + 1);
    }
  }

  class Map {
    const width: nat
    const height: nat
    var tiles: seq<Tile>

    /** The tile vector holds exactly `width * height` tiles. */
    ghost predicate Valid()
      reads this
    {
      |tiles| == width * height
    }

    /** `Map::new`: every tile a wall. */
    constructor (width: nat, height: nat)
      ensures this.width == width && this.height == height
      ensures Valid()
      ensures forall i :: 0 <= i < |tiles| ==> tiles[i].wall
    {
      this.width := width;
      this.height := height;
      tiles := seq(width * height, _ => Tile(true));
    }

    /** `xy_to_idx`: the row-major index, which must lie inside the tile vector. */
    function XyToIdx(x: nat, y: nat): (index: nat)
      reads this
      requires y * width + x < |tiles|
      ensures index < |tiles|
    {
      y * width + x
    }

    /** Two cells inside the grid share an index only if they are the same cell. */
    lemma XyToIdxInjective(x: nat, y: nat, x': nat, y': nat)
      requires x < width && x' < width
      requires y * width + x < |tiles| && y' * width + x' < |tiles|
      requires XyToIdx(x, y) == XyToIdx(x', y')
      ensures x == x' && y == y'
    {
      RowMajorInjective(x, y, x', y', width);
    }

    /** There is no check per axis: a column past the right edge lands on the next row. */
    lemma XyToIdxWraps(x: nat, y: nat)
      requires width <= x && y * width + x < |tiles|
      ensures XyToIdx(x, y) == XyToIdx(x - width, y + 1)
    {
    }

    /** `get_tile`: never `None`; an index outside the tiles fails the assertion instead. */
    function GetTile(x: nat, y: nat): (t: Option<Tile>)
      reads this
      requires y * width + x < |tiles|
      ensures t.Some?
      ensures t.value == tiles[XyToIdx(x, y)]
    {
      Some(tiles[XyToIdx(x, y)])
    }

    /** `get_tile_mut(x, y).unwrap().wall = wall`: changes that one tile and no other. */
    method SetWall(x: nat, y: nat, wall: bool)
      requires y * width + x < |tiles|
      modifies this
      ensures |tiles| == |old(tiles)|
      ensures tiles == old(tiles)[XyToIdx(x, y) := Tile(wall)]
      ensures GetTile(x, y) == Some(Tile(wall))
    {
      tiles := tiles[XyToIdx(x, y) := Tile(wall)];
    }

    /** `get_tile_modulo`: the coordinates wrap around both edges (`rem_euclid`). */
    function GetTileModulo(x: int, y: int): (t: Option<Tile>)
      reads this
      requires Valid() && width > 0 && height > 0
      ensures t == Some(tiles[WrapIndex(width, height, x, y)])
    {
      RowMajorInRange(Wrap(x, width), Wrap(y, height), width, height);
      GetTile(Wrap(x, width), Wrap(y, height))
    }

    /** Wrapped access repeats every `width` columns and every `height` rows. */
    lemma GetTileModuloPeriodic(x: int, y: int)
      requires Valid() && width > 0 && height > 0
      ensures WrapIndex(width, height, x + width, y) == WrapIndex(width, height, x, y)
      ensures WrapIndex(width, height, x, y + height) == WrapIndex(width, height, x, y)
      ensures GetTileModulo(x + width, y) == GetTileModulo(x, y)
      ensures GetTileModulo(x, y + height) == GetTileModulo(x, y)
    {
      WrapPeriodic(x, width);
      WrapPeriodic(y, height);
    }

    /** Inside the grid, wrapped access reads the same tile as `get_tile`. */
    lemma GetTileModuloInRange(x: nat, y: nat)
      requires Valid() && x < width && y < height
      ensures y * width + x < |tiles|
      ensures GetTileModulo(x, y) == GetTile(x, y)
    {
      RowMajorInRange(x, y, width, height);
    }

    /** `get_tile_modulo_mut(x, y).unwrap().wall = wall`: changes the one wrapped tile. */
    method SetWallModulo(x: int, y: int, wall: bool)
      requires Valid() && width > 0 && height > 0
      modifies this
      ensures Valid()
      ensures tiles == old(tiles)[WrapIndex(width, height, x, y) := Tile(wall)]
      ensures GetTileModulo(x, y) == Some(Tile(wall))
    {
      var col, row := Wrap(x, width), Wrap(y, height);
      RowMajorInRange(col, row, width, height);
      SetWall(col, row, wall);
    }

    /** `Display for Map`: `height` lines of `width` glyphs, each line ending in a newline. */
    method Render() returns (text: string)
      requires Valid()
      ensures text == GridText(width, height, tiles, TileGlyph)
    {
      text := "";
      var y := 0;
      while y < height
        invariant y <= height
        invariant y * width <= |tiles|
        invariant text == GridText(width, y, tiles, TileGlyph)
      {
        var x := 0;
        MulMonotone(y + 1, height, width);
        ghost var row := RowText(width, y, tiles, TileGlyph);
        while x < width
          invariant x <= width
          invariant text == GridText(width, y, tiles, TileGlyph) + row[..x]
        {
          RowMajorInRange(x, y, width, height);
          match GetTile(x, y) {
            case Some(t) => text := text + [TileGlyph(t)];
            case None => text := text + "X";
          }
          x := x + 1;
        }
        text := text + "\n";
        assert row == row[..width] + "\n";
        y := y + 1;
      }
    }
  }

  /**
   * Rendering yields `height` lines, each `width` glyphs and a newline, and
   * never the 'X' of a missing tile.
   */
  lemma RenderShape(m: Map, x: nat, y: nat)
    requires m.Valid() && x <= m.width && y < m.height
    ensures x < m.width ==> y * m.width + x < |m.tiles|
    ensures |GridText(m.width, m.height, m.tiles, TileGlyph)| == m.height * (m.width + 1)
    ensures GridText(m.width, m.height, m.tiles, TileGlyph)[y * (m.width + 1) + x] ==
              if x == m.width then '\n' else TileGlyph(m.tiles[y * m.width + x])
    ensures GridText(m.width, m.height, m.tiles, TileGlyph)[y * (m.width + 1) + x] != 'X'
  {
    if x < m.width {
      RowMajorInRange(x, y, m.width, m.height);
    }
    GridTextAt(m.width, m.height, m.tiles, TileGlyph, x, y);
  }
}
