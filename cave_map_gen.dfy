/**
 * The deterministic post-processing of `cave_map_gen` (src/maps/cave_map_gen.rs):
 * clamp the end cell, open the 3x3 blocks around start and end, then repeat
 * clean-up passes until a pass changes nothing. A pass visits every cell,
 * opening diagonal "checkerboard" 2x2 windows and walls with fewer than two
 * wall neighbours. The random walk that carves the cave beforehand is not
 * modelled: the clean-up runs on an arbitrary map.
 */
module CaveGen {
  import opened Grid

  /** The tile vector of a map that wrapped access can address. */
  predicate Shaped(width: nat, height: nat, tiles: seq<Tile>)
  {
    width > 0 && height > 0 && |tiles| == width * height
  }

  /** `get_tile_modulo(x, y).unwrap().wall` on the map with these tiles. */
  function WallAt(width: nat, height: nat, tiles: seq<Tile>, x: int, y: int): (r: bool)
    requires Shaped(width, height, tiles)
    ensures 0 <= x < width && 0 <= y < height ==>
      WrapIndex(width, height, x, y) == y * width + x && r == tiles[y * width + x].wall
  {
    tiles[WrapIndex(width, height, x, y)].wall
  }

  /** `wall as u32`. */
  function Bit(b: bool): nat
  {
    if b then 1 else 0
  }

  /** `num_wall_neighbors`: the walls among the eight wrapped neighbours of `(x, y)`, at most 8. */
  function NumWallNeighbors(width: nat, height: nat, tiles: seq<Tile>, x: int, y: int): (n: nat)
    requires Shaped(width, height, tiles)
    ensures n <= 8
  {
    Bit(WallAt(width, height, tiles, x - 1, y - 1)) +
    Bit(WallAt(width, height, tiles, x - 1, y)) +
    Bit(WallAt(width, height, tiles, x - 1, y + 1)) +
    Bit(WallAt(width, height, tiles, x, y - 1)) +
    Bit(WallAt(width, height, tiles, x, y + 1)) +
    Bit(WallAt(width, height, tiles, x + 1, y - 1)) +
    Bit(WallAt(width, height, tiles, x + 1, y)) +
    Bit(WallAt(width, height, tiles, x + 1, y + 1))
  }

  /**
   * `is_part_of_checkerboard`: with `(x, y)` the top-left corner of a wrapped
   * 2x2 window, "\\" when the walls lie on the main diagonal, "/" when they lie
   * on the other one, and "" otherwise.
   */
  function IsPartOfCheckerboard(width: nat, height: nat, tiles: seq<Tile>, x: int, y: int): (r: string)
    requires Shaped(width, height, tiles)
    ensures r == "\\" <==>
      WallAt(width, height, tiles, x, y) && WallAt(width, height, tiles, x + 1, y + 1) &&
      !WallAt(width, height, tiles, x + 1, y) && !WallAt(width, height, tiles, x, y + 1)
    ensures r == "/" <==>
      WallAt(width, height, tiles, x + 1, y) && WallAt(width, height, tiles, x, y + 1) &&
      !WallAt(width, height, tiles, x, y) && !WallAt(width, height, tiles, x + 1, y + 1)
    ensures r == "\\" || r == "/" || r == ""
  {
    var nw := WallAt(width, height, tiles, x, y);
    var ne := WallAt(width, height, tiles, x + 1, y);
    var sw := WallAt(width, height, tiles, x, y + 1);
    var se := WallAt(width, height, tiles, x + 1, y + 1);
    if nw == se && ne == sw && nw != ne then
      (if nw then "\\" else "/")
    else
      ""
  }

  /**
   * The cell itself is not among its neighbours ("Don't include yourself!"):
   * in a grid at least two cells wide and high, rewriting the tile at `(x, y)`
   * leaves its neighbour count unchanged.
   */
  lemma NumWallNeighborsExcludesSelf(width: nat, height: nat, tiles: seq<Tile>, x: int, y: int, t: Tile)
    requires Shaped(width, height, tiles) && width >= 2 && height >= 2
    ensures Shaped(width, height, tiles[WrapIndex(width, height, x, y) := t])
    ensures NumWallNeighbors(width, height, tiles[WrapIndex(width, height, x, y) := t], x, y) ==
            NumWallNeighbors(width, height, tiles, x, y)
  {
    NeighbourIsOther(width, height, x, y, -1, -1);
    NeighbourIsOther(width, height, x, y, -1, 0);
    NeighbourIsOther(width, height, x, y, -1, 1);
    NeighbourIsOther(width, height, x, y, 0, -1);
    NeighbourIsOther(width, height, x, y, 0, 1);
    NeighbourIsOther(width, height, x, y, 1, -1);
    NeighbourIsOther(width, height, x, y, 1, 0);
    NeighbourIsOther(width, height, x, y, 1, 1);
  }

  /** A wall with fewer than two wall neighbours, which a pass opens. */
  predicate Lonely(width: nat, height: nat, tiles: seq<Tile>, x: int, y: int)
    requires Shaped(width, height, tiles)
    ensures Lonely(width, height, tiles, x, y) ==> NumWallNeighbors(width, height, tiles, x, y) <= 1
    ensures !WallAt(width, height, tiles, x, y) ==> !Lonely(width, height, tiles, x, y)
  {
    WallAt(width, height, tiles, x, y) && NumWallNeighbors(width, height, tiles, x, y) < 2
  }

  /** A cell a pass leaves alone: no checkerboard window starts there, and it is not a lonely wall. */
  predicate Settled(width: nat, height: nat, tiles: seq<Tile>, x: int, y: int)
    requires Shaped(width, height, tiles)
  {
    IsPartOfCheckerboard(width, height, tiles, x, y) == "" && !Lonely(width, height, tiles, x, y)
  }

  /** `get_tile_modulo_mut(x, y).unwrap().wall = false` on a tile vector. */
  function Open(width: nat, height: nat, tiles: seq<Tile>, x: int, y: int): (r: seq<Tile>)
    requires Shaped(width, height, tiles)
    ensures Shaped(width, height, r)
  {
    tiles[WrapIndex(width, height, x, y) := Tile(false)]
  }

  /** The number of walls in a tile vector: the measure the clean-up loop lowers. */
  function WallCount(tiles: seq<Tile>): (n: nat)
    ensures n <= |tiles|
  {
    if |tiles| == 0 then 0 else WallCount(tiles[..|tiles| - 1]) + Bit(tiles[|tiles| - 1].wall)
  }

  /** `b` is `a` with some walls opened and nothing closed. */
  ghost predicate NoNewWalls(a: seq<Tile>, b: seq<Tile>)
  {
    |a| == |b| && forall i :: 0 <= i < |a| && !a[i].wall ==> !b[i].wall
  }

  /**
   * Opening walls never raises the wall count, and leaves it equal only when
   * nothing was opened: a changed tile vector has strictly fewer walls.
   */
  lemma {:induction false} NoNewWallsCount(a: seq<Tile>, b: seq<Tile>)
    requires NoNewWalls(a, b)
    ensures WallCount(b) <= WallCount(a)
    ensures WallCount(b) == WallCount(a) ==> a == b
  {
    if |a| > 0 {
      var n := |a| - 1;
      NoNewWallsCount(a[..n], b[..n]);
      if WallCount(b) == WallCount(a) {
        assert a[..n] == b[..n];
        assert a[n] == b[n];
        assert a == a[..n] + [a[n]] && b == b[..n] + [b[n]];
      }
    }
  }

  /**
   * Along a run of updates that only open walls, the tiles differ from where
   * the run began exactly when some update changed them.
   */
  lemma ChangedSoFar(start: seq<Tile>, before: seq<Tile>, after: seq<Tile>)
    requires NoNewWalls(start, before) && NoNewWalls(before, after)
    ensures NoNewWalls(start, after)
    ensures after != start <==> before != start || after != before
  {
    NoNewWallsCount(start, before);
    NoNewWallsCount(before, after);
  }

  /** `NoNewWalls` composes along a run of updates. */
  lemma NoNewWallsTrans(a: seq<Tile>, b: seq<Tile>, c: seq<Tile>)
    requires NoNewWalls(a, b) && NoNewWalls(b, c)
    ensures NoNewWalls(a, c)
  {
  }

  /**
   * One visit of the clean-up at `(x, y)`: open a checkerboard window that
   * starts there, then open the cell if it is a lonely wall.
   */
  function CleanCellTiles(width: nat, height: nat, tiles: seq<Tile>, x: int, y: int): (r: seq<Tile>)
    requires Shaped(width, height, tiles)
    ensures Shaped(width, height, r)
  {
    var checkered := IsPartOfCheckerboard(width, height, tiles, x, y);
    var fixed :=
      if checkered == "\\" then Open(width, height, Open(width, height, tiles, x, y), x + 1, y + 1)
      else if checkered == "/" then Open(width, height, Open(width, height, tiles, x + 1, y), x, y + 1)
      else tiles;
    if Lonely(width, height, fixed, x, y) then Open(width, height, fixed, x, y) else fixed
  }

  /** Opening a tile closes nothing. */
  lemma OpenNoNewWalls(width: nat, height: nat, tiles: seq<Tile>, x: int, y: int)
    requires Shaped(width, height, tiles)
    ensures NoNewWalls(tiles, Open(width, height, tiles, x, y))
    ensures !WallAt(width, height, Open(width, height, tiles, x, y), x, y)
  {
  }

  /**
   * A visit opens walls only; it changes the tiles exactly when the cell was
   * not settled, and then the wall count drops.
   */
  lemma CleanCellEffect(width: nat, height: nat, tiles: seq<Tile>, x: int, y: int)
    requires Shaped(width, height, tiles)
    ensures NoNewWalls(tiles, CleanCellTiles(width, height, tiles, x, y))
    ensures CleanCellTiles(width, height, tiles, x, y) == tiles <==> Settled(width, height, tiles, x, y)
    ensures CleanCellTiles(width, height, tiles, x, y) != tiles ==>
      WallCount(CleanCellTiles(width, height, tiles, x, y)) < WallCount(tiles)
  {
    var checkered := IsPartOfCheckerboard(width, height, tiles, x, y);
    var i := WrapIndex(width, height, x, y);
    var j := WrapIndex(width, height, x + 1, y);
    var fixed :=
      if checkered == "\\" then Open(width, height, Open(width, height, tiles, x, y), x + 1, y + 1)
      else if checkered == "/" then Open(width, height, Open(width, height, tiles, x + 1, y), x, y + 1)
      else tiles;
    var r := CleanCellTiles(width, height, tiles, x, y);
    assert NoNewWalls(tiles, fixed);
    assert NoNewWalls(fixed, r);
    assert checkered == "\\" ==> tiles[i].wall && !fixed[i].wall;
    assert checkered == "/" ==> tiles[j].wall && !fixed[j].wall;
    assert Lonely(width, height, fixed, x, y) ==> fixed[i].wall && !r[i].wall;
    NoNewWallsCount(tiles, r);
  }

  /** `clamp(lo, hi)`, which panics unless `lo <= hi`. */
  function Clamp(v: int, lo: int, hi: int): (r: int)
    requires lo <= hi
    ensures lo <= r <= hi
    ensures lo <= v <= hi ==> r == v
    ensures v < lo ==> r == lo
    ensures hi < v ==> r == hi
  {
    if v < lo then lo else if hi < v then hi else v
  }

  /** Cell `(x, y)` lies inside the grid and is floor. */
  predicate FloorAt(width: nat, tiles: seq<Tile>, x: int, y: int)
  {
    0 <= x < width && 0 <= y && y * width + x < |tiles| && !tiles[y * width + x].wall
  }

  /** The 3x3 block centred on `(cx, cy)` is floor. */
  predicate BlockOpen(width: nat, tiles: seq<Tile>, cx: int, cy: int)
  {
    forall x, y :: cx - 1 <= x <= cx + 1 && cy - 1 <= y <= cy + 1 ==> FloorAt(width, tiles, x, y)
  }

  /** Opening walls keeps an open block open. */
  lemma BlockOpenKept(width: nat, a: seq<Tile>, b: seq<Tile>, cx: int, cy: int)
    requires NoNewWalls(a, b) && BlockOpen(width, a, cx, cy)
    ensures BlockOpen(width, b, cx, cy)
  {
    forall x, y | cx - 1 <= x <= cx + 1 && cy - 1 <= y <= cy + 1
      ensures FloorAt(width, b, x, y)
    {
      assert FloorAt(width, a, x, y);
    }
  }

  /** Every cell of the grid is settled: a pass over these tiles has nothing to do. */
  ghost predicate AllSettled(width: nat, height: nat, tiles: seq<Tile>)
    requires Shaped(width, height, tiles)
  {
    forall x, y :: 0 <= x < width && 0 <= y < height ==> Settled(width, height, tiles, x, y)
  }

  /** The steps `step(_, i)`, `step(_, i + 1)`, ..., `step(_, n - 1)` applied in turn: a `for` loop over `i..n`. */
  function Fold(step: (seq<Tile>, nat) -> seq<Tile>, tiles: seq<Tile>, i: nat, n: nat): seq<Tile>
    decreases n - i
  {
    if i >= n then tiles else Fold(step, step(tiles, i), i + 1, n)
  }

  /**
   * A loop of steps that only open walls only opens walls, and changes nothing
   * exactly when each of its steps would change nothing on the starting tiles.
   */
  lemma {:induction false} FoldEffect(step: (seq<Tile>, nat) -> seq<Tile>, tiles: seq<Tile>, i: nat, n: nat)
    requires forall t: seq<Tile>, j: nat :: NoNewWalls(t, step(t, j))
    ensures NoNewWalls(tiles, Fold(step, tiles, i, n))
    ensures Fold(step, tiles, i, n) == tiles <==> forall j :: i <= j < n ==> step(tiles, j) == tiles
    decreases n - i
  {
    if i < n {
      var c := step(tiles, i);
      var r := Fold(step, c, i + 1, n);
      FoldEffect(step, c, i + 1, n);
      NoNewWallsTrans(tiles, c, r);
      NoNewWallsCount(tiles, c);
      NoNewWallsCount(c, r);
      if r == tiles {
        assert c == tiles;
      }
    }
  }

  /** The body of the `for y` loop in column `x`, as a step of `Fold`. */
  function CleanCellStep(width: nat, height: nat, x: int): (seq<Tile>, nat) -> seq<Tile>
  {
    (tiles, y) => if Shaped(width, height, tiles) then CleanCellTiles(width, height, tiles, x, y) else tiles
  }

  lemma CleanCellStepOpens(width: nat, height: nat, x: int)
    ensures forall t: seq<Tile>, y: nat :: NoNewWalls(t, CleanCellStep(width, height, x)(t, y))
  {
    forall t: seq<Tile>, y: nat ensures NoNewWalls(t, CleanCellStep(width, height, x)(t, y)) {
      if Shaped(width, height, t) {
        CleanCellEffect(width, height, t, x, y);
      }
    }
  }

  /** The `for y in 0..height` loop of column `x`. */
  function ColumnTiles(width: nat, height: nat, tiles: seq<Tile>, x: int): seq<Tile>
  {
    Fold(CleanCellStep(width, height, x), tiles, 0, height)
  }

  /**
   * A column only opens walls, and changes nothing exactly when each of its
   * cells is already settled.
   */
  lemma ColumnEffect(width: nat, height: nat, tiles: seq<Tile>, x: int)
    requires Shaped(width, height, tiles)
    ensures NoNewWalls(tiles, ColumnTiles(width, height, tiles, x))
    ensures Shaped(width, height, ColumnTiles(width, height, tiles, x))
    ensures ColumnTiles(width, height, tiles, x) == tiles <==>
      forall y :: 0 <= y < height ==> Settled(width, height, tiles, x, y)
  {
    CleanCellStepOpens(width, height, x);
    FoldEffect(CleanCellStep(width, height, x), tiles, 0, height);
    forall y | 0 <= y < height
      ensures CleanCellStep(width, height, x)(tiles, y) == tiles <==> Settled(width, height, tiles, x, y)
    {
      CleanCellEffect(width, height, tiles, x, y);
    }
  }

  /** The body of the `for x` loop of a pass, as a step of `Fold`. */
  function ColumnStep(width: nat, height: nat): (seq<Tile>, nat) -> seq<Tile>
  {
    (tiles, x) => ColumnTiles(width, height, tiles, x)
  }

  lemma ColumnStepOpens(width: nat, height: nat)
    ensures forall t: seq<Tile>, x: nat :: NoNewWalls(t, ColumnStep(width, height)(t, x))
  {
    forall t: seq<Tile>, x: nat ensures NoNewWalls(t, ColumnStep(width, height)(t, x)) {
      CleanCellStepOpens(width, height, x);
      FoldEffect(CleanCellStep(width, height, x), t, 0, height);
    }
  }

  /** One pass of the `while recheck` loop: `for x in 0..width { for y in 0..height { ... } }`. */
  function PassTiles(width: nat, height: nat, tiles: seq<Tile>): seq<Tile>
  {
    Fold(ColumnStep(width, height), tiles, 0, width)
  }

  /**
   * A pass only opens walls, and changes nothing exactly when every cell is
   * already settled.
   */
  lemma PassEffect(width: nat, height: nat, tiles: seq<Tile>)
    requires Shaped(width, height, tiles)
    ensures NoNewWalls(tiles, PassTiles(width, height, tiles))
    ensures Shaped(width, height, PassTiles(width, height, tiles))
    ensures PassTiles(width, height, tiles) == tiles <==> AllSettled(width, height, tiles)
  {
    ColumnStepOpens(width, height);
    FoldEffect(ColumnStep(width, height), tiles, 0, width);
    if PassTiles(width, height, tiles) == tiles {
      forall x, y | 0 <= x < width && 0 <= y < height ensures Settled(width, height, tiles, x, y) {
        assert ColumnStep(width, height)(tiles, x) == tiles;
        ColumnEffect(width, height, tiles, x);
      }
    }
    if AllSettled(width, height, tiles) {
      forall x | 0 <= x < width ensures ColumnStep(width, height)(tiles, x) == tiles {
        ColumnEffect(width, height, tiles, x);
      }
    }
  }

  /**
   * The `while recheck` loop: passes until one changes nothing. It ends
   * because every pass that changes something lowers the wall count.
   */
  function Settle(width: nat, height: nat, tiles: seq<Tile>): (r: seq<Tile>)
    requires Shaped(width, height, tiles)
    ensures Shaped(width, height, r)
    decreases WallCount(tiles)
  {
    var p := PassTiles(width, height, tiles);
    PassEffect(width, height, tiles);
    NoNewWallsCount(tiles, p);
    if p == tiles then tiles else Settle(width, height, p)
  }

  /**
   * The clean-up only opens walls and leaves every cell settled; it changes
   * nothing exactly when every cell already was settled.
   */
  lemma {:induction false} SettleEffect(width: nat, height: nat, tiles: seq<Tile>)
    requires Shaped(width, height, tiles)
    ensures NoNewWalls(tiles, Settle(width, height, tiles))
    ensures AllSettled(width, height, Settle(width, height, tiles))
    ensures Settle(width, height, tiles) == tiles <==> AllSettled(width, height, tiles)
    decreases WallCount(tiles)
  {
    var p := PassTiles(width, height, tiles);
    PassEffect(width, height, tiles);
    NoNewWallsCount(tiles, p);
    if p != tiles {
      SettleEffect(width, height, p);
      NoNewWallsTrans(tiles, p, Settle(width, height, p));
      NoNewWallsCount(tiles, Settle(width, height, p));
    }
  }

  /**
   * `get_tile_mut(x, y).unwrap().wall = false` on a tile vector: the cell at
   * row-major index `y * width + x` becomes floor. Outside the vector the
   * source's `unwrap` panics; the padding never gets there, and this function
   * then leaves the tiles alone.
   */
  function SetFloor(width: nat, tiles: seq<Tile>, x: int, y: int): (r: seq<Tile>)
    ensures |r| == |tiles|
  {
    if 0 <= x < width && 0 <= y && y * width + x < |tiles| then tiles[y * width + x := Tile(false)] else tiles
  }

  /**
   * The inner `for y in -1..2` loop of the padding from offset `dy` on: open
   * the cell at offset `(dx, dy)` from the start, then from the end.
   */
  function PadColumn(width: nat, tiles: seq<Tile>, sx: int, sy: int, ex: int, ey: int, dx: int, dy: int): (r: seq<Tile>)
    ensures |r| == |tiles|
    decreases 2 - dy
  {
    if dy >= 2 then tiles
    else
      var both := SetFloor(width, SetFloor(width, tiles, sx + dx, sy + dy), ex + dx, ey + dy);
      PadColumn(width, both, sx, sy, ex, ey, dx, dy + 1)
  }

  /** The outer `for x in -1..2` loop of the padding from offset `dx` on. */
  function PadBlocks(width: nat, tiles: seq<Tile>, sx: int, sy: int, ex: int, ey: int, dx: int): (r: seq<Tile>)
    ensures |r| == |tiles|
    decreases 2 - dx
  {
    if dx >= 2 then tiles
    else PadBlocks(width, PadColumn(width, tiles, sx, sy, ex, ey, dx, -1), sx, sy, ex, ey, dx + 1)
  }

  /** One visit of the `for y` loop body, on the map in place. */
  method CleanCell(m: Map, x: nat, y: nat) returns (changed: bool)
    requires m.Valid() && m.width > 0 && m.height > 0
    modifies m
    ensures m.Valid()
    ensures m.tiles == CleanCellTiles(m.width, m.height, old(m.tiles), x, y)
    ensures changed <==> m.tiles != old(m.tiles)
  {
    ghost var tiles := m.tiles;
    CleanCellEffect(m.width, m.height, tiles, x, y);
    changed := false;
    var checkered := IsPartOfCheckerboard(m.width, m.height, m.tiles, x, y);
    if checkered == "\\" {
      m.SetWallModulo(x, y, false);
      m.SetWallModulo(x + 1, y + 1, false);
      changed := true;
    } else if checkered == "/" {
      m.SetWallModulo(x + 1, y, false);
      m.SetWallModulo(x, y + 1, false);
      changed := true;
    }
    var tile := m.GetTileModulo(x, y).value;
    if tile.wall && NumWallNeighbors(m.width, m.height, m.tiles, x, y) < 2 {
      m.SetWallModulo(x, y, false);
      changed := true;
    }
  }

  /**
   * The `for y` loop for one column: the new tiles are `ColumnTiles` of the
   * old ones, it only opens walls, it reports a change exactly when the tiles
   * changed, and a column that changes nothing has found each of its cells settled.
   */
  method CleanColumn(m: Map, x: nat) returns (changed: bool)
    requires m.Valid() && m.width > 0 && m.height > 0
    modifies m
    ensures m.Valid()
    ensures m.tiles == ColumnTiles(m.width, m.height, old(m.tiles), x)
    ensures NoNewWalls(old(m.tiles), m.tiles)
    ensures changed <==> m.tiles != old(m.tiles)
    ensures !changed ==> forall y :: 0 <= y < m.height ==> Settled(m.width, m.height, m.tiles, x, y)
  {
    ghost var start := m.tiles;
    changed := false;
    var y := 0;
    while y < m.height
      invariant y <= m.height && m.Valid()
      invariant NoNewWalls(start, m.tiles)
      invariant changed <==> m.tiles != start
      invariant Fold(CleanCellStep(m.width, m.height, x), m.tiles, y, m.height) == ColumnTiles(m.width, m.height, start, x)
    {
      ghost var before := m.tiles;
      var cellChanged := CleanCell(m, x, y);
      assert m.tiles == CleanCellTiles(m.width, m.height, before, x, y);
      ColumnFoldStep(m.width, m.height, before, x, y);
      CleanCellEffect(m.width, m.height, before, x, y);
      ChangedSoFar(start, before, m.tiles);
      if cellChanged {
        changed := true;
      }
      y := y + 1;
    }
    ColumnEffect(m.width, m.height, start, x);
  }

  /** One iteration of the `for y` loop, as `Fold` sees it. */
  lemma ColumnFoldStep(width: nat, height: nat, tiles: seq<Tile>, x: int, y: nat)
    requires Shaped(width, height, tiles) && y < height
    ensures Fold(CleanCellStep(width, height, x), tiles, y, height) ==
            Fold(CleanCellStep(width, height, x), CleanCellTiles(width, height, tiles, x, y), y + 1, height)
  {
  }

  /**
   * One pass of the `while recheck` loop: every column, every row. The new
   * tiles are `PassTiles` of the old ones; it only opens walls, it reports a
   * change exactly when the tiles changed, and a pass that changes nothing has
   * found every cell settled.
   */
  method CleanPass(m: Map) returns (recheck: bool)
    requires m.Valid() && m.width > 0 && m.height > 0
    modifies m
    ensures m.Valid()
    ensures m.tiles == PassTiles(m.width, m.height, old(m.tiles))
    ensures NoNewWalls(old(m.tiles), m.tiles)
    ensures recheck <==> m.tiles != old(m.tiles)
    ensures !recheck ==>
      forall x, y :: 0 <= x < m.width && 0 <= y < m.height ==> Settled(m.width, m.height, m.tiles, x, y)
  {
    ghost var start := m.tiles;
    recheck := false;
    var x := 0;
    while x < m.width
      invariant x <= m.width && m.Valid()
      invariant NoNewWalls(start, m.tiles)
      invariant recheck <==> m.tiles != start
      invariant Fold(ColumnStep(m.width, m.height), m.tiles, x, m.width) == PassTiles(m.width, m.height, start)
    {
      ghost var before := m.tiles;
      var changed := CleanColumn(m, x);
      assert m.tiles == ColumnTiles(m.width, m.height, before, x);
      PassFoldStep(m.width, m.height, before, x);
      ChangedSoFar(start, before, m.tiles);
      if changed {
        recheck := true;
      }
      x := x + 1;
    }
    PassEffect(m.width, m.height, start);
  }

  /** One iteration of the `for x` loop, as `Fold` sees it. */
  lemma PassFoldStep(width: nat, height: nat, tiles: seq<Tile>, x: nat)
    requires x < width
    ensures Fold(ColumnStep(width, height), tiles, x, width) ==
            Fold(ColumnStep(width, height), ColumnTiles(width, height, tiles, x), x + 1, width)
  {
  }

  /**
   * The post-processing of `cave_map_gen` (src/maps/cave_map_gen.rs:185-238)
   * after the walk that chose `start` and `end`: clamp `end` two cells away
   * from the edges, open the 3x3 blocks around both, and clean up until a
   * pass changes nothing. The final tiles are those `Settle` gives for the
   * padded map: no floor is closed, both blocks end open, and every cell ends
   * settled.
   */
  method PostProcess(m: Map, start: (nat, nat), end: (nat, nat))
    requires m.Valid() && m.width >= 5 && m.height >= 5
    requires 2 <= start.0 <= m.width - 3 && 2 <= start.1 <= m.height - 3
    modifies m
    ensures m.Valid()
    ensures var endX, endY := Clamp(end.0, 2, m.width - 3), Clamp(end.1, 2, m.height - 3);
      m.tiles == Settle(m.width, m.height, PadBlocks(m.width, old(m.tiles), start.0, start.1, endX, endY, -1))
    ensures NoNewWalls(old(m.tiles), m.tiles)
    ensures BlockOpen(m.width, m.tiles, start.0, start.1)
    ensures BlockOpen(m.width, m.tiles, Clamp(end.0, 2, m.width - 3), Clamp(end.1, 2, m.height - 3))
    ensures forall x, y :: 0 <= x < m.width && 0 <= y < m.height ==> Settled(m.width, m.height, m.tiles, x, y)
  {
    var endX := Clamp(end.0, 2, m.width - 3);
    var endY := Clamp(end.1, 2, m.height - 3);
    ghost var initial := m.tiles;
    Pad(m, start.0, start.1, endX, endY);
    ghost var padded := m.tiles;
    Recheck(m);
    NoNewWallsTrans(initial, padded, m.tiles);
    BlockOpenKept(m.width, padded, m.tiles, start.0, start.1);
    BlockOpenKept(m.width, padded, m.tiles, endX, endY);
  }

  /**
   * The two `for` loops that pad `start` and `end` (src/maps/cave_map_gen.rs:191-201):
   * the new tiles are `PadBlocks` of the old ones, which closes nothing and
   * opens both 3x3 blocks.
   */
  method Pad(m: Map, sx: nat, sy: nat, endX: nat, endY: nat)
    requires m.Valid() && m.width >= 5 && m.height >= 5
    requires 2 <= sx <= m.width - 3 && 2 <= sy <= m.height - 3
    requires 2 <= endX <= m.width - 3 && 2 <= endY <= m.height - 3
    modifies m
    ensures m.Valid()
    ensures m.tiles == PadBlocks(m.width, old(m.tiles), sx, sy, endX, endY, -1)
    ensures NoNewWalls(old(m.tiles), m.tiles)
    ensures BlockOpen(m.width, m.tiles, sx, sy)
    ensures BlockOpen(m.width, m.tiles, endX, endY)
  {
    ghost var initial := m.tiles;
    var dx := -1;
    while dx < 2
      invariant -1 <= dx <= 2 && m.Valid()
      invariant PadBlocks(m.width, m.tiles, sx, sy, endX, endY, dx) ==
        PadBlocks(m.width, initial, sx, sy, endX, endY, -1)
    {
      ghost var before := m.tiles;
      PadColumnCells(m, sx, sy, endX, endY, dx);
      PadBlocksStep(m.width, before, sx, sy, endX, endY, dx);
      dx := dx + 1;
    }
    PadBlocksOpens(m.width, m.height, initial, sx, sy, endX, endY, -1);
  }

  /** One iteration of the outer padding loop, as `PadBlocks` sees it. */
  lemma PadBlocksStep(width: nat, tiles: seq<Tile>, sx: int, sy: int, ex: int, ey: int, dx: int)
    requires dx < 2
    ensures PadBlocks(width, tiles, sx, sy, ex, ey, dx) ==
      PadBlocks(width, PadColumn(width, tiles, sx, sy, ex, ey, dx, -1), sx, sy, ex, ey, dx + 1)
  {
  }

  /** One iteration of the inner padding loop, as `PadColumn` sees it. */
  lemma PadColumnStep(width: nat, tiles: seq<Tile>, sx: int, sy: int, ex: int, ey: int, dx: int, dy: int)
    requires dy < 2
    ensures PadColumn(width, tiles, sx, sy, ex, ey, dx, dy) ==
      PadColumn(width, SetFloor(width, SetFloor(width, tiles, sx + dx, sy + dy), ex + dx, ey + dy),
                sx, sy, ex, ey, dx, dy + 1)
  {
  }

  /** Opening walls keeps every floor cell floor. */
  lemma FloorKept(width: nat, a: seq<Tile>, b: seq<Tile>)
    requires NoNewWalls(a, b)
    ensures forall x, y :: FloorAt(width, a, x, y) ==> FloorAt(width, b, x, y)
  {
    forall x, y | FloorAt(width, a, x, y) ensures FloorAt(width, b, x, y) {
      assert !a[y * width + x].wall;
    }
  }

  /** Setting a cell inside the grid to floor closes nothing and makes that cell floor. */
  lemma SetFloorEffect(width: nat, height: nat, tiles: seq<Tile>, x: int, y: int)
    requires Shaped(width, height, tiles) && 0 <= x < width && 0 <= y < height
    ensures NoNewWalls(tiles, SetFloor(width, tiles, x, y))
    ensures FloorAt(width, SetFloor(width, tiles, x, y), x, y)
  {
    RowMajorInRange(x, y, width, height);
  }

  /**
   * The inner padding loop from offset `dy` on opens the rest of column
   * `dx` of both blocks and closes nothing.
   */
  lemma {:induction false} PadColumnOpens(width: nat, height: nat, tiles: seq<Tile>, sx: int, sy: int, ex: int, ey: int, dx: int, dy: int)
    requires Shaped(width, height, tiles) && -1 <= dx <= 1 && -1 <= dy <= 2
    requires 1 <= sx <= width - 2 && 1 <= sy <= height - 2 && 1 <= ex <= width - 2 && 1 <= ey <= height - 2
    ensures NoNewWalls(tiles, PadColumn(width, tiles, sx, sy, ex, ey, dx, dy))
    ensures forall x, y :: x == sx + dx && sy + dy <= y <= sy + 1 ==>
      FloorAt(width, PadColumn(width, tiles, sx, sy, ex, ey, dx, dy), x, y)
    ensures forall x, y :: x == ex + dx && ey + dy <= y <= ey + 1 ==>
      FloorAt(width, PadColumn(width, tiles, sx, sy, ex, ey, dx, dy), x, y)
    decreases 2 - dy
  {
    if dy < 2 {
      var t1 := SetFloor(width, tiles, sx + dx, sy + dy);
      var t2 := SetFloor(width, t1, ex + dx, ey + dy);
      var r := PadColumn(width, t2, sx, sy, ex, ey, dx, dy + 1);
      SetFloorEffect(width, height, tiles, sx + dx, sy + dy);
      SetFloorEffect(width, height, t1, ex + dx, ey + dy);
      FloorKept(width, t1, t2);
      PadColumnOpens(width, height, t2, sx, sy, ex, ey, dx, dy + 1);
      NoNewWallsTrans(tiles, t1, t2);
      NoNewWallsTrans(tiles, t2, r);
      FloorKept(width, t2, r);
    }
  }

  /**
   * The outer padding loop from offset `dx` on opens the rest of both 3x3
   * blocks and closes nothing.
   */
  lemma {:induction false} PadBlocksOpens(width: nat, height: nat, tiles: seq<Tile>, sx: int, sy: int, ex: int, ey: int, dx: int)
    requires Shaped(width, height, tiles) && -1 <= dx <= 2
    requires 1 <= sx <= width - 2 && 1 <= sy <= height - 2 && 1 <= ex <= width - 2 && 1 <= ey <= height - 2
    ensures NoNewWalls(tiles, PadBlocks(width, tiles, sx, sy, ex, ey, dx))
    ensures forall x, y :: sx + dx <= x <= sx + 1 && sy - 1 <= y <= sy + 1 ==>
      FloorAt(width, PadBlocks(width, tiles, sx, sy, ex, ey, dx), x, y)
    ensures forall x, y :: ex + dx <= x <= ex + 1 && ey - 1 <= y <= ey + 1 ==>
      FloorAt(width, PadBlocks(width, tiles, sx, sy, ex, ey, dx), x, y)
    decreases 2 - dx
  {
    if dx < 2 {
      var c := PadColumn(width, tiles, sx, sy, ex, ey, dx, -1);
      var r := PadBlocks(width, c, sx, sy, ex, ey, dx + 1);
      PadColumnOpens(width, height, tiles, sx, sy, ex, ey, dx, -1);
      PadBlocksOpens(width, height, c, sx, sy, ex, ey, dx + 1);
      NoNewWallsTrans(tiles, c, r);
      FloorKept(width, c, r);
    }
  }

  /** The inner `for y` loop of the padding for column offset `dx`: the new tiles are `PadColumn` of the old ones. */
  method PadColumnCells(m: Map, sx: nat, sy: nat, endX: nat, endY: nat, dx: int)
    requires m.Valid() && -1 <= dx <= 1
    requires 1 <= sx <= m.width - 2 && 1 <= sy <= m.height - 2
    requires 1 <= endX <= m.width - 2 && 1 <= endY <= m.height - 2
    modifies m
    ensures m.Valid()
    ensures m.tiles == PadColumn(m.width, old(m.tiles), sx, sy, endX, endY, dx, -1)
  {
    ghost var start := m.tiles;
    var dy := -1;
    while dy < 2
      invariant -1 <= dy <= 2 && m.Valid()
      invariant PadColumn(m.width, m.tiles, sx, sy, endX, endY, dx, dy) ==
        PadColumn(m.width, start, sx, sy, endX, endY, dx, -1)
    {
      ghost var before := m.tiles;
      PadCell(m, sx + dx, sy + dy);
      ghost var mid := m.tiles;
      assert mid == SetFloor(m.width, before, sx + dx, sy + dy);
      PadCell(m, endX + dx, endY + dy);
      assert m.tiles == SetFloor(m.width, mid, endX + dx, endY + dy);
      PadColumnStep(m.width, before, sx, sy, endX, endY, dx, dy);
      assert PadColumn(m.width, m.tiles, sx, sy, endX, endY, dx, dy + 1) == PadColumn(m.width, start, sx, sy, endX, endY, dx, -1);
      dy := dy + 1;
    }
  }

  /**
   * The `while recheck` loop (src/maps/cave_map_gen.rs:203-237): the new tiles
   * are `Settle` of the old ones, so it only opens walls and leaves every cell settled.
   */
  method Recheck(m: Map)
    requires m.Valid() && m.width > 0 && m.height > 0
    modifies m
    ensures m.Valid()
    ensures m.tiles == Settle(m.width, m.height, old(m.tiles))
    ensures NoNewWalls(old(m.tiles), m.tiles)
    ensures forall x, y :: 0 <= x < m.width && 0 <= y < m.height ==> Settled(m.width, m.height, m.tiles, x, y)
  {
    ghost var start := m.tiles;
    var recheck := true;
    while recheck
      invariant m.Valid()
      invariant Settle(m.width, m.height, start) == if recheck then Settle(m.width, m.height, m.tiles) else m.tiles
      decreases WallCount(m.tiles) + Bit(recheck)
    {
      ghost var before := m.tiles;
      recheck := CleanPass(m);
      NoNewWallsCount(before, m.tiles);
    }
    SettleEffect(m.width, m.height, start);
  }

  /** `get_tile_mut(x, y).unwrap().wall = false` for a cell of a padded block. */
  method PadCell(m: Map, x: nat, y: nat)
    requires m.Valid() && x < m.width && y < m.height
    modifies m
    ensures m.Valid()
    ensures m.tiles == SetFloor(m.width, old(m.tiles), x, y)
  {
    RowMajorInRange(x, y, m.width, m.height);
    m.SetWall(x, y, false);
  }
}
