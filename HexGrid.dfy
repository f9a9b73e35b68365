/** HexEn3D/HexMap.cs: the padded two-dimensional array of tiles. */
module HexGrid {
  import opened Points
  import opened Wrappers
  import opened HexTile
  import opened GridSpec

  class HexMap {
    /** `(xsize + 2) x (ysize + 2)` tiles; logical tile (x, y) lives at (x + 1, y + 1). */
    var tiles: array2<Hex?>
    var xsize: int
    var ysize: int
    /** The tiles' values, column by column. */
    ghost var Cells: Grid
    /** Every tile object the map has held. */
    ghost var Hexes: set<Hex>

    /** Every cell holds a tile with eight vertices whose global coordinate is the cell's
        own index, so no tile object sits in two cells. */
    ghost predicate Shape()
      reads this, tiles, Hexes
    {
      && tiles.Length0 == xsize + 2 && tiles.Length1 == ysize + 2
      && forall i, j :: 0 <= i < tiles.Length0 && 0 <= j < tiles.Length1 ==>
           && tiles[i, j] != null && tiles[i, j] in Hexes
           && |tiles[i, j].vertices| == VertexCount
           && tiles[i, j].globalX == i && tiles[i, j].globalY == j
    }

    ghost predicate Valid()
      reads this, tiles, Hexes
    {
      && Shape()
      && Padded(Cells, xsize + 2, ysize + 2)
      && forall i, j :: 0 <= i < tiles.Length0 && 0 <= j < tiles.Length1 ==> tiles[i, j].View() == Cells[i][j]
    }

    /** Whether logical (x, y) addresses a cell of the padded array. */
    predicate InGrid(x: int, y: int)
      reads this
    {
      -1 <= x <= xsize && -1 <= y <= ysize
    }

    /** `HexMap(xsize, ysize)`: every cell, border included, gets a fresh default tile tagged
        with its index. */
    constructor (xsize: int, ysize: int)
      requires -2 <= xsize && -2 <= ysize
      ensures Valid() && fresh(tiles) && fresh(Hexes)
      ensures this.xsize == xsize && this.ysize == ysize
      ensures forall i, j :: 0 <= i < xsize + 2 && 0 <= j < ysize + 2 ==>
        Cells[i][j] == Tile(OriginVertices, 0.0, true, i, j)
    {
      var m := new Hex?[xsize + 2, ysize + 2];
      ghost var hexes: set<Hex> := {};
      for i := 0 to xsize + 2
        invariant forall h :: h in hexes ==> fresh(h)
        invariant forall a, b :: 0 <= a < i && 0 <= b < ysize + 2 ==>
          m[a, b] != null && m[a, b] in hexes && m[a, b].View() == Tile(OriginVertices, 0.0, true, a, b)
      {
        for j := 0 to ysize + 2
          invariant forall h :: h in hexes ==> fresh(h)
          invariant forall a, b :: 0 <= a < i && 0 <= b < ysize + 2 ==>
            m[a, b] != null && m[a, b] in hexes && m[a, b].View() == Tile(OriginVertices, 0.0, true, a, b)
          invariant forall b :: 0 <= b < j ==>
            m[i, b] != null && m[i, b] in hexes && m[i, b].View() == Tile(OriginVertices, 0.0, true, i, b)
        {
          var h := new Hex();
          h.SetGlobalCoord(i, j);
          m[i, j] := h;
          hexes := hexes + {h};
        }
      }
      tiles := m;
      this.xsize := xsize;
      this.ysize := ysize;
      Cells := seq(xsize + 2, a => seq(ysize + 2, b => Tile(OriginVertices, 0.0, true, a, b)));
      Hexes := hexes;
    }

    /** `HexMap(xsize, ysize, elevation)`: the same, with every tile at that elevation. */
    constructor AtElevation(xsize: int, ysize: int, e: real)
      requires -2 <= xsize && -2 <= ysize
      ensures Valid() && fresh(tiles) && fresh(Hexes)
      ensures this.xsize == xsize && this.ysize == ysize
      ensures forall i, j :: 0 <= i < xsize + 2 && 0 <= j < ysize + 2 ==>
        Cells[i][j] == Tile(OriginVertices, e, true, i, j)
    {
      var m := new Hex?[xsize + 2, ysize + 2];
      ghost var hexes: set<Hex> := {};
      for i := 0 to xsize + 2
        invariant forall h :: h in hexes ==> fresh(h)
        invariant forall a, b :: 0 <= a < i && 0 <= b < ysize + 2 ==>
          m[a, b] != null && m[a, b] in hexes && m[a, b].View() == Tile(OriginVertices, e, true, a, b)
      {
        for j := 0 to ysize + 2
          invariant forall h :: h in hexes ==> fresh(h)
          invariant forall a, b :: 0 <= a < i && 0 <= b < ysize + 2 ==>
            m[a, b] != null && m[a, b] in hexes && m[a, b].View() == Tile(OriginVertices, e, true, a, b)
          invariant forall b :: 0 <= b < j ==>
            m[i, b] != null && m[i, b] in hexes && m[i, b].View() == Tile(OriginVertices, e, true, i, b)
        {
          var h := new Hex.AtElevation(e);
          h.SetGlobalCoord(i, j);
          m[i, j] := h;
          hexes := hexes + {h};
        }
      }
      tiles := m;
      this.xsize := xsize;
      this.ysize := ysize;
      Cells := seq(xsize + 2, a => seq(ysize + 2, b => Tile(OriginVertices, e, true, a, b)));
      Hexes := hexes;
    }

    /** `getHexAt(x, y)`: the tile of padded cell (x + 1, y + 1); outside the array the
        access throws. */
    function GetHexAt(x: int, y: int): (r: Result<Hex>)
      reads this, tiles, Hexes
      requires Valid()
      ensures r.Ok? <==> InGrid(x, y)
      ensures r.Err? ==> r.error == IndexOutOfRange
      ensures r.Ok? ==> r.value == tiles[x + 1, y + 1] && r.value.View() == Cells[x + 1][y + 1]
    {
      if InGrid(x, y) then Ok(tiles[x + 1, y + 1]) else Err(IndexOutOfRange)
    }

    /** `setElevationAt(x, y, e)`: `setElevation(e)` on padded cell (x + 1, y + 1) only. */
    method SetElevationAt(x: int, y: int, e: real) returns (s: Status)
      requires Valid()
      modifies Hexes`vertices, Hexes`elevation, this`Cells
      ensures Valid()
      ensures s == if InGrid(x, y) then Done else Fail(IndexOutOfRange)
      ensures Cells == if s == Done
        then old(Cells)[x + 1 := old(Cells)[x + 1][y + 1 := WithElevation(old(Cells)[x + 1][y + 1], e)]]
        else old(Cells)
    {
      if !InGrid(x, y) {
        return Fail(IndexOutOfRange);
      }
      var h := tiles[x + 1, y + 1];
      h.SetElevation(e);
      Cells := Cells[x + 1 := Cells[x + 1][y + 1 := h.View()]];
      return Done;
    }

    /** `setHexAt(x, y, hex)`: stores `hex` in padded cell (x + 1, y + 1). The tile must carry
        that cell's global coordinate, as every tile the constructors create does. */
    method SetHexAt(x: int, y: int, hex: Hex) returns (s: Status)
      requires Valid() && hex.Valid() && hex.globalX == x + 1 && hex.globalY == y + 1
      modifies tiles, this`Cells, this`Hexes
      ensures Valid() && Hexes == old(Hexes) + {hex}
      ensures s == if InGrid(x, y) then Done else Fail(IndexOutOfRange)
      ensures Cells == if s == Done
        then old(Cells)[x + 1 := old(Cells)[x + 1][y + 1 := hex.View()]]
        else old(Cells)
    {
      Hexes := Hexes + {hex};
      if !InGrid(x, y) {
        return Fail(IndexOutOfRange);
      }
      tiles[x + 1, y + 1] := hex;
      Cells := Cells[x + 1 := Cells[x + 1][y + 1 := hex.View()]];
      return Done;
    }

    /** The six corner heights `computeElevationCorners` computes for cell (i, j), as it
        reads them off the array: the mean of the tile's own elevation and those of the two
        neighbours at each corner. An even padded column sits half a hex below its
        neighbours, an odd one half a hex above. */
    function HeightsAt(i: int, j: int): (zs: seq<real>)
      reads this, tiles, Hexes
      requires Shape() && 1 <= i <= xsize && 1 <= j <= ysize
      ensures |zs| == 6
    {
      var here := tiles[i, j].elevation;
      var left, right := tiles[i - 1, j].elevation, tiles[i + 1, j].elevation;
      var up, down := tiles[i, j + 1].elevation, tiles[i, j - 1].elevation;
      if i % 2 == 0 then
        var leftDown, rightDown := tiles[i - 1, j - 1].elevation, tiles[i + 1, j - 1].elevation;
        [ (here + left + leftDown) / 3.0, (here + left + up) / 3.0, (here + up + right) / 3.0,
          (here + right + rightDown) / 3.0, (here + rightDown + down) / 3.0, (here + leftDown + down) / 3.0 ]
      else
        var leftUp, rightUp := tiles[i - 1, j + 1].elevation, tiles[i + 1, j + 1].elevation;
        [ (here + left + leftUp) / 3.0, (here + leftUp + up) / 3.0, (here + up + rightUp) / 3.0,
          (here + rightUp + right) / 3.0, (here + right + down) / 3.0, (here + down + left) / 3.0 ]
    }

    /** The heights read off the array are the grid's `CornerHeights` whenever the array
        holds the grid's elevations. */
    lemma HeightsAtAreCornerHeights(i: int, j: int, g: Grid)
      requires Shape() && Padded(g, xsize + 2, ysize + 2)
      requires 1 <= i <= xsize && 1 <= j <= ysize
      requires forall a, b :: 0 <= a < xsize + 2 && 0 <= b < ysize + 2 ==> tiles[a, b].elevation == g[a][b].elevation
      ensures WellFormed(g) && Interior(g, i, j) && HeightsAt(i, j) == CornerHeights(g, i, j)
    {
      PaddedIsWellFormed(g, xsize + 2, ysize + 2);
      var zs, cs := HeightsAt(i, j), CornerHeights(g, i, j);
      forall k | 0 <= k < 6
        ensures zs[k] == cs[k]
      {
        CornerNeighboursInside(g, i, j, k);
      }
    }

    /** The six `setVertexZAt` calls of one cell, corners 0 to 5 in order. */
    static method SetCornerHeights(h: Hex, zs: seq<real>)
      requires h.Valid() && |zs| == 6
      modifies h`vertices
      ensures h.Valid() && h.View() == WithCornerHeights(old(h.View()), zs)
    {
      ghost var t := h.View();
      for k := 0 to 6
        invariant h.Valid()
        invariant forall c :: 0 <= c < VertexCount ==>
          h.vertices[c] == if c < k then t.vertices[c].(z := zs[c]) else t.vertices[c]
      {
        var s := h.SetVertexZAt(zs[k], k);
      }
      assert h.vertices == WithCornerHeights(t, zs).vertices;
    }

    /** Rewrites the corner heights of cell (i, j) from the elevations around it, which are
        those of `g`. */
    method SmoothCell(i: int, j: int, ghost g: Grid)
      requires Shape() && Padded(g, xsize + 2, ysize + 2)
      requires 1 <= i <= xsize && 1 <= j <= ysize
      requires forall a, b :: 0 <= a < xsize + 2 && 0 <= b < ysize + 2 ==> tiles[a, b].elevation == g[a][b].elevation
      requires tiles[i, j].View() == g[i][j]
      modifies tiles[i, j]`vertices
      ensures Shape()
      ensures WellFormed(g) && tiles[i, j].View() == SmoothTile(g, i, j)
    {
      HeightsAtAreCornerHeights(i, j, g);
      SetCornerHeights(tiles[i, j], HeightsAt(i, j));
    }

    /** `computeElevationCorners()`: the grid becomes `Smoothed` of what it was. */
    method ComputeElevationCorners()
      requires Valid()
      modifies Hexes`vertices, this`Cells
      ensures Valid() && Cells == Smoothed(old(Cells))
    {
      ghost var g: Grid := Cells;
      PaddedIsWellFormed(g, xsize + 2, ysize + 2);
      var i := 1;
      while i < xsize + 1
        invariant 1 <= i && (xsize >= 0 ==> i <= xsize + 1)
        invariant Shape()
        invariant forall a, b :: 0 <= a < xsize + 2 && 0 <= b < ysize + 2 ==>
          tiles[a, b].View() == if a < i then SmoothTile(g, a, b) else g[a][b]
      {
        SmoothColumn(i, g);
        i := i + 1;
      }
      Cells := Smoothed(g);
    }

    /** The inner loop of `computeElevationCorners`: smooths column i, row by row, once the
        columns before it are done. */
    method SmoothColumn(i: int, ghost g: Grid)
      requires Shape() && Padded(g, xsize + 2, ysize + 2) && 1 <= i <= xsize
      requires forall a, b :: 0 <= a < xsize + 2 && 0 <= b < ysize + 2 ==>
        tiles[a, b].View() == if a < i then SmoothTile(g, a, b) else g[a][b]
      modifies Hexes`vertices
      ensures Shape()
      ensures forall a, b :: 0 <= a < xsize + 2 && 0 <= b < ysize + 2 ==>
        tiles[a, b].View() == if a <= i then SmoothTile(g, a, b) else g[a][b]
    {
      PaddedIsWellFormed(g, xsize + 2, ysize + 2);
      var j := 1;
      while j < ysize + 1
        invariant 1 <= j && (ysize >= 0 ==> j <= ysize + 1)
        invariant Shape()
        invariant forall a, b :: 0 <= a < xsize + 2 && 0 <= b < ysize + 2 ==>
          tiles[a, b].View() == if a < i || (a == i && b < j) then SmoothTile(g, a, b) else g[a][b]
      {
        SmoothCell(i, j, g);
        j := j + 1;
      }
    }

    /** `disableSides()` as written: its first iteration deactivates cell (0, 0) and then
        indexes column `ysize + 2`, one past the last, so the call throws having changed
        that one flag. With no cells at all (both sizes -2) it completes. */
    method DisableSides() returns (s: Status)
      requires Valid()
      modifies Hexes`active, this`Cells
      ensures Valid()
      ensures s == if xsize + 2 == 0 && ysize + 2 == 0 then Done else Fail(IndexOutOfRange)
      ensures Cells == if xsize + 2 > 0 && ysize + 2 > 0
        then old(Cells)[0 := old(Cells)[0][0 := old(Cells)[0][0].(active := false)]]
        else old(Cells)
    {
      if xsize + 2 > 0 {
        // i = 0: tiles[0, 0] exists only if there is a row.
        if ysize + 2 == 0 {
          return Fail(IndexOutOfRange);
        }
        tiles[0, 0].SetActive(false);
        Cells := Cells[0 := Cells[0][0 := tiles[0, 0].View()]];
        // tiles[0, ysize + 2]: the last column index is ysize + 1.
        return Fail(IndexOutOfRange);
      }
      // The first loop is empty; j = 0 of the second reads tiles[0, 0] in an empty array.
      if ysize + 2 > 0 {
        return Fail(IndexOutOfRange);
      }
      return Done;
    }

    /** `setActive(false)` on the tile of padded cell (a, b): the tags of `Shape` keep every
        other cell's tile a different object, so only that cell changes. */
    method Deactivate(a: int, b: int)
      requires Shape() && 0 <= a < xsize + 2 && 0 <= b < ysize + 2
      modifies tiles[a, b]`active
      ensures Shape()
      ensures forall c, d :: 0 <= c < xsize + 2 && 0 <= d < ysize + 2 ==>
        tiles[c, d].View() == if c == a && d == b then old(tiles[c, d].View()).(active := false) else old(tiles[c, d].View())
    {
      tiles[a, b].SetActive(false);
    }

    /** `disableSides()` as intended, with `ysize + 1` and `xsize + 1` as the far ring:
        exactly the outer ring is deactivated and nothing else changes. */
    method DisableBorder()
      requires Valid() && -1 <= xsize && -1 <= ysize
      modifies Hexes`active, this`Cells
      ensures Valid()
      ensures Cells == RingDisabled(old(Cells))
    {
      ghost var g: Grid := Cells;
      for i := 0 to xsize + 2
        invariant Shape()
        invariant forall a, b :: 0 <= a < xsize + 2 && 0 <= b < ysize + 2 ==>
          tiles[a, b].View() == if a < i && (b == 0 || b == ysize + 1) then g[a][b].(active := false) else g[a][b]
      {
        Deactivate(i, 0);
        Deactivate(i, ysize + 1);
      }
      for j := 0 to ysize + 2
        invariant Shape()
        invariant forall a, b :: 0 <= a < xsize + 2 && 0 <= b < ysize + 2 ==>
          tiles[a, b].View() == if b == 0 || b == ysize + 1 || (b < j && (a == 0 || a == xsize + 1))
            then g[a][b].(active := false) else g[a][b]
      {
        Deactivate(0, j);
        Deactivate(xsize + 1, j);
      }
      PaddedIsWellFormed(g, xsize + 2, ysize + 2);
      Cells := RingDisabled(g);
    }
  }
}
