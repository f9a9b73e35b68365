/** The value-level specification of HexEn3D/HexMap.cs: a padded grid of tiles and the
    corner-smoothing pass of `computeElevationCorners`. */
module GridSpec {
  import opened Points
  import opened HexTile

  /** A padded array index (column i, row j). */
  type Cell = (int, int)

  /** Column-major tiles: `g[i][j]` is the tile at padded index (i, j). */
  type Grid = seq<seq<Tile>>

  /** The number of rows of a grid (0 for a grid with no columns). */
  function Rows(g: Grid): nat {
    if |g| == 0 then 0 else |g[0]|
  }

  /** `m` columns of `n` tiles, each with eight vertices and tagged with its own index, as
      the grid's constructors leave it. */
  predicate Padded(g: Grid, m: int, n: int) {
    && |g| == m
    && (forall i :: 0 <= i < m ==> |g[i]| == n)
    && forall i, j :: 0 <= i < m && 0 <= j < n ==>
         |g[i][j].vertices| == VertexCount && g[i][j].globalX == i && g[i][j].globalY == j
  }

  predicate WellFormed(g: Grid) {
    Padded(g, |g|, Rows(g))
  }

  lemma PaddedIsWellFormed(g: Grid, m: int, n: int)
    requires Padded(g, m, n)
    ensures WellFormed(g) && (m > 0 ==> Rows(g) == n)
  {
  }

  /** The cells `computeElevationCorners` rewrites: everything but the outer ring. */
  predicate Interior(g: Grid, i: int, j: int) {
    1 <= i < |g| - 1 && 1 <= j < Rows(g) - 1
  }

  /** The two neighbours that meet corner k of a tile in an even padded column, as offsets.
      Odd padded columns (even logical ones) sit half a hex higher, so an even padded
      column's left and right neighbours are at rows j and j - 1. */
  const EvenCorners: seq<(Cell, Cell)> :=
    [ ((-1, 0), (-1, -1)), ((-1, 0), (0, 1)), ((0, 1), (1, 0)),
      ((1, 0), (1, -1)), ((1, -1), (0, -1)), ((-1, -1), (0, -1)) ]

  /** The same for a tile in an odd padded column, whose left and right neighbours are at rows
      j and j + 1. */
  const OddCorners: seq<(Cell, Cell)> :=
    [ ((-1, 0), (-1, 1)), ((-1, 1), (0, 1)), ((0, 1), (1, 1)),
      ((1, 1), (1, 0)), ((1, 0), (0, -1)), ((0, -1), (-1, 0)) ]

  predicate Near(a: Cell, b: Cell) {
    -1 <= a.0 - b.0 <= 1 && -1 <= a.1 - b.1 <= 1 && a != b
  }

  /** The two tiles other than (i, j) that share corner k of tile (i, j): the table is
      chosen by the parity of the padded column i. */
  function CornerNeighbours(i: int, j: int, k: int): (n: (Cell, Cell))
    requires 0 <= k < 6
    ensures Near(n.0, (i, j)) && Near(n.1, (i, j)) && n.0 != n.1
  {
    var t := if i % 2 == 0 then EvenCorners[k] else OddCorners[k];
    ((i + t.0.0, j + t.0.1), (i + t.1.0, j + t.1.1))
  }

  /** Every neighbour named for a tile off the outer ring lies inside the padded array. */
  lemma CornerNeighboursInside(g: Grid, i: int, j: int, k: int)
    requires Interior(g, i, j) && 0 <= k < 6
    ensures 0 <= CornerNeighbours(i, j, k).0.0 < |g| && 0 <= CornerNeighbours(i, j, k).0.1 < Rows(g)
    ensures 0 <= CornerNeighbours(i, j, k).1.0 < |g| && 0 <= CornerNeighbours(i, j, k).1.1 < Rows(g)
  {
  }

  /** The three tiles that meet at corner k of tile (i, j). */
  function CornerCells(i: int, j: int, k: int): set<Cell>
    requires 0 <= k < 6
  {
    var n := CornerNeighbours(i, j, k);
    {(i, j), n.0, n.1}
  }

  /** Which of its own corners the first and the second neighbour of corner k see as the
      same point. */
  function FirstPartner(i: int, k: int): (p: int)
    requires 0 <= k < 6
    ensures 0 <= p < 6
  {
    if i % 2 == 0 then [4, 3, 4, 5, 0, 3][k] else [2, 3, 4, 5, 0, 1][k]
  }

  function SecondPartner(i: int, k: int): (p: int)
    requires 0 <= k < 6
    ensures 0 <= p < 6
  {
    if i % 2 == 0 then [2, 5, 0, 1, 2, 1][k] else [4, 5, 0, 1, 2, 3][k]
  }

  /** The two tables agree: each of the three tiles that meet at a corner names the same
      three tiles for it. */
  lemma SharedCornerCells(i: int, j: int, k: int)
    requires 0 <= k < 6
    ensures var n := CornerNeighbours(i, j, k);
      && CornerCells(n.0.0, n.0.1, FirstPartner(i, k)) == CornerCells(i, j, k)
      && CornerCells(n.1.0, n.1.1, SecondPartner(i, k)) == CornerCells(i, j, k)
  {
    assert (i - 1) % 2 != i % 2 && (i + 1) % 2 != i % 2;
  }

  /** The height `computeElevationCorners` gives corner k of tile (i, j): the mean of the
      tile's own elevation and those of the two neighbours at that corner. */
  function CornerHeight(g: Grid, i: int, j: int, k: int): (h: real)
    requires WellFormed(g) && Interior(g, i, j) && 0 <= k < 6
    ensures var n := CornerNeighbours(i, j, k);
      var e0, e1, e2 := g[i][j].elevation, g[n.0.0][n.0.1].elevation, g[n.1.0][n.1.1].elevation;
      && (h <= e0 || h <= e1 || h <= e2) && (h >= e0 || h >= e1 || h >= e2)
      && (e0 == e1 == e2 ==> h == e0)
  {
    var n := CornerNeighbours(i, j, k);
    (g[i][j].elevation + g[n.0.0][n.0.1].elevation + g[n.1.0][n.1.1].elevation) / 3.0
  }

  /** Whichever of the three tiles at a corner computes its height, it gets the same
      value. */
  lemma SharedCornerHeights(g: Grid, i: int, j: int, k: int)
    requires WellFormed(g) && Interior(g, i, j) && 0 <= k < 6
    ensures var n := CornerNeighbours(i, j, k);
      && (Interior(g, n.0.0, n.0.1) ==> CornerHeight(g, n.0.0, n.0.1, FirstPartner(i, k)) == CornerHeight(g, i, j, k))
      && (Interior(g, n.1.0, n.1.1) ==> CornerHeight(g, n.1.0, n.1.1, SecondPartner(i, k)) == CornerHeight(g, i, j, k))
  {
    assert (i - 1) % 2 != i % 2 && (i + 1) % 2 != i % 2;
    var n := CornerNeighbours(i, j, k);
    if Interior(g, n.0.0, n.0.1) {
      FirstPartnerHeight(g, i, j, k);
    }
    if Interior(g, n.1.0, n.1.1) {
      SecondPartnerHeight(g, i, j, k);
    }
  }

  lemma FirstPartnerHeight(g: Grid, i: int, j: int, k: int)
    requires WellFormed(g) && Interior(g, i, j) && 0 <= k < 6
    requires Interior(g, CornerNeighbours(i, j, k).0.0, CornerNeighbours(i, j, k).0.1)
    ensures CornerHeight(g, CornerNeighbours(i, j, k).0.0, CornerNeighbours(i, j, k).0.1, FirstPartner(i, k)) == CornerHeight(g, i, j, k)
  {
    assert (i - 1) % 2 != i % 2 && (i + 1) % 2 != i % 2;
    if i % 2 == 0 {
      if k == 0 {} else if k == 1 {} else if k == 2 {} else if k == 3 {} else if k == 4 {} else {}
    } else {
      if k == 0 {} else if k == 1 {} else if k == 2 {} else if k == 3 {} else if k == 4 {} else {}
    }
  }

  lemma SecondPartnerHeight(g: Grid, i: int, j: int, k: int)
    requires WellFormed(g) && Interior(g, i, j) && 0 <= k < 6
    requires Interior(g, CornerNeighbours(i, j, k).1.0, CornerNeighbours(i, j, k).1.1)
    ensures CornerHeight(g, CornerNeighbours(i, j, k).1.0, CornerNeighbours(i, j, k).1.1, SecondPartner(i, k)) == CornerHeight(g, i, j, k)
  {
    assert (i - 1) % 2 != i % 2 && (i + 1) % 2 != i % 2;
    if i % 2 == 0 {
      if k == 0 {} else if k == 1 {} else if k == 2 {} else if k == 3 {} else if k == 4 {} else {}
    } else {
      if k == 0 {} else if k == 1 {} else if k == 2 {} else if k == 3 {} else if k == 4 {} else {}
    }
  }

  /** `u` is `t` with at most the heights of its six perimeter corners changed. */
  predicate SameButCorners(u: Tile, t: Tile) {
    && u.elevation == t.elevation && u.active == t.active
    && u.globalX == t.globalX && u.globalY == t.globalY
    && |u.vertices| == |t.vertices| == VertexCount
    && u.vertices[6] == t.vertices[6] && u.vertices[7] == t.vertices[7]
    && forall k :: 0 <= k < 6 ==> u.vertices[k].x == t.vertices[k].x && u.vertices[k].y == t.vertices[k].y
  }

  /** The six corner heights of tile (i, j), corner by corner. */
  function CornerHeights(g: Grid, i: int, j: int): (zs: seq<real>)
    requires WellFormed(g) && Interior(g, i, j)
    ensures |zs| == 6
    ensures forall k :: 0 <= k < 6 ==> zs[k] == CornerHeight(g, i, j, k)
  {
    seq(6, k requires 0 <= k < 6 => CornerHeight(g, i, j, k))
  }

  /** `t` with the heights of its six perimeter corners set to `zs`. */
  function WithCornerHeights(t: Tile, zs: seq<real>): Tile
    requires |t.vertices| == VertexCount && |zs| == 6
  {
    t.(vertices := seq(VertexCount, k requires 0 <= k < VertexCount =>
      if k < 6 then t.vertices[k].(z := zs[k]) else t.vertices[k]))
  }

  /** Tile (i, j) after the pass. */
  function SmoothTile(g: Grid, i: int, j: int): Tile
    requires WellFormed(g) && 0 <= i < |g| && 0 <= j < Rows(g)
  {
    if Interior(g, i, j) then WithCornerHeights(g[i][j], CornerHeights(g, i, j)) else g[i][j]
  }

  /** The whole grid after `computeElevationCorners`: every tile off the outer ring gets
      its corner heights from the elevations, and nothing else changes. */
  function Smoothed(g: Grid): (s: Grid)
    requires WellFormed(g)
    ensures |s| == |g| && WellFormed(s) && Rows(s) == Rows(g)
    ensures forall i, j :: 0 <= i < |g| && 0 <= j < Rows(g) ==> SameButCorners(s[i][j], g[i][j])
    ensures forall i, j :: 0 <= i < |g| && 0 <= j < Rows(g) && !Interior(g, i, j) ==> s[i][j] == g[i][j]
    ensures forall i, j, k :: Interior(g, i, j) && 0 <= k < 6 ==> s[i][j].vertices[k].z == CornerHeight(g, i, j, k)
  {
    seq(|g|, i requires 0 <= i < |g| => seq(Rows(g), j requires 0 <= j < Rows(g) => SmoothTile(g, i, j)))
  }

  /** Two grids with the same elevations get the same corner heights. */
  lemma SameElevationsSameHeights(g: Grid, h: Grid, i: int, j: int, k: int)
    requires WellFormed(g) && WellFormed(h) && |g| == |h| && Rows(g) == Rows(h)
    requires forall a, b :: 0 <= a < |g| && 0 <= b < Rows(g) ==> g[a][b].elevation == h[a][b].elevation
    requires Interior(g, i, j) && 0 <= k < 6
    ensures CornerHeight(g, i, j, k) == CornerHeight(h, i, j, k)
  {
    CornerNeighboursInside(g, i, j, k);
  }

  /** Smoothing reads only elevations and writes only corner heights, so a second pass
      changes nothing. */
  lemma SmoothedIdempotent(g: Grid)
    requires WellFormed(g)
    ensures Smoothed(Smoothed(g)) == Smoothed(g)
  {
    var s := Smoothed(g);
    var t := Smoothed(s);
    forall i | 0 <= i < |g|
      ensures t[i] == s[i]
    {
      forall j | 0 <= j < Rows(g)
        ensures t[i][j] == s[i][j]
      {
        if Interior(g, i, j) {
          forall k | 0 <= k < 6
            ensures t[i][j].vertices[k] == s[i][j].vertices[k]
          {
            SameElevationsSameHeights(s, g, i, j, k);
          }
          assert t[i][j].vertices == s[i][j].vertices;
        }
      }
    }
  }

  /** The outer ring of the padded array: the cells no logical coordinate addresses. */
  predicate OnRing(g: Grid, i: int, j: int) {
    i == 0 || i == |g| - 1 || j == 0 || j == Rows(g) - 1
  }

  /** The grid with every tile of the outer ring inactive and nothing else changed. */
  function RingDisabled(g: Grid): (s: Grid)
    requires WellFormed(g)
    ensures |s| == |g| && Rows(s) == Rows(g) && WellFormed(s)
    ensures forall i, j :: 0 <= i < |g| && 0 <= j < Rows(g) ==>
      s[i][j] == if OnRing(g, i, j) then g[i][j].(active := false) else g[i][j]
  {
    seq(|g|, i requires 0 <= i < |g| => seq(Rows(g), j requires 0 <= j < Rows(g) =>
      if OnRing(g, i, j) then g[i][j].(active := false) else g[i][j]))
  }

  /** Disabling the ring a second time changes nothing. */
  lemma RingDisabledIdempotent(g: Grid)
    requires WellFormed(g)
    ensures RingDisabled(RingDisabled(g)) == RingDisabled(g)
  {
    var s := RingDisabled(g);
    var t := RingDisabled(s);
    forall i | 0 <= i < |g|
      ensures t[i] == s[i]
    {
      assert |t[i]| == |s[i]| == Rows(g);
    }
  }

  /** Smoothing reads only elevations and writes only corner heights, and disabling the
      ring writes only active flags: the two passes can be run in either order. */
  lemma SmoothingCommutesWithRing(g: Grid)
    requires WellFormed(g)
    ensures Smoothed(RingDisabled(g)) == RingDisabled(Smoothed(g))
  {
    var d := RingDisabled(g);
    var a: Grid, b: Grid := Smoothed(d), RingDisabled(Smoothed(g));
    forall i | 0 <= i < |g|
      ensures a[i] == b[i]
    {
      forall j | 0 <= j < Rows(g)
        ensures a[i][j] == b[i][j]
      {
        if Interior(g, i, j) {
          forall k | 0 <= k < 6
            ensures a[i][j].vertices[k] == b[i][j].vertices[k]
          {
            SameElevationsSameHeights(d, g, i, j, k);
          }
          assert a[i][j].vertices == b[i][j].vertices;
        }
      }
    }
  }
}
