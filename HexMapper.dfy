/** HexEn3D/HexMapper.cs: from offset hex indices to Cartesian points. */
module HexMapper {
  import opened Points
  import opened Wrappers

  type Positive = r: real | r > 0.0 witness 1.0

  /** The radius of a hex. */
  const R: real := 1.0
  /** The width of a hex, 2R. */
  const W: real := 2.0 * R
  /** The height of a hex, sqrt(3)R. Only its positivity is used, so it is left abstract. */
  const H: Positive

  /** Single-hex `createGlobalOrigoMap(x, y, z)`: the lower-left corner of the bounding box of
      hex (x, y). The closed form is applied only when both x and y are non-zero; the odd
      branch has no horizontal shift term. The z argument is not used. Both divisions are
      exact (x even, x - 1 even), so C#'s truncating `/` and Dafny's `/` agree, and so do
      their `%` in the test against zero. */
  function OrigoAt(x: int, y: int, z: int): (p: Point)
    ensures p.z == 0.0
    ensures x == 0 || y == 0 ==> p == Origin
  {
    if x != 0 && y != 0 then
      if x % 2 == 0 then
        Point((x / 2) as real * W + (x / 2) as real * R, y as real * H, 0.0)
      else
        Point(((x - 1) / 2) as real * W + ((x - 1) / 2) as real * R, y as real * H + 0.5 * H, 0.0)
    else
      Origin
  }

  lemma OrigoIgnoresZ(x: int, y: int, z1: int, z2: int)
    ensures OrigoAt(x, y, z1) == OrigoAt(x, y, z2)
  {
  }

  /** Two columns to the right the origin moves by W + R and keeps its height. */
  lemma OrigoColumnStep(x: int, y: int, z: int)
    requires x != 0 && x + 2 != 0 && y != 0
    ensures OrigoAt(x + 2, y, z).x == OrigoAt(x, y, z).x + W + R
    ensures OrigoAt(x + 2, y, z).y == OrigoAt(x, y, z).y
  {
  }

  /** One row up the origin moves by H and keeps its horizontal position. */
  lemma OrigoRowStep(x: int, y: int, z: int)
    requires x != 0 && y != 0 && y + 1 != 0
    ensures OrigoAt(x, y + 1, z).x == OrigoAt(x, y, z).x
    ensures OrigoAt(x, y + 1, z).y == OrigoAt(x, y, z).y + H
  {
  }

  /** An odd column sits half a hex higher than the even column to its left, and, as
      written, at the same horizontal position: the shift S of the pseudocode is missing. */
  lemma OddColumnMissesShift(k: int, y: int, z: int)
    requires k != 0 && y != 0
    ensures OrigoAt(2 * k + 1, y, z).y == OrigoAt(2 * k, y, z).y + 0.5 * H
    ensures OrigoAt(2 * k + 1, y, z).x == OrigoAt(2 * k, y, z).x
  {
    assert (2 * k + 1) % 2 == 1 && (2 * k) % 2 == 0;
    assert (2 * k + 1 - 1) / 2 == k && (2 * k) / 2 == k;
  }

  /** As written, every hex of row 0 and column 0 is placed at the origin. */
  lemma AxisHexesCollapse()
    ensures OrigoAt(2, 0, 0) == OrigoAt(0, 0, 0) == OrigoAt(0, 3, 0) == Origin
  {
  }

  /** `createLocalHexVertexCoord()`: the offsets of the six perimeter corners from the origin,
      in the order left, top-left, top-right, right, bottom-right, bottom-left. They lie in
      the W x H bounding box, in the ground plane, and opposite corners are symmetric about
      the centre (R, H/2). */
  function LocalShifts(): (s: seq<Point>)
    ensures |s| == 6
    ensures forall k :: 0 <= k < 6 ==> s[k].z == 0.0 && 0.0 <= s[k].x <= W && 0.0 <= s[k].y <= H
    ensures forall k :: 0 <= k < 3 ==> Add(s[k], s[k + 3]) == Point(2.0 * R, H, 0.0)
  {
    [ Point(0.0 * R, 0.5 * H, 0.0), Point(0.5 * R, 1.0 * H, 0.0), Point(1.5 * R, 1.0 * H, 0.0),
      Point(2.0 * R, 0.5 * H, 0.0), Point(1.5 * R, 0.0 * H, 0.0), Point(0.5 * R, 0.0 * H, 0.0) ]
  }

  /** The six perimeter corners of a hex whose origin is `o`. */
  function HexCorners(o: Point): (vs: seq<Point>)
    ensures |vs| == 6
    ensures forall k :: 0 <= k < 6 ==> Sub(vs[k], o) == LocalShifts()[k]
  {
    seq(6, k requires 0 <= k < 6 => Add(o, LocalShifts()[k]))
  }

  /** `createLocalHexVertexCoord()` as written: six origins, each shifted by one constant. */
  method LocalHexVertexCoord() returns (xyzs: array<Point>)
    ensures fresh(xyzs) && xyzs[..] == LocalShifts()
  {
    xyzs := new Point[6](_ => Origin);
    xyzs[0] := Add(xyzs[0], Point(0.0 * R, 0.5 * H, 0.0));
    xyzs[1] := Add(xyzs[1], Point(0.5 * R, 1.0 * H, 0.0));
    xyzs[2] := Add(xyzs[2], Point(1.5 * R, 1.0 * H, 0.0));
    xyzs[3] := Add(xyzs[3], Point(2.0 * R, 0.5 * H, 0.0));
    xyzs[4] := Add(xyzs[4], Point(1.5 * R, 0.0 * H, 0.0));
    xyzs[5] := Add(xyzs[5], Point(0.5 * R, 0.0 * H, 0.0));
  }

  /** `createGlobalHexVertexCoord(a, b, c)`: corner i is the origin of hex (a, b) plus local
      shift i. */
  method GlobalHexVertexCoord(a: int, b: int, c: int) returns (xyzs: array<Point>)
    ensures fresh(xyzs) && xyzs[..] == HexCorners(OrigoAt(a, b, c))
  {
    var globalCoord := OrigoAt(a, b, c);
    xyzs := new Point[6](_ => globalCoord);
    var localshift := LocalHexVertexCoord();
    for i := 0 to 6
      invariant localshift[..] == LocalShifts()
      invariant forall k :: 0 <= k < i ==> xyzs[k] == Add(globalCoord, LocalShifts()[k])
      invariant forall k :: i <= k < 6 ==> xyzs[k] == globalCoord
    {
      xyzs[i] := Add(xyzs[i], localshift[i]);
    }
    assert xyzs[..] == HexCorners(globalCoord);
  }

  /** Array `createGlobalOrigoMap(xs, ys, zs)`: point i is the origin of hex (xs[i], ys[i]);
      `zs` is never read. Each `ys[i]` is read even when `xs[i]` is zero, so a `ys` shorter
      than `xs` throws. */
  method GlobalOrigoMap(xs: seq<int>, ys: seq<int>, zs: seq<int>) returns (r: Result<array<Point>>)
    ensures r.Ok? <==> |xs| <= |ys|
    ensures r.Err? ==> r.error == IndexOutOfRange
    ensures r.Ok? ==> fresh(r.value) && r.value.Length == |xs|
    ensures r.Ok? ==> forall k :: 0 <= k < |xs| ==> r.value[k] == OrigoAt(xs[k], ys[k], 0)
  {
    var xyzs := new Point[|xs|](_ => Origin);
    for i := 0 to xyzs.Length
      invariant i <= |ys|
      invariant forall k :: 0 <= k < i ==> xyzs[k] == OrigoAt(xs[k], ys[k], 0)
    {
      if i >= |ys| {
        return Err(IndexOutOfRange);
      }
      var p := Origin;
      if xs[i] != 0 && ys[i] != 0 {
        if xs[i] % 2 == 0 {
          p := p.(x := (xs[i] / 2) as real * W + (xs[i] / 2) as real * R);
          p := p.(y := ys[i] as real * H);
        } else {
          p := p.(x := ((xs[i] - 1) / 2) as real * W + ((xs[i] - 1) / 2) as real * R);
          p := p.(y := ys[i] as real * H + 0.5 * H);
        }
      }
      xyzs[i] := p;
    }
    return Ok(xyzs);
  }

  // The placement the pseudocode of HexMapper.cs describes, used to state what the two
  // defects of OrigoAt break.

  /** The horizontal offset of an odd column, (3/2)R. */
  const ShortDiagonal: real := 1.5 * R

  /** Hex (x, y)'s origin as intended: the special case is (0, 0) only, which the closed form
      already maps to the origin, and odd columns are shifted right by (3/2)R. */
  function TiledOrigoAt(x: int, y: int): (p: Point)
    ensures p.z == 0.0
    ensures p.x == 1.5 * x as real * R
    ensures p.y == y as real * H + (if x % 2 == 0 then 0.0 else 0.5 * H)
  {
    if x % 2 == 0 then
      assert (x / 2) as real * 2.0 == x as real;
      Point((x / 2) as real * W + (x / 2) as real * R, y as real * H, 0.0)
    else
      assert ((x - 1) / 2) as real * 2.0 == x as real - 1.0;
      Point(((x - 1) / 2) as real * W + ((x - 1) / 2) as real * R + ShortDiagonal, y as real * H + 0.5 * H, 0.0)
  }

  /** The intended placement differs from OrigoAt only on the two axes and by the shift of
      odd columns. */
  lemma TiledDiffersOnlyByDefects(x: int, y: int, z: int)
    requires x != 0 && y != 0
    ensures x % 2 == 0 ==> TiledOrigoAt(x, y) == OrigoAt(x, y, z)
    ensures x % 2 == 1 ==> TiledOrigoAt(x, y) == Add(OrigoAt(x, y, z), Point(ShortDiagonal, 0.0, 0.0))
  {
  }

  /** No two hexes share an intended origin. */
  lemma TiledOrigoInjective(x1: int, y1: int, x2: int, y2: int)
    requires TiledOrigoAt(x1, y1) == TiledOrigoAt(x2, y2)
    ensures x1 == x2 && y1 == y2
  {
    var p1, p2 := TiledOrigoAt(x1, y1), TiledOrigoAt(x2, y2);
    assert x1 == x2 by {
      assert 1.5 * x1 as real * R == 1.5 * x2 as real * R;
    }
    assert (y1 - y2) as real * H == 0.0 by {
      assert y1 as real * H == y2 as real * H;
    }
    ProductWithPositive((y1 - y2) as real, H);
  }

  lemma ProductWithPositive(a: real, b: real)
    requires b > 0.0 && a * b == 0.0
    ensures a == 0.0
  {
  }

  /** The hex above (x, y), and the hexes to its upper and lower right, in offset coordinates:
      odd logical columns sit half a hex higher than even ones. This is the mirror of the
      padded-column convention of the grid: there the odd padded columns, that is the even
      logical ones, sit higher. */
  function UpperRight(x: int, y: int): (int, int) {
    if x % 2 == 0 then (x + 1, y) else (x + 1, y + 1)
  }

  function LowerRight(x: int, y: int): (int, int) {
    if x % 2 == 0 then (x + 1, y - 1) else (x + 1, y)
  }

  /** With the intended placement every hex shares an edge, both of its end corners, with
      the hex above it and with the hexes to its upper and lower right: the hexes tile the
      plane. */
  lemma TiledEdgesShared(x: int, y: int)
    ensures HexCorners(TiledOrigoAt(x, y + 1))[5] == HexCorners(TiledOrigoAt(x, y))[1]
    ensures HexCorners(TiledOrigoAt(x, y + 1))[4] == HexCorners(TiledOrigoAt(x, y))[2]
    ensures HexCorners(TiledOrigoAt(UpperRight(x, y).0, UpperRight(x, y).1))[0] == HexCorners(TiledOrigoAt(x, y))[2]
    ensures HexCorners(TiledOrigoAt(UpperRight(x, y).0, UpperRight(x, y).1))[5] == HexCorners(TiledOrigoAt(x, y))[3]
    ensures HexCorners(TiledOrigoAt(LowerRight(x, y).0, LowerRight(x, y).1))[1] == HexCorners(TiledOrigoAt(x, y))[3]
    ensures HexCorners(TiledOrigoAt(LowerRight(x, y).0, LowerRight(x, y).1))[0] == HexCorners(TiledOrigoAt(x, y))[4]
  {
    EdgeAbove(x, y);
    EdgeUpperRight(x, y);
    EdgeLowerRight(x, y);
  }

  lemma EdgeAbove(x: int, y: int)
    ensures HexCorners(TiledOrigoAt(x, y + 1))[5] == HexCorners(TiledOrigoAt(x, y))[1]
    ensures HexCorners(TiledOrigoAt(x, y + 1))[4] == HexCorners(TiledOrigoAt(x, y))[2]
  {
    var o, t := TiledOrigoAt(x, y), TiledOrigoAt(x, y + 1);
    assert (y + 1) as real * H == y as real * H + H;
    assert t.x == o.x && t.y == o.y + H;
  }

  lemma EdgeUpperRight(x: int, y: int)
    ensures HexCorners(TiledOrigoAt(UpperRight(x, y).0, UpperRight(x, y).1))[0] == HexCorners(TiledOrigoAt(x, y))[2]
    ensures HexCorners(TiledOrigoAt(UpperRight(x, y).0, UpperRight(x, y).1))[5] == HexCorners(TiledOrigoAt(x, y))[3]
  {
    var o := TiledOrigoAt(x, y);
    assert (y + 1) as real * H == y as real * H + H;
    assert (x + 1) % 2 != x % 2;
    var ur := TiledOrigoAt(UpperRight(x, y).0, UpperRight(x, y).1);
    assert ur.x == o.x + 1.5 && ur.y == o.y + 0.5 * H;
  }

  lemma EdgeLowerRight(x: int, y: int)
    ensures HexCorners(TiledOrigoAt(LowerRight(x, y).0, LowerRight(x, y).1))[1] == HexCorners(TiledOrigoAt(x, y))[3]
    ensures HexCorners(TiledOrigoAt(LowerRight(x, y).0, LowerRight(x, y).1))[0] == HexCorners(TiledOrigoAt(x, y))[4]
  {
    var o := TiledOrigoAt(x, y);
    assert (y - 1) as real * H == y as real * H - H;
    assert (x + 1) % 2 != x % 2;
    var lr := TiledOrigoAt(LowerRight(x, y).0, LowerRight(x, y).1);
    assert lr.x == o.x + 1.5 && lr.y == o.y - 0.5 * H;
  }

  /** As written, hex (1, 1) and its upper-right neighbour (2, 2) do not meet: the corner they
      should share is 1.5 apart. */
  lemma AsWrittenEdgeNotShared()
    ensures UpperRight(1, 1) == (2, 2)
    ensures HexCorners(OrigoAt(1, 1, 0))[2] == Point(1.5, 2.5 * H, 0.0)
    ensures HexCorners(OrigoAt(2, 2, 0))[0] == Point(3.0, 2.5 * H, 0.0)
  {
    assert OrigoAt(1, 1, 0) == Point(0.0, 1.5 * H, 0.0);
    assert OrigoAt(2, 2, 0) == Point(3.0, 2.0 * H, 0.0);
    assert LocalShifts()[0] == Point(0.0, 0.5 * H, 0.0);
    assert LocalShifts()[2] == Point(1.5, H, 0.0);
  }
}
