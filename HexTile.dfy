/** HexEn3D/Hex.cs: one hexagonal tile with eight vertices, an elevation and an active flag. */
module HexTile {
  import opened Points
  import opened Wrappers

  /** Six perimeter corners (0 left, 1 top-left, 2 top-right, 3 right, 4 bottom-right,
      5 bottom-left) and the two inner points 6 and 7 used for the 3D mesh. */
  const VertexCount := 8

  /** Eight vertices at the origin, as both plain constructors leave them. */
  const OriginVertices: seq<Point> := seq(VertexCount, _ => Origin)

  /** The value a `Hex` object holds. `globalX`/`globalY` is the coordinate stored by
      `setGlobalCoord`, which the grid sets to the tile's padded array index. */
  datatype Tile = Tile(vertices: seq<Point>, elevation: real, active: bool, globalX: int, globalY: int)

  /** The outcome of the index guard of `setVertexAt` and `setVertex{X,Y,Z}At` followed by
      the array access: the guard throws for index < 0 and index > 8, so index 8 passes it
      and then fails as an access past the end of the eight-element array. */
  function VertexIndexCheck(index: int): (s: Status)
    ensures s == Done <==> 0 <= index < VertexCount
    ensures s == Fail(ArgumentOutOfRange) <==> index < 0 || VertexCount < index
    ensures s == Fail(IndexOutOfRange) <==> index == VertexCount
  {
    if index < 0 || index > 8 then Fail(ArgumentOutOfRange)
    else if index >= VertexCount then Fail(IndexOutOfRange)
    else Done
  }

  /** The tile after `setElevation(e)`: the elevation is `e`, the two inner vertices sit
      at height `e`, and nothing else changes. */
  function WithElevation(t: Tile, e: real): (r: Tile)
    requires |t.vertices| == VertexCount
    ensures r.elevation == e && |r.vertices| == VertexCount
    ensures r.vertices[6].z == e && r.vertices[7].z == e
    ensures forall k :: 0 <= k < VertexCount && k != 6 && k != 7 ==> r.vertices[k] == t.vertices[k]
    ensures r.vertices[6].x == t.vertices[6].x && r.vertices[6].y == t.vertices[6].y
    ensures r.vertices[7].x == t.vertices[7].x && r.vertices[7].y == t.vertices[7].y
    ensures r.active == t.active && r.globalX == t.globalX && r.globalY == t.globalY
  {
    var vs := t.vertices[6 := t.vertices[6].(z := e)];
    t.(vertices := vs[7 := vs[7].(z := e)], elevation := e)
  }

  /** Setting the same elevation twice is the same as setting it once. */
  lemma WithElevationIdempotent(t: Tile, e: real)
    requires |t.vertices| == VertexCount
    ensures WithElevation(WithElevation(t, e), e) == WithElevation(t, e)
  {
  }

  class Hex {
    var vertices: seq<Point>
    var elevation: real
    var active: bool
    var globalX: int
    var globalY: int

    ghost predicate Valid()
      reads this
    {
      |vertices| == VertexCount
    }

    /** The tile this object currently holds. */
    function View(): Tile
      reads this
    {
      Tile(vertices, elevation, active, globalX, globalY)
    }

    /** `Hex()`: eight vertices at (0,0,0), elevation 0 and active. */
    constructor ()
      ensures Valid() && vertices == OriginVertices
      ensures elevation == 0.0 && active
    {
      var vs: seq<Point> := [];
      for i := 0 to VertexCount
        invariant vs == seq(i, _ => Origin)
      {
        vs := vs + [Origin];
      }
      vertices := vs;
      elevation := 0.0;
      active := true;
    }

    /** `Hex(elevation)`: the elevation is set but every vertex, the inner two included,
        stays at (0,0,0). */
    constructor AtElevation(e: real)
      ensures Valid() && vertices == OriginVertices
      ensures elevation == e && active
    {
      var vs: seq<Point> := [];
      for i := 0 to VertexCount
        invariant vs == seq(i, _ => Origin)
      {
        vs := vs + [Origin];
      }
      vertices := vs;
      elevation := e;
      active := true;
    }

    /** `Hex(xyzs, elevation)`: throws unless exactly eight vertices are given. */
    static method FromVertices(xyzs: seq<Point>, e: real) returns (r: Result<Hex>)
      ensures r.Ok? <==> |xyzs| == VertexCount
      ensures r.Err? ==> r.error == ArgumentOutOfRange
      ensures r.Ok? ==> fresh(r.value) && r.value.Valid()
      ensures r.Ok? ==> r.value.vertices == xyzs && r.value.elevation == e && r.value.active
    {
      if |xyzs| != 8 {
        return Err(ArgumentOutOfRange);
      }
      var h := new Hex();
      h.vertices := xyzs;
      h.elevation := e;
      return Ok(h);
    }

    /** `getVertexAt(i)`: no guard of its own, so an index outside the array throws. */
    function GetVertexAt(i: int): (r: Result<Point>)
      reads this
      requires Valid()
      ensures r.Ok? <==> 0 <= i < VertexCount
      ensures r.Ok? ==> r.value == vertices[i]
      ensures r.Err? ==> r.error == IndexOutOfRange
    {
      if 0 <= i < |vertices| then Ok(vertices[i]) else Err(IndexOutOfRange)
    }

    /** `setElevation(e)`: inner vertices 6 and 7 follow the elevation. */
    method SetElevation(e: real)
      requires Valid()
      modifies this`vertices, this`elevation
      ensures Valid() && View() == WithElevation(old(View()), e)
    {
      vertices := vertices[6 := vertices[6].(z := e)];
      vertices := vertices[7 := vertices[7].(z := e)];
      elevation := e;
    }

    method SetVertexAt(p: Point, index: int) returns (s: Status)
      requires Valid()
      modifies this`vertices
      ensures Valid() && s == VertexIndexCheck(index)
      ensures vertices == if s == Done then old(vertices)[index := p] else old(vertices)
    {
      if index < 0 || index > 8 {
        return Fail(ArgumentOutOfRange);
      }
      if index >= |vertices| {
        return Fail(IndexOutOfRange);
      }
      vertices := vertices[index := p];
      return Done;
    }

    method SetVertexXAt(v: real, index: int) returns (s: Status)
      requires Valid()
      modifies this`vertices
      ensures Valid() && s == VertexIndexCheck(index)
      ensures vertices == if s == Done then old(vertices)[index := old(vertices)[index].(x := v)] else old(vertices)
    {
      if index < 0 || index > 8 {
        return Fail(ArgumentOutOfRange);
      }
      if index >= |vertices| {
        return Fail(IndexOutOfRange);
      }
      vertices := vertices[index := vertices[index].(x := v)];
      return Done;
    }

    method SetVertexYAt(v: real, index: int) returns (s: Status)
      requires Valid()
      modifies this`vertices
      ensures Valid() && s == VertexIndexCheck(index)
      ensures vertices == if s == Done then old(vertices)[index := old(vertices)[index].(y := v)] else old(vertices)
    {
      if index < 0 || index > 8 {
        return Fail(ArgumentOutOfRange);
      }
      if index >= |vertices| {
        return Fail(IndexOutOfRange);
      }
      vertices := vertices[index := vertices[index].(y := v)];
      return Done;
    }

    method SetVertexZAt(v: real, index: int) returns (s: Status)
      requires Valid()
      modifies this`vertices
      ensures Valid() && s == VertexIndexCheck(index)
      ensures vertices == if s == Done then old(vertices)[index := old(vertices)[index].(z := v)] else old(vertices)
    {
      if index < 0 || index > 8 {
        return Fail(ArgumentOutOfRange);
      }
      if index >= |vertices| {
        return Fail(IndexOutOfRange);
      }
      vertices := vertices[index := vertices[index].(z := v)];
      return Done;
    }

    /** `setVertices(xyzs)`: checks the length before assigning anything. */
    method SetVertices(xyzs: seq<Point>) returns (s: Status)
      requires Valid()
      modifies this`vertices
      ensures Valid()
      ensures s == if |xyzs| == VertexCount then Done else Fail(ArgumentOutOfRange)
      ensures vertices == if s == Done then xyzs else old(vertices)
    {
      if |xyzs| != 8 {
        return Fail(ArgumentOutOfRange);
      }
      vertices := xyzs;
      return Done;
    }

    method SetActive(b: bool)
      modifies this`active
      ensures View() == old(View()).(active := b)
    {
      active := b;
    }

    /** `setGlobalCoord(x, y)`: called by the grid; its body is not part of Hex.cs, so it
        is modelled as storing the pair in two plain fields. */
    method SetGlobalCoord(x: int, y: int)
      modifies this`globalX, this`globalY
      ensures View() == old(View()).(globalX := x, globalY := y)
    {
      globalX, globalY := x, y;
    }
  }
}
