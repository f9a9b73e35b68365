/** HexEn/xyz.cs: a point of continuous space with addition and subtraction. */
module Points {

  /** The value of an {x,y,z} point. The C# doubles are modelled as reals. */
  datatype Point = Point(x: real, y: real, z: real)

  /** The point the default constructor builds. */
  const Origin := Point(0.0, 0.0, 0.0)

  /** `operator -`: the component-wise difference, the point that `b` must be moved by to
      reach `a`. */
  function Sub(a: Point, b: Point): (r: Point)
    ensures r.x + b.x == a.x && r.y + b.y == a.y && r.z + b.z == a.z
  {
    Point(a.x - b.x, a.y - b.y, a.z - b.z)
  }

  /** `operator +`: the component-wise sum, the point from which taking away either
      operand leaves the other. */
  function Add(a: Point, b: Point): (r: Point)
    ensures Sub(r, b) == a && Sub(r, a) == b
  {
    Point(a.x + b.x, a.y + b.y, a.z + b.z)
  }

  lemma SubUndoesAdd(a: Point, b: Point)
    ensures Sub(Add(a, b), b) == a
  {
  }

  lemma AddUndoesSub(a: Point, b: Point)
    ensures Add(Sub(a, b), b) == a
  {
  }

  lemma AddCommutes(a: Point, b: Point)
    ensures Add(a, b) == Add(b, a)
  {
  }

  lemma OriginIsNeutral(a: Point)
    ensures Add(Origin, a) == a && Add(a, Origin) == a && Sub(a, Origin) == a && Sub(a, a) == Origin
  {
  }

  /** The mutable `xyz` object: three coordinates and their setters. */
  class Xyz {
    var x: real
    var y: real
    var z: real

    /** The point this object currently holds. */
    function Value(): Point
      reads this
    {
      Point(x, y, z)
    }

    /** `xyz(x, y, z)` stores exactly its arguments. */
    constructor (x: real, y: real, z: real)
      ensures Value() == Point(x, y, z)
    {
      this.x, this.y, this.z := x, y, z;
    }

    /** `xyz()` is the origin. */
    constructor Zero()
      ensures Value() == Origin
    {
      x, y, z := 0.0, 0.0, 0.0;
    }

    method SetX(v: real)
      modifies this`x
      ensures Value() == old(Value()).(x := v)
    {
      x := v;
    }

    method SetY(v: real)
      modifies this`y
      ensures Value() == old(Value()).(y := v)
    {
      y := v;
    }

    method SetZ(v: real)
      modifies this`z
      ensures Value() == old(Value()).(z := v)
    {
      z := v;
    }

    /** `operator +` on objects: a fresh object holding the sum; neither operand changes. */
    static method Plus(a: Xyz, b: Xyz) returns (r: Xyz)
      ensures fresh(r) && r.Value() == Add(a.Value(), b.Value())
    {
      r := new Xyz.Zero();
      r.SetX(a.x + b.x);
      r.SetY(a.y + b.y);
      r.SetZ(a.z + b.z);
    }

    /** `operator -` on objects: a fresh object holding the difference; neither operand changes. */
    static method Minus(a: Xyz, b: Xyz) returns (r: Xyz)
      ensures fresh(r) && r.Value() == Sub(a.Value(), b.Value())
    {
      r := new Xyz.Zero();
      r.SetX(a.x - b.x);
      r.SetY(a.y - b.y);
      r.SetZ(a.z - b.z);
    }
  }
}
