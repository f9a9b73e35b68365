/** The value-level specification of HexEn3D/Path.cs: the one-step rule table of
    `bruteWalkStep` and what a walk built from it satisfies. Positions are logical
    coordinates (x, y); the padded array index is (x + 1, y + 1). */
module WalkSpec {
  import opened HexTile
  import opened GridSpec
  import HexMapper

  type Pos = (int, int)

  /** C#'s `%` for a positive divisor: truncating, so the remainder takes the sign of `a`.
      For the divisor 2 of `bruteWalkStep` an even `a` gives 0 and an odd one gives 1 or -1
      by its sign, where Dafny's Euclidean `%` gives 1 for both signs. */
  function CsRem(a: int, b: int): (r: int)
    requires b > 0
    ensures -b < r < b
    ensures b == 2 && a % 2 == 0 ==> r == 0
    ensures b == 2 && a % 2 == 1 ==> r == (if a >= 0 then 1 else -1)
  {
    if a >= 0 then a % b else -((-a) % b)
  }

  /** For logical columns x >= 0 the walker's test `x % 2 == 1` picks exactly the columns
      whose padded index x + 1 is even, the columns the smoothing tables call even. */
  lemma ColumnTestIsPaddedParity(x: int)
    requires x >= 0
    ensures CsRem(x, 2) == 1 <==> (x + 1) % 2 == 0
  {
  }

  /** The sign of an integer: the direction of one step toward a coordinate. */
  function Sgn(a: int): (s: int)
    ensures s == 0 <==> a == 0
    ensures s * a == Abs(a)
  {
    if a < 0 then -1 else if a > 0 then 1 else 0
  }

  function Abs(a: int): nat {
    if a < 0 then -a else a
  }

  /** The walker's distance to its destination: the sum of the axis distances. */
  function Dist(p: Pos, d: Pos): nat {
    Abs(p.0 - d.0) + Abs(p.1 - d.1)
  }

  /** `b` lies between `a` and `c`, either way round. */
  predicate Between(a: int, b: int, c: int) {
    (a <= b <= c) || (c <= b <= a)
  }

  /** The outcome of one `bruteWalkStep`: arrival, or a move to a new position. */
  datatype Step = Arrived | Move(to: Pos)

  /** `q` is one step from `p` toward `d`: no axis moves more than 1 and neither axis
      overshoots the destination. */
  predicate Toward(p: Pos, q: Pos, d: Pos) {
    && -1 <= q.0 - p.0 <= 1 && -1 <= q.1 - p.1 <= 1
    && Between(p.0, q.0, d.0) && Between(p.1, q.1, d.1)
  }

  /** The rule table of `bruteWalkStep`. The column test is C#'s `x % 2 == 1`, which holds
      for positive odd x only. In a column where it holds the up-diagonals are replaced by
      horizontal steps, elsewhere the down-diagonals are. */
  function WalkStep(p: Pos, d: Pos): (s: Step)
    ensures s.Arrived? <==> p == d
    ensures s.Move? ==> Toward(p, s.to, d) && Dist(s.to, d) < Dist(p, d)
  {
    var x, y, x1, y1 := p.0, p.1, d.0, d.1;
    if CsRem(x, 2) == 1 then
      if x < x1 && y == y1 then Move((x + 1, y))
      else if x > x1 && y == y1 then Move((x - 1, y))
      else if x == x1 && y < y1 then Move((x, y + 1))
      else if x == x1 && y > y1 then Move((x, y - 1))
      else if x < x1 && y < y1 then Move((x + 1, y))
      else if x > x1 && y > y1 then Move((x - 1, y - 1))
      else if x < x1 && y > y1 then Move((x + 1, y - 1))
      else if x > x1 && y < y1 then Move((x - 1, y))
      else Arrived
    else
      if x < x1 && y == y1 then Move((x + 1, y))
      else if x > x1 && y == y1 then Move((x - 1, y))
      else if x == x1 && y < y1 then Move((x, y + 1))
      else if x == x1 && y > y1 then Move((x, y - 1))
      else if x < x1 && y < y1 then Move((x + 1, y + 1))
      else if x > x1 && y > y1 then Move((x - 1, y))
      else if x < x1 && y > y1 then Move((x + 1, y))
      else if x > x1 && y < y1 then Move((x - 1, y + 1))
      else Arrived
  }

  /** Padded cell `e` shares a corner with padded cell `c`, as the smoothing tables list
      the cells around each corner. */
  predicate Touches(c: Cell, e: Cell) {
    exists k :: 0 <= k < 6 && (e == CornerNeighbours(c.0, c.1, k).0 || e == CornerNeighbours(c.0, c.1, k).1)
  }

  /** Two logical positions are neighbouring hexes. */
  predicate Adjacent(p: Pos, q: Pos) {
    Touches((p.0 + 1, p.1 + 1), (q.0 + 1, q.1 + 1))
  }

  /** From any column x >= 0 every move goes to a neighbouring hex, so every diagonal the
      table keeps is one the hex layout allows in that column. `LegalDiagonalKept` is the
      converse. */
  lemma StepIsAdjacent(p: Pos, d: Pos)
    requires p.0 >= 0 && WalkStep(p, d).Move?
    ensures Adjacent(p, WalkStep(p, d).to)
  {
    var q := WalkStep(p, d).to;
    var i, j := p.0 + 1, p.1 + 1;
    var dx, dy := q.0 - p.0, q.1 - p.1;
    ColumnTestIsPaddedParity(p.0);
    if i % 2 == 0 {
      if dx == -1 && dy == 0 { assert CornerNeighbours(i, j, 0).0 == (i - 1, j); }
      else if dx == -1 { assert CornerNeighbours(i, j, 0).1 == (i - 1, j - 1); }
      else if dx == 0 && dy == 1 { assert CornerNeighbours(i, j, 1).1 == (i, j + 1); }
      else if dx == 0 { assert CornerNeighbours(i, j, 4).1 == (i, j - 1); }
      else if dy == 0 { assert CornerNeighbours(i, j, 3).0 == (i + 1, j); }
      else { assert CornerNeighbours(i, j, 3).1 == (i + 1, j - 1); }
    } else {
      if dx == -1 && dy == 0 { assert CornerNeighbours(i, j, 0).0 == (i - 1, j); }
      else if dx == -1 { assert CornerNeighbours(i, j, 0).1 == (i - 1, j + 1); }
      else if dx == 0 && dy == 1 { assert CornerNeighbours(i, j, 1).1 == (i, j + 1); }
      else if dx == 0 { assert CornerNeighbours(i, j, 4).1 == (i, j - 1); }
      else if dy == 0 { assert CornerNeighbours(i, j, 3).1 == (i + 1, j); }
      else { assert CornerNeighbours(i, j, 2).1 == (i + 1, j + 1); }
    }
  }

  /** The converse: from any column x >= 0, when the diagonal step straight toward the
      destination reaches a neighbouring hex, the table takes it and replaces it by nothing
      else. */
  lemma LegalDiagonalKept(p: Pos, d: Pos)
    requires p.0 >= 0 && p.0 != d.0 && p.1 != d.1
    requires Adjacent(p, (p.0 + Sgn(d.0 - p.0), p.1 + Sgn(d.1 - p.1)))
    ensures WalkStep(p, d) == Move((p.0 + Sgn(d.0 - p.0), p.1 + Sgn(d.1 - p.1)))
  {
    ColumnTestIsPaddedParity(p.0);
  }

  /** At x = -1 (the left border column) C# gives -1 % 2 == -1, so the column is treated
      as if it were even and a diagonal can leave the hex neighbourhood. */
  lemma BorderColumnStepNotAdjacent()
    ensures WalkStep((-1, 0), (0, 5)) == Move((0, 1))
    ensures !Adjacent((-1, 0), (0, 1))
  {
    assert CsRem(-1, 2) == -1;
    forall k | 0 <= k < 6
      ensures (1, 2) != CornerNeighbours(0, 1, k).0 && (1, 2) != CornerNeighbours(0, 1, k).1
    {
    }
  }

  /** The mapper lifts odd logical columns, the grid's tables lift odd padded ones: the
      hex the mapper puts to the lower right of (2, 1) is not a neighbour of (2, 1) in the
      grid. */
  lemma ColumnConventionsMirror()
    ensures HexMapper.LowerRight(2, 1) == (3, 0)
    ensures !Adjacent((2, 1), (3, 0))
  {
    forall k | 0 <= k < 6
      ensures (4, 1) != CornerNeighbours(3, 2, k).0 && (4, 1) != CornerNeighbours(3, 2, k).1
    {
    }
  }

  /** `t` is a trail the walker can produce toward `d`: each position after the first is
      the rule table's move from the one before. */
  predicate GreedyWalk(t: seq<Pos>, d: Pos) {
    |t| >= 1 && forall k :: 1 <= k < |t| ==> WalkStep(t[k - 1], d) == Move(t[k])
  }

  /** A walk extended by the rule table's next move is still a walk. */
  lemma WalkExtends(t: seq<Pos>, d: Pos, q: Pos)
    requires GreedyWalk(t, d) && WalkStep(t[|t| - 1], d) == Move(q)
    ensures GreedyWalk(t + [q], d)
  {
    var u := t + [q];
    forall k | 1 <= k < |u|
      ensures WalkStep(u[k - 1], d) == Move(u[k])
    {
      if k < |t| {
        assert u[k - 1] == t[k - 1] && u[k] == t[k];
      }
    }
  }

  /** Every move shortens the distance by at least one, so a trail of n moves started at
      distance D ends at distance at most D - n. */
  lemma {:induction false} WalkShortens(t: seq<Pos>, d: Pos)
    requires GreedyWalk(t, d)
    ensures |t| - 1 <= Dist(t[0], d) - Dist(t[|t| - 1], d)
  {
    if |t| > 1 {
      var s := t[..|t| - 1];
      assert GreedyWalk(s, d) by {
        forall k | 1 <= k < |s| ensures WalkStep(s[k - 1], d) == Move(s[k]) {
          assert WalkStep(t[k - 1], d) == Move(t[k]);
        }
      }
      WalkShortens(s, d);
      assert WalkStep(t[|t| - 2], d) == Move(t[|t| - 1]);
    }
  }

  /** The whole trail stays in the box spanned by its start and the destination. */
  lemma {:induction false} WalkInBox(t: seq<Pos>, d: Pos)
    requires GreedyWalk(t, d)
    ensures forall k :: 0 <= k < |t| ==> Between(t[0].0, t[k].0, d.0) && Between(t[0].1, t[k].1, d.1)
  {
    if |t| > 1 {
      var s := t[..|t| - 1];
      assert GreedyWalk(s, d) by {
        forall k | 1 <= k < |s| ensures WalkStep(s[k - 1], d) == Move(s[k]) {
          assert WalkStep(t[k - 1], d) == Move(t[k]);
        }
      }
      WalkInBox(s, d);
      assert WalkStep(t[|t| - 2], d) == Move(t[|t| - 1]);
      assert forall k :: 0 <= k < |s| ==> t[k] == s[k];
    }
  }

  /** A walk never reaches the destination before its last position: it stops there. */
  lemma WalkStopsAtDestination(t: seq<Pos>, d: Pos)
    requires GreedyWalk(t, d)
    ensures forall k :: 0 <= k < |t| - 1 ==> t[k] != d
  {
    forall k | 0 <= k < |t| - 1
      ensures t[k] != d
    {
      assert WalkStep(t[k], d) == Move(t[k + 1]);
    }
  }

  /** Position `p` addresses a cell of the padded array `g`. */
  predicate OnBoard<T>(g: seq<seq<T>>, p: Pos) {
    0 <= p.0 + 1 < |g| && 0 <= p.1 + 1 < |g[p.0 + 1]|
  }

  /** Every position of `t` addresses a cell of `g`. */
  predicate OnGrid<T>(g: seq<seq<T>>, t: seq<Pos>) {
    forall k :: 0 <= k < |t| ==> OnBoard(g, t[k])
  }

  /** The entries of `g` at the positions of `t`, in order. */
  function Along<T>(g: seq<seq<T>>, t: seq<Pos>): seq<T>
    requires OnGrid(g, t)
  {
    seq(|t|, k requires 0 <= k < |t| && OnGrid(g, t) => g[t[k].0 + 1][t[k].1 + 1])
  }

  /** Extending the trail extends what is read along it. */
  lemma AlongAppend<T>(g: seq<seq<T>>, t: seq<Pos>, q: Pos)
    requires OnGrid(g, t) && OnBoard(g, q)
    ensures OnGrid(g, t + [q]) && Along(g, t + [q]) == Along(g, t) + [g[q.0 + 1][q.1 + 1]]
  {
    assert forall k :: 0 <= k < |t| ==> (t + [q])[k] == t[k];
    assert (t + [q])[..|t|] == t;
  }

  /** One more position on the trail adds the cost of the move from the trail's last tile
      to the new one. */
  lemma TrailCostAppend(cost: (Tile, Tile) -> real, g: Grid, t: seq<Pos>, q: Pos)
    requires OnGrid(g, t) && |t| >= 1 && OnBoard(g, q)
    ensures OnGrid(g, t + [q])
    ensures PathCost(cost, Along(g, t + [q]))
      == PathCost(cost, Along(g, t)) + cost(g[t[|t| - 1].0 + 1][t[|t| - 1].1 + 1], g[q.0 + 1][q.1 + 1])
  {
    AlongAppend(g, t, q);
    PathCostAppend(cost, Along(g, t), g[q.0 + 1][q.1 + 1]);
  }

  /** The walker's running total: `cost` of each consecutive pair of tiles, summed. */
  function PathCost(cost: (Tile, Tile) -> real, ts: seq<Tile>): (c: real)
    ensures |ts| < 2 ==> c == 0.0
    ensures (forall a, b :: cost(a, b) >= 0.0) ==> c >= 0.0
  {
    if |ts| < 2 then 0.0 else PathCost(cost, ts[..|ts| - 1]) + cost(ts[|ts| - 2], ts[|ts| - 1])
  }

  /** One more tile adds the cost of the move onto it. */
  lemma PathCostAppend(cost: (Tile, Tile) -> real, ts: seq<Tile>, u: Tile)
    requires |ts| >= 1
    ensures PathCost(cost, ts + [u]) == PathCost(cost, ts) + cost(ts[|ts| - 1], u)
  {
    var v := ts + [u];
    assert v[..|v| - 1] == ts;
    assert v[|v| - 2] == ts[|ts| - 1] && v[|v| - 1] == u;
  }

  /** With a non-negative cost the total is non-negative and grows with every step. */
  lemma {:induction false} PathCostMonotone(cost: (Tile, Tile) -> real, ts: seq<Tile>, n: nat)
    requires forall a, b :: cost(a, b) >= 0.0
    requires n <= |ts|
    ensures 0.0 <= PathCost(cost, ts[..n]) <= PathCost(cost, ts)
  {
    if n < |ts| {
      PathCostMonotone(cost, ts[..|ts| - 1], n);
      assert ts[..|ts| - 1][..n] == ts[..n];
    } else {
      assert ts[..n] == ts;
      if |ts| >= 2 {
        PathCostMonotone(cost, ts[..|ts| - 1], |ts| - 1);
        assert ts[..|ts| - 1][..|ts| - 1] == ts[..|ts| - 1];
      }
    }
  }
}
