/** HexEn3D/Path.cs: a greedy walk across a `HexMap`, one tile per step, that records the
    tiles it visits and sums the movement cost between consecutive ones. */
module Walker {
  import opened Wrappers
  import opened HexTile
  import opened GridSpec
  import opened HexGrid
  import opened WalkSpec

  /** The length of the tile array, and so the most positions a walk can record. */
  const MaxIter := 100

  class Path {
    /** The map walked on; the walk reads it and never changes it. */
    const hexMap: HexMap
    const x0: int
    const y0: int
    const x1: int
    const y1: int
    var movementCost: real
    var hexSteps: int
    /** The tiles visited, in order; slots from `currentIter` on are unused. */
    const hexPath: array<Hex?>
    var currentIter: int
    var finished: bool
    /** The movement cost of one step from a tile to the next. */
    const moveCost: (Tile, Tile) -> real
    /** The map's tile objects and tile values, as the walk found them. */
    ghost const Board: seq<seq<Hex?>>
    ghost const Grid0: Grid
    /** The logical positions visited, in order. */
    ghost var Trail: seq<Pos>

    ghost function Dest(): Pos {
      (x1, y1)
    }

    ghost function Last(): Pos
      reads this`Trail
      requires |Trail| > 0
    {
      Trail[|Trail| - 1]
    }

    /** The map still holds what the walk found in it. */
    ghost predicate MapIntact()
      reads hexMap, hexMap.tiles, hexMap.Hexes
    {
      && hexMap.Valid() && Grid0 == hexMap.Cells
      && |Board| == hexMap.xsize + 2 && (forall i :: 0 <= i < |Board| ==> |Board[i]| == hexMap.ysize + 2)
      && forall i, j :: 0 <= i < hexMap.xsize + 2 && 0 <= j < hexMap.ysize + 2 ==> Board[i][j] == hexMap.tiles[i, j]
    }

    /** The bookkeeping every method keeps: the counters agree, the trail lies on the map,
        and the first `currentIter` slots of the tile array hold the tiles along it. */
    ghost predicate Counters()
      reads this`currentIter, this`hexSteps, this`Trail, hexPath
    {
      && hexPath.Length == MaxIter
      && 1 <= currentIter <= MaxIter && hexSteps == currentIter - 1 && |Trail| == currentIter
      && Trail[0] == (x0, y0)
      && OnGrid(Grid0, Trail) && OnGrid(Board, Trail)
      && hexPath[..currentIter] == Along(Board, Trail)
    }

    /** What the walk itself keeps: the trail is a greedy walk toward the destination,
        `finished` is set only there, and the cost is the sum along the trail. */
    ghost predicate Walked()
      reads this`currentIter, this`hexSteps, this`Trail, this`finished, this`movementCost, hexPath
    {
      && Counters() && GreedyWalk(Trail, Dest())
      && (finished ==> Last() == Dest())
      && movementCost == PathCost(moveCost, Along(Grid0, Trail))
    }

    /** The whole invariant of a walk on its map. */
    ghost predicate Valid()
      reads hexMap, hexMap.tiles, hexMap.Hexes
      reads this`currentIter, this`hexSteps, this`Trail, this`finished, this`movementCost, hexPath
    {
      MapIntact() && Walked()
    }

    /** The field initialisers of `Path` and the first lines of its constructor: an empty
        walk of one position, the origin, whose tile fills the first slot. */
    constructor Start(hexMap: HexMap, x0: int, y0: int, x1: int, y1: int, moveCost: (Tile, Tile) -> real)
      requires hexMap.Valid() && hexMap.InGrid(x0, y0)
      ensures MapIntact() && Walked() && !finished && fresh(hexPath)
      ensures this.hexMap == hexMap && this.moveCost == moveCost
      ensures Trail == [(x0, y0)] && Dest() == (x1, y1)
    {
      this.hexMap := hexMap;
      this.moveCost := moveCost;
      this.x0, this.y0, this.x1, this.y1 := x0, y0, x1, y1;
      hexPath := new Hex?[MaxIter];
      var m, n := hexMap.tiles.Length0, hexMap.tiles.Length1;
      Board := seq(m, i requires 0 <= i < m reads hexMap, hexMap.tiles =>
        seq(n, j requires 0 <= j < n reads hexMap, hexMap.tiles =>
          if i < hexMap.tiles.Length0 && j < hexMap.tiles.Length1 then hexMap.tiles[i, j] else null));
      Grid0 := hexMap.Cells;
      movementCost := 0.0;
      hexSteps := 0;
      currentIter := 1;
      finished := false;
      new;
      var origin := hexMap.GetHexAt(x0, y0);
      hexPath[0] := origin.value;
      Trail := [(x0, y0)];
      Started();
    }

    /** `Path(map, x0, y0, x1, y1)`: records the origin's tile, then steps until the
        destination is reached or the tile array is full. The constructor throws when
        `getHexAt` does: for an origin off the map, or for a step off the map, which only
        a destination off the map leads to. */
    static method Create(hexMap: HexMap, x0: int, y0: int, x1: int, y1: int, moveCost: (Tile, Tile) -> real)
      returns (r: Result<Path>)
      requires hexMap.Valid()
      ensures r.Err? ==> r.error == IndexOutOfRange
      ensures !hexMap.InGrid(x0, y0) ==> r.Err?
      ensures hexMap.InGrid(x0, y0) && hexMap.InGrid(x1, y1) ==> r.Ok?
      ensures !hexMap.InGrid(x1, y1) && Dist((x0, y0), (x1, y1)) <= MaxIter - 2 ==> r.Err?
      ensures r.Ok? ==> fresh(r.value) && r.value.hexMap == hexMap && r.value.moveCost == moveCost
      ensures r.Ok? ==> r.value.Valid()
      ensures r.Ok? ==> r.value.Trail[0] == (x0, y0) && r.value.Dest() == (x1, y1)
      ensures r.Ok? ==> r.value.hexPath[0] == hexMap.tiles[x0 + 1, y0 + 1]
      ensures r.Ok? ==> (r.value.finished <==> r.value.Last() == (x1, y1) && r.value.currentIter < MaxIter)
      ensures r.Ok? ==> r.value.finished != (r.value.currentIter == MaxIter)
      ensures r.Ok? && Dist((x0, y0), (x1, y1)) <= MaxIter - 2 ==> r.value.finished
      ensures r.Ok? && (x0, y0) == (x1, y1) ==>
        r.value.finished && r.value.hexSteps == 0 && r.value.movementCost == 0.0
    {
      var origin := hexMap.GetHexAt(x0, y0);
      if origin.Err? {
        return Err(IndexOutOfRange);
      }
      var p := new Path.Start(hexMap, x0, y0, x1, y1, moveCost);
      var s := p.Run();
      if s.Fail? {
        return Err(s.error);
      }
      p.FirstTile();
      return Ok(p);
    }

    /** The constructor's loop: `bruteWalkStep()` until the walk has finished or the tile
        array is full, or until a step throws. */
    method Run() returns (s: Status)
      requires MapIntact() && Walked() && !finished
      modifies this`finished, this`currentIter, this`hexSteps, this`movementCost, this`Trail, hexPath
      ensures Valid()
      ensures s == Done || s == Fail(IndexOutOfRange)
      ensures hexMap.InGrid(x1, y1) ==> s == Done
      ensures s == Done ==> (finished <==> Last() == Dest() && currentIter < MaxIter)
      ensures s == Done ==> finished != (currentIter == MaxIter)
      ensures s == Done && Dist(Trail[0], Dest()) <= MaxIter - 2 ==> finished
      ensures old(|Trail|) == 1 && Trail[0] == Dest() ==> s == Done && finished && |Trail| == 1
    {
      ghost var n := |Trail|;
      s := Done;
      while currentIter < MaxIter && !finished
        invariant MapIntact() && Walked() && s == Done
        invariant finished ==> currentIter < MaxIter
        invariant n == 1 && Trail[0] == Dest() ==> |Trail| == 1
        modifies this`finished, this`currentIter, this`hexSteps, this`movementCost, this`Trail, hexPath
        decreases MaxIter - currentIter, if finished then 0 else 1
      {
        s := BruteWalkStep();
        if s.Fail? {
          return;
        }
      }
      WalkShortens(Trail, Dest());
    }

    /** `bruteWalkStep()`: reads the current position off the last recorded tile and takes
        the rule table's step toward the destination, or sets `finished` there. The step
        throws when it leads off the map. */
    method BruteWalkStep() returns (s: Status)
      requires MapIntact() && Walked()
      modifies this`finished, this`currentIter, this`hexSteps, this`movementCost, this`Trail, hexPath
      ensures MapIntact() && Walked()
      ensures s == Done || s == Fail(IndexOutOfRange)
      ensures hexMap.InGrid(x1, y1) ==> s == Done
      ensures old(Last()) == Dest() ==> s == Done && finished && Trail == old(Trail)
      ensures old(Last()) != Dest() ==> finished == old(finished)
      ensures old(Last()) != Dest() ==> var q := WalkStep(old(Last()), Dest()).to;
        && (s.Fail? <==> old(currentIter) < MaxIter && !hexMap.InGrid(q.0, q.1))
        && Trail == if s == Done && old(currentIter) < MaxIter then old(Trail) + [q] else old(Trail)
    {
      assert hexPath[currentIter - 1] == hexPath[..currentIter][currentIter - 1];
      assert OnBoard(Grid0, Trail[currentIter - 1]);
      var h := hexPath[currentIter - 1];
      var x, y := h.globalX - 1, h.globalY - 1;
      var step := WalkStep((x, y), (x1, y1));
      match step {
        case Arrived =>
          finished := true;
          s := Done;
        case Move(q) =>
          WalkExtends(Trail, Dest(), q);
          s := AddStep(x, y, q.0, q.1);
      }
    }

    /** The state the constructor sets up before its loop: one tile recorded, the origin's. */
    lemma Started()
      requires MapIntact() && hexMap.InGrid(x0, y0)
      requires hexPath.Length == MaxIter && currentIter == 1 && hexSteps == 0 && Trail == [(x0, y0)]
      requires hexPath[0] == hexMap.tiles[x0 + 1, y0 + 1] && !finished && movementCost == 0.0
      ensures Walked()
    {
      assert hexPath[..1] == [hexPath[0]];
    }

    /** The first slot of the tile array holds the origin's tile. */
    lemma FirstTile()
      requires MapIntact() && Counters()
      ensures hexPath[0] == hexMap.tiles[x0 + 1, y0 + 1]
    {
      assert hexPath[0] == hexPath[..currentIter][0];
    }

    /** `addStep(xorigin, yorigin, xdest, ydest)`: while the tile array has room, records
        the destination's tile and adds the cost of the move. `getHexAt` throws for a
        position off the map; the destination's tile is looked up, and stored, before the
        origin's. */
    method AddStep(xo: int, yo: int, xd: int, yd: int) returns (s: Status)
      requires MapIntact() && Counters()
      modifies this`currentIter, this`hexSteps, this`movementCost, this`Trail, hexPath
      ensures MapIntact() && Counters()
      ensures s == if old(currentIter) < MaxIter && !(hexMap.InGrid(xd, yd) && hexMap.InGrid(xo, yo))
        then Fail(IndexOutOfRange) else Done
      ensures Trail == if s == Done && old(currentIter) < MaxIter then old(Trail) + [(xd, yd)] else old(Trail)
      ensures movementCost == if s == Done && old(currentIter) < MaxIter
        then old(movementCost) + moveCost(Grid0[xo + 1][yo + 1], Grid0[xd + 1][yd + 1])
        else old(movementCost)
      ensures (xo, yo) == old(Trail[|Trail| - 1]) ==>
        movementCost - PathCost(moveCost, Along(Grid0, Trail)) == old(movementCost - PathCost(moveCost, Along(Grid0, Trail)))
      ensures forall k :: 0 <= k < hexPath.Length ==>
        hexPath[k] == if k == old(currentIter) && hexMap.InGrid(xd, yd) then Board[xd + 1][yd + 1] else old(hexPath[k])
    {
      if currentIter < MaxIter {
        var dest := hexMap.GetHexAt(xd, yd);
        if dest.Err? {
          return Fail(IndexOutOfRange);
        }
        hexPath[currentIter] := dest.value;
        assert hexPath[..currentIter] == old(hexPath[..currentIter]);
        var origin := hexMap.GetHexAt(xo, yo);
        if origin.Err? {
          return Fail(IndexOutOfRange);
        }
        AddMovementCost(moveCost(origin.value.View(), dest.value.View()));
        Advance((xo, yo), (xd, yd));
      }
      return Done;
    }

    /** The counter updates that end `addStep`: the tile for `q` is already in the next
        slot, and the trail grows by `q`; when the move starts from the trail's end, the
        sum along the trail grows by the cost of that move. */
    method Advance(ghost p: Pos, ghost q: Pos)
      requires Counters() && currentIter < MaxIter && OnBoard(Grid0, p) && OnBoard(Grid0, q) && OnBoard(Board, q)
      requires hexPath[currentIter] == Board[q.0 + 1][q.1 + 1]
      modifies this`currentIter, this`hexSteps, this`Trail
      ensures Counters() && Trail == old(Trail) + [q]
      ensures p == old(Last()) ==>
        PathCost(moveCost, Along(Grid0, Trail))
        == old(PathCost(moveCost, Along(Grid0, Trail))) + moveCost(Grid0[p.0 + 1][p.1 + 1], Grid0[q.0 + 1][q.1 + 1])
    {
      ghost var t := Trail;
      currentIter, hexSteps, Trail := currentIter + 1, hexSteps + 1, Trail + [q];
      AlongAppend(Board, t, q);
      TrailCostAppend(moveCost, Grid0, t, q);
      assert hexPath[..currentIter] == hexPath[..currentIter - 1] + [hexPath[currentIter - 1]];
    }

    /** `addMovementCost(addCost)`. */
    method AddMovementCost(addCost: real)
      modifies this`movementCost
      ensures movementCost == old(movementCost) + addCost
    {
      movementCost := movementCost + addCost;
    }

    /** `getFinished()`: set only once the walk stands on its destination. */
    function GetFinished(): (r: bool)
      reads this`currentIter, this`hexSteps, this`Trail, this`finished, this`movementCost, hexPath
      requires Walked()
      ensures r ==> Last() == Dest()
    {
      finished
    }

    /** `getAtMaxIter()`: whether the tile array is full. */
    function GetAtMaxIter(): (r: bool)
      reads this`currentIter, this`hexSteps, this`Trail, hexPath
      requires Counters()
      ensures r <==> |Trail| == MaxIter
    {
      currentIter == MaxIter
    }

    /** `getHexSteps()`: the number of moves made, which never exceeds the starting
        distance. */
    function GetHexSteps(): (r: int)
      reads this`currentIter, this`hexSteps, this`Trail, this`finished, this`movementCost, hexPath
      requires Walked()
      ensures r == |Trail| - 1 && 0 <= r <= Dist(Trail[0], Dest())
    {
      WalkShortens(Trail, Dest());
      hexSteps
    }

    /** `getPathMovementCost()`: the sum of the move costs along the trail. */
    function GetPathMovementCost(): (r: real)
      reads this`currentIter, this`hexSteps, this`Trail, this`finished, this`movementCost, hexPath
      requires Walked()
      ensures r == PathCost(moveCost, Along(Grid0, Trail))
    {
      movementCost
    }

    /** With non-negative move costs the path's cost is non-negative. */
    lemma CostNonNegative()
      requires Walked() && forall a, b :: moveCost(a, b) >= 0.0
      ensures movementCost >= 0.0
    {
      PathCostMonotone(moveCost, Along(Grid0, Trail), 0);
    }
  }
}
