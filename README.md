# HexEn3D in Dafny

HexEn3D builds a 3D terrain of hexagonal tiles. This project models its algorithmic core
and proves properties of it:

- `xyz`: a point with component-wise addition and subtraction.
- `Hex`: a tile with eight vertices, an elevation and an active flag, plus guarded setters.
- `HexMapper`: places hex `(x, y)` in the plane. It computes the hex's origin in closed
  form and derives the six perimeter corners from a fixed table of local shifts.
- `HexMap`: a padded `(xsize+2) × (ysize+2)` array of tiles. Its two passes are:
  - `computeElevationCorners`, which sets each interior tile's corner heights to the mean
    of the three tile elevations that meet at that corner;
  - `disableSides`, which deactivates the outer ring.
- `Path`: a greedy walk across a map, one tile per step. It records the tiles it visits
  and sums a movement cost.

Where the source is imperative, so is the model:

- `Hex`, `HexMap` and `Path` are classes whose methods change fields in place.
- `HexMap` keeps its tiles in an `array2<Hex?>`; `Path` keeps its tiles in an
  `array<Hex?>`.
- The loops of the source are `for` and `while` loops with invariants.

Each class's state is also described by a value:

- `HexTile.Tile` is the value of one tile.
- `GridSpec.Grid` is the value of a whole map.
- A `Path`'s `Trail` is the sequence of positions it has visited.

Every state-changing method is proved against a function on those values:
`ComputeElevationCorners` against `GridSpec.Smoothed`, `BruteWalkStep` against
`WalkSpec.WalkStep`, and so on. The properties are then proved about the functions.

Files:

- `Wrappers.dfy`: `Result` and `Status`, which model the C# exceptions
  (`ArgumentOutOfRange`, `IndexOutOfRange`).
- `Points.dfy`: `xyz`.
- `HexTile.dfy`: `Hex`.
- `HexMapper.dfy`: `HexMapper`, and the placement its pseudocode intends.
- `GridSpec.dfy`: the value-level specification of the map.
- `HexGrid.dfy`: the `HexMap` class.
- `WalkSpec.dfy`: the walker's rule table and what a walk built from it satisfies.
- `Walker.dfy`: the `Path` class.

Conventions:

- Logical tile `(x, y)` lives at padded index `(x+1, y+1)`.
- `computeElevationCorners` tests `i % 2 == 0` on the padded column `i`. `bruteWalkStep`
  tests `x % 2 == 1` on the logical column `x`. For `x >= 0` the two tests select the
  same columns (`WalkSpec.ColumnTestIsPaddedParity`).
- The two files place columns in mirror image. For smoothing and walking, the odd
  *padded* columns sit half a hex higher; those are the even *logical* columns.
  `HexMapper` lifts the odd *logical* columns. So `HexMapper.LowerRight(2, 1)` is
  `(3, 0)`, yet `(2, 1)` and `(3, 0)` are not neighbours in the grid's tables
  (`WalkSpec.ColumnConventionsMirror`).
  `getGlobalVerticesAtMap` hands logical `(x, y)` to the tile's `getGlobalVertices`,
  whose body is not part of this model. Whether the corners that smoothing averages are
  the corners that rendered neighbours share is therefore an open question.
- `getHexAt` reads the array without a check. An index outside `-1..xsize` × `-1..ysize`
  therefore throws `IndexOutOfRange`, and the model returns that as an error.

## Model

| member | source | states |
|---|---|---|
| Points.Xyz.constructor | HexEn/xyz.cs:10-15 | the three-argument constructor holds exactly its arguments |
| Points.Xyz.Zero | HexEn/xyz.cs:16-21 | the default constructor holds (0,0,0) |
| Points.Xyz.SetX | HexEn/xyz.cs:37-40 | only x changes, to the argument |
| Points.Xyz.SetY | HexEn/xyz.cs:41-44 | only y changes, to the argument |
| Points.Xyz.SetZ | HexEn/xyz.cs:45-48 | only z changes, to the argument |
| Points.Xyz.Plus | HexEn/xyz.cs:53-60 | `+` returns a fresh object holding the component-wise sum of the operands' values |
| Points.Xyz.Minus | HexEn/xyz.cs:61-68 | `-` returns a fresh object holding the component-wise difference |
| Points.Add | HexEn/xyz.cs:53-60 | the value of `+`: the point from which taking away either operand leaves the other |
| Points.Sub | HexEn/xyz.cs:61-68 | the value of `-`: the point that, added back to b, gives a in every component |
| Points.SubUndoesAdd | HexEn/xyz.cs:53-68 | subtracting b undoes adding b |
| Points.AddUndoesSub | HexEn/xyz.cs:53-68 | adding b undoes subtracting b |
| Points.AddCommutes | HexEn/xyz.cs:53-60 | addition commutes |
| Points.OriginIsNeutral | HexEn/xyz.cs:53-68 | (0,0,0) is neutral for `+` and `-`, and a - a is (0,0,0) |
| HexTile.VertexIndexCheck | HexEn3D/Hex.cs:77-96 | the index guard plus the array access: success exactly for 0..7; ArgumentOutOfRange exactly for index < 0 or index > 8; IndexOutOfRange exactly for index 8, which the guard lets through |
| HexTile.WithElevation | HexEn3D/Hex.cs:70-76 | `setElevation(e)`: the elevation and the z of vertices 6 and 7 become e; every other vertex, the x and y of 6 and 7, and the other fields are unchanged |
| HexTile.WithElevationIdempotent | HexEn3D/Hex.cs:70-76 | setting the same elevation twice equals setting it once |
| HexTile.Hex.constructor | HexEn3D/Hex.cs:22-31 | eight vertices at (0,0,0), elevation 0, active |
| HexTile.Hex.AtElevation | HexEn3D/Hex.cs:32-41 | elevation e and active, with every vertex at (0,0,0), inner ones included |
| HexTile.Hex.FromVertices | HexEn3D/Hex.cs:42-48 | succeeds exactly when 8 vertices are given and stores them with the elevation; otherwise ArgumentOutOfRange |
| HexTile.Hex.GetVertexAt | HexEn3D/Hex.cs:59-62 | vertex i for 0 <= i < 8, IndexOutOfRange otherwise |
| HexTile.Hex.SetElevation | HexEn3D/Hex.cs:70-76 | the new tile value is `WithElevation` of the old one |
| HexTile.Hex.SetVertexAt | HexEn3D/Hex.cs:77-81 | outcome as `VertexIndexCheck`; on success only that vertex is replaced, on failure nothing changes |
| HexTile.Hex.SetVertexXAt | HexEn3D/Hex.cs:82-86 | outcome as `VertexIndexCheck`; on success only the x of that vertex changes |
| HexTile.Hex.SetVertexYAt | HexEn3D/Hex.cs:87-91 | outcome as `VertexIndexCheck`; on success only the y of that vertex changes |
| HexTile.Hex.SetVertexZAt | HexEn3D/Hex.cs:92-96 | outcome as `VertexIndexCheck`; on success only the z of that vertex changes |
| HexTile.Hex.SetVertices | HexEn3D/Hex.cs:97-101 | the length is checked before anything is assigned: 8 vertices replace the old ones, any other length fails with ArgumentOutOfRange and changes nothing |
| HexTile.Hex.SetActive | HexEn3D/Hex.cs:102-105 | only the active flag changes |
| HexTile.Hex.SetGlobalCoord | HexEn3D/HexMap.cs:52 | only the stored global coordinate changes |
| HexMapper.OrigoAt | HexEn3D/HexMapper.cs:119-137 | the origin's z is 0, and the origin is (0,0,0) whenever x or y is 0 |
| HexMapper.OrigoIgnoresZ | HexEn3D/HexMapper.cs:119-137 | the z argument does not affect the result |
| HexMapper.OrigoColumnStep | HexEn3D/HexMapper.cs:125-134 | two columns to the right, the origin moves by W + R horizontally and keeps its height |
| HexMapper.OrigoRowStep | HexEn3D/HexMapper.cs:125-134 | one row up, the origin moves by H and keeps its horizontal position |
| HexMapper.OddColumnMissesShift | HexEn3D/HexMapper.cs:130-134 | an odd column is half a hex higher than the even column to its left, at the same horizontal position (no (3/2)R shift) |
| HexMapper.AxisHexesCollapse | HexEn3D/HexMapper.cs:122 | hexes (2,0), (0,0) and (0,3) all get the origin |
| HexMapper.LocalShifts | HexEn3D/HexMapper.cs:153-181 | six shifts with z = 0, inside [0,W]×[0,H], opposite corners point-symmetric about (R, H/2) |
| HexMapper.HexCorners | HexEn3D/HexMapper.cs:139-151 | six corners, corner k minus the origin being local shift k |
| HexMapper.LocalHexVertexCoord | HexEn3D/HexMapper.cs:153-181 | a fresh 6-element array equal to `LocalShifts` |
| HexMapper.GlobalHexVertexCoord | HexEn3D/HexMapper.cs:139-151 | a fresh 6-element array whose point i is origin(a,b) plus local shift i |
| HexMapper.GlobalOrigoMap | HexEn3D/HexMapper.cs:94-117 | `xs.Length` points, point i being the origin of (xs[i], ys[i]); fails with IndexOutOfRange exactly when ys is shorter than xs |
| HexMapper.TiledOrigoAt | HexEn3D/HexMapper.cs:69-81 | the placement the pseudocode describes: x = 1.5·x·R, y = y·H plus H/2 in odd columns |
| HexMapper.TiledDiffersOnlyByDefects | HexEn3D/HexMapper.cs:119-137 | off the axes, the code's origin equals the intended one in even columns and is (3/2)R short of it in odd columns |
| HexMapper.TiledOrigoInjective | HexEn3D/HexMapper.cs:122 | the intended placement gives no two hexes the same origin |
| HexMapper.TiledEdgesShared | HexEn3D/HexMapper.cs:130-134 | with the intended placement, every hex shares both end corners of an edge with the hex above and with its upper-right and lower-right neighbours |
| HexMapper.AsWrittenEdgeNotShared | HexEn3D/HexMapper.cs:130-134 | as written, hex (1,1) and its upper-right neighbour (2,2) do not meet: the corner they should share is 1.5 apart |
| GridSpec.CornerNeighbours | HexEn3D/HexMap.cs:123-224 | the two other cells at each corner, from the even-column or odd-column table, are distinct neighbours of the cell |
| GridSpec.CornerNeighboursInside | HexEn3D/HexMap.cs:119-224 | for an interior cell, every neighbour index lies inside the padded array |
| GridSpec.SharedCornerCells | HexEn3D/HexMap.cs:123-224 | each of the three cells at a corner names the same three cells for it, so the two tables agree |
| GridSpec.CornerHeight | HexEn3D/HexMap.cs:125-222 | the height of one corner, the mean of three elevations: it lies between the least and the greatest of them, and equals their common value when all three are equal |
| GridSpec.CornerHeights | HexEn3D/HexMap.cs:125-222 | six heights, entry k being `CornerHeight` of corner k |
| GridSpec.SharedCornerHeights | HexEn3D/HexMap.cs:123-224 | every interior cell that owns a shared corner computes the same height for it |
| GridSpec.Smoothed | HexEn3D/HexMap.cs:119-226 | the pass's footprint: border cells are unchanged; interior cells change only the z of corners 0-5, each corner getting the mean of its three elevations |
| GridSpec.SameElevationsSameHeights | HexEn3D/HexMap.cs:119-226 | corner heights depend only on elevations |
| GridSpec.SmoothedIdempotent | HexEn3D/HexMap.cs:119-226 | a second pass changes nothing |
| GridSpec.RingDisabled | HexEn3D/HexMap.cs:229-245 | the intended `disableSides` on values: exactly the outer-ring tiles become inactive, nothing else changes |
| GridSpec.RingDisabledIdempotent | HexEn3D/HexMap.cs:229-245 | disabling the ring twice equals disabling it once |
| GridSpec.SmoothingCommutesWithRing | HexEn3D/HexMap.cs:119-245 | smoothing and disabling the ring give the same grid in either order |
| HexGrid.HexMap.constructor | HexEn3D/HexMap.cs:44-57 | a fresh (xsize+2)×(ysize+2) array; every cell, border included, holds a default tile tagged with its own index |
| HexGrid.HexMap.AtElevation | HexEn3D/HexMap.cs:58-71 | the same, with every tile, border included, at the given elevation |
| HexGrid.HexMap.GetHexAt | HexEn3D/HexMap.cs:83-86 | the tile of padded cell (x+1, y+1) exactly when (x, y) is on the padded array, IndexOutOfRange otherwise |
| HexGrid.HexMap.SetElevationAt | HexEn3D/HexMap.cs:96-100 | only cell (x+1, y+1) changes, by `WithElevation`; off the array, IndexOutOfRange and nothing changes |
| HexGrid.HexMap.SetHexAt | HexEn3D/HexMap.cs:101-105 | only cell (x+1, y+1) changes, to the given tile; off the array, IndexOutOfRange and nothing changes |
| HexGrid.HexMap.HeightsAt | HexEn3D/HexMap.cs:123-224 | the six means the pass computes from the elevations it reads off the array, per parity of the padded column; `HeightsAtAreCornerHeights` ties them to `CornerHeights` |
| HexGrid.HexMap.HeightsAtAreCornerHeights | HexEn3D/HexMap.cs:123-224 | the six means the pass reads off the array are the grid's corner heights |
| HexGrid.HexMap.SetCornerHeights | HexEn3D/HexMap.cs:126-172 | the six `setVertexZAt` calls set exactly the z of corners 0-5 |
| HexGrid.HexMap.SmoothCell | HexEn3D/HexMap.cs:121-224 | one cell becomes its smoothed tile |
| HexGrid.HexMap.SmoothColumn | HexEn3D/HexMap.cs:121-225 | the inner loop smooths one column and leaves the columns after it alone |
| HexGrid.HexMap.ComputeElevationCorners | HexEn3D/HexMap.cs:108-227 | the map's new value is `Smoothed` of its old value |
| HexGrid.HexMap.DisableSides | HexEn3D/HexMap.cs:229-245 | as written: throws IndexOutOfRange unless both sizes are -2, having deactivated at most tile (0,0) |
| HexGrid.HexMap.Deactivate | HexEn3D/HexMap.cs:234 | `setActive(false)` on one cell changes only that cell's flag |
| HexGrid.HexMap.DisableBorder | HexEn3D/HexMap.cs:229-245 | as intended: the map's new value is `RingDisabled` of its old value |
| WalkSpec.CsRem | HexEn3D/Path.cs:80 | C#'s truncating `%`, strictly between -b and b; for the divisor 2, 0 on even numbers and 1 or -1 by sign on odd ones (Dafny's `%` gives 1 for both) |
| WalkSpec.ColumnTestIsPaddedParity | HexEn3D/Path.cs:80 | for x >= 0, the walker's test `x % 2 == 1` holds exactly when the padded column x + 1 is even |
| WalkSpec.WalkStep | HexEn3D/Path.cs:80-165 | the rule table arrives exactly at the destination; each move changes each axis by at most 1, overshoots neither axis, and strictly reduces the distance |
| WalkSpec.StepIsAdjacent | HexEn3D/Path.cs:98-156 | from any column x >= 0, every move reaches a neighbouring hex, so every diagonal the table keeps is one the layout allows |
| WalkSpec.LegalDiagonalKept | HexEn3D/Path.cs:98-156 | the converse: from any column x >= 0, when the diagonal straight toward the destination reaches a neighbouring hex, the table takes exactly that move |
| WalkSpec.ColumnConventionsMirror | HexEn3D/HexMapper.cs:125-134 | the mapper's lower-right neighbour of (2, 1), (3, 0), is not a neighbour of (2, 1) in the grid's tables: the two conventions lift opposite columns |
| WalkSpec.BorderColumnStepNotAdjacent | HexEn3D/Path.cs:80 | at x = -1, `x % 2` is -1, so a diagonal from the border column leaves the neighbourhood |
| WalkSpec.WalkExtends | HexEn3D/Path.cs:74-166 | appending the table's next move to a walk gives a walk |
| WalkSpec.WalkShortens | HexEn3D/Path.cs:80-165 | a walk of n moves ends at least n closer to the destination |
| WalkSpec.WalkInBox | HexEn3D/Path.cs:80-165 | every position of a walk lies in the box spanned by its start and the destination |
| WalkSpec.WalkStopsAtDestination | HexEn3D/Path.cs:118-121 | a walk reaches the destination at its last position only |
| WalkSpec.AlongAppend | HexEn3D/Path.cs:172 | recording one more position records that position's tile after the others |
| WalkSpec.TrailCostAppend | HexEn3D/Path.cs:168-182 | one more position adds the cost of the move from the last tile to the new one |
| WalkSpec.PathCost | HexEn3D/Path.cs:173-181 | the running total of `movementCost`: 0 for fewer than two tiles, and non-negative whenever every move cost is |
| WalkSpec.PathCostAppend | HexEn3D/Path.cs:179-182 | one more tile adds the cost from the previous tile to it |
| WalkSpec.PathCostMonotone | HexEn3D/Path.cs:179-182 | with non-negative move costs, every prefix's cost is non-negative and at most the whole cost |
| Walker.Path.Start | HexEn3D/Path.cs:12-27 | the fresh walk holds one position, the origin, with its tile in slot 0, no cost and not finished |
| Walker.Path.Create | HexEn3D/Path.cs:21-38 | see the bullet list below the table |
| Walker.Path.Run | HexEn3D/Path.cs:34-37 | the loop keeps the invariant; it ends with exactly one of finished and a full array, it finishes whenever the distance is at most 98, and it never throws for a destination on the map |
| Walker.Path.BruteWalkStep | HexEn3D/Path.cs:74-166 | at the destination: sets `finished` and records nothing. Otherwise: records the table's move while there is room, or throws IndexOutOfRange when that move leaves the map. The invariant is kept either way |
| Walker.Path.Started | HexEn3D/Path.cs:26-27 | one recorded origin tile with no cost satisfies the walk invariant |
| Walker.Path.FirstTile | HexEn3D/Path.cs:26-27 | slot 0 holds the origin's tile |
| Walker.Path.AddStep | HexEn3D/Path.cs:168-177 | see the bullet list below the table |
| Walker.Path.Advance | HexEn3D/Path.cs:174-175 | the counters grow by one with the trail, and the trail's cost grows by the cost of the move |
| Walker.Path.AddMovementCost | HexEn3D/Path.cs:179-182 | the cost grows by exactly the argument |
| Walker.Path.GetFinished | HexEn3D/Path.cs:55-58 | true only when the walk stands on its destination |
| Walker.Path.GetAtMaxIter | HexEn3D/Path.cs:60-63 | true exactly when 100 positions are recorded |
| Walker.Path.GetHexSteps | HexEn3D/Path.cs:65-68 | the number of moves, which never exceeds the starting distance |
| Walker.Path.GetPathMovementCost | HexEn3D/Path.cs:50-53 | the sum of the move costs between consecutive recorded tiles |
| Walker.Path.CostNonNegative | HexEn3D/Path.cs:168-182 | with non-negative move costs, the total cost is non-negative |

`Walker.Path.Create` (the `Path` constructor):

- It throws IndexOutOfRange for an origin off the map.
- It completes when both endpoints are on the map.
- It throws when the destination is off the map and at most 98 away.
- On success:
  - the invariant holds;
  - slot 0 holds the origin's tile;
  - exactly one of `getFinished()` and `getAtMaxIter()` is true;
  - the walk finishes whenever the distance is at most 98;
  - an origin equal to the destination finishes with 0 steps and cost 0.

`Walker.Path.AddStep`:

- While there is room, it stores the destination's tile in the next slot.
- It then extends the trail and adds the move's cost, keeping the cost equal to the sum
  along the trail.
- It throws IndexOutOfRange when either position is off the map:
  - an off-map destination changes nothing;
  - an off-map origin leaves the destination's tile written.
- With the array full, it does nothing.

The walk invariant (`Path.Valid`) says:

- `hexSteps == currentIter - 1` and `1 <= currentIter <= 100`.
- The first `currentIter` slots hold the tiles along the trail.
- The trail starts at the origin and is a greedy walk toward the destination.
- `finished` implies that the walk stands on the destination.
- `movementCost` is the sum of `getMoveCost` over consecutive recorded tiles.

## Left out

- `ToString` overrides, `HexMapper.Main` and the plain getters (`getX`, `getMap`, `getHexPath`, `getXSize`, `getYSize`, `getElevation`, `getVertices`, `getActive`): string building, console I/O, or a field read with nothing to prove.
- Floating point: coordinates, elevations and costs are `real`. The corner means agree across the three owners over the reals; in doubles the summation order differs from owner to owner.
- The square root: √3·R is an abstract positive constant `H`, with R = 1 and W = 2. The unused constant `S = (3/2)*R`, which is 1.0 by integer division, is not modelled. The intended placement uses 1.5·R.
- HexEn/Hex.cs is an older copy of the tile class whose constructors write into an unallocated array; HexEn3D/Hex.cs is the tile modelled.
- Aliasing of `xyz` objects: a tile's vertices are a sequence of values. `setVertexAt`, `setVertices` and `Hex(xyzs, e)` store the caller's objects, and `getMap` exposes the array; sharing through those references is not modelled.
- `getMoveCost`, `setGlobalCoord`, `getGlobalX`, `getGlobalY` and `getGlobalVertices` are called by the modelled files but defined in none of them:
  - `getMoveCost` is a parameter, `moveCost`, of the walk;
  - the global coordinate is a pair of plain fields;
  - `getGlobalVerticesAtMap` is not modelled.
- HexGrid.HexMap.constructor: sizes below -2 make `new Hex[...]` throw OverflowException in C#; the constructor requires sizes of at least -2.
- HexGrid.HexMap.AtElevation: requires sizes of at least -2 for the same reason.
- HexGrid.HexMap.SetHexAt: requires the stored tile to carry the global coordinate of its cell. The walker relies on that tag, and the constructors set it.
- HexGrid.HexMap.DisableBorder: requires sizes of at least -1, the sizes for which the corrected loops stay inside the array.
- Walker.Path.Start: requires the origin on the map; `Walker.Path.Create` checks that first and throws as the constructor does.
- Walker.Path.Create: the success condition is stated exactly only for endpoints on the map, or for a destination at most 98 away. Whether a long walk toward an off-map destination leaves the map before the array fills is not characterised.
- The x0..y1 fields are constants: the source never writes them after the constructor. `Board` and `Grid0` are ghost snapshots of the map the walk reads; the walk never changes the map.
- The constructor's loop is the method `Run`, and the counter updates that end `addStep` are the method `Advance`; both are called where the source has that code.

## Findings

| source | as written | input that shows it | evidently intended | confidence | as-written member | corrected member |
|---|---|---|---|---|---|---|
| HexEn3D/HexMapper.cs:130-134 | the odd-column origin omits the `+ s` shift of the pseudocode at line 75, so odd columns sit on top of the even column to their left | hex (1,1) and its upper-right neighbour (2,2): their shared corner is 1.5 apart | odd columns shifted right by (3/2)R, so adjacent hexes share edges | high (not executed) | HexMapper.AsWrittenEdgeNotShared | HexMapper.TiledEdgesShared |
| HexEn3D/HexMapper.cs:122 | the closed form is applied only when both x and y are non-zero, so the whole of row 0 and column 0 lands on the origin | (2,0), (0,0) and (0,3) all map to (0,0,0) | only (0,0) special, which the closed form already gives | high (not executed) | HexMapper.AxisHexesCollapse | HexMapper.TiledOrigoInjective |
| HexEn3D/HexMap.cs:236,243 | `disableSides` indexes row `ysize+2` and column `xsize+2`, one past the last | any map with at least one cell, e.g. `HexMap(1,1)`: the first iteration throws IndexOutOfRange after deactivating tile (0,0) | `ysize+1` and `xsize+1`, the outer ring | high (not executed) | HexGrid.HexMap.DisableSides | HexGrid.HexMap.DisableBorder |
