# Rubik's cube model

A Dafny model of the cube logic in `script.js` of a browser 3x3 Rubik's cube.
The cube has six faces: front, left, right, up, down and back. Each face holds
nine integer tiles, stored row-major. A tile's value 1..6 is the colour of the
face it started on, taken from the face order f, l, r, u, d, b. Only the back
face has its `isInverted` flag set. The flag routes that face's column reads
and writes through `invert` (script.js:35-40 and 63-71), because a column that
reaches the back face over the top arrives upside down and mirrored. Rows are
read and written as stored on every face (script.js:25-28 and 48-55), so a row
passes through the back face unchanged.

The model has four modules:

- `Topology` (topology.dfy) holds the face labels and the adjacency table
  `Cube.def`. It also holds the 4-cycles of faces that a shift travels
  through, and the predecessor of each face on such a cycle.
- `Faces` (faces.dfy) holds the per-face operations:
  - `swapTiles` and `invert`;
  - `getRow` and `getColumn`;
  - `replaceRow` and `replaceColumn`;
  - the quarter turn `turn`.

  Rows and columns are unified as a `Strip`. `Slot(inverted, s, j)` is the raw
  slot that holds the j-th tile of a strip as seen from outside.
- `Cubes` (cubes.dfy) holds the cube as a map from label to face, and
  `shiftRow` / `shiftColumn`. A shift is one generic `Shift` that chains four
  `replace` calls around a cycle. The module also holds the turn of a single
  face.
- `Moves` (moves.dfy) holds the rest of the cube's operations:
  - the twelve primitives `u ur cl cr d dr l lr cu cd r rr`;
  - the whole-cube turns `turnLeft turnRight turnUp turnDown`;
  - the face turns `f fr b br`;
  - `init`, `reset` and `scramble`;
  - command sequences and their undo.

Each state change is a pure function on an immutable `Cube` value. Two kinds of
independent reference description come with them:

- For each operation there is a source map. `ShiftSource`, `TurnFaceSource`,
  `Source` and `RotationSource` say where the tile now at a position was
  before the operation. A pointwise lemma then ties each operation to its
  source map.
- For every move there is a tile count: the multiset of the 54 tiles.

Round trips are proved on the source maps and lifted to whole cubes by
extensionality.

A row shift to the left, started at the front, hands the front the old row of
the RIGHT face. This follows from the code at script.js lines 79-82: each face
on the cycle receives the strip of its predecessor, and the front's
predecessor on the leftward cycle f → l → b → r is r. So from the solved cube,
`u` leaves the front's top row as 3, 3, 3, not the left face's colour 2: see
`Moves.FrontReceivesRight` and `Moves.FrontAfterU`.

## Model

| member | source | states |
|---|---|---|
| Faces.SwapTiles | script.js:14-18 | the two tiles change places, every other tile and the inverted flag stay |
| Faces.SwapKeepsTiles | script.js:14-18 | swapping two tiles keeps the face's multiset of tiles |
| Faces.GetRow | script.js:25-28 | row i is the three raw slots 3i, 3i+1, 3i+2 on every face, inverted or not; the contract is definitional, and the meaning is in the partners ReplaceRow and ShiftRowMoves |
| Faces.GetColumn | script.js:35-40 | column i as seen from outside; on an inverted face it is raw slots 8-i, 5-i, 2-i, because the face is inverted before the read and back after it |
| Faces.ReplaceRow | script.js:48-55 | the previous row i is handed back, the new row reads back as given, the other two rows and every slot off row i are unchanged |
| Faces.ReplaceColumn | script.js:63-71 | the previous column i is handed back, the new column reads back as given through the inversion, and every slot off the column is unchanged |
| Faces.ReplaceColumnSlots | script.js:63-71 | the other two columns are unchanged; on an inverted face the new column lands in raw slots 8-i, 5-i, 2-i |
| Faces.ReplaceTrades | script.js:48-71 | a replace creates no tile and destroys none: new face plus handed-back strip equals old face plus strip put in, as counts |
| Faces.Turn | script.js:101-117 | the six swaps move each tile k to the place TurnSource gives (clockwise: slot (r,c) gets (2-c,r)); the centre stays |
| Faces.TurnKeepsTiles | script.js:101-117 | a quarter turn keeps the face's multiset of tiles |
| Faces.TurnUndo | script.js:101-117 | a clockwise turn is undone by a counterclockwise turn, and the other way round |
| Faces.TurnFourTimes | script.js:101-117 | four clockwise quarter turns restore the face |
| Faces.Invert | script.js:122-127 | the four swaps are the point reflection: tile k goes to slot 8-k |
| Faces.InvertInvolution | script.js:122-127 | inverting twice restores the face, and the centre tile never moves |
| Faces.InvertKeepsTiles | script.js:122-127 | inverting keeps the face's multiset of tiles |
| Topology.Adjacent | script.js:131-138 | the front and the back have a neighbour in all four directions, left and right only sideways, up and down only vertically; no face is its own neighbour |
| Topology.Cycle | script.js:131-138 | following one direction three times from a face visits four distinct faces, and the next hop returns to the start |
| Topology.AdjacencySymmetric | script.js:131-138 | y is x's neighbour in direction d exactly when x is y's neighbour in the opposite direction |
| Topology.PrevOpposite | script.js:131-138 | the reverse cycle holds the same faces, and the two predecessor maps undo each other |
| Cubes.Shift | script.js:78-95 | the exchange chain around the cycle of face x in direction d yields a well-formed cube: six faces of nine tiles, only the back inverted; what moves is stated by ShiftOnCycle, ShiftOffCycle and ShiftPointwise |
| Cubes.ShiftRow | script.js:78-83 | shiftRow is Shift on a row strip and yields a well-formed cube; its effect is stated by ShiftRowMoves |
| Cubes.ShiftColumn | script.js:90-95 | shiftColumn is Shift on a column strip and yields a well-formed cube; its effect is stated by ShiftColumnMoves |
| Cubes.TurnFace | script.js:140-220 | the `this.faces.x.turn(cw)` step of a primitive yields a well-formed cube; its effect is stated by TurnFacePointwise and TurnFaceKeepsTiles |
| Cubes.ShiftOnCycle | script.js:78-95 | each face on the cycle receives its predecessor's strip, read as seen from outside, and keeps every other slot |
| Cubes.ShiftOffCycle | script.js:78-95 | the two faces off the cycle do not change |
| Cubes.ShiftRowMoves | script.js:78-83 | after shiftRow(i, d), row i of each cycle face equals its predecessor's old row i, and its other rows are unchanged |
| Cubes.ShiftColumnMoves | script.js:90-95 | after shiftColumn(i, d), column i of each cycle face equals its predecessor's old column i as seen from outside, and its other columns are unchanged |
| Cubes.ShiftPointwise | script.js:78-95 | every tile after a shift is the tile ShiftSource names |
| Cubes.ShiftKeepsTiles | script.js:78-95 | a shift keeps the multiset of all 54 tiles |
| Cubes.ShiftUndo | script.js:78-95 | a shift is undone by the same shift in the opposite direction |
| Moves.StepOf | script.js:140-220 | each primitive is a shift started at the front in one direction, of a valid row or column, and the face it turns, if any, is off that shift's cycle |
| Moves.Apply | script.js:140-220 | running a primitive yields a well-formed cube; what it does is stated by ApplyPointwise and UndoPrimitive |
| Moves.ApplyPointwise | script.js:140-220 | every tile after a primitive is the tile Source names: the shift of the front's strip, then the quarter turn of the layer's face |
| Moves.ApplyKeepsTiles | script.js:140-220 | every primitive keeps the multiset of all 54 tiles |
| Moves.UndoPrimitive | script.js:140-220 | u/ur, cl/cr, d/dr, l/lr, cu/cd and r/rr undo each other, in either order, from any cube |
| Moves.RowFromSolved | script.js:140-172 | from the solved cube, a row primitive gives each cycle face its predecessor's colour on the moved row and its own colour elsewhere |
| Moves.FrontReceivesRight | script.js:78-83 | shiftRow(i, left) from the front hands the front the right face's old row i |
| Moves.FrontAfterU | script.js:140-144 | from the solved cube, u leaves the front's top row 3, 3, 3 and its middle row 1, 1, 1 |
| Moves.OffCycleFromSolved | script.js:140-220 | from the solved cube, every primitive leaves the faces off its cycle in their own colour |
| Moves.ReorientPrimitives | script.js:174-234 | each reorientation runs three primitives of its own direction, primitive k moving strip k, rows for turnLeft/turnRight and columns for turnUp/turnDown |
| Moves.Reorient | script.js:174-234 | a reorientation yields a well-formed cube; what it does is stated by ReorientPointwise and ReorientUndo |
| Moves.ReorientPointwise | script.js:174-234 | turnLeft/turnRight/turnUp/turnDown move every tile as the rigid-rotation description RotationSource says |
| Moves.ReorientUndo | script.js:174-234 | turnLeft then turnRight, turnRight then turnLeft, turnUp then turnDown and turnDown then turnUp each restore the cube |
| Moves.PlanFits | script.js:236-258 | each face turn's plan turns the cube sideways so that the target face lands on a side face, turns that side face with a primitive in the target's sense, and turns back |
| Moves.ApplyFaceMove | script.js:236-258 | f, fr, b and br yield a well-formed cube; what they do is stated by FaceMovePointwise, FaceMoveTurnsTarget, FaceMoveKeepsFar and FaceMoveUndo |
| Moves.FaceMoveTurnsTarget | script.js:236-258 | f and b quarter-turn the front and back face clockwise, and fr and br counterclockwise |
| Moves.FaceMoveKeepsFar | script.js:236-258 | f and fr leave the back face unchanged, and b and br leave the front face unchanged |
| Moves.FaceMovePointwise | script.js:236-258 | every tile after a face move is the tile FaceMoveSource names: a sideways turn, the primitive on the side face, and the turn back |
| Moves.FaceMoveUndo | script.js:236-258 | fr undoes f, f undoes fr, br undoes b and b undoes br, from any cube |
| Moves.RotationTwice | script.js:174-186 | two turnLeft calls, or two turnRight calls, are the half turn: front and back swap, left and right swap, up and down turn by 180 degrees |
| Moves.HalfSwapsRL | script.js:188-214 | seen across the half turn, the primitive r acts as l does |
| Moves.FaceMoveKeepsTiles | script.js:236-258 | f, fr, b and br keep the multiset of all 54 tiles |
| Moves.RunAllKeepsTiles | script.js:140-258 | any sequence of moves keeps the multiset of all 54 tiles |
| Moves.UndoAllRestores | script.js:140-258 | running any sequence of primitives, whole-cube turns and face turns, then their inverses in reverse order, restores the cube |
| Moves.Init | script.js:260-284 | init builds six faces, inverts only the back one, and ends solved after its reset |
| Moves.Reset | script.js:286-290 | reset gives face k of f, l, r, u, d, b nine tiles of value k+1 (the cube is solved) and keeps the inverted flags |
| Moves.SolvedNineOfEach | script.js:286-290 | a solved cube holds nine tiles of each value 1..6 and no other value |
| Moves.ResetThenRun | script.js:286-290 | after reset and any sequence of moves, the cube holds nine tiles of each value 1..6 |
| Moves.MoveCount | script.js:294 | `moveAmount \|\| 50`: a missing amount or 0 gives 50; a negative amount runs the loop no times; otherwise the amount is used |
| Moves.PoolIndex | script.js:293 | every one of the twelve primitives is in the scramble pool |
| Moves.ScramblePoolDistinct | script.js:293 | the pool has twelve entries, all different |
| Moves.DrawnPicks | script.js:295 | the k-th scramble move is the pool entry the k-th random index selects |
| Moves.Scramble | script.js:292-296 | scramble applies exactly MoveCount(moveAmount) primitives drawn from the pool; the result is the cube after those primitives, with the same tiles, and undoing them in reverse restores the start |

## Left out

- `updateView`, the buttons, the key bindings, the rendering and the `window`
  start-up (`init`, `initCube`, `initButtons`) are left out. They only display
  the cube or call the operations modelled here.
- `Math.random` is replaced by a parameter: the sequence `rolls` of pool
  indices in 0..11 that `Math.floor(Math.random() * 12)` would produce.
- The object links `face.adjacent[dir]` are modelled by the static table
  `Topology.Adjacent`, which is what `init` builds from `Cube.def`. A face's
  neighbour is therefore looked up, not followed as a pointer.
- `Cube.reset` and `Cube.scramble` work on the global `cube` rather than
  `this` (script.js:288 and 295). The model resets and scrambles the cube it is
  given; there is only one cube.
- `Moves.MoveCount`: a `moveAmount` that is not an integer (a fraction, a
  string, `NaN`) is not modelled. The amount is an optional integer.
- `Moves.FaceMoveTurnsTarget` states only what f, fr, b and br do to the face
  they are named after, and `Moves.FaceMoveKeepsFar` only what they do to the
  opposite face. Where the strips of the four faces around the target go is
  stated only through `Moves.FaceMoveSource`, the tile count in
  `Moves.FaceMoveKeepsTiles` and the round trip in `Moves.FaceMoveUndo`. No
  lemma names those strips face by face.
