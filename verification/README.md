# push_box: movement and win engine

A Dafny model of the rules of a terminal Sokoban game (`pushbox.cpp`):

- the playing **field**: dimensions, a wall list searched linearly, and a target set;
- **movement resolution**: the pusher or a box steps one cell, pushing the boxes ahead of it as one chain;
- the **win check**: every box stands on a target;
- the level editor's **cursor**: a clamped 2D stepper.

Everything is a value. A field is a `Fields.Field`. The box registry is a `seq<Coord>`, with entry `i` for the `i`-th box. The pusher is a separate `Coord`. Instead of storing a pointer to the field, every motion request takes the field as an argument.

`Box::motion` and `Pusher::motion` have the same body. Both are modelled by one function, `Push.Move`, over the mover's position. `Push.PushBox` is the same request made by box `i` of the registry, with the box's new position written back.

In the source, every registry lookup happens before anything moves: each mover calls the box ahead, and only assigns its own position after that call returns true. So `Move` reads the original registry at every level of the chain. It moves nothing unless the whole chain can move.

Termination of `Move` uses the distance to the field edge in the direction of motion (`Push.Headroom`, clamped at zero). Each nested push starts from an in-range cell one step closer to that edge.

The chain is also described without recursion, in `Push.MoveChain`. Let `Push.RunLength` be the number of consecutive cells directly ahead that hold a box. A request succeeds exactly when the `RunLength + 1` cells ahead are all passable. On success, exactly the first registry box on each of those occupied cells advances one step.

Targets are a `set<Coord>`. The source keeps them in a `std::set` ordered by `Coord::operator<`. `Coords.LessIsStrictTotalOrder` shows that this order is a strict total order, and that its equivalence is plain equality. So the ordered set behaves as a mathematical set of cells: `Fields.IsTarget` is written as the ordered lookup and proved to answer plain membership.

Two boxes can share a cell: the box editor refuses only wall cells (pushbox.cpp:432-436, `Editor.PlaceBox`), so it may put a box on a target, outside the field or on another box. When two boxes share a cell, only the first registry box on the cell ahead is pushed, and the mover steps onto the cell where the other box still stands. `Move` models exactly that. `Push.MovePreservesSeparation` shows that a position with no shared cells keeps that property after every move.

## Model

| member | source | states |
|---|---|---|
| Coords.LessIsStrictTotalOrder | pushbox.cpp:13-19 | the row-major order on cells is irreflexive, transitive and asymmetric, and two cells are equivalent under it exactly when they are equal |
| Coords.Step | pushbox.cpp:118-135 | the next cell is one row less for UP, one row more for DOWN, one column less for LEFT, one column more for RIGHT; it is the first cell of the line ahead and never the cell itself |
| Fields.NewField | pushbox.cpp:51 | a new field has the given dimensions and no walls and no targets |
| Fields.ScanBounds | pushbox.cpp:57-64 | the linear wall scan answers true exactly when some entry of the wall list equals the cell |
| Fields.IsTarget | pushbox.cpp:73-78 | the ordered-set lookup (a stored target neither less nor greater than the cell) answers exactly membership of the cell in the target set |
| Fields.OutOfBoundOnlyDimensions | pushbox.cpp:66-71 | the out-of-range test depends only on the dimensions, and it is false exactly on `[0, rows) x [0, cols)` |
| Fields.AddBound | pushbox.cpp:84-86 | after adding a wall the cell is a wall; every other cell keeps its wall status; re-adding an existing wall changes no wall answer; targets and range are untouched |
| Fields.AddTarget | pushbox.cpp:80-82 | after adding a target the cell is a target; other cells keep their status; re-adding an existing target gives back the same field; walls and range are untouched |
| Push.FirstBoxAt | pushbox.cpp:137-146 | the registry lookup finds nothing exactly when no box stands on the cell, and otherwise returns the lowest index of a box on it |
| Push.Move | pushbox.cpp:186-222 | a blocked next cell (out of range or a wall) makes the request fail; a failed request changes no position; a successful one puts the mover one unit step ahead on a passable cell; a free next cell succeeds with the registry unchanged; every box either stays or is a box ahead of the mover that advances one step onto a passable cell |
| Push.PushBox | pushbox.cpp:116-152 | a box's own request either fails with the registry unchanged or advances that box one step onto a passable cell; a blocked next cell fails; a free next cell moves only that box; it succeeds exactly when the cells 1..L+1 ahead of the box are passable (L its chain length), and on success exactly the boxes pushed from its cell advance one step onto passable cells while every other box stays |
| Push.RunLengthSpec | pushbox.cpp:137-145 | the chain length counts exactly the consecutive box-holding cells directly ahead: cells 1..L hold boxes and cell L+1 does not |
| Push.MoveChain | pushbox.cpp:206-215 | a request succeeds exactly when all cells 1..L+1 ahead are passable, where L is the chain length; on success exactly the first registry box on each of the L cells advances one step and every other box keeps its position |
| Push.MovePreservesSeparation | pushbox.cpp:206-219 | if no two boxes share a cell and the mover is on no box, the same holds after any request |
| Push.MoveSameOnSamePassable | pushbox.cpp:206 | the outcome of a request depends on the field only through which cells are passable |
| Push.DuplicateBoundKeepsMotion | pushbox.cpp:84-86 | adding a wall that already exists changes no motion outcome |
| Push.TargetsKeepMotion | pushbox.cpp:80-82 | adding any target, on any field, changes no motion outcome |
| Push.ChainPushExample | pushbox.cpp:186-222 | pusher (1,1) with boxes (1,2),(1,3) moving right ends at (1,2),(1,3),(1,4); with a wall at (1,4) all three stay |
| Win.Check | pushbox.cpp:299-306 | the check is true exactly when every box stands on a target (so true for no boxes), and false exactly when some box is off target |
| Win.WinNeedsEnoughTargets | pushbox.cpp:299-306 | with boxes on distinct cells, a won position has at least as many targets as boxes |
| Win.CheckExample | pushbox.cpp:299-306 | boxes exactly on targets (5,6),(2,2) win; one box moved off target loses |
| Editor.CursorMotion | pushbox.cpp:308-331 | a cursor step keeps the clamp and either does nothing or moves one unit step; from in range it stays in range, and it moves exactly when the stepped cell is in range |
| Editor.Reset | pushbox.cpp:261 | reset puts the cursor at (0,0), keeps the clamp, and is in range exactly when the clamp rectangle is non-empty |
| Editor.CursorRunStaysInRange | pushbox.cpp:308-331 | any sequence of cursor steps from an in-range cursor stays in range |
| Editor.PlaceBox | pushbox.cpp:432-436 | placing a box keeps the existing registry as a prefix, adds exactly one box at the cell unless the cell is a wall (then nothing changes), and keeps every box off walls |

## Left out

- Rendering (`draw` in both forms, `draw_bounds`): writing characters to a fixed frame, clearing the screen, and console output are terminal I/O.
- The authoring and play loops (`input_field`, `input_box`, `input_pusher`, `main`): they read keys from standard input and dispatch them. Each recognised key has one of these effects: `CursorMotion`, `Reset`, `AddBound`, `AddTarget`, `PlaceBox` (the `#` key), creating the pusher at the cursor's cell (the `@` key, pushbox.cpp:461-463, which in the model is just that `Coord`), `Move` or `Check`.
- Key decoding in the play loop: the direction variable is declared once, outside the loop (pushbox.cpp:488). So an unrecognised key repeats the last recognised direction, and before the first recognised key it reads an uninitialised value (pushbox.cpp:496-510). This is input handling; the model takes the direction as a parameter of `Move`.
- `free_boxes` and the raw-pointer ownership of the field and the boxes: the model uses values.
- `Field::set_bound`: it is only called from code that is commented out.
- The `Pusher(Coord)` and `Box(Coord)` constructors, which leave the field pointer unset or null: the model passes the field to every request. The `Cursor` constructors are the `Editor.Cursor` datatype constructor; the two-argument form is a cursor at (0,0), the same as `Reset`.
- The accessors `get_row` / `get_col`: they are the fields of `Coord`.
- 32-bit `int` overflow: coordinates are unbounded integers. Every starting position comes from an editor cursor clamped over a 30 x 80 buffer, so it lies in `[0,28] x [0,78]` (`Editor.CursorRunStaysInRange`). After that, `Push.Move` only puts a mover or a box on an in-range cell of the field. So stepping one cell never comes near the 32-bit limits.
