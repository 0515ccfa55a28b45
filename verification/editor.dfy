/** The level editor's cursor: a position clamped to
    `[0, maxRows - 2] x [0, maxCols - 2]`. */
module Editor {
  import opened Coords
  import opened Fields

  datatype Cursor = Cursor(pos: Coord, maxRows: int, maxCols: int)

  /** The cursor lies inside its clamping rectangle. */
  predicate InRange(cur: Cursor)
  {
    0 <= cur.pos.row <= cur.maxRows - 2 && 0 <= cur.pos.col <= cur.maxCols - 2
  }

  /** One cursor step. It takes the step exactly when that keeps the moved
      coordinate inside its clamp; otherwise it is silently ignored. */
  function CursorMotion(cur: Cursor, m: Motion): (r: Cursor)
    ensures r.maxRows == cur.maxRows && r.maxCols == cur.maxCols
    ensures r == cur || r.pos == Step(cur.pos, m)
    ensures InRange(cur) ==> InRange(r)
    ensures InRange(cur) ==> (r.pos == Step(cur.pos, m) <==> InRange(cur.(pos := Step(cur.pos, m))))
  {
    match m
    case UP =>
      if cur.pos.row > 0 then cur.(pos := Coord(cur.pos.row - 1, cur.pos.col)) else cur
    case DOWN =>
      if cur.pos.row < cur.maxRows - 2 then cur.(pos := Coord(cur.pos.row + 1, cur.pos.col)) else cur
    case LEFT =>
      if cur.pos.col > 0 then cur.(pos := Coord(cur.pos.row, cur.pos.col - 1)) else cur
    case RIGHT =>
      if cur.pos.col < cur.maxCols - 2 then cur.(pos := Coord(cur.pos.row, cur.pos.col + 1)) else cur
  }

  /** Back to the top-left corner, which lies in range whenever the clamp
      rectangle is non-empty. */
  function Reset(cur: Cursor): (r: Cursor)
    ensures r.pos == Coord(0, 0)
    ensures r.maxRows == cur.maxRows && r.maxCols == cur.maxCols
    ensures InRange(r) <==> cur.maxRows >= 2 && cur.maxCols >= 2
  {
    cur.(pos := Coord(0, 0))
  }

  /** The cursor after a sequence of key strokes. */
  function CursorRun(cur: Cursor, ms: seq<Motion>): Cursor
    decreases |ms|
  {
    if |ms| == 0 then cur else CursorRun(CursorMotion(cur, ms[0]), ms[1..])
  }

  /** However many steps the author takes, a cursor that starts in range
      stays in range and keeps its clamp. */
  lemma {:induction false} CursorRunStaysInRange(cur: Cursor, ms: seq<Motion>)
    requires InRange(cur)
    ensures InRange(CursorRun(cur, ms))
    ensures CursorRun(cur, ms).maxRows == cur.maxRows && CursorRun(cur, ms).maxCols == cur.maxCols
    decreases |ms|
  {
    if |ms| > 0 {
      CursorRunStaysInRange(CursorMotion(cur, ms[0]), ms[1..]);
    }
  }

  /** No box of the registry stands on a wall. */
  predicate OffWalls(f: Field, boxes: seq<Coord>)
  {
    forall i :: 0 <= i < |boxes| ==> !IsBound(f, boxes[i])
  }

  /** The box editor's placement at cell `c`: a new box is appended unless
      `c` is a wall, in which case the key is ignored. Nothing else is
      checked, so a box may land on a target, on another box, or outside
      the field. The registry keeps the property that no box is on a wall. */
  function PlaceBox(f: Field, boxes: seq<Coord>, c: Coord): (r: seq<Coord>)
    ensures IsBound(f, c) <==> |r| == |boxes|
    ensures |boxes| <= |r| && r[..|boxes|] == boxes
    ensures !IsBound(f, c) ==> |r| == |boxes| + 1 && r[|boxes|] == c
    ensures OffWalls(f, boxes) ==> OffWalls(f, r)
  {
    if IsBound(f, c) then boxes else boxes + [c]
  }
}
