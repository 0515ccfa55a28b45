/** Cells of the grid, the four directions of motion and the geometry of
    stepping along a direction. */
module Coords {

  /** A grid cell, row first. */
  datatype Coord = Coord(row: int, col: int)

  /** The four directions, in the order the game declares them. */
  datatype Motion = LEFT | DOWN | UP | RIGHT

  /** Row component of the unit step for `m`. */
  function DRow(m: Motion): int
  {
    match m
    case UP => -1
    case DOWN => 1
    case LEFT => 0
    case RIGHT => 0
  }

  /** Column component of the unit step for `m`. */
  function DCol(m: Motion): int
  {
    match m
    case UP => 0
    case DOWN => 0
    case LEFT => -1
    case RIGHT => 1
  }

  /** The cell one step from `c` in direction `m`: up is one row less,
      down one row more, left one column less, right one column more. It is
      the first cell of the line walked by `Ahead`. */
  function Step(c: Coord, m: Motion): (n: Coord)
    ensures m == UP ==> n == Coord(c.row - 1, c.col)
    ensures m == DOWN ==> n == Coord(c.row + 1, c.col)
    ensures m == LEFT ==> n == Coord(c.row, c.col - 1)
    ensures m == RIGHT ==> n == Coord(c.row, c.col + 1)
    ensures n == Ahead(c, m, 1)
    ensures n != c
  {
    Coord(c.row + DRow(m), c.col + DCol(m))
  }

  /** The cell `k` steps from `c` in direction `m`. */
  function Ahead(c: Coord, m: Motion, k: nat): Coord
  {
    match m
    case UP => Coord(c.row - k, c.col)
    case DOWN => Coord(c.row + k, c.col)
    case LEFT => Coord(c.row, c.col - k)
    case RIGHT => Coord(c.row, c.col + k)
  }

  /** How far along direction `m` the cell `c` lies. */
  function Progress(c: Coord, m: Motion): int
  {
    match m
    case UP => -c.row
    case DOWN => c.row
    case LEFT => -c.col
    case RIGHT => c.col
  }

  /** `b` lies strictly further along direction `m` than `c`. */
  predicate Beyond(b: Coord, c: Coord, m: Motion)
  {
    Progress(b, m) > Progress(c, m)
  }

  /** Walking `k` steps is the same as one step followed by `k - 1` more,
      each step advances the progress by exactly one, and distinct step
      counts reach distinct cells. */
  lemma AheadFacts(c: Coord, m: Motion, k: nat)
    ensures Ahead(c, m, 1) == Step(c, m)
    ensures Ahead(Step(c, m), m, k) == Ahead(c, m, k + 1)
    ensures Progress(Ahead(c, m, k), m) == Progress(c, m) + k
    ensures Progress(Step(c, m), m) == Progress(c, m) + 1
  {
  }

  /** Cells at distinct distances ahead are distinct. */
  lemma AheadDistinct(c: Coord, m: Motion, j: nat, k: nat)
    requires j != k
    ensures Ahead(c, m, j) != Ahead(c, m, k)
  {
    AheadFacts(c, m, j);
    AheadFacts(c, m, k);
  }

  /** The row-major comparison the game defines so that cells can be kept
      in an ordered set. */
  predicate Less(a: Coord, b: Coord)
  {
    if a.row < b.row then true
    else if a.row == b.row && a.col < b.col then true
    else false
  }

  /** `Less` is a strict total order and two cells are equivalent under it
      exactly when they are equal, so an ordered set of cells keyed by
      `Less` behaves as a mathematical set of cells. */
  lemma LessIsStrictTotalOrder(a: Coord, b: Coord, c: Coord)
    ensures !Less(a, a)
    ensures Less(a, b) && Less(b, c) ==> Less(a, c)
    ensures Less(a, b) ==> !Less(b, a)
    ensures (!Less(a, b) && !Less(b, a)) <==> a == b
  {
  }
}
