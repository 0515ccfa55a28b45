/** The playing field: fixed dimensions, a list of wall cells searched
    linearly, and a set of target cells. */
module Fields {
  import opened Coords

  /** `bounds` are the walls in insertion order (duplicates allowed);
      `targets` are the cells boxes must end on. */
  datatype Field = Field(rows: int, cols: int, bounds: seq<Coord>, targets: set<Coord>)

  /** A fresh field of the given dimensions, with no walls and no targets. */
  function NewField(rows: int, cols: int): (f: Field)
    ensures f.rows == rows && f.cols == cols
    ensures forall c :: !IsBound(f, c) && !IsTarget(f, c)
  {
    Field(rows, cols, [], {})
  }

  /** The cell is a wall: it occurs somewhere in the wall list. */
  predicate IsBound(f: Field, c: Coord)
  {
    c in f.bounds
  }

  /** The linear scan of the wall list the game performs for every wall
      query; it answers exactly `IsBound`. */
  method ScanBounds(f: Field, c: Coord) returns (found: bool)
    ensures found <==> IsBound(f, c)
    ensures found <==> exists i :: 0 <= i < |f.bounds| && f.bounds[i] == c
  {
    for i := 0 to |f.bounds|
      invariant forall j :: 0 <= j < i ==> f.bounds[j] != c
    {
      if f.bounds[i] == c {
        return true;
      }
    }
    return false;
  }

  /** The cell lies outside `[0, rows) x [0, cols)`. */
  predicate IsOutOfBound(f: Field, c: Coord)
  {
    c.row < 0 || c.col < 0 || c.row >= f.rows || c.col >= f.cols
  }

  /** The out-of-range test looks at the dimensions and nothing else: two
      fields with the same dimensions agree on it whatever their walls and
      targets, and inside the range it fails exactly on the rectangle. */
  lemma OutOfBoundOnlyDimensions(f: Field, g: Field, c: Coord)
    requires f.rows == g.rows && f.cols == g.cols
    ensures IsOutOfBound(f, c) == IsOutOfBound(g, c)
    ensures !IsOutOfBound(f, c) <==> 0 <= c.row < f.rows && 0 <= c.col < f.cols
  {
  }

  /** The ordered-set lookup the game performs: some stored target is
      equivalent to `c` under the row-major order, neither less nor greater.
      Because that order is a strict total order whose equivalence is
      equality, the lookup answers plain membership. */
  function IsTarget(f: Field, c: Coord): (r: bool)
    ensures r <==> c in f.targets
  {
    exists t :: t in f.targets && !Less(t, c) && !Less(c, t)
  }

  /** A mover may enter the cell: it is in range and not a wall. */
  predicate Passable(f: Field, c: Coord)
  {
    !IsOutOfBound(f, c) && !IsBound(f, c)
  }

  /** Appends a wall. The new cell becomes a wall, every other cell keeps
      its wall status, and re-adding an existing wall changes no answer. */
  function AddBound(f: Field, c: Coord): (r: Field)
    ensures IsBound(r, c)
    ensures forall d :: d != c ==> (IsBound(r, d) <==> IsBound(f, d))
    ensures IsBound(f, c) ==> forall d :: IsBound(r, d) <==> IsBound(f, d)
    ensures forall d :: IsTarget(r, d) <==> IsTarget(f, d)
    ensures forall d :: IsOutOfBound(r, d) <==> IsOutOfBound(f, d)
  {
    f.(bounds := f.bounds + [c])
  }

  /** Inserts a target. The new cell becomes a target, every other cell
      keeps its target status, and re-adding an existing target gives back
      the same field. */
  function AddTarget(f: Field, c: Coord): (r: Field)
    ensures IsTarget(r, c)
    ensures forall d :: d != c ==> (IsTarget(r, d) <==> IsTarget(f, d))
    ensures IsTarget(f, c) ==> r == f
    ensures forall d :: IsBound(r, d) <==> IsBound(f, d)
    ensures forall d :: IsOutOfBound(r, d) <==> IsOutOfBound(f, d)
  {
    f.(targets := f.targets + {c})
  }
}
