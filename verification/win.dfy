/** The win condition: every box stands on a target. */
module Win {
  import opened Coords
  import opened Fields
  import opened Push

  /** Every entry of the registry is a target cell. */
  predicate AllOnTargets(f: Field, boxes: seq<Coord>)
  {
    forall i :: 0 <= i < |boxes| ==> IsTarget(f, boxes[i])
  }

  /** The game's check: scans the registry and gives up at the first box
      that is off target. It answers exactly `AllOnTargets`, so it is true
      for an empty registry and false as soon as one box is off target. */
  method Check(f: Field, boxes: seq<Coord>) returns (won: bool)
    ensures won <==> AllOnTargets(f, boxes)
    ensures won <==> forall b :: b in boxes ==> b in f.targets
    ensures !won <==> exists i :: 0 <= i < |boxes| && !IsTarget(f, boxes[i])
  {
    for i := 0 to |boxes|
      invariant forall j :: 0 <= j < i ==> IsTarget(f, boxes[j])
    {
      if !IsTarget(f, boxes[i]) {
        return false;
      }
    }
    return true;
  }

  /** The cells occupied by the registry. */
  function Occupied(boxes: seq<Coord>): set<Coord>
  {
    set b | b in boxes
  }

  lemma {:induction false} DistinctOccupied(boxes: seq<Coord>)
    requires forall i, j :: 0 <= i < j < |boxes| ==> boxes[i] != boxes[j]
    ensures |Occupied(boxes)| == |boxes|
  {
    if |boxes| > 0 {
      var rest := boxes[1..];
      DistinctOccupied(rest);
      assert Occupied(boxes) == Occupied(rest) + {boxes[0]};
      assert boxes[0] !in rest;
    }
  }

  /** With boxes on distinct cells, a won position needs at least as many
      targets as boxes: a level with more boxes than targets cannot be won. */
  lemma WinNeedsEnoughTargets(f: Field, boxes: seq<Coord>)
    requires forall i, j :: 0 <= i < j < |boxes| ==> boxes[i] != boxes[j]
    requires AllOnTargets(f, boxes)
    ensures |boxes| <= |f.targets|
  {
    DistinctOccupied(boxes);
    assert Occupied(boxes) <= f.targets;
    SubsetCard(Occupied(boxes), f.targets);
  }

  /** Boxes on (5,6) and (2,2) with exactly those targets win; moving one
      box off target loses. */
  lemma CheckExample()
    ensures AllOnTargets(AddTarget(AddTarget(NewField(8, 8), Coord(5, 6)), Coord(2, 2)),
                         [Coord(5, 6), Coord(2, 2)])
    ensures !AllOnTargets(AddTarget(AddTarget(NewField(8, 8), Coord(5, 6)), Coord(2, 2)),
                          [Coord(5, 6), Coord(2, 3)])
  {
    var f := AddTarget(AddTarget(NewField(8, 8), Coord(5, 6)), Coord(2, 2));
    assert !IsTarget(f, [Coord(5, 6), Coord(2, 3)][1]);
  }
}
