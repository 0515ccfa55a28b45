/** Movement resolution shared by the pusher and the boxes: one step in a
    direction, pushing the chain of boxes ahead, all or nothing. */
module Push {
  import opened Coords
  import opened Fields

  datatype Option<T> = None | Some(value: T)

  /** Outcome of one motion request: whether it succeeded, where the mover
      now stands, and the positions of every box, index for index. */
  datatype MoveResult = MoveResult(moved: bool, mover: Coord, boxes: seq<Coord>)

  /** Index `i` holds the first box of the registry that stands on `c`. */
  predicate IsFirstAt(boxes: seq<Coord>, i: int, c: Coord)
  {
    0 <= i < |boxes| && boxes[i] == c && forall j :: 0 <= j < i ==> boxes[j] != c
  }

  lemma FirstAtUnique(boxes: seq<Coord>, i: int, j: int, c: Coord)
    requires IsFirstAt(boxes, i, c) && IsFirstAt(boxes, j, c)
    ensures i == j
  {
  }

  /** Linear search of the registry for a box on `c`, from index `from`. */
  function FirstBoxFrom(boxes: seq<Coord>, c: Coord, from: nat): (r: Option<nat>)
    requires from <= |boxes|
    ensures r.None? ==> forall j :: from <= j < |boxes| ==> boxes[j] != c
    ensures r.Some? ==> from <= r.value < |boxes| && boxes[r.value] == c
    ensures r.Some? ==> forall j :: from <= j < r.value ==> boxes[j] != c
    decreases |boxes| - from
  {
    if from == |boxes| then None
    else if boxes[from] == c then Some(from)
    else FirstBoxFrom(boxes, c, from + 1)
  }

  /** The registry lookup: no answer exactly when no box stands on `c`,
      otherwise the lowest index of a box on `c`. */
  function FirstBoxAt(boxes: seq<Coord>, c: Coord): (r: Option<nat>)
    ensures r.None? <==> c !in boxes
    ensures r.Some? ==> IsFirstAt(boxes, r.value, c)
  {
    FirstBoxFrom(boxes, c, 0)
  }

  /** Distance from `c` to the far edge of the field in direction `m`,
      never negative. Every nested push starts one cell closer to it. */
  function Headroom(f: Field, m: Motion, c: Coord): nat
  {
    var d := match m
      case UP => c.row
      case DOWN => f.rows - 1 - c.row
      case LEFT => c.col
      case RIGHT => f.cols - 1 - c.col;
    if d < 0 then 0 else d
  }

  /** One motion request of the mover at `pos` in direction `m`. The next
      cell must be in range and not a wall; if a box stands there, the first
      such box of the registry is asked to move the same way first, and the
      mover advances only if that nested request succeeded. All lookups read
      the registry as it was before the request: nothing moves until the
      whole chain ahead has agreed to move. */
  function Move(f: Field, m: Motion, pos: Coord, boxes: seq<Coord>): (r: MoveResult)
    ensures |r.boxes| == |boxes|
    ensures !r.moved ==> r.mover == pos && r.boxes == boxes
    ensures r.moved ==> r.mover == Step(pos, m) && Passable(f, r.mover)
    ensures !Passable(f, Step(pos, m)) ==> !r.moved
    ensures Passable(f, Step(pos, m)) && Step(pos, m) !in boxes ==> r.moved && r.boxes == boxes
    ensures forall j :: 0 <= j < |boxes| ==>
      || r.boxes[j] == boxes[j]
      || (Beyond(boxes[j], pos, m) && r.boxes[j] == Step(boxes[j], m) && Passable(f, r.boxes[j]))
    decreases Headroom(f, m, pos)
  {
    var next := Step(pos, m);
    if !Passable(f, next) then
      MoveResult(false, pos, boxes)
    else
      match FirstBoxAt(boxes, next)
      case None => MoveResult(true, next, boxes)
      case Some(i) =>
        var pushed := Move(f, m, boxes[i], boxes);
        if pushed.moved then
          AheadFacts(pos, m, 0);
          MoveResult(true, next, pushed.boxes[i := pushed.mover])
        else
          MoveResult(false, pos, boxes)
  }

  /** A motion request made by box `i` itself: the box either advances one
      step, with the chain ahead of it, or nothing changes. It succeeds
      exactly when the cells ahead of the box up to one past its chain are
      passable; on success the box and exactly the boxes pushed from its
      cell advance one step onto passable cells, and every other box stays. */
  function PushBox(f: Field, m: Motion, boxes: seq<Coord>, i: nat): (r: (bool, seq<Coord>))
    requires i < |boxes|
    ensures |r.1| == |boxes|
    ensures !r.0 ==> r.1 == boxes
    ensures r.0 ==> r.1[i] == Step(boxes[i], m) && Passable(f, r.1[i])
    ensures !Passable(f, Step(boxes[i], m)) ==> !r.0
    ensures Passable(f, Step(boxes[i], m)) && Step(boxes[i], m) !in boxes ==>
      r == (true, boxes[i := Step(boxes[i], m)])
    ensures forall j :: 0 <= j < |boxes| && j != i ==>
      || r.1[j] == boxes[j]
      || (Beyond(boxes[j], boxes[i], m) && r.1[j] == Step(boxes[j], m) && Passable(f, r.1[j]))
    ensures r.0 <==> AllPassable(f, boxes[i], m, RunLength(boxes[i], m, boxes) + 1)
    ensures r.0 ==> forall j :: 0 <= j < |boxes| && j != i ==>
      r.1[j] == if Pushed(boxes[i], m, boxes, RunLength(boxes[i], m, boxes), j)
                then Step(boxes[j], m) else boxes[j]
  {
    var res := Move(f, m, boxes[i], boxes);
    MoveChain(f, m, boxes[i], boxes);
    (res.moved, res.boxes[i := res.mover])
  }

  /** Indices of the boxes lying strictly further along `m` than `c`. */
  function BoxesBeyond(c: Coord, m: Motion, boxes: seq<Coord>): set<nat>
  {
    set i: nat | i < |boxes| && Beyond(boxes[i], c, m)
  }

  lemma SubsetCard<T>(a: set<T>, b: set<T>)
    requires a <= b
    ensures |a| <= |b|
  {
    assert b == a + (b - a);
  }

  lemma BeyondShrinks(c: Coord, m: Motion, boxes: seq<Coord>)
    requires Step(c, m) in boxes
    ensures |BoxesBeyond(Step(c, m), m, boxes)| < |BoxesBeyond(c, m, boxes)|
  {
    AheadFacts(c, m, 0);
    var i :| 0 <= i < |boxes| && boxes[i] == Step(c, m);
    var before := BoxesBeyond(c, m, boxes);
    var after := BoxesBeyond(Step(c, m), m, boxes);
    assert i in before && i !in after;
    assert after <= before - {i};
    SubsetCard(after, before - {i});
    assert |before - {i}| == |before| - 1;
  }

  /** Number of consecutive cells directly ahead of `c` that hold a box:
      the length of the chain a push from `c` would have to move. */
  function RunLength(c: Coord, m: Motion, boxes: seq<Coord>): nat
    decreases |BoxesBeyond(c, m, boxes)|
  {
    var next := Step(c, m);
    if next in boxes then
      BeyondShrinks(c, m, boxes);
      1 + RunLength(next, m, boxes)
    else 0
  }

  /** The cells 1 .. L ahead of `c` all hold boxes and cell L + 1 does not. */
  lemma {:induction false} RunLengthSpec(c: Coord, m: Motion, boxes: seq<Coord>)
    ensures forall k: nat :: 1 <= k <= RunLength(c, m, boxes) ==> Ahead(c, m, k) in boxes
    ensures Ahead(c, m, RunLength(c, m, boxes) + 1) !in boxes
    decreases |BoxesBeyond(c, m, boxes)|
  {
    var next := Step(c, m);
    var L := RunLength(c, m, boxes);
    AheadFacts(c, m, 0);
    if next in boxes {
      BeyondShrinks(c, m, boxes);
      RunLengthSpec(next, m, boxes);
      forall k: nat | 1 <= k <= L
        ensures Ahead(c, m, k) in boxes
      {
        if k > 1 {
          AheadFacts(c, m, k - 1);
        }
      }
      AheadFacts(c, m, L);
    }
  }

  /** Box `i` is one of the boxes a push from `pos` moves when the chain
      ahead is `L` long: it is the first box of the registry on one of the
      cells 1 .. L ahead. */
  predicate Pushed(pos: Coord, m: Motion, boxes: seq<Coord>, L: nat, i: int)
  {
    exists k: nat :: 1 <= k <= L && IsFirstAt(boxes, i, Ahead(pos, m, k))
  }

  /** The `n` cells directly ahead of `c` are all passable. */
  predicate AllPassable(f: Field, c: Coord, m: Motion, n: nat)
  {
    forall k: nat :: 1 <= k <= n ==> Passable(f, Ahead(c, m, k))
  }

  /** `after` is `boxes` with exactly the pushed boxes advanced one step. */
  predicate ChainShifted(pos: Coord, m: Motion, boxes: seq<Coord>, L: nat, after: seq<Coord>)
  {
    && |after| == |boxes|
    && forall i :: 0 <= i < |boxes| ==>
      after[i] == if Pushed(pos, m, boxes, L, i) then Step(boxes[i], m) else boxes[i]
  }

  lemma {:induction false} AllPassableShift(f: Field, c: Coord, m: Motion, n: nat)
    ensures AllPassable(f, c, m, n + 1) <==> Passable(f, Step(c, m)) && AllPassable(f, Step(c, m), m, n)
  {
    AheadFacts(c, m, 0);
    if AllPassable(f, c, m, n + 1) {
      forall k: nat | 1 <= k <= n
        ensures Passable(f, Ahead(Step(c, m), m, k))
      {
        AheadFacts(c, m, k);
      }
    }
    if Passable(f, Step(c, m)) && AllPassable(f, Step(c, m), m, n) {
      forall k: nat | 1 <= k <= n + 1
        ensures Passable(f, Ahead(c, m, k))
      {
        if k > 1 {
          AheadFacts(c, m, k - 1);
        }
      }
    }
  }

  /** When box `i` is the first box on the next cell, the boxes pushed from
      `pos` are box `i` and the boxes pushed from the next cell. */
  lemma PushedShift(pos: Coord, m: Motion, boxes: seq<Coord>, L: nat, i: int, j: int)
    requires IsFirstAt(boxes, i, Step(pos, m))
    ensures Pushed(pos, m, boxes, L + 1, i)
    ensures j != i ==> (Pushed(pos, m, boxes, L + 1, j) <==> Pushed(Step(pos, m), m, boxes, L, j))
  {
    AheadFacts(pos, m, 0);
    assert IsFirstAt(boxes, i, Ahead(pos, m, 1));
    if j != i {
      if Pushed(pos, m, boxes, L + 1, j) {
        var k: nat :| 1 <= k <= L + 1 && IsFirstAt(boxes, j, Ahead(pos, m, k));
        if k == 1 {
          FirstAtUnique(boxes, i, j, Step(pos, m));
        }
        AheadFacts(pos, m, k - 1);
        assert IsFirstAt(boxes, j, Ahead(Step(pos, m), m, k - 1));
      }
      if Pushed(Step(pos, m), m, boxes, L, j) {
        var k: nat :| 1 <= k <= L && IsFirstAt(boxes, j, Ahead(Step(pos, m), m, k));
        AheadFacts(pos, m, k);
        assert IsFirstAt(boxes, j, Ahead(pos, m, k + 1));
      }
    }
  }

  /** The chain push, described without recursion. With `L` the number of
      boxes lined up directly ahead, the request succeeds exactly when the
      `L + 1` cells ahead are all passable, and on success exactly the first
      registry box on each of the `L` occupied cells moves one step while
      every other box stays where it was. */
  lemma {:induction false} MoveChain(f: Field, m: Motion, pos: Coord, boxes: seq<Coord>)
    ensures Move(f, m, pos, boxes).moved <==> AllPassable(f, pos, m, RunLength(pos, m, boxes) + 1)
    ensures Move(f, m, pos, boxes).moved ==>
      ChainShifted(pos, m, boxes, RunLength(pos, m, boxes), Move(f, m, pos, boxes).boxes)
    decreases Headroom(f, m, pos)
  {
    var next := Step(pos, m);
    var L := RunLength(pos, m, boxes);
    AllPassableShift(f, pos, m, L);
    if Passable(f, next) {
      match FirstBoxAt(boxes, next)
      case None =>
        assert L == 0;
        AllPassableShift(f, next, m, 0);
        assert forall i :: !Pushed(pos, m, boxes, 0, i);
      case Some(i) =>
        var pushed := Move(f, m, next, boxes);
        MoveChain(f, m, next, boxes);
        assert L == RunLength(next, m, boxes) + 1;
        if pushed.moved {
          MoveChainStep(f, m, pos, boxes, i);
        }
    }
  }

  /** The inductive step of `MoveChain` on success: box `i`, first on the
      next cell, advanced, and so did the chain behind it. */
  lemma MoveChainStep(f: Field, m: Motion, pos: Coord, boxes: seq<Coord>, i: nat)
    requires Passable(f, Step(pos, m))
    requires FirstBoxAt(boxes, Step(pos, m)) == Some(i)
    requires Move(f, m, Step(pos, m), boxes).moved
    requires ChainShifted(Step(pos, m), m, boxes, RunLength(Step(pos, m), m, boxes),
                          Move(f, m, Step(pos, m), boxes).boxes)
    ensures ChainShifted(pos, m, boxes, RunLength(pos, m, boxes), Move(f, m, pos, boxes).boxes)
  {
    var next := Step(pos, m);
    var pushed := Move(f, m, next, boxes);
    var L' := RunLength(next, m, boxes);
    var after := pushed.boxes[i := pushed.mover];
    assert Move(f, m, pos, boxes).boxes == after;
    assert RunLength(pos, m, boxes) == L' + 1;
    forall j | 0 <= j < |boxes|
      ensures after[j] == if Pushed(pos, m, boxes, L' + 1, j) then Step(boxes[j], m) else boxes[j]
    {
      PushedShift(pos, m, boxes, L', i, j);
    }
  }

  /** No two boxes share a cell and the mover is not on a box. The editor
      does not enforce this; a level that starts this way keeps it. */
  predicate Separated(pos: Coord, boxes: seq<Coord>)
  {
    && pos !in boxes
    && forall i, j :: 0 <= i < j < |boxes| ==> boxes[i] != boxes[j]
  }

  /** In a separated registry, every box on one of the `L` cells ahead is
      pushed. */
  lemma OnRunIsPushed(pos: Coord, m: Motion, boxes: seq<Coord>, L: nat, j: int, k: nat)
    requires Separated(pos, boxes)
    requires 0 <= j < |boxes| && 1 <= k <= L && boxes[j] == Ahead(pos, m, k)
    ensures Pushed(pos, m, boxes, L, j)
  {
    assert IsFirstAt(boxes, j, Ahead(pos, m, k));
  }

  /** Where a pushed box stood and where it goes, as distances ahead. */
  lemma PushedDistance(pos: Coord, m: Motion, boxes: seq<Coord>, L: nat, i: int) returns (k: nat)
    requires Pushed(pos, m, boxes, L, i)
    ensures 1 <= k <= L && 0 <= i < |boxes| && boxes[i] == Ahead(pos, m, k)
    ensures Step(boxes[i], m) == Ahead(pos, m, k + 1)
  {
    k :| 1 <= k <= L && IsFirstAt(boxes, i, Ahead(pos, m, k));
    AheadFacts(pos, m, k);
    AheadFacts(Ahead(pos, m, k), m, 0);
  }

  /** After a successful request from a separated state, a box that did not
      move stands on none of the cells 1 .. L + 1 ahead. */
  lemma StayerOffChain(pos: Coord, m: Motion, boxes: seq<Coord>, i: int, k: nat)
    requires Separated(pos, boxes)
    requires 0 <= i < |boxes| && !Pushed(pos, m, boxes, RunLength(pos, m, boxes), i)
    requires 1 <= k <= RunLength(pos, m, boxes) + 1
    ensures boxes[i] != Ahead(pos, m, k)
  {
    var L := RunLength(pos, m, boxes);
    RunLengthSpec(pos, m, boxes);
    if boxes[i] == Ahead(pos, m, k) && k <= L {
      OnRunIsPushed(pos, m, boxes, L, i, k);
    }
  }

  /** A motion request never makes two boxes share a cell nor puts the
      mover on a box, when neither was the case before. */
  lemma MovePreservesSeparation(f: Field, m: Motion, pos: Coord, boxes: seq<Coord>)
    requires Separated(pos, boxes)
    ensures Separated(Move(f, m, pos, boxes).mover, Move(f, m, pos, boxes).boxes)
  {
    var r := Move(f, m, pos, boxes);
    if r.moved {
      var L := RunLength(pos, m, boxes);
      MoveChain(f, m, pos, boxes);
      AheadFacts(pos, m, 0);
      assert r.mover == Ahead(pos, m, 1);
      forall i | 0 <= i < |r.boxes|
        ensures r.boxes[i] != r.mover
      {
        if Pushed(pos, m, boxes, L, i) {
          var k := PushedDistance(pos, m, boxes, L, i);
          AheadDistinct(pos, m, k + 1, 1);
        } else {
          StayerOffChain(pos, m, boxes, i, 1);
        }
      }
      forall i, j | 0 <= i < j < |r.boxes|
        ensures r.boxes[i] != r.boxes[j]
      {
        SeparatedPair(pos, m, boxes, L, r.boxes, i, j);
      }
    }
  }

  lemma SeparatedPair(pos: Coord, m: Motion, boxes: seq<Coord>, L: nat, after: seq<Coord>, i: int, j: int)
    requires Separated(pos, boxes)
    requires L == RunLength(pos, m, boxes)
    requires ChainShifted(pos, m, boxes, L, after)
    requires 0 <= i < j < |boxes|
    ensures after[i] != after[j]
  {
    var pi := Pushed(pos, m, boxes, L, i);
    var pj := Pushed(pos, m, boxes, L, j);
    if pi && pj {
      var ki := PushedDistance(pos, m, boxes, L, i);
      var kj := PushedDistance(pos, m, boxes, L, j);
      AheadDistinct(pos, m, ki, kj);
      AheadDistinct(pos, m, ki + 1, kj + 1);
    } else if pi {
      var ki := PushedDistance(pos, m, boxes, L, i);
      StayerOffChain(pos, m, boxes, j, ki + 1);
    } else if pj {
      var kj := PushedDistance(pos, m, boxes, L, j);
      StayerOffChain(pos, m, boxes, i, kj + 1);
    }
  }

  /** Motion depends on the field only through which cells are passable. */
  lemma {:induction false} MoveSameOnSamePassable(f: Field, g: Field, m: Motion, pos: Coord, boxes: seq<Coord>)
    requires forall c :: Passable(f, c) == Passable(g, c)
    ensures Move(f, m, pos, boxes) == Move(g, m, pos, boxes)
    decreases Headroom(f, m, pos)
  {
    var next := Step(pos, m);
    if Passable(f, next) {
      match FirstBoxAt(boxes, next)
      case None =>
      case Some(i) =>
        MoveSameOnSamePassable(f, g, m, boxes[i], boxes);
    }
  }

  /** Adding a wall that is already a wall changes no motion outcome. */
  lemma DuplicateBoundKeepsMotion(f: Field, c: Coord, m: Motion, pos: Coord, boxes: seq<Coord>)
    requires IsBound(f, c)
    ensures Move(AddBound(f, c), m, pos, boxes) == Move(f, m, pos, boxes)
  {
    MoveSameOnSamePassable(AddBound(f, c), f, m, pos, boxes);
  }

  /** Adding a target, new or not, changes no motion outcome. */
  lemma TargetsKeepMotion(f: Field, t: Coord, m: Motion, pos: Coord, boxes: seq<Coord>)
    ensures Move(AddTarget(f, t), m, pos, boxes) == Move(f, m, pos, boxes)
  {
    MoveSameOnSamePassable(AddTarget(f, t), f, m, pos, boxes);
  }

  /** Pusher at (1,1), boxes at (1,2) and (1,3), free cell at (1,4): a move
      right shifts all three; with a wall at (1,4) nothing moves. */
  lemma ChainPushExample()
    ensures Move(NewField(8, 8), RIGHT, Coord(1, 1), [Coord(1, 2), Coord(1, 3)])
         == MoveResult(true, Coord(1, 2), [Coord(1, 3), Coord(1, 4)])
    ensures Move(AddBound(NewField(8, 8), Coord(1, 4)), RIGHT, Coord(1, 1), [Coord(1, 2), Coord(1, 3)])
         == MoveResult(false, Coord(1, 1), [Coord(1, 2), Coord(1, 3)])
  {
    var f := NewField(8, 8);
    var w := AddBound(f, Coord(1, 4));
    var boxes := [Coord(1, 2), Coord(1, 3)];
    assert FirstBoxAt(boxes, Coord(1, 2)) == Some(0);
    assert FirstBoxAt(boxes, Coord(1, 3)) == Some(1);
    assert FirstBoxAt(boxes, Coord(1, 4)) == None;
    assert Move(f, RIGHT, Coord(1, 3), boxes) == MoveResult(true, Coord(1, 4), boxes);
    assert Move(f, RIGHT, Coord(1, 2), boxes) == MoveResult(true, Coord(1, 3), [Coord(1, 2), Coord(1, 4)]);
    assert !Passable(w, Coord(1, 4));
  }
}
