/**
 * The board state of pieces.js: the `Checkerboard` class with its 32 fixed
 * piece slots, the occupancy query `getPieceIndex`, and `movePieceAnimate`,
 * which arms the board-wide `animateInProgress` flag and hands back a step
 * closure that slides the mover and fades whatever stood on the destination.
 */
module Pieces {
  import opened Options

  /** One slot `[file, rank, visibility, side]`; side `true` is the first player. */
  datatype Slot = Slot(file: real, rank: real, visibility: real, side: bool)

  /** A `Checkerboard`: the slot array `positions` and the single-flight flag. */
  datatype Board = Board(positions: seq<Slot>, animateInProgress: bool)

  /**
   * What the step closure returned by `movePieceAnimate` captures: the mover's
   * and the destination occupant's slot indices (each `-1` when the lookup found
   * nothing) and the source and destination squares.
   */
  datatype MoveHandle = MoveHandle(mover: int, target: int, x: real, y: real, newX: real, newY: real)

  /** Linear interpolation from `a` (at 0) to `b` (at 1). */
  function Lerp(a: real, b: real, p: real): real
  {
    a + (b - a) * p
  }

  function White(file: real, rank: real): Slot { Slot(file, rank, 1.0, true) }
  function Black(file: real, rank: real): Slot { Slot(file, rank, 1.0, false) }

  /** The board as `new Checkerboard()` builds it. */
  function NewCheckerboard(): (b: Board)
    ensures |b.positions| == 32 && !b.animateInProgress
  {
    Board([
      White(4.0, 1.0), White(1.0, 2.0), White(2.0, 2.0), White(3.0, 2.0),
      White(4.0, 2.0), White(5.0, 2.0), White(6.0, 2.0), White(2.0, 1.0),
      White(1.0, 1.0), White(7.0, 2.0), White(3.0, 1.0), White(5.0, 1.0),
      White(8.0, 1.0), White(7.0, 1.0), White(6.0, 1.0), White(8.0, 2.0),
      Black(4.0, 8.0), Black(1.0, 7.0), Black(2.0, 7.0), Black(3.0, 7.0),
      Black(4.0, 7.0), Black(5.0, 7.0), Black(6.0, 7.0), Black(2.0, 8.0),
      Black(1.0, 8.0), Black(7.0, 7.0), Black(3.0, 8.0), Black(5.0, 8.0),
      Black(8.0, 8.0), Black(7.0, 8.0), Black(6.0, 8.0), Black(8.0, 7.0)
    ], false)
  }

  /**
   * Which slot of the initial board stands on square (file, rank), or -1:
   * the inverse of the initial layout, used to show its squares are distinct.
   */
  ghost function InitialSlotAt(file: real, rank: real): int
  {
    if rank == 1.0 then
      if file == 1.0 then 8
      else if file == 2.0 then 7
      else if file == 3.0 then 10
      else if file == 4.0 then 0
      else if file == 5.0 then 11
      else if file == 6.0 then 14
      else if file == 7.0 then 13
      else if file == 8.0 then 12
      else -1
    else if rank == 2.0 then
      if file == 1.0 then 1
      else if file == 2.0 then 2
      else if file == 3.0 then 3
      else if file == 4.0 then 4
      else if file == 5.0 then 5
      else if file == 6.0 then 6
      else if file == 7.0 then 9
      else if file == 8.0 then 15
      else -1
    else if rank == 7.0 then
      if file == 1.0 then 17
      else if file == 2.0 then 18
      else if file == 3.0 then 19
      else if file == 4.0 then 20
      else if file == 5.0 then 21
      else if file == 6.0 then 22
      else if file == 7.0 then 25
      else if file == 8.0 then 31
      else -1
    else if rank == 8.0 then
      if file == 1.0 then 24
      else if file == 2.0 then 23
      else if file == 3.0 then 26
      else if file == 4.0 then 16
      else if file == 5.0 then 27
      else if file == 6.0 then 30
      else if file == 7.0 then 29
      else if file == 8.0 then 28
      else -1
    else -1
  }

  /** A coordinate that names a board square: a whole number from 1 to 8. */
  predicate IsSquareCoord(c: real)
  {
    c.Floor as real == c && 1.0 <= c <= 8.0
  }

  /** The test `getPieceIndex` applies to each slot: exact coordinates, fully visible. */
  predicate Occupies(s: Slot, x: real, y: real)
  {
    s.file == x && s.rank == y && s.visibility == 1.0
  }

  /** At most one fully visible slot stands on any one point of the board. */
  predicate OneOccupantPerSquare(ps: seq<Slot>)
  {
    forall i, j :: 0 <= i < |ps| && 0 <= j < |ps| && i != j
      && ps[i].visibility == 1.0 && ps[j].visibility == 1.0
      ==> ps[i].file != ps[j].file || ps[i].rank != ps[j].rank
  }

  /** `findIndex` from position `i` on: the first slot at or after `i` that occupies (x, y). */
  function FindIndexFrom(ps: seq<Slot>, x: real, y: real, i: nat): (r: int)
    requires i <= |ps|
    ensures r == -1 || (i <= r < |ps| && Occupies(ps[r], x, y))
    ensures r != -1 ==> forall j :: i <= j < r ==> !Occupies(ps[j], x, y)
    ensures r == -1 <==> forall j :: i <= j < |ps| ==> !Occupies(ps[j], x, y)
    decreases |ps| - i
  {
    if i == |ps| then -1
    else if Occupies(ps[i], x, y) then i
    else FindIndexFrom(ps, x, y, i + 1)
  }

  /**
   * `getPieceIndex(x, y)`: the lowest index of a slot standing exactly on
   * (x, y) with visibility exactly 1, or -1 when there is none.
   */
  function GetPieceIndex(b: Board, x: real, y: real): (r: int)
    ensures -1 <= r < |b.positions|
    ensures r >= 0 ==> Occupies(b.positions[r], x, y)
    ensures r >= 0 ==> forall j :: 0 <= j < r ==> !Occupies(b.positions[j], x, y)
    ensures r == -1 <==> forall j :: 0 <= j < |b.positions| ==> !Occupies(b.positions[j], x, y)
  {
    FindIndexFrom(b.positions, x, y, 0)
  }

  /** On a board with one occupant per square, the lookup finds exactly that occupant. */
  lemma GetPieceIndexUnique(b: Board, k: int, x: real, y: real)
    requires OneOccupantPerSquare(b.positions)
    requires 0 <= k < |b.positions| && Occupies(b.positions[k], x, y)
    ensures GetPieceIndex(b, x, y) == k
  {
    var r := GetPieceIndex(b, x, y);
    assert r != -1 && Occupies(b.positions[r], x, y);
  }

  /**
   * `movePieceAnimate(x, y, newX, newY)` of pieces.js. While a move is in
   * flight it returns nothing and changes nothing. Otherwise it looks up the
   * mover and the destination occupant (the lowest-index one on each square),
   * arms the flag, and returns the step
   * closure's handle, without checking that the source square is occupied.
   */
  function MovePieceAnimate(b: Board, x: real, y: real, newX: real, newY: real): (r: (Board, Option<MoveHandle>))
    ensures b.animateInProgress ==> r == (b, None)
    ensures r.1.Some? <==> !b.animateInProgress
    ensures r.0.positions == b.positions && r.0.animateInProgress
    ensures r.1.Some? ==> var h := r.1.value;
      && h.x == x && h.y == y && h.newX == newX && h.newY == newY
      && (h.mover == -1 <==> forall j :: 0 <= j < |b.positions| ==> !Occupies(b.positions[j], x, y))
      && (h.mover >= 0 ==> h.mover < |b.positions| && Occupies(b.positions[h.mover], x, y))
      && (forall j :: 0 <= j < h.mover ==> !Occupies(b.positions[j], x, y))
      && (h.target == -1 <==> forall j :: 0 <= j < |b.positions| ==> !Occupies(b.positions[j], newX, newY))
      && (h.target >= 0 ==> h.target < |b.positions| && Occupies(b.positions[h.target], newX, newY))
      && (forall j :: 0 <= j < h.target ==> !Occupies(b.positions[j], newX, newY))
  {
    if b.animateInProgress then (b, None)
    else
      var piece := GetPieceIndex(b, x, y);
      var target := GetPieceIndex(b, newX, newY);
      (b.(animateInProgress := true), Some(MoveHandle(piece, target, x, y, newX, newY)))
  }

  /**
   * The step closure can run on `b`: its mover is a real slot (the closure
   * throws when the source lookup found nothing) and its target is a slot or -1.
   */
  predicate Fits(b: Board, h: MoveHandle)
  {
    0 <= h.mover < |b.positions| && -1 <= h.target < |b.positions|
  }

  /**
   * One call of the step closure with argument `p`: it overwrites the mover's
   * coordinates with the interpolated position, overwrites the target's
   * visibility with `1 - p`, and clears the flag exactly when `p` is 1.
   */
  function Step(b: Board, h: MoveHandle, p: real): (r: Board)
    requires Fits(b, h)
    ensures |r.positions| == |b.positions|
    ensures r.positions[h.mover].file == Lerp(h.x, h.newX, p)
    ensures r.positions[h.mover].rank == Lerp(h.y, h.newY, p)
    ensures h.target >= 0 ==> r.positions[h.target].visibility == 1.0 - p
    ensures h.target != h.mover ==> r.positions[h.mover].visibility == b.positions[h.mover].visibility
    ensures h.target >= 0 && h.target != h.mover ==>
      r.positions[h.target].file == b.positions[h.target].file && r.positions[h.target].rank == b.positions[h.target].rank
    ensures forall i :: 0 <= i < |b.positions| && i != h.mover && i != h.target ==> r.positions[i] == b.positions[i]
    ensures forall i :: 0 <= i < |b.positions| ==> r.positions[i].side == b.positions[i].side
    ensures r.animateInProgress <==> b.animateInProgress && p != 1.0
  {
    var piece := b.positions[h.mover];
    var moved := b.positions[h.mover := piece.(file := Lerp(h.x, h.newX, p), rank := Lerp(h.y, h.newY, p))];
    var faded := if h.target >= 0 then moved[h.target := moved[h.target].(visibility := 1.0 - p)] else moved;
    Board(faded, if p == 1.0 then false else b.animateInProgress)
  }

  /** The step closure called with each argument of `ps` in turn. */
  function Steps(b: Board, h: MoveHandle, ps: seq<real>): (r: Board)
    requires Fits(b, h)
    ensures |r.positions| == |b.positions|
    ensures forall i :: 0 <= i < |b.positions| ==> r.positions[i].side == b.positions[i].side
    ensures r.animateInProgress <==> b.animateInProgress && 1.0 !in ps
    decreases |ps|
  {
    if |ps| == 0 then b
    else
      assert ps == [ps[0]] + ps[1..];
      Steps(Step(b, h, ps[0]), h, ps[1..])
  }

  /**
   * A step overwrites rather than accumulates: after two steps only the second
   * argument shows on the slots, and the flag is cleared if either was 1.
   */
  lemma StepOverwrites(b: Board, h: MoveHandle, p: real, q: real)
    requires Fits(b, h)
    ensures Step(Step(b, h, p), h, q)
         == Step(b, h, q).(animateInProgress := b.animateInProgress && p != 1.0 && q != 1.0)
  {
    var lhs := Step(Step(b, h, p), h, q);
    var rhs := Step(b, h, q);
    forall i | 0 <= i < |b.positions|
      ensures lhs.positions[i] == rhs.positions[i]
    {
    }
    assert lhs.positions == rhs.positions;
  }

  /** `Step(1)` is idempotent, and the state it leaves does not depend on earlier steps. */
  lemma StepOneForgetsHistory(b: Board, h: MoveHandle, p: real)
    requires Fits(b, h)
    ensures Step(Step(b, h, p), h, 1.0) == Step(b, h, 1.0)
    ensures Step(Step(b, h, 1.0), h, 1.0) == Step(b, h, 1.0)
  {
    StepOverwrites(b, h, p, 1.0);
    StepOverwrites(b, h, 1.0, 1.0);
  }

  /** A run of steps leaves the board as its last step alone would, flag aside. */
  lemma {:induction false} StepsOverwrite(b: Board, h: MoveHandle, ps: seq<real>)
    requires Fits(b, h) && |ps| > 0
    ensures Steps(b, h, ps)
         == Step(b, h, ps[|ps| - 1]).(animateInProgress := b.animateInProgress && 1.0 !in ps)
    decreases |ps|
  {
    if |ps| == 1 {
      assert Steps(b, h, ps) == Steps(Step(b, h, ps[0]), h, []);
    } else {
      var b1 := Step(b, h, ps[0]);
      var rest := ps[1..];
      assert ps == [ps[0]] + rest;
      assert rest[|rest| - 1] == ps[|ps| - 1];
      StepsOverwrite(b1, h, rest);
      StepOverwrites(b, h, ps[0], ps[|ps| - 1]);
    }
  }

  /**
   * Mid-move visibility: the sliding mover keeps its visibility, so it is found
   * exactly where its interpolated coordinates equal the queried point, while
   * the fading target is found nowhere once its visibility has left 1.
   */
  lemma InTransitOccupancy(b: Board, h: MoveHandle, p: real, X: real, Y: real)
    requires Fits(b, h) && h.target != h.mover
    ensures Occupies(Step(b, h, p).positions[h.mover], X, Y)
        <==> Lerp(h.x, h.newX, p) == X && Lerp(h.y, h.newY, p) == Y && b.positions[h.mover].visibility == 1.0
    ensures h.target >= 0 && p != 0.0 ==> !Occupies(Step(b, h, p).positions[h.target], X, Y)
  {
  }

  /**
   * On the initial board, the pawn moving (1,2) -> (1,4) is found on (1,3)
   * halfway through its slide.
   */
  lemma MidSlideFound()
    ensures var (armed, h) := MovePieceAnimate(NewCheckerboard(), 1.0, 2.0, 1.0, 4.0);
      && h.Some? && Fits(armed, h.value)
      && GetPieceIndex(Step(armed, h.value, 0.5), 1.0, 3.0) == 1
  {
    var b := NewCheckerboard();
    var ps := b.positions;
    assert ps[0] == Slot(4.0, 1.0, 1.0, true) && ps[1] == Slot(1.0, 2.0, 1.0, true);
    assert FindIndexFrom(ps, 1.0, 2.0, 0) == FindIndexFrom(ps, 1.0, 2.0, 1) == 1;
    var (armed, h) := MovePieceAnimate(b, 1.0, 2.0, 1.0, 4.0);
    var mid := Step(armed, h.value, 0.5);
    assert h.value.mover == 1 && h.value.target != 1;
    assert mid.positions[0].file == 4.0;
    assert Occupies(mid.positions[1], 1.0, 3.0);
    assert FindIndexFrom(mid.positions, 1.0, 3.0, 0) == FindIndexFrom(mid.positions, 1.0, 3.0, 1) == 1;
  }

  /**
   * Completing a move between two different squares on a board with one
   * occupant per square: the mover alone is found at the destination, the
   * source square is empty, the captured slot of either side is invisible,
   * the flag is clear and there is still one occupant per square.
   */
  lemma MoveCompletes(b: Board, x: real, y: real, newX: real, newY: real)
    requires !b.animateInProgress
    requires OneOccupantPerSquare(b.positions)
    requires GetPieceIndex(b, x, y) != -1
    requires x != newX || y != newY
    ensures var (b1, h) := MovePieceAnimate(b, x, y, newX, newY);
      && h.Some? && Fits(b1, h.value) && h.value.mover != h.value.target
      && var done := Step(b1, h.value, 1.0);
      && GetPieceIndex(done, newX, newY) == h.value.mover
      && GetPieceIndex(done, x, y) == -1
      && (h.value.target >= 0 ==> done.positions[h.value.target].visibility == 0.0)
      && OneOccupantPerSquare(done.positions)
      && !done.animateInProgress
  {
    var (b1, ho) := MovePieceAnimate(b, x, y, newX, newY);
    var h := ho.value;
    var m, t := h.mover, h.target;
    var ps := b.positions;
    var done := Step(b1, h, 1.0);
    var qs := done.positions;
    assert qs[m] == Slot(newX, newY, 1.0, ps[m].side);
    forall j | 0 <= j < |qs| && j != m && qs[j].visibility == 1.0
      ensures qs[j] == ps[j] && (qs[j].file != newX || qs[j].rank != newY)
    {
      assert j != t && qs[j] == ps[j];
    }
    assert OneOccupantPerSquare(qs);
    GetPieceIndexUnique(done, m, newX, newY);
    forall j | 0 <= j < |qs|
      ensures !Occupies(qs[j], x, y)
    {
      if j != m && j != t {
        assert qs[j] == ps[j];
      }
    }
  }

  /**
   * A move onto its own square makes the mover its own target: completing it
   * leaves the slot where it was but fades it to visibility 0, emptying the square.
   */
  lemma SelfMoveFades(b: Board, x: real, y: real)
    requires !b.animateInProgress
    requires OneOccupantPerSquare(b.positions)
    requires GetPieceIndex(b, x, y) != -1
    ensures var (b1, h) := MovePieceAnimate(b, x, y, x, y);
      && h.Some? && Fits(b1, h.value) && h.value.mover == h.value.target
      && var done := Step(b1, h.value, 1.0);
      && done.positions[h.value.mover] == b.positions[h.value.mover].(visibility := 0.0)
      && GetPieceIndex(done, x, y) == -1
  {
    var (b1, ho) := MovePieceAnimate(b, x, y, x, y);
    var h := ho.value;
    var m := h.mover;
    var done := Step(b1, h, 1.0);
    forall j | 0 <= j < |done.positions|
      ensures !Occupies(done.positions[j], x, y)
    {
      if j != m {
        assert done.positions[j] == b.positions[j];
      }
    }
  }

  /**
   * Single flight: once a move is accepted, every further request is refused
   * (and changes nothing) until a step with argument exactly 1 has run.
   */
  lemma InFlightRejects(b: Board, x: real, y: real, newX: real, newY: real, ps: seq<real>,
                        x2: real, y2: real, newX2: real, newY2: real)
    requires !b.animateInProgress
    requires GetPieceIndex(b, x, y) != -1
    requires 1.0 !in ps
    ensures var (b1, h) := MovePieceAnimate(b, x, y, newX, newY);
      && h.Some? && Fits(b1, h.value)
      && var mid := Steps(b1, h.value, ps);
      && MovePieceAnimate(mid, x2, y2, newX2, newY2) == (mid, None)
  {
  }

  /** Each initial slot of the first player is the one `InitialSlotAt` names for its square. */
  lemma InitialWhiteSlotsInvert()
    ensures |NewCheckerboard().positions| == 32
    ensures forall i :: 0 <= i < 16 ==>
      InitialSlotAt(NewCheckerboard().positions[i].file, NewCheckerboard().positions[i].rank) == i
  {
    var ps := NewCheckerboard().positions;
    forall i | 0 <= i < 16
      ensures InitialSlotAt(ps[i].file, ps[i].rank) == i
    {
    }
  }

  /** Each initial slot of the second player is the one `InitialSlotAt` names for its square. */
  lemma InitialBlackSlotsInvert()
    ensures |NewCheckerboard().positions| == 32
    ensures forall i :: 16 <= i < 32 ==>
      InitialSlotAt(NewCheckerboard().positions[i].file, NewCheckerboard().positions[i].rank) == i
  {
    var ps := NewCheckerboard().positions;
    forall i | 16 <= i < 32
      ensures InitialSlotAt(ps[i].file, ps[i].rank) == i
    {
    }
  }

  /**
   * The initial layout: 32 fully visible slots, the first 16 of the first
   * player and the last 16 of the second, each on its own whole-numbered
   * square of the 8x8 board, and no move in flight.
   */
  lemma NewCheckerboardLayout()
    ensures |NewCheckerboard().positions| == 32 && !NewCheckerboard().animateInProgress
    ensures forall i :: 0 <= i < 32 ==> NewCheckerboard().positions[i].side == (i < 16)
    ensures forall i :: 0 <= i < 32 ==> NewCheckerboard().positions[i].visibility == 1.0
    ensures forall i :: 0 <= i < 32 ==>
      IsSquareCoord(NewCheckerboard().positions[i].file) && IsSquareCoord(NewCheckerboard().positions[i].rank)
    ensures OneOccupantPerSquare(NewCheckerboard().positions)
  {
    var ps := NewCheckerboard().positions;
    forall i | 0 <= i < 32
      ensures ps[i].side == (i < 16) && ps[i].visibility == 1.0
      ensures IsSquareCoord(ps[i].file) && IsSquareCoord(ps[i].rank)
    {
    }
    InitialWhiteSlotsInvert();
    InitialBlackSlotsInvert();
  }
}
