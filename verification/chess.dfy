/**
 * The interaction and animation state of chess.js: the `Chess` object's
 * `checkerboard`, `cameraAngles`, `atTopView` and `gridSelected` fields, the
 * canvas-click path (`mouseClicked`, `boardClicked`), the two frame-driven
 * animations (`resetCamera`, `movePieceAnimate`) and the handlers that
 * `addControllers` installs. Rendering (`draw`) is left to the host.
 */
module Chess {
  import opened Options
  import opened Pieces
  import opened Frames

  /** `Math.PI`: the shortest decimal that rounds to that double. */
  const Pi: real := 3.141592653589793

  /** `cameraAngles`: index 0 is the longitude and index 1 the latitude that `draw` reads. */
  datatype Angles = Angles(longitude: real, latitude: real)

  /** The orientation `resetCamera` drives the camera to: looking straight down, just short of the pole. */
  const Top: Angles := Angles(0.0, Pi / 2.0 - 0.01)

  function LerpAngles(origin: Angles, target: Angles, p: real): Angles
  {
    Angles(Lerp(origin.longitude, target.longitude, p), Lerp(origin.latitude, target.latitude, p))
  }

  // ---------------------------------------------------------------------------
  // resetCamera

  /**
   * The `resetCamera` frame loop: `cur` is the current `cameraAngles`, `origin`
   * the angles captured when the reset began. Returns the angles it leaves and
   * whether its promise was resolved (only on the final frame).
   */
  function ResetLoop(origin: Angles, cur: Angles, percentage: real, last: Option<real>, times: seq<real>): (Angles, bool)
    decreases |times|
  {
    if |times| == 0 then (cur, false)
    else if percentage >= 1.0 then (Top, true)
    else
      var p := Advance(percentage, last, times[0]);
      ResetLoop(origin, LerpAngles(origin, Top, p), p, Some(times[0]), times[1..])
  }

  /** The reset loop is the shared frame loop with an interpolating step and a final snap to `Top`. */
  lemma {:induction false} ResetLoopFollowsDrive(origin: Angles, cur: Angles, percentage: real, last: Option<real>, times: seq<real>)
    ensures var r := ResetLoop(origin, cur, percentage, last, times);
      var d := Drive(percentage, last, times);
      && r.1 == d.finished
      && r.0 == (if d.finished then Top
                 else if |d.args| == 0 then cur
                 else LerpAngles(origin, Top, d.args[|d.args| - 1]))
    decreases |times|
  {
    if |times| > 0 && percentage < 1.0 {
      var p := Advance(percentage, last, times[0]);
      ResetLoopFollowsDrive(origin, LerpAngles(origin, Top, p), p, Some(times[0]), times[1..]);
    }
  }

  /**
   * `resetCamera()` run over the frames `times`: the promise resolves exactly
   * when the shared loop finishes, and then the angles are exactly `Top`;
   * before that they are the interpolation at the latest progress.
   */
  function ResetCamera(origin: Angles, times: seq<real>): (r: (Angles, bool))
    ensures r.1 <==> RunFrames(times).finished
    ensures r.1 ==> r.0 == Top
    ensures !r.1 && |times| == 0 ==> r.0 == origin
    ensures !r.1 && |times| > 0 ==> r.0 == LerpAngles(origin, Top, RunFrames(times).args[|times| - 1])
  {
    ResetLoopFollowsDrive(origin, origin, 0.0, None, times);
    ResetLoop(origin, origin, 0.0, None, times)
  }

  /** A reset that starts at `Top` stays at `Top` on every frame. */
  lemma ResetFromTopStaysTop(times: seq<real>)
    ensures ResetCamera(Top, times).0 == Top
  {
  }

  // ---------------------------------------------------------------------------
  // Canvas clicks

  /** A board square: file (column) and rank (row), each from 1 to 8 when on the board. */
  datatype Square = Square(file: int, rank: int)

  /** A move command from one square to another. */
  datatype Move = Move(from: Square, to: Square)

  predicate OnBoard(s: Square)
  {
    1 <= s.file <= 8 && 1 <= s.rank <= 8
  }

  /** The pixel box of the canvas that square `s` covers (50-pixel squares from (120, 20), rank 8 on top). */
  predicate InPixelBox(s: Square, x: real, y: real)
  {
    && 120.0 + 50.0 * (s.file - 1) as real <= x < 120.0 + 50.0 * s.file as real
    && 20.0 + 50.0 * (8 - s.rank) as real <= y < 20.0 + 50.0 * (9 - s.rank) as real
  }

  /**
   * `mouseClicked(x, y)`: the square under the canvas pixel (x, y), or nothing
   * when the pixel lies outside the 400x400 board area.
   */
  function MouseClicked(x: real, y: real): (r: Option<Square>)
    ensures r.Some? <==> 120.0 <= x < 520.0 && 20.0 <= y < 420.0
    ensures r.Some? ==> OnBoard(r.value) && InPixelBox(r.value, x, y)
  {
    var gridX := ((x - 120.0) / 50.0).Floor;
    var gridY := ((y - 20.0) / 50.0).Floor;
    if gridX < 0 || gridX > 7 || gridY < 0 || gridY > 7 then None
    else Some(Square(gridX + 1, 8 - gridY))
  }

  /** Every pixel of a square's box maps back to that square. */
  lemma PixelBoxRoundTrip(s: Square, x: real, y: real)
    requires OnBoard(s) && InPixelBox(s, x, y)
    ensures MouseClicked(x, y) == Some(s)
  {
    var gridX := ((x - 120.0) / 50.0).Floor;
    var gridY := ((y - 20.0) / 50.0).Floor;
    assert (s.file - 1) as real <= (x - 120.0) / 50.0 < s.file as real;
    assert (8 - s.rank) as real <= (y - 20.0) / 50.0 < (9 - s.rank) as real;
    assert gridX == s.file - 1;
    assert gridY == 8 - s.rank;
  }

  /** Whether a fully visible slot stands on the square. */
  predicate Occupied(b: Board, s: Square)
  {
    GetPieceIndex(b, s.file as real, s.rank as real) != -1
  }

  /**
   * `boardClicked(x, y)`: the selection state machine. With nothing selected,
   * a click on an occupied square selects it and an empty square is ignored.
   * With a square selected, clicking it again deselects; clicking any other
   * square emits one move from the selection to it (occupied or not) and
   * clears the selection. Returns the new `gridSelected` and the emitted move.
   */
  function BoardClicked(selected: Option<Square>, b: Board, s: Square): (r: (Option<Square>, Option<Move>))
    ensures selected.None? ==> r.1.None? && (r.0.Some? <==> Occupied(b, s))
    ensures r.0.Some? ==> r.0.value == s && selected.None?
    ensures selected.Some? ==> r.0.None? && (r.1.Some? <==> selected.value != s)
    ensures r.1.Some? ==> selected.Some? && r.1.value == Move(selected.value, s) && r.1.value.from != r.1.value.to
  {
    match selected
    case None =>
      if GetPieceIndex(b, s.file as real, s.rank as real) == -1 then (None, None)
      else (Some(s), None)
    case Some(sel) =>
      if sel.file == s.file && sel.rank == s.rank then (None, None)
      else (None, Some(Move(sel, s)))
  }

  /**
   * On the initial board: clicking (4,2) twice ends with nothing selected and
   * no move; clicking (4,2) then (4,3) emits exactly the move (4,2) -> (4,3).
   */
  lemma ClickSequences()
    ensures var b := NewCheckerboard();
      var first := BoardClicked(None, b, Square(4, 2));
      && first == (Some(Square(4, 2)), None)
      && BoardClicked(first.0, b, Square(4, 2)) == (None, None)
      && BoardClicked(first.0, b, Square(4, 3)) == (None, Some(Move(Square(4, 2), Square(4, 3))))
  {
    var ps := NewCheckerboard().positions;
    assert ps[0].file == 4.0 && ps[0].rank == 1.0 && ps[1].file == 1.0 && ps[2].file == 2.0;
    assert ps[3].file == 3.0 && ps[4] == Slot(4.0, 2.0, 1.0, true);
    assert FindIndexFrom(ps, 4.0, 2.0, 0) == FindIndexFrom(ps, 4.0, 2.0, 1) == FindIndexFrom(ps, 4.0, 2.0, 2)
        == FindIndexFrom(ps, 4.0, 2.0, 3) == FindIndexFrom(ps, 4.0, 2.0, 4) == 4;
  }

  /**
   * A run of clicks through `boardClicked`, each paired with the board as it
   * stands at that click. Returns the final selection and the moves emitted.
   * Every move needs a selecting click and a second click, so the moves
   * number at most half the clicks (counting a selection held at the start).
   */
  function ClickRun(selected: Option<Square>, clicks: seq<(Board, Square)>): (r: (Option<Square>, seq<Move>))
    ensures 2 * |r.1| + (if r.0.Some? then 1 else 0) <= |clicks| + (if selected.Some? then 1 else 0)
    ensures forall k :: 0 <= k < |r.1| ==> r.1[k].from != r.1[k].to
    decreases |clicks|
  {
    if |clicks| == 0 then (selected, [])
    else
      var (next, move) := BoardClicked(selected, clicks[0].0, clicks[0].1);
      var (final, moves) := ClickRun(next, clicks[1..]);
      (final, (if move.Some? then [move.value] else []) + moves)
  }

  // ---------------------------------------------------------------------------
  // movePieceAnimate

  /**
   * `movePieceAnimate` of chess.js run over the frames `times`. When the board
   * refuses (a move is in flight) `animate` is undefined and the first frame
   * throws before touching anything; when the source was empty the closure
   * throws on its first call, so the board keeps the flag the request armed;
   * otherwise the closure receives every argument the frame loop hands out.
   */
  function MovePieceAnimate(b: Board, m: Move, times: seq<real>): (r: Board)
    ensures |r.positions| == |b.positions|
    ensures b.animateInProgress ==> r == b
    ensures !b.animateInProgress && !Occupied(b, m.from) ==> r == b.(animateInProgress := true)
  {
    var (armed, animate) := Pieces.MovePieceAnimate(b, m.from.file as real, m.from.rank as real,
                                                    m.to.file as real, m.to.rank as real);
    if animate.None? || !Fits(armed, animate.value) then armed
    else Steps(armed, animate.value, RunFrames(times).args)
  }

  /**
   * A move from an occupied square to another square whose frame loop runs to
   * the end: the mover alone stands on the destination, the source is empty,
   * the flag is clear and the board still has one occupant per square.
   */
  lemma MoveRunCompletes(b: Board, m: Move, times: seq<real>)
    requires !b.animateInProgress
    requires OneOccupantPerSquare(b.positions)
    requires Occupied(b, m.from) && m.from != m.to
    requires RunFrames(times).finished
    ensures var r := MovePieceAnimate(b, m, times);
      && GetPieceIndex(r, m.to.file as real, m.to.rank as real)
         == GetPieceIndex(b, m.from.file as real, m.from.rank as real)
      && !Occupied(r, m.from)
      && !r.animateInProgress
      && OneOccupantPerSquare(r.positions)
  {
    var x, y := m.from.file as real, m.from.rank as real;
    var newX, newY := m.to.file as real, m.to.rank as real;
    assert x != newX || y != newY;
    MoveCompletes(b, x, y, newX, newY);
    var (armed, animate) := Pieces.MovePieceAnimate(b, x, y, newX, newY);
    var args := RunFrames(times).args;
    StepsOverwrite(armed, animate.value, args);
    assert 1.0 in args;
  }

  /**
   * Whenever no move is in flight after a move run, the board has one occupant
   * per square again: a run that clears the flag passes 1 as its last argument,
   * and every other run (refused, empty source, cut off) leaves the flag set.
   */
  lemma MoveRunKeepsOneOccupant(b: Board, m: Move, times: seq<real>)
    requires !b.animateInProgress ==> OneOccupantPerSquare(b.positions)
    requires m.from != m.to
    ensures var r := MovePieceAnimate(b, m, times);
      !r.animateInProgress ==> OneOccupantPerSquare(r.positions)
  {
    var x, y := m.from.file as real, m.from.rank as real;
    var newX, newY := m.to.file as real, m.to.rank as real;
    var (armed, animate) := Pieces.MovePieceAnimate(b, x, y, newX, newY);
    if !b.animateInProgress && animate.Some? && Fits(armed, animate.value) {
      var args := RunFrames(times).args;
      if 1.0 in args {
        FramesShape(times);
        assert args[|args| - 1] == 1.0;
        StepsOverwrite(armed, animate.value, args);
        assert x != newX || y != newY;
        MoveCompletes(b, x, y, newX, newY);
      }
    }
  }

  /**
   * As written, a request whose source square is empty arms the flag and its
   * closure throws before it can clear it: every later move is refused for good.
   */
  lemma EmptySourceLocksBoard(b: Board, m: Move, times: seq<real>, later: Move, laterTimes: seq<real>)
    requires !b.animateInProgress && !Occupied(b, m.from)
    ensures var r := MovePieceAnimate(b, m, times);
      && r.animateInProgress && r.positions == b.positions
      && MovePieceAnimate(r, later, laterTimes) == r
  {
  }

  /** From the initial board, the pawn on (1,2) moved to (1,4) is found on (1,4), and (1,2) is empty. */
  lemma OpeningMove(times: seq<real>)
    requires RunFrames(times).finished
    ensures var r := MovePieceAnimate(NewCheckerboard(), Move(Square(1, 2), Square(1, 4)), times);
      && GetPieceIndex(r, 1.0, 4.0) == 1
      && GetPieceIndex(r, 1.0, 2.0) == -1
      && r.positions[1].side
  {
    var b := NewCheckerboard();
    var m := Move(Square(1, 2), Square(1, 4));
    NewCheckerboardLayout();
    assert b.positions[1] == Slot(1.0, 2.0, 1.0, true);
    GetPieceIndexUnique(b, 1, 1.0, 2.0);
    MoveRunCompletes(b, m, times);
    assert MovePieceAnimate(b, m, times).positions[1].side == b.positions[1].side;
  }

  // ---------------------------------------------------------------------------
  // The Chess object and its event handlers

  /** The fields of the `Chess` object that its handlers read and write. */
  datatype State = State(checkerboard: Board, cameraAngles: Angles, atTopView: bool, gridSelected: Option<Square>)

  /** `new Chess()`. */
  function NewChess(): State
  {
    State(NewCheckerboard(), Angles(0.0, Pi / 4.0), false, None)
  }

  /**
   * The inputs `addControllers` listens to. Each carries the frame timestamps
   * that the animation it starts receives.
   *  - ChessControlClick: the reset button; runs `resetCamera`, and its
   *    resolution sets `atTopView`.
   *  - LongitudeInput: the slider bound to `longitudeController`; as written it
   *    sets `cameraAngles[1]` (the slider-to-radian conversion is left out).
   *  - LatitudeInput: the slider bound to `latitudeController`; sets `cameraAngles[0]`.
   *  - CanvasClick: a click at canvas pixel (x, y).
   */
  datatype Event =
    | ChessControlClick(frames: seq<real>)
    | LongitudeInput(angle: real)
    | LatitudeInput(angle: real)
    | CanvasClick(x: real, y: real, frames: seq<real>)

  predicate IsSliderInput(e: Event)
  {
    e.LongitudeInput? || e.LatitudeInput?
  }

  /** A reset whose frame loop reaches its final frame, resolving the promise. */
  predicate ResetResolves(e: Event)
  {
    e.ChessControlClick? && RunFrames(e.frames).finished
  }

  /**
   * One handled event. A slider clears `atTopView`; a click on the canvas is
   * ignored unless `atTopView` holds; only a resolved reset sets `atTopView`.
   */
  function Apply(c: State, e: Event): (r: State)
    ensures IsSliderInput(e) ==> !r.atTopView
    ensures e.CanvasClick? && !c.atTopView ==> r == c
    ensures r.atTopView ==> ResetResolves(e) || (c.atTopView && !IsSliderInput(e))
    ensures ResetResolves(e) ==> r.atTopView && r.cameraAngles == Top
  {
    match e
    case ChessControlClick(frames) =>
      var (angles, resolved) := ResetCamera(c.cameraAngles, frames);
      c.(cameraAngles := angles, atTopView := if resolved then true else c.atTopView)
    case LongitudeInput(angle) =>
      c.(atTopView := false, cameraAngles := c.cameraAngles.(latitude := angle))
    case LatitudeInput(angle) =>
      c.(atTopView := false, cameraAngles := c.cameraAngles.(longitude := angle))
    case CanvasClick(x, y, frames) =>
      CanvasClicked(c, x, y, frames)
  }

  /**
   * The canvas click listener: ignored unless `atTopView` holds; otherwise the
   * pixel goes through `mouseClicked` and `boardClicked`, and an emitted move
   * runs over `frames`. It never touches the camera or the top-view flag.
   */
  function CanvasClicked(c: State, x: real, y: real, frames: seq<real>): (r: State)
    ensures !c.atTopView ==> r == c
    ensures r.atTopView == c.atTopView && r.cameraAngles == c.cameraAngles
    ensures r.gridSelected.Some? ==> OnBoard(r.gridSelected.value) || r.gridSelected == c.gridSelected
  {
    if !c.atTopView then c
    else
      match MouseClicked(x, y)
      case None => c
      case Some(s) =>
        var (selected, move) := BoardClicked(c.gridSelected, c.checkerboard, s);
        var board := if move.Some? then MovePieceAnimate(c.checkerboard, move.value, frames) else c.checkerboard;
        c.(checkerboard := board, gridSelected := selected)
  }

  /** The state after handling `events` in order. */
  function RunEvents(c: State, events: seq<Event>): State
    decreases |events|
  {
    if |events| == 0 then c
    else Apply(RunEvents(c, events[..|events| - 1]), events[|events| - 1])
  }

  /**
   * What every reachable state keeps: 32 slots; one occupant per square
   * whenever no move is in flight; the top-view flag only while the camera sits
   * exactly at `Top`; a selection only of a square on the board.
   */
  predicate Invariant(c: State)
  {
    && |c.checkerboard.positions| == 32
    && (!c.checkerboard.animateInProgress ==> OneOccupantPerSquare(c.checkerboard.positions))
    && (c.atTopView ==> c.cameraAngles == Top)
    && (c.gridSelected.Some? ==> OnBoard(c.gridSelected.value))
  }

  lemma ApplyPreservesInvariant(c: State, e: Event)
    requires Invariant(c)
    ensures Invariant(Apply(c, e))
  {
    if e.ChessControlClick? && c.atTopView {
      ResetFromTopStaysTop(e.frames);
    }
    if e.CanvasClick? && c.atTopView && MouseClicked(e.x, e.y).Some? {
      var (selected, move) := BoardClicked(c.gridSelected, c.checkerboard, MouseClicked(e.x, e.y).value);
      if move.Some? {
        MoveRunKeepsOneOccupant(c.checkerboard, move.value, e.frames);
      }
    }
  }

  /** Every state reachable from `new Chess()` satisfies the invariant. */
  lemma {:induction false} ReachableInvariant(events: seq<Event>)
    ensures Invariant(RunEvents(NewChess(), events))
    decreases |events|
  {
    if |events| == 0 {
      NewCheckerboardLayout();
    } else {
      ReachableInvariant(events[..|events| - 1]);
      ApplyPreservesInvariant(RunEvents(NewChess(), events[..|events| - 1]), events[|events| - 1]);
    }
  }

  /** From a state without top view, top view holds only after a resolved reset with no slider input since. */
  lemma {:induction false} TopViewNeedsReset(c: State, events: seq<Event>)
    requires !c.atTopView
    ensures RunEvents(c, events).atTopView ==>
      exists i :: 0 <= i < |events| && ResetResolves(events[i])
        && forall j :: i < j < |events| ==> !IsSliderInput(events[j])
    decreases |events|
  {
    if |events| > 0 && RunEvents(c, events).atTopView {
      var n := |events| - 1;
      var prefix := events[..n];
      var before := RunEvents(c, prefix);
      assert RunEvents(c, events) == Apply(before, events[n]);
      if !ResetResolves(events[n]) {
        assert before.atTopView && !IsSliderInput(events[n]);
        TopViewNeedsReset(c, prefix);
        var i :| 0 <= i < |prefix| && ResetResolves(prefix[i])
          && forall j :: i < j < |prefix| ==> !IsSliderInput(prefix[j]);
        assert events[i] == prefix[i];
        forall j | i < j < |events|
          ensures !IsSliderInput(events[j])
        {
          if j < n {
            assert events[j] == prefix[j];
          }
        }
      }
    }
  }

  /**
   * `atTopView` starts false, and whenever it holds some reset resolved and no
   * slider moved since.
   */
  lemma TopViewOnlyAfterReset(events: seq<Event>)
    ensures !NewChess().atTopView
    ensures RunEvents(NewChess(), events).atTopView ==>
      exists i :: 0 <= i < |events| && ResetResolves(events[i])
        && forall j :: i < j < |events| ==> !IsSliderInput(events[j])
  {
    TopViewNeedsReset(NewChess(), events);
  }
}
