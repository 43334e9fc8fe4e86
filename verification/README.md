# webgl-chess: board, selection and animation state

A Dafny model of the state logic behind a browser 3D chessboard. The board
(`Checkerboard` in pieces.js) holds 32 fixed piece slots `[file, rank,
visibility, side]` and a single-flight `animateInProgress` flag; it answers
occupancy queries and starts piece moves whose step closure slides the mover
and fades out whatever stood on the destination. The `Chess` object in
chess.js turns canvas clicks into board squares, runs a two-state selection
machine that emits move commands, drives the move and camera-reset animations
from per-frame timestamps, and gates clicks on an `atTopView` flag that the
camera sliders clear and a finished camera reset sets.

Files:
- `options.dfy` — `Option` (JavaScript's `null`/`undefined` or a value).
- `pieces.dfy` — module `Pieces`: slots, the initial layout, `getPieceIndex`,
  `movePieceAnimate` and its step closure, as pure functions on an immutable
  32-slot sequence.
- `frames.dfy` — module `Frames`: the frame loop both animations share, as
  recursion over a finite sequence of timestamps, with a closed form of what
  it hands to its step function.
- `chess.dfy` — module `Chess`: pixel-to-square mapping, the selection
  machine, the two animations, the event handlers of `addControllers` over
  `Chess.State` (the fields of the `Chess` object), and invariants of every
  state reachable from `new Chess()`.

The model follows the code as written:
- Occupancy compares coordinates exactly (`===`), not after rounding. A
  fading slot is found nowhere; a sliding slot keeps visibility 1 and is found
  exactly where its interpolated coordinates equal the queried square.
- A move request whose source square is empty is not refused: the board arms
  its flag and the returned closure throws on its first call, so the flag is
  never released and every later move is refused (`Chess.EmptySourceLocksBoard`).
- Progress is not clamped: the frame that first reaches 1 passes its value
  (possibly above 1), and one more frame then passes exactly 1; when progress
  lands exactly on 1 the step function receives 1 twice.

## Model

| member | source | states |
|---|---|---|
| Pieces.NewCheckerboardLayout | pieces.js:18-57 | the initial board has 32 slots, slots 0-15 of side true and 16-31 of side false, all with visibility 1 on whole-numbered squares in [1,8]x[1,8], no two on one square, and no move in flight |
| Pieces.FindIndexFrom | pieces.js:60-62 | the `findIndex` scan from a position: the first index at or after it whose slot has exactly the coordinates and visibility 1, or -1 exactly when there is none |
| Pieces.GetPieceIndex | pieces.js:59-63 | the lowest index whose slot stands exactly on (x, y) with visibility exactly 1, or -1 exactly when no slot does |
| Pieces.GetPieceIndexUnique | pieces.js:59-63 | on a board with one occupant per square, the lookup returns that occupant |
| Pieces.InTransitOccupancy | pieces.js:61-78 | after a step of a move between different slots, the mover occupies a point exactly when its interpolated coordinates equal it (its visibility is untouched), and the fading target occupies no point once p is not 0 |
| Pieces.MidSlideFound | pieces.js:59-75 | on the initial board, the pawn moving (1,2) to (1,4) is found on (1,3) at progress 0.5 |
| Pieces.MovePieceAnimate | pieces.js:65-72 | while a move is in flight it returns nothing and changes nothing; otherwise it always returns a handle and arms the flag, with the mover and target set to the lowest-index occupants of source and destination (or -1), source occupancy unchecked |
| Pieces.Step | pieces.js:73-82 | one closure call: the mover's file and rank become the interpolation at p, the target's visibility becomes 1-p, no other slot or side changes, and the flag is cleared exactly when p is 1 |
| Pieces.Steps | pieces.js:73-82 | a sequence of closure calls keeps the 32 slots and their sides, and the flag ends set exactly when it was set and no argument was 1 |
| Pieces.StepOverwrites | pieces.js:74-78 | two steps leave the slots as the second alone would; the flag is cleared if either argument was 1 |
| Pieces.StepOneForgetsHistory | pieces.js:73-81 | `Step(1)` is idempotent, and its result does not depend on any earlier step |
| Pieces.StepsOverwrite | pieces.js:73-81 | any run of steps leaves the slots as its last step alone would, with the flag cleared if any argument was 1 |
| Pieces.MoveCompletes | pieces.js:59-81 | after `Step(1)` of a move between different squares on a board with one occupant per square: the mover is found at the destination, the source is empty, the captured slot of either side has visibility 0, the flag is clear, and one occupant per square still holds |
| Pieces.SelfMoveFades | pieces.js:69-78 | a move onto its own square makes the mover its own target; `Step(1)` leaves it in place with visibility 0 and the square empty |
| Pieces.InFlightRejects | pieces.js:66-81 | once a move is accepted, any further request returns nothing and changes nothing until a step with argument 1 has run |
| Frames.Drive | chess.js:246-262 | the frame loop never calls the step function more often than frames arrive; when it finishes its last call passes exactly 1; when it does not, every frame made a call |
| Frames.FinishedIgnoresLaterFrames | chess.js:247-250 | after the final call the loop requests no further frame: later timestamps change nothing |
| Frames.FramesMatchReference | chess.js:244-262 | the frame-by-frame loop equals the closed form: with k the first frame whose elapsed-time progress (t_k - t_0)*0.0005 reaches 1, frames 0..k pass their progress and frame k+1 passes 1 and ends the run |
| Frames.FramesShape | chess.js:244-262 | the first frame passes 0; each non-final call passes (t_i - t_0)*0.0005; the run finishes exactly when a frame before the last reaches 1, ending with 1 right after a value of at least 1; unfinished runs stay below 1 except possibly on the last frame |
| Frames.FramesNonDecreasing | chess.js:252-259 | for non-decreasing timestamps the progress values passed are at least 0 and non-decreasing |
| Frames.OvershootExample | chess.js:247-259 | frames at 0, 3000 and 3016 ms pass 0, 1.5 and then 1: one call above 1 before the final call |
| Frames.ExactLandingRepeatsOne | chess.js:247-259 | frames at 0, 2000 and 2016 ms pass 0, 1 and 1: progress landing on 1 makes the final call repeat it |
| Chess.ResetLoopFollowsDrive | chess.js:207-237 | the camera loop resolves exactly when the shared loop finishes, then sits at the top target; otherwise it holds the interpolation at the last progress, or the current angles if no frame came |
| Chess.ResetCamera | chess.js:207-240 | the reset resolves its promise only on the final frame, leaving the angles exactly (0, pi/2 - 0.01); before that they interpolate from the starting angles |
| Chess.ResetFromTopStaysTop | chess.js:208-233 | a reset started at the top target stays at it on every frame |
| Chess.MouseClicked | chess.js:266-275 | a pixel yields a square exactly when it lies in [120,520)x[20,420); the square is in [1,8]x[1,8] with the rank flipped, and its 50-pixel box contains the pixel |
| Chess.PixelBoxRoundTrip | chess.js:266-275 | every pixel in a square's box maps to that square |
| Chess.BoardClicked | chess.js:277-294 | with no selection, an empty square changes nothing and an occupied one becomes the selection with no move; clicking the selected square clears it with no move; any other square emits exactly one move from the selection to it and clears the selection |
| Chess.ClickSequences | chess.js:277-294 | on the initial board, (4,2) then (4,2) ends unselected with no move; (4,2) then (4,3) emits the single move (4,2) to (4,3) |
| Chess.ClickRun | chess.js:277-294 | over any run of clicks, twice the number of moves emitted plus a final selection is at most the number of clicks plus an initial selection; no move has equal source and destination |
| Chess.MovePieceAnimate | chess.js:242-264 | a request refused by a busy board changes nothing; one with an empty source leaves the board with its flag armed and nothing else changed |
| Chess.MoveRunCompletes | chess.js:242-264 | a move from an occupied square to another whose frame loop finishes leaves the mover alone on the destination, the source empty, the flag clear, and one occupant per square |
| Chess.MoveRunKeepsOneOccupant | chess.js:242-264 | a move run between different squares that ends with no move in flight leaves one occupant per square, given one occupant per square whenever no move was in flight before |
| Chess.EmptySourceLocksBoard | chess.js:242-263 | a move from an empty square arms the flag for good: every later move request leaves the board unchanged |
| Chess.OpeningMove | chess.js:242-264 | from the initial board, moving (1,2) to (1,4) to completion puts slot 1 (side true) on (1,4) and leaves (1,2) empty |
| Chess.Apply | chess.js:296-333 | a slider input clears `atTopView`; a canvas click while it is false changes nothing; it becomes true only through a reset that resolves, which leaves the angles at the top target |
| Chess.CanvasClicked | chess.js:326-333 | a canvas click is ignored unless `atTopView` holds; it never changes the camera angles or the top-view flag, and it leaves a selection only on a board square or as it was |
| Chess.ApplyPreservesInvariant | chess.js:302-333 | every handler keeps 32 slots, one occupant per square whenever no move is in flight, `atTopView` only at the top target angles, and a selection only on the board |
| Chess.ReachableInvariant | chess.js:13-19 | every state reachable from `new Chess()` keeps that invariant |
| Chess.TopViewNeedsReset | chess.js:302-323 | from any state with `atTopView` false, the flag holds after a run of events only if some reset in it resolved and no slider input came after that reset |
| Chess.TopViewOnlyAfterReset | chess.js:302-323 | whenever `atTopView` holds in a reachable state, some reset resolved and no slider input came after it |

## Left out

- Rendering: `draw`, `position`, the camera eye position, `mat4.lookAt` and `perspective` (floating-point trigonometry handed to a matrix library), asset and shader loading, texture upload, mesh buffers, `clearLoadingText` and the bootstrap in `main`. utils.js is not part of this model.
- The `Piece` enum of pieces.js, which nothing uses.
- Scheduling: `requestAnimationFrame` and promises are replaced by a finite sequence of timestamps carried by the event that starts each animation, and each event's frames run before the next event. Overlapping resets are not modelled, and neither is a move loop interleaved with other events, although the reset loops share the camera angles and `atTopView`, and the move loop shares the board and its flag with canvas clicks. Three consequences of that interleaving lie outside the model:
  - when the button is pressed twice within one animation, the first reset resolves and sets `atTopView` while the second keeps interpolating the angles towards `Top` from its own origin, so the program reaches a state with `atTopView` set and the camera off `Top` that accepts canvas clicks; `Chess.Invariant`'s clause that `atTopView` implies the angles are `Top`, and what `Chess.ApplyPreservesInvariant` and `Chess.ReachableInvariant` conclude from it, hold only under the sequential scheduling;
  - the empty-source lock is reached in the program by selecting the source of an in-flight move before it slides off the square and issuing a move from it after the slide; in the model no reachable state emits such a move (`Chess.EmptySourceLocksBoard` states the lock for the board alone);
  - when progress lands exactly on 1, the repeated `animate(1)` of the following frame clears the flag of a move accepted between the two calls, breaking single flight.
- Floating point: coordinates, progress and angles are exact reals; `Math.PI` is the shortest decimal that rounds to that double, and the progress accumulated frame by frame in doubles is taken as the exact telescoped sum (t_i - t_0)*0.0005.
- DOM detail: the slider-value-to-radian conversion (the new angle is an event parameter), resetting the slider values, the `forbidden` CSS class, and the canvas offset (clicks arrive in canvas pixels).
- Exceptions: the TypeError thrown inside a frame callback by a refused or empty-source move is modelled only by its effect, the loop stopping with the board as it stood.
