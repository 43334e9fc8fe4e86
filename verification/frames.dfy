/**
 * The frame loop shared by `resetCamera` and `movePieceAnimate` in chess.js.
 * Each frame callback first checks whether the progress has reached 1; if so
 * it makes the final call with exactly 1 and stops. Otherwise it adds the
 * time since the previous frame (nothing on the first frame, when `then` is still null) times the rate,
 * passes the new progress to the step function and asks for another frame.
 * Frames arrive as a finite sequence of timestamps.
 */
module Frames {
  import opened Options

  /** Progress units per millisecond: a full run spans 2000 ms of frame time. */
  const Rate: real := 0.0005

  /** The progress after the frame at time `t`; the first frame (`then` still null) adds nothing. */
  function Advance(percentage: real, last: Option<real>, t: real): real
  {
    var start := if last.Some? then last.value else t;
    percentage + (t - start) * Rate
  }

  /** The arguments handed to the step function, and whether the final call with 1 was made. */
  datatype Run = Run(args: seq<real>, finished: bool)

  /** The frame loop from the state (`percentage`, `then`, here `last`) over the remaining frames `times`. */
  function Drive(percentage: real, last: Option<real>, times: seq<real>): (r: Run)
    ensures |r.args| <= |times|
    ensures r.finished ==> |r.args| > 0 && r.args[|r.args| - 1] == 1.0
    ensures !r.finished ==> |r.args| == |times|
    decreases |times|
  {
    if |times| == 0 then Run([], false)
    else if percentage >= 1.0 then Run([1.0], true)
    else
      var p := Advance(percentage, last, times[0]);
      var rest := Drive(p, Some(times[0]), times[1..]);
      Run([p] + rest.args, rest.finished)
  }

  /** A fresh loop: `percentage = 0`, `then = null`. */
  function RunFrames(times: seq<real>): Run
  {
    Drive(0.0, None, times)
  }

  /** Once the loop has made its final call it asks for no further frame: later frames change nothing. */
  lemma {:induction false} FinishedIgnoresLaterFrames(percentage: real, last: Option<real>, times: seq<real>, later: seq<real>)
    requires Drive(percentage, last, times).finished
    ensures Drive(percentage, last, times + later) == Drive(percentage, last, times)
    decreases |times|
  {
    assert |times| > 0;
    var all := times + later;
    assert all[0] == times[0] && all[1..] == times[1..] + later;
    if percentage < 1.0 {
      FinishedIgnoresLaterFrames(Advance(percentage, last, times[0]), Some(times[0]), times[1..], later);
    }
  }

  // ---------------------------------------------------------------------------
  // A closed form of the loop, independent of its frame-by-frame bookkeeping.

  /** The progress the loop has accumulated at frame `i`: elapsed time since the first frame times the rate. */
  function Progress(times: seq<real>, i: int): real
    requires 0 <= i < |times|
  {
    (times[i] - times[0]) * Rate
  }

  /** The first frame at or after `i` whose progress reaches 1, or `|times|` when none does. */
  function FirstReachFrom(times: seq<real>, i: nat): (k: nat)
    requires i <= |times|
    ensures i <= k <= |times|
    ensures k < |times| ==> Progress(times, k) >= 1.0
    ensures forall j :: i <= j < k ==> Progress(times, j) < 1.0
    decreases |times| - i
  {
    if i == |times| then i
    else if Progress(times, i) >= 1.0 then i
    else FirstReachFrom(times, i + 1)
  }

  /**
   * What the loop does, stated in one piece: with `k` the first frame whose
   * progress reaches 1, frames 0..k pass their progress, frame k+1 (if it
   * arrives) passes 1 and ends the run; without such a frame every frame
   * passes its progress and the run never ends.
   */
  function Reference(times: seq<real>): Run
  {
    var k := FirstReachFrom(times, 0);
    var progress := seq(|times|, i requires 0 <= i < |times| => Progress(times, i));
    if k + 1 < |times| then Run(progress[..k + 1] + [1.0], true) else Run(progress, false)
  }

  /** The loop resumed after frame `k - 1` produces the rest of the closed form. */
  lemma {:induction false} DriveFromFrame(times: seq<real>, k: nat)
    requires 1 <= k <= |times|
    requires forall j :: 0 <= j < k - 1 ==> Progress(times, j) < 1.0
    ensures k <= |Reference(times).args|
    ensures Drive(Progress(times, k - 1), Some(times[k - 1]), times[k..])
         == Run(Reference(times).args[k..], Reference(times).finished)
    decreases |times| - k
  {
    var ref := Reference(times);
    var K := FirstReachFrom(times, 0);
    assert K >= k - 1;
    var p := Progress(times, k - 1);
    if k == |times| {
    } else if p >= 1.0 {
      assert K == k - 1;
      assert ref.args[k..] == [1.0];
    } else {
      assert Advance(p, Some(times[k - 1]), times[k]) == Progress(times, k);
      assert times[k..][1..] == times[k + 1..];
      DriveFromFrame(times, k + 1);
      assert ref.args[k] == Progress(times, k);
      assert ref.args[k..] == [Progress(times, k)] + ref.args[k + 1..];
    }
  }

  /** The frame-by-frame loop agrees with the closed form on every timestamp sequence. */
  lemma FramesMatchReference(times: seq<real>)
    ensures RunFrames(times) == Reference(times)
  {
    if |times| > 0 {
      var ref := Reference(times);
      assert Advance(0.0, None, times[0]) == 0.0 == Progress(times, 0);
      DriveFromFrame(times, 1);
      assert ref.args == [ref.args[0]] + ref.args[1..];
    }
  }

  /** The timestamps the frame scheduler delivers never go backwards. */
  predicate NonDecreasing(times: seq<real>)
  {
    forall i, j :: 0 <= i <= j < |times| ==> times[i] <= times[j]
  }

  /**
   * The shape of every run: the first frame passes 0; every call but a final
   * one passes the elapsed-time progress; the run ends exactly when some frame
   * before the last one reaches 1, and then ends with a call of 1 right after
   * the first such frame, which may itself have passed a value above 1.
   */
  lemma FramesShape(times: seq<real>)
    ensures var r := RunFrames(times);
      && (|times| > 0 ==> |r.args| > 0 && r.args[0] == 0.0)
      && (forall i :: 0 <= i < |r.args| && !(r.finished && i == |r.args| - 1) ==> r.args[i] == Progress(times, i))
      && (r.finished <==> exists i :: 0 <= i < |times| - 1 && Progress(times, i) >= 1.0)
      && (r.finished ==> |r.args| >= 2 && r.args[|r.args| - 1] == 1.0 && r.args[|r.args| - 2] >= 1.0
                         && forall i :: 0 <= i < |r.args| - 2 ==> r.args[i] < 1.0)
      && (!r.finished ==> |r.args| == |times| && forall i :: 0 <= i < |times| - 1 ==> r.args[i] < 1.0)
  {
    FramesMatchReference(times);
    var K := FirstReachFrom(times, 0);
    if K + 1 < |times| {
      assert Progress(times, K) >= 1.0;
    }
  }

  /**
   * For timestamps that never go backwards the progress passed by the frames
   * never goes below 0 and never decreases (the final call of 1 may lie below
   * an overshooting value before it).
   */
  lemma FramesNonDecreasing(times: seq<real>)
    requires NonDecreasing(times)
    ensures var r := RunFrames(times);
      forall i, j :: 0 <= i <= j < |r.args| && !(r.finished && j == |r.args| - 1)
        ==> 0.0 <= r.args[i] <= r.args[j]
  {
    FramesShape(times);
    var r := RunFrames(times);
    forall i, j | 0 <= i <= j < |r.args| && !(r.finished && j == |r.args| - 1)
      ensures 0.0 <= r.args[i] <= r.args[j]
    {
      assert times[0] <= times[i] <= times[j];
    }
  }

  /** One frame can pass progress above 1 before the final call: 0, 1.5, then 1. */
  lemma OvershootExample()
    ensures RunFrames([0.0, 3000.0, 3016.0]) == Run([0.0, 1.5, 1.0], true)
  {
  }

  /** When progress lands exactly on 1 the step function receives 1 twice. */
  lemma ExactLandingRepeatsOne()
    ensures RunFrames([0.0, 2000.0, 2016.0]) == Run([0.0, 1.0, 1.0], true)
  {
  }
}
