/** The overlay's frame loop: the effect that starts it and the decision
    `processFrame` takes on every animation frame — whether to do any work,
    whether to resize the canvas to the video's box, whether to hand the
    frame to the pose detector and whether to schedule another tick. The
    detector call itself and `requestAnimationFrame` are outside the model:
    a tick is described by what it observes of the video before and after
    the awaited detector call. */
module FrameTick {

  /** What the loop reads of the video element. */
  datatype Playback = Playback(paused: bool, ended: bool, readyState: nat)

  /** `HAVE_CURRENT_DATA`: at least one decoded frame is available. */
  const HaveCurrentData: nat := 2

  /** The canvas's integer pixel size. */
  datatype CanvasSize = CanvasSize(width: nat, height: nat)

  /** One animation frame as the tick sees it: the `isPlaying` prop (fixed
      for the lifetime of the loop), the playback state when the tick starts
      and after the awaited detector call, the element's bounding box, and
      whether the detector exposes `send`. */
  datatype TickInput = TickInput(isPlaying: bool, before: Playback, after: Playback,
                                 boxW: real, boxH: real, canSend: bool)

  predicate ValidTick(t: TickInput) {
    t.boxW >= 0.0 && t.boxH >= 0.0
  }

  datatype TickEffect = TickEffect(canvas: CanvasSize, resized: bool, sent: bool, reschedule: bool)

  /** `canvas.width = rect.width`: a canvas dimension is an unsigned integer,
      so a fractional box size is truncated. */
  function CanvasFor(boxW: real, boxH: real): CanvasSize
    requires boxW >= 0.0 && boxH >= 0.0
  {
    CanvasSize(boxW.Floor, boxH.Floor)
  }

  /** The tick does any work at all: `!video.paused && !video.ended && isPlaying`. */
  predicate Active(t: TickInput) {
    t.isPlaying && !t.before.paused && !t.before.ended
  }

  /** The frame is handed to the detector. */
  predicate Sends(t: TickInput) {
    Active(t) && t.canSend && t.before.readyState >= HaveCurrentData
  }

  /** The playback state the reschedule test reads: after the awaited call
      when the frame was sent, otherwise the state the tick started with. */
  function StateAtEnd(t: TickInput): Playback {
    if Sends(t) then t.after else t.before
  }

  /** The tick as written: `canvas.width !== rect.width` compares the integer
      canvas size with the (possibly fractional) box size. */
  function TickAsWritten(t: TickInput, c: CanvasSize): (e: TickEffect)
    requires ValidTick(t)
    ensures !Active(t) ==> e == TickEffect(c, false, false, false)
    ensures e.sent <==> Sends(t)
    // the size test compares the integer canvas with the real-valued box
    ensures e.resized <==> Active(t) && (c.width as real != t.boxW || c.height as real != t.boxH)
    ensures e.canvas == if e.resized then CanvasFor(t.boxW, t.boxH) else c
    ensures e.reschedule <==> Active(t) && !StateAtEnd(t).paused && !StateAtEnd(t).ended
  {
    if !Active(t) then TickEffect(c, false, false, false)
    else
      var resize := c.width as real != t.boxW || c.height as real != t.boxH;
      var c' := if resize then CanvasFor(t.boxW, t.boxH) else c;
      var sent := t.canSend && t.before.readyState >= HaveCurrentData;
      var fin := if sent then t.after else t.before;
      TickEffect(c', resize, sent, t.isPlaying && !fin.paused && !fin.ended)
  }

  /** On a box of 800.5 x 600 pixels the canvas becomes 800 x 600, which
      still differs from the box, so every later tick resizes (and thereby
      clears) the canvas again. */
  lemma FractionalBoxResizesEveryTick()
    ensures var t := TickInput(true, Playback(false, false, 4), Playback(false, false, 4), 800.5, 600.0, true);
      var first := TickAsWritten(t, CanvasSize(300, 150));
      && first.resized && first.canvas == CanvasSize(800, 600)
      && TickAsWritten(t, first.canvas).resized
  {
  }

  /** The tick with the size test comparing like with like: the canvas is
      resized only when the size it would get differs from the one it has. */
  function Tick(t: TickInput, c: CanvasSize): (e: TickEffect)
    requires ValidTick(t)
    // paused, ended or not playing: no work and no further tick
    ensures !Active(t) ==> e == TickEffect(c, false, false, false)
    // the frame is sent only while playing with a decoded frame available
    ensures e.sent <==> Sends(t)
    ensures e.sent ==> t.before.readyState >= HaveCurrentData
    // the canvas follows the box, and is touched only when its size differs
    ensures Active(t) ==> e.canvas == CanvasFor(t.boxW, t.boxH)
    ensures e.resized <==> Active(t) && c != CanvasFor(t.boxW, t.boxH)
    // another tick only while still playing and neither paused nor ended
    ensures e.reschedule <==> Active(t) && !StateAtEnd(t).paused && !StateAtEnd(t).ended
  {
    if !Active(t) then TickEffect(c, false, false, false)
    else
      var target := CanvasFor(t.boxW, t.boxH);
      var resize := c != target;
      var sent := t.canSend && t.before.readyState >= HaveCurrentData;
      var fin := if sent then t.after else t.before;
      TickEffect(target, resize, sent, t.isPlaying && !fin.paused && !fin.ended)
  }

  /** On a box of whole pixels the two size tests agree, so the tick as
      written and the corrected tick have the same effect. */
  lemma TickAgreesOnIntegralBox(t: TickInput, c: CanvasSize)
    requires ValidTick(t)
    requires t.boxW.Floor as real == t.boxW && t.boxH.Floor as real == t.boxH
    ensures TickAsWritten(t, c) == Tick(t, c)
  {
  }

  /** After one resize the canvas matches the box, so an unchanged box is
      never resized again. */
  lemma ResizeSettles(t: TickInput, t': TickInput, c: CanvasSize)
    requires ValidTick(t) && ValidTick(t')
    requires Active(t) && t'.boxW == t.boxW && t'.boxH == t.boxH
    ensures !Tick(t', Tick(t, c).canvas).resized
  {
  }

  /** Runs the loop over successive animation frames: each tick runs only if
      the previous one rescheduled, and the canvas carries over. */
  function Loop(ticks: seq<TickInput>, c: CanvasSize): (effects: seq<TickEffect>)
    requires forall k | 0 <= k < |ticks| :: ValidTick(ticks[k])
    ensures |effects| <= |ticks|
    ensures forall k | 0 <= k < |effects| :: effects[k] == Tick(ticks[k], CanvasAt(ticks, c, k))
    ensures forall k | 0 <= k < |effects| - 1 :: effects[k].reschedule
    ensures |effects| < |ticks| ==> |effects| > 0 && !effects[|effects| - 1].reschedule
  {
    if |ticks| == 0 then []
    else
      var e := Tick(ticks[0], c);
      if !e.reschedule then [e]
      else
        var rest := Loop(ticks[1..], e.canvas);
        LoopCons(ticks, c, rest);
        [e] + rest
  }

  /** The first tick followed by the effects of the loop started from its
      canvas are the effects of the loop started one tick earlier. */
  lemma LoopCons(ticks: seq<TickInput>, c: CanvasSize, rest: seq<TickEffect>)
    requires 0 < |ticks| && forall k | 0 <= k < |ticks| :: ValidTick(ticks[k])
    requires |rest| <= |ticks| - 1
    requires forall k | 0 <= k < |rest| ::
      rest[k] == Tick(ticks[1..][k], CanvasAt(ticks[1..], Tick(ticks[0], c).canvas, k))
    ensures forall k | 0 <= k < |rest| + 1 ::
      ([Tick(ticks[0], c)] + rest)[k] == Tick(ticks[k], CanvasAt(ticks, c, k))
  {
    var effects := [Tick(ticks[0], c)] + rest;
    forall k | 0 <= k < |rest| + 1 ensures effects[k] == Tick(ticks[k], CanvasAt(ticks, c, k)) {
      if k > 0 {
        CanvasAtShift(ticks, c, k);
        assert effects[k] == rest[k - 1];
        assert ticks[1..][k - 1] == ticks[k];
      }
    }
  }

  /** The canvas size the `k`-th tick starts with. */
  function CanvasAt(ticks: seq<TickInput>, c: CanvasSize, k: nat): CanvasSize
    requires k <= |ticks|
    requires forall j | 0 <= j < |ticks| :: ValidTick(ticks[j])
  {
    if k == 0 then c else Tick(ticks[k - 1], CanvasAt(ticks, c, k - 1)).canvas
  }

  lemma {:induction false} CanvasAtShift(ticks: seq<TickInput>, c: CanvasSize, k: nat)
    requires 0 < k <= |ticks|
    requires forall j | 0 <= j < |ticks| :: ValidTick(ticks[j])
    ensures CanvasAt(ticks, c, k) == CanvasAt(ticks[1..], Tick(ticks[0], c).canvas, k - 1)
  {
    if k > 1 {
      CanvasAtShift(ticks, c, k - 1);
    }
  }

  /** With the playing flag off the loop never sends a frame and stops after
      its first tick. */
  lemma {:induction false} NotPlayingNeverSends(ticks: seq<TickInput>, c: CanvasSize)
    requires forall k | 0 <= k < |ticks| :: ValidTick(ticks[k]) && !ticks[k].isPlaying
    ensures var effects := Loop(ticks, c);
      |effects| <= 1 && forall k | 0 <= k < |effects| :: !effects[k].sent
  {
  }

  /** While the box keeps its size, only the first tick of a run resizes
      the canvas. */
  lemma {:induction false} SteadyBoxResizesOnce(ticks: seq<TickInput>, c: CanvasSize)
    requires forall k | 0 <= k < |ticks| :: ValidTick(ticks[k])
    requires forall k | 0 <= k < |ticks| :: ticks[k].boxW == ticks[0].boxW && ticks[k].boxH == ticks[0].boxH
    ensures var effects := Loop(ticks, c);
      forall k | 1 <= k < |effects| :: !effects[k].resized
  {
    var effects := Loop(ticks, c);
    forall k | 1 <= k < |effects| ensures !effects[k].resized {
      assert effects[k - 1].reschedule;
      assert effects[k - 1] == Tick(ticks[k - 1], CanvasAt(ticks, c, k - 1));
      ResizeSettles(ticks[k - 1], ticks[k], CanvasAt(ticks, c, k - 1));
    }
  }

  // ---------------------------------------------------------------------
  // Starting the loop
  // ---------------------------------------------------------------------

  /** What the effect that owns the loop does when its inputs change. */
  datatype Start = Idle | RunNow | RunOnLoadedData | ClearCanvas

  function StartLoop(initialized: bool, detectorPresent: bool, videoPresent: bool,
                     canvasPresent: bool, isPlaying: bool, readyState: nat): (s: Start)
    // nothing happens before the detector, the video and the canvas exist
    ensures !(initialized && detectorPresent && videoPresent && canvasPresent) ==> s == Idle
    // a first tick runs at once only while playing with a decoded frame
    ensures s == RunNow <==>
      initialized && detectorPresent && videoPresent && canvasPresent && isPlaying && readyState >= HaveCurrentData
    // while playing without data the first tick waits for `loadeddata`, once
    ensures s == RunOnLoadedData <==>
      initialized && detectorPresent && videoPresent && canvasPresent && isPlaying && readyState < HaveCurrentData
    // when not playing the overlay is wiped
    ensures s == ClearCanvas <==>
      initialized && detectorPresent && videoPresent && canvasPresent && !isPlaying
  {
    if !initialized || !detectorPresent || !videoPresent || !canvasPresent then Idle
    else if isPlaying then
      if readyState >= HaveCurrentData then RunNow else RunOnLoadedData
    else ClearCanvas
  }

  /** A loop started at once on a playing video hands its first frame to the
      detector, when the video is not paused or ended and `send` exists. */
  lemma RunNowSendsFirstFrame(initialized: bool, detectorPresent: bool, videoPresent: bool,
                              canvasPresent: bool, ticks: seq<TickInput>, c: CanvasSize)
    requires |ticks| > 0 && forall k | 0 <= k < |ticks| :: ValidTick(ticks[k])
    requires StartLoop(initialized, detectorPresent, videoPresent, canvasPresent,
                       ticks[0].isPlaying, ticks[0].before.readyState) == RunNow
    requires !ticks[0].before.paused && !ticks[0].before.ended && ticks[0].canSend
    ensures |Loop(ticks, c)| > 0 && Loop(ticks, c)[0].sent
  {
    assert Loop(ticks, c)[0] == Tick(ticks[0], CanvasAt(ticks, c, 0));
  }

  /** When the start decision is to clear the canvas, a tick run anyway with
      the same flag does nothing and ends the loop at once. */
  lemma ClearCanvasLoopIdle(initialized: bool, detectorPresent: bool, videoPresent: bool,
                            canvasPresent: bool, readyState: nat, ticks: seq<TickInput>, c: CanvasSize)
    requires |ticks| > 0 && forall k | 0 <= k < |ticks| :: ValidTick(ticks[k])
    requires StartLoop(initialized, detectorPresent, videoPresent, canvasPresent,
                       ticks[0].isPlaying, readyState) == ClearCanvas
    ensures Loop(ticks, c) == [TickEffect(c, false, false, false)]
  {
  }
}
