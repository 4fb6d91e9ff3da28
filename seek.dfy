/**
  * The playback controller of labeler.cpp: one pass of the main loop
  * (labeler.cpp:366-401) as a step function over the loop's state.
  *
  * `frames_to_skip` is a `double` in the source, but it only ever changes by
  * `frameskip / 30.0` with an integer `frameskip`, so it is kept here exactly,
  * as an integer count of thirtieths of a frame.
  */
module Seek {

  /** The largest `int64_t`: the target `play` sets, meaning "play to the end". */
  const INT64_MAX: int := 0x7fff_ffff_ffff_ffff
  /** Upper ends of the two sliders. */
  const FRAMESKIP_MAX: int := 900
  const SEEK_INTERVAL_MAX: int := 900
  /** `frames_to_skip` is counted in these fractions of a frame. */
  const PARTS: int := 30

  /**
    * Converting the value `n / 30` (a frame id plus the accumulator) back to
    * `int64_t`: truncation toward zero.
    */
  function TruncParts(n: int): (q: int)
    ensures n >= 0 ==> 0 <= PARTS * q <= n < PARTS * (q + 1)
    ensures n < 0 ==> PARTS * (q - 1) < n <= PARTS * q <= 0
  {
    if n >= 0 then n / PARTS else -((-n) / PARTS)
  }

  /** What a tick asks of the video source. */
  datatype Access =
    | NoRead              // a frame is already buffered: nothing is read
    | ReadNext            // `vc >> frame`: the next frame in sequence
    | SeekAndRead(pos: int) // `vc.set(CAP_PROP_POS_FRAMES, pos)`, then `vc >> frame`

  /**
    * The state the loop carries from one tick to the next: `frame_id`,
    * `target_frame_number`, `frames_to_skip` (in thirtieths) and whether
    * `frame` holds a decoded image.
    */
  datatype Player = Player(frameId: int, target: int, toSkip: int, hasFrame: bool)

  datatype Tick = Tick(after: Player, access: Access)

  /** The forward branch (labeler.cpp:367-378): new frame id and accumulator. */
  function Advance(frameId: int, target: int, toSkip: int, frameskip: int): (int, int) {
    if frameskip == 0 then (frameId + 1, toSkip)
    else
      var acc := toSkip + frameskip;
      var moved := if acc >= PARTS then TruncParts(PARTS * frameId + acc) else frameId + 1;
      (if moved > target then target else moved, if acc >= PARTS then 0 else acc)
  }

  /** The reverse branch (labeler.cpp:383-391): new frame id and accumulator. */
  function Retreat(frameId: int, target: int, toSkip: int, frameskip: int): (int, int) {
    var back := frameId - 1;
    var acc := toSkip - frameskip;
    var moved := if acc >= PARTS then TruncParts(PARTS * back - acc) else back - 1;
    (if moved < target then target else moved, if acc >= PARTS then 0 else acc)
  }

  /**
    * One tick. `readOk` is what the source delivers when this tick reads a
    * frame: `false` means `frame` came back empty (end of the stream).
    */
  function Step(p: Player, frameskip: int, readOk: bool): Tick {
    var moved :=
      if p.frameId < p.target then Advance(p.frameId, p.target, p.toSkip, frameskip)
      else if p.frameId > p.target then Retreat(p.frameId, p.target, p.toSkip, frameskip)
      else (p.frameId, p.toSkip);
    var access :=
      if p.frameId < p.target then (if frameskip == 0 then ReadNext else SeekAndRead(moved.0))
      else if p.frameId > p.target then SeekAndRead(moved.0)
      else if p.hasFrame then NoRead
      else ReadNext;
    var hasFrame := if access == NoRead then p.hasFrame else readOk;
    var target := if hasFrame then p.target else moved.0 - 1;
    Tick(Player(moved.0, target, moved.1, hasFrame), access)
  }

  /**
    * Moving forward: the frame strictly advances and never passes the target;
    * with no frame skipping it is exactly the next frame, read in sequence;
    * with skipping the source is told to seek and the accumulator is left
    * below one frame.
    */
  lemma ForwardStep(p: Player, frameskip: int, readOk: bool)
    requires p.frameId < p.target
    ensures var t := Step(p, frameskip, readOk);
      p.frameId < t.after.frameId <= p.target
      && (frameskip == 0 ==> t.after.frameId == p.frameId + 1 && t.access == ReadNext
                             && t.after.toSkip == p.toSkip)
      && (frameskip != 0 ==> t.access == SeekAndRead(t.after.frameId) && t.after.toSkip < PARTS)
  {
    var acc := p.toSkip + frameskip;
    if frameskip != 0 && acc >= PARTS {
      var q := TruncParts(PARTS * p.frameId + acc);
      assert q >= p.frameId + 1;
    }
  }

  /**
    * Moving backward: the frame lands in `[target, old - 1]` and the source is
    * always told to seek.
    */
  lemma ReverseStep(p: Player, frameskip: int, readOk: bool)
    requires p.frameId > p.target
    ensures var t := Step(p, frameskip, readOk);
      p.target <= t.after.frameId <= p.frameId - 1
      && t.access == SeekAndRead(t.after.frameId)
  {
    var acc := p.toSkip - frameskip;
    if acc >= PARTS {
      var q := TruncParts(PARTS * (p.frameId - 1) - acc);
      assert q <= p.frameId - 2;
    }
  }

  /**
    * At the target the frame and the accumulator stay put; a frame is read
    * only when none is buffered.
    */
  lemma HoldStep(p: Player, frameskip: int, readOk: bool)
    requires p.frameId == p.target
    ensures var t := Step(p, frameskip, readOk);
      t.after.frameId == p.frameId && t.after.toSkip == p.toSkip
      && t.access == (if p.hasFrame then NoRead else ReadNext)
      && (p.hasFrame ==> t.after == p)
  {
  }

  /**
    * End of the stream: whenever the tick leaves no frame in the buffer, the
    * target is pulled back to one before the current frame; otherwise the
    * target is kept.
    */
  lemma EndOfStream(p: Player, frameskip: int, readOk: bool)
    ensures var t := Step(p, frameskip, readOk);
      t.after.hasFrame == (readOk || (p.frameId == p.target && p.hasFrame))
      && t.after.target == (if t.after.hasFrame then p.target else t.after.frameId - 1)
  {
  }

  /** With a non-negative skip rate the accumulator stays below one frame. */
  lemma AccumulatorBelowOne(p: Player, frameskip: int, readOk: bool)
    requires p.toSkip < PARTS && 0 <= frameskip
    ensures Step(p, frameskip, readOk).after.toSkip < PARTS
  {
  }

  /**
    * Because the accumulator stays below one frame, the reverse branch never
    * takes its "skip" path: every backward tick moves two frames, clamped at
    * the target, and the accumulator only decreases.
    */
  lemma ReverseMovesTwo(p: Player, frameskip: int, readOk: bool)
    requires p.frameId > p.target && p.toSkip < PARTS && 0 <= frameskip
    ensures var t := Step(p, frameskip, readOk);
      t.after.frameId == (if p.frameId - 2 < p.target then p.target else p.frameId - 2)
      && t.after.toSkip == p.toSkip - frameskip
  {
  }

  /**
    * Forward with skipping from a non-negative frame: once a whole frame has
    * accumulated, the frame advances by the whole number of accumulated frames
    * (not one more), clamped at the target, and the accumulator restarts.
    */
  lemma ForwardSkipAmount(p: Player, frameskip: int, readOk: bool)
    requires 0 <= p.frameId < p.target && frameskip != 0 && p.toSkip + frameskip >= PARTS
    ensures var t := Step(p, frameskip, readOk);
      var jump := p.frameId + (p.toSkip + frameskip) / PARTS;
      t.after.frameId == (if jump > p.target then p.target else jump) && t.after.toSkip == 0
  {
    var acc := p.toSkip + frameskip;
    assert (PARTS * p.frameId + acc) / PARTS == p.frameId + acc / PARTS;
  }

  /**
    * As long as less than two whole frames have accumulated, skipping has no
    * visible effect: from a non-negative frame every forward tick moves
    * exactly one frame, also when reverse passes have driven the accumulator
    * negative. With a skip rate below 30 per 30 (and the accumulator below
    * one frame, as it always is) this holds on every tick.
    */
  lemma SlowSkipMovesOne(p: Player, frameskip: int, readOk: bool)
    requires 0 <= p.frameId < p.target && 0 <= frameskip
    requires p.toSkip + frameskip < 2 * PARTS
    ensures Step(p, frameskip, readOk).after.frameId == p.frameId + 1
  {
    if frameskip != 0 && p.toSkip + frameskip >= PARTS {
      ForwardSkipAmount(p, frameskip, readOk);
    }
  }

  /**
    * Below frame 0 the truncating cast rounds the other way: from frame -5,
    * one and a half accumulated frames move two frames, not one.
    */
  lemma NegativeFrameMovesTwo()
    ensures Step(Player(-5, 10, 0, true), 45, true).after.frameId == -3
  {
  }

  /** `n` ticks in a row, every read succeeding. */
  function Run(p: Player, frameskip: int, n: nat): Player
    decreases n
  {
    if n == 0 then p else Run(Step(p, frameskip, true).after, frameskip, n - 1)
  }

  /**
    * Playback with no skipping: starting at or before the target with a frame
    * buffered, `n` ticks reach exactly `n` frames further on, as long as that
    * does not pass the target, and the target is never moved.
    */
  lemma {:induction false} SequentialPlayback(p: Player, n: nat)
    requires p.hasFrame && p.frameId + n <= p.target
    ensures Run(p, 0, n).frameId == p.frameId + n
    ensures Run(p, 0, n).target == p.target
    decreases n
  {
    if n > 0 {
      var q := Step(p, 0, true).after;
      assert q.frameId == p.frameId + 1 && q.target == p.target && q.hasFrame;
      SequentialPlayback(q, n - 1);
    }
  }

  /** However many ticks run, a forward approach never passes the target. */
  lemma {:induction false} NeverOvershoots(p: Player, frameskip: int, n: nat)
    requires p.hasFrame && p.frameId <= p.target
    ensures Run(p, frameskip, n).frameId <= p.target
    ensures Run(p, frameskip, n).target == p.target
    decreases n
  {
    if n > 0 {
      var q := Step(p, frameskip, true).after;
      if p.frameId < p.target {
        ForwardStep(p, frameskip, true);
      }
      NeverOvershoots(q, frameskip, n - 1);
    }
  }
}
