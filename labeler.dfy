/**
  * The state and the operations of labeler.cpp. The source keeps the ledger,
  * the target frame and the two slider values in globals, and the current
  * frame, the skip accumulator and the decoded frame in locals of `main`;
  * here they are the fields of one `Session` object whose methods are the
  * button callbacks, the key handler and one pass of the main loop.
  */
module Labeler {
  import opened Text
  import opened Seek
  import opened Intervals

  /** The first loop of `print_events` (labeler.cpp:241-244): one line per event interval, with its index. */
  method EventLines(events: seq<Interval>) returns (lines: seq<string>)
    ensures |lines| == |events|
    ensures forall i :: 0 <= i < |events| ==> lines[i] == EventLine(events[i], i)
  {
    lines := [];
    var i := 0;
    while i < |events|
      invariant 0 <= i <= |events| && |lines| == i
      invariant forall m :: 0 <= m < i ==> lines[m] == EventLine(events[m], m)
    {
      lines := lines + [EventLine(events[i], i)];
      i := i + 1;
    }
  }

  /** The second loop of `print_events` (labeler.cpp:245-248): one line per uncertain interval. */
  method UncertainLines(uncertain: seq<Interval>) returns (lines: seq<string>)
    ensures |lines| == |uncertain|
    ensures forall j :: 0 <= j < |uncertain| ==> lines[j] == UncertainLine(uncertain[j])
  {
    lines := [];
    var j := 0;
    while j < |uncertain|
      invariant 0 <= j <= |uncertain| && |lines| == j
      invariant forall m :: 0 <= m < j ==> lines[m] == UncertainLine(uncertain[m])
    {
      lines := lines + [UncertainLine(uncertain[j])];
      j := j + 1;
    }
  }

  class Session {
    /** `event_intervals` and `uncertain_intervals`: closed intervals, in insertion order. */
    var eventIntervals: seq<Interval>
    var uncertainIntervals: seq<Interval>
    /** `cur_event_interval` and `cur_uncertain_interval`: the open slot of each kind. */
    var curEvent: Interval
    var curUncertain: Interval
    /** `labels`: the notes filed under each frame; a missing key reads as no notes. */
    var labels: map<int, seq<string>>
    /** `target_frame_number`. */
    var target: int
    /** The two sliders, `frameskip` and `seek_interval`. */
    var frameskip: int
    var seekInterval: int
    /** `main`'s `frame_id`, `frames_to_skip` (in thirtieths) and `!frame.empty()`. */
    var frameId: int
    var toSkip: int
    var hasFrame: bool

    function Closed(k: Kind): seq<Interval>
      reads this`eventIntervals, this`uncertainIntervals
    {
      if k == Event then eventIntervals else uncertainIntervals
    }

    function Slot(k: Kind): Interval
      reads this`curEvent, this`curUncertain
    {
      if k == Event then curEvent else curUncertain
    }

    /** `labels[f]`, where the source's `operator[]` yields an empty vector for a new key. */
    function Notes(f: int): seq<string>
      reads this`labels
    {
      if f in labels then labels[f] else []
    }

    /** How many open slots start at frame `f`. */
    function OpenAt(f: int): nat
      reads this`curEvent, this`curUncertain
    {
      (if IsOpen(curEvent) && curEvent.start == f then 1 else 0)
      + (if IsOpen(curUncertain) && curUncertain.start == f then 1 else 0)
    }

    /** The loop state the tick works on. */
    function Player(): Player
      reads this
    {
      Seek.Player(frameId, target, toSkip, hasFrame)
    }

    /**
      * The session invariant: both slots keep `-1` in their second half;
      * every closed interval was closed from an open slot, so its start is
      * non-negative; every open slot's start frame still holds at least one
      * note per slot opened there, so deleting an open start never pops an
      * empty vector; the sliders stay in their ranges; and the skip
      * accumulator stays below one frame.
      */
    ghost predicate Valid()
      reads this`curEvent, this`curUncertain, this`eventIntervals, this`uncertainIntervals, this`labels
      reads this`frameskip, this`seekInterval, this`toSkip
    {
      LedgerValid()
      && 0 <= frameskip <= FRAMESKIP_MAX
      && 0 <= seekInterval <= SEEK_INTERVAL_MAX
      && toSkip < PARTS
    }

    /** The part of the session invariant about the ledger alone. */
    ghost predicate LedgerValid()
      reads this`curEvent, this`curUncertain, this`eventIntervals, this`uncertainIntervals, this`labels
    {
      curEvent.end == CLOSED && curUncertain.end == CLOSED
      && (forall i :: 0 <= i < |eventIntervals| ==> eventIntervals[i].start >= 0)
      && (forall i :: 0 <= i < |uncertainIntervals| ==> uncertainIntervals[i].start >= 0)
      && (IsOpen(curEvent) ==> |Notes(curEvent.start)| >= OpenAt(curEvent.start))
      && (IsOpen(curUncertain) ==> |Notes(curUncertain.start)| >= OpenAt(curUncertain.start))
    }

    /** The ledger is as it was. */
    twostate predicate LedgerUnchanged()
      reads this
    {
      eventIntervals == old(eventIntervals) && uncertainIntervals == old(uncertainIntervals)
      && curEvent == old(curEvent) && curUncertain == old(curUncertain) && labels == old(labels)
    }

    /** The loop state and the sliders are as they were. */
    twostate predicate PlayerUnchanged()
      reads this
    {
      frameId == old(frameId) && target == old(target) && toSkip == old(toSkip)
      && hasFrame == old(hasFrame) && frameskip == old(frameskip) && seekInterval == old(seekInterval)
    }

    /**
      * What starting a tag of kind `k` at `frame` does (labeler.cpp:73-88,
      * 108-123): with the slot already open only the warning; otherwise the
      * slot's start becomes `frame` and one note is added under `frame`. Its
      * number is the count of closed UNCERTAIN intervals for both kinds, as in
      * the source. No closed interval changes.
      */
    twostate predicate Started(k: Kind, frame: int, new w: Option<Warning>)
      reads this
    {
      eventIntervals == old(eventIntervals) && uncertainIntervals == old(uncertainIntervals)
      && Slot(Other(k)) == old(Slot(Other(k)))
      && if IsOpen(old(Slot(k))) then
           w == Some(CloseExistingFirst(k)) && Slot(k) == old(Slot(k)) && labels == old(labels)
         else
           w == None && Slot(k) == old(Slot(k)).(start := frame)
           && labels == old(labels)[frame := old(Notes(frame)) + [StartNote(k, |old(uncertainIntervals)|)]]
    }

    /**
      * What ending a tag of kind `k` at `frame` does (labeler.cpp:90-106,
      * 125-141): with the slot closed only the warning; otherwise exactly
      * `(open start, frame)` is appended to that kind's list, whatever the
      * order of the two frames, both halves of the slot go back to `-1`, and
      * one note is added under `frame`.
      */
    twostate predicate Ended(k: Kind, frame: int, new w: Option<Warning>)
      reads this
    {
      Closed(Other(k)) == old(Closed(Other(k))) && Slot(Other(k)) == old(Slot(Other(k)))
      && if !IsOpen(old(Slot(k))) then
           w == Some(EndWithoutStart(k)) && Closed(k) == old(Closed(k))
           && Slot(k) == old(Slot(k)) && labels == old(labels)
         else
           w == None && Closed(k) == old(Closed(k)) + [Interval(old(Slot(k)).start, frame)]
           && Slot(k) == Interval(CLOSED, CLOSED)
           && labels == old(labels)[frame := old(Notes(frame)) + [EndNote(k, |old(Closed(k))|)]]
    }

    /** The state `main` sets up before its loop, starting at `startFrame`. */
    constructor (startFrame: int)
      ensures Valid()
      ensures eventIntervals == [] && uncertainIntervals == [] && labels == map[]
      ensures !IsOpen(curEvent) && !IsOpen(curUncertain)
      ensures frameId == startFrame && target == startFrame && toSkip == 0 && !hasFrame
      ensures frameskip == 0 && seekInterval == 30
    {
      eventIntervals, uncertainIntervals := [], [];
      curEvent, curUncertain := Interval(CLOSED, CLOSED), Interval(CLOSED, CLOSED);
      labels := map[];
      target, frameskip, seekInterval := startFrame, 0, 30;
      frameId, toSkip, hasFrame := startFrame, 0, false;
    }

    /** `uncertain_interval_start` and `event_interval_start`. */
    method Start(k: Kind, frame: int) returns (w: Option<Warning>)
      requires Valid()
      modifies this`curEvent, this`curUncertain, this`labels
      ensures Valid()
      ensures Started(k, frame, w)
    {
      if IsOpen(Slot(k)) {
        w := Some(CloseExistingFirst(k));
      } else {
        w := None;
        if k == Event {
          curEvent := curEvent.(start := frame);
        } else {
          curUncertain := curUncertain.(start := frame);
        }
        labels := labels[frame := Notes(frame) + [StartNote(k, |uncertainIntervals|)]];
      }
    }

    /** `uncertain_interval_end` and `event_interval_end`. */
    method End(k: Kind, frame: int) returns (w: Option<Warning>)
      requires Valid()
      modifies this`eventIntervals, this`uncertainIntervals, this`curEvent, this`curUncertain, this`labels
      ensures Valid()
      ensures Ended(k, frame, w)
    {
      if !IsOpen(Slot(k)) {
        w := Some(EndWithoutStart(k));
      } else {
        w := None;
        if k == Event {
          curEvent := curEvent.(end := frame);
          eventIntervals := eventIntervals + [curEvent];
          labels := labels[frame := Notes(frame) + [EndNote(k, |eventIntervals| - 1)]];
          curEvent := Interval(CLOSED, CLOSED);
        } else {
          curUncertain := curUncertain.(end := frame);
          uncertainIntervals := uncertainIntervals + [curUncertain];
          labels := labels[frame := Notes(frame) + [EndNote(k, |uncertainIntervals| - 1)]];
          curUncertain := Interval(CLOSED, CLOSED);
        }
      }
    }

    /** An open slot's start frame holds the note its start filed, so it can always be deleted. */
    lemma OpenSlotDeletable(k: Kind)
      requires Valid() && IsOpen(Slot(k))
      ensures |Notes(Slot(k).start)| >= 1
    {
    }

    /**
      * `delete_cur_uncertain` and `delete_cur_event` (labeler.cpp:59-71): the
      * last note filed under the slot's start frame is dropped (whichever tag
      * put it there) and the slot's start goes back to `-1`. The source does
      * not check that the slot is open. A closed slot whose start is a
      * negative frame that holds a note (a start at a negative frame leaves
      * the slot closed but files its note there) is deleted in the same way;
      * only a start frame with no note, where the source pops an empty
      * vector, is excluded. An open slot always qualifies.
      */
    method Delete(k: Kind)
      requires Valid() && |Notes(Slot(k).start)| >= 1
      modifies this`curEvent, this`curUncertain, this`labels
      ensures Valid()
      ensures var s := old(Slot(k)).start;
        labels == old(labels)[s := old(Notes(s))[..|old(Notes(s))| - 1]]
        && |old(Notes(s))| >= 1
      ensures Slot(k) == old(Slot(k)).(start := CLOSED) && Slot(Other(k)) == old(Slot(Other(k)))
    {
      var s := Slot(k).start;
      var notes := Notes(s);
      labels := labels[s := notes[..|notes| - 1]];
      if k == Event {
        curEvent := curEvent.(start := CLOSED);
      } else {
        curUncertain := curUncertain.(start := CLOSED);
      }
    }

    /**
      * `goto_prev_event`, `goto_prev_uncertainty`, `goto_next_event` and
      * `goto_next_uncertainty` (labeler.cpp:144-218). With no closed interval
      * of the kind only the "No ..." warning; otherwise the loop runs over all
      * intervals and, since `min_dist` is never lowered, the "You are at the
      * first/last ..." warning is always shown afterwards. Only the target
      * changes.
      */
    method Goto(k: Kind, dir: Direction, frame: int) returns (w: Warning)
      modifies this`target
      ensures Closed(k) == [] ==> w == NoneRecorded(k) && target == old(target)
      ensures Closed(k) != [] ==>
        w == (if dir == Previous then AtFirst(k) else AtLast(k))
        && target == ScanTarget(Closed(k), dir, frame, old(target))
    {
      var ivs := Closed(k);
      var minDist := INT64_MAX;
      if |ivs| == 0 {
        return NoneRecorded(k);
      }
      var i := 0;
      while i < |ivs|
        invariant 0 <= i <= |ivs|
        invariant target == ScanTarget(ivs[..i], dir, frame, old(target))
      {
        assert ivs[..i + 1][..i] == ivs[..i];
        var start := ivs[i].start;
        if dir == Previous {
          if !(frame < start) && frame - start < minDist {
            target := start;
          }
        } else {
          if !(frame > start) && start - frame < minDist {
            target := start;
          }
        }
        i := i + 1;
      }
      assert ivs[..i] == ivs;
      w := if dir == Previous then AtFirst(k) else AtLast(k);
    }

    /** `play_button_callback`: play until the stream ends. */
    method Play()
      modifies this`target
      ensures target == INT64_MAX
    {
      target := INT64_MAX;
    }

    /** `pause_button_callback`: stop at `frame`. */
    method Pause(frame: int)
      modifies this`target
      ensures target == frame
    {
      target := frame;
    }

    /** `seek_forward`: aim one seek interval past `frame`. */
    method SeekForward(frame: int)
      modifies this`target
      ensures target == frame + seekInterval
    {
      target := frame + seekInterval;
    }

    /** `seek_backward`: aim one seek interval before `frame`; the result may be negative. */
    method SeekBackward(frame: int)
      modifies this`target
      ensures target == frame - seekInterval
    {
      target := frame - seekInterval;
    }

    /** The frame-skip slider; the toolkit keeps its value in `[0, 900]`. */
    method SetFrameskip(v: int)
      requires Valid() && 0 <= v <= FRAMESKIP_MAX
      modifies this`frameskip
      ensures Valid() && frameskip == v
    {
      frameskip := v;
    }

    /** The seek-interval slider; the toolkit keeps its value in `[0, 900]`. */
    method SetSeekInterval(v: int)
      requires Valid() && 0 <= v <= SEEK_INTERVAL_MAX
      modifies this`seekInterval
      ensures Valid() && seekInterval == v
    {
      seekInterval := v;
    }

    /**
      * One pass of `main`'s loop up to the frame display (labeler.cpp:366-401).
      * `readOk` stands for the frame the source returns when this pass reads
      * one. The new loop state is the `Seek.Step` of the old one, and the
      * returned access is what the pass asked of the source.
      */
    method Tick(readOk: bool) returns (access: Access)
      requires Valid()
      modifies this`frameId, this`target, this`toSkip, this`hasFrame
      ensures Valid()
      ensures Step(old(Player()), frameskip, readOk) == Seek.Tick(Player(), access)
    {
      AccumulatorBelowOne(Player(), frameskip, readOk);
      var after;
      after, access := PassOnLocals(Player(), frameskip, readOk);
      frameId, target, toSkip, hasFrame := after.frameId, after.target, after.toSkip, after.hasFrame;
    }

    /**
      * The key handler of `main` (labeler.cpp:403-433): `key` is what
      * `waitKey` returned (`-1` for none). `q` asks to leave the loop; the
      * ledger keys call the ledger operations at the current frame; the
      * other keys only move the target; every other key does nothing.
      */
    method Command(key: int) returns (quit: bool, w: Option<Warning>)
      requires Valid()
      modifies this`target, this`eventIntervals, this`uncertainIntervals, this`curEvent, this`curUncertain, this`labels
      ensures Valid()
      ensures quit == (key == 'q' as int)
      ensures frameId == old(frameId) && toSkip == old(toSkip) && hasFrame == old(hasFrame)
      ensures frameskip == old(frameskip) && seekInterval == old(seekInterval)
      ensures key == 's' as int ==> Started(Event, frameId, w) && target == old(target)
      ensures key == 'a' as int ==> Started(Uncertain, frameId, w) && target == old(target)
      ensures key == 'd' as int ==> Ended(Event, frameId, w) && target == old(target)
      ensures key == 'f' as int ==> Ended(Uncertain, frameId, w) && target == old(target)
      ensures key !in LedgerKeys ==> w == None && LedgerUnchanged()
      ensures key == 'p' as int ==> target == frameId
      ensures key == 'h' as int ==> target == old(target) - 1
      ensures key == 'l' as int ==> target == old(target) + 1
      ensures key == 'n' as int ==> target == frameId + seekInterval
      ensures key == 'b' as int ==> target == frameId - seekInterval
      ensures key == ' ' as int ==> target == (if old(target) == INT64_MAX then frameId else INT64_MAX)
      ensures key !in BoundKeys ==> target == old(target)
    {
      quit, w := key == 'q' as int, None;
      if key in LedgerKeys {
        w := LedgerKey(key);
      } else {
        TargetKey(key);
      }
    }

    /** The four ledger keys of the handler (labeler.cpp:419-426), at the current frame. */
    method LedgerKey(key: int) returns (w: Option<Warning>)
      requires Valid() && key in LedgerKeys
      modifies this`eventIntervals, this`uncertainIntervals, this`curEvent, this`curUncertain, this`labels
      ensures Valid()
      ensures key == 's' as int ==> Started(Event, frameId, w)
      ensures key == 'a' as int ==> Started(Uncertain, frameId, w)
      ensures key == 'd' as int ==> Ended(Event, frameId, w)
      ensures key == 'f' as int ==> Ended(Uncertain, frameId, w)
    {
      if key == 's' as int {
        w := Start(Event, frameId);
      } else if key == 'd' as int {
        w := End(Event, frameId);
      } else if key == 'a' as int {
        w := Start(Uncertain, frameId);
      } else {
        w := End(Uncertain, frameId);
      }
    }

    /** The keys of the handler that only move the target (labeler.cpp:405-418, 427-432). */
    method TargetKey(key: int)
      modifies this`target
      ensures key == 'p' as int ==> target == frameId
      ensures key == 'h' as int ==> target == old(target) - 1
      ensures key == 'l' as int ==> target == old(target) + 1
      ensures key == 'n' as int ==> target == frameId + seekInterval
      ensures key == 'b' as int ==> target == frameId - seekInterval
      ensures key == ' ' as int ==> target == (if old(target) == INT64_MAX then frameId else INT64_MAX)
      ensures key !in BoundKeys ==> target == old(target)
    {
      if key == 'p' as int {
        target := frameId;
      } else if key == 'h' as int {
        target := target - 1;
      } else if key == 'l' as int {
        target := target + 1;
      } else if key == 'n' as int {
        SeekForward(frameId);
      } else if key == 'b' as int {
        SeekBackward(frameId);
      } else if key == ' ' as int {
        if target == INT64_MAX {
          Pause(frameId);
        } else {
          Play();
        }
      }
    }

    /**
      * `print_events` (labeler.cpp:240-249): one line per event interval with
      * its insertion index, then one line per uncertain interval, each list in
      * insertion order.
      */
    method PrintEvents() returns (lines: seq<string>)
      ensures |lines| == |eventIntervals| + |uncertainIntervals|
      ensures forall i :: 0 <= i < |eventIntervals| ==> lines[i] == EventLine(eventIntervals[i], i)
      ensures forall j :: 0 <= j < |uncertainIntervals| ==>
        lines[|eventIntervals| + j] == UncertainLine(uncertainIntervals[j])
    {
      var events := EventLines(eventIntervals);
      var uncertain := UncertainLines(uncertainIntervals);
      lines := events + uncertain;
    }

    /**
      * `display_status_text` (labeler.cpp:39-57) without the display: which
      * starts are open, or "No tags open", then every note filed under the
      * frame, each after a space.
      */
    method StatusText(frame: int) returns (text: string)
      ensures text == OpenSummary(curUncertain, curEvent) + SpaceJoined(Notes(frame))
    {
      var uncertain, event, notes := curUncertain, curEvent, Notes(frame);
      text := "";
      if uncertain.start >= 0 {
        text := text + "Uncertain tag start: " + IntToString(uncertain.start) + ".";
      }
      if event.start >= 0 {
        text := text + " Event tag start: " + IntToString(event.start) + ".";
      }
      if text == "" {
        text := "No tags open";
      }
      assert text == OpenSummary(uncertain, event);
      var i := 0;
      while i < |notes|
        invariant 0 <= i <= |notes|
        invariant text == OpenSummary(uncertain, event) + SpaceJoined(notes[..i])
      {
        assert notes[..i + 1][..i] == notes[..i];
        text := text + " " + notes[i];
        i := i + 1;
      }
      assert notes[..i] == notes;
    }
  }

  /**
    * The body of one loop pass (labeler.cpp:366-401) on the locals of `main`:
    * move toward the target, say what is read, and pull the target back when
    * no frame came out of the source.
    */
  method PassOnLocals(p: Player, frameskip: int, readOk: bool) returns (after: Player, access: Access)
    ensures Seek.Tick(after, access) == Step(p, frameskip, readOk)
  {
    var f, acc, buffered, aim := p.frameId, p.toSkip, p.hasFrame, p.target;
    if f < aim {
      f, acc := AdvanceFrame(f, aim, acc, frameskip);
      access := if frameskip == 0 then ReadNext else SeekAndRead(f);
      buffered := readOk;
    } else if f > aim {
      f, acc := RetreatFrame(f, aim, acc, frameskip);
      access := SeekAndRead(f);
      buffered := readOk;
    } else if !buffered {
      access := ReadNext;
      buffered := readOk;
    } else {
      access := NoRead;
    }
    if !buffered {
      aim := f - 1;
    }
    after := Seek.Player(f, aim, acc, buffered);
  }

  /** The forward branch of the loop pass (labeler.cpp:367-378) on its locals. */
  method AdvanceFrame(frameId: int, target: int, toSkip: int, frameskip: int) returns (f: int, acc: int)
    ensures (f, acc) == Advance(frameId, target, toSkip, frameskip)
  {
    f, acc := frameId, toSkip;
    if frameskip == 0 {
      f := f + 1;
    } else {
      acc := acc + frameskip;
      if acc >= PARTS {
        f := TruncParts(PARTS * f + acc);
        acc := 0;
      } else {
        f := f + 1;
      }
      if f > target {
        f := target;
      }
    }
  }

  /** The reverse branch of the loop pass (labeler.cpp:383-391) on its locals. */
  method RetreatFrame(frameId: int, target: int, toSkip: int, frameskip: int) returns (f: int, acc: int)
    ensures (f, acc) == Retreat(frameId, target, toSkip, frameskip)
  {
    f := frameId - 1;
    acc := toSkip - frameskip;
    if acc >= PARTS {
      f := TruncParts(PARTS * f - acc);
      acc := 0;
    } else {
      f := f - 1;
    }
    if f < target {
      f := target;
    }
  }

  /** The keys that change the ledger. */
  const LedgerKeys: set<int> := {'s' as int, 'a' as int, 'd' as int, 'f' as int}

  /** The keys the loop reacts to besides `q`. */
  const BoundKeys: set<int> :=
    {'s' as int, 'a' as int, 'd' as int, 'f' as int, 'p' as int, 'h' as int,
     'l' as int, 'n' as int, 'b' as int, ' ' as int}

  /** The first part of the status line: the open starts, or "No tags open". */
  function OpenSummary(uncertain: Interval, event: Interval): (s: string)
    ensures s == "No tags open" <==> !IsOpen(uncertain) && !IsOpen(event)
  {
    var u := if IsOpen(uncertain) then "Uncertain tag start: " + IntToString(uncertain.start) + "." else "";
    var e := if IsOpen(event) then " Event tag start: " + IntToString(event.start) + "." else "";
    if u + e == "" then "No tags open" else u + e
  }

  /** Every note preceded by one space. */
  function SpaceJoined(notes: seq<string>): string {
    if notes == [] then "" else SpaceJoined(notes[..|notes| - 1]) + " " + notes[|notes| - 1]
  }
}
