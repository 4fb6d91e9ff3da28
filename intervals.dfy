/**
  * The values the interval ledger of labeler.cpp works with: the two kinds of
  * tag, the `(start, end)` pairs, the notes it files under a frame, the
  * warnings it shows, the lines `print_events` writes, and the scan the
  * "go to previous/next" buttons perform.
  */
module Intervals {
  import opened Text
  import opened Seek

  datatype Kind = Event | Uncertain

  function Other(k: Kind): Kind {
    if k == Event then Uncertain else Event
  }

  /** A `std::pair<int64_t, int64_t>`: also the shape of the open slot of a kind. */
  datatype Interval = Interval(start: int, end: int)

  /** The value the source stores in both halves of a slot to mean "closed". */
  const CLOSED: int := -1

  /** A slot counts as open exactly when its start is non-negative (labeler.cpp:76, 92). */
  predicate IsOpen(slot: Interval) {
    slot.start >= 0
  }

  /** The warnings the ledger shows in the overlay instead of acting. */
  datatype Warning =
    | CloseExistingFirst(kind: Kind)
    | EndWithoutStart(kind: Kind)
    | NoneRecorded(kind: Kind)
    | AtFirst(kind: Kind)
    | AtLast(kind: Kind)

  /** The overlay text of each warning. */
  function Message(w: Warning): string {
    match w
    case CloseExistingFirst(k) =>
      "Please close the existing " + (if k == Event then "event" else "uncertain")
      + " interval before starting a new one"
    case EndWithoutStart(k) =>
      "Cannot end " + (if k == Event then "event" else "uncertain") + " interval: start not specified"
    case NoneRecorded(k) => if k == Event then "No events." else "No uncertainties."
    case AtFirst(k) =>
      "You are at the first " + (if k == Event then "event" else "uncertainty") + "."
    case AtLast(k) =>
      "You are at the last " + (if k == Event then "event" else "uncertainty") + "."
  }

  function KindName(k: Kind): string {
    if k == Event then "Event" else "Uncertain"
  }

  /** The note filed under the start frame; `n` is the number the source prints. */
  function StartNote(k: Kind, n: int): string {
    KindName(k) + " interval #" + IntToString(n) + " start."
  }

  /** The note filed under the end frame. */
  function EndNote(k: Kind, n: int): string {
    KindName(k) + " interval #" + IntToString(n) + " end."
  }

  /** How `print_events` writes a pair: `(start, end)`. */
  function RangeText(iv: Interval): string {
    "(" + IntToString(iv.start) + ", " + IntToString(iv.end) + ")"
  }

  /** The line `print_events` writes for the event interval with index `i`. */
  function EventLine(iv: Interval, i: int): string {
    RangeText(iv) + " - Event " + IntToString(i) + "\n"
  }

  /** The line `print_events` writes for an uncertain interval. */
  function UncertainLine(iv: Interval): string {
    RangeText(iv) + " - Uncertain\n"
  }

  /** The two "go to" directions. */
  datatype Direction = Previous | Next

  /**
    * The test the goto loops apply to an interval start (labeler.cpp:152-153,
    * 190-191). `min_dist` starts at `INT64_MAX` and is never lowered, so the
    * distance test compares against that constant on every iteration.
    */
  predicate IsCandidate(dir: Direction, start: int, frame: int) {
    match dir
    case Previous => !(frame < start) && frame - start < INT64_MAX
    case Next => !(frame > start) && start - frame < INT64_MAX
  }

  /**
    * The value the goto loop leaves in `target_frame_number` after scanning
    * `ivs` in insertion order from the initial `target`.
    */
  function ScanTarget(ivs: seq<Interval>, dir: Direction, frame: int, target: int): int {
    if ivs == [] then target
    else
      var last := ivs[|ivs| - 1];
      if IsCandidate(dir, last.start, frame) then last.start
      else ScanTarget(ivs[..|ivs| - 1], dir, frame, target)
  }

  /**
    * The scan settles on the start of the LAST candidate in insertion order
    * (not the nearest one), and leaves the target alone when no interval is a
    * candidate.
    */
  lemma {:induction false} ScanTargetIsLastCandidate(ivs: seq<Interval>, dir: Direction, frame: int, target: int)
    ensures (forall i :: 0 <= i < |ivs| ==> !IsCandidate(dir, ivs[i].start, frame))
            ==> ScanTarget(ivs, dir, frame, target) == target
    ensures (exists i :: 0 <= i < |ivs| && IsCandidate(dir, ivs[i].start, frame))
            ==> exists j :: 0 <= j < |ivs| && IsCandidate(dir, ivs[j].start, frame)
                  && ScanTarget(ivs, dir, frame, target) == ivs[j].start
                  && forall k :: j < k < |ivs| ==> !IsCandidate(dir, ivs[k].start, frame)
  {
    if ivs != [] {
      var init := ivs[..|ivs| - 1];
      ScanTargetIsLastCandidate(init, dir, frame, target);
      if !IsCandidate(dir, ivs[|ivs| - 1].start, frame) {
        assert forall i :: 0 <= i < |init| ==> init[i] == ivs[i];
        if exists i :: 0 <= i < |ivs| && IsCandidate(dir, ivs[i].start, frame) {
          var i :| 0 <= i < |ivs| && IsCandidate(dir, ivs[i].start, frame);
          assert i < |init| && IsCandidate(dir, init[i].start, frame);
        }
      }
    }
  }

  predicate StartsAscending(ivs: seq<Interval>) {
    forall i, j :: 0 <= i < j < |ivs| ==> ivs[i].start <= ivs[j].start
  }

  /**
    * When the intervals were recorded in ascending start order, "go to
    * previous" does reach the nearest start at or before the frame: the
    * target is a candidate start, and no candidate start lies above it.
    */
  lemma SortedPreviousIsNearest(ivs: seq<Interval>, frame: int, target: int, k: int)
    requires StartsAscending(ivs)
    requires 0 <= k < |ivs| && IsCandidate(Previous, ivs[k].start, frame)
    ensures var t := ScanTarget(ivs, Previous, frame, target);
      ivs[k].start <= t <= frame
      && exists j :: 0 <= j < |ivs| && IsCandidate(Previous, ivs[j].start, frame) && t == ivs[j].start
  {
    ScanTargetIsLastCandidate(ivs, Previous, frame, target);
  }

  /**
    * With the same ascending order, "go to next" jumps to the FARTHEST start
    * at or after the frame, not the nearest: the target is a candidate start,
    * and every candidate start is at or below it.
    */
  lemma SortedNextIsFarthest(ivs: seq<Interval>, frame: int, target: int, k: int)
    requires StartsAscending(ivs)
    requires 0 <= k < |ivs| && IsCandidate(Next, ivs[k].start, frame)
    ensures var t := ScanTarget(ivs, Next, frame, target);
      frame <= ivs[k].start <= t
      && exists j :: 0 <= j < |ivs| && IsCandidate(Next, ivs[j].start, frame) && t == ivs[j].start
  {
    ScanTargetIsLastCandidate(ivs, Next, frame, target);
  }

  /**
    * Two intervals recorded out of start order: from frame 10, "go to
    * previous" lands on 2 although 5 is nearer.
    */
  lemma PreviousIsNotNearest()
    ensures ScanTarget([Interval(5, 6), Interval(2, 3)], Previous, 10, 0) == 2
  {
    assert [Interval(5, 6), Interval(2, 3)][..1] == [Interval(5, 6)];
  }
}
