/**
  * scripts/fix.py: reads a marker file into the shared frame-to-label map,
  * sorts the markers by frame and checks with a stack that every Finish
  * closes the Start of its own kind, and that no label is opened twice.
  */
module FixMarkers {
  import opened Text
  import opened Markers

  /**
    * Why the script stops: a line that is not `Label:frame`, a label already
    * open on the stack, a Finish with nothing open (`stack[-1]` raises), or a
    * Finish whose kind does not match the innermost open label.
    */
  datatype Failure = Malformed | Reopened(m: Marker) | FinishOnEmpty(m: Marker) | Mismatched(m: Marker)

  datatype Result<+T> = Ok(value: T) | Err(error: Failure)

  /** The markers in ascending frame order. */
  ghost predicate Ascending(s: seq<Marker>) {
    forall i, j :: 0 <= i < j < |s| ==> s[i].frame <= s[j].frame
  }

  /** The markers of one frame, in their order in `s`. */
  function WithFrame(s: seq<Marker>, f: int): seq<Marker>
    decreases |s|
  {
    if s == [] then []
    else WithFrame(s[..|s| - 1], f) + (if s[|s| - 1].frame == f then [s[|s| - 1]] else [])
  }

  /** `x` placed after every marker of `s` whose frame is not larger than its own. */
  function Insert(s: seq<Marker>, x: Marker): seq<Marker>
    decreases |s|
  {
    if s == [] || s[|s| - 1].frame <= x.frame then s + [x]
    else Insert(s[..|s| - 1], x) + [s[|s| - 1]]
  }

  /** `sorted(elems, key=lambda x: x[0])` (scripts/fix.py:19): Python's sort is stable. */
  function SortByFrame(s: seq<Marker>): seq<Marker>
    decreases |s|
  {
    if s == [] then [] else Insert(SortByFrame(s[..|s| - 1]), s[|s| - 1])
  }

  lemma {:induction false} InsertPermutes(s: seq<Marker>, x: Marker)
    ensures multiset(Insert(s, x)) == multiset(s) + multiset{x}
    decreases |s|
  {
    if !(s == [] || s[|s| - 1].frame <= x.frame) {
      var init, last := s[..|s| - 1], s[|s| - 1];
      assert s == init + [last];
      InsertPermutes(init, x);
    }
  }

  lemma {:induction false} InsertAscending(s: seq<Marker>, x: Marker)
    requires Ascending(s)
    ensures Ascending(Insert(s, x))
    decreases |s|
  {
    if s == [] || s[|s| - 1].frame <= x.frame {
      assert forall i :: 0 <= i < |s| ==> (s + [x])[i] == s[i];
    } else {
      var init, last := s[..|s| - 1], s[|s| - 1];
      InsertAscending(init, x);
      InsertPermutes(init, x);
      var t := Insert(init, x);
      assert Insert(s, x) == t + [last];
      forall i | 0 <= i < |t| ensures t[i].frame <= last.frame {
        BelowLast(s, x, t, i);
      }
      assert forall i :: 0 <= i < |t| ==> (t + [last])[i] == t[i];
    }
  }

  /** Every marker that `Insert` places before the last one of `s` has a frame no larger than it. */
  lemma BelowLast(s: seq<Marker>, x: Marker, t: seq<Marker>, i: int)
    requires Ascending(s) && s != [] && x.frame < s[|s| - 1].frame
    requires multiset(t) == multiset(s[..|s| - 1]) + multiset{x}
    requires 0 <= i < |t|
    ensures t[i].frame <= s[|s| - 1].frame
  {
    assert t[i] in multiset(t);
    if t[i] != x {
      assert t[i] in multiset(s[..|s| - 1]);
      var k :| 0 <= k < |s| - 1 && s[..|s| - 1][k] == t[i];
      assert s[k] == t[i];
    }
  }

  lemma {:induction false} InsertStable(s: seq<Marker>, x: Marker, f: int)
    ensures WithFrame(Insert(s, x), f) == WithFrame(s, f) + (if x.frame == f then [x] else [])
    decreases |s|
  {
    if s == [] || s[|s| - 1].frame <= x.frame {
      assert (s + [x])[..|s|] == s;
    } else {
      var init, last := s[..|s| - 1], s[|s| - 1];
      InsertStable(init, x, f);
      var t := Insert(init, x);
      assert Insert(s, x) == t + [last];
      assert (t + [last])[..|t|] == t;
      assert WithFrame(t + [last], f) == WithFrame(t, f) + (if last.frame == f then [last] else []);
    }
  }

  /**
    * The sort puts the markers in ascending frame order, keeps every marker
    * (a permutation), and keeps markers of the same frame in file order.
    */
  lemma {:induction false} SortByFrameSorts(s: seq<Marker>)
    ensures Ascending(SortByFrame(s))
    ensures multiset(SortByFrame(s)) == multiset(s)
    ensures forall f :: WithFrame(SortByFrame(s), f) == WithFrame(s, f)
    decreases |s|
  {
    if s != [] {
      var init, last := s[..|s| - 1], s[|s| - 1];
      assert s == init + [last];
      SortByFrameSorts(init);
      InsertAscending(SortByFrame(init), last);
      InsertPermutes(SortByFrame(init), last);
      forall f ensures WithFrame(SortByFrame(s), f) == WithFrame(s, f) {
        InsertStable(SortByFrame(init), last, f);
      }
    }
  }

  /** `[x[1] for x in stack]`: the labels on the stack, bottom first. */
  function Labels(stack: seq<Marker>): (r: seq<string>)
    ensures |r| == |stack|
  {
    seq(|stack|, i requires 0 <= i < |stack| => stack[i].name)
  }

  predicate IsFinish(name: string) {
    name == FULL_FINISH || name == PARTIAL_FINISH
  }

  /** The Start a Finish closes. */
  function Opening(finish: string): string {
    if finish == FULL_FINISH then FULL_START else PARTIAL_START
  }

  /**
    * One marker against the stack (scripts/fix.py:22-36): a label already on
    * the stack is an error; a Finish pops a matching Start from the top, and
    * is an error with an empty stack or another label on top; any other
    * label is pushed.
    */
  function Visit(stack: seq<Marker>, e: Marker): Result<seq<Marker>> {
    if e.name in Labels(stack) then Err(Reopened(e))
    else if IsFinish(e.name) then
      if stack == [] then Err(FinishOnEmpty(e))
      else if stack[|stack| - 1].name != Opening(e.name) then Err(Mismatched(e))
      else Ok(stack[..|stack| - 1])
    else Ok(stack + [e])
  }

  /** The stack loop over the sorted markers from `stack` on; the first error stops it. */
  function Nest(stack: seq<Marker>, elems: seq<Marker>): Result<seq<Marker>>
    decreases |elems|
  {
    if elems == [] then Ok(stack)
    else match Visit(stack, elems[0])
      case Err(f) => Err(f)
      case Ok(s) => Nest(s, elems[1..])
  }

  /** The stack holds no Finish and no label twice. */
  ghost predicate WellNested(stack: seq<Marker>) {
    (forall i :: 0 <= i < |stack| ==> !IsFinish(stack[i].name))
    && forall i, j :: 0 <= i < j < |stack| ==> stack[i].name != stack[j].name
  }

  /**
    * A Finish is accepted exactly when its label is not open, the stack is
    * not empty and the innermost open label is its own Start, which it then
    * removes; every other accepted marker is pushed on top.
    */
  lemma VisitFinish(stack: seq<Marker>, e: Marker)
    ensures IsFinish(e.name) ==>
      (Visit(stack, e).Ok? <==> e.name !in Labels(stack) && stack != [] && stack[|stack| - 1].name == Opening(e.name))
    ensures IsFinish(e.name) && Visit(stack, e).Ok? ==> stack == Visit(stack, e).value + [stack[|stack| - 1]]
    ensures !IsFinish(e.name) ==> (Visit(stack, e).Ok? <==> e.name !in Labels(stack))
    ensures !IsFinish(e.name) && Visit(stack, e).Ok? ==> Visit(stack, e).value == stack + [e]
  {
  }

  /** A label is on the stack exactly when some entry carries it. */
  lemma LabelsHold(stack: seq<Marker>, name: string)
    ensures name in Labels(stack) <==> exists i :: 0 <= i < |stack| && stack[i].name == name
  {
    if name in Labels(stack) {
      var i :| 0 <= i < |stack| && Labels(stack)[i] == name;
    }
    if exists i :: 0 <= i < |stack| && stack[i].name == name {
      var i :| 0 <= i < |stack| && stack[i].name == name;
      assert Labels(stack)[i] == name;
    }
  }

  /** Each accepted marker keeps the stack free of Finish labels and of repeated labels. */
  lemma VisitKeepsNesting(stack: seq<Marker>, e: Marker)
    requires WellNested(stack) && Visit(stack, e).Ok?
    ensures WellNested(Visit(stack, e).value)
  {
    LabelsHold(stack, e.name);
  }

  /** So does the whole loop. */
  lemma {:induction false} NestKeepsNesting(stack: seq<Marker>, elems: seq<Marker>)
    requires WellNested(stack) && Nest(stack, elems).Ok?
    ensures WellNested(Nest(stack, elems).value)
    decreases |elems|
  {
    if elems != [] {
      VisitKeepsNesting(stack, elems[0]);
      NestKeepsNesting(Visit(stack, elems[0]).value, elems[1..]);
    }
  }

  /**
    * What `read_file` (scripts/fix.py:9-36) leaves behind when it does not
    * exit: the updated frame-to-label map and the stack of labels still open.
    */
  function Check(lines: seq<string>, points: map<int, string>): Result<(map<int, string>, seq<Marker>)> {
    match ParseAll(lines)
    case None => Err(Malformed)
    case Some(ms) =>
      match Nest([], SortByFrame(ms))
      case Err(f) => Err(f)
      case Ok(stack) => Ok((Record(points, ms), stack))
  }

  /**
    * `read_file` (scripts/fix.py:9-36): parse every line into the map and the
    * marker list, sort the list by frame, then run the stack check over it.
    */
  method ReadFile(lines: seq<string>, dataPoints: map<int, string>)
    returns (r: Result<(map<int, string>, seq<Marker>)>)
    ensures r == Check(lines, dataPoints)
  {
    var points, elems := ReadMarkers(lines, dataPoints);
    if elems.None? {
      return Err(Malformed);
    }
    var sorted := SortByFrame(elems.value);
    var stack := CheckNesting(sorted);
    r := match stack
      case Err(f) => Err(f)
      case Ok(st) => Ok((points, st));
  }

  /**
    * The line loop of `read_file` (scripts/fix.py:13-18): each marker is
    * filed in the map under its frame and appended to the list; the first
    * line that does not parse stops the script.
    */
  method ReadMarkers(lines: seq<string>, dataPoints: map<int, string>)
    returns (points: map<int, string>, elems: Option<seq<Marker>>)
    ensures elems == ParseAll(lines)
    ensures elems.Some? ==> points == Record(dataPoints, elems.value)
  {
    ghost var parsed := ParsedMarkers(lines);
    points := dataPoints;
    var read: seq<Marker> := [];
    var i := 0;
    while i < |lines|
      invariant 0 <= i <= |lines|
      invariant Collect([], parsed) == Collect(read, parsed[i..])
      invariant points == Record(dataPoints, read)
    {
      var m := ParseMarker(lines[i]);
      assert parsed[i..][0] == m && parsed[i..][1..] == parsed[i + 1..];
      if m.None? {
        return points, None;
      }
      points := points[m.value.frame := m.value.name];
      var before := read;
      read := read + [m.value];
      assert read[..|read| - 1] == before;
      i := i + 1;
    }
    elems := Some(read);
  }

  /** The stack loop of `read_file` (scripts/fix.py:20-36) over the sorted markers. */
  method CheckNesting(elems: seq<Marker>) returns (r: Result<seq<Marker>>)
    ensures r == Nest([], elems)
  {
    var stack: seq<Marker> := [];
    var j := 0;
    while j < |elems|
      invariant 0 <= j <= |elems|
      invariant Nest([], elems) == Nest(stack, elems[j..])
    {
      var e := elems[j];
      assert elems[j..][0] == e && elems[j..][1..] == elems[j + 1..];
      if e.name in Labels(stack) {
        return Err(Reopened(e));
      }
      if e.name == FULL_FINISH || e.name == PARTIAL_FINISH {
        if stack == [] {
          return Err(FinishOnEmpty(e));
        }
        var expected := if e.name == FULL_FINISH then FULL_START else PARTIAL_START;
        if stack[|stack| - 1].name != expected {
          return Err(Mismatched(e));
        }
        stack := stack[..|stack| - 1];
      } else {
        stack := stack + [e];
      }
      j := j + 1;
    }
    r := Ok(stack);
  }

  /**
    * When the script does not exit, the open labels left on the stack are
    * Start labels, none of them twice, and the markers were checked in
    * ascending frame order with same-frame markers in file order.
    */
  lemma CheckedInOrder(lines: seq<string>, points: map<int, string>)
    requires Check(lines, points).Ok?
    ensures WellNested(Check(lines, points).value.1)
    ensures Ascending(SortByFrame(ParseAll(lines).value))
  {
    var ms := ParseAll(lines).value;
    NestKeepsNesting([], SortByFrame(ms));
    SortByFrameSorts(ms);
  }
}
