/**
  * read-data.py: reads marker files into one frame-to-label map, then walks
  * the frames from 0 up to (not including) the largest marked frame, keeping
  * a presence state and the state to return to after a full appearance.
  */
module ReadData {
  import opened Text
  import opened Markers

  /** The three states of `state` and `prev_state`. */
  datatype Presence = NoPerson | Unknown | Person

  /** Why the script stops: a line that is not `Label:frame`, or no marker at all (`sorted(...)[-1]` raises). */
  datatype Failure = Malformed | NoMarkers

  datatype Result<+T> = Ok(value: T) | Err(error: Failure)

  /**
    * `read_file` (read-data.py:20-25): every line is filed in the map under
    * its frame, later lines winning; the first line that does not parse
    * stops the script.
    */
  method ReadFile(lines: seq<string>, dataPoints: map<int, string>) returns (r: Result<map<int, string>>)
    ensures ParseAll(lines).None? <==> r.Err?
    ensures r.Ok? ==> r.value == Record(dataPoints, ParseAll(lines).value)
  {
    ghost var parsed := ParsedMarkers(lines);
    ghost var read: seq<Marker> := [];
    var points := dataPoints;
    var i := 0;
    while i < |lines|
      invariant 0 <= i <= |lines|
      invariant Collect([], parsed) == Collect(read, parsed[i..])
      invariant points == Record(dataPoints, read)
    {
      var m := ParseMarker(lines[i]);
      assert parsed[i..][0] == m && parsed[i..][1..] == parsed[i + 1..];
      if m.None? {
        return Err(Malformed);
      }
      points := points[m.value.frame := m.value.name];
      ghost var before := read;
      read := read + [m.value];
      assert read[..|read| - 1] == before;
      i := i + 1;
    }
    r := Ok(points);
  }

  /** A set that is not empty has a member. */
  lemma HasMember(keys: set<int>)
    ensures keys == {} || exists x :: x in keys
  {
    if forall x :: x !in keys {
      assert keys == {};
    }
  }

  /** A non-empty finite set of frames has a largest one. */
  lemma LargestExists(keys: set<int>)
    requires keys != {}
    ensures exists m :: m in keys && forall k :: k in keys ==> k <= m
    decreases |keys|
  {
    HasMember(keys);
    var x :| x in keys;
    if keys == {x} {
      assert forall k :: k in keys ==> k <= x;
    } else {
      var rest := keys - {x};
      LargestExists(rest);
      var m :| m in rest && forall k :: k in rest ==> k <= m;
      var top := if x <= m then m else x;
      forall k | k in keys ensures k <= top {
        if k != x {
          assert k in rest;
        }
      }
      assert top in keys;
    }
  }

  /** `sorted(data_points.keys())[-1]`: the largest marked frame. */
  function LastKey(points: map<int, string>): (m: int)
    requires points.Keys != {}
    ensures m in points && forall k :: k in points ==> k <= m
  {
    LargestExists(points.Keys);
    var m :| m in points && forall k :: k in points ==> k <= m;
    m
  }

  /** The four tests of one marked frame (read-data.py:35-45) on `(prev_state, state)`. */
  function Transition(name: string, prev: Presence, state: Presence): (Presence, Presence) {
    if name == PARTIAL_START then (Unknown, Unknown)
    else if name == PARTIAL_FINISH then (NoPerson, NoPerson)
    else if name == FULL_START then (prev, Person)
    else if name == FULL_FINISH then (prev, prev)
    else (prev, state)
  }

  /** `(prev_state, state)` once frames `0 .. n - 1` have been walked. */
  function StateAfter(points: map<int, string>, n: nat): (Presence, Presence) {
    if n == 0 then (NoPerson, NoPerson)
    else
      var (prev, state) := StateAfter(points, n - 1);
      if n - 1 in points then Transition(points[n - 1], prev, state) else (prev, state)
  }

  /**
    * The frame walk of `main` (read-data.py:34-46): `full_labels` gets one
    * state per frame `0 .. last - 1`, where `last` is the largest marked
    * frame, which is itself left out; no marker at all stops the script.
    */
  method FullLabels(points: map<int, string>) returns (r: Result<map<int, Presence>>)
    ensures points.Keys == {} <==> r.Err?
    ensures r.Ok? ==> forall idx :: idx in r.value <==> 0 <= idx < LastKey(points)
    ensures r.Ok? ==> forall idx :: idx in r.value ==> r.value[idx] == LabelAt(points, idx)
  {
    if points.Keys == {} {
      return Err(NoMarkers);
    }
    var last := LastKey(points);
    var prev, state := NoPerson, NoPerson;
    var fullLabels: map<int, Presence> := map[];
    var idx := 0;
    while idx < last
      invariant 0 <= idx && (idx <= last || idx == 0)
      invariant (prev, state) == StateAfter(points, idx)
      invariant forall k :: k in fullLabels <==> 0 <= k < idx
      invariant forall k :: k in fullLabels ==> fullLabels[k] == LabelAt(points, k)
    {
      if idx in points {
        var name := points[idx];
        if name == PARTIAL_START {
          prev, state := Unknown, Unknown;
        }
        if name == PARTIAL_FINISH {
          prev, state := NoPerson, NoPerson;
        }
        if name == FULL_START {
          state := Person;
        }
        if name == FULL_FINISH {
          state := prev;
        }
      }
      fullLabels := fullLabels[idx := state];
      idx := idx + 1;
    }
    r := Ok(fullLabels);
  }

  /**
    * `prev_state` read backwards: the last Partial marker before frame `n`
    * decides it (Unknown after a Start, No Person after a Finish), and with
    * none it is No Person.
    */
  function LastPartial(points: map<int, string>, n: nat): Presence {
    if n == 0 then NoPerson
    else if n - 1 in points && points[n - 1] == PARTIAL_START then Unknown
    else if n - 1 in points && points[n - 1] == PARTIAL_FINISH then NoPerson
    else LastPartial(points, n - 1)
  }

  /** The four labels the walk reacts to; every other label leaves both states alone. */
  predicate Known(name: string) {
    name == PARTIAL_START || name == PARTIAL_FINISH || name == FULL_START || name == FULL_FINISH
  }

  /**
    * `state` read backwards: the last known marker before frame `n` decides
    * it; a Full Finish gives back the `prev_state` of its own frame.
    */
  function LastMarkerState(points: map<int, string>, n: nat): Presence {
    if n == 0 then NoPerson
    else if n - 1 in points && Known(points[n - 1]) then
      if points[n - 1] == PARTIAL_START then Unknown
      else if points[n - 1] == PARTIAL_FINISH then NoPerson
      else if points[n - 1] == FULL_START then Person
      else LastPartial(points, n - 1)
    else LastMarkerState(points, n - 1)
  }

  /**
    * The walk agrees with reading the markers backwards: `prev_state` is set
    * by the last Partial marker alone, and `state` by the last known marker.
    */
  lemma {:induction false} WalkIsLastMarker(points: map<int, string>, n: nat)
    ensures StateAfter(points, n) == (LastPartial(points, n), LastMarkerState(points, n))
  {
    if n > 0 {
      WalkIsLastMarker(points, n - 1);
    }
  }

  /** Between Full markers the state is Person; otherwise it equals `prev_state`. */
  lemma {:induction false} StateIsPrevOrPerson(points: map<int, string>, n: nat)
    ensures StateAfter(points, n).1 == StateAfter(points, n).0 || StateAfter(points, n).1 == Person
  {
    if n > 0 {
      StateIsPrevOrPerson(points, n - 1);
    }
  }

  /** The label `full_labels` gives frame `idx`. */
  function LabelAt(points: map<int, string>, idx: nat): Presence {
    StateAfter(points, idx + 1).1
  }

  /** A frame with no marker keeps the state of the frame before it; frame 0 without one is No Person. */
  lemma Inherits(points: map<int, string>, idx: nat)
    requires idx !in points
    ensures LabelAt(points, idx) == if idx == 0 then NoPerson else LabelAt(points, idx - 1)
  {
    assert StateAfter(points, idx + 1) == StateAfter(points, idx);
    if idx > 0 {
      assert LabelAt(points, idx - 1) == StateAfter(points, idx).1;
    }
  }

  /** No known marker in frames `a + 1 .. b - 1`. */
  ghost predicate Quiet(points: map<int, string>, a: nat, b: nat) {
    forall j :: a < j < b && j in points ==> !Known(points[j])
  }

  /** Frames without a known marker change neither state. */
  lemma {:induction false} QuietKeeps(points: map<int, string>, a: nat, b: nat)
    requires a < b && Quiet(points, a, b)
    ensures StateAfter(points, b) == StateAfter(points, a + 1)
    decreases b - a
  {
    if b > a + 1 {
      QuietKeeps(points, a, b - 1);
    }
  }

  /**
    * A Full Start at frame `a` closed by a Full Finish at frame `b` with no
    * known marker between them makes `a .. b - 1` Person and gives frame `b`
    * back the state it had before the Full Start, when that state was not
    * Person already.
    */
  lemma FullFinishRestores(points: map<int, string>, a: nat, b: nat)
    requires a < b && a in points && b in points
    requires points[a] == FULL_START && points[b] == FULL_FINISH && Quiet(points, a, b)
    requires StateAfter(points, a).1 != Person
    ensures forall idx: nat :: a <= idx < b ==> LabelAt(points, idx) == Person
    ensures LabelAt(points, b) == StateAfter(points, a).1
  {
    StateIsPrevOrPerson(points, a);
    forall idx: nat | a < idx < b ensures LabelAt(points, idx) == Person {
      QuietKeeps(points, a, idx + 1);
    }
    QuietKeeps(points, a, b);
  }
}
