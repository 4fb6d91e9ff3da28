/**
  * The marker files read by scripts/fix.py and read-data.py: one marker per
  * line, written `Label:frame`, where the label names one of four events of
  * a person entering or leaving the picture.
  */
module Markers {
  import opened Text

  const PARTIAL_START: string := "Partial Start"
  const PARTIAL_FINISH: string := "Partial Finish"
  const FULL_START: string := "Full Start"
  const FULL_FINISH: string := "Full Finish"

  /** One marker: its label and the frame it is filed under. */
  datatype Marker = Marker(name: string, frame: int)

  /**
    * One line of a marker file (scripts/fix.py:14-18, read-data.py:24-25):
    * `rstrip`, split on `:`, the label is the first piece and the frame is
    * `int()` of the second. A line without a colon (an `IndexError`) or with
    * a second piece that is not a number (a `ValueError`) gives nothing.
    */
  function ParseMarker(line: string): Option<Marker> {
    match FirstTwo(RStrip(line), ':')
    case None => None
    case Some((name, number)) =>
      match PyInt(number)
      case None => None
      case Some(n) => Some(Marker(name, n))
  }

  /** The parse agrees with indexing the pieces of `split(":")`; pieces past the second are ignored. */
  lemma ParseMarkerIsIndexing(line: string)
    ensures var parts := Split(RStrip(line), ':');
      ParseMarker(line) ==
        if |parts| < 2 || PyInt(parts[1]).None? then None
        else Some(Marker(parts[0], PyInt(parts[1]).value))
  {
    FirstTwoIsIndexing(RStrip(line), ':');
  }

  /** A marker written as `name:frame` on its own line reads back, for any label without a colon. */
  lemma MarkerReads(name: string, n: int)
    requires ':' !in name
    ensures ParseMarker(name + ":" + IntToString(n) + "\n") == Some(Marker(name, n))
  {
    DecimalIsPlain(n);
    PyIntOfDecimal(n);
    NumberTextReads(name, IntToString(n), n);
  }

  /** A line `name:t` reads back as `name` and the value of `t`, when `t` ends the line cleanly. */
  lemma NumberTextReads(name: string, t: string, n: int)
    requires ':' !in name && ':' !in t && t != [] && !IsSpace(t[|t| - 1])
    requires PyInt(t) == Some(n)
    ensures ParseMarker(name + ":" + t + "\n") == Some(Marker(name, n))
  {
    var u := name + [':'] + t;
    assert name + ":" + t + "\n" == u + "\n";
    RStripPadded(u, "\n");
    FirstTwoOf(name, ':', t);
  }

  /** The parse of every line of a file, in order. */
  function ParsedMarkers(lines: seq<string>): (r: seq<Option<Marker>>)
    ensures |r| == |lines|
  {
    seq(|lines|, i requires 0 <= i < |lines| => ParseMarker(lines[i]))
  }

  /** The markers after those already read into `acc`; nothing at the first line that did not parse. */
  function Collect(acc: seq<Marker>, parsed: seq<Option<Marker>>): Option<seq<Marker>>
    decreases |parsed|
  {
    if parsed == [] then Some(acc)
    else if parsed[0].None? then None
    else Collect(acc + [parsed[0].value], parsed[1..])
  }

  /** The markers of a whole file, in line order; nothing when a line does not parse. */
  function ParseAll(lines: seq<string>): Option<seq<Marker>> {
    Collect([], ParsedMarkers(lines))
  }

  /** Reading succeeds exactly when every line parses. */
  lemma {:induction false} CollectSucceeds(acc: seq<Marker>, parsed: seq<Option<Marker>>)
    ensures Collect(acc, parsed).Some? <==> forall i :: 0 <= i < |parsed| ==> parsed[i].Some?
    decreases |parsed|
  {
    if parsed != [] {
      var rest := parsed[1..];
      assert forall i :: 0 <= i < |rest| ==> rest[i] == parsed[i + 1];
      if parsed[0].Some? {
        CollectSucceeds(acc + [parsed[0].value], rest);
      }
    }
  }

  /**
    * A successful read yields the markers read so far followed by one marker
    * per line, in line order.
    */
  lemma {:induction false} CollectMarkers(acc: seq<Marker>, parsed: seq<Option<Marker>>)
    requires Collect(acc, parsed).Some?
    ensures var ms := Collect(acc, parsed).value;
      |ms| == |acc| + |parsed| && ms[..|acc|] == acc
      && forall i :: 0 <= i < |parsed| ==> Some(ms[|acc| + i]) == parsed[i]
    decreases |parsed|
  {
    if parsed != [] {
      var acc', rest := acc + [parsed[0].value], parsed[1..];
      CollectMarkers(acc', rest);
      var ms := Collect(acc', rest).value;
      assert ms[..|acc|] == ms[..|acc'|][..|acc|];
      assert ms[|acc|] == ms[..|acc'|][|acc|];
      forall i | 1 <= i < |parsed| ensures Some(ms[|acc| + i]) == parsed[i] {
        assert rest[i - 1] == parsed[i];
        assert ms[|acc'| + (i - 1)] == ms[|acc| + i];
      }
    }
  }

  /** A marker file reads exactly when every line parses. */
  lemma ParseAllSucceeds(lines: seq<string>)
    ensures ParseAll(lines).Some? <==> forall i :: 0 <= i < |lines| ==> ParseMarker(lines[i]).Some?
  {
    var parsed := ParsedMarkers(lines);
    CollectSucceeds([], parsed);
    if ParseAll(lines).Some? {
      forall i | 0 <= i < |lines| ensures ParseMarker(lines[i]).Some? {
        assert parsed[i].Some?;
      }
    } else {
      var i :| 0 <= i < |parsed| && parsed[i].None?;
      assert ParseMarker(lines[i]).None?;
    }
  }

  /** A marker file that reads yields one marker per line, in line order. */
  lemma ParseAllLines(lines: seq<string>)
    requires ParseAll(lines).Some?
    ensures |ParseAll(lines).value| == |lines|
    ensures forall i :: 0 <= i < |lines| ==> Some(ParseAll(lines).value[i]) == ParseMarker(lines[i])
  {
    var parsed := ParsedMarkers(lines);
    CollectMarkers([], parsed);
    var ms := ParseAll(lines).value;
    forall i | 0 <= i < |lines| ensures Some(ms[i]) == ParseMarker(lines[i]) {
      assert Some(ms[0 + i]) == parsed[i];
    }
  }

  /** `data_points` after recording the markers in order: each marker's frame gets its label. */
  function Record(points: map<int, string>, ms: seq<Marker>): map<int, string>
    decreases |ms|
  {
    if ms == [] then points
    else Record(points, ms[..|ms| - 1])[ms[|ms| - 1].frame := ms[|ms| - 1].name]
  }

  /** The frames that have a marker among `ms`. */
  ghost predicate Marked(ms: seq<Marker>, f: int) {
    exists i :: 0 <= i < |ms| && ms[i].frame == f
  }

  /** Marker `i` is the last one naming frame `f`. */
  ghost predicate LastNaming(ms: seq<Marker>, i: int, f: int) {
    0 <= i < |ms| && ms[i].frame == f && forall j :: i < j < |ms| ==> ms[j].frame != f
  }

  /**
    * Later lines win (scripts/fix.py:17, read-data.py:25): a frame is
    * recorded when it was before or some marker names it, and it then holds
    * the label of the LAST marker naming it, or its old label when none does.
    */
  lemma {:induction false} RecordLastWins(points: map<int, string>, ms: seq<Marker>, f: int)
    ensures f in Record(points, ms) <==> f in points || Marked(ms, f)
    ensures forall i :: LastNaming(ms, i, f) ==> Record(points, ms)[f] == ms[i].name
    ensures !Marked(ms, f) && f in points ==> Record(points, ms)[f] == points[f]
    decreases |ms|
  {
    if ms != [] {
      var init := ms[..|ms| - 1];
      RecordLastWins(points, init, f);
      if Marked(ms, f) && ms[|ms| - 1].frame != f {
        var i :| 0 <= i < |ms| && ms[i].frame == f;
        assert init[i] == ms[i];
      }
      if Marked(init, f) {
        var i :| 0 <= i < |init| && init[i].frame == f;
        assert ms[i] == init[i];
      }
      forall i | 0 <= i < |ms| - 1 && LastNaming(ms, i, f)
        ensures Record(points, ms)[f] == ms[i].name
      {
        assert init[i] == ms[i];
        forall j | i < j < |init| ensures init[j].frame != f {
          assert init[j] == ms[j];
        }
      }
    }
  }
}
