/**
  * scripts/parse_label_files.py: reads the files `print_events` writes,
  * paints each interval onto a frame-to-label map (an event overrides
  * anything, an uncertain interval only fills frames not yet labelled), and
  * expands the map into one label per frame.
  */
module ParseLabelFiles {
  import opened Text
  import opened Intervals

  const EVENT_LABEL: string := "Event"
  const UNCERTAIN_LABEL: string := "Uncertain"
  const EVENT_VAL: int := 1
  const NO_EVENT_VAL: int := 0
  const UNCERTAIN_VAL: int := -1

  /**
    * Why the script stops: a line that does not have the `(start, end) -
    * label` shape (a `ValueError` from unpacking or `int()`), a label it
    * does not know (it prints it and exits), or a dataset of negative size.
    */
  datatype Failure = Malformed | InvalidLabel(text: string) | NegativeShape

  datatype Result<+T> = Ok(value: T) | Err(error: Failure)

  /** One parsed line: the inclusive frame range and the label value it carries. */
  datatype Mark = Mark(start: int, end: int, value: int, isEvent: bool)

  /**
    * The range half of a line (scripts/parse_label_files.py:26-28): strip it,
    * drop the opening and closing parentheses, unpack the comma split and
    * read both numbers with `int()`.
    */
  function ParseRange(text: string): Option<(int, int)> {
    match SplitPair(RStripChar(LStripChar(Strip(text), '('), ')'), ',')
    case None => None
    case Some((startText, endText)) =>
      match (PyInt(Strip(startText)), PyInt(Strip(endText)))
      case (Some(s), Some(e)) => Some((s, e))
      case _ => None
  }

  /**
    * The label half (scripts/parse_label_files.py:30-39): anything starting
    * with "Event" is an event, exactly "Uncertain" is uncertain, and every
    * other label stops the script.
    */
  function Classify(name: string): (r: Result<int>)
    ensures r == Ok(EVENT_VAL) <==> EVENT_LABEL <= name
    ensures r == Ok(UNCERTAIN_VAL) <==> !(EVENT_LABEL <= name) && name == UNCERTAIN_LABEL
    ensures r.Err? <==> r == Err(InvalidLabel(name))
    ensures r.Err? <==> !(EVENT_LABEL <= name) && name != UNCERTAIN_LABEL
  {
    if EVENT_LABEL <= name then Ok(EVENT_VAL)
    else if name == UNCERTAIN_LABEL then Ok(UNCERTAIN_VAL)
    else Err(InvalidLabel(name))
  }

  /**
    * The line parse of `read_file` (scripts/parse_label_files.py:25-39): the
    * range is read before the label, so a line broken in both places is
    * malformed rather than mislabelled; only events carry the event flag.
    */
  function ParseLine(line: string): (r: Result<Mark>)
    ensures r.Ok? ==> r.value.isEvent == (r.value.value == EVENT_VAL)
    ensures r.Ok? ==> r.value.value == EVENT_VAL || r.value.value == UNCERTAIN_VAL
  {
    match SplitPair(Strip(line), '-')
    case None => Err(Malformed)
    case Some((rangeText, labelText)) =>
      match ParseRange(rangeText)
      case None => Err(Malformed)
      case Some((s, e)) => Labelled(s, e, Strip(labelText))
  }

  /** The mark of a read range and its label text; only events carry the event flag. */
  function Labelled(s: int, e: int, name: string): (r: Result<Mark>)
    ensures r.Ok? ==> r.value.start == s && r.value.end == e
    ensures r.Ok? ==> r.value.isEvent == (r.value.value == EVENT_VAL)
    ensures r.Ok? ==> r.value.value == EVENT_VAL || r.value.value == UNCERTAIN_VAL
  {
    match Classify(name)
    case Err(f) => Err(f)
    case Ok(v) => Ok(Mark(s, e, v, v == EVENT_VAL))
  }

  /** The digits of a non-negative number hold no space, dash, comma or parenthesis. */
  lemma DigitsAreInert(n: int)
    requires n >= 0
    ensures var t := IntToString(n);
      t != [] && '-' !in t && ',' !in t && ')' !in t && '(' !in t
      && !IsSpace(t[0]) && !IsSpace(t[|t| - 1])
  {
    IntToStringShape(n);
  }

  /** A number `print_events` wrote, with or without a space in front, reads back with `int()`. */
  lemma NumberReads(n: int)
    requires n >= 0
    ensures PyInt(Strip(IntToString(n))) == Some(n)
    ensures PyInt(Strip(" " + IntToString(n))) == Some(n)
  {
    var t := IntToString(n);
    DigitsAreInert(n);
    assert "" + t + "" == t;
    StripPadded("", t, "");
    assert " " + t + "" == " " + t;
    StripPadded(" ", t, "");
    PyIntOfIntToString("", n, "");
  }

  /**
    * The parse of a line from its three ingredients: the dash split, the
    * range and the label.
    */
  lemma ParseLineOf(line: string, rangeText: string, labelText: string, s: int, e: int, v: int)
    requires SplitPair(Strip(line), '-') == Some((rangeText, labelText))
    requires ParseRange(rangeText) == Some((s, e))
    requires Classify(Strip(labelText)) == Ok(v)
    ensures ParseLine(line) == Ok(Mark(s, e, v, v == EVENT_VAL))
  {
  }

  /** The parse of the range half from the two number texts it holds. */
  lemma ParseRangeOf(rangeText: string, inner: string, startText: string, endText: string, s: int, e: int)
    requires Strip(rangeText) == ['('] + (inner + [')'])
    requires inner == startText + [','] + endText && ',' !in startText && ',' !in endText
    requires ')' !in endText && (inner == [] || inner[0] != '(')
    requires PyInt(Strip(startText)) == Some(s) && PyInt(Strip(endText)) == Some(e)
    ensures ParseRange(rangeText) == Some((s, e))
  {
    LStripCharOne('(', inner + [')']);
    RStripCharOne(inner, ')');
    SplitPairOf(startText, ',', endText);
  }

  /** A range text `(S, E)` of two number texts, followed by a space, reads back as their values. */
  lemma RangeOf(S: string, E: string, s: int, e: int)
    requires S != [] && S[0] != '(' && ',' !in S && ',' !in E && ')' !in E
    requires E != [] && !IsSpace(E[|E| - 1])
    requires PyInt(Strip(S)) == Some(s) && PyInt(Strip(" " + E)) == Some(e)
    ensures ParseRange("(" + S + ", " + E + ")" + " ") == Some((s, e))
  {
    var inner := S + [','] + (" " + E);
    RangeShape(S, E);
    ParseRangeOf("(" + S + ", " + E + ")" + " ", inner, S, " " + E, s, e);
  }

  /** Stripped of its trailing space, the range text `(S, E)` is `S`, a comma and ` E` in parentheses. */
  lemma RangeShape(S: string, E: string)
    requires S != [] && S[0] != '(' && E != [] && !IsSpace(E[|E| - 1])
    ensures var inner := S + [','] + (" " + E);
      Strip("(" + S + ", " + E + ")" + " ") == ['('] + (inner + [')']) && inner[0] != '('
  {
    var R := "(" + S + ", " + E + ")";
    var inner := S + [','] + (" " + E);
    assert R == ['('] + (inner + [')']);
    assert "" + R + " " == R + " ";
    StripPadded("", R, " ");
  }

  /** The range text `(s, e)` followed by the space before the dash reads back as `s` and `e`. */
  lemma RangeReads(iv: Interval)
    requires iv.start >= 0 && iv.end >= 0
    ensures ParseRange(RangeText(iv) + " ") == Some((iv.start, iv.end))
  {
    DigitsAreInert(iv.start);
    DigitsAreInert(iv.end);
    NumberReads(iv.start);
    NumberReads(iv.end);
    RangeOf(IntToString(iv.start), IntToString(iv.end), iv.start, iv.end);
  }

  /** The label half of an event line strips to a label starting with "Event". */
  lemma EventLabelReads(i: int)
    requires i >= 0
    ensures Classify(Strip(" Event " + IntToString(i))) == Ok(EVENT_VAL)
  {
    var name := "Event " + IntToString(i);
    DigitsAreInert(i);
    assert " " + name + "" == " Event " + IntToString(i);
    StripPadded(" ", name, "");
    assert EVENT_LABEL <= name;
  }

  /** The label half of an uncertain line strips to exactly "Uncertain". */
  lemma UncertainLabelReads()
    ensures Classify(Strip(" Uncertain")) == Ok(UNCERTAIN_VAL)
  {
    assert " " + "Uncertain" + "" == " Uncertain";
    StripPadded(" ", "Uncertain", "");
    assert !(EVENT_LABEL <= UNCERTAIN_LABEL);
  }

  /** A line `R -` + `rest` + newline strips and unpacks into `R` plus a space, and `rest`. */
  lemma HalvesOf(R: string, rest: string)
    requires R != [] && !IsSpace(R[0]) && '-' !in R
    requires '-' !in rest && rest != [] && !IsSpace(rest[|rest| - 1])
    ensures SplitPair(Strip(R + " -" + rest + "\n"), '-') == Some((R + " ", rest))
  {
    var body := R + " -" + rest;
    assert "" + body + "\n" == R + " -" + rest + "\n";
    StripPadded("", body, "\n");
    assert body == (R + " ") + ['-'] + rest;
    SplitPairOf(R + " ", '-', rest);
  }

  /** The range text of non-negative frames holds no dash and starts with a parenthesis. */
  lemma RangeTextIsInert(iv: Interval)
    requires iv.start >= 0 && iv.end >= 0
    ensures RangeText(iv) != [] && RangeText(iv)[0] == '(' && '-' !in RangeText(iv)
  {
    DigitsAreInert(iv.start);
    DigitsAreInert(iv.end);
  }

  function EventMark(iv: Interval): Mark {
    Mark(iv.start, iv.end, EVENT_VAL, true)
  }

  function UncertainMark(iv: Interval): Mark {
    Mark(iv.start, iv.end, UNCERTAIN_VAL, false)
  }

  /**
    * An event line written by `print_events` reads back as the same range,
    * labelled as an event, whenever its frames are non-negative.
    */
  lemma ParseEventLine(iv: Interval, i: int)
    requires iv.start >= 0 && iv.end >= 0 && i >= 0
    ensures ParseLine(EventLine(iv, i)) == Ok(EventMark(iv))
  {
    var rest := " Event " + IntToString(i);
    DigitsAreInert(i);
    RangeTextIsInert(iv);
    assert EventLine(iv, i) == RangeText(iv) + " -" + rest + "\n";
    HalvesOf(RangeText(iv), rest);
    RangeReads(iv);
    EventLabelReads(i);
    ParseLineOf(EventLine(iv, i), RangeText(iv) + " ", rest, iv.start, iv.end, EVENT_VAL);
  }

  /** An uncertain line reads back as the same range, labelled uncertain. */
  lemma ParseUncertainLine(iv: Interval)
    requires iv.start >= 0 && iv.end >= 0
    ensures ParseLine(UncertainLine(iv)) == Ok(UncertainMark(iv))
  {
    var rest := " Uncertain";
    RangeTextIsInert(iv);
    assert UncertainLine(iv) == RangeText(iv) + " -" + rest + "\n";
    HalvesOf(RangeText(iv), rest);
    RangeReads(iv);
    UncertainLabelReads();
    ParseLineOf(UncertainLine(iv), RangeText(iv) + " ", rest, iv.start, iv.end, UNCERTAIN_VAL);
  }

  /**
    * The round trip fails for an interval with a negative frame, which the
    * ledger accepts: the minus sign splits the line a second time.
    */
  lemma NegativeFrameIsMalformed(iv: Interval, i: int)
    requires iv.start < 0 || iv.end < 0
    ensures ParseLine(UncertainLine(iv)) == Err(Malformed)
    ensures ParseLine(EventLine(iv, i)) == Err(Malformed)
  {
    UncertainNegativeIsMalformed(iv);
    EventNegativeIsMalformed(iv, i);
  }

  /** An uncertain line with a negative frame does not parse. */
  lemma UncertainNegativeIsMalformed(iv: Interval)
    requires iv.start < 0 || iv.end < 0
    ensures ParseLine(UncertainLine(iv)) == Err(Malformed)
  {
    var S, E := IntToString(iv.start), IntToString(iv.end);
    IntToStringShape(iv.start);
    IntToStringShape(iv.end);
    assert UncertainLine(iv) == "(" + S + ", " + E + ")" + " -" + " Uncertain" + "\n";
    TwoDashesOf(S, E, " Uncertain");
  }

  /** An event line with a negative frame does not parse, whatever its index. */
  lemma EventNegativeIsMalformed(iv: Interval, i: int)
    requires iv.start < 0 || iv.end < 0
    ensures ParseLine(EventLine(iv, i)) == Err(Malformed)
  {
    var S, E := IntToString(iv.start), IntToString(iv.end);
    IntToStringShape(iv.start);
    IntToStringShape(iv.end);
    IntToStringShape(i);
    var n := IntToString(i);
    var rest := " Event " + n;
    assert rest[|rest| - 1] == n[|n| - 1];
    assert EventLine(iv, i) == "(" + S + ", " + E + ")" + " -" + rest + "\n";
    TwoDashesOf(S, E, rest);
  }

  /** A range text holding a minus sign puts a second dash on the line, whatever label follows. */
  lemma TwoDashesOf(S: string, E: string, rest: string)
    requires S != [] && E != [] && (S[0] == '-' || E[0] == '-')
    requires rest != [] && !IsSpace(rest[|rest| - 1])
    ensures ParseLine("(" + S + ", " + E + ")" + " -" + rest + "\n") == Err(Malformed)
  {
    var R := "(" + S + ", " + E + ")";
    var body := R + " -" + rest;
    assert "" + body + "\n" == R + " -" + rest + "\n";
    StripPadded("", body, "\n");
    DashInRange(S, E);
    SecondDash(R, rest, if S[0] == '-' then 1 else |S| + 3);
  }

  /** Where the minus sign of a negative frame sits in the range text. */
  lemma DashInRange(S: string, E: string)
    requires S != [] && E != [] && (S[0] == '-' || E[0] == '-')
    ensures ("(" + S + ", " + E + ")")[if S[0] == '-' then 1 else |S| + 3] == '-'
  {
    var R := "(" + S + ", " + E + ")";
    if S[0] == '-' {
      assert R[1] == S[0];
    } else {
      assert R[|S| + 3] == E[0];
    }
  }

  /** A dash inside the range text and the dash before the label: the unpacking fails. */
  lemma SecondDash(R: string, rest: string, i: int)
    requires 0 <= i < |R| && R[i] == '-'
    requires Strip(R + " -" + rest + "\n") == R + " -" + rest
    ensures ParseLine(R + " -" + rest + "\n") == Err(Malformed)
  {
    var body := R + " -" + rest;
    assert body[i] == '-' && body[|R| + 1] == '-';
    SplitPairTwoSeps(body, '-', i, |R| + 1);
  }

  /** The frames of `range(lo, hi + 1)`. */
  function FrameRange(lo: int, hi: int): (r: set<int>)
    ensures forall f :: f in r <==> lo <= f <= hi
    decreases hi - lo
  {
    if hi < lo then {} else FrameRange(lo, hi - 1) + {hi}
  }

  /**
    * Painting one line (scripts/parse_label_files.py:41-43): an event labels
    * every frame of `[start, end]`; an uncertain line labels only the frames
    * of the range that have no label yet; frames outside the range keep what
    * they had, so a range with `end < start` changes nothing.
    */
  function Paint(m: map<int, int>, mark: Mark): (r: map<int, int>)
    ensures forall f :: mark.start <= f <= mark.end ==> f in r
    ensures forall f :: mark.isEvent && mark.start <= f <= mark.end ==> r[f] == mark.value
    ensures forall f :: !mark.isEvent && mark.start <= f <= mark.end && f !in m ==> r[f] == mark.value
    ensures forall f :: f in m && !(mark.isEvent && mark.start <= f <= mark.end) ==> f in r && r[f] == m[f]
    ensures forall f :: !(mark.start <= f <= mark.end) ==> (f in r <==> f in m)
    ensures mark.end < mark.start ==> r == m
  {
    map f | f in m.Keys + FrameRange(mark.start, mark.end) ::
      if mark.start <= f <= mark.end && (f !in m || mark.isEvent) then mark.value else m[f]
  }

  /** The parse of every line of a file, in order. */
  function Parsed(lines: seq<string>): (r: seq<Result<Mark>>)
    ensures |r| == |lines|
  {
    seq(|lines|, i requires 0 <= i < |lines| => ParseLine(lines[i]))
  }

  /**
    * Painting the parsed lines in order onto the map built so far; the first
    * line that does not parse stops everything.
    */
  function Rasterize(m: map<int, int>, parsed: seq<Result<Mark>>): Result<map<int, int>>
    decreases |parsed|
  {
    if parsed == [] then Ok(m)
    else if parsed[0].Err? then Err(parsed[0].error)
    else Rasterize(Paint(m, parsed[0].value), parsed[1..])
  }

  /** `read_file` over the lines of one file, from the map built so far. */
  function ReadLines(m: map<int, int>, lines: seq<string>): Result<map<int, int>> {
    Rasterize(m, Parsed(lines))
  }

  /** The loop over `range(start, end + 1)` (scripts/parse_label_files.py:41-43). */
  method PaintRange(m0: map<int, int>, mark: Mark) returns (m: map<int, int>)
    ensures m == Paint(m0, mark)
  {
    m := m0;
    var frame := mark.start;
    assert mark.(end := frame - 1).end < mark.start;
    while frame < mark.end + 1
      invariant mark.start <= frame && (frame <= mark.end + 1 || frame == mark.start)
      invariant m == Paint(m0, mark.(end := frame - 1))
    {
      PaintOneMore(m0, mark, frame);
      ghost var painted := mark.(end := frame);
      if frame !in m || mark.isEvent {
        m := m[frame := mark.value];
      }
      frame := frame + 1;
      assert painted == mark.(end := frame - 1);
    }
  }

  /** Widening a painted range by its next frame paints that one frame as the loop does. */
  lemma PaintOneMore(m0: map<int, int>, mark: Mark, frame: int)
    requires mark.start <= frame
    ensures var p := Paint(m0, mark.(end := frame - 1));
      Paint(m0, mark.(end := frame)) == if frame !in p || mark.isEvent then p[frame := mark.value] else p
  {
    var p, q := Paint(m0, mark.(end := frame - 1)), Paint(m0, mark.(end := frame));
    var r := if frame !in p || mark.isEvent then p[frame := mark.value] else p;
    assert forall f :: f in q <==> f in r;
    assert forall f :: f in q ==> q[f] == r[f];
  }

  /**
    * `read_file` (scripts/parse_label_files.py:19-43): the lines in order,
    * each parsed and painted onto the map; the first bad line stops it.
    */
  method ReadFile(lines: seq<string>, frameToEvent: map<int, int>) returns (r: Result<map<int, int>>)
    ensures r == ReadLines(frameToEvent, lines)
  {
    ghost var parsed := Parsed(lines);
    var m := frameToEvent;
    var i := 0;
    while i < |lines|
      invariant 0 <= i <= |lines|
      invariant Rasterize(frameToEvent, parsed) == Rasterize(m, parsed[i..])
    {
      var line := ParseLine(lines[i]);
      assert parsed[i..][0] == line && parsed[i..][1..] == parsed[i + 1..];
      if line.Err? {
        return Err(line.error);
      }
      m := PaintRange(m, line.value);
      i := i + 1;
    }
    r := Ok(m);
  }

  /** Painting two runs of parsed lines one after the other. */
  lemma {:induction false} RasterizeAppend(m: map<int, int>, a: seq<Result<Mark>>, b: seq<Result<Mark>>)
    requires Rasterize(m, a).Ok?
    ensures Rasterize(m, a + b) == Rasterize(Rasterize(m, a).value, b)
    decreases |a|
  {
    if a != [] {
      assert (a + b)[0] == a[0] && (a + b)[1..] == a[1..] + b;
      RasterizeAppend(Paint(m, a[0].value), a[1..], b);
    } else {
      assert a + b == b;
    }
  }

  ghost predicate Covers(ivs: seq<Interval>, f: int) {
    exists i :: 0 <= i < |ivs| && ivs[i].start <= f <= ivs[i].end
  }

  predicate NonNegative(ivs: seq<Interval>) {
    forall i :: 0 <= i < |ivs| ==> ivs[i].start >= 0 && ivs[i].end >= 0
  }

  /** A frame is covered by a list exactly when the head or the tail covers it. */
  lemma CoversSplit(ivs: seq<Interval>, f: int)
    requires ivs != []
    ensures Covers(ivs, f) <==> (ivs[0].start <= f <= ivs[0].end || Covers(ivs[1..], f))
  {
    if Covers(ivs, f) {
      var i :| 0 <= i < |ivs| && ivs[i].start <= f <= ivs[i].end;
      if i > 0 {
        assert ivs[1..][i - 1] == ivs[i];
      }
    }
    if Covers(ivs[1..], f) {
      var i :| 0 <= i < |ivs[1..]| && ivs[1..][i].start <= f <= ivs[1..][i].end;
      assert ivs[i + 1] == ivs[1..][i];
    }
  }

  /** Event marks label 1 every frame some event covers, and keep every other frame. */
  lemma {:induction false} RasterizeEvents(m: map<int, int>, evs: seq<Interval>, marks: seq<Result<Mark>>)
    requires |marks| == |evs|
    requires forall i :: 0 <= i < |evs| ==> marks[i] == Ok(EventMark(evs[i]))
    ensures Rasterize(m, marks).Ok?
    ensures forall f :: f in Rasterize(m, marks).value <==> f in m || Covers(evs, f)
    ensures forall f :: f in Rasterize(m, marks).value ==>
      Rasterize(m, marks).value[f] == if Covers(evs, f) then EVENT_VAL else m[f]
    decreases |evs|
  {
    if evs != [] {
      var m1 := Paint(m, EventMark(evs[0]));
      assert marks[0] == Ok(EventMark(evs[0]));
      RasterizeEvents(m1, evs[1..], marks[1..]);
      forall f {
        CoversSplit(evs, f);
      }
    }
  }

  /** Uncertain marks label -1 exactly the covered frames still unlabelled. */
  lemma {:induction false} RasterizeUncertain(m: map<int, int>, uns: seq<Interval>, marks: seq<Result<Mark>>)
    requires |marks| == |uns|
    requires forall i :: 0 <= i < |uns| ==> marks[i] == Ok(UncertainMark(uns[i]))
    ensures Rasterize(m, marks).Ok?
    ensures forall f :: f in Rasterize(m, marks).value <==> f in m || Covers(uns, f)
    ensures forall f :: f in Rasterize(m, marks).value ==>
      Rasterize(m, marks).value[f] == if f in m then m[f] else UNCERTAIN_VAL
    decreases |uns|
  {
    if uns != [] {
      var m1 := Paint(m, UncertainMark(uns[0]));
      assert marks[0] == Ok(UncertainMark(uns[0]));
      RasterizeUncertain(m1, uns[1..], marks[1..]);
      forall f {
        CoversSplit(uns, f);
      }
    }
  }

  /**
    * The labeler's export read back by the script: for intervals with
    * non-negative frames, laid out as `print_events` writes them (events
    * with their indices, then uncertain intervals), reading the file into an
    * empty map succeeds and labels a frame 1 when an event interval covers
    * it, -1 when only an uncertain interval covers it, and leaves every
    * other frame out.
    */
  lemma ExportReadsBack(evs: seq<Interval>, uns: seq<Interval>, events: seq<string>, uncertain: seq<string>)
    requires NonNegative(evs) && NonNegative(uns)
    requires |events| == |evs| && forall i :: 0 <= i < |evs| ==> events[i] == EventLine(evs[i], i)
    requires |uncertain| == |uns| && forall j :: 0 <= j < |uns| ==> uncertain[j] == UncertainLine(uns[j])
    ensures ReadLines(map[], events + uncertain).Ok?
    ensures forall f :: f in ReadLines(map[], events + uncertain).value <==> Covers(evs, f) || Covers(uns, f)
    ensures forall f :: f in ReadLines(map[], events + uncertain).value ==>
      ReadLines(map[], events + uncertain).value[f] == if Covers(evs, f) then EVENT_VAL else UNCERTAIN_VAL
  {
    EventsParsed(evs, events);
    UncertainParsed(uns, uncertain);
    ParsedAppend(events, uncertain);
    ExportRasterizes(evs, uns, Parsed(events), Parsed(uncertain));
  }

  /** Parsing is line by line: the parse of two texts one after the other is their parses one after the other. */
  lemma ParsedAppend(a: seq<string>, b: seq<string>)
    ensures Parsed(a + b) == Parsed(a) + Parsed(b)
  {
    var whole, left, right := Parsed(a + b), Parsed(a), Parsed(b);
    forall k | 0 <= k < |whole| ensures whole[k] == (left + right)[k] {
      if k < |a| {
        assert (a + b)[k] == a[k];
      } else {
        assert (a + b)[k] == b[k - |a|];
      }
    }
  }

  lemma ExportRasterizes(evs: seq<Interval>, uns: seq<Interval>, a: seq<Result<Mark>>, b: seq<Result<Mark>>)
    requires |a| == |evs| && forall i :: 0 <= i < |evs| ==> a[i] == Ok(EventMark(evs[i]))
    requires |b| == |uns| && forall j :: 0 <= j < |uns| ==> b[j] == Ok(UncertainMark(uns[j]))
    ensures Rasterize(map[], a + b).Ok?
    ensures forall f :: f in Rasterize(map[], a + b).value <==> Covers(evs, f) || Covers(uns, f)
    ensures forall f :: f in Rasterize(map[], a + b).value ==>
      Rasterize(map[], a + b).value[f] == if Covers(evs, f) then EVENT_VAL else UNCERTAIN_VAL
  {
    RasterizeEvents(map[], evs, a);
    RasterizeUncertain(Rasterize(map[], a).value, uns, b);
    RasterizeAppend(map[], a, b);
  }

  /** The event lines of an export, each with its index, parse as event marks. */
  lemma EventsParsed(evs: seq<Interval>, lines: seq<string>)
    requires NonNegative(evs) && |evs| == |lines|
    requires forall i :: 0 <= i < |evs| ==> lines[i] == EventLine(evs[i], i)
    ensures forall i :: 0 <= i < |evs| ==> Parsed(lines)[i] == Ok(EventMark(evs[i]))
  {
    forall i | 0 <= i < |evs| ensures Parsed(lines)[i] == Ok(EventMark(evs[i])) {
      ParseEventLine(evs[i], i);
    }
  }

  /** The uncertain lines of an export parse as uncertain marks. */
  lemma UncertainParsed(uns: seq<Interval>, lines: seq<string>)
    requires NonNegative(uns) && |uns| == |lines|
    requires forall j :: 0 <= j < |uns| ==> lines[j] == UncertainLine(uns[j])
    ensures forall j :: 0 <= j < |uns| ==> Parsed(lines)[j] == Ok(UncertainMark(uns[j]))
  {
    forall j | 0 <= j < |uns| ensures Parsed(lines)[j] == Ok(UncertainMark(uns[j])) {
      ParseUncertainLine(uns[j]);
    }
  }

  /**
    * The dense vector of `main` (scripts/parse_label_files.py:68-72): one
    * entry per frame `0 .. numFrames - 1`, the map's label or 0 when the frame
    * has none. A negative frame count cannot be a dataset shape.
    */
  method Densify(frameToEvent: map<int, int>, numFrames: int) returns (r: Result<seq<int>>)
    ensures numFrames < 0 <==> r.Err?
    ensures r.Ok? ==> |r.value| == numFrames
    ensures r.Ok? ==> forall f :: 0 <= f < numFrames ==>
      r.value[f] == if f in frameToEvent then frameToEvent[f] else NO_EVENT_VAL
  {
    if numFrames < 0 {
      return Err(NegativeShape);
    }
    var labels := new int[numFrames];
    var frame := 0;
    while frame < numFrames
      invariant 0 <= frame <= numFrames
      invariant forall f :: 0 <= f < frame ==>
        labels[f] == if f in frameToEvent then frameToEvent[f] else NO_EVENT_VAL
    {
      labels[frame] := if frame in frameToEvent then frameToEvent[frame] else NO_EVENT_VAL;
      frame := frame + 1;
    }
    r := Ok(labels[..]);
  }
}
