/**
  * scripts/labels_to_txt.py: writes the frame number of every positive
  * label (a label equal to 1), one per line, in frame order.
  */
module LabelsToTxt {
  import opened Text

  /** `np.where(labels == 1)[0]`: the frames whose label is 1, in increasing order. */
  function Positives(labels: seq<int>): seq<int>
    decreases |labels|
  {
    if labels == [] then []
    else
      var last := |labels| - 1;
      Positives(labels[..last]) + (if labels[last] == 1 then [last] else [])
  }

  /** The file text for the frames `frames`: each written as `"{}\n"`. */
  function Render(frames: seq<int>): string
    decreases |frames|
  {
    if frames == [] then ""
    else Render(frames[..|frames| - 1]) + IntToString(frames[|frames| - 1]) + "\n"
  }

  /** The frames listed are exactly the positive ones, each in range. */
  lemma {:induction false} PositivesExact(labels: seq<int>)
    ensures forall f :: f in Positives(labels) <==> 0 <= f < |labels| && labels[f] == 1
    decreases |labels|
  {
    if labels != [] {
      var init := labels[..|labels| - 1];
      PositivesExact(init);
      forall f | 0 <= f < |init| ensures init[f] == labels[f] {
      }
    }
  }

  /** The frames are listed in strictly increasing order, so none twice. */
  lemma {:induction false} PositivesAscending(labels: seq<int>)
    ensures forall i, j :: 0 <= i < j < |Positives(labels)| ==> Positives(labels)[i] < Positives(labels)[j]
    decreases |labels|
  {
    if labels != [] {
      var init := labels[..|labels| - 1];
      PositivesAscending(init);
      PositivesExact(init);
      var p := Positives(init);
      assert forall i :: 0 <= i < |p| ==> p[i] in p;
    }
  }

  /**
    * The loop of labels_to_txt.py:25-27: the labels are scanned in frame
    * order and every positive frame's line is appended to the text.
    */
  method ToText(labels: array<int>) returns (text: string)
    ensures text == Render(Positives(labels[..]))
  {
    text := "";
    for frame := 0 to labels.Length
      invariant text == Render(Positives(labels[..frame]))
    {
      ghost var listed := Positives(labels[..frame]);
      assert labels[..frame + 1][..frame] == labels[..frame];
      if labels[frame] == 1 {
        assert Positives(labels[..frame + 1]) == listed + [frame];
        assert (listed + [frame])[..|listed|] == listed;
        text := text + IntToString(frame) + "\n";
      } else {
        assert Positives(labels[..frame + 1]) == listed;
      }
    }
    assert labels[..labels.Length] == labels[..];
  }

  /** One line per listed frame. */
  function Lines(frames: seq<int>): (lines: seq<string>)
    ensures |lines| == |frames|
  {
    seq(|frames|, k requires 0 <= k < |frames| => IntToString(frames[k]))
  }

  /** A written frame number holds no newline. */
  lemma NoNewline(n: int)
    ensures '\n' !in IntToString(n)
  {
    DecimalIsPlain(n);
    var line := IntToString(n);
    assert forall i :: 0 <= i < |line| ==> line[i] != '\n';
  }

  /** Followed by an unfinished last line `t`, the text splits into one line per frame and then `t`. */
  lemma {:induction false} RenderSplits(frames: seq<int>, t: string)
    requires '\n' !in t
    ensures Split(Render(frames) + t, '\n') == Lines(frames) + [t]
    decreases |frames|
  {
    if frames == [] {
      assert Render(frames) + t == t;
      SplitNoSep(t, '\n');
    } else {
      var init, last := frames[..|frames| - 1], frames[|frames| - 1];
      var line := IntToString(last);
      NoNewline(last);
      RenderSplits(init, line);
      assert Render(frames) + t == (Render(init) + line) + ['\n'] + t;
      SplitBeforeLast(Render(init) + line, '\n', t);
      assert Lines(frames) == Lines(init) + [line];
    }
  }

  /**
    * The text reads back: split on newlines it gives one line per positive
    * frame, each line parsing with `int()` to that frame, and then the empty
    * piece after the final newline.
    */
  lemma TextReadsBack(labels: seq<int>)
    ensures var frames := Positives(labels);
      var lines := Split(Render(frames), '\n');
      |lines| == |frames| + 1 && lines[|frames|] == ""
      && forall k :: 0 <= k < |frames| ==> PyInt(lines[k]) == Some(frames[k])
  {
    var frames := Positives(labels);
    RenderSplits(frames, "");
    assert Render(frames) + "" == Render(frames);
    forall k | 0 <= k < |frames| ensures PyInt(Lines(frames)[k]) == Some(frames[k]) {
      PyIntOfDecimal(frames[k]);
    }
  }
}
