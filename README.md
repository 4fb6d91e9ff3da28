# Video labeler and label scripts, modelled in Dafny

This project models the labelling tool of the repository and the scripts that
post-process its output.

`labeler.cpp` plays a video and lets a person tag frame ranges as *events* or
*uncertain*. Its parts are:

- a ledger of closed `(start, end)` intervals per kind;
- an open slot per kind, where `-1` means closed;
- a map of notes filed under frames;
- a target frame that the playback loop approaches, frame by frame or by skipping;
- the export `print_events`, which writes the intervals as lines `(s, e) - Event i` and `(s, e) - Uncertain`.

The Python scripts work on those lines and on marker files (`Label:frame`):

- `scripts/parse_label_files.py` reads the export back into a frame-to-label map and a dense label vector.
- `scripts/fix.py` checks that the markers of a file nest properly.
- `read-data.py` walks marker files frame by frame, through the presence states No Person, Unknown and Person.
- `scripts/split_labels.py`, `scripts/sample_labels.py` and `scripts/labels_to_txt.py` split a label vector, sample it, and list its positive frames.

Layout, one module per file:

| file | module | what it holds |
|---|---|---|
| `text.dfy` | `Text` | the string operations the sources use: Python's `strip`, `split`, `join` and `int()`, and C++'s decimal output |
| `seek.dfy` | `Seek` | one pass of the playback loop as a step function, with its properties |
| `intervals.dfy` | `Intervals` | interval values, warnings, notes, export lines, and the goto scan |
| `labeler.dfy` | `Labeler` | the class `Session`: the tool's global and loop state, with the callbacks, key handler and tick as methods |
| `parse_labels.dfy` | `ParseLabelFiles` | line parser, rasterisation, dense vector, and the round trip from the export |
| `markers.dfy` | `Markers` | the `Label:frame` line format shared by `fix.py` and `read-data.py` |
| `fix_markers.dfy` | `FixMarkers` | stable sort by frame and the stack check |
| `read_data.dfy` | `ReadData` | marker map, largest frame, and the presence walk |
| `split_labels.dfy` | `SplitLabels` | output file names and the train/test split |
| `sample_labels.dfy` | `SampleLabels` | every-`n` selection and copy |
| `labels_to_txt.dfy` | `LabelsToTxt` | positive frames and their text file |

Modelling choices:

- Numbers are unbounded integers.
- The skip accumulator `frames_to_skip` is a `double` in the source. It only ever changes by `frameskip / 30.0`, so it is kept exactly as a count of thirtieths.
- The conversion `frame_id += frames_to_skip` truncates toward zero, which `Seek.TruncParts` models.
- The video source is an input: `readOk` says whether a read produced a frame. `Seek.Access` records what the loop asked of the source.
- Warnings the tool shows in its overlay are returned as values.
- A script's `sys.exit` or uncaught exception is an `Err`/`None` result.
- HDF5 datasets are arrays or sequences of integers.

Behaviour of the code that the model keeps as written:

- **Goto picks the last match, not the nearest.** The goto functions never lower `min_dist`. So "go to previous/next" picks the LAST interval in insertion order that lies on the right side of the frame, not the nearest one. The "You are at the first/last ..." warning is shown every time. `Intervals.PreviousIsNotNearest` gives a concrete case.
- **Event start note uses the wrong count.** The note for an event start is numbered with the count of closed *uncertain* intervals (labeler.cpp:119).
- **Forward skip has no extra frame.** When at least one whole frame has accumulated, it moves by the truncated accumulator, with no extra `+1`.
- **Reverse always moves two frames.** The accumulator never reaches one frame when moving backwards, so each backward tick moves two frames, clamped at the target (`Seek.ReverseMovesTwo`).
- **Negative frames break the round trip.** The ledger accepts negative frames. A line exported with a negative frame does not parse back, because its minus sign adds a second `-` to the line (`ParseLabelFiles.NegativeFrameIsMalformed`).
- **Parsing a whole file first gives the same result.** `parse_label_files.py` parses and paints line by line. The model parses all lines, then paints. The two agree because the first bad line ends the script.

## Model

| member | source | states |
|---|---|---|
| Text.Split | scripts/fix.py:14 | `split` on one character gives at least one piece. No piece holds the separator, and joining the pieces gives back the text. |
| Text.SplitBeforeLast | scripts/split_labels.py:25 | Splitting `s + sep + b`, where `b` has no separator, gives the pieces of `s` followed by `b`. |
| Text.SplitPairIsUnpacking | scripts/parse_label_files.py:25 | Unpacking a split into two names succeeds exactly when the split has two pieces, and yields those pieces. |
| Text.FirstTwoIsIndexing | scripts/fix.py:14-18 | Taking `[0]` and `[1]` of a split needs at least two pieces and ignores any further pieces. |
| Text.IntToStringShape | labeler.cpp:242-243 | The decimal text of a number is non-empty, all digits for a non-negative number, and a minus sign then digits otherwise. |
| Text.PyIntOfDecimal | scripts/parse_label_files.py:27-28 | `int()` reads the decimal text of every integer back to that integer. |
| Text.PyIntOfIntToString | scripts/parse_label_files.py:27-28 | `int()` ignores surrounding whitespace around a decimal number. |
| Seek.TruncParts | labeler.cpp:373 | Converting `n / 30` to an integer truncates toward zero: the quotient is bracketed from both sides for either sign. |
| Seek.ForwardStep | labeler.cpp:366-381 | Going forward, the frame strictly advances and never passes the target. With no skip it is the next frame, read in sequence with the accumulator unchanged. With skipping it seeks, and the accumulator ends below one frame. |
| Seek.ReverseStep | labeler.cpp:382-393 | Going backward, the frame lands in `[target, frame - 1]`, and the source is always told to seek there. |
| Seek.HoldStep | labeler.cpp:394-398 | At the target, the frame and the accumulator do not change. A frame is read only when none is buffered. |
| Seek.EndOfStream | labeler.cpp:399-401 | When a pass leaves no frame in the buffer, the target becomes one before the new frame. Otherwise the target is kept. |
| Seek.AccumulatorBelowOne | labeler.cpp:371-374 | With a non-negative skip rate, the accumulator stays below one frame after every pass. |
| Seek.ReverseMovesTwo | labeler.cpp:383-391 | Given that bound, every backward pass moves exactly two frames, clamped at the target, and lowers the accumulator by the skip rate. |
| Seek.ForwardSkipAmount | labeler.cpp:371-378 | From a non-negative frame, once a whole frame has accumulated, a forward pass moves by the whole accumulated frames (no extra one), clamped at the target, and the accumulator restarts at 0. |
| Seek.SlowSkipMovesOne | labeler.cpp:371-377 | From a non-negative frame, while less than two whole frames have accumulated (the accumulator may be negative after reverse passes), a forward pass moves exactly one frame. |
| Seek.NegativeFrameMovesTwo | labeler.cpp:371-378 | Below frame 0 the cast truncates toward zero, so from frame -5 a pass with one and a half accumulated frames moves two frames. |
| Seek.SequentialPlayback | labeler.cpp:366-369 | With no skipping, `n` passes advance exactly `n` frames as long as the target is not passed, and the target stays. |
| Seek.NeverOvershoots | labeler.cpp:378 | However many passes run from at or before the target, the frame never passes the target. |
| Intervals.ScanTargetIsLastCandidate | labeler.cpp:151-156 | The goto loop leaves the target at the start of the LAST candidate interval in insertion order. With no candidate it keeps the target. |
| Intervals.SortedPreviousIsNearest | labeler.cpp:144-161 | If intervals were recorded in ascending start order, "previous" lands on an interval start at or before the frame, and no candidate start lies between it and the frame. |
| Intervals.SortedNextIsFarthest | labeler.cpp:182-199 | In the same order, "next" lands on an interval start at or after the frame, and every candidate start is at or below it: the farthest one. |
| Intervals.PreviousIsNotNearest | labeler.cpp:151-156 | Concrete case: intervals starting at 5 and then 2, viewed from frame 10. "Previous" lands on 2. |
| Labeler.Session.constructor | labeler.cpp:323-332 | The session starts with an empty ledger, both slots closed, and the target at the start frame. No frame is buffered, there is no skipping, the seek interval is 30, and the invariant holds. |
| Labeler.Session.Start | labeler.cpp:73-123 | With the slot open, only a warning, and nothing changes. Otherwise the slot's start becomes the frame, and one note numbered by the uncertain count is added under the frame. Closed lists never change, and the invariant is kept. |
| Labeler.Session.End | labeler.cpp:90-141 | With the slot closed, only a warning. Otherwise exactly `(open start, frame)` is appended to that kind's list, with no order check. Both slot halves go back to -1 and one note is added. The other kind is untouched. |
| Labeler.Session.Delete | labeler.cpp:59-71 | The last note under the slot's start frame is dropped and the slot's start becomes -1; the other slot and the closed lists are unchanged. This holds for an open slot and for a closed slot whose negative start frame holds a note. |
| Labeler.Session.OpenSlotDeletable | labeler.cpp:59-71 | Under the session invariant an open slot's start frame holds a note, so deleting it never pops an empty list. |
| Labeler.Session.Goto | labeler.cpp:144-218 | With no interval of the kind, a "No ..." warning and the target stays. Otherwise the target is the scan result (see `Intervals.ScanTargetIsLastCandidate`), and the first/last warning is always returned. |
| Labeler.Session.Play | labeler.cpp:220-222 | The target becomes `INT64_MAX`. |
| Labeler.Session.Pause | labeler.cpp:224-227 | The target becomes the given frame. |
| Labeler.Session.SeekForward | labeler.cpp:229-232 | The target becomes the frame plus the seek interval. |
| Labeler.Session.SeekBackward | labeler.cpp:234-237 | The target becomes the frame minus the seek interval, which may be negative. |
| Labeler.Session.SetFrameskip | labeler.cpp:343-344 | The skip slider takes a value in `[0, 900]`, and the invariant is kept. |
| Labeler.Session.SetSeekInterval | labeler.cpp:347-348 | The seek slider takes a value in `[0, 900]`, and the invariant is kept. |
| Labeler.Session.Tick | labeler.cpp:366-401 | One loop pass turns the loop state into its `Seek.Step` and reports the source access. The invariant, including the accumulator bound, is kept. |
| Labeler.Session.Command | labeler.cpp:403-433 | `q` quits. `s`/`a` start and `d`/`f` end the event or uncertain tag at the current frame. `p`, `h`, `l`, `n`, `b` and space move the target as the source does. Every other key changes nothing, and the ledger changes only for the four ledger keys. |
| Labeler.Session.LedgerKey | labeler.cpp:418-425 | The four ledger keys start or end the matching kind at the current frame. |
| Labeler.Session.TargetKey | labeler.cpp:406-430 | The target keys set, step, seek or toggle the target. Any other key leaves it alone. |
| Labeler.EventLines | labeler.cpp:241-244 | One line per event interval, in order, each carrying its index. |
| Labeler.UncertainLines | labeler.cpp:245-248 | One line per uncertain interval, in order. |
| Labeler.Session.PrintEvents | labeler.cpp:240-249 | The export is one line per event interval with its index, then one line per uncertain interval, each list in insertion order. |
| Labeler.Session.StatusText | labeler.cpp:39-57 | The status line is the open-start summary followed by every note of the frame, each after a space. |
| Labeler.OpenSummary | labeler.cpp:40-52 | The summary reads "No tags open" exactly when neither slot is open. |
| Labeler.PassOnLocals | labeler.cpp:366-401 | The loop body on `main`'s locals computes exactly `Seek.Step`. |
| Labeler.AdvanceFrame | labeler.cpp:367-381 | The forward branch computes `Seek.Advance`. |
| Labeler.RetreatFrame | labeler.cpp:382-393 | The backward branch computes `Seek.Retreat`. |
| ParseLabelFiles.Classify | scripts/parse_label_files.py:30-39 | A label starting with "Event" gives 1. A label that is exactly "Uncertain" gives -1. Every other label is an error carrying the label. |
| ParseLabelFiles.ParseLine | scripts/parse_label_files.py:25-39 | A parsed line carries 1 or -1, and only a 1 sets the event flag. |
| ParseLabelFiles.Labelled | scripts/parse_label_files.py:30-39 | The mark keeps the range read; a label that is accepted gives 1 or -1, and only a 1 sets the event flag. |
| ParseLabelFiles.NumberReads | scripts/parse_label_files.py:27-28 | A non-negative number as written, with or without a leading space, reads back through `strip` and `int()`. |
| ParseLabelFiles.ParseLineOf | scripts/parse_label_files.py:25-39 | A line whose dash split, range and label succeed parses to the mark built from them. |
| ParseLabelFiles.ParseRangeOf | scripts/parse_label_files.py:26-28 | A range text `(S,E)` whose numbers read back parses to those numbers. |
| ParseLabelFiles.RangeOf | scripts/parse_label_files.py:26-28 | `(S, E)` followed by a space parses to the values of `S` and `E`. |
| ParseLabelFiles.RangeShape | scripts/parse_label_files.py:26-28 | Stripping `(S, E)` and its trailing space leaves the parentheses around `S`, the comma and ` E`. |
| ParseLabelFiles.RangeReads | scripts/parse_label_files.py:26-28 | The exported range of non-negative frames parses back to the same pair. |
| ParseLabelFiles.EventLabelReads | scripts/parse_label_files.py:32-34 | The label half `Event i` of an exported line classifies as 1. |
| ParseLabelFiles.UncertainLabelReads | scripts/parse_label_files.py:35-36 | The label half `Uncertain` classifies as -1. |
| ParseLabelFiles.HalvesOf | scripts/parse_label_files.py:25 | An exported line strips and splits on its single dash into the range text and the label text. |
| ParseLabelFiles.RangeTextIsInert | scripts/parse_label_files.py:25 | The range text of non-negative frames starts with `(` and holds no dash. |
| ParseLabelFiles.ParseEventLine | scripts/parse_label_files.py:25-39 | An exported event line with non-negative frames reads back as the same range, labelled 1, as an event. |
| ParseLabelFiles.ParseUncertainLine | scripts/parse_label_files.py:25-39 | An exported uncertain line with non-negative frames reads back as the same range, labelled -1. |
| ParseLabelFiles.NegativeFrameIsMalformed | scripts/parse_label_files.py:25 | An exported line with a negative frame does not parse, whether it is an uncertain line or an event line with any index, because its minus sign adds a second dash. |
| ParseLabelFiles.UncertainNegativeIsMalformed | scripts/parse_label_files.py:25 | An uncertain line with a negative frame does not parse. |
| ParseLabelFiles.EventNegativeIsMalformed | scripts/parse_label_files.py:25 | An event line with a negative frame does not parse, whatever its index. |
| ParseLabelFiles.TwoDashesOf | scripts/parse_label_files.py:25 | A range text whose number starts with a minus sign makes the line malformed, whatever label text follows the dash. |
| ParseLabelFiles.SecondDash | scripts/parse_label_files.py:25 | Any dash inside the range text makes the dash split fail. |
| ParseLabelFiles.FrameRange | scripts/parse_label_files.py:41 | `range(lo, hi + 1)` holds exactly the frames from `lo` to `hi`. |
| ParseLabelFiles.Paint | scripts/parse_label_files.py:41-43 | An event labels every frame of its range. An uncertain line labels only unlabelled frames of its range. Frames outside the range keep their label, and `end < start` changes nothing. |
| ParseLabelFiles.PaintRange | scripts/parse_label_files.py:41-43 | The frame loop computes `Paint`. |
| ParseLabelFiles.PaintOneMore | scripts/parse_label_files.py:41-43 | Extending the range by its next frame paints that frame as one loop step does: always for an event, only when unlabelled for an uncertain line. |
| ParseLabelFiles.ReadFile | scripts/parse_label_files.py:19-43 | The line loop computes the parse-then-paint of all lines, stopping at the first bad line. |
| ParseLabelFiles.RasterizeAppend | scripts/parse_label_files.py:22-43 | Painting two runs of lines is painting the first run and then the second. |
| ParseLabelFiles.RasterizeEvents | scripts/parse_label_files.py:41-43 | Event marks label 1 exactly the frames some event covers, and keep every other frame. |
| ParseLabelFiles.RasterizeUncertain | scripts/parse_label_files.py:41-43 | Uncertain marks label -1 exactly the covered frames that had no label, and keep every other frame. |
| ParseLabelFiles.ExportReadsBack | scripts/parse_label_files.py:19-43 | An export of non-negative intervals reads into a map labelling 1 the frames an event covers and -1 those only an uncertain interval covers. No other frame is labelled. |
| ParseLabelFiles.ExportRasterizes | scripts/parse_label_files.py:41-43 | Painting the event marks and then the uncertain marks onto an empty map gives that labelling. |
| ParseLabelFiles.ParsedAppend | scripts/parse_label_files.py:22-25 | Lines are parsed independently, so parsing two blocks of lines in sequence gives their parses in sequence. |
| ParseLabelFiles.EventsParsed | scripts/parse_label_files.py:25-34 | The event lines of an export parse as event marks. |
| ParseLabelFiles.UncertainParsed | scripts/parse_label_files.py:25-36 | The uncertain lines of an export parse as uncertain marks. |
| ParseLabelFiles.Densify | scripts/parse_label_files.py:68-72 | The vector has `num_frames` entries: the map's label, or 0 for an absent frame. A negative size is an error. |
| Markers.ParseMarkerIsIndexing | scripts/fix.py:14-18 | The parse is `int()` of piece 1 and the name in piece 0 of `rstrip().split(":")`, failing when there is no piece 1 or it is not a number. |
| Markers.MarkerReads | scripts/fix.py:14-18 | A line `name:n` with no colon in `name` reads back as marker `(name, n)`. |
| Markers.CollectSucceeds | scripts/fix.py:13-18 | Reading the lines succeeds exactly when every line parses. |
| Markers.CollectMarkers | scripts/fix.py:13-18 | A successful read yields the markers already read, then one marker per line in order. |
| Markers.ParseAllSucceeds | scripts/fix.py:13-18 | A file reads exactly when every line parses. |
| Markers.ParseAllLines | scripts/fix.py:13-18 | A file that reads yields one marker per line, in line order. |
| Markers.RecordLastWins | scripts/fix.py:15-17 | A frame is in the map exactly when it was before or some marker names it. It holds the label of the last marker naming it, or its old label if none does. |
| FixMarkers.InsertPermutes | scripts/fix.py:19 | Inserting a marker keeps every marker. |
| FixMarkers.InsertAscending | scripts/fix.py:19 | Inserting into an ascending list keeps it ascending. |
| FixMarkers.InsertStable | scripts/fix.py:19 | Inserting places a marker after all earlier markers of its frame. |
| FixMarkers.SortByFrameSorts | scripts/fix.py:19 | The sort is ascending by frame, is a permutation, and keeps same-frame markers in file order (Python's sort is stable). |
| FixMarkers.VisitFinish | scripts/fix.py:22-36 | A Finish is accepted exactly when its label is not open, the stack is not empty, and its own Start is on top, which it pops. Any other accepted marker is pushed. |
| FixMarkers.VisitKeepsNesting | scripts/fix.py:22-36 | Each accepted marker keeps the stack free of Finish labels and of repeated labels. |
| FixMarkers.NestKeepsNesting | scripts/fix.py:20-36 | The whole stack loop keeps that property. |
| FixMarkers.ReadFile | scripts/fix.py:9-36 | `read_file` computes `Check`: parse into the map, sort by frame, then run the stack check, returning the first error. |
| FixMarkers.ReadMarkers | scripts/fix.py:13-18 | The line loop yields the parsed markers and the map they update, or nothing at a bad line. |
| FixMarkers.CheckNesting | scripts/fix.py:20-36 | The stack loop computes `Nest`, returning the first duplicate, empty-stack or mismatch error. |
| FixMarkers.CheckedInOrder | scripts/fix.py:9-36 | After a successful check, the remaining stack holds no Finish and no label twice, and the markers were visited in ascending frame order. |
| ReadData.ReadFile | read-data.py:20-25 | The map gets each line's label under its frame, later lines winning. A bad line is an error. |
| ReadData.LastKey | read-data.py:34 | `sorted(keys)[-1]` is a key no smaller than any other. |
| ReadData.FullLabels | read-data.py:27-46 | No marker is an error. Otherwise the labels have exactly the keys `0 .. last - 1`, so the largest marked frame is left out, and each holds the walk's state for that frame. |
| ReadData.WalkIsLastMarker | read-data.py:34-46 | The walk agrees with reading backwards. `prev_state` is set by the last Partial marker, and `state` by the last known marker, where a Full Finish gives back that frame's `prev_state`. |
| ReadData.StateIsPrevOrPerson | read-data.py:35-45 | The state is always either `prev_state` or Person. |
| ReadData.Inherits | read-data.py:46 | A frame without a marker has the previous frame's label. Frame 0 without one is No Person. |
| ReadData.QuietKeeps | read-data.py:34-46 | Frames without a known marker change neither state. |
| ReadData.FullFinishRestores | read-data.py:42-45 | A Full Start closed by a Full Finish with no known marker between makes those frames Person. It restores the state from before the Full Start, when that state was not Person. |
| SplitLabels.Basename | scripts/split_labels.py:25 | The basename holds no `/`. |
| SplitLabels.BasenameOfChild | scripts/split_labels.py:25 | `dir/name` has basename `name`. |
| SplitLabels.BasenameOfName | scripts/split_labels.py:25 | A name without `/` is its own basename. |
| SplitLabels.StemDropsExtension | scripts/split_labels.py:25 | `stem.ext` gives `stem`. Only the last extension is removed. |
| SplitLabels.StemWithoutDot | scripts/split_labels.py:25 | A name without a dot gives an empty stem. |
| SplitLabels.JoinedBasename | scripts/split_labels.py:26-29 | `os.path.join(dir, name)` ends in `name` for every directory. |
| SplitLabels.OutputsNamed | scripts/split_labels.py:25-29 | The outputs are named `<stem>_train.h5` and `<stem>_test.h5`, so they never name the same file. |
| SplitLabels.SplitAt | scripts/split_labels.py:35-43 | A negative size for either part is an error. Otherwise train is the first `num_frames` labels and test is the rest. |
| SampleLabels.CountIsCeiling | scripts/sample_labels.py:29-31 | With `n > 0`, sample `k` exists exactly when frame `k * n` is in range, so there are `ceil(len / n)` samples. |
| SampleLabels.IndicesAreMultiples | scripts/sample_labels.py:29-33 | With `n > 0`, the visited frames are exactly the multiples of `n` below the length, in increasing order. |
| SampleLabels.MulMod | scripts/sample_labels.py:33 | Every visited frame leaves no remainder by `n`, as the script asserts. |
| SampleLabels.Sample | scripts/sample_labels.py:29-34 | A step of 0 is an error. Otherwise the output has `len(range(0, len, n))` entries, and entry `k` is label `k * n`. |
| LabelsToTxt.PositivesExact | scripts/labels_to_txt.py:26 | A frame is listed exactly when its label is 1. |
| LabelsToTxt.PositivesAscending | scripts/labels_to_txt.py:26 | Frames are listed in strictly increasing order. |
| LabelsToTxt.ToText | scripts/labels_to_txt.py:25-27 | The written text is each listed frame in decimal followed by a newline. |
| LabelsToTxt.NoNewline | scripts/labels_to_txt.py:27 | A frame number in decimal holds no newline. |
| LabelsToTxt.RenderSplits | scripts/labels_to_txt.py:27 | Split on newlines, the text gives one line per frame. |
| LabelsToTxt.TextReadsBack | scripts/labels_to_txt.py:26-27 | The file reads back: one line per positive frame, each parsing with `int()` to that frame, then an empty last piece. |

## Left out

- The OpenCV window, buttons, trackbars, overlay and status bar are left out. The status text is returned (`StatusText`), and warnings are returned values.
- `cv::VideoCapture` is replaced by the `readOk` input and the `Seek.Access` output. What a seek to a given frame returns is not modelled.
- `preprocess_frame` and `get_fps` (labeler.cpp:255-314) are left out. They resize images, draw text and read the wall clock in floating point.
- The SIGINT handler and the final writes to `labels.dat` and standard output are left out. `PrintEvents` returns the lines that would be written.
- Seek.Step: `frames_to_skip` is a `double` in the source and is modelled exactly in thirtieths. After many additions of `frameskip / 30.0`, the double can fall just short of a whole frame where the exact sum reaches one. Doubles also lose precision on frame numbers above 2^53.
- Labeler.Session.Command: 64-bit wrap-around is not modelled. Stepping `l` from the `INT64_MAX` play target overflows in the source but is plain `+ 1` here.
- Labeler.Session.Delete: requires the slot's start frame to hold at least one note. The source does not check this. When the start frame holds no note, for example a slot at -1 with nothing filed under frame -1, the source pops an empty vector, which is undefined behaviour. A start at a negative frame leaves the slot closed but files its note there; deleting that slot pops the note and is covered.
- Seek.ForwardSkipAmount: stated from a non-negative frame only. Below frame 0 the truncating cast rounds the other way and the move can be one frame larger (Seek.NegativeFrameMovesTwo).
- Seek.SlowSkipMovesOne: stated from a non-negative frame only, for the same reason; Seek.NegativeFrameMovesTwo shows a two-frame move below frame 0.
- Labeler.Session.SetFrameskip and Labeler.Session.SetSeekInterval: require the slider range that the toolkit enforces. The callback itself is not source code.
- Labeler.Session.Tick: keeps the accumulator below one frame as an invariant, which depends on the frameskip slider never going negative.
- `print_controls`, `display_status_text`'s call at the top of each loop pass, and the unused `saved_tag` are left out.
- The `print` calls of the scripts are left out. These include `fix.py`'s report of a repeated frame and of the stack at a mismatch, and `read-data.py`'s final loop over `full_labels` (read-data.py:47-48), which only reads.
- `os.listdir` and the loop over files are left out. Each script's per-file read is modelled with the map carried in as a parameter, so reading several files is repeated calls in directory order.
- `h5py`, `numpy` and `argparse` are left out. Datasets are arrays or sequences, and the `int32` element type is not enforced.
- SplitLabels.SplitAt: the output files are created before the dataset shapes are checked. That file creation is not modelled.
- ParseLabelFiles.ParseLine: Python's `int()` is modelled for ASCII digits, a sign, single underscores between digits, and surrounding whitespace. Other Unicode digits and whitespace are not modelled.
