/**
  * scripts/split_labels.py: cuts one labels dataset into a training part
  * (the first `num_frames` frames) and a test part (the rest), written next
  * to each other as `<stem>_train.h5` and `<stem>_test.h5`.
  */
module SplitLabels {
  import opened Text

  /** `os.path.basename`: the text after the last `/`. */
  function Basename(path: string): (name: string)
    ensures '/' !in name
  {
    var parts := Split(path, '/');
    parts[|parts| - 1]
  }

  /** A name without `/` under any directory keeps its name. */
  lemma BasenameOfChild(dir: string, name: string)
    requires '/' !in name
    ensures Basename(dir + "/" + name) == name
  {
    SplitBeforeLast(dir, '/', name);
  }

  /** A name without `/` is its own basename. */
  lemma BasenameOfName(name: string)
    requires '/' !in name
    ensures Basename(name) == name
  {
    SplitNoSep(name, '/');
  }

  /** `".".join(name.split(".")[:-1])` (split_labels.py:25): the name without its last extension. */
  function Stem(name: string): string {
    var parts := Split(name, '.');
    Join(parts[..|parts| - 1], '.')
  }

  /** Only the last extension goes: `a.b.h5` becomes `a.b`. */
  lemma StemDropsExtension(stem: string, ext: string)
    requires '.' !in ext
    ensures Stem(stem + "." + ext) == stem
  {
    SplitBeforeLast(stem, '.', ext);
    var parts := Split(stem, '.') + [ext];
    assert parts[..|parts| - 1] == Split(stem, '.');
  }

  /** A name without any `.` has an empty stem, so the outputs become `_train.h5` and `_test.h5`. */
  lemma StemWithoutDot(name: string)
    requires '.' !in name
    ensures Stem(name) == ""
  {
    SplitNoSep(name, '.');
  }

  /** Every piece of a split holds no character the text lacks. */
  lemma {:induction false} PiecesLack(s: string, sep: char, c: char)
    requires c !in s
    ensures forall i :: 0 <= i < |Split(s, sep)| ==> c !in Split(s, sep)[i]
  {
    if s != [] {
      PiecesLack(s[1..], sep, c);
      var rest := Split(s[1..], sep);
      if s[0] != sep {
        assert Split(s, sep) == [[s[0]] + rest[0]] + rest[1..];
        forall i | 1 <= i < |Split(s, sep)| ensures c !in Split(s, sep)[i] {
          assert Split(s, sep)[i] == rest[i];
        }
      }
    }
  }

  /** Joining pieces that lack a character other than the separator gives a text that lacks it. */
  lemma {:induction false} JoinLacks(parts: seq<string>, sep: char, c: char)
    requires c != sep
    requires forall i :: 0 <= i < |parts| ==> c !in parts[i]
    ensures c !in Join(parts, sep)
  {
    if |parts| > 1 {
      JoinLacks(parts[1..], sep, c);
    }
  }

  /** A stem keeps every character out that its name keeps out. */
  lemma StemLacks(name: string, c: char)
    requires c != '.' && c !in name
    ensures c !in Stem(name)
  {
    PiecesLack(name, '.', c);
    var parts := Split(name, '.');
    JoinLacks(parts[..|parts| - 1], '.', c);
  }

  /** `os.path.join(dir, name)` for a relative `name`: a `/` is added unless `dir` is empty or ends in one. */
  function PathJoin(dir: string, name: string): string {
    if |name| > 0 && name[0] == '/' then name
    else if dir == [] || dir[|dir| - 1] == '/' then dir + name
    else dir + "/" + name
  }

  /** A joined path ends in the name that was joined, whatever the directory. */
  lemma JoinedBasename(dir: string, name: string)
    requires '/' !in name
    ensures Basename(PathJoin(dir, name)) == name
  {
    if dir == [] {
      assert dir + name == name;
      BasenameOfName(name);
    } else if dir[|dir| - 1] == '/' {
      var parent := dir[..|dir| - 1];
      assert dir + name == parent + "/" + name;
      BasenameOfChild(parent, name);
    } else {
      BasenameOfChild(dir, name);
    }
  }

  /** The two output paths (split_labels.py:25-29). */
  function OutPaths(inPath: string, outDir: string): (string, string) {
    var stem := Stem(Basename(inPath));
    (PathJoin(outDir, stem + "_train.h5"), PathJoin(outDir, stem + "_test.h5"))
  }

  /**
    * The outputs are `<stem>_train.h5` and `<stem>_test.h5` in the output
    * directory, where the stem is the input's file name less its last
    * extension; so the two never name the same file.
    */
  lemma OutputsNamed(inPath: string, outDir: string)
    ensures var stem := Stem(Basename(inPath));
      Basename(OutPaths(inPath, outDir).0) == stem + "_train.h5"
      && Basename(OutPaths(inPath, outDir).1) == stem + "_test.h5"
    ensures OutPaths(inPath, outDir).0 != OutPaths(inPath, outDir).1
  {
    var stem := Stem(Basename(inPath));
    StemLacks(Basename(inPath), '/');
    JoinedBasename(outDir, stem + "_train.h5");
    JoinedBasename(outDir, stem + "_test.h5");
    assert |stem + "_train.h5"| != |stem + "_test.h5"|;
  }

  /**
    * The copy (split_labels.py:35-43): a training dataset of `numFrames`
    * labels and a test dataset of the rest. A negative size for either
    * dataset makes the dataset creation fail.
    */
  method SplitAt(labels: array<int>, numFrames: int) returns (r: Option<(array<int>, array<int>)>)
    ensures r.None? <==> numFrames < 0 || numFrames > labels.Length
    ensures r.Some? ==> fresh(r.value.0) && fresh(r.value.1)
    ensures r.Some? ==> r.value.0[..] == labels[..numFrames] && r.value.1[..] == labels[numFrames..]
  {
    if numFrames < 0 || labels.Length - numFrames < 0 {
      return None;
    }
    var train := new int[numFrames];
    var test := new int[labels.Length - numFrames];
    for i := 0 to labels.Length
      invariant forall k :: 0 <= k < i && k < numFrames ==> train[k] == labels[k]
      invariant forall k :: numFrames <= k < i ==> test[k - numFrames] == labels[k]
    {
      if i < numFrames {
        train[i] := labels[i];
      } else {
        test[i - numFrames] := labels[i];
      }
    }
    r := Some((train, test));
  }
}
