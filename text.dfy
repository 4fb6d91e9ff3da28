/**
  * String helpers shared by the model: the few Python `str` methods the label
  * scripts use (`strip`, `lstrip`, `rstrip`, `split`, `join`, `startswith`,
  * `int()`), and the decimal rendering of integers that C++'s `std::to_string`
  * and `operator<<` produce.
  */
module Text {

  datatype Option<+T> = None | Some(value: T)

  /** Python's `str.isspace` for one character. */
  predicate IsSpace(c: char) {
    c == ' ' || ('\t' <= c <= '\r') || ('\U{1C}' <= c <= '\U{1F}')
    || c == '\U{85}' || c == '\U{A0}' || c == '\U{1680}'
    || ('\U{2000}' <= c <= '\U{200A}') || c == '\U{2028}' || c == '\U{2029}'
    || c == '\U{202F}' || c == '\U{205F}' || c == '\U{3000}'
  }

  predicate AllSpace(s: string) {
    forall i :: 0 <= i < |s| ==> IsSpace(s[i])
  }

  /** Where the run of whitespace starting at index `i` of `s` ends. */
  function SpacesFrom(s: string, i: nat): (j: nat)
    requires i <= |s|
    ensures i <= j <= |s|
    ensures forall k :: i <= k < j ==> IsSpace(s[k])
    ensures j == |s| || !IsSpace(s[j])
    decreases |s| - i
  {
    if i < |s| && IsSpace(s[i]) then SpacesFrom(s, i + 1) else i
  }

  /** Where the run of whitespace ending just before index `j` of `s` starts. */
  function SpacesBefore(s: string, j: nat): (i: nat)
    requires j <= |s|
    ensures i <= j
    ensures forall k :: i <= k < j ==> IsSpace(s[k])
    ensures i == 0 || !IsSpace(s[i - 1])
  {
    if j > 0 && IsSpace(s[j - 1]) then SpacesBefore(s, j - 1) else j
  }

  /** Python's `s.lstrip()`: drops the longest all-whitespace prefix. */
  function LStrip(s: string): string {
    s[SpacesFrom(s, 0)..]
  }

  /** Python's `s.rstrip()`: drops the longest all-whitespace suffix. */
  function RStrip(s: string): string {
    s[..SpacesBefore(s, |s|)]
  }

  /** Python's `s.strip()`. */
  function Strip(s: string): string {
    RStrip(LStrip(s))
  }

  /** Where the run of copies of `c` starting at index `i` of `s` ends. */
  function CharsFrom(s: string, c: char, i: nat): (j: nat)
    requires i <= |s|
    ensures i <= j <= |s|
    ensures forall k :: i <= k < j ==> s[k] == c
    ensures j == |s| || s[j] != c
    decreases |s| - i
  {
    if i < |s| && s[i] == c then CharsFrom(s, c, i + 1) else i
  }

  /** Where the run of copies of `c` ending just before index `j` of `s` starts. */
  function CharsBefore(s: string, c: char, j: nat): (i: nat)
    requires j <= |s|
    ensures i <= j
    ensures forall k :: i <= k < j ==> s[k] == c
    ensures i == 0 || s[i - 1] != c
  {
    if j > 0 && s[j - 1] == c then CharsBefore(s, c, j - 1) else j
  }

  /** Python's `s.lstrip(c)` for a one-character argument. */
  function LStripChar(s: string, c: char): string {
    s[CharsFrom(s, c, 0)..]
  }

  /** Python's `s.rstrip(c)` for a one-character argument. */
  function RStripChar(s: string, c: char): string {
    s[..CharsBefore(s, c, |s|)]
  }

  /** Python's `sep.join(parts)` for a one-character separator. */
  function Join(parts: seq<string>, sep: char): string {
    if |parts| == 0 then []
    else if |parts| == 1 then parts[0]
    else parts[0] + [sep] + Join(parts[1..], sep)
  }

  /**
    * Python's `s.split(sep)` for a one-character separator: the text between
    * consecutive separators, so there is always at least one piece, none of
    * them holds the separator, and joining them back gives `s`.
    */
  function Split(s: string, sep: char): (parts: seq<string>)
    ensures |parts| >= 1
    ensures forall i :: 0 <= i < |parts| ==> sep !in parts[i]
    ensures Join(parts, sep) == s
  {
    if s == [] then [[]]
    else
      var rest := Split(s[1..], sep);
      if s[0] == sep then
        assert Join([[]] + rest, sep) == [sep] + Join(rest, sep);
        [[]] + rest
      else
        var parts := [[s[0]] + rest[0]] + rest[1..];
        assert |rest| > 1 ==> Join(rest, sep) == rest[0] + [sep] + Join(rest[1..], sep);
        assert |rest| > 1 ==> Join(parts, sep) == [s[0]] + rest[0] + [sep] + Join(rest[1..], sep);
        parts
  }

  /** A text without the separator is one piece. */
  lemma {:induction false} SplitNoSep(s: string, sep: char)
    requires sep !in s
    ensures Split(s, sep) == [s]
  {
    if s != [] {
      SplitNoSep(s[1..], sep);
      assert [s[0]] + s[1..] == s;
    }
  }

  /** Splitting `a + sep + b` with no separator in `a` yields `a` and then the pieces of `b`. */
  lemma {:induction false} SplitAfterFirst(a: string, sep: char, b: string)
    requires sep !in a
    ensures Split(a + [sep] + b, sep) == [a] + Split(b, sep)
  {
    if a == [] {
      assert a + [sep] + b == [sep] + b;
      assert ([sep] + b)[1..] == b;
    } else {
      SplitAfterFirst(a[1..], sep, b);
      assert (a + [sep] + b)[1..] == a[1..] + [sep] + b;
      assert [a[0]] + a[1..] == a;
    }
  }

  /** Splitting `s + sep + b` with no separator in `b` yields the pieces of `s` and then `b`. */
  lemma {:induction false} SplitBeforeLast(s: string, sep: char, b: string)
    requires sep !in b
    ensures Split(s + [sep] + b, sep) == Split(s, sep) + [b]
  {
    if s == [] {
      SplitAfterFirst(s, sep, b);
      SplitNoSep(b, sep);
    } else {
      SplitBeforeLast(s[1..], sep, b);
      assert (s + [sep] + b)[1..] == s[1..] + [sep] + b;
    }
  }

  /** The pieces of a text are the only separator-free pieces that join back to it. */
  lemma {:induction false} SplitUnique(parts: seq<string>, sep: char)
    requires |parts| >= 1
    requires forall i :: 0 <= i < |parts| ==> sep !in parts[i]
    ensures Split(Join(parts, sep), sep) == parts
  {
    if |parts| == 1 {
      SplitNoSep(parts[0], sep);
    } else {
      SplitUnique(parts[1..], sep);
      SplitAfterFirst(parts[0], sep, Join(parts[1..], sep));
      assert [parts[0]] + parts[1..] == parts;
    }
  }

  /** The index of the first `c` at or after index `i` of `s`, or `|s|` when there is none. */
  function Find(s: string, c: char, i: nat): (j: nat)
    requires i <= |s|
    ensures i <= j <= |s|
    ensures forall k :: i <= k < j ==> s[k] != c
    ensures j == |s| || s[j] == c
    decreases |s| - i
  {
    if i == |s| || s[i] == c then i else Find(s, c, i + 1)
  }

  /**
    * Unpacking `s.split(sep)` into exactly two names: the text before and
    * after the only separator, and nothing (a `ValueError`) when there are
    * fewer or more pieces.
    */
  function SplitPair(s: string, sep: char): Option<(string, string)> {
    var k := Find(s, sep, 0);
    if k == |s| || Find(s, sep, k + 1) < |s| then None
    else Some((s[..k], s[k + 1..]))
  }

  /** `s.split(sep)[0]` and `s.split(sep)[1]`: nothing (an `IndexError`) without a separator. */
  function FirstTwo(s: string, sep: char): Option<(string, string)> {
    var k := Find(s, sep, 0);
    if k == |s| then None
    else Some((s[..k], s[k + 1..Find(s, sep, k + 1)]))
  }

  /** Unpacking agrees with `split`: exactly two pieces, and they are the two names. */
  lemma SplitPairIsUnpacking(s: string, sep: char)
    ensures SplitPair(s, sep) == if |Split(s, sep)| == 2 then Some((Split(s, sep)[0], Split(s, sep)[1])) else None
  {
    var k := Find(s, sep, 0);
    if k == |s| {
      SplitNoSep(s, sep);
    } else {
      var a, rest := s[..k], s[k + 1..];
      assert s == a + [sep] + rest;
      SplitAfterFirst(a, sep, rest);
      var k2 := Find(s, sep, k + 1);
      if k2 == |s| {
        FindFree(s, sep, k + 1);
        assert s[k + 1..k2] == rest;
        SplitNoSep(rest, sep);
      } else {
        assert rest[k2 - k - 1] == sep;
        assert sep in rest;
      }
    }
  }

  /** The characters of `s` from index `i` up to its first `c` from there. */
  lemma FindFree(s: string, c: char, i: nat)
    requires i <= |s|
    ensures c !in s[i..Find(s, c, i)]
  {
    var t := s[i..Find(s, c, i)];
    forall j | 0 <= j < |t| ensures t[j] != c {
      assert t[j] == s[i + j];
    }
  }

  /** The first two names agree with `split`, whenever there are at least two pieces. */
  lemma FirstTwoIsIndexing(s: string, sep: char)
    ensures FirstTwo(s, sep) == if |Split(s, sep)| >= 2 then Some((Split(s, sep)[0], Split(s, sep)[1])) else None
  {
    var k := Find(s, sep, 0);
    if k == |s| {
      SplitNoSep(s, sep);
    } else {
      var a, rest := s[..k], s[k + 1..];
      assert s == a + [sep] + rest;
      SplitAfterFirst(a, sep, rest);
      FirstNameOfRest(s, sep, k);
    }
  }

  /** The text after the first separator splits with the next name first. */
  lemma FirstNameOfRest(s: string, sep: char, k: nat)
    requires k < |s| && s[k] == sep
    ensures Split(s[k + 1..], sep)[0] == s[k + 1..Find(s, sep, k + 1)]
  {
    var rest := s[k + 1..];
    var k2 := Find(s, sep, k + 1);
    var b := s[k + 1..k2];
    FindFree(s, sep, k + 1);
    if k2 == |s| {
      assert b == rest;
      SplitNoSep(rest, sep);
    } else {
      assert rest == b + [sep] + s[k2 + 1..];
      SplitAfterFirst(b, sep, s[k2 + 1..]);
    }
  }

  /** Two separator-free texts around one separator unpack back into themselves. */
  lemma SplitPairOf(a: string, sep: char, b: string)
    requires sep !in a && sep !in b
    ensures SplitPair(a + [sep] + b, sep) == Some((a, b))
  {
    var s := a + [sep] + b;
    assert s[|a|] == sep;
    var k := Find(s, sep, 0);
    assert s[..k] == a && s[k + 1..] == b;
  }

  /** Indexing the split of a text around its first separator: the text before and the text after. */
  lemma FirstTwoOf(a: string, sep: char, b: string)
    requires sep !in a && sep !in b
    ensures FirstTwo(a + [sep] + b, sep) == Some((a, b))
  {
    var s := a + [sep] + b;
    assert s[|a|] == sep;
    assert forall j :: 0 <= j < |a| ==> s[j] == a[j];
    assert forall j :: |a| < j < |s| ==> s[j] == b[j - |a| - 1];
    var k := Find(s, sep, 0);
    assert k == |a|;
    var k2 := Find(s, sep, k + 1);
    assert k2 == |s|;
    assert s[..k] == a && s[k + 1..k2] == b;
  }

  /** A text with two separators does not unpack into two names. */
  lemma SplitPairTwoSeps(t: string, sep: char, i1: int, i2: int)
    requires 0 <= i1 < i2 < |t| && t[i1] == sep && t[i2] == sep
    ensures SplitPair(t, sep) == None
  {
    var k := Find(t, sep, 0);
    assert k <= i1;
    var k2 := Find(t, sep, k + 1);
    assert k2 <= i2;
  }

  predicate IsDigit(c: char) {
    '0' <= c <= '9'
  }

  predicate AllDigits(s: string) {
    forall i :: 0 <= i < |s| ==> IsDigit(s[i])
  }

  function DigitChar(d: nat): (c: char)
    requires d < 10
    ensures IsDigit(c) && c as int - '0' as int == d
  {
    ('0' as int + d) as char
  }

  /** The decimal digits of `n`, most significant first, without leading zeros. */
  function NatToString(n: nat): string {
    if n < 10 then [DigitChar(n)] else NatToString(n / 10) + [DigitChar(n % 10)]
  }

  /** `std::to_string` of a signed integer (and what `operator<<` writes). */
  function IntToString(n: int): string {
    if n < 0 then "-" + NatToString(-n) else NatToString(n)
  }

  /** The decimal text of a natural number is a non-empty run of digits. */
  lemma {:induction false} NatToStringDigits(n: nat)
    ensures |NatToString(n)| >= 1 && AllDigits(NatToString(n))
  {
    if n >= 10 {
      NatToStringDigits(n / 10);
    }
  }

  /** The decimal text of an integer: digits, after a minus sign when negative. */
  lemma IntToStringShape(n: int)
    ensures |IntToString(n)| >= 1
    ensures n >= 0 ==> AllDigits(IntToString(n))
    ensures n < 0 ==> IntToString(n)[0] == '-' && AllDigits(IntToString(n)[1..])
  {
    NatToStringDigits(if n < 0 then -n else n);
    if n < 0 {
      assert IntToString(n)[1..] == NatToString(-n);
    }
  }

  /** The value of a string of decimal digits. */
  function DigitsValue(s: string): int {
    if s == [] then 0 else 10 * DigitsValue(s[..|s| - 1]) + (s[|s| - 1] as int - '0' as int)
  }

  lemma {:induction false} DigitsValueOfNatToString(n: nat)
    ensures DigitsValue(NatToString(n)) == n
  {
    var s := NatToString(n);
    NatToStringDigits(n);
    if n >= 10 {
      NatToStringDigits(n / 10);
      DigitsValueOfNatToString(n / 10);
      assert s[..|s| - 1] == NatToString(n / 10);
    }
  }

  /**
    * The digit text Python's `int()` accepts after the sign: a digit, then
    * more digits, each possibly preceded by a single underscore.
    */
  predicate IsDigitText(s: string)
    decreases |s|
  {
    |s| >= 1 && IsDigit(s[0])
    && (|s| == 1 || if s[1] == '_' then IsDigitText(s[2..]) else IsDigitText(s[1..]))
  }

  /** A plain run of digits is digit text. */
  lemma {:induction false} DigitsAreDigitText(s: string)
    requires |s| >= 1 && AllDigits(s)
    ensures IsDigitText(s)
    decreases |s|
  {
    if |s| > 1 {
      DigitsAreDigitText(s[1..]);
    }
  }

  /** The digits of a text, its underscores dropped. */
  function DropUnderscores(s: string): string {
    if s == [] then []
    else if s[0] == '_' then DropUnderscores(s[1..])
    else [s[0]] + DropUnderscores(s[1..])
  }

  /** A text without underscores keeps all its characters. */
  lemma {:induction false} DropNoUnderscores(s: string)
    requires AllDigits(s)
    ensures DropUnderscores(s) == s
  {
    if s != [] {
      DropNoUnderscores(s[1..]);
      assert [s[0]] + s[1..] == s;
    }
  }

  /**
    * Python's `int(s)` for a `str`: surrounding whitespace, an optional `+`
    * or `-`, then the digit text; anything else is a `ValueError` (`None`).
    */
  function PyInt(s: string): (r: Option<int>)
    ensures r.Some? ==> exists i :: 0 <= i < |s| && !IsSpace(s[i])
  {
    var t := Strip(s);
    if t == [] then None
    else
      var body := if t[0] == '-' || t[0] == '+' then t[1..] else t;
      if !IsDigitText(body) then None
      else
        var v: int := DigitsValue(DropUnderscores(body));
        Some(if t[0] == '-' then -v else v)
  }

  /** Whitespace in front of a text that does not start with whitespace is all `lstrip` removes. */
  lemma LStripPadded(pre: string, u: string)
    requires AllSpace(pre)
    requires u == [] || !IsSpace(u[0])
    ensures LStrip(pre + u) == u
  {
    var s := pre + u;
    var n := SpacesFrom(s, 0);
    assert s[|pre|..] == u;
  }

  /** Whitespace after a text that does not end with whitespace is all `rstrip` removes. */
  lemma RStripPadded(u: string, post: string)
    requires AllSpace(post)
    requires u == [] || !IsSpace(u[|u| - 1])
    ensures RStrip(u + post) == u
  {
    var s := u + post;
    var n := SpacesBefore(s, |s|);
    assert s[..|u|] == u;
  }

  /** Stripping a text padded with whitespace gives the text back. */
  lemma StripPadded(pre: string, t: string, post: string)
    requires AllSpace(pre) && AllSpace(post)
    requires t != [] && !IsSpace(t[0]) && !IsSpace(t[|t| - 1])
    ensures Strip(pre + t + post) == t
  {
    assert pre + t + post == pre + (t + post);
    LStripPadded(pre, t + post);
    RStripPadded(t, post);
  }

  /** `s.lstrip(c)` of `c` followed by a text not starting with `c`. */
  lemma LStripCharOne(c: char, u: string)
    requires u == [] || u[0] != c
    ensures LStripChar([c] + u, c) == u
  {
    var s := [c] + u;
    var n := CharsFrom(s, c, 0);
    assert s[1..] == u;
  }

  /** `s.rstrip(c)` of a text not ending with `c`, followed by `c`. */
  lemma RStripCharOne(u: string, c: char)
    requires u == [] || u[|u| - 1] != c
    ensures RStripChar(u + [c], c) == u
  {
    var s := u + [c];
    var n := CharsBefore(s, c, |s|);
    assert s[..|u|] == u;
  }

  /** `int()` reads back what `std::to_string` writes. */
  lemma PyIntOfDecimal(n: int)
    ensures PyInt(IntToString(n)) == Some(n)
  {
    assert "" + IntToString(n) + "" == IntToString(n);
    PyIntOfIntToString("", n, "");
  }

  /** The decimal text of a number holds only digits and a leading minus sign, and no whitespace. */
  lemma DecimalIsPlain(n: int)
    ensures var t := IntToString(n);
      t != [] && !IsSpace(t[0]) && !IsSpace(t[|t| - 1])
      && forall i :: 0 <= i < |t| ==> t[i] == '-' || IsDigit(t[i])
  {
    IntToStringShape(n);
    var t := IntToString(n);
    if n < 0 {
      assert forall i :: 1 <= i < |t| ==> t[i] == t[1..][i - 1];
    }
  }

  /** `int()` reads back what `std::to_string` writes, whitespace around it allowed. */
  lemma PyIntOfIntToString(pre: string, n: int, post: string)
    requires AllSpace(pre) && AllSpace(post)
    ensures PyInt(pre + IntToString(n) + post) == Some(n)
  {
    var t := IntToString(n);
    var m: nat := if n < 0 then -n else n;
    var digits := NatToString(m);
    NatToStringDigits(m);
    assert t == if n < 0 then "-" + digits else digits;
    assert !IsSpace(t[0]) && !IsSpace(t[|t| - 1]);
    StripPadded(pre, t, post);
    assert digits == if t[0] == '-' || t[0] == '+' then t[1..] else t;
    DigitsAreDigitText(digits);
    DropNoUnderscores(digits);
    DigitsValueOfNatToString(m);
  }
}
