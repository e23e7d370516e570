/** The Python `str` operations the two scripts use, over `string`.
    Whitespace is the ASCII part of what `str.isspace()` accepts; `\s` in a
    regular expression on a `str` uses the same set. */
module PyStr {

  predicate IsSpace(c: char) {
    c == ' ' || c == '\t' || c == '\n' || c == '\r' || c == '\U{B}' || c == '\U{C}'
    || ('\U{1C}' <= c <= '\U{1F}')
  }

  ghost predicate AllSpace(s: string) {
    forall k :: 0 <= k < |s| ==> IsSpace(s[k])
  }

  /** `s.startswith(prefix)` */
  predicate StartsWith(s: string, prefix: string) {
    |prefix| <= |s| && s[..|prefix|] == prefix
  }

  /** `s.endswith(suffix)` */
  predicate EndsWith(s: string, suffix: string) {
    |suffix| <= |s| && s[|s| - |suffix|..] == suffix
  }

  /** `s.lstrip()`: the suffix left after dropping leading whitespace. */
  function LStrip(s: string): (r: string)
    ensures |r| <= |s| && r == s[|s| - |r|..]
    ensures AllSpace(s[..|s| - |r|])
    ensures r == [] || !IsSpace(r[0])
  {
    if s != [] && IsSpace(s[0]) then LStrip(s[1..]) else s
  }

  /** `s.rstrip()`: the prefix left after dropping trailing whitespace. */
  function RStrip(s: string): (r: string)
    ensures |r| <= |s| && r == s[..|r|]
    ensures AllSpace(s[|r|..])
    ensures r == [] || !IsSpace(r[|r| - 1])
  {
    if s != [] && IsSpace(s[|s| - 1]) then RStrip(s[..|s| - 1]) else s
  }

  /** `s.strip()`: `s` without its leading and trailing whitespace. The result
      is the slice of `s` that starts where `LStrip` stops. */
  function Strip(s: string): (r: string)
    ensures r == [] || (!IsSpace(r[0]) && !IsSpace(r[|r| - 1]))
    ensures var i := |s| - |LStrip(s)|;
      i + |r| <= |s| && r == s[i..i + |r|] && AllSpace(s[..i]) && AllSpace(s[i + |r|..])
  {
    RStrip(LStrip(s))
  }

  /** A string strips to nothing exactly when it is all whitespace. */
  lemma StripEmpty(s: string)
    ensures Strip(s) == [] <==> AllSpace(s)
  {
    if Strip(s) == [] {
      assert LStrip(s) == [];
      assert s[..|s|] == s;
    }
  }

  /** A text with no whitespace at either end, followed by one whitespace
      character (a line with its newline), strips to that text. */
  lemma StripLine(t: string, ws: char)
    requires IsSpace(ws) && t != [] && !IsSpace(t[0]) && !IsSpace(t[|t| - 1])
    ensures Strip(t + [ws]) == t
  {
    var line := t + [ws];
    assert LStrip(line) == line by {
      assert line[0] == t[0];
    }
    assert RStrip(line) == RStrip(t) by {
      assert line[|line| - 1] == ws;
      assert line[..|line| - 1] == t;
    }
    assert RStrip(t) == t;
  }

  /** A line indented by one whitespace character strips to its text. */
  lemma StripIndented(ws: char, t: string)
    requires IsSpace(ws) && t != [] && !IsSpace(t[0]) && !IsSpace(t[|t| - 1])
    ensures Strip([ws] + t) == t
  {
    assert ([ws] + t)[1..] == t;
    assert LStrip(t) == t;
    assert RStrip(t) == t;
  }

  /** Stripping twice changes nothing. */
  lemma StripIdempotent(s: string)
    ensures Strip(Strip(s)) == Strip(s)
  {
    var r := Strip(s);
    if r != [] {
      assert LStrip(r) == r;
      assert RStrip(r) == r;
    }
  }

  /** `s.rstrip(c)`: the prefix left after dropping trailing copies of `c`. */
  function RStripChar(s: string, c: char): (r: string)
    ensures |r| <= |s| && r == s[..|r|]
    ensures forall k :: |r| <= k < |s| ==> s[k] == c
    ensures r == [] || r[|r| - 1] != c
  {
    if s != [] && s[|s| - 1] == c then RStripChar(s[..|s| - 1], c) else s
  }

  /** `s.find(c, start)`: the first index at or after `start` holding `c`, or -1. */
  function FindFrom(s: string, c: char, start: nat): (r: int)
    ensures r == -1 || (start <= r < |s| && s[r] == c)
    ensures forall k :: start <= k < |s| && (r == -1 || k < r) ==> s[k] != c
    decreases |s| - start
  {
    if start >= |s| then -1
    else if s[start] == c then start
    else FindFrom(s, c, start + 1)
  }

  /** The index `find` reports is the first occurrence, whichever way it is reached. */
  lemma FindFromIs(s: string, c: char, start: nat, i: nat)
    requires start <= i < |s| && s[i] == c
    requires forall k :: start <= k < i ==> s[k] != c
    ensures FindFrom(s, c, start) == i
  {
  }

  /** `s.rfind(c)`: the last index holding `c`, or -1. */
  function RFind(s: string, c: char): (r: int)
    ensures -1 <= r < |s|
    ensures r >= 0 ==> s[r] == c
    ensures forall k :: r < k < |s| ==> s[k] != c
  {
    if s == [] then -1
    else if s[|s| - 1] == c then |s| - 1
    else RFind(s[..|s| - 1], c)
  }

  /** `s.replace(a, b)` for single characters. */
  function ReplaceChar(s: string, a: char, b: char): (r: string)
    ensures |r| == |s|
    ensures forall k :: 0 <= k < |s| ==> r[k] == (if s[k] == a then b else s[k])
  {
    if s == [] then [] else [if s[0] == a then b else s[0]] + ReplaceChar(s[1..], a, b)
  }

  /** `needle in hay` for two strings. */
  predicate IsSubstring(needle: string, hay: string)
    decreases |hay|
  {
    StartsWith(hay, needle) || (hay != [] && IsSubstring(needle, hay[1..]))
  }

  /** The parts joined back with the separator, as `sep.join(parts)`. */
  function JoinWith(parts: seq<string>, sep: char): string
  {
    if parts == [] then []
    else if |parts| == 1 then parts[0]
    else parts[0] + [sep] + JoinWith(parts[1..], sep)
  }

  /** `s.split(sep)` for a one-character separator: the pieces between the
      separators, which join back to `s`; there is one more piece than
      separators, so at least two exactly when `sep` occurs. */
  function Split(s: string, sep: char): (r: seq<string>)
    ensures |r| >= 1
    ensures forall k :: 0 <= k < |r| ==> sep !in r[k]
    ensures JoinWith(r, sep) == s
    ensures sep in s <==> |r| >= 2
    decreases |s|
  {
    var i := FindFrom(s, sep, 0);
    if i == -1 then [s]
    else
      var rest := Split(s[i + 1..], sep);
      assert sep !in s[..i] by {
        forall k | 0 <= k < i ensures s[..i][k] != sep { assert s[..i][k] == s[k]; }
      }
      assert s == s[..i] + [sep] + s[i + 1..];
      [s[..i]] + rest
  }

  /** The first piece of a split is the text before the first separator. */
  lemma SplitFirst(s: string, sep: char)
    ensures var f := Split(s, sep)[0];
      StartsWith(s, f) && sep !in f && (|f| == |s| || s[|f|] == sep)
  {
    var i := FindFrom(s, sep, 0);
    if i != -1 {
      assert Split(s, sep)[0] == s[..i];
    }
  }

  /** The second piece of a split is the text between the first and the second
      separator (or the end of the string). */
  lemma {:induction false} SplitSecond(s: string, sep: char, i: nat)
    requires i < |s| && s[i] == sep
    requires forall k :: 0 <= k < i ==> s[k] != sep
    ensures |Split(s, sep)| >= 2
    ensures var f := Split(s, sep)[1];
      StartsWith(s[i + 1..], f) && sep !in f && (i + 1 + |f| == |s| || s[i + 1 + |f|] == sep)
  {
    FindFromIs(s, sep, 0, i);
    assert Split(s, sep)[1] == Split(s[i + 1..], sep)[0];
    SplitFirst(s[i + 1..], sep);
  }

  /** Concatenation of a sequence of strings. */
  function Concat(parts: seq<string>): string
  {
    if parts == [] then [] else parts[0] + Concat(parts[1..])
  }

  /** Iterating over a file opened in text mode: the text cut after every '\n'. */
  function ReadLines(text: string): (lines: seq<string>)
    decreases |text|
  {
    if text == [] then []
    else
      var i := FindFrom(text, '\n', 0);
      if i == -1 then [text] else [text[..i + 1]] + ReadLines(text[i + 1..])
  }

  /** The lines read from a text are the whole text, in order. */
  lemma {:induction false} ReadLinesConcat(text: string)
    ensures Concat(ReadLines(text)) == text
    decreases |text|
  {
    if text != [] {
      var i := FindFrom(text, '\n', 0);
      if i != -1 {
        ReadLinesStep(text, i);
        ReadLinesConcat(text[i + 1..]);
        assert text == text[..i + 1] + text[i + 1..];
      }
    }
  }

  /** Every line is non-empty and holds no '\n' except as its last character,
      and every line but the last ends with '\n'. */
  ghost predicate LinesShaped(lines: seq<string>) {
    && (forall k :: 0 <= k < |lines| ==> lines[k] != [] && '\n' !in lines[k][..|lines[k]| - 1])
    && (forall k :: 0 <= k < |lines| - 1 ==> lines[k][|lines[k]| - 1] == '\n')
  }

  /** The lines `readlines` returns are shaped as `LinesShaped` says. */
  lemma {:induction false} ReadLinesShape(text: string)
    ensures LinesShaped(ReadLines(text))
    decreases |text|
  {
    if text != [] {
      var i := FindFrom(text, '\n', 0);
      if i == -1 {
        assert forall k :: 0 <= k < |text| - 1 ==> text[..|text| - 1][k] == text[k];
        assert ReadLines(text) == [text];
      } else {
        var first := text[..i + 1];
        assert ReadLines(text) == [first] + ReadLines(text[i + 1..]) by {
          ReadLinesStep(text, i);
        }
        assert '\n' !in first[..|first| - 1] by {
          assert forall k :: 0 <= k < i ==> first[..|first| - 1][k] == text[k];
        }
        ReadLinesShape(text[i + 1..]);
        ShapedCons(first, ReadLines(text[i + 1..]));
      }
    }
  }

  /** A complete line in front of shaped lines keeps them shaped. */
  lemma ShapedCons(first: string, rest: seq<string>)
    requires first != [] && first[|first| - 1] == '\n' && '\n' !in first[..|first| - 1]
    requires LinesShaped(rest)
    ensures LinesShaped([first] + rest)
  {
    assert forall k :: 1 <= k < |rest| + 1 ==> ([first] + rest)[k] == rest[k - 1];
  }

  /** One step of `ReadLines`: the first line runs up to the first '\n'. */
  lemma ReadLinesStep(text: string, i: nat)
    requires i < |text| && text[i] == '\n'
    requires forall k :: 0 <= k < i ==> text[k] != '\n'
    ensures ReadLines(text) == [text[..i + 1]] + ReadLines(text[i + 1..])
  {
    FindFromIs(text, '\n', 0, i);
  }

  /** Reading `a + b` splits at the seam when `a` ends a line: the lines of
      the whole are the lines of `a` followed by the lines of `b`. */
  lemma {:induction false} ReadLinesAppend(a: string, b: string)
    requires a == [] || a[|a| - 1] == '\n'
    ensures ReadLines(a + b) == ReadLines(a) + ReadLines(b)
    decreases |a|
  {
    if a == [] {
      assert a + b == b;
    } else {
      var i := FindFrom(a, '\n', 0);
      assert 0 <= i < |a| by {
        assert a[|a| - 1] == '\n';
      }
      var rest := a[i + 1..];
      assert rest == [] || rest[|rest| - 1] == '\n' by {
        if rest != [] { assert rest[|rest| - 1] == a[|a| - 1]; }
      }
      var x, y, z := [a[..i + 1]], ReadLines(rest), ReadLines(b);
      assert ReadLines(a) == x + y && ReadLines(a + b) == x + ReadLines(rest + b) by {
        ReadLinesSeam(a, b, i);
      }
      assert ReadLines(rest + b) == y + z by {
        ReadLinesAppend(rest, b);
      }
      assert x + (y + z) == (x + y) + z;
    }
  }

  /** The first line of `a + b` is the first line of `a` when `a` holds a '\n'. */
  lemma ReadLinesSeam(a: string, b: string, i: int)
    requires i == FindFrom(a, '\n', 0) && i != -1
    ensures ReadLines(a) == [a[..i + 1]] + ReadLines(a[i + 1..])
    ensures ReadLines(a + b) == [a[..i + 1]] + ReadLines(a[i + 1..] + b)
  {
    ReadLinesStep(a, i);
    ReadLinesStep(a + b, i);
    assert (a + b)[..i + 1] == a[..i + 1];
    assert (a + b)[i + 1..] == a[i + 1..] + b;
  }

  /** A text holding a single '\n', at its end, reads as exactly one line. */
  lemma OneLine(line: string)
    requires line != [] && line[|line| - 1] == '\n' && '\n' !in line[..|line| - 1]
    ensures ReadLines(line) == [line]
  {
    var i := |line| - 1;
    forall k | 0 <= k < i ensures line[k] != '\n' { assert line[k] == line[..i][k]; }
    ReadLinesStep(line, i);
    assert line[..i + 1] == line;
    assert line[i + 1..] == [];
  }

  /** A text with a '\n' before its last character reads as two lines or more. */
  lemma InnerNewlineSplits(text: string, j: nat)
    requires j < |text| - 1 && text[j] == '\n'
    ensures |ReadLines(text)| >= 2
  {
    var lines := ReadLines(text);
    ReadLinesConcat(text);
    ReadLinesShape(text);
    if lines == [] {
      assert false;
    } else if |lines| == 1 {
      assert Concat(lines) == lines[0] + Concat([]);
      assert false;
    }
  }
}
