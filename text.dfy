/** Python string primitives used by both scripts, with the exceptions they
    raise modelled as a `Fault` inside a `Result`. */
module Text {

  datatype Option<+T> = None | Some(value: T)

  /** The Python exception a failing operation raises; any of them aborts the run. */
  datatype Fault =
    | AssertionError
    | IndexError
    | ValueError
    | TypeError
    | KeyError
    | AttributeError

  datatype Result<+T> = Ok(value: T) | Err(fault: Fault)

  /** `s.find(c, start)` for `start >= 0`: the lowest index at or after `start`
      holding `c`, or -1. */
  function Find(s: string, c: char, start: nat): (r: int)
    ensures -1 <= r < |s|
    ensures r >= 0 ==> start <= r && s[r] == c
    decreases |s| - start
  {
    if start >= |s| then -1
    else if s[start] == c then start
    else Find(s, c, start + 1)
  }

  /** `find` gives the first occurrence at or after `start`, and -1 only
      when there is none. */
  lemma {:induction false} FindMeans(s: string, c: char, start: nat)
    ensures var r := Find(s, c, start);
      && (r >= 0 ==> forall i :: start <= i < r ==> s[i] != c)
      && (r == -1 ==> forall i :: start <= i < |s| ==> s[i] != c)
    decreases |s| - start
  {
    if start < |s| && s[start] != c {
      FindMeans(s, c, start + 1);
    }
  }

  /** `s.split(c)`: the pieces between the occurrences of `c`. */
  function Split(s: string, c: char): (r: seq<string>)
    ensures |r| >= 1
    ensures forall i :: 0 <= i < |r| ==> c !in r[i]
    decreases |s|
  {
    var i := Find(s, c, 0);
    FindMeans(s, c, 0);
    if i < 0 then [s] else [s[..i]] + Split(s[i + 1..], c)
  }

  /** `c.join(parts)`. */
  function Join(parts: seq<string>, c: char): string
  {
    if |parts| == 0 then ""
    else if |parts| == 1 then parts[0]
    else parts[0] + [c] + Join(parts[1..], c)
  }

  /** Number of occurrences of `c` in `s`. */
  function Occurrences(s: string, c: char): nat
  {
    if s == [] then 0 else (if s[|s| - 1] == c then 1 else 0) + Occurrences(s[..|s| - 1], c)
  }

  /** `s.replace(c, '')`. */
  function RemoveAll(s: string, c: char): (r: string)
    ensures c !in r
  {
    if s == [] then [] else RemoveAll(s[..|s| - 1], c) + (if s[|s| - 1] == c then [] else [s[|s| - 1]])
  }

  /** `s.startswith(p)`, also what `s[:len(p)] == p` tests. */
  predicate StartsWith(s: string, p: string)
  {
    |p| <= |s| && s[..|p|] == p
  }

  /** Python's clamped slice `s[i:j]` for non-negative bounds. */
  function Slice(s: string, i: nat, j: nat): (r: string)
    ensures |r| <= |s|
    ensures i <= j <= |s| ==> r == s[i..j]
  {
    var hi := if j <= |s| then j else |s|;
    if i >= hi then "" else s[i..hi]
  }

  /** Python's clamped `s[i:]`. */
  function Drop(s: string, i: nat): (r: string)
    ensures i <= |s| ==> r == s[i..]
    ensures i >= |s| ==> r == ""
  {
    if i >= |s| then "" else s[i..]
  }

  /** `c.isdigit()` restricted to ASCII. */
  predicate IsDigit(c: char)
  {
    '0' <= c <= '9'
  }

  /** `c.isspace()`: the characters Python counts as white space. */
  predicate IsSpace(c: char)
  {
    || '\t' <= c <= '\r'
    || '\U{1c}' <= c <= ' '
    || c == '\U{85}' || c == '\U{a0}' || c == '\U{1680}'
    || '\U{2000}' <= c <= '\U{200a}'
    || c == '\U{2028}' || c == '\U{2029}' || c == '\U{202f}' || c == '\U{205f}' || c == '\U{3000}'
  }

  /** Text written as a sequence of newline-terminated lines. */
  function Unlines(lines: seq<string>): string
  {
    if lines == [] then "" else lines[0] + "\n" + Unlines(lines[1..])
  }

  /** A character that ends a line when a file is read in text mode with
      universal newlines. */
  predicate IsLineEnd(c: char)
  {
    c == '\n' || c == '\r'
  }

  /** The index of the first line end in `s`, or `|s|` when there is none. */
  function LineEnd(s: string): (n: nat)
    ensures n <= |s|
    ensures forall j :: 0 <= j < n ==> !IsLineEnd(s[j])
    ensures n < |s| ==> IsLineEnd(s[n])
  {
    if s == [] || IsLineEnd(s[0]) then 0 else 1 + LineEnd(s[1..])
  }

  /** The lines a Python text-file iteration with universal newlines yields,
      each without its terminator: a line ends at `\n`, at `\r\n` or at a
      lone `\r`, and a last line without a terminator is yielded as it is. */
  function SplitLines(text: string): seq<string>
    decreases |text|
  {
    if text == [] then []
    else
      var i := LineEnd(text);
      if i == |text| then [text]
      else if text[i] == '\r' && i + 1 < |text| && text[i + 1] == '\n' then
        [text[..i]] + SplitLines(text[i + 2..])
      else [text[..i]] + SplitLines(text[i + 1..])
  }

  /** No line holds a character that would end it early. */
  predicate NoNewline(lines: seq<string>)
  {
    forall i :: 0 <= i < |lines| ==> '\n' !in lines[i] && '\r' !in lines[i]
  }

  lemma {:induction false} SplitUnlines(lines: seq<string>, rest: string)
    requires NoNewline(lines)
    ensures SplitLines(Unlines(lines) + rest) == lines + SplitLines(rest)
    decreases |lines|
  {
    if lines == [] {
      assert Unlines(lines) + rest == rest;
    } else {
      var head, more := lines[0], lines[1..];
      NoNewlineTail(lines);
      var tail := Unlines(more) + rest;
      calc {
        SplitLines(Unlines(lines) + rest);
        { UnlinesCons(lines, rest); }
        SplitLines(head + "\n" + tail);
        { SplitLinesCons(head, tail); }
        [head] + SplitLines(tail);
        { SplitUnlines(more, rest); }
        [head] + (more + SplitLines(rest));
        { assert lines == [head] + more; }
        lines + SplitLines(rest);
      }
    }
  }

  lemma UnlinesCons(lines: seq<string>, rest: string)
    requires lines != []
    ensures Unlines(lines) + rest == lines[0] + "\n" + (Unlines(lines[1..]) + rest)
  {
  }

  lemma NoNewlineTail(lines: seq<string>)
    requires NoNewline(lines) && lines != []
    ensures '\n' !in lines[0] && '\r' !in lines[0] && NoNewline(lines[1..])
  {
    forall i | 0 <= i < |lines[1..]| ensures '\n' !in lines[1..][i] && '\r' !in lines[1..][i] {
      assert lines[1..][i] == lines[i + 1];
    }
  }

  /** A line followed by a newline is the first line the iteration yields. */
  lemma SplitLinesCons(a: string, b: string)
    requires '\n' !in a && '\r' !in a
    ensures SplitLines(a + "\n" + b) == [a] + SplitLines(b)
  {
    var t := a + "\n" + b;
    var n := LineEnd(t);
    assert forall j :: 0 <= j < |a| ==> t[j] == a[j];
    assert IsLineEnd(t[|a|]);
    assert n == |a|;
    assert t[..|a|] == a;
    assert t[|a| + 1..] == b;
  }

  /** A lone `\r`, and `\r\n`, also end a line: the text after them starts
      the next line. */
  lemma SplitLinesCr(a: string, b: string)
    requires '\n' !in a && '\r' !in a
    ensures b == [] || b[0] != '\n' ==> SplitLines(a + "\r" + b) == [a] + SplitLines(b)
    ensures SplitLines(a + "\r\n" + b) == [a] + SplitLines(b)
  {
    var t := a + "\r" + b;
    assert forall j :: 0 <= j < |a| ==> t[j] == a[j];
    assert IsLineEnd(t[|a|]);
    assert LineEnd(t) == |a|;
    assert t[..|a|] == a;
    assert t[|a| + 1..] == b;
    var u := a + "\r\n" + b;
    assert forall j :: 0 <= j < |a| ==> u[j] == a[j];
    assert IsLineEnd(u[|a|]);
    assert LineEnd(u) == |a|;
    assert u[..|a|] == a;
    assert u[|a| + 2..] == b;
  }

  /** Text as written to a file opened with `newline="\r\n"`: every `\n`
      goes out as `\r\n`. */
  function Crlf(text: string): string
  {
    if text == [] then [] else (if text[0] == '\n' then "\r\n" else [text[0]]) + Crlf(text[1..])
  }

  lemma {:induction false} CrlfAppend(a: string, b: string)
    ensures Crlf(a + b) == Crlf(a) + Crlf(b)
    decreases |a|
  {
    if a == [] {
      assert a + b == b;
    } else {
      assert (a + b)[0] == a[0];
      assert (a + b)[1..] == a[1..] + b;
      CrlfAppend(a[1..], b);
    }
  }

  lemma {:induction false} CrlfPlain(a: string)
    requires '\n' !in a
    ensures Crlf(a) == a
    decreases |a|
  {
    if a != [] {
      assert '\n' !in a[1..] by {
        forall j | 0 <= j < |a[1..]| ensures a[1..][j] != '\n' {
          assert a[1..][j] == a[j + 1];
        }
      }
      CrlfPlain(a[1..]);
      assert a == [a[0]] + a[1..];
    }
  }

  /** Lines written with `\r\n` line ends are read back as the same lines. */
  lemma {:induction false} SplitCrlfUnlines(lines: seq<string>)
    requires NoNewline(lines)
    ensures SplitLines(Crlf(Unlines(lines))) == lines
    decreases |lines|
  {
    if lines != [] {
      var head, more := lines[0], lines[1..];
      NoNewlineTail(lines);
      var tail := Crlf(Unlines(more));
      calc {
        Crlf(Unlines(lines));
        Crlf(head + "\n" + Unlines(more));
        { CrlfAppend(head + "\n", Unlines(more)); CrlfAppend(head, "\n"); CrlfPlain(head); }
        head + "\r\n" + tail;
      }
      calc {
        SplitLines(Crlf(Unlines(lines)));
        { SplitLinesCr(head, tail); }
        [head] + SplitLines(tail);
        { SplitCrlfUnlines(more); }
        [head] + more;
        { assert lines == [head] + more; }
        lines;
      }
    }
  }

  lemma {:induction false} UnlinesAppend(a: seq<string>, b: seq<string>)
    ensures Unlines(a + b) == Unlines(a) + Unlines(b)
    decreases |a|
  {
    if a == [] {
      assert a + b == b;
    } else {
      assert (a + b)[0] == a[0];
      assert (a + b)[1..] == a[1..] + b;
      UnlinesAppend(a[1..], b);
      calc {
        Unlines(a + b);
        a[0] + "\n" + Unlines(a[1..] + b);
        a[0] + "\n" + (Unlines(a[1..]) + Unlines(b));
        (a[0] + "\n" + Unlines(a[1..])) + Unlines(b);
      }
    }
  }

  /** Splitting and joining on the same separator are inverse. */
  lemma {:induction false} JoinSplit(s: string, c: char)
    ensures Join(Split(s, c), c) == s
    decreases |s|
  {
    var i := Find(s, c, 0);
    if i >= 0 {
      JoinSplit(s[i + 1..], c);
      assert s == s[..i] + [c] + s[i + 1..];
    }
  }

  lemma {:induction false} SplitJoin(parts: seq<string>, c: char)
    requires |parts| >= 1
    requires forall i :: 0 <= i < |parts| ==> c !in parts[i]
    ensures Split(Join(parts, c), c) == parts
    decreases |parts|
  {
    if |parts| == 1 {
      assert Find(parts[0], c, 0) == -1;
    } else {
      var s := Join(parts, c);
      assert s == parts[0] + [c] + Join(parts[1..], c);
      FindSeparator(parts[0], c, Join(parts[1..], c));
      assert s[..|parts[0]|] == parts[0];
      assert s[|parts[0]| + 1..] == Join(parts[1..], c);
      SplitJoin(parts[1..], c);
    }
  }

  lemma FindSeparator(a: string, c: char, b: string)
    requires c !in a
    ensures Find(a + [c] + b, c, 0) == |a|
  {
    var t := a + [c] + b;
    FindMeans(t, c, 0);
    assert forall i :: 0 <= i < |a| ==> t[i] == a[i];
    assert t[|a|] == c;
  }

  /** The number of pieces `split` yields is one more than the separators. */
  lemma {:induction false} SplitCount(s: string, c: char)
    ensures |Split(s, c)| == Occurrences(s, c) + 1
    decreases |s|
  {
    var i := Find(s, c, 0);
    FindMeans(s, c, 0);
    if i < 0 {
      NoOccurrences(s, c);
    } else {
      SplitCount(s[i + 1..], c);
      OccurrencesAppend(s[..i], [c] + s[i + 1..], c);
      OccurrencesAppend([c], s[i + 1..], c);
      assert s == s[..i] + ([c] + s[i + 1..]);
      NoOccurrences(s[..i], c);
      assert Occurrences([c], c) == 1 by {
        assert [c][..0] == [];
      }
    }
  }

  lemma {:induction false} NoOccurrences(s: string, c: char)
    requires c !in s
    ensures Occurrences(s, c) == 0
    decreases |s|
  {
    if s != [] {
      NoOccurrences(s[..|s| - 1], c);
    }
  }

  lemma {:induction false} OccurrencesAppend(a: string, b: string, c: char)
    ensures Occurrences(a + b, c) == Occurrences(a, c) + Occurrences(b, c)
    decreases |b|
  {
    if b == [] {
      assert a + b == a;
    } else {
      assert (a + b)[..|a + b| - 1] == a + b[..|b| - 1];
      OccurrencesAppend(a, b[..|b| - 1], c);
    }
  }

  lemma {:induction false} RemoveAllAbsent(s: string, c: char)
    requires c !in s
    ensures RemoveAll(s, c) == s
    decreases |s|
  {
    if s != [] {
      RemoveAllAbsent(s[..|s| - 1], c);
    }
  }

  lemma {:induction false} RemoveAllAppend(a: string, b: string, c: char)
    ensures RemoveAll(a + b, c) == RemoveAll(a, c) + RemoveAll(b, c)
    decreases |b|
  {
    if b == [] {
      assert a + b == a;
    } else {
      assert (a + b)[..|a + b| - 1] == a + b[..|b| - 1];
      RemoveAllAppend(a, b[..|b| - 1], c);
    }
  }

  /** The joined text starts with the first part. */
  lemma JoinFirst(parts: seq<string>, c: char)
    requires |parts| >= 1
    ensures |parts[0]| <= |Join(parts, c)| && Join(parts, c)[..|parts[0]|] == parts[0]
  {
    if |parts| > 1 {
      assert Join(parts, c) == parts[0] + ([c] + Join(parts[1..], c));
    }
  }

  /** No occurrence from `a` on means none from any later `b` either. */
  lemma FindNoneLater(s: string, c: char, a: nat, b: nat)
    requires a <= b && Find(s, c, a) < 0
    ensures Find(s, c, b) < 0
  {
    FindMeans(s, c, a);
  }

  lemma {:induction false} JoinSnoc(parts: seq<string>, x: string, c: char)
    requires |parts| >= 1
    ensures Join(parts + [x], c) == Join(parts, c) + [c] + x
    decreases |parts|
  {
    if |parts| > 1 {
      assert (parts + [x])[1..] == parts[1..] + [x];
      JoinSnoc(parts[1..], x, c);
    }
  }
}
