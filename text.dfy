/** The Rust `str` operations the Gherkin parsers rely on, over strings as
    sequences of Unicode scalar values: whitespace classes, trimming,
    prefix tests, ASCII lower-casing, splitting on a character, `lines()`
    and `replace`. */
module Text {

  /** `char::is_whitespace`: the Unicode White_Space property. */
  predicate IsWhitespace(c: char) {
    var n := c as int;
    (9 <= n <= 13) || n == 0x20 || n == 0x85 || n == 0xA0 || n == 0x1680
    || (0x2000 <= n <= 0x200A) || n == 0x2028 || n == 0x2029
    || n == 0x202F || n == 0x205F || n == 0x3000
  }

  /** `char::is_ascii_whitespace`: space, tab, line feed, form feed and
      carriage return (vertical tab is not included). */
  predicate IsAsciiWhitespace(c: char) {
    var n := c as int;
    n == 0x20 || n == 9 || n == 10 || n == 12 || n == 13
  }

  predicate StartsWith(s: string, prefix: string) {
    |prefix| <= |s| && s[..|prefix|] == prefix
  }

  predicate EndsWith(s: string, suffix: string) {
    |suffix| <= |s| && s[|s| - |suffix|..] == suffix
  }

  /** The number of whitespace characters `str::trim_start` drops. */
  function LeadingWhitespace(s: string): (n: nat)
    ensures n <= |s|
    ensures forall i :: 0 <= i < n ==> IsWhitespace(s[i])
    ensures n < |s| ==> !IsWhitespace(s[n])
  {
    if s != [] && IsWhitespace(s[0]) then 1 + LeadingWhitespace(s[1..]) else 0
  }

  /** The number of whitespace characters `str::trim_end` drops. */
  function TrailingWhitespace(s: string): (n: nat)
    ensures n <= |s|
    ensures forall i :: |s| - n <= i < |s| ==> IsWhitespace(s[i])
    ensures n < |s| ==> !IsWhitespace(s[|s| - n - 1])
  {
    if s != [] && IsWhitespace(s[|s| - 1]) then 1 + TrailingWhitespace(s[..|s| - 1]) else 0
  }

  /** `str::trim_start`: drops leading whitespace. */
  function TrimStart(s: string): string {
    if s != [] && IsWhitespace(s[0]) then TrimStart(s[1..]) else s
  }

  /** `str::trim_end`: drops trailing whitespace. */
  function TrimEnd(s: string): string {
    if s != [] && IsWhitespace(s[|s| - 1]) then TrimEnd(s[..|s| - 1]) else s
  }

  /** `str::trim`: drops whitespace at both ends. */
  function Trim(s: string): string {
    TrimEnd(TrimStart(s))
  }

  /** `trim_start` drops exactly the leading whitespace: what is left is the
      end of the text and does not start with whitespace. */
  lemma {:induction false} TrimStartSlice(s: string)
    ensures TrimStart(s) == s[LeadingWhitespace(s)..]
    ensures TrimStart(s) == [] || !IsWhitespace(TrimStart(s)[0])
  {
    if s != [] && IsWhitespace(s[0]) {
      TrimStartSlice(s[1..]);
      assert s[1..][LeadingWhitespace(s[1..])..] == s[1 + LeadingWhitespace(s[1..])..];
    }
  }

  /** `trim_end` drops exactly the trailing whitespace. */
  lemma {:induction false} TrimEndSlice(s: string)
    ensures TrimEnd(s) == s[..|s| - TrailingWhitespace(s)]
    ensures TrimEnd(s) == [] || !IsWhitespace(TrimEnd(s)[|TrimEnd(s)| - 1])
  {
    if s != [] && IsWhitespace(s[|s| - 1]) {
      TrimEndSlice(s[..|s| - 1]);
      var t := s[..|s| - 1];
      assert t[..|t| - TrailingWhitespace(t)] == s[..|s| - 1 - TrailingWhitespace(t)];
    }
  }

  /** `trim` leaves no whitespace at either end and never grows the text. */
  lemma TrimFacts(s: string)
    ensures |Trim(s)| <= |s|
    ensures Trim(s) == [] || (!IsWhitespace(Trim(s)[0]) && !IsWhitespace(Trim(s)[|Trim(s)| - 1]))
  {
    TrimStartSlice(s);
    var t := TrimStart(s);
    TrimEndSlice(t);
    if TrimEnd(t) != [] {
      assert TrimEnd(t)[0] == t[0];
    }
  }

  /** `char::to_ascii_lowercase`. */
  function LowerChar(c: char): char {
    if 'A' <= c <= 'Z' then (c as int + 32) as char else c
  }

  /** `str::to_ascii_lowercase`: only 'A'..'Z' change. */
  function Lower(s: string): (r: string)
    ensures |r| == |s|
    ensures forall i {:trigger r[i]} :: 0 <= i < |s| ==> r[i] == LowerChar(s[i])
  {
    seq(|s|, i requires 0 <= i < |s| => LowerChar(s[i]))
  }

  /** The characters `line.chars().take_while(|c| c.is_ascii_whitespace())`
      collects: the line's ASCII-whitespace indent. */
  function AsciiIndent(s: string): (r: string)
    ensures StartsWith(s, r)
    ensures forall i :: 0 <= i < |r| ==> IsAsciiWhitespace(r[i])
    ensures |r| < |s| ==> !IsAsciiWhitespace(s[|r|])
  {
    if s != [] && IsAsciiWhitespace(s[0]) then [s[0]] + AsciiIndent(s[1..]) else []
  }

  /** The same with `char::is_whitespace`. */
  function Indent(s: string): (r: string)
    ensures StartsWith(s, r)
    ensures forall i :: 0 <= i < |r| ==> IsWhitespace(r[i])
    ensures |r| < |s| ==> !IsWhitespace(s[|r|])
  {
    if s != [] && IsWhitespace(s[0]) then [s[0]] + Indent(s[1..]) else []
  }

  /** `str::split(sep)`: the pieces between separators, always at least one. */
  function Split(s: string, sep: char): (r: seq<string>)
    ensures |r| >= 1
  {
    if s == [] then [[]]
    else
      var rest := Split(s[1..], sep);
      if s[0] == sep then [[]] + rest else [[s[0]] + rest[0]] + rest[1..]
  }

  /** No piece contains the separator. */
  lemma {:induction false} SplitPiecesFree(s: string, sep: char)
    ensures forall i :: 0 <= i < |Split(s, sep)| ==> sep !in Split(s, sep)[i]
  {
    if s != [] {
      SplitPiecesFree(s[1..], sep);
    }
  }

  /** The pieces glued back together with the separator. */
  function Join(parts: seq<string>, sep: char): string
    requires |parts| >= 1
  {
    if |parts| == 1 then parts[0] else parts[0] + [sep] + Join(parts[1..], sep)
  }

  lemma {:induction false} JoinSplit(s: string, sep: char)
    ensures Join(Split(s, sep), sep) == s
  {
    if s != [] {
      JoinSplit(s[1..], sep);
      var rest := Split(s[1..], sep);
      if s[0] != sep && |rest| > 1 {
        assert Split(s, sep)[1..] == rest[1..];
      }
    }
  }

  lemma {:induction false} SplitAfterPiece(a: string, b: string, sep: char)
    requires sep !in a
    ensures Split(a + [sep] + b, sep) == [a] + Split(b, sep)
  {
    if a == [] {
      assert (a + [sep] + b)[1..] == b;
    } else {
      var s := a + [sep] + b;
      assert s[0] == a[0] && a[0] != sep;
      assert s[1..] == a[1..] + [sep] + b;
      SplitAfterPiece(a[1..], b, sep);
      assert [a[0]] + a[1..] == a;
    }
  }

  /** Splitting undoes joining pieces that do not contain the separator. */
  lemma {:induction false} SplitJoin(parts: seq<string>, sep: char)
    requires |parts| >= 1
    requires forall i :: 0 <= i < |parts| ==> sep !in parts[i]
    ensures Split(Join(parts, sep), sep) == parts
  {
    if |parts| == 1 {
      SplitNoSeparator(parts[0], sep);
    } else {
      var rest := Join(parts[1..], sep);
      assert Split(rest, sep) == parts[1..] by {
        SplitJoin(parts[1..], sep);
      }
      assert Split(Join(parts, sep), sep) == [parts[0]] + Split(rest, sep) by {
        SplitAfterPiece(parts[0], rest, sep);
      }
      assert parts == [parts[0]] + parts[1..];
    }
  }

  lemma {:induction false} SplitNoSeparator(s: string, sep: char)
    requires sep !in s
    ensures Split(s, sep) == [s]
  {
    if s != [] {
      SplitNoSeparator(s[1..], sep);
      assert [s[0]] + s[1..] == s;
    }
  }

  /** A line without its `\r`, if the line ended in "\r\n". */
  function StripCr(s: string): string {
    if s != [] && s[|s| - 1] == '\r' then s[..|s| - 1] else s
  }

  /** `str::lines()`: split at '\n', drop a '\r' that came before the '\n',
      and yield no final empty line after a terminating '\n'. */
  function Lines(text: string): (r: seq<string>)
    ensures text == [] <==> r == []
  {
    var pieces := Split(text, '\n');
    var n := |pieces| - 1;
    assert text != [] ==> Join(pieces, '\n') != [] by { JoinSplit(text, '\n'); }
    seq(n, i requires 0 <= i < n => StripCr(pieces[i]))
      + (if pieces[n] == [] then [] else [pieces[n]])
  }

  /** Lines, each followed by "\n". */
  function Unlines(ls: seq<string>): string {
    if ls == [] then [] else ls[0] + "\n" + Unlines(ls[1..])
  }

  lemma {:induction false} SplitUnlines(ls: seq<string>)
    requires forall i :: 0 <= i < |ls| ==> '\n' !in ls[i]
    ensures Split(Unlines(ls), '\n') == ls + [[]]
  {
    if ls != [] {
      SplitUnlines(ls[1..]);
      SplitAfterPiece(ls[0], Unlines(ls[1..]), '\n');
      assert ls[0] + "\n" + Unlines(ls[1..]) == ls[0] + ['\n'] + Unlines(ls[1..]);
    }
  }

  /** `lines()` recovers every line of a text written line by line. */
  lemma LinesUnlines(ls: seq<string>)
    requires forall i :: 0 <= i < |ls| ==> '\n' !in ls[i] && StripCr(ls[i]) == ls[i]
    ensures Lines(Unlines(ls)) == ls
  {
    SplitUnlines(ls);
  }

  /** Concatenation of a sequence of strings with no separator. */
  function Concat(ss: seq<string>): (r: string)
  {
    if ss == [] then [] else ss[0] + Concat(ss[1..])
  }

  predicate OccursAt(s: string, pattern: string, i: nat) {
    i + |pattern| <= |s| && s[i..i + |pattern|] == pattern
  }

  ghost predicate Contains(s: string, pattern: string) {
    exists i: nat :: OccursAt(s, pattern, i)
  }

  /** `str::replace`: every non-overlapping occurrence of `from`, scanning
      left to right, is replaced by `to`. */
  function Replace(s: string, from: string, to: string): string
    requires from != []
  {
    if |s| < |from| then s
    else if s[..|from|] == from then to + Replace(s[|from|..], from, to)
    else [s[0]] + Replace(s[1..], from, to)
  }

  /** Replacing a pattern that does not occur changes nothing. */
  lemma {:induction false} ReplaceAbsent(s: string, from: string, to: string)
    requires from != [] && !Contains(s, from)
    ensures Replace(s, from, to) == s
  {
    if |s| >= |from| {
      assert !OccursAt(s, from, 0);
      assert s[..|from|] != from;
      forall i: nat | OccursAt(s[1..], from, i) ensures false {
        assert s[1..][i..i + |from|] == s[i + 1..i + 1 + |from|];
        assert OccursAt(s, from, i + 1);
      }
      ReplaceAbsent(s[1..], from, to);
    }
  }

  /** A text starting with the pattern has it replaced first. */
  lemma ReplaceAtStart(s: string, from: string, to: string)
    requires from != []
    ensures Replace(from + s, from, to) == to + Replace(s, from, to)
  {
    assert (from + s)[..|from|] == from;
    assert (from + s)[|from|..] == s;
  }

  /** A leading character that cannot begin the pattern is kept. */
  lemma {:induction false} ReplaceKeepsPrefix(p: string, s: string, from: string, to: string)
    requires from != []
    requires forall i :: 0 <= i < |p| ==> p[i] != from[0]
    ensures Replace(p + s, from, to) == p + Replace(s, from, to)
  {
    if p == [] {
      assert p + s == s;
    } else {
      var rest := p[1..] + s;
      assert p + s == [p[0]] + rest;
      assert !StartsWith([p[0]] + rest, from) by {
        assert ([p[0]] + rest)[0] == p[0];
      }
      ReplaceSkipsMismatch(p[0], rest, from, to);
      ReplaceKeepsPrefix(p[1..], s, from, to);
      assert [p[0]] + (p[1..] + Replace(s, from, to)) == p + Replace(s, from, to);
    }
  }

  /** A text not starting with the pattern keeps its first character. */
  lemma ReplaceSkipsMismatch(c: char, s: string, from: string, to: string)
    requires from != [] && !StartsWith([c] + s, from)
    ensures Replace([c] + s, from, to) == [c] + Replace(s, from, to)
  {
    var t := [c] + s;
    assert t[1..] == s;
    if |t| < |from| {
      ReplaceShort(s, from, to);
    }
  }

  lemma ReplaceShort(s: string, from: string, to: string)
    requires from != [] && |s| < |from|
    ensures Replace(s, from, to) == s
  {
  }
}
