/** The oldest draft of the parser, gherkin/src/lib.rs: its keyword
    classifier and the `ParserInner` helpers, as functions of the input's
    lines and the cursor (the number of lines taken from the peekable
    `lines()` iterator). Its `make_error` ignores the line counter, which
    is never advanced, so errors carry only their kind. */
module LegacyGrammar {
  import opened Wrappers
  import opened Text
  import Kw = Keyword
  import Document

  datatype Keyword =
    | Feature | Example | Background | ScenarioOutline | Examples
    | Given | When | Then | And | But | Asterisk

  /** The six keywords that begin a step. */
  predicate IsStep(k: Keyword) {
    k in {Given, When, Then, And, But, Asterisk}
  }

  /** `Keyword::has_colon`: section keywords take a colon, step keywords
      never do. */
  predicate HasColon(k: Keyword)
    ensures HasColon(k) <==> !IsStep(k)
  {
    match k
    case Feature | Example | Background | ScenarioOutline | Examples => true
    case Given | When | Then | And | But | Asterisk => false
  }

  /** `Keyword::combinations` as written: the Examples spellings carry the
      colon that the colon check then looks for a second time. */
  const SpellingsAsWritten: seq<(Keyword, string)> := [
    (Examples, "examples:"),
    (Examples, "scenarios:"),
    (ScenarioOutline, "scenario outline"),
    (ScenarioOutline, "scenario template"),
    (Feature, "feature"),
    (Example, "example"),
    (Example, "scenario"),
    (Background, "background"),
    (Given, "given"),
    (When, "when"),
    (Then, "then"),
    (And, "and"),
    (But, "but"),
    (Asterisk, "*")
  ]

  /** The table corrected: the Examples spellings without the colon, as
      every other section keyword is spelled. */
  const Spellings: seq<(Keyword, string)> := [
    (Examples, "examples"),
    (Examples, "scenarios"),
    (ScenarioOutline, "scenario outline"),
    (ScenarioOutline, "scenario template"),
    (Feature, "feature"),
    (Example, "example"),
    (Example, "scenario"),
    (Background, "background"),
    (Given, "given"),
    (When, "when"),
    (Then, "then"),
    (And, "and"),
    (But, "but"),
    (Asterisk, "*")
  ]

  /** What `Keyword::parse` returns: the keyword, the rest of the line and
      whether a trailing colon was stripped from it. */
  datatype KwLine = KwLine(keyword: Keyword, rest: string, trailingColon: bool)

  /** The entry of `table` that decides a line, and the length of its
      spelling. */
  function Entry(table: seq<(Keyword, string)>, line: string): (r: Option<(Keyword, nat)>)
    ensures r.Some? ==> r.value.1 <= |line|
  {
    Kw.FirstMatchIsFirst(table, line, 0);
    match Kw.FirstMatch(table, line, 0)
    case None => None
    case Some(i) =>
      Kw.SpelledFromMeaning(line, table[i].1, 0);
      Some((table[i].0, |table[i].1|))
  }

  /** What the deciding entry makes of the line: a colon must follow the
      spelling exactly when the keyword takes one; the rest is trimmed at
      the start, and its last character is dropped when stripping is asked
      for and the rest, trimmed at the end, ends in a colon. */
  function Decide(line: string, entry: Option<(Keyword, nat)>, strip: bool): Option<KwLine>
    requires entry.Some? ==> entry.value.1 <= |line|
  {
    match entry
    case None => None
    case Some((keyword, n)) =>
      var leftover := line[n..];
      if HasColon(keyword) != StartsWith(leftover, ":") then None
      else
        var u := TrimStart(if HasColon(keyword) then leftover[1..] else leftover);
        if EndsWith(TrimEnd(u), ":") && strip && u != [] then Some(KwLine(keyword, u[..|u| - 1], true))
        else Some(KwLine(keyword, u, false))
  }

  /** `Keyword::parse` over a spelling table. */
  function ParseWith(table: seq<(Keyword, string)>, line: string, strip: bool): Option<KwLine> {
    Decide(line, Entry(table, line), strip)
  }

  /** `Keyword::parse` as written. */
  function ParseAsWritten(line: string, strip: bool): Option<KwLine> {
    ParseWith(SpellingsAsWritten, line, strip)
  }

  /** `Keyword::parse` with the corrected table. */
  function Parse(line: string, strip: bool): Option<KwLine> {
    ParseWith(Spellings, line, strip)
  }

  /** `u` ends in a colon once trailing whitespace is dropped. */
  lemma TrimEndColonNonEmpty(u: string)
    requires EndsWith(TrimEnd(u), ":")
    ensures u != []
  {
    TrimEndSlice(u);
  }

  /** The line classifies by the first spelling that starts it, ignoring
      ASCII case; it is refused when no spelling does or when colon
      placement disagrees with the keyword. */
  lemma ParseOutcome(table: seq<(Keyword, string)>, line: string, strip: bool)
    ensures ParseWith(table, line, strip).None? <==>
              (forall j :: 0 <= j < |table| ==> !StartsWith(Lower(line), table[j].1))
              || (Kw.FirstMatch(table, line, 0).Some? && Kw.FirstMatch(table, line, 0).value < |table|
                  && var i := Kw.FirstMatch(table, line, 0).value;
                     |table[i].1| <= |line| && HasColon(table[i].0) != StartsWith(line[|table[i].1|..], ":"))
    ensures ParseWith(table, line, strip).Some? ==>
              Kw.FirstMatch(table, line, 0).Some? && Kw.FirstMatch(table, line, 0).value < |table|
              && var i := Kw.FirstMatch(table, line, 0).value;
                 StartsWith(Lower(line), table[i].1)
                 && (forall j :: 0 <= j < i ==> !StartsWith(Lower(line), table[j].1))
                 && ParseWith(table, line, strip).value.keyword == table[i].0
  {
    Kw.FirstMatchIsFirst(table, line, 0);
    forall j | 0 <= j < |table| {
      Kw.SpelledAsStartsWith(line, table[j].1);
    }
    var e := Entry(table, line);
    if e.Some? {
      var (keyword, n) := e.value;
      var leftover := line[n..];
      if HasColon(keyword) == StartsWith(leftover, ":") {
        var u := TrimStart(if HasColon(keyword) then leftover[1..] else leftover);
        if EndsWith(TrimEnd(u), ":") {
          TrimEndColonNonEmpty(u);
        }
      }
    }
  }

  /** Stripping drops the last character of the rest when the rest, trimmed
      at the end, ends in a colon: that character is the colon only when no
      whitespace follows it. The flag is set exactly when a character was
      dropped, so without stripping it is never set. */
  lemma ParseTrailingColon(line: string, strip: bool)
    requires Parse(line, strip).Some?
    ensures var m := Parse(line, strip).value;
            var u := Parse(line, false).value.rest;
            Parse(line, false).Some? && Parse(line, false).value.keyword == m.keyword
            && (m.trailingColon <==> strip && EndsWith(TrimEnd(u), ":"))
            && (m.trailingColon ==> u != [] && m.rest == u[..|u| - 1])
            && (!m.trailingColon ==> m.rest == u)
  {
    var u := Parse(line, false).value.rest;
    if EndsWith(TrimEnd(u), ":") {
      TrimEndColonNonEmpty(u);
    }
  }

  /** As written, a line starting "Examples:" (in any case) is never a
      keyword line unless a second colon follows: the colon is consumed by
      the spelling and then demanded again. */
  lemma ExamplesRefusedAsWritten(line: string, strip: bool)
    requires StartsWith(Lower(line), "examples:")
    requires !StartsWith(line[9..], ":")
    ensures ParseAsWritten(line, strip).None?
  {
    Kw.SpelledAsStartsWith(line, "examples:");
    assert Entry(SpellingsAsWritten, line) == Some((Examples, 9));
  }

  /** The same for "Scenarios:". */
  lemma ScenariosRefusedAsWritten(line: string, strip: bool)
    requires StartsWith(Lower(line), "scenarios:")
    requires !StartsWith(line[10..], ":")
    ensures ParseAsWritten(line, strip).None?
  {
    assert Lower(line)[0] == 's';
    Kw.SpelledAsStartsWith(line, "examples:");
    Kw.SpelledAsStartsWith(line, "scenarios:");
    assert Entry(SpellingsAsWritten, line) == Some((Examples, 10));
  }

  /** With the corrected table, such a line is an Examples line. */
  lemma ExamplesAccepted(line: string, strip: bool)
    requires StartsWith(Lower(line), "examples:")
    ensures Parse(line, strip).Some? && Parse(line, strip).value.keyword == Examples
  {
    PrefixStartsWith(Lower(line), "examples", ":");
    Kw.SpelledAsStartsWith(line, "examples");
    EntryAt(Spellings, line, 0);
    ColonFollows(line, 8);
    DecideColon(line, Examples, 8, strip);
  }

  /** And so is a "Scenarios:" line. */
  lemma ScenariosAccepted(line: string, strip: bool)
    requires StartsWith(Lower(line), "scenarios:")
    ensures Parse(line, strip).Some? && Parse(line, strip).value.keyword == Examples
  {
    assert Lower(line)[0] == 's';
    Kw.SpelledAsStartsWith(line, "examples");
    PrefixStartsWith(Lower(line), "scenarios", ":");
    Kw.SpelledAsStartsWith(line, "scenarios");
    EntryAt(Spellings, line, 1);
    ColonFollows(line, 9);
    DecideColon(line, Examples, 9, strip);
  }

  /** A line that starts with `a + b` starts with `a`. */
  lemma PrefixStartsWith(s: string, a: string, b: string)
    requires StartsWith(s, a + b)
    ensures StartsWith(s, a)
  {
    assert s[..|a|] == (a + b)[..|a|];
  }

  /** The entry at `i` decides a line that it spells and no earlier entry
      does. */
  lemma EntryAt(table: seq<(Keyword, string)>, line: string, i: nat)
    requires i < |table| && Kw.SpelledAs(line, table[i].1)
    requires forall j :: 0 <= j < i ==> !Kw.SpelledAs(line, table[j].1)
    ensures Entry(table, line) == Some((table[i].0, |table[i].1|))
  {
    Kw.FirstMatchIsFirst(table, line, 0);
  }

  /** A colon in the lower-cased line is a colon in the line. */
  lemma ColonFollows(line: string, n: nat)
    requires n < |line| && Lower(line)[n] == ':'
    ensures StartsWith(line[n..], ":")
  {
    Kw.LowerCharWhitespace(line[n]);
    assert line[n..][0] == ':';
  }

  /** A keyword that takes a colon, followed by one, is accepted. */
  lemma DecideColon(line: string, keyword: Keyword, n: nat, strip: bool)
    requires n <= |line| && HasColon(keyword) && StartsWith(line[n..], ":")
    ensures Decide(line, Some((keyword, n)), strip).Some?
    ensures Decide(line, Some((keyword, n)), strip).value.keyword == keyword
  {
  }

  // ---------------------------------------------------------------------
  // `ParserInner`
  // ---------------------------------------------------------------------

  datatype ErrorKind =
    | EndOfInput                                   // no line left for a keyword line
    | WrongKeyword(wanted: Keyword, got: Keyword)
    | UnknownKeyword
    | FreeformIndent                               // a freeform line without the first line's indent
    | DocStringIndent                              // a doc-string line without the opening indent
    | UnterminatedDocString
    | Unsupported                                  // the `todo!` that ends `parse_feature`

  /** A helper's outcome and the cursor after it. */
  datatype Outcome<T> = Got(value: T, next: nat) | Failed(error: ErrorKind, next: nat)

  /** A line `take_empty_or_comment` passes over: blank, or a comment. */
  predicate Skippable(line: string) {
    var t := Trim(line);
    t == [] || StartsWith(t, "#")
  }

  /** `take_empty_or_comment`: the first line from `p` on that is neither
      blank nor a comment. Both drafts share this loop and its lemma
      `SkipBlankStops`, each over its own `Skippable`, so `FeatureGrammar`
      has the same shape over its `trim_start` test. */
  function SkipBlank(lines: seq<string>, p: nat): (q: nat)
    requires p <= |lines|
    ensures p <= q <= |lines|
    decreases |lines| - p
  {
    if p < |lines| && Skippable(lines[p]) then SkipBlank(lines, p + 1) else p
  }

  /** Exactly the blank and comment lines are passed over: afterwards the
      next line, if any, is neither. */
  lemma {:induction false} SkipBlankStops(lines: seq<string>, p: nat)
    requires p <= |lines|
    ensures forall i :: p <= i < SkipBlank(lines, p) ==> Skippable(lines[i])
    ensures SkipBlank(lines, p) < |lines| ==> !Skippable(lines[SkipBlank(lines, p)])
    decreases |lines| - p
  {
    if p < |lines| && Skippable(lines[p]) {
      SkipBlankStops(lines, p + 1);
    }
  }

  /** A keyword line as `match_kw_line` returns it: the keyword, the rest
      (None when empty) and the stripped-colon flag. */
  datatype Header = Header(keyword: Keyword, rest: Option<string>, trailingColon: bool)

  function HeaderOf(m: KwLine): Header {
    Header(m.keyword, if m.rest == [] then None else Some(m.rest), m.trailingColon)
  }

  /** `match_kw_line`: after blank and comment lines, one line is consumed
      and must be a keyword line, of the wanted keyword if one is given. */
  function MatchKwAt(lines: seq<string>, p: nat, wanted: Option<Keyword>, strip: bool): (r: Outcome<Header>)
    requires p <= |lines|
    ensures p <= r.next <= |lines|
  {
    var q := SkipBlank(lines, p);
    if q == |lines| then Failed(EndOfInput, q)
    else match Parse(TrimStart(lines[q]), strip)
      case None => Failed(UnknownKeyword, q + 1)
      case Some(m) =>
        if wanted.Some? && m.keyword != wanted.value then Failed(WrongKeyword(wanted.value, m.keyword), q + 1)
        else Got(HeaderOf(m), q + 1)
  }

  /** The keyword line found is the first line that is neither blank nor a
      comment; it is consumed whether or not it is accepted, and only the
      end of input leaves nothing to consume. */
  lemma MatchKwOutcome(lines: seq<string>, p: nat, wanted: Option<Keyword>, strip: bool)
    requires p <= |lines|
    ensures var r := MatchKwAt(lines, p, wanted, strip);
            var q := SkipBlank(lines, p);
            (forall i :: p <= i < q ==> Skippable(lines[i]))
            && (r.Failed? && r.error == EndOfInput <==> q == |lines|)
            && (q < |lines| ==> !Skippable(lines[q]) && r.next == q + 1)
            && (r.Got? ==>
                  Parse(TrimStart(lines[q]), strip).Some?
                  && r.value.keyword == Parse(TrimStart(lines[q]), strip).value.keyword
                  && (wanted.Some? ==> r.value.keyword == wanted.value)
                  && (r.value.rest.None? <==> Parse(TrimStart(lines[q]), strip).value.rest == []))
            && (r.Failed? && r.error == UnknownKeyword <==> q < |lines| && Parse(TrimStart(lines[q]), strip).None?)
  {
    SkipBlankStops(lines, p);
  }

  /** A line that ends the freeform text: an Example, Background or
      Scenario Outline line. Other keyword lines are kept as text. */
  predicate EndsFreeform(line: string) {
    var m := Parse(TrimStart(line), false);
    m.Some? && m.value.keyword in {Example, Background, ScenarioOutline}
  }

  /** The part of a line after an indent it starts with. */
  function Dedent(line: string, indent: string): string {
    if |indent| <= |line| then line[|indent|..] else []
  }

  /** The text of lines, each de-indented and followed by "\n". */
  function Dedented(ls: seq<string>, indent: string): string {
    if ls == [] then [] else Dedent(ls[0], indent) + "\n" + Dedented(ls[1..], indent)
  }

  /** The text collected, None when empty. */
  function NonEmpty(text: string): Option<string> {
    if text != [] then Some(text) else None
  }

  /** The loop of `try_freeform_text`, with the text so far and the indent
      fixed by its first line. */
  function FreeformFrom(lines: seq<string>, p: nat, text: string, indent: Option<string>)
    : (r: Outcome<Option<string>>)
    requires p <= |lines|
    ensures p <= r.next <= |lines|
    decreases |lines| - p
  {
    if p == |lines| then Got(NonEmpty(text), p)
    else
      var line := lines[p];
      if EndsFreeform(line) then Got(NonEmpty(text), p)
      else match indent
        case Some(ind) =>
          if !StartsWith(line, ind) then Failed(FreeformIndent, p)
          else FreeformFrom(lines, p + 1, text + line[|ind|..] + "\n", indent)
        case None =>
          var ind := AsciiIndent(line);
          FreeformFrom(lines, p + 1, text + line[|ind|..] + "\n", Some(ind))
  }

  /** `try_freeform_text`. */
  function FreeformAt(lines: seq<string>, p: nat): (r: Outcome<Option<string>>)
    requires p <= |lines|
    ensures p <= r.next <= |lines|
  {
    var q := SkipBlank(lines, p);
    if q == |lines| then Got(None, q) else FreeformFrom(lines, q, [], None)
  }

  /** The loop of `try_docstring` after the opening line. */
  function DocLinesFrom(lines: seq<string>, p: nat, indent: string, text: string): (r: Outcome<Option<string>>)
    requires p <= |lines|
    ensures p <= r.next <= |lines|
    decreases |lines| - p
  {
    if p == |lines| then Failed(UnterminatedDocString, p)
    else
      var line := lines[p];
      if StartsWith(TrimStart(line), Document.Quotes) then Got(Some(text), p + 1)
      else if StartsWith(line, indent) then DocLinesFrom(lines, p + 1, indent, text + line[|indent|..] + "\n")
      else Failed(DocStringIndent, p + 1)
  }

  /** `try_docstring`. */
  function DocStringAt(lines: seq<string>, p: nat): (r: Outcome<Option<string>>)
    requires p <= |lines|
    ensures p <= r.next <= |lines|
  {
    var q := SkipBlank(lines, p);
    if q == |lines| || !StartsWith(TrimStart(lines[q]), Document.Quotes) then Got(None, q)
    else DocLinesFrom(lines, q + 1, AsciiIndent(lines[q]), [])
  }

  lemma DedentedSlice(lines: seq<string>, p: nat, q: nat, indent: string)
    requires p < q <= |lines|
    ensures Dedented(lines[p..q], indent) == Dedent(lines[p], indent) + "\n" + Dedented(lines[p + 1..q], indent)
  {
    assert lines[p..q][1..] == lines[p + 1..q];
  }

  /** A line the freeform loop takes adds its de-indented text. */
  lemma FreeformStep(lines: seq<string>, p: nat, text: string, indent: string)
    requires p < |lines| && Takes(lines[p], indent)
    ensures FreeformFrom(lines, p, text, Some(indent))
            == FreeformFrom(lines, p + 1, text + (Dedent(lines[p], indent) + "\n"), Some(indent))
  {
    assert text + lines[p][|indent|..] + "\n" == text + (Dedent(lines[p], indent) + "\n");
  }

  /** A line the freeform loop takes once the indent is fixed. */
  predicate Takes(line: string, indent: string) {
    !EndsFreeform(line) && StartsWith(line, indent)
  }

  /** Once the indent is fixed, the loop takes lines that start with it up
      to an Example, Background or Scenario Outline line or the end. */
  lemma {:induction false} FreeformStops(lines: seq<string>, p: nat, text: string, indent: string)
    requires p <= |lines|
    ensures var r := FreeformFrom(lines, p, text, Some(indent));
            (forall i :: p <= i < r.next ==> Takes(lines[i], indent))
            && (r.Got? ==> r.next == |lines| || EndsFreeform(lines[r.next]))
    decreases |lines| - p
  {
    if p < |lines| && Takes(lines[p], indent) {
      var text' := text + (Dedent(lines[p], indent) + "\n");
      FreeformStep(lines, p, text, indent);
      FreeformStops(lines, p + 1, text', indent);
      var r := FreeformFrom(lines, p + 1, text', Some(indent));
      forall i | p <= i < r.next
        ensures Takes(lines[i], indent)
      {
        if i == p {
          assert Takes(lines[p], indent);
        }
      }
    } else {
      assert FreeformFrom(lines, p, text, Some(indent)).next == p;
    }
  }

  /** It fails at the first line that lacks the indent and does not end
      the text. */
  lemma {:induction false} FreeformFailsAt(lines: seq<string>, p: nat, text: string, indent: string)
    requires p <= |lines|
    ensures var r := FreeformFrom(lines, p, text, Some(indent));
            r.Failed? ==> r.error == FreeformIndent && r.next < |lines|
                          && !EndsFreeform(lines[r.next]) && !StartsWith(lines[r.next], indent)
    decreases |lines| - p
  {
    if p < |lines| && Takes(lines[p], indent) {
      FreeformStep(lines, p, text, indent);
      FreeformFailsAt(lines, p + 1, text + (Dedent(lines[p], indent) + "\n"), indent);
    }
  }

  /** Its text is that of the lines taken, de-indented, each followed by
      "\n", and not trimmed. */
  lemma {:induction false} FreeformText(lines: seq<string>, p: nat, text: string, indent: string)
    requires p <= |lines|
    ensures var r := FreeformFrom(lines, p, text, Some(indent));
            r.Got? ==> r.value == NonEmpty(text + Dedented(lines[p..r.next], indent))
    decreases |lines| - p
  {
    var r := FreeformFrom(lines, p, text, Some(indent));
    if p < |lines| && Takes(lines[p], indent) {
      var piece := Dedent(lines[p], indent) + "\n";
      FreeformStep(lines, p, text, indent);
      FreeformText(lines, p + 1, text + piece, indent);
      if r.Got? {
        DedentedSlice(lines, p, r.next, indent);
        assert text + piece + Dedented(lines[p + 1..r.next], indent)
            == text + (piece + Dedented(lines[p + 1..r.next], indent));
      }
    } else if r.Got? {
      assert lines[p..r.next] == [];
      assert text + [] == text;
    }
  }

  /** The freeform loop after its first line, which fixes the indent. */
  lemma FreeformFirst(lines: seq<string>, q: nat)
    requires q < |lines| && !EndsFreeform(lines[q])
    ensures var ind := AsciiIndent(lines[q]);
            FreeformFrom(lines, q, [], None) == FreeformFrom(lines, q + 1, Dedent(lines[q], ind) + "\n", Some(ind))
  {
    var ind := AsciiIndent(lines[q]);
    assert [] + lines[q][|ind|..] + "\n" == Dedent(lines[q], ind) + "\n";
  }

  /** `try_freeform_text` skips blank and comment lines and gives None
      exactly when it takes no line after them. */
  lemma FreeformAtNone(lines: seq<string>, p: nat)
    requires p <= |lines|
    ensures var r := FreeformAt(lines, p);
            r.Got? ==> (r.value.None? <==> r.next == SkipBlank(lines, p))
  {
    var q := SkipBlank(lines, p);
    if q < |lines| && !EndsFreeform(lines[q]) {
      var ind := AsciiIndent(lines[q]);
      var piece := Dedent(lines[q], ind) + "\n";
      FreeformFirst(lines, q);
      FreeformText(lines, q + 1, piece, ind);
      assert piece[|piece| - 1] == '\n';
    }
  }

  /** Otherwise the first line after them fixes the indent, and the text is
      every line taken, de-indented, up to an Example, Background or
      Scenario Outline line or the end. */
  lemma FreeformAtText(lines: seq<string>, p: nat)
    requires p <= |lines|
    ensures var r := FreeformAt(lines, p);
            var q := SkipBlank(lines, p);
            r.Got? && r.value.Some? ==>
              q < r.next
              && r.value.value == Dedented(lines[q..r.next], AsciiIndent(lines[q]))
              && (r.next == |lines| || EndsFreeform(lines[r.next]))
  {
    var q := SkipBlank(lines, p);
    if q < |lines| && !EndsFreeform(lines[q]) {
      var ind := AsciiIndent(lines[q]);
      var piece := Dedent(lines[q], ind) + "\n";
      FreeformFirst(lines, q);
      FreeformText(lines, q + 1, piece, ind);
      FreeformStops(lines, q + 1, piece, ind);
      var r := FreeformFrom(lines, q + 1, piece, Some(ind));
      if r.Got? {
        DedentedSlice(lines, q, r.next, ind);
      }
    }
  }

  /** Every line taken after the first starts with the first line's
      indent, and the text fails only at a later line that lacks it (a
      blank line included). */
  lemma FreeformAtIndent(lines: seq<string>, p: nat)
    requires p <= |lines|
    ensures var r := FreeformAt(lines, p);
            var q := SkipBlank(lines, p);
            (forall i :: q < i < r.next ==> Takes(lines[i], AsciiIndent(lines[q])))
            && (r.Failed? ==>
                  r.error == FreeformIndent && q < r.next < |lines|
                  && !EndsFreeform(lines[r.next]) && !StartsWith(lines[r.next], AsciiIndent(lines[q])))
  {
    var q := SkipBlank(lines, p);
    if q < |lines| && !EndsFreeform(lines[q]) {
      var ind := AsciiIndent(lines[q]);
      var piece := Dedent(lines[q], ind) + "\n";
      FreeformFirst(lines, q);
      assert FreeformAt(lines, p) == FreeformFrom(lines, q + 1, piece, Some(ind));
      FreeformStops(lines, q + 1, piece, ind);
      FreeformFailsAt(lines, q + 1, piece, ind);
    } else {
      assert FreeformAt(lines, p) == Got(None, q);
    }
  }

  /** An interior line of a doc-string: not a closing line, and starting
      with the opening line's indent. */
  predicate Interior(line: string, indent: string) {
    !StartsWith(TrimStart(line), Document.Quotes) && StartsWith(line, indent)
  }

  /** The doc-string loop consumes interior lines up to the first line
      whose start is `"""`, which it consumes too; the end of input, or a
      line without the indent, is an error. */
  lemma {:induction false} DocLinesStops(lines: seq<string>, p: nat, indent: string, text: string)
    requires p <= |lines|
    ensures var r := DocLinesFrom(lines, p, indent, text);
            (r.Got? ==> p < r.next && StartsWith(TrimStart(lines[r.next - 1]), Document.Quotes)
                        && forall i :: p <= i < r.next - 1 ==> Interior(lines[i], indent))
            && (r.Failed? && r.error == UnterminatedDocString ==>
                  r.next == |lines| && forall i :: p <= i < |lines| ==> Interior(lines[i], indent))
            && (r.Failed? && r.error == DocStringIndent ==>
                  p < r.next && !StartsWith(TrimStart(lines[r.next - 1]), Document.Quotes)
                  && !StartsWith(lines[r.next - 1], indent)
                  && forall i :: p <= i < r.next - 1 ==> Interior(lines[i], indent))
            && (r.Failed? ==> r.error == UnterminatedDocString || r.error == DocStringIndent)
    decreases |lines| - p
  {
    if p < |lines| && Interior(lines[p], indent) {
      DocLinesStops(lines, p + 1, indent, text + lines[p][|indent|..] + "\n");
    }
  }

  /** An interior line adds its de-indented text and the loop goes on. */
  lemma DocLinesFromStep(lines: seq<string>, p: nat, indent: string, text: string)
    requires p < |lines| && Interior(lines[p], indent)
    ensures DocLinesFrom(lines, p, indent, text)
         == DocLinesFrom(lines, p + 1, indent, text + (Dedent(lines[p], indent) + "\n"))
  {
    assert text + lines[p][|indent|..] + "\n" == text + (Dedent(lines[p], indent) + "\n");
  }

  /** Its text is the interior lines, de-indented, each followed by "\n". */
  lemma {:induction false} DocLinesText(lines: seq<string>, p: nat, indent: string, text: string)
    requires p <= |lines|
    ensures var r := DocLinesFrom(lines, p, indent, text);
            r.Got? ==> p < r.next && r.value == Some(text + Dedented(lines[p..r.next - 1], indent))
    decreases |lines| - p
  {
    var r := DocLinesFrom(lines, p, indent, text);
    if p < |lines| && Interior(lines[p], indent) {
      var piece := Dedent(lines[p], indent) + "\n";
      DocLinesFromStep(lines, p, indent, text);
      DocLinesText(lines, p + 1, indent, text + piece);
      if r.Got? && p + 1 < r.next {
        DedentedSlice(lines, p, r.next - 1, indent);
        assert text + piece + Dedented(lines[p + 1..r.next - 1], indent)
            == text + (piece + Dedented(lines[p + 1..r.next - 1], indent));
      }
    } else if r.Got? {
      assert lines[p..r.next - 1] == [];
      assert text + [] == text;
    }
  }

  /** The same, from the line after an opening line `q`. */
  lemma DocLinesFromOpening(lines: seq<string>, q: nat, indent: string)
    requires q < |lines|
    ensures var r := DocLinesFrom(lines, q + 1, indent, []);
            r.Got? && r.value.Some? ==> q + 1 < r.next && r.value.value == Dedented(lines[q + 1..r.next - 1], indent)
  {
    DocLinesFromStart(lines, q + 1, indent);
  }

  /** The same from the empty text. */
  lemma DocLinesFromStart(lines: seq<string>, p: nat, indent: string)
    requires p <= |lines|
    ensures var r := DocLinesFrom(lines, p, indent, []);
            r.Got? ==> p < r.next && r.value == Some(Dedented(lines[p..r.next - 1], indent))
  {
    DocLinesText(lines, p, indent, []);
    var r := DocLinesFrom(lines, p, indent, []);
    if r.Got? {
      var d := Dedented(lines[p..r.next - 1], indent);
      assert [] + d == d;
    }
  }

  /** `try_docstring` skips blank and comment lines and gives None,
      leaving the next line in place, exactly when that line does not start
      with `"""`. */
  lemma DocStringAtNone(lines: seq<string>, p: nat)
    requires p <= |lines|
    ensures var r := DocStringAt(lines, p);
            var q := SkipBlank(lines, p);
            r.Got? ==>
              (r.value.None? <==> r.next == q)
              && (r.value.None? <==> q == |lines| || !StartsWith(TrimStart(lines[q]), Document.Quotes))
  {
    var q := SkipBlank(lines, p);
    if q < |lines| && StartsWith(TrimStart(lines[q]), Document.Quotes) {
      DocLinesText(lines, q + 1, AsciiIndent(lines[q]), []);
    }
  }

  /** Otherwise that line opens the doc-string and fixes its indent, the
      lines up to the closing line are interior ones ... */
  lemma DocStringAtLines(lines: seq<string>, p: nat)
    requires p <= |lines|
    ensures var r := DocStringAt(lines, p);
            var q := SkipBlank(lines, p);
            r.Got? && r.value.Some? ==>
              q + 1 < r.next && StartsWith(TrimStart(lines[q]), Document.Quotes)
              && StartsWith(TrimStart(lines[r.next - 1]), Document.Quotes)
              && (forall i :: q < i < r.next - 1 ==> Interior(lines[i], AsciiIndent(lines[q])))
  {
    var q := SkipBlank(lines, p);
    if q < |lines| && StartsWith(TrimStart(lines[q]), Document.Quotes) {
      DocLinesStops(lines, q + 1, AsciiIndent(lines[q]), []);
    }
  }

  /** ... and the text is those lines, de-indented. */
  lemma {:induction false} DocStringAtText(lines: seq<string>, p: nat)
    requires p <= |lines|
    ensures var r := DocStringAt(lines, p);
            var q := SkipBlank(lines, p);
            r.Got? && r.value.Some? ==>
              q + 1 < r.next && r.value.value == Dedented(lines[q + 1..r.next - 1], AsciiIndent(lines[q]))
  {
    var q := SkipBlank(lines, p);
    if q < |lines| && StartsWith(TrimStart(lines[q]), Document.Quotes) {
      DocStringOpens(lines, p);
      DocLinesFromOpening(lines, q, AsciiIndent(lines[q]));
    } else {
      DocStringAtNone(lines, p);
    }
  }

  /** Past an opening line, `try_docstring` is its line loop. */
  lemma DocStringOpens(lines: seq<string>, p: nat)
    requires p <= |lines|
    requires var q := SkipBlank(lines, p); q < |lines| && StartsWith(TrimStart(lines[q]), Document.Quotes)
    ensures var q := SkipBlank(lines, p);
            q < |lines| && DocStringAt(lines, p) == DocLinesFrom(lines, q + 1, AsciiIndent(lines[q]), [])
  {
  }

  // ---------------------------------------------------------------------
  // `Parser::parse_feature`
  // ---------------------------------------------------------------------

  /** `parse_feature`: a Feature line, then the freeform text; the
      Background line is looked for and its result dropped, and the draft
      ends in `todo!`, so no input yields a feature: the error returned is
      the first helper's, or `Unsupported`. */
  function ParseFeature(input: string): ErrorKind {
    var lines := Lines(input);
    match MatchKwAt(lines, 0, Some(Feature), false)
    case Failed(e, _) => e
    case Got(_, p) =>
      match FreeformAt(lines, p)
      case Failed(e, _) => e
      case Got(_, _) => Unsupported
  }

  /** Empty input has no Feature line. */
  lemma EmptyInputFails()
    ensures ParseFeature("") == EndOfInput
  {
    assert Lines("") == [];
  }
}
