/** The keyword line classifier of the current parser
    (gherkin/src/parser/keyword.rs): a line is matched, ignoring ASCII case,
    against a priority-ordered spelling table, colon placement is checked
    against the keyword's kind, and the rest of the line is returned with a
    flag telling whether it ends in a colon. */
module Keyword {
  import opened Wrappers
  import opened Text

  datatype Keyword =
    | Feature | Scenario | Background | ScenarioOutline | Scenarios
    | Given | When | Then | And | But | Asterisk

  /** The six keywords that begin a step. */
  predicate IsStep(k: Keyword) {
    k in {Given, When, Then, And, But, Asterisk}
  }

  /** `Keyword::has_colon`: section keywords take a colon, step keywords never do. */
  predicate HasColon(k: Keyword)
    ensures HasColon(k) <==> !IsStep(k)
  {
    match k
    case Feature | Scenario | Background | ScenarioOutline | Scenarios => true
    case Given | When | Then | And | But | Asterisk => false
  }

  /** `Keyword::combinations`: checked top to bottom, the first spelling that
      starts the lower-cased line wins, so the two-word spellings shadow
      "scenario", and "examples" is tried before "example". */
  const Spellings: seq<(Keyword, string)> := [
    (Scenarios, "examples"),
    (Scenarios, "scenarios"),
    (ScenarioOutline, "scenario outline"),
    (ScenarioOutline, "scenario template"),
    (Feature, "feature"),
    (Scenario, "example"),
    (Scenario, "scenario"),
    (Background, "background"),
    (Given, "given"),
    (When, "when"),
    (Then, "then"),
    (And, "and"),
    (But, "but"),
    (Asterisk, "*")
  ]

  /** From position `k` on, `spelling` matches the line once the line is
      lower-cased, compared character by character. */
  predicate SpelledFrom(line: string, spelling: string, k: nat)
    requires k <= |spelling|
    decreases |spelling| - k
  {
    k == |spelling| || (k < |line| && LowerChar(line[k]) == spelling[k] && SpelledFrom(line, spelling, k + 1))
  }

  /** Matching from `k` compares every remaining character of the spelling. */
  lemma {:induction false} SpelledFromMeaning(line: string, spelling: string, k: nat)
    requires k <= |spelling|
    ensures SpelledFrom(line, spelling, k) <==>
              (k == |spelling| || |spelling| <= |line|)
              && forall i :: k <= i < |spelling| ==> LowerChar(line[i]) == spelling[i]
    decreases |spelling| - k
  {
    if k < |spelling| {
      SpelledFromMeaning(line, spelling, k + 1);
    }
  }

  /** `spelling` starts the lower-cased line. */
  predicate SpelledAs(line: string, spelling: string) {
    SpelledFrom(line, spelling, 0)
  }

  lemma SpelledAsStartsWith(line: string, spelling: string)
    ensures SpelledAs(line, spelling) <==> StartsWith(Lower(line), spelling)
  {
    SpelledFromMeaning(line, spelling, 0);
    if SpelledAs(line, spelling) {
      assert Lower(line)[..|spelling|] == spelling;
    }
    if StartsWith(Lower(line), spelling) {
      forall i | 0 <= i < |spelling| ensures LowerChar(line[i]) == spelling[i] {
        assert Lower(line)[..|spelling|][i] == spelling[i];
      }
    }
  }

  /** The `find` over a spelling table: the index of the first entry, from
      `from` on, whose spelling starts the lower-cased line. */
  function FirstMatch<K>(table: seq<(K, string)>, line: string, from: nat): Option<nat>
    requires from <= |table|
    decreases |table| - from
  {
    if from == |table| then None
    else if SpelledAs(line, table[from].1) then Some(from)
    else FirstMatch(table, line, from + 1)
  }

  /** The index found matches, and no earlier index from `from` on does. */
  lemma {:induction false} FirstMatchIsFirst<K>(table: seq<(K, string)>, line: string, from: nat)
    requires from <= |table|
    ensures var r := FirstMatch(table, line, from);
            r.Some? ==> from <= r.value < |table| && SpelledAs(line, table[r.value].1)
    ensures var r := FirstMatch(table, line, from);
            forall j :: from <= j < |table| && (r.None? || j < r.value)
              ==> !SpelledAs(line, table[j].1)
    decreases |table| - from
  {
    if from < |table| && !SpelledAs(line, table[from].1) {
      FirstMatchIsFirst(table, line, from + 1);
    }
  }

  /** The entry of the table that decides a line: its keyword and the length
      of its spelling. No entry: not a keyword line. */
  function Classify(line: string): (r: Option<(Keyword, nat)>)
    ensures r.Some? ==> r.value.1 <= |line|
  {
    FirstMatchIsFirst(Spellings, line, 0);
    match FirstMatch(Spellings, line, 0)
    case None => None
    case Some(i) =>
      SpelledFromMeaning(line, Spellings[i].1, 0);
      Some((Spellings[i].0, |Spellings[i].1|))
  }

  /** A line is a keyword line exactly when some spelling starts it,
      ignoring ASCII case. */
  lemma ClassifyNoneIffNoSpelling(line: string)
    ensures Classify(line).None? <==>
              forall j :: 0 <= j < |Spellings| ==> !StartsWith(Lower(line), Spellings[j].1)
  {
    forall j | 0 <= j < |Spellings| {
      SpelledAsStartsWith(line, Spellings[j].1);
    }
  }

  /** What `Keyword::parse` returns: the keyword, the line's own spelling of
      it, the rest of the line and whether that rest ends in a colon. */
  datatype KeywordLine = KeywordLine(keyword: Keyword, keywordName: string, rest: string, trailingColon: bool)

  /** True when the character right after the spelling is a colon. */
  predicate ColonAfter(line: string, n: nat) {
    n < |line| && line[n] == ':'
  }

  /** The text after the spelling and, for a section keyword, its colon,
      with leading whitespace removed. */
  function Remainder(line: string, keyword: Keyword, n: nat): string
    requires n <= |line| && (HasColon(keyword) ==> ColonAfter(line, n))
  {
    TrimStart(line[n + if HasColon(keyword) then 1 else 0..])
  }

  /** The remainder is a suffix of the line after the colon, and starts with
      no whitespace. */
  lemma RemainderIsSuffix(line: string, keyword: Keyword, n: nat)
    requires n <= |line| && (HasColon(keyword) ==> ColonAfter(line, n))
    ensures var u := Remainder(line, keyword, n);
            (u == [] || !IsWhitespace(u[0]))
            && |u| <= |line| - n - (if HasColon(keyword) then 1 else 0)
            && EndsWith(line, u)
  {
    TrimStartSlice(line[n + if HasColon(keyword) then 1 else 0..]);
  }

  /** The rest with its trailing colon removed when asked and present. */
  function Finish(keyword: Keyword, name: string, u: string, strip: bool): (m: KeywordLine)
    ensures m.keyword == keyword && m.keywordName == name
    ensures m.trailingColon == EndsWith(TrimEnd(u), ":")
    ensures m.rest == if m.trailingColon && strip then u[..|u| - 1] else u
  {
    var lastIsColon := EndsWith(TrimEnd(u), ":");
    KeywordLine(keyword, name, if lastIsColon && strip then u[..|u| - 1] else u, lastIsColon)
  }

  /** What the line's deciding entry, if any, makes of the line. */
  function Decide(line: string, entry: Option<(Keyword, nat)>, strip: bool): Option<KeywordLine>
    requires entry.Some? ==> entry.value.1 <= |line|
  {
    match entry
    case None => None
    case Some((keyword, n)) =>
      if HasColon(keyword) != ColonAfter(line, n) then None
      else Some(Finish(keyword, line[..n], Remainder(line, keyword, n), strip))
  }

  /** `Keyword::parse(line, strip_trailing_colon)`. */
  function Parse(line: string, stripTrailingColon: bool): Option<KeywordLine> {
    Decide(line, Classify(line), stripTrailingColon)
  }

  /** What `Parse` decides and what it keeps of the line. */
  lemma ParseOutcome(line: string, strip: bool)
    // not a keyword line, or colon placement disagrees with the keyword
    ensures Parse(line, strip).None? <==>
              (Classify(line).None?
               || HasColon(Classify(line).value.0) != ColonAfter(line, Classify(line).value.1))
    // the keyword is the deciding entry's, its name the line's own prefix
    ensures Parse(line, strip).Some? ==>
              Parse(line, strip).value.keyword == Classify(line).value.0
              && Parse(line, strip).value.keywordName == line[..Classify(line).value.1]
    // the rest has no leading whitespace
    ensures Parse(line, strip).Some? ==>
              var rest := Parse(line, strip).value.rest;
              rest == [] || !IsWhitespace(rest[0])
  {
    if Parse(line, strip).Some? {
      var (keyword, n) := Classify(line).value;
      RemainderIsSuffix(line, keyword, n);
    }
  }

  /** The deciding entry is the first one whose spelling starts the line,
      ignoring case, and the name is the line's spelling of it. */
  lemma ParseFirstSpellingWins(line: string, strip: bool)
    requires Parse(line, strip).Some?
    ensures FirstMatch(Spellings, line, 0).Some?
    ensures var i := FirstMatch(Spellings, line, 0).value;
            var m := Parse(line, strip).value;
            i < |Spellings| && m.keyword == Spellings[i].0 && Lower(m.keywordName) == Spellings[i].1
            && (forall j :: 0 <= j < i ==> !StartsWith(Lower(line), Spellings[j].1))
  {
    FirstMatchIsFirst(Spellings, line, 0);
    var i := FirstMatch(Spellings, line, 0).value;
    SpelledAsStartsWith(line, Spellings[i].1);
    LowerSlice(line, 0, |Spellings[i].1|);
    forall j | 0 <= j < i ensures !StartsWith(Lower(line), Spellings[j].1) {
      SpelledAsStartsWith(line, Spellings[j].1);
    }
  }

  /** What `Remainder` skips after the colon is whitespace. */
  lemma RemainderGap(line: string, keyword: Keyword, n: nat)
    requires n <= |line| && (HasColon(keyword) ==> ColonAfter(line, n))
    ensures var u := Remainder(line, keyword, n);
            var start := if HasColon(keyword) then 1 else 0;
            forall i :: n + start <= i < |line| - |u| ==> IsWhitespace(line[i])
  {
    var start := if HasColon(keyword) then 1 else 0;
    var tail := line[n + start..];
    var u := TrimStart(tail);
    TrimStartSlice(tail);
    forall i | n + start <= i < |line| - |u| ensures IsWhitespace(line[i]) {
      assert line[i] == tail[i - n - start];
    }
  }

  /** The line is the keyword's spelling, then the keyword's colon exactly
      when it is a section keyword, then whitespace, then the rest. */
  predicate SeparatedByColonAndWhitespace(line: string, m: KeywordLine) {
    var name, end := |m.keywordName|, |line| - |m.rest|;
    name <= end
    && (HasColon(m.keyword) <==> name < end && line[name] == ':')
    && forall i :: name + (if HasColon(m.keyword) then 1 else 0) <= i < end ==> IsWhitespace(line[i])
  }

  /** The gap between spelling and rest, for a given entry. */
  lemma DecideGap(line: string, entry: Option<(Keyword, nat)>)
    requires entry.Some? ==> entry.value.1 <= |line|
    requires Decide(line, entry, false).Some?
    ensures SeparatedByColonAndWhitespace(line, Decide(line, entry, false).value)
  {
    var (keyword, n) := entry.value;
    RemainderGap(line, keyword, n);
    RemainderIsSuffix(line, keyword, n);
  }

  /** Without stripping, the rest is the end of the line and the flag says
      whether that rest, trimmed, ends in ':'. */
  lemma ParseRestIsLineEnd(line: string)
    requires Parse(line, false).Some?
    ensures var m := Parse(line, false).value;
            |m.keywordName| + |m.rest| <= |line|
            && EndsWith(line, m.rest)
            && m.trailingColon == EndsWith(TrimEnd(m.rest), ":")
  {
    var (keyword, n) := Classify(line).value;
    RemainderIsSuffix(line, keyword, n);
  }

  /** Between the spelling and the rest there is only the keyword's colon,
      present exactly for a section keyword, and whitespace. */
  lemma ParseGapIsColonAndWhitespace(line: string)
    requires Parse(line, false).Some?
    ensures SeparatedByColonAndWhitespace(line, Parse(line, false).value)
  {
    DecideGap(line, Classify(line));
  }

  /** Asking for the trailing colon to be stripped changes only the rest:
      whether the line classifies, the keyword, its name and the flag are the
      same, and a flagged rest loses exactly its last character. */
  lemma ParseStripOnlyTrimsRest(line: string)
    ensures Parse(line, true).Some? == Parse(line, false).Some?
    ensures Parse(line, true).Some? ==>
              var s, k := Parse(line, true).value, Parse(line, false).value;
              s.keyword == k.keyword && s.keywordName == k.keywordName
              && s.trailingColon == k.trailingColon
              && (if k.trailingColon then |k.rest| >= 1 && s.rest == k.rest[..|k.rest| - 1]
                  else s.rest == k.rest)
  {
  }

  lemma LowerCharWhitespace(c: char)
    ensures IsWhitespace(LowerChar(c)) == IsWhitespace(c)
    ensures LowerChar(LowerChar(c)) == LowerChar(c)
    ensures LowerChar(c) == ':' <==> c == ':'
  {
  }

  lemma LowerIdempotent(s: string)
    ensures Lower(Lower(s)) == Lower(s)
  {
    forall i | 0 <= i < |s| ensures Lower(Lower(s))[i] == Lower(s)[i] {
      LowerCharWhitespace(s[i]);
    }
  }

  lemma LowerSlice(s: string, i: nat, j: nat)
    requires i <= j <= |s|
    ensures Lower(s[i..j]) == Lower(s)[i..j]
  {
  }

  lemma {:induction false} LeadingWhitespaceLower(s: string)
    ensures LeadingWhitespace(Lower(s)) == LeadingWhitespace(s)
  {
    if s != [] {
      LowerCharWhitespace(s[0]);
      assert Lower(s)[0] == LowerChar(s[0]);
      if IsWhitespace(s[0]) {
        LowerSlice(s, 1, |s|);
        assert Lower(s)[1..] == Lower(s[1..]);
        LeadingWhitespaceLower(s[1..]);
      }
    }
  }

  lemma SpelledAsLower(line: string, spelling: string)
    ensures SpelledAs(Lower(line), spelling) == SpelledAs(line, spelling)
  {
    SpelledFromMeaning(line, spelling, 0);
    SpelledFromMeaning(Lower(line), spelling, 0);
    forall i | 0 <= i < |line| ensures LowerChar(Lower(line)[i]) == LowerChar(line[i]) {
      LowerCharWhitespace(line[i]);
    }
  }

  lemma {:induction false} FirstMatchLower<K>(table: seq<(K, string)>, line: string, from: nat)
    requires from <= |table|
    ensures FirstMatch(table, Lower(line), from) == FirstMatch(table, line, from)
    decreases |table| - from
  {
    if from < |table| {
      SpelledAsLower(line, table[from].1);
      FirstMatchLower(table, line, from + 1);
    }
  }

  lemma RemainderLower(line: string, keyword: Keyword, n: nat)
    requires n <= |line| && (HasColon(keyword) ==> ColonAfter(line, n))
    requires HasColon(keyword) ==> ColonAfter(Lower(line), n)
    ensures Lower(Remainder(line, keyword, n)) == Remainder(Lower(line), keyword, n)
  {
    var start := if HasColon(keyword) then 1 else 0;
    var tail := line[n + start..];
    LowerSlice(line, n + start, |line|);
    assert Lower(line)[n + start..] == Lower(tail);
    LeadingWhitespaceLower(tail);
    LowerSlice(tail, LeadingWhitespace(tail), |tail|);
    TrimStartSlice(tail);
    TrimStartSlice(Lower(tail));
  }

  lemma EndsWithColon(s: string)
    ensures EndsWith(s, ":") <==> s != [] && s[|s| - 1] == ':'
  {
    if s != [] && s[|s| - 1] == ':' {
      assert s[|s| - 1..] == ":";
    }
  }

  lemma {:induction false} TrimEndLower(u: string)
    ensures Lower(TrimEnd(u)) == TrimEnd(Lower(u))
  {
    if u != [] {
      LowerCharWhitespace(u[|u| - 1]);
      assert Lower(u)[|u| - 1] == LowerChar(u[|u| - 1]);
      if IsWhitespace(u[|u| - 1]) {
        LowerSlice(u, 0, |u| - 1);
        TrimEndLower(u[..|u| - 1]);
      }
    }
  }

  lemma FinishLower(keyword: Keyword, name: string, u: string, strip: bool)
    ensures var a, b := Finish(keyword, name, u, strip), Finish(keyword, Lower(name), Lower(u), strip);
            a.trailingColon == b.trailingColon && Lower(a.rest) == b.rest
  {
    var t := TrimEnd(u);
    assert Lower(t) == TrimEnd(Lower(u)) by {
      TrimEndLower(u);
    }
    EndsWithColon(t);
    EndsWithColon(Lower(t));
    if t != [] {
      LowerCharWhitespace(t[|t| - 1]);
    }
    if |u| > 0 {
      LowerSlice(u, 0, |u| - 1);
    }
  }

  /** Lower-casing the line commutes with what `Decide` cuts out of it. */
  lemma DecideLower(line: string, keyword: Keyword, n: nat, strip: bool)
    requires n <= |line| && HasColon(keyword) == ColonAfter(line, n)
    ensures var a, b := Decide(line, Some((keyword, n)), strip), Decide(Lower(line), Some((keyword, n)), strip);
            a.Some? && b.Some? && a.value.keyword == b.value.keyword
            && a.value.trailingColon == b.value.trailingColon
            && Lower(a.value.keywordName) == b.value.keywordName && Lower(a.value.rest) == b.value.rest
  {
    if n < |line| {
      LowerCharWhitespace(line[n]);
    }
    var low := Lower(line);
    assert ColonAfter(low, n) == ColonAfter(line, n);
    LowerSlice(line, 0, n);
    RemainderLower(line, keyword, n);
    var u := Remainder(line, keyword, n);
    FinishLower(keyword, line[..n], u, strip);
    assert Decide(line, Some((keyword, n)), strip) == Some(Finish(keyword, line[..n], u, strip));
    assert Decide(low, Some((keyword, n)), strip) == Some(Finish(keyword, Lower(line[..n]), Lower(u), strip));
  }

  /** Matching ignores ASCII case: a line and its lower-cased copy classify
      alike, with the same flag, and the lower-cased rest and name. */
  lemma ParseIgnoresCase(line: string, strip: bool)
    ensures Parse(line, strip).Some? == Parse(Lower(line), strip).Some?
    ensures Parse(line, strip).Some? ==>
              var a, b := Parse(line, strip).value, Parse(Lower(line), strip).value;
              a.keyword == b.keyword && a.trailingColon == b.trailingColon
              && Lower(a.keywordName) == b.keywordName && Lower(a.rest) == b.rest
  {
    FirstMatchLower(Spellings, line, 0);
    assert Classify(Lower(line)) == Classify(line);
    match Classify(line)
    case None =>
    case Some((keyword, n)) =>
      if n < |line| {
        LowerCharWhitespace(line[n]);
      }
      if HasColon(keyword) == ColonAfter(line, n) {
        DecideLower(line, keyword, n, strip);
      }
  }

  /** "Scenario Outline" and "Scenario Template" are recognised as such,
      not as the "Scenario" their first word spells. */
  lemma OutlineShadowsScenario(line: string)
    requires StartsWith(Lower(line), "scenario outline") || StartsWith(Lower(line), "scenario template")
    ensures Classify(line) == Some((ScenarioOutline, if StartsWith(Lower(line), "scenario outline") then 16 else 17))
  {
    var low := Lower(line);
    assert low[1] == 'c' && low[8] == ' ';
    assert !SpelledAs(line, Spellings[0].1);
    assert !SpelledAs(line, Spellings[1].1);
    if StartsWith(low, "scenario outline") {
      SpelledAsStartsWith(line, "scenario outline");
    } else {
      assert low[9] == 't';
      assert !SpelledAs(line, Spellings[2].1);
      SpelledAsStartsWith(line, "scenario template");
    }
  }

  /** "Examples" is a Scenarios header: it is tried before the "Example"
      that would make it a Scenario. */
  lemma ExamplesBeforeExample(line: string)
    requires StartsWith(Lower(line), "examples")
    ensures Classify(line) == Some((Scenarios, 8))
  {
    SpelledAsStartsWith(line, "examples");
  }

  /** "Example" not followed by "s" is a Scenario. */
  lemma ExampleIsScenario(line: string)
    requires StartsWith(Lower(line), "example") && !StartsWith(Lower(line), "examples")
    ensures Classify(line) == Some((Scenario, 7))
  {
    var low := Lower(line);
    SpelledAsStartsWith(line, "examples");
    assert low[1] == 'x';
    assert !SpelledAs(line, Spellings[1].1);
    assert !SpelledAs(line, Spellings[2].1);
    assert !SpelledAs(line, Spellings[3].1);
    assert !SpelledAs(line, Spellings[4].1);
    SpelledAsStartsWith(line, "example");
  }

  /** "Scenario" followed by neither "s", " outline" nor " template" is a
      Scenario. */
  lemma ScenarioIsScenario(line: string)
    requires StartsWith(Lower(line), "scenario")
    requires !StartsWith(Lower(line), "scenarios")
    requires !StartsWith(Lower(line), "scenario outline") && !StartsWith(Lower(line), "scenario template")
    ensures Classify(line) == Some((Scenario, 8))
  {
    var low := Lower(line);
    assert low[1] == 'c';
    assert !SpelledAs(line, Spellings[0].1);
    SpelledAsStartsWith(line, "scenarios");
    SpelledAsStartsWith(line, "scenario outline");
    SpelledAsStartsWith(line, "scenario template");
    assert !SpelledAs(line, Spellings[4].1);
    assert !SpelledAs(line, Spellings[5].1);
    SpelledAsStartsWith(line, "scenario");
  }
}
