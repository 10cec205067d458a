/** What the line parser of gherkin/src/parser/mod.rs computes, as functions
    of the input lines and the cursor position (`current_line`, which always
    equals the number of lines consumed). Each helper of `ParserInner` has a
    function here giving the value it returns and where the cursor is
    afterwards; a failure carries the cursor position, which is the line
    `make_error` reports. */
module FeatureGrammar {
  import opened Wrappers
  import opened Text
  import opened Keyword
  import opened Rows
  import opened DataTables
  import opened Document
  import opened Outline

  /** The reasons the parser gives up, one per `make_error` call site. */
  datatype ErrorKind =
    | InvalidTag                      // a word of a tag line without '@'
    | StandaloneTags                  // tags with nothing after them
    | ExpectedStepKeyword             // an unknown keyword where a first step is due
    | ExpectedStepGotEof              // end of input where a first step is due
    | StepWithoutDescription          // a step keyword with no text after it
    | NoSteps(section: Keyword)       // a section without a single step
    | UnknownKeyword                  // a line no spelling matches, or with a misplaced colon
    | MissingKeyword(wanted: Keyword) // end of input where a keyword line is due
    | WrongKeyword(wanted: Keyword, got: Keyword)
    | ColumnCount                     // a table row of the wrong width
    | FreeformIndent                  // a description line without the first line's indent
    | DocStringIndent                 // a doc-string line without the opening indent
    | UnterminatedDocString
    | NoExamples                      // an outline without an `Examples:` section
    | ExpectedTable                   // `Examples:` not followed by a table
    | DifferingPlaceholders           // a later `Examples:` header naming a new column
    | RejectedExamples                // `TaggedScenarios::new` refusing the rows
    | ExpectedScenario                // content left that starts no scenario

  datatype ParseError = ParseError(kind: ErrorKind, line: nat)

  /** The line `format_error` shows with an error's message, fetched with
      `unwrap`: None stands for the panic when the error names the position
      after the last line, where there is no line to fetch. The parser
      modelled here returns the error itself instead. */
  function ShownLine(lines: seq<string>, e: ParseError): Option<string> {
    if e.line < |lines| then Some(lines[e.line]) else None
  }

  /** A helper's outcome: its value and the cursor after it, or an error. */
  datatype Parsed<T> = Done(value: T, next: nat) | Failed(error: ParseError)

  /** The outcome stays between the starting position and the end. */
  predicate Within<T>(r: Parsed<T>, p: nat, n: nat) {
    match r
    case Done(_, next) => p <= next <= n
    case Failed(e) => p <= e.line <= n
  }

  /** A keyword line as the parser sees it: the keyword, the text after it
      (None when empty) and the trailing-colon flag. */
  datatype Header = Header(keyword: Keyword, text: Option<string>, trailingColon: bool)

  datatype Feature = Feature(
    tags: seq<string>,
    name: Option<string>,
    description: Option<string>,
    background: seq<Step>,
    scenarios: seq<Scenario>,
    scenarioOutlines: seq<ScenarioOutline>)

  /** A line `take_empty_or_comment` passes over: blank, or a comment. */
  predicate Skippable(line: string) {
    var t := TrimStart(line);
    StartsWith(t, "#") || TrimEnd(t) == []
  }

  /** `take_empty_or_comment`: the position of the first line from `p` on
      that is neither blank nor a comment. */
  function SkipBlank(lines: seq<string>, p: nat): (q: nat)
    requires p <= |lines|
    ensures p <= q <= |lines|
    decreases |lines| - p
  {
    if p < |lines| && Skippable(lines[p]) then SkipBlank(lines, p + 1) else p
  }

  /** Exactly the blank and comment lines are passed over: every line
      before the stop is one, and the line it stops at, if any, is not. */
  lemma {:induction false} SkipBlankStops(lines: seq<string>, p: nat)
    requires p <= |lines|
    ensures forall i :: p <= i < SkipBlank(lines, p) ==> Skippable(lines[i])
    ensures SkipBlank(lines, p) < |lines| ==> !Skippable(lines[SkipBlank(lines, p)])
    decreases |lines| - p
  {
    if p < |lines| && Skippable(lines[p]) {
      SkipBlankStops(lines, p + 1);
    }
  }

  /** Skipping twice skips no more than once. */
  lemma SkipBlankIdempotent(lines: seq<string>, p: nat)
    requires p <= |lines|
    ensures SkipBlank(lines, SkipBlank(lines, p)) == SkipBlank(lines, p)
  {
    SkipBlankStops(lines, p);
  }

  /** The words of a tag line, each trimmed and without its '@'; None as
      soon as one does not start with '@'. */
  function TagWords(words: seq<string>): Option<seq<string>> {
    if words == [] then Some([])
    else
      var t := Trim(words[0]);
      if !StartsWith(t, "@") then None
      else match TagWords(words[1..])
        case None => None
        case Some(rest) => Some([t[1..]] + rest)
  }

  /** A tag line is accepted exactly when every word starts with '@', and
      then each tag is its word, trimmed, after the '@'. */
  lemma {:induction false} TagWordsMeaning(words: seq<string>)
    ensures TagWords(words).Some? <==> forall i :: 0 <= i < |words| ==> StartsWith(Trim(words[i]), "@")
    ensures TagWords(words).Some? ==>
              |TagWords(words).value| == |words|
              && forall i :: 0 <= i < |words| ==> TagWords(words).value[i] == Trim(words[i])[1..]
  {
    if words != [] {
      TagWordsMeaning(words[1..]);
      assert forall i :: 1 <= i < |words| ==> words[i] == words[1..][i - 1];
    }
  }

  /** `try_tags`. */
  function TagsAt(lines: seq<string>, p: nat): (r: Parsed<seq<string>>)
    requires p <= |lines|
    ensures Within(r, p, |lines|)
  {
    if p == |lines| then Done([], p)
    else
      var t := Trim(lines[p]);
      if !StartsWith(t, "@") then Done([], p)
      else match TagWords(Split(t, ' '))
        case None => Failed(ParseError(InvalidTag, p))
        case Some(tags) =>
          var q := SkipBlank(lines, p + 1);
          if q == |lines| then Failed(ParseError(StandaloneTags, q)) else Done(tags, q)
  }

  function HeaderOf(m: KeywordLine): Header {
    Header(m.keyword, if m.rest == [] then None else Some(m.rest), m.trailingColon)
  }

  /** `peek_kw_line`: skips blank and comment lines and classifies the next
      line without consuming it. */
  function PeekHeaderAt(lines: seq<string>, p: nat, strip: bool): (r: Parsed<Option<Header>>)
    requires p <= |lines|
    ensures Within(r, p, |lines|)
    ensures r.Done? ==> r.next == SkipBlank(lines, p) && (r.value.None? <==> r.next == |lines|)
    ensures r.Failed? ==> r.error == ParseError(UnknownKeyword, SkipBlank(lines, p))
  {
    var q := SkipBlank(lines, p);
    if q == |lines| then Done(None, q)
    else match Parse(TrimStart(lines[q]), strip)
      case None => Failed(ParseError(UnknownKeyword, q))
      case Some(m) => Done(Some(HeaderOf(m)), q)
  }

  /** `match_kw_line`: consumes the next line, which must be a `wanted`
      keyword line. */
  function HeaderAt(lines: seq<string>, p: nat, wanted: Keyword, strip: bool): (r: Parsed<Header>)
    requires p <= |lines|
    ensures Within(r, p, |lines|)
    ensures r.Done? ==> r.next == p + 1 && r.value.keyword == wanted
  {
    if p == |lines| then Failed(ParseError(MissingKeyword(wanted), p))
    else match Parse(TrimStart(lines[p]), strip)
      case None => Failed(ParseError(UnknownKeyword, p + 1))
      case Some(m) =>
        if m.keyword != wanted then Failed(ParseError(WrongKeyword(wanted, m.keyword), p + 1))
        else Done(HeaderOf(m), p + 1)
  }

  /** The keyword a peeked line starts with, when it is one. */
  predicate PeekedIs(r: Parsed<Option<Header>>, k: Keyword) {
    r.Done? && r.value.Some? && r.value.value.keyword == k
  }

  /** The step type of a step keyword. */
  function StepTypeOf(k: Keyword): (r: Option<StepType>)
    ensures r.Some? <==> IsStep(k)
  {
    match k
    case Given => Some(StepType.Given)
    case When => Some(StepType.When)
    case Then => Some(StepType.Then)
    case And => Some(StepType.And)
    case But => Some(StepType.But)
    case Asterisk => Some(StepType.Asterisk)
    case _ => None
  }

  /** A table line: starts and ends with '|' once trimmed. */
  predicate IsRowLine(t: string) {
    StartsWith(t, "|") && EndsWith(t, "|")
  }

  /** The row loop of `try_datatable`, from position `p` with the rows read
      so far. */
  function RowsFrom(lines: seq<string>, p: nat, header: seq<string>, rows: seq<seq<string>>)
    : (r: Parsed<Option<Table>>)
    requires p <= |lines|
    ensures Within(r, p, |lines|)
    decreases |lines| - p
  {
    var q := SkipBlank(lines, p);
    if q < |lines| && IsRowLine(Trim(lines[q])) then
      var row := RowCells(Trim(lines[q]));
      if |row| != |header| then Failed(ParseError(ColumnCount, q))
      else RowsFrom(lines, q + 1, header, rows + [row])
    else Done(Some(Table(header, rows)), q)
  }

  /** One pass of the row loop: it ends at the first line that is not a
      row, fails on a row whose width differs from the header's, and
      otherwise appends the row and goes on after its line. */
  lemma RowsFromStep(lines: seq<string>, p: nat, header: seq<string>, rows: seq<seq<string>>)
    requires p <= |lines|
    ensures var q := SkipBlank(lines, p);
            (q == |lines| || !IsRowLine(Trim(lines[q]))) ==>
              RowsFrom(lines, p, header, rows) == Done(Some(Table(header, rows)), q)
    ensures var q := SkipBlank(lines, p);
            q < |lines| && IsRowLine(Trim(lines[q])) && |RowCells(Trim(lines[q]))| != |header| ==>
              RowsFrom(lines, p, header, rows) == Failed(ParseError(ColumnCount, q))
    ensures var q := SkipBlank(lines, p);
            q < |lines| && IsRowLine(Trim(lines[q])) && |RowCells(Trim(lines[q]))| == |header| ==>
              RowsFrom(lines, p, header, rows) == RowsFrom(lines, q + 1, header, rows + [RowCells(Trim(lines[q]))])
  {
  }

  /** `try_datatable`. */
  function DataTableAt(lines: seq<string>, p: nat): (r: Parsed<Option<Table>>)
    requires p <= |lines|
    ensures Within(r, p, |lines|)
  {
    var q := SkipBlank(lines, p);
    if q == |lines| || !IsRowLine(Trim(lines[q])) then Done(None, q)
    else RowsFrom(lines, q + 1, RowCells(Trim(lines[q])), [])
  }

  /** The line loop of `try_docstring`, after the opening line. */
  function DocLinesFrom(lines: seq<string>, p: nat, indent: string, text: string): (r: Parsed<Option<string>>)
    requires p <= |lines|
    ensures Within(r, p, |lines|)
    decreases |lines| - p
  {
    if p == |lines| then Failed(ParseError(UnterminatedDocString, p))
    else
      var line := lines[p];
      if Trim(line) == Quotes then Done(Some(Trim(text)), p + 1)
      else if StartsWith(line, indent) then DocLinesFrom(lines, p + 1, indent, text + line[|indent|..] + "\n")
      else if Trim(line) == [] then DocLinesFrom(lines, p + 1, indent, text + "\n")
      else Failed(ParseError(DocStringIndent, p + 1))
  }

  /** `try_docstring`. */
  function DocStringAt(lines: seq<string>, p: nat): (r: Parsed<Option<string>>)
    requires p <= |lines|
    ensures Within(r, p, |lines|)
  {
    var q := SkipBlank(lines, p);
    if q == |lines| || Trim(lines[q]) != Quotes then Done(None, q)
    else DocLinesFrom(lines, q + 1, AsciiIndent(lines[q]), [])
  }

  /** The data after a step line: a table if there is one, otherwise a
      doc-string if there is one. */
  function StepDataAt(lines: seq<string>, p: nat): (r: Parsed<Option<StepData>>)
    requires p <= |lines|
    ensures Within(r, p, |lines|)
  {
    match DataTableAt(lines, p)
    case Failed(e) => Failed(e)
    case Done(Some(t), n) => Done(Some(StepData.DataTable(t)), n)
    case Done(None, n) =>
      match DocStringAt(lines, n)
      case Failed(e) => Failed(e)
      case Done(Some(s), m) => Done(Some(DocString(s)), m)
      case Done(None, m) => Done(None, m)
  }

  /** Why the loop of `match_steps` stops: end of input, a line that is no
      keyword line, or a keyword that is not a step keyword. */
  datatype StepsEnd = AtEof | AtUnknownLine | AtOtherKeyword

  /** The error `match_steps` reports when it stops before any step. */
  function EmptyStepsError(end: StepsEnd, section: Keyword): ErrorKind {
    match end
    case AtEof => ExpectedStepGotEof
    case AtUnknownLine => ExpectedStepKeyword
    case AtOtherKeyword => NoSteps(section)
  }

  /** One pass of the loop of `match_steps`: the next step with its data, or
      why the loop stops there. */
  function NextStepAt(lines: seq<string>, p: nat): (r: Parsed<Result<Step, StepsEnd>>)
    requires p <= |lines|
    ensures Within(r, p, |lines|)
    ensures r.Done? && r.value.Ok? ==> r.next > p
  {
    var q := SkipBlank(lines, p);
    var peeked := PeekHeaderAt(lines, q, true);
    if peeked.Failed? then Done(Err(AtUnknownLine), q)
    else if peeked.value.None? then Done(Err(AtEof), q)
    else
      var h := peeked.value.value;
      match StepTypeOf(h.keyword)
      case None => Done(Err(AtOtherKeyword), q)
      case Some(ty) => StepBodyAt(lines, q + 1, ty, h.text)
  }

  /** A step line's description and the data after it, from the line after
      the step keyword. */
  function StepBodyAt(lines: seq<string>, p: nat, ty: StepType, text: Option<string>)
    : (r: Parsed<Result<Step, StepsEnd>>)
    requires p <= |lines|
    ensures Within(r, p, |lines|)
  {
    if text.None? then Failed(ParseError(StepWithoutDescription, p))
    else match StepDataAt(lines, p)
      case Failed(e) => Failed(e)
      case Done(data, n) => Done(Ok(Step(ty, text.value, data)), n)
  }

  /** The loop of `match_steps`, with the steps read so far. */
  function StepsFrom(lines: seq<string>, p: nat, section: Keyword, steps: seq<Step>): (r: Parsed<seq<Step>>)
    requires p <= |lines|
    ensures Within(r, p, |lines|)
    decreases |lines| - p
  {
    match NextStepAt(lines, p)
    case Failed(e) => Failed(e)
    case Done(Ok(step), n) => StepsFrom(lines, n, section, steps + [step])
    case Done(Err(end), q) =>
      if steps == [] then Failed(ParseError(EmptyStepsError(end, section), q)) else Done(steps, q)
  }

  /** `match_steps`. */
  function StepsAt(lines: seq<string>, p: nat, section: Keyword): (r: Parsed<seq<Step>>)
    requires p <= |lines|
    ensures Within(r, p, |lines|)
  {
    StepsFrom(lines, p, section, [])
  }

  /** `try_background`: a Background section's steps, or none; an
      unreadable line here is not an error. */
  function BackgroundAt(lines: seq<string>, p: nat): (r: Parsed<seq<Step>>)
    requires p <= |lines|
    ensures Within(r, p, |lines|)
  {
    var peeked := PeekHeaderAt(lines, p, true);
    if PeekedIs(peeked, Background) then StepsAt(lines, peeked.next + 1, Background)
    else Done([], SkipBlank(lines, p))
  }

  /** The text of a description collected so far, once finished. */
  function FreeformResult(text: string, p: nat): Parsed<Option<string>> {
    var t := TrimEnd(text);
    if t != [] then Done(Some(t), p) else Done(None, p)
  }

  /** The loop of `try_freeform_text`, with the text so far and the indent
      fixed by its first line. */
  function FreeformFrom(lines: seq<string>, p: nat, text: string, indent: Option<string>)
    : (r: Parsed<Option<string>>)
    requires p <= |lines|
    ensures Within(r, p, |lines|)
    decreases |lines| - p
  {
    if p == |lines| then FreeformResult(text, p)
    else
      var line := lines[p];
      var t := Trim(line);
      if t == [] then FreeformFrom(lines, p + 1, text, indent)
      else if Parse(t, false).Some? then FreeformResult(text, p)
      else match indent
        case Some(ind) =>
          if !StartsWith(line, ind) then Failed(ParseError(FreeformIndent, p))
          else FreeformFrom(lines, p + 1, text + line[|ind|..] + "\n", indent)
        case None =>
          var ind := AsciiIndent(line);
          FreeformFrom(lines, p + 1, text + line[|ind|..] + "\n", Some(ind))
  }

  /** `try_freeform_text`. */
  function FreeformAt(lines: seq<string>, p: nat): (r: Parsed<Option<string>>)
    requires p <= |lines|
    ensures Within(r, p, |lines|)
  {
    var q := SkipBlank(lines, p);
    if q == |lines| then Done(None, q) else FreeformFrom(lines, q, [], None)
  }

  /** `try_scenario`. */
  function ScenarioAt(lines: seq<string>, p: nat): (r: Parsed<Option<Scenario>>)
    requires p <= |lines|
    ensures Within(r, p, |lines|)
    ensures r.Done? && r.value.Some? ==> r.next > p
  {
    match TagsAt(lines, p)
    case Failed(e) => Failed(e)
    case Done(tags, p1) =>
      match HeadingAt(lines, p1, Keyword.Scenario)
      case Done(Ok(name), q) => ScenarioBodyAt(lines, q, tags, name)
      case Done(Err(_), q) => Done(None, q)
      case Failed(e) => Failed(e)
  }

  /** The `peek_kw_line(false)` that opens a scenario, an outline and an
      examples block: after blank and comment lines, a `keyword` line is
      consumed and its text returned; anything else is left where it is,
      with the peek's error if the line is no keyword line. */
  function HeadingAt(lines: seq<string>, p: nat, keyword: Keyword)
    : (r: Parsed<Result<Option<string>, Option<ParseError>>>)
    requires p <= |lines|
    ensures r.Done? && Within(r, p, |lines|)
    ensures r.value.Ok? ==> r.next == SkipBlank(lines, p) + 1
    ensures r.value.Err? ==> r.next == SkipBlank(lines, p)
    ensures r.value.Err? && r.value.error.Some? ==> r.value.error.value.line == r.next
  {
    var q := SkipBlank(lines, p);
    SkipBlankIdempotent(lines, p);
    var peeked := PeekHeaderAt(lines, q, false);
    if PeekedIs(peeked, keyword) then Done(Ok(peeked.value.value.text), q + 1)
    else Done(Err(if peeked.Failed? then Some(peeked.error) else None), q)
  }

  /** A scenario after its header line: description, then steps. */
  function ScenarioBodyAt(lines: seq<string>, p: nat, tags: seq<string>, name: Option<string>)
    : (r: Parsed<Option<Scenario>>)
    requires p <= |lines|
    ensures Within(r, p, |lines|)
  {
    match FreeformAt(lines, p)
    case Failed(e) => Failed(e)
    case Done(description, p2) =>
      match StepsAt(lines, p2, Keyword.Scenario)
      case Failed(e) => Failed(e)
      case Done(steps, p3) => Done(Some(Document.Scenario(tags, name, description, steps)), p3)
  }

  /** `placeholders.iter().any(|p| !first.contains(p))`. */
  function AnyOutside(placeholders: seq<string>, first: set<string>): (b: bool)
    ensures b <==> exists i :: 0 <= i < |placeholders| && placeholders[i] !in first
  {
    if placeholders == [] then false
    else if placeholders[0] !in first then true
    else
      var b := AnyOutside(placeholders[1..], first);
      assert b ==> exists i :: 0 <= i < |placeholders| && placeholders[i] !in first by {
        if b {
          var j :| 0 <= j < |placeholders[1..]| && placeholders[1..][j] !in first;
          assert placeholders[j + 1] == placeholders[1..][j];
        }
      }
      assert (exists i :: 0 <= i < |placeholders| && placeholders[i] !in first) ==> b by {
        if i :| 0 <= i < |placeholders| && placeholders[i] !in first {
          assert placeholders[1..][i - 1] == placeholders[i];
        }
      }
      b
  }

  /** The set of a header's column names. */
  function Names(header: seq<string>): set<string> {
    set i | 0 <= i < |header| :: header[i]
  }

  /** What one pass of the `Examples:` loop finds: a block of examples, or
      the end of the loop, with the error of the peeked line if it was not a
      keyword line. */
  datatype ExamplesStep = Block(block: TaggedScenarios) | EndOfExamples(peekError: Option<ParseError>)

  /** One pass of the `Examples:` loop of `try_scenario_outline`, given the
      column names of the first block, if any. */
  function NextExamplesAt(lines: seq<string>, p: nat, first: Option<set<string>>): (r: Parsed<ExamplesStep>)
    requires p <= |lines|
    ensures Within(r, p, |lines|)
    ensures r.Done? && r.value.Block? ==> r.next > p
    ensures r.Done? && r.value.EndOfExamples? && r.value.peekError.Some? ==> r.value.peekError.value.line == r.next
  {
    var q := SkipBlank(lines, p);
    match TagsAt(lines, q)
    case Failed(e) => Failed(e)
    case Done(tags, q1) => ExamplesHeadAt(lines, q1, tags, first)
  }

  /** A pass of the `Examples:` loop after the block's tags: an
      `Examples:` line and its block, or the end of the loop. */
  function ExamplesHeadAt(lines: seq<string>, p: nat, tags: seq<string>, first: Option<set<string>>)
    : (r: Parsed<ExamplesStep>)
    requires p <= |lines|
    ensures Within(r, p, |lines|)
    ensures r.Done? && r.value.Block? ==> r.next > p
    ensures r.Done? && r.value.EndOfExamples? && r.value.peekError.Some? ==> r.value.peekError.value.line == r.next
  {
    match HeadingAt(lines, p, Scenarios)
    case Done(Ok(_), q) => ExamplesBlockAt(lines, q, tags, first)
    case Done(Err(peekError), q) => Done(EndOfExamples(peekError), q)
    case Failed(e) => Failed(e)
  }

  /** An examples block after its `Examples:` line: its table, checked
      against the first block's column names. */
  function ExamplesBlockAt(lines: seq<string>, p: nat, tags: seq<string>, first: Option<set<string>>)
    : (r: Parsed<ExamplesStep>)
    requires p <= |lines|
    ensures Within(r, p, |lines|)
    ensures r.Done? ==> r.value.Block?
  {
    match DataTableAt(lines, SkipBlank(lines, p))
    case Failed(e) => Failed(e)
    case Done(None, q) => Failed(ParseError(ExpectedTable, q))
    case Done(Some(t), q) =>
      if first.Some? && AnyOutside(t.header, first.value) then Failed(ParseError(DifferingPlaceholders, q))
      else match NewTaggedScenarios(tags, t.header, t.rows)
        case Err(_) => Failed(ParseError(RejectedExamples, q))
        case Ok(b) => Done(Block(b), q)
  }

  /** The column names remembered after a block: those of the first one. */
  function FirstNames(first: Option<set<string>>, b: TaggedScenarios): Option<set<string>> {
    if first.Some? then first else Some(Names(b.placeholders))
  }

  /** The `Examples:` loop of `try_scenario_outline`, with the blocks read
      so far and the column names of the first one. */
  function ExamplesFrom(lines: seq<string>, p: nat, blocks: seq<TaggedScenarios>, first: Option<set<string>>)
    : (r: Parsed<seq<TaggedScenarios>>)
    requires p <= |lines|
    ensures Within(r, p, |lines|)
    decreases |lines| - p
  {
    match NextExamplesAt(lines, p, first)
    case Failed(e) => Failed(e)
    case Done(Block(b), n) => ExamplesFrom(lines, n, blocks + [b], FirstNames(first, b))
    case Done(EndOfExamples(peekError), q) =>
      if blocks != [] then Done(blocks, q)
      else if peekError.Some? then Failed(peekError.value)
      else Failed(ParseError(NoExamples, q))
  }

  /** `try_scenario_outline`. */
  function OutlineAt(lines: seq<string>, p: nat): (r: Parsed<Option<ScenarioOutline>>)
    requires p <= |lines|
    ensures Within(r, p, |lines|)
    ensures r.Done? && r.value.Some? ==> r.next > p
  {
    match TagsAt(lines, p)
    case Failed(e) => Failed(e)
    case Done(tags, p1) =>
      match HeadingAt(lines, p1, Keyword.ScenarioOutline)
      case Done(Ok(name), q) => OutlineBodyAt(lines, q, tags, name)
      case Done(Err(_), q) => Done(None, q)
      case Failed(e) => Failed(e)
  }

  /** An outline after its header line: description, steps, then the
      examples blocks. */
  function OutlineBodyAt(lines: seq<string>, p: nat, tags: seq<string>, name: Option<string>)
    : (r: Parsed<Option<ScenarioOutline>>)
    requires p <= |lines|
    ensures Within(r, p, |lines|)
  {
    match FreeformAt(lines, p)
    case Failed(e) => Failed(e)
    case Done(description, p2) =>
      match StepsAt(lines, p2, Keyword.ScenarioOutline)
      case Failed(e) => Failed(e)
      case Done(steps, p3) =>
        match ExamplesFrom(lines, p3, [], None)
        case Failed(e) => Failed(e)
        case Done(blocks, p4) => Done(Some(Outline.ScenarioOutline(tags, name, description, steps, blocks)), p4)
  }

  /** A section of a feature's body. */
  datatype Section = ScenarioSection(scenario: Scenario) | OutlineSection(outline: ScenarioOutline) | NoSection

  /** One pass of the body loop of `match_feature`: a scenario, else an
      outline, else nothing. */
  function NextSectionAt(lines: seq<string>, p: nat): (r: Parsed<Section>)
    requires p <= |lines|
    ensures Within(r, p, |lines|)
    ensures r.Done? && !r.value.NoSection? ==> r.next > p
  {
    var q := SkipBlank(lines, p);
    match ScenarioAt(lines, q)
    case Failed(e) => Failed(e)
    case Done(Some(s), n) => Done(ScenarioSection(s), n)
    case Done(None, n) =>
      match OutlineAt(lines, n)
      case Failed(e) => Failed(e)
      case Done(Some(o), m) => Done(OutlineSection(o), m)
      case Done(None, m) => Done(NoSection, m)
  }

  /** The body loop of `match_feature`, with the scenarios and outlines read
      so far. */
  function BodyFrom(lines: seq<string>, p: nat, scenarios: seq<Scenario>, outlines: seq<ScenarioOutline>)
    : (r: Parsed<(seq<Scenario>, seq<ScenarioOutline>)>)
    requires p <= |lines|
    ensures Within(r, p, |lines|)
    decreases |lines| - p
  {
    match NextSectionAt(lines, p)
    case Failed(e) => Failed(e)
    case Done(ScenarioSection(s), n) => BodyFrom(lines, n, scenarios + [s], outlines)
    case Done(OutlineSection(o), n) => BodyFrom(lines, n, scenarios, outlines + [o])
    case Done(NoSection, m) =>
      if m == |lines| then Done((scenarios, outlines), m)
      else Failed(ParseError(ExpectedScenario, m))
  }

  /** One pass of the body loop, as the loop's next state. */
  lemma BodyFromStep(lines: seq<string>, p: nat, scenarios: seq<Scenario>, outlines: seq<ScenarioOutline>)
    requires p <= |lines|
    ensures var n := NextSectionAt(lines, p);
            var r := BodyFrom(lines, p, scenarios, outlines);
            (n.Failed? ==> r == Failed(n.error))
            && (n.Done? && n.value.ScenarioSection? ==> r == BodyFrom(lines, n.next, scenarios + [n.value.scenario], outlines))
            && (n.Done? && n.value.OutlineSection? ==> r == BodyFrom(lines, n.next, scenarios, outlines + [n.value.outline]))
            && (n.Done? && n.value.NoSection? ==>
                  r == if n.next == |lines| then Done((scenarios, outlines), n.next) else Failed(ParseError(ExpectedScenario, n.next)))
  {
  }

  /** `match_feature` from the first line. */
  function FeatureOf(lines: seq<string>): (r: Parsed<Feature>)
    ensures Within(r, 0, |lines|)
  {
    match TagsAt(lines, SkipBlank(lines, 0))
    case Failed(e) => Failed(e)
    case Done(tags, p1) =>
      match HeaderAt(lines, SkipBlank(lines, p1), Keyword.Feature, false)
      case Failed(e) => Failed(e)
      case Done(h, p2) => FeatureBodyAt(lines, p2, tags, h.text)
  }

  /** A feature after its header line: description, background, then the
      scenarios and outlines up to the end of the input. */
  function FeatureBodyAt(lines: seq<string>, p: nat, tags: seq<string>, name: Option<string>): (r: Parsed<Feature>)
    requires p <= |lines|
    ensures Within(r, p, |lines|)
  {
    match FreeformAt(lines, p)
    case Failed(e) => Failed(e)
    case Done(description, p3) =>
      match BackgroundAt(lines, SkipBlank(lines, p3))
      case Failed(e) => Failed(e)
      case Done(background, p4) =>
        match BodyFrom(lines, p4, [], [])
        case Failed(e) => Failed(e)
        case Done(body, p5) => Done(Feature.Feature(tags, name, description, background, body.0, body.1), p5)
  }

  /** `Parser::parse_feature`. */
  function ParseFeature(input: string): Parsed<Feature> {
    FeatureOf(Lines(input))
  }
}
