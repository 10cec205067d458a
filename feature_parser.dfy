/** The line parser of gherkin/src/parser/mod.rs as it runs: `ParserInner`
    walks the input's lines with a cursor, and each helper consumes what it
    recognises. Every method is proved to return what its counterpart in
    `FeatureGrammar` computes and to leave the cursor where that function
    says. */
module FeatureParser {
  import opened Wrappers
  import opened Text
  import opened Keyword
  import opened Rows
  import opened DataTables
  import opened Document
  import opened Outline
  import opened FeatureGrammar

  /** A helper's return value and the cursor after it agree with the
      outcome `spec`; after an error the cursor is the reported line. */
  predicate Reports<T(==)>(spec: Parsed<T>, r: Result<T, ParseError>, pos: nat) {
    match spec
    case Done(v, n) => r == Ok(v) && pos == n
    case Failed(e) => r == Err(e) && pos == e.line
  }

  /** An outcome as the `Result` the parser returns. */
  function AsResult<T>(spec: Parsed<T>): Result<T, ParseError> {
    match spec
    case Done(v, _) => Ok(v)
    case Failed(e) => Err(e)
  }

  /** The tags read so far followed by those of the remaining words. */
  function AppendTags(tags: seq<string>, rest: Option<seq<string>>): Option<seq<string>> {
    if rest.Some? then Some(tags + rest.value) else None
  }

  /** The `for` loop of `try_tags` over the words of a tag line. */
  method CollectTags(words: seq<string>) returns (tags: Option<seq<string>>)
    ensures tags == TagWords(words)
  {
    var acc: seq<string> := [];
    var i := 0;
    assert words[i..] == words;
    assert TagWords(words).Some? ==> acc + TagWords(words).value == TagWords(words).value;
    while i < |words|
      invariant 0 <= i <= |words|
      invariant TagWords(words) == AppendTags(acc, TagWords(words[i..]))
    {
      var tag := Trim(words[i]);
      ghost var rest := TagWords(words[i + 1..]);
      assert TagWords(words[i..]) == if StartsWith(tag, "@") then AppendTags([tag[1..]], rest) else None by {
        assert words[i..][1..] == words[i + 1..];
      }
      if !StartsWith(tag, "@") {
        return None;
      }
      assert rest.Some? ==> acc + ([tag[1..]] + rest.value) == (acc + [tag[1..]]) + rest.value;
      acc := acc + [tag[1..]];
      i := i + 1;
    }
    assert words[i..] == [] && acc + [] == acc;
    tags := Some(acc);
  }

  class ParserInner {
    /** `input.lines()`, of which `currentLine` have been consumed; every
        method keeps `currentLine <= |lines|`. */
    const lines: seq<string>
    var currentLine: nat
    var featureName: Option<string>

    /** `ParserInner::new`. */
    constructor (input: string)
      ensures lines == Lines(input) && currentLine == 0 && featureName == None
      ensures currentLine <= |lines|
    {
      lines := Lines(input);
      currentLine := 0;
      featureName := None;
    }

    /** `lines.peek()`: the next line, not consumed. */
    method Peek() returns (line: Option<string>)
      requires currentLine <= |lines|
      ensures line == if currentLine < |lines| then Some(lines[currentLine]) else None
    {
      line := if currentLine < |lines| then Some(lines[currentLine]) else None;
    }

    /** `Iterator::next`: the next line, counting it as consumed. */
    method Next() returns (line: Option<string>)
      requires currentLine <= |lines|
      modifies this`currentLine
      ensures currentLine <= |lines|
      ensures old(currentLine) < |lines| ==> line == Some(lines[old(currentLine)]) && currentLine == old(currentLine) + 1
      ensures old(currentLine) == |lines| ==> line.None? && currentLine == old(currentLine)
    {
      if currentLine < |lines| {
        line := Some(lines[currentLine]);
        currentLine := currentLine + 1;
      } else {
        line := None;
      }
    }

    /** `make_error`: an error at the current line. */
    method MakeError<T>(kind: ErrorKind) returns (r: Result<T, ParseError>)
      ensures r == Err(ParseError(kind, currentLine))
    {
      r := Err(ParseError(kind, currentLine));
    }

    /** `take_empty_or_comment`. */
    method TakeEmptyOrComment()
      requires currentLine <= |lines|
      modifies this`currentLine
      ensures currentLine <= |lines|
      ensures currentLine == SkipBlank(lines, old(currentLine))
    {
      while true
        invariant currentLine <= |lines|
        invariant SkipBlank(lines, currentLine) == SkipBlank(lines, old(currentLine))
        decreases |lines| - currentLine
      {
        var line := Peek();
        if line.None? {
          break;
        }
        var trimmed := TrimStart(line.value);
        if !StartsWith(trimmed, "#") && TrimEnd(trimmed) != [] {
          break;
        }
        var _ := Next();
      }
    }

    /** `try_tags`. */
    method TryTags() returns (r: Result<seq<string>, ParseError>)
      requires currentLine <= |lines|
      modifies this`currentLine
      ensures currentLine <= |lines|
      ensures Reports(TagsAt(lines, old(currentLine)), r, currentLine)
    {
      var tags := [];
      var line := Peek();
      if line.None? {
        return Ok(tags);
      }
      var trimmed := Trim(line.value);
      if !StartsWith(trimmed, "@") {
        return Ok(tags);
      }
      var words := Split(trimmed, ' ');
      var collected := CollectTags(words);
      if collected.None? {
        r := MakeError(InvalidTag);
        return;
      }
      tags := collected.value;
      var _ := Next();
      TakeEmptyOrComment();
      var peeked := Peek();
      if peeked.None? {
        r := MakeError(StandaloneTags);
        return;
      }
      r := Ok(tags);
    }

    /** `peek_kw_line`. */
    method PeekKwLine(strip: bool) returns (r: Result<Option<Header>, ParseError>)
      requires currentLine <= |lines|
      modifies this`currentLine
      ensures currentLine <= |lines|
      ensures Reports(PeekHeaderAt(lines, old(currentLine), strip), r, currentLine)
    {
      TakeEmptyOrComment();
      var line := Peek();
      if line.None? {
        return Ok(None);
      }
      match Parse(TrimStart(line.value), strip)
      case Some(m) =>
        r := Ok(Some(HeaderOf(m)));
      case None =>
        r := MakeError(UnknownKeyword);
    }

    /** `match_kw_line`. */
    method MatchKwLine(wanted: Keyword, strip: bool) returns (r: Result<Header, ParseError>)
      requires currentLine <= |lines|
      modifies this`currentLine
      ensures currentLine <= |lines|
      ensures Reports(HeaderAt(lines, old(currentLine), wanted, strip), r, currentLine)
    {
      var line := Next();
      if line.None? {
        r := MakeError(MissingKeyword(wanted));
        return;
      }
      match Parse(TrimStart(line.value), strip)
      case Some(m) =>
        if m.keyword != wanted {
          r := MakeError(WrongKeyword(wanted, m.keyword));
          return;
        }
        r := Ok(HeaderOf(m));
      case None =>
        r := MakeError(UnknownKeyword);
    }

    /** `try_datatable`: the rows are appended to a `DataTable` in place. */
    method TryDatatable() returns (r: Result<Option<Table>, ParseError>)
      requires currentLine <= |lines|
      modifies this`currentLine
      ensures currentLine <= |lines|
      ensures Reports(DataTableAt(lines, old(currentLine)), r, currentLine)
    {
      TakeEmptyOrComment();
      var first := Peek();
      if first.None? {
        return Ok(None);
      }
      var firstLine := Trim(first.value);
      if !StartsWith(firstLine, "|") || !EndsWith(firstLine, "|") {
        return Ok(None);
      }
      var header := CollectRow(firstLine);
      var _ := Next();
      var table := new DataTable.New(header);
      r := ReadRows(table);
    }

    /** The row loop of `try_datatable`, appending to `table`. */
    method ReadRows(table: DataTable) returns (r: Result<Option<Table>, ParseError>)
      requires currentLine <= |lines|
      modifies this`currentLine, table
      ensures currentLine <= |lines|
      ensures Reports(RowsFrom(lines, old(currentLine), old(table.header), old(table.rows)), r, currentLine)
    {
      while true
        invariant currentLine <= |lines|
        invariant RowsFrom(lines, currentLine, table.header, table.rows)
               == RowsFrom(lines, old(currentLine), old(table.header), old(table.rows))
        decreases |lines| - currentLine
      {
        var stop, res := ReadRow(table);
        if stop {
          return res;
        }
      }
    }

    /** One pass of the row loop: either the loop ends with `r`, or one row
        of the right width is appended and its line consumed. */
    method ReadRow(table: DataTable) returns (stop: bool, r: Result<Option<Table>, ParseError>)
      requires currentLine <= |lines|
      modifies this`currentLine, table
      ensures currentLine <= |lines|
      ensures stop ==> Reports(RowsFrom(lines, old(currentLine), old(table.header), old(table.rows)), r, currentLine)
      ensures !stop ==> old(currentLine) < currentLine
      ensures !stop ==> RowsFrom(lines, currentLine, table.header, table.rows)
                        == RowsFrom(lines, old(currentLine), old(table.header), old(table.rows))
    {
      RowsFromStep(lines, currentLine, table.header, table.rows);
      TakeEmptyOrComment();
      var next := Peek();
      if next.None? {
        return true, Ok(Some(table.Value()));
      }
      var nextLine := Trim(next.value);
      if !StartsWith(nextLine, "|") || !EndsWith(nextLine, "|") {
        return true, Ok(Some(table.Value()));
      }
      var row := CollectRow(nextLine);
      var added := table.AddRow(row);
      if added.Err? {
        r := MakeError(ColumnCount);
        return true, r;
      }
      var _ := Next();
      stop, r := false, Ok(None);
    }

    /** `try_docstring`. */
    method TryDocstring() returns (r: Result<Option<string>, ParseError>)
      requires currentLine <= |lines|
      modifies this`currentLine
      ensures currentLine <= |lines|
      ensures Reports(DocStringAt(lines, old(currentLine)), r, currentLine)
    {
      TakeEmptyOrComment();
      var first := Peek();
      if first.None? || Trim(first.value) != Quotes {
        return Ok(None);
      }
      var indent := AsciiIndent(first.value);
      var _ := Next();
      r := ReadDocLines(indent);
    }

    /** The line loop of `try_docstring`, up to the closing delimiter. */
    method ReadDocLines(indent: string) returns (r: Result<Option<string>, ParseError>)
      requires currentLine <= |lines|
      modifies this`currentLine
      ensures currentLine <= |lines|
      ensures Reports(DocLinesFrom(lines, old(currentLine), indent, []), r, currentLine)
    {
      var text := "";
      while true
        invariant currentLine <= |lines|
        invariant DocLinesFrom(lines, currentLine, indent, text) == DocLinesFrom(lines, old(currentLine), indent, [])
        decreases |lines| - currentLine
      {
        var line := Next();
        if line.None? {
          r := MakeError(UnterminatedDocString);
          return;
        }
        var trimmed := Trim(line.value);
        if trimmed == Quotes {
          return Ok(Some(Trim(text)));
        } else if StartsWith(line.value, indent) {
          text := text + line.value[|indent|..] + "\n";
        } else if trimmed == [] {
          text := text + "\n";
        } else {
          r := MakeError(DocStringIndent);
          return;
        }
      }
    }

    /** `try_freeform_text`. */
    method TryFreeformText() returns (r: Result<Option<string>, ParseError>)
      requires currentLine <= |lines|
      modifies this`currentLine
      ensures currentLine <= |lines|
      ensures Reports(FreeformAt(lines, old(currentLine)), r, currentLine)
    {
      TakeEmptyOrComment();
      var peeked := Peek();
      if peeked.None? {
        return Ok(None);
      }
      r := ReadFreeform();
    }

    /** The line loop of `try_freeform_text`, up to the next keyword line. */
    method ReadFreeform() returns (r: Result<Option<string>, ParseError>)
      requires currentLine <= |lines|
      modifies this`currentLine
      ensures currentLine <= |lines|
      ensures Reports(FreeformFrom(lines, old(currentLine), [], None), r, currentLine)
    {
      var text := "";
      var indent: Option<string> := None;
      while true
        invariant currentLine <= |lines|
        invariant FreeformFrom(lines, currentLine, text, indent) == FreeformFrom(lines, old(currentLine), [], None)
        decreases |lines| - currentLine
      {
        var next := Peek();
        if next.None? {
          break;
        }
        var line := next.value;
        var trimmed := Trim(line);
        if trimmed == [] {
          var _ := Next();
          continue;
        }
        if Parse(trimmed, false).Some? {
          break;
        }
        if indent.Some? {
          if !StartsWith(line, indent.value) {
            r := MakeError(FreeformIndent);
            return;
          }
          text := text + line[|indent.value|..] + "\n";
        } else {
          var ind := AsciiIndent(line);
          indent := Some(ind);
          text := text + line[|ind|..] + "\n";
        }
        var _ := Next();
      }
      var trimmed := TrimEnd(text);
      if trimmed != [] {
        r := Ok(Some(trimmed));
      } else {
        r := Ok(None);
      }
    }

    /** The data after a step line in `match_steps`: a table, otherwise a
        doc-string. */
    method TryStepData() returns (r: Result<Option<StepData>, ParseError>)
      requires currentLine <= |lines|
      modifies this`currentLine
      ensures currentLine <= |lines|
      ensures Reports(StepDataAt(lines, old(currentLine)), r, currentLine)
    {
      var table := TryDatatable();
      if table.Err? {
        return Err(table.error);
      }
      if table.value.Some? {
        return Ok(Some(StepData.DataTable(table.value.value)));
      }
      var doc := TryDocstring();
      if doc.Err? {
        return Err(doc.error);
      }
      r := Ok(if doc.value.Some? then Some(DocString(doc.value.value)) else None);
    }

    /** One pass of the loop of `match_steps`. */
    method NextStep() returns (r: Result<Result<Step, StepsEnd>, ParseError>)
      requires currentLine <= |lines|
      modifies this`currentLine
      ensures currentLine <= |lines|
      ensures Reports(NextStepAt(lines, old(currentLine)), r, currentLine)
    {
      ghost var p := currentLine;
      TakeEmptyOrComment();
      SkipBlankIdempotent(lines, p);
      var nextKw := PeekKwLine(true);
      if nextKw.Err? {
        return Ok(Err(AtUnknownLine));
      }
      if nextKw.value.None? {
        return Ok(Err(AtEof));
      }
      var h := nextKw.value.value;
      var ty := StepTypeOf(h.keyword);
      if ty.None? {
        return Ok(Err(AtOtherKeyword));
      }
      r := ReadStep(ty.value, h.text);
    }

    /** A step keyword line, consumed, and its body. */
    method ReadStep(ty: StepType, text: Option<string>) returns (r: Result<Result<Step, StepsEnd>, ParseError>)
      requires currentLine < |lines|
      modifies this`currentLine
      ensures currentLine <= |lines|
      ensures Reports(StepBodyAt(lines, old(currentLine) + 1, ty, text), r, currentLine)
    {
      var _ := Next();
      assert StepBodyAt(lines, old(currentLine) + 1, ty, text) == StepBodyAt(lines, currentLine, ty, text);
      r := ReadStepBody(ty, text);
    }

    /** The rest of a pass of `match_steps` once the step line is consumed. */
    method ReadStepBody(ty: StepType, text: Option<string>) returns (r: Result<Result<Step, StepsEnd>, ParseError>)
      requires currentLine <= |lines|
      modifies this`currentLine
      ensures currentLine <= |lines|
      ensures Reports(StepBodyAt(lines, old(currentLine), ty, text), r, currentLine)
    {
      if text.None? {
        r := MakeError(StepWithoutDescription);
        return;
      }
      var data := TryStepData();
      if data.Err? {
        return Err(data.error);
      }
      r := Ok(Ok(Step(ty, text.value, data.value)));
    }

    /** `match_steps`. */
    method MatchSteps(section: Keyword) returns (r: Result<seq<Step>, ParseError>)
      requires currentLine <= |lines|
      modifies this`currentLine
      ensures currentLine <= |lines|
      ensures Reports(StepsAt(lines, old(currentLine), section), r, currentLine)
    {
      var steps: seq<Step> := [];
      while true
        invariant currentLine <= |lines|
        invariant StepsFrom(lines, currentLine, section, steps) == StepsAt(lines, old(currentLine), section)
        decreases |lines| - currentLine
      {
        var next := NextStep();
        if next.Err? {
          return Err(next.error);
        }
        if next.value.Err? {
          if steps == [] {
            r := MakeError(EmptyStepsError(next.value.error, section));
            return;
          }
          break;
        }
        steps := steps + [next.value.value];
      }
      r := Ok(steps);
    }

    /** `try_background`. */
    method TryBackground() returns (r: Result<seq<Step>, ParseError>)
      requires currentLine <= |lines|
      modifies this`currentLine
      ensures currentLine <= |lines|
      ensures Reports(BackgroundAt(lines, old(currentLine)), r, currentLine)
    {
      ghost var p := currentLine;
      var peeked := PeekKwLine(true);
      if peeked.Ok? && peeked.value.Some? && peeked.value.value.keyword == Background {
        assert BackgroundAt(lines, p) == StepsAt(lines, currentLine + 1, Background);
        r := ReadBackground();
      } else {
        r := Ok([]);
      }
    }

    /** The Background line, consumed, and the steps after it. */
    method ReadBackground() returns (r: Result<seq<Step>, ParseError>)
      requires currentLine < |lines|
      modifies this`currentLine
      ensures currentLine <= |lines|
      ensures Reports(StepsAt(lines, old(currentLine) + 1, Background), r, currentLine)
    {
      var _ := Next();
      assert StepsAt(lines, old(currentLine) + 1, Background) == StepsAt(lines, currentLine, Background);
      r := MatchSteps(Background);
    }

    /** The keyword test that opens `try_scenario`, `try_scenario_outline`
        and a pass of the `Examples:` loop. */
    method TryHeading(keyword: Keyword) returns (heading: Result<Option<string>, Option<ParseError>>)
      requires currentLine <= |lines|
      modifies this`currentLine
      ensures currentLine <= |lines|
      ensures Reports(HeadingAt(lines, old(currentLine), keyword), Ok(heading), currentLine)
    {
      ghost var p := currentLine;
      TakeEmptyOrComment();
      SkipBlankIdempotent(lines, p);
      var peeked := PeekKwLine(false);
      if !(peeked.Ok? && peeked.value.Some? && peeked.value.value.keyword == keyword) {
        return Err(if peeked.Err? then Some(peeked.error) else None);
      }
      var _ := Next();
      heading := Ok(peeked.value.value.text);
    }

    /** `try_scenario`. */
    method TryScenario() returns (r: Result<Option<Scenario>, ParseError>)
      requires currentLine <= |lines|
      modifies this`currentLine
      ensures currentLine <= |lines|
      ensures Reports(ScenarioAt(lines, old(currentLine)), r, currentLine)
    {
      var tags := TryTags();
      if tags.Err? {
        return Err(tags.error);
      }
      var heading := TryHeading(Keyword.Scenario);
      if heading.Err? {
        return Ok(None);
      }
      r := ReadScenarioBody(tags.value, heading.value);
    }

    /** The rest of `try_scenario` once the header line is consumed. */
    method ReadScenarioBody(tags: seq<string>, name: Option<string>) returns (r: Result<Option<Scenario>, ParseError>)
      requires currentLine <= |lines|
      modifies this`currentLine
      ensures currentLine <= |lines|
      ensures Reports(ScenarioBodyAt(lines, old(currentLine), tags, name), r, currentLine)
    {
      var description := TryFreeformText();
      if description.Err? {
        return Err(description.error);
      }
      var steps := MatchSteps(Keyword.Scenario);
      if steps.Err? {
        return Err(steps.error);
      }
      r := Ok(Some(Document.Scenario(tags, name, description.value, steps.value)));
    }

    /** One pass of the `Examples:` loop of `try_scenario_outline`. */
    method NextExamples(first: Option<set<string>>) returns (r: Result<ExamplesStep, ParseError>)
      requires currentLine <= |lines|
      modifies this`currentLine
      ensures currentLine <= |lines|
      ensures Reports(NextExamplesAt(lines, old(currentLine), first), r, currentLine)
    {
      TakeEmptyOrComment();
      var tags := TryTags();
      if tags.Err? {
        return Err(tags.error);
      }
      r := ReadExamplesHead(tags.value, first);
    }

    /** A pass of the `Examples:` loop after the block's tags. */
    method ReadExamplesHead(tags: seq<string>, first: Option<set<string>>) returns (r: Result<ExamplesStep, ParseError>)
      requires currentLine <= |lines|
      modifies this`currentLine
      ensures currentLine <= |lines|
      ensures Reports(ExamplesHeadAt(lines, old(currentLine), tags, first), r, currentLine)
    {
      var heading := TryHeading(Scenarios);
      if heading.Err? {
        return Ok(EndOfExamples(heading.error));
      }
      r := ReadExamplesBlock(tags, first);
    }

    /** The rest of a pass of the `Examples:` loop once the `Examples:`
        line is consumed. */
    method ReadExamplesBlock(tags: seq<string>, first: Option<set<string>>) returns (r: Result<ExamplesStep, ParseError>)
      requires currentLine <= |lines|
      modifies this`currentLine
      ensures currentLine <= |lines|
      ensures Reports(ExamplesBlockAt(lines, old(currentLine), tags, first), r, currentLine)
    {
      TakeEmptyOrComment();
      var table := TryDatatable();
      if table.Err? {
        return Err(table.error);
      }
      if table.value.None? {
        r := MakeError(ExpectedTable);
        return;
      }
      var t := table.value.value;
      if first.Some? && AnyOutside(t.header, first.value) {
        r := MakeError(DifferingPlaceholders);
        return;
      }
      var block := NewTaggedScenarios(tags, t.header, t.rows);
      if block.Err? {
        r := MakeError(RejectedExamples);
        return;
      }
      r := Ok(Block(block.value));
    }

    /** The `Examples:` loop of `try_scenario_outline`. */
    method MatchExamples() returns (r: Result<seq<TaggedScenarios>, ParseError>)
      requires currentLine <= |lines|
      modifies this`currentLine
      ensures currentLine <= |lines|
      ensures Reports(ExamplesFrom(lines, old(currentLine), [], None), r, currentLine)
    {
      var scenarios: seq<TaggedScenarios> := [];
      var first: Option<set<string>> := None;
      while true
        invariant currentLine <= |lines|
        invariant ExamplesFrom(lines, currentLine, scenarios, first) == ExamplesFrom(lines, old(currentLine), [], None)
        decreases |lines| - currentLine
      {
        var next := NextExamples(first);
        if next.Err? {
          return Err(next.error);
        }
        if next.value.EndOfExamples? {
          if scenarios == [] {
            if next.value.peekError.Some? {
              return Err(next.value.peekError.value);
            }
            r := MakeError(NoExamples);
            return;
          }
          break;
        }
        var block := next.value.block;
        if first.None? {
          first := Some(Names(block.placeholders));
        }
        scenarios := scenarios + [block];
      }
      r := Ok(scenarios);
    }

    /** `try_scenario_outline`. */
    method TryScenarioOutline() returns (r: Result<Option<ScenarioOutline>, ParseError>)
      requires currentLine <= |lines|
      modifies this`currentLine
      ensures currentLine <= |lines|
      ensures Reports(OutlineAt(lines, old(currentLine)), r, currentLine)
    {
      var tags := TryTags();
      if tags.Err? {
        return Err(tags.error);
      }
      var heading := TryHeading(Keyword.ScenarioOutline);
      if heading.Err? {
        return Ok(None);
      }
      r := ReadOutlineBody(tags.value, heading.value);
    }

    /** The rest of `try_scenario_outline` once the header line is consumed. */
    method ReadOutlineBody(tags: seq<string>, name: Option<string>) returns (r: Result<Option<ScenarioOutline>, ParseError>)
      requires currentLine <= |lines|
      modifies this`currentLine
      ensures currentLine <= |lines|
      ensures Reports(OutlineBodyAt(lines, old(currentLine), tags, name), r, currentLine)
    {
      var description := TryFreeformText();
      if description.Err? {
        return Err(description.error);
      }
      var steps := MatchSteps(Keyword.ScenarioOutline);
      if steps.Err? {
        return Err(steps.error);
      }
      var scenarios := MatchExamples();
      if scenarios.Err? {
        return Err(scenarios.error);
      }
      r := Ok(Some(Outline.ScenarioOutline(tags, name, description.value, steps.value, scenarios.value)));
    }

    /** One pass of the body loop of `match_feature`. */
    method NextSection() returns (r: Result<Section, ParseError>)
      requires currentLine <= |lines|
      modifies this`currentLine
      ensures currentLine <= |lines|
      ensures Reports(NextSectionAt(lines, old(currentLine)), r, currentLine)
    {
      TakeEmptyOrComment();
      var scenario := TryScenario();
      if scenario.Err? {
        return Err(scenario.error);
      }
      if scenario.value.Some? {
        return Ok(ScenarioSection(scenario.value.value));
      }
      var outline := TryScenarioOutline();
      if outline.Err? {
        return Err(outline.error);
      }
      r := Ok(if outline.value.Some? then OutlineSection(outline.value.value) else NoSection);
    }

    /** `match_feature`, on a parser fresh from `new`; it also records the
        feature's name, or "Unnamed feature". */
    method MatchFeature() returns (r: Result<Feature, ParseError>)
      requires currentLine <= |lines| && currentLine == 0
      modifies this
      ensures currentLine <= |lines|
      ensures Reports(FeatureOf(lines), r, currentLine)
      ensures r.Ok? ==> featureName == Some(if r.value.name.Some? then r.value.name.value else UnnamedFeature)
    {
      TakeEmptyOrComment();
      var tags := TryTags();
      if tags.Err? {
        return Err(tags.error);
      }
      TakeEmptyOrComment();
      var header := MatchKwLine(Keyword.Feature, false);
      if header.Err? {
        return Err(header.error);
      }
      var name := header.value.text;
      featureName := Some(if name.Some? then name.value else UnnamedFeature);
      r := ReadFeatureBody(tags.value, name);
    }

    /** The rest of `match_feature` once the feature line is consumed. */
    method ReadFeatureBody(tags: seq<string>, name: Option<string>) returns (r: Result<Feature, ParseError>)
      requires currentLine <= |lines|
      modifies this`currentLine
      ensures currentLine <= |lines|
      ensures Reports(FeatureBodyAt(lines, old(currentLine), tags, name), r, currentLine)
      ensures r.Ok? ==> r.value.name == name
    {
      var description := TryFreeformText();
      if description.Err? {
        return Err(description.error);
      }
      TakeEmptyOrComment();
      var background := TryBackground();
      if background.Err? {
        return Err(background.error);
      }
      var body := MatchBody();
      if body.Err? {
        return Err(body.error);
      }
      r := Ok(Feature.Feature(tags, name, description.value, background.value, body.value.0, body.value.1));
    }

    /** The body loop of `match_feature`: scenarios and outlines up to the
        end of the input. */
    method MatchBody() returns (r: Result<(seq<Scenario>, seq<ScenarioOutline>), ParseError>)
      requires currentLine <= |lines|
      modifies this`currentLine
      ensures currentLine <= |lines|
      ensures Reports(BodyFrom(lines, old(currentLine), [], []), r, currentLine)
    {
      var scenarios: seq<Scenario> := [];
      var outlines: seq<ScenarioOutline> := [];
      while true
        invariant currentLine <= |lines|
        invariant BodyFrom(lines, currentLine, scenarios, outlines) == BodyFrom(lines, old(currentLine), [], [])
        decreases |lines| - currentLine
      {
        BodyFromStep(lines, currentLine, scenarios, outlines);
        var section := NextSection();
        if section.Err? {
          return Err(section.error);
        }
        match section.value
        case ScenarioSection(s) =>
          scenarios := scenarios + [s];
        case OutlineSection(o) =>
          outlines := outlines + [o];
        case NoSection =>
          var line := Peek();
          if line.None? {
            break;
          }
          r := MakeError(ExpectedScenario);
          return;
      }
      r := Ok((scenarios, outlines));
    }
  }

  /** The name recorded for a feature line without text. */
  const UnnamedFeature := "Unnamed feature"

  /** `Parser::parse_feature`. */
  method ParseFeature(input: string) returns (r: Result<Feature, ParseError>)
    ensures r == AsResult(FeatureGrammar.ParseFeature(input))
  {
    var inner := new ParserInner(input);
    r := inner.MatchFeature();
  }
}
