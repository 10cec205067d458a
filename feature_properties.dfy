/** Properties of the line parser of gherkin/src/parser/mod.rs, stated over
    the functions of `FeatureGrammar` that its methods are proved to
    compute: what `try_tags`, `match_steps`, `try_datatable`,
    `try_docstring`, `try_freeform_text`, `try_scenario_outline` and
    `match_feature` accept and return. */
module FeatureProperties {
  import opened Wrappers
  import opened Text
  import opened Keyword
  import opened Rows
  import opened DataTables
  import opened Document
  import opened Outline
  import opened FeatureGrammar

  // ---------------------------------------------------------------------
  // `try_tags`
  // ---------------------------------------------------------------------

  /** A line that does not start with '@', once trimmed, is no tag line:
      nothing is consumed and there are no tags. */
  lemma TagsAtNoTagLine(lines: seq<string>, p: nat)
    requires p <= |lines|
    requires p == |lines| || !StartsWith(Trim(lines[p]), "@")
    ensures TagsAt(lines, p) == Done([], p)
  {
  }

  /** A tag line is read whole: the tags are its space-separated words,
      each trimmed and without its '@', in order, and the parser stands on
      the next line that is neither blank nor a comment, which exists. */
  lemma TagsAtTags(lines: seq<string>, p: nat)
    requires p < |lines| && StartsWith(Trim(lines[p]), "@")
    ensures var r := TagsAt(lines, p);
            var words := Split(Trim(lines[p]), ' ');
            r.Done? ==>
              |r.value| == |words|
              && (forall i :: 0 <= i < |words| ==> StartsWith(Trim(words[i]), "@") && r.value[i] == Trim(words[i])[1..])
              && r.next == SkipBlank(lines, p + 1) < |lines|
  {
    TagWordsMeaning(Split(Trim(lines[p]), ' '));
  }

  /** Every word of a tag line starts with '@', once trimmed. */
  predicate AllTagged(words: seq<string>) {
    forall i :: 0 <= i < |words| ==> StartsWith(Trim(words[i]), "@")
  }

  /** A tag line fails with `InvalidTag` exactly when one of its words does
      not start with '@'. */
  lemma TagsAtInvalid(lines: seq<string>, p: nat)
    requires p < |lines| && StartsWith(Trim(lines[p]), "@")
    ensures TagsAt(lines, p) == Failed(ParseError(InvalidTag, p)) <==> !AllTagged(Split(Trim(lines[p]), ' '))
  {
    TagWordsMeaning(Split(Trim(lines[p]), ' '));
  }

  /** Tags followed only by blank and comment lines are standalone. */
  lemma TagsAtStandalone(lines: seq<string>, p: nat)
    requires p < |lines| && StartsWith(Trim(lines[p]), "@")
    requires TagWords(Split(Trim(lines[p]), ' ')).Some?
    ensures TagsAt(lines, p).Failed? <==> SkipBlank(lines, p + 1) == |lines|
    ensures TagsAt(lines, p).Failed? ==> TagsAt(lines, p).error == ParseError(StandaloneTags, |lines|)
  {
  }

  // ---------------------------------------------------------------------
  // `match_steps`
  // ---------------------------------------------------------------------

  /** A step read by one pass of the loop has a description: a step
      keyword with nothing after it is an error. */
  lemma NextStepDescribed(lines: seq<string>, p: nat)
    requires p <= |lines|
    ensures var r := NextStepAt(lines, p);
            r.Done? && r.value.Ok? ==> r.value.value.description != []
  {
    var q := SkipBlank(lines, p);
    var peeked := PeekHeaderAt(lines, q, true);
    if peeked.Done? && peeked.value.Some? && StepTypeOf(peeked.value.value.keyword).Some? {
      var h := peeked.value.value;
      assert h.text.Some? ==> h.text.value != [];
    }
  }

  /** Every step the loop adds has a description. */
  lemma {:induction false} StepsFromDescribed(lines: seq<string>, p: nat, section: Keyword, steps: seq<Step>)
    requires p <= |lines| && Described(steps)
    ensures var r := StepsFrom(lines, p, section, steps);
            r.Done? ==> Described(r.value)
    decreases |lines| - p
  {
    var n := NextStepAt(lines, p);
    if n.Done? && n.value.Ok? {
      var step := n.value.value;
      NextStepDescribed(lines, p);
      StepsFromStep(lines, p, section, steps);
      assert Described(steps + [step]);
      StepsFromDescribed(lines, n.next, section, steps + [step]);
    }
  }

  /** Every step has a description. */
  predicate Described(steps: seq<Step>) {
    forall i :: 0 <= i < |steps| ==> steps[i].description != []
  }

  /** A step read by one pass is appended and the loop goes on after it. */
  lemma StepsFromStep(lines: seq<string>, p: nat, section: Keyword, steps: seq<Step>)
    requires p <= |lines| && NextStepAt(lines, p).Done? && NextStepAt(lines, p).value.Ok?
    ensures var n := NextStepAt(lines, p);
            StepsFrom(lines, p, section, steps) == StepsFrom(lines, n.next, section, steps + [n.value.value])
  {
  }

  /** `match_steps` yields at least one step, each with a description. */
  lemma StepsAtNonEmpty(lines: seq<string>, p: nat, section: Keyword)
    requires p <= |lines|
    ensures var r := StepsAt(lines, p, section);
            r.Done? ==> |r.value| >= 1 && forall i :: 0 <= i < |r.value| ==> r.value[i].description != []
  {
    StepsFromDescribed(lines, p, section, []);
    StepsFromNonEmpty(lines, p, section, []);
  }

  /** The loop only stops with a result once it holds a step. */
  lemma {:induction false} StepsFromNonEmpty(lines: seq<string>, p: nat, section: Keyword, steps: seq<Step>)
    requires p <= |lines|
    ensures var r := StepsFrom(lines, p, section, steps);
            r.Done? ==> r.value != []
    decreases |lines| - p
  {
    var n := NextStepAt(lines, p);
    if n.Done? && n.value.Ok? {
      StepsFromNonEmpty(lines, n.next, section, steps + [n.value.value]);
    }
  }

  /** Before any step, the reason the loop stops is the error: end of
      input, a line that is no keyword line, or another keyword. */
  lemma StepsAtEmpty(lines: seq<string>, p: nat, section: Keyword)
    requires p <= |lines|
    requires NextStepAt(lines, p).Done? && NextStepAt(lines, p).value.Err?
    ensures var n := NextStepAt(lines, p);
            StepsAt(lines, p, section) == Failed(ParseError(EmptyStepsError(n.value.error, section), n.next))
  {
  }

  /** As written, a step list due at the end of the input panics: with only
      blank and comment lines left, `match_steps` fails at the position
      after the last line, where `format_error` has no line to show. */
  lemma StepsAtEndPanicsAsWritten(lines: seq<string>, p: nat, section: Keyword)
    requires p <= |lines|
    requires forall i :: p <= i < |lines| ==> Skippable(lines[i])
    ensures StepsAt(lines, p, section) == Failed(ParseError(ExpectedStepGotEof, |lines|))
    ensures ShownLine(lines, StepsAt(lines, p, section).error).None?
  {
    SkipBlankStops(lines, p);
    SkipBlankStops(lines, |lines|);
  }

  /** The same for a scenario whose heading is followed by blank and
      comment lines only: no description, and the steps fail at the end. */
  lemma ScenarioBodyEndPanicsAsWritten(lines: seq<string>, p: nat, tags: seq<string>, name: Option<string>)
    requires p <= |lines|
    requires forall i :: p <= i < |lines| ==> Skippable(lines[i])
    ensures ScenarioBodyAt(lines, p, tags, name) == Failed(ParseError(ExpectedStepGotEof, |lines|))
    ensures ShownLine(lines, ScenarioBodyAt(lines, p, tags, name).error).None?
  {
    SkipBlankStops(lines, p);
    StepsAtEndPanicsAsWritten(lines, |lines|, Keyword.Scenario);
  }

  // ---------------------------------------------------------------------
  // `try_background`
  // ---------------------------------------------------------------------

  /** The next line that is neither blank nor a comment is a Background
      line. */
  predicate BackgroundLineAt(lines: seq<string>, q: nat) {
    q < |lines| && Parse(TrimStart(lines[q]), true).Some?
    && Parse(TrimStart(lines[q]), true).value.keyword == Keyword.Background
  }

  /** The peek of `try_background` finds a Background header exactly when
      the first line past blank and comment lines is a Background line. */
  lemma PeekedBackground(lines: seq<string>, p: nat)
    requires p <= |lines|
    ensures var peeked := PeekHeaderAt(lines, p, true);
            PeekedIs(peeked, Keyword.Background) <==> BackgroundLineAt(lines, SkipBlank(lines, p))
  {
    var q := SkipBlank(lines, p);
    var peeked := PeekHeaderAt(lines, p, true);
    if q < |lines| && Parse(TrimStart(lines[q]), true).Some? {
      assert peeked.value.value == HeaderOf(Parse(TrimStart(lines[q]), true).value);
    }
  }

  /** `try_background` reads steps exactly when its peek, which stops on the
      first line past blank and comment lines, finds a Background header
      there (by `PeekedBackground`, exactly when that line is a Background
      line), and they are the steps of `match_steps` from the line after
      it. Otherwise it gives no steps and stands on that line, and it fails
      only inside a Background section: an end of input or a line no
      keyword starts is not an error here. */
  lemma BackgroundAtOutcome(lines: seq<string>, p: nat)
    requires p <= |lines|
    ensures var peeked := PeekHeaderAt(lines, p, true);
            PeekedIs(peeked, Keyword.Background) ==>
              peeked.next == SkipBlank(lines, p)
              && BackgroundAt(lines, p) == StepsAt(lines, peeked.next + 1, Keyword.Background)
    ensures !PeekedIs(PeekHeaderAt(lines, p, true), Keyword.Background) ==>
              BackgroundAt(lines, p) == Done([], SkipBlank(lines, p))
    ensures BackgroundAt(lines, p).Failed? ==> PeekedIs(PeekHeaderAt(lines, p, true), Keyword.Background)
  {
  }

  // ---------------------------------------------------------------------
  // `try_datatable`
  // ---------------------------------------------------------------------

  lemma RectangularSnoc(header: seq<string>, rows: seq<seq<string>>, row: seq<string>)
    requires Rectangular(header, rows) && |row| == |header|
    ensures Rectangular(header, rows + [row])
  {
    forall i | 0 <= i < |rows + [row]|
      ensures |(rows + [row])[i]| == |header|
    {
      if i < |rows| {
        assert (rows + [row])[i] == rows[i];
      }
    }
  }

  /** The row loop only accepts rows as wide as the header. */
  lemma {:induction false} RowsFromRectangular(lines: seq<string>, p: nat, header: seq<string>, rows: seq<seq<string>>)
    requires p <= |lines| && Rectangular(header, rows)
    ensures var r := RowsFrom(lines, p, header, rows);
            r.Done? ==> r.value.Some? && r.value.value.header == header
                        && Rectangular(header, r.value.value.rows)
    decreases |lines| - p
  {
    var q := SkipBlank(lines, p);
    RowsFromStep(lines, p, header, rows);
    if q < |lines| && IsRowLine(Trim(lines[q])) {
      var row := RowCells(Trim(lines[q]));
      if |row| == |header| {
        RectangularSnoc(header, rows, row);
        RowsFromRectangular(lines, q + 1, header, rows + [row]);
      }
    }
  }

  /** A table read by `try_datatable` has its first row line as header and
      every row as wide as it; a row of another width is an error. */
  lemma DataTableRectangular(lines: seq<string>, p: nat)
    requires p <= |lines|
    ensures var r := DataTableAt(lines, p);
            var q := SkipBlank(lines, p);
            r.Done? && r.value.Some? ==>
              q < |lines| && IsRowLine(Trim(lines[q]))
              && r.value.value.header == RowCells(Trim(lines[q]))
              && Rectangular(r.value.value.header, r.value.value.rows)
  {
    var q := SkipBlank(lines, p);
    if q < |lines| && IsRowLine(Trim(lines[q])) {
      RowsFromRectangular(lines, q + 1, RowCells(Trim(lines[q])), []);
    }
  }

  /** Without a table line after blank and comment lines there is no table
      and nothing but those lines is consumed. */
  lemma DataTableAbsent(lines: seq<string>, p: nat)
    requires p <= |lines|
    ensures var q := SkipBlank(lines, p);
            (q == |lines| || !IsRowLine(Trim(lines[q]))) <==> DataTableAt(lines, p) == Done(None, q)
  {
    var q := SkipBlank(lines, p);
    if q < |lines| && IsRowLine(Trim(lines[q])) {
      RowsFromRectangular(lines, q + 1, RowCells(Trim(lines[q])), []);
    }
  }

  // ---------------------------------------------------------------------
  // `try_docstring` and `try_freeform_text`
  // ---------------------------------------------------------------------

  /** The doc-string loop ends in a trimmed text. */
  lemma {:induction false} DocLinesTrimmed(lines: seq<string>, p: nat, indent: string, text: string)
    requires p <= |lines|
    ensures var r := DocLinesFrom(lines, p, indent, text);
            r.Done? ==>
              r.value.Some? && (r.value.value == [] ||
                (!IsWhitespace(r.value.value[0]) && !IsWhitespace(r.value.value[|r.value.value| - 1])))
    decreases |lines| - p
  {
    if p < |lines| {
      var line := lines[p];
      if Trim(line) == Quotes {
        TrimFacts(text);
      } else if StartsWith(line, indent) {
        DocLinesTrimmed(lines, p + 1, indent, text + line[|indent|..] + "\n");
      } else if Trim(line) == [] {
        DocLinesTrimmed(lines, p + 1, indent, text + "\n");
      }
    }
  }

  /** `try_docstring` gives a text with no whitespace at either end, or
      None when the next line is not the delimiter alone. */
  lemma DocStringTrimmed(lines: seq<string>, p: nat)
    requires p <= |lines|
    ensures var r := DocStringAt(lines, p);
            var q := SkipBlank(lines, p);
            r.Done? && r.value.Some? ==>
              q < |lines| && Trim(lines[q]) == Quotes
              && (r.value.value == [] ||
                  (!IsWhitespace(r.value.value[0]) && !IsWhitespace(r.value.value[|r.value.value| - 1])))
    ensures var q := SkipBlank(lines, p);
            (q == |lines| || Trim(lines[q]) != Quotes) ==> DocStringAt(lines, p) == Done(None, q)
  {
    var q := SkipBlank(lines, p);
    if q < |lines| && Trim(lines[q]) == Quotes {
      DocLinesTrimmed(lines, q + 1, AsciiIndent(lines[q]), []);
    }
  }

  /** The freeform loop ends in None or a text that does not end in
      whitespace. */
  lemma {:induction false} FreeformTrimmed(lines: seq<string>, p: nat, text: string, indent: Option<string>)
    requires p <= |lines|
    ensures TrimmedText(FreeformFrom(lines, p, text, indent))
    decreases |lines| - p
  {
    if p == |lines| {
      FreeformResultTrimmed(text, p);
    } else {
      var line := lines[p];
      var t := Trim(line);
      if t == [] {
        assert FreeformFrom(lines, p, text, indent) == FreeformFrom(lines, p + 1, text, indent);
        FreeformTrimmed(lines, p + 1, text, indent);
      } else if Parse(t, false).Some? {
        FreeformResultTrimmed(text, p);
      } else {
        match indent
        case Some(ind) =>
          if StartsWith(line, ind) {
            var text' := text + line[|ind|..] + "\n";
            assert FreeformFrom(lines, p, text, indent) == FreeformFrom(lines, p + 1, text', indent);
            FreeformTrimmed(lines, p + 1, text', indent);
          }
        case None =>
          var ind := AsciiIndent(line);
          var text' := text + line[|ind|..] + "\n";
          assert FreeformFrom(lines, p, text, indent) == FreeformFrom(lines, p + 1, text', Some(ind));
          FreeformTrimmed(lines, p + 1, text', Some(ind));
      }
    }
  }

  /** An outcome that is None, an error, or a non-empty text that does not
      end in whitespace. */
  predicate TrimmedText(r: Parsed<Option<string>>) {
    r.Done? && r.value.Some? ==> r.value.value != [] && !IsWhitespace(r.value.value[|r.value.value| - 1])
  }

  /** A finished description has no trailing whitespace. */
  lemma FreeformResultTrimmed(text: string, p: nat)
    ensures TrimmedText(FreeformResult(text, p))
  {
    TrimEndSlice(text);
  }

  /** `try_freeform_text` gives None or a non-empty text with no trailing
      whitespace. */
  lemma FreeformAtTrimmed(lines: seq<string>, p: nat)
    requires p <= |lines|
    ensures var r := FreeformAt(lines, p);
            r.Done? && r.value.Some? ==> r.value.value != [] && !IsWhitespace(r.value.value[|r.value.value| - 1])
  {
    var q := SkipBlank(lines, p);
    if q < |lines| {
      FreeformTrimmed(lines, q, [], None);
    }
  }

  /** The freeform loop stops, without consuming it, at a line the keyword
      classifier accepts. */
  lemma FreeformStopsAtKeyword(lines: seq<string>, p: nat, text: string, indent: Option<string>)
    requires p < |lines| && Trim(lines[p]) != [] && Parse(Trim(lines[p]), false).Some?
    ensures var r := FreeformFrom(lines, p, text, indent);
            r.Done? && r.next == p
  {
  }

  // ---------------------------------------------------------------------
  // `try_scenario_outline`
  // ---------------------------------------------------------------------

  /** Every placeholder of `b` is a column of the first block. */
  predicate NamesWithin(b: TaggedScenarios, first: set<string>) {
    forall j :: 0 <= j < |b.placeholders| ==> b.placeholders[j] in first
  }

  /** A block read by one pass of the `Examples:` loop was built by
      `TaggedScenarios::new`, and names no column outside the first
      block's. */
  lemma ExamplesBlockChecked(lines: seq<string>, p: nat, tags: seq<string>, first: Option<set<string>>)
    requires p <= |lines|
    ensures var r := ExamplesBlockAt(lines, p, tags, first);
            r.Done? ==> r.value.block.WellFormed() && r.value.block.tags == tags
                        && (first.Some? ==> NamesWithin(r.value.block, first.value))
  {
  }

  lemma NextExamplesChecked(lines: seq<string>, p: nat, first: Option<set<string>>)
    requires p <= |lines|
    ensures var r := NextExamplesAt(lines, p, first);
            r.Done? && r.value.Block? ==> r.value.block.WellFormed()
                                          && (first.Some? ==> NamesWithin(r.value.block, first.value))
  {
    var q := SkipBlank(lines, p);
    var t := TagsAt(lines, q);
    if t.Done? {
      var h := HeadingAt(lines, t.next, Scenarios);
      if h.value.Ok? {
        ExamplesBlockChecked(lines, h.next, t.value, first);
      }
    }
  }

  /** What the `Examples:` loop keeps: the blocks so far are well formed,
      and the first one's column names contain every later one's. */
  predicate ExamplesChecked(blocks: seq<TaggedScenarios>, first: Option<set<string>>) {
    (blocks == [] <==> first.None?)
    && (blocks != [] ==> first.value == Names(blocks[0].placeholders))
    && (forall k :: 0 <= k < |blocks| ==> blocks[k].WellFormed())
    && (forall k :: 1 <= k < |blocks| ==> NamesWithin(blocks[k], Names(blocks[0].placeholders)))
  }

  lemma {:induction false} ExamplesFromChecked(lines: seq<string>, p: nat, blocks: seq<TaggedScenarios>, first: Option<set<string>>)
    requires p <= |lines| && ExamplesChecked(blocks, first)
    ensures var r := ExamplesFrom(lines, p, blocks, first);
            r.Done? ==> r.value != [] && ExamplesChecked(r.value, Some(Names(r.value[0].placeholders)))
    decreases |lines| - p
  {
    var n := NextExamplesAt(lines, p, first);
    NextExamplesChecked(lines, p, first);
    if n.Done? && n.value.Block? {
      var b := n.value.block;
      var blocks' := blocks + [b];
      assert blocks'[0] == if blocks == [] then b else blocks[0];
      assert ExamplesChecked(blocks', FirstNames(first, b));
      ExamplesFromChecked(lines, n.next, blocks', FirstNames(first, b));
    }
  }

  /** An outline's `Examples:` sections: at least one, each built by
      `TaggedScenarios::new`, and every later one's column names among the
      first one's. The check is one-sided: a later block may leave out a
      column of the first. */
  lemma ExamplesSubsetOfFirst(lines: seq<string>, p: nat)
    requires p <= |lines|
    ensures var r := ExamplesFrom(lines, p, [], None);
            r.Done? ==>
              |r.value| >= 1
              && (forall k :: 0 <= k < |r.value| ==> r.value[k].WellFormed())
              && forall k, j :: 1 <= k < |r.value| && 0 <= j < |r.value[k].placeholders| ==>
                   r.value[k].placeholders[j] in Names(r.value[0].placeholders)
  {
    ExamplesFromChecked(lines, p, [], None);
  }

  // ---------------------------------------------------------------------
  // `match_feature`
  // ---------------------------------------------------------------------

  /** `longer` starts with `prefix`. */
  ghost predicate Keeps<T>(longer: seq<T>, prefix: seq<T>) {
    |prefix| <= |longer| && longer[..|prefix|] == prefix
  }

  /** Starting with a sequence and one more element means starting with
      the sequence. */
  lemma KeepsSnoc<T>(longer: seq<T>, prefix: seq<T>, x: T)
    requires Keeps(longer, prefix + [x])
    ensures Keeps(longer, prefix)
  {
    assert longer[..|prefix|] == (prefix + [x])[..|prefix|];
  }

  /** The body loop ends only at the end of the input, keeping the
      scenarios and outlines already read in front of the new ones. */
  lemma {:induction false} BodyFromEndsAtEof(lines: seq<string>, p: nat, scenarios: seq<Scenario>, outlines: seq<ScenarioOutline>)
    requires p <= |lines|
    ensures var r := BodyFrom(lines, p, scenarios, outlines);
            r.Done? ==> r.next == |lines| && Keeps(r.value.0, scenarios) && Keeps(r.value.1, outlines)
    decreases |lines| - p
  {
    var n := NextSectionAt(lines, p);
    BodyFromStep(lines, p, scenarios, outlines);
    if n.Done? && n.value.ScenarioSection? {
      var s := n.value.scenario;
      BodyFromEndsAtEof(lines, n.next, scenarios + [s], outlines);
      var r := BodyFrom(lines, n.next, scenarios + [s], outlines);
      if r.Done? {
        KeepsSnoc(r.value.0, scenarios, s);
      }
    } else if n.Done? && n.value.OutlineSection? {
      var o := n.value.outline;
      BodyFromEndsAtEof(lines, n.next, scenarios, outlines + [o]);
      var r := BodyFrom(lines, n.next, scenarios, outlines + [o]);
      if r.Done? {
        KeepsSnoc(r.value.1, outlines, o);
      }
    }
  }

  /** Tags in front of an outline are lost: the scenario attempt of the
      body loop reads the tag line and gives up at the Scenario Outline
      header after it, and the outline is then read from that header on,
      with no tags. */
  lemma {:induction false} OutlineTagsLost(lines: seq<string>, p: nat)
    requires p <= |lines|
    requires var t := TagsAt(lines, SkipBlank(lines, p));
             t.Done? && t.value != [] && t.next < |lines| && !StartsWith(Trim(lines[t.next]), "@")
             && Parse(TrimStart(lines[t.next]), false).Some?
             && Parse(TrimStart(lines[t.next]), false).value.keyword == Keyword.ScenarioOutline
    ensures var r := NextSectionAt(lines, p);
            r.Done? ==> r.value.OutlineSection? && r.value.outline.tags == []
  {
    var q := SkipBlank(lines, p);
    var n := TagsAt(lines, q).next;
    SkipBlankIdempotent(lines, p);
    ScenarioGivesWay(lines, q);
    assert TagsAt(lines, n) == Done([], n);
  }

  /** A scenario attempt at tags followed by another keyword line reads
      the tags and stops at that line. */
  lemma {:induction false} ScenarioGivesWay(lines: seq<string>, q: nat)
    requires q <= |lines| && SkipBlank(lines, q) == q
    requires var t := TagsAt(lines, q);
             t.Done? && t.next < |lines|
             && Parse(TrimStart(lines[t.next]), false).Some?
             && Parse(TrimStart(lines[t.next]), false).value.keyword != Keyword.Scenario
    ensures ScenarioAt(lines, q) == Done(None, TagsAt(lines, q).next)
  {
    var n := TagsAt(lines, q).next;
    if n != q {
      SkipBlankIdempotent(lines, q + 1);
    }
    assert SkipBlank(lines, n) == n;
  }

  /** Content left after the last section that starts no scenario and no
      outline is an error. */
  lemma BodyFromLeftover(lines: seq<string>, p: nat, scenarios: seq<Scenario>, outlines: seq<ScenarioOutline>)
    requires p <= |lines|
    requires NextSectionAt(lines, p).Done? && NextSectionAt(lines, p).value.NoSection?
    requires NextSectionAt(lines, p).next < |lines|
    ensures BodyFrom(lines, p, scenarios, outlines) == Failed(ParseError(ExpectedScenario, NextSectionAt(lines, p).next))
  {
  }

  /** A feature is read to the end of the input. */
  lemma FeatureBodyEndsAtEof(lines: seq<string>, p: nat, tags: seq<string>, name: Option<string>)
    requires p <= |lines|
    ensures var r := FeatureBodyAt(lines, p, tags, name);
            r.Done? ==> r.next == |lines| && r.value.tags == tags && r.value.name == name
  {
    var d := FreeformAt(lines, p);
    if d.Done? {
      var b := BackgroundAt(lines, SkipBlank(lines, d.next));
      if b.Done? {
        BodyFromEndsAtEof(lines, b.next, [], []);
      }
    }
  }

  /** Empty input is no feature: the Feature line is missing. */
  lemma EmptyInputFails()
    ensures ParseFeature("") == Failed(ParseError(MissingKeyword(Keyword.Feature), 0))
  {
    assert Lines("") == [];
  }

  /** As written, an error found once the input is exhausted panics in
      `format_error` instead of being returned: an input of blank and
      comment lines only, the empty one included, fails for want of a
      Feature line at the position after its last line, which has no line
      to show. */
  lemma BlankInputPanicsAsWritten(lines: seq<string>)
    requires forall i :: 0 <= i < |lines| ==> Skippable(lines[i])
    ensures FeatureOf(lines) == Failed(ParseError(MissingKeyword(Keyword.Feature), |lines|))
    ensures ShownLine(lines, FeatureOf(lines).error).None?
  {
    SkipBlankStops(lines, 0);
    assert SkipBlank(lines, 0) == |lines|;
  }

  /** A feature needs a Feature line after its tags, blank lines and
      comments: anything else is an error at that line. */
  lemma FeatureNeedsHeader(lines: seq<string>)
    ensures var r := FeatureOf(lines);
            var t := TagsAt(lines, SkipBlank(lines, 0));
            r.Done? ==> t.Done? && SkipBlank(lines, t.next) < |lines|
                        && Parse(TrimStart(lines[SkipBlank(lines, t.next)]), false).Some?
                        && Parse(TrimStart(lines[SkipBlank(lines, t.next)]), false).value.keyword == Keyword.Feature
  {
  }
}
