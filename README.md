# gherkin parser core, modelled in Dafny

This project models the core of the `gherkin` crate, a parser for Gherkin
feature files. A feature is a `Feature:` line, optional tags, a freeform
description, a background, then scenarios and scenario outlines. Each of
those holds steps (`Given`, `When`, `Then`, `And`, `But`, `*`), and a step
may carry a data table or a doc-string.

The crate holds three drafts of the parser. All three are modelled:

- **The line parser** of `parser/mod.rs` is the one the crate exports. It
  uses the keyword classifier of `parser/keyword.rs`, the data table of
  `data_table.rs` and the scenario outlines of `scenario_outline.rs`.
- **The token parser** of `parse.rs` reads the tokens the lexer of `lex.rs`
  produces.
- **The first draft** is `lib.rs`. It has its own keyword table and line
  helpers, and its `parse_feature` stops at an unfinished branch.

Each draft is modelled in two layers. A grammar module gives, as pure
functions, what every parser helper returns and where it leaves the
cursor. A parser module then models the same helpers as methods of a
class, in the source's imperative form. Each method is proved to compute
exactly what its grammar function says. The properties of each parser are
proved as lemmas over the grammar functions.

| module | file | models |
|---|---|---|
| `Text` | text.dfy | the `str` operations the source uses: trimming, `split`, `lines`, `replace`, ASCII lower-casing |
| `Wrappers` | wrappers.dfy | `Option` and `Result` |
| `Keyword` | keyword.dfy | `parser/keyword.rs` |
| `DataTables` | data_table.dfy | `data_table.rs`; class `DataTable` |
| `Rows` | rows.dfy | the row splitter `row_iter` of `parser/mod.rs` and `TableRowIter` of `lex.rs` |
| `Document` | document.dfy | the step, step data and scenario values the parsers build |
| `Outline` | outline.dfy | `scenario_outline.rs` |
| `OutlineExample` | outline_example.dfy | the unit test of `scenario_outline.rs`, as a lemma |
| `FeatureGrammar` | feature_grammar.dfy | `parser/mod.rs`, as functions of the lines and the cursor |
| `FeatureParser` | feature_parser.dfy | `parser/mod.rs`; class `ParserInner` |
| `FeatureProperties` | feature_properties.dfy | properties of the line parser |
| `FeatureText` | feature_text.dfy | what the doc-string, description and step-data helpers of the line parser return |
| `Lex` | lex.dfy | `lex.rs`: token functions, their properties, and class `Lexer` |
| `TokenGrammar` | token_grammar.dfy | `parse.rs`, as functions of the tokens and the cursor |
| `TokenParser` | token_parser.dfy | `parse.rs`; class `Parser` |
| `LegacyGrammar` | legacy_grammar.dfy | `lib.rs`, as functions |
| `LegacyParser` | legacy_parser.dfy | `lib.rs`; class `ParserInner` |

Errors are modelled by their kind and line number, one kind per
`make_error` call site. The message texts are not modelled.

## Model

| member | source | states |
|---|---|---|
| Keyword.HasColon | gherkin/src/parser/keyword.rs:17-31 | a keyword takes a colon exactly when it is not one of the six step keywords |
| Keyword.Decide | gherkin/src/parser/keyword.rs:58-80 | what the deciding entry makes of the line: refused when the colon after the spelling disagrees with the keyword, otherwise the keyword, the spelling as written and the rest; its meaning is stated by `DecideGap` and `ParseGapIsColonAndWhitespace` |
| Keyword.Parse | gherkin/src/parser/keyword.rs:52-81 | `Keyword::parse`: the first spelling that starts the ASCII-lower-cased line decides; its meaning is stated by `ParseOutcome`, `ParseRestIsLineEnd` and `ParseStripOnlyTrimsRest` |
| Keyword.FirstMatchIsFirst | gherkin/src/parser/keyword.rs:53-57 | the entry `find` picks has a spelling that starts the lower-cased line, and no earlier entry's spelling does |
| Keyword.Classify | gherkin/src/parser/keyword.rs:53-61 | the spelling of the entry that decides a line is never longer than the line |
| Keyword.ClassifyNoneIffNoSpelling | gherkin/src/parser/keyword.rs:33-57 | a line is a keyword line exactly when some spelling of the table starts it, ignoring ASCII case |
| Keyword.RemainderIsSuffix | gherkin/src/parser/keyword.rs:62-70 | the text after the keyword and its colon is a suffix of the line, with no leading whitespace, and does not reach back into the colon |
| Keyword.ParseOutcome | gherkin/src/parser/keyword.rs:52-81 | `parse` gives None exactly for a non-keyword line or a colon that disagrees with the keyword's kind; otherwise the keyword is the deciding entry's, the name is the line's own prefix of that length, and the rest starts with no whitespace |
| Keyword.ParseFirstSpellingWins | gherkin/src/parser/keyword.rs:33-61 | an accepted line's keyword is that of the first spelling starting it; the lower-cased name equals that spelling, and no earlier spelling starts the line |
| Keyword.RemainderGap | gherkin/src/parser/keyword.rs:62-70 | everything skipped between the colon and the rest is whitespace |
| Keyword.DecideGap | gherkin/src/parser/keyword.rs:58-70 | for any deciding entry, the line is the spelling, the colon exactly for a section keyword, whitespace, then the rest |
| Keyword.ParseRestIsLineEnd | gherkin/src/parser/keyword.rs:58-80 | without stripping, the rest is the end of the line, after the name, and the flag says whether it ends in ':' once trimmed |
| Keyword.ParseGapIsColonAndWhitespace | gherkin/src/parser/keyword.rs:58-70 | between the keyword's name and the rest there is only its colon, present exactly for a section keyword, and whitespace |
| Keyword.ParseStripOnlyTrimsRest | gherkin/src/parser/keyword.rs:72-80 | stripping changes neither acceptance, the keyword, the name nor the flag; a flagged rest loses exactly its last character |
| Keyword.ParseIgnoresCase | gherkin/src/parser/keyword.rs:53-57 | a line and its lower-cased copy are accepted alike, with the same keyword and flag, and with the lower-cased name and rest |
| Keyword.OutlineShadowsScenario | gherkin/src/parser/keyword.rs:33-50 | "Scenario Outline" and "Scenario Template" are outline headers, not the Scenario their first word spells |
| Keyword.ExamplesBeforeExample | gherkin/src/parser/keyword.rs:33-50 | a line starting "examples" is an Examples header, not an Example |
| Keyword.ExampleIsScenario | gherkin/src/parser/keyword.rs:33-50 | "example" not followed by "s" is a Scenario header |
| Keyword.ScenarioIsScenario | gherkin/src/parser/keyword.rs:33-50 | "scenario" followed by none of "s", " outline" and " template" is a Scenario header |
| DataTables.AnyWidthDiffers | gherkin/src/data_table.rs:16 | true exactly when some row's width differs from the header's |
| DataTables.NewPopulated | gherkin/src/data_table.rs:15-21 | a table exactly when every row is as wide as the header, holding the header and rows given |
| DataTables.PopulatedExtends | gherkin/src/data_table.rs:15-30 | adding rows one at a time succeeds exactly when building the table at once does: one more row is accepted iff the rows before are and it fits |
| DataTables.DataTable.Value | gherkin/src/data_table.rs:32-38 | `header()` and `rows()` expose the fields unchanged |
| DataTables.DataTable.New | gherkin/src/data_table.rs:8-13 | the header given, no rows, so the table starts rectangular |
| DataTables.DataTable.AddRow | gherkin/src/data_table.rs:23-30 | appends a row exactly when it is as wide as the header, otherwise fails and changes nothing; the header never changes and the table stays rectangular |
| Rows.TrimAll | gherkin/src/parser/mod.rs:237-259 | every piece trimmed, in order, one cell per piece |
| Rows.RowCells | gherkin/src/parser/mod.rs:237-259 | the cells of a row line: the pieces between consecutive pipe characters, trimmed, the text outside the first and last dropped; its meaning is stated by `RowCellsOfJoin` and `CollectRow` |
| Rows.RowCellsOfJoin | gherkin/src/parser/mod.rs:237-259 | for a line made of outer text, '\|', cells separated by '\|', '\|' and outer text, the cells come back trimmed and in order, and the outer text is dropped |
| Rows.RowIter.constructor | gherkin/src/lex.rs:225-229 | the iterator holds the line's pieces split at '\|', positioned after the first |
| Rows.RowIter.Next | gherkin/src/lex.rs:235-244 | yields the next piece trimmed unless it is the last piece, which is dropped, and advances by one |
| Rows.CollectRow | gherkin/src/parser/mod.rs:237-259 | draining the iterator gives exactly the row's cells |
| Outline.NewTaggedScenarios | gherkin/src/scenario_outline.rs:11-25 | accepts exactly when every row has one cell per placeholder, keeping tags, placeholders and rows; otherwise the error is empty |
| Outline.TaggedScenarios.WellFormed | gherkin/src/scenario_outline.rs:11-25 | the invariant `TaggedScenarios::new` establishes, every row one cell per placeholder; `NewTaggedScenarios` states that it holds of what `new` accepts |
| Outline.ScenarioOutline.WellFormed | gherkin/src/scenario_outline.rs:11-25 | every block of an outline is one `TaggedScenarios::new` accepted, which `ExpandAt` and `ScenarioOfRow` rely on for the row widths |
| Outline.IndexFrom | gherkin/src/scenario_outline.rs:27-35 | the first position from `from` on holding the placeholder, or None exactly when no later position holds it |
| Outline.IndexOf | gherkin/src/scenario_outline.rs:27-35 | the first position of the placeholder, or None exactly when it is not a placeholder |
| Outline.Marker | gherkin/src/scenario_outline.rs:58 | the placeholder wrapped in '<' and '>' |
| Outline.ReplaceInStep | gherkin/src/scenario_outline.rs:56-64 | one replacement round keeps the step type and whether data is attached |
| Outline.Substitute | gherkin/src/scenario_outline.rs:55-66 | the `for_each` over a row: cell k replaces `<placeholder k>` in the description and the doc-string, in column order; its meaning is stated by `SubstituteKeepsShape`, `SubstituteAbsent` and `OutlineExample.SubstituteTwo` |
| Outline.ExpandBlocks | gherkin/src/scenario_outline.rs:52-77 | the `flat_map` over the blocks, one scenario per row; its meaning is stated by `ExpandCount` and `ExpandAt` |
| Outline.Scenarios | gherkin/src/scenario_outline.rs:52-77 | `ScenarioOutline::scenarios`; its meaning is stated by `ScenarioCount` and `ScenarioOfRow` |
| Outline.ExpandCount | gherkin/src/scenario_outline.rs:52-77 | expanding blocks yields one scenario per value row over all the blocks |
| Outline.ScenarioCount | gherkin/src/scenario_outline.rs:52-77 | `scenarios()` yields as many scenarios as the blocks' `len()` add up to |
| Outline.ExpandAt | gherkin/src/scenario_outline.rs:53-54 | the scenario of block k, row j comes after the rows of all earlier blocks, in row order |
| Outline.ScenarioOfRow | gherkin/src/scenario_outline.rs:52-77 | the scenario for block k, row j has the block's tags and the outline's name and description; its steps are the template's, one for one, each with that row substituted |
| Outline.SubstituteKeepsShape | gherkin/src/scenario_outline.rs:55-66 | substitution keeps each step's type and whether it has data |
| Outline.SubstituteAbsent | gherkin/src/scenario_outline.rs:56-60 | a description that mentions none of the markers comes out unchanged |
| OutlineExample.SubstituteTwo | gherkin/src/scenario_outline.rs:56-65 | with two placeholders, the substitution is two replacement rounds in column order |
| OutlineExample.RowGiven | gherkin/src/scenario_outline.rs:122-138 | the test's Given step comes out with the row's text, whichever column order the block uses |
| OutlineExample.RowThen | gherkin/src/scenario_outline.rs:122-138 | the test's Then step's doc-string comes out with the row's extra text, whichever column order the block uses |
| OutlineExample.BlockExample | gherkin/src/scenario_outline.rs:81-147 | a one-row block of the test expands to exactly the expected scenario |
| OutlineExample.ExpansionExample | gherkin/src/scenario_outline.rs:81-147 | the test's three blocks expand to the hihi, hehe and hoho scenarios, in block order |
| FeatureGrammar.SkipBlank | gherkin/src/parser/mod.rs:52-65 | the position reached lies between the start and the end of input |
| FeatureGrammar.SkipBlankStops | gherkin/src/parser/mod.rs:52-65 | exactly the blank and comment lines are passed over, stopping at the first other line |
| FeatureGrammar.SkipBlankIdempotent | gherkin/src/parser/mod.rs:52-65 | skipping again after skipping moves no further |
| FeatureGrammar.ShownLine | gherkin/src/parser/mod.rs:43-46 | the line `format_error` fetches for an error, None where its `unwrap` panics; `FeatureProperties.BlankInputPanicsAsWritten`, `StepsAtEndPanicsAsWritten` and `ScenarioBodyEndPanicsAsWritten` state when that happens |
| FeatureGrammar.TagWords | gherkin/src/parser/mod.rs:82-89 | the words of a tag line, trimmed and without their '@', or None at a word without one; its meaning is stated by `TagWordsMeaning` |
| FeatureGrammar.TagWordsMeaning | gherkin/src/parser/mod.rs:82-89 | a tag line is accepted exactly when every word starts with '@'; the tags are the words trimmed and without '@' |
| FeatureGrammar.TagsAt | gherkin/src/parser/mod.rs:67-100 | the cursor, and any error's line, stay between the start and the end of input |
| FeatureGrammar.PeekHeaderAt | gherkin/src/parser/mod.rs:177-203 | the cursor is left after blank and comment lines, with None exactly at end of input; an unclassifiable line is an `UnknownKeyword` error at that line |
| FeatureGrammar.HeaderAt | gherkin/src/parser/mod.rs:205-234 | a header is always of the wanted keyword, and exactly one line is consumed |
| FeatureGrammar.StepTypeOf | gherkin/src/parser/mod.rs:122-130 | a step type exactly for the six step keywords |
| FeatureGrammar.RowsFrom | gherkin/src/parser/mod.rs:278-298 | the row loop stays within the input |
| FeatureGrammar.DataTableAt | gherkin/src/parser/mod.rs:236-301 | the table read stays within the input |
| FeatureGrammar.DocLinesFrom | gherkin/src/parser/mod.rs:387-404 | the doc-string loop stays within the input; what it returns is stated by `FeatureText.DocLinesCloses`, `DocLinesContent` and `DocLinesErrors` |
| FeatureGrammar.DocStringAt | gherkin/src/parser/mod.rs:367-408 | the doc-string read stays within the input; what it returns is stated by `FeatureText.DocStringContent` and `DocStringErrors` |
| FeatureGrammar.StepDataAt | gherkin/src/parser/mod.rs:140-146 | the step data read stays within the input; what it returns is stated by `FeatureText.StepDataTableFirst` |
| FeatureGrammar.NextStepAt | gherkin/src/parser/mod.rs:106-149 | a step read consumes at least its own line |
| FeatureGrammar.StepBodyAt | gherkin/src/parser/mod.rs:132-148 | the step's description and data stay within the input |
| FeatureGrammar.StepsFrom | gherkin/src/parser/mod.rs:106-150 | the step loop stays within the input |
| FeatureGrammar.StepsAt | gherkin/src/parser/mod.rs:102-175 | `match_steps` stays within the input |
| FeatureGrammar.BackgroundAt | gherkin/src/parser/mod.rs:303-311 | `try_background` stays within the input; its meaning is stated by `FeatureProperties.BackgroundAtOutcome` and `PeekedBackground` |
| FeatureGrammar.FreeformFrom | gherkin/src/parser/mod.rs:320-364 | the description loop stays within the input; what it returns is stated by `FeatureText.FreeformPasses`, `FreeformContent` and `FreeformErrors` |
| FeatureGrammar.FreeformAt | gherkin/src/parser/mod.rs:313-365 | `try_freeform_text` stays within the input; what it returns is stated by `FeatureText.FreeformAtNothing`, `FreeformAtContent` and `FreeformAtErrors` |
| FeatureGrammar.ScenarioAt | gherkin/src/parser/mod.rs:483-506 | a scenario read consumes at least its header line |
| FeatureGrammar.HeadingAt | gherkin/src/parser/mod.rs:486-494 | an accepted heading consumes the line after the blank and comment lines; a refused one leaves the cursor on it, and any error names that line |
| FeatureGrammar.ScenarioBodyAt | gherkin/src/parser/mod.rs:496-505 | the scenario's description and steps stay within the input |
| FeatureGrammar.AnyOutside | gherkin/src/parser/mod.rs:461-466 | true exactly when some placeholder is not among the first block's names |
| FeatureGrammar.NextExamplesAt | gherkin/src/parser/mod.rs:430-472 | a block read consumes at least one line; a peek error that ends the loop names the line the cursor is on |
| FeatureGrammar.ExamplesHeadAt | gherkin/src/parser/mod.rs:431-448 | a block read consumes at least one line; a peek error names the line the cursor is on |
| FeatureGrammar.ExamplesBlockAt | gherkin/src/parser/mod.rs:450-471 | after its `Examples:` line, the pass always gives a block |
| FeatureGrammar.ExamplesFrom | gherkin/src/parser/mod.rs:430-472 | the `Examples:` loop stays within the input |
| FeatureGrammar.OutlineAt | gherkin/src/parser/mod.rs:410-481 | an outline read consumes at least its header line |
| FeatureGrammar.OutlineBodyAt | gherkin/src/parser/mod.rs:423-480 | the outline's description, steps and examples stay within the input |
| FeatureGrammar.NextSectionAt | gherkin/src/parser/mod.rs:533-547 | a scenario or outline read consumes at least one line |
| FeatureGrammar.BodyFrom | gherkin/src/parser/mod.rs:533-547 | the body loop stays within the input |
| FeatureGrammar.FeatureOf | gherkin/src/parser/mod.rs:508-557 | `match_feature` stays within the input |
| FeatureGrammar.FeatureBodyAt | gherkin/src/parser/mod.rs:525-556 | the feature body stays within the input |
| FeatureGrammar.ParseFeature | gherkin/src/parser/mod.rs:563-566 | `Parser::parse_feature`: `match_feature` over the input's lines; its meaning is stated by `FeatureProperties.FeatureNeedsHeader`, `FeatureBodyEndsAtEof` and `EmptyInputFails`, and `FeatureParser.ParseFeature` computes it; an error at the end of the input is returned where the source panics (see Findings) |
| FeatureParser.CollectTags | gherkin/src/parser/mod.rs:82-89 | the tags collected are the words without '@', or None at the first word that lacks one |
| FeatureParser.ParserInner.constructor | gherkin/src/parser/mod.rs:34-41 | the input's lines, no line consumed, no feature name yet |
| FeatureParser.ParserInner.Peek | gherkin/src/parser/mod.rs:23-30 | the next line, not consumed, or None at the end |
| FeatureParser.ParserInner.Next | gherkin/src/parser/mod.rs:23-30 | the next line, counted as consumed, or None at the end with nothing consumed |
| FeatureParser.ParserInner.MakeError | gherkin/src/parser/mod.rs:48-50 | an error of the given kind at the current line |
| FeatureParser.ParserInner.TakeEmptyOrComment | gherkin/src/parser/mod.rs:52-65 | the cursor moves to where `SkipBlank` says |
| FeatureParser.ParserInner.TryTags | gherkin/src/parser/mod.rs:67-100 | returns what `TagsAt` gives and leaves the cursor where it says |
| FeatureParser.ParserInner.PeekKwLine | gherkin/src/parser/mod.rs:177-203 | returns what `PeekHeaderAt` gives and leaves the cursor where it says |
| FeatureParser.ParserInner.MatchKwLine | gherkin/src/parser/mod.rs:205-234 | returns what `HeaderAt` gives and leaves the cursor where it says |
| FeatureParser.ParserInner.TryDatatable | gherkin/src/parser/mod.rs:236-301 | returns what `DataTableAt` gives and leaves the cursor where it says |
| FeatureParser.ParserInner.ReadRows | gherkin/src/parser/mod.rs:278-298 | the row loop, appending rows to a `DataTable` in place, returns what `RowsFrom` gives |
| FeatureParser.ParserInner.ReadRow | gherkin/src/parser/mod.rs:279-297 | one pass of the row loop either ends it with what `RowsFrom` gives from the old cursor, or appends one row, advances the cursor, and leaves `RowsFrom` from the new cursor and table unchanged |
| FeatureParser.ParserInner.TryDocstring | gherkin/src/parser/mod.rs:367-408 | returns what `DocStringAt` gives and leaves the cursor where it says |
| FeatureParser.ParserInner.ReadDocLines | gherkin/src/parser/mod.rs:387-404 | the doc-string loop returns what `DocLinesFrom` gives |
| FeatureParser.ParserInner.TryFreeformText | gherkin/src/parser/mod.rs:313-365 | returns what `FreeformAt` gives and leaves the cursor where it says |
| FeatureParser.ParserInner.ReadFreeform | gherkin/src/parser/mod.rs:320-364 | the description loop returns what `FreeformFrom` gives |
| FeatureParser.ParserInner.TryStepData | gherkin/src/parser/mod.rs:140-146 | returns what `StepDataAt` gives |
| FeatureParser.ParserInner.NextStep | gherkin/src/parser/mod.rs:106-149 | one pass of the step loop returns what `NextStepAt` gives |
| FeatureParser.ParserInner.ReadStep | gherkin/src/parser/mod.rs:132-146 | consuming the step line and reading its description and data returns what `StepBodyAt` gives from the line after it |
| FeatureParser.ParserInner.ReadStepBody | gherkin/src/parser/mod.rs:132-148 | returns what `StepBodyAt` gives |
| FeatureParser.ParserInner.MatchSteps | gherkin/src/parser/mod.rs:102-175 | returns what `StepsAt` gives and leaves the cursor where it says |
| FeatureParser.ParserInner.TryBackground | gherkin/src/parser/mod.rs:303-311 | returns what `BackgroundAt` gives |
| FeatureParser.ParserInner.ReadBackground | gherkin/src/parser/mod.rs:305-307 | consuming the Background line and matching its steps returns what `StepsAt` gives from the line after it |
| FeatureParser.ParserInner.TryHeading | gherkin/src/parser/mod.rs:486-494 | returns what `HeadingAt` gives |
| FeatureParser.ParserInner.TryScenario | gherkin/src/parser/mod.rs:483-506 | returns what `ScenarioAt` gives and leaves the cursor where it says |
| FeatureParser.ParserInner.ReadScenarioBody | gherkin/src/parser/mod.rs:496-505 | returns what `ScenarioBodyAt` gives |
| FeatureParser.ParserInner.NextExamples | gherkin/src/parser/mod.rs:430-472 | one pass of the `Examples:` loop returns what `NextExamplesAt` gives |
| FeatureParser.ParserInner.ReadExamplesHead | gherkin/src/parser/mod.rs:431-448 | returns what `ExamplesHeadAt` gives |
| FeatureParser.ParserInner.ReadExamplesBlock | gherkin/src/parser/mod.rs:450-471 | returns what `ExamplesBlockAt` gives |
| FeatureParser.ParserInner.MatchExamples | gherkin/src/parser/mod.rs:430-472 | the `Examples:` loop returns what `ExamplesFrom` gives |
| FeatureParser.ParserInner.TryScenarioOutline | gherkin/src/parser/mod.rs:410-481 | returns what `OutlineAt` gives and leaves the cursor where it says |
| FeatureParser.ParserInner.ReadOutlineBody | gherkin/src/parser/mod.rs:423-480 | returns what `OutlineBodyAt` gives |
| FeatureParser.ParserInner.NextSection | gherkin/src/parser/mod.rs:533-547 | one pass of the body loop returns what `NextSectionAt` gives |
| FeatureParser.ParserInner.MatchFeature | gherkin/src/parser/mod.rs:508-557 | returns what `FeatureOf` gives; on success the feature name is recorded, "Unnamed feature" when there is none |
| FeatureParser.ParserInner.ReadFeatureBody | gherkin/src/parser/mod.rs:525-556 | returns what `FeatureBodyAt` gives, keeping the name read |
| FeatureParser.ParserInner.MatchBody | gherkin/src/parser/mod.rs:533-547 | the body loop returns what `BodyFrom` gives |
| FeatureParser.ParseFeature | gherkin/src/parser/mod.rs:563-566 | `parse_feature` returns the feature, or the error with its kind and line, as the grammar gives them; where that line is past the last one the source panics instead (see Findings) |
| FeatureProperties.TagsAtNoTagLine | gherkin/src/parser/mod.rs:70-80 | without a tag line there are no tags and nothing is consumed |
| FeatureProperties.TagsAtTags | gherkin/src/parser/mod.rs:76-99 | the tags are the line's words, trimmed and without '@', in order; the cursor stops at the next line that is neither blank nor a comment, and that line exists |
| FeatureProperties.TagsAtInvalid | gherkin/src/parser/mod.rs:82-87 | a tag line fails with `InvalidTag` at that line exactly when one of its words does not start with '@' |
| FeatureProperties.TagsAtStandalone | gherkin/src/parser/mod.rs:91-97 | valid tags fail exactly when only blank and comment lines follow them, with `StandaloneTags` at end of input |
| FeatureProperties.NextStepDescribed | gherkin/src/parser/mod.rs:134-138 | every step read has a non-empty description |
| FeatureProperties.StepsFromDescribed | gherkin/src/parser/mod.rs:106-150 | the step loop keeps every step described |
| FeatureProperties.StepsFromStep | gherkin/src/parser/mod.rs:106-150 | a step read by one pass is appended, and the loop goes on after it |
| FeatureProperties.StepsAtNonEmpty | gherkin/src/parser/mod.rs:152-154 | `match_steps` yields at least one step, each with a description |
| FeatureProperties.StepsFromNonEmpty | gherkin/src/parser/mod.rs:111-120 | the step loop ends with a result only once it holds a step |
| FeatureProperties.StepsAtEmpty | gherkin/src/parser/mod.rs:111-117 | with no first step, the error says why the loop stopped (end of input, a line that is no keyword line, or another keyword) and where |
| FeatureProperties.RowsFromRectangular | gherkin/src/parser/mod.rs:285-290 | the row loop keeps the header and accepts only rows as wide as it |
| FeatureGrammar.RowsFromStep | gherkin/src/parser/mod.rs:278-298 | one pass of the row loop: it stops at a line that is not a row, fails on a row of another width than the header, and otherwise appends the row and goes on after it |
| FeatureProperties.DataTableRectangular | gherkin/src/parser/mod.rs:236-301 | a table's header is the cells of its first row line, and every row is as wide as the header |
| FeatureProperties.DataTableAbsent | gherkin/src/parser/mod.rs:261-270 | there is no table, with only blank and comment lines consumed, exactly when no row line follows them |
| FeatureProperties.DocLinesTrimmed | gherkin/src/parser/mod.rs:387-404 | the doc-string loop yields a text with no whitespace at either end |
| FeatureProperties.DocStringTrimmed | gherkin/src/parser/mod.rs:367-408 | a doc-string opens at a line that is the delimiter alone and its text is trimmed; with no such line there is none, and nothing else is consumed |
| FeatureProperties.FreeformTrimmed | gherkin/src/parser/mod.rs:320-364 | the description loop yields None or a non-empty text that does not end in whitespace |
| FeatureProperties.FreeformAtTrimmed | gherkin/src/parser/mod.rs:313-365 | `try_freeform_text` yields None or a non-empty text that does not end in whitespace |
| FeatureProperties.FreeformStopsAtKeyword | gherkin/src/parser/mod.rs:323-333 | a description stops, without consuming it, at a line the keyword classifier accepts |
| FeatureText.DocLinesStep | gherkin/src/parser/mod.rs:387-397 | a line that is not the delimiter and carries the indent, or is blank, adds its text after the indent (nothing for a blank line without it) and "\n", and the loop goes on |
| FeatureText.DocLinesCloses | gherkin/src/parser/mod.rs:387-391 | a finished doc-string loop has taken only such interior lines, and the line it consumed last is the delimiter alone |
| FeatureText.DocLinesErrors | gherkin/src/parser/mod.rs:396-403 | it fails either at the end of the input, every line taken being interior, or with the indentation error on the line after the first line that is neither the delimiter, nor blank, nor indented |
| FeatureText.DocLinesContent | gherkin/src/parser/mod.rs:385-397 | its text is the text so far followed by the interior lines' pieces, trimmed at both ends |
| FeatureText.DocStringOpens | gherkin/src/parser/mod.rs:376-385 | past blank and comment lines, a line that is the delimiter alone opens the loop with that line's ASCII whitespace as indent |
| FeatureText.DocStringContent | gherkin/src/parser/mod.rs:367-408 | a doc-string opens and closes on delimiter lines, every line between is interior for the opening line's indent, and its text is their pieces, trimmed |
| FeatureText.DocOpenedContent | gherkin/src/parser/mod.rs:383-397 | the same, from the line after the opening line |
| FeatureText.DocStringErrors | gherkin/src/parser/mod.rs:367-404 | an error comes only after an opening line: unterminated at the end of the input, or the indentation error after a misindented line |
| FeatureText.DocOpenedErrors | gherkin/src/parser/mod.rs:387-403 | the same, from the line after the opening line |
| FeatureText.StepDataTableFirst | gherkin/src/parser/mod.rs:140-146 | a table line after blank and comment lines makes the step data that table or its error, with no doc-string looked for; otherwise the data is what `try_docstring` gives from the same place |
| FeatureText.StepDataTable | gherkin/src/parser/mod.rs:140-141 | with a table line, the step data is the table read, or its error |
| FeatureText.StepDataDocString | gherkin/src/parser/mod.rs:142-146 | without one, the step data is the doc-string read from the same place, or its error, or nothing |
| FeatureText.FreeformStep | gherkin/src/parser/mod.rs:326-352 | once the indent is fixed, a blank line adds nothing and an indented line that is no keyword line adds its text after the indent and "\n", and the loop goes on |
| FeatureText.FreeformPasses | gherkin/src/parser/mod.rs:322-356 | a finished loop stops at the end or at a non-blank keyword line, left in place, having passed only blank lines and indented non-keyword lines |
| FeatureText.FreeformErrors | gherkin/src/parser/mod.rs:335-338 | it fails only with the indentation error, on the first line that is not blank, not a keyword line, and lacks the indent |
| FeatureText.FreeformFailsOn | gherkin/src/parser/mod.rs:335-338 | the line a failure names is such a misindented line |
| FeatureText.FreeformFailsAfter | gherkin/src/parser/mod.rs:322-352 | every line before it is one the loop passes |
| FeatureText.FreeformContent | gherkin/src/parser/mod.rs:335-364 | its outcome is the text so far and the pieces of the lines passed, with trailing whitespace dropped, and None when nothing is left |
| FeatureText.FreeformContentStop | gherkin/src/parser/mod.rs:331-364 | where the loop stops, the text so far is finished as it stands |
| FeatureText.FreeformFirst | gherkin/src/parser/mod.rs:341-350 | the first line taken fixes the indent to its ASCII whitespace and is taken without it |
| FeatureText.FreeformFirstErrors | gherkin/src/parser/mod.rs:322-352 | from that line on, it fails only on the first later misindented line |
| FeatureText.FreeformFirstContent | gherkin/src/parser/mod.rs:322-364 | from that line on, its text is the pieces of the lines passed, from that line to the stop |
| FeatureText.FreeformAtNothing | gherkin/src/parser/mod.rs:313-333 | with nothing but blank and comment lines before the end or a keyword line, `try_freeform_text` gives None and stops there |
| FeatureText.FreeformAtContent | gherkin/src/parser/mod.rs:313-364 | otherwise its text is the first line and the lines passed after it, de-indented by the first line's indent, blank ones adding nothing, trimmed at the end, up to the end or a keyword line |
| FeatureText.FreeformAtErrors | gherkin/src/parser/mod.rs:313-352 | it fails only on the first later line that lacks the first line's indent and is neither blank nor a keyword line |
| FeatureProperties.ExamplesBlockChecked | gherkin/src/parser/mod.rs:450-471 | a block read was built by `TaggedScenarios::new`, has its tag line's tags, and names no column outside the first block's |
| FeatureProperties.NextExamplesChecked | gherkin/src/parser/mod.rs:430-472 | every block a pass yields is well formed and within the first block's columns |
| FeatureProperties.ExamplesFromChecked | gherkin/src/parser/mod.rs:430-472 | the `Examples:` loop yields at least one block, all well formed, with later blocks' columns among the first's |
| FeatureProperties.ExamplesSubsetOfFirst | gherkin/src/parser/mod.rs:461-466 | an outline has at least one examples block, each well formed, and every later block's placeholders are among the first block's (one-sided: a later block may omit a column) |
| FeatureProperties.BodyFromEndsAtEof | gherkin/src/parser/mod.rs:533-547 | the body loop succeeds only at end of input, keeping the sections read so far in front |
| FeatureGrammar.BodyFromStep | gherkin/src/parser/mod.rs:533-547 | each pass appends the scenario or outline read; with neither it stops, with success at end of input and `ExpectedScenario` before it |
| FeatureProperties.OutlineTagsLost | gherkin/src/parser/mod.rs:483-494 | tags before a Scenario Outline are consumed by the scenario attempt, so the outline read after it has no tags |
| FeatureProperties.ScenarioGivesWay | gherkin/src/parser/mod.rs:483-494 | a scenario attempt at tags followed by another keyword line reads the tags and stops at that line |
| FeatureProperties.BodyFromLeftover | gherkin/src/parser/mod.rs:540-546 | content that starts no scenario and no outline is an `ExpectedScenario` error at its line |
| FeatureProperties.FeatureBodyEndsAtEof | gherkin/src/parser/mod.rs:525-556 | a feature is read to the end of input, with its tags and name kept |
| FeatureProperties.EmptyInputFails | gherkin/src/parser/mod.rs:509-515 | empty input fails for want of a Feature line, at line 0 |
| FeatureProperties.BlankInputPanicsAsWritten | gherkin/src/parser/mod.rs:43-50 | input of only blank and comment lines fails at the line after the last, where `format_error` has no line to show |
| FeatureProperties.StepsAtEndPanicsAsWritten | gherkin/src/parser/mod.rs:102-117 | `match_steps` with only blank and comment lines left fails with the end-of-input error at the line after the last, where `format_error` has no line to show |
| FeatureProperties.ScenarioBodyEndPanicsAsWritten | gherkin/src/parser/mod.rs:43-50 | a scenario heading followed only by blank and comment lines fails the same way: no description, and the steps fail past the last line |
| FeatureProperties.BackgroundAtOutcome | gherkin/src/parser/mod.rs:303-311 | `try_background` reads the steps of `match_steps` from the line after the one its peek stops on, the first past blank and comment lines, exactly when the peek finds a Background header there; otherwise no steps, standing on that line; it fails only when the peek found one |
| FeatureProperties.PeekedBackground | gherkin/src/parser/mod.rs:303-304 | that peek finds a Background header exactly when the first line past blank and comment lines is a Background line |
| FeatureProperties.FeatureNeedsHeader | gherkin/src/parser/mod.rs:509-515 | a feature is read only when, after its tags, blank lines and comments, the next line is a Feature line |
| Lex.DocLinesFrom | gherkin/src/lex.rs:151-175 | a closed doc-string ends after the line it started on, within the text |
| Lex.DocTokenAt | gherkin/src/lex.rs:128-179 | a doc-string token starts at the current line and covers at least one line |
| Lex.TableRowsFrom | gherkin/src/lex.rs:200-207 | the row loop stays within the text |
| Lex.TableTokenAt | gherkin/src/lex.rs:181-217 | a table token starts at the current line and covers at least one line |
| Lex.LineTokenAt | gherkin/src/lex.rs:102-117 | a line that starts no doc-string and no table: a Comment without its '#' or a Line, trimmed, covering that one line; its meaning is stated by `LineTokenFaithful` |
| Lex.NextTokenAt | gherkin/src/lex.rs:97-123 | a token starts at the current line and covers at least one line |
| Lex.TokensFrom | gherkin/src/lex.rs:97-123 | the lexer loop from a line on: the tokens in order, or the first doc-string error; its meaning is stated by `TokensTile` and `TokensFaithful` |
| Lex.Tokenize | gherkin/src/lex.rs:60-62 | `lex`: the tokens of the text's lines from line 0; its meaning is stated by `TokenizeCoversText` and `ExtractsGiveText` |
| Lex.Extract | gherkin/src/lex.rs:51-57 | `Token::extract`: the token's lines run together; its meaning is stated by `ExtractTiles` and `ExtractsGiveText` |
| Lex.TilesMeaning | gherkin/src/lex.rs:97-123 | tiling tokens start at the first line, end at the last, each begins where the previous ends, and none is empty |
| Lex.TokensTile | gherkin/src/lex.rs:97-123 | the tokens from a line cover exactly the lines from it to the end |
| Lex.DocLinesClosed | gherkin/src/lex.rs:151-173 | a doc-string closes at its first closing line; every line before it carries the indent, and the text is those lines de-indented |
| Lex.DocLinesFailed | gherkin/src/lex.rs:165-175 | an unclosed doc-string fails at the end of the text; a line without the indent fails, reporting the line count after it |
| Lex.TableRowsOutcome | gherkin/src/lex.rs:200-207 | a table takes every following row line up to the first other line, one row each, with no width check |
| Lex.DocTokenFaithful | gherkin/src/lex.rs:128-179 | a doc-string token agrees with the lines it covers |
| Lex.TableTokenFaithful | gherkin/src/lex.rs:181-217 | a table token agrees with the lines it covers |
| Lex.LineTokenFaithful | gherkin/src/lex.rs:102-117 | a single-line token is the trimmed line, a Comment without its '#' when it starts with one |
| Lex.NextTokenFaithful | gherkin/src/lex.rs:97-123 | each pass yields a token that agrees with its lines, and yields nothing exactly at the end of the text |
| Lex.TokensFaithful | gherkin/src/lex.rs:97-123 | every token agrees with the lines it covers |
| Lex.TokenizeCoversText | gherkin/src/lex.rs:60-62 | `lex` tiles the text's lines with tokens that each agree with their lines |
| Lex.ExtractTiles | gherkin/src/lex.rs:51-57 | tiling tokens' extracts, run together, are exactly the lines they cover |
| Lex.ExtractsGiveText | gherkin/src/lex.rs:51-62 | the extracts of all of a text's tokens give back its lines, run together |
| Lex.Lexer.constructor | gherkin/src/lex.rs:88-93 | the text's lines, none consumed |
| Lex.Lexer.PeekLine | gherkin/src/lex.rs:135-138 | the next line, not consumed, or None at the end |
| Lex.Lexer.NextLine | gherkin/src/lex.rs:78-85 | the next line, counted, or None at the end with the count unchanged |
| Lex.Lexer.ReadDocLines | gherkin/src/lex.rs:151-175 | the doc-string loop returns what `DocLinesFrom` gives, the count ending after the closing line or at the error's line |
| Lex.Lexer.TokenizeDocstring | gherkin/src/lex.rs:128-179 | returns what `DocTokenAt` gives; the count ends at the token's end, at the error's line, or is unchanged |
| Lex.Lexer.ReadTableRows | gherkin/src/lex.rs:200-207 | the row loop returns and counts what `TableRowsFrom` gives |
| Lex.Lexer.TokenizeTable | gherkin/src/lex.rs:181-217 | returns what `TableTokenAt` gives, the count ending at the token's end |
| Lex.Lexer.NextToken | gherkin/src/lex.rs:97-123 | one pass of the lexer loop returns what `NextTokenAt` gives |
| Lex.Lex | gherkin/src/lex.rs:60-62 | `lex` returns the tokens `Tokenize` gives, or the first error |
| TokenGrammar.Entry | gherkin/src/parse.rs:505-551 | the spelling of the deciding entry is never longer than the line |
| TokenGrammar.ContentsMeaning | gherkin/src/parse.rs:505-551 | the contents are the trimmed text with a trailing colon removed and flagged; an empty text or a lone colon gives None |
| TokenGrammar.ParseLine | gherkin/src/parse.rs:505-551 | `parse_line`: None for an empty line, `InvalidKeyword` when no spelling starts it, else the keyword and its contents; its meaning is stated by `ParseLineOutcome` |
| TokenGrammar.ParseLineOutcome | gherkin/src/parse.rs:505-551 | an empty line gives None; no spelling gives `InvalidKeyword`; otherwise the first spelling starting the line decides, the colon flag says whether a colon follows it, and the contents come from the rest |
| TokenGrammar.PeekKwFrom | gherkin/src/parse.rs:417-473 | a keyword line found is left unconsumed, within the tokens |
| TokenGrammar.PeekKwFound | gherkin/src/parse.rs:417-473 | `peek_kw_line` stops at a keyword line with its colon in place, every token before it passed over |
| TokenGrammar.PeekKwAt | gherkin/src/parse.rs:417-473 | a keyword line with its colon in place, after tokens `peek_kw_line` passes over, is what it returns, unconsumed |
| TokenGrammar.PeekKwFails | gherkin/src/parse.rs:417-473 | it fails at the end, at a line no spelling starts, or at another token, which is consumed, reporting the end line of the last token consumed |
| TokenGrammar.PeekInputFrom | gherkin/src/parse.rs:475-503 | an input found is left unconsumed, within the tokens |
| TokenGrammar.PeekInputAsWritten | gherkin/src/parse.rs:475-503 | the cursor stays within the tokens |
| TokenGrammar.PromptAt | gherkin/src/parse.rs:338-344 | the prompt consumes at least the step line |
| TokenGrammar.PeekInputSkipsOnlyComments | gherkin/src/parse.rs:475-503 | corrected `peek_input` consumes only comments, stops at a table or doc-string it returns, and otherwise at a line or the end |
| TokenGrammar.PromptKeepsLines | gherkin/src/parse.rs:338-344 | the prompt keeps its text and consumes no line token after the step line |
| TokenGrammar.PromptAsWritten | gherkin/src/parse.rs:338-344 | the prompt with `peek_input` as written; `PromptAsWrittenLosesLine` states the step line it loses |
| TokenGrammar.PromptAsWrittenLosesLine | gherkin/src/parse.rs:488-493 | as written, "Given nothing" consumes the next step line; corrected, it stops before it |
| TokenGrammar.AndsButsFrom | gherkin/src/parse.rs:352-395 | the And/But loop keeps the prompts already read in front; each pass is stated by `AndsButsLine` and `AndsButsEnd` |
| TokenGrammar.AndsButsLine | gherkin/src/parse.rs:352-395 | an And or But line with text appends its prompt to the ands or the buts and the loop goes on after it; a bare And or But is refused with the line consumed; `*` is not supported; another keyword ends the loop with that line left in place |
| TokenGrammar.AndsButsEnd | gherkin/src/parse.rs:352-395 | when no keyword line can be peeked the loop ends with the prompts read |
| TokenGrammar.AndsButsKeepFirst | gherkin/src/parse.rs:336-352 | started from a step line's prompt, the ands begin with it |
| TokenGrammar.StepsFrom | gherkin/src/parse.rs:318-405 | the step loop stays within the tokens; each pass is stated by `StepsLine` and `StepsEnd` |
| TokenGrammar.StepsLine | gherkin/src/parse.rs:325-402 | a Given, When or Then line with text appends a step of that type whose first prompt is the line's, with the ands and buts after it, unless the And/But loop fails; a bare one is refused with the line consumed; `*` is not supported; another keyword ends the steps with that line left in place |
| TokenGrammar.StepsEnd | gherkin/src/parse.rs:325-404 | when no keyword line can be peeked the steps read so far are the result |
| TokenGrammar.StepsWellFormed | gherkin/src/parse.rs:318-405 | steps are appended to those read, each of type Given, When or Then with at least one prompt |
| TokenGrammar.FirstNonGiven | gherkin/src/parse.rs:289-292 | the first step that is not a Given, or None when all are |
| TokenGrammar.BackgroundAt | gherkin/src/parse.rs:273-316 | `parse_background` stays within the tokens |
| TokenGrammar.BackgroundStepsAt | gherkin/src/parse.rs:286-313 | the background's steps stay within the tokens |
| TokenGrammar.BackgroundStepsOutcome | gherkin/src/parse.rs:286-313 | a background is refused exactly when a step is not a Given, naming the first one's type; otherwise its prompts are the steps' in order |
| TokenGrammar.FreeformAsWrittenHangs | gherkin/src/parse.rs:224-271 | as written, the description loop never ends once it meets a comment |
| TokenGrammar.FreeformAsWritten | gherkin/src/parse.rs:224-271 | the description loop as written, ending or hanging; `FreeformAsWrittenHangs` states that a comment makes it hang |
| TokenGrammar.FreeformFrom | gherkin/src/parse.rs:224-271 | the corrected description loop stays within the tokens |
| TokenGrammar.FreeformStops | gherkin/src/parse.rs:224-271 | it takes lines and comments up to a Background, Example or Scenario Outline line, or the end |
| TokenGrammar.FreeformText | gherkin/src/parse.rs:224-271 | its text is that of the lines taken, trimmed, with comments adding nothing |
| TokenGrammar.FreeformStep | gherkin/src/parse.rs:224-271 | a token the loop takes adds its piece and moves on |
| TokenGrammar.FirstIndexOf | gherkin/src/parse.rs:151-152 | the first position of the character, or None exactly when it does not occur |
| TokenGrammar.LanguageOf | gherkin/src/parse.rs:151-153 | the language a comment declares: split at the first ':', the left part exactly "language", the right part trimmed; its meaning is stated by `LanguageOfDeclaration` and `LanguageOfNeedsKeyFirst` |
| TokenGrammar.LanguageTags | gherkin/src/parse.rs:149-160 | the languages the comment tokens declare, in token order; `LanguageOutcome` states how `parse` uses them |
| TokenGrammar.LanguageOfDeclaration | gherkin/src/parse.rs:149-160 | a comment `language:` followed by text declares that text, trimmed |
| TokenGrammar.LanguageOfNeedsKeyFirst | gherkin/src/parse.rs:149-160 | a comment not starting with the key itself declares nothing |
| TokenGrammar.BlockAt | gherkin/src/parse.rs:184-207 | a block consumes at least its keyword line |
| TokenGrammar.BodyFrom | gherkin/src/parse.rs:183-212 | the body loop stays within the tokens |
| TokenGrammar.BlockOutcome | gherkin/src/parse.rs:184-207 | a block comes from an Example line, named from its text, with the steps after it; a Background line is refused |
| TokenGrammar.BodyOutcome | gherkin/src/parse.rs:183-212 | the body yields at least one block and reads to the last token; an empty body fails |
| TokenGrammar.FeatureBodyAt | gherkin/src/parse.rs:177-221 | after the Feature line: the description, the background, then the body, the first error ending it; its parts are stated by `FreeformText`, `BackgroundStepsOutcome` and `BodyOutcome` |
| TokenGrammar.Parse | gherkin/src/parse.rs:148-222 | `parse`: the language, then the Feature line (`NotAFeature` for another keyword), then the feature body; its meaning is stated by `LanguageOutcome` and `PeekKwFails` |
| TokenGrammar.ParseFeature | gherkin/src/parse.rs:100-103 | `parse_feature`: a lexing error with its own line, else what `parse` gives; `EmptyInputFails` states it for empty input |
| TokenGrammar.EmptyInputFails | gherkin/src/test.rs:3-6 | empty input is refused with the end-of-input error at line 0, met while looking for the Feature line |
| TokenGrammar.LanguageOutcome | gherkin/src/parse.rs:149-166 | more than one language comment is refused at line 0; otherwise the language is the one declared, or "en" |
| TokenParser.Parser.constructor | gherkin/src/parse.rs:111-116 | the tokens, none consumed |
| TokenParser.Parser.MakeError | gherkin/src/parse.rs:118-127 | an error of the given kind at the current end line |
| TokenParser.Parser.PeekToken | gherkin/src/parse.rs:129-134 | the kind of the next token, not consumed |
| TokenParser.Parser.ConsumeToken | gherkin/src/parse.rs:136-146 | the next token, consumed, its end line becoming the current one |
| TokenParser.Parser.PeekKwLine | gherkin/src/parse.rs:417-473 | returns what `PeekKwFrom` gives and leaves the cursor where it says |
| TokenParser.Parser.MatchKwLine | gherkin/src/parse.rs:407-415 | the keyword line `PeekKwFrom` finds, consumed |
| TokenParser.Parser.PeekInput | gherkin/src/parse.rs:475-503 | returns what corrected `PeekInputFrom` gives |
| TokenParser.Parser.ReadPrompt | gherkin/src/parse.rs:338-344 | the prompt and cursor `PromptAt` gives |
| TokenParser.Parser.ReadAndsButs | gherkin/src/parse.rs:352-395 | returns what `AndsButsFrom` gives |
| TokenParser.Parser.ReadAndBut | gherkin/src/parse.rs:353-395 | one pass of the And/But loop either ends it with what `AndsButsFrom` gives, or consumes one And or But line and its input, leaving the outcome of `AndsButsFrom` unchanged |
| TokenParser.Parser.ParseSteps | gherkin/src/parse.rs:318-405 | returns what `StepsFrom` gives |
| TokenParser.Parser.ReadStep | gherkin/src/parse.rs:325-402 | one pass of the step loop either ends it with what `StepsFrom` gives, or reads one step with its Ands and Buts, leaving the outcome of `StepsFrom` unchanged |
| TokenParser.Parser.ParseBackground | gherkin/src/parse.rs:273-316 | returns what `BackgroundAt` gives |
| TokenParser.Parser.ParseFreeformText | gherkin/src/parse.rs:224-271 | returns what corrected `FreeformFrom` gives |
| TokenParser.Parser.ReadBlock | gherkin/src/parse.rs:184-207 | one pass of the body loop returns what `BlockAt` gives |
| TokenParser.Parser.ReadBody | gherkin/src/parse.rs:183-212 | the body loop returns what `BodyFrom` gives |
| TokenParser.Parser.Parse | gherkin/src/parse.rs:148-222 | returns what `TokenGrammar.Parse` gives |
| TokenParser.ParseFeature | gherkin/src/parse.rs:100-103 | the text is lexed and the tokens parsed, as `TokenGrammar.ParseFeature` gives |
| LegacyGrammar.HasColon | gherkin/src/lib.rs:73-87 | a keyword takes a colon exactly when it is not a step keyword |
| LegacyGrammar.Entry | gherkin/src/lib.rs:109-114 | the spelling of the deciding entry is never longer than the line |
| LegacyGrammar.Decide | gherkin/src/lib.rs:116-133 | what the deciding entry makes of the line: refused when the colon disagrees with the keyword, else the rest trimmed at the start, with its last character dropped when stripping and it ends in ':' once trimmed at the end; its meaning is stated by `ParseOutcome` and `ParseTrailingColon` |
| LegacyGrammar.ParseWith | gherkin/src/lib.rs:108-134 | `Keyword::parse` over a spelling table; its meaning is stated by `ParseOutcome` |
| LegacyGrammar.ParseAsWritten | gherkin/src/lib.rs:89-134 | `Keyword::parse` with the table as written; `ExamplesRefusedAsWritten` and `ScenariosRefusedAsWritten` state what it refuses |
| LegacyGrammar.Parse | gherkin/src/lib.rs:108-134 | `Keyword::parse` with the corrected table; `ExamplesAccepted` and `ScenariosAccepted` state what it accepts |
| LegacyGrammar.ParseOutcome | gherkin/src/lib.rs:108-134 | a line is refused exactly when no spelling starts it, or the colon disagrees with the keyword; the keyword is that of the first spelling starting it |
| LegacyGrammar.ParseTrailingColon | gherkin/src/lib.rs:127-133 | the flag is set only when stripping is asked for and the rest, trimmed at the end, ends in ':'; the rest then loses its last character, which is the colon only when no whitespace follows it |
| LegacyGrammar.ExamplesRefusedAsWritten | gherkin/src/lib.rs:89-106 | as written, a line starting "Examples:" is refused |
| LegacyGrammar.ScenariosRefusedAsWritten | gherkin/src/lib.rs:89-106 | as written, a line starting "Scenarios:" is refused |
| LegacyGrammar.ExamplesAccepted | gherkin/src/lib.rs:89-106 | with the corrected table, a line starting "Examples:" is an Examples line |
| LegacyGrammar.ScenariosAccepted | gherkin/src/lib.rs:89-106 | with the corrected table, a line starting "Scenarios:" is an Examples line |
| LegacyGrammar.SkipBlank | gherkin/src/lib.rs:161-174 | the position reached lies between the start and the end |
| LegacyGrammar.SkipBlankStops | gherkin/src/lib.rs:161-174 | exactly the blank and comment lines are passed over |
| LegacyGrammar.MatchKwAt | gherkin/src/lib.rs:176-208 | the cursor stays within the input |
| LegacyGrammar.MatchKwOutcome | gherkin/src/lib.rs:176-208 | after blank and comment lines, one line is consumed; end of input and an unclassifiable line are errors; a header has that line's keyword, the wanted one when asked, and a rest that is None exactly when empty |
| LegacyGrammar.FreeformFrom | gherkin/src/lib.rs:217-258 | the description loop stays within the input |
| LegacyGrammar.FreeformAt | gherkin/src/lib.rs:210-259 | `try_freeform_text` stays within the input |
| LegacyGrammar.EndsFreeform | gherkin/src/lib.rs:220-229 | a line that ends the description: an Example, Background or Scenario Outline line once trimmed at the start; `FreeformStops` states that the loop stops there |
| LegacyGrammar.DocLinesFrom | gherkin/src/lib.rs:279-295 | the doc-string loop stays within the input |
| LegacyGrammar.DocStringAt | gherkin/src/lib.rs:261-299 | `try_docstring` stays within the input |
| LegacyGrammar.FreeformStep | gherkin/src/lib.rs:219-252 | a line the loop takes adds its de-indented text and moves on |
| LegacyGrammar.FreeformStops | gherkin/src/lib.rs:219-252 | once the indent is fixed, the loop takes lines that carry it, up to an ending line or the end |
| LegacyGrammar.FreeformFailsAt | gherkin/src/lib.rs:231-234 | it fails with `FreeformIndent` at a line within the input |
| LegacyGrammar.FreeformText | gherkin/src/lib.rs:219-258 | its text is the lines taken, de-indented, each followed by a newline |
| LegacyGrammar.FreeformFirst | gherkin/src/lib.rs:237-246 | the first line fixes the indent and adds its de-indented text |
| LegacyGrammar.FreeformAtNone | gherkin/src/lib.rs:210-259 | None exactly when only blank and comment lines are consumed |
| LegacyGrammar.FreeformAtText | gherkin/src/lib.rs:210-259 | the text is the lines taken, de-indented by the first one's indent, stopping at an ending line or the end |
| LegacyGrammar.FreeformAtIndent | gherkin/src/lib.rs:210-259 | every line taken after the first carries its indent; a failure is at the first line that does not |
| LegacyGrammar.DocLinesStops | gherkin/src/lib.rs:279-295 | the doc-string consumes interior lines and its closing line; the end of input or a line without the indent is an error |
| LegacyGrammar.DocLinesText | gherkin/src/lib.rs:279-295 | its text is the interior lines, de-indented, each followed by a newline |
| LegacyGrammar.DocLinesFromStart | gherkin/src/lib.rs:279-295 | the same, starting from no text |
| LegacyGrammar.DocStringAtNone | gherkin/src/lib.rs:261-270 | None, with the next line left in place, exactly when that line does not start with the quotes |
| LegacyGrammar.DocStringAtLines | gherkin/src/lib.rs:261-299 | a doc-string runs from an opening line to a closing line, the lines between carrying the opening indent |
| LegacyGrammar.DocStringAtText | gherkin/src/lib.rs:261-299 | its text is the lines between, de-indented |
| LegacyGrammar.EmptyInputFails | gherkin/src/lib.rs:311-321 | empty input fails for want of a line |
| LegacyGrammar.ParseFeature | gherkin/src/lib.rs:311-321 | `parse_feature`: the Feature line, then the description; no input yields a feature, so the result is the first error or `Unsupported` for the `todo!`; `EmptyInputFails`, `MatchKwOutcome` and the `FreeformAt*` lemmas state its parts |
| LegacyParser.ParserInner.constructor | gherkin/src/lib.rs:145-150 | the input's lines, none consumed |
| LegacyParser.ParserInner.Peek | gherkin/src/lib.rs:152-154 | the next line, not consumed |
| LegacyParser.ParserInner.Next | gherkin/src/lib.rs:305-307 | the next line, consumed, or None at the end |
| LegacyParser.ParserInner.MakeError | gherkin/src/lib.rs:156-159 | the error is its message alone |
| LegacyParser.ParserInner.TakeEmptyOrComment | gherkin/src/lib.rs:161-174 | the cursor moves to where `SkipBlank` says |
| LegacyParser.ParserInner.MatchKwLine | gherkin/src/lib.rs:176-208 | returns what `MatchKwAt` gives and leaves the cursor where it says |
| LegacyParser.ParserInner.TryFreeformText | gherkin/src/lib.rs:210-259 | returns what `FreeformAt` gives |
| LegacyParser.ParserInner.ReadFreeform | gherkin/src/lib.rs:217-258 | the description loop returns what `FreeformFrom` gives |
| LegacyParser.ParserInner.ReadFreeformLine | gherkin/src/lib.rs:220-252 | one pass of the description loop either ends it with what `FreeformFrom` gives, or takes one line, advances the cursor, and leaves the outcome of `FreeformFrom` unchanged |
| LegacyParser.ParserInner.TakeFirstLine | gherkin/src/lib.rs:237-248 | the first description line fixes the indent and is taken de-indented; the outcome of `FreeformFrom` is unchanged |
| LegacyParser.ParserInner.TakeIndentedLine | gherkin/src/lib.rs:231-248 | a later line without the indent fails with the indentation error; one with it is taken de-indented, leaving the outcome of `FreeformFrom` unchanged |
| LegacyParser.ParserInner.TryDocstring | gherkin/src/lib.rs:261-299 | returns what `DocStringAt` gives |
| LegacyParser.ParseFeature | gherkin/src/lib.rs:311-321 | `parse_feature` ends with the first error, or with the unfinished branch |

## Left out

- `make_error` message texts, `format_error`'s layout and the `wanted` lists of `parse.rs` errors: an error is its kind and its line.
- Keyword matching lower-cases ASCII letters only, as `parser/keyword.rs` and `lib.rs` do; the `to_lowercase` of `parse.rs` (line 510) also folds other Unicode letters, which its model does not.
- The duplicate-step warning of `match_steps` (`parser/mod.rs` 156-172) is a log message behind a cargo feature and changes no result.
- `StepData::replace` on a data table is not part of this model; outline expansion leaves a table unchanged and replaces only in doc-strings.
- The `panic!` and `todo!` branches of `parse.rs` and `lib.rs` become an `Unsupported` error.
- `lib.rs` builds no feature before its `todo!`, so its value types (lines 7-56) are not modelled, and `LegacyGrammar.ParseFeature` returns only the error that ends the run.
- `Peekable` iterators and borrowed `&str` lifetimes are modelled as an index into the lines or tokens.
- The test modules are used as evidence for the findings and for `OutlineExample`; they are not models.
- `examples/parse_feature.rs` reads a file and prints; the `cucumber` crates are not part of this model.
- FeatureGrammar.TagsAt, RowsFrom, DataTableAt, DocLinesFrom, DocStringAt, StepDataAt, StepBodyAt, StepsFrom, StepsAt, BackgroundAt, FreeformFrom, FreeformAt, ScenarioBodyAt, ExamplesFrom, OutlineBodyAt, BodyFrom, FeatureOf and FeatureBodyAt state only that the cursor stays within the input; what they return is stated by the `FeatureProperties` and `FeatureText` lemmas named in their rows and tied to the source by the `ParserInner` methods.
- TokenGrammar.StepsFrom, AndsButsFrom, BackgroundAt, FreeformFrom and BodyFrom state only cursor bounds; their meaning is in `StepsLine`/`StepsEnd`/`StepsWellFormed`, `AndsButsLine`/`AndsButsEnd`, `BackgroundStepsOutcome`, `FreeformStops`/`FreeformText` and `BodyOutcome`.
- LegacyGrammar.MatchKwAt, FreeformFrom, FreeformAt, DocLinesFrom and DocStringAt state only cursor bounds; their meaning is in the `MatchKwOutcome`, `Freeform*` and `DocLines*`/`DocStringAt*` lemmas.
- Lex.TableRowsFrom and DocLinesFrom state only where they stop; their meaning is in `TableRowsOutcome`, `DocLinesClosed` and `DocLinesFailed`.
- Keyword.Finish: drops the last character of a rest that ends in a colon; `parser/keyword.rs` line 75 drops the last byte, and so panics when the rest ends in a multi-byte whitespace character after the colon (such as U+00A0, reachable through `peek_kw_line(true)`). Strings are modelled as characters, not UTF-8 bytes, so that panic is not modelled.
- LegacyGrammar.Decide: drops the last character of a rest whose end-trimmed text ends in a colon; `lib.rs` line 130 drops the last byte, and so panics when a multi-byte whitespace character follows the colon. Every call in `lib.rs` passes `false` for stripping, so `parse_feature` never reaches that panic, and it is not modelled.
- TokenGrammar.PromptAt: uses the corrected `peek_input` (`PeekInputFrom`, see Findings), so the Line token after a bare step is kept; `parse.rs` as written consumes it (`PeekInputAsWritten`, `PromptAsWrittenLosesLine`).
- TokenGrammar.AndsButsFrom: built on the corrected `PromptAt`, not on `parse.rs` lines 488-493 as written.
- TokenGrammar.StepsFrom: built on the corrected `PromptAt`; for the `KIND_OF_EMPTY` feature of test.rs it gives the three steps the test expects, where `parse.rs` as written gives two.
- TokenGrammar.StepsWellFormed: states the outcome of the corrected `StepsFrom`, not of `parse.rs` as written.
- TokenGrammar.BackgroundAt: its steps come from the corrected `StepsFrom`.
- TokenGrammar.BackgroundStepsAt: uses the corrected `StepsFrom`.
- TokenGrammar.BackgroundStepsOutcome: states the outcome of the corrected background steps.
- TokenGrammar.BlockAt: its steps come from the corrected `StepsFrom`.
- TokenGrammar.BlockOutcome: states the outcome of the corrected `BlockAt`.
- TokenGrammar.BodyFrom: built on the corrected `BlockAt`.
- TokenGrammar.BodyOutcome: states the outcome of the corrected `BodyFrom`.
- TokenGrammar.FeatureBodyAt: uses the corrected description loop (`FreeformFrom`, which consumes a Comment token) and the corrected steps; `parse.rs` line 248 as written never ends on a comment after the Feature line (`FreeformAsWrittenHangs`).
- TokenGrammar.Parse: a feature where `parse.rs` as written does not terminate or drops a Line token, as `FeatureBodyAt` says.
- TokenGrammar.ParseFeature: the same, from the text.
- TokenParser.Parser.ReadPrompt: computes the corrected `PromptAt`.
- TokenParser.Parser.ReadAndsButs: computes the corrected `AndsButsFrom`.
- TokenParser.Parser.ReadAndBut: one pass of the corrected `AndsButsFrom`.
- TokenParser.Parser.ParseSteps: computes the corrected `StepsFrom`.
- TokenParser.Parser.ReadStep: one pass of the corrected `StepsFrom`.
- TokenParser.Parser.ParseBackground: computes the corrected `BackgroundAt`.
- TokenParser.Parser.ReadBlock: computes the corrected `BlockAt`.
- TokenParser.Parser.ReadBody: computes the corrected `BodyFrom`.
- TokenParser.Parser.Parse: computes the corrected `Parse`.
- TokenParser.ParseFeature: computes the corrected `ParseFeature`.
- LegacyGrammar.MatchKwAt: classifies with the corrected keyword table (`Spellings`, see Findings), so a line "Examples:" is an Examples header; `lib.rs` lines 91-92 as written refuse it, and `parse_feature` then ends with the unknown-keyword error (`ExamplesRefusedAsWritten`).
- LegacyGrammar.MatchKwOutcome: states `match_kw_line` under the corrected table.
- LegacyParser.ParserInner.MatchKwLine: computes the corrected `MatchKwAt`.
- LegacyGrammar.ParseFeature: goes through the corrected `MatchKwAt`; for an input starting "Examples:" it gives the wrong-keyword error where `lib.rs` as written gives the unknown-keyword one.
- LegacyParser.ParseFeature: computes the corrected `LegacyGrammar.ParseFeature`.
- FeatureGrammar.ParseFeature: returns every error with its line; `parser/mod.rs` lines 43-46 as written panic instead for any error raised at the end of the input (`BlankInputPanicsAsWritten`, `StepsAtEndPanicsAsWritten`, `ScenarioBodyEndPanicsAsWritten`, see Findings).
- FeatureParser.ParseFeature: returns the error where `parser/mod.rs` panics, as `FeatureGrammar.ParseFeature` says.

## Findings

| source | as written | input that shows it | evidently intended | confidence | as-written member | corrected member |
|---|---|---|---|---|---|---|
| gherkin/src/lib.rs:91-92 | the Examples spellings are "examples:" and "scenarios:", colon included, and `parse` then demands another colon after them | the line "Examples:" | the table of `parser/keyword.rs`: "examples" and "scenarios", with the colon checked after | not executed | LegacyGrammar.ExamplesRefusedAsWritten | LegacyGrammar.ExamplesAccepted |
| gherkin/src/parse.rs:248 | the freeform loop matches a Comment token without consuming it, so it meets the same token forever | a comment line between the Feature line and the first scenario | consume the comment and go on | not executed | TokenGrammar.FreeformAsWrittenHangs | TokenGrammar.FreeformText |
| gherkin/src/parse.rs:488-493 | `peek_input` consumes the token that is not an input before failing, and `parse_steps` ignores the failure | the `KIND_OF_EMPTY` feature of test.rs: "When the base is empty" is lost after "Given nothing" | leave that token in place, as test.rs expects | not executed | TokenGrammar.PromptAsWrittenLosesLine | TokenGrammar.PromptKeepsLines |
| gherkin/src/parser/mod.rs:44 | `format_error` fetches the error's line with `unwrap`, which panics for an error at the position after the last line | any error raised at the end of the input: the empty input or blank and comment lines only; a Scenario or Background heading with nothing after it, as in "Feature: x" then "Scenario: y" (`StepsAtEndPanicsAsWritten`, `ScenarioBodyEndPanicsAsWritten`); tags standing alone, an unclosed doc-string, an outline without examples at the end | return the error, as `parse_feature` promises | not executed | FeatureProperties.BlankInputPanicsAsWritten | FeatureProperties.EmptyInputFails |
