/** What `try_docstring`, `try_freeform_text` and the step data of
    gherkin/src/parser/mod.rs return, stated over the functions of
    `FeatureGrammar`: the text kept from each line, the lines taken, and
    the line each error names. */
module FeatureText {
  import opened Wrappers
  import opened Text
  import opened Keyword
  import opened Rows
  import opened Document
  import opened FeatureGrammar
  import opened FeatureProperties

  // ---------------------------------------------------------------------
  // `try_docstring`
  // ---------------------------------------------------------------------

  /** A line the doc-string loop takes before its closing line: not the
      delimiter alone, and either carrying the opening line's indent or
      blank. */
  predicate DocInterior(line: string, indent: string) {
    Trim(line) != Quotes && (StartsWith(line, indent) || Trim(line) == [])
  }

  /** What such a line adds: its text after the indent, or nothing for a
      blank line that lacks the indent, then "\n". */
  function DocPiece(line: string, indent: string): string {
    (if StartsWith(line, indent) then line[|indent|..] else []) + "\n"
  }

  /** The pieces of the interior lines from `p` up to `q`, in order. */
  function DocPieces(lines: seq<string>, p: nat, q: nat, indent: string): string
    requires p <= q <= |lines|
    decreases q - p
  {
    if p == q then [] else DocPiece(lines[p], indent) + DocPieces(lines, p + 1, q, indent)
  }

  /** An interior line adds its piece and the loop goes on. */
  lemma DocLinesStep(lines: seq<string>, p: nat, indent: string, text: string)
    requires p < |lines| && DocInterior(lines[p], indent)
    ensures DocLinesFrom(lines, p, indent, text) == DocLinesFrom(lines, p + 1, indent, text + DocPiece(lines[p], indent))
  {
    var line := lines[p];
    if StartsWith(line, indent) {
      assert text + line[|indent|..] + "\n" == text + DocPiece(line, indent);
    } else {
      assert text + "\n" == text + DocPiece(line, indent);
    }
  }

  /** A line on which the doc-string loop fails: not the delimiter, not
      blank, and without the indent. */
  predicate DocMisindented(line: string, indent: string) {
    Trim(line) != Quotes && Trim(line) != [] && !StartsWith(line, indent)
  }

  /** The doc-string loop takes interior lines up to a line that is the
      delimiter alone, which it consumes too. */
  lemma {:induction false} DocLinesCloses(lines: seq<string>, p: nat, indent: string, text: string)
    requires p <= |lines|
    ensures var r := DocLinesFrom(lines, p, indent, text);
            r.Done? ==> p < r.next && Trim(lines[r.next - 1]) == Quotes
                        && forall i {:trigger DocInterior(lines[i], indent)} :: p <= i < r.next - 1 ==> DocInterior(lines[i], indent)
    decreases |lines| - p
  {
    if p < |lines| && DocInterior(lines[p], indent) {
      var text' := text + DocPiece(lines[p], indent);
      DocLinesStep(lines, p, indent, text);
      DocLinesCloses(lines, p + 1, indent, text');
      var r := DocLinesFrom(lines, p + 1, indent, text');
      if r.Done? {
        forall i | p <= i < r.next - 1
          ensures DocInterior(lines[i], indent)
        {
          if i == p {
            assert DocInterior(lines[p], indent);
          }
        }
      }
    }
  }

  /** It fails at the end of the input, when no closing line comes, or on
      the line after the first misindented one (the line number counts that
      line as consumed). */
  lemma {:induction false} DocLinesErrors(lines: seq<string>, p: nat, indent: string, text: string)
    requires p <= |lines|
    ensures var r := DocLinesFrom(lines, p, indent, text);
            r.Failed? ==>
              (r.error == ParseError(UnterminatedDocString, |lines|)
               && forall i {:trigger DocInterior(lines[i], indent)} :: p <= i < |lines| ==> DocInterior(lines[i], indent))
              || (r.error.kind == DocStringIndent && p < r.error.line
                  && DocMisindented(lines[r.error.line - 1], indent)
                  && forall i {:trigger DocInterior(lines[i], indent)} :: p <= i < r.error.line - 1 ==> DocInterior(lines[i], indent))
    decreases |lines| - p
  {
    if p < |lines| && DocInterior(lines[p], indent) {
      var text' := text + DocPiece(lines[p], indent);
      DocLinesStep(lines, p, indent, text);
      DocLinesErrors(lines, p + 1, indent, text');
      var r := DocLinesFrom(lines, p + 1, indent, text');
      if r.Failed? {
        forall i | p <= i < r.error.line - 1
          ensures DocInterior(lines[i], indent)
        {
          if i == p {
            assert DocInterior(lines[p], indent);
          }
        }
        forall i | p <= i < |lines| && r.error.kind == UnterminatedDocString
          ensures DocInterior(lines[i], indent)
        {
          if i == p {
            assert DocInterior(lines[p], indent);
          }
        }
      }
    }
  }

  /** Its text is the pieces of the interior lines after the text so far,
      trimmed at both ends. */
  lemma {:induction false} DocLinesContent(lines: seq<string>, p: nat, indent: string, text: string)
    requires p <= |lines|
    ensures var r := DocLinesFrom(lines, p, indent, text);
            r.Done? ==> p < r.next && r.value == Some(Trim(text + DocPieces(lines, p, r.next - 1, indent)))
    decreases |lines| - p
  {
    var r := DocLinesFrom(lines, p, indent, text);
    if p < |lines| && DocInterior(lines[p], indent) {
      var piece := DocPiece(lines[p], indent);
      DocLinesStep(lines, p, indent, text);
      DocLinesContent(lines, p + 1, indent, text + piece);
      if r.Done? && p + 1 < r.next {
        assert text + piece + DocPieces(lines, p + 1, r.next - 1, indent)
            == text + (piece + DocPieces(lines, p + 1, r.next - 1, indent));
      }
    } else if r.Done? {
      assert text + [] == text;
    }
  }

  /** Past an opening line, `try_docstring` is its line loop with the
      opening line's ASCII indent. */
  lemma DocStringOpens(lines: seq<string>, p: nat)
    requires p <= |lines|
    requires var q := SkipBlank(lines, p); q < |lines| && Trim(lines[q]) == Quotes
    ensures var q := SkipBlank(lines, p);
            q < |lines| && DocStringAt(lines, p) == DocLinesFrom(lines, q + 1, AsciiIndent(lines[q]), [])
  {
  }

  /** A doc-string is opened by the delimiter alone on the first line after
      blank and comment lines, whose ASCII whitespace fixes the indent; it
      runs over interior lines to the next delimiter line, and its text is
      their pieces, trimmed. */
  lemma DocStringContent(lines: seq<string>, p: nat)
    requires p <= |lines|
    ensures var r := DocStringAt(lines, p);
            var q := SkipBlank(lines, p);
            r.Done? && r.value.Some? ==>
              q + 1 < r.next && Trim(lines[q]) == Quotes && Trim(lines[r.next - 1]) == Quotes
              && (forall i {:trigger DocInterior(lines[i], AsciiIndent(lines[q]))} :: q < i < r.next - 1 ==> DocInterior(lines[i], AsciiIndent(lines[q])))
              && r.value.value == Trim(DocPieces(lines, q + 1, r.next - 1, AsciiIndent(lines[q])))
  {
    var q := SkipBlank(lines, p);
    if q < |lines| && Trim(lines[q]) == Quotes {
      DocStringOpens(lines, p);
      DocOpenedContent(lines, q);
    }
  }

  /** The loop after an opening line `q`, from the empty text. */
  lemma DocOpenedContent(lines: seq<string>, q: nat)
    requires q < |lines|
    ensures var indent := AsciiIndent(lines[q]);
            var r := DocLinesFrom(lines, q + 1, indent, []);
            r.Done? ==>
              q + 1 < r.next && Trim(lines[r.next - 1]) == Quotes
              && (forall i {:trigger DocInterior(lines[i], indent)} :: q < i < r.next - 1 ==> DocInterior(lines[i], indent))
              && r.value == Some(Trim(DocPieces(lines, q + 1, r.next - 1, indent)))
  {
    var indent := AsciiIndent(lines[q]);
    DocLinesCloses(lines, q + 1, indent, []);
    DocLinesContent(lines, q + 1, indent, []);
    var r := DocLinesFrom(lines, q + 1, indent, []);
    if r.Done? {
      var d := DocPieces(lines, q + 1, r.next - 1, indent);
      assert [] + d == d;
    }
  }

  /** Once opened, a doc-string fails only for want of a closing line, at
      the end of the input, or on a misindented line. */
  lemma DocStringErrors(lines: seq<string>, p: nat)
    requires p <= |lines|
    ensures var r := DocStringAt(lines, p);
            var q := SkipBlank(lines, p);
            r.Failed? ==>
              q < |lines| && Trim(lines[q]) == Quotes
              && ((r.error == ParseError(UnterminatedDocString, |lines|)
                   && forall i {:trigger DocInterior(lines[i], AsciiIndent(lines[q]))} :: q < i < |lines| ==> DocInterior(lines[i], AsciiIndent(lines[q])))
                  || (r.error.kind == DocStringIndent && q + 1 < r.error.line
                      && DocMisindented(lines[r.error.line - 1], AsciiIndent(lines[q]))
                      && forall i {:trigger DocInterior(lines[i], AsciiIndent(lines[q]))} :: q < i < r.error.line - 1 ==> DocInterior(lines[i], AsciiIndent(lines[q]))))
  {
    var q := SkipBlank(lines, p);
    if q < |lines| && Trim(lines[q]) == Quotes {
      DocStringOpens(lines, p);
      DocOpenedErrors(lines, q);
    }
  }

  /** The loop after an opening line `q` fails at the end of the input or
      on a misindented line. */
  lemma DocOpenedErrors(lines: seq<string>, q: nat)
    requires q < |lines|
    ensures var indent := AsciiIndent(lines[q]);
            var r := DocLinesFrom(lines, q + 1, indent, []);
            r.Failed? ==>
              (r.error == ParseError(UnterminatedDocString, |lines|)
               && forall i {:trigger DocInterior(lines[i], indent)} :: q < i < |lines| ==> DocInterior(lines[i], indent))
              || (r.error.kind == DocStringIndent && q + 1 < r.error.line
                  && DocMisindented(lines[r.error.line - 1], indent)
                  && forall i {:trigger DocInterior(lines[i], indent)} :: q < i < r.error.line - 1 ==> DocInterior(lines[i], indent))
  {
    DocLinesErrors(lines, q + 1, AsciiIndent(lines[q]), []);
  }

  // ---------------------------------------------------------------------
  // the data after a step line
  // ---------------------------------------------------------------------

  /** The data after a step line: a table line after blank and comment
      lines makes it that table, or the table's error, and no doc-string is
      looked for; only without one is a doc-string tried, from the same
      place. */
  lemma StepDataTableFirst(lines: seq<string>, p: nat)
    requires p <= |lines|
    ensures var r := StepDataAt(lines, p);
            var t := DataTableAt(lines, p);
            var q := SkipBlank(lines, p);
            q < |lines| && IsRowLine(Trim(lines[q])) ==>
              (t.Failed? && r == Failed(t.error))
              || (t.Done? && t.value.Some? && r == Done(Some(StepData.DataTable(t.value.value)), t.next))
    ensures var r := StepDataAt(lines, p);
            var d := DocStringAt(lines, p);
            var q := SkipBlank(lines, p);
            q == |lines| || !IsRowLine(Trim(lines[q])) ==>
              match d
              case Failed(e) => r == Failed(e)
              case Done(None, n) => r == Done(None, n)
              case Done(Some(s), n) => r == Done(Some(DocString(s)), n)
  {
    var q := SkipBlank(lines, p);
    if q < |lines| && IsRowLine(Trim(lines[q])) {
      StepDataTable(lines, p);
    } else {
      StepDataDocString(lines, p);
    }
  }

  /** With a table line, the step's data is the table or its error. */
  lemma StepDataTable(lines: seq<string>, p: nat)
    requires p <= |lines|
    requires var q := SkipBlank(lines, p); q < |lines| && IsRowLine(Trim(lines[q]))
    ensures var r := StepDataAt(lines, p);
            var t := DataTableAt(lines, p);
            (t.Failed? && r == Failed(t.error))
            || (t.Done? && t.value.Some? && r == Done(Some(StepData.DataTable(t.value.value)), t.next))
  {
    var q := SkipBlank(lines, p);
    var t := DataTableAt(lines, p);
    assert t.Done? ==> t.value.Some? by {
      RowsFromRectangular(lines, q + 1, RowCells(Trim(lines[q])), []);
    }
  }

  /** Without one, nothing is consumed for a table and the data is what
      `try_docstring` gives from the same place. */
  lemma StepDataDocString(lines: seq<string>, p: nat)
    requires p <= |lines|
    requires var q := SkipBlank(lines, p); q == |lines| || !IsRowLine(Trim(lines[q]))
    ensures var r := StepDataAt(lines, p);
            match DocStringAt(lines, p)
            case Failed(e) => r == Failed(e)
            case Done(None, n) => r == Done(None, n)
            case Done(Some(s), n) => r == Done(Some(DocString(s)), n)
  {
    var q := SkipBlank(lines, p);
    DataTableAbsent(lines, p);
    SkipBlankIdempotent(lines, p);
    assert DocStringAt(lines, q) == DocStringAt(lines, p);
  }

  // ---------------------------------------------------------------------
  // `try_freeform_text`
  // ---------------------------------------------------------------------

  /** A line that ends a description: not blank, and accepted by the
      keyword classifier. */
  predicate EndsText(line: string) {
    Trim(line) != [] && Parse(Trim(line), false).Some?
  }

  /** A line the description loop passes once the indent is fixed: a blank
      line, or one that does not end the text and carries the indent. */
  predicate FreeTakes(line: string, indent: string) {
    Trim(line) == [] || (!EndsText(line) && StartsWith(line, indent))
  }

  /** What such a line adds: nothing for a blank line, otherwise its text
      after the indent and "\n". */
  function FreePiece(line: string, indent: string): string {
    if Trim(line) == [] || !StartsWith(line, indent) then [] else line[|indent|..] + "\n"
  }

  /** The pieces of the lines from `p` up to `q`, in order. */
  function FreePieces(lines: seq<string>, p: nat, q: nat, indent: string): string
    requires p <= q <= |lines|
    decreases q - p
  {
    if p == q then [] else FreePiece(lines[p], indent) + FreePieces(lines, p + 1, q, indent)
  }

  /** A line the loop passes adds its piece and the loop goes on. */
  lemma FreeformStep(lines: seq<string>, p: nat, text: string, indent: string)
    requires p < |lines| && FreeTakes(lines[p], indent)
    ensures FreeformFrom(lines, p, text, Some(indent))
         == FreeformFrom(lines, p + 1, text + FreePiece(lines[p], indent), Some(indent))
  {
    var line := lines[p];
    if Trim(line) == [] {
      assert text + FreePiece(line, indent) == text;
    } else {
      assert text + line[|indent|..] + "\n" == text + FreePiece(line, indent);
    }
  }

  /** A line on which the description loop fails: not blank, not ending the
      text, and without the indent. */
  predicate FreeMisindented(line: string, indent: string) {
    Trim(line) != [] && !EndsText(line) && !StartsWith(line, indent)
  }

  /** Once the indent is fixed, the loop passes lines up to the end or to a
      line that ends the text, which it leaves in place. */
  lemma {:induction false} FreeformPasses(lines: seq<string>, p: nat, text: string, indent: string)
    requires p <= |lines|
    ensures var r := FreeformFrom(lines, p, text, Some(indent));
            r.Done? ==> (r.next == |lines| || EndsText(lines[r.next]))
                        && forall i {:trigger FreeTakes(lines[i], indent)} :: p <= i < r.next ==> FreeTakes(lines[i], indent)
    decreases |lines| - p
  {
    if p < |lines| && FreeTakes(lines[p], indent) {
      var text' := text + FreePiece(lines[p], indent);
      FreeformStep(lines, p, text, indent);
      FreeformPasses(lines, p + 1, text', indent);
      var r := FreeformFrom(lines, p + 1, text', Some(indent));
      if r.Done? {
        forall i | p <= i < r.next
          ensures FreeTakes(lines[i], indent)
        {
          if i == p {
            assert FreeTakes(lines[p], indent);
          }
        }
      }
    }
  }

  /** It fails only on the first misindented line, with that line's
      number. */
  lemma FreeformErrors(lines: seq<string>, p: nat, text: string, indent: string)
    requires p <= |lines|
    ensures var r := FreeformFrom(lines, p, text, Some(indent));
            r.Failed? ==>
              r.error.kind == FreeformIndent && r.error.line < |lines|
              && FreeMisindented(lines[r.error.line], indent)
              && forall i {:trigger FreeTakes(lines[i], indent)} :: p <= i < r.error.line ==> FreeTakes(lines[i], indent)
  {
    FreeformFailsOn(lines, p, text, indent);
    FreeformFailsAfter(lines, p, text, indent);
  }

  /** The line a failure names is a misindented one. */
  lemma {:induction false} FreeformFailsOn(lines: seq<string>, p: nat, text: string, indent: string)
    requires p <= |lines|
    ensures var r := FreeformFrom(lines, p, text, Some(indent));
            r.Failed? ==>
              r.error.kind == FreeformIndent && r.error.line < |lines| && FreeMisindented(lines[r.error.line], indent)
    decreases |lines| - p
  {
    if p < |lines| && FreeTakes(lines[p], indent) {
      FreeformStep(lines, p, text, indent);
      FreeformFailsOn(lines, p + 1, text + FreePiece(lines[p], indent), indent);
    } else if p < |lines| && EndsText(lines[p]) {
      assert FreeformFrom(lines, p, text, Some(indent)).Done?;
    } else if p < |lines| {
      assert FreeMisindented(lines[p], indent);
    }
  }

  /** Every line before it is one the loop passes. */
  lemma {:induction false} FreeformFailsAfter(lines: seq<string>, p: nat, text: string, indent: string)
    requires p <= |lines|
    ensures var r := FreeformFrom(lines, p, text, Some(indent));
            r.Failed? ==> forall i {:trigger FreeTakes(lines[i], indent)} :: p <= i < r.error.line ==> FreeTakes(lines[i], indent)
    decreases |lines| - p
  {
    if p < |lines| && FreeTakes(lines[p], indent) {
      var text' := text + FreePiece(lines[p], indent);
      FreeformStep(lines, p, text, indent);
      FreeformFailsAfter(lines, p + 1, text', indent);
      var r := FreeformFrom(lines, p + 1, text', Some(indent));
      if r.Failed? {
        forall i | p <= i < r.error.line
          ensures FreeTakes(lines[i], indent)
        {
          if i == p {
            assert FreeTakes(lines[p], indent);
          }
        }
      }
    }
  }

  /** Its outcome is the text so far followed by the pieces of the lines
      passed, with trailing whitespace dropped, and None when nothing is
      left. */
  lemma {:induction false} FreeformContent(lines: seq<string>, p: nat, text: string, indent: string)
    requires p <= |lines|
    ensures var r := FreeformFrom(lines, p, text, Some(indent));
            r.Done? ==> r == FreeformResult(text + FreePieces(lines, p, r.next, indent), r.next)
    decreases |lines| - p
  {
    var r := FreeformFrom(lines, p, text, Some(indent));
    if p < |lines| && FreeTakes(lines[p], indent) {
      var piece := FreePiece(lines[p], indent);
      FreeformStep(lines, p, text, indent);
      FreeformContent(lines, p + 1, text + piece, indent);
      if r.Done? {
        var rest := FreePieces(lines, p + 1, r.next, indent);
        assert text + piece + rest == text + FreePieces(lines, p, r.next, indent) by {
          assert text + piece + rest == text + (piece + rest);
        }
      }
    } else {
      FreeformContentStop(lines, p, text, indent);
      assert text + [] == text;
    }
  }

  /** Where the loop stops, the text so far is its text. */
  lemma FreeformContentStop(lines: seq<string>, p: nat, text: string, indent: string)
    requires p <= |lines| && (p == |lines| || !FreeTakes(lines[p], indent))
    ensures var r := FreeformFrom(lines, p, text, Some(indent));
            r.Done? ==> r.next == p && r == FreeformResult(text, p)
  {
  }

  /** A first line that is not blank and does not end the text fixes the
      indent, its ASCII whitespace, and is taken de-indented. */
  lemma FreeformFirst(lines: seq<string>, q: nat)
    requires q < |lines| && Trim(lines[q]) != [] && !EndsText(lines[q])
    ensures var indent := AsciiIndent(lines[q]);
            FreeformFrom(lines, q, [], None) == FreeformFrom(lines, q + 1, FreePiece(lines[q], indent), Some(indent))
  {
    var indent := AsciiIndent(lines[q]);
    assert [] + lines[q][|indent|..] + "\n" == FreePiece(lines[q], indent);
  }

  /** From that line on, the loop fails only on the first later line that
      lacks its indent and is neither blank nor ends the text. */
  lemma FreeformFirstErrors(lines: seq<string>, q: nat)
    requires q < |lines| && Trim(lines[q]) != [] && !EndsText(lines[q])
    ensures var r := FreeformFrom(lines, q, [], None);
            var indent := AsciiIndent(lines[q]);
            r.Failed? ==>
              r.error.kind == FreeformIndent && q < r.error.line < |lines|
              && FreeMisindented(lines[r.error.line], indent)
              && forall i {:trigger FreeTakes(lines[i], indent)} :: q < i < r.error.line ==> FreeTakes(lines[i], indent)
  {
    var indent := AsciiIndent(lines[q]);
    FreeformFirst(lines, q);
    FreeformErrors(lines, q + 1, FreePiece(lines[q], indent), indent);
  }

  /** From that line on, the loop passes lines up to the end or a line that
      ends the text, and its text is their pieces. */
  lemma FreeformFirstContent(lines: seq<string>, q: nat)
    requires q < |lines| && Trim(lines[q]) != [] && !EndsText(lines[q])
    ensures var r := FreeformFrom(lines, q, [], None);
            var indent := AsciiIndent(lines[q]);
            r.Done? ==>
              q < r.next && (r.next == |lines| || EndsText(lines[r.next]))
              && (forall i {:trigger FreeTakes(lines[i], indent)} :: q < i < r.next ==> FreeTakes(lines[i], indent))
              && r == FreeformResult(FreePieces(lines, q, r.next, indent), r.next)
  {
    var indent := AsciiIndent(lines[q]);
    var piece := FreePiece(lines[q], indent);
    FreeformFirst(lines, q);
    FreeformPasses(lines, q + 1, piece, indent);
    FreeformContent(lines, q + 1, piece, indent);
  }

  /** `try_freeform_text` gives None, consuming only blank and comment
      lines, when the input ends there or the next line ends the text. */
  lemma FreeformAtNothing(lines: seq<string>, p: nat)
    requires p <= |lines|
    ensures var q := SkipBlank(lines, p);
            q == |lines| || EndsText(lines[q]) ==> FreeformAt(lines, p) == Done(None, q)
  {
    var q := SkipBlank(lines, p);
    if q < |lines| {
      SkipBlankStops(lines, p);
    }
  }

  /** Otherwise its text is that line and the ones after it that the loop
      passes, each de-indented by the first line's indent, blank ones
      contributing nothing, up to the end or a line that ends the text. */
  lemma FreeformAtContent(lines: seq<string>, p: nat)
    requires p <= |lines|
    ensures var r := FreeformAt(lines, p);
            var q := SkipBlank(lines, p);
            q < |lines| && !EndsText(lines[q]) && r.Done? ==>
              q < r.next && (r.next == |lines| || EndsText(lines[r.next]))
              && (forall i {:trigger FreeTakes(lines[i], AsciiIndent(lines[q]))} :: q < i < r.next ==> FreeTakes(lines[i], AsciiIndent(lines[q])))
              && r == FreeformResult(FreePieces(lines, q, r.next, AsciiIndent(lines[q])), r.next)
  {
    var q := SkipBlank(lines, p);
    if q < |lines| && !EndsText(lines[q]) {
      SkipBlankStops(lines, p);
      FreeformFirstContent(lines, q);
    }
  }

  /** It fails only on the first later line that lacks the first line's
      indent, and is neither blank nor ends the text. */
  lemma FreeformAtErrors(lines: seq<string>, p: nat)
    requires p <= |lines|
    ensures var r := FreeformAt(lines, p);
            var q := SkipBlank(lines, p);
            r.Failed? ==>
              q < |lines| && !EndsText(lines[q])
              && r.error.kind == FreeformIndent && q < r.error.line < |lines|
              && FreeMisindented(lines[r.error.line], AsciiIndent(lines[q]))
              && forall i {:trigger FreeTakes(lines[i], AsciiIndent(lines[q]))} :: q < i < r.error.line ==> FreeTakes(lines[i], AsciiIndent(lines[q]))
  {
    var q := SkipBlank(lines, p);
    if q < |lines| && !EndsText(lines[q]) {
      SkipBlankStops(lines, p);
      FreeformFirstErrors(lines, q);
    } else {
      FreeformAtNothing(lines, p);
    }
  }
}
