/** The first line parser of gherkin/src/lib.rs as it runs: `ParserInner`
    walks the input's lines with a cursor (the `Peekable<Lines>` of the
    source), and each helper consumes what it recognises. Every method is
    proved to return what its counterpart in `LegacyGrammar` computes and to
    leave the cursor where that function says. */
module LegacyParser {
  import opened Wrappers
  import opened Text
  import opened LegacyGrammar
  import Document

  /** A helper's return value and the cursor after it agree with the
      outcome `spec`. Errors carry no line, as `make_error` drops it. */
  predicate Reports<T(==)>(spec: Outcome<T>, r: Result<T, ErrorKind>, pos: nat) {
    match spec
    case Got(v, n) => r == Ok(v) && pos == n
    case Failed(e, n) => r == Err(e) && pos == n
  }

  class ParserInner {
    /** `input.lines()`, of which `pos` have been consumed; every method
        keeps `pos <= |lines|`. */
    const lines: seq<string>
    var pos: nat

    /** `ParserInner::new`. */
    constructor (input: string)
      ensures lines == Lines(input) && pos == 0
    {
      lines := Lines(input);
      pos := 0;
    }

    /** `peek`: the next line, not consumed. */
    method Peek() returns (line: Option<string>)
      requires pos <= |lines|
      ensures line == if pos < |lines| then Some(lines[pos]) else None
    {
      line := if pos < |lines| then Some(lines[pos]) else None;
    }

    /** `Iterator::next`: the next line, counting it as consumed. */
    method Next() returns (line: Option<string>)
      requires pos <= |lines|
      modifies this`pos
      ensures pos <= |lines|
      ensures old(pos) < |lines| ==> line == Some(lines[old(pos)]) && pos == old(pos) + 1
      ensures old(pos) == |lines| ==> line.None? && pos == old(pos)
    {
      if pos < |lines| {
        line := Some(lines[pos]);
        pos := pos + 1;
      } else {
        line := None;
      }
    }

    /** `make_error`: the line counter is read and dropped, so the error is
        the message alone. */
    method MakeError<T>(kind: ErrorKind) returns (r: Result<T, ErrorKind>)
      ensures r == Err(kind)
    {
      r := Err(kind);
    }

    /** `take_empty_or_comment`. */
    method TakeEmptyOrComment()
      requires pos <= |lines|
      modifies this`pos
      ensures pos <= |lines|
      ensures pos == SkipBlank(lines, old(pos))
    {
      while true
        invariant pos <= |lines|
        invariant SkipBlank(lines, pos) == SkipBlank(lines, old(pos))
        decreases |lines| - pos
      {
        var line := Peek();
        if line.None? {
          break;
        }
        var trimmed := Trim(line.value);
        if trimmed != [] && !StartsWith(trimmed, "#") {
          break;
        }
        var _ := Next();
      }
    }

    /** `match_kw_line`. */
    method MatchKwLine(wanted: Option<Keyword>, strip: bool) returns (r: Result<Header, ErrorKind>)
      requires pos <= |lines|
      modifies this`pos
      ensures pos <= |lines|
      ensures Reports(MatchKwAt(lines, old(pos), wanted, strip), r, pos)
    {
      TakeEmptyOrComment();
      var line := Next();
      if line.None? {
        r := Err(EndOfInput);
        return;
      }
      var kwLine := TrimStart(line.value);
      match Parse(kwLine, strip)
      case Some(m) =>
        if wanted.Some? && m.keyword != wanted.value {
          r := MakeError(WrongKeyword(wanted.value, m.keyword));
          return;
        }
        var rest := if m.rest == [] then None else Some(m.rest);
        r := Ok(Header(m.keyword, rest, m.trailingColon));
      case None =>
        r := MakeError(UnknownKeyword);
    }

    /** `try_freeform_text`. */
    method TryFreeformText() returns (r: Result<Option<string>, ErrorKind>)
      requires pos <= |lines|
      modifies this`pos
      ensures pos <= |lines|
      ensures Reports(FreeformAt(lines, old(pos)), r, pos)
    {
      TakeEmptyOrComment();
      var peeked := Peek();
      if peeked.None? {
        return Ok(None);
      }
      r := ReadFreeform();
    }

    /** The loop of `try_freeform_text`, from its first line on. */
    method ReadFreeform() returns (r: Result<Option<string>, ErrorKind>)
      requires pos <= |lines|
      modifies this`pos
      ensures pos <= |lines|
      ensures Reports(FreeformFrom(lines, old(pos), [], None), r, pos)
    {
      var text := "";
      var indent: Option<string> := None;
      while true
        invariant pos <= |lines|
        invariant FreeformFrom(lines, pos, text, indent) == FreeformFrom(lines, old(pos), [], None)
        invariant indent.None? ==> text == []
        decreases |lines| - pos
      {
        var stop;
        stop, r, text, indent := ReadFreeformLine(text, indent);
        if stop {
          return;
        }
      }
    }

    /** One pass of the freeform loop: either the loop ends with `r`, or one
        line is taken, de-indented, and its line consumed. */
    method ReadFreeformLine(text: string, indent: Option<string>)
      returns (stop: bool, r: Result<Option<string>, ErrorKind>, text': string, indent': Option<string>)
      requires pos <= |lines| && (indent.None? ==> text == [])
      modifies this`pos
      ensures pos <= |lines|
      ensures stop ==> Reports(FreeformFrom(lines, old(pos), text, indent), r, pos)
      ensures !stop ==> old(pos) < pos && (indent'.None? ==> text' == [])
      ensures !stop ==> FreeformFrom(lines, pos, text', indent') == FreeformFrom(lines, old(pos), text, indent)
    {
      var next := Peek();
      if next.None? || EndsFreeform(next.value) {
        text', indent' := text, indent;
        stop := true;
        if text != [] {
          r := Ok(Some(text));
        } else {
          r := Ok(None);
        }
        return;
      }
      if indent.Some? {
        stop, r, text' := TakeIndentedLine(text, indent.value);
        indent' := indent;
      } else {
        var ind;
        text', ind := TakeFirstLine();
        indent' := Some(ind);
        stop, r := false, Ok(None);
      }
    }

    /** The first line taken fixes the indent: its ASCII whitespace. */
    method TakeFirstLine() returns (text: string, indent: string)
      requires pos < |lines| && !EndsFreeform(lines[pos])
      modifies this`pos
      ensures pos == old(pos) + 1
      ensures FreeformFrom(lines, pos, text, Some(indent)) == FreeformFrom(lines, old(pos), [], None)
    {
      var line := Next();
      indent := AsciiIndent(line.value);
      FreeformFirst(lines, old(pos));
      text := Dedent(line.value, indent) + "\n";
    }

    /** A later line must carry the indent; it is taken de-indented. */
    method TakeIndentedLine(text: string, indent: string)
      returns (stop: bool, r: Result<Option<string>, ErrorKind>, text': string)
      requires pos < |lines| && !EndsFreeform(lines[pos])
      modifies this`pos
      ensures pos <= |lines|
      ensures stop ==> Reports(FreeformFrom(lines, old(pos), text, Some(indent)), r, pos)
      ensures !stop ==> pos == old(pos) + 1
      ensures !stop ==> FreeformFrom(lines, pos, text', Some(indent)) == FreeformFrom(lines, old(pos), text, Some(indent))
    {
      text' := text;
      var line := Peek();
      if !StartsWith(line.value, indent) {
        r := MakeError(FreeformIndent);
        return true, r, text';
      }
      FreeformStep(lines, pos, text, indent);
      text' := text + (Dedent(line.value, indent) + "\n");
      var _ := Next();
      stop, r := false, Ok(None);
    }

    /** `try_docstring`. */
    method TryDocstring() returns (r: Result<Option<string>, ErrorKind>)
      requires pos <= |lines|
      modifies this`pos
      ensures pos <= |lines|
      ensures Reports(DocStringAt(lines, old(pos)), r, pos)
    {
      TakeEmptyOrComment();
      var first := Peek();
      if first.None? {
        return Ok(None);
      }
      if !StartsWith(TrimStart(first.value), Document.Quotes) {
        return Ok(None);
      }
      var indent := AsciiIndent(first.value);
      var _ := Next();
      var text := "";
      while true
        invariant pos <= |lines|
        invariant DocLinesFrom(lines, pos, indent, text) == DocStringAt(lines, old(pos))
        decreases |lines| - pos
      {
        var line := Next();
        if line.None? {
          r := MakeError(UnterminatedDocString);
          return;
        }
        if StartsWith(TrimStart(line.value), Document.Quotes) {
          return Ok(Some(text));
        } else if StartsWith(line.value, indent) {
          text := text + line.value[|indent|..] + "\n";
        } else {
          r := MakeError(DocStringIndent);
          return;
        }
      }
    }
  }

  /** `Parser::parse_feature`: the Feature line, the freeform text, the
      Background line whose result is dropped, then the unfinished end. */
  method ParseFeature(input: string) returns (e: ErrorKind)
    ensures e == LegacyGrammar.ParseFeature(input)
  {
    var inner := new ParserInner(input);
    var header := inner.MatchKwLine(Some(Feature), false);
    if header.Err? {
      return header.error;
    }
    var description := inner.TryFreeformText();
    if description.Err? {
      return description.error;
    }
    var _ := inner.MatchKwLine(Some(Background), false);
    e := Unsupported;
  }
}
