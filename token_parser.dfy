/** The token parser of gherkin/src/parse.rs as it runs: `Parser` walks the
    token list with a cursor, and `current_end_line` follows the last token
    consumed. Every method is proved to return what its counterpart in
    `TokenGrammar` computes and to leave the cursor where that function
    says. */
module TokenParser {
  import opened Wrappers
  import opened Text
  import opened TokenGrammar
  import Lex
  import Document

  /** A method's return value and the cursor after it agree with the
      outcome `spec`. */
  predicate Reports<T(==)>(spec: Outcome<T>, r: Result<T, Error>, pos: nat) {
    match spec
    case Got(v, n) => r == Ok(v) && pos == n
    case Failed(e, n) => r == Err(e) && pos == n
  }

  class Parser {
    /** The tokens, of which `pos` have been consumed. */
    const tokens: seq<Lex.Token>
    var pos: nat
    var currentEndLine: nat

    /** The end line is that of the last token consumed. */
    predicate Valid()
      reads this
    {
      pos <= |tokens| && currentEndLine == EndLine(tokens, pos)
    }

    /** `Parser::new`, with the tokens `parse` is given. */
    constructor (tokens: seq<Lex.Token>)
      ensures this.tokens == tokens && pos == 0
      ensures Valid()
    {
      this.tokens := tokens;
      pos := 0;
      currentEndLine := 0;
    }

    /** `make_error`: an error at the current end line. */
    method MakeError<T>(kind: ErrorKind) returns (r: Result<T, Error>)
      ensures r == Err(Error(kind, currentEndLine))
    {
      r := Err(Error(kind, currentEndLine));
    }

    /** `peek_token`: the kind of the next token, not consumed. */
    method PeekToken() returns (k: Option<Lex.TokenKind>)
      requires Valid()
      ensures k == if pos < |tokens| then Some(tokens[pos].kind) else None
    {
      k := if pos < |tokens| then Some(tokens[pos].kind) else None;
    }

    /** `consume_token`: the next token, its end line becoming the current
        one. */
    method ConsumeToken() returns (t: Option<Lex.Token>)
      requires Valid()
      modifies this
      ensures Valid()
      ensures old(pos) < |tokens| ==> t == Some(tokens[old(pos)]) && pos == old(pos) + 1
      ensures old(pos) == |tokens| ==> t.None? && pos == old(pos)
    {
      if pos < |tokens| {
        t := Some(tokens[pos]);
        pos := pos + 1;
        currentEndLine := t.value.endLine;
      } else {
        t := None;
      }
    }

    /** `peek_kw_line`. */
    method PeekKwLine() returns (r: Result<KwLine, Error>)
      requires Valid()
      modifies this
      ensures Valid()
      ensures Reports(PeekKwFrom(tokens, old(pos)), r, pos)
    {
      while true
        invariant Valid()
        invariant PeekKwFrom(tokens, old(pos)) == PeekKwFrom(tokens, pos)
        decreases |tokens| - pos
      {
        var kind := PeekToken();
        if kind.None? {
          r := MakeError(UnexpectedEof);
          return;
        }
        match kind.value
        case Comment(_) =>
          var _ := ConsumeToken();
        case Line(l) =>
          match ParseLine(l) {
            case Err(e) =>
              r := MakeError(e);
              return;
            case Ok(None) =>
              var _ := ConsumeToken();
            case Ok(Some(m)) =>
              if ColonFits(m) {
                r := Ok(m);
                return;
              }
              var _ := ConsumeToken();
          }
        case _ =>
          var got := ConsumeToken();
          r := MakeError(Expected(got.value));
          return;
      }
    }

    /** `match_kw_line`: the keyword line `peek_kw_line` finds, consumed. */
    method MatchKwLine() returns (r: Result<KwLine, Error>)
      requires Valid()
      modifies this
      ensures Valid()
      ensures match PeekKwFrom(tokens, old(pos))
              case Got(m, q) => r == Ok(m) && pos == q + 1
              case Failed(e, q) => r == Err(e) && pos == q
    {
      r := PeekKwLine();
      if r.Ok? {
        var _ := ConsumeToken();
      }
    }

    /** `peek_input`, corrected: a token that is not an input is left in
        place. */
    method PeekInput() returns (r: Result<StepInput, Error>)
      requires Valid()
      modifies this
      ensures Valid()
      ensures Reports(PeekInputFrom(tokens, old(pos)), r, pos)
    {
      while true
        invariant Valid()
        invariant PeekInputFrom(tokens, old(pos)) == PeekInputFrom(tokens, pos)
        decreases |tokens| - pos
      {
        var kind := PeekToken();
        if kind.None? {
          r := MakeError(UnexpectedEof);
          return;
        }
        match kind.value
        case Comment(_) =>
          var _ := ConsumeToken();
        case DataTable(table) =>
          return Ok(StepInput.Table(table));
        case DocString(text) =>
          return Ok(String(text));
        case Line(_) =>
          r := MakeError(Expected(tokens[pos]));
          return;
      }
    }

    /** The prompt of the step line just consumed: with its input, which is
        consumed, or bare when `peek_input` fails. */
    method ReadPrompt(prompt: string) returns (pr: Prompt)
      requires Valid() && 0 < pos
      modifies this
      ensures Valid()
      ensures (pr, pos) == PromptAt(tokens, old(pos) - 1, prompt)
    {
      var input := PeekInput();
      if input.Ok? {
        var _ := ConsumeToken();
        pr := WithInput(prompt, input.value);
      } else {
        pr := Bare(prompt);
      }
    }

    /** The inner loop of `parse_steps`: And and But lines after the first
        prompt of a step. */
    method ReadAndsButs(first: Prompt) returns (r: Result<(seq<Prompt>, seq<Prompt>), Error>)
      requires Valid()
      modifies this
      ensures Valid()
      ensures Reports(AndsButsFrom(tokens, old(pos), [first], []), r, pos)
    {
      var ands := [first];
      var buts := [];
      while true
        invariant Valid()
        invariant AndsButsFrom(tokens, old(pos), [first], []) == AndsButsFrom(tokens, pos, ands, buts)
        decreases |tokens| - pos
      {
        var stop;
        stop, r, ands, buts := ReadAndBut(ands, buts);
        if stop {
          return;
        }
      }
    }

    /** One pass of that loop: either it ends with `r`, or one And or But
        line is consumed and its prompt appended to `ands` or `buts`. */
    method ReadAndBut(ands: seq<Prompt>, buts: seq<Prompt>)
      returns (stop: bool, r: Result<(seq<Prompt>, seq<Prompt>), Error>, ands': seq<Prompt>, buts': seq<Prompt>)
      requires Valid()
      modifies this
      ensures Valid()
      ensures stop ==> Reports(AndsButsFrom(tokens, old(pos), ands, buts), r, pos)
      ensures !stop ==> old(pos) < pos
      ensures !stop ==> AndsButsFrom(tokens, pos, ands', buts') == AndsButsFrom(tokens, old(pos), ands, buts)
    {
      ands', buts' := ands, buts;
      var line := PeekKwLine();
      if line.Err? {
        return true, Ok((ands, buts)), ands', buts';
      }
      var m := line.value;
      if m.keyword == And || m.keyword == But {
        var _ := ConsumeToken();
        if m.contents.None? {
          r := MakeError(InvalidBareKeyword(m.keyword));
          return true, r, ands', buts';
        }
        var prompt := ReadPrompt(m.contents.value.0);
        if m.keyword == And {
          ands' := ands + [prompt];
        } else {
          buts' := buts + [prompt];
        }
        stop, r := false, Ok((ands', buts'));
      } else if m.keyword == Asterisk {
        r := MakeError(Unsupported);
        stop := true;
      } else {
        stop, r := true, Ok((ands, buts));
      }
    }

    /** `parse_steps`. */
    method ParseSteps() returns (r: Result<seq<Step>, Error>)
      requires Valid()
      modifies this
      ensures Valid()
      ensures Reports(StepsFrom(tokens, old(pos), []), r, pos)
    {
      var steps := [];
      while true
        invariant Valid()
        invariant StepsFrom(tokens, old(pos), []) == StepsFrom(tokens, pos, steps)
        decreases |tokens| - pos
      {
        var stop;
        stop, r, steps := ReadStep(steps);
        if stop {
          return;
        }
      }
    }

    /** One pass of that loop: either it ends with `r`, or a step keyword
        line is consumed with its prompt, its And and But lines are read,
        and the step is appended to `steps`. */
    method ReadStep(steps: seq<Step>) returns (stop: bool, r: Result<seq<Step>, Error>, steps': seq<Step>)
      requires Valid()
      modifies this
      ensures Valid()
      ensures stop ==> Reports(StepsFrom(tokens, old(pos), steps), r, pos)
      ensures !stop ==> old(pos) < pos
      ensures !stop ==> StepsFrom(tokens, pos, steps') == StepsFrom(tokens, old(pos), steps)
    {
      steps' := steps;
      var line := PeekKwLine();
      if line.Err? {
        return true, Ok(steps), steps';
      }
      var m := line.value;
      var ty := StartsStep(m.keyword);
      if ty.None? {
        if m.keyword == Asterisk {
          r := MakeError(Unsupported);
          return true, r, steps';
        }
        return true, Ok(steps), steps';
      }
      var _ := ConsumeToken();
      if m.contents.None? {
        r := MakeError(InvalidBareKeyword(m.keyword));
        return true, r, steps';
      }
      var first := ReadPrompt(m.contents.value.0);
      var rest := ReadAndsButs(first);
      if rest.Err? {
        return true, Err(rest.error), steps';
      }
      steps' := steps + [Step(ty.value, rest.value.0, rest.value.1)];
      stop, r := false, Ok(steps');
    }

    /** `parse_background`. */
    method ParseBackground() returns (r: Result<(seq<Prompt>, seq<Prompt>), Error>)
      requires Valid()
      modifies this
      ensures Valid()
      ensures Reports(BackgroundAt(tokens, old(pos)), r, pos)
    {
      var line := PeekKwLine();
      if line.Err? {
        return Err(line.error);
      }
      if line.value.keyword != Background {
        return Ok(([], []));
      }
      var _ := ConsumeToken();
      var steps := ParseSteps();
      if steps.Err? {
        return Err(steps.error);
      }
      var bad := FirstNonGiven(steps.value);
      if bad.Some? {
        r := MakeError(InvalidBackgroundStep(steps.value[bad.value].ty));
        return;
      }
      r := Ok((GivenAnds(steps.value), GivenButs(steps.value)));
    }

    /** `parse_freeform_text`, corrected: a comment is consumed. */
    method ParseFreeformText() returns (r: Result<Option<string>, Error>)
      requires Valid()
      modifies this
      ensures Valid()
      ensures Reports(FreeformFrom(tokens, old(pos), []), r, pos)
    {
      var text := [];
      while true
        invariant Valid()
        invariant FreeformFrom(tokens, old(pos), []) == FreeformFrom(tokens, pos, text)
        decreases |tokens| - pos
      {
        var kind := PeekToken();
        if kind.None? {
          break;
        }
        match kind.value
        case Line(l) =>
          if EndsFreeform(l) {
            break;
          }
          text := text + TrimStart(l) + "\n";
          var _ := ConsumeToken();
        case Comment(_) =>
          var _ := ConsumeToken();
        case _ =>
          var got := ConsumeToken();
          r := MakeError(Expected(got.value));
          return;
      }
      r := Ok(NonEmpty(text));
    }

    /** One pass of the block loop of `parse`. */
    method ReadBlock() returns (r: Result<Block, Error>)
      requires Valid()
      modifies this
      ensures Valid()
      ensures Reports(BlockAt(tokens, old(pos)), r, pos)
    {
      var line := PeekKwLine();
      if line.Err? {
        return Err(line.error);
      }
      var m := line.value;
      var token := ConsumeToken();
      match m.keyword
      case Example =>
        var steps := ParseSteps();
        if steps.Err? {
          return Err(steps.error);
        }
        r := Ok(ExampleBlock(Example.Example(NameOf(m), steps.value)));
      case ScenarioOutline =>
        r := MakeError(Unsupported);
      case Background =>
        r := MakeError(Unexpected(Background));
      case _ =>
        r := MakeError(Expected(token.value));
    }

    /** The block loop of `parse`: blocks until no token is left. */
    method ReadBody() returns (r: Result<seq<Block>, Error>)
      requires Valid()
      modifies this
      ensures Valid()
      ensures Reports(BodyFrom(tokens, old(pos), []), r, pos)
    {
      var contents := [];
      while true
        invariant Valid()
        invariant BodyFrom(tokens, old(pos), []) == BodyFrom(tokens, pos, contents)
        decreases |tokens| - pos
      {
        var block := ReadBlock();
        if block.Err? {
          return Err(block.error);
        }
        contents := contents + [block.value];
        var next := PeekToken();
        if next.None? {
          break;
        }
      }
      r := Ok(contents);
    }

    /** `parse`: the language tags, the Feature line, its freeform text,
        its background and its blocks. */
    method Parse() returns (r: Result<Feature, Error>)
      requires Valid() && pos == 0
      modifies this
      ensures Valid()
      ensures Reports(TokenGrammar.Parse(tokens), r, pos)
    {
      var tags := LanguageTags(tokens);
      if |tags| > 1 {
        r := MakeError(MultipleLanguageTags);
        return;
      }
      var language := if tags == [] then "en" else tags[0];
      var first := MatchKwLine();
      if first.Err? {
        return Err(first.error);
      }
      if first.value.keyword != Keyword.Feature {
        r := MakeError(NotAFeature(first.value.keyword));
        return;
      }
      var name := NameOf(first.value);
      var freeform := ParseFreeformText();
      if freeform.Err? {
        return Err(freeform.error);
      }
      var background := ParseBackground();
      if background.Err? {
        return Err(background.error);
      }
      var contents := ReadBody();
      if contents.Err? {
        return Err(contents.error);
      }
      r := Ok(Feature.Feature(language, name, freeform.value, contents.value,
                              background.value.0, background.value.1));
    }
  }

  /** `parse_feature`: the text is lexed, and the tokens parsed. */
  method ParseFeature(text: string) returns (r: Result<Feature, Error>)
    ensures r == TokenGrammar.ParseFeature(text)
  {
    var lexed := Lex.Lex(text);
    if lexed.Err? {
      return Err(Error(LexFailure(lexed.error.kind), lexed.error.lineNum));
    }
    var parser := new Parser(lexed.value);
    r := parser.Parse();
  }
}
