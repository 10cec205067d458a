/** What the token parser of gherkin/src/parse.rs computes, as functions of
    the token list and the cursor (the number of tokens consumed). The
    parser's `current_end_line`, which every error reports, is the end line
    of the last token consumed, so it is a function of the cursor too. The
    `panic!` and `todo!` branches become the `Unsupported` error. */
module TokenGrammar {
  import opened Wrappers
  import opened Text
  import opened DataTables
  import Kw = Keyword
  import Lex
  import Document

  datatype Keyword =
    | Feature | Example | Given | When | Then | And | But | Asterisk
    | Background | ScenarioOutline | Examples

  /** `Keyword::combinations`: checked top to bottom, first match wins. */
  const Spellings: seq<(Keyword, string)> := [
    (Examples, "examples"),
    (Examples, "scenarios"),
    (ScenarioOutline, "scenario outline"),
    (ScenarioOutline, "scenario template"),
    (Keyword.Feature, "feature"),
    (Keyword.Example, "example"),
    (Keyword.Example, "scenario"),
    (Given, "given"),
    (When, "when"),
    (Then, "then"),
    (And, "and"),
    (But, "but"),
    (Background, "background"),
    (Asterisk, "*")
  ]

  /** Section keywords are written with a colon, step keywords without. */
  predicate TakesColon(k: Keyword) {
    k in {Keyword.Feature, Keyword.Example, Background, ScenarioOutline, Examples}
  }

  datatype ErrorKind =
    | NotAFeature(keyword: Keyword)
    | Unexpected(keyword: Keyword)
    | Expected(got: Lex.Token)
    | MultipleLanguageTags
    | InvalidBackgroundStep(ty: Document.StepType)
    | InvalidBareKeyword(keyword: Keyword)
    | UnexpectedEof
    | InvalidKeyword
    | LexFailure(lexKind: Lex.ErrorKind)
    | Unsupported                   // a `panic!` or `todo!` branch

  datatype Error = Error(kind: ErrorKind, lineNum: nat)

  /** The keyword of a line, whether a colon follows it, and the trimmed
      contents with the flag telling that a trailing colon was removed. */
  datatype KwLine = KwLine(keyword: Keyword, hasKwColon: bool, contents: Option<(string, bool)>)

  datatype StepInput = Table(table: DataTables.Table) | String(text: string)

  datatype Prompt = Bare(prompt: string) | WithInput(prompt: string, input: StepInput)

  /** A step: its first prompt and the And prompts in `ands`, the But
      prompts in `buts`. */
  datatype Step = Step(ty: Document.StepType, ands: seq<Prompt>, buts: seq<Prompt>)

  datatype Example = Example(name: Option<string>, steps: seq<Step>)

  datatype Block = ExampleBlock(example: Example)

  datatype Feature = Feature(
    language: string,
    name: Option<string>,
    freeformText: Option<string>,
    contents: seq<Block>,
    backgroundAnd: seq<Prompt>,
    backgroundBut: seq<Prompt>)

  /** A helper's outcome and the cursor after it; an error leaves consumed
      tokens consumed. */
  datatype Outcome<T> = Got(value: T, next: nat) | Failed(error: Error, next: nat)

  /** `current_end_line` once `p` tokens are consumed. */
  function EndLine(tokens: seq<Lex.Token>, p: nat): nat
    requires p <= |tokens|
  {
    if p == 0 then 0 else tokens[p - 1].endLine
  }

  /** `make_error` with the cursor at `p`. */
  function Fail<T>(tokens: seq<Lex.Token>, kind: ErrorKind, p: nat): (r: Outcome<T>)
    requires p <= |tokens|
    ensures r.Failed? && r.next == p && r.error == Error(kind, EndLine(tokens, p))
  {
    Failed(Error(kind, EndLine(tokens, p)), p)
  }

  // ---------------------------------------------------------------------
  // `parse_line`
  // ---------------------------------------------------------------------

  /** The table entry that decides a line, and the length of its spelling. */
  function Entry(line: string): (r: Option<(Keyword, nat)>)
    ensures r.Some? ==> r.value.1 <= |line|
  {
    Kw.FirstMatchIsFirst(Spellings, line, 0);
    match Kw.FirstMatch(Spellings, line, 0)
    case None => None
    case Some(i) =>
      Kw.SpelledFromMeaning(line, Spellings[i].1, 0);
      Some((Spellings[i].0, |Spellings[i].1|))
  }

  /** The trimmed contents: a trailing colon is removed and flagged, and
      nothing left means None. */
  function Contents(c: string): Option<(string, bool)> {
    if EndsWith(c, ":") then
      var d := c[..|c| - 1];
      if d == [] then None else Some((d, true))
    else if c == [] then None
    else Some((c, false))
  }

  /** What follows the keyword's spelling: a colon right after it is noted
      and dropped, the rest trimmed. */
  function LineAfter(keyword: Keyword, rest: string): KwLine {
    var kwColon := rest != [] && rest[0] == ':';
    KwLine(keyword, kwColon, Contents(Trim(if kwColon then rest[1..] else rest)))
  }

  /** `parse_line`: None for an empty line, `InvalidKeyword` when no
      spelling starts it. */
  function ParseLine(line: string): Result<Option<KwLine>, ErrorKind> {
    if line == [] then Ok(None)
    else match Entry(line)
      case None => Err(InvalidKeyword)
      case Some((keyword, n)) => Ok(Some(LineAfter(keyword, line[n..])))
  }

  /** The contents returned are the trimmed text with a trailing colon, if
      any, removed and flagged; an empty text, or a lone colon, is None. */
  lemma ContentsMeaning(c: string)
    ensures Contents(c).None? <==> c == [] || c == ":"
    ensures Contents(c).Some? ==>
              var (d, flag) := Contents(c).value;
              d != [] && c == d + (if flag then ":" else []) && (flag <==> EndsWith(c, ":"))
  {
    if EndsWith(c, ":") {
      assert c == c[..|c| - 1] + ":";
    }
  }

  /** The line classifies by the first spelling that starts it, ignoring
      ASCII case; no spelling gives `InvalidKeyword`. The colon flag says
      whether a colon follows the spelling, and the contents come from the
      trimmed text after it. */
  lemma ParseLineOutcome(line: string)
    ensures line == [] ==> ParseLine(line) == Ok(None)
    ensures line != [] ==>
              (ParseLine(line) == Err(InvalidKeyword)
               <==> forall j :: 0 <= j < |Spellings| ==> !StartsWith(Lower(line), Spellings[j].1))
    ensures ParseLine(line).Ok? && ParseLine(line).value.Some? ==>
              Kw.FirstMatch(Spellings, line, 0).Some? && Kw.FirstMatch(Spellings, line, 0).value < |Spellings|
    ensures ParseLine(line).Ok? && ParseLine(line).value.Some? ==>
              var i := Kw.FirstMatch(Spellings, line, 0).value;
              var m := ParseLine(line).value.value;
              var n := |Spellings[i].1|;
              n <= |line|
              && StartsWith(Lower(line), Spellings[i].1)
              && (forall j :: 0 <= j < i ==> !StartsWith(Lower(line), Spellings[j].1))
              && m.keyword == Spellings[i].0
              && (m.hasKwColon <==> n < |line| && line[n] == ':')
              && m.contents == Contents(Trim(line[n + (if m.hasKwColon then 1 else 0)..]))
  {
    Kw.FirstMatchIsFirst(Spellings, line, 0);
    forall j | 0 <= j < |Spellings| {
      Kw.SpelledAsStartsWith(line, Spellings[j].1);
    }
    if ParseLine(line).Ok? && ParseLine(line).value.Some? {
      var i := Kw.FirstMatch(Spellings, line, 0).value;
      var n := |Spellings[i].1|;
      var rest := line[n..];
      if rest != [] && rest[0] == ':' {
        assert rest[1..] == line[n + 1..];
      }
    }
  }

  /** Colon placement agrees with the keyword. */
  predicate ColonFits(m: KwLine) {
    TakesColon(m.keyword) == m.hasKwColon
  }

  // ---------------------------------------------------------------------
  // Peeking at keyword lines and step inputs
  // ---------------------------------------------------------------------

  /** A token `peek_kw_line` consumes and passes over: a comment, an empty
      line, or a keyword line with the colon misplaced. */
  predicate PassedOver(t: Lex.Token) {
    match t.kind
    case Comment(_) => true
    case Line(l) => ParseLine(l) == Ok(None) || (ParseLine(l).Ok? && !ColonFits(ParseLine(l).value.value))
    case _ => false
  }

  /** `peek_kw_line`: the first keyword line with its colon in place, left
      unconsumed. */
  function PeekKwFrom(tokens: seq<Lex.Token>, p: nat): (r: Outcome<KwLine>)
    requires p <= |tokens|
    ensures p <= r.next <= |tokens|
    ensures r.Got? ==> r.next < |tokens|
    decreases |tokens| - p
  {
    if p == |tokens| then Fail(tokens, UnexpectedEof, p)
    else match tokens[p].kind
      case Comment(_) => PeekKwFrom(tokens, p + 1)
      case Line(l) =>
        (match ParseLine(l)
         case Err(kind) => Fail(tokens, kind, p)
         case Ok(None) => PeekKwFrom(tokens, p + 1)
         case Ok(Some(m)) => if ColonFits(m) then Got(m, p) else PeekKwFrom(tokens, p + 1))
      case _ => Fail(tokens, Expected(tokens[p]), p + 1)
  }

  /** Where `peek_kw_line` stops: at a keyword line with its colon in
      place, left unconsumed, every token before it passed over. */
  lemma {:induction false} PeekKwFound(tokens: seq<Lex.Token>, p: nat)
    requires p <= |tokens|
    ensures var r := PeekKwFrom(tokens, p);
            r.Got? ==>
              (forall i :: p <= i < r.next ==> PassedOver(tokens[i]))
              && tokens[r.next].kind.Line? && ParseLine(tokens[r.next].kind.text) == Ok(Some(r.value))
              && ColonFits(r.value)
    decreases |tokens| - p
  {
    if p < |tokens| && PassedOver(tokens[p]) {
      PeekKwFound(tokens, p + 1);
    }
  }

  /** How `peek_kw_line` fails: at the end (`UnexpectedEof`), at a line no
      spelling starts (`InvalidKeyword`, the line left in place), or at any
      other token (`Expected`, that token consumed); every token before is
      passed over, and the error reports the end line of the last token
      consumed. */
  lemma {:induction false} PeekKwFails(tokens: seq<Lex.Token>, p: nat)
    requires p <= |tokens|
    ensures var r := PeekKwFrom(tokens, p);
            r.Failed? ==>
              var q := r.next;
              r.error.lineNum == EndLine(tokens, q)
              && (r.error.kind == UnexpectedEof || r.error.kind == InvalidKeyword || r.error.kind.Expected?)
              && (r.error.kind == UnexpectedEof ==> q == |tokens| && forall i :: p <= i < q ==> PassedOver(tokens[i]))
              && (r.error.kind == InvalidKeyword ==>
                    q < |tokens| && tokens[q].kind.Line? && ParseLine(tokens[q].kind.text).Err?
                    && forall i :: p <= i < q ==> PassedOver(tokens[i]))
              && (r.error.kind.Expected? ==>
                    p < q && r.error.kind.got == tokens[q - 1]
                    && !tokens[q - 1].kind.Line? && !tokens[q - 1].kind.Comment?
                    && forall i :: p <= i < q - 1 ==> PassedOver(tokens[i]))
    decreases |tokens| - p
  {
    if p < |tokens| {
      if PassedOver(tokens[p]) {
        assert PeekKwFrom(tokens, p) == PeekKwFrom(tokens, p + 1);
        PeekKwFails(tokens, p + 1);
      } else if tokens[p].kind.Line? && ParseLine(tokens[p].kind.text).Err? {
        assert ParseLine(tokens[p].kind.text) == Err(InvalidKeyword);
      }
    }
  }

  /** The next keyword line with its colon in place lies at `q`: every
      token from `p` up to it is passed over. */
  predicate KwLineAt(tokens: seq<Lex.Token>, p: nat, q: nat, m: KwLine) {
    p <= q < |tokens|
    && (forall i :: p <= i < q ==> PassedOver(tokens[i]))
    && tokens[q].kind.Line? && ParseLine(tokens[q].kind.text) == Ok(Some(m)) && ColonFits(m)
  }

  /** The converse of `PeekKwFound`: that line is what `peek_kw_line`
      returns, unconsumed. */
  lemma {:induction false} PeekKwAt(tokens: seq<Lex.Token>, p: nat, q: nat, m: KwLine)
    requires KwLineAt(tokens, p, q, m)
    ensures PeekKwFrom(tokens, p) == Got(m, q)
    decreases q - p
  {
    if p < q {
      assert PassedOver(tokens[p]);
      assert PeekKwFrom(tokens, p) == PeekKwFrom(tokens, p + 1);
      PeekKwAt(tokens, p + 1, q, m);
    }
  }

  /** `peek_input`, corrected: comments are consumed and a table or a
      doc-string is returned unconsumed; any other token is left in place. */
  function PeekInputFrom(tokens: seq<Lex.Token>, p: nat): (r: Outcome<StepInput>)
    requires p <= |tokens|
    ensures p <= r.next <= |tokens|
    ensures r.Got? ==> r.next < |tokens|
    decreases |tokens| - p
  {
    if p == |tokens| then Fail(tokens, UnexpectedEof, p)
    else match tokens[p].kind
      case Comment(_) => PeekInputFrom(tokens, p + 1)
      case DataTable(table) => Got(StepInput.Table(table), p)
      case DocString(text) => Got(String(text), p)
      case Line(_) => Fail(tokens, Expected(tokens[p]), p)
  }

  /** `peek_input` as written: the token that is not an input is consumed
      before the error is returned. */
  function PeekInputAsWritten(tokens: seq<Lex.Token>, p: nat): (r: Outcome<StepInput>)
    requires p <= |tokens|
    ensures p <= r.next <= |tokens|
    decreases |tokens| - p
  {
    if p == |tokens| then Fail(tokens, UnexpectedEof, p)
    else match tokens[p].kind
      case Comment(_) => PeekInputAsWritten(tokens, p + 1)
      case DataTable(table) => Got(StepInput.Table(table), p)
      case DocString(text) => Got(String(text), p)
      case Line(_) => Fail(tokens, Expected(tokens[p]), p + 1)
  }

  /** The prompt of a step line at `q` with contents `prompt`: with the
      input that follows it, consumed, or bare, the failed peek's error
      discarded. */
  function PromptAt(tokens: seq<Lex.Token>, q: nat, prompt: string): (r: (Prompt, nat))
    requires q < |tokens|
    ensures q < r.1 <= |tokens|
  {
    match PeekInputFrom(tokens, q + 1)
    case Got(input, s) => (WithInput(prompt, input), s + 1)
    case Failed(_, s) => (Bare(prompt), s)
  }

  /** The same with `peek_input` as written. */
  function PromptAsWritten(tokens: seq<Lex.Token>, q: nat, prompt: string): (r: (Prompt, nat))
    requires q < |tokens|
  {
    match PeekInputAsWritten(tokens, q + 1)
    case Got(input, s) => (WithInput(prompt, input), s + 1)
    case Failed(_, s) => (Bare(prompt), s)
  }

  /** Between a step line and the next thing the step loop looks at, the
      corrected prompt consumes only comments and at most one input: no line
      is lost. */
  lemma {:induction false} PeekInputSkipsOnlyComments(tokens: seq<Lex.Token>, p: nat)
    requires p <= |tokens|
    ensures var r := PeekInputFrom(tokens, p);
            (forall i :: p <= i < r.next ==> tokens[i].kind.Comment?)
            && (r.Got? ==> tokens[r.next].kind.DataTable? || tokens[r.next].kind.DocString?)
            && (r.Failed? ==> r.next == |tokens| || tokens[r.next].kind.Line?)
    decreases |tokens| - p
  {
    if p < |tokens| && tokens[p].kind.Comment? {
      PeekInputSkipsOnlyComments(tokens, p + 1);
    }
  }

  lemma PromptKeepsLines(tokens: seq<Lex.Token>, q: nat, prompt: string)
    requires q < |tokens|
    ensures var (pr, s) := PromptAt(tokens, q, prompt);
            pr.prompt == prompt
            && forall i :: q < i < s ==> !tokens[i].kind.Line?
  {
    PeekInputSkipsOnlyComments(tokens, q + 1);
  }

  /** As written, a step with no input swallows the line after it: for the
      step lines of the `kind_of_empty` test, the prompt of "Given nothing"
      consumes "When the base is empty" as well, so that step is lost. The
      corrected prompt stops before it. */
  lemma PromptAsWrittenLosesLine()
    ensures var tokens := [
              Lex.Token(Lex.Line("Given nothing"), 3, 4),
              Lex.Token(Lex.Line("When the base is empty"), 4, 5),
              Lex.Token(Lex.Line("Then nothing happens"), 5, 6)];
            PromptAsWritten(tokens, 0, "nothing") == (Bare("nothing"), 2)
            && PromptAt(tokens, 0, "nothing") == (Bare("nothing"), 1)
  {
  }

  // ---------------------------------------------------------------------
  // `parse_steps`
  // ---------------------------------------------------------------------

  /** The step type a keyword starts, for Given, When and Then. */
  function StartsStep(k: Keyword): Option<Document.StepType> {
    match k
    case Given => Some(Document.Given)
    case When => Some(Document.When)
    case Then => Some(Document.Then)
    case _ => None
  }

  /** The inner loop of `parse_steps`: And and But lines, each with its
      prompt, until a peek fails or another keyword comes. */
  function AndsButsFrom(tokens: seq<Lex.Token>, p: nat, ands: seq<Prompt>, buts: seq<Prompt>)
    : (r: Outcome<(seq<Prompt>, seq<Prompt>)>)
    requires p <= |tokens|
    ensures p <= r.next <= |tokens|
    ensures r.Got? ==> |r.value.0| >= |ands| && r.value.0[..|ands|] == ands
    decreases |tokens| - p
  {
    match PeekKwFrom(tokens, p)
    case Failed(_, q) => Got((ands, buts), q)
    case Got(m, q) =>
      if m.keyword == And || m.keyword == But then
        if m.contents.None? then Fail(tokens, InvalidBareKeyword(m.keyword), q + 1)
        else
          var (prompt, s) := PromptAt(tokens, q, m.contents.value.0);
          if m.keyword == And then AndsButsFrom(tokens, s, ands + [prompt], buts)
          else AndsButsFrom(tokens, s, ands, buts + [prompt])
      else if m.keyword == Asterisk then Fail(tokens, Unsupported, q)
      else Got((ands, buts), q)
  }

  /** The outer loop of `parse_steps`, with the steps read so far: a Given,
      When or Then line with text starts a step, anything else ends the run. */
  function StepsFrom(tokens: seq<Lex.Token>, p: nat, steps: seq<Step>): (r: Outcome<seq<Step>>)
    requires p <= |tokens|
    ensures p <= r.next <= |tokens|
    decreases |tokens| - p
  {
    match PeekKwFrom(tokens, p)
    case Failed(_, q) => Got(steps, q)
    case Got(m, q) =>
      match StartsStep(m.keyword)
      case None => if m.keyword == Asterisk then Fail(tokens, Unsupported, q) else Got(steps, q)
      case Some(ty) =>
        if m.contents.None? then Fail(tokens, InvalidBareKeyword(m.keyword), q + 1)
        else
          var (prompt, s) := PromptAt(tokens, q, m.contents.value.0);
          match AndsButsFrom(tokens, s, [prompt], [])
          case Failed(e, t) => Failed(e, t)
          case Got((ands, buts), t) => StepsFrom(tokens, t, steps + [Step(ty, ands, buts)])
  }

  /** A step read starts with a Given, When or Then line and has at least
      one prompt in its `ands`; `StepsLine` says that prompt is the line's. */
  predicate WellFormedStep(s: Step) {
    s.ty in {Document.Given, Document.When, Document.Then} && |s.ands| >= 1
  }

  lemma {:induction false} StepsWellFormed(tokens: seq<Lex.Token>, p: nat, steps: seq<Step>)
    requires p <= |tokens|
    requires forall i :: 0 <= i < |steps| ==> WellFormedStep(steps[i])
    ensures var r := StepsFrom(tokens, p, steps);
            r.Got? ==> |r.value| >= |steps| && r.value[..|steps|] == steps
                       && forall i :: 0 <= i < |r.value| ==> WellFormedStep(r.value[i])
    decreases |tokens| - p
  {
    match PeekKwFrom(tokens, p)
    case Failed(_, q) =>
    case Got(m, q) =>
      match StartsStep(m.keyword)
      case None =>
      case Some(ty) =>
        if m.contents.Some? {
          var (prompt, s) := PromptAt(tokens, q, m.contents.value.0);
          match AndsButsFrom(tokens, s, [prompt], [])
          case Failed(e, t) =>
          case Got((ands, buts), t) =>
            var steps' := steps + [Step(ty, ands, buts)];
            assert WellFormedStep(Step(ty, ands, buts)) by {
              assert StartsStep(m.keyword) == Some(ty);
            }
            StepsWellFormed(tokens, t, steps');
            var r := StepsFrom(tokens, t, steps');
            if r.Got? {
              assert r.value[..|steps|] == r.value[..|steps'|][..|steps|];
            }
        }
  }

  /** One pass of the And/But loop at the keyword line `m` found at `q`: an
      And or But line with text adds its prompt to `ands` or `buts` and the
      loop goes on after the prompt; a bare And or But is refused, the line
      consumed; `*` is not supported; any other keyword ends the loop,
      leaving its line in place. */
  lemma AndsButsLine(tokens: seq<Lex.Token>, p: nat, q: nat, m: KwLine, ands: seq<Prompt>, buts: seq<Prompt>)
    requires KwLineAt(tokens, p, q, m)
    ensures var r := AndsButsFrom(tokens, p, ands, buts);
            ((m.keyword == And || m.keyword == But) && m.contents.None? ==>
               r == Fail(tokens, InvalidBareKeyword(m.keyword), q + 1))
            && (m.keyword == And && m.contents.Some? ==>
                  var pr := PromptAt(tokens, q, m.contents.value.0);
                  pr.0.prompt == m.contents.value.0 && r == AndsButsFrom(tokens, pr.1, ands + [pr.0], buts))
            && (m.keyword == But && m.contents.Some? ==>
                  var pr := PromptAt(tokens, q, m.contents.value.0);
                  pr.0.prompt == m.contents.value.0 && r == AndsButsFrom(tokens, pr.1, ands, buts + [pr.0]))
            && (m.keyword == Asterisk ==> r == Fail(tokens, Unsupported, q))
            && (m.keyword != And && m.keyword != But && m.keyword != Asterisk ==> r == Got((ands, buts), q))
  {
    PeekKwAt(tokens, p, q, m);
    if m.contents.Some? {
      PromptKeepsLines(tokens, q, m.contents.value.0);
    }
  }

  /** Where no keyword line can be peeked, the And/But loop ends with what
      it has read, at the cursor the failed peek left. */
  lemma AndsButsEnd(tokens: seq<Lex.Token>, p: nat, ands: seq<Prompt>, buts: seq<Prompt>)
    requires p <= |tokens|
    requires PeekKwFrom(tokens, p).Failed?
    ensures AndsButsFrom(tokens, p, ands, buts) == Got((ands, buts), PeekKwFrom(tokens, p).next)
  {
  }

  /** One pass of the step loop at the keyword line `m` found at `q`: a
      Given, When or Then line with text reads its prompt, then the And/But
      loop from `[prompt]`, and appends the step of that type, whose first
      `ands` is the line's prompt, unless that loop fails; a bare one is
      refused, the line consumed; `*` is not supported; any other keyword
      ends the steps, leaving its line in place. */
  lemma StepsLine(tokens: seq<Lex.Token>, p: nat, q: nat, m: KwLine, steps: seq<Step>)
    requires KwLineAt(tokens, p, q, m)
    ensures var r := StepsFrom(tokens, p, steps);
            (StartsStep(m.keyword).Some? && m.contents.None? ==>
               r == Fail(tokens, InvalidBareKeyword(m.keyword), q + 1))
            && (StartsStep(m.keyword).Some? && m.contents.Some? ==>
                  var pr := PromptAt(tokens, q, m.contents.value.0);
                  var ab := AndsButsFrom(tokens, pr.1, [pr.0], []);
                  pr.0.prompt == m.contents.value.0
                  && (ab.Failed? ==> r == Failed(ab.error, ab.next))
                  && (ab.Got? ==>
                        ab.value.0[0] == pr.0
                        && r == StepsFrom(tokens, ab.next, steps + [Step(StartsStep(m.keyword).value, ab.value.0, ab.value.1)])))
            && (m.keyword == Asterisk ==> r == Fail(tokens, Unsupported, q))
            && (StartsStep(m.keyword).None? && m.keyword != Asterisk ==> r == Got(steps, q))
  {
    PeekKwAt(tokens, p, q, m);
    if StartsStep(m.keyword).Some? && m.contents.Some? {
      var pr := PromptAt(tokens, q, m.contents.value.0);
      PromptKeepsLines(tokens, q, m.contents.value.0);
      AndsButsKeepFirst(tokens, pr.1, pr.0);
    }
  }

  /** The And/But loop started from a step line's prompt keeps it first. */
  lemma AndsButsKeepFirst(tokens: seq<Lex.Token>, s: nat, prompt: Prompt)
    requires s <= |tokens|
    ensures var ab := AndsButsFrom(tokens, s, [prompt], []);
            ab.Got? ==> |ab.value.0| >= 1 && ab.value.0[0] == prompt
  {
    var ab := AndsButsFrom(tokens, s, [prompt], []);
    if ab.Got? {
      assert ab.value.0[0] == ab.value.0[..1][0];
    }
  }

  /** Where no keyword line can be peeked, the steps end with those read. */
  lemma StepsEnd(tokens: seq<Lex.Token>, p: nat, steps: seq<Step>)
    requires p <= |tokens|
    requires PeekKwFrom(tokens, p).Failed?
    ensures StepsFrom(tokens, p, steps) == Got(steps, PeekKwFrom(tokens, p).next)
  {
  }

  // ---------------------------------------------------------------------
  // `parse_background`
  // ---------------------------------------------------------------------

  /** The `find` for a step that is not a Given. */
  function FirstNonGiven(steps: seq<Step>): (r: Option<nat>)
    ensures r.Some? ==> r.value < |steps| && steps[r.value].ty != Document.Given
                        && forall i :: 0 <= i < r.value ==> steps[i].ty == Document.Given
    ensures r.None? ==> forall i :: 0 <= i < |steps| ==> steps[i].ty == Document.Given
  {
    if steps == [] then None
    else if steps[0].ty != Document.Given then Some(0)
    else match FirstNonGiven(steps[1..])
      case None => None
      case Some(i) => Some(i + 1)
  }

  /** The `ands` of the Given steps, one after the other. */
  function GivenAnds(steps: seq<Step>): seq<Prompt> {
    if steps == [] then []
    else (if steps[0].ty == Document.Given then steps[0].ands else []) + GivenAnds(steps[1..])
  }

  /** The `buts` of the Given steps, one after the other. */
  function GivenButs(steps: seq<Step>): seq<Prompt> {
    if steps == [] then []
    else (if steps[0].ty == Document.Given then steps[0].buts else []) + GivenButs(steps[1..])
  }

  /** `parse_background`: a Background line and its steps, all of which
      must be Given; no Background line means no background. */
  function BackgroundAt(tokens: seq<Lex.Token>, p: nat): (r: Outcome<(seq<Prompt>, seq<Prompt>)>)
    requires p <= |tokens|
    ensures p <= r.next <= |tokens|
  {
    match PeekKwFrom(tokens, p)
    case Failed(e, q) => Failed(e, q)
    case Got(m, q) =>
      if m.keyword != Background then Got(([], []), q)
      else BackgroundStepsAt(tokens, q + 1)
  }

  function BackgroundStepsAt(tokens: seq<Lex.Token>, p: nat): (r: Outcome<(seq<Prompt>, seq<Prompt>)>)
    requires p <= |tokens|
    ensures p <= r.next <= |tokens|
  {
    match StepsFrom(tokens, p, [])
    case Failed(e, s) => Failed(e, s)
    case Got(steps, s) =>
      match FirstNonGiven(steps)
      case Some(i) => Fail(tokens, InvalidBackgroundStep(steps[i].ty), s)
      case None => Got((GivenAnds(steps), GivenButs(steps)), s)
  }

  /** Over steps that are all Given, the prompts gathered are every step's
      `ands` (and `buts`) in order. */
  lemma {:induction false} GivenPromptsOfGivens(steps: seq<Step>, k: nat)
    requires k <= |steps|
    requires forall i :: 0 <= i < |steps| ==> steps[i].ty == Document.Given
    ensures GivenAnds(steps[..k]) + (if k < |steps| then steps[k].ands else [])
            == GivenAnds(steps[..if k < |steps| then k + 1 else k])
    ensures GivenButs(steps[..k]) + (if k < |steps| then steps[k].buts else [])
            == GivenButs(steps[..if k < |steps| then k + 1 else k])
    decreases k
  {
    if k < |steps| {
      GivenAppend(steps[..k], steps[k]);
      assert steps[..k + 1] == steps[..k] + [steps[k]];
    }
  }

  lemma {:induction false} GivenAppend(steps: seq<Step>, s: Step)
    ensures GivenAnds(steps + [s]) == GivenAnds(steps) + (if s.ty == Document.Given then s.ands else [])
    ensures GivenButs(steps + [s]) == GivenButs(steps) + (if s.ty == Document.Given then s.buts else [])
    decreases |steps|
  {
    if steps == [] {
      assert steps + [s] == [s];
    } else {
      GivenAppend(steps[1..], s);
      assert (steps + [s])[1..] == steps[1..] + [s];
    }
  }

  /** A background is refused exactly when one of its steps is not a Given,
      and the error names the first such step's type. */
  lemma BackgroundStepsOutcome(tokens: seq<Lex.Token>, p: nat)
    requires p <= |tokens|
    requires StepsFrom(tokens, p, []).Got?
    ensures var steps := StepsFrom(tokens, p, []).value;
            var r := BackgroundStepsAt(tokens, p);
            (r.Failed? <==> exists i :: 0 <= i < |steps| && steps[i].ty != Document.Given)
            && (r.Failed? ==> exists i :: 0 <= i < |steps| && r.error.kind == InvalidBackgroundStep(steps[i].ty)
                                         && steps[i].ty != Document.Given
                                         && forall j :: 0 <= j < i ==> steps[j].ty == Document.Given)
            && (r.Got? ==> r.value == (GivenAnds(steps), GivenButs(steps)))
  {
  }

  // ---------------------------------------------------------------------
  // `parse_freeform_text`
  // ---------------------------------------------------------------------

  /** A line that ends the freeform text. */
  predicate EndsFreeform(l: string) {
    var r := ParseLine(l);
    r.Ok? && r.value.Some? && r.value.value.keyword in {Background, Keyword.Example, ScenarioOutline}
  }

  /** The trimmed text, None when empty. */
  function NonEmpty(text: string): Option<string> {
    var t := Trim(text);
    if t == [] then None else Some(t)
  }

  /** The freeform loop as written reaches an end, or a comment, where it
      neither consumes nor moves on: it runs forever. */
  datatype Freeform = Ends(outcome: Outcome<Option<string>>) | Hangs(at: nat)

  function FreeformAsWritten(tokens: seq<Lex.Token>, p: nat, text: string): Freeform
    requires p <= |tokens|
    decreases |tokens| - p
  {
    if p == |tokens| then Ends(Got(NonEmpty(text), p))
    else match tokens[p].kind
      case Line(l) =>
        if EndsFreeform(l) then Ends(Got(NonEmpty(text), p))
        else FreeformAsWritten(tokens, p + 1, text + TrimStart(l) + "\n")
      case Comment(_) => Hangs(p)
      case _ => Ends(Fail(tokens, Expected(tokens[p]), p + 1))
  }

  /** As written, the freeform text after the Feature line never ends when
      it meets a comment. */
  lemma {:induction false} FreeformAsWrittenHangs(tokens: seq<Lex.Token>, p: nat, text: string)
    requires p <= |tokens|
    requires exists k :: p <= k < |tokens| && tokens[k].kind.Comment?
                         && forall i :: p <= i < k ==> tokens[i].kind.Line? && !EndsFreeform(tokens[i].kind.text)
    ensures FreeformAsWritten(tokens, p, text).Hangs?
    decreases |tokens| - p
  {
    var k :| p <= k < |tokens| && tokens[k].kind.Comment?
             && forall i :: p <= i < k ==> tokens[i].kind.Line? && !EndsFreeform(tokens[i].kind.text);
    if p < k {
      FreeformAsWrittenHangs(tokens, p + 1, text + TrimStart(tokens[p].kind.text) + "\n");
    }
  }

  /** `parse_freeform_text`, corrected: a comment is consumed and skipped. */
  function FreeformFrom(tokens: seq<Lex.Token>, p: nat, text: string): (r: Outcome<Option<string>>)
    requires p <= |tokens|
    ensures p <= r.next <= |tokens|
    decreases |tokens| - p
  {
    if p == |tokens| then Got(NonEmpty(text), p)
    else match tokens[p].kind
      case Line(l) =>
        if EndsFreeform(l) then Got(NonEmpty(text), p)
        else FreeformFrom(tokens, p + 1, text + TrimStart(l) + "\n")
      case Comment(_) => FreeformFrom(tokens, p + 1, text)
      case _ => Fail(tokens, Expected(tokens[p]), p + 1)
  }

  /** What a token adds to the freeform text: a line without its leading
      whitespace and followed by "\n"; nothing for any other token. */
  function Piece(t: Lex.Token): string {
    if t.kind.Line? then TrimStart(t.kind.text) + "\n" else []
  }

  /** The text of a run of tokens, piece after piece. */
  function FreeText(ts: seq<Lex.Token>): string {
    if ts == [] then [] else Piece(ts[0]) + FreeText(ts[1..])
  }

  lemma FreeTextSlice(tokens: seq<Lex.Token>, p: nat, q: nat)
    requires p < q <= |tokens|
    ensures FreeText(tokens[p..q]) == Piece(tokens[p]) + FreeText(tokens[p + 1..q])
  {
    assert tokens[p..q][1..] == tokens[p + 1..q];
  }

  /** A token the freeform loop takes: a comment, or a line that does not
      end the text. */
  predicate FreeformTakes(t: Lex.Token) {
    t.kind.Comment? || (t.kind.Line? && !EndsFreeform(t.kind.text))
  }

  /** The corrected freeform loop takes line and comment tokens up to a
      Background, Example or Scenario Outline line or the end. */
  lemma {:induction false} FreeformStops(tokens: seq<Lex.Token>, p: nat, text: string)
    requires p <= |tokens|
    ensures var r := FreeformFrom(tokens, p, text);
            r.Got? ==>
              (forall i :: p <= i < r.next ==> FreeformTakes(tokens[i]))
              && (r.next == |tokens| || (tokens[r.next].kind.Line? && EndsFreeform(tokens[r.next].kind.text)))
    decreases |tokens| - p
  {
    if p < |tokens| && FreeformTakes(tokens[p]) {
      var t := tokens[p];
      FreeformStops(tokens, p + 1, if t.kind.Line? then text + TrimStart(t.kind.text) + "\n" else text);
    }
  }

  /** Its text is that of the tokens it took, trimmed: comments do not
      change it. */
  lemma {:induction false} FreeformText(tokens: seq<Lex.Token>, p: nat, text: string)
    requires p <= |tokens|
    ensures var r := FreeformFrom(tokens, p, text);
            r.Got? ==> r.value == NonEmpty(text + FreeText(tokens[p..r.next]))
    decreases |tokens| - p
  {
    var r := FreeformFrom(tokens, p, text);
    if p < |tokens| && FreeformTakes(tokens[p]) {
      FreeformStep(tokens, p, text);
      var piece := Piece(tokens[p]);
      FreeformText(tokens, p + 1, text + piece);
      if r.Got? {
        FreeTextPrepend(tokens, p, r.next, text);
      }
    } else if r.Got? {
      assert tokens[p..r.next] == [];
      assert text + [] == text;
    }
  }

  /** The text so far, a token's piece, then the text of the tokens after
      it, is the text so far and that of the whole run. */
  lemma FreeTextPrepend(tokens: seq<Lex.Token>, p: nat, q: nat, text: string)
    requires p < q <= |tokens|
    ensures text + Piece(tokens[p]) + FreeText(tokens[p + 1..q]) == text + FreeText(tokens[p..q])
  {
    FreeTextSlice(tokens, p, q);
  }

  /** A token the loop takes adds its piece and moves on. */
  lemma FreeformStep(tokens: seq<Lex.Token>, p: nat, text: string)
    requires p < |tokens| && FreeformTakes(tokens[p])
    ensures FreeformFrom(tokens, p, text) == FreeformFrom(tokens, p + 1, text + Piece(tokens[p]))
  {
    var t := tokens[p];
    if t.kind.Line? {
      assert text + TrimStart(t.kind.text) + "\n" == text + Piece(t);
    } else {
      assert text + Piece(t) == text;
    }
  }

  // ---------------------------------------------------------------------
  // `Parser::parse`
  // ---------------------------------------------------------------------

  /** The position of the first `c` in `s`. */
  function FirstIndexOf(s: string, c: char): (r: Option<nat>)
    ensures r.Some? ==> r.value < |s| && s[r.value] == c && forall i :: 0 <= i < r.value ==> s[i] != c
    ensures r.None? ==> forall i :: 0 <= i < |s| ==> s[i] != c
  {
    if s == [] then None
    else if s[0] == c then Some(0)
    else match FirstIndexOf(s[1..], c)
      case None => None
      case Some(i) => Some(i + 1)
  }

  /** The language a comment declares: split at its first ':', the left
      part exactly "language", the right part trimmed. */
  function LanguageOf(comment: string): Option<string> {
    match FirstIndexOf(comment, ':')
    case None => None
    case Some(i) => if comment[..i] == "language" then Some(Trim(comment[i + 1..])) else None
  }

  /** The languages declared by the comment tokens, in order. */
  function LanguageTags(tokens: seq<Lex.Token>): seq<string> {
    if tokens == [] then []
    else
      (match tokens[0].kind
       case Comment(c) => (match LanguageOf(c) case Some(l) => [l] case None => [])
       case _ => []) + LanguageTags(tokens[1..])
  }

  /** A comment `language:<rest>` declares the trimmed rest, as the
      comment `#language: gb` of the `parse_basic` test declares "gb". */
  lemma LanguageOfDeclaration(rest: string)
    ensures LanguageOf("language:" + rest) == Some(Trim(rest))
  {
    var c := "language:" + rest;
    assert c[8] == ':';
    assert forall i :: 0 <= i < 8 ==> c[i] != ':' by {
      forall i | 0 <= i < 8 ensures c[i] != ':' {
        assert c[i] == "language"[i];
      }
    }
    assert FirstIndexOf(c, ':') == Some(8);
    assert c[..8] == "language";
    assert c[9..] == rest;
  }

  /** Only a comment whose text starts with the key itself declares a
      language: leading blanks are not skipped. */
  lemma LanguageOfNeedsKeyFirst(comment: string)
    requires comment != [] && comment[0] != 'l'
    ensures LanguageOf(comment) == None
  {
  }

  /** One pass of the body loop of `parse`: a keyword line, consumed, and
      for Example the steps after it. */
  function BlockAt(tokens: seq<Lex.Token>, p: nat): (r: Outcome<Block>)
    requires p <= |tokens|
    ensures p <= r.next <= |tokens|
    ensures r.Got? ==> p < r.next
  {
    match PeekKwFrom(tokens, p)
    case Failed(e, q) => Failed(e, q)
    case Got(m, q) =>
      match m.keyword
      case Example =>
        (match StepsFrom(tokens, q + 1, [])
         case Failed(e, s) => Failed(e, s)
         case Got(steps, s) => Got(ExampleBlock(Example.Example(NameOf(m), steps)), s))
      case ScenarioOutline => Fail(tokens, Unsupported, q + 1)
      case Background => Fail(tokens, Unexpected(Background), q + 1)
      case _ => Fail(tokens, Expected(tokens[q]), q + 1)
  }

  /** The body loop of `parse`: blocks until no token is left. */
  function BodyFrom(tokens: seq<Lex.Token>, p: nat, blocks: seq<Block>): (r: Outcome<seq<Block>>)
    requires p <= |tokens|
    ensures p <= r.next <= |tokens|
    decreases |tokens| - p
  {
    match BlockAt(tokens, p)
    case Failed(e, q) => Failed(e, q)
    case Got(b, s) => if s == |tokens| then Got(blocks + [b], s) else BodyFrom(tokens, s, blocks + [b])
  }

  /** The name a keyword line gives: its contents without the flag. */
  function NameOf(m: KwLine): Option<string> {
    match m.contents
    case None => None
    case Some((name, _)) => Some(name)
  }

  /** A block comes from an Example line with a name taken from its text
      and the steps after it; a Background line in the body is refused. */
  lemma BlockOutcome(tokens: seq<Lex.Token>, p: nat)
    requires p <= |tokens|
    ensures var r := BlockAt(tokens, p);
            r.Got? ==> PeekKwFrom(tokens, p).Got? && PeekKwFrom(tokens, p).value.keyword == Keyword.Example
                       && r.value.example.name == NameOf(PeekKwFrom(tokens, p).value)
                       && StepsFrom(tokens, PeekKwFrom(tokens, p).next + 1, []) == Got(r.value.example.steps, r.next)
    ensures PeekKwFrom(tokens, p).Got? && PeekKwFrom(tokens, p).value.keyword == Background ==>
              BlockAt(tokens, p).Failed? && BlockAt(tokens, p).error.kind == Unexpected(Background)
  {
  }

  /** The body yields at least one block and reads to the last token. */
  lemma {:induction false} BodyOutcome(tokens: seq<Lex.Token>, p: nat, blocks: seq<Block>)
    requires p <= |tokens|
    ensures var r := BodyFrom(tokens, p, blocks);
            r.Got? ==> |r.value| > |blocks| && r.value[..|blocks|] == blocks && r.next == |tokens|
    ensures p == |tokens| ==> BodyFrom(tokens, p, blocks).Failed?
    decreases |tokens| - p
  {
    match BlockAt(tokens, p)
    case Failed(e, q) =>
    case Got(b, s) =>
      var blocks' := blocks + [b];
      if s < |tokens| {
        BodyOutcome(tokens, s, blocks');
        var r := BodyFrom(tokens, s, blocks');
        if r.Got? {
          assert r.value[..|blocks|] == r.value[..|blocks'|][..|blocks|];
        }
      }
  }

  /** `parse`, up to the Feature line: the language, then the Feature
      line. */
  function Parse(tokens: seq<Lex.Token>): (r: Outcome<Feature>) {
    var tags := LanguageTags(tokens);
    if |tags| > 1 then Fail(tokens, MultipleLanguageTags, 0)
    else
      var language := if tags == [] then "en" else tags[0];
      match PeekKwFrom(tokens, 0)
      case Failed(e, q) => Failed(e, q)
      case Got(m, q) =>
        if m.keyword != Keyword.Feature then Fail(tokens, NotAFeature(m.keyword), q + 1)
        else FeatureBodyAt(tokens, q + 1, language, NameOf(m))
  }

  /** `parse` after the Feature line: freeform text, background, body. */
  function FeatureBodyAt(tokens: seq<Lex.Token>, p: nat, language: string, name: Option<string>)
    : (r: Outcome<Feature>)
    requires p <= |tokens|
  {
    match FreeformFrom(tokens, p, [])
    case Failed(e, q) => Failed(e, q)
    case Got(freeform, q) =>
      match BackgroundAt(tokens, q)
      case Failed(e, s) => Failed(e, s)
      case Got((ands, buts), s) =>
        match BodyFrom(tokens, s, [])
        case Failed(e, t) => Failed(e, t)
        case Got(blocks, t) => Got(Feature.Feature(language, name, freeform, blocks, ands, buts), t)
  }

  /** `parse_feature`: lexing errors are reported with their own line. */
  function ParseFeature(text: string): Result<Feature, Error> {
    match Lex.Tokenize(text)
    case Err(e) => Err(Error(LexFailure(e.kind), e.lineNum))
    case Ok(tokens) =>
      match Parse(tokens)
      case Failed(e, _) => Err(e)
      case Got(f, _) => Ok(f)
  }

  /** Empty input is refused: the Feature line is looked for and the end
      of input met at line 0. */
  lemma EmptyInputFails()
    ensures ParseFeature("") == Err(Error(UnexpectedEof, 0))
  {
    assert Lines("") == [];
    assert Lex.TokensFrom([], 0) == Ok([]);
  }

  /** More than one language comment is refused at line 0; otherwise the
      language is the one declared, or "en". */
  lemma LanguageOutcome(tokens: seq<Lex.Token>)
    ensures |LanguageTags(tokens)| > 1 <==> Parse(tokens) == Failed(Error(MultipleLanguageTags, 0), 0)
    ensures Parse(tokens).Got? ==>
              Parse(tokens).value.language == if LanguageTags(tokens) == [] then "en" else LanguageTags(tokens)[0]
  {
  }
}
