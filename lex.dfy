/** The lexer of the token-based parser draft (gherkin/src/lex.rs): the
    text's lines become Line, Comment, DocString and DataTable tokens, each
    covering a run of whole lines. `current_line` always counts the lines
    consumed so far. */
module Lex {
  import opened Wrappers
  import opened Text
  import opened Rows
  import opened DataTables
  import Document

  datatype TokenKind =
    | Line(text: string)      // a trimmed line
    | Comment(text: string)   // a trimmed line after its '#'
    | DocString(text: string)
    | DataTable(table: Table)

  /** A token and the lines `startLine..endLine` it was read from. */
  datatype Token = Token(kind: TokenKind, startLine: nat, endLine: nat)

  datatype ErrorKind = StringInconsistentIndent | UnclosedDocString

  /** A lexing failure and the value of `current_line` when it was found. */
  datatype LexError = LexError(lineNum: nat, kind: ErrorKind)

  /** A line whose text, after leading whitespace, opens a doc-string. */
  predicate OpensDocString(line: string) {
    StartsWith(TrimStart(line), Document.Quotes)
  }

  /** A line that closes a doc-string: its trimmed text starts with the quotes. */
  predicate ClosesDocString(line: string) {
    StartsWith(Trim(line), Document.Quotes)
  }

  /** A line whose text, after leading whitespace, starts a table row. */
  predicate OpensTable(line: string) {
    StartsWith(TrimStart(line), "|")
  }

  // ---------------------------------------------------------------------
  // What the lexer computes, as functions of the lines and the position.
  // ---------------------------------------------------------------------

  /** The loop of `tokenize_docstring` after the opening line, from line `p`
      with the text gathered so far: the text and the position after the
      closing line, or the error and the line count when it was found. */
  function DocLinesFrom(lines: seq<string>, p: nat, indent: string, text: string)
    : (r: Result<(string, nat), LexError>)
    requires p <= |lines|
    ensures r.Ok? ==> p < r.value.1 <= |lines|
    decreases |lines| - p
  {
    if p == |lines| then Err(LexError(p, UnclosedDocString))
    else if ClosesDocString(lines[p]) then Ok((text, p + 1))
    else if !StartsWith(lines[p], indent) then Err(LexError(p + 1, StringInconsistentIndent))
    else DocLinesFrom(lines, p + 1, indent, text + lines[p][|indent|..] + "\n")
  }

  /** `tokenize_docstring`: None unless the line at `p` opens a doc-string. */
  function DocTokenAt(lines: seq<string>, p: nat): (r: Result<Option<Token>, LexError>)
    requires p <= |lines|
    ensures r.Ok? && r.value.Some? ==> r.value.value.startLine == p < r.value.value.endLine <= |lines|
  {
    if p == |lines| || !OpensDocString(lines[p]) then Ok(None)
    else match DocLinesFrom(lines, p + 1, Indent(lines[p]), [])
      case Err(e) => Err(e)
      case Ok((text, q)) => Ok(Some(Token(DocString(text), p, q)))
  }

  /** The row loop of `tokenize_table`: every following line that opens a
      row, with no check of its width. */
  function TableRowsFrom(lines: seq<string>, p: nat, rows: seq<seq<string>>)
    : (r: (seq<seq<string>>, nat))
    requires p <= |lines|
    ensures p <= r.1 <= |lines|
    decreases |lines| - p
  {
    if p < |lines| && OpensTable(lines[p]) then TableRowsFrom(lines, p + 1, rows + [RowCells(lines[p])])
    else (rows, p)
  }

  /** `tokenize_table`: None unless the line at `p` opens a row. */
  function TableTokenAt(lines: seq<string>, p: nat): (r: Option<Token>)
    requires p <= |lines|
    ensures r.Some? ==> r.value.startLine == p < r.value.endLine <= |lines|
  {
    if p == |lines| || !OpensTable(lines[p]) then None
    else
      var (rows, q) := TableRowsFrom(lines, p + 1, []);
      Some(Token(DataTable(Table(RowCells(lines[p]), rows)), p, q))
  }

  /** The single-line token of the line at `p`. */
  function LineTokenAt(lines: seq<string>, p: nat): Token
    requires p < |lines|
  {
    var t := Trim(lines[p]);
    Token(if StartsWith(t, "#") then Comment(t[1..]) else Line(t), p, p + 1)
  }

  /** One pass of the loop of `Lexer::lex`: a doc-string, else a table,
      else a single line; None once no line is left. */
  function NextTokenAt(lines: seq<string>, p: nat): (r: Result<Option<Token>, LexError>)
    requires p <= |lines|
    ensures r.Ok? && r.value.Some? ==> r.value.value.startLine == p < r.value.value.endLine <= |lines|
  {
    match DocTokenAt(lines, p)
    case Err(e) => Err(e)
    case Ok(Some(t)) => Ok(Some(t))
    case Ok(None) =>
      match TableTokenAt(lines, p)
      case Some(t) => Ok(Some(t))
      case None => if p == |lines| then Ok(None) else Ok(Some(LineTokenAt(lines, p)))
  }

  /** The tokens from line `p` to the end. */
  function TokensFrom(lines: seq<string>, p: nat): Result<seq<Token>, LexError>
    requires p <= |lines|
    decreases |lines| - p
  {
    match NextTokenAt(lines, p)
    case Err(e) => Err(e)
    case Ok(None) => Ok([])
    case Ok(Some(t)) => Prepend(t, TokensFrom(lines, t.endLine))
  }

  function Prepend(t: Token, r: Result<seq<Token>, LexError>): Result<seq<Token>, LexError> {
    match r
    case Err(e) => Err(e)
    case Ok(ts) => Ok([t] + ts)
  }

  /** `lex(input)`. */
  function Tokenize(text: string): Result<seq<Token>, LexError> {
    TokensFrom(Lines(text), 0)
  }

  /** `Token::extract`: the token's lines, concatenated with no separator;
      `skip` and `take` stop quietly at the end of the text. */
  function Extract(lines: seq<string>, t: Token): string
    requires t.startLine <= t.endLine
  {
    var n := |lines|;
    Concat(lines[if t.startLine < n then t.startLine else n .. if t.endLine < n then t.endLine else n])
  }

  // ---------------------------------------------------------------------
  // Properties of the tokens.
  // ---------------------------------------------------------------------

  /** The tokens cover lines `from..to`: each one starts where the one before
      it ended, and none is empty. */
  predicate Tiles(ts: seq<Token>, from: nat, to: nat)
    decreases |ts|
  {
    if ts == [] then from == to
    else ts[0].startLine == from < ts[0].endLine && Tiles(ts[1..], ts[0].endLine, to)
  }

  /** Tiling spelled out: first start, last end, no gaps, no empty token. */
  lemma {:induction false} TilesMeaning(ts: seq<Token>, from: nat, to: nat)
    requires Tiles(ts, from, to)
    ensures ts == [] ==> from == to
    ensures ts != [] ==> ts[0].startLine == from && ts[|ts| - 1].endLine == to
    ensures forall i :: 0 <= i < |ts| ==> ts[i].startLine < ts[i].endLine
    ensures forall i :: 0 <= i < |ts| - 1 ==> ts[i].endLine == ts[i + 1].startLine
    ensures from <= to
    decreases |ts|
  {
    if ts != [] {
      TilesMeaning(ts[1..], ts[0].endLine, to);
      assert forall i :: 1 <= i < |ts| ==> ts[i] == ts[1..][i - 1];
    }
  }

  /** Whatever the lexer yields from line `p` covers exactly the lines from
      `p` to the end. */
  lemma {:induction false} TokensTile(lines: seq<string>, p: nat)
    requires p <= |lines|
    ensures TokensFrom(lines, p).Ok? ==> Tiles(TokensFrom(lines, p).value, p, |lines|)
    decreases |lines| - p
  {
    match NextTokenAt(lines, p)
    case Err(_) =>
    case Ok(None) =>
    case Ok(Some(t)) =>
      TokensTile(lines, t.endLine);
      if TokensFrom(lines, p).Ok? {
        assert TokensFrom(lines, p).value[1..] == TokensFrom(lines, t.endLine).value;
      }
  }

  /** The doc-string text of interior lines: each line without the opening
      indent, followed by "\n". */
  function DocBody(ls: seq<string>, indent: string): string
    requires forall i :: 0 <= i < |ls| ==> StartsWith(ls[i], indent)
  {
    if ls == [] then []
    else
      assert StartsWith(ls[0], indent);
      ls[0][|indent|..] + "\n" + DocBody(ls[1..], indent)
  }

  /** Lines `p..q` are doc-string interior: none closes it and each carries
      the indent. */
  predicate Interior(lines: seq<string>, p: nat, q: nat, indent: string)
    requires p <= q <= |lines|
  {
    forall i :: p <= i < q ==> !ClosesDocString(lines[i]) && StartsWith(lines[i], indent)
  }

  /** A doc-string closes at the first closing line, every line before it
      carrying the indent, and its text is the de-indented interior. */
  lemma {:induction false} DocLinesClosed(lines: seq<string>, p: nat, indent: string, text: string)
    requires p <= |lines|
    ensures var r := DocLinesFrom(lines, p, indent, text);
            r.Ok? ==>
              var q := r.value.1;
              ClosesDocString(lines[q - 1]) && Interior(lines, p, q - 1, indent)
              && r.value.0 == text + DocBody(lines[p..q - 1], indent)
    decreases |lines| - p
  {
    if p < |lines| && !ClosesDocString(lines[p]) && StartsWith(lines[p], indent) {
      var text' := text + lines[p][|indent|..] + "\n";
      DocLinesClosed(lines, p + 1, indent, text');
      var r := DocLinesFrom(lines, p + 1, indent, text');
      assert DocLinesFrom(lines, p, indent, text) == r;
      if r.Ok? {
        InteriorCons(lines, p, r.value.1 - 1, indent);
        DocBodyCons(lines, p, r.value.1 - 1, indent, text);
      }
    } else if p < |lines| && ClosesDocString(lines[p]) {
      assert text + DocBody(lines[p..p], indent) == text;
    }
  }

  /** An interior line in front of interior lines. */
  lemma InteriorCons(lines: seq<string>, p: nat, e: nat, indent: string)
    requires p < e <= |lines|
    requires !ClosesDocString(lines[p]) && StartsWith(lines[p], indent)
    requires Interior(lines, p + 1, e, indent)
    ensures Interior(lines, p, e, indent)
  {
  }

  /** The first interior line's text comes first. */
  lemma DocBodyCons(lines: seq<string>, p: nat, e: nat, indent: string, text: string)
    requires p < e <= |lines| && Interior(lines, p, e, indent)
    ensures text + DocBody(lines[p..e], indent)
         == (text + lines[p][|indent|..] + "\n") + DocBody(lines[p + 1..e], indent)
  {
    var body := lines[p..e];
    assert body[0] == lines[p] && body[1..] == lines[p + 1..e];
    DocBodyHead(body, indent);
    AppendAssoc(text, lines[p][|indent|..], DocBody(lines[p + 1..e], indent));
  }

  /** Unfolding the doc-string text of non-empty interior lines once. */
  lemma DocBodyHead(ls: seq<string>, indent: string)
    requires ls != [] && forall i :: 0 <= i < |ls| ==> StartsWith(ls[i], indent)
    ensures DocBody(ls, indent) == ls[0][|indent|..] + "\n" + DocBody(ls[1..], indent)
  {
  }

  lemma AppendAssoc(text: string, line: string, rest: string)
    ensures text + (line + "\n" + rest) == (text + line + "\n") + rest
  {
  }

  /** A doc-string fails at the end of the text, every line up to it being
      interior, or at the first line without the indent, reporting the line
      count after it. */
  lemma {:induction false} DocLinesFailed(lines: seq<string>, p: nat, indent: string, text: string)
    requires p <= |lines|
    ensures var r := DocLinesFrom(lines, p, indent, text);
            r.Err? && r.error.kind == UnclosedDocString ==>
              r.error.lineNum == |lines| && Interior(lines, p, |lines|, indent)
    ensures var r := DocLinesFrom(lines, p, indent, text);
            r.Err? && r.error.kind == StringInconsistentIndent ==>
              var k := r.error.lineNum - 1;
              p <= k < |lines| && !ClosesDocString(lines[k]) && !StartsWith(lines[k], indent)
              && Interior(lines, p, k, indent)
    decreases |lines| - p
  {
    if p < |lines| && !ClosesDocString(lines[p]) && StartsWith(lines[p], indent) {
      DocLinesFailed(lines, p + 1, indent, text + lines[p][|indent|..] + "\n");
    }
  }

  /** The rows the table loop gathers: one per following row line, up to the
      first line that is not one. */
  lemma TableRowsOutcome(lines: seq<string>, p: nat, rows: seq<seq<string>>)
    requires p <= |lines|
    ensures var (rs, q) := TableRowsFrom(lines, p, rows);
            (q == |lines| || !OpensTable(lines[q]))
            && (forall i :: p <= i < q ==> OpensTable(lines[i]))
            && |rs| == |rows| + q - p
            && rs[..|rows|] == rows
            && forall i :: p <= i < q ==> rs[|rows| + i - p] == RowCells(lines[i])
  {
    TableRowsStop(lines, p, rows);
    TableRowsGathered(lines, p, rows);
  }

  /** The loop stops at the first line that does not open a row. */
  lemma {:induction false} TableRowsStop(lines: seq<string>, p: nat, rows: seq<seq<string>>)
    requires p <= |lines|
    ensures var (rs, q) := TableRowsFrom(lines, p, rows);
            (q == |lines| || !OpensTable(lines[q]))
            && (forall i :: p <= i < q ==> OpensTable(lines[i]))
    decreases |lines| - p
  {
    if p < |lines| && OpensTable(lines[p]) {
      TableRowsStop(lines, p + 1, rows + [RowCells(lines[p])]);
    }
  }

  /** Each line it passes adds that line's cells as one row. */
  lemma {:induction false} TableRowsGathered(lines: seq<string>, p: nat, rows: seq<seq<string>>)
    requires p <= |lines|
    ensures var (rs, q) := TableRowsFrom(lines, p, rows);
            |rs| == |rows| + q - p
            && rs[..|rows|] == rows
            && forall i :: p <= i < q ==> rs[|rows| + i - p] == RowCells(lines[i])
    decreases |lines| - p
  {
    if p < |lines| && OpensTable(lines[p]) {
      var rows' := rows + [RowCells(lines[p])];
      TableRowsGathered(lines, p + 1, rows');
      var (rs, q) := TableRowsFrom(lines, p + 1, rows');
      assert rs[..|rows'|][..|rows|] == rows;
      forall i | p <= i < q
        ensures rs[|rows| + i - p] == RowCells(lines[i])
      {
        if i == p {
          assert rs[..|rows'|][|rows|] == rs[|rows|];
        } else {
          assert |rows'| + i - (p + 1) == |rows| + i - p;
        }
      }
    }
  }

  /** A token agrees with the lines it covers. A single-line token is a line
      that opens neither a doc-string nor a table, a Comment when its trimmed
      text starts with '#'. A doc-string runs from its opening line to the
      first closing line, every interior line carrying the opening indent. A
      table takes every following row line, one row each. */
  predicate Faithful(lines: seq<string>, t: Token)
    requires t.startLine < t.endLine <= |lines|
  {
    var s := t.startLine;
    var e := t.endLine;
    match t.kind
    case Line(text) =>
      e == s + 1 && !OpensDocString(lines[s]) && !OpensTable(lines[s])
      && text == Trim(lines[s]) && !StartsWith(text, "#")
    case Comment(text) =>
      e == s + 1 && !OpensDocString(lines[s]) && !OpensTable(lines[s])
      && Trim(lines[s]) == "#" + text
    case DocString(text) =>
      var indent := Indent(lines[s]);
      OpensDocString(lines[s]) && s + 2 <= e && ClosesDocString(lines[e - 1])
      && Interior(lines, s + 1, e - 1, indent)
      && text == DocBody(lines[s + 1..e - 1], indent)
    case DataTable(table) =>
      !OpensDocString(lines[s])
      && (forall i :: s <= i < e ==> OpensTable(lines[i]))
      && (e == |lines| || !OpensTable(lines[e]))
      && table.header == RowCells(lines[s])
      && |table.rows| == e - s - 1
      && forall i :: s < i < e ==> table.rows[i - s - 1] == RowCells(lines[i])
  }

  /** A doc-string token agrees with its lines. */
  lemma DocTokenFaithful(lines: seq<string>, p: nat)
    requires p <= |lines|
    ensures var r := DocTokenAt(lines, p);
            r.Ok? && r.value.Some? ==> Faithful(lines, r.value.value)
  {
    if p < |lines| && OpensDocString(lines[p]) {
      DocLinesClosed(lines, p + 1, Indent(lines[p]), []);
      var r := DocLinesFrom(lines, p + 1, Indent(lines[p]), []);
      if r.Ok? {
        assert [] + DocBody(lines[p + 1..r.value.1 - 1], Indent(lines[p]))
               == DocBody(lines[p + 1..r.value.1 - 1], Indent(lines[p]));
      }
    }
  }

  /** A table token agrees with its lines. */
  lemma TableTokenFaithful(lines: seq<string>, p: nat)
    requires p <= |lines| && (p < |lines| ==> !OpensDocString(lines[p]))
    ensures var r := TableTokenAt(lines, p);
            r.Some? ==> Faithful(lines, r.value)
  {
    if p < |lines| && OpensTable(lines[p]) {
      var (rows, q) := TableRowsFrom(lines, p + 1, []);
      TableRowsOutcome(lines, p + 1, []);
      assert TableTokenAt(lines, p) == Some(Token(DataTable(Table(RowCells(lines[p]), rows)), p, q));
      forall i | p < i < q
        ensures rows[i - p - 1] == RowCells(lines[i])
      {
        assert rows[0 + i - (p + 1)] == RowCells(lines[i]);
      }
      TableFaithful(lines, p, rows, q);
    }
  }

  /** The table token of the rows that follow a header line. */
  lemma TableFaithful(lines: seq<string>, p: nat, rows: seq<seq<string>>, q: nat)
    requires p < q <= |lines| && !OpensDocString(lines[p]) && OpensTable(lines[p])
    requires forall i :: p < i < q ==> OpensTable(lines[i])
    requires q == |lines| || !OpensTable(lines[q])
    requires |rows| == q - p - 1
    requires forall i :: p < i < q ==> rows[i - p - 1] == RowCells(lines[i])
    ensures Faithful(lines, Token(DataTable(Table(RowCells(lines[p]), rows)), p, q))
  {
  }

  /** A single-line token agrees with its line. */
  lemma LineTokenFaithful(lines: seq<string>, p: nat)
    requires p < |lines| && !OpensDocString(lines[p]) && !OpensTable(lines[p])
    ensures Faithful(lines, LineTokenAt(lines, p))
  {
    var t := Trim(lines[p]);
    if StartsWith(t, "#") {
      assert t == "#" + t[1..];
    }
  }

  /** Each pass of the loop yields a token that agrees with its lines, and
      yields nothing only at the end of the text. */
  lemma NextTokenFaithful(lines: seq<string>, p: nat)
    requires p <= |lines|
    ensures NextTokenAt(lines, p) == Ok(None) <==> p == |lines|
    ensures var r := NextTokenAt(lines, p);
            r.Ok? && r.value.Some? ==> Faithful(lines, r.value.value)
  {
    DocTokenFaithful(lines, p);
    if DocTokenAt(lines, p) == Ok(None) {
      TableTokenFaithful(lines, p);
      if TableTokenAt(lines, p).None? && p < |lines| {
        LineTokenFaithful(lines, p);
      }
    }
  }

  /** Every token the lexer yields from line `p` agrees with its lines. */
  lemma {:induction false} TokensFaithful(lines: seq<string>, p: nat)
    requires p <= |lines|
    ensures var r := TokensFrom(lines, p);
            r.Ok? ==> forall i :: 0 <= i < |r.value| ==>
              r.value[i].startLine < r.value[i].endLine <= |lines| && Faithful(lines, r.value[i])
    decreases |lines| - p
  {
    NextTokenFaithful(lines, p);
    match NextTokenAt(lines, p)
    case Err(_) =>
    case Ok(None) =>
    case Ok(Some(t)) =>
      TokensFaithful(lines, t.endLine);
      var r := TokensFrom(lines, p);
      if r.Ok? {
        assert forall i :: 1 <= i < |r.value| ==> r.value[i] == TokensFrom(lines, t.endLine).value[i - 1];
      }
  }

  /** `lex` splits the whole text into tokens: they tile its lines from the
      first to the last, and each agrees with the lines it covers. */
  lemma TokenizeCoversText(text: string)
    ensures var r := Tokenize(text);
            r.Ok? ==> Tiles(r.value, 0, |Lines(text)|)
                      && forall i :: 0 <= i < |r.value| ==>
                           r.value[i].startLine < r.value[i].endLine <= |Lines(text)|
                           && Faithful(Lines(text), r.value[i])
  {
    TokensTile(Lines(text), 0);
    TokensFaithful(Lines(text), 0);
  }

  /** The tokens' texts, each `extract`ed, one after the other. */
  function ExtractAll(lines: seq<string>, ts: seq<Token>): string
    requires forall i :: 0 <= i < |ts| ==> ts[i].startLine <= ts[i].endLine
  {
    if ts == [] then [] else Extract(lines, ts[0]) + ExtractAll(lines, ts[1..])
  }

  lemma {:induction false} ConcatAppend(a: seq<string>, b: seq<string>)
    ensures Concat(a + b) == Concat(a) + Concat(b)
  {
    if a != [] {
      ConcatAppend(a[1..], b);
      assert (a + b)[1..] == a[1..] + b;
    } else {
      assert a + b == b;
    }
  }

  /** Tokens that tile lines `from..to` extract, together, exactly the
      concatenation of those lines. */
  lemma {:induction false} ExtractTiles(lines: seq<string>, ts: seq<Token>, from: nat, to: nat)
    requires Tiles(ts, from, to) && to <= |lines|
    ensures from <= to
    ensures forall i :: 0 <= i < |ts| ==> ts[i].startLine <= ts[i].endLine
    ensures from <= to && ExtractAll(lines, ts) == Concat(lines[from..to])
    decreases |ts|
  {
    TilesMeaning(ts, from, to);
    if ts != [] {
      var e := ts[0].endLine;
      ExtractTiles(lines, ts[1..], e, to);
      assert Extract(lines, ts[0]) == Concat(lines[from..e]);
      ConcatSplit(lines, from, e, to);
    }
  }

  /** The lines `from..to` run together are those of `from..e`, then those
      of `e..to`. */
  lemma ConcatSplit(lines: seq<string>, from: nat, e: nat, to: nat)
    requires from <= e <= to <= |lines|
    ensures Concat(lines[from..to]) == Concat(lines[from..e]) + Concat(lines[e..to])
  {
    assert lines[from..to] == lines[from..e] + lines[e..to];
    ConcatAppend(lines[from..e], lines[e..to]);
  }

  /** The extracts of all the tokens of a text give back its lines, run
      together. */
  lemma ExtractsGiveText(text: string)
    requires Tokenize(text).Ok?
    ensures var ts := Tokenize(text).value;
            (forall i :: 0 <= i < |ts| ==> ts[i].startLine <= ts[i].endLine)
            && ExtractAll(Lines(text), ts) == Concat(Lines(text))
  {
    var lines := Lines(text);
    TokensTile(lines, 0);
    ExtractTiles(lines, Tokenize(text).value, 0, |lines|);
    assert lines[0..|lines|] == lines;
  }

  // ---------------------------------------------------------------------
  // The lexer itself.
  // ---------------------------------------------------------------------

  class Lexer {
    const lines: seq<string>
    var currentLine: nat

    constructor (text: string)
      ensures lines == Lines(text) && currentLine == 0
    {
      lines := Lines(text);
      currentLine := 0;
    }

    /** `lines.peek()`. */
    method PeekLine() returns (line: Option<string>)
      requires currentLine <= |lines|
      ensures line.Some? <==> currentLine < |lines|
      ensures line.Some? ==> line.value == lines[currentLine]
    {
      line := if currentLine < |lines| then Some(lines[currentLine]) else None;
    }

    /** `next_line`: takes a line and counts it. */
    method NextLine() returns (line: Option<string>)
      requires currentLine <= |lines|
      modifies this`currentLine
      ensures line.Some? <==> old(currentLine) < |lines|
      ensures line.Some? ==> line.value == lines[old(currentLine)] && currentLine == old(currentLine) + 1
      ensures line.None? ==> currentLine == old(currentLine)
    {
      line := None;
      if currentLine < |lines| {
        line := Some(lines[currentLine]);
        currentLine := currentLine + 1;
      }
    }

    /** The loop of `tokenize_docstring` after the opening line. */
    method ReadDocLines(indent: string) returns (r: Result<string, LexError>)
      requires currentLine <= |lines|
      modifies this`currentLine
      ensures match DocLinesFrom(lines, old(currentLine), indent, [])
              case Ok((text, q)) => r == Ok(text) && currentLine == q
              case Err(e) => r == Err(e) && currentLine == e.lineNum
    {
      ghost var spec := DocLinesFrom(lines, currentLine, indent, []);
      var text := [];
      while true
        invariant currentLine <= |lines|
        invariant DocLinesFrom(lines, currentLine, indent, text) == spec
        decreases |lines| - currentLine
      {
        var line := NextLine();
        if line.None? {
          return Err(LexError(currentLine, UnclosedDocString));
        }
        if ClosesDocString(line.value) {
          return Ok(text);
        }
        if !StartsWith(line.value, indent) {
          return Err(LexError(currentLine, StringInconsistentIndent));
        }
        text := text + line.value[|indent|..] + "\n";
      }
    }

    /** `tokenize_docstring`. The line count after it is the token's end, or
        the error's line, or unchanged when no doc-string starts here. */
    method TokenizeDocstring() returns (r: Result<Option<Token>, LexError>)
      requires currentLine <= |lines|
      modifies this`currentLine
      ensures r == DocTokenAt(lines, old(currentLine))
      ensures currentLine == match r
                             case Ok(Some(t)) => t.endLine
                             case Ok(None) => old(currentLine)
                             case Err(e) => e.lineNum
    {
      var first := PeekLine();
      if first.None? || !OpensDocString(first.value) {
        return Ok(None);
      }
      var start := currentLine;
      var opening := NextLine();
      var body := ReadDocLines(Indent(opening.value));
      match body
      case Err(e) =>
        r := Err(e);
      case Ok(text) =>
        r := Ok(Some(Token(DocString(text), start, currentLine)));
    }

    /** The row loop of `tokenize_table`. */
    method ReadTableRows() returns (rows: seq<seq<string>>)
      requires currentLine <= |lines|
      modifies this`currentLine
      ensures (rows, currentLine) == TableRowsFrom(lines, old(currentLine), [])
    {
      ghost var spec := TableRowsFrom(lines, currentLine, []);
      rows := [];
      while currentLine < |lines| && OpensTable(lines[currentLine])
        invariant currentLine <= |lines|
        invariant TableRowsFrom(lines, currentLine, rows) == spec
        decreases |lines| - currentLine
      {
        var line := NextLine();
        var row := CollectRow(line.value);
        rows := rows + [row];
      }
    }

    /** `tokenize_table`. */
    method TokenizeTable() returns (t: Option<Token>)
      requires currentLine <= |lines|
      modifies this`currentLine
      ensures t == TableTokenAt(lines, old(currentLine))
      ensures currentLine == if t.Some? then t.value.endLine else old(currentLine)
    {
      var start := currentLine;
      var first := PeekLine();
      if first.None? || !OpensTable(first.value) {
        return None;
      }
      var line := NextLine();
      var header := CollectRow(line.value);
      var rows := ReadTableRows();
      t := Some(Token(DataTable(Table(header, rows)), start, currentLine));
    }

    /** One pass of the loop of `Lexer::lex`. */
    method NextToken() returns (r: Result<Option<Token>, LexError>)
      requires currentLine <= |lines|
      modifies this`currentLine
      ensures r == NextTokenAt(lines, old(currentLine))
      ensures r.Ok? ==> currentLine <= |lines|
      ensures r.Ok? && r.value.Some? ==> currentLine == r.value.value.endLine
    {
      var doc := TokenizeDocstring();
      if doc.Err? || doc.value.Some? {
        return doc;
      }
      var table := TokenizeTable();
      if table.Some? {
        return Ok(table);
      }
      var line := NextLine();
      if line.None? {
        return Ok(None);
      }
      var lineNum := currentLine - 1;
      var trimmed := Trim(line.value);
      var kind := if StartsWith(trimmed, "#") then Comment(trimmed[1..]) else Line(trimmed);
      r := Ok(Some(Token(kind, lineNum, lineNum + 1)));
    }
  }

  /** `Lexer::lex`: tokens are pushed until no line is left; the first
      doc-string error ends the run. */
  method Lex(text: string) returns (r: Result<seq<Token>, LexError>)
    ensures r == Tokenize(text)
  {
    var me := new Lexer(text);
    var tokens: seq<Token> := [];
    assert Tokenize(text) == PrependAll(tokens, TokensFrom(me.lines, 0)) by {
      if Tokenize(text).Ok? {
        assert [] + Tokenize(text).value == Tokenize(text).value;
      }
    }
    while true
      invariant me.currentLine <= |me.lines|
      invariant me.lines == Lines(text)
      invariant Tokenize(text) == PrependAll(tokens, TokensFrom(me.lines, me.currentLine))
      decreases |me.lines| - me.currentLine
    {
      var next := me.NextToken();
      match next
      case Err(e) =>
        return Err(e);
      case Ok(None) =>
        break;
      case Ok(Some(t)) =>
        PrependAllSnoc(tokens, t, TokensFrom(me.lines, me.currentLine));
        tokens := tokens + [t];
    }
    assert tokens + [] == tokens;
    r := Ok(tokens);
  }

  /** The tokens already pushed, in front of the ones still to come. */
  function PrependAll(ts: seq<Token>, r: Result<seq<Token>, LexError>): Result<seq<Token>, LexError> {
    match r
    case Err(e) => Err(e)
    case Ok(rest) => Ok(ts + rest)
  }

  lemma PrependAllSnoc(ts: seq<Token>, t: Token, r: Result<seq<Token>, LexError>)
    ensures PrependAll(ts, Prepend(t, r)) == PrependAll(ts + [t], r)
  {
    if r.Ok? {
      assert ts + ([t] + r.value) == (ts + [t]) + r.value;
    }
  }
}
