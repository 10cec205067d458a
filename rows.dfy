/** Splitting a table row into cells, as `row_iter` in
    gherkin/src/parser/mod.rs and `TableRowIter` in gherkin/src/lex.rs do:
    split at '|', skip the text before the first '|', drop the text after
    the last '|', and trim every cell. */
module Rows {
  import opened Wrappers
  import opened Text

  /** The cells of a row line: the trimmed pieces between consecutive '|'. */
  function RowCells(line: string): seq<string> {
    Cells(Split(line, '|'))
  }

  /** The trimmed pieces without the first and the last. */
  function Cells(pieces: seq<string>): seq<string> {
    if |pieces| < 2 then [] else TrimAll(pieces[1..|pieces| - 1])
  }

  /** Every piece trimmed, in order. */
  function TrimAll(ps: seq<string>): (r: seq<string>)
    ensures |r| == |ps|
    ensures forall i {:trigger r[i]} :: 0 <= i < |ps| ==> r[i] == Trim(ps[i])
  {
    if ps == [] then [] else [Trim(ps[0])] + TrimAll(ps[1..])
  }

  /** A row line made of text, '|', the cells separated by '|', '|' and
      more text: the cells come back trimmed and in order, and the text
      outside the outer bars is dropped. */
  lemma RowCellsOfJoin(lead: string, cells: seq<string>, trail: string)
    requires '|' !in lead && '|' !in trail
    requires forall i :: 0 <= i < |cells| ==> '|' !in cells[i]
    ensures RowCells(Join([lead] + cells + [trail], '|')) == TrimAll(cells)
  {
    var parts := [lead] + cells + [trail];
    var line := Join(parts, '|');
    assert Split(line, '|') == parts by {
      assert forall i :: 0 <= i < |parts| ==> '|' !in parts[i] by {
        forall i | 0 <= i < |parts| ensures '|' !in parts[i] {
          if 0 < i < |parts| - 1 {
            assert parts[i] == cells[i - 1];
          }
        }
      }
      SplitJoin(parts, '|');
    }
    assert Cells(parts) == TrimAll(cells) by {
      assert parts[1..|parts| - 1] == cells;
    }
  }

  /** The iterator over a row's cells: the pieces of the split and the
      position of the next one; `skip(1)` starts it at the second piece. */
  class RowIter {
    const pieces: seq<string>
    var pos: nat

    ghost predicate Valid()
      reads this
    {
      1 <= pos <= |pieces|
    }

    constructor (line: string)
      ensures Valid() && pieces == Split(line, '|') && pos == 1
    {
      pieces := Split(line, '|');
      pos := 1;
    }

    /** Takes the next piece and yields it trimmed, unless it was the last
        one: the peek that follows finds nothing and the cell is dropped. */
    method Next() returns (cell: Option<string>)
      requires Valid()
      modifies this
      ensures Valid()
      ensures pos == if old(pos) < |pieces| then old(pos) + 1 else old(pos)
      ensures cell == if old(pos) + 1 < |pieces| then Some(Trim(pieces[old(pos)])) else None
    {
      var item: Option<string> := None;
      if pos < |pieces| {
        item := Some(Trim(pieces[pos]));
        pos := pos + 1;
      }
      cell := if pos < |pieces| then item else None;
    }
  }

  /** Trimming one more piece appends one more cell. */
  lemma {:induction false} TrimAllSnoc(ps: seq<string>, p: string)
    ensures TrimAll(ps + [p]) == TrimAll(ps) + [Trim(p)]
  {
    if ps != [] {
      assert (ps + [p])[1..] == ps[1..] + [p];
      TrimAllSnoc(ps[1..], p);
    } else {
      assert ps + [p] == [p];
    }
  }

  lemma TrimAllExtend(ps: seq<string>, k: nat)
    requires 1 <= k < |ps|
    ensures TrimAll(ps[1..k + 1]) == TrimAll(ps[1..k]) + [Trim(ps[k])]
  {
    assert ps[1..k + 1] == ps[1..k] + [ps[k]];
    TrimAllSnoc(ps[1..k], ps[k]);
  }

  /** `row_iter(line).collect()`: drains the iterator until it yields nothing. */
  method CollectRow(line: string) returns (cells: seq<string>)
    ensures cells == RowCells(line)
  {
    var it := new RowIter(line);
    var pieces := it.pieces;
    cells := [];
    var next := it.Next();
    while next.Some?
      invariant it.Valid() && it.pieces == pieces
      invariant next.Some? ==> 2 <= it.pos < |pieces| && cells + [next.value] == TrimAll(pieces[1..it.pos])
      invariant next.None? ==> cells == Cells(pieces)
      decreases |pieces| - it.pos
    {
      cells := cells + [next.value];
      if it.pos + 1 < |pieces| {
        TrimAllExtend(pieces, it.pos);
      }
      next := it.Next();
    }
  }
}
