/** The data table of gherkin/src/data_table.rs: a header row and value
    rows, every one of them as wide as the header. */
module DataTables {
  import opened Wrappers

  /** A table's contents as a value: what `header()` and `rows()` return. */
  datatype Table = Table(header: seq<string>, rows: seq<seq<string>>)

  /** Every row has exactly as many cells as the header. */
  predicate Rectangular(header: seq<string>, rows: seq<seq<string>>) {
    forall i :: 0 <= i < |rows| ==> |rows[i]| == |header|
  }

  /** `rows.iter().any(|r| r.len() != width)`. */
  function AnyWidthDiffers(rows: seq<seq<string>>, width: nat): (b: bool)
    ensures b <==> exists i :: 0 <= i < |rows| && |rows[i]| != width
  {
    if rows == [] then false
    else if |rows[0]| != width then true
    else
      var b := AnyWidthDiffers(rows[1..], width);
      assert b ==> exists i :: 0 <= i < |rows| && |rows[i]| != width by {
        if b {
          var j :| 0 <= j < |rows[1..]| && |rows[1..][j]| != width;
          assert rows[j + 1] == rows[1..][j];
        }
      }
      assert (exists i :: 0 <= i < |rows| && |rows[i]| != width) ==> b by {
        if i :| 0 <= i < |rows| && |rows[i]| != width {
          assert i != 0 && rows[1..][i - 1] == rows[i];
        }
      }
      b
  }

  /** `DataTable::new_populated`: the table, when every row fits the header. */
  function NewPopulated(header: seq<string>, rows: seq<seq<string>>): (r: Option<Table>)
    ensures r.Some? <==> Rectangular(header, rows)
    ensures r.Some? ==> r.value.header == header && r.value.rows == rows
  {
    if AnyWidthDiffers(rows, |header|) then None else Some(Table(header, rows))
  }

  /** Appending rows one at a time succeeds exactly as long as building the
      whole table at once would: one more row is accepted iff the rows so
      far are and the new one fits the header. */
  lemma PopulatedExtends(header: seq<string>, rows: seq<seq<string>>, row: seq<string>)
    ensures NewPopulated(header, rows + [row]).Some?
        <==> NewPopulated(header, rows).Some? && |row| == |header|
  {
    var all := rows + [row];
    assert all[|rows|] == row;
    assert forall i :: 0 <= i < |rows| ==> all[i] == rows[i];
  }

  /** A table being built in place: the parser starts one from a header and
      appends the rows it reads. `new` makes it `Rectangular` and `add_row`
      keeps it so. */
  class DataTable {
    var header: seq<string>
    var rows: seq<seq<string>>

    /** The contents, as `header()` and `rows()` expose them. */
    function Value(): (t: Table)
      reads this
      ensures t.header == header && t.rows == rows
    {
      Table(header, rows)
    }

    /** `DataTable::new`: the header as given and no rows. */
    constructor New(header: seq<string>)
      ensures this.header == header && rows == []
      ensures Rectangular(this.header, rows)
    {
      this.header := header;
      rows := [];
    }

    /** `add_row`: appends the row when it is as wide as the header, and
        otherwise fails leaving the table as it was. */
    method AddRow(row: seq<string>) returns (r: Result<(), ()>)
      modifies this
      ensures header == old(header)
      ensures r.Ok? <==> |row| == |header|
      ensures rows == if r.Ok? then old(rows) + [row] else old(rows)
      ensures Rectangular(old(header), old(rows)) ==> Rectangular(header, rows)
    {
      if |row| == |header| {
        rows := rows + [row];
        r := Ok(());
      } else {
        r := Err(());
      }
    }
  }
}
