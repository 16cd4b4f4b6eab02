/**
 * The Google Sheet that keeps the history of tenders already recorded, and
 * `obtener_codigos_existentes` (bot.py), which reads the "número" column of
 * its records.  The sheet is a sequence of rows of cell strings; as gspread's
 * `get_all_records` reads it, the first row is the header that names the
 * columns and every later row is one record.
 */
module History {
  import opened Basics

  type Row = seq<string>

  /** The header of the column that holds the tender number. */
  const NumeroHeader: string := "número"

  /** `fila["número"]` raised `KeyError`: the header row has no such column. */
  datatype ReadError = MissingNumeroColumn

  /** The first column whose header is `name`. */
  function ColumnOf(header: Row, name: string): (c: Option<nat>)
    ensures c.None? <==> name !in header
    ensures c.Some? ==> c.value < |header| && header[c.value] == name && name !in header[..c.value]
  {
    if header == [] then None
    else if header[0] == name then Some(0)
    else
      match ColumnOf(header[1..], name)
      case None => None
      case Some(c) => Some(c + 1)
  }

  /** The value of column `c` of a record row: gspread pads rows shorter than
      the header with empty strings. */
  function CellAt(row: Row, c: nat): string
  {
    if c < |row| then row[c] else ""
  }

  /** The "número" values of the records, in sheet order, or the `KeyError`
      of a header without that column.  A sheet that is empty or holds only
      its header has no records, so nothing is looked up and nothing fails. */
  function ExistingCodes(rows: seq<Row>): (r: Result<seq<string>, ReadError>)
    ensures |rows| <= 1 ==> r == Success([])
    ensures |rows| > 1 ==> (r.Failure? <==> NumeroHeader !in rows[0])
    ensures r.Success? && |rows| > 1 ==>
      |r.value| == |rows| - 1 &&
      forall k :: 0 <= k < |r.value| ==> r.value[k] == CellAt(rows[k + 1], ColumnOf(rows[0], NumeroHeader).value)
  {
    if |rows| <= 1 then Success([])
    else
      match ColumnOf(rows[0], NumeroHeader)
      case None => Failure(MissingNumeroColumn)
      case Some(c) => Success(seq(|rows| - 1, k requires 0 <= k < |rows| - 1 => CellAt(rows[k + 1], c)))
  }

  /** Appending records to a sheet whose header has "número" at column `c`
      adds their cells of column `c` to the end of the codes read back. */
  lemma CodesAfterAppend(rows: seq<Row>, more: seq<Row>)
    requires |rows| >= 1 && NumeroHeader in rows[0]
    ensures var c := ColumnOf(rows[0], NumeroHeader).value;
      ExistingCodes(rows + more) ==
        Success(ExistingCodes(rows).value + seq(|more|, k requires 0 <= k < |more| => CellAt(more[k], c)))
  {
    var c := ColumnOf(rows[0], NumeroHeader).value;
    var all := rows + more;
    assert all[0] == rows[0];
    assert ExistingCodes(all).Success? && ExistingCodes(rows).Success?;
    var a := ExistingCodes(all).value;
    var b := ExistingCodes(rows).value + seq(|more|, k requires 0 <= k < |more| => CellAt(more[k], c));
    assert |a| == |b|;
    assert |rows| == 1 ==> ExistingCodes(rows).value == [];
    forall k | 0 <= k < |a|
      ensures a[k] == b[k]
    {
      if k + 1 < |rows| {
        assert all[k + 1] == rows[k + 1];
      } else {
        assert all[k + 1] == more[k + 1 - |rows|];
      }
    }
    assert a == b;
  }

  /** The sheet as the bot sees it through gspread: rows are only ever added
      at the end. */
  class Worksheet {
    var rows: seq<Row>

    constructor (rows: seq<Row>)
      ensures this.rows == rows
    {
      this.rows := rows;
    }

    /** `sheet.append_row(fila)`. */
    method AppendRow(row: Row)
      modifies this
      ensures rows == old(rows) + [row]
    {
      rows := rows + [row];
    }
  }
}
