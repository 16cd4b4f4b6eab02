/**
 * The extraction step of `ejecutar_busqueda` (bot.py): the browser has reached
 * the results page of the buyer's advanced search, and the table rows found
 * there are turned into tender records.  Driving the browser is outside the
 * model; its outcome is either the rows of the results table, each row the
 * text of its `td` cells, or a failure.
 */
module Tenders {
  import opened Basics
  import Seqs
  import Text

  /** One tender as read from the results table. */
  datatype Record = Record(numero: string, nombre: string, comprador: string,
                           fecha: string, estado: string)

  /** The text of the `td` cells of one result-table row, in page order. */
  type Cells = seq<string>

  /** Only the first rows of the result table are read. */
  const ResultWindow: nat := 3

  /** A row is turned into a record only when it has at least this many cells. */
  const MinCells: nat := 5

  predicate HasAllColumns(cells: Cells)
  {
    |cells| >= MinCells
  }

  /** Cells 0 to 4, each stripped, become number, name, buyer, date and state. */
  function ToRecord(cells: Cells): Record
    requires HasAllColumns(cells)
  {
    Record(Text.Strip(cells[0]), Text.Strip(cells[1]), Text.Strip(cells[2]),
           Text.Strip(cells[3]), Text.Strip(cells[4]))
  }

  /** `filas[:3]`. */
  function Window(filas: seq<Cells>): (w: seq<Cells>)
    ensures |w| <= ResultWindow && |w| <= |filas|
    ensures w == filas[..|w|]
    ensures |w| == ResultWindow || w == filas
  {
    if |filas| <= ResultWindow then filas else filas[..ResultWindow]
  }

  function ToRecords(rows: seq<Cells>): seq<Record>
    requires forall c :: c in rows ==> HasAllColumns(c)
  {
    seq(|rows|, k requires 0 <= k < |rows| => ToRecord(rows[k]))
  }

  lemma ToRecordsSnoc(rows: seq<Cells>, cells: Cells)
    requires forall c :: c in rows ==> HasAllColumns(c)
    requires HasAllColumns(cells)
    ensures ToRecords(rows + [cells]) == ToRecords(rows) + [ToRecord(cells)]
  {
  }

  /** The records the row filter produces from the rows of the result table. */
  function Extracted(filas: seq<Cells>): (r: seq<Record>)
    ensures |r| <= ResultWindow
  {
    ToRecords(Seqs.Filter(Window(filas), HasAllColumns))
  }

  /** What `ejecutar_busqueda` returns: the extracted records when the browser
      session reached the table (`Some`), and the empty list when any exception
      was raised on the way (`None`). */
  function Found(page: Option<seq<Cells>>): (r: seq<Record>)
    ensures |r| <= ResultWindow
    ensures page.None? ==> r == []
  {
    match page
    case None => []
    case Some(filas) => Extracted(filas)
  }

  /** Each extracted record comes, in table order, from one of the first three
      rows with at least five cells, its fields the stripped cells 0 to 4 of
      that row; and every such row yields a record. */
  lemma ExtractedRows(filas: seq<Cells>)
    ensures var r, idx := Extracted(filas), Seqs.KeptIndices(Window(filas), HasAllColumns);
      && |r| == |idx| <= ResultWindow
      && (forall k, l :: 0 <= k < l < |idx| ==> idx[k] < idx[l])
      && (forall k :: 0 <= k < |idx| ==>
            && idx[k] < ResultWindow && idx[k] < |filas|
            && |filas[idx[k]]| >= MinCells
            && r[k] == Record(Text.Strip(filas[idx[k]][0]), Text.Strip(filas[idx[k]][1]),
                              Text.Strip(filas[idx[k]][2]), Text.Strip(filas[idx[k]][3]),
                              Text.Strip(filas[idx[k]][4])))
      && (forall i :: 0 <= i < ResultWindow && i < |filas| && |filas[i]| >= MinCells ==> i in idx)
  {
    var w := Window(filas);
    Seqs.FilterAtKeptIndices(w, HasAllColumns);
    var idx := Seqs.KeptIndices(w, HasAllColumns);
    forall i | 0 <= i < ResultWindow && i < |filas| && |filas[i]| >= MinCells
      ensures i in idx
    {
      assert w[i] == filas[i];
    }
  }

  /** The loop of bot.py that fills `resultados` from the first three rows. */
  method CollectRecords(filas: seq<Cells>) returns (resultados: seq<Record>)
    ensures resultados == Extracted(filas)
  {
    var window := Window(filas);
    resultados := [];
    for i := 0 to |window|
      invariant resultados == ToRecords(Seqs.Filter(window[..i], HasAllColumns))
    {
      var columnas := window[i];
      ghost var kept := Seqs.Filter(window[..i], HasAllColumns);
      Seqs.FilterSnoc(window[..i], columnas, HasAllColumns);
      assert window[..i + 1] == window[..i] + [columnas];
      if |columnas| >= MinCells {
        ToRecordsSnoc(kept, columnas);
        resultados := resultados + [ToRecord(columnas)];
      }
    }
    assert window[..|window|] == window;
  }

  /** `ejecutar_busqueda` seen from its caller: the records of the table, or
      the empty list when the browser session raised. */
  method Search(page: Option<seq<Cells>>) returns (resultados: seq<Record>)
    ensures resultados == Found(page)
    ensures page.None? ==> resultados == []
  {
    match page
    case None =>
      resultados := [];
    case Some(filas) =>
      resultados := CollectRecords(filas);
  }
}
