/**
 * `guardar_resultados_en_sheets` (bot.py): the tender numbers already stored
 * are read once, then every extracted record whose number is not among them
 * is appended to the sheet as one row, and the appends are counted.
 *
 * The clock and the remote sheet are parameters: `stamp(k)` is the time text
 * the clock gives when the k-th new row is built, and `failsAt == Some(k)`
 * says that the k-th call of `append_row` raises (counting from 0), which
 * ends the save with the rows appended before it left in place.
 */
module Saving {
  import opened Basics
  import Seqs
  import opened Tenders
  import opened History

  /** The row stored for a new tender: the capture time, then the number,
      name, buyer, closing date and state. */
  function RowFor(timestamp: string, r: Record): Row
  {
    [timestamp, r.numero, r.nombre, r.comprador, r.fecha, r.estado]
  }

  /** Whether a record's number is absent from the codes read before the loop. */
  function IsNew(existentes: seq<string>): Record -> bool
  {
    (r: Record) => r.numero !in existentes
  }

  /** The records the loop appends, in their order: membership is tested
      against the snapshot `existentes` only, so a batch that holds the same
      new number twice yields both records. */
  function Novel(resultados: seq<Record>, existentes: seq<string>): seq<Record>
  {
    Seqs.Filter(resultados, IsNew(existentes))
  }

  /** The rows the loop appends when no append fails. */
  function PlannedRows(resultados: seq<Record>, existentes: seq<string>, stamp: nat -> string): seq<Row>
  {
    var n := Novel(resultados, existentes);
    seq(|n|, k requires 0 <= k < |n| => RowFor(stamp(k), n[k]))
  }

  datatype SaveError =
    | ReadFailed(cause: ReadError)   // reading the stored codes raised
    | AppendFailed(call: nat)        // the `call`-th append_row raised

  /** What one save does: its outcome (the count `nuevos`, or the exception
      that ended it) and the rows it added to the end of the sheet. */
  datatype SaveEffect = SaveEffect(outcome: Result<nat, SaveError>, appended: seq<Row>)

  /** The effect of saving `resultados` into a sheet holding `rows`. */
  function SaveSpec(rows: seq<Row>, resultados: seq<Record>, stamp: nat -> string,
                    failsAt: Option<nat>): (e: SaveEffect)
    ensures ExistingCodes(rows).Failure? ==>
      e == SaveEffect(Failure(ReadFailed(ExistingCodes(rows).error)), [])
    ensures ExistingCodes(rows).Success? ==>
      var planned := PlannedRows(resultados, ExistingCodes(rows).value, stamp);
      && |e.appended| <= |planned|
      && e.appended == planned[..|e.appended|]
      && (e.outcome.Success? <==> e.appended == planned)
      && (e.outcome.Success? ==> e.outcome.value == |e.appended|)
      && (e.outcome.Failure? ==> e.outcome == Failure(AppendFailed(|e.appended|)))
  {
    match ExistingCodes(rows)
    case Failure(err) => SaveEffect(Failure(ReadFailed(err)), [])
    case Success(existentes) =>
      var planned := PlannedRows(resultados, existentes, stamp);
      if failsAt.Some? && failsAt.value < |planned|
      then SaveEffect(Failure(AppendFailed(failsAt.value)), planned[..failsAt.value])
      else SaveEffect(Success(|planned|), planned)
  }

  /** One more result extends the planned rows by its row exactly when its
      number is new; the time stamp of that row is the count so far. */
  lemma PlannedRowsSnoc(resultados: seq<Record>, r: Record, existentes: seq<string>, stamp: nat -> string)
    ensures var before := PlannedRows(resultados, existentes, stamp);
      PlannedRows(resultados + [r], existentes, stamp) ==
        before + (if r.numero !in existentes then [RowFor(stamp(|before|), r)] else [])
  {
    Seqs.FilterSnoc(resultados, r, IsNew(existentes));
  }

  /** A successful save appends one row per result whose number was not read
      from the sheet before the loop, and reports that many in `nuevos`. */
  lemma SaveCountsNewNumbers(rows: seq<Row>, resultados: seq<Record>, stamp: nat -> string,
                             failsAt: Option<nat>)
    requires ExistingCodes(rows).Success?
    requires SaveSpec(rows, resultados, stamp, failsAt).outcome.Success?
    ensures var e, existentes := SaveSpec(rows, resultados, stamp, failsAt), ExistingCodes(rows).value;
      e.outcome.value == |e.appended| ==
        |set i | 0 <= i < |resultados| && resultados[i].numero !in existentes|
  {
    var existentes := ExistingCodes(rows).value;
    var e := SaveSpec(rows, resultados, stamp, failsAt);
    assert e.appended == PlannedRows(resultados, existentes, stamp);
    assert |e.appended| == |Novel(resultados, existentes)|;
    Seqs.FilterCount(resultados, IsNew(existentes));
    var viaFilter := Seqs.KeptPositions(resultados, IsNew(existentes));
    var newOnes := set i | 0 <= i < |resultados| && resultados[i].numero !in existentes;
    assert viaFilter == newOnes by {
      forall i | 0 <= i < |resultados|
        ensures i in viaFilter <==> i in newOnes
      {
        assert IsNew(existentes)(resultados[i]) == (resultados[i].numero !in existentes);
      }
    }
    assert e.outcome.value == |e.appended|;
    assert |e.appended| == |viaFilter|;
    assert |e.appended| == |newOnes|;
  }

  /** The k-th appended row is built from the k-th result whose number was not
      stored, results keep their relative order, a result whose number was
      stored gets no row, and every row has six columns: the time stamp, then
      number, name, buyer, date and state. */
  lemma SavedRowsFollowResults(rows: seq<Row>, resultados: seq<Record>, stamp: nat -> string,
                               failsAt: Option<nat>)
    requires ExistingCodes(rows).Success?
    ensures var e, existentes := SaveSpec(rows, resultados, stamp, failsAt), ExistingCodes(rows).value;
      var idx := Seqs.KeptIndices(resultados, IsNew(existentes));
      && |e.appended| <= |idx|
      && (forall k, l :: 0 <= k < l < |idx| ==> idx[k] < idx[l])
      && (forall i :: 0 <= i < |resultados| ==> (i in idx <==> resultados[i].numero !in existentes))
      && (forall k :: 0 <= k < |e.appended| ==>
            var r := resultados[idx[k]];
            && r.numero !in existentes
            && |e.appended[k]| == 6
            && e.appended[k] == [stamp(k), r.numero, r.nombre, r.comprador, r.fecha, r.estado])
  {
    var existentes := ExistingCodes(rows).value;
    var e := SaveSpec(rows, resultados, stamp, failsAt);
    var n := Novel(resultados, existentes);
    var idx := Seqs.KeptIndices(resultados, IsNew(existentes));
    var planned := PlannedRows(resultados, existentes, stamp);
    Seqs.FilterAtKeptIndices(resultados, IsNew(existentes));
    forall k | 0 <= k < |e.appended|
      ensures var r := resultados[idx[k]];
        && r.numero !in existentes
        && |e.appended[k]| == 6
        && e.appended[k] == [stamp(k), r.numero, r.nombre, r.comprador, r.fecha, r.estado]
    {
      assert e.appended[k] == planned[k] == RowFor(stamp(k), n[k]);
      assert n[k] == resultados[idx[k]];
      assert IsNew(existentes)(resultados[idx[k]]);
    }
    forall i | 0 <= i < |resultados|
      ensures i in idx <==> resultados[i].numero !in existentes
    {
      if i in idx {
        var k :| 0 <= k < |idx| && idx[k] == i;
        assert IsNew(existentes)(resultados[idx[k]]);
      }
    }
  }

  /** The snapshot of stored codes is not updated inside the loop: the records
      a batch appends are those its two halves would append on their own, so a
      new number that occurs twice in one batch is stored twice. */
  lemma SnapshotNotUpdated(xs: seq<Record>, ys: seq<Record>, existentes: seq<string>)
    ensures Novel(xs + ys, existentes) == Novel(xs, existentes) + Novel(ys, existentes)
  {
    Seqs.FilterAppend(xs, ys, IsNew(existentes));
  }

  /** Two results with the same number, absent from the sheet, both get a row. */
  lemma RepeatedNewNumberStoredTwice(rows: seq<Row>, r1: Record, r2: Record, stamp: nat -> string)
    requires ExistingCodes(rows).Success?
    requires r1.numero == r2.numero && r1.numero !in ExistingCodes(rows).value
    ensures SaveSpec(rows, [r1, r2], stamp, None) ==
      SaveEffect(Success(2), [RowFor(stamp(0), r1), RowFor(stamp(1), r2)])
  {
    var existentes := ExistingCodes(rows).value;
    PlannedRowsSnoc([r1], r2, existentes, stamp);
    PlannedRowsSnoc([], r1, existentes, stamp);
    assert [] + [r1] == [r1];
    assert [r1] + [r2] == [r1, r2];
  }

  /** Saving again what a save has just stored appends nothing, provided the
      sheet's header names column 1, where the rows put the number, "número". */
  lemma RerunStoresNothing(rows: seq<Row>, resultados: seq<Record>, stamp: nat -> string,
                           failsAt: Option<nat>, stamp': nat -> string, failsAt': Option<nat>)
    requires |rows| >= 1 && ColumnOf(rows[0], NumeroHeader) == Some(1)
    requires SaveSpec(rows, resultados, stamp, failsAt).outcome.Success?
    ensures var after := rows + SaveSpec(rows, resultados, stamp, failsAt).appended;
      SaveSpec(after, resultados, stamp', failsAt') == SaveEffect(Success(0), [])
  {
    var existentes := ExistingCodes(rows).value;
    var appended := SaveSpec(rows, resultados, stamp, failsAt).appended;
    var after := rows + appended;
    var n := Novel(resultados, existentes);
    CodesAfterAppend(rows, appended);
    var codes := ExistingCodes(after).value;
    assert codes == existentes + seq(|appended|, k requires 0 <= k < |appended| => CellAt(appended[k], 1));
    forall r | r in resultados
      ensures !IsNew(codes)(r)
    {
      if r.numero !in existentes {
        Seqs.FilterKeeps(resultados, IsNew(existentes), r);
        assert r in n;
        var k :| 0 <= k < |n| && n[k] == r;
        assert appended[k] == RowFor(stamp(k), r);
        assert CellAt(appended[k], 1) == r.numero;
        assert codes[|existentes| + k] == r.numero;
      } else {
        var j :| 0 <= j < |existentes| && existentes[j] == r.numero;
        assert codes[j] == r.numero;
      }
    }
    Seqs.FilterNone(resultados, IsNew(codes));
  }

  /** When the sheet starts out without any row, the first row saved becomes
      the header gspread reads column names from: with two or more tenders
      saved and no cell of the first one reading "número", the next read of
      the stored codes raises `KeyError`. */
  lemma EmptySheetLosesHeader(resultados: seq<Record>, stamp: nat -> string, failsAt: Option<nat>)
    requires var e := SaveSpec([], resultados, stamp, failsAt);
      |e.appended| >= 2 && NumeroHeader !in e.appended[0]
    ensures ExistingCodes(SaveSpec([], resultados, stamp, failsAt).appended) == Failure(MissingNumeroColumn)
  {
  }

  /** One step of the loop: the new records among the first `i + 1` results
      are those among the first `i`, plus result `i` when its number is new,
      and then result `i` is the next record of all the new ones. */
  lemma NovelStep(resultados: seq<Record>, i: nat, existentes: seq<string>)
    requires i < |resultados|
    ensures var n, m, r := Novel(resultados, existentes), |Novel(resultados[..i], existentes)|, resultados[i];
      && Novel(resultados[..i + 1], existentes) ==
           Novel(resultados[..i], existentes) + (if r.numero !in existentes then [r] else [])
      && m <= |n|
      && (r.numero !in existentes ==> m < |n| && n[m] == r)
  {
    var r := resultados[i];
    assert resultados[..i + 1] == resultados[..i] + [r];
    assert resultados[..i + 1] + resultados[i + 1..] == resultados;
    Seqs.FilterSnoc(resultados[..i], r, IsNew(existentes));
    SnapshotNotUpdated(resultados[..i + 1], resultados[i + 1..], existentes);
  }

  /** When the sheet starts out without any row and one tender is saved, that
      row becomes the header and the sheet has no records: the next read
      finds no codes, so the same tender is appended again. */
  lemma EmptySheetSingleRowStoredAgain(r: Record, stamp: nat -> string, stamp': nat -> string)
    ensures var first := SaveSpec([], [r], stamp, None).appended;
      && first == [RowFor(stamp(0), r)]
      && ExistingCodes(first) == Success([])
      && SaveSpec(first, [r], stamp', None).appended == [RowFor(stamp'(0), r)]
  {
  }

  /** `guardar_resultados_en_sheets` on the sheet `sheet`; `outcome` is the
      count `nuevos` it prints, or the exception that ended it. */
  method Save(sheet: Worksheet, resultados: seq<Record>, stamp: nat -> string, failsAt: Option<nat>)
    returns (outcome: Result<nat, SaveError>)
    modifies sheet
    ensures var e := SaveSpec(old(sheet.rows), resultados, stamp, failsAt);
      outcome == e.outcome && sheet.rows == old(sheet.rows) + e.appended
  {
    var read := ExistingCodes(sheet.rows);
    if read.Failure? {
      return Failure(ReadFailed(read.error));
    }
    var existentes := read.value;
    ghost var before := sheet.rows;
    ghost var planned := PlannedRows(resultados, existentes, stamp);
    var nuevos := 0;
    for i := 0 to |resultados|
      invariant nuevos == |Novel(resultados[..i], existentes)| <= |planned|
      invariant sheet.rows == before + planned[..nuevos]
      invariant failsAt.Some? ==> nuevos <= failsAt.value
    {
      var r := resultados[i];
      NovelStep(resultados, i, existentes);
      if r.numero !in existentes {
        if failsAt == Some(nuevos) {
          return Failure(AppendFailed(nuevos));
        }
        var fila := RowFor(stamp(nuevos), r);
        assert fila == planned[nuevos];
        assert planned[..nuevos + 1] == planned[..nuevos] + [fila];
        sheet.AppendRow(fila);
        nuevos := nuevos + 1;
      }
    }
    assert resultados[..|resultados|] == resultados;
    assert planned[..nuevos] == planned;
    outcome := Success(nuevos);
  }
}
