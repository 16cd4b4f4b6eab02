/**
 * The `__main__` block of bot.py: one search, then a save only when the
 * search returned something.
 */
module Bot {
  import opened Basics
  import opened Tenders
  import opened History
  import opened Saving

  /** How one run ends. */
  datatype Report =
    | NothingToSave                  // the search produced no records
    | Saved(nuevos: nat)             // the save finished, `nuevos` rows appended
    | Crashed(error: SaveError)      // the save raised and the script stopped

  /** One run of the script.  `page` is what the browser session yields:
      the cells of the result-table rows, or `None` when it raised. */
  method RunOnce(page: Option<seq<Cells>>, sheet: Worksheet, stamp: nat -> string,
                 failsAt: Option<nat>) returns (report: Report)
    modifies sheet
    ensures Found(page) == [] ==> report == NothingToSave && sheet.rows == old(sheet.rows)
    // the case of a browser session that raised, spelled out
    ensures page.None? ==> report == NothingToSave && sheet.rows == old(sheet.rows)
    ensures Found(page) != [] ==>
      var e := SaveSpec(old(sheet.rows), Found(page), stamp, failsAt);
      && sheet.rows == old(sheet.rows) + e.appended
      && report == (match e.outcome
                    case Success(n) => Saved(n)
                    case Failure(err) => Crashed(err))
  {
    var datos := Search(page);
    if datos != [] {
      var outcome := Save(sheet, datos, stamp, failsAt);
      match outcome
      case Success(n) =>
        report := Saved(n);
      case Failure(err) =>
        report := Crashed(err);
    } else {
      report := NothingToSave;
    }
  }
}
