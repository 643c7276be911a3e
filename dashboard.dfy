/** One run of the dashboard script up to what it displays: load, the
    category totals, the investment figure, and the table. The charts and
    the layout only draw these values. */
module Dashboard {
  import opened Wrappers
  import opened Frames
  import opened Loader
  import opened CategoryTotals
  import opened InvestmentCard

  /** What the page shows: the table, the totals behind the pie chart, the
      figure on the investment card, and the load error, if any. */
  datatype View = View(table: Frame, totals: seq<(string, int)>, investment: real, reported: Option<Error>)

  /** The script's flow with the corrected totals. A failure is an exception
      nothing catches: with the correction, only a text cell among the
      quantities of the item rows. */
  function Render(fetched: Result<Frame, Error>, fallback: string -> Option<real>): (r: Result<View, Error>)
    requires fetched.Success? ==> WellFormed(fetched.value)
    ensures r.Success? <==> SafeTotals(Load(fetched).trimmed).Success?
    ensures r.Success? ==>
      && r.value.table == Load(fetched).full
      && r.value.reported == Load(fetched).reported
      && r.value.investment == Investment(Load(fetched).full, fallback)
      && r.value.totals == SafeTotals(Load(fetched).trimmed).value
      && |r.value.totals| == |Categories|
  {
    var loaded := Load(fetched);
    match SafeTotals(loaded.trimmed)
    case Failure(e) => Failure(e)
    case Success(totals) => Success(View(loaded.full, totals, Investment(loaded.full, fallback), loaded.reported))
  }

  /** A failed load, whether the download failed or a column is missing,
      degrades to an empty table, zero totals and a zero figure, and the
      error is shown. */
  lemma RenderAfterFailedLoad(fetched: Result<Frame, Error>, fallback: string -> Option<real>)
    requires fetched.Success? ==> WellFormed(fetched.value)
    requires Load(fetched).reported.Some?
    ensures Render(fetched, fallback) == Success(View(NoData, NoTotals, 0.0, Load(fetched).reported))
  {
  }

  /** Whatever the download, the page renders once the item rows hold
      integer quantities; the totals are then the column sums over the item
      rows and the figure is read from the footer of the full table. */
  lemma RenderSucceeds(fetched: Result<Frame, Error>, fallback: string -> Option<real>)
    requires fetched.Success? ==> WellFormed(fetched.value) && NumericItems(fetched.value)
    ensures Render(fetched, fallback).Success?
    ensures Load(fetched).reported.None? ==>
      Render(fetched, fallback).value.totals == Totals(Load(fetched).trimmed).value
  {
    SafeTotalsAfterLoad(fetched);
  }

  /** The converse: with the correction, the page fails exactly when the
      download loads and some item row holds text in a quantity column. */
  lemma RenderFailsOnlyOnTextQuantities(fetched: Result<Frame, Error>, fallback: string -> Option<real>)
    requires fetched.Success? ==> WellFormed(fetched.value)
    ensures Render(fetched, fallback).Failure? <==>
      fetched.Success? && HasColumns(fetched.value) && !NumericItems(fetched.value)
  {
    if fetched.Failure? || !HasColumns(fetched.value) {
      RenderAfterFailedLoad(fetched, fallback);
    } else if NumericItems(fetched.value) {
      RenderSucceeds(fetched, fallback);
    } else {
      var raw := fetched.value;
      var i, k :| 0 <= i < |DropLast(raw).rows| && 0 <= k < |Categories| && Categories[k] in raw.columns
        && !raw.rows[i][IndexOf(raw.columns, Categories[k])].Num?;
      TextQuantityBreaksRender(raw, i, k, fallback);
    }
  }

  /** A text cell in quantity column `Categories[k]` of item row `i` makes
      that column's total, and so the page, fail. */
  lemma TextQuantityBreaksRender(raw: Frame, i: nat, k: nat, fallback: string -> Option<real>)
    requires WellFormed(raw) && HasColumns(raw)
    requires i < |DropLast(raw).rows| && k < |Categories| && Categories[k] in raw.columns
    requires !raw.rows[i][IndexOf(raw.columns, Categories[k])].Num?
    ensures ColumnTotal(Load(Success(raw)).trimmed, Categories[k]) == Failure(NotInteger(Categories[k]))
    ensures Render(Success(raw), fallback).Failure?
  {
    var trimmed := Load(Success(raw)).trimmed;
    TotalsOverItemRows(raw, k);
    assert !ItemCells(raw, Categories[k])[i].Num?;
    assert trimmed.columns == Columns;
    assert SafeTotals(trimmed) == Totals(trimmed);
  }
}
