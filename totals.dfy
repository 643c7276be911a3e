/** The category totals behind the pie chart: the four quantity columns
    summed over the trimmed table, as a mapping whose keys keep the order
    they are written in. */
module CategoryTotals {
  import opened Wrappers
  import opened Frames
  import opened Loader

  /** The keys of the mapping, in insertion order: four of the loaded
      columns (`Columns[1]`, `Columns[5]`, `Columns[4]`, `Columns[6]`). */
  const Categories: seq<string> := ["Adquiridos", "Distribuidos", "Reservadas", "Restantes"]

  /** Every key is one of the loaded columns, so the totals never ask for a
      column the loader did not keep. */
  lemma CategoriesAreColumns()
    ensures Categories == [Columns[1], Columns[5], Columns[4], Columns[6]]
    ensures forall k :: 0 <= k < |Categories| ==> Categories[k] in Columns
  {
  }

  /** `Series.sum()` over a column: the sum of its integer cells, 0 for no
      cells, and nothing when some cell holds text (adding text to an
      integer raises a TypeError). */
  function SumCells(cells: seq<Cell>): (r: Option<int>)
    ensures r.Some? <==> forall i :: 0 <= i < |cells| ==> cells[i].Num?
  {
    if cells == [] then Some(0)
    else
      match SumCells(cells[..|cells| - 1])
      case None => None
      case Some(s) =>
        var last := cells[|cells| - 1];
        if last.Num? then Some(s + last.n) else None
  }

  /** Summing a column in two parts and adding the two sums is summing it
      whole. */
  lemma {:induction false} SumCellsAppend(a: seq<Cell>, b: seq<Cell>)
    ensures SumCells(a + b) ==
      if SumCells(a).Some? && SumCells(b).Some? then Some(SumCells(a).value + SumCells(b).value) else None
  {
    if b == [] {
      assert a + b == a;
    } else {
      var b' := b[..|b| - 1];
      assert (a + b)[..|a + b| - 1] == a + b';
      assert (a + b)[|a + b| - 1] == b[|b| - 1];
      SumCellsAppend(a, b');
    }
  }

  /** `df1[name].sum()`: the KeyError of a missing column, the TypeError of
      a text cell, or the sum. */
  function ColumnTotal(t: Frame, name: string): (r: Result<int, Error>)
    requires WellFormed(t)
  {
    var cells :- Column(t, name);
    match SumCells(cells)
    case Some(s) => Success(s)
    case None => Failure(NotInteger(name))
  }

  /** A column total exists iff the column is present and every cell in it
      is an integer; otherwise it is the KeyError of the absent label or the
      TypeError of a text cell. */
  lemma ColumnTotalCases(t: Frame, name: string)
    requires WellFormed(t)
    ensures ColumnTotal(t, name).Success? <==>
      name in t.columns && forall i :: 0 <= i < |t.rows| ==> t.rows[i][IndexOf(t.columns, name)].Num?
    ensures name !in t.columns ==> ColumnTotal(t, name) == Failure(MissingColumns([name]))
    ensures name in t.columns && ColumnTotal(t, name).Failure? ==> ColumnTotal(t, name) == Failure(NotInteger(name))
  {
    if name in t.columns {
      var cells := Column(t, name).value;
      assert forall i :: 0 <= i < |cells| ==> cells[i] == t.rows[i][IndexOf(t.columns, name)];
    }
  }

  /** The `totals` dictionary literal. Its entries are evaluated in order, so
      the first failing column decides the error. */
  function Totals(t: Frame): (r: Result<seq<(string, int)>, Error>)
    requires WellFormed(t)
    ensures r.Success? <==> forall k :: 0 <= k < |Categories| ==> ColumnTotal(t, Categories[k]).Success?
    ensures r.Success? ==>
      && |r.value| == |Categories|
      && forall k :: 0 <= k < |Categories| ==> r.value[k] == (Categories[k], ColumnTotal(t, Categories[k]).value)
    ensures r.Failure? ==>
      exists k :: 0 <= k < |Categories| && ColumnTotal(t, Categories[k]) == Failure(r.error)
        && forall j :: 0 <= j < k ==> ColumnTotal(t, Categories[j]).Success?
  {
    var acquired :- ColumnTotal(t, Categories[0]);
    var distributed :- ColumnTotal(t, Categories[1]);
    var reserved :- ColumnTotal(t, Categories[2]);
    var remaining :- ColumnTotal(t, Categories[3]);
    Success([(Categories[0], acquired), (Categories[1], distributed),
             (Categories[2], reserved), (Categories[3], remaining)])
  }

  /** The cells of column `name` in the item rows of a download: every row
      but the last. */
  function ItemCells(raw: Frame, name: string): (cells: seq<Cell>)
    requires WellFormed(raw) && name in raw.columns
    ensures |cells| == |DropLast(raw).rows|
  {
    var n := |DropLast(raw).rows|;
    seq(n, i requires 0 <= i < n => raw.rows[i][IndexOf(raw.columns, name)])
  }

  /** Each total of a loaded table is the sum of that column over the item
      rows of the download only: the footer row never contributes. */
  lemma TotalsOverItemRows(raw: Frame, k: nat)
    requires WellFormed(raw) && HasColumns(raw)
    requires k < |Categories|
    ensures Categories[k] in raw.columns
    ensures ColumnTotal(Load(Success(raw)).trimmed, Categories[k]) ==
      match SumCells(ItemCells(raw, Categories[k]))
      case Some(s) => Success(s)
      case None => Failure(NotInteger(Categories[k]))
  {
    var name := Categories[k];
    assert name == Columns[[1, 5, 4, 6][k]];
    var trimmed := Load(Success(raw)).trimmed;
    var cells := Column(trimmed, name).value;
    var j := IndexOf(Columns, name);
    assert cells == ItemCells(raw, name) by {
      forall i | 0 <= i < |cells| ensures cells[i] == ItemCells(raw, name)[i] {
        assert trimmed.rows[i] == Load(Success(raw)).full.rows[i];
        assert cells[i] == Project(raw.rows[i], raw.columns, Columns)[j];
      }
    }
  }

  /** Summing the full table instead would add the footer row once more to
      every total. */
  lemma FooterCountedOnceMore(full: Frame, name: string)
    requires WellFormed(full) && name in full.columns && full.rows != []
    requires ColumnTotal(full, name).Success? && ColumnTotal(DropLast(full), name).Success?
    ensures full.rows[|full.rows| - 1][IndexOf(full.columns, name)].Num?
    ensures ColumnTotal(full, name).value ==
      ColumnTotal(DropLast(full), name).value + full.rows[|full.rows| - 1][IndexOf(full.columns, name)].n
  {
    var all := Column(full, name).value;
    var items := Column(DropLast(full), name).value;
    var footer := full.rows[|full.rows| - 1][IndexOf(full.columns, name)];
    assert all == items + [footer];
    SumCellsAppend(items, [footer]);
    assert SumCells([footer]) == Some(footer.n) by {
      assert [footer][..0] == [];
    }
  }

  /** As written, the totals crash on the frames a failed load returns:
      `pd.DataFrame()` has no `Adquiridos` column, and line 44 is outside
      any `try`. */
  lemma FailedLoadBreaksTotals(fetched: Result<Frame, Error>)
    requires fetched.Success? ==> WellFormed(fetched.value)
    requires Load(fetched).reported.Some?
    ensures Totals(Load(fetched).trimmed) == Failure(MissingColumns(["Adquiridos"]))
  {
  }

  /** Every category with the total 0, in the order of the mapping. */
  const NoTotals: seq<(string, int)> := [(Categories[0], 0), (Categories[1], 0), (Categories[2], 0), (Categories[3], 0)]

  /** The totals with the empty-data path the loader's fallback intends:
      the frame of a failed load shows every category at 0 instead of
      raising; every other frame gets the totals as written. */
  function SafeTotals(t: Frame): (r: Result<seq<(string, int)>, Error>)
    requires WellFormed(t)
    ensures r.Success? ==> |r.value| == |Categories| && forall k :: 0 <= k < |Categories| ==> r.value[k].0 == Categories[k]
    ensures t == NoData ==> r.Success? && forall k :: 0 <= k < |Categories| ==> r.value[k].1 == 0
    ensures t != NoData ==> r == Totals(t)
  {
    if t == NoData then Success(NoTotals) else Totals(t)
  }

  /** The item rows hold integers in every quantity column present, which is
      all the totals need: the footer row may hold anything. */
  predicate NumericItems(raw: Frame)
    requires WellFormed(raw)
  {
    forall i, k :: 0 <= i < |DropLast(raw).rows| && 0 <= k < |Categories| && Categories[k] in raw.columns ==>
      raw.rows[i][IndexOf(raw.columns, Categories[k])].Num?
  }

  /** With the correction, every failed load leads to zeros, and every
      successful one whose item rows hold integer quantities to the column
      sums over those rows. */
  lemma SafeTotalsAfterLoad(fetched: Result<Frame, Error>)
    requires fetched.Success? ==> WellFormed(fetched.value)
    ensures (fetched.Success? ==> NumericItems(fetched.value)) ==> SafeTotals(Load(fetched).trimmed).Success?
    ensures Load(fetched).reported.Some? ==> SafeTotals(Load(fetched).trimmed) == Success(NoTotals)
  {
    var loaded := Load(fetched);
    if loaded.reported.None? && NumericItems(fetched.value) {
      var raw := fetched.value;
      forall k | 0 <= k < |Categories| ensures ColumnTotal(loaded.trimmed, Categories[k]).Success? {
        TotalsOverItemRows(raw, k);
        var cells := ItemCells(raw, Categories[k]);
        assert forall i :: 0 <= i < |cells| ==> cells[i].Num?;
      }
      assert loaded.trimmed != NoData;
    }
  }
}
