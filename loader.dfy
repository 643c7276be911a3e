/** `load_data`: the fetched frame projected to the seven dashboard
    columns, and a second view without the last (footer) row. Any failure
    yields two empty frames and is reported. The download itself is a
    parameter: the CSV reader's result, or the error it raised. */
module Loader {
  import opened Wrappers
  import opened Frames

  /** The projection, in the order the dashboard asks for it. */
  const Columns: seq<string> :=
    ["Descrição", "Adquiridos", "Valor Unitario", "Valor total", "Reservadas", "Distribuidos", "Restantes"]

  /** The loader's outcome: the full table, the table without its footer
      row, and the error shown to the user, if any. */
  datatype Loaded = Loaded(full: Frame, trimmed: Frame, reported: Option<Error>)

  predicate HasColumns(f: Frame) {
    forall j :: 0 <= j < |Columns| ==> Columns[j] in f.columns
  }

  lemma ColumnsDistinct()
    ensures Distinct(Columns)
  {
  }

  function Load(fetched: Result<Frame, Error>): (r: Loaded)
    requires fetched.Success? ==> WellFormed(fetched.value)
    ensures WellFormed(r.full) && WellFormed(r.trimmed)
    ensures r.reported.None? <==> fetched.Success? && HasColumns(fetched.value)
    ensures fetched.Failure? ==> r.reported == Some(fetched.error)
    ensures fetched.Success? && !HasColumns(fetched.value) ==>
      r.reported == Some(MissingColumns(Missing(Columns, fetched.value.columns)))
    ensures r.reported.Some? ==> r.full == NoData && r.trimmed == NoData
    ensures r.reported.None? ==>
      && r.full.columns == Columns
      && |r.full.rows| == |fetched.value.rows|
      && (forall i :: 0 <= i < |r.full.rows| ==>
            r.full.rows[i] == Project(fetched.value.rows[i], fetched.value.columns, Columns))
      && r.trimmed.columns == Columns
      && |r.trimmed.rows| == (if r.full.rows == [] then 0 else |r.full.rows| - 1)
      && r.trimmed.rows == r.full.rows[..|r.trimmed.rows|]
  {
    match fetched
    case Failure(e) => Loaded(NoData, NoData, Some(e))
    case Success(raw) =>
      match Select(raw, Columns)
      case Failure(e) => Loaded(NoData, NoData, Some(e))
      case Success(df) =>
        ColumnsDistinct();
        Loaded(df, DropLast(df), None)
  }

  /** Every row of both tables has exactly the seven cells, in dashboard
      order, each copied from the fetched row's cell under that label. */
  lemma RowsAreProjected(fetched: Result<Frame, Error>, i: nat, j: nat)
    requires fetched.Success? ==> WellFormed(fetched.value)
    requires Load(fetched).reported.None?
    requires i < |Load(fetched).full.rows| && j < |Columns|
    ensures |Load(fetched).full.rows[i]| == 7
    ensures Load(fetched).full.rows[i][j] ==
      fetched.value.rows[i][IndexOf(fetched.value.columns, Columns[j])]
    ensures i < |Load(fetched).trimmed.rows| ==>
      Load(fetched).trimmed.rows[i] == Load(fetched).full.rows[i]
  {
  }

  /** The trimmed table is the full table with exactly its last row taken
      off: putting the footer row back gives the full table again. */
  lemma TrimmedPlusFooter(fetched: Result<Frame, Error>)
    requires fetched.Success? ==> WellFormed(fetched.value)
    requires |Load(fetched).full.rows| >= 1
    ensures |Load(fetched).trimmed.rows| == |Load(fetched).full.rows| - 1
    ensures Load(fetched).trimmed.rows + [Load(fetched).full.rows[|Load(fetched).full.rows| - 1]]
         == Load(fetched).full.rows
  {
  }

  /** A failed download and a missing column end the same way: two
      empty frames, and nothing lost silently, since the error is reported. */
  lemma FailureGivesNoData(fetched: Result<Frame, Error>)
    requires fetched.Success? ==> WellFormed(fetched.value)
    requires fetched.Failure? || !HasColumns(fetched.value)
    ensures Load(fetched).full == NoData && Load(fetched).trimmed == NoData
    ensures Load(fetched).reported.Some?
  {
  }

  /** The footer row of the download never reaches the trimmed table: two
      downloads that differ only in their last row load to the same
      trimmed table. */
  lemma TrimmedIgnoresFooter(columns: seq<string>, items: seq<seq<Cell>>, footer1: seq<Cell>, footer2: seq<Cell>)
    requires WellFormed(Frame(columns, items + [footer1]))
    requires WellFormed(Frame(columns, items + [footer2]))
    ensures Load(Success(Frame(columns, items + [footer1]))).trimmed
         == Load(Success(Frame(columns, items + [footer2]))).trimmed
  {
  }
}
