/** The tabular data the dashboard works on: a data frame with labelled
    columns and rows of cells, and the few frame operations the core uses
    (column projection, column lookup, `iloc[:-1]` and `tail(1)`). */
module Frames {
  import opened Wrappers

  /** A cell as the CSV reader delivers it: an integer or a piece of text. */
  datatype Cell = Num(n: int) | Text(s: string)

  /** A data frame: column labels and the rows, each a sequence of cells
      aligned with the labels. */
  datatype Frame = Frame(columns: seq<string>, rows: seq<seq<Cell>>)

  /** The exceptions raised along the way, and what each one reports. */
  datatype Error =
    | FetchFailed(reason: string)      // the download or the CSV reader failed
    | MissingColumns(names: seq<string>) // a KeyError: labels absent from the frame
    | NoRow                            // an IndexError: `.values[0]` of no rows
    | NotText(cell: Cell)              // an AttributeError: `.split` on a number
    | NoSpace(field: string)           // a ValueError: unpacking a one-part split
    | NotANumber(text: string)         // a ValueError raised by `float`
    | NotInteger(column: string)       // a TypeError: summing text with integers

  /** `pd.DataFrame()`: no columns and no rows. */
  const NoData: Frame := Frame([], [])

  predicate Distinct(xs: seq<string>) {
    forall i, j :: 0 <= i < j < |xs| ==> xs[i] != xs[j]
  }

  /** What every frame the CSV reader builds satisfies: unique labels (the
      reader renames duplicates) and rows as wide as the header. */
  predicate WellFormed(f: Frame) {
    && Distinct(f.columns)
    && forall i :: 0 <= i < |f.rows| ==> |f.rows[i]| == |f.columns|
  }

  /** Position of label `x` among `xs`. */
  function IndexOf(xs: seq<string>, x: string): (k: nat)
    requires x in xs
    ensures k < |xs| && xs[k] == x
    ensures forall j :: 0 <= j < k ==> xs[j] != x
  {
    if xs[0] == x then 0 else 1 + IndexOf(xs[1..], x)
  }

  /** The labels of `names` that are not among `columns`, in order. */
  function Missing(names: seq<string>, columns: seq<string>): (r: seq<string>)
    ensures forall x :: x in r <==> x in names && x !in columns
  {
    if names == [] then []
    else if names[0] in columns then Missing(names[1..], columns)
    else [names[0]] + Missing(names[1..], columns)
  }

  /** One row of `df[names]`: the cells under `names`, in that order. */
  function Project(row: seq<Cell>, columns: seq<string>, names: seq<string>): (r: seq<Cell>)
    requires |row| == |columns|
    requires forall j :: 0 <= j < |names| ==> names[j] in columns
    ensures |r| == |names|
    ensures forall j :: 0 <= j < |names| ==> r[j] == row[IndexOf(columns, names[j])]
  {
    seq(|names|, j requires 0 <= j < |names| => row[IndexOf(columns, names[j])])
  }

  /** `df[names]`: the frame cut down to the columns `names`, in that
      order, or the KeyError that lists the labels the frame lacks. */
  function Select(f: Frame, names: seq<string>): (r: Result<Frame, Error>)
    requires WellFormed(f)
    ensures r.Success? <==> forall j :: 0 <= j < |names| ==> names[j] in f.columns
    ensures r.Failure? ==>
      && r.error == MissingColumns(Missing(names, f.columns))
      && Missing(names, f.columns) != []
    ensures r.Success? ==>
      && r.value.columns == names
      && |r.value.rows| == |f.rows|
      && (forall i :: 0 <= i < |f.rows| ==> r.value.rows[i] == Project(f.rows[i], f.columns, names))
      && (Distinct(names) ==> WellFormed(r.value))
  {
    if Missing(names, f.columns) != [] then
      var x := Missing(names, f.columns)[0];
      assert x in names && x !in f.columns;
      assert names[IndexOf(names, x)] !in f.columns;
      Failure(MissingColumns(Missing(names, f.columns)))
    else
      Success(Frame(names, seq(|f.rows|, i requires 0 <= i < |f.rows| => Project(f.rows[i], f.columns, names))))
  }

  /** In a frame with unique labels, each label is found at its own position. */
  lemma IndexOfDistinct(xs: seq<string>, j: nat)
    requires Distinct(xs) && j < |xs|
    ensures IndexOf(xs, xs[j]) == j
  {
  }

  /** Projecting a frame to its own columns, in their own order, changes
      nothing: the projection is idempotent. */
  lemma SelectOwnColumns(f: Frame)
    requires WellFormed(f)
    ensures Select(f, f.columns) == Success(f)
  {
    assert Select(f, f.columns).Success?;
    var r := Select(f, f.columns).value;
    forall i | 0 <= i < |f.rows| ensures r.rows[i] == f.rows[i] {
      forall j | 0 <= j < |f.columns| ensures r.rows[i][j] == f.rows[i][j] {
        IndexOfDistinct(f.columns, j);
      }
    }
    assert r.rows == f.rows;
  }

  /** `df[name]`: the cells of one column, top to bottom. */
  function Column(f: Frame, name: string): (r: Result<seq<Cell>, Error>)
    requires WellFormed(f)
    ensures r.Success? <==> name in f.columns
    ensures r.Failure? ==> r.error == MissingColumns([name])
    ensures r.Success? ==>
      && |r.value| == |f.rows|
      && forall i :: 0 <= i < |f.rows| ==> r.value[i] == f.rows[i][IndexOf(f.columns, name)]
  {
    if name in f.columns then
      var k := IndexOf(f.columns, name);
      Success(seq(|f.rows|, i requires 0 <= i < |f.rows| => f.rows[i][k]))
    else
      Failure(MissingColumns([name]))
  }

  /** `df.iloc[:-1]`: the same columns and all rows but the last; a frame
      without rows stays without rows. */
  function DropLast(f: Frame): (r: Frame)
    ensures r.columns == f.columns
    ensures |r.rows| == if f.rows == [] then 0 else |f.rows| - 1
    ensures r.rows == f.rows[..|r.rows|]
    ensures WellFormed(f) ==> WellFormed(r)
  {
    Frame(f.columns, if f.rows == [] then [] else f.rows[..|f.rows| - 1])
  }

  /** `df.tail(1)`: the same columns and only the last row, if any. */
  function Tail(f: Frame): (r: Frame)
    ensures r.columns == f.columns
    ensures |r.rows| == if f.rows == [] then 0 else 1
    ensures r.rows == f.rows[|f.rows| - |r.rows|..]
    ensures WellFormed(f) ==> WellFormed(r)
  {
    Frame(f.columns, if f.rows == [] then [] else [f.rows[|f.rows| - 1]])
  }

  /** The item rows and the footer row together are the whole frame:
      nothing is lost or repeated between `iloc[:-1]` and `tail(1)`. */
  lemma DropLastTail(f: Frame)
    ensures DropLast(f).rows + Tail(f).rows == f.rows
  {
  }
}
