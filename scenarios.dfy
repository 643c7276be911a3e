/** Worked cases: the figures the dashboard is described with, proved of
    the model. */
module Scenarios {
  import opened Wrappers
  import opened Strings
  import opened Frames
  import opened Decimal
  import opened Loader
  import opened CategoryTotals
  import opened InvestmentCard

  /** Deleting the points of `1.234.567`, one group at a time. */
  lemma FooterDigits()
    ensures Remove("1.234.567", '.') == "1234567"
  {
    assert "1.234.567" == "1" + ['.'] + ("234" + ['.'] + "567");
    RemoveFirst("1", "234" + ['.'] + "567", '.');
    RemoveFirst("234", "567", '.');
    RemoveAbsent("567", '.');
  }

  lemma FooterNumerals()
    ensures NumeralValue("1234567") == 1234567
    ensures NumeralValue("89") == 89
    ensures Pow10(2) == 100
  {
    assert "12"[..1] == "1";
    assert "123"[..2] == "12";
    assert "1234"[..3] == "123";
    assert "12345"[..4] == "1234";
    assert "123456"[..5] == "12345";
    assert "1234567"[..6] == "123456";
    assert "89"[..1] == "8";
  }

  lemma FooterValue()
    ensures DecimalValue("1234567", "89") == 1234567.89
  {
    FooterNumerals();
  }

  lemma FooterParts(fallback: string -> Option<real>)
    ensures ParseField(Text("R$" + " " + ("1.234.567" + "," + "89")), fallback) == Success(1234567.89)
  {
    FooterDigits();
    assert IsGrouped("1.234.567");
    assert IsNumeral("89");
    assert ' ' !in "R$";
    WellFormedFieldValue("R$", "1.234.567", "89", fallback);
    FooterValue();
  }

  /** `R$ 1.234.567,89` reads as 1234567.89, whatever `float` does beyond
      plain decimals. */
  lemma FooterExample(fallback: string -> Option<real>)
    ensures ParseField(Text("R$ 1.234.567,89"), fallback) == Success(1234567.89)
  {
    FooterText();
    FooterParts(fallback);
  }

  lemma FooterText()
    ensures "R$ 1.234.567,89" == "R$" + " " + ("1.234.567" + "," + "89")
  {
  }

  /** The empty text and `garbage` have no space to split at: they show 0. */
  lemma MalformedFootersShowZero(fallback: string -> Option<real>)
    ensures ParseField(Text(""), fallback).Failure?
    ensures ParseField(Text("garbage"), fallback) == Failure(NoSpace("garbage"))
  {
    assert ' ' !in "";
    assert ' ' !in "garbage";
  }

  const Item1: seq<Cell> := [Text("Notebook"), Num(6), Text("R$ 1,00"), Text("R$ 6,00"), Num(1), Num(2), Num(3)]
  const Item2: seq<Cell> := [Text("Monitor"), Num(4), Text("R$ 1,00"), Text("R$ 4,00"), Num(2), Num(2), Num(0)]
  const Footer: seq<Cell> := [Text("Total"), Num(10), Text(""), Text("R$ 1.234.567,89"), Num(3), Num(4), Num(3)]

  /** A download with two item rows and a footer, already in dashboard column
      order. */
  const Download: Frame := Frame(Columns, [Item1, Item2, Footer])

  lemma DownloadWellFormed()
    ensures WellFormed(Download) && HasColumns(Download)
  {
    ColumnsDistinct();
  }

  /** Loading keeps all three rows and trims the footer. */
  lemma DownloadLoaded()
    ensures WellFormed(Download)
    ensures Load(Success(Download)).full == Download
    ensures Load(Success(Download)).trimmed == Frame(Columns, [Item1, Item2])
  {
    DownloadWellFormed();
    SelectOwnColumns(Download);
  }

  lemma SumOfTwo(a: int, b: int)
    ensures SumCells([Num(a), Num(b)]) == Some(a + b)
  {
    assert [Num(a)][..0] == [];
    assert SumCells([Num(a)]) == Some(a);
    assert [Num(a), Num(b)][..1] == [Num(a)];
  }

  /** Column `Columns[j]` of two rows holding the integers `a` and `b` there
      sums to `a + b`. */
  lemma TwoRowColumnTotal(row1: seq<Cell>, row2: seq<Cell>, j: nat, a: int, b: int)
    requires |row1| == |Columns| && |row2| == |Columns| && j < |Columns|
    requires row1[j] == Num(a) && row2[j] == Num(b)
    ensures WellFormed(Frame(Columns, [row1, row2]))
    ensures ColumnTotal(Frame(Columns, [row1, row2]), Columns[j]) == Success(a + b)
  {
    var items := Frame(Columns, [row1, row2]);
    ColumnsDistinct();
    assert WellFormed(items);
    IndexOfDistinct(Columns, j);
    assert Column(items, Columns[j]).value == [Num(a), Num(b)];
    SumOfTwo(a, b);
  }

  /** The totals of the two item rows: the footer's own figures are left out. */
  lemma TotalsExample()
    ensures WellFormed(Download)
    ensures Totals(Load(Success(Download)).trimmed)
         == Success([("Adquiridos", 10), ("Distribuidos", 4), ("Reservadas", 3), ("Restantes", 3)])
  {
    DownloadLoaded();
    ItemsTotals();
  }

  lemma ItemsTotals()
    ensures WellFormed(Frame(Columns, [Item1, Item2]))
    ensures Totals(Frame(Columns, [Item1, Item2]))
         == Success([(Categories[0], 10), (Categories[1], 4), (Categories[2], 3), (Categories[3], 3)])
  {
    ItemsAcquired();
    ItemsDistributed();
    ItemsReserved();
    ItemsRemaining();
  }

  lemma ItemsAcquired()
    ensures WellFormed(Frame(Columns, [Item1, Item2]))
    ensures ColumnTotal(Frame(Columns, [Item1, Item2]), Categories[0]) == Success(10)
  {
    TwoRowColumnTotal(Item1, Item2, 1, 6, 4);
  }

  lemma ItemsDistributed()
    ensures WellFormed(Frame(Columns, [Item1, Item2]))
    ensures ColumnTotal(Frame(Columns, [Item1, Item2]), Categories[1]) == Success(4)
  {
    TwoRowColumnTotal(Item1, Item2, 5, 2, 2);
  }

  lemma ItemsReserved()
    ensures WellFormed(Frame(Columns, [Item1, Item2]))
    ensures ColumnTotal(Frame(Columns, [Item1, Item2]), Categories[2]) == Success(3)
  {
    TwoRowColumnTotal(Item1, Item2, 4, 1, 2);
  }

  lemma ItemsRemaining()
    ensures WellFormed(Frame(Columns, [Item1, Item2]))
    ensures ColumnTotal(Frame(Columns, [Item1, Item2]), Categories[3]) == Success(3)
  {
    TwoRowColumnTotal(Item1, Item2, 6, 3, 0);
  }

  /** The card of the same download reads the footer of the full table. */
  lemma InvestmentExample(fallback: string -> Option<real>)
    ensures WellFormed(Download)
    ensures Investment(Load(Success(Download)).full, fallback) == 1234567.89
  {
    DownloadLoaded();
    assert IndexOf(Columns, TotalColumn) == 3;
    FooterExample(fallback);
  }
}
