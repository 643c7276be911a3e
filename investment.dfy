/** The investment card: the `Valor total` cell of the full table's last
    row (the footer), written like `R$ 1.234.567,89`, read as a number. The
    currency symbol before the first space is dropped, the thousands
    separators `.` are deleted, the decimal comma becomes a point, and the
    text is parsed. Any failure on the way gives 0. */
module InvestmentCard {
  import opened Wrappers
  import opened Strings
  import opened Frames
  import opened Decimal

  const TotalColumn: string := "Valor total"

  /** `df.tail(1)["Valor total"].values[0]`: the footer's total cell, the
      KeyError of a frame without that column, or the IndexError of a
      frame without rows. */
  function FooterField(full: Frame): (r: Result<Cell, Error>)
    requires WellFormed(full)
    ensures r.Success? <==> TotalColumn in full.columns && full.rows != []
    ensures TotalColumn !in full.columns ==> r == Failure(MissingColumns([TotalColumn]))
    ensures TotalColumn in full.columns && full.rows == [] ==> r == Failure(NoRow)
    ensures r.Success? ==> r.value == full.rows[|full.rows| - 1][IndexOf(full.columns, TotalColumn)]
  {
    var cells :- Column(Tail(full), TotalColumn);
    if cells == [] then Failure(NoRow) else Success(cells[0])
  }

  /** `valor.replace('.', '').replace(',', '.')`: the `.` separators go,
      and every comma becomes the decimal point, so the points of the result
      sit exactly where the commas were once the separators are gone. */
  function Normalise(amount: string): (r: string)
    ensures ',' !in r
    ensures |r| == |Remove(amount, '.')| == |amount| - Count(amount, '.')
    ensures Count(r, '.') == Count(amount, ',')
    ensures forall i :: 0 <= i < |r| ==> (r[i] == '.' <==> Remove(amount, '.')[i] == ',')
    ensures forall i :: 0 <= i < |r| && r[i] != '.' ==> r[i] == Remove(amount, '.')[i]
  {
    var digits := Remove(amount, '.');
    RemoveDeletes(amount, '.');
    RemoveCount(amount, '.', ',');
    CountReplace(digits, ',', '.');
    Replace(digits, ',', '.')
  }

  /** Lines 65-66 on the text after the symbol: normalise, then parse. */
  function ParseAmount(amount: string, fallback: string -> Option<real>): (r: Result<real, Error>)
    ensures r.Success? <==> ParseFloat(Normalise(amount), fallback).Some?
  {
    var text := Normalise(amount);
    match ParseFloat(text, fallback)
    case Some(v) => Success(v)
    case None => Failure(NotANumber(text))
  }

  /** Lines 64-66 on one cell: split once at the first space, drop the
      symbol, normalise the rest and parse it. */
  function ParseField(field: Cell, fallback: string -> Option<real>): (r: Result<real, Error>)
    ensures field.Num? ==> r == Failure(NotText(field))
    ensures field.Text? && ' ' !in field.s ==> r == Failure(NoSpace(field.s))
  {
    match field
    case Num(_) => Failure(NotText(field))
    case Text(s) =>
      var parts := SplitOnce(s, ' ');
      if |parts| != 2 then Failure(NoSpace(s)) else ParseAmount(parts[1], fallback)
  }

  /** The symbol is everything before the first space and is discarded; the
      amount after it is parsed whole, even when it holds further spaces. */
  lemma ParseFieldDropsSymbol(symbol: string, amount: string, fallback: string -> Option<real>)
    requires ' ' !in symbol
    ensures ParseField(Text(symbol + " " + amount), fallback) == ParseAmount(amount, fallback)
  {
    assert symbol + " " + amount == symbol + [' '] + amount;
    SplitOnceJoin(symbol, amount, ' ');
  }

  /** The whole block inside its `try`, as an honest result. */
  function InvestmentTotal(full: Frame, fallback: string -> Option<real>): (r: Result<real, Error>)
    requires WellFormed(full)
    ensures TotalColumn !in full.columns ==> r == Failure(MissingColumns([TotalColumn]))
    ensures TotalColumn in full.columns && full.rows == [] ==> r == Failure(NoRow)
    ensures r.Success? ==> TotalColumn in full.columns && full.rows != []
  {
    var field :- FooterField(full);
    ParseField(field, fallback)
  }

  /** The figure on the card: the parsed total, or 0 on any failure. */
  function Investment(full: Frame, fallback: string -> Option<real>): (v: real)
    requires WellFormed(full)
    ensures InvestmentTotal(full, fallback).Failure? ==> v == 0.0
    ensures InvestmentTotal(full, fallback).Success? ==> v == InvestmentTotal(full, fallback).value
  {
    InvestmentTotal(full, fallback).GetOr(0.0)
  }

  /** On an amount `<groups>,<cents>` with no comma in the groups and neither
      comma nor point in the cents, normalising yields the group digits, a
      point, and the cents. */
  lemma NormaliseAmount(groups: string, cents: string)
    requires ',' !in groups
    requires ',' !in cents && '.' !in cents
    ensures Normalise(groups + "," + cents) == Remove(groups, '.') + "." + cents
  {
    RemoveAround(groups, ',', cents, '.');
    RemoveCount(groups, '.', ',');
    ReplaceComma(Remove(groups, '.'), cents);
  }

  lemma ReplaceComma(whole: string, cents: string)
    requires ',' !in whole && ',' !in cents
    ensures Replace(whole + "," + cents, ',', '.') == whole + "." + cents
  {
  }

  /** An amount `<digit groups joined by '.'>,<digits>` is worth its digits
      read as a decimal number with that many places after the point. */
  lemma GroupedAmountValue(groups: string, cents: string, fallback: string -> Option<real>)
    requires IsGrouped(groups) && IsNumeral(cents)
    requires |Remove(groups, '.')| + |cents| >= 1
    ensures IsNumeral(Remove(groups, '.'))
    ensures ParseAmount(groups + "," + cents, fallback)
         == Success(DecimalValue(Remove(groups, '.'), cents))
  {
    UngroupedIsNumeral(groups);
    var whole := Remove(groups, '.');
    NormaliseAmount(groups, cents);
    PlainValueOfParts(whole, cents);
    var text := Normalise(groups + "," + cents);
    assert text == whole + "." + cents;
    assert ParseFloat(text, fallback) == Some(PlainValue(text));
    assert ParseAmount(groups + "," + cents, fallback) == Success(PlainValue(text));
  }

  /** A well-formed footer `<symbol> <digit groups joined by '.'>,<digits>`
      is worth its digits read as a decimal number with that many places after
      the point; the symbol plays no part. */
  lemma WellFormedFieldValue(symbol: string, groups: string, cents: string, fallback: string -> Option<real>)
    requires ' ' !in symbol
    requires IsGrouped(groups) && IsNumeral(cents)
    requires |Remove(groups, '.')| + |cents| >= 1
    ensures IsNumeral(Remove(groups, '.'))
    ensures ParseField(Text(symbol + " " + (groups + "," + cents)), fallback)
         == Success(DecimalValue(Remove(groups, '.'), cents))
  {
    ParseFieldDropsSymbol(symbol, groups + "," + cents, fallback);
    GroupedAmountValue(groups, cents, fallback);
  }

  /** A footer with neither a comma nor a point after the symbol is a whole
      amount. */
  lemma WholeFieldValue(symbol: string, digits: string, fallback: string -> Option<real>)
    requires ' ' !in symbol
    requires IsNumeral(digits) && |digits| >= 1
    ensures ParseField(Text(symbol + " " + digits), fallback) == Success(NumeralValue(digits) as real)
  {
    assert symbol + " " + digits == symbol + [' '] + digits;
    SplitOnceJoin(symbol, digits, ' ');
    RemoveAbsent(digits, '.');
    assert '.' !in digits;
    assert Normalise(digits) == digits;
  }

  /** The card reads the footer of the full table and nothing else: two
      tables with the same columns and the same last row show the same
      figure, whatever the rows above it hold. */
  lemma OnlyFooterCounts(columns: seq<string>, above1: seq<seq<Cell>>, above2: seq<seq<Cell>>, footer: seq<Cell>, fallback: string -> Option<real>)
    requires WellFormed(Frame(columns, above1 + [footer]))
    requires WellFormed(Frame(columns, above2 + [footer]))
    ensures Investment(Frame(columns, above1 + [footer]), fallback)
         == Investment(Frame(columns, above2 + [footer]), fallback)
  {
  }

  /** Every failure shows 0: no rows (the empty fallback table included),
      no `Valor total` column, a number in the cell, text without a space
      (the empty text and `garbage` among them), or an amount `float`
      refuses once normalised. */
  lemma FailuresShowZero(full: Frame, fallback: string -> Option<real>)
    requires WellFormed(full)
    requires || full.rows == []
             || TotalColumn !in full.columns
             || FooterField(full).value.Num?
             || (FooterField(full).value.Text? && ' ' !in FooterField(full).value.s)
             || (FooterField(full).value.Text? && ' ' in FooterField(full).value.s
                 && ParseFloat(Normalise(SplitOnce(FooterField(full).value.s, ' ')[1]), fallback).None?)
    ensures InvestmentTotal(full, fallback).Failure?
    ensures Investment(full, fallback) == 0.0
  {
  }

  /** A table whose footer holds a well-formed amount in `Valor total`
      shows that amount on the card, whatever the symbol and the rows above. */
  lemma WellFormedFooterValue(full: Frame, symbol: string, groups: string, cents: string, fallback: string -> Option<real>)
    requires WellFormed(full) && TotalColumn in full.columns && full.rows != []
    requires full.rows[|full.rows| - 1][IndexOf(full.columns, TotalColumn)] == Text(symbol + " " + (groups + "," + cents))
    requires ' ' !in symbol
    requires IsGrouped(groups) && IsNumeral(cents)
    requires |Remove(groups, '.')| + |cents| >= 1
    ensures IsNumeral(Remove(groups, '.'))
    ensures Investment(full, fallback) == DecimalValue(Remove(groups, '.'), cents)
  {
    WellFormedFieldValue(symbol, groups, cents, fallback);
  }
}
