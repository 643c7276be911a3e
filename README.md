# Equipment dashboard core, modelled in Dafny

The dashboard (`streamlit_app.py`) downloads an equipment spreadsheet as CSV.
It keeps seven columns and shows four things:

- a pie chart of four quantity totals (*Adquiridos*, *Distribuidos*,
  *Reservadas*, *Restantes*), summed over the item rows;
- an investment card that reads the money amount written in the
  *Valor total* cell of the last row (the footer);
- a bar chart of *Adquiridos* per *Descrição* over the item rows;
- the table itself.

This project models the dashboard's core as pure Dafny functions and proves
properties of them. The core is:

- the loader, which projects the download and drops the footer row;
- the category totals;
- the parsing of the investment amount (`R$ 1.234.567,89` → 1234567.89).

Modules, in dependency order:

- `Wrappers`: `Option` and `Result`.
- `Strings`: character counting, Python's `split(sep, 1)`, and deleting or
  replacing a character (`str.replace` with one-character arguments).
- `Frames`: a data frame is column labels plus rows of cells. A cell is an
  integer or a text. This module has the frame operations the core uses:
  `df[names]`, `df[name]`, `iloc[:-1]` and `tail(1)`. Each exception
  pandas would raise is a value of `Error`.
- `Loader`: `load_data`. The download is a parameter: either the frame the
  CSV reader built or the error it raised.
- `Decimal`: the part of `float()` the card relies on.
  - Plain decimals (ASCII digits with at most one point) are read exactly,
    as `real`.
  - Every other text goes to a `fallback` parameter that the model leaves
    open.
- `CategoryTotals`: the `totals` mapping. Also the corrected totals; see
  "Findings".
- `InvestmentCard`: the footer cell → split at the first space → normalise
  the separators → parse, with 0 on any failure.
- `Dashboard`: one run of the script up to the values it displays.
- `Scenarios`: worked examples: a sheet of two item rows plus a footer,
  and the footer amount `R$ 1.234.567,89`.

## Model

| member | source | states |
|---|---|---|
| Frames.Select | streamlit_app.py:18 | `df[names]` succeeds exactly when every label is present. It then has those columns in that order, the same number of rows, and each row projected cell by cell; it is well-formed when the requested labels are distinct. Otherwise it fails with the KeyError listing the absent labels (never an empty list). |
| Frames.Project | streamlit_app.py:18 | A projected row has one cell per requested label, taken from the source row under that label. |
| Frames.Missing | streamlit_app.py:18 | A label is reported missing iff it was requested and the frame does not have it. |
| Frames.SelectOwnColumns | streamlit_app.py:18 | Projecting a frame onto its own columns gives the frame back unchanged. |
| Frames.Column | streamlit_app.py:44 | `df[name]` succeeds iff the label is present and then yields that column's cell from every row, top to bottom. A missing label is a KeyError for it. |
| Frames.DropLast | streamlit_app.py:19 | `iloc[:-1]` keeps the columns and is the prefix that has every row but the last. A frame with no rows stays empty. Well-formedness is preserved. |
| Frames.Tail | streamlit_app.py:62 | `tail(1)` keeps the columns and is the suffix that has only the last row, or no row at all. |
| Frames.DropLastTail | streamlit_app.py:19 | The rows of `iloc[:-1]` followed by the rows of `tail(1)` are exactly the original rows. |
| Loader.Load | streamlit_app.py:14-23 | No error is reported iff the download succeeded and has all seven columns. A failure is reported as raised, and a missing column is reported with the absent labels; either way both tables are `pd.DataFrame()`. On success the full table is the row-by-row projection to the seven columns and the trimmed table is its prefix without the last row. |
| Loader.RowsAreProjected | streamlit_app.py:18-20 | Every loaded row has exactly seven cells, each copied from the downloaded cell under the same label. The trimmed rows are the full rows. |
| Loader.TrimmedPlusFooter | streamlit_app.py:19-20 | Appending the footer row to the trimmed table gives back the full table. |
| Loader.FailureGivesNoData | streamlit_app.py:21-23 | A failed download and a missing column both give two empty frames and a reported error. |
| Loader.TrimmedIgnoresFooter | streamlit_app.py:19-20 | Two downloads that differ only in their last row load to the same trimmed table. |
| CategoryTotals.SumCells | streamlit_app.py:44-47 | A column sum exists iff every cell holds an integer. |
| CategoryTotals.CategoriesAreColumns | streamlit_app.py:43-48 | The four keys, in order, are loaded columns 1, 5, 4 and 6, so every key names a column the loader keeps. |
| CategoryTotals.ColumnTotalCases | streamlit_app.py:44-47 | `ColumnTotal`, i.e. `df1[name].sum()`, succeeds iff the column is present and every cell in it is an integer. Otherwise it is the KeyError of the absent label, or the TypeError of a text cell. |
| CategoryTotals.SumCellsAppend | streamlit_app.py:44-47 | Summing a column in two parts and adding them gives the whole column's sum. |
| CategoryTotals.Totals | streamlit_app.py:43-48 | The mapping exists iff all four column sums exist. It has the four keys in their written order, each with its column's sum. Otherwise the error is that of the first failing column, and every column before it succeeded. |
| CategoryTotals.TotalsOverItemRows | streamlit_app.py:43-48 | After a successful load, each category total is the sum over that column's cells in every downloaded row but the last. |
| CategoryTotals.FooterCountedOnceMore | streamlit_app.py:19-47 | Summing the full table instead of the trimmed one would add the footer's own figure once more. |
| CategoryTotals.FailedLoadBreaksTotals | streamlit_app.py:23-44 | As written, after any failed load the totals raise `KeyError('Adquiridos')`. |
| CategoryTotals.SafeTotals | streamlit_app.py:43-48 | Corrected totals. The empty frame of a failed load gives every category as 0, under the same four keys in order. Every other frame gets the totals as written. |
| CategoryTotals.SafeTotalsAfterLoad | streamlit_app.py:14-48 | With the correction, every successful load whose item rows hold integer quantities leads to totals. Every failed load, whether the download failed or a column is missing, leads to 0 under each key, whatever the cells hold. |
| Strings.SplitOnce | streamlit_app.py:64 | `split(' ', 1)` gives two parts iff the text contains a space. The head then has no space, and head, space and tail rebuild the text; otherwise there is one part, the text itself. |
| Strings.SplitOnceJoin | streamlit_app.py:64 | Splitting `head + " " + tail` with a space-free head gives back exactly `[head, tail]`. |
| Strings.RemoveDeletes | streamlit_app.py:65 | `Remove`, i.e. `replace('.', '')`, leaves no point and shortens the text by its number of points. |
| Strings.RemoveCount | streamlit_app.py:65 | Deleting the points leaves the count of every other character unchanged. |
| Strings.RemoveAround | streamlit_app.py:65 | Deleting the points of `head + [x] + tail` deletes them from `head` only, when `x` is not a point and `tail` holds none. |
| Strings.Replace | streamlit_app.py:65 | `replace(',', '.')` keeps the length and changes exactly the commas, each to a point. |
| Strings.CountReplace | streamlit_app.py:65 | After replacing commas with points no comma is left, and the points number the old points plus the old commas. |
| InvestmentCard.FooterField | streamlit_app.py:62-63 | The footer's *Valor total* cell exists iff the column is present and the table has a row. Otherwise the error is the KeyError, or the IndexError of no rows. |
| InvestmentCard.Normalise | streamlit_app.py:65 | The normalised amount has no comma. Its length is the original length minus the points. Its points are exactly where the commas stood once the points were gone, and every other character is unchanged. |
| InvestmentCard.NormaliseAmount | streamlit_app.py:65 | `groups,cents` normalises to the group digits, a point and the cents. |
| InvestmentCard.ReplaceComma | streamlit_app.py:65 | A single comma between comma-free parts becomes a point. |
| InvestmentCard.ParseAmount | streamlit_app.py:65-66 | The amount parses iff `float` accepts the normalised text. |
| InvestmentCard.ParseField | streamlit_app.py:63-66 | A number in the cell is the AttributeError of `.split`. A text without a space is the ValueError of the unpacking. |
| InvestmentCard.ParseFieldDropsSymbol | streamlit_app.py:64 | The symbol before the first space is discarded, and the rest is parsed whole. |
| InvestmentCard.GroupedAmountValue | streamlit_app.py:65-66 | An amount `<digit groups joined by '.'>,<digits>` is worth its digits read as a decimal number with the cents after the point. |
| InvestmentCard.WellFormedFieldValue | streamlit_app.py:62-66 | A footer `<symbol> <groups>,<cents>` has that decimal value, whatever the symbol. |
| InvestmentCard.WholeFieldValue | streamlit_app.py:64-66 | A footer `<symbol> <digits>` is worth the whole number its digits spell. |
| InvestmentCard.OnlyFooterCounts | streamlit_app.py:61-68 | The card depends only on the columns and the last row of the full table. |
| InvestmentCard.FailuresShowZero | streamlit_app.py:61-68 | The computation fails and the card shows 0 on each of these: no rows, no *Valor total* column, a number in the cell, a text without a space, or an amount that `float` refuses once normalised. |
| InvestmentCard.InvestmentTotal | streamlit_app.py:61-67 | A table without *Valor total* fails with its KeyError, and a table without rows fails with the IndexError. A value is only ever read from a present column and an existing footer. |
| InvestmentCard.Investment | streamlit_app.py:61-68 | The card shows the parsed total, and 0 whenever any step of lines 62-66 fails. |
| InvestmentCard.WellFormedFooterValue | streamlit_app.py:61-68 | For any table whose footer holds `<symbol> <groups>,<cents>` under *Valor total*, the card shows that decimal value, whatever the symbol and the rows above. |
| Decimal.NumeralValue | streamlit_app.py:66 | A string of n digits is worth less than 10^n. |
| Decimal.NumeralValueAppend | streamlit_app.py:66 | Appending digits shifts the value by their count of places and adds their value. |
| Decimal.UngroupedIsNumeral | streamlit_app.py:65-66 | Digit groups with their points deleted are a numeral. |
| Decimal.DecimalValue | streamlit_app.py:66 | `whole.fraction` lies between the whole part and the whole part plus one. |
| Decimal.PlainValue | streamlit_app.py:66 | A plain decimal without a point is worth its numeral. With a point, its whole part is the numeral before the point: the value lies between that numeral and the numeral plus one. |
| Decimal.ParseFloat | streamlit_app.py:66 | `float` accepts every plain decimal, with a non-negative value. |
| Decimal.PlainIgnoresFallback | streamlit_app.py:66 | `float` always accepts a plain decimal, with a non-negative value that does not depend on how the rest of the grammar is read. |
| Decimal.PlainValueOfParts | streamlit_app.py:66 | `whole + "." + fraction` is a plain decimal, and `float` reads it as the whole part plus the scaled fraction. |
| Dashboard.Render | streamlit_app.py:26-68 | The page renders iff the corrected totals exist. A rendered page shows the full table, the load error, the investment figure of the full table, and exactly the corrected totals, one per category. |
| Dashboard.RenderAfterFailedLoad | streamlit_app.py:21-68 | With the correction, every failed load renders an empty table, zero totals and a zero figure, and shows the error. This holds whether the download failed or a column is missing. |
| Dashboard.RenderSucceeds | streamlit_app.py:26-68 | With the correction, every download whose item rows hold integer quantities renders. After a successful load the totals are those as written. |
| Dashboard.RenderFailsOnlyOnTextQuantities | streamlit_app.py:14-48 | With the correction, the page fails exactly when the download loads with all seven columns and some item row holds text in a quantity column. |
| Dashboard.TextQuantityBreaksRender | streamlit_app.py:19-47 | In a download with all seven columns, a text cell in a quantity column of an item row makes that column's total the TypeError of that column, and so the page fails. |
| Scenarios.TotalsExample | streamlit_app.py:43-48 | For the two item rows (6/2/1/3 and 4/2/2/0) plus a footer, the totals are Adquiridos 10, Distribuidos 4, Reservadas 3, Restantes 3. The footer is not counted. |
| Scenarios.DownloadLoaded | streamlit_app.py:18-19 | Loading that download keeps its three rows and trims the footer. |
| Scenarios.FooterExample | streamlit_app.py:64-66 | `R$ 1.234.567,89` parses to 1234567.89. |
| Scenarios.InvestmentExample | streamlit_app.py:61-68 | The card of that download shows 1234567.89. |
| Scenarios.MalformedFootersShowZero | streamlit_app.py:64 | The footers `""` and `garbage` fail at the split: neither holds a space. |

## Left out

- The download is not modelled. `pd.read_csv` of the fixed URL (lines 16-17) appears only as its outcome: a well-formed frame or an error. The CSV grammar, header handling and type inference are not modelled.
- Caching (`st.cache_data`, line 13) and the refresh button (lines 34-36) are left out, and the model describes one evaluation of `load_data`'s body. `load_data` takes no arguments, so after the first call its cached pair is returned on every rerun. That includes the call at line 35, and the download is not fetched again, even though the button reports success. The empty pair of a failed load is cached in the same way, until the cache is cleared or the server restarts.
- Page setup, title, chart construction and layout are left out (lines 8, 31, 49-58, 71-78, 101-119). They include the bar chart of *Adquiridos* over the trimmed table (lines 71-78, 112-114). All of them draw the modelled values and compute nothing further.
- `st.error` (line 22) is modelled as the `reported` field, and `st.success` is left out.
- Display formatting of the figure (`f"R$ {valor:,.2f}"`, line 108) is left out: the model stops at the number.
- Cells are integers or texts only. Floating-point columns, missing values (NaN) and pandas dtypes are not modelled. So the investment model treats every `Valor total` footer cell that is not text as a number.
- CategoryTotals.SumCells: sums are unbounded integers, whereas pandas sums an integer column as int64, which wraps around on overflow.
- CategoryTotals.SumCells: missing values are not skipped as pandas does. A column in which every cell is text is not modelled as concatenating its texts; any text cell gives `NotInteger`, the TypeError of a mixed column. The CSV reader's type inference does not produce mixed columns from a download: a quantity column with any non-integer text is read as text throughout, and then `sum` joins the texts. So the text-cell failures proved here, among them those of `Dashboard.RenderFailsOnlyOnTextQuantities`, are properties of this model's cell convention and not of a real download.
- Decimal.ParseFloat: only plain decimals are read exactly, and as `real`. All else goes to the `fallback` parameter with no properties: signs, exponents, surrounding spaces, `inf`/`nan`, underscores and non-ASCII digits. IEEE-754 rounding is not modelled.
- InvestmentCard.Investment: shows 0 as a real, while the script's fallback is the integer `0`. The two display the same.

## Findings

| source | as written | input that shows it | evidently intended | confidence | as-written member | corrected member |
|---|---|---|---|---|---|---|
| streamlit_app.py:44 | On a failed load, `load_data` reports the error and returns empty frames (lines 21-23). But `df1['Adquiridos']` at line 44 is outside any `try`, so the page stops with a `KeyError`. | Any failed download, or a sheet missing one of the seven columns: `Load(fetched).reported.Some?`. | The empty frames exist so that the views degrade to empty data instead of crashing. The totals should show 0 for every category. | not executed; follows from empty-frame column indexing raising `KeyError` | CategoryTotals.FailedLoadBreaksTotals | CategoryTotals.SafeTotals |

The corrected totals are used by `Dashboard.Render`. `Dashboard.RenderAfterFailedLoad` and `CategoryTotals.SafeTotalsAfterLoad` prove that a failed load then degrades to an empty, zero-valued page. This covers a failed download and a sheet missing a column alike.
