# Monthly rainfall bulletins: extraction and the Mexico City series

This project models the data core of `lluvias.py`, a dashboard of monthly
rainfall forecasts. The model has two parts.

**Extraction.** `obtener_datos_pronostico` reads one bulletin per year from
2000 to 2024. The model takes the text of each bulletin's first page as
input. It then:

- splits the text into lines and keeps the lines that contain a digit;
- splits each kept line on whitespace;
- works out how many leading tokens form the state's name;
- keeps the rows that come to exactly fifteen fields: name, twelve months,
  annual total and year;
- coerces the thirteen value columns to number-or-missing;
- clears November and December of 2024.

The procedure is imperative. `Extraction.ObtenerDatosPronostico` loops over
the years. `Extraction.ExtractPage` loops over one page's lines.
`Extraction.BuildFrame` builds and coerces the frame.
`Extraction.ClearLateMonths` applies the 2024 override in place on an array.
Each method is proved equal to a function that defines its result (`Dataset`,
`PageRows`, `Coerce`, `BlankLateMonths`), and the properties are lemmas about
those functions.

**The Mexico City series.** This part is a chain of pure steps, so it is
modelled with functions and lemmas. It:

- selects the `Ciudad de México` records and drops `Anual` and `Estado`;
- melts the frame to one point per year and month, column by column as
  pandas' `melt` stacks them;
- appends two 2024 points holding the historical November and December
  means, missing values skipped;
- appends ten provisional 2024 points;
- numbers the months 1 to 12;
- sorts by year and month number with a stable sort.

Modules: `Wrappers` (Option), `Text` (`split('\n')`, `split()`, `isdigit`,
`" ".join`), `Numeric` (`pd.to_numeric(..., errors="coerce")` on one token),
`Extraction` and `Series`.

## Behaviour as written

The model follows the code in three places where a reader might expect
something else.

- **A "Baja California Sur" line is dropped.** Its first two words,
  "Baja California", are in `composite_states`. So the name takes two
  tokens, sixteen fields remain, and the length test rejects the row
  (`Extraction.BajaCaliforniaSurRowDropped`).
- **Three-word entries never match.** The entries "Ciudad de México",
  "Estado de México", "San Luis Potosí" and "Baja California Sur" can never
  equal the join of two tokens (`Extraction.CompositeMatchIsTwoWordName`).
  Mexico City is still read correctly, through the three-token fallback
  (`Extraction.CiudadDeMexicoRow`).
- **2024 points can appear twice.** The appends never replace a point. If
  the frame holds a 2024 Mexico City record, the series has two November
  2024 points: the blanked cell and the average
  (`Series.LateNovemberRepeats`). Likewise each provisional month sits next
  to the record's own value.

## A verifier defect to be aware of

With Dafny 4.11, a lemma whose requires are
`forall k :: 0 <= k < |df| ==> HasAllColumns(df[k])` and
`p in Melt(DropColumns(SelectRegion(df)))`, or `r in DropColumns(SelectRegion(df))`,
can prove `ensures false` if the solver is given enough resources. Such a
`df` and `p` exist: a single Ciudad de México record with its thirteen
values gives twelve melted points. So the proof of `false` comes from a
defect of the verifier, not from the definitions. The defect involves a
recursive filter over sequences (`SelectRegion`), a function whose requires
applies a predicate to every element (`DropColumns`), and membership in
that function's result. No contract of this project assumes membership in
`DropColumns(SelectRegion(df))` or in its melt. The lemmas about the melted
points name them by position instead (`Series.MeltAt`,
`Series.LongStartsWithMelt`, `Series.RecordInLong`). Membership is assumed
only in the full long frame (`Series.LongInSeries`) and is stated about the
series.

## Model

| member | source | states |
|---|---|---|
| Text.Lines | lluvias.py:34 | `text.split('\n')`: at least one piece, none containing a newline |
| Text.JoinLinesOfLines | lluvias.py:34 | joining the pieces back with newlines gives the original text |
| Text.LinesOfJoinLines | lluvias.py:34 | splitting newline-free lines joined by newlines gives those lines back |
| Text.HasDigit | lluvias.py:36 | `any(char.isdigit() ...)`: some character of the line is an ASCII digit; a digit in any token is one of the joined line (Text.HasDigitJoinWords) |
| Text.Tokens | lluvias.py:37 | every token of `line.split()` is non-empty and free of whitespace; any whitespace run separates tokens and runs at the ends give none (Text.TokensSplitAtRun) |
| Text.TokensSplitAtSpace | lluvias.py:37 | one whitespace character splits a line's tokens into those before it and those after it |
| Text.TokensSplitAtRun | lluvias.py:37 | a non-empty whitespace run of any width and kind separates the tokens on either side; leading and trailing runs give no token |
| Text.JoinWords | lluvias.py:42-46 | `" ".join(...)`: split() gives the tokens back (Text.TokensOfJoinWords), and two tokens join with exactly one space (Text.TwoWordJoinHasOneSpace) |
| Text.TokensKeepNonSpace | lluvias.py:37 | concatenated, the tokens are exactly the non-whitespace characters of the line, in order |
| Text.TokensOfJoinWords | lluvias.py:37 | `split()` undoes `" ".join` on tokens |
| Text.HasDigitJoinWords | lluvias.py:36 | a digit in any token is a digit of the joined line |
| Text.TwoWordJoinHasOneSpace | lluvias.py:42 | the join of two tokens contains exactly one space |
| Numeric.ParseUnsigned | lluvias.py:56 | a parsed unsigned decimal is non-negative and was made only of digits and points, with at least one digit |
| Numeric.ParseNumber | lluvias.py:56 | a token that coerces to a number is made of numeral characters and has a digit |
| Numeric.ParseTenths | lluvias.py:56 | a figure written with one decimal is read back as exactly n/10 |
| Numeric.ParseNegativeTenths | lluvias.py:56 | a negative one-decimal figure is read back as exactly -n/10 |
| Numeric.ParseExample | lluvias.py:56 | "123.4" coerces to 123.4 |
| Numeric.ParseRejectsPlaceholder | lluvias.py:56 | a placeholder such as "N/D" coerces to missing |
| Extraction.ResolveName | lluvias.py:41-47 | two name tokens exactly when their join is in the list, otherwise three; the name is the join of those tokens and the rest follows unchanged |
| Extraction.RowOfTokens | lluvias.py:38-50 | a kept row needs at least 14 tokens, has 15 fields with a non-empty name and tokens in fields 0..13, and ends with the year |
| Extraction.LineRow | lluvias.py:35-50 | a line without a digit never gives a row; a kept row is well formed and ends with the year |
| Extraction.PageRows | lluvias.py:35-50 | a page gives at most one row per line, each well formed and of that year |
| Extraction.PageRowsStep | lluvias.py:35-50 | the rows of one more line are the earlier rows plus that line's row, if it has one |
| Extraction.YearRows | lluvias.py:27-50 | a year without a bulletin gives no rows; the rest are rows of that year |
| Extraction.RowsFor | lluvias.py:22-50 | every collected row is well formed and its year is in range and had a bulletin |
| Extraction.SimpleRow | lluvias.py:38-40 | 14 tokens give token 0 as the state, tokens 1..13 as the values, then the year |
| Extraction.LongRow | lluvias.py:41-50 | more than 14 tokens: a two-word list name keeps tokens 2.., otherwise a three-word name keeps tokens 3..; the row is kept iff 13 values remain |
| Extraction.ThreeWordEntryNeverMatches | lluvias.py:13-16 | the join of two tokens never equals an entry of three words, such as the list's "Ciudad de México", "Estado de México", "San Luis Potosí" and "Baja California Sur" |
| Extraction.CompositeMatchIsTwoWordName | lluvias.py:42-43 | two tokens match the list exactly when they match one of its two-word names |
| Extraction.OneWordRow | lluvias.py:38-40 | a one-word name and 13 values are read back as that state, those values and the year |
| Extraction.TwoWordRow | lluvias.py:41-50 | a two-word list name and 13 values are read back as that state, those values and the year |
| Extraction.ThreeWordRow | lluvias.py:41-50 | a three-word name whose first two words are not in the list, with 13 values, is read back exactly |
| Extraction.NamedLineRow | lluvias.py:34-50 | a printed line with a resolvable name, 13 values and a digit is read back as exactly that row |
| Extraction.CiudadDeMexicoRow | lluvias.py:41-50 | a Ciudad de México line is kept under its full three-word name |
| Extraction.BajaCaliforniaSurRowDropped | lluvias.py:41-50 | a Baja California Sur line is dropped, whatever its values |
| Extraction.RowsOfYear | lluvias.py:22-50 | the collected rows carrying a year are exactly that year's page rows in line order; none outside the range |
| Extraction.RowsForSplit | lluvias.py:22-50 | the rows of a span of years are its first part's rows then the rest's, so counts add up |
| Extraction.RowsInYearOrder | lluvias.py:22-50 | collected rows appear in non-decreasing year order |
| Extraction.CoerceRow | lluvias.py:53-56 | a record has 13 values, each the coercion of its own cell; state and year are kept |
| Extraction.Coerce | lluvias.py:53-56 | coercion keeps every row, in order, one record per row |
| Extraction.BlankRecord | lluvias.py:59 | in 2024 Nov and Dic become missing; every other cell, the state and the year are unchanged |
| Extraction.BlankLateMonths | lluvias.py:59 | the override keeps every record, in order, each overridden on its own |
| Extraction.BlankLateMonthsIdempotent | lluvias.py:59 | applying the override twice is the same as once |
| Extraction.Dataset | lluvias.py:19-60 | the frame has one record per collected row, each with its 13 value columns and a year in 2000..2024 that had a bulletin; cell by cell in Extraction.DatasetCells, year order in Extraction.DatasetInYearOrder |
| Extraction.DatasetCells | lluvias.py:19-60 | record k is collected row k, with non-empty state, a bulletin year in 2000..2024 and its cells coerced, Nov/Dic missing in 2024 |
| Extraction.DatasetInYearOrder | lluvias.py:19-60 | the returned frame is in non-decreasing year order |
| Extraction.ClearLateMonths | lluvias.py:59 | the array afterwards holds the overridden records |
| Extraction.BuildFrame | lluvias.py:53-59 | the frame built is the coerced rows with the 2024 override |
| Extraction.ExtractPage | lluvias.py:34-50 | the line loop collects exactly the page's rows |
| Extraction.ObtenerDatosPronostico | lluvias.py:19-60 | the returned frame is the dataset of the given bulletins |
| Series.SelectRegion | lluvias.py:66 | every selected record is a Ciudad de México record of the frame; order and multiplicity are fixed by Series.SelectRegionSingle and Series.SelectRegionAppend |
| Series.SelectRegionSingle | lluvias.py:66 | a one-record frame keeps its record exactly when the state is Ciudad de México |
| Series.SelectRegionAppend | lluvias.py:66 | the filter of a concatenation is the concatenation of the filters, so records keep their order and their repetitions |
| Series.SelectRegionMembers | lluvias.py:66 | a record is selected iff it is in the frame and its state is Ciudad de México |
| Series.SelectRegionKeepsColumns | lluvias.py:66 | selected records keep their 13 value columns |
| Series.DropColumns | lluvias.py:67 | one row per record, each with exactly the 12 month values |
| Series.DropColumnsKeepsMonths | lluvias.py:67 | dropping keeps each record's year and month values |
| Series.Melt | lluvias.py:68 | the long frame has 12 points per row |
| Series.MeltAt | lluvias.py:68 | month m of row i lands at position m * rows + i, with that year, month name and value |
| Series.History | lluvias.py:71-72 | a month's pre-2024 values of the long frame, at most one per point; on the melted frame it is that month's column (Series.HistoryOfMelt), and it distributes over concatenation (Series.HistoryAppend) |
| Series.HistoryAppend | lluvias.py:71-72 | the history of a concatenation is the concatenation of the histories |
| Series.HistoryAllMissing | lluvias.py:71-72 | a month's history has no value exactly when every point of that month before 2024 is missing |
| Series.HistoryOfMelt | lluvias.py:71-72 | the long frame's pre-2024 values of a month are that month's column over the pre-2024 rows |
| Series.Mean | lluvias.py:71-72 | the mean is missing iff no value is present |
| Series.MeanWithin | lluvias.py:71-72 | a mean lies between any bounds of the values it averages |
| Series.Averages | lluvias.py:71-73 | two 2024 points, Nov then Dic; a mean is missing exactly when its month has no value before 2024; the means are those of the pre-2024 columns (Series.AveragesOfColumns) |
| Series.Provisional | lluvias.py:75-79 | ten 2024 points, Ene..Oct, carrying the listed figures |
| Series.Long | lluvias.py:68-80 | every point of the long frame names one of the twelve months |
| Series.AveragesOfColumns | lluvias.py:71-80 | the long frame is the melted rows, then the Nov and Dic 2024 means of the pre-2024 columns, then the provisional points |
| Series.LongStartsWithMelt | lluvias.py:73-80 | the appends come after the melted points and leave them in place |
| Series.MonthNamesNumbered | lluvias.py:84 | the month names are exactly the keys of the month-number map |
| Series.Number | lluvias.py:85 | a point's month number is the map's value for its month |
| Series.Numbered | lluvias.py:85 | numbering keeps every point, in order |
| Series.InsertPermutes | lluvias.py:86 | insertion adds exactly the new point |
| Series.InsertSorted | lluvias.py:86 | insertion into a sorted sequence keeps it sorted |
| Series.WithKeyInsert | lluvias.py:86 | insertion puts the point in front of the other points with its key and leaves other keys alone |
| Series.SortByKey | lluvias.py:86 | the sort keeps the number of points; it is a permutation (Series.SortPermutes), ordered by year then month number (Series.SortSorts) and stable (Series.SortIsStable) |
| Series.SortPermutes | lluvias.py:86 | sorting is a permutation |
| Series.SortSorts | lluvias.py:86 | the sort orders by year, then month number |
| Series.SortIsStable | lluvias.py:86 | the sort keeps the order of points sharing a key |
| Series.CdmxSeries | lluvias.py:66-86 | the series is ordered by year, then month number, and has one point per point of the long frame; the full characterisation is Series.SeriesIsSortedLong |
| Series.SeriesIsSortedLong | lluvias.py:66-86 | the series is sorted, a permutation of the numbered long frame, stable per key, with 12 points per record plus 12 |
| Series.LongInSeries | lluvias.py:85-86 | every long-frame point ends up in the series with its month number |
| Series.RecordInLong | lluvias.py:66-68 | each month of each selected record is a point of the long frame |
| Series.RecordInSeries | lluvias.py:66-86 | each month of each selected record appears in the series with its value and month number |
| Series.ProvisionalInSeries | lluvias.py:75-86 | each provisional 2024 figure appears in the series |
| Series.AveragesInSeries | lluvias.py:71-86 | the Nov and Dic 2024 means of the pre-2024 columns appear in the series |
| Series.LateNovemberRepeats | lluvias.py:73-86 | with a 2024 record of the state, November 2024 appears at least twice in the series |

## Left out

- Fetching and reading the bulletins (lluvias.py:24-31) is left out. The HTTP request, the status test and pdfplumber's first-page text are replaced by the input `bulletins`: a year is in the map exactly when its download succeeded, and it maps to the page text.
- A page whose text extraction returns nothing or raises an error is not modelled. The map holds only texts.
- The URL constant (lluvias.py:10) only matters to the fetch, which is left out.
- Numeric.ParseNumber: accepts only plain decimals with an optional sign (`12`, `-3.5`, `.5`, `5.`). Tokens that `pd.to_numeric` would also read (exponents, `inf`, `nan`, surrounding spaces) are treated as missing, because the bulletins print plain one-decimal figures.
- Text.HasDigit: counts only the ASCII digits. Python's `str.isdigit` also accepts other Unicode digits and superscripts.
- Values are exact reals, not floats. The mean has no rounding.
- The pandas index is not modelled: frames are sequences in row order, and `ignore_index` and the filter's index labels play no part.
- `obtener_datos_pronostico` is one Python function. The model splits it into `ExtractPage`, `BuildFrame` and `ClearLateMonths` under `ObtenerDatosPronostico`.
- Coercion (lluvias.py:55-56) goes column by column in the source and record by record in the model. Each cell is coerced on its own either way, so the frames are the same.
- The composite-state list and the month-name list are parameters of the name-resolution and melting functions. The top-level members use the source's own lists.
- The source's `map(meses_numericos)` turns an unknown month name into NaN. Every month name in the long frame is known (`Series.Long`), so `Series.Number` requires a known name.
- The Dash application, dropdown, plotly callback and server start (lluvias.py:89-126) are user interface and I/O.
- testo1.py is not part of this model: it loads a CSV and builds another Dash page, with no parsing logic.
