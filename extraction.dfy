/**
  The per-year extraction of `obtener_datos_pronostico`: every available
  bulletin's first-page text is split into lines, the lines with a digit are
  tokenised, the leading tokens that form a state's name are joined, and the
  rows of exactly fifteen fields (name, twelve months, annual, year) are
  collected; then the thirteen value columns are coerced to number-or-missing
  and the November and December cells of 2024 are cleared.

  The bulletin fetch is an input: `bulletins` maps a year to the text of its
  first page exactly when the download of that year succeeded.
*/
module Extraction {
  import opened Wrappers
  import opened Text
  import opened Numeric

  /** The years fetched: `range(2000, 2025)`. */
  const FIRST_YEAR: int := 2000
  const END_YEAR: int := 2025

  /** A one-word state's line: name, twelve months and the annual total. */
  const SIMPLE_WIDTH: nat := 14
  /** A kept row: name, twelve months, annual total and year. */
  const ROW_WIDTH: nat := 15
  /** The value columns Ene..Dic and Anual. */
  const VALUE_COUNT: nat := 13

  /** The year whose last two months are not yet published, and the
      positions of Nov and Dic among the value columns. */
  const LATE_YEAR: int := 2024
  const NOV: nat := 10
  const DIC: nat := 11

  /** The list of multi-word state names consulted for the first two tokens. */
  const COMPOSITE_STATES: seq<string> := [
    "Baja California", "Ciudad de México", "Estado de México", "San Luis Potosí",
    "Baja California Sur", "Nuevo León", "Quintana Roo"
  ]

  /** A cell of a collected row: a token taken from the text, or the year
      appended to it. */
  datatype Field = Token(text: string) | Year(year: int)

  type Row = seq<Field>

  /** The shape of every collected row: fifteen fields, a non-empty name
      first, fourteen text cells, then the year. */
  predicate WellFormedRow(row: Row) {
    && |row| == ROW_WIDTH
    && (forall k :: 0 <= k < ROW_WIDTH - 1 ==> row[k].Token?)
    && row[ROW_WIDTH - 1].Year?
    && |row[0].text| > 0
  }

  /** The row belongs to the given year. */
  predicate InYear(row: Row, year: int) {
    |row| == ROW_WIDTH && row[ROW_WIDTH - 1] == Year(year)
  }

  function AsFields(tokens: seq<string>): (fields: Row)
    ensures |fields| == |tokens|
    ensures forall k :: 0 <= k < |tokens| ==> fields[k] == Token(tokens[k])
  {
    seq(|tokens|, k requires 0 <= k < |tokens| => Token(tokens[k]))
  }

  lemma AsFieldsCons(t: string, ts: seq<string>)
    ensures AsFields([t] + ts) == [Token(t)] + AsFields(ts)
  {
    assert |AsFields([t] + ts)| == |[Token(t)] + AsFields(ts)|;
    forall k | 0 <= k < 1 + |ts| ensures AsFields([t] + ts)[k] == ([Token(t)] + AsFields(ts))[k] {
      if k > 0 { assert ([t] + ts)[k] == ts[k - 1]; }
    }
  }

  // ---------------------------------------------------------------------
  // Name resolution and the row kept for one line
  // ---------------------------------------------------------------------

  /** The first two tokens, joined, are in the composite list. */
  predicate IsCompositePrefix(composite: seq<string>, tokens: seq<string>)
    requires |tokens| >= 2
  {
    JoinWords(tokens[..2]) in composite
  }

  /** For a line of more than fourteen tokens: the name takes two tokens when
      their join is in the composite list and three otherwise; the result
      is the joined name followed by the tokens after it. */
  function ResolveName(composite: seq<string>, tokens: seq<string>): (named: seq<string>)
    requires |tokens| > SIMPLE_WIDTH
    ensures IsCompositePrefix(composite, tokens) <==> |named| == |tokens| - 1
    ensures !IsCompositePrefix(composite, tokens) <==> |named| == |tokens| - 2
    ensures named[0] == JoinWords(tokens[..|tokens| - |named| + 1])
    ensures named[1..] == tokens[|tokens| - |named| + 1..]
  {
    var estado := JoinWords(tokens[..2]);
    if estado in composite then [estado] + tokens[2..]
    else [JoinWords(tokens[..3])] + tokens[3..]
  }

  /** The row a line's tokens form, if any: fourteen tokens are kept as they
      are; more than fourteen are kept when, after the name is joined,
      fifteen fields remain with the year. */
  function RowOfTokens(composite: seq<string>, tokens: seq<string>, year: int): (r: Option<Row>)
    requires forall k :: 0 <= k < |tokens| ==> IsToken(tokens[k])
    ensures r.Some? ==> |tokens| >= SIMPLE_WIDTH
    ensures r.Some? ==> WellFormedRow(r.value) && InYear(r.value, year)
  {
    if |tokens| == SIMPLE_WIDTH then
      assert IsToken(tokens[0]);
      Some(AsFields(tokens) + [Year(year)])
    else if |tokens| > SIMPLE_WIDTH then
      var named := ResolveName(composite, tokens);
      var row := AsFields(named) + [Year(year)];
      if |row| == ROW_WIDTH then
        assert |named[0]| > 0 by {
          JoinWordsNonEmpty(tokens[..|tokens| - |named| + 1]);
        }
        Some(row)
      else None
    else None
  }

  /** The row a line of page text contributes, if any: only a line with a
      digit can contribute one. */
  function LineRow(composite: seq<string>, line: string, year: int): (r: Option<Row>)
    ensures r.Some? ==> HasDigit(line) && |Tokens(line)| >= SIMPLE_WIDTH
    ensures r.Some? ==> WellFormedRow(r.value) && InYear(r.value, year)
  {
    if HasDigit(line) then RowOfTokens(composite, Tokens(line), year) else None
  }

  lemma {:induction false} JoinWordsNonEmpty(tokens: seq<string>)
    requires |tokens| > 0
    requires forall k :: 0 <= k < |tokens| ==> IsToken(tokens[k])
    ensures |JoinWords(tokens)| > 0
  {
    if |tokens| > 1 {
      assert |JoinWords(tokens)| >= |tokens[0]|;
    }
  }

  /** The rows of one page's lines, in line order. */
  function PageRows(composite: seq<string>, lines: seq<string>, year: int): (rows: seq<Row>)
    ensures |rows| <= |lines|
    ensures forall k :: 0 <= k < |rows| ==> WellFormedRow(rows[k]) && InYear(rows[k], year)
  {
    if lines == [] then []
    else
      var last := LineRow(composite, lines[|lines| - 1], year);
      PageRows(composite, lines[..|lines| - 1], year) + (if last.Some? then [last.value] else [])
  }

  /** The rows of the first i+1 lines are those of the first i lines and
      then the row of line i, if it has one. */
  lemma PageRowsStep(composite: seq<string>, lines: seq<string>, i: nat, year: int)
    requires i < |lines|
    ensures PageRows(composite, lines[..i + 1], year) ==
            PageRows(composite, lines[..i], year) + (var r := LineRow(composite, lines[i], year); if r.Some? then [r.value] else [])
  {
    assert lines[..i + 1][..i] == lines[..i];
  }

  /** The rows of one year: none when its bulletin was not available. */
  function YearRows(composite: seq<string>, bulletins: map<int, string>, year: int): (rows: seq<Row>)
    ensures year !in bulletins ==> rows == []
    ensures forall k :: 0 <= k < |rows| ==> WellFormedRow(rows[k]) && InYear(rows[k], year)
  {
    if year in bulletins then PageRows(composite, Lines(bulletins[year]), year) else []
  }

  /** The rows of the years lo..hi-1, year after year. */
  function RowsFor(composite: seq<string>, bulletins: map<int, string>, lo: int, hi: int): (rows: seq<Row>)
    ensures forall k :: 0 <= k < |rows| ==>
              && WellFormedRow(rows[k])
              && lo <= rows[k][ROW_WIDTH - 1].year < hi
              && rows[k][ROW_WIDTH - 1].year in bulletins
    decreases hi - lo
  {
    if hi <= lo then []
    else RowsFor(composite, bulletins, lo, hi - 1) + YearRows(composite, bulletins, hi - 1)
  }

  // ---------------------------------------------------------------------
  // What name resolution does to a line
  // ---------------------------------------------------------------------

  /** Fourteen tokens: the first token is the state, the other thirteen are
      the values, and the year is appended. */
  lemma SimpleRow(composite: seq<string>, tokens: seq<string>, year: int)
    requires forall k :: 0 <= k < |tokens| ==> IsToken(tokens[k])
    requires |tokens| == SIMPLE_WIDTH
    ensures RowOfTokens(composite, tokens, year) ==
            Some([Token(tokens[0])] + AsFields(tokens[1..]) + [Year(year)])
  {
    assert AsFields(tokens) == [Token(tokens[0])] + AsFields(tokens[1..]);
  }

  /** More than fourteen tokens: a two-word name from the composite list
      leaves the tokens after two, otherwise a three-word name leaves the
      tokens after three; the row is kept exactly when thirteen remain. */
  lemma LongRow(composite: seq<string>, tokens: seq<string>, year: int)
    requires forall k :: 0 <= k < |tokens| ==> IsToken(tokens[k])
    requires |tokens| > SIMPLE_WIDTH
    ensures var r := RowOfTokens(composite, tokens, year);
            && (IsCompositePrefix(composite, tokens) ==>
                  && (r.Some? <==> |tokens| == VALUE_COUNT + 2)
                  && (r.Some? ==> r.value == [Token(JoinWords(tokens[..2]))] + AsFields(tokens[2..]) + [Year(year)]))
            && (!IsCompositePrefix(composite, tokens) ==>
                  && (r.Some? <==> |tokens| == VALUE_COUNT + 3)
                  && (r.Some? ==> r.value == [Token(JoinWords(tokens[..3]))] + AsFields(tokens[3..]) + [Year(year)]))
  {
    var named := ResolveName(composite, tokens);
    assert named == [named[0]] + named[1..];
    AsFieldsCons(named[0], named[1..]);
  }

  /** Three tokens joined by spaces contain exactly two spaces. */
  lemma ThreeWordJoinHasTwoSpaces(a: string, b: string, c: string)
    requires IsToken(a) && IsToken(b) && IsToken(c)
    ensures SpaceCount(a + " " + b + " " + c) == 2
  {
    SpaceCountAppend(a + " " + b + " ", c);
    SpaceCountAppend(a + " " + b, " ");
    SpaceCountAppend(a + " ", b);
    SpaceCountAppend(a, " ");
    SpaceCountOfToken(a);
    SpaceCountOfToken(b);
    SpaceCountOfToken(c);
  }

  /** An entry of three words can never be matched by two tokens. The four
      lemmas below are its instances for the three-word entries of
      COMPOSITE_STATES, kept apart so that CompositeMatchIsTwoWordName
      reasons about one string literal at a time. */
  lemma ThreeWordEntryNeverMatches(a: string, b: string, x: string, y: string, z: string, entry: string)
    requires IsToken(a) && IsToken(b)
    requires IsToken(x) && IsToken(y) && IsToken(z)
    requires entry == x + " " + y + " " + z
    ensures JoinWords([a, b]) != entry
  {
    TwoWordJoinHasOneSpace(a, b);
    ThreeWordJoinHasTwoSpaces(x, y, z);
  }

  lemma CiudadDeMexicoNeverMatches(a: string, b: string)
    requires IsToken(a) && IsToken(b)
    ensures JoinWords([a, b]) != "Ciudad de México"
  {
    ThreeWordEntryNeverMatches(a, b, "Ciudad", "de", "México", "Ciudad de México");
  }

  lemma EstadoDeMexicoNeverMatches(a: string, b: string)
    requires IsToken(a) && IsToken(b)
    ensures JoinWords([a, b]) != "Estado de México"
  {
    ThreeWordEntryNeverMatches(a, b, "Estado", "de", "México", "Estado de México");
  }

  lemma SanLuisPotosiNeverMatches(a: string, b: string)
    requires IsToken(a) && IsToken(b)
    ensures JoinWords([a, b]) != "San Luis Potosí"
  {
    ThreeWordEntryNeverMatches(a, b, "San", "Luis", "Potosí", "San Luis Potosí");
  }

  lemma BajaCaliforniaSurNeverMatches(a: string, b: string)
    requires IsToken(a) && IsToken(b)
    ensures JoinWords([a, b]) != "Baja California Sur"
  {
    ThreeWordEntryNeverMatches(a, b, "Baja", "California", "Sur", "Baja California Sur");
  }

  /** Which names the two-token lookup can find: of the composite list only
      the two-word names; "Ciudad de México", "Estado de México",
      "San Luis Potosí" and "Baja California Sur" never match two tokens. */
  lemma CompositeMatchIsTwoWordName(a: string, b: string)
    requires IsToken(a) && IsToken(b)
    ensures JoinWords([a, b]) in COMPOSITE_STATES <==>
            JoinWords([a, b]) in ["Baja California", "Nuevo León", "Quintana Roo"]
  {
    CiudadDeMexicoNeverMatches(a, b);
    EstadoDeMexicoNeverMatches(a, b);
    SanLuisPotosiNeverMatches(a, b);
    BajaCaliforniaSurNeverMatches(a, b);
  }

  /** How a state's name is printed so that the resolution reads it back:
      one word, a two-word name of the composite list, or three words whose
      first two are not in it. */
  predicate ResolvableName(composite: seq<string>, name: seq<string>) {
    || |name| == 1
    || (|name| == 2 && JoinWords(name) in composite)
    || (|name| == 3 && JoinWords(name[..2]) !in composite)
  }

  /** A one-word name followed by thirteen values is a line of fourteen
      tokens, read back as that state, those values and the year. */
  lemma OneWordRow(composite: seq<string>, name: seq<string>, values: seq<string>, year: int)
    requires |name| == 1 && |values| == VALUE_COUNT
    requires forall k :: 0 <= k < |name| ==> IsToken(name[k])
    requires forall k :: 0 <= k < |values| ==> IsToken(values[k])
    ensures RowOfTokens(composite, name + values, year) ==
            Some([Token(JoinWords(name))] + AsFields(values) + [Year(year)])
  {
    var t := name + values;
    assert t == [t[0]] + values;
    AsFieldsCons(t[0], values);
  }

  /** A two-word name of the composite list followed by thirteen values. */
  lemma TwoWordRow(composite: seq<string>, name: seq<string>, values: seq<string>, year: int)
    requires |name| == 2 && JoinWords(name) in composite && |values| == VALUE_COUNT
    requires forall k :: 0 <= k < |name| ==> IsToken(name[k])
    requires forall k :: 0 <= k < |values| ==> IsToken(values[k])
    ensures RowOfTokens(composite, name + values, year) ==
            Some([Token(JoinWords(name))] + AsFields(values) + [Year(year)])
  {
    var t := name + values;
    assert t[2..] == values;
    assert t[..2] == name;
    LongRow(composite, t, year);
  }

  /** A three-word name whose first two words are not in the composite
      list, followed by thirteen values. */
  lemma ThreeWordRow(composite: seq<string>, name: seq<string>, values: seq<string>, year: int)
    requires |name| == 3 && JoinWords(name[..2]) !in composite && |values| == VALUE_COUNT
    requires forall k :: 0 <= k < |name| ==> IsToken(name[k])
    requires forall k :: 0 <= k < |values| ==> IsToken(values[k])
    ensures RowOfTokens(composite, name + values, year) ==
            Some([Token(JoinWords(name))] + AsFields(values) + [Year(year)])
  {
    var t := name + values;
    assert t[3..] == values;
    assert t[..2] == name[..2];
    assert t[..3] == name;
    LongRow(composite, t, year);
  }

  /** A line of page text printed as a resolvable name and thirteen values,
      separated by single spaces and with a digit in one of the values, is
      read back as exactly that state, those values and the year. */
  lemma NamedLineRow(composite: seq<string>, name: seq<string>, values: seq<string>, year: int, j: nat)
    requires ResolvableName(composite, name) && |values| == VALUE_COUNT
    requires forall k :: 0 <= k < |name| ==> IsToken(name[k])
    requires forall k :: 0 <= k < |values| ==> IsToken(values[k])
    requires j < |values| && HasDigit(values[j])
    ensures LineRow(composite, JoinWords(name + values), year) ==
            Some([Token(JoinWords(name))] + AsFields(values) + [Year(year)])
  {
    var t := name + values;
    var line := JoinWords(t);
    TokensOfJoinWords(t);
    assert t[|name| + j] == values[j];
    HasDigitJoinWords(t, |name| + j);
    assert LineRow(composite, line, year) == RowOfTokens(composite, t, year);
    if |name| == 1 {
      OneWordRow(composite, name, values, year);
    } else if |name| == 2 {
      TwoWordRow(composite, name, values, year);
    } else {
      ThreeWordRow(composite, name, values, year);
    }
  }

  /** Mexico City, a three-word name, is kept under its full name. */
  lemma CiudadDeMexicoRow(values: seq<string>, year: int)
    requires |values| == VALUE_COUNT
    requires forall k :: 0 <= k < |values| ==> IsToken(values[k])
    ensures RowOfTokens(COMPOSITE_STATES, ["Ciudad", "de", "México"] + values, year) ==
            Some([Token("Ciudad de México")] + AsFields(values) + [Year(year)])
  {
    var name := ["Ciudad", "de", "México"];
    assert name[..2] == ["Ciudad", "de"];
    assert JoinWords(["Ciudad", "de"]) == "Ciudad de";
    assert |"Ciudad de"| == 9;
    assert JoinWords(name) == "Ciudad de México";
    ThreeWordRow(COMPOSITE_STATES, name, values, year);
  }

  /** A Baja California Sur line is dropped: its first two words are in the
      composite list, so the name takes two tokens and sixteen fields remain,
      whatever the thirteen values are. */
  lemma BajaCaliforniaSurRowDropped(values: seq<string>, year: int)
    requires |values| == VALUE_COUNT
    requires forall k :: 0 <= k < |values| ==> IsToken(values[k])
    ensures RowOfTokens(COMPOSITE_STATES, ["Baja", "California", "Sur"] + values, year) == None
  {
    var t := ["Baja", "California", "Sur"] + values;
    assert t[..2] == ["Baja", "California"];
    assert JoinWords(["Baja", "California"]) == "Baja California";
  }

  // ---------------------------------------------------------------------
  // Years: order and coverage
  // ---------------------------------------------------------------------

  /** The rows of the given year, in their order. */
  function OfYear(rows: seq<Row>, year: int): seq<Row> {
    if rows == [] then []
    else (if InYear(rows[0], year) then [rows[0]] else []) + OfYear(rows[1..], year)
  }

  lemma {:induction false} OfYearAppend(a: seq<Row>, b: seq<Row>, year: int)
    ensures OfYear(a + b, year) == OfYear(a, year) + OfYear(b, year)
  {
    if a == [] {
      assert a + b == b;
    } else {
      assert (a + b)[1..] == a[1..] + b;
      OfYearAppend(a[1..], b, year);
    }
  }

  lemma {:induction false} OfYearAll(rows: seq<Row>, y: int, year: int)
    requires forall k :: 0 <= k < |rows| ==> InYear(rows[k], y)
    ensures OfYear(rows, year) == if y == year then rows else []
  {
    if rows != [] {
      OfYearAll(rows[1..], y, year);
      assert [rows[0]] + rows[1..] == rows;
    }
  }

  /** The rows that carry a given year are exactly that year's rows, in line
      order: none for a year outside the range or without a bulletin. */
  lemma {:induction false} RowsOfYear(composite: seq<string>, bulletins: map<int, string>, lo: int, hi: int, year: int)
    ensures OfYear(RowsFor(composite, bulletins, lo, hi), year) ==
            if lo <= year < hi then YearRows(composite, bulletins, year) else []
    decreases hi - lo
  {
    if hi > lo {
      RowsOfYear(composite, bulletins, lo, hi - 1, year);
      OfYearAppend(RowsFor(composite, bulletins, lo, hi - 1), YearRows(composite, bulletins, hi - 1), year);
      OfYearAll(YearRows(composite, bulletins, hi - 1), hi - 1, year);
    } else {
      assert OfYear([], year) == [];
    }
  }

  lemma ConcatAssoc(a: seq<Row>, b: seq<Row>, c: seq<Row>)
    ensures (a + b) + c == a + (b + c)
  {
  }

  /** The rows of a range of years are those of its first part followed by
      those of the rest, so the row count is the sum of the years' counts. */
  lemma {:induction false} RowsForSplit(composite: seq<string>, bulletins: map<int, string>, lo: int, mid: int, hi: int)
    requires lo <= mid <= hi
    ensures RowsFor(composite, bulletins, lo, hi) ==
            RowsFor(composite, bulletins, lo, mid) + RowsFor(composite, bulletins, mid, hi)
    ensures |RowsFor(composite, bulletins, lo, hi)| ==
            |RowsFor(composite, bulletins, lo, mid)| + |RowsFor(composite, bulletins, mid, hi)|
    decreases hi - mid
  {
    if hi > mid {
      RowsForSplit(composite, bulletins, lo, mid, hi - 1);
      var a := RowsFor(composite, bulletins, lo, mid);
      var b := RowsFor(composite, bulletins, mid, hi - 1);
      var c := YearRows(composite, bulletins, hi - 1);
      ConcatAssoc(a, b, c);
    }
  }

  /** Rows appear in increasing year order. */
  lemma {:induction false} RowsInYearOrder(composite: seq<string>, bulletins: map<int, string>, lo: int, hi: int)
    ensures forall i, j :: 0 <= i < j < |RowsFor(composite, bulletins, lo, hi)| ==>
              RowsFor(composite, bulletins, lo, hi)[i][ROW_WIDTH - 1].year <=
              RowsFor(composite, bulletins, lo, hi)[j][ROW_WIDTH - 1].year
    decreases hi - lo
  {
    if hi > lo {
      RowsInYearOrder(composite, bulletins, lo, hi - 1);
      var before := RowsFor(composite, bulletins, lo, hi - 1);
      var last := YearRows(composite, bulletins, hi - 1);
      var rows: seq<Row> := RowsFor(composite, bulletins, lo, hi);
      assert rows == before + last;
      forall i: int, j: int | 0 <= i < j < |rows|
        ensures rows[i][ROW_WIDTH - 1].year <= rows[j][ROW_WIDTH - 1].year
      {
        if j < |before| {
          assert rows[i] == before[i] && rows[j] == before[j];
          assert before[i][ROW_WIDTH - 1].year <= before[j][ROW_WIDTH - 1].year;
        } else if i < |before| {
          var jl := j - |before|;
          assert rows[i] == before[i] && rows[j] == last[jl];
          assert before[i][ROW_WIDTH - 1].year < hi - 1;
          assert InYear(last[jl], hi - 1);
          assert last[jl][ROW_WIDTH - 1].year == hi - 1;
        } else {
          var il, jl := i - |before|, j - |before|;
          assert rows[i] == last[il] && rows[j] == last[jl];
          assert InYear(last[il], hi - 1) && InYear(last[jl], hi - 1);
          assert last[il][ROW_WIDTH - 1].year == hi - 1;
          assert last[jl][ROW_WIDTH - 1].year == hi - 1;
        }
      }
    }
  }

  // ---------------------------------------------------------------------
  // The data frame: coercion and the 2024 override
  // ---------------------------------------------------------------------

  /** A row of the data frame: the state, the thirteen values Ene..Dic and
      Anual (each a number or missing), and the year. */
  datatype Record = Record(estado: string, valores: seq<Option<real>>, anio: int)

  predicate HasAllColumns(r: Record) {
    |r.valores| == VALUE_COUNT
  }

  /** `pd.to_numeric(..., errors="coerce")` applied to the value cells of one
      row; `Estado` and `Año` are kept as they are. */
  function CoerceRow(row: Row): (rec: Record)
    requires WellFormedRow(row)
    ensures HasAllColumns(rec)
    ensures rec.estado == row[0].text && rec.anio == row[ROW_WIDTH - 1].year
    ensures forall j :: 0 <= j < VALUE_COUNT ==> rec.valores[j] == ParseNumber(row[j + 1].text)
  {
    Record(row[0].text,
           seq(VALUE_COUNT, j requires 0 <= j < VALUE_COUNT => ParseNumber(row[j + 1].text)),
           row[ROW_WIDTH - 1].year)
  }

  /** The data frame built from the collected rows and coerced column by
      column: one record per row, in the same order. */
  function Coerce(rows: seq<Row>): (df: seq<Record>)
    requires forall k :: 0 <= k < |rows| ==> WellFormedRow(rows[k])
    ensures |df| == |rows|
    ensures forall k :: 0 <= k < |rows| ==> df[k] == CoerceRow(rows[k])
  {
    seq(|rows|, k requires 0 <= k < |rows| => CoerceRow(rows[k]))
  }

  /** One record after `df.loc[df['Año'] == 2024, ['Nov', 'Dic']] = None`. */
  function BlankRecord(r: Record): (b: Record)
    requires HasAllColumns(r)
    ensures HasAllColumns(b) && b.estado == r.estado && b.anio == r.anio
    ensures forall j :: 0 <= j < VALUE_COUNT ==>
      b.valores[j] == if r.anio == LATE_YEAR && (j == NOV || j == DIC) then None else r.valores[j]
  {
    if r.anio == LATE_YEAR then r.(valores := r.valores[NOV := None][DIC := None]) else r
  }

  /** The frame after the 2024 override. */
  function BlankLateMonths(df: seq<Record>): (out: seq<Record>)
    requires forall k :: 0 <= k < |df| ==> HasAllColumns(df[k])
    ensures |out| == |df|
    ensures forall k :: 0 <= k < |df| ==> out[k] == BlankRecord(df[k])
  {
    seq(|df|, k requires 0 <= k < |df| => BlankRecord(df[k]))
  }

  /** The frame `obtener_datos_pronostico` returns for the given bulletins. */
  function Dataset(composite: seq<string>, bulletins: map<int, string>): (df: seq<Record>)
    ensures |df| == |RowsFor(composite, bulletins, FIRST_YEAR, END_YEAR)|
    ensures forall k :: 0 <= k < |df| ==>
              HasAllColumns(df[k]) && FIRST_YEAR <= df[k].anio < END_YEAR && df[k].anio in bulletins
  {
    BlankLateMonths(Coerce(RowsFor(composite, bulletins, FIRST_YEAR, END_YEAR)))
  }

  /** The 2024 override changes nothing the second time. */
  lemma BlankLateMonthsIdempotent(df: seq<Record>)
    requires forall k :: 0 <= k < |df| ==> HasAllColumns(df[k])
    ensures BlankLateMonths(BlankLateMonths(df)) == BlankLateMonths(df)
  {
    var once := BlankLateMonths(df);
    forall k | 0 <= k < |df| ensures BlankRecord(once[k]) == once[k] {
      assert once[k].valores == BlankRecord(once[k]).valores;
    }
  }

  /** Every record of the data frame, cell by cell: the state and year of the
      k-th collected row, each value cell coerced on its own, and Nov and Dic
      missing in 2024 whatever the bulletin said. */
  lemma DatasetCells(composite: seq<string>, bulletins: map<int, string>, k: nat)
    requires k < |Dataset(composite, bulletins)|
    ensures var rows := RowsFor(composite, bulletins, FIRST_YEAR, END_YEAR);
            var r := Dataset(composite, bulletins)[k];
            && |Dataset(composite, bulletins)| == |rows|
            && HasAllColumns(r)
            && r.estado == rows[k][0].text && |r.estado| > 0
            && r.anio == rows[k][ROW_WIDTH - 1].year
            && FIRST_YEAR <= r.anio < END_YEAR && r.anio in bulletins
            && (forall j :: 0 <= j < VALUE_COUNT ==>
                  r.valores[j] == if r.anio == LATE_YEAR && (j == NOV || j == DIC) then None
                                  else ParseNumber(rows[k][j + 1].text))
  {
  }

  /** Records keep the year order of the collected rows. */
  lemma DatasetInYearOrder(composite: seq<string>, bulletins: map<int, string>)
    ensures var df := Dataset(composite, bulletins);
            forall i, j :: 0 <= i < j < |df| ==> df[i].anio <= df[j].anio
  {
    var rows: seq<Row> := RowsFor(composite, bulletins, FIRST_YEAR, END_YEAR);
    var df: seq<Record> := Dataset(composite, bulletins);
    RowsInYearOrder(composite, bulletins, FIRST_YEAR, END_YEAR);
    forall i: int, j: int | 0 <= i < j < |df| ensures df[i].anio <= df[j].anio {
      assert df[i].anio == rows[i][ROW_WIDTH - 1].year;
      assert df[j].anio == rows[j][ROW_WIDTH - 1].year;
    }
  }

  // ---------------------------------------------------------------------
  // The imperative procedure
  // ---------------------------------------------------------------------

  /** The override, in place on the frame's rows. */
  method ClearLateMonths(df: array<Record>)
    requires forall k :: 0 <= k < df.Length ==> HasAllColumns(df[k])
    modifies df
    ensures df[..] == BlankLateMonths(old(df[..]))
  {
    var k := 0;
    while k < df.Length
      invariant 0 <= k <= df.Length
      invariant forall i :: 0 <= i < k ==> df[i] == BlankRecord(old(df[i]))
      invariant forall i :: k <= i < df.Length ==> df[i] == old(df[i])
    {
      if df[k].anio == LATE_YEAR {
        df[k] := df[k].(valores := df[k].valores[NOV := None][DIC := None]);
      }
      k := k + 1;
    }
  }

  /** `pd.DataFrame(all_data, columns=columns)`, the coercion of the value
      columns, and the 2024 override applied in place. */
  method BuildFrame(allData: seq<Row>) returns (df: seq<Record>)
    requires forall k :: 0 <= k < |allData| ==> WellFormedRow(allData[k])
    ensures df == BlankLateMonths(Coerce(allData))
  {
    var records: seq<Record> := [];
    var k := 0;
    while k < |allData|
      invariant 0 <= k <= |allData|
      invariant |records| == k
      invariant forall i :: 0 <= i < k ==> records[i] == CoerceRow(allData[i])
    {
      records := records + [CoerceRow(allData[k])];
      k := k + 1;
    }
    var frame := new Record[|records|](i requires 0 <= i < |records| => records[i]);
    ClearLateMonths(frame);
    df := frame[..];
  }

  /** The processing of one page's text (the loop over its lines): the
      rows of the lines that have a digit and resolve to fifteen fields. */
  method ExtractPage(composite: seq<string>, text: string, year: int) returns (rows: seq<Row>)
    ensures rows == PageRows(composite, Lines(text), year)
  {
    var lines := Lines(text);
    rows := [];
    var i := 0;
    while i < |lines|
      invariant 0 <= i <= |lines|
      invariant rows == PageRows(composite, lines[..i], year)
    {
      var line := lines[i];
      PageRowsStep(composite, lines, i, year);
      if HasDigit(line) {
        var row := Tokens(line);
        if |row| == SIMPLE_WIDTH {
          rows := rows + [AsFields(row) + [Year(year)]];
        } else if |row| > SIMPLE_WIDTH {
          var estado := JoinWords(row[..2]);
          var named: seq<string>;
          if estado in composite {
            named := [estado] + row[2..];
          } else {
            estado := JoinWords(row[..3]);
            named := [estado] + row[3..];
          }
          assert named == ResolveName(composite, row);
          var full := AsFields(named) + [Year(year)];
          if |full| == ROW_WIDTH {
            rows := rows + [full];
          }
        }
      }
      i := i + 1;
    }
    assert lines[..|lines|] == lines;
  }

  /** Loops over the years, appends the rows of every available page, then
      hands them to BuildFrame. */
  method ObtenerDatosPronostico(bulletins: map<int, string>) returns (df: seq<Record>)
    ensures df == Dataset(COMPOSITE_STATES, bulletins)
  {
    var allData: seq<Row> := [];
    var year := FIRST_YEAR;
    while year < END_YEAR
      invariant FIRST_YEAR <= year <= END_YEAR
      invariant allData == RowsFor(COMPOSITE_STATES, bulletins, FIRST_YEAR, year)
    {
      if year in bulletins {
        var rows := ExtractPage(COMPOSITE_STATES, bulletins[year], year);
        allData := allData + rows;
      }
      year := year + 1;
    }
    df := BuildFrame(allData);
  }
}
