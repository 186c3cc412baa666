/**
  The Ciudad de México series the dashboard plots: the data frame's rows for
  that state, without `Anual` and `Estado`, melted to one point per year and
  month; then a November and a December point for 2024 holding the historical
  means, ten provisional 2024 points, the month numbers, and a stable sort by
  year and month number.
*/
module Series {
  import opened Wrappers
  import opened Extraction

  /** The state the dashboard shows. */
  const REGION: string := "Ciudad de México"

  /** The month columns, in the data frame's column order. */
  const MESES: seq<string> := ["Ene", "Feb", "Mar", "Abr", "May", "Jun", "Jul", "Ago", "Sep", "Oct", "Nov", "Dic"]
  const MONTHS: nat := 12

  /** `meses_numericos` */
  const MESES_NUMERICOS: map<string, int> := map[
    "Ene" := 1, "Feb" := 2, "Mar" := 3, "Abr" := 4, "May" := 5, "Jun" := 6,
    "Jul" := 7, "Ago" := 8, "Sep" := 9, "Oct" := 10, "Nov" := 11, "Dic" := 12
  ]

  /** The provisional 2024 figures for Ene..Oct. */
  const PROVISIONAL_2024: seq<real> := [0.5, 13.2, 0.1, 9.1, 34.6, 104.4, 145.8, 234.6, 159.6, 45.5]
  const PROVISIONAL_MONTHS: nat := 10

  /** A row after dropping `Anual` and `Estado`: the year and the twelve
      monthly values. */
  datatype Monthly = Monthly(anio: int, meses: seq<Option<real>>)

  /** Every row has its twelve month columns. */
  predicate AllMonthly(rows: seq<Monthly>) {
    forall k :: 0 <= k < |rows| ==> |rows[k].meses| == MONTHS
  }

  /** A row of the long frame: year, month name and rainfall. */
  datatype Point = Point(anio: int, mes: string, lluvia: Option<real>)

  /** A row of the long frame with its `Mes_Num`. */
  datatype NumberedPoint = NumberedPoint(anio: int, mes: string, lluvia: Option<real>, mesNum: int)

  /** The month names map to 1..12 in calendar order. */
  lemma MonthNumber(m: nat)
    requires m < MONTHS
    ensures MESES[m] in MESES_NUMERICOS && MESES_NUMERICOS[MESES[m]] == m + 1
  {
  }

  // ---------------------------------------------------------------------
  // Selecting the state and dropping columns
  // ---------------------------------------------------------------------

  /** `df[df['Estado'] == 'Ciudad de México']`: the records of the state, in
      the frame's order. */
  function SelectRegion(df: seq<Record>): (cdmx: seq<Record>)
    ensures |cdmx| <= |df|
    ensures forall k :: 0 <= k < |cdmx| ==> cdmx[k].estado == REGION && cdmx[k] in df
  {
    if df == [] then []
    else (if df[0].estado == REGION then [df[0]] else []) + SelectRegion(df[1..])
  }

  /** A record is selected exactly when it belongs to the state. */
  lemma {:induction false} SelectRegionMembers(df: seq<Record>, r: Record)
    ensures r in SelectRegion(df) <==> r in df && r.estado == REGION
  {
    if df != [] {
      SelectRegionMembers(df[1..], r);
      assert df == [df[0]] + df[1..];
    }
  }

  /** A one-record frame keeps its record exactly when it belongs to the state. */
  lemma SelectRegionSingle(r: Record)
    ensures SelectRegion([r]) == if r.estado == REGION then [r] else []
  {
    assert [r][1..] == [];
  }

  /** The filter distributes over concatenation; with SelectRegionSingle this
      fixes the order and the multiplicity of the selected records. */
  lemma {:induction false} SelectRegionAppend(a: seq<Record>, b: seq<Record>)
    ensures SelectRegion(a + b) == SelectRegion(a) + SelectRegion(b)
    decreases |a|
  {
    if a == [] {
      assert a + b == b;
    } else {
      var head := if a[0].estado == REGION then [a[0]] else [];
      assert (a + b)[0] == a[0];
      assert (a + b)[1..] == a[1..] + b;
      SelectRegionAppend(a[1..], b);
      calc {
        SelectRegion(a + b);
        head + SelectRegion(a[1..] + b);
        head + (SelectRegion(a[1..]) + SelectRegion(b));
        (head + SelectRegion(a[1..])) + SelectRegion(b);
        SelectRegion(a) + SelectRegion(b);
      }
    }
  }

  /** `drop(columns=['Anual', 'Estado'])`: each record keeps its year and its
      first twelve values. */
  function DropColumns(cdmx: seq<Record>): (rows: seq<Monthly>)
    requires forall k :: 0 <= k < |cdmx| ==> HasAllColumns(cdmx[k])
    ensures |rows| == |cdmx|
    ensures AllMonthly(rows)
  {
    var rows := seq(|cdmx|, k requires 0 <= k < |cdmx| =>
      assert HasAllColumns(cdmx[k]);
      Monthly(cdmx[k].anio, seq(MONTHS, m requires 0 <= m < MONTHS => cdmx[k].valores[m])));
    assert AllMonthly(rows) by {
      forall k | 0 <= k < |rows| ensures |rows[k].meses| == MONTHS {
        assert HasAllColumns(cdmx[k]);
      }
    }
    rows
  }

  /** Dropping keeps every month column: the year and month values of each
      record are unchanged. */
  lemma DropColumnsKeepsMonths(cdmx: seq<Record>, k: nat, m: nat)
    requires forall i :: 0 <= i < |cdmx| ==> HasAllColumns(cdmx[i])
    requires k < |cdmx| && m < MONTHS
    ensures DropColumns(cdmx)[k].anio == cdmx[k].anio
    ensures DropColumns(cdmx)[k].meses[m] == cdmx[k].valores[m]
  {
  }

  // ---------------------------------------------------------------------
  // Melting
  // ---------------------------------------------------------------------

  /** The points of month m, one per row, in row order; `names` holds
      the month columns' names. */
  function MeltMonth(names: seq<string>, rows: seq<Monthly>, m: nat): (points: seq<Point>)
    requires |names| == MONTHS && m < MONTHS
    requires AllMonthly(rows)
    ensures |points| == |rows|
    ensures forall i :: 0 <= i < |rows| ==> points[i] == Point(rows[i].anio, names[m], rows[i].meses[m])
  {
    seq(|rows|, i requires 0 <= i < |rows| => Point(rows[i].anio, names[m], rows[i].meses[m]))
  }

  /** The points of the first n months, month after month. */
  function MeltMonths(names: seq<string>, rows: seq<Monthly>, n: nat): (points: seq<Point>)
    requires |names| == MONTHS && n <= MONTHS
    requires AllMonthly(rows)
  {
    if n == 0 then [] else MeltMonths(names, rows, n - 1) + MeltMonth(names, rows, n - 1)
  }

  lemma {:induction false} MeltMonthsLength(names: seq<string>, rows: seq<Monthly>, n: nat)
    requires |names| == MONTHS && n <= MONTHS
    requires AllMonthly(rows)
    ensures |MeltMonths(names, rows, n)| == n * |rows|
  {
    if n > 0 {
      MeltMonthsLength(names, rows, n - 1);
    }
  }

  /** `melt(id_vars=['Año'], var_name='Mes', value_name='Cantidad de Lluvia')`:
      the month columns are stacked one after the other. */
  function Melt(rows: seq<Monthly>): (points: seq<Point>)
    requires AllMonthly(rows)
    ensures |points| == MONTHS * |rows|
  {
    MeltMonthsLength(MESES, rows, MONTHS);
    MeltMonths(MESES, rows, MONTHS)
  }

  /** Where each cell lands: the value of month m of row i is point
      m * |rows| + i. */
  lemma {:induction false} MeltMonthsAt(names: seq<string>, rows: seq<Monthly>, n: nat, m: nat, i: nat)
    requires |names| == MONTHS && n <= MONTHS && m < n && i < |rows|
    requires AllMonthly(rows)
    ensures m * |rows| + i < |MeltMonths(names, rows, n)|
    ensures MeltMonths(names, rows, n)[m * |rows| + i] == Point(rows[i].anio, names[m], rows[i].meses[m])
  {
    var before := MeltMonths(names, rows, n - 1);
    var month := MeltMonth(names, rows, n - 1);
    MeltMonthsLength(names, rows, n - 1);
    assert MeltMonths(names, rows, n) == before + month;
    if m < n - 1 {
      MeltMonthsAt(names, rows, n - 1, m, i);
      assert (before + month)[m * |rows| + i] == before[m * |rows| + i];
    } else {
      assert (before + month)[m * |rows| + i] == month[i];
    }
  }

  /** The long frame holds the value of month m of row i at position
      m * |rows| + i. */
  lemma MeltAt(rows: seq<Monthly>, m: nat, i: nat)
    requires m < MONTHS && i < |rows|
    requires AllMonthly(rows)
    ensures m * |rows| + i < |Melt(rows)|
    ensures Melt(rows)[m * |rows| + i] == Point(rows[i].anio, MESES[m], rows[i].meses[m])
  {
    MeltMonthsAt(MESES, rows, MONTHS, m, i);
  }

  /** Every melted point names one of the month columns. */
  lemma {:induction false} MeltMonthsNames(names: seq<string>, rows: seq<Monthly>, n: nat)
    requires |names| == MONTHS && n <= MONTHS
    requires AllMonthly(rows)
    ensures forall k :: 0 <= k < |MeltMonths(names, rows, n)| ==> MeltMonths(names, rows, n)[k].mes in names
  {
    if n > 0 {
      MeltMonthsNames(names, rows, n - 1);
      var before: seq<Point> := MeltMonths(names, rows, n - 1);
      var month: seq<Point> := MeltMonth(names, rows, n - 1);
      var all: seq<Point> := before + month;
      forall k: int | 0 <= k < |all| ensures all[k].mes in names {
        if k >= |before| {
          assert all[k] == month[k - |before|];
        }
      }
    }
  }

  // ---------------------------------------------------------------------
  // The historical means for November and December
  // ---------------------------------------------------------------------

  /** `long[(long['Mes'] == mes) & (long['Año'] < 2024)]['Cantidad de Lluvia']`:
      the month's values before 2024, in frame order. */
  function History(points: seq<Point>, mes: string): (h: seq<Option<real>>)
    ensures |h| <= |points|
  {
    if points == [] then []
    else (if points[0].mes == mes && points[0].anio < LATE_YEAR then [points[0].lluvia] else [])
         + History(points[1..], mes)
  }

  lemma {:induction false} HistoryAppend(a: seq<Point>, b: seq<Point>, mes: string)
    ensures History(a + b, mes) == History(a, mes) + History(b, mes)
  {
    if a == [] {
      assert a + b == b;
    } else {
      assert (a + b)[1..] == a[1..] + b;
      HistoryAppend(a[1..], b, mes);
    }
  }

  /** Column m of the rows before 2024, in row order. */
  function ColumnHistory(rows: seq<Monthly>, m: nat): seq<Option<real>>
    requires m < MONTHS
    requires AllMonthly(rows)
  {
    if rows == [] then []
    else (if rows[0].anio < LATE_YEAR then [rows[0].meses[m]] else []) + ColumnHistory(rows[1..], m)
  }

  predicate Distinct(names: seq<string>) {
    forall i, j :: 0 <= i < j < |names| ==> names[i] != names[j]
  }

  /** Month m's own column, stacked, has month m's history. */
  lemma {:induction false} HistoryOfOwnMonth(names: seq<string>, rows: seq<Monthly>, m: nat)
    requires |names| == MONTHS && m < MONTHS
    requires AllMonthly(rows)
    ensures History(MeltMonth(names, rows, m), names[m]) == ColumnHistory(rows, m)
  {
    if rows != [] {
      var points := MeltMonth(names, rows, m);
      assert points[1..] == MeltMonth(names, rows[1..], m);
      HistoryOfOwnMonth(names, rows[1..], m);
    }
  }

  /** Another month's column contributes nothing to month m's history. */
  lemma {:induction false} HistoryOfOtherMonth(names: seq<string>, rows: seq<Monthly>, k: nat, m: nat)
    requires |names| == MONTHS && k < MONTHS && m < MONTHS && names[k] != names[m]
    requires AllMonthly(rows)
    ensures History(MeltMonth(names, rows, k), names[m]) == []
  {
    if rows != [] {
      var points := MeltMonth(names, rows, k);
      assert points[1..] == MeltMonth(names, rows[1..], k);
      HistoryOfOtherMonth(names, rows[1..], k, m);
    }
  }

  /** Months not yet stacked contribute nothing to month m's history. */
  lemma {:induction false} HistoryOfEarlierMonths(names: seq<string>, rows: seq<Monthly>, n: nat, m: nat)
    requires |names| == MONTHS && Distinct(names) && n <= m < MONTHS
    requires AllMonthly(rows)
    ensures History(MeltMonths(names, rows, n), names[m]) == []
  {
    if n > 0 {
      var before := MeltMonths(names, rows, n - 1);
      var month := MeltMonth(names, rows, n - 1);
      assert MeltMonths(names, rows, n) == before + month;
      HistoryOfEarlierMonths(names, rows, n - 1, m);
      HistoryAppend(before, month, names[m]);
      assert names[n - 1] != names[m];
      HistoryOfOtherMonth(names, rows, n - 1, m);
      assert History(before + month, names[m]) == [] + [];
    }
  }

  /** Once month m is stacked, the history of month m is its column; the
      months stacked after it add nothing. */
  lemma {:induction false} HistoryOfMeltMonths(names: seq<string>, rows: seq<Monthly>, n: nat, m: nat)
    requires |names| == MONTHS && Distinct(names) && m < n <= MONTHS
    requires AllMonthly(rows)
    ensures History(MeltMonths(names, rows, n), names[m]) == ColumnHistory(rows, m)
  {
    var before := MeltMonths(names, rows, n - 1);
    var month := MeltMonth(names, rows, n - 1);
    assert MeltMonths(names, rows, n) == before + month;
    HistoryAppend(before, month, names[m]);
    if m < n - 1 {
      HistoryOfMeltMonths(names, rows, n - 1, m);
      assert names[n - 1] != names[m];
      HistoryOfOtherMonth(names, rows, n - 1, m);
      assert ColumnHistory(rows, m) + [] == ColumnHistory(rows, m);
    } else {
      HistoryOfEarlierMonths(names, rows, n - 1, m);
      HistoryOfOwnMonth(names, rows, m);
      assert [] + ColumnHistory(rows, m) == ColumnHistory(rows, m);
    }
  }

  /** The month names are distinct. */
  lemma MonthNamesDistinct()
    ensures Distinct(MESES)
  {
    forall i, j | 0 <= i < j < MONTHS ensures MESES[i] != MESES[j] {
      MonthNumber(i);
      MonthNumber(j);
    }
  }

  /** Selecting a month of the long frame before 2024 gives back that month's
      column of the wide rows before 2024. */
  lemma HistoryOfMelt(rows: seq<Monthly>, m: nat)
    requires m < MONTHS
    requires AllMonthly(rows)
    ensures History(Melt(rows), MESES[m]) == ColumnHistory(rows, m)
  {
    MonthNamesDistinct();
    HistoryOfMeltMonths(MESES, rows, MONTHS, m);
  }

  /** The values that are not missing, in order. */
  function Present(vs: seq<Option<real>>): (xs: seq<real>)
    ensures |xs| <= |vs|
  {
    if vs == [] then []
    else (if vs[0].Some? then [vs[0].value] else []) + Present(vs[1..])
  }

  function Sum(xs: seq<real>): real {
    if xs == [] then 0.0 else xs[0] + Sum(xs[1..])
  }

  /** `Series.mean()`: missing values are skipped; with no value left the
      mean is missing. */
  function Mean(vs: seq<Option<real>>): (r: Option<real>)
    ensures r.None? <==> |Present(vs)| == 0
  {
    var xs := Present(vs);
    if |xs| == 0 then None else Some(Sum(xs) / |xs| as real)
  }

  lemma {:induction false} PresentWithin(vs: seq<Option<real>>, lo: real, hi: real)
    requires forall k :: 0 <= k < |vs| && vs[k].Some? ==> lo <= vs[k].value <= hi
    ensures forall k :: 0 <= k < |Present(vs)| ==> lo <= Present(vs)[k] <= hi
  {
    if vs != [] {
      PresentWithin(vs[1..], lo, hi);
      var head := if vs[0].Some? then [vs[0].value] else [];
      var xs := Present(vs);
      assert xs == head + Present(vs[1..]);
      forall k | 0 <= k < |xs| ensures lo <= xs[k] <= hi {
        if k >= |head| {
          assert xs[k] == Present(vs[1..])[k - |head|];
        }
      }
    }
  }

  lemma {:induction false} SumWithin(xs: seq<real>, lo: real, hi: real)
    requires forall k :: 0 <= k < |xs| ==> lo <= xs[k] <= hi
    ensures |xs| as real * lo <= Sum(xs) <= |xs| as real * hi
  {
    if xs != [] {
      SumWithin(xs[1..], lo, hi);
      assert lo <= xs[0] <= hi;
    }
  }

  lemma DivisionWithin(total: real, n: real, lo: real, hi: real)
    requires n > 0.0 && n * lo <= total <= n * hi
    ensures lo <= total / n <= hi
  {
  }

  /** The mean lies between the smallest and the largest value it averages. */
  lemma MeanWithin(vs: seq<Option<real>>, lo: real, hi: real)
    requires forall k :: 0 <= k < |vs| && vs[k].Some? ==> lo <= vs[k].value <= hi
    ensures Mean(vs).Some? ==> lo <= Mean(vs).value <= hi
  {
    var xs := Present(vs);
    if |xs| > 0 {
      PresentWithin(vs, lo, hi);
      SumWithin(xs, lo, hi);
      DivisionWithin(Sum(xs), |xs| as real, lo, hi);
    }
  }

  /** A month's history has no value exactly when every point of that month
      before 2024 is missing. */
  lemma {:induction false} HistoryAllMissing(points: seq<Point>, mes: string)
    ensures |Present(History(points, mes))| == 0 <==>
            forall i :: 0 <= i < |points| && points[i].mes == mes && points[i].anio < LATE_YEAR ==>
              points[i].lluvia.None?
    decreases |points|
  {
    if points != [] {
      var p := points[0];
      var tail := History(points[1..], mes);
      HistoryAllMissing(points[1..], mes);
      if p.mes == mes && p.anio < LATE_YEAR {
        var h := [p.lluvia] + tail;
        assert History(points, mes) == h;
        assert h[0] == p.lluvia && h[1..] == tail;
        assert Present(h) == (if p.lluvia.Some? then [p.lluvia.value] else []) + Present(tail);
      } else {
        assert History(points, mes) == [] + tail == tail;
      }
      forall i | 1 <= i < |points| ensures points[i] == points[1..][i - 1] { }
    }
  }

  /** The two points added for 2024: November and December at their
      historical means of the long frame; a mean is missing exactly when the
      month has no value before 2024. */
  function Averages(long: seq<Point>): (avg: seq<Point>)
    ensures |avg| == 2
    ensures avg[0].anio == LATE_YEAR && avg[0].mes == MESES[NOV]
    ensures avg[1].anio == LATE_YEAR && avg[1].mes == MESES[DIC]
    ensures forall j :: 0 <= j < 2 ==>
              (avg[j].lluvia.None? <==>
                 forall i :: 0 <= i < |long| && long[i].mes == avg[j].mes && long[i].anio < LATE_YEAR ==>
                   long[i].lluvia.None?)
  {
    HistoryAllMissing(long, MESES[NOV]);
    HistoryAllMissing(long, MESES[DIC]);
    [Point(LATE_YEAR, MESES[NOV], Mean(History(long, MESES[NOV]))),
     Point(LATE_YEAR, MESES[DIC], Mean(History(long, MESES[DIC])))]
  }

  /** The ten provisional 2024 points, Ene..Oct. */
  function Provisional(): (points: seq<Point>)
    ensures |points| == PROVISIONAL_MONTHS
    ensures forall i :: 0 <= i < PROVISIONAL_MONTHS ==>
              points[i] == Point(LATE_YEAR, MESES[i], Some(PROVISIONAL_2024[i]))
  {
    seq(PROVISIONAL_MONTHS, i requires 0 <= i < PROVISIONAL_MONTHS =>
      Point(LATE_YEAR, MESES[i], Some(PROVISIONAL_2024[i])))
  }

  /** The long frame before numbering: the melted state rows, the two
      averages, then the provisional points; every point names a month. */
  function Long(df: seq<Record>): (long: seq<Point>)
    requires forall k :: 0 <= k < |df| ==> HasAllColumns(df[k])
    ensures forall k :: 0 <= k < |long| ==> long[k].mes in MESES
  {
    var rows := DropColumns(SelectRegion(df));
    var melted := Melt(rows);
    var long: seq<Point> := melted + Averages(melted) + Provisional();
    assert forall k :: 0 <= k < |long| ==> long[k].mes in MESES by {
      MeltMonthsNames(MESES, rows, MONTHS);
      forall k: int | 0 <= k < |long| ensures long[k].mes in MESES {
        if k < |melted| {
          assert long[k] == melted[k];
        } else if k < |melted| + 2 {
          assert long[k] == Averages(melted)[k - |melted|];
        } else {
          assert long[k] == Provisional()[k - |melted| - 2];
        }
      }
    }
    long
  }

  /** The appended averages are the means of the state's November and
      December values before 2024, missing values skipped. */
  lemma AveragesOfColumns(df: seq<Record>)
    requires forall k :: 0 <= k < |df| ==> HasAllColumns(df[k])
    ensures var rows := DropColumns(SelectRegion(df));
            && Long(df) == Melt(rows) + Averages(Melt(rows)) + Provisional()
            && Averages(Melt(rows)) == [Point(LATE_YEAR, "Nov", Mean(ColumnHistory(rows, NOV))),
                                        Point(LATE_YEAR, "Dic", Mean(ColumnHistory(rows, DIC)))]
  {
    var rows := DropColumns(SelectRegion(df));
    HistoryOfMelt(rows, NOV);
    HistoryOfMelt(rows, DIC);
  }

  // ---------------------------------------------------------------------
  // Month numbers and the sort
  // ---------------------------------------------------------------------

  /** The month names are exactly the keys of `meses_numericos`. */
  lemma MonthNamesNumbered(mes: string)
    ensures mes in MESES <==> mes in MESES_NUMERICOS
  {
    if mes in MESES {
      var m :| 0 <= m < MONTHS && MESES[m] == mes;
      MonthNumber(m);
    }
  }

  /** A point and its month number. */
  function Number(p: Point): (q: NumberedPoint)
    requires p.mes in MESES
    ensures q.mesNum == MESES_NUMERICOS[p.mes]
  {
    MonthNamesNumbered(p.mes);
    NumberedPoint(p.anio, p.mes, p.lluvia, MESES_NUMERICOS[p.mes])
  }

  /** `long['Mes_Num'] = long['Mes'].map(meses_numericos)` */
  function Numbered(points: seq<Point>): (out: seq<NumberedPoint>)
    requires forall k :: 0 <= k < |points| ==> points[k].mes in MESES
    ensures |out| == |points|
    ensures forall k :: 0 <= k < |points| ==> out[k] == Number(points[k])
  {
    seq(|points|, k requires 0 <= k < |points| => Number(points[k]))
  }

  /** a's (Año, Mes_Num) is at most b's, lexicographically. */
  predicate KeyLe(a: NumberedPoint, b: NumberedPoint) {
    a.anio < b.anio || (a.anio == b.anio && a.mesNum <= b.mesNum)
  }

  predicate HasKey(p: NumberedPoint, anio: int, mesNum: int) {
    p.anio == anio && p.mesNum == mesNum
  }

  predicate SortedByKey(s: seq<NumberedPoint>) {
    forall i, j :: 0 <= i < j < |s| ==> KeyLe(s[i], s[j])
  }

  /** Inserts x before the first element whose key is not below x's. */
  function Insert(x: NumberedPoint, s: seq<NumberedPoint>): (r: seq<NumberedPoint>)
    ensures |r| == |s| + 1
  {
    if s == [] then [x]
    else if KeyLe(x, s[0]) then [x] + s
    else [s[0]] + Insert(x, s[1..])
  }

  /** `sort_values(['Año', 'Mes_Num'])`, a stable sort on the two keys. */
  function SortByKey(s: seq<NumberedPoint>): (sorted: seq<NumberedPoint>)
    ensures |sorted| == |s|
  {
    if s == [] then [] else Insert(s[0], SortByKey(s[1..]))
  }

  /** The points with the given key, in order. */
  function WithKey(s: seq<NumberedPoint>, anio: int, mesNum: int): seq<NumberedPoint> {
    if s == [] then []
    else (if HasKey(s[0], anio, mesNum) then [s[0]] else []) + WithKey(s[1..], anio, mesNum)
  }

  lemma {:induction false} InsertPermutes(x: NumberedPoint, s: seq<NumberedPoint>)
    ensures multiset(Insert(x, s)) == multiset(s) + multiset{x}
  {
    if s != [] && !KeyLe(x, s[0]) {
      InsertPermutes(x, s[1..]);
      assert s == [s[0]] + s[1..];
    }
  }

  /** A lower bound of x and of every element of s bounds Insert(x, s). */
  lemma {:induction false} InsertKeepsLowerBound(x: NumberedPoint, s: seq<NumberedPoint>, y: NumberedPoint)
    requires KeyLe(y, x)
    requires forall k :: 0 <= k < |s| ==> KeyLe(y, s[k])
    ensures forall k :: 0 <= k < |Insert(x, s)| ==> KeyLe(y, Insert(x, s)[k])
  {
    if s != [] && !KeyLe(x, s[0]) {
      var rest := s[1..];
      assert forall k :: 0 <= k < |rest| ==> KeyLe(y, rest[k]) by {
        forall k | 0 <= k < |rest| ensures KeyLe(y, rest[k]) {
          assert rest[k] == s[k + 1];
        }
      }
      InsertKeepsLowerBound(x, rest, y);
      var out: seq<NumberedPoint> := [s[0]] + Insert(x, rest);
      forall k: int | 0 < k < |out| ensures KeyLe(y, out[k]) {
        assert out[k] == Insert(x, rest)[k - 1];
      }
    }
  }

  lemma {:induction false} InsertSorted(x: NumberedPoint, s: seq<NumberedPoint>)
    requires SortedByKey(s)
    ensures SortedByKey(Insert(x, s))
  {
    if s != [] && !KeyLe(x, s[0]) {
      var rest := s[1..];
      assert SortedByKey(rest) by {
        forall i, j | 0 <= i < j < |rest| ensures KeyLe(rest[i], rest[j]) {
          assert rest[i] == s[i + 1] && rest[j] == s[j + 1];
        }
      }
      assert forall k :: 0 <= k < |rest| ==> KeyLe(s[0], rest[k]) by {
        forall k | 0 <= k < |rest| ensures KeyLe(s[0], rest[k]) {
          assert rest[k] == s[k + 1];
        }
      }
      InsertSorted(x, rest);
      InsertKeepsLowerBound(x, rest, s[0]);
      var tail := Insert(x, rest);
      var out: seq<NumberedPoint> := [s[0]] + tail;
      forall i: int, j: int | 0 <= i < j < |out| ensures KeyLe(out[i], out[j]) {
        assert out[j] == tail[j - 1];
        if i > 0 {
          assert out[i] == tail[i - 1];
        }
      }
    }
  }

  lemma WithKeyCons(y: NumberedPoint, t: seq<NumberedPoint>, anio: int, mesNum: int)
    ensures WithKey([y] + t, anio, mesNum) ==
            (if HasKey(y, anio, mesNum) then [y] else []) + WithKey(t, anio, mesNum)
  {
    assert ([y] + t)[1..] == t;
  }

  /** Inserting adds x to its key's points in front and leaves every other
      key's points alone; this holds whether or not s is sorted. */
  lemma {:induction false} WithKeyInsert(x: NumberedPoint, s: seq<NumberedPoint>, anio: int, mesNum: int)
    ensures WithKey(Insert(x, s), anio, mesNum) ==
            (if HasKey(x, anio, mesNum) then [x] else []) + WithKey(s, anio, mesNum)
  {
    if s == [] {
      WithKeyCons(x, [], anio, mesNum);
    } else if KeyLe(x, s[0]) {
      WithKeyCons(x, s, anio, mesNum);
    } else {
      var rest := s[1..];
      assert s == [s[0]] + rest;
      WithKeyInsert(x, rest, anio, mesNum);
      WithKeyCons(s[0], Insert(x, rest), anio, mesNum);
      WithKeyCons(s[0], rest, anio, mesNum);
      var hx := if HasKey(x, anio, mesNum) then [x] else [];
      var h0 := if HasKey(s[0], anio, mesNum) then [s[0]] else [];
      assert Insert(x, s) == [s[0]] + Insert(x, rest);
      assert h0 + (hx + WithKey(rest, anio, mesNum)) == hx + (h0 + WithKey(rest, anio, mesNum)) by {
        if HasKey(x, anio, mesNum) && HasKey(s[0], anio, mesNum) {
          assert false;
        }
      }
    }
  }

  lemma {:induction false} SortPermutes(s: seq<NumberedPoint>)
    ensures multiset(SortByKey(s)) == multiset(s)
  {
    if s != [] {
      SortPermutes(s[1..]);
      InsertPermutes(s[0], SortByKey(s[1..]));
      assert s == [s[0]] + s[1..];
    }
  }

  lemma {:induction false} SortSorts(s: seq<NumberedPoint>)
    ensures SortedByKey(SortByKey(s))
  {
    if s != [] {
      SortSorts(s[1..]);
      InsertSorted(s[0], SortByKey(s[1..]));
    }
  }

  /** The sort is stable: the points sharing a key keep their order. */
  lemma {:induction false} SortIsStable(s: seq<NumberedPoint>, anio: int, mesNum: int)
    ensures WithKey(SortByKey(s), anio, mesNum) == WithKey(s, anio, mesNum)
  {
    if s != [] {
      SortIsStable(s[1..], anio, mesNum);
      WithKeyInsert(s[0], SortByKey(s[1..]), anio, mesNum);
    }
  }

  // ---------------------------------------------------------------------
  // The series
  // ---------------------------------------------------------------------

  /** `df_CDMX_long` as the dashboard receives it. */
  function CdmxSeries(df: seq<Record>): (series: seq<NumberedPoint>)
    requires forall k :: 0 <= k < |df| ==> HasAllColumns(df[k])
    ensures SortedByKey(series) && |series| == |Long(df)|
  {
    SortSorts(Numbered(Long(df)));
    SortByKey(Numbered(Long(df)))
  }

  /** The series is ordered by year, then by month number; it holds the
      same points as the long frame, every key's points in their original
      order; and it has twelve points per state record plus twelve for 2024. */
  lemma SeriesIsSortedLong(df: seq<Record>)
    requires forall k :: 0 <= k < |df| ==> HasAllColumns(df[k])
    ensures var series := CdmxSeries(df);
            var numbered := Numbered(Long(df));
            && SortedByKey(series)
            && multiset(series) == multiset(numbered)
            && |series| == MONTHS * |SelectRegion(df)| + 2 + PROVISIONAL_MONTHS
            && (forall anio, mesNum :: WithKey(series, anio, mesNum) == WithKey(numbered, anio, mesNum))
  {
    var numbered := Numbered(Long(df));
    SortSorts(numbered);
    SortPermutes(numbered);
    forall anio, mesNum ensures WithKey(SortByKey(numbered), anio, mesNum) == WithKey(numbered, anio, mesNum) {
      SortIsStable(numbered, anio, mesNum);
    }
    assert |SortByKey(numbered)| == |multiset(numbered)|;
  }

  /** Point k of the long frame, numbered, is in the series. */
  lemma LongInSeries(df: seq<Record>, p: Point)
    requires forall i :: 0 <= i < |df| ==> HasAllColumns(df[i])
    requires p in Long(df)
    ensures p.mes in MESES && Number(p) in CdmxSeries(df)
  {
    var long := Long(df);
    var k :| 0 <= k < |long| && long[k] == p;
    var numbered := Numbered(long);
    SortPermutes(numbered);
    assert numbered[k] in multiset(numbered);
    assert numbered[k] in multiset(CdmxSeries(df));
  }

  /** The selected records keep all their columns. */
  lemma SelectRegionKeepsColumns(df: seq<Record>, k: nat)
    requires forall i :: 0 <= i < |df| ==> HasAllColumns(df[i])
    requires k < |SelectRegion(df)|
    ensures HasAllColumns(SelectRegion(df)[k])
  {
    var r := SelectRegion(df)[k];
    assert r in df;
    var i :| 0 <= i < |df| && df[i] == r;
  }

  /** The long frame starts with the melted state rows. */
  lemma LongStartsWithMelt(df: seq<Record>, i: nat)
    requires forall k :: 0 <= k < |df| ==> HasAllColumns(df[k])
    requires i < |Melt(DropColumns(SelectRegion(df)))|
    ensures i < |Long(df)| && Long(df)[i] == Melt(DropColumns(SelectRegion(df)))[i]
  {
    var melted := Melt(DropColumns(SelectRegion(df)));
    var rest := Averages(melted) + Provisional();
    assert Long(df) == melted + rest;
  }

  /** Month m of the k-th record of the state is a point of the long frame. */
  lemma RecordInLong(df: seq<Record>, k: nat, m: nat)
    requires forall i :: 0 <= i < |df| ==> HasAllColumns(df[i])
    requires k < |SelectRegion(df)| && m < MONTHS
    ensures var r := SelectRegion(df)[k];
            && |r.valores| == VALUE_COUNT
            && Point(r.anio, MESES[m], r.valores[m]) in Long(df)
  {
    var cdmx := SelectRegion(df);
    SelectRegionKeepsColumns(df, k);
    var rows := DropColumns(cdmx);
    DropColumnsKeepsMonths(cdmx, k, m);
    MeltAt(rows, m, k);
    var i := m * |rows| + k;
    LongStartsWithMelt(df, i);
    assert Long(df)[i] == Point(cdmx[k].anio, MESES[m], cdmx[k].valores[m]);
  }

  /** Every month of every state record appears in the series with its
      value and month number. */
  lemma RecordInSeries(df: seq<Record>, k: nat, m: nat)
    requires forall i :: 0 <= i < |df| ==> HasAllColumns(df[i])
    requires k < |SelectRegion(df)| && m < MONTHS
    ensures var r := SelectRegion(df)[k];
            && |r.valores| == VALUE_COUNT
            && NumberedPoint(r.anio, MESES[m], r.valores[m], m + 1) in CdmxSeries(df)
  {
    RecordInLong(df, k, m);
    var r := SelectRegion(df)[k];
    LongInSeries(df, Point(r.anio, MESES[m], r.valores[m]));
    MonthNumber(m);
  }

  /** The provisional 2024 figures appear in the series. */
  lemma ProvisionalInSeries(df: seq<Record>, i: nat)
    requires forall k :: 0 <= k < |df| ==> HasAllColumns(df[k])
    requires i < PROVISIONAL_MONTHS
    ensures NumberedPoint(LATE_YEAR, MESES[i], Some(PROVISIONAL_2024[i]), i + 1) in CdmxSeries(df)
  {
    var p := Point(LATE_YEAR, MESES[i], Some(PROVISIONAL_2024[i]));
    assert p == Provisional()[i];
    LongInSeries(df, p);
    MonthNumber(i);
  }

  /** The November and December averages appear in the series. */
  lemma AveragesInSeries(df: seq<Record>)
    requires forall k :: 0 <= k < |df| ==> HasAllColumns(df[k])
    ensures var rows := DropColumns(SelectRegion(df));
            && NumberedPoint(LATE_YEAR, "Nov", Mean(ColumnHistory(rows, NOV)), 11) in CdmxSeries(df)
            && NumberedPoint(LATE_YEAR, "Dic", Mean(ColumnHistory(rows, DIC)), 12) in CdmxSeries(df)
  {
    var rows := DropColumns(SelectRegion(df));
    var averages := Averages(Melt(rows));
    AveragesOfColumns(df);
    LongInSeries(df, averages[0]);
    LongInSeries(df, averages[1]);
    MonthNumber(NOV);
    MonthNumber(DIC);
  }

  lemma {:induction false} WithKeyHasOne(s: seq<NumberedPoint>, anio: int, mesNum: int, i: nat)
    requires i < |s| && HasKey(s[i], anio, mesNum)
    ensures |WithKey(s, anio, mesNum)| >= 1
  {
    if i > 0 {
      WithKeyHasOne(s[1..], anio, mesNum, i - 1);
    }
  }

  /** Two positions holding the same key give that key two points. */
  lemma {:induction false} WithKeyHasTwo(s: seq<NumberedPoint>, anio: int, mesNum: int, i: nat, j: nat)
    requires i < j < |s| && HasKey(s[i], anio, mesNum) && HasKey(s[j], anio, mesNum)
    ensures |WithKey(s, anio, mesNum)| >= 2
  {
    if i == 0 {
      WithKeyHasOne(s[1..], anio, mesNum, j - 1);
    } else {
      WithKeyHasTwo(s[1..], anio, mesNum, i - 1, j - 1);
    }
  }

  /** When the frame holds a 2024 record of the state, November 2024 appears
      twice in the series: the record's own (blanked) cell and the appended
      average. The appends never replace a point. */
  lemma LateNovemberRepeats(df: seq<Record>, k: nat)
    requires forall i :: 0 <= i < |df| ==> HasAllColumns(df[i])
    requires k < |SelectRegion(df)| && SelectRegion(df)[k].anio == LATE_YEAR
    ensures |WithKey(CdmxSeries(df), LATE_YEAR, NOV + 1)| >= 2
  {
    var cdmx := SelectRegion(df);
    var rows := DropColumns(cdmx);
    var melted := Melt(rows);
    SelectRegionKeepsColumns(df, k);
    DropColumnsKeepsMonths(cdmx, k, NOV);
    MeltAt(rows, NOV, k);
    var i := NOV * |rows| + k;
    LongStartsWithMelt(df, i);
    AveragesOfColumns(df);
    var long := Long(df);
    var j := |melted|;
    assert long[j] == Averages(melted)[0];
    var numbered := Numbered(long);
    MonthNumber(NOV);
    assert HasKey(numbered[i], LATE_YEAR, NOV + 1);
    assert HasKey(numbered[j], LATE_YEAR, NOV + 1);
    WithKeyHasTwo(numbered, LATE_YEAR, NOV + 1, i, j);
    SortIsStable(numbered, LATE_YEAR, NOV + 1);
  }
}
