/**
 * The 24-month report: the results of the month fetches collected into `monthly_data`,
 * keyed by label, and the year-over-year join that turns them into report rows.
 */
module Trend {
  import opened Wrappers
  import opened Text
  import opened Numeric
  import opened Sessions
  import opened Aggregation
  import opened Calendar

  /** What the history service gave back for one month's window. */
  datatype FetchOutcome = Fetched(response: Response) | FetchFailed

  /** `analyze_month` of a fetched month; nothing for a failed fetch. */
  function MonthOutcome(f: FetchOutcome): Option<MonthResult> {
    match f
    case FetchFailed => None
    case Fetched(response) => AnalyzeMonth(response)
  }

  function Outcomes(fetched: seq<FetchOutcome>): (outcomes: seq<Option<MonthResult>>)
    ensures |outcomes| == |fetched|
    ensures forall i :: 0 <= i < |fetched| ==> outcomes[i] == MonthOutcome(fetched[i])
    ensures forall i :: 0 <= i < |fetched| && fetched[i].FetchFailed? ==> outcomes[i].None?
  {
    seq(|fetched|, i requires 0 <= i < |fetched| => MonthOutcome(fetched[i]))
  }

  /** `monthly_data` after the fetch loop: each month with a result stored under its label. */
  function MonthlyData(months: seq<MonthEntry>, outcomes: seq<Option<MonthResult>>): (data: map<string, MonthResult>)
    requires |outcomes| == |months|
  {
    if months == [] then map[]
    else
      var n := |months| - 1;
      var data := MonthlyData(months[..n], outcomes[..n]);
      if outcomes[n].Some? then data[months[n].monthLabel := outcomes[n].value] else data
  }

  /** Every key of `monthly_data` is the label of a month that had a result. */
  lemma {:induction false} MonthlyDataKeys(months: seq<MonthEntry>, outcomes: seq<Option<MonthResult>>, l: string)
    requires |outcomes| == |months|
    requires l in MonthlyData(months, outcomes)
    ensures exists k :: 0 <= k < |months| && months[k].monthLabel == l && outcomes[k].Some?
  {
    var n := |months| - 1;
    if !(outcomes[n].Some? && months[n].monthLabel == l) {
      MonthlyDataKeys(months[..n], outcomes[..n], l);
      var k :| 0 <= k < n && months[..n][k].monthLabel == l && outcomes[..n][k].Some?;
      assert months[k].monthLabel == l && outcomes[k].Some?;
    }
  }

  /** The fetch loop of the monthly report and the web export, with the fetches as input. */
  method CollectMonthlyData(months: seq<MonthEntry>, fetched: seq<FetchOutcome>)
    returns (data: map<string, MonthResult>)
    requires |fetched| == |months|
    ensures data == MonthlyData(months, Outcomes(fetched))
  {
    data := map[];
    for k := 0 to |months|
      invariant data == MonthlyData(months[..k], Outcomes(fetched)[..k])
    {
      ghost var outcomes := Outcomes(fetched);
      assert months[..k + 1][..k] == months[..k] && outcomes[..k + 1][..k] == outcomes[..k];
      match fetched[k]
      case FetchFailed =>
      case Fetched(response) =>
        var result := AnalyzeMonth(response);
        if result.Some? {
          data := data[months[k].monthLabel := result.value];
        }
    }
    assert months[..|months|] == months && Outcomes(fetched)[..|fetched|] == Outcomes(fetched);
  }

  /** Labels that tell the listed months apart. */
  ghost predicate DistinctLabels(months: seq<MonthEntry>) {
    forall j, k :: 0 <= j < k < |months| ==> months[j].monthLabel != months[k].monthLabel
  }

  /**
   * With distinct labels each month stands alone: its label is in `monthly_data` exactly
   * when its own fetch produced a result, and then it maps to that result. A failed fetch
   * drops its month and nothing else.
   */
  lemma {:induction false} MonthlyDataAt(months: seq<MonthEntry>, outcomes: seq<Option<MonthResult>>, k: int)
    requires |outcomes| == |months| && DistinctLabels(months) && 0 <= k < |months|
    ensures var data := MonthlyData(months, outcomes);
      && (months[k].monthLabel in data <==> outcomes[k].Some?)
      && (outcomes[k].Some? ==> data[months[k].monthLabel] == outcomes[k].value)
  {
    var n := |months| - 1;
    var prefix := MonthlyData(months[..n], outcomes[..n]);
    if k < n {
      assert DistinctLabels(months[..n]);
      MonthlyDataAt(months[..n], outcomes[..n], k);
      assert months[k].monthLabel != months[n].monthLabel;
    } else if outcomes[n].None? && months[n].monthLabel in prefix {
      MonthlyDataKeys(months[..n], outcomes[..n], months[n].monthLabel);
    }
  }

  /** `f"{year-1-2000:02d}-{month:02d}"`: the label the join looks up for a year earlier. */
  function PriorYearLabel(m: MonthEntry): string {
    ZeroPad2(m.year - 1 - 2000) + "-" + ZeroPad2(m.month)
  }

  /** From 2001 to 2100 the looked-up label is the `%y-%m` label of the same month a year earlier. */
  lemma PriorYearLabelIsLabel(m: MonthEntry)
    requires 2001 <= m.year <= 2100
    ensures PriorYearLabel(m) == Label(YearMonth(m.year - 1, m.month))
  {
  }

  /**
   * The year-over-year change in percent, before rounding: absent when the prior-year
   * label is missing or its kWh is not positive, so "no comparison" is never 0%.
   */
  function YearOverYear(m: MonthEntry, data: map<string, MonthResult>): (yoy: Option<real>)
    requires m.monthLabel in data
    ensures yoy.Some? <==> PriorYearLabel(m) in data && data[PriorYearLabel(m)].kwh > 0.0
    ensures yoy.Some? ==>
      && (yoy.value > 0.0 <==> data[m.monthLabel].kwh > data[PriorYearLabel(m)].kwh)
      && (yoy.value == 0.0 <==> data[m.monthLabel].kwh == data[PriorYearLabel(m)].kwh)
      && data[m.monthLabel].kwh == data[PriorYearLabel(m)].kwh * (1.0 + yoy.value / 100.0)
  {
    var prior := PriorYearLabel(m);
    if prior in data && data[prior].kwh > 0.0 then
      var current, before := data[m.monthLabel].kwh, data[prior].kwh;
      var pct := (current - before) / before * 100.0;
      assert pct / 100.0 == (current - before) / before;
      Some(pct)
    else None
  }

  /** One row of the web export; the text report prints the same figures. */
  datatype Row = Row(date: string, kwh: real, cost: real, odo: real, costPerKwh: real, yoy: Option<real>)

  function RowFor(m: MonthEntry, data: map<string, MonthResult>): Row
    requires m.monthLabel in data
  {
    var result := data[m.monthLabel];
    var yoy := YearOverYear(m, data);
    Row(m.monthLabel, result.kwh, result.cost, result.odo, result.costPerKwh,
        if yoy.Some? then Some(Round(yoy.value, 0)) else None)
  }

  /** The rows of the join: the months with data, in month-list order. */
  function Rows(months: seq<MonthEntry>, data: map<string, MonthResult>): (rows: seq<Row>)
    ensures |rows| <= |months|
    ensures forall i :: 0 <= i < |rows| ==> rows[i].date in data
  {
    if months == [] then []
    else
      var rest := Rows(months[1..], data);
      if months[0].monthLabel in data then [RowFor(months[0], data)] + rest else rest
  }

  /** The rows keep month order: the rows of a longer list extend those of its prefix. */
  lemma {:induction false} RowsConcat(a: seq<MonthEntry>, b: seq<MonthEntry>, data: map<string, MonthResult>)
    ensures Rows(a + b, data) == Rows(a, data) + Rows(b, data)
  {
    if a == [] {
      assert a + b == b;
    } else {
      assert (a + b)[1..] == a[1..] + b;
      RowsConcat(a[1..], b, data);
    }
  }

  lemma RowsSnoc(months: seq<MonthEntry>, m: MonthEntry, data: map<string, MonthResult>)
    ensures Rows(months + [m], data)
         == Rows(months, data) + (if m.monthLabel in data then [RowFor(m, data)] else [])
  {
    RowsConcat(months, [m], data);
    assert [m][1..] == [];
  }

  /**
   * A row carries its month's figures, and a Y/Y figure exactly when the join has one,
   * rounded to a whole percent.
   */
  lemma RowForFields(m: MonthEntry, data: map<string, MonthResult>)
    requires m.monthLabel in data
    ensures var row, result := RowFor(m, data), data[m.monthLabel];
      && row.date == m.monthLabel
      && row.kwh == result.kwh && row.cost == result.cost && row.odo == result.odo
      && row.costPerKwh == result.costPerKwh
      && (row.yoy.Some? <==> YearOverYear(m, data).Some?)
      && (row.yoy.Some? ==>
            -HalfUnit(0) <= row.yoy.value - YearOverYear(m, data).value <= HalfUnit(0))
  {
  }

  /** The body of the Y/Y loop for a month with data: its figures and its rounded Y/Y. */
  method MonthRow(m: MonthEntry, data: map<string, MonthResult>) returns (row: Row)
    requires m.monthLabel in data
    ensures row == RowFor(m, data)
  {
    var result := data[m.monthLabel];
    var priorYearLabel := PriorYearLabel(m);
    var yoy: Option<real> := None;
    if priorYearLabel in data {
      var priorKwh := data[priorYearLabel].kwh;
      if priorKwh > 0.0 {
        var pctChange := (result.kwh - priorKwh) / priorKwh * 100.0;
        yoy := Some(Round(pctChange, 0));
        assert YearOverYear(m, data) == Some(pctChange);
      }
    }
    row := Row(m.monthLabel, result.kwh, result.cost, result.odo, result.costPerKwh, yoy);
  }

  /** The Y/Y loop of the web export: months without data are skipped. */
  method YearOverYearRows(months: seq<MonthEntry>, data: map<string, MonthResult>) returns (rows: seq<Row>)
    ensures rows == Rows(months, data)
  {
    rows := [];
    for k := 0 to |months|
      invariant rows == Rows(months[..k], data)
    {
      var m := months[k];
      assert months[..k + 1] == months[..k] + [m];
      RowsSnoc(months[..k], m, data);
      if m.monthLabel in data {
        var row := MonthRow(m, data);
        rows := rows + [row];
      }
      assert rows == Rows(months[..k] + [m], data);
    }
    assert months[..|months|] == months;
  }

  /**
   * Over the 24 trailing months (years 2001 to 2100), a month has a Y/Y figure exactly
   * when the entry twelve places earlier in the list had a result with positive kWh; the
   * first twelve months never have one.
   */
  lemma YearOverYearLooksTwelveBack(today: Date, outcomes: seq<Option<MonthResult>>, k: int)
    requires CanLookBack(today) && 2003 <= today.year <= 2100
    requires |outcomes| == WindowCount && 0 <= k < WindowCount
    requires TrailingMonths(today)[k].monthLabel in MonthlyData(TrailingMonths(today), outcomes)
    ensures var ms := TrailingMonths(today);
      var data := MonthlyData(ms, outcomes);
      YearOverYear(ms[k], data).Some? <==>
        k >= 12 && outcomes[k - 12].Some? && outcomes[k - 12].value.kwh > 0.0
  {
    var ms := TrailingMonths(today);
    var data := MonthlyData(ms, outcomes);
    TrailingLabelsDistinct(today);
    var e := ms[k];
    var prior := YearMonth(e.year - 1, e.month);
    assert MonthIndex(prior) == MonthIndex(YearMonthOf(e)) - 12;
    PriorYearLabelIsLabel(e);
    if k >= 12 {
      assert YearMonthOf(ms[k - 12]) == prior;
      MonthlyDataAt(ms, outcomes, k - 12);
    } else if PriorYearLabel(e) in data {
      MonthlyDataKeys(ms, outcomes, PriorYearLabel(e));
      var j :| 0 <= j < |ms| && ms[j].monthLabel == PriorYearLabel(e);
      LabelInjective(YearMonthOf(ms[j]), prior);
    }
  }

  /** January 2025 as the month loop builds it. */
  const January2025: MonthEntry := MonthEntry(2025, 1, Date(2025, 1, 1), Date(2025, 1, 31), "25-01")

  lemma TwoDigitFields()
    ensures ZeroPad2(24) == "24" && ZeroPad2(25) == "25" && ZeroPad2(1) == "01"
  {
    assert DigitChar(2) == '2' && DigitChar(4) == '4' && DigitChar(5) == '5' && DigitChar(1) == '1';
    assert NatToString(2) == "2";
    assert NatToString(25) == "25" && NatToString(24) == "24";
  }

  /** `%y-%m` of January 2025 and of January 2024. */
  lemma JanuaryLabelStrings()
    ensures Label(YearMonth(2025, 1)) == "25-01" && Label(YearMonth(2024, 1)) == "24-01"
  {
    TwoDigitFields();
    assert 2025 % 100 == 25 && 2024 % 100 == 24;
    assert Label(YearMonth(2025, 1)) == ZeroPad2(25) + "-" + ZeroPad2(1);
    assert Label(YearMonth(2024, 1)) == ZeroPad2(24) + "-" + ZeroPad2(1);
  }

  /** The month loop's January 2025 entry. */
  lemma JanuaryEntry()
    ensures EntryFor(YearMonth(2025, 1)) == January2025
  {
    JanuaryLabelStrings();
    var ym := YearMonth(2025, 1);
    assert HasNextMonth(ym);
    assert EntryFor(ym) == MonthEntry(2025, 1, Date(2025, 1, 1), Date(2025, 1, DaysInMonth(2025, 1)), Label(ym));
    assert DaysInMonth(2025, 1) == 31;
  }

  /** The month loop's January 2025 entry, and the prior-year label it looks up. */
  lemma JanuaryLabels()
    ensures EntryFor(YearMonth(2025, 1)) == January2025
    ensures PriorYearLabel(January2025) == "24-01" == Label(YearMonth(2024, 1))
  {
    JanuaryEntry();
    JanuaryLabelStrings();
    TwoDigitFields();
    assert January2025.year - 1 - 2000 == 24 && January2025.month == 1;
    assert PriorYearLabel(January2025) == ZeroPad2(24) + "-" + ZeroPad2(1);
  }

  /** `25-01` against `24-01`: 150 kWh after 100 kWh is +50%; without `24-01` there is no figure. */
  lemma YearOverYearExample()
    ensures YearOverYear(January2025, map["24-01" := MonthResult(100.0, 0.0, 0.0, 0.0),
                                          "25-01" := MonthResult(150.0, 0.0, 0.0, 0.0)]) == Some(50.0)
    ensures YearOverYear(January2025, map["25-01" := MonthResult(150.0, 0.0, 0.0, 0.0)]) == None
  {
    JanuaryLabels();
  }
}
