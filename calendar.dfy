/**
 * Calendar windows: the last complete month, a named `YYYY-MM` month, and the trailing
 * 24 months with their `YY-MM` labels. "Today" is a parameter; dates follow Python's
 * `datetime.date` (proleptic Gregorian, years 1 to 9999).
 */
module Calendar {
  import opened Wrappers
  import opened Text

  datatype Date = Date(year: int, month: int, day: int)
  datatype YearMonth = YearMonth(year: int, month: int)

  /** An inclusive query window. */
  datatype Window = Window(first: Date, last: Date)

  const MinYear: int := 1
  const MaxYear: int := 9999

  predicate IsLeapYear(year: int) {
    year % 4 == 0 && (year % 100 != 0 || year % 400 == 0)
  }

  function DaysInMonth(year: int, month: int): (n: int)
    requires 1 <= month <= 12
    ensures 28 <= n <= 31
  {
    if month == 2 then (if IsLeapYear(year) then 29 else 28)
    else if month == 4 || month == 6 || month == 9 || month == 11 then 30
    else 31
  }

  /** What `date(year, month, day)` accepts. */
  predicate ValidDate(d: Date) {
    MinYear <= d.year <= MaxYear && 1 <= d.month <= 12 && 1 <= d.day <= DaysInMonth(d.year, d.month)
  }

  /** `d - relativedelta(days=1)`; the first representable date has no predecessor. */
  function PrevDay(d: Date): (p: Date)
    requires ValidDate(d) && d != Date(MinYear, 1, 1)
    ensures ValidDate(p)
    ensures d.day > 1 ==> p == Date(d.year, d.month, d.day - 1)
    ensures d.day == 1 ==>
      && p.day == DaysInMonth(p.year, p.month)
      && MonthIndex(MonthOf(p)) == MonthIndex(MonthOf(d)) - 1
  {
    if d.day > 1 then Date(d.year, d.month, d.day - 1)
    else if d.month > 1 then Date(d.year, d.month - 1, DaysInMonth(d.year, d.month - 1))
    else Date(d.year - 1, 12, 31)
  }

  function MonthOf(d: Date): YearMonth {
    YearMonth(d.year, d.month)
  }

  /** Months counted from January of year 0, so that consecutive months differ by one. */
  function MonthIndex(ym: YearMonth): int {
    ym.year * 12 + ym.month - 1
  }

  function MonthAt(k: int): (ym: YearMonth)
    ensures 1 <= ym.month <= 12 && MonthIndex(ym) == k
  {
    YearMonth(k / 12, k % 12 + 1)
  }

  lemma MonthAtIndex(ym: YearMonth)
    requires 1 <= ym.month <= 12
    ensures MonthAt(MonthIndex(ym)) == ym
  {
  }

  /** The first day of the following month, with December rolling over to January. */
  function FirstOfNextMonth(ym: YearMonth): Date {
    if ym.month == 12 then Date(ym.year + 1, 1, 1) else Date(ym.year, ym.month + 1, 1)
  }

  /** A month whose first day and whose following month's first day are both dates. */
  predicate HasNextMonth(ym: YearMonth) {
    ValidDate(Date(ym.year, ym.month, 1)) && ValidDate(FirstOfNextMonth(ym))
  }

  /** The last day of a month, as the first of the next month minus one day. */
  function LastDayOfMonth(ym: YearMonth): (d: Date)
    requires HasNextMonth(ym)
    ensures d == Date(ym.year, ym.month, DaysInMonth(ym.year, ym.month))
  {
    PrevDay(FirstOfNextMonth(ym))
  }

  /** `get_last_complete_month`: first through last day of the month before today's. */
  function LastCompleteMonth(today: Date): (w: Window)
    requires ValidDate(today) && MonthOf(today) != YearMonth(MinYear, 1)
    ensures today.month == 1 ==> w.first == Date(today.year - 1, 12, 1)
    ensures today.month > 1 ==> w.first == Date(today.year, today.month - 1, 1)
    ensures w.last == Date(w.first.year, w.first.month, DaysInMonth(w.first.year, w.first.month))
    ensures MonthIndex(MonthOf(w.first)) == MonthIndex(MonthOf(today)) - 1
  {
    var firstOfThisMonth := Date(today.year, today.month, 1);
    var lastOfLastMonth := PrevDay(firstOfThisMonth);
    Window(Date(lastOfLastMonth.year, lastOfLastMonth.month, 1), lastOfLastMonth)
  }

  datatype MonthError = InvalidMonthFormat

  /** `map(int, arg.split("-"))` unpacked into exactly a year and a month. */
  function ParseYearMonth(arg: string): (ym: Option<YearMonth>)
    ensures var parts := Split(arg, '-');
      ym.Some? <==> |parts| == 2 && ParseInt(parts[0]).Some? && ParseInt(parts[1]).Some?
    ensures ym.Some? ==>
      var parts := Split(arg, '-');
      ym.value == YearMonth(ParseInt(parts[0]).value, ParseInt(parts[1]).value)
  {
    var parts := Split(arg, '-');
    if |parts| != 2 then None
    else
      match (ParseInt(parts[0]), ParseInt(parts[1]))
      case (Some(year), Some(month)) => Some(YearMonth(year, month))
      case _ => None
  }

  /**
   * The `--month YYYY-MM` window: every `ValueError` of the parse, of `date(...)` or of the
   * following month's `date(...)` becomes `InvalidMonthFormat`. Integers are unbounded here,
   * so a year or month too large for C, which raises `OverflowError` instead, fails the same way.
   */
  function NamedMonthWindow(arg: string): (r: Result<Window, MonthError>)
    ensures ParseYearMonth(arg).None? ==> r.Failure?
    ensures ParseYearMonth(arg).Some? ==>
      var ym := ParseYearMonth(arg).value;
      && (!(1 <= ym.month <= 12) ==> r.Failure?)
      && (r.Success? <==> MinYear <= ym.year <= MaxYear && 1 <= ym.month <= 12
                          && !(ym.year == MaxYear && ym.month == 12))
    ensures r.Success? ==>
      && ValidDate(r.value.first)
      && r.value.first.day == 1
      && r.value.last == Date(r.value.first.year, r.value.first.month,
                              DaysInMonth(r.value.first.year, r.value.first.month))
      && MonthOf(r.value.first) == ParseYearMonth(arg).value
  {
    var parsed := ParseYearMonth(arg);
    if parsed.None? || !HasNextMonth(parsed.value) then Failure(InvalidMonthFormat)
    else
      var ym := parsed.value;
      Success(Window(Date(ym.year, ym.month, 1), LastDayOfMonth(ym)))
  }

  /** A `YYYY-MM` argument written the usual way parses to its year and month. */
  lemma ParseYearMonthOf(year: nat, month: nat)
    requires 1 <= month <= 12
    ensures ParseYearMonth(NatToString(year) + "-" + ZeroPad2(month)) == Some(YearMonth(year, month))
  {
    SplitOnce(NatToString(year), ZeroPad2(month), '-');
    ParseIntOfNatToString(year);
  }

  /** Every month from January of year 1 to November 9999 names its whole month. */
  lemma NamedMonthWindowOf(year: nat, month: nat)
    requires MinYear <= year <= MaxYear && 1 <= month <= 12 && !(year == MaxYear && month == 12)
    ensures NamedMonthWindow(NatToString(year) + "-" + ZeroPad2(month))
         == Success(Window(Date(year, month, 1), Date(year, month, DaysInMonth(year, month))))
  {
    ParseYearMonthOf(year, month);
  }

  /** Month ends: February has 29 days in 2024 and 2000, 28 in 2023 and 1900; December ends on the 31st. */
  lemma MonthEndExamples()
    ensures LastDayOfMonth(YearMonth(2024, 2)) == Date(2024, 2, 29)
    ensures LastDayOfMonth(YearMonth(2000, 2)) == Date(2000, 2, 29)
    ensures LastDayOfMonth(YearMonth(2023, 2)) == Date(2023, 2, 28)
    ensures LastDayOfMonth(YearMonth(1900, 2)) == Date(1900, 2, 28)
    ensures LastDayOfMonth(YearMonth(2024, 12)) == Date(2024, 12, 31)
  {
    assert 2024 % 4 == 0 && 2024 % 100 == 24;
    assert 2000 % 4 == 0 && 2000 % 400 == 0;
    assert 2023 % 4 == 3;
    assert 1900 % 4 == 0 && 1900 % 100 == 0 && 1900 % 400 == 300;
  }

  /** `today - relativedelta(months=i)`; only its year and month are used. */
  function MonthsBefore(today: Date, i: int): YearMonth {
    MonthAt(MonthIndex(MonthOf(today)) - i)
  }

  /** `first_day.strftime("%y-%m")`. */
  function Label(ym: YearMonth): string {
    ZeroPad2(ym.year % 100) + "-" + ZeroPad2(ym.month)
  }

  /** Labels tell months apart as long as the months are less than a century apart. */
  lemma LabelInjective(a: YearMonth, b: YearMonth)
    requires 1 <= a.month <= 12 && 1 <= b.month <= 12
    requires -1200 < MonthIndex(a) - MonthIndex(b) < 1200
    requires Label(a) == Label(b)
    ensures a == b
  {
    var la, lb := Label(a), Label(b);
    assert la[..2] == ZeroPad2(a.year % 100) && lb[..2] == ZeroPad2(b.year % 100);
    assert la[3..] == ZeroPad2(a.month) && lb[3..] == ZeroPad2(b.month);
    ZeroPad2Injective(a.year % 100, b.year % 100);
    ZeroPad2Injective(a.month, b.month);
    var q := (a.year - b.year) / 100;
    assert a.year - b.year == 100 * q;
  }

  /** One entry of the 24-month list. */
  datatype MonthEntry = MonthEntry(year: int, month: int, firstDay: Date, lastDay: Date, monthLabel: string)

  function YearMonthOf(e: MonthEntry): YearMonth {
    YearMonth(e.year, e.month)
  }

  function EntryFor(ym: YearMonth): (e: MonthEntry)
    requires HasNextMonth(ym)
    ensures YearMonthOf(e) == ym
    ensures e.firstDay == Date(ym.year, ym.month, 1)
    ensures e.lastDay == Date(ym.year, ym.month, DaysInMonth(ym.year, ym.month))
    ensures e.monthLabel == Label(ym)
  {
    MonthEntry(ym.year, ym.month, Date(ym.year, ym.month, 1), LastDayOfMonth(ym), Label(ym))
  }

  /** How many months the monthly report and the web export cover. */
  const WindowCount: nat := 24

  /** Today lies late enough that 24 months back is still a date. */
  predicate CanLookBack(today: Date) {
    ValidDate(today) && MonthIndex(MonthOf(today)) - WindowCount >= MonthIndex(YearMonth(MinYear, 1))
  }

  lemma MonthsBeforeHasNext(today: Date, i: int)
    requires CanLookBack(today) && 1 <= i <= WindowCount
    ensures HasNextMonth(MonthsBefore(today, i))
  {
  }

  /** Entry `k` of the 24-month list: the month `24 - k` months before today's. */
  function TrailingEntry(today: Date, k: int): (e: MonthEntry)
    requires CanLookBack(today) && 0 <= k < WindowCount
    ensures YearMonthOf(e) == MonthsBefore(today, WindowCount - k)
    ensures HasNextMonth(YearMonthOf(e))
    ensures e.firstDay == Date(e.year, e.month, 1)
    ensures e.lastDay == Date(e.year, e.month, DaysInMonth(e.year, e.month))
    ensures e.monthLabel == Label(YearMonthOf(e))
  {
    var ym := MonthsBefore(today, WindowCount - k);
    MonthsBeforeHasNext(today, WindowCount - k);
    EntryFor(ym)
  }

  /** The 24 months before today's, oldest first. */
  function TrailingMonths(today: Date): (ms: seq<MonthEntry>)
    requires CanLookBack(today)
    ensures |ms| == WindowCount
    ensures forall k :: 0 <= k < WindowCount ==> ms[k] == TrailingEntry(today, k)
  {
    seq(WindowCount, k requires 0 <= k < WindowCount && CanLookBack(today) => TrailingEntry(today, k))
  }

  /** The entry the month loop builds on its way down from `i` months back. */
  lemma LoopEntryIsTrailingEntry(today: Date, i: int, lastDay: Date)
    requires CanLookBack(today) && 1 <= i <= WindowCount
    requires HasNextMonth(MonthsBefore(today, i))
    requires lastDay == LastDayOfMonth(MonthsBefore(today, i))
    ensures var ym := MonthsBefore(today, i);
      MonthEntry(ym.year, ym.month, Date(ym.year, ym.month, 1), lastDay, Label(MonthOf(Date(ym.year, ym.month, 1))))
        == TrailingEntry(today, WindowCount - i)
  {
  }

  /** The loop of the monthly report and the web export that lists the 24 months. */
  method LastTwentyFourMonths(today: Date) returns (months: seq<MonthEntry>)
    requires CanLookBack(today)
    ensures months == TrailingMonths(today)
  {
    months := [];
    var i := WindowCount;
    while i > 0
      invariant 0 <= i <= WindowCount
      invariant |months| == WindowCount - i
      invariant forall k :: 0 <= k < |months| ==> months[k] == TrailingEntry(today, k)
    {
      var monthDate := MonthsBefore(today, i);
      MonthsBeforeHasNext(today, i);
      var firstDay := Date(monthDate.year, monthDate.month, 1);
      var lastDay;
      if monthDate.month == 12 {
        lastDay := PrevDay(Date(monthDate.year + 1, 1, 1));
        assert lastDay == LastDayOfMonth(monthDate);
      } else {
        lastDay := PrevDay(Date(monthDate.year, monthDate.month + 1, 1));
        assert lastDay == LastDayOfMonth(monthDate);
      }
      LoopEntryIsTrailingEntry(today, i, lastDay);
      months := months + [MonthEntry(monthDate.year, monthDate.month, firstDay, lastDay,
                                     Label(MonthOf(firstDay)))];
      i := i - 1;
    }
  }

  /**
   * The 24 windows are consecutive calendar months, oldest first, each a whole month,
   * and the newest is the month before today's (December of last year in January).
   */
  lemma TrailingMonthsConsecutive(today: Date)
    requires CanLookBack(today)
    ensures var ms := TrailingMonths(today);
      && (forall k :: 0 <= k < WindowCount - 1 ==>
            MonthIndex(YearMonthOf(ms[k + 1])) == MonthIndex(YearMonthOf(ms[k])) + 1)
      && (forall k :: 0 <= k < WindowCount ==>
            && ValidDate(ms[k].firstDay) && ValidDate(ms[k].lastDay)
            && ms[k].firstDay == Date(ms[k].year, ms[k].month, 1)
            && ms[k].lastDay == Date(ms[k].year, ms[k].month, DaysInMonth(ms[k].year, ms[k].month)))
      && (today.month == 1 ==> YearMonthOf(ms[WindowCount - 1]) == YearMonth(today.year - 1, 12))
      && (today.month > 1 ==> YearMonthOf(ms[WindowCount - 1]) == YearMonth(today.year, today.month - 1))
  {
    var ms := TrailingMonths(today);
    forall k | 0 <= k < WindowCount
      ensures ValidDate(ms[k].firstDay) && ValidDate(ms[k].lastDay)
    {
      MonthsBeforeHasNext(today, WindowCount - k);
    }
    if today.month == 1 {
      MonthAtIndex(YearMonth(today.year - 1, 12));
    } else {
      MonthAtIndex(YearMonth(today.year, today.month - 1));
    }
  }

  /** No two of the 24 months share a label, so none overwrites another's results. */
  lemma TrailingLabelsDistinct(today: Date)
    requires CanLookBack(today)
    ensures var ms := TrailingMonths(today);
      forall j, k :: 0 <= j < k < WindowCount ==> ms[j].monthLabel != ms[k].monthLabel
  {
    var ms := TrailingMonths(today);
    forall j, k | 0 <= j < k < WindowCount
      ensures ms[j].monthLabel != ms[k].monthLabel
    {
      var a, b := TrailingEntry(today, j), TrailingEntry(today, k);
      if a.monthLabel == b.monthLabel {
        LabelInjective(YearMonthOf(a), YearMonthOf(b));
      }
    }
  }
}
