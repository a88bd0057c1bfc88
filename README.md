# Rivian charging tracker: a verified model of its core

The charging tracker fetches charging sessions from the ElectraFi history service and reduces
them to figures a driver reads:

- **The charging analyzer** (`analyze_charging.py`) splits a window's sessions into home
  sessions (`homeChargeFlag == 1`) and away sessions. From them it builds:
  - a home summary: count, kWh, cost, cost per kWh, and the final odometer of the last
    session by date;
  - an all-sessions summary;
  - a per-session detail list.

  The analyzer also computes two query windows: the last complete month and a named
  `YYYY-MM` month.
- **The monthly report** (`monthly_summary.py`) and **the web export**
  (`monthly_summary_web.py`) share one pipeline:
  1. List the 24 months before today, oldest first, each labelled `YY-MM`.
  2. Reduce each month's home sessions with `analyze_month`.
  3. Collect the results into `monthly_data`, keyed by label.
  4. Join each month with the same month a year earlier to get a year-over-year (Y/Y) change.
- **The command builder** (`electrafi_query.py`) validates and builds vehicle command strings.
  The same file holds the dry-run branch of `send_command` and the command-counter lookup.

The Dafny modules follow that structure:

| module | what it holds |
|---|---|
| `Wrappers` | `Option` and `Result` |
| `Text` | decimal printing and parsing as Python does them (`str`, `int`, `02d`, `str.split`); Python's code-point order on strings |
| `Numeric` | `round(x, n)` as round-half-to-even on exact reals |
| `Sessions` | the session record; the home/away filters; field sums; the session a stable sort by date puts last |
| `Aggregation` | one shared home reduction, and on top of it the home summary, the all-sessions summary, the detail-list loop and `analyze_month` |
| `Calendar` | proleptic Gregorian dates; the last-complete-month and named-month windows; the 24-month loop and its labels |
| `Trend` | the `monthly_data` fetch loop and the Y/Y join loop |
| `Commands` | `CommandBuilder`, `send_command`'s dry run, `get_command_counters` |

How the source's forms map to Dafny:

- Loops that append or fill a dict become methods with loop invariants, each proved equal to
  a specification function. Those methods are `ChargingDetails`, `LastTwentyFourMonths`,
  `CollectMonthlyData` and `YearOverYearRows`.
- The properties are stated and proved about the specification functions.
- `ChargingAnalyzer` sets its fields only in its constructor, so it is the `Response` value
  its methods read.
- "Today" and the per-month fetch results are parameters.

## Model

| member | source | states |
|---|---|---|
| Sessions.Filter | analyze_charging.py:73-75 | the comprehension keeps a record exactly when it is in the input and passes the test, and never grows the list |
| Sessions.FilterConcat | analyze_charging.py:75 | filtering keeps input order: the filter of a concatenation is the concatenation of the filters |
| Sessions.PartitionCount | analyze_charging.py:123-137 | home sessions (`flag == 1`) plus away sessions (`flag != 1`) number exactly the sessions |
| Sessions.PartitionExclusive | analyze_charging.py:123-124 | each session is in exactly one of the home and away lists |
| Sessions.SumConcat | analyze_charging.py:92-93 | a sum over two lists is the sum of the two sums |
| Sessions.SumPartition | analyze_charging.py:126-128 | any total over all sessions is its home part plus its away part |
| Sessions.SessionCostAtHome | analyze_charging.py:157 | over home sessions, the detail cost adds up to the home cost |
| Sessions.SessionCostAway | analyze_charging.py:157-158 | over away sessions, the detail cost adds up to supercharging plus travel cost |
| Sessions.LatestIndex | analyze_charging.py:96-97 | picks the session that `sorted(key=date)[-1]` returns: no session has a later date string, and every later session in input order has an earlier one |
| Sessions.LatestIndexUnique | analyze_charging.py:96-97 | only one session meets that description, so the choice is determined |
| Sessions.Latest | analyze_charging.py:96-97 | the session `sorted(key=date)[-1]` returns: one of the sessions, at the index `LatestIndex` describes |
| Text.StrLessIrreflexive | analyze_charging.py:96 | Python's string order on the sort key: no string is before itself |
| Text.StrLessTransitive | analyze_charging.py:96 | the string order is transitive |
| Text.StrLessTotal | analyze_charging.py:96 | any two different strings are ordered one way or the other |
| Text.StrLessAsymmetric | analyze_charging.py:96 | no two strings are each before the other |
| Numeric.RoundHalfEven | analyze_charging.py:104-108 | the integer nearest to its argument, within one half; an integral argument is unchanged |
| Numeric.Round | analyze_charging.py:104-108 | `round(x, n)` is within half a unit of the n-th decimal of x, lies on the grid of n decimals, and rounds 0 to 0 |
| Numeric.RoundToScale | analyze_charging.py:104 | rounding to a multiple of 1/p errs by at most 1/(2p), and the result is a whole number of units 1/p |
| Numeric.RoundOfExact | analyze_charging.py:104-108 | an amount already on the grid of n decimals is left unchanged |
| Aggregation.ReduceHome | monthly_summary_web.py:36-46 | absent exactly when no session is a home session; otherwise it counts the home sessions, its kWh and cost are the home sums, and its last session is the home session a stable sort by date puts last |
| Aggregation.CalculateHomeSummary | analyze_charging.py:77-112 | echoes `dateFrom`/`dateTo`; the no-home case happens exactly when there is no home session and then reports count 0; kWh and cost are the home sums within rounding; cost per kWh is 0 unless kWh > 0 and otherwise the ratio within rounding; last date comes from the last session by date; its odometer is reported in miles and in miles × 1.60934 as km, each within 0.05, and an odometer of 0 is reported as null |
| Aggregation.RawTotals | analyze_charging.py:126-132 | before rounding, each figure is its sum: all-session kWh over every session (= home kWh + away kWh), home kWh and cost over home sessions, away kWh over away sessions; the cost total is home cost plus supercharging and travel costs summed over every session, home sessions included |
| Aggregation.RoundTotals | analyze_charging.py:138-144 | each of the seven reported kWh and cost figures is within half a cent of its raw figure |
| Aggregation.CalculateAllChargingSummary | analyze_charging.py:114-145 | total = home + away sessions; home count is the home filter's length; totals are present exactly when there is a session, and then they are the rounded raw totals |
| Aggregation.HomeFiguresAgree | analyze_charging.py:127-136 | the home summary and the all-sessions summary report the same home count, home kWh and home cost |
| Aggregation.ChargingDetails | analyze_charging.py:147-167 | one entry per selected session, in input order, each that session's detail: date, `is_home == (flag == 1)`, and cost = home cost at home, otherwise supercharging + travel; with `home_only` every entry is a home one |
| Aggregation.DetailCostsReconcile | analyze_charging.py:156-158 | the detail costs add up to the all-sessions cost total, less the supercharging and travel costs of home sessions that only the total counts |
| Aggregation.AnalyzeMonth | monthly_summary_web.py:33-53 | `None` exactly when the month has no home session; otherwise kWh, cost and odometer are the home sums and the last session's odometer (0 when absent), each within its rounding, kWh on the one-decimal grid and cost on the two-decimal grid; cost per kWh is 0 unless kWh > 0. The text report's copy (monthly_summary.py:39-59) is the same code, so both give the same result |
| Aggregation.MonthlyAgreesWithHomeSummary | monthly_summary_web.py:41-52 | `analyze_month` and the analyzer's home summary are absent together; their costs are equal; their kWh and odometers differ only by rounding |
| Aggregation.ScenarioSplit | analyze_charging.py:75-124 | for a two-session response (one home, one away), the home list is the home session and the away list is the away session |
| Aggregation.ScenarioSums | analyze_charging.py:126-132 | for that response: kWh 10 at home, 20 away, 30 in all; supercharging 5; travel 0 |
| Aggregation.Scenario | analyze_charging.py:77-145 | for that response the home summary is 1 session, 10 kWh, 2.5 cost, 0.25 per kWh, odometer 1000 mi, last date 2025-01-05; the all-sessions summary is 2/1/1 sessions, 30 kWh, 7.5 cost |
| Calendar.DaysInMonth | analyze_charging.py:245-248 | every month has 28 to 31 days |
| Calendar.PrevDay | analyze_charging.py:176 | the day before a date, other than 1 January of year 1, is a date: the same month's previous day, or on the 1st the last day of the previous month |
| Calendar.MonthAt | monthly_summary_web.py:67 | month arithmetic on a month count: the month returned has number 1..12 and the given count |
| Calendar.MonthAtIndex | monthly_summary_web.py:67 | counting months and converting back returns the same month |
| Calendar.LastDayOfMonth | analyze_charging.py:245-248 | the first of the next month (January of the next year after December) minus a day is that month's last calendar day |
| Calendar.LastCompleteMonth | analyze_charging.py:170-180 | the previous month from its 1st to its real last day; January gives December of the year before; its month count is today's minus one |
| Calendar.ParseYearMonth | analyze_charging.py:242 | a year and month come back exactly when the argument splits on `-` into two parts that both parse as integers, and they are those two integers |
| Calendar.NamedMonthWindow | analyze_charging.py:240-254 | fails on an unparsable argument and on a month outside 1..12; succeeds exactly for months whose first day and next month's first day are dates; on success it is the whole named month, from its 1st to its last day |
| Calendar.ParseYearMonthOf | analyze_charging.py:242 | `"<year>-<MM>"` parses back to that year and month |
| Calendar.NamedMonthWindowOf | analyze_charging.py:242-250 | every month from January of year 1 to November 9999, written `<year>-<MM>`, names its whole month |
| Calendar.MonthEndExamples | analyze_charging.py:245-248 | February 2024 and 2000 end on the 29th, February 2023 and 1900 on the 28th, December 2024 on the 31st |
| Calendar.LabelInjective | monthly_summary_web.py:81 | two months less than a century apart have different `%y-%m` labels |
| Calendar.EntryFor | monthly_summary_web.py:68-82 | an entry's year and month are the month's own; first day is the 1st; last day is the real last day; the label is the month's `%y-%m` label |
| Calendar.MonthsBeforeHasNext | monthly_summary_web.py:66-74 | with today late enough, each of the 24 months and its following month start on real dates |
| Calendar.TrailingEntry | monthly_summary_web.py:66-82 | entry k is the month 24 - k months before today's, a whole month, labelled with its `%y-%m` label |
| Calendar.TrailingMonths | monthly_summary_web.py:66-82 | the list has exactly 24 entries, and entry k is the month 24 - k months back |
| Calendar.LastTwentyFourMonths | monthly_summary_web.py:66-82 | the `range(24, 0, -1)` loop builds exactly the trailing-months list; the text report's copy (monthly_summary.py:74-90) is the same loop |
| Calendar.TrailingMonthsConsecutive | monthly_summary.py:74-82 | the 24 windows are consecutive calendar months, oldest first, each from its 1st to its real last day, and the newest is the month before today's (December of last year in January) |
| Calendar.TrailingLabelsDistinct | monthly_summary_web.py:81 | no two of the 24 months share a label |
| Trend.Outcomes | monthly_summary_web.py:88-93 | one outcome per fetched month, each that month's own result; a failed fetch gives no result |
| Trend.MonthlyDataKeys | monthly_summary_web.py:92-93 | every key of `monthly_data` is the label of a month that had a result |
| Trend.CollectMonthlyData | monthly_summary_web.py:86-95 | the fetch loop builds the specified `monthly_data`: each month with a result is stored under its label, and failed fetches are skipped; the same holds for the text report's copy (monthly_summary.py:94-103) |
| Trend.MonthlyDataAt | monthly_summary_web.py:88-95 | with distinct labels, a month's label is present exactly when its own fetch gave a result, and then it maps to that result, so a failed fetch drops only its month |
| Trend.PriorYearLabelIsLabel | monthly_summary_web.py:107 | for years 2001 to 2100, the looked-up label is the `%y-%m` label of the same month a year earlier |
| Trend.YearOverYear | monthly_summary_web.py:107-113 | present exactly when the prior-year label has kWh > 0; then positive, zero or negative as kWh rose, held or fell, and current = prior × (1 + yoy/100); the text report (monthly_summary.py:127-133) uses the same condition and value |
| Trend.Rows | monthly_summary_web.py:98-122 | at most one row per month, and every row's date is a key of `monthly_data` |
| Trend.RowsConcat | monthly_summary_web.py:99-102 | rows follow month-list order: the rows of a concatenation concatenate the rows |
| Trend.RowForFields | monthly_summary_web.py:104-122 | a row carries its month's label, kWh, cost, odometer and cost per kWh from `monthly_data`, and a Y/Y exactly when the join has a Y/Y change for that month, within 0.5 of it |
| Trend.MonthRow | monthly_summary_web.py:104-122 | the loop body produces the specified row of a month with data |
| Trend.YearOverYearRows | monthly_summary_web.py:97-122 | the join loop produces exactly the specified rows: the months with data, in order, each with its Y/Y; the text report's loop (monthly_summary.py:119-137) prints these rows |
| Trend.YearOverYearLooksTwelveBack | monthly_summary_web.py:107-113 | over the 24 months (2003 to 2100), a month has a Y/Y figure exactly when the entry twelve places earlier had a result with kWh > 0; the first twelve never do |
| Trend.TwoDigitFields | monthly_summary_web.py:107 | `02d` prints 24, 25 and 1 as `24`, `25`, `01` |
| Trend.JanuaryLabels | monthly_summary_web.py:81-107 | the loop's January 2025 entry is labelled `25-01`, and it looks up `24-01`, the label of January 2024 |
| Trend.YearOverYearExample | monthly_summary_web.py:107-113 | `25-01` at 150 kWh against `24-01` at 100 kWh is +50%; without `24-01` there is no Y/Y |
| Text.NatToString | electrafi_query.py:258 | `str(n)`: at least one digit; a leading zero only for 0; one digit exactly below 10 |
| Text.DigitsValueOfNatToString | electrafi_query.py:258 | the digits `str(n)` prints denote n |
| Text.ParseInt | analyze_charging.py:242 | `int(s)` of a non-empty run of ASCII digits is the number the digits denote; a parse succeeds only when `s` holds a digit, and fails whenever `s` holds a character other than a digit, a sign or whitespace |
| Text.ParseSigned | analyze_charging.py:242 | after trimming, `int` accepts exactly a non-empty run of digits with an optional leading `+` or `-`, and a `-` negates the value |
| Text.TrimmedIsInfix | analyze_charging.py:242 | stripping whitespace leaves a contiguous piece of the text, and everything stripped from either end is whitespace |
| Text.ParseIntOfNatToString | analyze_charging.py:242 | `int(str(n)) == n` |
| Text.ZeroPad2 | monthly_summary_web.py:107 | `format(n, "02d")` for 0 ≤ n < 100 is two digits denoting n; a negative n keeps its sign |
| Text.ZeroPad2Injective | monthly_summary_web.py:81 | different two-digit fields print differently |
| Text.Split | analyze_charging.py:242 | `str.split(sep)` yields at least one part, and no part contains the separator |
| Text.SplitWithoutSeparator | analyze_charging.py:242 | a string without the separator splits into itself alone |
| Text.SplitPrefix | analyze_charging.py:242 | text up to the first separator is split off as the first part |
| Text.SplitOnce | analyze_charging.py:242 | `a + "-" + b` with no `-` in a or b splits into exactly `[a, b]` |
| Text.JoinSplit | analyze_charging.py:242 | joining the parts with the separator gives back the string |
| Commands.SetTemperature | electrafi_query.py:226-236 | fails with the temperature error exactly outside 15..28 degrees; otherwise it is `set_temps&temp=` followed by the temperature |
| Commands.TemperatureRoundTrip | electrafi_query.py:236 | the argument reads back as the whole degrees, a point and the tenths |
| Commands.SetChargeLimit | electrafi_query.py:248-258 | fails with the charge-limit error exactly outside 50..100; otherwise it is `set_charge_limit&charge_limit_soc=` followed by the percent |
| Commands.ChargeLimitRoundTrip | electrafi_query.py:258 | the argument of an accepted command parses back to the percent |
| Commands.SetChargeAmps | electrafi_query.py:260-270 | fails with the amps error exactly outside 5..32; otherwise it is `set_charging_amps&charging_amps=` followed by the amps |
| Commands.ChargeAmpsRoundTrip | electrafi_query.py:270 | the argument of an accepted command parses back to the amps |
| Commands.SeatHeaterIdsInjective | electrafi_query.py:281-287 | seats map to distinct heater ids; id 3 is never used; every id is below 6 |
| Commands.SetSeatHeater | electrafi_query.py:272-295 | an unknown seat fails with the seat error whatever the level; for a known seat it fails exactly when the level is outside 0..3, with the level error; success is `seat_heater&heater=<id>&level=<level>` |
| Commands.SeatHeaterRoundTrip | electrafi_query.py:294-295 | an accepted command carries the seat's heater id and the level, one digit each, separated by `&level=` |
| Commands.SendCommand | electrafi_query.py:114-118 | a dry run echoes the unchanged command and never becomes a request; otherwise the command is requested |
| Commands.GetCommandCounters | electrafi_query.py:188-192 | the `tesla_request_counter` value exactly when that key is present, else `None` |

## Left out

- HTTP transport is not modelled. This covers `_make_request` and both `get_charges` functions. A month's fetch enters the monthly loops as a `FetchOutcome` parameter, and a failed fetch stands for the caught exception.
- Response caching, token loading, argument parsing, `main` dispatch and the interactive confirmation are not modelled. They are environment, CLI and user I/O.
- Rendering is not modelled. This covers the HTML and JSON export, the text-report file appends and the printed lines, including the report's `+.0f%` Y/Y text.
- The system clock is a parameter: `date.today()` is the `today` argument.
- Numbers are exact reals. Binary floating point is not modelled. `round` is round-half-to-even on the exact value, and the miles-to-kilometres product is exact.
- Dynamic typing is not modelled: records arrive already typed. Cases this drops:
  - `float()` on a non-numeric string.
  - `float(None)` on an odometer key that is present but null.
  - A `homeChargeFlag` of `True` or `1.0`, which compares equal to 1 in Python. Here the flag is `Some(1)` or not.
  - A date key that is present but null.
- Aggregation.DetailOf: the code reads an absent odometer as 0 in the detail list (`float(r.get("odometer", 0))`). A stricter reading would treat the missing odometer as malformed; the model follows the code.
- Text.ParseInt: covers ASCII digits, an optional sign and surrounding ASCII whitespace. It does not cover underscores between digits, non-ASCII digits or Unicode whitespace, which Python's `int` also accepts.
- Calendar.NamedMonthWindow: a year or month beyond the C integer range makes `date(...)` raise `OverflowError`, which is not a `ValueError`, so the code's handler does not catch it and the exception escapes. The model has unbounded integers and reports every out-of-range year or month as `InvalidMonthFormat`.
- Calendar windows are `Date` values. Their `strftime("%Y-%m-%d")` text is not modelled. Labels are modelled as strings, because the join compares them.
- Calendar.LastCompleteMonth: requires a valid date that is not in January of year 1. For that month Python raises `OverflowError`, which is not modelled.
- Calendar.LastTwentyFourMonths: requires that 24 months before today is still a date (year 3 or later).
- Trend.PriorYearLabelIsLabel and Trend.YearOverYearLooksTwelveBack: proved only for years 2001 to 2100. Outside that range the code's prior-year label (`year - 1 - 2000`, two digits) is not a `%y` label, so the join finds nothing. The Y/Y function itself models the code for every year.
- Commands.SetTemperature: takes the temperature in tenths of a degree and prints it as Python prints a one-decimal float (`21.0`, `21.5`). An `int` argument, which Python prints without `.0`, and other floats are not modelled.
- The constant builders (`start_hvac`, `stop_hvac`, `start_charging`, `stop_charging`) are modelled as the fixed strings they return and carry no contract.
- Most `VehicleDataExtractor` getters are not modelled. They are plain key renames. `_mi_to_km` is also not modelled; it is not used by the analyzer, which multiplies by 1.60934 itself.
- The explicit `--from`/`--to` range is not modelled. It is passed through unvalidated.
