/**
 * The reductions of a window's sessions: the home summary and the all-sessions summary of
 * the charging analyzer, its per-session detail list, and the monthly home analysis that
 * the monthly text report and the web export both use. All four rest on one home-only
 * reduction, `ReduceHome`.
 */
module Aggregation {
  import opened Wrappers
  import opened Numeric
  import opened Sessions

  /** The home-only reduction before rounding: count, energy, home cost, last session by date. */
  datatype HomeReduction = HomeReduction(sessions: nat, kwh: real, cost: real, last: Record)

  /** `None` when no session is a home session; the shared core of every home figure. */
  function ReduceHome(rs: seq<Record>): (t: Option<HomeReduction>)
    ensures t.None? <==> (forall r :: r in rs ==> !IsHome(r))
    ensures t.Some? ==> t.value.sessions == |Home(rs)| >= 1
    ensures t.Some? ==> IsHome(t.value.last) && t.value.last in rs
    ensures t.Some? ==>
      && t.value.kwh == Sum(Home(rs), Energy)
      && t.value.cost == Sum(Home(rs), HomeCost)
      && t.value.last == Latest(Home(rs))
  {
    var home := Home(rs);
    if home == [] then None
    else
      assert home[0] in home;
      Some(HomeReduction(|home|, Sum(home, Energy), Sum(home, HomeCost), Latest(home)))
  }

  /** Miles to kilometres, as the analyzer converts the final odometer. */
  const KmPerMile: real := 1.60934

  /**
   * The home summary. Without home sessions only the counts, the null odometers and the
   * echoed window remain; `Sessions`, `Kwh` and `Cost` read 0 there.
   */
  datatype HomeSummary =
    | NoHomeSessions(dateFrom: Option<string>, dateTo: Option<string>)
    | HomeSessions(
        totalSessions: nat, totalKwh: real, totalCost: real, avgCostPerKwh: real,
        finalOdometerMi: Option<real>, finalOdometerKm: Option<real>,
        lastChargeDate: Option<string>, dateFrom: Option<string>, dateTo: Option<string>)
  {
    function Sessions(): nat { if NoHomeSessions? then 0 else totalSessions }
    function Kwh(): real { if NoHomeSessions? then 0.0 else totalKwh }
    function Cost(): real { if NoHomeSessions? then 0.0 else totalCost }
    function OdometerMi(): Option<real> { if NoHomeSessions? then None else finalOdometerMi }
  }

  /** `ChargingAnalyzer.calculate_home_summary`. */
  function CalculateHomeSummary(resp: Response): (s: HomeSummary)
    ensures s.dateFrom == resp.dateFrom && s.dateTo == resp.dateTo
    ensures s.NoHomeSessions? <==> (forall r :: r in resp.results ==> !IsHome(r))
    ensures s.Sessions() == |Home(resp.results)|
    ensures -HalfUnit(2) <= s.Kwh() - Sum(Home(resp.results), Energy) <= HalfUnit(2)
    ensures -HalfUnit(2) <= s.Cost() - Sum(Home(resp.results), HomeCost) <= HalfUnit(2)
    ensures s.HomeSessions? ==>
      var home := Home(resp.results);
      && (Sum(home, Energy) <= 0.0 ==> s.avgCostPerKwh == 0.0)
      && (Sum(home, Energy) > 0.0 ==>
            -HalfUnit(4) <= s.avgCostPerKwh - Sum(home, HomeCost) / Sum(home, Energy) <= HalfUnit(4))
      && s.lastChargeDate == Latest(home).date
      && (s.finalOdometerMi.None? <==> OdometerOrZero(Latest(home)) == 0.0)
      && (s.finalOdometerKm.None? <==> OdometerOrZero(Latest(home)) == 0.0)
      && (s.finalOdometerMi.Some? ==>
            -HalfUnit(1) <= s.finalOdometerMi.value - OdometerOrZero(Latest(home)) <= HalfUnit(1))
      && (s.finalOdometerKm.Some? ==>
            -HalfUnit(1) <= s.finalOdometerKm.value - OdometerOrZero(Latest(home)) * KmPerMile <= HalfUnit(1))
  {
    match ReduceHome(resp.results)
    case None => NoHomeSessions(resp.dateFrom, resp.dateTo)
    case Some(t) =>
      var odoMi := OdometerOrZero(t.last);
      var odoKm := odoMi * KmPerMile;
      HomeSessions(
        t.sessions, Round(t.kwh, 2), Round(t.cost, 2),
        if t.kwh > 0.0 then Round(t.cost / t.kwh, 4) else 0.0,
        if odoMi != 0.0 then Some(Round(odoMi, 1)) else None,
        if odoKm != 0.0 then Some(Round(odoKm, 1)) else None,
        t.last.date, resp.dateFrom, resp.dateTo)
  }

  /** The figures of the all-sessions summary, before or after rounding. */
  datatype AllTotals = AllTotals(
    kwhAll: real, kwhHome: real, kwhAway: real,
    costHome: real, costSuper: real, costTravel: real, costAll: real)

  /**
   * The all-sessions figures before rounding. Supercharging and travel costs are summed
   * over every session, home sessions included.
   */
  function RawTotals(rs: seq<Record>): (t: AllTotals)
    ensures t.kwhAll == Sum(rs, Energy) && t.kwhAll == t.kwhHome + t.kwhAway
    ensures t.kwhHome == Sum(Home(rs), Energy) && t.kwhAway == Sum(Away(rs), Energy)
    ensures t.costHome == Sum(Home(rs), HomeCost)
    ensures t.costAll == t.costHome + Sum(rs, SuperCost) + Sum(rs, TravelCost)
    ensures t.costSuper == Sum(Home(rs), SuperCost) + Sum(Away(rs), SuperCost)
    ensures t.costTravel == Sum(Home(rs), TravelCost) + Sum(Away(rs), TravelCost)
  {
    SumPartition(rs, Energy);
    SumPartition(rs, SuperCost);
    SumPartition(rs, TravelCost);
    var home, superCost, travel := Sum(Home(rs), HomeCost), Sum(rs, SuperCost), Sum(rs, TravelCost);
    AllTotals(
      Sum(rs, Energy), Sum(Home(rs), Energy), Sum(Away(rs), Energy),
      home, superCost, travel, home + superCost + travel)
  }

  /** Every figure rounded to cents (or hundredths of a kWh), as reported. */
  function RoundTotals(t: AllTotals): (r: AllTotals)
    ensures -HalfUnit(2) <= r.kwhAll - t.kwhAll <= HalfUnit(2)
    ensures -HalfUnit(2) <= r.kwhHome - t.kwhHome <= HalfUnit(2)
    ensures -HalfUnit(2) <= r.kwhAway - t.kwhAway <= HalfUnit(2)
    ensures -HalfUnit(2) <= r.costHome - t.costHome <= HalfUnit(2)
    ensures -HalfUnit(2) <= r.costSuper - t.costSuper <= HalfUnit(2)
    ensures -HalfUnit(2) <= r.costTravel - t.costTravel <= HalfUnit(2)
    ensures -HalfUnit(2) <= r.costAll - t.costAll <= HalfUnit(2)
  {
    AllTotals(
      Round(t.kwhAll, 2), Round(t.kwhHome, 2), Round(t.kwhAway, 2),
      Round(t.costHome, 2), Round(t.costSuper, 2), Round(t.costTravel, 2), Round(t.costAll, 2))
  }

  /** The all-sessions summary: the three counts, and the totals unless there is no session. */
  datatype AllSummary = AllSummary(
    totalSessions: nat, homeSessions: nat, awaySessions: nat, totals: Option<AllTotals>)

  /** `ChargingAnalyzer.calculate_all_charging_summary`. */
  function CalculateAllChargingSummary(resp: Response): (s: AllSummary)
    ensures s.totalSessions == |resp.results|
    ensures s.homeSessions + s.awaySessions == s.totalSessions
    ensures s.homeSessions == |Home(resp.results)|
    ensures s.totals.None? <==> resp.results == []
    ensures s.totals.Some? ==> s.totals.value == RoundTotals(RawTotals(resp.results))
  {
    var rs := resp.results;
    PartitionCount(rs);
    if rs == [] then AllSummary(0, 0, 0, None)
    else AllSummary(|rs|, |Home(rs)|, |Away(rs)|, Some(RoundTotals(RawTotals(rs))))
  }

  /** The home figures of the two summaries agree: same count, same energy, same cost. */
  lemma HomeFiguresAgree(resp: Response)
    ensures var h, a := CalculateHomeSummary(resp), CalculateAllChargingSummary(resp);
      && h.Sessions() == a.homeSessions
      && (a.totals.Some? ==> h.Kwh() == a.totals.value.kwhHome && h.Cost() == a.totals.value.costHome)
  {
    var rs := resp.results;
    if Home(rs) == [] {
      assert forall r :: r in rs ==> !IsHome(r);
    }
  }

  /** One entry of the detail list. */
  datatype Detail = Detail(
    date: Option<string>, location: Option<string>, kwhAdded: real, cost: real,
    startPercent: real, chargePercent: Option<real>, durationMin: Option<real>,
    avgPowerKw: real, odometerMi: real, isHome: bool)

  /** The detail of one session; a missing odometer reads as 0. */
  function DetailOf(r: Record): Detail {
    Detail(
      r.date, r.locationName, Energy(r), SessionCost(r),
      r.startPercent.GetOr(0.0), r.chargePercent, r.totalMinutes,
      r.avgChargerPower.GetOr(0.0), Round(OdometerOrZero(r), 1), IsHome(r))
  }

  /** The sessions the detail list covers: the home ones, or all of them. */
  function DetailSelection(resp: Response, homeOnly: bool): seq<Record> {
    if homeOnly then Home(resp.results) else resp.results
  }

  /** `ChargingAnalyzer.get_charging_details`: one entry per selected session, in input order. */
  method ChargingDetails(resp: Response, homeOnly: bool) returns (details: seq<Detail>)
    ensures var selected := DetailSelection(resp, homeOnly);
      && |details| == |selected|
      && (forall i :: 0 <= i < |selected| ==> details[i] == DetailOf(selected[i]))
      && (forall i :: 0 <= i < |selected| ==>
            && details[i].date == selected[i].date
            && details[i].isHome == IsHome(selected[i])
            && details[i].cost == (if IsHome(selected[i]) then HomeCost(selected[i])
                                   else SuperCost(selected[i]) + TravelCost(selected[i])))
    ensures homeOnly ==> forall i :: 0 <= i < |details| ==> details[i].isHome
  {
    var charges := DetailSelection(resp, homeOnly);
    details := [];
    for k := 0 to |charges|
      invariant |details| == k
      invariant forall i :: 0 <= i < k ==> details[i] == DetailOf(charges[i])
    {
      details := details + [DetailOf(charges[k])];
    }
    if homeOnly {
      forall i | 0 <= i < |details|
        ensures details[i].isHome
      {
        assert charges[i] in Home(resp.results);
      }
    }
  }

  /**
   * The per-session costs of the full detail list add up to the all-sessions cost total,
   * less the supercharging and travel costs of home sessions, which that total also counts.
   */
  lemma DetailCostsReconcile(rs: seq<Record>)
    ensures Sum(rs, SessionCost) + Sum(Home(rs), SuperCost) + Sum(Home(rs), TravelCost)
         == RawTotals(rs).costAll
  {
    SumPartition(rs, SessionCost);
    SessionCostAtHome(rs);
    SessionCostAway(rs);
  }

  /** The monthly figures of the monthly report and the web export. */
  datatype MonthResult = MonthResult(kwh: real, cost: real, odo: real, costPerKwh: real)

  /** `analyze_month`: `None` when the month has no home session. */
  function AnalyzeMonth(resp: Response): (m: Option<MonthResult>)
    ensures m.None? <==> (forall r :: r in resp.results ==> !IsHome(r))
    ensures m.Some? ==>
      var home := Home(resp.results);
      && -HalfUnit(1) <= m.value.kwh - Sum(home, Energy) <= HalfUnit(1)
      && OnGrid(m.value.kwh, Pow10(1) as real) && OnGrid(m.value.cost, Pow10(2) as real)
      && -HalfUnit(2) <= m.value.cost - Sum(home, HomeCost) <= HalfUnit(2)
      && -HalfUnit(0) <= m.value.odo - OdometerOrZero(Latest(home)) <= HalfUnit(0)
      && (Sum(home, Energy) <= 0.0 ==> m.value.costPerKwh == 0.0)
      && (Sum(home, Energy) > 0.0 ==>
            -HalfUnit(2) <= m.value.costPerKwh - Sum(home, HomeCost) / Sum(home, Energy) <= HalfUnit(2))
  {
    match ReduceHome(resp.results)
    case None => None
    case Some(t) =>
      Some(MonthResult(
        Round(t.kwh, 1), Round(t.cost, 2), Round(OdometerOrZero(t.last), 0),
        if t.kwh > 0.0 then Round(t.cost / t.kwh, 2) else 0.0))
  }

  /**
   * The monthly analysis and the analyzer's home summary are the same reduction rounded
   * differently: both are absent together, the costs are equal, the energies differ by
   * rounding only, and the odometers come from the same session.
   */
  lemma MonthlyAgreesWithHomeSummary(resp: Response)
    ensures var h, m := CalculateHomeSummary(resp), AnalyzeMonth(resp);
      && (m.None? <==> h.NoHomeSessions?)
      && (m.Some? ==>
            && m.value.cost == h.totalCost
            && -(HalfUnit(1) + HalfUnit(2)) <= m.value.kwh - h.totalKwh <= HalfUnit(1) + HalfUnit(2)
            && (h.finalOdometerMi.None? ==> m.value.odo == 0.0)
            && (h.finalOdometerMi.Some? ==>
                  -(HalfUnit(0) + HalfUnit(1)) <= m.value.odo - h.finalOdometerMi.value
                                               <= HalfUnit(0) + HalfUnit(1)))
  {
  }

  /** A home session: 10 kWh for 2.50 at odometer 1000 mi (numeric strings already parsed). */
  const HomeSession: Record :=
    Record(Some("2025-01-05"), Some(1), Some(10.0), Some(2.5), None, None, Some(1000.0),
           None, None, None, None, None)
  /** An away session: 20 kWh, 5.00 of supercharging. */
  const AwaySession: Record :=
    Record(Some("2025-01-10"), Some(0), Some(20.0), None, Some(5.0), None, None,
           None, None, None, None, None)

  lemma ScenarioSplit()
    ensures Home([HomeSession, AwaySession]) == [HomeSession]
    ensures Away([HomeSession, AwaySession]) == [AwaySession]
  {
    var rs := [HomeSession, AwaySession];
    assert IsHome(HomeSession) && !IsHome(AwaySession);
    assert rs[1..] == [AwaySession];
    assert rs[1..][1..] == [];
    assert IsAway(AwaySession) && !IsAway(HomeSession);
    assert Filter([AwaySession], IsAway) == [AwaySession];
    assert Filter(rs, IsAway) == Filter([AwaySession], IsAway);
    assert Filter([AwaySession], IsHome) == [];
    assert Filter(rs, IsHome) == [HomeSession] + Filter([AwaySession], IsHome);
  }

  lemma ScenarioSums()
    ensures Sum([HomeSession], Energy) == 10.0 && Sum([HomeSession], HomeCost) == 2.5
    ensures Sum([AwaySession], Energy) == 20.0
    ensures Sum([HomeSession, AwaySession], Energy) == 30.0
    ensures Sum([HomeSession, AwaySession], SuperCost) == 5.0
    ensures Sum([HomeSession, AwaySession], TravelCost) == 0.0
  {
    var rs := [HomeSession, AwaySession];
    assert rs[1..] == [AwaySession];
    assert [HomeSession][1..] == [] && [AwaySession][1..] == [];
    assert SuperCost(HomeSession) == 0.0 && SuperCost(AwaySession) == 5.0;
    assert TravelCost(HomeSession) == 0.0 && TravelCost(AwaySession) == 0.0;
    assert Energy(HomeSession) == 10.0 && Energy(AwaySession) == 20.0;
    assert Sum([AwaySession], SuperCost) == 5.0 && Sum([AwaySession], TravelCost) == 0.0;
    assert Sum(rs, SuperCost) == SuperCost(HomeSession) + Sum([AwaySession], SuperCost);
    assert Sum(rs, TravelCost) == TravelCost(HomeSession) + Sum([AwaySession], TravelCost);
  }

  lemma ScenarioReduction()
    ensures ReduceHome([HomeSession, AwaySession]) == Some(HomeReduction(1, 10.0, 2.5, HomeSession))
  {
    ScenarioSplit();
    ScenarioSums();
    assert Latest([HomeSession]) == HomeSession;
  }

  lemma ScenarioHome()
    ensures var h := CalculateHomeSummary(Response([HomeSession, AwaySession], None, None));
      && h.HomeSessions?
      && h.totalSessions == 1 && h.totalKwh == 10.0 && h.totalCost == 2.5 && h.avgCostPerKwh == 0.25
      && h.finalOdometerMi == Some(1000.0) && h.lastChargeDate == Some("2025-01-05")
  {
    ScenarioReduction();
    assert OdometerOrZero(HomeSession) == 1000.0;
    assert CalculateHomeSummary(Response([HomeSession, AwaySession], None, None))
        == HomeSessions(1, Round(10.0, 2), Round(2.5, 2), Round(2.5 / 10.0, 4), Some(Round(1000.0, 1)),
                        Some(Round(1000.0 * KmPerMile, 1)), Some("2025-01-05"), None, None);
    RoundOfExact(10.0, 2, 1000);
    RoundOfExact(2.5, 2, 250);
    RoundOfExact(0.25, 4, 2500);
    RoundOfExact(1000.0, 1, 10000);
  }

  lemma ScenarioAll()
    ensures var a := CalculateAllChargingSummary(Response([HomeSession, AwaySession], None, None));
      && a.totalSessions == 2 && a.homeSessions == 1 && a.awaySessions == 1
      && a.totals.Some? && a.totals.value.kwhAll == 30.0 && a.totals.value.costAll == 7.5
  {
    ScenarioSplit();
    ScenarioSums();
    RoundOfExact(30.0, 2, 3000);
    RoundOfExact(7.5, 2, 750);
  }

  /** The two-session scenario: the home summary and the all-sessions summary agree on it. */
  lemma Scenario()
    ensures var resp := Response([HomeSession, AwaySession], None, None);
      var h := CalculateHomeSummary(resp);
      var a := CalculateAllChargingSummary(resp);
      && h.HomeSessions?
      && h.totalSessions == 1 && h.totalKwh == 10.0 && h.totalCost == 2.5 && h.avgCostPerKwh == 0.25
      && h.finalOdometerMi == Some(1000.0) && h.lastChargeDate == Some("2025-01-05")
      && a.totalSessions == 2 && a.homeSessions == 1 && a.awaySessions == 1
      && a.totals.Some? && a.totals.value.kwhAll == 30.0 && a.totals.value.costAll == 7.5
  {
    ScenarioHome();
    ScenarioAll();
  }
}
