/**
 * Charging-session records as the history service returns them, the home/away split,
 * the field sums, and the choice of the "last" session by date.
 */
module Sessions {
  import opened Wrappers
  import opened Text

  /**
   * One entry of `results`. A `None` numeric field is a key that is absent or null;
   * `date` and `odometer` are `None` only when the key is absent.
   */
  datatype Record = Record(
    date: Option<string>,
    homeChargeFlag: Option<int>,
    totalEnergyAdded: Option<real>,
    homeCost: Option<real>,
    superCost: Option<real>,
    travelCost: Option<real>,
    odometer: Option<real>,
    locationName: Option<string>,
    startPercent: Option<real>,
    chargePercent: Option<real>,
    totalMinutes: Option<real>,
    avgChargerPower: Option<real>)

  /** A response of the history service: `results`, and `dateFrom`/`dateTo` as echoed. */
  datatype Response = Response(results: seq<Record>, dateFrom: Option<string>, dateTo: Option<string>)

  /** `homeChargeFlag == 1`: anything else, absence included, is an away session. */
  predicate IsHome(r: Record) {
    r.homeChargeFlag == Some(1)
  }

  predicate IsAway(r: Record) {
    !IsHome(r)
  }

  /** `float(r.get(field, 0) or 0)`: an absent or null amount counts as 0. */
  function Energy(r: Record): real { r.totalEnergyAdded.GetOr(0.0) }
  function HomeCost(r: Record): real { r.homeCost.GetOr(0.0) }
  function SuperCost(r: Record): real { r.superCost.GetOr(0.0) }
  function TravelCost(r: Record): real { r.travelCost.GetOr(0.0) }

  /** `float(r.get("odometer", 0))`. */
  function OdometerOrZero(r: Record): real { r.odometer.GetOr(0.0) }

  /** `r.get("date", "")`, the sort key. */
  function DateKey(r: Record): string { r.date.GetOr("") }

  /** The one cost that applies to a session: home cost at home, supercharging plus travel away. */
  function SessionCost(r: Record): real {
    if IsHome(r) then HomeCost(r) else SuperCost(r) + TravelCost(r)
  }

  /** A list comprehension `[r for r in rs if keep(r)]`. */
  function Filter(rs: seq<Record>, keep: Record -> bool): (kept: seq<Record>)
    ensures |kept| <= |rs|
    ensures forall r :: r in kept <==> r in rs && keep(r)
  {
    if rs == [] then [] else (if keep(rs[0]) then [rs[0]] else []) + Filter(rs[1..], keep)
  }

  function Home(rs: seq<Record>): seq<Record> { Filter(rs, IsHome) }
  function Away(rs: seq<Record>): seq<Record> { Filter(rs, IsAway) }

  /** Filtering keeps input order: it distributes over concatenation. */
  lemma {:induction false} FilterConcat(a: seq<Record>, b: seq<Record>, keep: Record -> bool)
    ensures Filter(a + b, keep) == Filter(a, keep) + Filter(b, keep)
  {
    if a != [] {
      assert (a + b)[1..] == a[1..] + b;
      FilterConcat(a[1..], b, keep);
    } else {
      assert a + b == b;
    }
  }

  /** A single record is kept exactly when it satisfies the condition. */
  lemma FilterSingleton(r: Record, keep: Record -> bool)
    ensures Filter([r], keep) == if keep(r) then [r] else []
  {
    assert [r][1..] == [];
  }

  /** Home and away sessions split the input: every session is counted once. */
  lemma {:induction false} PartitionCount(rs: seq<Record>)
    ensures |Home(rs)| + |Away(rs)| == |rs|
  {
    if rs != [] {
      PartitionCount(rs[1..]);
    }
  }

  /** No session is both home and away, and none is neither. */
  lemma PartitionExclusive(rs: seq<Record>, r: Record)
    requires r in rs
    ensures (r in Home(rs)) != (r in Away(rs))
  {
  }

  /** `sum(f(r) for r in rs)`. */
  function Sum(rs: seq<Record>, f: Record -> real): real {
    if rs == [] then 0.0 else f(rs[0]) + Sum(rs[1..], f)
  }

  lemma {:induction false} SumConcat(a: seq<Record>, b: seq<Record>, f: Record -> real)
    ensures Sum(a + b, f) == Sum(a, f) + Sum(b, f)
  {
    if a != [] {
      assert (a + b)[1..] == a[1..] + b;
      SumConcat(a[1..], b, f);
    } else {
      assert a + b == b;
    }
  }

  /** A sum over all sessions is the home part plus the away part. */
  lemma {:induction false} SumPartition(rs: seq<Record>, f: Record -> real)
    ensures Sum(rs, f) == Sum(Home(rs), f) + Sum(Away(rs), f)
  {
    if rs != [] {
      SumPartition(rs[1..], f);
      assert Home(rs) == (if IsHome(rs[0]) then [rs[0]] else []) + Home(rs[1..]);
      assert Away(rs) == (if IsAway(rs[0]) then [rs[0]] else []) + Away(rs[1..]);
      SumConcat(if IsHome(rs[0]) then [rs[0]] else [], Home(rs[1..]), f);
      SumConcat(if IsAway(rs[0]) then [rs[0]] else [], Away(rs[1..]), f);
      assert Sum([rs[0]], f) == f(rs[0]) by { assert [rs[0]][1..] == []; }
    }
  }

  /** Within a list of home sessions, the per-session cost is the home cost. */
  lemma {:induction false} SessionCostAtHome(rs: seq<Record>)
    ensures Sum(Home(rs), SessionCost) == Sum(Home(rs), HomeCost)
  {
    if rs != [] {
      SessionCostAtHome(rs[1..]);
      assert Home(rs) == (if IsHome(rs[0]) then [rs[0]] else []) + Home(rs[1..]);
      SumConcat(if IsHome(rs[0]) then [rs[0]] else [], Home(rs[1..]), SessionCost);
      SumConcat(if IsHome(rs[0]) then [rs[0]] else [], Home(rs[1..]), HomeCost);
      assert [rs[0]][1..] == [];
    }
  }

  /** Away, the per-session cost is supercharging plus travel cost. */
  lemma {:induction false} SessionCostAway(rs: seq<Record>)
    ensures Sum(Away(rs), SessionCost) == Sum(Away(rs), SuperCost) + Sum(Away(rs), TravelCost)
  {
    if rs != [] {
      SessionCostAway(rs[1..]);
      var head := if IsAway(rs[0]) then [rs[0]] else [];
      assert Away(rs) == head + Away(rs[1..]);
      SumConcat(head, Away(rs[1..]), SessionCost);
      SumConcat(head, Away(rs[1..]), SuperCost);
      SumConcat(head, Away(rs[1..]), TravelCost);
      assert [rs[0]][1..] == [];
    }
  }

  /**
   * `rs[i]` is what `sorted(rs, key=date)[-1]` yields: no session has a later date, and
   * every session after it in input order has an earlier one (a stable sort keeps equal
   * dates in input order, so the last of them ends up last).
   */
  ghost predicate LastAfterStableSort(rs: seq<Record>, i: int) {
    && 0 <= i < |rs|
    && (forall j :: 0 <= j < |rs| ==> !StrLess(DateKey(rs[i]), DateKey(rs[j])))
    && (forall j :: i < j < |rs| ==> StrLess(DateKey(rs[j]), DateKey(rs[i])))
  }

  /** The index of the session a stable ascending sort by date puts last. */
  function LatestIndex(rs: seq<Record>): (i: nat)
    requires |rs| > 0
    ensures i < |rs|
    ensures LastAfterStableSort(rs, i)
  {
    if |rs| == 1 then
      StrLessIrreflexive(DateKey(rs[0]));
      0
    else
      var n := |rs| - 1;
      var k := LatestIndex(rs[..n]);
      assert forall j :: 0 <= j < n ==> rs[..n][j] == rs[j];
      if StrLess(DateKey(rs[n]), DateKey(rs[k])) then
        LatestKeepsEarlier(rs, k);
        k
      else
        LatestTakesLast(rs, k);
        n
  }

  lemma LatestKeepsEarlier(rs: seq<Record>, k: nat)
    requires |rs| > 1 && k < |rs| - 1
    requires LastAfterStableSort(rs[..|rs| - 1], k)
    requires StrLess(DateKey(rs[|rs| - 1]), DateKey(rs[k]))
    ensures LastAfterStableSort(rs, k)
  {
    var n := |rs| - 1;
    assert forall j :: 0 <= j < n ==> rs[..n][j] == rs[j];
    StrLessAsymmetric(DateKey(rs[n]), DateKey(rs[k]));
  }

  lemma LatestTakesLast(rs: seq<Record>, k: nat)
    requires |rs| > 1 && k < |rs| - 1
    requires LastAfterStableSort(rs[..|rs| - 1], k)
    requires !StrLess(DateKey(rs[|rs| - 1]), DateKey(rs[k]))
    ensures LastAfterStableSort(rs, |rs| - 1)
  {
    var n := |rs| - 1;
    assert forall j :: 0 <= j < n ==> rs[..n][j] == rs[j];
    StrLessIrreflexive(DateKey(rs[n]));
    forall j | 0 <= j < |rs|
      ensures !StrLess(DateKey(rs[n]), DateKey(rs[j]))
    {
      if j < n && StrLess(DateKey(rs[n]), DateKey(rs[j])) {
        StrLessTotal(DateKey(rs[n]), DateKey(rs[k]));
        if StrLess(DateKey(rs[k]), DateKey(rs[n])) {
          StrLessTransitive(DateKey(rs[k]), DateKey(rs[n]), DateKey(rs[j]));
        }
      }
    }
  }

  /** Only one session can be last after a stable sort: `LatestIndex` is that one. */
  lemma LatestIndexUnique(rs: seq<Record>, i: int)
    requires |rs| > 0 && LastAfterStableSort(rs, i)
    ensures i == LatestIndex(rs)
  {
  }

  /** The session a stable ascending sort by date puts last. */
  function Latest(rs: seq<Record>): (r: Record)
    requires |rs| > 0
    ensures r in rs
    ensures exists i :: LastAfterStableSort(rs, i) && r == rs[i]
  {
    rs[LatestIndex(rs)]
  }
}
