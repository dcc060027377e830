/** The resource budget that all charts of a document share. Counts are 64-bit: no addition, product
    or subtraction below leaves that range. */
module ChartBudget {
  import opened ChartModel
  import opened FormModel
  import opened Limits
  import opened Optional

  type Size = n: nat | n < 0x1_0000_0000_0000_0000

  datatype ControlEntry = ControlEntry(id: ObjectId, chart: Option<Chart>, bound: bool, flawed: bool)

  /** The collections of a document fit in memory. */
  predicate Addressable(controls: seq<ControlEntry>) {
    forall i :: 0 <= i < |controls| && controls[i].chart.Some? ==> ChartAddressable(controls[i].chart.value)
  }

  predicate ChartAddressable(c: Chart) {
    && |c.series| <= MAX_UINT64 && |c.points| <= MAX_UINT64 && c.bands <= MAX_UINT64 && |c.summary.ids| <= MAX_UINT64
    && forall i :: 0 <= i < |c.series| ==> |c.series[i].trends.ids| <= MAX_UINT64
  }

  function Min(a: nat, b: nat): nat {
    if a < b then a else b
  }

  /** The trendlines of the first n series. */
  function TrendCount(series: seq<Series>, n: nat): nat
    requires n <= |series|
  {
    if n == 0 then 0 else TrendCount(series, n - 1) + |series[n - 1].trends.ids|
  }

  /** The cells of the matrix; a chart bound to a source keeps none. */
  function Cells(c: Chart, series: nat, points: nat): nat {
    if c.mode == Some(Source) then 0 else series * points
  }

  /** What a chart costs once it has so many series and points; trendlines count for the series that remain. */
  function Cost(c: Chart, series: nat, points: nat): nat {
    series + points + Cells(c, series, points) + c.bands + |c.summary.ids| + TrendCount(c.series, Min(series, |c.series|))
  }

  /** The resized chart counts at its new size, every other at its own. */
  function CostIn(e: ControlEntry, resized: ObjectId, newSeries: nat, newPoints: nat): nat {
    match e.chart
    case None => 0
    case Some(c) =>
      if resized != NULL_ID && e.id == resized then Cost(c, newSeries, newPoints) else Cost(c, |c.series|, |c.points|)
  }

  function Total(controls: seq<ControlEntry>, resized: ObjectId, newSeries: nat, newPoints: nat): nat {
    if controls == [] then 0
    else Total(controls[..|controls| - 1], resized, newSeries, newPoints)
         + CostIn(controls[|controls| - 1], resized, newSeries, newPoints)
  }

  /** Everything a chart stores: series, points, cells, bands, and the trendlines of the summary and of
      every series. */
  function ItemsStored(c: Chart): nat {
    |c.series| + |c.points| + |c.values| + c.bands + |c.summary.ids| + TrendlinesStored(c.series)
  }

  function TrendlinesStored(series: seq<Series>): nat {
    if series == [] then 0 else |series[0].trends.ids| + TrendlinesStored(series[1..])
  }

  lemma {:induction false} TrendCountStored(series: seq<Series>, n: nat)
    requires n <= |series|
    ensures TrendCount(series, n) + TrendlinesStored(series[n..]) == TrendlinesStored(series)
  {
    if n > 0 {
      TrendCountStored(series, n - 1);
      assert series[n - 1..][1..] == series[n..];
    }
  }

  /** A valid chart costs one for every item it stores. */
  lemma {:induction false} CostIsItems(c: Chart)
    requires CellsValid(c)
    ensures Cost(c, |c.series|, |c.points|) == ItemsStored(c)
  {
    hide CellsResolve, PairsUnique;
    TrendCountStored(c.series, |c.series|);
    NoTrendlines();
  }

  lemma {:induction false} NoTrendlines()
    ensures TrendlinesStored([]) == 0
  {
  }

  function ItemsOfAll(controls: seq<ControlEntry>): nat {
    if controls == [] then 0
    else (match controls[0].chart case None => 0 case Some(c) => ItemsStored(c)) + ItemsOfAll(controls[1..])
  }

  /** The budget counts the items of all charts. */
  lemma {:induction false} TotalIsItems(controls: seq<ControlEntry>, n: nat)
    requires n <= |controls| && forall i :: 0 <= i < |controls| && controls[i].chart.Some? ==> CellsValid(controls[i].chart.value)
    ensures Total(controls[..n], NULL_ID, 0, 0) + ItemsOfAll(controls[n..]) == ItemsOfAll(controls)
  {
    hide CellsValid, Cost, ItemsStored;
    if n > 0 {
      TotalIsItems(controls, n - 1);
      assert controls[..n][..n - 1] == controls[..n - 1];
      assert controls[n - 1..][1..] == controls[n..];
      if controls[n - 1].chart.Some? { CostIsItems(controls[n - 1].chart.value); }
    }
  }

  lemma {:induction false} TotalGrows(controls: seq<ControlEntry>, i: nat, resized: ObjectId, newSeries: nat,
                                      newPoints: nat)
    requires i <= |controls|
    ensures Total(controls[..i], resized, newSeries, newPoints) <= Total(controls, resized, newSeries, newPoints)
    decreases |controls| - i
  {
    if i == |controls| {
      assert controls[..i] == controls;
    } else {
      assert controls[..i + 1][..i] == controls[..i];
      TotalGrows(controls, i + 1, resized, newSeries, newPoints);
    }
  }

  /** The matrix is over the limit exactly when one count is over the limit's share of the other. */
  lemma {:induction false} OverShare(c: Chart, series: nat, points: nat, limit: nat)
    ensures c.mode != Some(Source) && points > 0 && series > limit / points <==> Cells(c, series, points) > limit
  {
    if points > 0 {
      if series > limit / points {
        Scales(limit / points + 1, series, points);
      } else {
        Scales(series, limit / points, points);
      }
    }
  }

  lemma {:induction false} Scales(a: nat, b: nat, c: nat)
    requires a <= b
    ensures a * c <= b * c
  {
  }

  /** Adds a count to the budget, unless that takes it over the limit. */
  method Charge(budget: Size, count: Size) returns (fits: bool, budget': Size)
    requires budget <= MAX_CHART_ITEMS
    ensures fits <==> budget + count <= MAX_CHART_ITEMS
    ensures budget' == if fits then budget + count else budget
  {
    var room: Size := MAX_CHART_ITEMS - budget;
    if count > room { return false, budget; }
    return true, budget + count;
  }

  /** Charges the trendlines of the first so many series. */
  method ChargeTrends(c: Chart, retained: Size, start: Size) returns (fits: bool, budget: Size)
    requires ChartAddressable(c) && retained <= |c.series| && start <= MAX_CHART_ITEMS
    ensures fits <==> start + TrendCount(c.series, retained) <= MAX_CHART_ITEMS
    ensures fits ==> budget == start + TrendCount(c.series, retained)
  {
    budget, fits := start, true;
    var i: Size := 0;
    while i < retained
      invariant i <= retained && budget == start + TrendCount(c.series, i) <= MAX_CHART_ITEMS
    {
      fits, budget := Charge(budget, |c.series[i].trends.ids|);
      if !fits {
        TrendCountGrows(c.series, i + 1, retained);
        return;
      }
      i := i + 1;
    }
    fits := true;
  }

  lemma {:induction false} TrendCountGrows(series: seq<Series>, i: nat, n: nat)
    requires i <= n <= |series|
    ensures TrendCount(series, i) <= TrendCount(series, n)
    decreases n - i
  {
    if i < n { TrendCountGrows(series, i + 1, n); }
  }

  method ChargeMatrix(c: Chart, series: Size, points: Size, start: Size) returns (fits: bool, budget: Size)
    requires start <= MAX_CHART_ITEMS
    ensures fits <==> start + series + points + Cells(c, series, points) <= MAX_CHART_ITEMS
    ensures fits ==> budget == start + series + points + Cells(c, series, points)
  {
    hide Cells;
    budget := start;
    var sourceMode := c.mode == Some(Source);
    OverShare(c, series, points, MAX_CHART_ITEMS);
    if series > MAX_CHART_ITEMS || points > MAX_CHART_ITEMS
       || (!sourceMode && points > 0 && series > MAX_CHART_ITEMS / points) { return false, budget; }
    CellsAre(c, series, points);
    fits, budget := Charge(budget, series);
    if !fits { return; }
    fits, budget := Charge(budget, points);
    if !fits { return; }
    if !sourceMode {
      var product: Size := series * points;
      fits, budget := Charge(budget, product);
    }
  }

  lemma {:induction false} CellsAre(c: Chart, series: nat, points: nat)
    ensures Cells(c, series, points) == if c.mode == Some(Source) then 0 else series * points
  {
  }

  method ChargeChart(c: Chart, series: Size, points: Size, start: Size) returns (fits: bool, budget: Size)
    requires ChartAddressable(c) && start <= MAX_CHART_ITEMS
    ensures fits <==> start + Cost(c, series, points) <= MAX_CHART_ITEMS
    ensures fits ==> budget == start + Cost(c, series, points)
  {
    hide Cells, TrendCount;
    fits, budget := ChargeMatrix(c, series, points, start);
    if !fits { return; }
    fits, budget := Charge(budget, c.bands);
    if !fits { return; }
    fits, budget := Charge(budget, |c.summary.ids|);
    if !fits { return; }
    fits, budget := ChargeTrends(c, Min(series, |c.series|), budget);
  }

  /** Whether all charts, one of them at a new size, and some extra trendlines fit the limit. */
  method ChartBudgetFits(controls: seq<ControlEntry>, resized: ObjectId, newSeries: Size, newPoints: Size,
                         extraTrendlines: Size)
    returns (fits: bool)
    requires Addressable(controls)
    ensures fits <==> Total(controls, resized, newSeries, newPoints) + extraTrendlines <= MAX_CHART_ITEMS
  {
    hide Cost;
    var budget: Size := 0;
    var i := 0;
    while i < |controls|
      invariant 0 <= i <= |controls|
      invariant budget == Total(controls[..i], resized, newSeries, newPoints) <= MAX_CHART_ITEMS
    {
      assert controls[..i + 1][..i] == controls[..i];
      TotalGrows(controls, i + 1, resized, newSeries, newPoints);
      if controls[i].chart.Some? {
        var c := controls[i].chart.value;
        var changed := resized != NULL_ID && controls[i].id == resized;
        fits, budget := ChargeChart(c, if changed then newSeries else |c.series|, if changed then newPoints else |c.points|, budget);
        if !fits { return false; }
      }
      i := i + 1;
    }
    assert controls[..i] == controls;
    fits, budget := Charge(budget, extraTrendlines);
  }
}
