/** Runs of resizes and trendline operations on one chart: IDs are issued in ascending order and
    never twice. */
module ChartRuns {
  import opened ChartDocument
  import opened ChartModel
  import opened ChartResize
  import opened FormModel
  import opened Limits
  import opened Optional

  datatype Op = Resize(axis: Axis, n: nat) | AddTrend(s: ObjectId) | DeleteTrend(s: ObjectId, index: nat)

  /** What the document's operations do to one chart when they are applied. */
  ghost predicate StepsTo(id: ObjectId, c: Chart, op: Op, c': Chart) {
    match op
    case Resize(axis, n) => Resizable(id, c, axis, n) && ResizedTo(id, c, axis, n, c')
    case AddTrend(s) =>
      TrendsOf(c, s).Some? &&
      var t := TrendsOf(c, s).value;
      |t.ids| < MAX_CHART_ITEMS && 0 < t.next < MAX_UINT64 && c' == WithTrends(c, s, Trends(t.ids + [t.next], t.next + 1))
    case DeleteTrend(s, index) =>
      TrendsOf(c, s).Some? &&
      var t := TrendsOf(c, s).value;
      index < |t.ids| && c' == WithTrends(c, s, t.(ids := t.ids[..index] + t.ids[index + 1..]))
  }

  // ---------- Trendline operations on one chart ----------

  lemma {:induction false} FirstSeriesIs(series: seq<Series>, s: ObjectId, i: nat)
    requires i < |series| && series[i].id == s
    requires forall j, k :: 0 <= j < k < |series| ==> series[j].id != series[k].id
    ensures FirstSeries(series, s) == Some(i)
  {
    hide FirstSeries;
  }

  lemma {:induction false} WithTrendsMeans(c: Chart, s: ObjectId, t: Trends)
    requires TrendsOf(c, s).Some? && SeriesIdsValid(SeriesIds(c))
    ensures var c' := WithTrends(c, s, t);
            && SeriesIds(c') == SeriesIds(c) && PointIds(c') == PointIds(c)
            && c' == c.(series := c'.series, summary := c'.summary) && |c'.series| == |c.series|
            && TrendsOf(c', s) == Some(t)
            && (forall other :: other != s ==> TrendsOf(c', other) == TrendsOf(c, other))
            && (AllTrendsValid(c) && TrendsValid(t) ==> AllTrendsValid(c'))
  {
    hide FirstSeries, TrendsValid;
    var c' := WithTrends(c, s, t);
    assert SeriesIds(c') == SeriesIds(c) && PointIds(c') == PointIds(c);
    if s != SUMMARY_ID {
      var i := SeriesIndex(c, s).value;
      SeriesUnique(c);
      SeriesUnique(c');
      FirstSeriesIs(c'.series, s, i);
      forall other | other != s ensures TrendsOf(c', other) == TrendsOf(c, other) {
        if other != SUMMARY_ID { SameIndex(c, c', other); }
      }
    }
  }

  lemma {:induction false} SeriesUnique(c: Chart)
    requires SeriesIdsValid(SeriesIds(c))
    ensures forall j, k :: 0 <= j < k < |c.series| ==> c.series[j].id != c.series[k].id
  {
    forall j, k | 0 <= j < k < |c.series| ensures c.series[j].id != c.series[k].id {
      assert SeriesIds(c)[j] != SeriesIds(c)[k];
    }
  }

  lemma {:induction false} SameIndex(c: Chart, c': Chart, s: ObjectId)
    requires SeriesIds(c) == SeriesIds(c') && SeriesIdsValid(SeriesIds(c))
    ensures SeriesIndex(c, s) == SeriesIndex(c', s)
  {
    hide FirstSeries;
    SeriesUnique(c);
    SeriesUnique(c');
    if SeriesIndex(c, s).Some? {
      var i := SeriesIndex(c, s).value;
      assert SeriesIds(c)[i] == SeriesIds(c')[i];
      FirstSeriesIs(c'.series, s, i);
    } else {
      assert SeriesIndex(c', s).None?;
    }
  }

  // ---------- One step ----------

  lemma {:induction false} TrendStep(id: ObjectId, c: Chart, op: Op, c': Chart)
    requires ChartValid(id, c) && !op.Resize? && StepsTo(id, c, op, c')
    ensures SeriesIds(c') == SeriesIds(c) && PointIds(c') == PointIds(c)
    ensures c' == c.(series := c'.series, summary := c'.summary)
    ensures AllTrendsValid(c') && TrendsOf(c, op.s).Some? && TrendsOf(c', op.s).Some?
    ensures forall other :: other != op.s ==> TrendsOf(c', other) == TrendsOf(c, other)
    ensures var t, t' := TrendsOf(c, op.s).value, TrendsOf(c', op.s).value;
            t'.next >= t.next && forall x :: x in t'.ids ==> x in t.ids || x == t.next
  {
    hide TrendsOf, WithTrends, CellsValid, SeriesIdsValid, PointIdsValid, Covers, ActivePointValid, AllTrendsValid,
      TrendsValid;
    var t := TrendsOf(c, op.s).value;
    TrendsOfValid(c, op.s);
    match op {
      case AddTrend(s) =>
        AddTrendValid(t);
        WithTrendsMeans(c, s, Trends(t.ids + [t.next], t.next + 1));
      case DeleteTrend(s, index) =>
        DeleteTrendValid(t, index);
        WithTrendsMeans(c, s, t.(ids := t.ids[..index] + t.ids[index + 1..]));
    }
  }

  lemma {:induction false} TrendsOfValid(c: Chart, s: ObjectId)
    requires AllTrendsValid(c) && TrendsOf(c, s).Some?
    ensures TrendsValid(TrendsOf(c, s).value)
  {
    hide TrendsValid, FirstSeries;
  }

  lemma {:induction false} AddTrendValid(t: Trends)
    requires TrendsValid(t) && |t.ids| < MAX_CHART_ITEMS && t.next > 0
    ensures TrendsValid(Trends(t.ids + [t.next], t.next + 1))
  {
  }

  lemma {:induction false} DeleteTrendValid(t: Trends, index: nat)
    requires TrendsValid(t) && index < |t.ids|
    ensures TrendsValid(t.(ids := t.ids[..index] + t.ids[index + 1..]))
  {
  }

  /** Every operation keeps a chart valid. */
  lemma {:induction false} StepKeepsValid(id: ObjectId, c: Chart, op: Op, c': Chart)
    requires ChartValid(id, c) && StepsTo(id, c, op, c')
    ensures ChartValid(id, c')
  {
    hide TrendsOf, WithTrends, SeriesIdsValid, PointIdsValid, Covers, AllTrendsValid, Resizable, ResizedTo;
    if op.Resize? {
      ResizeKeepsValid(id, c, op.axis, op.n, c');
    } else {
      TrendStep(id, c, op, c');
    }
  }

  /** Every series and point ID is an old one or above all those issued before. */
  ghost predicate Advances(c: Chart, c': Chart) {
    && HighSeries(c') >= HighSeries(c) && HighPoint(c') >= HighPoint(c)
    && (forall s :: s in SeriesIds(c') ==> s in SeriesIds(c) || s > HighSeries(c))
    && (forall p :: p in PointIds(c') ==> p in PointIds(c) || p > HighPoint(c))
  }

  lemma {:induction false} StepAdvances(id: ObjectId, c: Chart, op: Op, c': Chart)
    requires ChartValid(id, c) && StepsTo(id, c, op, c')
    ensures Advances(c, c')
    ensures Ascending(NewIds(SeriesIds(c), SeriesIds(c'))) && Ascending(NewIds(PointIds(c), PointIds(c')))
  {
    hide TrendsOf, WithTrends, ChartValid, Resizable, ResizedTo, MaxId;
    if op.Resize? {
      ResizeIssues(id, c, op.axis, op.n, c');
    } else {
      TrendStep(id, c, op, c');
    }
  }

  /** The trendline IDs of a series that stays are old ones or above all those issued before. */
  ghost predicate TrendsAdvance(c: Chart, c': Chart, s: ObjectId) {
    TrendsOf(c, s).Some? && TrendsOf(c', s).Some? ==>
      var t, t' := TrendsOf(c, s).value, TrendsOf(c', s).value;
      t'.next >= t.next && forall x :: x in t'.ids ==> x in t.ids || x >= t.next
  }

  lemma {:induction false} ResizeKeepsTrends(id: ObjectId, c: Chart, axis: Axis, n: nat, c': Chart, s: ObjectId)
    requires Resizable(id, c, axis, n) && ResizedTo(id, c, axis, n, c')
    requires TrendsOf(c, s).Some? && TrendsOf(c', s).Some?
    ensures TrendsOf(c', s) == TrendsOf(c, s)
  {
    hide RowMajor, CellsKept, EffectiveMode, RepairedActive, HighPoint, FirstSeries, MaxId, Covers, CellsValid,
      AllTrendsValid, ActivePointValid;
    if n != CountOf(c, axis) && s != SUMMARY_ID {
      if axis == SeriesAxis {
        assert c'.series == GrownSeries(c, n);
        var i, j := SeriesIndex(c, s).value, SeriesIndex(c', s).value;
        HighSeriesCovers(c);
        assert SeriesIds(c)[i] == s;
        assert j < |c.series|;
        assert SeriesIds(c)[j] == s;
      } else {
        assert c'.series == c.series;
      }
    }
  }

  lemma {:induction false} StepTrendsAdvance(id: ObjectId, c: Chart, op: Op, c': Chart, s: ObjectId)
    requires ChartValid(id, c) && StepsTo(id, c, op, c')
    ensures TrendsAdvance(c, c', s)
  {
    hide TrendsOf, WithTrends, ChartValid, Resizable, ResizedTo;
    if TrendsOf(c, s).Some? && TrendsOf(c', s).Some? {
      if op.Resize? {
        ResizeKeepsTrends(id, c, op.axis, op.n, c', s);
      } else {
        TrendStep(id, c, op, c');
      }
    }
  }

  // ---------- Runs ----------

  ghost predicate Follows(id: ObjectId, c: Chart, c': Chart) {
    exists op :: StepsTo(id, c, op, c')
  }

  /** A run of applied operations, from a valid chart. */
  ghost predicate IsRun(id: ObjectId, cs: seq<Chart>) {
    cs != [] && ChartValid(id, cs[0]) && forall i, j :: 0 <= i && j == i + 1 && j < |cs| ==> Follows(id, cs[i], cs[j])
  }

  lemma {:induction false} RunValid(id: ObjectId, cs: seq<Chart>, i: nat)
    requires IsRun(id, cs) && i < |cs|
    ensures ChartValid(id, cs[i])
  {
    hide ChartValid, StepsTo;
    if i > 0 {
      RunValid(id, cs, i - 1);
      assert Follows(id, cs[i - 1], cs[i]);
      var op :| StepsTo(id, cs[i - 1], op, cs[i]);
      StepKeepsValid(id, cs[i - 1], op, cs[i]);
    }
  }

  /** The highest ID issued never falls, and bounds all earlier IDs. */
  lemma {:induction false} RunAdvances(id: ObjectId, cs: seq<Chart>, i: nat, j: nat)
    requires IsRun(id, cs) && i <= j < |cs|
    ensures Advances(cs[i], cs[j])
    decreases j - i
  {
    hide ChartValid, StepsTo, HighSeries, HighPoint;
    if i < j {
      RunAdvances(id, cs, i, j - 1);
      RunValid(id, cs, j - 1);
      assert Follows(id, cs[j - 1], cs[j]);
      var op :| StepsTo(id, cs[j - 1], op, cs[j]);
      StepAdvances(id, cs[j - 1], op, cs[j]);
    }
  }

  lemma {:induction false} Issued(c: Chart)
    ensures forall s :: s in SeriesIds(c) ==> s <= HighSeries(c)
    ensures forall p :: p in PointIds(c) ==> p <= HighPoint(c)
  {
    HighSeriesCovers(c);
    HighPointCovers(c);
  }

  /** A deleted series or point ID is never issued again. */
  lemma {:induction false} NeverReissued(id: ObjectId, cs: seq<Chart>, i: nat, j: nat, k: nat, x: ObjectId)
    requires IsRun(id, cs) && i <= j <= k < |cs|
    ensures x in SeriesIds(cs[i]) && x !in SeriesIds(cs[j]) ==> x !in SeriesIds(cs[k])
    ensures x in PointIds(cs[i]) && x !in PointIds(cs[j]) ==> x !in PointIds(cs[k])
  {
    hide ChartValid, StepsTo, HighSeries, HighPoint;
    Issued(cs[i]);
    RunAdvances(id, cs, i, j);
    RunAdvances(id, cs, j, k);
  }

  /** An ID issued by a step is above every ID any earlier chart had; no series gets the summary's ID. */
  lemma {:induction false} IssuedAscending(id: ObjectId, cs: seq<Chart>, i: nat, j: nat, k: nat, x: ObjectId,
                                           y: ObjectId)
    requires IsRun(id, cs) && i <= j && k == j + 1 && k < |cs|
    ensures x in SeriesIds(cs[i]) && y in SeriesIds(cs[k]) && y !in SeriesIds(cs[j]) ==> x < y
    ensures x in PointIds(cs[i]) && y in PointIds(cs[k]) && y !in PointIds(cs[j]) ==> x < y
    ensures SUMMARY_ID !in SeriesIds(cs[k])
  {
    hide StepsTo, HighSeries, HighPoint, CellsValid, AllTrendsValid, ActivePointValid, Covers, PointIdsValid;
    Issued(cs[i]);
    RunAdvances(id, cs, i, j);
    RunAdvances(id, cs, j, k);
    RunValid(id, cs, k);
  }

  /** A series that a chart has lost and has again later was there all the time: none is reissued. */
  lemma {:induction false} SeriesStays(id: ObjectId, cs: seq<Chart>, i: nat, j: nat, k: nat, s: ObjectId)
    requires IsRun(id, cs) && i <= j <= k < |cs| && TrendsOf(cs[i], s).Some? && TrendsOf(cs[k], s).Some?
    ensures TrendsOf(cs[j], s).Some?
  {
    hide ChartValid, StepsTo, FirstSeries;
    NeverReissued(id, cs, i, j, k, s);
    TrendsOfIff(cs[i], s);
    TrendsOfIff(cs[j], s);
    TrendsOfIff(cs[k], s);
  }

  lemma {:induction false} TrendsOfIff(c: Chart, s: ObjectId)
    ensures TrendsOf(c, s).Some? <==> s == SUMMARY_ID || s in SeriesIds(c)
  {
    hide FirstSeries;
    if s != SUMMARY_ID && SeriesIndex(c, s).Some? {
      assert SeriesIds(c)[SeriesIndex(c, s).value] == s;
    }
  }

  lemma {:induction false} RunTrendsAdvance(id: ObjectId, cs: seq<Chart>, i: nat, j: nat, s: ObjectId)
    requires IsRun(id, cs) && i <= j < |cs|
    ensures TrendsAdvance(cs[i], cs[j], s)
    decreases j - i
  {
    hide ChartValid, StepsTo, TrendsOf;
    if i < j && TrendsOf(cs[i], s).Some? && TrendsOf(cs[j], s).Some? {
      SeriesStays(id, cs, i, j - 1, j, s);
      RunTrendsAdvance(id, cs, i, j - 1, s);
      RunValid(id, cs, j - 1);
      assert Follows(id, cs[j - 1], cs[j]);
      var op :| StepsTo(id, cs[j - 1], op, cs[j]);
      StepTrendsAdvance(id, cs[j - 1], op, cs[j], s);
    }
  }

  /** A deleted trendline ID is never issued again to its series; IDs are issued in ascending order. */
  lemma {:induction false} TrendNeverReissued(id: ObjectId, cs: seq<Chart>, i: nat, j: nat, k: nat, s: ObjectId,
                                              x: ObjectId)
    requires IsRun(id, cs) && i <= j <= k < |cs|
    requires TrendsOf(cs[i], s).Some? && TrendsOf(cs[j], s).Some? && TrendsOf(cs[k], s).Some?
    requires x in TrendsOf(cs[i], s).value.ids
    ensures x !in TrendsOf(cs[j], s).value.ids ==> x !in TrendsOf(cs[k], s).value.ids
    ensures forall y :: y in TrendsOf(cs[k], s).value.ids && y !in TrendsOf(cs[j], s).value.ids ==> x < y
  {
    hide ChartValid, StepsTo, TrendsOf;
    RunValid(id, cs, i);
    TrendsBelow(id, cs[i], s);
    RunTrendsAdvance(id, cs, i, j, s);
    RunTrendsAdvance(id, cs, j, k, s);
  }

  lemma {:induction false} TrendsBelow(id: ObjectId, c: Chart, s: ObjectId)
    requires ChartValid(id, c) && TrendsOf(c, s).Some?
    ensures forall x :: x in TrendsOf(c, s).value.ids ==> x < TrendsOf(c, s).value.next
  {
    TrendsOfValid(c, s);
  }
}
