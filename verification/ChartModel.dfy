/** Charts: series and points with allocated IDs, a dense matrix of values, and references to the
    active series and point. */
module ChartModel {
  import opened FormModel
  import opened Limits
  import opened Optional
  import opened Sequences

  const MAX_CHART_ITEMS: nat := 1000000

  /** The summary series is addressed by this ID, which no other series may have. */
  const SUMMARY_ID: ObjectId := 1

  /** A caption: given by the user, or generated from a position. */
  datatype Caption = Given(text: string) | Numbered(n: nat)

  datatype Trends = Trends(ids: seq<ObjectId>, next: nat)

  datatype Series = Series(id: ObjectId, caption: Caption, trends: Trends)

  datatype Point = Point(id: ObjectId, caption: Caption)

  datatype Mode = Sample | ExplicitValues | Source

  /** A cell's value: nothing, a number of hundredths, or any other value. */
  datatype Scalar = Undefined | Hundredths(n: int) | Other(text: string)

  datatype Cell = Cell(series: ObjectId, point: ObjectId, value: Scalar, tooltip: string)

  /** The stored value of ActiveSeries or ActivePoint. */
  datatype Active = Absent | UndefinedRef | Ref(owner: ObjectId, id: ObjectId)

  datatype Chart = Chart(
    mode: Option<Mode>, lastSeries: Option<nat>, lastPoint: Option<nat>, series: seq<Series>, points: seq<Point>,
    values: seq<Cell>, bands: nat, summary: Trends, activeSeries: Active, activePoint: Active,
    autoSeriesText: bool, autoPointText: bool)

  function SeriesIds(c: Chart): (r: seq<ObjectId>)
    ensures |r| == |c.series| && forall i :: 0 <= i < |r| ==> r[i] == c.series[i].id
  {
    seq(|c.series|, i requires 0 <= i < |c.series| => c.series[i].id)
  }

  function PointIds(c: Chart): (r: seq<ObjectId>)
    ensures |r| == |c.points| && forall i :: 0 <= i < |r| ==> r[i] == c.points[i].id
  {
    seq(|c.points|, i requires 0 <= i < |c.points| => c.points[i].id)
  }

  // ---------- Validity ----------

  predicate TrendsValid(t: Trends) {
    && |t.ids| <= MAX_CHART_ITEMS && Distinct(t.ids)
    && forall i :: 0 <= i < |t.ids| ==> 0 < t.ids[i] < t.next
  }

  predicate SeriesIdsValid(ids: seq<ObjectId>) {
    Distinct(ids) && forall i :: 0 <= i < |ids| ==> 1 < ids[i] <= MAX_INT64
  }

  predicate PointIdsValid(ids: seq<ObjectId>) {
    Distinct(ids) && forall i :: 0 <= i < |ids| ==> 0 < ids[i] <= MAX_INT64
  }

  /** A stored last-assigned ID covers every ID in use, and fits in 64 signed bits. */
  predicate Covers(last: Option<nat>, least: nat, ids: seq<ObjectId>) {
    last.Some? ==> least <= last.value <= MAX_INT64 && forall i :: 0 <= i < |ids| ==> ids[i] <= last.value
  }

  predicate CellsResolve(values: seq<Cell>, series: seq<ObjectId>, points: seq<ObjectId>) {
    forall k :: 0 <= k < |values| ==> values[k].series in series && values[k].point in points
  }

  predicate PairsUnique(values: seq<Cell>) {
    forall j, k :: 0 <= j < k < |values| ==> values[j].series != values[k].series || values[j].point != values[k].point
  }

  predicate CellsValid(c: Chart) {
    && |c.values| == (if c.mode == Some(Source) then 0 else |c.series| * |c.points|)
    && CellsResolve(c.values, SeriesIds(c), PointIds(c)) && PairsUnique(c.values)
  }

  predicate ActivePointValid(id: ObjectId, c: Chart) {
    c.activePoint.Ref? ==> c.activePoint.owner == id && c.activePoint.id in PointIds(c)
  }

  predicate AllTrendsValid(c: Chart) {
    TrendsValid(c.summary) && forall i :: 0 <= i < |c.series| ==> TrendsValid(c.series[i].trends)
  }

  /** The checks validation makes on a chart's structure. ActiveSeries is not among them. */
  predicate ChartValid(id: ObjectId, c: Chart) {
    && AllTrendsValid(c) && SeriesIdsValid(SeriesIds(c)) && PointIdsValid(PointIds(c))
    && Covers(c.lastSeries, SUMMARY_ID, SeriesIds(c)) && Covers(c.lastPoint, 0, PointIds(c))
    && CellsValid(c) && ActivePointValid(id, c)
  }

  /** ActiveSeries names a series of this very chart, or nothing. */
  predicate ActiveSeriesLive(id: ObjectId, c: Chart) {
    c.activeSeries.Ref? ==> c.activeSeries.owner == id && c.activeSeries.id in SeriesIds(c)
  }

  // ---------- The matrix ----------

  type Pair = (ObjectId, ObjectId)

  function Row(s: ObjectId, points: seq<ObjectId>): (r: seq<Pair>)
    ensures |r| == |points| && forall j :: 0 <= j < |r| ==> r[j] == (s, points[j])
  {
    seq(|points|, j requires 0 <= j < |points| => (s, points[j]))
  }

  /** Every series with every point, series by series. */
  function Pairs(series: seq<ObjectId>, points: seq<ObjectId>): seq<Pair> {
    if series == [] then [] else Pairs(series[..|series| - 1], points) + Row(series[|series| - 1], points)
  }

  function PairsOf(values: seq<Cell>): (r: seq<Pair>)
    ensures |r| == |values| && forall k :: 0 <= k < |r| ==> r[k] == (values[k].series, values[k].point)
  {
    seq(|values|, k requires 0 <= k < |values| => (values[k].series, values[k].point))
  }

  predicate RowMajor(c: Chart) {
    PairsOf(c.values) == Pairs(SeriesIds(c), PointIds(c))
  }

  lemma {:induction false} PairsLength(series: seq<ObjectId>, points: seq<ObjectId>)
    ensures |Pairs(series, points)| == |series| * |points|
  {
    if series != [] {
      PairsLength(series[..|series| - 1], points);
      Distributes(|series| - 1, |points|);
    }
  }

  lemma {:induction false} Distributes(n: nat, m: nat)
    ensures n * m + m == (n + 1) * m
  {
  }

  /** The place of a pair: a row for every series, a column for every point. */
  lemma {:induction false} PairsAt(series: seq<ObjectId>, points: seq<ObjectId>, i: nat, j: nat)
    requires i < |series| && j < |points|
    ensures i * |points| + j < |Pairs(series, points)|
    ensures Pairs(series, points)[i * |points| + j] == (series[i], points[j])
  {
    var front := series[..|series| - 1];
    PairsLength(front, points);
    if i < |front| {
      PairsAt(front, points, i, j);
    }
  }

  lemma {:induction false} PairsMembers(series: seq<ObjectId>, points: seq<ObjectId>, p: Pair)
    ensures p in Pairs(series, points) <==> p.0 in series && p.1 in points
  {
    if series != [] {
      var front, last := series[..|series| - 1], series[|series| - 1];
      PairsMembers(front, points, p);
      assert series == front + [last];
      RowMembers(last, points, p);
    }
  }

  lemma {:induction false} RowMembers(s: ObjectId, points: seq<ObjectId>, p: Pair)
    ensures p in Row(s, points) <==> p.0 == s && p.1 in points
  {
    if p.0 == s && p.1 in points {
      var j :| 0 <= j < |points| && points[j] == p.1;
      assert Row(s, points)[j] == p;
    }
  }

  lemma {:induction false} PairsDistinct(series: seq<ObjectId>, points: seq<ObjectId>)
    requires Distinct(series) && Distinct(points)
    ensures Distinct(Pairs(series, points))
  {
    if series != [] {
      var front, last := series[..|series| - 1], series[|series| - 1];
      PairsDistinct(front, points);
      var a, b := Pairs(front, points), Row(last, points);
      forall i, j | 0 <= i < |a| && 0 <= j < |b| ensures a[i] != b[j] {
        assert a[i] in a;
        PairsMembers(front, points, a[i]);
        assert last !in front;
      }
      DistinctConcat(a, b);
    }
  }
}
