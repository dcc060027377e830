/** Changing a chart's number of series or points: what the result is, and what it keeps. */
module ChartResize {
  import opened ChartBudget
  import opened ChartModel
  import opened FormGraph
  import opened FormModel
  import opened Limits
  import opened Optional
  import opened Sequences

  datatype Axis = SeriesAxis | PointAxis

  // ---------- The highest ID issued ----------

  function MaxId(ids: seq<ObjectId>, least: nat): (m: nat)
    ensures least <= m && forall i :: 0 <= i < |ids| ==> ids[i] <= m
    ensures m == least || m in ids
  {
    if ids == [] then least
    else
      var m := MaxId(ids[..|ids| - 1], least);
      if ids[|ids| - 1] > m then ids[|ids| - 1] else m
  }

  /** No series ID above this one was ever issued. */
  function HighSeries(c: Chart): nat {
    MaxId(SeriesIds(c), if c.lastSeries.Some? then c.lastSeries.value else SUMMARY_ID)
  }

  function HighPoint(c: Chart): nat {
    MaxId(PointIds(c), if c.lastPoint.Some? then c.lastPoint.value else 0)
  }

  // ---------- The new series and points ----------

  function NewSeries(c: Chart, i: nat): Series {
    Series(HighSeries(c) + 1 + i, if c.autoSeriesText then Numbered(|c.series| + i + 1) else Given(""), Trends([], 1))
  }

  function NewPoint(c: Chart, i: nat): Point {
    Point(HighPoint(c) + 1 + i, if c.autoPointText then Numbered(|c.points| + i + 1) else Given(""))
  }

  /** The first n series, followed by new ones if there are fewer. */
  function GrownSeries(c: Chart, n: nat): (r: seq<Series>)
    ensures |r| == n
    ensures forall i :: 0 <= i < n ==> r[i] == if i < |c.series| then c.series[i] else NewSeries(c, i - |c.series|)
  {
    seq(n, i requires 0 <= i < n => if i < |c.series| then c.series[i] else NewSeries(c, i - |c.series|))
  }

  function GrownPoints(c: Chart, n: nat): (r: seq<Point>)
    ensures |r| == n
    ensures forall i :: 0 <= i < n ==> r[i] == if i < |c.points| then c.points[i] else NewPoint(c, i - |c.points|)
  {
    seq(n, i requires 0 <= i < n => if i < |c.points| then c.points[i] else NewPoint(c, i - |c.points|))
  }

  function Added(before: nat, n: nat): nat {
    if n > before then n - before else 0
  }

  function EffectiveMode(c: Chart): Mode {
    match c.mode
    case Some(m) => m
    case None => if c.series == [] || c.points == [] then Sample else ExplicitValues
  }

  /** ActiveSeries follows the series that disappear: it names the last one left, or nothing. */
  function RepairedActive(id: ObjectId, c: Chart, series: seq<Series>): Active {
    if series == [] then Absent
    else match c.activeSeries
      case Ref(_, s) => if exists i :: 0 <= i < |series| && series[i].id == s then c.activeSeries
        else Ref(id, series[|series| - 1].id)
      case _ => c.activeSeries
  }

  // ---------- The new cells ----------

  predicate HasCell(values: seq<Cell>, s: ObjectId, p: ObjectId) {
    exists k :: 0 <= k < |values| && values[k].series == s && values[k].point == p
  }

  /** A cell of a new pair: empty, or in a sample chart a number from 0.00 to 20.00. */
  predicate Fresh(mode: Mode, cell: Cell) {
    && cell.tooltip == ""
    && if mode == ExplicitValues then cell.value == Undefined else cell.value.Hundredths? && 0 <= cell.value.n <= 2000
  }

  ghost predicate CellKept(values: seq<Cell>, mode: Mode, cell: Cell) {
    if HasCell(values, cell.series, cell.point) then cell in values else Fresh(mode, cell)
  }

  ghost predicate CellsKept(values: seq<Cell>, mode: Mode, cells: seq<Cell>) {
    forall k :: 0 <= k < |cells| ==> CellKept(values, mode, cells[k])
  }

  // ---------- The result ----------

  function CountOf(c: Chart, axis: Axis): nat {
    if axis == SeriesAxis then |c.series| else |c.points|
  }

  /** The resized chart, but for its cells. */
  function Reshaped(id: ObjectId, c: Chart, axis: Axis, n: nat): Chart {
    match axis
    case SeriesAxis =>
      c.(mode := Some(EffectiveMode(c)), series := GrownSeries(c, n), lastSeries := Some(HighSeries(c) + Added(|c.series|, n)),
         activeSeries := RepairedActive(id, c, GrownSeries(c, n)), values := [])
    case PointAxis =>
      c.(mode := Some(EffectiveMode(c)), points := GrownPoints(c, n), lastPoint := Some(HighPoint(c) + Added(|c.points|, n)), values := [])
  }

  ghost predicate ResizedTo(id: ObjectId, c: Chart, axis: Axis, n: nat, c': Chart) {
    if n == CountOf(c, axis) then c' == c
    else
      && c'.(values := []) == Reshaped(id, c, axis, n)
      && RowMajor(c') && CellsKept(c.values, EffectiveMode(c), c'.values)
  }

  predicate KeepsActivePoint(c: Chart, n: nat) {
    c.activePoint.Ref? && n < |c.points| ==> exists i :: 0 <= i < n && c.points[i].id == c.activePoint.id
  }

  /** What a resize checks before it changes anything. */
  predicate Resizable(id: ObjectId, c: Chart, axis: Axis, n: nat) {
    && ChartValid(id, c) && c.mode != Some(Source)
    && (axis == PointAxis ==> KeepsActivePoint(c, n))
    && (axis == SeriesAxis ==> HighSeries(c) + Added(|c.series|, n) <= MAX_INT64)
    && (axis == PointAxis ==> HighPoint(c) + Added(|c.points|, n) <= MAX_INT64)
  }

  // ---------- The result in plain terms ----------

  /** The highest ID issued so far: the stored one, or else the one below the first free ID, unless one in use is higher. */
  lemma {:induction false} HighestIssued(c: Chart, x: nat)
    ensures HighSeries(c) <= x <==>
            (if c.lastSeries.Some? then c.lastSeries.value <= x else 1 <= x) &&
            forall i :: 0 <= i < |c.series| ==> c.series[i].id <= x
    ensures HighPoint(c) <= x <==>
            (c.lastPoint.Some? ==> c.lastPoint.value <= x) && forall i :: 0 <= i < |c.points| ==> c.points[i].id <= x
  {
    hide MaxId;
    assert forall i :: 0 <= i < |c.series| ==> SeriesIds(c)[i] == c.series[i].id;
    assert forall i :: 0 <= i < |c.points| ==> PointIds(c)[i] == c.points[i].id;
    if HighSeries(c) in SeriesIds(c) { var i :| 0 <= i < |c.series| && SeriesIds(c)[i] == HighSeries(c); }
    if HighPoint(c) in PointIds(c) { var i :| 0 <= i < |c.points| && PointIds(c)[i] == HighPoint(c); }
  }

  /** What a change of the series leaves of the series: the first n, and after them new ones without
      trendlines, each with the next ID and its number as caption if captions are automatic. */
  lemma {:induction false} SeriesAfter(id: ObjectId, c: Chart, n: nat, c': Chart, i: nat)
    requires ResizedTo(id, c, SeriesAxis, n, c') && n != |c.series|
    ensures |c'.series| == n && c'.points == c.points && c'.lastPoint == c.lastPoint
    ensures c'.lastSeries == Some(if n > |c.series| then HighSeries(c) + (n - |c.series|) else HighSeries(c))
    ensures i < n && i < |c.series| ==> c'.series[i] == c.series[i]
    ensures |c.series| <= i < n ==>
              && c'.series[i].id == HighSeries(c) + (i - |c.series|) + 1
              && c'.series[i].caption == (if c.autoSeriesText then Numbered(i + 1) else Given(""))
              && c'.series[i].trends.ids == [] && c'.series[i].trends.next == 1
  {
    hide HighSeries, HighPoint, RowMajor, CellsKept, RepairedActive, EffectiveMode;
    assert c'.series == GrownSeries(c, n);
  }

  lemma {:induction false} PointsAfter(id: ObjectId, c: Chart, n: nat, c': Chart, i: nat)
    requires ResizedTo(id, c, PointAxis, n, c') && n != |c.points|
    ensures |c'.points| == n && c'.series == c.series && c'.lastSeries == c.lastSeries
    ensures c'.lastPoint == Some(if n > |c.points| then HighPoint(c) + (n - |c.points|) else HighPoint(c))
    ensures i < n && i < |c.points| ==> c'.points[i] == c.points[i]
    ensures |c.points| <= i < n ==>
              && c'.points[i].id == HighPoint(c) + (i - |c.points|) + 1
              && c'.points[i].caption == (if c.autoPointText then Numbered(i + 1) else Given(""))
  {
    hide HighSeries, HighPoint, RowMajor, CellsKept, RepairedActive, EffectiveMode;
    assert c'.points == GrownPoints(c, n);
  }

  /** What no change of the counts touches; and the mode, which is stored even if it was not before: a chart
      without series or points is then a sample. */
  lemma {:induction false} RestAfter(id: ObjectId, c: Chart, axis: Axis, n: nat, c': Chart)
    requires ResizedTo(id, c, axis, n, c') && n != CountOf(c, axis)
    ensures c'.bands == c.bands && c'.summary == c.summary && c'.activePoint == c.activePoint
    ensures c'.autoSeriesText == c.autoSeriesText && c'.autoPointText == c.autoPointText
    ensures c.mode.Some? ==> c'.mode == c.mode
    ensures c.mode.None? && (|c.series| == 0 || |c.points| == 0) ==> c'.mode == Some(Sample)
    ensures c.mode.None? && |c.series| > 0 && |c.points| > 0 ==> c'.mode == Some(ExplicitValues)
  {
    hide HighSeries, HighPoint, RowMajor, CellsKept, RepairedActive, GrownSeries, GrownPoints;
  }

  /** The cell in row i and column j after a change of the counts: the one there was for its series and point,
      or a fresh one, which is empty unless the chart is a sample. */
  lemma {:induction false} CellAfter(id: ObjectId, c: Chart, axis: Axis, n: nat, c': Chart, i: nat, j: nat)
    requires ResizedTo(id, c, axis, n, c') && n != CountOf(c, axis) && i < |c'.series| && j < |c'.points|
    ensures var k := i * |c'.points| + j;
            && k < |c'.values| && c'.values[k].series == c'.series[i].id && c'.values[k].point == c'.points[j].id
            && ((exists v :: v in c.values && v.series == c'.series[i].id && v.point == c'.points[j].id) ==>
                  c'.values[k] in c.values)
            && ((forall v :: v in c.values ==> v.series != c'.series[i].id || v.point != c'.points[j].id) ==>
                  c'.values[k].tooltip == "" &&
                  (c'.mode == Some(ExplicitValues) ==> c'.values[k].value == Undefined) &&
                  (c'.mode != Some(ExplicitValues) ==>
                     exists amount :: 0 <= amount <= 2000 && c'.values[k].value == Hundredths(amount)))
  {
    hide HighSeries, HighPoint, RepairedActive, GrownSeries, GrownPoints, Pairs, EffectiveMode, HasCell;
    var k := i * |c'.points| + j;
    PairsAt(SeriesIds(c'), PointIds(c'), i, j);
    assert PairsOf(c'.values)[k] == (c'.series[i].id, c'.points[j].id);
    assert CellKept(c.values, EffectiveMode(c), c'.values[k]);
    HasCellIff(c.values, c'.series[i].id, c'.points[j].id);
    assert c'.mode == Some(EffectiveMode(c));
  }

  lemma {:induction false} HasCellIff(values: seq<Cell>, s: ObjectId, p: ObjectId)
    ensures HasCell(values, s, p) <==> exists v :: v in values && v.series == s && v.point == p
  {
    if HasCell(values, s, p) {
      var k :| 0 <= k < |values| && values[k].series == s && values[k].point == p;
      assert values[k] in values;
    }
  }

  // ---------- Validity is kept ----------

  lemma {:induction false} GrownSeriesIds(c: Chart, n: nat, ids: seq<ObjectId>)
    requires SeriesIdsValid(SeriesIds(c)) && 1 <= HighSeries(c) && HighSeries(c) + Added(|c.series|, n) <= MAX_INT64
    requires |ids| == n && forall i :: 0 <= i < n ==> ids[i] == GrownSeries(c, n)[i].id
    ensures SeriesIdsValid(ids)
    ensures forall i :: 0 <= i < n ==> ids[i] <= HighSeries(c) + Added(|c.series|, n)
  {
    hide HighSeries;
    HighSeriesCovers(c);
    var ids0 := SeriesIds(c);
    forall i | 0 <= i < n
      ensures ids[i] == if i < |ids0| then ids0[i] else HighSeries(c) + 1 + (i - |ids0|)
    {
    }
  }

  lemma {:induction false} HighSeriesCovers(c: Chart)
    ensures HighSeries(c) >= 0 && forall i :: 0 <= i < |SeriesIds(c)| ==> SeriesIds(c)[i] <= HighSeries(c)
    ensures SeriesIdsValid(SeriesIds(c)) && Covers(c.lastSeries, SUMMARY_ID, SeriesIds(c)) ==> 1 <= HighSeries(c) <= MAX_INT64
  {
  }

  lemma {:induction false} GrownPointIds(c: Chart, n: nat, ids: seq<ObjectId>)
    requires PointIdsValid(PointIds(c)) && HighPoint(c) + Added(|c.points|, n) <= MAX_INT64
    requires |ids| == n && forall i :: 0 <= i < n ==> ids[i] == GrownPoints(c, n)[i].id
    ensures PointIdsValid(ids)
    ensures forall i :: 0 <= i < n ==> ids[i] <= HighPoint(c) + Added(|c.points|, n)
  {
    hide HighPoint;
    HighPointCovers(c);
    var ids0 := PointIds(c);
    forall i | 0 <= i < n
      ensures ids[i] == if i < |ids0| then ids0[i] else HighPoint(c) + 1 + (i - |ids0|)
    {
    }
  }

  lemma {:induction false} HighPointCovers(c: Chart)
    ensures HighPoint(c) >= 0 && forall i :: 0 <= i < |PointIds(c)| ==> PointIds(c)[i] <= HighPoint(c)
    ensures PointIdsValid(PointIds(c)) && Covers(c.lastPoint, 0, PointIds(c)) ==> 0 <= HighPoint(c) <= MAX_INT64
  {
  }

  /** A row-major matrix over distinct IDs is a valid set of cells. */
  lemma {:induction false} RowMajorValid(c: Chart)
    requires RowMajor(c) && Distinct(SeriesIds(c)) && Distinct(PointIds(c)) && c.mode != Some(Source)
    ensures CellsValid(c)
  {
    hide Pairs;
    var series, points := SeriesIds(c), PointIds(c);
    PairsLength(series, points);
    PairsDistinct(series, points);
    forall k | 0 <= k < |c.values| ensures c.values[k].series in series && c.values[k].point in points {
      assert PairsOf(c.values)[k] in Pairs(series, points);
      PairsMembers(series, points, PairsOf(c.values)[k]);
    }
  }

  lemma {:induction false} ResizeTrends(id: ObjectId, c: Chart, axis: Axis, n: nat, c': Chart)
    requires AllTrendsValid(c) && n != CountOf(c, axis) && ResizedTo(id, c, axis, n, c')
    ensures AllTrendsValid(c')
  {
    hide RowMajor, CellsKept, HighSeries, HighPoint, RepairedActive;
    forall i | 0 <= i < |c'.series| ensures TrendsValid(c'.series[i].trends) {
      if axis == SeriesAxis { assert c'.series == GrownSeries(c, n); } else { assert c'.series == c.series; }
    }
  }

  lemma {:induction false} ResizeSeriesIds(id: ObjectId, c: Chart, axis: Axis, n: nat, c': Chart)
    requires Resizable(id, c, axis, n) && n != CountOf(c, axis) && ResizedTo(id, c, axis, n, c')
    ensures SeriesIdsValid(SeriesIds(c')) && Covers(c'.lastSeries, SUMMARY_ID, SeriesIds(c'))
  {
    hide RowMajor, CellsKept, HighSeries, HighPoint, RepairedActive, KeepsActivePoint, CellsValid, AllTrendsValid;
    HighSeriesCovers(c);
    if axis == SeriesAxis {
      assert c'.series == GrownSeries(c, n) && c'.lastSeries == Some(HighSeries(c) + Added(|c.series|, n));
      GrownSeriesIds(c, n, SeriesIds(c'));
    } else {
      assert SeriesIds(c') == SeriesIds(c) && c'.lastSeries == c.lastSeries;
    }
  }

  lemma {:induction false} ResizePointIds(id: ObjectId, c: Chart, axis: Axis, n: nat, c': Chart)
    requires Resizable(id, c, axis, n) && n != CountOf(c, axis) && ResizedTo(id, c, axis, n, c')
    ensures PointIdsValid(PointIds(c')) && Covers(c'.lastPoint, 0, PointIds(c'))
  {
    hide RowMajor, CellsKept, HighSeries, HighPoint, RepairedActive, KeepsActivePoint, CellsValid, AllTrendsValid;
    HighPointCovers(c);
    if axis == PointAxis {
      assert c'.points == GrownPoints(c, n) && c'.lastPoint == Some(HighPoint(c) + Added(|c.points|, n));
      GrownPointIds(c, n, PointIds(c'));
    } else {
      assert PointIds(c') == PointIds(c) && c'.lastPoint == c.lastPoint;
    }
  }

  lemma {:induction false} ResizeActivePoint(id: ObjectId, c: Chart, axis: Axis, n: nat, c': Chart)
    requires ActivePointValid(id, c) && (axis == PointAxis ==> KeepsActivePoint(c, n))
    requires n != CountOf(c, axis) && ResizedTo(id, c, axis, n, c')
    ensures ActivePointValid(id, c')
  {
    hide RowMajor, CellsKept, HighSeries, HighPoint, RepairedActive;
    assert c'.activePoint == c.activePoint;
    if c.activePoint.Ref? {
      if axis == PointAxis {
        assert c'.points == GrownPoints(c, n);
        var ids := PointIds(c);
        var i :| 0 <= i < |ids| && ids[i] == c.activePoint.id && (n < |c.points| ==> i < n) by {
          if n < |c.points| {
            var k :| 0 <= k < n && c.points[k].id == c.activePoint.id;
            assert ids[k] == c.activePoint.id;
          } else {
            var k :| 0 <= k < |ids| && ids[k] == c.activePoint.id;
          }
        }
        assert PointIds(c')[i] == c.activePoint.id;
      } else {
        assert PointIds(c') == PointIds(c);
      }
    }
  }

  /** A resized valid chart is valid. */
  lemma {:induction false} ResizeKeepsValid(id: ObjectId, c: Chart, axis: Axis, n: nat, c': Chart)
    requires Resizable(id, c, axis, n) && ResizedTo(id, c, axis, n, c')
    ensures ChartValid(id, c')
  {
    hide RowMajor, CellsKept, CellsValid, HighSeries, HighPoint, RepairedActive, KeepsActivePoint, Covers,
      SeriesIdsValid, PointIdsValid, AllTrendsValid,
      ActivePointValid;
    if n != CountOf(c, axis) {
      ResizeTrends(id, c, axis, n, c');
      ResizeSeriesIds(id, c, axis, n, c');
      ResizePointIds(id, c, axis, n, c');
      ResizeActivePoint(id, c, axis, n, c');
      ValidDistinct(c');
      assert c'.mode != Some(Source);
      RowMajorValid(c');
    }
  }

  lemma {:induction false} ValidDistinct(c: Chart)
    requires SeriesIdsValid(SeriesIds(c)) && PointIdsValid(PointIds(c))
    ensures Distinct(SeriesIds(c)) && Distinct(PointIds(c))
  {
  }

  // ---------- What a resize keeps ----------

  /** A valid chart's cells are all the pairs of its series and points, each once: there are as many
      cells as pairs. */
  lemma {:induction false} MatrixComplete(c: Chart, p: Pair)
    requires CellsValid(c) && c.mode != Some(Source) && Distinct(SeriesIds(c)) && Distinct(PointIds(c))
    ensures p in PairsOf(c.values) <==> p.0 in SeriesIds(c) && p.1 in PointIds(c)
  {
    hide Pairs;
    var pairs, all := PairsOf(c.values), Pairs(SeriesIds(c), PointIds(c));
    PairsLength(SeriesIds(c), PointIds(c));
    PairsDistinct(SeriesIds(c), PointIds(c));
    PairsMembers(SeriesIds(c), PointIds(c), p);
    forall q | q in Elements(pairs) ensures q in Elements(all) {
      var k :| 0 <= k < |pairs| && pairs[k] == q;
      PairsMembers(SeriesIds(c), PointIds(c), q);
    }
    ElementsSize(pairs);
    ElementsSize(all);
    SubsetSize(Elements(pairs), Elements(all));
    assert p in Elements(pairs) <==> p in Elements(all);
  }

  /** Every cell whose series and point are still there is still there. */
  lemma {:induction false} ResizeKeepsCells(id: ObjectId, c: Chart, axis: Axis, n: nat, c': Chart, cell: Cell)
    requires Resizable(id, c, axis, n) && ResizedTo(id, c, axis, n, c')
    requires cell in c.values && cell.series in SeriesIds(c') && cell.point in PointIds(c')
    ensures cell in c'.values
  {
    hide Pairs, Reshaped, EffectiveMode, KeepsActivePoint, AllTrendsValid, SeriesIdsValid, PointIdsValid, Covers,
      ActivePointValid, HighSeries, HighPoint, Fresh;
    if n != CountOf(c, axis) {
      var p := (cell.series, cell.point);
      PairsMembers(SeriesIds(c'), PointIds(c'), p);
      var k :| 0 <= k < |c'.values| && PairsOf(c'.values)[k] == p;
      var i :| 0 <= i < |c.values| && c.values[i] == cell;
      assert HasCell(c.values, cell.series, cell.point);
      assert CellKept(c.values, EffectiveMode(c), c'.values[k]);
      var j :| 0 <= j < |c.values| && c.values[j] == c'.values[k];
      SamePair(c.values, i, j);
    }
  }

  lemma {:induction false} SamePair(values: seq<Cell>, i: nat, j: nat)
    requires PairsUnique(values) && i < |values| && j < |values|
    requires values[i].series == values[j].series && values[i].point == values[j].point
    ensures i == j
  {
  }

  /** Asking for the count a chart already has changes nothing, whatever the order of its cells; any
      other resize puts them in rows. */
  lemma {:induction false} RowMajorIff(id: ObjectId, c: Chart, axis: Axis, n: nat, c': Chart)
    requires ResizedTo(id, c, axis, n, c')
    ensures RowMajor(c') <==> n != CountOf(c, axis) || RowMajor(c)
  {
    hide RowMajor, CellsKept, Reshaped;
  }

  /** One series, two points, and a valid matrix in the other order: asking for one series leaves it so. */
  lemma {:induction false} UnorderedCellsStay() returns (c: Chart)
    ensures Resizable(7, c, SeriesAxis, 1) && ResizedTo(7, c, SeriesAxis, 1, c) && !RowMajor(c)
  {
    hide RowMajor;
    c := Chart(Some(ExplicitValues), None, None, [Series(2, Given(""), Trends([], 1))],
               [Point(1, Given("")), Point(2, Given(""))],
               [Cell(2, 2, Undefined, ""), Cell(2, 1, Undefined, "")], 0, Trends([], 1), Absent, Absent, true, true);
    assert SeriesIds(c) == [2] && PointIds(c) == [1, 2];
    assert HighSeries(c) <= 2;
    NotInRows(c);
  }

  lemma {:induction false} NotInRows(c: Chart)
    requires SeriesIds(c) == [2] && PointIds(c) == [1, 2] && c.values == [Cell(2, 2, Undefined, ""), Cell(2, 1, Undefined, "")]
    ensures !RowMajor(c)
  {
    assert PairsOf(c.values)[0] == (2, 2);
    assert Pairs([2], [1, 2])[0] == (2, 1) by {
      assert [2][..0] == [] && Pairs([], [1, 2]) == [];
      assert Row(2, [1, 2])[0] == (2, 1);
    }
  }

  /** A series ID that a chart with n series will have: one of the first n, or one of those to be issued. */
  predicate WillHave(c: Chart, n: nat, s: ObjectId) {
    || (exists i :: 0 <= i < n && i < |c.series| && c.series[i].id == s)
    || HighSeries(c) < s <= HighSeries(c) + Added(|c.series|, n)
  }

  lemma {:induction false} WillHaveMeans(c: Chart, n: nat, s: ObjectId)
    ensures WillHave(c, n, s) <==> exists i :: 0 <= i < n && GrownSeries(c, n)[i].id == s
  {
    hide HighSeries;
    var series := GrownSeries(c, n);
    if HighSeries(c) < s <= HighSeries(c) + Added(|c.series|, n) {
      assert series[|c.series| + (s - HighSeries(c) - 1)].id == s;
    }
    if i :| 0 <= i < n && i < |c.series| && c.series[i].id == s {
      assert series[i].id == s;
    }
    if i :| 0 <= i < n && series[i].id == s {
      assert i < |c.series| ==> c.series[i].id == s;
    }
  }

  /** When ActiveSeries is sound after a resize: always if the series change, unless it names another
      chart's series by an ID that this chart keeps or issues; otherwise exactly if it was sound before. */
  lemma {:induction false} ActiveSeriesLiveIff(id: ObjectId, c: Chart, axis: Axis, n: nat, c': Chart)
    requires ResizedTo(id, c, axis, n, c')
    ensures ActiveSeriesLive(id, c') <==>
            if axis == SeriesAxis && n != |c.series|
            then n > 0 && c.activeSeries.Ref? && WillHave(c, n, c.activeSeries.id) ==> c.activeSeries.owner == id
            else ActiveSeriesLive(id, c)
  {
    hide RowMajor, CellsKept, HighSeries, HighPoint, EffectiveMode, GrownSeries, WillHave;
    if n != CountOf(c, axis) {
      if axis == SeriesAxis {
        var ids := SeriesIds(c');
        if c.activeSeries.Ref? { WillHaveMeans(c, n, c.activeSeries.id); }
        assert c'.series == GrownSeries(c, n) && c'.activeSeries == RepairedActive(id, c, c'.series);
        if n > 0 && c.activeSeries.Ref? {
          var s := c.activeSeries.id;
          if s in ids { var i :| 0 <= i < n && ids[i] == s; assert c'.series[i].id == s; }
          assert ids[n - 1] == c'.series[n - 1].id;
        }
      } else {
        assert c'.activeSeries == c.activeSeries && c'.series == c.series;
      }
    }
  }

  /** Which series ActiveSeries names after the series change: none if none is left; the one it named, if
      the chart keeps or issues its ID; otherwise the last one. Nothing else touches it. */
  lemma {:induction false} ActiveSeriesAfter(id: ObjectId, c: Chart, axis: Axis, n: nat, c': Chart)
    requires ResizedTo(id, c, axis, n, c')
    ensures axis == SeriesAxis && n != |c.series| ==>
              && |SeriesIds(c')| == n
              && (n == 0 ==> c'.activeSeries == Absent)
              && (n > 0 && (c.activeSeries.Ref? ==> WillHave(c, n, c.activeSeries.id)) ==>
                    c'.activeSeries == c.activeSeries)
              && (n > 0 && c.activeSeries.Ref? && !WillHave(c, n, c.activeSeries.id) ==>
                    c'.activeSeries == Ref(id, SeriesIds(c')[n - 1]))
    ensures axis == PointAxis || n == |c.series| ==> c'.activeSeries == c.activeSeries
  {
    hide RowMajor, CellsKept, HighSeries, HighPoint, EffectiveMode, GrownSeries, WillHave;
    if axis == SeriesAxis && n != |c.series| {
      assert c'.series == GrownSeries(c, n) && c'.activeSeries == RepairedActive(id, c, c'.series);
      if c.activeSeries.Ref? { WillHaveMeans(c, n, c.activeSeries.id); }
    }
  }

  /** A chart with series 2 whose ActiveSeries names series 2 of another chart: adding a series keeps it so. */
  lemma {:induction false} ForeignActiveSeriesStays() returns (c: Chart, c': Chart)
    ensures Resizable(7, c, SeriesAxis, 2) && ResizedTo(7, c, SeriesAxis, 2, c')
    ensures |c.series| == 1 && c'.activeSeries == c.activeSeries == Ref(9, 2) && !ActiveSeriesLive(7, c')
  {
    hide Resizable, RowMajor;
    c := Chart(Some(ExplicitValues), None, None, [Series(2, Given(""), Trends([], 1))], [], [], 0, Trends([], 1),
               Ref(9, 2), Absent, true, true);
    ForeignResizable(c);
    var series := GrownSeries(c, 2);
    assert series[0].id == 2;
    c' := c.(series := series, lastSeries := Some(3));
    NoPoints(c');
  }

  lemma {:induction false} ForeignResizable(c: Chart)
    requires c == Chart(Some(ExplicitValues), None, None, [Series(2, Given(""), Trends([], 1))], [], [], 0,
                        Trends([], 1), Ref(9, 2), Absent, true, true)
    ensures HighSeries(c) == 2 && Resizable(7, c, SeriesAxis, 2)
  {
    assert SeriesIds(c) == [2] && PointIds(c) == [];
  }

  lemma {:induction false} NoPoints(c: Chart)
    requires c.points == [] && c.values == []
    ensures RowMajor(c)
  {
    PairsLength(SeriesIds(c), []);
    assert PointIds(c) == [];
  }

  /** A valid chart with no series whose ActiveSeries names one: changing the points keeps it so. */
  lemma {:induction false} DanglingActiveSeriesStays() returns (c: Chart, c': Chart)
    ensures Resizable(7, c, PointAxis, 1) && ResizedTo(7, c, PointAxis, 1, c') && !ActiveSeriesLive(7, c')
  {
    c := Chart(Some(ExplicitValues), None, None, [], [], [], 0, Trends([], 1), Ref(7, 5), Absent, true, true);
    c' := c.(points := GrownPoints(c, 1), lastPoint := Some(1));
    assert PairsOf([]) == [];
    assert SeriesIds(c) == [] && PointIds(c) == [] && SeriesIds(c') == [];
    assert Pairs([], PointIds(c')) == [];
    assert HighPoint(c) == 0;
  }

  /** New IDs are above every ID ever issued, and the highest ID issued never falls. */
  lemma {:induction false} ResizeIssues(id: ObjectId, c: Chart, axis: Axis, n: nat, c': Chart)
    requires Resizable(id, c, axis, n) && ResizedTo(id, c, axis, n, c')
    ensures HighSeries(c') >= HighSeries(c) && HighPoint(c') >= HighPoint(c)
    ensures forall s :: s in SeriesIds(c') ==> s in SeriesIds(c) || s > HighSeries(c)
    ensures forall p :: p in PointIds(c') ==> p in PointIds(c) || p > HighPoint(c)
    ensures Ascending(NewIds(SeriesIds(c), SeriesIds(c'))) && Ascending(NewIds(PointIds(c), PointIds(c')))
  {
    if n != CountOf(c, axis) {
      if axis == SeriesAxis { SeriesIssued(id, c, n, c'); } else { PointsIssued(id, c, n, c'); }
    } else {
      NothingNew(SeriesIds(c));
      NothingNew(PointIds(c));
    }
  }

  /** The IDs that appear, in the order in which they stand. */
  function NewIds(before: seq<ObjectId>, after: seq<ObjectId>): seq<ObjectId> {
    if |after| <= |before| then [] else after[|before|..]
  }

  predicate Ascending(ids: seq<ObjectId>) {
    forall i, j :: 0 <= i < j < |ids| ==> ids[i] < ids[j]
  }

  lemma {:induction false} NothingNew(ids: seq<ObjectId>)
    ensures NewIds(ids, ids) == []
  {
  }

  lemma {:induction false} SeriesIssued(id: ObjectId, c: Chart, n: nat, c': Chart)
    requires Resizable(id, c, SeriesAxis, n) && n != |c.series| && ResizedTo(id, c, SeriesAxis, n, c')
    ensures HighSeries(c') >= HighSeries(c) && HighPoint(c') == HighPoint(c)
    ensures forall s :: s in SeriesIds(c') ==> s in SeriesIds(c) || s > HighSeries(c)
    ensures PointIds(c') == PointIds(c) && NewIds(PointIds(c), PointIds(c')) == []
    ensures Ascending(NewIds(SeriesIds(c), SeriesIds(c')))
  {
    hide RowMajor, CellsKept, EffectiveMode, RepairedActive, ChartValid, Resizable, MaxId;
    assert c'.series == GrownSeries(c, n) && c'.points == c.points && c'.lastPoint == c.lastPoint;
    assert c'.lastSeries == Some(HighSeries(c) + Added(|c.series|, n));
    var before, after := SeriesIds(c), SeriesIds(c');
    forall i | 0 <= i < n ensures after[i] == if i < |before| then before[i] else HighSeries(c) + 1 + (i - |before|) {
    }
  }

  lemma {:induction false} PointsIssued(id: ObjectId, c: Chart, n: nat, c': Chart)
    requires Resizable(id, c, PointAxis, n) && n != |c.points| && ResizedTo(id, c, PointAxis, n, c')
    ensures HighPoint(c') >= HighPoint(c) && HighSeries(c') == HighSeries(c)
    ensures forall p :: p in PointIds(c') ==> p in PointIds(c) || p > HighPoint(c)
    ensures SeriesIds(c') == SeriesIds(c) && NewIds(SeriesIds(c), SeriesIds(c')) == []
    ensures Ascending(NewIds(PointIds(c), PointIds(c')))
  {
    hide RowMajor, CellsKept, EffectiveMode, RepairedActive, ChartValid, Resizable, MaxId;
    assert c'.points == GrownPoints(c, n) && c'.series == c.series && c'.lastSeries == c.lastSeries;
    assert c'.lastPoint == Some(HighPoint(c) + Added(|c.points|, n));
    var before, after := PointIds(c), PointIds(c');
    forall i | 0 <= i < n ensures after[i] == if i < |before| then before[i] else HighPoint(c) + 1 + (i - |before|) {
    }
  }
}
