/** The charts of a document: resizing them, and adding and deleting trendlines, in place. */
module ChartDocument {
  import opened ChartBudget
  import opened ChartModel
  import opened ChartResize
  import opened FormModel
  import opened Limits
  import opened Optional
  import opened Sequences

  /** A count arrives as a number or a text; only its sign and its whole part matter. */
  datatype CountArg = Unusable | Negative | Whole(n: nat)

  datatype Status = Applied | UnknownOwner | UnsupportedSurface | ReadOnly | InvalidValue | InvalidReference | ResourceLimit

  // ---------- Building the result ----------

  method HighestId(ids: seq<ObjectId>, least: nat) returns (m: nat)
    ensures m == MaxId(ids, least)
  {
    m := least;
    for i := 0 to |ids|
      invariant m == MaxId(ids[..i], least)
    {
      assert ids[..i + 1][..i] == ids[..i];
      if ids[i] > m { m := ids[i]; }
    }
    assert ids[..|ids|] == ids;
  }

  method GrowSeries(c: Chart, n: nat, high: nat) returns (series: seq<Series>, last: nat)
    requires high == HighSeries(c)
    ensures series == GrownSeries(c, n) && last == HighSeries(c) + Added(|c.series|, n)
  {
    series, last := c.series[..Min(|c.series|, n)], high;
    while |series| < n
      invariant |series| <= n && (|series| >= |c.series| || |series| == n)
      invariant forall i :: 0 <= i < |series| ==> series[i] == GrownSeries(c, n)[i]
      invariant last == high + Added(|c.series|, |series|)
      decreases n - |series|
    {
      last := last + 1;
      var caption := if c.autoSeriesText then Numbered(|series| + 1) else Given("");
      series := series + [Series(last, caption, Trends([], 1))];
    }
  }

  method GrowPoints(c: Chart, n: nat, high: nat) returns (points: seq<Point>, last: nat)
    requires high == HighPoint(c)
    ensures points == GrownPoints(c, n) && last == HighPoint(c) + Added(|c.points|, n)
  {
    points, last := c.points[..Min(|c.points|, n)], high;
    while |points| < n
      invariant |points| <= n && (|points| >= |c.points| || |points| == n)
      invariant forall i :: 0 <= i < |points| ==> points[i] == GrownPoints(c, n)[i]
      invariant last == high + Added(|c.points|, |points|)
      decreases n - |points|
    {
      last := last + 1;
      var caption := if c.autoPointText then Numbered(|points| + 1) else Given("");
      points := points + [Point(last, caption)];
    }
  }

  /** The cells by their pairs: the first of a pair counts. */
  ghost predicate Indexes(previous: map<Pair, Cell>, values: seq<Cell>) {
    && (forall k :: 0 <= k < |values| ==> (values[k].series, values[k].point) in previous)
    && (forall p :: p in previous ==> previous[p] in values && (previous[p].series, previous[p].point) == p)
  }

  method IndexCells(values: seq<Cell>) returns (previous: map<Pair, Cell>)
    ensures Indexes(previous, values)
  {
    previous := map[];
    for i := 0 to |values|
      invariant forall k :: 0 <= k < i ==> (values[k].series, values[k].point) in previous
      invariant forall p :: p in previous ==> previous[p] in values && (previous[p].series, previous[p].point) == p
    {
      var p := (values[i].series, values[i].point);
      if p !in previous { previous := previous[p := values[i]]; }
    }
  }

  /** The cell of one pair: the previous one, or a fresh one. */
  method CellOf(previous: map<Pair, Cell>, ghost values: seq<Cell>, mode: Mode, s: ObjectId, p: ObjectId)
    returns (cell: Cell)
    requires Indexes(previous, values)
    ensures cell.series == s && cell.point == p && CellKept(values, mode, cell)
  {
    if (s, p) in previous {
      cell := previous[(s, p)];
      ghost var k :| 0 <= k < |values| && values[k] == cell;
      assert HasCell(values, s, p);
    } else {
      assert !HasCell(values, s, p);
      if mode == ExplicitValues {
        cell := Cell(s, p, Undefined, "");
      } else {
        var amount := AnyAmount();
        cell := Cell(s, p, Hundredths(amount), "");
      }
    }
  }

  /** A random amount from 0 to 2000. */
  method AnyAmount() returns (amount: nat)
    ensures amount <= 2000
  {
    amount :| 0 <= amount <= 2000;
  }

  method BuildCells(values: seq<Cell>, mode: Mode, series: seq<ObjectId>, points: seq<ObjectId>)
    returns (cells: seq<Cell>)
    ensures PairsOf(cells) == Pairs(series, points) && CellsKept(values, mode, cells)
  {
    hide CellKept, Indexes;
    var previous := IndexCells(values);
    cells := [];
    for i := 0 to |series|
      invariant PairsOf(cells) == Pairs(series[..i], points) && CellsKept(values, mode, cells)
    {
      ghost var start := cells;
      for j := 0 to |points|
        invariant PairsOf(cells) == PairsOf(start) + Row(series[i], points)[..j] && CellsKept(values, mode, cells)
      {
        var cell := CellOf(previous, values, mode, series[i], points[j]);
        cells := cells + [cell];
      }
      assert series[..i + 1][..i] == series[..i];
      assert Row(series[i], points)[..|points|] == Row(series[i], points);
    }
    assert series[..|series|] == series;
  }

  // ---------- Trendlines ----------

  function SeriesIndex(c: Chart, s: ObjectId): (r: Option<nat>)
    ensures match r case Some(i) => i < |c.series| && c.series[i].id == s case None => s !in SeriesIds(c)
  {
    FirstSeries(c.series, s)
  }

  function FirstSeries(series: seq<Series>, s: ObjectId): (r: Option<nat>)
    ensures match r
            case Some(i) => i < |series| && series[i].id == s && forall k :: 0 <= k < i ==> series[k].id != s
            case None => forall i :: 0 <= i < |series| ==> series[i].id != s
  {
    FirstWhere(series, (one: Series) => one.id == s)
  }

  /** The trendlines of a series, or of the summary series. */
  function TrendsOf(c: Chart, s: ObjectId): Option<Trends> {
    if s == SUMMARY_ID then Some(c.summary)
    else match SeriesIndex(c, s) case None => None case Some(i) => Some(c.series[i].trends)
  }

  function WithTrends(c: Chart, s: ObjectId, t: Trends): Chart {
    if s == SUMMARY_ID then c.(summary := t)
    else match SeriesIndex(c, s)
      case None => c
      case Some(i) => c.(series := c.series[i := c.series[i].(trends := t)])
  }

  // ---------- The document ----------

  function Locate(controls: seq<ControlEntry>, id: ObjectId): (r: Option<nat>)
    ensures r.Some? ==> r.value < |controls| && controls[r.value].id == id
    ensures r.None? ==> forall i :: 0 <= i < |controls| ==> controls[i].id != id
  {
    FirstWhere(controls, (c: ControlEntry) => c.id == id)
  }

  /** The chart that an ID leads to, and the control that holds it. */
  function ChartAt(controls: seq<ControlEntry>, id: ObjectId): (r: Option<(nat, Chart)>)
    ensures r.Some? ==> r.value.0 < |controls| && controls[r.value.0].id == id && controls[r.value.0].chart == Some(r.value.1)
  {
    match Locate(controls, id)
    case None => None
    case Some(i) => match controls[i].chart case None => None case Some(c) => Some((i, c))
  }

  function Fitting(controls: seq<ControlEntry>, id: ObjectId, c: Chart, axis: Axis, n: nat): bool {
    Total(controls, id, if axis == SeriesAxis then n else |c.series|, if axis == SeriesAxis then |c.points| else n) <= MAX_CHART_ITEMS
  }

  /** Why a resize is refused, in the order in which it is checked. */
  function Verdict(controls: seq<ControlEntry>, complete: bool, id: ObjectId, axis: Axis, arg: CountArg): Status {
    match ChartAt(controls, id)
    case None => UnsupportedSurface
    case Some((i, c)) =>
      if c.mode == Some(Source) then ReadOnly
      else if !complete || controls[i].bound then UnsupportedSurface
      else if !arg.Whole? then InvalidValue
      else if arg.n > MAX_CHART_ITEMS || !Fitting(controls, id, c, axis, arg.n) then ResourceLimit
      else if !ChartValid(id, c) || controls[i].flawed then UnsupportedSurface
      else if axis == PointAxis && !KeepsActivePoint(c, arg.n) then InvalidReference
      else if !Resizable(id, c, axis, arg.n) then ResourceLimit
      else Applied
  }

  class ChartDocument {
    var controls: seq<ControlEntry>
    var reconstructionComplete: bool

    constructor (controls: seq<ControlEntry>, reconstructionComplete: bool)
      ensures this.controls == controls && this.reconstructionComplete == reconstructionComplete
    {
      this.controls, this.reconstructionComplete := controls, reconstructionComplete;
    }

    method Resize(id: ObjectId, axis: Axis, arg: CountArg) returns (status: Status)
      requires Addressable(controls)
      modifies this`controls
      ensures status == Verdict(old(controls), reconstructionComplete, id, axis, arg)
      ensures status != Applied ==> controls == old(controls)
      ensures status == Applied ==>
                var i, c := ChartAt(old(controls), id).value.0, ChartAt(old(controls), id).value.1;
                && |controls| == |old(controls)| && controls[i].chart.Some?
                && controls == old(controls)[i := old(controls)[i].(chart := controls[i].chart)]
                && arg.Whole? && Resizable(id, c, axis, arg.n) && ResizedTo(id, c, axis, arg.n, controls[i].chart.value)
    {
      hide ChartValid, HighSeries, HighPoint, RowMajor, CellsKept, GrownSeries, GrownPoints, RepairedActive, Total,
        Locate;
      var found := ChartAt(controls, id);
      if found.None? { return UnsupportedSurface; }
      var i, c := found.value.0, found.value.1;
      if c.mode == Some(Source) { return ReadOnly; }
      if !reconstructionComplete || controls[i].bound { return UnsupportedSurface; }
      if !arg.Whole? { return InvalidValue; }
      var n := arg.n;
      if n > MAX_CHART_ITEMS { return ResourceLimit; }
      var newSeries := if axis == SeriesAxis then n else |c.series|;
      var newPoints := if axis == SeriesAxis then |c.points| else n;
      var fits := ChartBudgetFits(controls, id, newSeries, newPoints, 0);
      if !fits { return ResourceLimit; }
      if !ChartValid(id, c) || controls[i].flawed { return UnsupportedSurface; }
      ValidHigh(id, c);
      var count := if axis == SeriesAxis then |c.series| else |c.points|;
      if n == count {
        SameActivePoint(c);
        return Applied;
      }
      if axis == PointAxis && n < count && !KeepsActivePoint(c, n) { return InvalidReference; }
      var result;
      result, status := ResizeChart(id, c, axis, n);
      if status == Applied { controls := controls[i := controls[i].(chart := Some(result))]; }
    }

    /** Issues the next ID of a series' trendlines. */
    method AddTrendline(id: ObjectId, s: ObjectId) returns (issued: Option<ObjectId>)
      requires Addressable(controls)
      modifies this`controls
      ensures issued.None? ==> controls == old(controls)
      ensures issued.None? <==> !TrendAddable(old(controls), id, s)
      ensures issued.Some? ==>
                var i, c := ChartAt(old(controls), id).value.0, ChartAt(old(controls), id).value.1;
                var t := TrendsOf(c, s).value;
                issued.value == t.next &&
                controls == old(controls)[i := old(controls)[i].(chart := Some(WithTrends(c, s, Trends(t.ids + [t.next], t.next + 1))))]
    {
      hide ChartValid, Total, Locate, WithTrends, TrendsOf;
      var found := ChartAt(controls, id);
      if found.None? { return None; }
      var i, c := found.value.0, found.value.1;
      var trends := TrendsOf(c, s);
      if trends.None? { return None; }
      var t := trends.value;
      var fits := ChartBudgetFits(controls, NULL_ID, 0, 0, 1);
      if !fits || |t.ids| >= MAX_CHART_ITEMS || t.next == 0 || t.next >= MAX_UINT64 { return None; }
      controls := controls[i := controls[i].(chart := Some(WithTrends(c, s, Trends(t.ids + [t.next], t.next + 1))))];
      issued := Some(t.next);
    }

    method DeleteTrendline(id: ObjectId, s: ObjectId, index: int) returns (status: Status)
      modifies this`controls
      ensures status == if ChartAt(old(controls), id).None? || TrendsOf(ChartAt(old(controls), id).value.1, s).None? then UnknownOwner
                        else if 0 <= index < |TrendsOf(ChartAt(old(controls), id).value.1, s).value.ids| then Applied else InvalidValue
      ensures status != Applied ==> controls == old(controls)
      ensures status == Applied ==>
                var i, c := ChartAt(old(controls), id).value.0, ChartAt(old(controls), id).value.1;
                var t := TrendsOf(c, s).value;
                controls == old(controls)[i := old(controls)[i].(chart := Some(WithTrends(c, s, t.(ids := t.ids[..index] + t.ids[index + 1..]))))]
    {
      hide Locate, WithTrends, TrendsOf;
      var found := ChartAt(controls, id);
      if found.None? { return UnknownOwner; }
      var i, c := found.value.0, found.value.1;
      var trends := TrendsOf(c, s);
      if trends.None? { return UnknownOwner; }
      var t := trends.value;
      if index < 0 || index >= |t.ids| { return InvalidValue; }
      controls := controls[i := controls[i].(chart := Some(WithTrends(c, s, t.(ids := t.ids[..index] + t.ids[index + 1..]))))];
      status := Applied;
    }
  }

  /** The trendlines of ID 1 are the summary's, those of any other ID a series'. */
  lemma {:induction false} TrendsOfMeans(c: Chart, s: ObjectId, i: nat)
    requires i < |c.series| && c.series[i].id == s && SeriesIdsValid(SeriesIds(c))
    ensures TrendsOf(c, 1) == Some(c.summary)
    ensures TrendsOf(c, s) == Some(c.series[i].trends)
    ensures forall t: Trends :: WithTrends(c, 1, t) == c.(summary := t)
    ensures forall t :: WithTrends(c, s, t).series == c.series[i := c.series[i].(trends := t)]
  {
    hide FirstSeries;
    assert SeriesIds(c)[i] == s;
    var k := FirstSeries(c.series, s);
    assert k.Some? ==> SeriesIds(c)[k.value] == s;
    SameSeries(SeriesIds(c), i, k);
  }

  lemma {:induction false} SameSeries(ids: seq<ObjectId>, i: nat, k: Option<nat>)
    requires SeriesIdsValid(ids) && i < |ids| && (k.Some? ==> k.value < |ids| && ids[k.value] == ids[i])
    ensures k.Some? ==> k.value == i
  {
  }

  /** What can stand against a resize, in the order in which it is looked at. */
  function Obstacles(controls: seq<ControlEntry>, complete: bool, id: ObjectId, i: nat, c: Chart, axis: Axis, arg: CountArg):
    seq<(bool, Status)>
    requires i < |controls|
  {
    var n := if arg.Whole? then arg.n else 0;
    [ (c.mode == Some(Source), ReadOnly),
      (!complete || controls[i].bound, UnsupportedSurface),
      (arg.Unusable? || arg.Negative?, InvalidValue),
      (n > MAX_CHART_ITEMS, ResourceLimit),
      (Total(controls, id, if axis == SeriesAxis then n else |c.series|, if axis == PointAxis then n else |c.points|) >
       MAX_CHART_ITEMS, ResourceLimit),
      (!ChartValid(id, c), UnsupportedSurface),
      (controls[i].flawed, UnsupportedSurface),
      (axis == PointAxis && !KeepsActivePoint(c, n), InvalidReference),
      (axis == SeriesAxis && n > |c.series| && HighSeries(c) + n - |c.series| > MAX_INT64, ResourceLimit),
      (axis == PointAxis && n > |c.points| && HighPoint(c) + n - |c.points| > MAX_INT64, ResourceLimit) ]
  }

  /** A resize is refused for the first thing that stands against it, and applied if nothing does. */
  lemma {:induction false} FirstObstacle(controls: seq<ControlEntry>, complete: bool, id: ObjectId, axis: Axis,
                                         arg: CountArg, k: nat)
    ensures ChartAt(controls, id).None? ==> Verdict(controls, complete, id, axis, arg) == UnsupportedSurface
    ensures ChartAt(controls, id).Some? ==>
              var (i, c) := ChartAt(controls, id).value;
              var obstacles := Obstacles(controls, complete, id, i, c, axis, arg);
              && ((forall l :: 0 <= l < |obstacles| ==> !obstacles[l].0) ==>
                    Verdict(controls, complete, id, axis, arg) == Applied)
              && (k < |obstacles| && obstacles[k].0 && (forall l :: 0 <= l < k ==> !obstacles[l].0) ==>
                    Verdict(controls, complete, id, axis, arg) == obstacles[k].1)
  {
    hide ChartValid, Total, KeepsActivePoint, HighSeries, HighPoint, Locate;
    var found := ChartAt(controls, id);
    if found.Some? {
      var (i, c) := found.value;
      if ChartValid(id, c) { ValidHigh(id, c); }
      var o := Obstacles(controls, complete, id, i, c, axis, arg);
      var v := Verdict(controls, complete, id, axis, arg);
      assert v == if o[0].0 then o[0].1 else if o[1].0 then o[1].1 else if o[2].0 then o[2].1 else if o[3].0 then o[3].1
                  else if o[4].0 then o[4].1 else if o[5].0 then o[5].1 else if o[6].0 then o[6].1
                  else if o[7].0 then o[7].1 else if o[8].0 then o[8].1 else if o[9].0 then o[9].1 else Applied;
      FirstOfTen(o, v, k);
    }
  }

  lemma {:induction false} FirstOfTen(o: seq<(bool, Status)>, v: Status, k: nat)
    requires |o| == 10
    requires v == if o[0].0 then o[0].1 else if o[1].0 then o[1].1 else if o[2].0 then o[2].1 else if o[3].0 then o[3].1
                  else if o[4].0 then o[4].1 else if o[5].0 then o[5].1 else if o[6].0 then o[6].1
                  else if o[7].0 then o[7].1 else if o[8].0 then o[8].1 else if o[9].0 then o[9].1 else Applied
    ensures (forall l :: 0 <= l < |o| ==> !o[l].0) ==> v == Applied
    ensures k < |o| && o[k].0 && (forall l :: 0 <= l < k ==> !o[l].0) ==> v == o[k].1
  {
  }

  predicate TrendAddable(controls: seq<ControlEntry>, id: ObjectId, s: ObjectId) {
    match ChartAt(controls, id)
    case None => false
    case Some((_, c)) =>
      match TrendsOf(c, s)
      case None => false
      case Some(t) => Total(controls, NULL_ID, 0, 0) + 1 <= MAX_CHART_ITEMS && |t.ids| < MAX_CHART_ITEMS && 0 < t.next < MAX_UINT64
  }

  lemma {:induction false} ValidHigh(id: ObjectId, c: Chart)
    requires ChartValid(id, c)
    ensures HighSeries(c) <= MAX_INT64 && HighPoint(c) <= MAX_INT64
  {
    hide HighSeries, HighPoint, CellsValid, AllTrendsValid, ActivePointValid;
    HighSeriesCovers(c);
    HighPointCovers(c);
  }

  lemma {:induction false} SameActivePoint(c: Chart)
    ensures KeepsActivePoint(c, |c.points|)
  {
  }

  /** Builds the resized chart, unless the IDs run out. */
  method ResizeChart(id: ObjectId, c: Chart, axis: Axis, n: nat) returns (result: Chart, status: Status)
    requires n != CountOf(c, axis) && HighSeries(c) <= MAX_INT64 && HighPoint(c) <= MAX_INT64
    ensures status == if (axis == SeriesAxis && HighSeries(c) + Added(|c.series|, n) > MAX_INT64) ||
                         (axis == PointAxis && HighPoint(c) + Added(|c.points|, n) > MAX_INT64) then ResourceLimit else Applied
    ensures status == Applied ==> ResizedTo(id, c, axis, n, result)
  {
    hide ChartValid, ResizedTo, MaxId;
    var count := if axis == SeriesAxis then |c.series| else |c.points|;
    var lastSeries := HighestId(SeriesIds(c), if c.lastSeries.Some? then c.lastSeries.value else SUMMARY_ID);
    var lastPoint := HighestId(PointIds(c), if c.lastPoint.Some? then c.lastPoint.value else 0);
    var added := if n > count then n - count else 0;
    var last := if axis == SeriesAxis then lastSeries else lastPoint;
    if added > MAX_INT64 - last { return c, ResourceLimit; }
    if axis == SeriesAxis {
      result := ResizeSeries(id, c, n, lastSeries);
    } else {
      result := ResizePoints(id, c, n, lastPoint);
    }
    status := Applied;
  }

  method ResizeSeries(id: ObjectId, c: Chart, n: nat, last: nat) returns (result: Chart)
    requires n != |c.series| && last == HighSeries(c)
    ensures ResizedTo(id, c, SeriesAxis, n, result)
  {
    hide RowMajor, CellsKept, HighSeries, HighPoint, RepairedActive, EffectiveMode;
    var series, high := GrowSeries(c, n, last);
    var active := RepairActive(id, c, series);
    result := c.(mode := Some(EffectiveMode(c)), series := series, lastSeries := Some(high), activeSeries := active);
    var cells := BuildCells(c.values, EffectiveMode(c), SeriesIds(result), PointIds(result));
    IdsIgnoreCells(result, cells);
    result := result.(values := cells);
  }

  method ResizePoints(id: ObjectId, c: Chart, n: nat, last: nat) returns (result: Chart)
    requires n != |c.points| && last == HighPoint(c)
    ensures ResizedTo(id, c, PointAxis, n, result)
  {
    hide RowMajor, CellsKept, HighSeries, HighPoint, RepairedActive, EffectiveMode;
    var points, high := GrowPoints(c, n, last);
    result := c.(mode := Some(EffectiveMode(c)), points := points, lastPoint := Some(high));
    var cells := BuildCells(c.values, EffectiveMode(c), SeriesIds(result), PointIds(result));
    IdsIgnoreCells(result, cells);
    result := result.(values := cells);
  }

  lemma {:induction false} IdsIgnoreCells(c: Chart, cells: seq<Cell>)
    requires PairsOf(cells) == Pairs(SeriesIds(c), PointIds(c))
    ensures RowMajor(c.(values := cells))
  {
    hide Pairs;
    assert SeriesIds(c.(values := cells)) == SeriesIds(c) && PointIds(c.(values := cells)) == PointIds(c);
  }

  /** The active series as it is read: the stored one, or else the first. */
  function ReadActiveSeries(id: ObjectId, c: Chart): Active {
    if c.activeSeries != Absent then c.activeSeries
    else if c.series == [] then UndefinedRef
    else Ref(id, c.series[0].id)
  }

  method RepairActive(id: ObjectId, c: Chart, series: seq<Series>) returns (active: Active)
    requires series != [] && c.series != [] ==> series[0] == c.series[0]
    ensures active == RepairedActive(id, c, series)
  {
    var selected := ReadActiveSeries(id, c);
    active := c.activeSeries;
    if series == [] {
      active := Absent;
    } else if selected.Ref? {
      if !(exists i :: 0 <= i < |series| && series[i].id == selected.id) {
        active := Ref(id, series[|series| - 1].id);
      }
    }
  }

  // ---------- The budget after a resize ----------

  lemma {:induction false} GrownTrendCount(c: Chart, n: nat, k: nat)
    requires k <= n
    ensures TrendCount(GrownSeries(c, n), k) == TrendCount(c.series, Min(k, |c.series|))
  {
    if k > 0 { GrownTrendCount(c, n, k - 1); }
  }

  /** The resized chart costs what the budget check foresaw. */
  lemma {:induction false} ResizedCost(id: ObjectId, c: Chart, axis: Axis, n: nat, c': Chart)
    requires c.mode != Some(Source) && ResizedTo(id, c, axis, n, c')
    ensures Cost(c', |c'.series|, |c'.points|) ==
            Cost(c, if axis == SeriesAxis then n else |c.series|, if axis == SeriesAxis then |c.points| else n)
  {
    hide RowMajor, CellsKept, HighSeries, HighPoint, RepairedActive, GrownSeries, TrendCount;
    if n != CountOf(c, axis) {
      if axis == SeriesAxis {
        assert c'.series == GrownSeries(c, n) && c'.points == c.points && c'.bands == c.bands && c'.summary == c.summary;
        GrownTrendCount(c, n, n);
      } else {
        assert c'.series == c.series && |c'.points| == n && c'.bands == c.bands && c'.summary == c.summary;
      }
      assert c'.mode != Some(Source);
    }
  }

  lemma {:induction false} TotalAfter(controls: seq<ControlEntry>, controls': seq<ControlEntry>, id: ObjectId,
                                      newSeries: nat, newPoints: nat)
    requires |controls'| == |controls|
    requires forall i :: 0 <= i < |controls| ==> CostIn(controls'[i], NULL_ID, 0, 0) == CostIn(controls[i], id, newSeries, newPoints)
    ensures Total(controls', NULL_ID, 0, 0) == Total(controls, id, newSeries, newPoints)
  {
    hide CostIn;
    if controls != [] {
      TotalAfter(controls[..|controls| - 1], controls'[..|controls| - 1], id, newSeries, newPoints);
    }
  }

  /** After a resize all charts together still fit the limit. */
  lemma {:induction false} ResizeKeepsBudget(controls: seq<ControlEntry>, controls': seq<ControlEntry>, id: ObjectId,
                                             axis: Axis, n: nat)
    requires forall i, j :: 0 <= i < j < |controls| ==> controls[i].id != controls[j].id
    requires id != NULL_ID && ChartAt(controls, id).Some?
    requires var i, c := ChartAt(controls, id).value.0, ChartAt(controls, id).value.1;
             && |controls'| == |controls| && controls'[i].chart.Some? && c.mode != Some(Source) && Fitting(controls, id, c, axis, n)
             && controls' == controls[i := controls[i].(chart := controls'[i].chart)]
             && ResizedTo(id, c, axis, n, controls'[i].chart.value)
    ensures Total(controls', NULL_ID, 0, 0) <= MAX_CHART_ITEMS
  {
    hide Total, Locate, ResizedTo, Cost;
    var i, c := ChartAt(controls, id).value.0, ChartAt(controls, id).value.1;
    ResizedCost(id, c, axis, n, controls'[i].chart.value);
    TotalAfter(controls, controls', id, if axis == SeriesAxis then n else |c.series|, if axis == SeriesAxis then |c.points| else n);
  }
}
