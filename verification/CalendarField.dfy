/** The calendar fields of a document. A field's selected dates are stored as spans of consecutive days
    that share a time; every operation is proved to act on the dates the spans stand for. */
module CalendarField {
  import opened FormModel
  import opened Optional
  import opened SelectedDates

  /** Inclusive: the first and the last day, at one time. */
  datatype Span = Span(first: Date, last: Date)

  ghost predicate SpanOk(s: Span) {
    s.first.day <= s.last.day && s.first.time == s.last.time
  }

  ghost predicate SpansOk(spans: seq<Span>) {
    forall i :: 0 <= i < |spans| ==> SpanOk(spans[i])
  }

  function DatesOf(s: Span): seq<Date> {
    Run(s.first.day, s.last.day, s.first.time)
  }

  /** The dates that spans stand for, in order. */
  function Dates(spans: seq<Span>): seq<Date> {
    if spans == [] then [] else Dates(spans[..|spans| - 1]) + DatesOf(spans[|spans| - 1])
  }

  lemma {:induction false} DatesConcat(a: seq<Span>, b: seq<Span>)
    ensures Dates(a + b) == Dates(a) + Dates(b)
  {
    hide DatesOf;
    if b == [] {
      assert a + b == a;
    } else {
      var front, last := b[..|b| - 1], b[|b| - 1];
      assert a + b == (a + front) + [last];
      DatesConcat(a, front);
      assert Dates(a) + (Dates(front) + DatesOf(last)) == (Dates(a) + Dates(front)) + DatesOf(last);
    }
  }

  lemma {:induction false} DatesOne(s: Span)
    ensures Dates([s]) == DatesOf(s)
  {
    hide DatesOf;
    assert [s][..0] == [];
  }

  /** The spans before, at and after an index. */
  lemma {:induction false} DatesAround(spans: seq<Span>, k: nat)
    requires k < |spans|
    ensures Dates(spans) == Dates(spans[..k]) + DatesOf(spans[k]) + Dates(spans[k + 1..])
  {
    hide Dates, DatesOf;
    assert spans == spans[..k] + [spans[k]] + spans[k + 1..];
    DatesConcat(spans[..k] + [spans[k]], spans[k + 1..]);
    DatesConcat(spans[..k], [spans[k]]);
    DatesOne(spans[k]);
  }

  predicate Covers(s: Span, day: int) {
    s.first.day <= day <= s.last.day
  }

  /** The place of a day of the k-th span among all dates. */
  lemma {:induction false} PlaceOf(spans: seq<Span>, k: nat, day: int)
    requires k < |spans| && Covers(spans[k], day)
    ensures var i := |Dates(spans[..k])| + (day - spans[k].first.day);
            0 <= i < |Dates(spans)| && Dates(spans)[i] == Date(day, spans[k].first.time)
  {
    hide Dates;
    DatesAround(spans, k);
  }

  lemma {:induction false} CoveredIff(spans: seq<Span>, day: int)
    ensures HasDay(Dates(spans), day) <==> exists k :: 0 <= k < |spans| && Covers(spans[k], day)
  {
    forall k | 0 <= k < |spans| && Covers(spans[k], day) ensures HasDay(Dates(spans), day) {
      PlaceOf(spans, k, day);
    }
    if HasDay(Dates(spans), day) {
      var front, last := spans[..|spans| - 1], spans[|spans| - 1];
      CoveredIff(front, day);
      HasDayConcat(Dates(front), DatesOf(last), day);
      if HasDay(Dates(front), day) {
        var k :| 0 <= k < |front| && Covers(front[k], day);
        assert Covers(spans[k], day);
      } else {
        assert Covers(spans[|spans| - 1], day);
      }
    }
  }

  lemma {:induction false} HasDayConcat(a: seq<Date>, b: seq<Date>, day: int)
    ensures HasDay(a + b, day) <==> HasDay(a, day) || HasDay(b, day)
  {
    if HasDay(a, day) { var i :| 0 <= i < |a| && a[i].day == day; assert (a + b)[i].day == day; }
    if HasDay(b, day) { var i :| 0 <= i < |b| && b[i].day == day; assert (a + b)[|a| + i].day == day; }
  }

  /** When no day is selected twice, spans are disjoint. */
  lemma {:induction false} SpansDisjoint(spans: seq<Span>, i: nat, j: nat, day: int)
    requires UniqueDays(Dates(spans)) && i < j < |spans| && Covers(spans[i], day)
    ensures !Covers(spans[j], day)
  {
    hide Dates;
    if Covers(spans[j], day) {
      PlaceOf(spans, i, day);
      PlaceOf(spans, j, day);
      PrefixLength(spans, i, j);
      assert false;
    }
  }

  lemma {:induction false} PrefixLength(spans: seq<Span>, i: nat, j: nat)
    requires i < j <= |spans|
    ensures |Dates(spans[..j])| >= |Dates(spans[..i])| + |DatesOf(spans[i])|
  {
    hide Dates, DatesOf;
    assert spans[..j][..i] == spans[..i];
    DatesAround(spans[..j], i);
  }

  /** A span that starts at a given index starts at that place among the dates. */
  lemma {:induction false} FirstDate(spans: seq<Span>)
    requires spans != [] && SpanOk(spans[0])
    ensures Dates(spans) != [] && Dates(spans)[0] == spans[0].first
  {
    hide Dates;
    PlaceOf(spans, 0, spans[0].first.day);
    DatesEmpty();
    assert spans[..0] == [];
  }

  lemma {:induction false} LastDate(spans: seq<Span>)
    requires spans != [] && SpanOk(spans[|spans| - 1])
    ensures Dates(spans) != [] && Dates(spans)[|Dates(spans)| - 1] == spans[|spans| - 1].last
  {
  }

  lemma {:induction false} DatesEmpty()
    ensures Dates([]) == []
  {
  }

  // ---------- Searching spans ----------

  method FindSpan(spans: seq<Span>, day: int) returns (found: Option<nat>)
    ensures match found
            case Some(k) => k < |spans| && Covers(spans[k], day) && HasDay(Dates(spans), day)
            case None => !HasDay(Dates(spans), day)
  {
    hide HasDay, Dates;
    CoveredIff(spans, day);
    var k := 0;
    while k < |spans|
      invariant 0 <= k <= |spans|
      invariant forall j :: 0 <= j < k ==> !Covers(spans[j], day)
    {
      if Covers(spans[k], day) { return Some(k); }
      k := k + 1;
    }
    found := None;
  }

  // ---------- Adding ----------

  /** A date moved to another day. The day must be one that a date can have. */
  function DateAt(day: int, timeSource: Date): Date
    requires Representable(day)
  {
    Date(day, timeSource.time)
  }

  method AddSpan(mode: Mode, spans: seq<Span>, d: ValidDate) returns (spans': seq<Span>)
    requires SpansOk(spans) && Shaped(mode, Dates(spans))
    ensures SpansOk(spans') && Dates(spans') == AfterAdd(mode, Dates(spans), d)
  {
    hide Dates, Shaped, HasDay;
    DatesOne(Span(d, d));
    if mode == Single { return [Span(d, d)]; }
    var found := FindSpan(spans, d.day);
    if found.Some? { return spans; }
    if mode == Multiple || spans == [] {
      DatesConcat(spans, [Span(d, d)]);
      DatesEmpty();
      assert Run(d.day, d.day, d.time) == [d];
      return spans + [Span(d, d)];
    }
    FirstDate(spans);
    LastDate(spans);
    EndsRepresentable(mode, Dates(spans));
    var first, last := spans[0].first.day, spans[|spans| - 1].last.day;
    spans' := spans;
    if d.day < first {
      var s := Span(d, DateAt(first - 1, d));
      DatesConcat([s], spans);
      DatesOne(s);
      spans' := [s] + spans;
    } else if d.day > last {
      var s := Span(DateAt(last + 1, d), d);
      DatesConcat(spans, [s]);
      DatesOne(s);
      spans' := spans + [s];
    }
  }

  lemma {:induction false} EndsRepresentable(mode: Mode, dates: seq<Date>)
    requires Shaped(mode, dates) && dates != []
    ensures Representable(dates[0].day) && Representable(dates[|dates| - 1].day)
  {
  }

  // ---------- Deleting ----------

  method DeleteSpan(mode: Mode, spans: seq<Span>, day: int) returns (spans': seq<Span>)
    requires SpansOk(spans) && Shaped(mode, Dates(spans))
    ensures SpansOk(spans') && Dates(spans') == AfterDelete(mode, Dates(spans), day)
  {
    hide Dates, DatesOf, Shaped, HasDay, AfterDelete, IndexOfDay;
    var found := FindSpan(spans, day);
    if found.None? {
      DeleteNothing(mode, Dates(spans), day);
      return spans;
    }
    var k := found.value;
    var s := spans[k];
    var first, last := s.first.day, s.last.day;
    DaysRepresentable(mode, spans, k);
    if mode == Interval {
      if day == first {
        spans' := spans[..k];
      } else {
        spans' := spans[..k] + [Span(s.first, DateAt(day - 1, s.first))];
      }
      CutAt(spans, k, day, spans');
      return;
    }
    if first == last {
      spans' := spans[..k] + spans[k + 1..];
      OneSpanLess(spans, k, spans');
    } else if day == first {
      spans' := spans[k := Span(DateAt(first + 1, s.first), s.last)];
      OneChanged(spans, k, spans', day);
    } else if day == last {
      spans' := spans[k := Span(s.first, DateAt(last - 1, s.first))];
      OneChanged(spans, k, spans', day);
    } else {
      var tail := Span(DateAt(day + 1, s.first), s.last);
      var end := DateAt(day - 1, s.first);
      spans' := spans[..k + 1] + [tail] + spans[k + 1..];
      spans' := spans'[k := Span(s.first, end)];
      OneSplit(spans, k, spans', day);
    }
    DeletePlace(mode, spans, k, day, spans');
  }

  lemma {:induction false} DeleteNothing(mode: Mode, dates: seq<Date>, day: int)
    requires !HasDay(dates, day)
    ensures AfterDelete(mode, dates, day) == dates
  {
  }

  lemma {:induction false} DaysRepresentable(mode: Mode, spans: seq<Span>, k: nat)
    requires SpansOk(spans) && Shaped(mode, Dates(spans)) && k < |spans|
    ensures Representable(spans[k].first.day) && Representable(spans[k].last.day)
  {
    hide Dates;
    PlaceOf(spans, k, spans[k].first.day);
    PlaceOf(spans, k, spans[k].last.day);
  }

  lemma {:induction false} IndexIs(dates: seq<Date>, i: nat)
    requires UniqueDays(dates) && i < |dates|
    ensures IndexOfDay(dates, dates[i].day) == Some(i)
  {
    hide IndexOfDay;
    assert HasDay(dates, dates[i].day);
  }

  /** The dates before the deleted one. */
  function Before(s: Span, day: int): seq<Date> {
    Run(s.first.day, day - 1, s.first.time)
  }

  function After(s: Span, day: int): seq<Date> {
    Run(day + 1, s.last.day, s.first.time)
  }

  lemma {:induction false} DeletedDates(spans: seq<Span>, k: nat, day: int)
    requires SpansOk(spans) && k < |spans| && Covers(spans[k], day) && UniqueDays(Dates(spans))
    ensures AfterDelete(Interval, Dates(spans), day) == Dates(spans[..k]) + Before(spans[k], day)
    ensures forall mode :: mode != Interval ==>
              AfterDelete(mode, Dates(spans), day) ==
              Dates(spans[..k]) + Before(spans[k], day) + After(spans[k], day) + Dates(spans[k + 1..])
  {
    hide Dates, IndexOfDay, SpansOk, UniqueDays;
    PlaceOf(spans, k, day);
    DatesAround(spans, k);
    var dates := Dates(spans);
    var i := |Dates(spans[..k])| + (day - spans[k].first.day);
    IndexIs(dates, i);
    assert dates[..i] == Dates(spans[..k]) + Before(spans[k], day);
    assert dates[i + 1..] == After(spans[k], day) + Dates(spans[k + 1..]);
  }

  lemma {:induction false} CutAt(spans: seq<Span>, k: nat, day: int, spans': seq<Span>)
    requires SpansOk(spans) && k < |spans| && Covers(spans[k], day) && Shaped(Interval, Dates(spans))
    requires spans' == if day == spans[k].first.day then spans[..k]
                       else spans[..k] + [Span(spans[k].first, Date(day - 1, spans[k].first.time))]
    ensures SpansOk(spans') && Dates(spans') == AfterDelete(Interval, Dates(spans), day)
  {
    hide Dates, AfterDelete;
    DeletedDates(spans, k, day);
    if day != spans[k].first.day {
      var s := Span(spans[k].first, Date(day - 1, spans[k].first.time));
      DatesConcat(spans[..k], [s]);
      DatesOne(s);
    }
  }

  /** The spans before and after the k-th stay, and the dates between lose one day. */
  ghost predicate Replaced(spans: seq<Span>, k: nat, spans': seq<Span>, day: int)
    requires k < |spans|
  {
    SpansOk(spans') &&
    Dates(spans') == Dates(spans[..k]) + Before(spans[k], day) + After(spans[k], day) + Dates(spans[k + 1..])
  }

  lemma {:induction false} DeletePlace(mode: Mode, spans: seq<Span>, k: nat, day: int, spans': seq<Span>)
    requires SpansOk(spans) && Shaped(mode, Dates(spans)) && k < |spans| && Covers(spans[k], day) && mode != Interval
    requires Replaced(spans, k, spans', day)
    ensures SpansOk(spans') && Dates(spans') == AfterDelete(mode, Dates(spans), day)
  {
    hide Dates, AfterDelete;
    DeletedDates(spans, k, day);
  }

  lemma {:induction false} OneSpanLess(spans: seq<Span>, k: nat, spans': seq<Span>)
    requires SpansOk(spans) && k < |spans| && spans[k].first.day == spans[k].last.day
    requires spans' == spans[..k] + spans[k + 1..]
    ensures Replaced(spans, k, spans', spans[k].first.day)
  {
    hide Dates;
    DatesConcat(spans[..k], spans[k + 1..]);
  }

  lemma {:induction false} OneChanged(spans: seq<Span>, k: nat, spans': seq<Span>, day: int)
    requires SpansOk(spans) && k < |spans| && |spans'| == |spans| && spans[k].first.day < spans[k].last.day
    requires spans' == spans[k := spans'[k]] && SpanOk(spans'[k]) && spans'[k].first.time == spans[k].first.time
    requires (day == spans[k].first.day && spans'[k].first.day == day + 1 && spans'[k].last.day == spans[k].last.day) ||
             (day == spans[k].last.day && spans'[k].last.day == day - 1 && spans'[k].first.day == spans[k].first.day)
    ensures Replaced(spans, k, spans', day)
  {
    hide Dates;
    DatesAround(spans', k);
    assert spans'[..k] == spans[..k] && spans'[k + 1..] == spans[k + 1..];
    assert DatesOf(spans'[k]) == Before(spans[k], day) + After(spans[k], day);
  }

  lemma {:induction false} OneSplit(spans: seq<Span>, k: nat, spans': seq<Span>, day: int)
    requires SpansOk(spans) && k < |spans| && spans[k].first.day < day < spans[k].last.day
    requires spans' == (spans[..k + 1] + [Span(Date(day + 1, spans[k].first.time), spans[k].last)] + spans[k + 1..])
                       [k := Span(spans[k].first, Date(day - 1, spans[k].first.time))]
    ensures Replaced(spans, k, spans', day)
  {
    hide Dates;
    var s := spans[k];
    var head, tail := Span(s.first, Date(day - 1, s.first.time)), Span(Date(day + 1, s.first.time), s.last);
    assert spans' == (spans[..k] + [head]) + ([tail] + spans[k + 1..]);
    DatesConcat(spans[..k] + [head], [tail] + spans[k + 1..]);
    DatesConcat(spans[..k], [head]);
    DatesConcat([tail], spans[k + 1..]);
    DatesOne(head);
    DatesOne(tail);
  }

  // ---------- Changing the mode ----------

  ghost predicate IsEarliest(dates: seq<Date>, d: Date) {
    d in dates && forall e :: e in dates ==> d.day <= e.day
  }

  ghost predicate IsLatest(dates: seq<Date>, d: Date) {
    d in dates && forall e :: e in dates ==> e.day <= d.day
  }

  /** Days are not repeated, so the earliest date is the only one of its day. */
  lemma {:induction false} EarliestIs(dates: seq<Date>, d: Date)
    requires UniqueDays(dates) && IsEarliest(dates, d)
    ensures Earliest(dates) == d
  {
    hide Earliest;
  }

  lemma {:induction false} LatestIs(dates: seq<Date>, d: Date)
    requires UniqueDays(dates) && IsLatest(dates, d)
    ensures Latest(dates) == d
  {
    hide Latest;
  }

  lemma {:induction false} EarliestStep(dates: seq<Date>, first: Date, s: Span)
    requires IsEarliest(dates, first) && SpanOk(s)
    ensures IsEarliest(dates + DatesOf(s), if s.first.day < first.day then s.first else first)
  {
    assert DatesOf(s)[0] == s.first;
  }

  lemma {:induction false} LatestStep(dates: seq<Date>, last: Date, s: Span)
    requires IsLatest(dates, last) && SpanOk(s)
    ensures IsLatest(dates + DatesOf(s), if s.last.day > last.day then s.last else last)
  {
    assert DatesOf(s)[s.last.day - s.first.day] == s.last;
  }

  lemma {:induction false} SpanEnds(s: Span)
    requires SpanOk(s)
    ensures IsEarliest(DatesOf(s), s.first) && IsLatest(DatesOf(s), s.last)
  {
    assert DatesOf(s)[0] == s.first;
    assert DatesOf(s)[s.last.day - s.first.day] == s.last;
  }

  /** The span from the earliest to the latest date, at the time of the earliest. */
  method HullOf(spans: seq<Span>) returns (first: Date, last: Date)
    requires SpansOk(spans) && spans != []
    ensures IsEarliest(Dates(spans), first) && IsLatest(Dates(spans), last)
  {
    hide Dates, DatesOf, IsEarliest, IsLatest;
    first, last := spans[0].first, spans[0].last;
    SpanEnds(spans[0]);
    DatesOne(spans[0]);
    assert spans[..1] == [spans[0]];
    var i := 1;
    while i < |spans|
      invariant 1 <= i <= |spans|
      invariant IsEarliest(Dates(spans[..i]), first) && IsLatest(Dates(spans[..i]), last)
    {
      assert spans[..i + 1] == spans[..i] + [spans[i]];
      DatesConcat(spans[..i], [spans[i]]);
      DatesOne(spans[i]);
      EarliestStep(Dates(spans[..i]), first, spans[i]);
      LatestStep(Dates(spans[..i]), last, spans[i]);
      if spans[i].first.day < first.day { first := spans[i].first; }
      if spans[i].last.day > last.day { last := spans[i].last; }
      i := i + 1;
    }
    assert spans[..|spans|] == spans;
  }

  method ChangeMode(was: Mode, now: Mode, spans: seq<Span>) returns (spans': seq<Span>)
    requires SpansOk(spans) && Shaped(was, Dates(spans))
    ensures SpansOk(spans') && Dates(spans') == AfterMode(was, now, Dates(spans))
  {
    hide Dates, Shaped, Earliest, Latest, IsEarliest, IsLatest;
    DatesEmpty();
    if spans == [] || was == now { return spans; }
    LastDate(spans);
    spans' := spans;
    if now == Single {
      var selected := spans[|spans| - 1].last;
      spans' := [Span(selected, selected)];
      DatesOne(spans'[0]);
      assert Run(selected.day, selected.day, selected.time) == [selected];
    } else if now == Interval {
      var first, last := HullOf(spans);
      ShapedUnique(was, Dates(spans));
      EarliestIs(Dates(spans), first);
      LatestIs(Dates(spans), last);
      EndsInOrder(Dates(spans), first, last);
      spans' := [Span(first, last.(time := first.time))];
      DatesOne(spans'[0]);
    }
  }

  lemma {:induction false} ShapedUnique(mode: Mode, dates: seq<Date>)
    requires Shaped(mode, dates)
    ensures UniqueDays(dates)
  {
  }

  lemma {:induction false} EndsInOrder(dates: seq<Date>, first: Date, last: Date)
    requires IsEarliest(dates, first) && IsLatest(dates, last)
    ensures first.day <= last.day
  {
  }

  // ---------- The document's calendar fields ----------

  datatype CalendarState = CalendarState(current: Option<Date>, spans: seq<Span>)

  datatype MutationStatus = AppliedRuntimeOnly | ResetRuntimeOnly | Applied | Reset | UnknownOwner | InvalidValue | UnsupportedSurface

  class CalendarFields {
    /** The calendar fields, each with the mode its properties give, if they give a valid one. */
    var modes: map<ObjectId, Option<Mode>>
    var calendars: map<ObjectId, CalendarState>

    constructor (modes: map<ObjectId, Option<Mode>>)
      ensures Valid() && this.modes == modes && calendars == map[]
    {
      this.modes, this.calendars := modes, map[];
    }

    ghost predicate Valid()
      reads this
    {
      forall id :: id in calendars ==> id in modes && Stored(modes[id], calendars[id])
    }

    static ghost predicate Stored(mode: Option<Mode>, state: CalendarState) {
      SpansOk(state.spans) && mode.Some? && Shaped(mode.value, Dates(state.spans))
    }

    /** The field as the operations on dates see it. */
    ghost function View(id: ObjectId): Field
      requires id in modes
      reads this
    {
      Field(modes[id], if id in calendars then Some(Selection(calendars[id].current, Dates(calendars[id].spans))) else None)
    }

    /** One field did what the operation on dates says; the others are as they were. */
    twostate predicate Did(id: ObjectId, op: Op)
      reads this
    {
      && old(modes).Keys == modes.Keys
      && (id in modes ==> View(id) == Apply(old(View(id)), op))
      && forall other :: other in modes && other != id ==> View(other) == old(View(other))
    }

    method Initialize(id: ObjectId, date: Option<ValidDate>) returns (status: MutationStatus)
      requires Valid()
      modifies this`calendars
      ensures Valid() && Did(id, Op.Initialize(date))
      ensures status == if id !in modes then UnknownOwner
                        else if date.None? || modes[id].None? then InvalidValue else AppliedRuntimeOnly
    {
      hide Shaped, Dates, SpansOk;
      if id !in modes { return UnknownOwner; }
      if date.None? || modes[id].None? { return InvalidValue; }
      var d := date.value.(time := MIDNIGHT);
      OneDate(d);
      OneShaped(modes[id].value, d);
      calendars := calendars[id := CalendarState(Some(d), [Span(d, d)])];
      status := AppliedRuntimeOnly;
    }

    method SetCurrentDate(id: ObjectId, date: Option<ValidDate>) returns (status: MutationStatus)
      requires Valid()
      modifies this`calendars
      ensures Valid() && Did(id, SetCurrent(date))
      ensures status == if id !in modes then UnknownOwner
                        else if date.None? || modes[id].None? then InvalidValue else AppliedRuntimeOnly
    {
      hide Shaped, Dates, SpansOk;
      if id !in modes { return UnknownOwner; }
      if date.None? || modes[id].None? { return InvalidValue; }
      OneDate(date.value);
      OneShaped(modes[id].value, date.value);
      var current := date.value.(time := MIDNIGHT);
      calendars := calendars[id := CalendarState(Some(current), [Span(date.value, date.value)])];
      status := AppliedRuntimeOnly;
    }

    method ResetCurrentDate(id: ObjectId) returns (status: MutationStatus)
      requires Valid()
      modifies this`calendars
      ensures Valid() && Did(id, ResetCurrent)
      ensures status == if id in modes then ResetRuntimeOnly else UnknownOwner
    {
      hide Shaped, Dates, SpansOk;
      if id !in modes { return UnknownOwner; }
      if id in calendars { calendars := calendars[id := calendars[id].(current := None)]; }
      status := ResetRuntimeOnly;
    }

    method AddSelectedDate(id: ObjectId, date: Option<ValidDate>) returns (status: MutationStatus)
      requires Valid()
      modifies this`calendars
      ensures Valid() && Did(id, Add(date))
      ensures status == if id !in modes then UnknownOwner else if date.None? then InvalidValue
                        else if id !in calendars then UnsupportedSurface else AppliedRuntimeOnly
    {
      hide Shaped, Dates, SpansOk, AfterAdd;
      if id !in modes { return UnknownOwner; }
      if date.None? { return InvalidValue; }
      if id !in calendars { return UnsupportedSurface; }
      var mode := modes[id].value; // a field with a selection has a valid mode
      AddKeeps(mode, Dates(calendars[id].spans), date.value);
      var spans := AddSpan(mode, calendars[id].spans, date.value);
      calendars := calendars[id := calendars[id].(spans := spans)];
      status := AppliedRuntimeOnly;
    }

    method DeleteSelectedDate(id: ObjectId, date: Option<ValidDate>) returns (status: MutationStatus)
      requires Valid()
      modifies this`calendars
      ensures Valid() && Did(id, Delete(date))
      ensures status == if id !in modes then UnknownOwner else if date.None? || modes[id].None? then InvalidValue
                        else if id !in calendars then UnsupportedSurface else AppliedRuntimeOnly
    {
      hide Shaped, Dates, SpansOk, AfterDelete;
      if id !in modes { return UnknownOwner; }
      if date.None? || modes[id].None? { return InvalidValue; }
      if id !in calendars { return UnsupportedSurface; }
      var mode := modes[id].value;
      DeleteKeeps(mode, Dates(calendars[id].spans), date.value.day);
      var spans := DeleteSpan(mode, calendars[id].spans, date.value.day);
      calendars := calendars[id := calendars[id].(spans := spans)];
      status := AppliedRuntimeOnly;
    }

    method ClearSelectedDates(id: ObjectId) returns (status: MutationStatus)
      requires Valid()
      modifies this`calendars
      ensures Valid() && Did(id, Clear)
      ensures status == if id !in modes then UnknownOwner
                        else if id !in calendars then UnsupportedSurface else AppliedRuntimeOnly
    {
      if id !in modes { return UnknownOwner; }
      if id !in calendars { return UnsupportedSurface; }
      calendars := calendars[id := calendars[id].(spans := [])];
      status := AppliedRuntimeOnly;
    }

    method SetSelectionMode(id: ObjectId, mode: Mode) returns (status: MutationStatus)
      requires Valid()
      modifies this
      ensures Valid() && Did(id, SetMode(mode))
      ensures status == if id in modes then Applied else UnknownOwner
    {
      hide Shaped, Dates, SpansOk, AfterMode;
      if id !in modes { return UnknownOwner; }
      if id in calendars {
        var was := modes[id].value;
        ModeKeeps(was, mode, Dates(calendars[id].spans));
        var spans := ChangeMode(was, mode, calendars[id].spans);
        calendars := calendars[id := calendars[id].(spans := spans)];
      } else {
        NoDates(modes[id], mode);
      }
      modes := modes[id := Some(mode)];
      status := Applied;
    }

    /** Resetting the mode returns it to single. */
    method ResetSelectionMode(id: ObjectId) returns (status: MutationStatus)
      requires Valid()
      modifies this
      ensures Valid() && Did(id, ResetMode)
      ensures status == if id in modes then Reset else UnknownOwner
    {
      hide Shaped, Dates, SpansOk, AfterMode;
      status := SetSelectionMode(id, Single);
      if status == Applied { status := Reset; }
    }

    // ---------- Reading ----------

    method SelectedDateCount(id: ObjectId) returns (count: Option<nat>)
      requires Valid()
      ensures count == if id in calendars then Some(|Dates(calendars[id].spans)|) else None
    {
      hide Shaped, Dates;
      if id !in calendars { return None; }
      var spans := calendars[id].spans;
      var total := 0;
      DatesEmpty();
      for i := 0 to |spans|
        invariant total == |Dates(spans[..i])|
      {
        PrefixStep(spans, i);
        total := total + (spans[i].last.day - spans[i].first.day + 1);
      }
      assert spans[..|spans|] == spans;
      count := Some(total);
    }

    method SelectedDateAt(id: ObjectId, index: int) returns (date: Option<Date>)
      requires Valid()
      ensures date == if id in calendars && 0 <= index < |Dates(calendars[id].spans)|
                      then Some(Dates(calendars[id].spans)[index]) else None
    {
      hide Shaped, Dates;
      if id !in calendars || index < 0 { return None; }
      var spans := calendars[id].spans;
      var rest := index;
      DatesEmpty();
      for i := 0 to |spans|
        invariant rest >= 0 && rest + |Dates(spans[..i])| == index
      {
        PrefixStep(spans, i);
        var first, last := spans[i].first.day, spans[i].last.day;
        var count := last - first + 1;
        if rest < count {
          PlaceOf(spans, i, first + rest);
          DayRepresentable(modes[id].value, Dates(spans), index);
          return Some(DateAt(first + rest, spans[i].first));
        }
        rest := rest - count;
      }
      assert spans[..|spans|] == spans;
      date := None;
    }

    method Contains(id: ObjectId, date: Option<ValidDate>) returns (found: Option<bool>)
      requires Valid()
      ensures found == if id in calendars && date.Some? then Some(HasDay(Dates(calendars[id].spans), date.value.day)) else None
    {
      hide Shaped, Dates, HasDay;
      if id !in calendars || date.None? { return None; }
      var k := FindSpan(calendars[id].spans, date.value.day);
      found := Some(k.Some?);
    }
  }

  lemma {:induction false} OneDate(d: Date)
    ensures SpansOk([Span(d, d)]) && Dates([Span(d, d)]) == [d]
  {
    DatesOne(Span(d, d));
    assert Run(d.day, d.day, d.time) == [d];
  }

  lemma {:induction false} OneShaped(mode: Mode, d: Date)
    requires Representable(d.day)
    ensures Shaped(mode, [d])
  {
  }

  lemma {:induction false} NoDates(mode: Option<Mode>, now: Mode)
    ensures forall was :: AfterMode(was, now, []) == []
  {
  }

  lemma {:induction false} PrefixStep(spans: seq<Span>, i: nat)
    requires SpansOk(spans) && i < |spans|
    ensures |Dates(spans[..i + 1])| == |Dates(spans[..i])| + (spans[i].last.day - spans[i].first.day + 1)
  {
    hide Dates;
    assert spans[..i + 1] == spans[..i] + [spans[i]];
    DatesConcat(spans[..i], [spans[i]]);
    DatesOne(spans[i]);
  }

  lemma {:induction false} DayRepresentable(mode: Mode, dates: seq<Date>, i: nat)
    requires Shaped(mode, dates) && i < |dates|
    ensures Representable(dates[i].day)
  {
  }
}
