/** The dates a calendar field has selected, as a sequence of dates in selection order: what each
    operation does to them, and what every run of operations keeps. */
module SelectedDates {
  import opened Optional
  import opened Sequences

  /** The days from 0001-01-01 to 9999-12-31, counted from 1970-01-01. */
  const FIRST_DAY: int := -719162
  const LAST_DAY: int := 2932896

  predicate Representable(day: int) {
    FIRST_DAY <= day <= LAST_DAY
  }

  /** A day and the text of a time of day. */
  datatype Date = Date(day: int, time: string)

  type ValidDate = d: Date | Representable(d.day) witness Date(0, "")

  const MIDNIGHT: string := "T00:00:00"

  datatype Mode = Single | Multiple | Interval

  /** The dates of consecutive days, all at one time. */
  function Run(first: int, last: int, time: string): (r: seq<Date>)
    ensures |r| == if first <= last then last - first + 1 else 0
    ensures forall i :: 0 <= i < |r| ==> r[i] == Date(first + i, time)
  {
    if first <= last then seq(last - first + 1, i => Date(first + i, time)) else []
  }

  predicate HasDay(dates: seq<Date>, day: int) {
    exists i :: 0 <= i < |dates| && dates[i].day == day
  }

  ghost predicate UniqueDays(dates: seq<Date>) {
    forall i, j :: 0 <= i < j < |dates| ==> dates[i].day != dates[j].day
  }

  function IndexOfDay(dates: seq<Date>, day: int): (r: Option<nat>)
    ensures r.Some? ==> r.value < |dates| && dates[r.value].day == day
    ensures r.Some? ==> forall i :: 0 <= i < r.value ==> dates[i].day != day
    ensures r.None? ==> !HasDay(dates, day)
  {
    FirstWhere(dates, (d: Date) => d.day == day)
  }

  /** The dates with the earliest and the latest day. */
  function Earliest(dates: seq<Date>): (r: Date)
    requires dates != []
    ensures r in dates && forall d :: d in dates ==> r.day <= d.day
  {
    if |dates| == 1 then dates[0]
    else
      var rest := Earliest(dates[1..]);
      if rest.day < dates[0].day then rest else dates[0]
  }

  function Latest(dates: seq<Date>): (r: Date)
    requires dates != []
    ensures r in dates && forall d :: d in dates ==> d.day <= r.day
  {
    if |dates| == 1 then dates[0]
    else
      var rest := Latest(dates[1..]);
      if rest.day > dates[0].day then rest else dates[0]
  }

  // ---------- Operations ----------

  function AfterAdd(mode: Mode, dates: seq<Date>, d: Date): seq<Date> {
    if mode == Single then [d]
    else if HasDay(dates, d.day) then dates
    else if mode == Multiple || dates == [] then dates + [d]
    else if d.day < dates[0].day then Run(d.day, dates[0].day - 1, d.time) + dates
    else if d.day > dates[|dates| - 1].day then dates + Run(dates[|dates| - 1].day + 1, d.day, d.time)
    else dates
  }

  function AfterDelete(mode: Mode, dates: seq<Date>, day: int): seq<Date> {
    match IndexOfDay(dates, day)
    case None => dates
    case Some(i) => if mode == Interval then dates[..i] else dates[..i] + dates[i + 1..]
  }

  function AfterMode(was: Mode, now: Mode, dates: seq<Date>): seq<Date> {
    if dates == [] || was == now then dates
    else match now
      case Single => [dates[|dates| - 1]]
      case Multiple => dates
      case Interval => Run(Earliest(dates).day, Latest(dates).day, Earliest(dates).time)
  }

  // ---------- What every operation keeps ----------

  ghost predicate Contiguous(dates: seq<Date>) {
    forall i :: 0 <= i < |dates| ==> dates[i].day == dates[0].day + i
  }

  /** The shape a mode asks for: at most one day, any days, or consecutive days in ascending order. */
  ghost predicate Shaped(mode: Mode, dates: seq<Date>) {
    && UniqueDays(dates)
    && (forall i :: 0 <= i < |dates| ==> Representable(dates[i].day))
    && (mode == Single ==> |dates| <= 1)
    && (mode == Interval ==> Contiguous(dates))
  }

  lemma {:induction false} AddKeeps(mode: Mode, dates: seq<Date>, d: Date)
    requires Shaped(mode, dates) && Representable(d.day)
    ensures Shaped(mode, AfterAdd(mode, dates, d))
  {
    if mode == Interval {
      AddInterval(dates, d);
      var after := AfterAdd(mode, dates, d);
      IntervalShaped(after);
    }
  }

  lemma {:induction false} IntervalShaped(dates: seq<Date>)
    requires Contiguous(dates) && (dates != [] ==> Representable(dates[0].day) && Representable(dates[|dates| - 1].day))
    ensures Shaped(Interval, dates)
  {
    forall i | 0 <= i < |dates| ensures Representable(dates[i].day) {
      assert dates[i].day == dates[0].day + i && dates[|dates| - 1].day == dates[0].day + |dates| - 1;
    }
  }

  /** Adding to an interval stretches it at one end. */
  lemma {:induction false} AddInterval(dates: seq<Date>, d: Date)
    requires Contiguous(dates)
    ensures var after := AfterAdd(Interval, dates, d);
            && Contiguous(after) && after != []
            && after[0].day == (if dates == [] || d.day < dates[0].day then d.day else dates[0].day)
            && after[|after| - 1].day == (if dates == [] || d.day > dates[|dates| - 1].day then d.day else dates[|dates| - 1].day)
  {
    IntervalDays(dates, d.day);
  }

  lemma {:induction false} DeleteKeeps(mode: Mode, dates: seq<Date>, day: int)
    requires Shaped(mode, dates)
    ensures Shaped(mode, AfterDelete(mode, dates, day))
  {
    hide IndexOfDay;
  }

  lemma {:induction false} ModeKeeps(was: Mode, now: Mode, dates: seq<Date>)
    requires Shaped(was, dates)
    ensures Shaped(now, AfterMode(was, now, dates))
  {
    hide Earliest, Latest;
  }

  // ---------- The days as a set ----------

  /** Adding selects the day alone, the day as well, or everything up to it. */
  lemma {:induction false} AddDays(mode: Mode, dates: seq<Date>, d: Date, day: int)
    requires Shaped(mode, dates)
    ensures HasDay(AfterAdd(mode, dates, d), day) <==>
            match mode
            case Single => day == d.day
            case Multiple => HasDay(dates, day) || day == d.day
            case Interval => HasDay(dates, day) || day == d.day || exists e :: HasDay(dates, e) && (e <= day <= d.day || d.day <= day <= e)
  {
    var after := AfterAdd(mode, dates, d);
    match mode {
      case Single => assert after[0] == d;
      case Multiple => AddOne(dates, d, day);
      case Interval => AddUpTo(dates, d, day);
    }
  }

  lemma {:induction false} AddOne(dates: seq<Date>, d: Date, day: int)
    ensures HasDay(dates + [d], day) <==> HasDay(dates, day) || day == d.day
  {
    var after := dates + [d];
    if HasDay(dates, day) {
      var i :| 0 <= i < |dates| && dates[i].day == day;
      assert after[i].day == day;
    }
    assert after[|dates|] == d;
  }

  /** The days of an interval. */
  lemma {:induction false} IntervalDays(dates: seq<Date>, day: int)
    requires Contiguous(dates)
    ensures HasDay(dates, day) <==> dates != [] && dates[0].day <= day <= dates[|dates| - 1].day
  {
    if dates != [] && dates[0].day <= day <= dates[|dates| - 1].day {
      assert dates[day - dates[0].day].day == day;
    }
  }

  lemma {:induction false} AddUpTo(dates: seq<Date>, d: Date, day: int)
    requires Shaped(Interval, dates)
    ensures HasDay(AfterAdd(Interval, dates, d), day) <==>
            HasDay(dates, day) || day == d.day || exists e :: HasDay(dates, e) && (e <= day <= d.day || d.day <= day <= e)
  {
    hide HasDay, Run, AfterAdd;
    var after := AfterAdd(Interval, dates, d);
    IntervalDays(dates, day);
    IntervalDays(dates, d.day);
    AddInterval(dates, d);
    IntervalDays(after, day);
    if dates != [] {
      IntervalDays(dates, dates[0].day);
      IntervalDays(dates, dates[|dates| - 1].day);
      forall e | HasDay(dates, e) ensures dates[0].day <= e <= dates[|dates| - 1].day { IntervalDays(dates, e); }
    } else {
      forall e ensures !HasDay(dates, e) { IntervalDays(dates, e); }
    }
  }

  /** Deleting takes the day away; from an interval, every later day too. */
  lemma {:induction false} DeleteDays(mode: Mode, dates: seq<Date>, gone: int, day: int)
    requires Shaped(mode, dates)
    ensures HasDay(AfterDelete(mode, dates, gone), day) <==>
            HasDay(dates, day) && day != gone && (mode == Interval && HasDay(dates, gone) ==> day < gone)
  {
    hide IndexOfDay;
    var found := IndexOfDay(dates, gone);
    if found.Some? {
      if mode == Interval {
        DeleteKeeps(mode, dates, gone);
        IntervalDays(dates, gone);
        IntervalDays(dates, day);
        IntervalDays(dates[..found.value], day);
      } else {
        DeleteOne(dates, found.value, day);
      }
    }
  }

  lemma {:induction false} DeleteOne(dates: seq<Date>, i: nat, day: int)
    requires UniqueDays(dates) && i < |dates|
    ensures HasDay(dates[..i] + dates[i + 1..], day) <==> HasDay(dates, day) && day != dates[i].day
  {
    var after := dates[..i] + dates[i + 1..];
    if HasDay(dates, day) && day != dates[i].day {
      var k :| 0 <= k < |dates| && dates[k].day == day;
      assert after[if k < i then k else k - 1].day == day;
    }
  }

  /** A new mode keeps the last date, every date, or fills the days between the earliest and the latest. */
  lemma {:induction false} ModeDays(was: Mode, now: Mode, dates: seq<Date>, day: int)
    requires Shaped(was, dates) && dates != [] && was != now
    ensures HasDay(AfterMode(was, now, dates), day) <==>
            match now
            case Single => day == dates[|dates| - 1].day
            case Multiple => HasDay(dates, day)
            case Interval => exists a, b :: HasDay(dates, a) && HasDay(dates, b) && a <= day <= b
  {
    hide Earliest, Latest;
    var after := AfterMode(was, now, dates);
    match now {
      case Single => assert after[0] == dates[|dates| - 1];
      case Multiple =>
      case Interval =>
        ModeKeeps(was, now, dates);
        IntervalDays(after, day);
        var lo, hi := Earliest(dates), Latest(dates);
        assert HasDay(dates, lo.day) && HasDay(dates, hi.day);
        forall a | HasDay(dates, a) ensures lo.day <= a <= hi.day {
          var i :| 0 <= i < |dates| && dates[i].day == a;
          assert dates[i] in dates;
        }
    }
  }

  // ---------- The dates as a sequence ----------

  /** The dates there were stay together in their order, and every other date has the time of the added one.
      A list grows at its end. */
  lemma {:induction false} AddOrder(mode: Mode, dates: seq<Date>, d: Date) returns (k: nat)
    requires mode != Single
    ensures var after := AfterAdd(mode, dates, d);
            && k + |dates| <= |after| && after[k..k + |dates|] == dates
            && (forall i :: 0 <= i < |after| && (i < k || i >= k + |dates|) ==> after[i].time == d.time)
            && (mode == Multiple ==> k == 0)
            && (mode == Multiple && !HasDay(dates, d.day) ==> after == dates + [d])
            && (HasDay(dates, d.day) ==> after == dates)
  {
    k := if mode == Interval && !HasDay(dates, d.day) && dates != [] && d.day < dates[0].day then dates[0].day - d.day else 0;
    hide HasDay;
  }

  /** The dates without those of one day. */
  function Without(dates: seq<Date>, day: int): seq<Date> {
    if dates == [] then []
    else
      var last := dates[|dates| - 1];
      Without(dates[..|dates| - 1], day) + if last.day == day then [] else [last]
  }

  /** The dates before a day. */
  function Until(dates: seq<Date>, day: int): seq<Date> {
    if dates == [] then []
    else
      var last := dates[|dates| - 1];
      Until(dates[..|dates| - 1], day) + if last.day < day then [last] else []
  }

  lemma {:induction false} WithoutAbsent(dates: seq<Date>, day: int)
    requires forall i :: 0 <= i < |dates| ==> dates[i].day != day
    ensures Without(dates, day) == dates
  {
    if dates != [] { WithoutAbsent(dates[..|dates| - 1], day); }
  }

  lemma {:induction false} WithoutConcat(a: seq<Date>, b: seq<Date>, day: int)
    ensures Without(a + b, day) == Without(a, day) + Without(b, day)
  {
    if b == [] {
      assert a + b == a;
    } else {
      assert (a + b)[..|a + b| - 1] == a + b[..|b| - 1];
      WithoutConcat(a, b[..|b| - 1], day);
    }
  }

  lemma {:induction false} UntilAll(dates: seq<Date>, day: int)
    requires forall i :: 0 <= i < |dates| ==> dates[i].day < day
    ensures Until(dates, day) == dates
  {
    if dates != [] { UntilAll(dates[..|dates| - 1], day); }
  }

  lemma {:induction false} UntilFront(dates: seq<Date>, k: nat, day: int)
    requires k <= |dates| && forall i :: k <= i < |dates| ==> dates[i].day >= day
    ensures Until(dates, day) == Until(dates[..k], day)
    decreases |dates|
  {
    if k == |dates| {
      assert dates[..k] == dates;
    } else {
      assert dates[..|dates| - 1][..k] == dates[..k];
      UntilFront(dates[..|dates| - 1], k, day);
    }
  }

  /** Deleting takes a list's date of that day; an interval keeps what comes before it. */
  lemma {:induction false} DeleteOrder(mode: Mode, dates: seq<Date>, day: int)
    requires Shaped(mode, dates)
    ensures AfterDelete(mode, dates, day) ==
            if mode == Interval && HasDay(dates, day) then Until(dates, day) else Without(dates, day)
  {
    hide IndexOfDay, Until, Without;
    match IndexOfDay(dates, day)
    case None => WithoutAbsent(dates, day);
    case Some(i) =>
      assert HasDay(dates, day);
      if mode == Interval {
        UntilFront(dates, i, day);
        UntilAll(dates[..i], day);
      } else {
        assert dates == (dates[..i] + [dates[i]]) + dates[i + 1..];
        WithoutConcat(dates[..i] + [dates[i]], dates[i + 1..], day);
        WithoutConcat(dates[..i], [dates[i]], day);
        WithoutAbsent(dates[..i], day);
        WithoutAbsent(dates[i + 1..], day);
        WithoutOne(dates[i]);
      }
  }

  lemma {:induction false} WithoutOne(d: Date)
    ensures Without([d], d.day) == []
  {
    assert [d][..0] == [];
  }

  /** An interval that is made of dates takes its times from the earliest of them. */
  lemma {:induction false} ModeTimes(was: Mode, dates: seq<Date>, first: Date, i: nat)
    requires was != Interval && dates != [] && first in dates && UniqueDays(dates)
    requires forall d :: d in dates ==> first.day <= d.day
    requires i < |AfterMode(was, Interval, dates)|
    ensures AfterMode(was, Interval, dates)[i] == Date(first.day + i, first.time)
  {
    hide Earliest, Latest;
    var e := Earliest(dates);
    var j :| 0 <= j < |dates| && dates[j] == e;
    var k :| 0 <= k < |dates| && dates[k] == first;
    SameDay(dates, j, k);
  }

  lemma {:induction false} SameDay(dates: seq<Date>, i: nat, k: nat)
    requires UniqueDays(dates) && i < |dates| && k < |dates| && dates[i].day == dates[k].day
    ensures i == k
  {
  }

  /** The other modes change no date: one keeps the last, one keeps all. */
  lemma {:induction false} ModeDates(was: Mode, dates: seq<Date>)
    requires dates != []
    ensures was != Single ==> AfterMode(was, Single, dates) == dates[|dates| - 1..]
    ensures AfterMode(was, Multiple, dates) == dates
  {
  }

  // ---------- Runs of operations on one calendar field ----------

  datatype Selection = Selection(current: Option<Date>, dates: seq<Date>)

  /** A calendar field: its mode, unless the stored mode is none of the three, and its selection, if it has one. */
  datatype Field = Field(mode: Option<Mode>, selection: Option<Selection>)

  /** Dates arrive as text: None is a malformed one. */
  datatype Op =
    | Initialize(date: Option<ValidDate>) | SetCurrent(date: Option<ValidDate>) | ResetCurrent
    | Add(date: Option<ValidDate>) | Delete(date: Option<ValidDate>) | Clear | SetMode(mode: Mode) | ResetMode

  function Apply(f: Field, op: Op): Field {
    match op
    case Initialize(Some(d)) => if f.mode.Some? then f.(selection := Some(AtMidnight(d))) else f
    case SetCurrent(Some(d)) => if f.mode.Some? then f.(selection := Some(Selection(Some(d.(time := MIDNIGHT)), [d]))) else f
    case ResetCurrent => if f.selection.Some? then f.(selection := Some(f.selection.value.(current := None))) else f
    case Add(Some(d)) => if f.selection.Some? && f.mode.Some? then WithDates(f, AfterAdd(f.mode.value, f.selection.value.dates, d)) else f
    case Delete(Some(d)) => if f.selection.Some? && f.mode.Some? then WithDates(f, AfterDelete(f.mode.value, f.selection.value.dates, d.day)) else f
    case Clear => if f.selection.Some? then WithDates(f, []) else f
    case SetMode(m) => AfterSetMode(f, m)
    case ResetMode => AfterSetMode(f, Single)
    case _ => f
  }

  function AtMidnight(d: Date): Selection {
    Selection(Some(d.(time := MIDNIGHT)), [d.(time := MIDNIGHT)])
  }

  function WithDates(f: Field, dates: seq<Date>): Field
    requires f.selection.Some?
  {
    f.(selection := Some(f.selection.value.(dates := dates)))
  }

  /** A stored mode that is none of the three differs from every new mode. */
  function AfterSetMode(f: Field, m: Mode): Field {
    var dates := if f.selection.Some? then f.selection.value.dates else [];
    var after :=
      if f.mode.Some? then AfterMode(f.mode.value, m, dates)
      else AfterMode(if m == Single then Multiple else Single, m, dates);
    var g := f.(mode := Some(m));
    if f.selection.Some? then WithDates(g, after) else g
  }

  // ---------- What an operation does to mode and current date ----------

  /** The date at the start of a day. */
  predicate StartsDay(c: Option<Date>, day: int) {
    c == Some(Date(day, "T00:00:00"))
  }

  /** Only the operations on the mode change it; and a malformed date changes nothing. */
  lemma {:induction false} ModeAfter(f: Field, op: Op)
    ensures Apply(f, op).mode == (match op case SetMode(m) => Some(m) case ResetMode => Some(Single) case _ => f.mode)
    ensures op in {Initialize(None), SetCurrent(None), Add(None), Delete(None)} ==> Apply(f, op) == f
    ensures op.Add? || op.Delete? || op.Clear? || op.ResetCurrent? || op.SetMode? || op.ResetMode? ==>
              (Apply(f, op).selection.Some? <==> f.selection.Some?)
  {
    hide AfterAdd, AfterDelete, AfterMode;
  }

  /** A calendar is started at midnight of a day that is also its one selected date; a date that is made the
      current one is selected as it is; the current date is forgotten by a reset alone. */
  lemma {:induction false} CurrentAfter(f: Field, op: Op)
    requires Apply(f, op).selection.Some?
    ensures var s := Apply(f, op).selection.value;
            match op
            case Initialize(Some(d)) =>
              f.mode.Some? ==> StartsDay(s.current, d.day) && |s.dates| == 1 && StartsDay(Some(s.dates[0]), d.day)
            case SetCurrent(Some(d)) => f.mode.Some? ==> StartsDay(s.current, d.day) && s.dates == [d]
            case ResetCurrent => s.current == None && s.dates == f.selection.value.dates
            case Clear => s.dates == [] && s.current == f.selection.value.current
            case _ => f.selection.Some? && s.current == f.selection.value.current
  {
    hide AfterAdd, AfterDelete, AfterMode;
  }

  /** A mode that is set again changes nothing; a new one, even after a stored mode of no known kind, does. */
  lemma {:induction false} DatesAfterMode(f: Field, m: Mode)
    requires f.selection.Some?
    ensures Apply(f, SetMode(m)).selection.Some?
    ensures f.mode == Some(m) ==> Apply(f, SetMode(m)) == f
    ensures f.mode != Some(m) ==>
              exists was :: was != m && (f.mode.Some? ==> f.mode == Some(was)) &&
                            Apply(f, SetMode(m)).selection.value.dates == AfterMode(was, m, f.selection.value.dates)
    ensures Apply(f, ResetMode) == Apply(f, SetMode(Single))
  {
    hide AfterMode;
    SameMode(m, f.selection.value.dates);
    if f.mode.None? {
      var was := if m == Single then Multiple else Single;
      assert Apply(f, SetMode(m)).selection.value.dates == AfterMode(was, m, f.selection.value.dates);
    }
  }

  lemma {:induction false} SameMode(m: Mode, dates: seq<Date>)
    ensures AfterMode(m, m, dates) == dates
  {
  }

  ghost predicate Sane(f: Field) {
    f.selection.Some? ==> f.mode.Some? && Shaped(f.mode.value, f.selection.value.dates)
  }

  lemma {:induction false} ApplyKeeps(f: Field, op: Op)
    requires Sane(f)
    ensures Sane(Apply(f, op))
  {
    hide AfterAdd, AfterDelete, AfterMode, Shaped;
    StartShaped(f, op);
    if f.selection.Some? {
      match op {
        case Add(Some(d)) => AddKeeps(f.mode.value, f.selection.value.dates, d);
        case Delete(Some(d)) => DeleteKeeps(f.mode.value, f.selection.value.dates, d.day);
        case SetMode(m) => ModeKeeps(f.mode.value, m, f.selection.value.dates);
        case ResetMode => ModeKeeps(f.mode.value, Single, f.selection.value.dates);
        case _ =>
      }
    }
  }

  lemma {:induction false} StartShaped(f: Field, op: Op)
    ensures f.mode.Some? ==> Shaped(f.mode.value, [])
    ensures f.mode.Some? && (op.Initialize? || op.SetCurrent?) && op.date.Some? ==>
              Shaped(f.mode.value, [op.date.value]) && Shaped(f.mode.value, [op.date.value.(time := MIDNIGHT)])
  {
  }

  function AfterRun(f: Field, ops: seq<Op>): Field {
    if ops == [] then f else Apply(AfterRun(f, ops[..|ops| - 1]), ops[|ops| - 1])
  }

  /** Every run from a calendar field without a selection: the selected days stay distinct and
      representable, in single mode at most one, in interval mode consecutive and ascending. */
  lemma {:induction false} RunKeeps(mode: Option<Mode>, ops: seq<Op>)
    ensures Sane(AfterRun(Field(mode, None), ops))
  {
    hide Apply, Shaped;
    if ops != [] {
      RunKeeps(mode, ops[..|ops| - 1]);
      ApplyKeeps(AfterRun(Field(mode, None), ops[..|ops| - 1]), ops[|ops| - 1]);
    }
  }
}
