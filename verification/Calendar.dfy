/** Day-by-day expansion of a date span, with blackout precedence. */
module Calendar {
  import opened Common
  import opened CivilDate
  import opened DateStrings

  datatype SpanError = FromAfterTo

  /** The days from `lo` to `hi` as the engine writes them, none when `hi < lo`. */
  function DayStrings(engine: Engine, lo: int, hi: int): (ds: seq<string>)
    ensures |ds| == if lo <= hi then hi - lo + 1 else 0
  {
    seq(if lo <= hi then hi - lo + 1 else 0, i => engine.write(lo + i))
  }

  /** What enumerating a span gives; a bound that is no date gives an empty list. */
  function Enumerated(engine: Engine, from: string, to: string): Result<seq<string>, SpanError> {
    if LexLess(to, from) then Err(FromAfterTo)
    else if engine.read(from).None? || engine.read(to).None? then Ok([])
    else Ok(DayStrings(engine, engine.read(from).value, engine.read(to).value))
  }

  /** The day loop: a cursor in milliseconds, stepped by 24 hours. */
  method EnumerateDates(engine: Engine, from: string, to: string)
    returns (r: Result<seq<string>, SpanError>)
    ensures r == Enumerated(engine, from, to)
  {
    if LexLess(to, from) {
      return Err(FromAfterTo);
    }
    var dates: seq<string> := [];
    var first, last := engine.read(from), engine.read(to);
    if first.Some? && last.Some? {
      var cursor, end := first.value * MS_PER_DAY, last.value * MS_PER_DAY;
      ghost var day := first.value;
      while cursor <= end
        invariant cursor == day * MS_PER_DAY && first.value <= day
        invariant day <= last.value + 1 || day == first.value
        invariant dates == DayStrings(engine, first.value, day - 1)
        decreases last.value - day
      {
        assert cursor / MS_PER_DAY == day;
        dates := dates + [engine.write(cursor / MS_PER_DAY)];
        cursor := cursor + MS_PER_DAY;
        day := day + 1;
      }
    }
    r := Ok(dates);
  }

  /** What a listed span of real dates is. */
  ghost predicate ListsSpan(ds: seq<string>, from: string, to: string)
    requires IsDateString(from) && IsDateString(to)
  {
    // one entry a day, from the first day to the last
    && |ds| == Day(to) - Day(from) + 1
    && (forall i | 0 <= i < |ds| :: IsDateString(ds[i]) && Day(ds[i]) == Day(from) + i)
    // strictly increasing
    && (forall i, j | 0 <= i < j < |ds| :: LexLess(ds[i], ds[j]))
    // each the calendar successor of the one before
    && (forall i | 0 < i < |ds| :: Fields(ds[i]) == NextDay(Fields(ds[i - 1])))
    // exactly the date strings between the two ends
    && (forall s :: s in ds <==> IsDateString(s) && LexLeq(from, s) && LexLeq(s, to))
  }

  /** Enumerating a span of real dates lists it. */
  lemma EnumerationExact(engine: Engine, from: string, to: string)
    requires Conforms(engine)
    requires IsDateString(from) && IsDateString(to) && LexLeq(from, to)
    ensures Enumerated(engine, from, to) == Ok(DayStrings(engine, Day(from), Day(to)))
    ensures ListsSpan(DayStrings(engine, Day(from), Day(to)), from, to)
  {
    LexTrichotomy(from, to);
    EngineWritesBack(engine, from);
    EngineWritesBack(engine, to);
    DatedEntries(engine, from, to);
    ConsecutiveDaysListSpan(DayStrings(engine, Day(from), Day(to)), from, to);
  }

  lemma DatedEntries(engine: Engine, from: string, to: string)
    requires Conforms(engine)
    requires IsDateString(from) && IsDateString(to) && LexLeq(from, to)
    ensures var ds := DayStrings(engine, Day(from), Day(to));
            && |ds| == Day(to) - Day(from) + 1
            && forall i | 0 <= i < |ds| :: IsDateString(ds[i]) && Day(ds[i]) == Day(from) + i
  {
    OrderIsChronological(from, to);
    DateStringDay(from);
    DateStringDay(to);
    var ds := DayStrings(engine, Day(from), Day(to));
    assert forall i | 0 <= i < |ds| :: WritesDay(ds[i], Day(from) + i);
  }

  /** A date string for each of the consecutive days lists the span. */
  lemma ConsecutiveDaysListSpan(ds: seq<string>, from: string, to: string)
    requires IsDateString(from) && IsDateString(to)
    requires |ds| == Day(to) - Day(from) + 1
    requires forall i | 0 <= i < |ds| :: IsDateString(ds[i]) && Day(ds[i]) == Day(from) + i
    ensures ListsSpan(ds, from, to)
  {
    forall i, j | 0 <= i < j < |ds| ensures LexLess(ds[i], ds[j]) {
      OrderIsChronological(ds[i], ds[j]);
    }
    forall i | 0 < i < |ds| ensures Fields(ds[i]) == NextDay(Fields(ds[i - 1])) {
      SuccessorByDay(ds[i - 1], ds[i]);
    }
    forall s ensures s in ds <==> IsDateString(s) && LexLeq(from, s) && LexLeq(s, to) {
      SpanMember(ds, from, to, s);
    }
  }

  lemma SuccessorByDay(s: string, t: string)
    requires IsDateString(s) && IsDateString(t) && Day(t) == Day(s) + 1
    ensures Fields(t) == NextDay(Fields(s))
  {
    SuccessorOfCivil(Fields(s), Fields(t));
  }

  lemma SuccessorOfCivil(c: Civil, d: Civil)
    requires Valid(c) && Valid(d) && DayNumber(d) == DayNumber(c) + 1
    ensures d == NextDay(c)
  {
    NextDayAddsOne(c);
    SameDay(d, NextDay(c));
  }

  lemma SpanMember(ds: seq<string>, from: string, to: string, s: string)
    requires IsDateString(from) && IsDateString(to)
    requires |ds| == Day(to) - Day(from) + 1
    requires forall i | 0 <= i < |ds| :: IsDateString(ds[i]) && Day(ds[i]) == Day(from) + i
    ensures s in ds <==> IsDateString(s) && LexLeq(from, s) && LexLeq(s, to)
  {
    if IsDateString(s) {
      OrderIsChronological(from, s);
      OrderIsChronological(s, to);
      if Day(from) <= Day(s) <= Day(to) {
        OrderIsChronological(ds[Day(s) - Day(from)], s);
      }
    }
  }

  datatype Status = Available | Blocked

  datatype Blackout = Blackout(dateFrom: string, dateTo: string)

  datatype CalendarDay = CalendarDay(date: string, status: Status)

  predicate IsVetoedByBlackout(date: string, ranges: seq<Blackout>) {
    exists r | r in ranges :: LexLeq(r.dateFrom, date) && LexLeq(date, r.dateTo)
  }

  function DayStatus(date: string, calendar: map<string, Status>, ranges: seq<Blackout>): Status {
    if IsVetoedByBlackout(date, ranges) then Blocked
    else if date in calendar then calendar[date]
    else Available
  }

  function ExpandCalendarDays(
      engine: Engine, from: string, to: string,
      calendar: map<string, Status>, ranges: seq<Blackout>)
    : Result<seq<CalendarDay>, SpanError>
  {
    match Enumerated(engine, from, to)
    case Err(e) => Err(e)
    case Ok(dates) =>
      Ok(seq(|dates|, i requires 0 <= i < |dates| =>
        CalendarDay(dates[i], DayStatus(dates[i], calendar, ranges))))
  }

  /** No blackout range covers the day, by day numbers. */
  ghost predicate OutsideBlackouts(day: int, ranges: seq<Blackout>)
    requires forall r | r in ranges :: IsDateString(r.dateFrom) && IsDateString(r.dateTo)
  {
    forall r | r in ranges :: day < Day(r.dateFrom) || Day(r.dateTo) < day
  }

  /**
   * Entry `n` of the expansion is about the day `n` days after `from`, and that day is
   * available exactly when it lies in no blackout range and its row, if any, is available.
   */
  lemma ExpansionExact(
      engine: Engine, from: string, to: string,
      calendar: map<string, Status>, ranges: seq<Blackout>, n: nat)
    requires Conforms(engine)
    requires IsDateString(from) && IsDateString(to) && LexLeq(from, to)
    requires forall r | r in ranges :: IsDateString(r.dateFrom) && IsDateString(r.dateTo)
    requires n <= Day(to) - Day(from)
    ensures var days := ExpandCalendarDays(engine, from, to, calendar, ranges);
            && days.Ok? && |days.value| == Day(to) - Day(from) + 1
            && var CalendarDay(date, status) := days.value[n];
            && IsDateString(date) && Day(date) == Day(from) + n
            && (status == Available <==>
                && OutsideBlackouts(Day(from) + n, ranges)
                && (date in calendar ==> calendar[date] == Available))
  {
    EnumerationExact(engine, from, to);
    VetoByDay(DayStrings(engine, Day(from), Day(to))[n], ranges);
  }

  /**
   * For any texts: enumerating, and expanding, fails exactly when the span ends before it starts;
   * a bound that is no date gives no days.
   */
  lemma SpanErrorsExact(
      engine: Engine, from: string, to: string,
      calendar: map<string, Status>, ranges: seq<Blackout>)
    ensures var listed := Enumerated(engine, from, to);
            var days := ExpandCalendarDays(engine, from, to, calendar, ranges);
            && (listed.Err? <==> LexLess(to, from)) && (days.Err? <==> LexLess(to, from))
            && (listed.Ok? ==> |days.value| == |listed.value|)
            && (listed.Ok? && (engine.read(from).None? || engine.read(to).None?) ==>
                  listed.value == [])
  {
  }

  /** The veto by string comparison is the veto by day number. */
  lemma VetoByDay(date: string, ranges: seq<Blackout>)
    requires IsDateString(date)
    requires forall r | r in ranges :: IsDateString(r.dateFrom) && IsDateString(r.dateTo)
    ensures IsVetoedByBlackout(date, ranges) <==> !OutsideBlackouts(Day(date), ranges)
  {
    forall r | r in ranges
      ensures LexLeq(r.dateFrom, date) <==> Day(r.dateFrom) <= Day(date)
      ensures LexLeq(date, r.dateTo) <==> Day(date) <= Day(r.dateTo)
    {
      OrderIsChronological(r.dateFrom, date);
      OrderIsChronological(date, r.dateTo);
    }
  }
}
