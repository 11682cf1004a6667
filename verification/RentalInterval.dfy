/** Chronology of a car rental's pickup and return, decided by comparing strings. */
module RentalInterval {
  import opened Common
  import opened Decimal
  import opened CivilDate
  import opened DateStrings

  datatype Reason = IncompleteRentalInterval | ReturnNotAfterPickup

  datatype Verdict = Accepted | Rejected(reason: Reason)

  /** A missing, null or empty time. */
  predicate Absent(time: Option<string>) {
    time.None? || time.value == ""
  }

  function ValidateRentalInterval(
      dateFrom: string, dateTo: string, startTime: Option<string>, endTime: Option<string>)
    : Verdict
  {
    if Absent(startTime) && Absent(endTime) then Accepted
    else if Absent(startTime) || Absent(endTime) then Rejected(IncompleteRentalInterval)
    else if LexLeq(dateTo + "T" + endTime.value, dateFrom + "T" + startTime.value) then
      Rejected(ReturnNotAfterPickup)
    else Accepted
  }

  /** Times come in pairs: exactly one missing is incomplete, both missing is accepted. */
  lemma TimesComeInPairs(
      dateFrom: string, dateTo: string, startTime: Option<string>, endTime: Option<string>)
    ensures ValidateRentalInterval(dateFrom, dateTo, startTime, endTime)
              == Rejected(IncompleteRentalInterval)
            <==> Absent(startTime) != Absent(endTime)
    ensures Absent(startTime) && Absent(endTime) ==>
            ValidateRentalInterval(dateFrom, dateTo, startTime, endTime).Accepted?
  {
  }

  /** The pattern of the request validator: `HH:MM` or `HH:MM:SS`, any digits. */
  predicate TimeShape(t: string) {
    (|t| == 5 || |t| == 8)
    && t[2] == ':' && AllDigits(t[..2]) && AllDigits(t[3..5])
    && (|t| == 8 ==> t[5] == ':' && AllDigits(t[6..]))
  }

  function Hour(t: string): nat
    requires TimeShape(t)
  {
    Value(t[..2])
  }

  function Minute(t: string): nat
    requires TimeShape(t)
  {
    Value(t[3..5])
  }

  function Second(t: string): nat
    requires TimeShape(t)
  {
    if |t| == 8 then Value(t[6..]) else 0
  }

  /** A time of day: its fields are in the range of a clock. */
  predicate ClockTime(t: string) {
    TimeShape(t) && Hour(t) < 24 && Minute(t) < 60 && Second(t) < 60
  }

  /** Seconds since the start of day 0. */
  function Instant(date: string, time: string): int
    requires IsDateString(date) && TimeShape(time)
  {
    86400 * Day(date) + 3600 * Hour(time) + 60 * Minute(time) + Second(time)
  }

  predicate TimeBefore(s: string, t: string)
    requires TimeShape(s) && TimeShape(t)
  {
    Hour(s) < Hour(t)
    || (Hour(s) == Hour(t) && Minute(s) < Minute(t))
    || (Hour(s) == Hour(t) && Minute(s) == Minute(t) && Second(s) < Second(t))
  }

  /** The same fields, written once without and once with seconds. */
  predicate SecondsAdded(s: string, t: string)
    requires TimeShape(s) && TimeShape(t)
  {
    |s| == 5 && |t| == 8 && Hour(s) == Hour(t) && Minute(s) == Minute(t) && Second(t) == 0
  }

  /** String order of times is field order, except that writing the seconds makes a time later. */
  lemma TimeOrder(s: string, t: string)
    requires TimeShape(s) && TimeShape(t)
    ensures LexLess(s, t) <==> TimeBefore(s, t) || SecondsAdded(s, t)
  {
    ValueOrder(s[..2], t[..2]);
    ValueOrder(s[3..5], t[3..5]);
    assert s == s[..2] + s[2..] && t == t[..2] + t[2..];
    if s[..2] != t[..2] {
      LexHeadsDecide(s[..2], t[..2], s[2..], t[2..]);
    } else {
      LexCommonPrefix(s[..2], s[2..], t[2..]);
      assert s[2..] == ":" + s[3..] && t[2..] == ":" + t[3..];
      LexCommonPrefix(":", s[3..], t[3..]);
      assert s[3..] == s[3..5] + s[5..] && t[3..] == t[3..5] + t[5..];
      if s[3..5] != t[3..5] {
        LexHeadsDecide(s[3..5], t[3..5], s[5..], t[5..]);
      } else {
        LexCommonPrefix(s[3..5], s[5..], t[5..]);
        SecondsOrder(s, t);
      }
    }
  }

  lemma SecondsOrder(s: string, t: string)
    requires TimeShape(s) && TimeShape(t)
    ensures LexLess(s[5..], t[5..]) <==>
            Second(s) < Second(t) || (|s| == 5 && |t| == 8 && Second(t) == 0)
  {
    if |s| == 8 && |t| == 8 {
      ValueOrder(s[6..], t[6..]);
      assert s[5..] == ":" + s[6..] && t[5..] == ":" + t[6..];
      LexCommonPrefix(":", s[6..], t[6..]);
    }
  }

  /** What acceptance means for any two times the request validator lets through. */
  lemma AcceptedByFields(dateFrom: string, dateTo: string, start: string, end: string)
    requires IsDateString(dateFrom) && IsDateString(dateTo)
    requires TimeShape(start) && TimeShape(end)
    ensures ValidateRentalInterval(dateFrom, dateTo, Some(start), Some(end)).Accepted? <==>
            || Day(dateFrom) < Day(dateTo)
            || (Day(dateFrom) == Day(dateTo) && (TimeBefore(start, end) || SecondsAdded(start, end)))
  {
    var pickup, dropoff := dateFrom + "T" + start, dateTo + "T" + end;
    LexTrichotomy(pickup, dropoff);
    OrderIsChronological(dateFrom, dateTo);
    assert pickup == dateFrom + ("T" + start) && dropoff == dateTo + ("T" + end);
    if dateFrom == dateTo {
      LexCommonPrefix(dateFrom, "T" + start, "T" + end);
      LexCommonPrefix("T", start, end);
      TimeOrder(start, end);
    } else {
      LexHeadsDecide(dateFrom, dateTo, "T" + start, "T" + end);
    }
  }

  /**
   * Between clock times a rental is accepted exactly when the return is strictly later,
   * or at the same instant written with seconds while the pickup is written without.
   */
  lemma AcceptedByInstants(dateFrom: string, dateTo: string, start: string, end: string)
    requires IsDateString(dateFrom) && IsDateString(dateTo)
    requires ClockTime(start) && ClockTime(end)
    ensures ValidateRentalInterval(dateFrom, dateTo, Some(start), Some(end)).Accepted? <==>
            || Instant(dateFrom, start) < Instant(dateTo, end)
            || (Instant(dateFrom, start) == Instant(dateTo, end) && |start| == 5 && |end| == 8)
  {
    AcceptedByFields(dateFrom, dateTo, start, end);
    InstantsByFields(Day(dateFrom), Hour(start), Minute(start), Second(start),
                     Day(dateTo), Hour(end), Minute(end), Second(end));
  }

  lemma InstantsByFields(d: int, h: nat, m: nat, s: nat, d': int, h': nat, m': nat, s': nat)
    requires h < 24 && m < 60 && s < 60 && h' < 24 && m' < 60 && s' < 60
    ensures 86400 * d + 3600 * h + 60 * m + s < 86400 * d' + 3600 * h' + 60 * m' + s' <==>
            || d < d'
            || (d == d' && (h < h' || (h == h' && (m < m' || (m == m' && s < s')))))
    ensures 86400 * d + 3600 * h + 60 * m + s == 86400 * d' + 3600 * h' + 60 * m' + s' <==>
            d == d' && h == h' && m == m' && s == s'
  {
  }

  /** The dates of a request: real ones, the return date not before the pickup date. */
  predicate RequestDates(dateFrom: string, dateTo: string) {
    IsDateString(dateFrom) && IsDateString(dateTo) && LexLeq(dateFrom, dateTo)
  }

  /** From a pickup at a time of day, an accepted return is never before, whatever its fields. */
  lemma AcceptedIsNotBefore(dateFrom: string, dateTo: string, start: string, end: string)
    requires IsDateString(dateFrom) && IsDateString(dateTo)
    requires ClockTime(start) && TimeShape(end)
    requires ValidateRentalInterval(dateFrom, dateTo, Some(start), Some(end)).Accepted?
    ensures Instant(dateFrom, start) <= Instant(dateTo, end)
    ensures |start| == |end| ==> Instant(dateFrom, start) < Instant(dateTo, end)
  {
    AcceptedByFields(dateFrom, dateTo, start, end);
    EarlierByFields(Day(dateFrom), Hour(start), Minute(start), Second(start),
                    Day(dateTo), Hour(end), Minute(end), Second(end));
  }

  lemma EarlierByFields(d: int, h: nat, m: nat, s: nat, d': int, h': nat, m': nat, s': nat)
    requires h < 24 && m < 60 && s < 60
    requires d < d' || (d == d' && (h < h' || (h == h' && (m < m' || (m == m' && s <= s')))))
    ensures 86400 * d + 3600 * h + 60 * m + s <= 86400 * d' + 3600 * h' + 60 * m' + s'
    ensures d < d' || h < h' || m < m' || s < s' ==>
            86400 * d + 3600 * h + 60 * m + s < 86400 * d' + 3600 * h' + 60 * m' + s'
  {
  }

  /** Accepting a return of the same width always means strictly later. */
  ghost predicate AcceptsOnlyLater(start: string)
    requires TimeShape(start)
  {
    forall dateFrom, dateTo, end
      | RequestDates(dateFrom, dateTo) && TimeShape(end) && |end| == |start|
        && ValidateRentalInterval(dateFrom, dateTo, Some(start), Some(end)).Accepted?
      :: Instant(dateFrom, start) < Instant(dateTo, end)
  }

  /**
   * The request validator admits pickup times such as 99:99. Accepted returns are strictly
   * later, for every return of the same width, exactly when the pickup is a time of day.
   */
  lemma PickupMustBeClockTime(start: string)
    requires TimeShape(start)
    ensures AcceptsOnlyLater(start) <==> ClockTime(start)
  {
    if ClockTime(start) {
      forall dateFrom, dateTo, end
        | RequestDates(dateFrom, dateTo) && TimeShape(end) && |end| == |start|
          && ValidateRentalInterval(dateFrom, dateTo, Some(start), Some(end)).Accepted?
        ensures Instant(dateFrom, start) < Instant(dateTo, end)
      {
        AcceptedIsNotBefore(dateFrom, dateTo, start, end);
      }
    } else {
      var dateFrom, dateTo, end := AcceptedTooEarly(start);
      OrderIsChronological(dateFrom, dateTo);
      assert RequestDates(dateFrom, dateTo);
      assert !(Instant(dateFrom, start) < Instant(dateTo, end));
    }
  }

  /** A pickup time off the clock has an accepted return that is not later. */
  lemma AcceptedTooEarly(start: string) returns (dateFrom: string, dateTo: string, end: string)
    requires TimeShape(start) && !ClockTime(start)
    ensures IsDateString(dateFrom) && IsDateString(dateTo) && Day(dateFrom) <= Day(dateTo)
    ensures ClockTime(end) && |end| == |start|
    ensures ValidateRentalInterval(dateFrom, dateTo, Some(start), Some(end)).Accepted?
    ensures Instant(dateTo, end) <= Instant(dateFrom, start)
  {
    dateFrom, dateTo := LAST_DATE, LAST_DATE;
    var h, m := Hour(start), Minute(start);
    if h < 24 && m < 59 {
      end := TimeString(h, m + 1, |start|);
    } else if h < 23 {
      end := TimeString(h + 1, 0, |start|);
    } else {
      dateFrom := FIRST_DATE;
      end := TimeString(0, 0, |start|);
    }
    BoundaryDates();
    if dateFrom == FIRST_DATE {
      dateTo := SecondDate();
    }
    AcceptedByFields(dateFrom, dateTo, start, end);
  }

  /** A return of the same width that is strictly later is always accepted. */
  ghost predicate AcceptsEveryLater(end: string)
    requires TimeShape(end)
  {
    forall dateFrom, dateTo, start
      | RequestDates(dateFrom, dateTo) && TimeShape(start) && |start| == |end|
        && Instant(dateFrom, start) < Instant(dateTo, end)
      :: ValidateRentalInterval(dateFrom, dateTo, Some(start), Some(end)).Accepted?
  }

  /**
   * No carry of its minutes and seconds would make the return time later than a time that
   * follows it as a string: carrying into the minutes, or into the hours, is not due, or the
   * field carried into is full.
   */
  predicate NoCarryDue(end: string)
    requires TimeShape(end)
  {
    && (Second(end) <= 60 || Minute(end) == 99)
    && (60 * Minute(end) + Second(end) <= 3600 || Hour(end) == 99)
  }

  /** Every strictly later return is accepted exactly when its time has no carry due. */
  lemma ReturnMustHaveNoCarry(end: string)
    requires TimeShape(end)
    ensures AcceptsEveryLater(end) <==> NoCarryDue(end)
  {
    if NoCarryDue(end) {
      forall dateFrom, dateTo, start
        | RequestDates(dateFrom, dateTo) && TimeShape(start) && |start| == |end|
          && Instant(dateFrom, start) < Instant(dateTo, end)
        ensures ValidateRentalInterval(dateFrom, dateTo, Some(start), Some(end)).Accepted?
      {
        OrderIsChronological(dateFrom, dateTo);
        AcceptedByFields(dateFrom, dateTo, start, end);
        FieldBounds(start);
        FieldBounds(end);
      }
    } else {
      var date, start := RejectedThoughLater(end);
      assert RequestDates(date, date);
      assert Instant(date, start) < Instant(date, end);
    }
  }

  /** A return time with a carry due is rejected for a pickup that it is strictly later than. */
  lemma RejectedThoughLater(end: string) returns (date: string, start: string)
    requires TimeShape(end) && !NoCarryDue(end)
    ensures IsDateString(date) && TimeShape(start) && |start| == |end|
    ensures Instant(date, start) < Instant(date, end)
    ensures ValidateRentalInterval(date, date, Some(start), Some(end)) == Rejected(ReturnNotAfterPickup)
  {
    FieldBounds(end);
    date := LAST_DATE;
    BoundaryDates();
    if Second(end) > 60 && Minute(end) < 99 {
      start := TimeString(Hour(end), Minute(end) + 1, |end|);
    } else {
      start := TimeString(Hour(end) + 1, 0, |end|);
    }
    AcceptedByFields(date, date, start, end);
  }

  lemma FieldBounds(t: string)
    requires TimeShape(t)
    ensures Hour(t) <= 99 && Minute(t) <= 99 && Second(t) <= 99
    ensures |t| == 5 ==> Second(t) == 0
  {
    SmallPowers();
    ValueBound(t[..2]);
    ValueBound(t[3..5]);
    if |t| == 8 {
      ValueBound(t[6..]);
    }
  }

  /** Pickup at 10:30, return at 09:99, which is 10:39: strictly later, and rejected. */
  lemma LaterReturnRejected(date: string)
    requires IsDateString(date)
    ensures TimeShape("10:30") && TimeShape("09:99")
    ensures Instant(date, "10:30") + 540 == Instant(date, "09:99")
    ensures ValidateRentalInterval(date, date, Some("10:30"), Some("09:99"))
            == Rejected(ReturnNotAfterPickup)
  {
    var s, e := "10:30", "09:99";
    assert s[..2] == "10" && s[3..5] == "30" && e[..2] == "09" && e[3..5] == "99";
    TwoDigits("10");
    TwoDigits("30");
    TwoDigits("09");
    TwoDigits("99");
    AcceptedByFields(date, date, s, e);
  }

  lemma SecondDate() returns (s: string)
    ensures IsDateString(s) && Day(s) == FIRST_DAY + 1
  {
    BoundaryDates();
    s := Format(Civil(0, 1, 2));
    FormatThenRead(Civil(0, 1, 2));
  }

  /** A time string with the given fields. */
  lemma TimeString(h: nat, m: nat, width: nat) returns (t: string)
    requires h < 100 && m < 100 && (width == 5 || width == 8)
    ensures TimeShape(t) && |t| == width && Hour(t) == h && Minute(t) == m && Second(t) == 0
  {
    SmallPowers();
    t := Fixed(h, 2) + ":" + Fixed(m, 2) + (if width == 8 then ":" + Fixed(0, 2) else "");
    assert t[..2] == Fixed(h, 2) && t[3..5] == Fixed(m, 2);
    if width == 8 {
      assert t[6..] == Fixed(0, 2);
    }
  }
}
