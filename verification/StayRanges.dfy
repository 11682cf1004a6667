/** The calendar days a stay or rental consumes, by type of bookable unit. */
module StayRanges {
  import opened Common
  import opened CivilDate
  import opened DateStrings
  import opened Calendar

  const ACCOMMODATION_BOOKABLE_UNIT_TYPES: seq<string> := ["HOTEL_ROOM", "PROPERTY_UNIT"]

  predicate IsAccommodationUnitType(code: string) {
    code in ACCOMMODATION_BOOKABLE_UNIT_TYPES
  }

  /** Lodging, written out. */
  predicate Lodging(code: string) {
    code == "HOTEL_ROOM" || code == "PROPERTY_UNIT"
  }

  /** The types whose stays end before checkout are exactly these two. */
  lemma LodgingExact(code: string)
    ensures IsAccommodationUnitType(code) <==> Lodging(code)
  {
    assert ACCOMMODATION_BOOKABLE_UNIT_TYPES[0] == "HOTEL_ROOM";
    assert ACCOMMODATION_BOOKABLE_UNIT_TYPES[1] == "PROPERTY_UNIT";
  }

  datatype StayError = InvalidDate

  /** A JavaScript `Date` at midnight UTC, by its calendar fields. */
  class UtcDate {
    var civil: Civil

    ghost predicate Holds(day: int)
      reads this
    {
      Valid(civil) && DayNumber(civil) == day
    }

    constructor (day: int)
      ensures Holds(day)
    {
      civil := CivilOfDay(day);
    }

    /** `setUTCDate`: the date field is replaced, and out-of-range values carry over. */
    method SetUTCDate(date: int)
      modifies this
      ensures Holds(old(DayNumber(civil)) + date - old(civil.day))
    {
      civil := CivilOfDay(DayNumber(Civil(civil.year, civil.month, 1)) + date - 1);
    }

    method DayOf() returns (day: int)
      requires Valid(civil)
      ensures Holds(day)
    {
      day := DayNumber(civil);
    }
  }

  /** The day before; an invalid date makes `toISOString` throw. */
  function DayBefore(engine: Engine, s: string): Result<string, StayError> {
    match engine.read(s)
    case None => Err(InvalidDate)
    case Some(day) => Ok(engine.write(day - 1))
  }

  method PreviousDay(engine: Engine, s: string) returns (r: Result<string, StayError>)
    ensures r == DayBefore(engine, s)
  {
    var parsed := engine.read(s);
    if parsed.None? {
      return Err(InvalidDate);
    }
    var date := new UtcDate(parsed.value);
    date.SetUTCDate(date.civil.day - 1);
    var day := date.DayOf();
    r := Ok(engine.write(day));
  }

  /**
   * The day before a real date is the real date one day earlier, exactly when the
   * date is not the first one four digits can write.
   */
  lemma PreviousDayExact(engine: Engine, s: string)
    requires Conforms(engine) && IsDateString(s)
    ensures DayBefore(engine, s).Ok?
    ensures WritesDay(DayBefore(engine, s).value, Day(s) - 1) <==> s != FIRST_DATE
    ensures s == FIRST_DATE ==> !IsDateString(DayBefore(engine, s).value)
  {
    DateStringDay(s);
    BoundaryDates();
    OrderIsChronological(s, FIRST_DATE);
  }

  datatype Range = Range(dateFrom: string, dateTo: string)

  /** The range a request consumes: without the checkout day for lodging. */
  function ResolveConsumedRange(engine: Engine, code: string, dateFrom: string, dateTo: string)
    : Result<Range, StayError>
  {
    if IsAccommodationUnitType(code) && dateFrom != dateTo then
      match DayBefore(engine, dateTo)
      case Err(e) => Err(e)
      case Ok(p) => Ok(Range(dateFrom, p))
    else
      Ok(Range(dateFrom, dateTo))
  }

  /**
   * For any texts: the range starts where the request does, and ends there too for a same-day
   * request and for anything but lodging; only lodging reads the date, and fails without one.
   */
  lemma ResolvedExact(engine: Engine, code: string, dateFrom: string, dateTo: string)
    ensures var r := ResolveConsumedRange(engine, code, dateFrom, dateTo);
            && (r.Err? <==> Lodging(code) && dateFrom != dateTo && engine.read(dateTo).None?)
            && (r.Ok? ==> r.value.dateFrom == dateFrom)
            && (!Lodging(code) || dateFrom == dateTo ==> r == Ok(Range(dateFrom, dateTo)))
  {
    LodgingExact(code);
  }

  /** The days consumed by a request for real dates in order. */
  function ConsumedDays(engine: Engine, code: string, a: string, b: string): seq<string> {
    match ResolveConsumedRange(engine, code, a, b)
    case Err(_) => []
    case Ok(range) =>
      match Enumerated(engine, range.dateFrom, range.dateTo)
      case Err(_) => []
      case Ok(ds) => ds
  }

  /**
   * A stay consumes its nights: the days from check-in up to but not including
   * checkout, or the one day of a same-day request.
   */
  lemma NightsConsumed(engine: Engine, code: string, a: string, b: string)
    requires Conforms(engine) && Lodging(code)
    requires IsDateString(a) && IsDateString(b) && LexLeq(a, b)
    ensures ConsumedDays(engine, code, a, b)
         == DayStrings(engine, Day(a), if a == b then Day(b) else Day(b) - 1)
  {
    LodgingExact(code);
    if a == b {
      EnumerationExact(engine, a, b);
    } else {
      OrderIsChronological(a, b);
      DateStringDay(a);
      BoundaryDates();
      PreviousDayExact(engine, b);
      var p := DayBefore(engine, b).value;
      OrderIsChronological(a, p);
      EnumerationExact(engine, a, p);
    }
  }

  /** Any other unit consumes both end days. */
  lemma DaysConsumed(engine: Engine, code: string, a: string, b: string)
    requires Conforms(engine) && !Lodging(code)
    requires IsDateString(a) && IsDateString(b) && LexLeq(a, b)
    ensures ConsumedDays(engine, code, a, b) == DayStrings(engine, Day(a), Day(b))
  {
    LodgingExact(code);
    EnumerationExact(engine, a, b);
  }

  lemma NightsOf(engine: Engine, code: string, a: string, b: string, x: int, y: int)
    requires Conforms(engine) && Lodging(code)
    requires IsDateString(a) && IsDateString(b) && LexLess(a, b) && x == Day(a) && y == Day(b)
    ensures ConsumedDays(engine, code, a, b) == DayStrings(engine, x, y - 1)
  {
    LexTrichotomy(a, b);
    NightsConsumed(engine, code, a, b);
  }

  lemma DaysInOrder(a: string, b: string, x: int, y: int)
    requires IsDateString(a) && IsDateString(b) && LexLess(a, b) && x == Day(a) && y == Day(b)
    ensures FIRST_DAY <= x < y <= LAST_DAY
  {
    OrderIsChronological(a, b);
    DateStringDay(a);
    DateStringDay(b);
  }

  /**
   * Back-to-back stays: checking out on `b` and in on `b` share no night, together
   * consume exactly the nights of the long stay, and nights are day differences.
   */
  lemma StaysSplit(engine: Engine, code: string, a: string, b: string, c: string)
    requires Conforms(engine) && Lodging(code)
    requires IsDateString(a) && IsDateString(b) && IsDateString(c)
    requires LexLess(a, b) && LexLess(b, c)
    ensures var ab, bc := ConsumedDays(engine, code, a, b), ConsumedDays(engine, code, b, c);
            && ab + bc == ConsumedDays(engine, code, a, c)
            && (forall s :: !(s in ab && s in bc))
            && |ab| == Day(b) - Day(a) && |bc| == Day(c) - Day(b)
  {
    StaysSplitAt(engine, code, a, b, c, Day(a), Day(b), Day(c));
  }

  lemma StaysSplitAt(
      engine: Engine, code: string, a: string, b: string, c: string, x: int, y: int, z: int)
    requires Conforms(engine) && Lodging(code)
    requires IsDateString(a) && IsDateString(b) && IsDateString(c)
    requires LexLess(a, b) && LexLess(b, c) && x == Day(a) && y == Day(b) && z == Day(c)
    ensures var ab, bc := ConsumedDays(engine, code, a, b), ConsumedDays(engine, code, b, c);
            && ab + bc == ConsumedDays(engine, code, a, c)
            && (forall s :: !(s in ab && s in bc))
            && |ab| == y - x && |bc| == z - y
  {
    LexTransitive(a, b, c);
    DaysInOrder(a, b, x, y);
    DaysInOrder(b, c, y, z);
    NightsOf(engine, code, a, b, x, y);
    NightsOf(engine, code, b, c, y, z);
    NightsOf(engine, code, a, c, x, z);
    ConsecutiveDays(engine, x, y, z);
  }

  lemma ConsecutiveDays(engine: Engine, a: int, b: int, c: int)
    requires Conforms(engine) && FIRST_DAY <= a < b < c <= LAST_DAY
    ensures var ab, bc := DayStrings(engine, a, b - 1), DayStrings(engine, b, c - 1);
            && ab + bc == DayStrings(engine, a, c - 1)
            && forall s :: !(s in ab && s in bc)
  {
    var ab, bc := DayStrings(engine, a, b - 1), DayStrings(engine, b, c - 1);
    assert forall i | 0 <= i < |ab| :: WritesDay(ab[i], a + i);
    assert forall i | 0 <= i < |bc| :: WritesDay(bc[i], b + i);
  }

  /** Two rentals that meet on day `b` both consume it, and share nothing else. */
  lemma RentalsShareTheMeetingDay(engine: Engine, code: string, a: string, b: string, c: string)
    requires Conforms(engine) && !Lodging(code)
    requires IsDateString(a) && IsDateString(b) && IsDateString(c)
    requires LexLess(a, b) && LexLess(b, c)
    ensures var ab, bc := ConsumedDays(engine, code, a, b), ConsumedDays(engine, code, b, c);
            forall s :: (s in ab && s in bc) <==> s == b
  {
    DaysConsumed(engine, code, a, b);
    DaysConsumed(engine, code, b, c);
    EnumerationExact(engine, a, b);
    EnumerationExact(engine, b, c);
    forall s
      ensures (LexLeq(a, s) && LexLeq(s, b) && LexLeq(b, s) && LexLeq(s, c)) <==> s == b
    {
      LexTrichotomy(s, b);
    }
  }
}
