/**
 * `YYYY-MM-DD` strings, the `Date` values they are turned into, and the schema
 * that accepts them.
 */
module DateStrings {
  import opened Common
  import opened Decimal
  import opened CivilDate

  const MS_PER_DAY := 24 * 60 * 60 * 1000

  /** The pattern of the schema: four digits, two digits, two digits. */
  predicate DateShape(s: string) {
    |s| == 10 && s[4] == '-' && s[7] == '-'
    && AllDigits(s[..4]) && AllDigits(s[5..7]) && AllDigits(s[8..])
  }

  function Fields(s: string): Civil
    requires DateShape(s)
  {
    Civil(Value(s[..4]), Value(s[5..7]), Value(s[8..]))
  }

  /** A string that writes a real Gregorian date. */
  predicate IsDateString(s: string) {
    DateShape(s) && Valid(Fields(s))
  }

  predicate FourDigitYear(c: Civil) {
    0 <= c.year <= 9999
  }

  function Format(c: Civil): (s: string)
    requires Valid(c) && FourDigitYear(c)
    ensures |s| == 10
  {
    Fixed(c.year, 4) + "-" + Fixed(c.month, 2) + "-" + Fixed(c.day, 2)
  }

  function Day(s: string): int
    requires IsDateString(s)
  {
    DayNumber(Fields(s))
  }

  lemma SmallPowers()
    ensures Pow10(2) == 100 && Pow10(4) == 10000
  {
    assert Pow10(1) == 10 * Pow10(0);
    assert Pow10(2) == 10 * Pow10(1);
    assert Pow10(3) == 10 * Pow10(2);
  }

  /** Formatting then reading gives the date back. */
  lemma FormatThenRead(c: Civil)
    requires Valid(c) && FourDigitYear(c)
    ensures IsDateString(Format(c)) && Fields(Format(c)) == c
  {
    SmallPowers();
    var s := Format(c);
    assert s[..4] == Fixed(c.year, 4) && s[5..7] == Fixed(c.month, 2) && s[8..] == Fixed(c.day, 2);
  }

  /** Reading then formatting gives the string back. */
  lemma ReadThenFormat(s: string)
    requires IsDateString(s)
    ensures FourDigitYear(Fields(s)) && Format(Fields(s)) == s
  {
    SmallPowers();
    var c := Fields(s);
    ValueBound(s[..4]);
    ValueOrder(s[..4], Fixed(c.year, 4));
    ValueOrder(s[5..7], Fixed(c.month, 2));
    ValueOrder(s[8..], Fixed(c.day, 2));
    assert s == s[..4] + "-" + s[5..7] + "-" + s[8..];
  }

  /** Lexicographic order of date strings is chronological order. */
  lemma OrderIsChronological(s: string, t: string)
    requires IsDateString(s) && IsDateString(t)
    ensures LexLess(s, t) <==> Day(s) < Day(t)
    ensures s == t <==> Day(s) == Day(t)
  {
    ShapeOrder(s, t);
    BeforeIsDayOrder(Fields(s), Fields(t));
    BeforeIsDayOrder(Fields(t), Fields(s));
    if Fields(s) == Fields(t) {
      ReadThenFormat(s);
      ReadThenFormat(t);
    }
  }

  lemma ShapeOrder(s: string, t: string)
    requires DateShape(s) && DateShape(t)
    ensures LexLess(s, t) <==> Before(Fields(s), Fields(t))
  {
    ValueOrder(s[..4], t[..4]);
    ValueOrder(s[5..7], t[5..7]);
    ValueOrder(s[8..], t[8..]);
    assert s == s[..4] + s[4..] && t == t[..4] + t[4..];
    if s[..4] != t[..4] {
      LexHeadsDecide(s[..4], t[..4], s[4..], t[4..]);
    } else {
      LexCommonPrefix(s[..4], s[4..], t[4..]);
      assert s[4..] == "-" + s[5..] && t[4..] == "-" + t[5..];
      LexCommonPrefix("-", s[5..], t[5..]);
      assert s[5..] == s[5..7] + s[7..] && t[5..] == t[5..7] + t[7..];
      if s[5..7] != t[5..7] {
        LexHeadsDecide(s[5..7], t[5..7], s[7..], t[7..]);
      } else {
        LexCommonPrefix(s[5..7], s[7..], t[7..]);
        assert s[7..] == "-" + s[8..] && t[7..] == "-" + t[8..];
        LexCommonPrefix("-", s[8..], t[8..]);
      }
    }
  }

  /**
   * `toISOString().slice(0, 10)` at midnight of a day: years outside 0 to 9999
   * are written with a sign and six digits, so the slice loses the day.
   */
  function IsoDate(t: int): string {
    var c := CivilOfDay(t);
    if FourDigitYear(c) then Format(c)
    else
      var year := Fixed(if c.year < 0 then -c.year else c.year, 6);
      ((if c.year < 0 then "-" else "+") + year + "-" + Fixed(c.month, 2))[..10]
  }

  /** The ISO string of a day is its date string exactly when the year has four digits. */
  lemma IsoDateShape(t: int)
    ensures if FourDigitYear(CivilOfDay(t)) then WritesDay(IsoDate(t), t)
            else !DateShape(IsoDate(t))
  {
    if FourDigitYear(CivilOfDay(t)) {
      FormatThenRead(CivilOfDay(t));
    } else {
      SignedYear(t);
    }
  }

  lemma SignedYear(t: int)
    requires !FourDigitYear(CivilOfDay(t))
    ensures !DateShape(IsoDate(t))
  {
    var s := IsoDate(t);
    assert s[..4][0] == s[0];
    assert !IsDigit(s[..4][0]);
  }

  /**
   * The `Date` of a JavaScript engine. `read(s)` is the day on which
   * `new Date(s + "T00:00:00Z")` falls, or nothing for an invalid date (engines
   * differ on strings such as 2026-02-30); `write(t)` is the first ten characters
   * of the ISO string of midnight of day `t`.
   */
  datatype Engine = Engine(read: string -> Option<int>, write: int -> string)

  const FIRST_DATE := "0000-01-01"
  const FIRST_DAY := -719528
  const LAST_DATE := "9999-12-31"
  const LAST_DAY := 2932896

  /**
   * All that is asked of an engine: it reads real dates, writes the day of a
   * four-digit year as its date string, and writes other days in another shape.
   */
  ghost predicate Conforms(engine: Engine) {
    && (forall s | IsDateString(s) :: engine.read(s) == Some(Day(s)))
    && (forall t | FIRST_DAY <= t <= LAST_DAY :: WritesDay(engine.write(t), t))
    && (forall t | t < FIRST_DAY || LAST_DAY < t :: !DateShape(engine.write(t)))
  }

  predicate WritesDay(s: string, t: int) {
    IsDateString(s) && Day(s) == t
  }

  lemma BoundaryDates()
    ensures WritesDay(FIRST_DATE, FIRST_DAY) && Fields(FIRST_DATE) == Civil(0, 1, 1)
    ensures WritesDay(LAST_DATE, LAST_DAY) && Fields(LAST_DATE) == Civil(9999, 12, 31)
  {
    FirstDateFields();
    LastDateFields();
    assert DayNumber(Civil(0, 1, 1)) == FIRST_DAY;
    assert DayNumber(Civil(9999, 12, 31)) == LAST_DAY;
  }

  lemma FirstDateFields()
    ensures DateShape(FIRST_DATE) && Fields(FIRST_DATE) == Civil(0, 1, 1)
  {
    var s := FIRST_DATE;
    assert s[..4] == "0000" && s[5..7] == "01" && s[8..] == "01";
    FourDigits("0000");
    TwoDigits("01");
  }

  lemma LastDateFields()
    ensures DateShape(LAST_DATE) && Fields(LAST_DATE) == Civil(9999, 12, 31)
  {
    var s := LAST_DATE;
    assert s[..4] == "9999" && s[5..7] == "12" && s[8..] == "31";
    FourDigits("9999");
    TwoDigits("12");
    TwoDigits("31");
  }

  lemma TwoDigits(s: string)
    requires |s| == 2 && AllDigits(s)
    ensures Value(s) == 10 * DigitValue(s[0]) + DigitValue(s[1])
  {
    var h := s[..1];
    assert Value(s) == 10 * Value(h) + DigitValue(s[1]);
    assert Value(h) == 10 * Value(h[..0]) + DigitValue(h[0]);
  }

  lemma FourDigits(s: string)
    requires |s| == 4 && AllDigits(s)
    ensures Value(s) == 1000 * DigitValue(s[0]) + 100 * DigitValue(s[1])
                        + 10 * DigitValue(s[2]) + DigitValue(s[3])
  {
    SmallPowers();
    ValueConcat(s[..2], s[2..]);
    assert s == s[..2] + s[2..];
    TwoDigits(s[..2]);
    TwoDigits(s[2..]);
  }

  /** The years of four digits are the days from the first date to the last. */
  lemma FourDigitDays(c: Civil)
    requires Valid(c)
    ensures FourDigitYear(c) <==> FIRST_DAY <= DayNumber(c) <= LAST_DAY
  {
    BoundaryDates();
    BeforeIsDayOrder(c, Civil(0, 1, 1));
    BeforeIsDayOrder(Civil(9999, 12, 31), c);
  }

  lemma DateStringDay(s: string)
    requires IsDateString(s)
    ensures FIRST_DAY <= Day(s) <= LAST_DAY
  {
    ReadThenFormat(s);
    FourDigitDays(Fields(s));
  }

  /** An engine that writes days as ECMA-262 says conforms. */
  lemma EcmaEngineConforms(engine: Engine)
    requires forall s | IsDateString(s) :: engine.read(s) == Some(Day(s))
    requires forall t :: engine.write(t) == IsoDate(t)
    ensures Conforms(engine)
  {
    forall t
      ensures FIRST_DAY <= t <= LAST_DAY ==> WritesDay(engine.write(t), t)
      ensures t < FIRST_DAY || LAST_DAY < t ==> !DateShape(engine.write(t))
    {
      FourDigitDays(CivilOfDay(t));
      IsoDateShape(t);
    }
  }

  /** Writing back the day that was read gives the string back. */
  lemma EngineWritesBack(engine: Engine, s: string)
    requires Conforms(engine) && IsDateString(s)
    ensures engine.read(s) == Some(Day(s)) && engine.write(Day(s)) == s
  {
    DateStringDay(s);
    assert WritesDay(engine.write(Day(s)), Day(s));
    OrderIsChronological(engine.write(Day(s)), s);
  }

  /** The schema: the pattern, then the round trip through `Date`. */
  predicate SchemaAccepts(engine: Engine, s: string) {
    DateShape(s)
    && var parsed := engine.read(s);
    parsed.Some? && engine.write(parsed.value) == s
  }

  /**
   * Whatever the engine makes of impossible days, the schema accepts exactly the
   * zero-padded forms of the real dates of years 0 to 9999.
   */
  lemma SchemaAcceptsRealDates(engine: Engine, s: string)
    requires Conforms(engine)
    ensures SchemaAccepts(engine, s) <==>
            exists c :: Valid(c) && FourDigitYear(c) && s == Format(c)
  {
    if SchemaAccepts(engine, s) {
      var t := engine.read(s).value;
      assert WritesDay(engine.write(t), t);
      ReadThenFormat(s);
    }
    if c :| Valid(c) && FourDigitYear(c) && s == Format(c) {
      FormatThenRead(c);
      EngineWritesBack(engine, s);
    }
  }
}
