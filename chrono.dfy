/** Time as the directory code computes it. An instant is an integer number
    of microseconds since 1601-01-01 00:00 UTC, the epoch of Windows
    FILETIME values; the instants Python's `datetime` can hold run from
    0001-01-01 to 9999-12-31 23:59:59.999999, and leaving that range raises
    `OverflowError`. */
module Chrono {
  import opened Common

  const MicrosPerSecond: int := 1_000_000
  const MicrosPerMinute: int := 60 * MicrosPerSecond
  const MicrosPerDay: int := 86_400_000_000

  /** 0001-01-01 lies 584388 days before 1601-01-01; 10000-01-01 lies
      3067671 days after it. */
  const MinInstant: int := -584388 * MicrosPerDay
  const MaxInstant: int := 3067671 * MicrosPerDay - 1

  /** `timedelta` refuses more than 999999999 days either way. */
  const MaxTimedeltaDays: int := 999_999_999

  /** Days from 1601-01-01 to 1970-01-01. */
  const UnixEpochDay: int := 134774

  predicate InRange(t: int) { MinInstant <= t <= MaxInstant }

  type Instant = t: int | InRange(t) witness 0

  /** `datetime(1601, 1, 1, tzinfo=utc) + timedelta(microseconds=ticks // 10)`:
      a FILETIME counts 100-nanosecond ticks, and the conversion truncates
      towards minus infinity. `None` stands for the `OverflowError` raised
      either by the oversized `timedelta` or by the sum, without its message. */
  function FromFiletime(ticks: int): (r: Option<Instant>)
    ensures r.Some? <==> InRange(ticks / 10)
    ensures r.Some? ==> 10 * r.value <= ticks < 10 * r.value + 10
  {
    var micros := ticks / 10;
    if InRange(micros) then Some(micros) else None
  }

  /** `t + timedelta(days=days)`. `None` stands for either overflow: the
      `timedelta` refusing the days, or the sum leaving the range; which one
      it was, and its message, is not kept. */
  function AddDays(t: Instant, days: int): (r: Option<Instant>)
    ensures r.Some? <==> -MaxTimedeltaDays <= days <= MaxTimedeltaDays && InRange(t + days * MicrosPerDay)
    ensures r.Some? ==> r.value - t == days * MicrosPerDay
  {
    if days < -MaxTimedeltaDays || MaxTimedeltaDays < days then None
    else if InRange(t + days * MicrosPerDay) then Some(t + days * MicrosPerDay)
    else None
  }

  /** `(later - earlier).days`: whole days, rounded towards minus infinity, as
      Python normalises a negative `timedelta`. */
  function DaysBetween(later: int, earlier: int): (d: int)
    ensures d * MicrosPerDay <= later - earlier < (d + 1) * MicrosPerDay
  {
    (later - earlier) / MicrosPerDay
  }

  /** The day count is negative exactly when the later instant has passed. */
  lemma DaysBetweenNegative(later: int, earlier: int)
    ensures DaysBetween(later, earlier) < 0 <==> later < earlier
  {
    var d := DaysBetween(later, earlier);
    if d < 0 {
      assert (d + 1) * MicrosPerDay <= 0;
    }
  }

  /** Counting through the exact expiry instant: 0 days remain at the instant
      itself and -1 one microsecond later. */
  lemma DaysAtExpiry(expiry: int)
    ensures DaysBetween(expiry, expiry) == 0
    ensures DaysBetween(expiry, expiry + 1) == -1
    ensures DaysBetween(expiry, expiry - MicrosPerDay + 1) == 0
    ensures DaysBetween(expiry, expiry - MicrosPerDay) == 1
  {
  }

  /** After waiting one more day the count drops by exactly one. */
  lemma DaysBetweenStep(later: int, earlier: int)
    ensures DaysBetween(later, earlier + MicrosPerDay) == DaysBetween(later, earlier) - 1
  {
    var d := DaysBetween(later, earlier);
    var e := DaysBetween(later, earlier + MicrosPerDay);
    assert e * MicrosPerDay <= later - earlier - MicrosPerDay < (e + 1) * MicrosPerDay;
    assert (e + 1) * MicrosPerDay <= later - earlier < (e + 2) * MicrosPerDay;
    assert d * MicrosPerDay <= later - earlier < (d + 1) * MicrosPerDay;
  }

  /** Counting from a date `days` days back, exactly `days` days remain. */
  lemma DaysBetweenWhole(t: int, days: int)
    ensures DaysBetween(t + days * MicrosPerDay, t) == days
  {
  }

  /** The policy length read from the environment: Python
      `int(os.getenv(name, default))`. An unset variable gives the default;
      text `int()` cannot read raises `ValueError` (`None`). */
  function PolicyDays(env: Option<string>, default: int): (r: Option<int>)
    ensures env.None? ==> r == Some(default)
    ensures env.Some? ==> r == ParseInt(env.value)
  {
    match env
    case None => Some(default)
    case Some(text) => ParseInt(text)
  }

  /** A proleptic Gregorian date. */
  datatype Civil = Civil(year: int, month: int, day: int)

  /** The civil date of a day number counted from 1970-01-01, after H.
      Hinnant's `civil_from_days`: the calendar repeats every 400 years
      (146097 days), and inside an era the year runs from March so that the
      leap day comes last. */
  function CivilFromDays(z0: int): (c: Civil)
    ensures 1 <= c.month <= 12 && 1 <= c.day <= 31
  {
    var z := z0 + 719468;
    var era := z / 146097;
    var doe := z - era * 146097;
    var yoe := (doe - doe / 1460 + doe / 36524 - doe / 146096) / 365;
    var doy := doe - (365 * yoe + yoe / 4 - yoe / 100);
    var mp := (5 * doy + 2) / 153;
    var d := doy - (153 * mp + 2) / 5 + 1;
    var m := if mp < 10 then mp + 3 else mp - 9;
    Civil(yoe + era * 400 + (if m <= 2 then 1 else 0), m, d)
  }

  /** The day number from 1970-01-01 of a civil date, Hinnant's
      `days_from_civil`, the inverse of `CivilFromDays`. */
  function DaysFromCivil(c: Civil): int {
    var y := if c.month <= 2 then c.year - 1 else c.year;
    var era := y / 400;
    var yoe := y - era * 400;
    var mp := if c.month > 2 then c.month - 3 else c.month + 9;
    var doy := (153 * mp + 2) / 5 + c.day - 1;
    var doe := yoe * 365 + yoe / 4 - yoe / 100 + doy;
    era * 146097 + doe - 719468
  }

  /** `expiry_date.strftime('%d/%m/%Y %H:%M UTC')`. */
  function FormatUtc(t: Instant): string {
    var day := t / MicrosPerDay;
    var inDay := t % MicrosPerDay;
    var c := CivilFromDays(day - UnixEpochDay);
    var hour := inDay / (60 * MicrosPerMinute);
    var minute := inDay % (60 * MicrosPerMinute) / MicrosPerMinute;
    Pad2(c.day) + "/" + Pad2(c.month) + "/" +
    IntToString(c.year) + " " + Pad2(hour) + ":" + Pad2(minute) + " UTC"
  }

  /** The FILETIME epoch, the Unix epoch, the last day of 1999 and a leap
      day with the day after it. */
  lemma CivilOfFiletimeEpoch()
    ensures CivilFromDays(-UnixEpochDay) == Civil(1601, 1, 1)
  {
    assert 584694 / 146097 == 4;
    assert 306 / 1460 == 0 && 306 / 36524 == 0 && 306 / 146096 == 0;
    assert 306 / 365 == 0 && 0 / 4 == 0 && 0 / 100 == 0;
    assert 1532 / 153 == 10 && 1532 / 5 == 306;
  }

  lemma CivilOfUnixEpoch()
    ensures CivilFromDays(0) == Civil(1970, 1, 1)
  {
    assert 719468 / 146097 == 4;
    assert 135080 / 1460 == 92 && 135080 / 36524 == 3 && 135080 / 146096 == 0;
    assert 134991 / 365 == 369 && 369 / 4 == 92 && 369 / 100 == 3;
    assert 1532 / 153 == 10 && 1532 / 5 == 306;
  }

  lemma CivilOfMillenniumEve()
    ensures CivilFromDays(10956) == Civil(1999, 12, 31)
  {
    assert 730424 / 146097 == 4;
    assert 146036 / 1460 == 100 && 146036 / 36524 == 3 && 146036 / 146096 == 0;
    assert 145939 / 365 == 399 && 399 / 4 == 99 && 399 / 100 == 3;
    assert 1527 / 153 == 9 && 1379 / 5 == 275;
  }

  lemma CivilOfLeapDay()
    ensures CivilFromDays(19782) == Civil(2024, 2, 29)
  {
    assert 739250 / 146097 == 5;
    assert 8765 / 1460 == 6 && 8765 / 36524 == 0 && 8765 / 146096 == 0;
    assert 8759 / 365 == 23 && 23 / 4 == 5 && 23 / 100 == 0;
    assert 1827 / 153 == 11 && 1685 / 5 == 337;
  }

  lemma CivilAfterLeapDay()
    ensures CivilFromDays(19783) == Civil(2024, 3, 1)
  {
    assert 739251 / 146097 == 5;
    assert 8766 / 1460 == 6 && 8766 / 36524 == 0 && 8766 / 146096 == 0;
    assert 8760 / 365 == 24 && 24 / 4 == 6 && 24 / 100 == 0;
    assert 2 / 153 == 0 && 2 / 5 == 0;
  }

  lemma DaysOfFiletimeEpoch()
    ensures DaysFromCivil(Civil(1601, 1, 1)) == -UnixEpochDay
  {
  }

  lemma DaysOfLeapDay()
    ensures DaysFromCivil(Civil(2024, 2, 29)) == 19782
  {
  }

  lemma YearDigits()
    ensures IntToString(2024) == "2024"
  {
    assert NatToString(2) == "2";
    assert NatToString(20) == NatToString(2) + "0";
    assert NatToString(202) == NatToString(20) + "2";
    assert NatToString(2024) == NatToString(202) + "4";
  }

  lemma PadExamples()
    ensures Pad2(29) == "29" && Pad2(2) == "02" && Pad2(12) == "12" && Pad2(34) == "34"
  {
    assert NatToString(29) == NatToString(2) + "9";
    assert NatToString(12) == NatToString(1) + "2";
    assert NatToString(34) == NatToString(3) + "4";
  }

  lemma DateText()
    ensures "29" + "/" + "02" + "/" + "2024" + " " + "12" + ":" + "34" + " UTC" == "29/02/2024 12:34 UTC"
  {
  }

  /** 29 February 2024 at 12:34 UTC is rendered day first. */
  lemma FormatExample()
    ensures FormatUtc((UnixEpochDay + 19782) * MicrosPerDay + 45_240_000_000) == "29/02/2024 12:34 UTC"
  {
    var t := (UnixEpochDay + 19782) * MicrosPerDay + 45_240_000_000;
    assert t / MicrosPerDay == UnixEpochDay + 19782;
    assert t % MicrosPerDay == 45_240_000_000;
    assert 45_240_000_000 / (60 * MicrosPerMinute) == 12;
    assert 45_240_000_000 % (60 * MicrosPerMinute) / MicrosPerMinute == 34;
    CivilOfLeapDay();
    YearDigits();
    PadExamples();
    assert FormatUtc(t) == Pad2(29) + "/" + Pad2(2) + "/" + IntToString(2024) + " " + Pad2(12) + ":" + Pad2(34) + " UTC";
    DateText();
  }
}
