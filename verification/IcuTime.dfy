/** Timestamps in microseconds and the calendar they are moved with (timestamp.cpp:345-415,
    icu-datefunc.cpp:94-170). The calendar is an integer instant in milliseconds: adding
    milliseconds, seconds, minutes or hours shifts it exactly, in UTC a day is 86,400,000
    milliseconds, and the difference in days truncates toward zero. How months shift an
    instant is a parameter. */
module IcuTime {
  const MIN_INT32 := -0x8000_0000
  const MAX_INT32 := 0x7FFF_FFFF
  const MIN_INT64 := -0x8000_0000_0000_0000
  const MAX_INT64 := 0x7FFF_FFFF_FFFF_FFFF

  type Int32 = x: int | -0x8000_0000 <= x <= 0x7FFF_FFFF
  type Int64 = x: int | -0x8000_0000_0000_0000 <= x <= 0x7FFF_FFFF_FFFF_FFFF

  predicate IsInt32(x: int) {
    MIN_INT32 <= x <= MAX_INT32
  }

  predicate IsInt64(x: int) {
    MIN_INT64 <= x <= MAX_INT64
  }

  datatype TimeError =
    | RangeError            // a ConversionException or OutOfRangeException of an overflow check
    | ZeroWidth | PeriodNotPositive | DayWithTime | MonthWithDayOrTime
    | InfiniteBounds | ZeroInterval | MixedSigns | ListTooLong

  datatype Outcome<+T> = Value(value: T) | Error(error: TimeError)

  datatype Interval = Interval(months: Int32, days: Int32, micros: Int64)

  const MICROS_PER_MSEC: int := 1000
  const MSECS_PER_SEC: int := 1000
  const SECS_PER_MINUTE: int := 60
  const MINS_PER_HOUR: int := 60
  const MSECS_PER_DAY: int := 86_400_000
  const MICROS_PER_DAY: int := 86_400_000_000

  /** `/` of the original, which truncates toward zero. */
  function Quotient(a: int, b: int): (q: int)
    requires b != 0
  {
    if a >= 0 then a / b else -(-a / b)
  }

  /** `%` of the original: the sign is that of the dividend. */
  function Remainder(a: int, b: int): (r: int)
    requires b != 0
    ensures b > 0 ==> -b < r < b
    ensures a >= 0 ==> r >= 0
    ensures a <= 0 ==> r <= 0
  {
    a - b * Quotient(a, b)
  }

  // ----- Timestamps -----

  const INFINITY: Int64 := 0x7FFF_FFFF_FFFF_FFFF

  /** Midnight of the first day that lies within the 64-bit range. */
  const MIN_TIMESTAMP := -9_223_372_022_400_000_000

  predicate IsFinite(ts: int) {
    ts != INFINITY && ts != -INFINITY
  }

  predicate InRange(ts: int) {
    MIN_TIMESTAMP <= ts < INFINITY
  }

  /** Timestamp::GetDate */
  function DateOf(ts: Int64): (days: Int32) {
    if ts == INFINITY then MAX_INT32
    else if ts == -INFINITY then -MAX_INT32
    else
      var below := if ts < 0 then 1 else 0;
      Quotient(ts + below, MICROS_PER_DAY) - below
  }

  /** The test that the midnight of the date does not overflow admits exactly the finite
      timestamps from the first whole day on. */
  lemma DayFits(ts: Int64)
    ensures IsInt64(DateOf(ts) * MICROS_PER_DAY) <==> InRange(ts)
  {
  }

  // ----- The calendar -----

  datatype Field = Millisecond | Second | Minute | Hour | Date | Month

  /** How an instant moves by a nonzero number of months. */
  type MonthShift = (int, int) -> int

  /** The instant moved by an amount of a field. */
  function Moved(months: MonthShift, millis: int, field: Field, amount: int): int {
    match field
    case Millisecond => millis + amount
    case Second => millis + 1000 * amount
    case Minute => millis + 60_000 * amount
    case Hour => millis + 3_600_000 * amount
    case Date => millis + MSECS_PER_DAY * amount
    case Month => if amount == 0 then millis else months(millis, amount)
  }

  class Calendar {
    const months: MonthShift
    var millis: int

    constructor (months: MonthShift)
      ensures this.months == months && millis == 0
    {
      this.months, millis := months, 0;
    }

    method Add(field: Field, amount: Int32)
      modifies this
      ensures millis == Moved(months, old(millis), field, amount)
    {
      millis := Moved(months, millis, field, amount);
    }

    /** fieldDifference for the date field in UTC: it also moves the calendar. */
    method DateDifference(when: int) returns (days: int)
      modifies this
      ensures days == Quotient(when - old(millis), MSECS_PER_DAY)
      ensures millis == old(millis) + days * MSECS_PER_DAY
    {
      days := Quotient(when - millis, MSECS_PER_DAY);
      millis := millis + days * MSECS_PER_DAY;
    }
  }

  /** SetTime rounds down. */
  method SetTime(calendar: Calendar, date: Int64) returns (micros: Int64)
    modifies calendar
    ensures calendar.millis * MICROS_PER_MSEC + micros == date && 0 <= micros < MICROS_PER_MSEC
  {
    var millis: Int64 := Quotient(date, MICROS_PER_MSEC);
    micros := Remainder(date, MICROS_PER_MSEC);
    if micros < 0 {
      millis := millis - 1;
      micros := micros + MICROS_PER_MSEC;
    }
    calendar.millis := millis;
  }

  /** What GetTime reads from a calendar at an instant. */
  function TimeOf(millis: int, micros: int): Outcome<Int64> {
    var ts := millis * MICROS_PER_MSEC + micros;
    if IsInt64(millis * MICROS_PER_MSEC) && InRange(ts) then Value(ts) else Error(RangeError)
  }

  method TryGetTime(calendar: Calendar, micros: Int64) returns (ok: bool, result: Int64)
    ensures if ok then TimeOf(calendar.millis, micros) == Value(result) else TimeOf(calendar.millis, micros).Error?
  {
    ok, result := false, 0;
    var millis := calendar.millis * MICROS_PER_MSEC;
    if !IsInt64(millis) {
      return;
    }
    millis := millis + micros;
    if !IsInt64(millis) {
      return;
    }
    result := millis;
    ok := IsInt64(DateOf(result) * MICROS_PER_DAY);
    DayFits(result);
  }

  method GetTime(calendar: Calendar, micros: Int64) returns (r: Outcome<Int64>)
    ensures r == TimeOf(calendar.millis, micros)
  {
    var ok, result := TryGetTime(calendar, micros);
    r := if ok then Value(result) else Error(RangeError);
  }

  /** SubtractDay: the start is rounded down to a millisecond, the end toward zero. */
  method SubtractDay(calendar: Calendar, start: Int64, end: Int64) returns (days: Int32)
    modifies calendar
    ensures days == DaysBetween(start, end)
  {
    var _ := SetTime(calendar, start);
    days := calendar.DateDifference(Quotient(end, MICROS_PER_MSEC));
  }

  function DaysBetween(start: int, end: int): int {
    Quotient(Quotient(end, MICROS_PER_MSEC) - start / MICROS_PER_MSEC, MSECS_PER_DAY)
  }
}
