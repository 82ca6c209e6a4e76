/** Adding an interval to a timestamp (icu-dateadd.cpp:47-144). */
module IcuAdd {
  import opened IcuTime

  // ----- Specification -----

  datatype Instant = Instant(millis: int, micros: int)

  /** The timestamp as milliseconds and microseconds, after the microseconds of the interval
      that are less than a millisecond. The microseconds may stay negative. */
  function Start(ts: int, micros: int): (s: Instant)
    ensures s.millis * MICROS_PER_MSEC + s.micros == ts + Remainder(micros, MICROS_PER_MSEC)
    ensures -MICROS_PER_MSEC < s.micros < MICROS_PER_MSEC
  {
    var ms := Quotient(ts, MICROS_PER_MSEC);
    var us := Remainder(ts, MICROS_PER_MSEC) + Remainder(micros, MICROS_PER_MSEC);
    if us >= MICROS_PER_MSEC then Instant(ms + 1, us - MICROS_PER_MSEC)
    else if us < 0 then Instant(ms - 1, us + MICROS_PER_MSEC)
    else Instant(ms, us)
  }

  /** An interval with a negative part is added from the smallest unit to the largest. */
  function Moves(months: MonthShift, millis: int, interval: Interval): int {
    var whole := Quotient(interval.micros, MICROS_PER_MSEC);
    if interval.months < 0 || interval.days < 0 || interval.micros < 0 then
      Moved(months, Moved(months, millis + whole, Month, interval.months), Date, interval.days)
    else
      Moved(months, Moved(months, millis, Month, interval.months), Date, interval.days) + whole
  }

  function Sum(months: MonthShift, ts: Int64, interval: Interval): (r: Outcome<Int64>)
    ensures r.Value? && IsFinite(ts) ==> InRange(r.value)
  {
    if !IsFinite(ts) then Value(ts)
    else
      var start := Start(ts, interval.micros);
      if !InRange(start.millis * MICROS_PER_MSEC) then Error(RangeError)
      else TimeOf(Moves(months, start.millis, interval), start.micros)
  }

  /** ICUCalendarSub negates each part; the minimum of a type is its own negation, as it is in
      two's complement. */
  function Negated(interval: Interval): Interval {
    Interval(Negation(interval.months, MIN_INT32), Negation(interval.days, MIN_INT32),
        Negation(interval.micros, MIN_INT64))
  }

  function Negation(x: int, min: int): int {
    if x == min then x else -x
  }

  predicate Negatable(interval: Interval) {
    interval.months != MIN_INT32 && interval.days != MIN_INT32 && interval.micros != MIN_INT64
  }

  // ----- Properties -----

  /** The length of an interval without months. */
  function Length(interval: Interval): int {
    interval.days * MICROS_PER_DAY + interval.micros
  }

  /** The first millisecond, the last one and the sum are in range. */
  predicate Addable(ts: int, interval: Interval) {
    var start, sum := Start(ts, interval.micros), ts + Length(interval);
    InRange(start.millis * MICROS_PER_MSEC) && IsInt64(sum - start.micros) && InRange(sum)
  }

  /** Without months the interval is added exactly, whatever the signs, or a range error is
      raised. */
  lemma SumIsExact(months: MonthShift, ts: Int64, interval: Interval)
    requires IsFinite(ts) && interval.months == 0
    ensures Sum(months, ts, interval) ==
            if Addable(ts, interval) then Value(ts + Length(interval)) else Error(RangeError)
  {
    var start := Start(ts, interval.micros);
    var millis := Moves(months, start.millis, interval);
    assert millis * MICROS_PER_MSEC + start.micros == ts + Length(interval);
  }

  /** From a timestamp in range, microseconds are added exactly when the sum is in range:
      neither the test of the first millisecond nor that of the last one rejects more. */
  lemma MicrosSum(months: MonthShift, ts: Int64, micros: Int64)
    requires InRange(ts)
    ensures Sum(months, ts, Interval(0, 0, micros)) ==
            if InRange(ts + micros) then Value(ts + micros) else Error(RangeError)
  {
    SumIsExact(months, ts, Interval(0, 0, micros));
  }

  /** The few finite timestamps below the first whole day can only be moved if the part
      below a millisecond already reaches it. */
  lemma MicrosSumBelowRange(months: MonthShift, ts: Int64, micros: Int64)
    requires IsFinite(ts) && !InRange(ts)
    ensures Sum(months, ts, Interval(0, 0, micros)).Value? <==>
            InRange(ts + micros) && ts + Remainder(micros, MICROS_PER_MSEC) >= MIN_TIMESTAMP
  {
    SumIsExact(months, ts, Interval(0, 0, micros));
  }

  /** The same for days. */
  lemma DaysSum(months: MonthShift, ts: Int64, days: Int32)
    requires InRange(ts)
    ensures Sum(months, ts, Interval(0, days, 0)) ==
            if InRange(ts + days * MICROS_PER_DAY) then Value(ts + days * MICROS_PER_DAY) else Error(RangeError)
  {
    SumIsExact(months, ts, Interval(0, days, 0));
  }

  /** Subtracting what was added gives the timestamp back. */
  lemma SubtractAdded(months: MonthShift, ts: Int64, interval: Interval)
    requires InRange(ts) && interval.months == 0 && (interval.days == 0 || interval.micros == 0)
    requires Negatable(interval) && Sum(months, ts, interval).Value?
    ensures Sum(months, Sum(months, ts, interval).value, Negated(interval)) == Value(ts)
  {
    hide Sum;
    SumIsExact(months, ts, interval);
    var sum := ts + Length(interval);
    assert sum - Length(interval) == ts;
    if interval.days == 0 {
      MicrosSum(months, sum, -interval.micros);
    } else {
      DaysSum(months, sum, -interval.days);
    }
  }

  /** The sum for any interval, with months. The timestamp is moved by the microseconds of the
      interval that are less than a millisecond and cut into milliseconds and microseconds, which
      are carried over; the microseconds stay negative if both remainders together fall short of a
      millisecond. Months come before days, and the milliseconds come first if a part of the
      interval is negative, and last if none is. */
  lemma SumIs(months: MonthShift, ts: Int64, interval: Interval)
    requires IsFinite(ts)
    ensures var m: int, d: int, u: int, at: int := interval.months, interval.days, interval.micros, ts;
            var whole := if u >= 0 then u / 1000 else -(-u / 1000);
            var t := at + u - 1000 * whole;
            var short := at < 0 && u < 0 && -(-at % 1000) + (u - 1000 * whole) < -1000;
            var ms := t / 1000 + if short then 1 else 0;
            var end :=
              if m < 0 || d < 0 || u < 0 then
                (if m == 0 then ms + whole else months(ms + whole, m)) + d * 86_400_000
              else (if m == 0 then ms else months(ms, m)) + d * 86_400_000 + whole;
            var sum := 1000 * end + (t - 1000 * ms);
            Sum(months, ts, interval) ==
            if MIN_TIMESTAMP <= 1000 * ms < INFINITY && IsInt64(1000 * end) && MIN_TIMESTAMP <= sum < INFINITY
            then Value(sum) else Error(RangeError)
  {
    StartIs(ts, interval.micros);
  }

  lemma StartIs(ts: int, micros: int)
    ensures var whole := if micros >= 0 then micros / 1000 else -(-micros / 1000);
            var t := ts + micros - 1000 * whole;
            var short := ts < 0 && micros < 0 && -(-ts % 1000) + (micros - 1000 * whole) < -1000;
            var ms := t / 1000 + if short then 1 else 0;
            Start(ts, micros) == Instant(ms, t - 1000 * ms) && Quotient(micros, 1000) == whole
  {
  }

  // ----- The code -----

  /** Hours go to the calendar in steps of at most 32 bits. */
  method CalendarAddHour(calendar: Calendar, hours: Int64)
    modifies calendar
    ensures calendar.millis == old(calendar.millis) + 3_600_000 * hours
  {
    var left: int := hours;
    if left >= 0 {
      while left > 0
        invariant calendar.millis + 3_600_000 * (if left > 0 then left else 0) ==
                  old(calendar.millis) + 3_600_000 * hours
      {
        calendar.Add(Hour, if left > MAX_INT32 then MAX_INT32 else left);
        left := left - MAX_INT32;
      }
    } else {
      while left < 0
        invariant calendar.millis + 3_600_000 * (if left < 0 then left else 0) ==
                  old(calendar.millis) + 3_600_000 * hours
      {
        calendar.Add(Hour, if left < MIN_INT32 then MIN_INT32 else left);
        left := left - MIN_INT32;
      }
    }
  }

  datatype Split = Split(ms: Int32, s: Int32, m: Int32, h: Int64)

  /** The whole milliseconds of an interval, in units small enough for the calendar. */
  method SplitMillis(micros: Int64) returns (r: Split)
    ensures r.ms + 1000 * r.s + 60_000 * r.m + 3_600_000 * r.h == Quotient(micros, MICROS_PER_MSEC)
    ensures -1000 < r.ms < 1000 && -60 < r.s < 60 && -60 < r.m < 60
  {
    var rest: Int64 := Quotient(micros, MICROS_PER_MSEC);
    var ms: Int32 := Remainder(rest, MSECS_PER_SEC);
    rest := Quotient(rest, MSECS_PER_SEC);
    var s: Int32 := Remainder(rest, SECS_PER_MINUTE);
    rest := Quotient(rest, SECS_PER_MINUTE);
    var m: Int32 := Remainder(rest, MINS_PER_HOUR);
    rest := Quotient(rest, MINS_PER_HOUR);
    r := Split(ms, s, m, rest);
  }

  /** ICUCalendarAdd::Operation */
  method Add(calendar: Calendar, ts: Int64, interval: Interval) returns (r: Outcome<Int64>)
    modifies calendar
    ensures r == Sum(calendar.months, ts, interval)
  {
    if !IsFinite(ts) {
      return Value(ts);
    }
    var millis: Int64 := Quotient(ts, MICROS_PER_MSEC);
    var micros: Int64 := Remainder(ts, MICROS_PER_MSEC);
    micros := micros + Remainder(interval.micros, MICROS_PER_MSEC);
    if micros >= MICROS_PER_MSEC {
      micros := micros - MICROS_PER_MSEC;
      millis := millis + 1;
    } else if micros < 0 {
      micros := micros + MICROS_PER_MSEC;
      millis := millis - 1;
    }
    assert Instant(millis, micros) == Start(ts, interval.micros);

    // the multiplication is checked, and so is the date
    var us := millis * MICROS_PER_MSEC;
    if !IsInt64(us) {
      return Error(RangeError);
    }
    DayFits(us);
    if !IsInt64(DateOf(us) * MICROS_PER_DAY) {
      return Error(RangeError);
    }
    calendar.millis := millis;
    MoveCalendar(calendar, interval);
    r := GetTime(calendar, micros);
  }

  method MoveCalendar(calendar: Calendar, interval: Interval)
    modifies calendar
    ensures calendar.millis == Moves(calendar.months, old(calendar.millis), interval)
  {
    var split := SplitMillis(interval.micros);
    if interval.months < 0 || interval.days < 0 || interval.micros < 0 {
      calendar.Add(Millisecond, split.ms);
      calendar.Add(Second, split.s);
      calendar.Add(Minute, split.m);
      CalendarAddHour(calendar, split.h);
      calendar.Add(Month, interval.months);
      calendar.Add(Date, interval.days);
    } else {
      calendar.Add(Month, interval.months);
      calendar.Add(Date, interval.days);
      CalendarAddHour(calendar, split.h);
      calendar.Add(Minute, split.m);
      calendar.Add(Second, split.s);
      calendar.Add(Millisecond, split.ms);
    }
  }

  /** ICUCalendarSub::Operation */
  method Subtract(calendar: Calendar, ts: Int64, interval: Interval) returns (r: Outcome<Int64>)
    modifies calendar
    ensures r == Sum(calendar.months, ts, Negated(interval))
  {
    r := Add(calendar, ts, Negated(interval));
  }
}
