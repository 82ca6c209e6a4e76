/** time_bucket by microseconds and by days in UTC (icu-timebucket.cpp:18-101, 159-330). */
module IcuBucket {
  import opened IcuTime
  import opened IcuAdd

  // ----- Specification -----

  datatype WidthType = Micros | Days | Months

  /** ClassifyBucketWidthErrorThrow */
  function Classify(width: Interval): (r: Outcome<WidthType>)
    ensures r == Value(Micros) <==> width.months == 0 && width.days == 0 && width.micros > 0
    ensures r == Value(Days) <==> width.months == 0 && width.days > 0 && width.micros == 0
    ensures r == Value(Months) <==> width.months > 0 && width.days == 0 && width.micros == 0
  {
    if width.months == 0 && width.days == 0 then
      if width.micros <= 0 then Error(PeriodNotPositive) else Value(Micros)
    else if width.months == 0 && width.micros == 0 then
      if width.days <= 0 then Error(PeriodNotPositive) else Value(Days)
    else if width.days == 0 && width.micros == 0 then
      if width.months <= 0 then Error(PeriodNotPositive) else Value(Months)
    else if width.months == 0 then Error(DayWithTime)
    else Error(MonthWithDayOrTime)
  }

  /** b is the start of the bucket that holds ts. */
  ghost predicate IsBucket(b: int, ts: int, origin: int, width: int) {
    b <= ts < b + width && exists k: int :: b == origin + k * width
  }

  /** The start of the bucket. */
  function Bucket(ts: int, origin: int, width: int): int
    requires width > 0
  {
    origin + (ts - origin) / width * width
  }

  lemma BucketMeans(b: int, ts: int, origin: int, width: int)
    requires width > 0
    ensures b == Bucket(ts, origin, width) <==> IsBucket(b, ts, origin, width)
  {
    var delta := ts - origin;
    var q := delta / width;
    assert delta == q * width + delta % width;
    if IsBucket(b, ts, origin, width) {
      var k :| b == origin + k * width;
      DivisionIsUnique(delta, width, k);
    }
  }

  lemma DivisionIsUnique(a: int, w: int, k: int)
    requires w > 0 && k * w <= a < k * w + w
    ensures a / w == k
  {
    var q := a / w;
    assert a == q * w + a % w;
    if q < k {
      Scales(q + 1, k, w);
    } else if q > k {
      Scales(k + 1, q, w);
    }
  }

  lemma Scales(a: int, b: int, w: int)
    requires a <= b && w > 0
    ensures a * w <= b * w
  {
  }

  lemma BucketIsIdempotent(ts: int, origin: int, width: int)
    requires width > 0
    ensures Bucket(Bucket(ts, origin, width), origin, width) == Bucket(ts, origin, width)
  {
    var b := Bucket(ts, origin, width);
    BucketMeans(b, ts, origin, width);
    assert IsBucket(b, b, origin, width);
    BucketMeans(b, b, origin, width);
  }

  lemma BucketIsMonotone(ts: int, later: int, origin: int, width: int)
    requires width > 0 && ts <= later
    ensures Bucket(ts, origin, width) <= Bucket(later, origin, width)
  {
    var q, r := (ts - origin) / width, (later - origin) / width;
    assert ts - origin == q * width + (ts - origin) % width;
    assert later - origin == r * width + (later - origin) % width;
    if r < q {
      Scales(r + 1, q, width);
    }
    Scales(q, r, width);
  }

  // ----- Microseconds -----

  function FloorMultiple(delta: int, width: int): int
    requires width != 0
  {
    var down := Quotient(delta, width) * width;
    if delta < 0 && Remainder(delta, width) != 0 then down - width else down
  }

  /** What WidthConvertibleToMicrosCommon returns. */
  function MicrosBucket(months: MonthShift, width: int, ts: int, origin: Int64): Outcome<Int64> {
    if width == 0 then Error(ZeroWidth)
    else if !IsInt64(ts - origin) || !IsInt64(FloorMultiple(ts - origin, width)) then Error(RangeError)
    else Sum(months, origin, Interval(0, 0, FloorMultiple(ts - origin, width)))
  }

  lemma FloorMultipleIs(delta: int, width: int)
    requires width > 0
    ensures FloorMultiple(delta, width) == delta / width * width
  {
    if delta < 0 {
      var q := -delta / width;
      assert -delta == q * width + -delta % width;
      assert Quotient(delta, width) == -q && Remainder(delta, width) == -(-delta % width);
      if -delta % width == 0 {
        assert delta == (-q) * width;
        DivisionIsUnique(delta, width, -q);
      } else {
        DivisionIsUnique(delta, width, -q - 1);
      }
    }
  }

  /** Microsecond buckets: the result is the start of the bucket that holds the timestamp,
      for any origin, and an error is raised exactly on the overflows listed. */
  lemma MicrosBucketIs(months: MonthShift, width: int, ts: Int64, origin: Int64)
    requires width > 0 && InRange(ts) && InRange(origin)
    ensures var b := Bucket(ts, origin, width);
            MicrosBucket(months, width, ts, origin) ==
            if IsInt64(ts - origin) && IsInt64(b - origin) && InRange(b) then Value(b) else Error(RangeError)
  {
    FloorMultipleIs(ts - origin, width);
    if IsInt64(ts - origin) && IsInt64(FloorMultiple(ts - origin, width)) {
      MicrosSum(months, origin, FloorMultiple(ts - origin, width));
    }
  }

  // ----- Days -----

  /** The multiple of the width that is tried first. */
  function FirstDays(width: int, ts: int, origin: int): int
    requires width != 0
  {
    Quotient(DaysBetween(origin, ts), width) * width
  }

  /** What WidthConvertibleToDaysCommon returns. */
  function DaysBucket(months: MonthShift, width: Int32, ts: int, origin: Int64): Outcome<Int64>
    requires width != MIN_INT32
  {
    if width == 0 then Error(ZeroWidth)
    else if !IsInt32(FirstDays(width, ts, origin)) then Error(RangeError)
    else
      var first := Sum(months, origin, Interval(0, FirstDays(width, ts, origin), 0));
      if first.Value? && ts < first.value then Sum(months, first.value, Interval(0, -width, 0)) else first
  }

  /** The distance from the origin as it is measured: the timestamp is truncated to a
      millisecond, the origin is rounded down. */
  function Measured(ts: int, origin: int): int {
    MICROS_PER_MSEC * (Quotient(ts, MICROS_PER_MSEC) - origin / MICROS_PER_MSEC)
  }

  /** Both roundings move a timestamp before 1970 over the end of its bucket. */
  predicate Overshoots(width: int, ts: int, origin: int)
    requires width > 0
  {
    && Measured(ts, origin) < 0
    && Measured(ts, origin) - (ts - origin) + (ts - origin) % width > width
  }

  lemma NestedQuotient(a: int, b: int, c: int)
    requires a >= 0 && b > 0 && c > 0
    ensures b * c > 0 && a / b / c == a / (b * c)
  {
    var q := a / b;
    assert a == q * b + a % b && q == q / c * c + q % c;
    NestedBounds(a, b, c, q, a % b, q / c, q % c);
    DivisionIsUnique(a, b * c, q / c);
  }

  lemma NestedBounds(a: int, b: int, c: int, q: int, r: int, p: int, s: int)
    requires b > 0 && c > 0 && a == q * b + r && q == p * c + s && 0 <= r < b && 0 <= s < c
    ensures p * (b * c) <= a < p * (b * c) + b * c
    ensures b * c > 0
  {
    assert q * b == p * (b * c) + s * b;
    Scales(0, s, b);
    Scales(s, c - 1, b);
    assert (c - 1) * b == b * c - b;
    Scales(1, c, b);
  }

  lemma FirstDaysIs(width: int, ts: int, origin: int)
    requires width > 0
    ensures FirstDays(width, ts, origin) == Quotient(Measured(ts, origin), width * MICROS_PER_DAY) * width
  {
    var ms := Quotient(ts, MICROS_PER_MSEC) - origin / MICROS_PER_MSEC;
    var size := if ms >= 0 then ms else -ms;
    NestedQuotient(size, MSECS_PER_DAY, width);
    NestedQuotient(MICROS_PER_MSEC * size, MICROS_PER_MSEC, MSECS_PER_DAY * width);
    assert MICROS_PER_MSEC * (MSECS_PER_DAY * width) == width * MICROS_PER_DAY;
    assert MICROS_PER_MSEC * size / MICROS_PER_MSEC == size;
  }

  lemma QuotientAt(y: int, k: int, u: int, w: int)
    requires w > 0 && y == k * w + u && 0 <= u < 2 * w
    ensures y >= 0 ==> Quotient(y, w) == if u < w then k else k + 1
    ensures y < 0 ==> Quotient(y, w) == if u == 0 then k else if u <= w then k + 1 else k + 2
  {
    var extra := if y >= 0 then if u < w then 0 else 1 else if u == 0 then 0 else if u <= w then 1 else 2;
    var q := k + extra;
    assert q * w == k * w + extra * w;
    assert extra * w == if extra == 0 then 0 else if extra == 1 then w else 2 * w;
    if y >= 0 {
      DivisionIsUnique(y, w, q);
    } else {
      Negates(q, w);
      DivisionIsUnique(-y, w, -q);
    }
  }

  lemma QuotientNear(y: int, delta: int, w: int)
    requires w > 0 && 0 <= y - delta + delta % w < 2 * w
    ensures if y < 0 && y - delta + delta % w > w then Quotient(y, w) == delta / w + 2
            else delta / w <= Quotient(y, w) <= delta / w + 1
  {
    hide Quotient;
    assert delta == delta / w * w + delta % w;
    QuotientAt(y, delta / w, y - delta + delta % w, w);
  }

  lemma MeasuredClose(ts: int, origin: int)
    ensures -1000 < Measured(ts, origin) - (ts - origin) < 2000
  {
  }

  lemma MeasuredNear(days: int, ts: int, origin: int)
    requires days > 0
    ensures var w := days * MICROS_PER_DAY;
            var delta := ts - origin;
            0 <= Measured(ts, origin) - delta + delta % w < 2 * w
  {
    hide Quotient;
    MeasuredClose(ts, origin);
    var w, delta := days * MICROS_PER_DAY, ts - origin;
    assert delta == delta / w * w + delta % w;
    WholeMillis(delta / w, days);
  }

  lemma WholeMillis(k: int, days: int)
    ensures k * (days * MICROS_PER_DAY) == MICROS_PER_MSEC * (k * days * MSECS_PER_DAY)
  {
  }

  /** The first try is the bucket or the one after it, or, on an overshoot, one further. */
  lemma FirstTry(days: int, ts: int, origin: int)
    requires days > 0
    ensures var w := days * MICROS_PER_DAY;
            var q := Quotient(Measured(ts, origin), w);
            var bucket := (ts - origin) / w;
            if Overshoots(w, ts, origin) then q == bucket + 2 else bucket <= q <= bucket + 1
  {
    hide Measured, Quotient;
    MeasuredNear(days, ts, origin);
    QuotientNear(Measured(ts, origin), ts - origin, days * MICROS_PER_DAY);
  }

  lemma QuotientMultiple(a: int, w: int)
    requires w > 0
    ensures a >= 0 ==> 0 <= Quotient(a, w) * w <= a
    ensures a <= 0 ==> a <= Quotient(a, w) * w <= 0
  {
    var size := if a >= 0 then a else -a;
    var q := size / w;
    assert Quotient(a, w) == if a >= 0 then q else -q;
    DivisionRounds(size, w);
    Negates(q, w);
  }

  lemma DivisionRounds(a: int, w: int)
    requires w > 0 && a >= 0
    ensures 0 <= a / w * w <= a
  {
    assert a == a / w * w + a % w;
    Scales(0, a / w, w);
  }

  lemma Negates(q: int, w: int)
    ensures (-q) * w == -(q * w)
  {
  }

  lemma FirstDaysFits(width: int, ts: Int64, origin: Int64)
    requires width > 0
    ensures IsInt32(FirstDays(width, ts, origin))
  {
    QuotientMultiple(DaysBetween(origin, ts), width);
    DaysFit(ts, origin);
  }

  lemma DaysFit(ts: Int64, origin: Int64)
    ensures IsInt32(DaysBetween(origin, ts))
  {
  }

  lemma FirstSum(width: int, ts: int, origin: int)
    requires width > 0
    ensures var w := width * MICROS_PER_DAY;
            FirstDays(width, ts, origin) * MICROS_PER_DAY == Quotient(Measured(ts, origin), w) * w
  {
    hide Measured, FirstDays, Quotient;
    FirstDaysIs(width, ts, origin);
    var q := Quotient(Measured(ts, origin), width * MICROS_PER_DAY);
    assert q * width * MICROS_PER_DAY == q * (width * MICROS_PER_DAY);
  }

  /** What the two additions give. */
  lemma DaysTried(months: MonthShift, width: Int32, ts: Int64, origin: Int64)
    requires width > 0 && InRange(ts) && InRange(origin)
    ensures var w := width * MICROS_PER_DAY;
            var first := origin + Quotient(Measured(ts, origin), w) * w;
            var last := if ts < first then first - w else first;
            DaysBucket(months, width, ts, origin) ==
            if InRange(first) && InRange(last) then Value(last) else Error(RangeError)
  {
    hide Sum, Measured, FirstDays, Quotient;
    var days := FirstDays(width, ts, origin);
    FirstDaysFits(width, ts, origin);
    FirstSum(width, ts, origin);
    DaysSum(months, origin, days);
    var first := origin + days * MICROS_PER_DAY;
    if InRange(first) && ts < first {
      DaysSum(months, first, -width);
    }
  }

  /** The tries as multiples of the width. */
  lemma TryMeans(q: int, ts: int, origin: int, w: int)
    requires w > 0 && 0 <= q - (ts - origin) / w <= 2
    ensures var b := Bucket(ts, origin, w);
            && b <= ts < b + w
            && (q == (ts - origin) / w ==> origin + q * w == b)
            && (q == (ts - origin) / w + 1 ==> origin + q * w == b + w)
            && (q == (ts - origin) / w + 2 ==> origin + q * w == b + 2 * w)
  {
    var k := (ts - origin) / w;
    assert ts - origin == k * w + (ts - origin) % w;
    assert (k + 1) * w == k * w + w && (k + 2) * w == k * w + 2 * w;
  }

  /** A first try behind the timestamp is in range. */
  lemma FirstInRange(width: int, ts: Int64, origin: Int64)
    requires width > 0 && InRange(ts) && InRange(origin) && origin % MICROS_PER_MSEC == 0
    requires ts < origin + Quotient(Measured(ts, origin), width) * width
    ensures InRange(origin + Quotient(Measured(ts, origin), width) * width)
  {
    QuotientMultiple(Measured(ts, origin), width);
    MeasuredError(ts, origin);
  }

  lemma MeasuredError(ts: int, origin: int)
    requires origin % MICROS_PER_MSEC == 0
    ensures ts >= 0 ==> -MICROS_PER_MSEC < Measured(ts, origin) - (ts - origin) <= 0
    ensures ts < 0 ==> 0 <= Measured(ts, origin) - (ts - origin) < MICROS_PER_MSEC
  {
  }

  lemma WholeOriginStays(days: int, ts: int, origin: int)
    requires days > 0 && origin % MICROS_PER_MSEC == 0
    ensures !Overshoots(days * MICROS_PER_DAY, ts, origin)
  {
    var w, delta := days * MICROS_PER_DAY, ts - origin;
    assert delta == delta / w * w + delta % w;
    WholeMillis(delta / w, days);
    MeasuredError(ts, origin);
  }

  /** Day buckets from an origin on a whole millisecond: the result is the start of the bucket
      that holds the timestamp, and an error is raised exactly if that start is out of range. */
  lemma DaysBucketIs(months: MonthShift, width: Int32, ts: Int64, origin: Int64)
    requires width > 0 && InRange(ts) && InRange(origin) && origin % MICROS_PER_MSEC == 0
    ensures var b := Bucket(ts, origin, width * MICROS_PER_DAY);
            DaysBucket(months, width, ts, origin) == if InRange(b) then Value(b) else Error(RangeError)
  {
    hide DaysBucket, Measured, Quotient, Bucket, Overshoots;
    var w := width * MICROS_PER_DAY;
    var q := Quotient(Measured(ts, origin), w);
    WholeOriginStays(width, ts, origin);
    FirstTry(width, ts, origin);
    TryMeans(q, ts, origin, w);
    DaysTried(months, width, ts, origin);
    if ts < origin + q * w {
      FirstInRange(w, ts, origin);
    }
  }

  /** From any origin, a day bucket that is returned is the right one exactly if the two
      roundings do not overshoot. */
  lemma DaysBucketIff(months: MonthShift, width: Int32, ts: Int64, origin: Int64)
    requires width > 0 && InRange(ts) && InRange(origin)
    requires DaysBucket(months, width, ts, origin).Value?
    ensures var w := width * MICROS_PER_DAY;
            IsBucket(DaysBucket(months, width, ts, origin).value, ts, origin, w) <==> !Overshoots(w, ts, origin)
  {
    hide DaysBucket, Measured, Quotient, Bucket, Overshoots, IsBucket;
    var w := width * MICROS_PER_DAY;
    var q := Quotient(Measured(ts, origin), w);
    FirstTry(width, ts, origin);
    TryMeans(q, ts, origin, w);
    DaysTried(months, width, ts, origin);
    BucketMeans(DaysBucket(months, width, ts, origin).value, ts, origin, w);
  }

  /** A timestamp one microsecond before its bucket ends, with an origin one microsecond
      before a millisecond: the bucket returned starts after the timestamp. */
  lemma OvershootHappens(months: MonthShift)
    ensures var origin, ts := -1, -2 * MICROS_PER_DAY - 2;
            Overshoots(MICROS_PER_DAY, ts, origin)
            && DaysBucket(months, 1, ts, origin) == Value(origin - 2 * MICROS_PER_DAY)
  {
    hide DaysBucket, Quotient;
    var ts := -2 * MICROS_PER_DAY - 2;
    assert Quotient(ts, MICROS_PER_MSEC) == -2 * MSECS_PER_DAY by {
      OvershootTruncates();
    }
    assert Measured(ts, -1) == -2 * MICROS_PER_DAY + 1000;
    QuotientAt(Measured(ts, -1), -2, 1000, MICROS_PER_DAY);
    DaysTried(months, 1, ts, -1);
  }

  lemma OvershootTruncates()
    ensures Quotient(-2 * MICROS_PER_DAY - 2, MICROS_PER_MSEC) == -2 * MSECS_PER_DAY
  {
  }

  // ----- Any width -----

  /** Monday 2000-01-03, the origin of buckets by microseconds and by days. */
  const DEFAULT_ORIGIN: int := 10959 * MICROS_PER_DAY

  /** 2000-01-01, the origin of buckets by months. */
  const DEFAULT_MONTH_ORIGIN: int := 10957 * MICROS_PER_DAY

  function DefaultOrigin(width: Interval): int {
    if Classify(width) == Value(Months) then DEFAULT_MONTH_ORIGIN else DEFAULT_ORIGIN
  }

  /** What WidthConvertibleToMonthsCommon returns for a width, a timestamp and an origin. */
  type MonthBuckets = (int, int, int) -> Outcome<Int64>

  /** The bucket of a timestamp; the operators on a finite origin. */
  function TimeBucket(months: MonthShift, byMonths: MonthBuckets, width: Interval, ts: Int64,
      origin: Int64): Outcome<Int64> {
    match Classify(width)
    case Error(e) => Error(e)
    case Value(kind) =>
      if !IsFinite(ts) then Value(ts)
      else match kind
        case Micros => MicrosBucket(months, width.micros, ts, origin)
        case Days => DaysBucket(months, width.days, ts, origin)
        case Months => byMonths(width.months, ts, origin)
  }

  /** The buckets shifted by an offset. */
  function OffsetBucket(months: MonthShift, byMonths: MonthBuckets, width: Interval, ts: Int64,
      offset: Interval): Outcome<Int64> {
    var back := Sum(months, ts, Negated(offset));
    if Classify(width).Error? then Error(Classify(width).error)
    else if !IsFinite(ts) then Value(ts)
    else if back.Error? then back
    else
      var b := TimeBucket(months, byMonths, width, back.value, DefaultOrigin(width));
      if b.Error? then b else Sum(months, b.value, offset)
  }

  /** A bucket by microseconds from any origin, or by days from one on a whole millisecond. */
  predicate Regular(width: Interval, origin: int) {
    || Classify(width) == Value(Micros)
    || (Classify(width) == Value(Days) && origin % MICROS_PER_MSEC == 0)
  }

  /** A bucket is returned: its start is in range, and by microseconds no difference overflows. */
  predicate HasBucket(width: Interval, ts: int, origin: int)
    requires Length(width) > 0
  {
    var b := Bucket(ts, origin, Length(width));
    InRange(b) && (width.days == 0 ==> IsInt64(ts - origin) && IsInt64(b - origin))
  }

  lemma TimeBucketIs(months: MonthShift, byMonths: MonthBuckets, width: Interval, ts: Int64, origin: Int64)
    requires Regular(width, origin) && InRange(ts) && InRange(origin)
    ensures var r := TimeBucket(months, byMonths, width, ts, origin);
            var b := Bucket(ts, origin, Length(width));
            && r == (if HasBucket(width, ts, origin) then Value(b) else Error(RangeError))
            && IsBucket(b, ts, origin, Length(width))
  {
    hide MicrosBucket, DaysBucket, Bucket, IsBucket;
    BucketMeans(Bucket(ts, origin, Length(width)), ts, origin, Length(width));
    if width.days == 0 {
      MicrosBucketIs(months, width.micros, ts, origin);
    } else {
      DaysBucketIs(months, width.days, ts, origin);
    }
  }

  lemma TimeBucketIsIdempotent(months: MonthShift, byMonths: MonthBuckets, width: Interval, ts: Int64, origin: Int64)
    requires Regular(width, origin) && InRange(ts) && InRange(origin)
    requires TimeBucket(months, byMonths, width, ts, origin).Value?
    ensures var b := TimeBucket(months, byMonths, width, ts, origin);
            TimeBucket(months, byMonths, width, b.value, origin) == b
  {
    hide TimeBucket, Bucket, IsBucket;
    TimeBucketIs(months, byMonths, width, ts, origin);
    var b := Bucket(ts, origin, Length(width));
    BucketIsIdempotent(ts, origin, Length(width));
    TimeBucketIs(months, byMonths, width, b, origin);
  }

  lemma TimeBucketIsMonotone(months: MonthShift, byMonths: MonthBuckets, width: Interval, ts: Int64, later: Int64,
      origin: Int64)
    requires Regular(width, origin) && InRange(ts) && InRange(later) && InRange(origin) && ts <= later
    requires TimeBucket(months, byMonths, width, ts, origin).Value?
    requires TimeBucket(months, byMonths, width, later, origin).Value?
    ensures TimeBucket(months, byMonths, width, ts, origin).value <=
            TimeBucket(months, byMonths, width, later, origin).value
  {
    hide TimeBucket, Bucket, IsBucket;
    TimeBucketIs(months, byMonths, width, ts, origin);
    TimeBucketIs(months, byMonths, width, later, origin);
    BucketIsMonotone(ts, later, origin, Length(width));
  }

  /** The offset is subtracted, the bucket is found and the offset is added again, and an error
      is raised exactly if one of the three is out of range. */
  lemma OffsetBucketIs(months: MonthShift, byMonths: MonthBuckets, width: Interval, ts: Int64, offset: Interval)
    requires Regular(width, DEFAULT_ORIGIN) && InRange(ts) && offset.months == 0
    ensures var back := ts + Length(Negated(offset));
            var b := Bucket(back, DEFAULT_ORIGIN, Length(width));
            OffsetBucket(months, byMonths, width, ts, offset) ==
            if Addable(ts, Negated(offset)) && HasBucket(width, back, DEFAULT_ORIGIN) && Addable(b, offset)
            then Value(b + Length(offset)) else Error(RangeError)
  {
    hide TimeBucket, Sum, IsBucket, Bucket, Addable;
    SumIsExact(months, ts, Negated(offset));
    if Addable(ts, Negated(offset)) {
      var back := ts + Length(Negated(offset));
      SumInRange(months, ts, Negated(offset));
      TimeBucketIs(months, byMonths, width, back, DEFAULT_ORIGIN);
      if HasBucket(width, back, DEFAULT_ORIGIN) {
        SumIsExact(months, Bucket(back, DEFAULT_ORIGIN, Length(width)), offset);
      }
    }
  }

  lemma SumInRange(months: MonthShift, ts: Int64, interval: Interval)
    requires IsFinite(ts) && Sum(months, ts, interval).Value?
    ensures InRange(Sum(months, ts, interval).value)
  {
  }

  /** An offset that has a negation shifts the origin of the buckets. */
  lemma OffsetShiftsOrigin(months: MonthShift, byMonths: MonthBuckets, width: Interval, ts: Int64, offset: Interval)
    requires Regular(width, DEFAULT_ORIGIN) && InRange(ts) && Negatable(offset) && offset.months == 0
    requires OffsetBucket(months, byMonths, width, ts, offset).Value?
    ensures var b := OffsetBucket(months, byMonths, width, ts, offset).value;
            IsBucket(b, ts, DEFAULT_ORIGIN + Length(offset), Length(width))
  {
    hide OffsetBucket, IsBucket, Bucket, Addable, HasBucket;
    OffsetBucketIs(months, byMonths, width, ts, offset);
    var back := ts - Length(offset);
    var b := Bucket(back, DEFAULT_ORIGIN, Length(width));
    BucketMeans(b, back, DEFAULT_ORIGIN, Length(width));
    BucketShifts(b, back, DEFAULT_ORIGIN, Length(width), Length(offset));
  }

  lemma BucketShifts(b: int, ts: int, origin: int, width: int, shift: int)
    requires IsBucket(b, ts, origin, width)
    ensures IsBucket(b + shift, ts + shift, origin + shift, width)
  {
    var k :| b == origin + k * width;
    assert b + shift == (origin + shift) + k * width;
  }

  // ----- The default origins -----

  /** 1970-01-01 is a Thursday, so a day number that leaves 4 when divided by 7 is a Monday. */
  predicate IsMonday(ts: int) {
    ts % 86_400_000_000 == 0 && ts / 86_400_000_000 % 7 == 4
  }

  /** Buckets of one week start on Mondays. */
  lemma WeeksStartOnMonday(months: MonthShift, byMonths: MonthBuckets, ts: Int64)
    requires InRange(ts)
    requires TimeBucket(months, byMonths, Interval(0, 7, 0), ts, DEFAULT_ORIGIN).Value?
    ensures IsMonday(TimeBucket(months, byMonths, Interval(0, 7, 0), ts, DEFAULT_ORIGIN).value)
  {
    hide TimeBucket, IsBucket;
    var width := Interval(0, 7, 0);
    TimeBucketIs(months, byMonths, width, ts, DEFAULT_ORIGIN);
    var b := Bucket(ts, DEFAULT_ORIGIN, Length(width));
    BucketMeans(b, ts, DEFAULT_ORIGIN, Length(width));
    MondayBuckets(b, ts);
  }

  lemma MondayBuckets(b: int, ts: int)
    requires IsBucket(b, ts, DEFAULT_ORIGIN, 7 * 86_400_000_000)
    ensures IsMonday(b)
  {
    var k :| b == DEFAULT_ORIGIN + k * (7 * 86_400_000_000);
    assert b == (10959 + 7 * k) * 86_400_000_000;
  }

  /** Buckets of months are counted from 2000-01-01: 30 years and 7 leap days after the epoch. */
  lemma MonthsStartIn2000(width: Interval)
    requires width.months > 0 && width.days == 0 && width.micros == 0
    ensures DefaultOrigin(width) == (30 * 365 + 7) * 24 * 60 * 60 * 1_000_000
  {
  }

  // ----- The code -----

  method MicrosCommon(calendar: Calendar, width: Int64, ts: Int64, origin: Int64) returns (r: Outcome<Int64>)
    requires width >= 0
    modifies calendar
    ensures r == MicrosBucket(calendar.months, width, ts, origin)
  {
    hide Sum;
    if width == 0 {
      return Error(ZeroWidth);
    }
    if !IsInt64(ts - origin) {
      return Error(RangeError);
    }
    var micros: Int64 := ts - origin;
    QuotientMultiple(micros, width);
    var result: Int64 := Quotient(micros, width) * width;
    if micros < 0 && Remainder(micros, width) != 0 {
      if !IsInt64(result - width) {
        return Error(RangeError);
      }
      result := result - width;
    }
    r := Add(calendar, origin, Interval(0, 0, result));
  }

  method DaysCommon(calendar: Calendar, width: Int32, ts: Int64, origin: Int64) returns (r: Outcome<Int64>)
    requires width >= 0
    modifies calendar
    ensures r == DaysBucket(calendar.months, width, ts, origin)
  {
    hide Sum, DaysBetween;
    if width == 0 {
      return Error(ZeroWidth);
    }
    var days := SubtractDay(calendar, origin, ts);
    var result := Quotient(days, width) * width;
    if result < MIN_INT32 || result > MAX_INT32 {
      return Error(RangeError);
    }
    r := Add(calendar, origin, Interval(0, result, 0));
    if r.Value? && ts < r.value {
      r := Add(calendar, r.value, Interval(0, -width, 0));
    }
  }

  /** The dispatch of the operators for a finite origin. */
  method TimeBucketAt(calendar: Calendar, byMonths: MonthBuckets, width: Interval, ts: Int64, origin: Int64)
    returns (r: Outcome<Int64>)
    modifies calendar
    ensures r == TimeBucket(calendar.months, byMonths, width, ts, origin)
  {
    hide MicrosBucket, DaysBucket;
    var kind := Classify(width);
    if kind.Error? {
      return Error(kind.error);
    }
    if !IsFinite(ts) {
      return Value(ts);
    }
    match kind.value {
      case Micros => r := MicrosCommon(calendar, width.micros, ts, origin);
      case Days => r := DaysCommon(calendar, width.days, ts, origin);
      case Months => r := byMonths(width.months, ts, origin);
    }
  }

  method OffsetBucketAt(calendar: Calendar, byMonths: MonthBuckets, width: Interval, ts: Int64, offset: Interval)
    returns (r: Outcome<Int64>)
    modifies calendar
    ensures r == OffsetBucket(calendar.months, byMonths, width, ts, offset)
  {
    hide TimeBucket, Sum;
    var kind := Classify(width);
    if kind.Error? {
      return Error(kind.error);
    }
    if !IsFinite(ts) {
      return Value(ts);
    }
    r := Subtract(calendar, ts, offset);
    if r.Value? {
      r := TimeBucketAt(calendar, byMonths, width, r.value, DefaultOrigin(width));
      if r.Value? {
        r := Add(calendar, r.value, offset);
      }
    }
  }
}
