/** The list forms of range and generate_series over timestamps (icu-list-range.cpp): a first
    pass counts every row, a second one fills the child vector. */
module IcuListRange {
  import opened IcuTime
  import opened IcuAdd
  import IcuBucket

  // ----- What a row of a range holds -----

  /** The bounds of a row; `up` is greater_than_check. */
  datatype Bounds = Bounds(start: Int64, end: Int64, increment: Interval, inclusive: bool, up: bool)

  predicate Positive(i: Interval) {
    i.months > 0 || i.days > 0 || i.micros > 0
  }

  predicate Negative(i: Interval) {
    i.months < 0 || i.days < 0 || i.micros < 0
  }

  predicate Finished(b: Bounds, ts: int) {
    if b.up then if b.inclusive then ts > b.end else ts >= b.end
    else if b.inclusive then ts < b.end
    else ts <= b.end
  }

  /** vs is the run from a value: it starts there, each value is the one before it plus the
      increment, all are within the bound, and the value after the last one is not. */
  ghost predicate IsRun(months: MonthShift, b: Bounds, from: Int64, vs: seq<Int64>)
    decreases |vs|
  {
    if vs == [] then Finished(b, from)
    else
      && !Finished(b, from)
      && vs[0] == from
      && Sum(months, from, b.increment).Value?
      && IsRun(months, b, Sum(months, from, b.increment).value, vs[1..])
  }

  /** The run stops at a value to which the increment cannot be added. */
  ghost predicate Breaks(months: MonthShift, b: Bounds, from: Int64, steps: nat)
    decreases steps
  {
    && !Finished(b, from)
    && var next := Sum(months, from, b.increment);
       if steps == 0 then next.Error? else next.Value? && Breaks(months, b, next.value, steps - 1)
  }

  lemma {:induction false} RunIsUnique(months: MonthShift, b: Bounds, from: Int64, vs: seq<Int64>, ws: seq<Int64>)
    requires IsRun(months, b, from, vs) && IsRun(months, b, from, ws)
    ensures vs == ws
    decreases |vs|
  {
    hide Sum;
    if vs != [] && ws != [] {
      RunIsUnique(months, b, Sum(months, from, b.increment).value, vs[1..], ws[1..]);
      assert vs == [vs[0]] + vs[1..] && ws == [ws[0]] + ws[1..];
    }
  }

  lemma {:induction false} RunDoesNotBreak(months: MonthShift, b: Bounds, from: Int64, vs: seq<Int64>, steps: nat)
    requires IsRun(months, b, from, vs)
    ensures !Breaks(months, b, from, steps)
    decreases |vs|
  {
    hide Sum;
    if vs != [] && steps > 0 {
      RunDoesNotBreak(months, b, Sum(months, from, b.increment).value, vs[1..], steps - 1);
    }
  }

  // ----- Increments without months -----

  /** The increment moves toward the end. */
  predicate Directed(b: Bounds) {
    && b.increment.months == 0
    && (if b.up then Length(b.increment) > 0 else Length(b.increment) < 0)
  }

  /** Without months, the run is the arithmetic progression within the bounds. */
  lemma {:induction false} RunIsProgression(months: MonthShift, b: Bounds, from: Int64, vs: seq<Int64>, k: nat)
    requires IsRun(months, b, from, vs) && IsFinite(from) && Directed(b)
    ensures k < |vs| ==> vs[k] == from + k * Length(b.increment)
    ensures k < |vs| <==> !Finished(b, from + k * Length(b.increment))
    decreases |vs|
  {
    hide Sum;
    var step := Length(b.increment);
    Multiple(k, step);
    if vs != [] && k > 0 {
      SumIsExact(months, from, b.increment);
      RunIsProgression(months, b, from + step, vs[1..], k - 1);
    }
  }

  lemma Multiple(k: nat, step: int)
    ensures step > 0 ==> k * step >= 0
    ensures step < 0 ==> k * step <= 0
    ensures step + (k - 1) * step == k * step
  {
  }

  /** Without months, every run ends, at the bound or at a range error. */
  lemma {:induction false} RunEnds(months: MonthShift, b: Bounds, from: Int64) returns (vs: seq<Int64>)
    requires IsFinite(from) && Directed(b)
    ensures IsRun(months, b, from, vs) || Breaks(months, b, from, |vs|)
    decreases if b.up then b.end - from + 1 else from - b.end + 1
  {
    hide Sum;
    var next := Sum(months, from, b.increment);
    if Finished(b, from) || next.Error? {
      vs := [];
    } else {
      SumIsExact(months, from, b.increment);
      SumIsFinite(months, from, b.increment);
      var rest := RunEnds(months, b, next.value);
      vs := [from] + rest;
      assert vs[1..] == rest;
    }
  }

  lemma SumIsFinite(months: MonthShift, ts: Int64, interval: Interval)
    requires IsFinite(ts) && Sum(months, ts, interval).Value?
    ensures IsFinite(Sum(months, ts, interval).value)
  {
  }

  // ----- Counting -----

  const MAX_LENGTH := 0xFFFF_FFFF

  /** The counting loop from a value, with some values counted. */
  function Count(months: MonthShift, b: Bounds, from: Int64, total: nat): Outcome<nat>
    requires total <= MAX_LENGTH
    decreases MAX_LENGTH - total
  {
    if Finished(b, from) then Value(total)
    else match Sum(months, from, b.increment)
      case Error(e) => Error(e)
      case Value(next) =>
        if total + 1 > MAX_LENGTH then Error(ListTooLong) else Count(months, b, next, total + 1)
  }

  /** The loop counts a run, if it has at most 2^32 - 1 values. */
  lemma {:induction false} CountRun(months: MonthShift, b: Bounds, from: Int64, vs: seq<Int64>, total: nat)
    requires IsRun(months, b, from, vs) && total <= MAX_LENGTH
    ensures Count(months, b, from, total) ==
            if total + |vs| <= MAX_LENGTH then Value(total + |vs|) else Error(ListTooLong)
    decreases |vs|
  {
    hide Sum;
    if vs != [] && total < MAX_LENGTH {
      CountRun(months, b, Sum(months, from, b.increment).value, vs[1..], total + 1);
    }
  }

  /** Whatever is counted is a run. */
  lemma {:induction false} CountedRun(months: MonthShift, b: Bounds, from: Int64, total: nat) returns (vs: seq<Int64>)
    requires total <= MAX_LENGTH && Count(months, b, from, total).Value?
    ensures IsRun(months, b, from, vs) && Count(months, b, from, total) == Value(total + |vs|)
    ensures total + |vs| <= MAX_LENGTH
    decreases MAX_LENGTH - total
  {
    hide Sum;
    if Finished(b, from) {
      vs := [];
    } else {
      var rest := CountedRun(months, b, Sum(months, from, b.increment).value, total + 1);
      vs := [from] + rest;
      assert vs[1..] == rest;
    }
  }

  lemma {:induction false} RunSteps(months: MonthShift, b: Bounds, from: Int64, vs: seq<Int64>, k: nat)
    requires IsRun(months, b, from, vs) && k < |vs|
    ensures k == 0 ==> vs[k] == from
    ensures k > 0 ==> Sum(months, vs[k - 1], b.increment) == Value(vs[k])
    decreases |vs|
  {
    hide Sum;
    if k > 0 {
      var next := Sum(months, from, b.increment).value;
      RunSteps(months, b, next, vs[1..], 0);
      RunSteps(months, b, next, vs[1..], k - 1);
    }
  }

  // ----- Rows -----

  datatype Cell<+T> = Null | Present(value: T)

  datatype Row = Row(start: Cell<Int64>, end: Cell<Int64>, increment: Cell<Interval>)

  predicate HasNull(row: Row) {
    row.start.Null? || row.end.Null? || row.increment.Null?
  }

  function BoundsOf(row: Row, inclusive: bool): Bounds
    requires !HasNull(row)
  {
    Bounds(row.start.value, row.end.value, row.increment.value, inclusive, Positive(row.increment.value))
  }

  /** The checks on bounds and increment, in the order of the list form. */
  function RowLength(months: MonthShift, row: Row, inclusive: bool): Outcome<nat> {
    if HasNull(row) then Value(0)
    else
      var b := BoundsOf(row, inclusive);
      if !Positive(b.increment) && !Negative(b.increment) then Value(0)
      else if !IsFinite(b.start) || !IsFinite(b.end) then Error(InfiniteBounds)
      else if Positive(b.increment) && Negative(b.increment) then Error(MixedSigns)
      else Count(months, b, b.start, 0)
  }

  /** vs are the values of a row: none for NULL or a zero increment, else the run from the start. */
  ghost predicate IsRow(months: MonthShift, row: Row, inclusive: bool, vs: seq<Int64>) {
    if HasNull(row) || (!Positive(row.increment.value) && !Negative(row.increment.value)) then vs == []
    else
      var b := BoundsOf(row, inclusive);
      && IsFinite(b.start) && IsFinite(b.end)
      && !(Positive(b.increment) && Negative(b.increment))
      && IsRun(months, b, b.start, vs)
  }

  predicate HasRun(row: Row) {
    !HasNull(row) && (Positive(row.increment.value) || Negative(row.increment.value))
  }

  /** The values of a row that is counted. */
  lemma RowOf(months: MonthShift, row: Row, inclusive: bool) returns (vs: seq<Int64>)
    requires RowLength(months, row, inclusive).Value?
    ensures IsRow(months, row, inclusive, vs) && RowLength(months, row, inclusive) == Value(|vs|) && |vs| <= MAX_LENGTH
  {
    hide IsRun, Count;
    vs := [];
    if HasRun(row) {
      vs := CountedRun(months, BoundsOf(row, inclusive), row.start.value, 0);
    }
  }

  /** A row is counted exactly if it has values, at most 2^32 - 1 of them. */
  lemma RowLengthIs(months: MonthShift, row: Row, inclusive: bool, n: nat)
    ensures RowLength(months, row, inclusive) == Value(n) <==>
            n < 4_294_967_296 && exists vs :: IsRow(months, row, inclusive, vs) && |vs| == n
  {
    hide IsRun, Count;
    if RowLength(months, row, inclusive) == Value(n) {
      var vs := RowOf(months, row, inclusive);
      assert IsRow(months, row, inclusive, vs) && |vs| == n;
    } else if vs :| IsRow(months, row, inclusive, vs) && |vs| == n && HasRun(row) {
      CountRun(months, BoundsOf(row, inclusive), row.start.value, vs, 0);
    }
  }

  // ----- Rows without months -----

  /** What separates the values of a row without months, in microseconds. */
  function StepOf(row: Row): int
    requires !HasNull(row)
  {
    row.increment.value.days * 86_400_000_000 + row.increment.value.micros
  }

  /** A value before the end of a row, or at it if the bound is inclusive. */
  predicate Before(up: bool, inclusive: bool, v: int, end: int) {
    (up && v < end) || (!up && v > end) || (inclusive && v == end)
  }

  /** The values of a row are exactly the multiples of the increment from the start on, as long as
      they are before the end, or at it if the bound is inclusive. */
  lemma RowHolds(months: MonthShift, row: Row, inclusive: bool, vs: seq<Int64>, v: int)
    requires IsRow(months, row, inclusive, vs) && !HasNull(row)
    requires row.increment.value.months == 0 && StepOf(row) != 0
    ensures v in vs <==>
            exists k: nat :: v == row.start.value + k * StepOf(row)
                             && Before(StepOf(row) > 0, inclusive, v, row.end.value)
  {
    hide IsRun, Sum;
    var b, step := BoundsOf(row, inclusive), StepOf(row);
    RowIsDirected(months, row, inclusive, vs);
    if v in vs {
      var k: nat :| k < |vs| && vs[k] == v;
      RunIsProgression(months, b, b.start, vs, k);
      assert v == b.start + k * step;
    }
    if k: nat :| v == b.start + k * step && Before(step > 0, inclusive, v, row.end.value) {
      RunIsProgression(months, b, b.start, vs, k);
      assert k < |vs| && vs[k] == v;
    }
  }

  lemma RowIsDirected(months: MonthShift, row: Row, inclusive: bool, vs: seq<Int64>)
    requires IsRow(months, row, inclusive, vs) && !HasNull(row)
    requires row.increment.value.months == 0 && StepOf(row) != 0
    ensures var b := BoundsOf(row, inclusive);
            && Directed(b) && b.up == (StepOf(row) > 0) && Length(b.increment) == StepOf(row)
            && IsFinite(b.start) && IsRun(months, b, b.start, vs)
  {
  }

  /** How many values a row has. */
  lemma RowCount(months: MonthShift, row: Row, inclusive: bool, vs: seq<Int64>)
    requires IsRow(months, row, inclusive, vs) && !HasNull(row)
    requires row.increment.value.months == 0 && StepOf(row) != 0
    ensures var up := StepOf(row) > 0;
            var gap: int := if up then row.end.value - row.start.value else row.start.value - row.end.value;
            var step := if up then StepOf(row) else -StepOf(row);
            |vs| == if inclusive then (if gap < 0 then 0 else gap / step + 1)
                    else if gap <= 0 then 0 else (gap - 1) / step + 1
  {
    hide IsRun, Sum;
    var b, n := BoundsOf(row, inclusive), |vs|;
    RowIsDirected(months, row, inclusive, vs);
    RunIsProgression(months, b, b.start, vs, n);
    if n > 0 {
      RunIsProgression(months, b, b.start, vs, n - 1);
      RunIsProgression(months, b, b.start, vs, 0);
      var up := StepOf(row) > 0;
      var gap: int := if up then row.end.value - row.start.value else row.start.value - row.end.value;
      var step := if up then StepOf(row) else -StepOf(row);
      LastStep(n, gap, step, StepOf(row), inclusive);
    } else {
      RunIsProgression(months, b, b.start, vs, 0);
    }
  }

  /** The last value is before the end, and the next one is not. */
  lemma LastStep(n: nat, gap: int, step: int, signed: int, inclusive: bool)
    requires n > 0 && step > 0 && (signed == step || signed == -step)
    requires var at := if signed > 0 then (n - 1) * signed else -((n - 1) * signed);
             var next := if signed > 0 then n * signed else -(n * signed);
             if inclusive then at <= gap < next else at < gap <= next
    ensures (gap - if inclusive then 0 else 1) / step + 1 == n
  {
    assert (n - 1) * step == n * step - step;
    assert signed == -step ==> n * signed == -(n * step) && (n - 1) * signed == -((n - 1) * step);
    IcuBucket.DivisionIsUnique(gap - if inclusive then 0 else 1, step, n - 1);
  }

  // ----- Which rows are errors -----

  /** The errors of a row of the list form, in the order in which they are raised. */
  lemma RowErrors(months: MonthShift, row: Row, inclusive: bool)
    requires !HasNull(row)
    ensures var start: int, end: int, i := row.start.value, row.end.value, row.increment.value;
            var zero := i.months == 0 && i.days == 0 && i.micros == 0;
            var infinite := start == MAX_INT64 || start == -MAX_INT64 || end == MAX_INT64 || end == -MAX_INT64;
            var mixed := (i.months > 0 || i.days > 0 || i.micros > 0) && (i.months < 0 || i.days < 0 || i.micros < 0);
            && (zero ==> RowLength(months, row, inclusive) == Value(0))
            && (!zero && infinite ==> RowLength(months, row, inclusive) == Error(InfiniteBounds))
            && (!zero && !infinite && mixed ==> RowLength(months, row, inclusive) == Error(MixedSigns))
            && (!zero && !infinite && !mixed ==>
                  RowLength(months, row, inclusive) !in {Error(InfiniteBounds), Error(MixedSigns)})
  {
    hide Sum;
    CountErrors(months, BoundsOf(row, inclusive), row.start.value, 0);
  }

  lemma {:induction false} CountErrors(months: MonthShift, b: Bounds, from: Int64, total: nat)
    requires total <= MAX_LENGTH
    ensures Count(months, b, from, total).Value? || Count(months, b, from, total).error in {RangeError, ListTooLong}
    decreases MAX_LENGTH - total
  {
    var next := Sum(months, from, b.increment);
    if !Finished(b, from) && next.Value? && total + 1 <= MAX_LENGTH {
      CountErrors(months, b, next.value, total + 1);
    }
  }

  // ----- The list vector -----

  datatype Entry = Entry(offset: nat, length: nat)

  datatype ListVector = ListVector(entries: seq<Entry>, valid: seq<bool>, child: seq<Int64>)

  /** The rows follow each other from the start of the child vector. */
  ghost predicate Consecutive(entries: seq<Entry>, total: nat) {
    && (entries == [] ==> total == 0)
    && (entries != [] ==> entries[0].offset == 0)
    && (entries != [] ==> entries[|entries| - 1].offset + entries[|entries| - 1].length == total)
    && (forall i :: 0 < i < |entries| ==> entries[i].offset == entries[i - 1].offset + entries[i - 1].length)
  }

  function Slice(v: ListVector, i: nat): seq<Int64>
    requires i < |v.entries|
  {
    var e := v.entries[i];
    if e.offset + e.length <= |v.child| then v.child[e.offset..e.offset + e.length] else []
  }

  ghost predicate HoldsRow(months: MonthShift, rows: seq<Row>, inclusive: bool, v: ListVector, i: nat)
    requires i < |rows| && |v.entries| == |v.valid| == |rows|
  {
    && v.valid[i] == !HasNull(rows[i])
    && v.entries[i].offset + v.entries[i].length <= |v.child|
    && IsRow(months, rows[i], inclusive, Slice(v, i))
  }

  /** The rows are laid out one after the other, each with its values. */
  ghost predicate HoldsRows(months: MonthShift, rows: seq<Row>, inclusive: bool, v: ListVector) {
    && |v.entries| == |v.valid| == |rows| && Consecutive(v.entries, |v.child|)
    && forall i :: 0 <= i < |rows| ==> HoldsRow(months, rows, inclusive, v, i)
  }

  method ListLength(calendar: Calendar, row: Row, inclusive: bool) returns (r: Outcome<nat>)
    requires !HasNull(row)
    modifies calendar
    ensures r == RowLength(calendar.months, row, inclusive)
  {
    hide Sum;
    var b := BoundsOf(row, inclusive);
    var positive, negative := Positive(b.increment), Negative(b.increment);
    if !negative && !positive {
      return Value(0);
    }
    if !IsFinite(b.start) || !IsFinite(b.end) {
      return Error(InfiniteBounds);
    }
    if negative && positive {
      return Error(MixedSigns);
    }
    if b.start > b.end && positive {
      return Value(0);
    }
    if b.start < b.end && negative {
      return Value(0);
    }
    var start: Int64, total: nat := b.start, 0;
    if negative {
      while if inclusive then start >= b.end else start > b.end
        invariant total <= MAX_LENGTH
        invariant Count(calendar.months, b, start, total) == Count(calendar.months, b, b.start, 0)
        decreases MAX_LENGTH - total
      {
        var next := Add(calendar, start, b.increment);
        if next.Error? {
          return Error(next.error);
        }
        if total + 1 > MAX_LENGTH {
          return Error(ListTooLong);
        }
        start, total := next.value, total + 1;
      }
    } else {
      while if inclusive then start <= b.end else start < b.end
        invariant total <= MAX_LENGTH
        invariant Count(calendar.months, b, start, total) == Count(calendar.months, b, b.start, 0)
        decreases MAX_LENGTH - total
      {
        var next := Add(calendar, start, b.increment);
        if next.Error? {
          return Error(next.error);
        }
        if total + 1 > MAX_LENGTH {
          return Error(ListTooLong);
        }
        start, total := next.value, total + 1;
      }
    }
    return Value(total);
  }

  /** The inner loop of the second pass. */
  method FillRow(calendar: Calendar, row: Row, ghost inclusive: bool, length: nat, ghost vs: seq<Int64>,
      child: seq<Int64>)
    returns (r: seq<Int64>)
    requires IsRow(calendar.months, row, inclusive, vs) && length == |vs|
    modifies calendar
    ensures r == child + vs
  {
    hide Sum, IsRun;
    r := child;
    var k := 0;
    if length == 0 {
      return;
    }
    var value, increment := row.start.value, row.increment.value;
    while k < length
      invariant 0 <= k <= length && r == child + vs[..k]
      invariant value == if k == 0 then row.start.value else vs[k - 1]
    {
      RunSteps(calendar.months, BoundsOf(row, inclusive), row.start.value, vs, k);
      if k > 0 {
        var next := Add(calendar, value, increment);
        value := next.value;
      }
      r := r + [value];
      k := k + 1;
    }
  }

  /** The first pass: offsets and lengths of all rows, or the error of the first row that
      has one. */
  method CountRows(calendar: Calendar, rows: seq<Row>, inclusive: bool)
    returns (error: Cell<TimeError>, entries: seq<Entry>, valid: seq<bool>, total: nat)
    modifies calendar
    ensures error.Null? ==> |entries| == |valid| == |rows| && Consecutive(entries, total)
    ensures error.Null? ==> forall i :: 0 <= i < |rows| ==>
              && valid[i] == !HasNull(rows[i])
              && RowLength(calendar.months, rows[i], inclusive) == Value(entries[i].length)
    ensures error.Present? ==> FirstError(calendar.months, rows, inclusive, error.value)
  {
    hide RowLength, HasNull;
    error, entries, valid, total := Null, [], [], 0;
    for i := 0 to |rows|
      invariant error.Null? && |entries| == |valid| == i && Consecutive(entries, total)
      invariant forall j :: 0 <= j < i ==>
        valid[j] == !HasNull(rows[j]) && RowLength(calendar.months, rows[j], inclusive) == Value(entries[j].length)
    {
      if HasNull(rows[i]) {
        NullLength(calendar.months, rows[i], inclusive);
        valid, entries := valid + [false], entries + [Entry(total, 0)];
      } else {
        var length := ListLength(calendar, rows[i], inclusive);
        if length.Error? {
          error := Present(length.error);
          return;
        }
        valid, entries := valid + [true], entries + [Entry(total, length.value)];
        total := total + length.value;
      }
    }
  }

  lemma NullLength(months: MonthShift, row: Row, inclusive: bool)
    requires HasNull(row)
    ensures RowLength(months, row, inclusive) == Value(0)
  {
  }

  /** The error is that of a row, and no row before it has one. */
  ghost predicate FirstError(months: MonthShift, rows: seq<Row>, inclusive: bool, error: TimeError) {
    exists i :: 0 <= i < |rows| && RowLength(months, rows[i], inclusive) == Error(error)
      && forall j :: 0 <= j < i ==> RowLength(months, rows[j], inclusive).Value?
  }

  /** ICUListRangeFunction */
  method ListRange(calendar: Calendar, rows: seq<Row>, inclusive: bool) returns (r: Outcome<ListVector>)
    modifies calendar
    ensures r.Value? ==> HoldsRows(calendar.months, rows, inclusive, r.value)
    ensures r.Error? ==> FirstError(calendar.months, rows, inclusive, r.error)
  {
    hide Sum, RowLength, IsRow, HasNull;
    var error, entries, valid, total := CountRows(calendar, rows, inclusive);
    if error.Present? {
      return Error(error.value);
    }
    var child: seq<Int64> := [];
    for i := 0 to |rows|
      invariant |child| == if i == |rows| then total else entries[i].offset
      invariant forall j :: 0 <= j < i ==>
                  HoldsRow(calendar.months, rows, inclusive, ListVector(entries, valid, child), j)
    {
      ghost var vs := RowOf(calendar.months, rows[i], inclusive);
      ghost var before := child;
      child := FillRow(calendar, rows[i], inclusive, entries[i].length, vs, child);
      assert Slice(ListVector(entries, valid, child), i) == vs;
      forall j | 0 <= j <= i ensures HoldsRow(calendar.months, rows, inclusive, ListVector(entries, valid, child), j) {
        if j < i {
          assert HoldsRow(calendar.months, rows, inclusive, ListVector(entries, valid, before), j);
          assert Slice(ListVector(entries, valid, child), j) == Slice(ListVector(entries, valid, before), j);
        }
      }
    }
    r := Value(ListVector(entries, valid, child));
  }
}
