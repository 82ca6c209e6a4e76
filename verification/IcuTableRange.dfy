/** The table forms of range and generate_series over timestamps (icu-table-range.cpp:76-230):
    a state machine that hands out one output chunk per call. */
module IcuTableRange {
  import opened IcuTime
  import opened IcuAdd
  import opened IcuListRange

  // ----- One row -----

  /** The parameters of a NULL row: from 0 up to 0, exclusive. */
  const NULL_BOUNDS := Bounds(0, 0, Interval(0, 0, 0), false, true)

  /** GenerateRangeDateTimeParameters */
  function Parameters(row: Row, inclusive: bool): Outcome<Bounds> {
    if HasNull(row) then Value(NULL_BOUNDS)
    else
      var b := BoundsOf(row, inclusive);
      if !IsFinite(b.start) || !IsFinite(b.end) then Error(InfiniteBounds)
      else if !Positive(b.increment) && !Negative(b.increment) then Error(ZeroInterval)
      else if Positive(b.increment) && Negative(b.increment) then Error(MixedSigns)
      else Value(b)
  }

  /** The start lies past the end: this sets empty_range. */
  predicate Opposed(b: Bounds) {
    if b.up then b.start > b.end else b.start < b.end
  }

  /** The errors of a row of the table form, in the order in which they are raised; the bounds of a
      row with none, and those of a NULL row, which holds nothing. */
  lemma ParametersAre(row: Row, inclusive: bool)
    ensures HasNull(row) ==> Parameters(row, inclusive) == Value(NULL_BOUNDS)
    ensures forall months, vs :: IsRun(months, NULL_BOUNDS, NULL_BOUNDS.start, vs) ==> vs == []
    ensures !HasNull(row) ==>
              var start: int, end: int, i := row.start.value, row.end.value, row.increment.value;
              var infinite := start == MAX_INT64 || start == -MAX_INT64 || end == MAX_INT64 || end == -MAX_INT64;
              var positive := i.months > 0 || i.days > 0 || i.micros > 0;
              var negative := i.months < 0 || i.days < 0 || i.micros < 0;
              Parameters(row, inclusive) ==
              if infinite then Error(InfiniteBounds)
              else if !positive && !negative then Error(ZeroInterval)
              else if positive && negative then Error(MixedSigns)
              else Value(Bounds(start, end, i, inclusive, positive))
  {
  }

  // ----- One call -----

  /** ICURangeLocalState; `b` is its start, end, increment, inclusive_bound and greater_than_check. */
  datatype State = State(initialized: bool, row: nat, current: Int64, b: Bounds, empty: bool)

  datatype Status = NeedMoreInput | HaveMoreOutput

  datatype Called = Called(state: State, status: Status, output: seq<Int64>)

  datatype Filled = Filled(output: seq<Int64>, current: Int64)

  /** The inner loop: at most `size` more values. */
  function Fill(months: MonthShift, b: Bounds, current: Int64, size: nat): Outcome<Filled>
    decreases size
  {
    if size == 0 || Finished(b, current) then Value(Filled([], current))
    else
      var next := Sum(months, current, b.increment);
      if next.Error? then Error(next.error)
      else
        var rest := Fill(months, b, next.value, size - 1);
        if rest.Error? then rest else Value(Filled([current] + rest.value.output, rest.value.current))
  }

  /** The state with the parameters of its row. */
  function Initialize(rows: seq<Row>, inclusive: bool, st: State): Outcome<State>
    requires st.row < |rows|
  {
    if st.initialized then Value(st)
    else match Parameters(rows[st.row], inclusive)
      case Error(e) => Error(e)
      case Value(b) => Value(State(true, st.row, b.start, b, st.empty || Opposed(b)))
  }

  function NextRow(st: State): State {
    st.(row := st.row + 1, initialized := false)
  }

  /** ICUTableRangeFunction on a chunk of rows, with output chunks of a given size. */
  function Call(months: MonthShift, rows: seq<Row>, inclusive: bool, size: nat, st: State): Outcome<Called>
    decreases |rows| - st.row
  {
    if st.row >= |rows| then Value(Called(st.(row := 0, initialized := false), NeedMoreInput, []))
    else
      var ready := Initialize(rows, inclusive, st);
      if ready.Error? then Error(ready.error)
      else if ready.value.empty then Value(Called(NextRow(ready.value), HaveMoreOutput, []))
      else
        var filled := Fill(months, ready.value.b, ready.value.current, size);
        if filled.Error? then Error(filled.error)
        else if filled.value.output == [] then
          Call(months, rows, inclusive, size, NextRow(ready.value.(current := filled.value.current)))
        else Value(Called(ready.value.(current := filled.value.current), HaveMoreOutput, filled.value.output))
  }

  // ----- What is still to come -----

  ghost predicate Comes(months: MonthShift, b: Bounds, from: Int64, empty: bool, vs: seq<Int64>) {
    if empty then vs == [] else IsRun(months, b, from, vs)
  }

  /** The values of the rows from i on: once a row is opposed, no row has values any more. */
  ghost predicate RowsCome(months: MonthShift, rows: seq<Row>, inclusive: bool, i: nat, empty: bool,
      runs: seq<seq<Int64>>)
    decreases |rows| - i
  {
    if i >= |rows| then runs == []
    else
      && runs != []
      && Parameters(rows[i], inclusive).Value?
      && var b := Parameters(rows[i], inclusive).value;
         && Comes(months, b, b.start, empty || Opposed(b), runs[0])
         && RowsCome(months, rows, inclusive, i + 1, empty || Opposed(b), runs[1..])
  }

  /** vs is still to come from the current row, runs from the rows after it. */
  ghost predicate Pending(months: MonthShift, rows: seq<Row>, inclusive: bool, st: State, vs: seq<Int64>,
      runs: seq<seq<Int64>>) {
    if st.initialized then
      && st.row < |rows|
      && Comes(months, st.b, st.current, st.empty, vs)
      && RowsCome(months, rows, inclusive, st.row + 1, st.empty, runs)
    else vs == [] && RowsCome(months, rows, inclusive, st.row, st.empty, runs)
  }

  function Flatten(runs: seq<seq<Int64>>): seq<Int64> {
    if runs == [] then [] else runs[0] + Flatten(runs[1..])
  }

  /** A filled chunk is the beginning of the run. */
  lemma {:induction false} FillTakes(months: MonthShift, b: Bounds, from: Int64, size: nat, vs: seq<Int64>)
    requires IsRun(months, b, from, vs)
    ensures var n := if size < |vs| then size else |vs|;
            var f := Fill(months, b, from, size);
            f.Value? && f.value.output == vs[..n] && IsRun(months, b, f.value.current, vs[n..])
    decreases size
  {
    hide Sum;
    if size > 0 && vs != [] {
      var next := Sum(months, from, b.increment).value;
      FillTakes(months, b, next, size - 1, vs[1..]);
      var n := if size < |vs| then size else |vs|;
      assert vs[..n] == [vs[0]] + vs[1..][..n - 1];
      assert vs[n..] == vs[1..][n - 1..];
    }
  }

  /** A filled chunk and the run after it are a run. */
  lemma {:induction false} FillExtends(months: MonthShift, b: Bounds, from: Int64, size: nat, vs: seq<Int64>)
    requires Fill(months, b, from, size).Value?
    requires IsRun(months, b, Fill(months, b, from, size).value.current, vs)
    ensures IsRun(months, b, from, Fill(months, b, from, size).value.output + vs)
    decreases size
  {
    hide Sum;
    if size > 0 && !Finished(b, from) {
      var next := Sum(months, from, b.increment).value;
      FillExtends(months, b, next, size - 1, vs);
      var rest := Fill(months, b, next, size - 1).value.output;
      assert [from] + rest + vs == [from] + (rest + vs);
    } else {
      assert [] + vs == vs;
    }
  }

  /** A call does not fail while values are pending, and hands out the first of them. */
  lemma {:induction false} CallTakes(months: MonthShift, rows: seq<Row>, inclusive: bool, size: nat, st: State,
      vs: seq<Int64>, runs: seq<seq<Int64>>)
    returns (vs': seq<Int64>, runs': seq<seq<Int64>>)
    requires size > 0 && Pending(months, rows, inclusive, st, vs, runs)
    ensures var c := Call(months, rows, inclusive, size, st);
            && c.Value? && |c.value.output| <= size
            && c.value.output + vs' + Flatten(runs') == vs + Flatten(runs)
            && (c.value.status == HaveMoreOutput ==> Pending(months, rows, inclusive, c.value.state, vs', runs'))
            && (c.value.status == NeedMoreInput ==> vs' == [] && runs' == [] && c.value.output == [])
    decreases |rows| - st.row
  {
    hide IsRun, Fill, Sum, Parameters;
    if st.row >= |rows| {
      return [], [];
    }
    var now, later := Begin(months, rows, inclusive, st, vs, runs);
    var ready := Initialize(rows, inclusive, st).value;
    if ready.empty {
      vs', runs' := [], later;
    } else {
      FillTakes(months, ready.b, ready.current, size, now);
      var n := if size < |now| then size else |now|;
      assert now == now[..n] + now[n..];
      var current := Fill(months, ready.b, ready.current, size).value.current;
      if n == 0 {
        vs', runs' := CallTakes(months, rows, inclusive, size, NextRow(ready.(current := current)), [], later);
      } else {
        vs', runs' := now[n..], later;
      }
    }
  }

  /** Reading the parameters of the row changes nothing that is pending. */
  lemma Begin(months: MonthShift, rows: seq<Row>, inclusive: bool, st: State, vs: seq<Int64>, runs: seq<seq<Int64>>)
    returns (now: seq<Int64>, later: seq<seq<Int64>>)
    requires st.row < |rows| && Pending(months, rows, inclusive, st, vs, runs)
    ensures var ready := Initialize(rows, inclusive, st);
            && ready.Value? && ready.value.initialized && ready.value.row == st.row
            && Pending(months, rows, inclusive, ready.value, now, later)
            && now + Flatten(later) == vs + Flatten(runs)
  {
    hide IsRun, Parameters;
    if st.initialized {
      now, later := vs, runs;
    } else {
      now, later := runs[0], runs[1..];
      assert vs + Flatten(runs) == Flatten(runs);
    }
  }

  /** What is pending after a call was pending before it, behind its output. */
  lemma {:induction false} CallGives(months: MonthShift, rows: seq<Row>, inclusive: bool, size: nat, st: State,
      vs': seq<Int64>, runs': seq<seq<Int64>>)
    returns (vs: seq<Int64>, runs: seq<seq<Int64>>)
    requires size > 0 && Valid(rows, st) && Call(months, rows, inclusive, size, st).Value?
    requires var c := Call(months, rows, inclusive, size, st).value;
             if c.status == NeedMoreInput then vs' == [] && runs' == []
             else Pending(months, rows, inclusive, c.state, vs', runs')
    ensures Pending(months, rows, inclusive, st, vs, runs)
    ensures Call(months, rows, inclusive, size, st).value.output + vs' + Flatten(runs') == vs + Flatten(runs)
    decreases |rows| - st.row
  {
    hide IsRun, Fill, Sum, Parameters;
    if st.row >= |rows| {
      return [], [];
    }
    var ready := Initialize(rows, inclusive, st).value;
    var now, later := [], runs';
    if !ready.empty {
      var filled := Fill(months, ready.b, ready.current, size).value;
      if filled.output == [] {
        now, later := CallGives(months, rows, inclusive, size, NextRow(ready.(current := filled.current)), vs', runs');
        EmptyFill(months, ready.b, ready.current, size);
        EmptyRun(months, ready.b, ready.current);
      } else {
        now := filled.output + vs';
        FillExtends(months, ready.b, ready.current, size, vs');
      }
    }
    assert now == [] + now;
    vs, runs := Return(months, rows, inclusive, st, now, later);
  }

  lemma Return(months: MonthShift, rows: seq<Row>, inclusive: bool, st: State, now: seq<Int64>, later: seq<seq<Int64>>)
    returns (vs: seq<Int64>, runs: seq<seq<Int64>>)
    requires st.row < |rows| && Initialize(rows, inclusive, st).Value?
    requires Pending(months, rows, inclusive, Initialize(rows, inclusive, st).value, now, later)
    ensures Pending(months, rows, inclusive, st, vs, runs) && now + Flatten(later) == vs + Flatten(runs)
  {
    hide IsRun, Parameters;
    if st.initialized {
      vs, runs := now, later;
    } else {
      vs, runs := [], [now] + later;
      assert runs[1..] == later;
    }
  }

  lemma EmptyFill(months: MonthShift, b: Bounds, from: Int64, size: nat)
    requires size > 0 && Fill(months, b, from, size).Value? && Fill(months, b, from, size).value.output == []
    ensures Finished(b, from)
  {
    hide Sum;
  }

  lemma EmptyRun(months: MonthShift, b: Bounds, from: Int64)
    requires Finished(b, from)
    ensures IsRun(months, b, from, [])
  {
  }

  // ----- All calls on a chunk -----

  predicate Valid(rows: seq<Row>, st: State) {
    st.initialized ==> st.row < |rows|
  }

  datatype Drained = Drained(state: State, output: seq<Int64>)

  /** The concatenated output of the calls until more input is needed; Null if the given
      number of calls does not get there. */
  function Drain(months: MonthShift, rows: seq<Row>, inclusive: bool, size: nat, st: State,
      calls: nat): Cell<Outcome<Drained>>
    decreases calls
  {
    if calls == 0 then Null
    else match Call(months, rows, inclusive, size, st)
      case Error(e) => Present(Error(e))
      case Value(c) =>
        if c.status == NeedMoreInput then Present(Value(Drained(c.state, c.output)))
        else match Drain(months, rows, inclusive, size, c.state, calls - 1)
          case Present(Value(d)) => Present(Value(Drained(d.state, c.output + d.output)))
          case r => r
  }

  /** empty_range after the rows from i on. */
  function EmptyAfter(rows: seq<Row>, inclusive: bool, i: nat, empty: bool): bool
    decreases |rows| - i
  {
    if i >= |rows| then empty
    else
      var b := Parameters(rows[i], inclusive);
      EmptyAfter(rows, inclusive, i + 1, empty || (b.Value? && Opposed(b.value)))
  }

  function LastEmpty(rows: seq<Row>, inclusive: bool, st: State): bool {
    EmptyAfter(rows, inclusive, if st.initialized then st.row + 1 else st.row, st.empty)
  }

  /** A call moves on: it hands out values or leaves its row behind. */
  lemma {:induction false} CallAdvances(months: MonthShift, rows: seq<Row>, inclusive: bool, size: nat, st: State)
    requires Valid(rows, st) && Call(months, rows, inclusive, size, st).Value?
    ensures var c := Call(months, rows, inclusive, size, st).value;
            if c.status == NeedMoreInput then
              !c.state.initialized && c.state.row == 0 && c.state.empty == LastEmpty(rows, inclusive, st)
            else
              && Valid(rows, c.state) && st.row <= c.state.row <= |rows|
              && (c.output == [] ==> st.row < c.state.row)
              && LastEmpty(rows, inclusive, c.state) == LastEmpty(rows, inclusive, st)
    decreases |rows| - st.row
  {
    hide Fill, Sum, Parameters;
    if st.row < |rows| {
      var ready := Initialize(rows, inclusive, st).value;
      assert LastEmpty(rows, inclusive, ready) == LastEmpty(rows, inclusive, st);
      if !ready.empty && Fill(months, ready.b, ready.current, size).value.output == [] {
        CallAdvances(months, rows, inclusive, size,
                     NextRow(ready.(current := Fill(months, ready.b, ready.current, size).value.current)));
      }
    }
  }

  /** The calls hand out exactly what is pending, in at most one call per value and row. */
  lemma {:induction false} DrainTakes(months: MonthShift, rows: seq<Row>, inclusive: bool, size: nat, st: State,
      vs: seq<Int64>, runs: seq<seq<Int64>>, calls: nat)
    requires size > 0 && Pending(months, rows, inclusive, st, vs, runs) && st.row <= |rows|
    requires calls > |vs + Flatten(runs)| + |rows| - st.row
    ensures var r := Drain(months, rows, inclusive, size, st, calls);
            && r.Present? && r.value.Value? && r.value.value.output == vs + Flatten(runs)
            && var end := r.value.value.state;
               !end.initialized && end.row == 0 && end.empty == LastEmpty(rows, inclusive, st)
    decreases calls
  {
    hide Call, Pending, LastEmpty;
    assert Valid(rows, st) by {
      PendingIsValid(months, rows, inclusive, st, vs, runs);
    }
    var vs', runs' := CallTakes(months, rows, inclusive, size, st, vs, runs);
    CallAdvances(months, rows, inclusive, size, st);
    var c := Call(months, rows, inclusive, size, st).value;
    assert c.output + vs' + Flatten(runs') == c.output + (vs' + Flatten(runs'));
    if c.status == HaveMoreOutput {
      DrainTakes(months, rows, inclusive, size, c.state, vs', runs', calls - 1);
    }
  }

  lemma PendingIsValid(months: MonthShift, rows: seq<Row>, inclusive: bool, st: State, vs: seq<Int64>,
      runs: seq<seq<Int64>>)
    requires Pending(months, rows, inclusive, st, vs, runs)
    ensures Valid(rows, st)
  {
  }

  /** Whatever the calls hand out was pending. */
  lemma {:induction false} DrainGives(months: MonthShift, rows: seq<Row>, inclusive: bool, size: nat, st: State,
      calls: nat)
    returns (vs: seq<Int64>, runs: seq<seq<Int64>>)
    requires size > 0 && Valid(rows, st)
    requires var r := Drain(months, rows, inclusive, size, st, calls);
             r.Present? && r.value.Value?
    ensures Pending(months, rows, inclusive, st, vs, runs)
    ensures Drain(months, rows, inclusive, size, st, calls).value.value.output == vs + Flatten(runs)
    decreases calls
  {
    hide Call, Pending, LastEmpty;
    var c := Call(months, rows, inclusive, size, st).value;
    CallAdvances(months, rows, inclusive, size, st);
    var vs', runs' := [], [];
    if c.status == HaveMoreOutput {
      vs', runs' := DrainGives(months, rows, inclusive, size, c.state, calls - 1);
    }
    vs, runs := CallGives(months, rows, inclusive, size, st, vs', runs');
    assert c.output + vs' + Flatten(runs') == c.output + (vs' + Flatten(runs'));
  }

  /** The size of the output chunks does not matter to what is handed out, nor to empty_range. */
  lemma ChunkSizeDoesNotMatter(months: MonthShift, rows: seq<Row>, inclusive: bool, size: nat, other: nat, st: State,
      calls: nat)
    returns (otherCalls: nat)
    requires size > 0 && other > 0 && Valid(rows, st) && st.row <= |rows|
    requires var r := Drain(months, rows, inclusive, size, st, calls);
             r.Present? && r.value.Value?
    ensures var r := Drain(months, rows, inclusive, size, st, calls).value.value;
            var s := Drain(months, rows, inclusive, other, st, otherCalls);
            && s.Present? && s.value.Value?
            && s.value.value.output == r.output && s.value.value.state.empty == r.state.empty
  {
    hide Drain, Pending, LastEmpty;
    var vs, runs := DrainGives(months, rows, inclusive, size, st, calls);
    otherCalls := |vs + Flatten(runs)| + |rows| + 1;
    DrainTakes(months, rows, inclusive, other, st, vs, runs, otherCalls);
    DrainLands(months, rows, inclusive, size, st, calls);
  }

  // ----- Chunks of input -----

  lemma {:induction false} RowsComeAppend(months: MonthShift, a: seq<Row>, b: seq<Row>, inclusive: bool, i: nat,
      empty: bool, runs: seq<seq<Int64>>, more: seq<seq<Int64>>)
    requires i <= |a| && RowsCome(months, a, inclusive, i, empty, runs)
    requires RowsCome(months, b, inclusive, 0, EmptyAfter(a, inclusive, i, empty), more)
    ensures RowsCome(months, a + b, inclusive, i, empty, runs + more)
    decreases |a| - i
  {
    hide Parameters, Opposed, Comes;
    if i == |a| {
      assert runs + more == more;
      RowsComeShift(months, a, b, inclusive, 0, empty, more);
    } else {
      assert (a + b)[i] == a[i] && (runs + more)[1..] == runs[1..] + more;
      RowsComeAppend(months, a, b, inclusive, i + 1, empty || Opposed(Parameters(a[i], inclusive).value), runs[1..],
          more);
    }
  }

  lemma {:induction false} RowsComeShift(months: MonthShift, a: seq<Row>, b: seq<Row>, inclusive: bool, i: nat,
      empty: bool, runs: seq<seq<Int64>>)
    requires i <= |b|
    ensures RowsCome(months, b, inclusive, i, empty, runs) <==> RowsCome(months, a + b, inclusive, |a| + i, empty, runs)
    decreases |b| - i
  {
    hide Parameters, Opposed, Comes;
    if i < |b| && runs != [] {
      assert (a + b)[|a| + i] == b[i];
      if Parameters(b[i], inclusive).Value? {
        RowsComeShift(months, a, b, inclusive, i + 1, empty || Opposed(Parameters(b[i], inclusive).value), runs[1..]);
      }
    }
  }

  /** The values of the rows of both chunks are those of the first and, given empty_range after
      it, those of the second. */
  lemma {:induction false} RowsComeSplit(months: MonthShift, a: seq<Row>, b: seq<Row>, inclusive: bool, i: nat,
      empty: bool, all: seq<seq<Int64>>) returns (runs: seq<seq<Int64>>, more: seq<seq<Int64>>)
    requires i <= |a| && RowsCome(months, a + b, inclusive, i, empty, all)
    ensures all == runs + more && RowsCome(months, a, inclusive, i, empty, runs)
    ensures RowsCome(months, b, inclusive, 0, EmptyAfter(a, inclusive, i, empty), more)
    decreases |a| - i
  {
    hide Parameters, Opposed, Comes;
    if i == |a| {
      RowsComeShift(months, a, b, inclusive, 0, empty, all);
      runs, more := [], all;
    } else {
      assert (a + b)[i] == a[i];
      var rest;
      rest, more := RowsComeSplit(months, a, b, inclusive, i + 1, empty || Opposed(Parameters(a[i], inclusive).value),
          all[1..]);
      runs := [all[0]] + rest;
      assert runs[1..] == rest && all == [all[0]] + all[1..];
    }
  }

  lemma {:induction false} EmptyAfterAppend(a: seq<Row>, b: seq<Row>, inclusive: bool, i: nat, empty: bool)
    requires i <= |a|
    ensures EmptyAfter(a + b, inclusive, i, empty) == EmptyAfter(b, inclusive, 0, EmptyAfter(a, inclusive, i, empty))
    decreases |a| - i
  {
    hide Parameters, Opposed;
    if i == |a| {
      EmptyAfterShift(a, b, inclusive, 0, empty);
    } else {
      assert (a + b)[i] == a[i];
      var p := Parameters(a[i], inclusive);
      EmptyAfterAppend(a, b, inclusive, i + 1, empty || (p.Value? && Opposed(p.value)));
    }
  }

  lemma {:induction false} EmptyAfterShift(a: seq<Row>, b: seq<Row>, inclusive: bool, i: nat, empty: bool)
    requires i <= |b|
    ensures EmptyAfter(a + b, inclusive, |a| + i, empty) == EmptyAfter(b, inclusive, i, empty)
    decreases |b| - i
  {
    hide Parameters, Opposed;
    if i < |b| {
      assert (a + b)[|a| + i] == b[i];
      var p := Parameters(b[i], inclusive);
      EmptyAfterShift(a, b, inclusive, i + 1, empty || (p.Value? && Opposed(p.value)));
    }
  }

  lemma {:induction false} FlattenAppend(a: seq<seq<Int64>>, b: seq<seq<Int64>>)
    ensures Flatten(a + b) == Flatten(a) + Flatten(b)
    decreases |a|
  {
    if a == [] {
      assert a + b == b;
    } else {
      assert (a + b)[1..] == a[1..] + b;
      FlattenAppend(a[1..], b);
    }
  }

  /** A state between chunks of input. */
  predicate Between(st: State) {
    !st.initialized && st.row == 0
  }

  /** Draining two chunks of input, the second from the state that the first leaves, is draining
      both at once. */
  lemma InputChunksDoNotMatter(months: MonthShift, a: seq<Row>, b: seq<Row>, inclusive: bool, size: nat, st: State,
      calls: nat, calls': nat) returns (all: nat)
    requires size > 0 && Between(st)
    requires var r := Drain(months, a, inclusive, size, st, calls); r.Present? && r.value.Value?
    requires var first := Drain(months, a, inclusive, size, st, calls).value.value;
             var r := Drain(months, b, inclusive, size, first.state, calls'); r.Present? && r.value.Value?
    ensures var first := Drain(months, a, inclusive, size, st, calls).value.value;
            var second := Drain(months, b, inclusive, size, first.state, calls').value.value;
            var r := Drain(months, a + b, inclusive, size, st, all);
            && r.Present? && r.value.Value?
            && r.value.value.output == first.output + second.output
            && r.value.value.state.empty == second.state.empty && Between(first.state)
  {
    hide Drain, RowsCome;
    var first := Drain(months, a, inclusive, size, st, calls).value.value;
    var none, runs := DrainGives(months, a, inclusive, size, st, calls);
    DrainLands(months, a, inclusive, size, st, calls);
    var none', more := DrainGives(months, b, inclusive, size, first.state, calls');
    DrainLands(months, b, inclusive, size, first.state, calls');
    RowsComeAppend(months, a, b, inclusive, 0, st.empty, runs, more);
    EmptyAfterAppend(a, b, inclusive, 0, st.empty);
    FlattenAppend(runs, more);
    all := |Flatten(runs + more)| + |a + b| + 1;
    DrainTakes(months, a + b, inclusive, size, st, [], runs + more, all);
  }

  /** Where the calls on a chunk end. */
  lemma {:induction false} DrainLands(months: MonthShift, rows: seq<Row>, inclusive: bool, size: nat, st: State,
      calls: nat)
    requires size > 0 && Valid(rows, st)
    requires var r := Drain(months, rows, inclusive, size, st, calls); r.Present? && r.value.Value?
    ensures var end := Drain(months, rows, inclusive, size, st, calls).value.value.state;
            Between(end) && end.empty == LastEmpty(rows, inclusive, st)
    decreases calls
  {
    hide Call, LastEmpty;
    CallAdvances(months, rows, inclusive, size, st);
    var c := Call(months, rows, inclusive, size, st).value;
    if c.status == HaveMoreOutput {
      DrainLands(months, rows, inclusive, size, c.state, calls - 1);
    }
  }

  /** And if both at once can be drained, so can one after the other. */
  lemma InputChunksCanBeSplit(months: MonthShift, a: seq<Row>, b: seq<Row>, inclusive: bool, size: nat, st: State,
      all: nat)
    returns (calls: nat, calls': nat)
    requires size > 0 && Between(st)
    requires var r := Drain(months, a + b, inclusive, size, st, all); r.Present? && r.value.Value?
    ensures var r := Drain(months, a, inclusive, size, st, calls); r.Present? && r.value.Value?
    ensures var first := Drain(months, a, inclusive, size, st, calls).value.value;
            var r := Drain(months, b, inclusive, size, first.state, calls'); r.Present? && r.value.Value?
  {
    hide Drain, RowsCome;
    var none, runs := DrainGives(months, a + b, inclusive, size, st, all);
    var one, two := RowsComeSplit(months, a, b, inclusive, 0, st.empty, runs);
    calls := |[] + Flatten(one)| + |a| + 1;
    DrainTakes(months, a, inclusive, size, st, [], one, calls);
    calls' := |[] + Flatten(two)| + |b| + 1;
    var first := Drain(months, a, inclusive, size, st, calls).value.value;
    DrainTakes(months, b, inclusive, size, first.state, [], two, calls');
  }

  // ----- Increments without months -----

  predicate Monthless(rows: seq<Row>) {
    forall k :: 0 <= k < |rows| && rows[k].increment.Present? ==> rows[k].increment.value.months == 0
  }

  /** How far a value is from the bound. */
  function Left(b: Bounds, ts: int): nat {
    var left := if b.up then b.end - ts else ts - b.end;
    if left < 0 then 0 else left + 1
  }

  /** The current row still moves toward its bound, or is past it. */
  predicate Moving(st: State) {
    st.initialized ==> IsFinite(st.current) && (Directed(st.b) || Finished(st.b, st.current))
  }

  lemma {:induction false} FillMoves(months: MonthShift, b: Bounds, from: Int64, size: nat)
    requires Directed(b) && IsFinite(from) && Fill(months, b, from, size).Value?
    requires Fill(months, b, from, size).value.output != []
    ensures var current := Fill(months, b, from, size).value.current;
            IsFinite(current) && Left(b, current) < Left(b, from)
    decreases size
  {
    hide Sum;
    SumIsExact(months, from, b.increment);
    SumIsFinite(months, from, b.increment);
    var next := from + Length(b.increment);
    if Fill(months, b, next, size - 1).value.output != [] {
      FillMoves(months, b, next, size - 1);
    }
  }

  lemma InitializeMoves(rows: seq<Row>, inclusive: bool, st: State)
    requires st.row < |rows| && Monthless(rows) && Moving(st) && Initialize(rows, inclusive, st).Value?
    ensures Moving(Initialize(rows, inclusive, st).value)
  {
  }

  /** A call leaves its row behind, or brings the current value of the row closer to its bound. */
  lemma {:induction false} CallMoves(months: MonthShift, rows: seq<Row>, inclusive: bool, size: nat, st: State)
    requires Valid(rows, st) && Monthless(rows) && Moving(st)
    requires var c := Call(months, rows, inclusive, size, st); c.Value? && c.value.status == HaveMoreOutput
    ensures var next := Call(months, rows, inclusive, size, st).value.state;
            && Moving(next)
            && (next.row <= st.row ==>
                  && next.row == st.row && next.initialized
                  && (st.initialized ==> Left(next.b, next.current) < Left(st.b, st.current)))
    decreases |rows| - st.row
  {
    hide Sum, Parameters, Left, Monthless, Directed, IsFinite;
    InitializeMoves(rows, inclusive, st);
    var ready := Initialize(rows, inclusive, st).value;
    if !ready.empty {
      var filled := Fill(months, ready.b, ready.current, size).value;
      if filled.output == [] {
        CallMoves(months, rows, inclusive, size, NextRow(ready.(current := filled.current)));
      } else {
        FillMoves(months, ready.b, ready.current, size);
      }
    }
  }

  /** On rows without months the calls come to an end, with more input needed or with an error. */
  lemma {:induction false} DrainEnds(months: MonthShift, rows: seq<Row>, inclusive: bool, size: nat, st: State)
    returns (calls: nat)
    requires Valid(rows, st) && st.row <= |rows| && Monthless(rows) && Moving(st)
    ensures Drain(months, rows, inclusive, size, st, calls).Present?
    decreases |rows| - st.row, if st.initialized then 0 else 1, if st.initialized then Left(st.b, st.current) else 0
  {
    hide Call, Left, Monthless, Moving, LastEmpty;
    var c := Call(months, rows, inclusive, size, st);
    if c.Error? || c.value.status == NeedMoreInput {
      calls := 1;
    } else {
      CallAdvances(months, rows, inclusive, size, st);
      CallMoves(months, rows, inclusive, size, st);
      var more := DrainEnds(months, rows, inclusive, size, c.value.state);
      calls := more + 1;
    }
  }

  // ----- empty_range is never cleared -----

  /** The values that every row should have, on its own. */
  ghost predicate RowsWant(months: MonthShift, rows: seq<Row>, inclusive: bool, i: nat, runs: seq<seq<Int64>>)
    decreases |rows| - i
  {
    if i >= |rows| then runs == []
    else
      && runs != []
      && Parameters(rows[i], inclusive).Value?
      && var b := Parameters(rows[i], inclusive).value;
         IsRun(months, b, b.start, runs[0]) && RowsWant(months, rows, inclusive, i + 1, runs[1..])
  }

  /** Rows from i on that come after an opposed row have no values of their own. */
  predicate NothingLost(rows: seq<Row>, inclusive: bool, i: nat, empty: bool)
    decreases |rows| - i
  {
    i < |rows| ==>
      var b := Parameters(rows[i], inclusive);
      && b.Value?
      && (empty ==> Finished(b.value, b.value.start))
      && NothingLost(rows, inclusive, i + 1, empty || Opposed(b.value))
  }

  lemma {:induction false} LostRows(months: MonthShift, rows: seq<Row>, inclusive: bool, i: nat, empty: bool,
      come: seq<seq<Int64>>, want: seq<seq<Int64>>)
    requires RowsCome(months, rows, inclusive, i, empty, come) && RowsWant(months, rows, inclusive, i, want)
    ensures |Flatten(come)| <= |Flatten(want)|
    ensures Flatten(come) == Flatten(want) <==> NothingLost(rows, inclusive, i, empty)
    decreases |rows| - i
  {
    hide IsRun, Parameters;
    if i < |rows| {
      var b := Parameters(rows[i], inclusive).value;
      LostRows(months, rows, inclusive, i + 1, empty || Opposed(b), come[1..], want[1..]);
      RunIsEmpty(months, b, b.start, want[0]);
      if !(empty || Opposed(b)) {
        RunIsUnique(months, b, b.start, come[0], want[0]);
      }
      Cancels(come[0], Flatten(come[1..]), Flatten(want[1..]));
    }
  }

  lemma RunIsEmpty(months: MonthShift, b: Bounds, from: Int64, vs: seq<Int64>)
    requires IsRun(months, b, from, vs)
    ensures vs == [] <==> Finished(b, from)
  {
  }

  lemma Cancels(a: seq<Int64>, b: seq<Int64>, c: seq<Int64>)
    ensures a + b == a + c <==> b == c
  {
    assert (a + b)[|a|..] == b && (a + c)[|a|..] == c;
  }

  const FRESH := State(false, 0, 0, NULL_BOUNDS, false)

  /** From a fresh state, the table function hands out the values of all rows, if and only if
      every row after one whose bounds oppose its increment has no values anyway. */
  lemma TableRangeIff(months: MonthShift, rows: seq<Row>, inclusive: bool, size: nat, calls: nat, want: seq<seq<Int64>>)
    requires size > 0 && RowsWant(months, rows, inclusive, 0, want)
    requires calls > |Flatten(want)| + |rows|
    ensures var r := Drain(months, rows, inclusive, size, FRESH, calls);
            && r.Present? && r.value.Value?
            && (r.value.value.output == Flatten(want) <==> NothingLost(rows, inclusive, 0, false))
  {
    hide Drain, RowsWant, RowsCome, NothingLost;
    var come := WantedCome(months, rows, inclusive, 0, false, want);
    LostRows(months, rows, inclusive, 0, false, come, want);
    assert [] + Flatten(come) == Flatten(come);
    DrainTakes(months, rows, inclusive, size, FRESH, [], come, calls);
  }

  /** Rows that have values of their own have values to come. */
  lemma {:induction false} WantedCome(months: MonthShift, rows: seq<Row>, inclusive: bool, i: nat, empty: bool,
      want: seq<seq<Int64>>)
    returns (come: seq<seq<Int64>>)
    requires RowsWant(months, rows, inclusive, i, want)
    ensures RowsCome(months, rows, inclusive, i, empty, come)
    decreases |rows| - i
  {
    hide IsRun, Parameters;
    if i >= |rows| {
      come := [];
    } else {
      var b := Parameters(rows[i], inclusive).value;
      var rest := WantedCome(months, rows, inclusive, i + 1, empty || Opposed(b), want[1..]);
      come := [if empty || Opposed(b) then [] else want[0]] + rest;
      assert come[1..] == rest;
    }
  }

  /** The condition in one quantifier. */
  lemma NothingLostMeans(rows: seq<Row>, inclusive: bool)
    requires forall k :: 0 <= k < |rows| ==> Parameters(rows[k], inclusive).Value?
    ensures NothingLost(rows, inclusive, 0, false) <==>
            forall j, k :: 0 <= j < k < |rows| && Opposed(Parameters(rows[j], inclusive).value)
              ==> Finished(Parameters(rows[k], inclusive).value, Parameters(rows[k], inclusive).value.start)
  {
    NothingLostFrom(rows, inclusive, 0, false);
  }

  lemma {:induction false} NothingLostFrom(rows: seq<Row>, inclusive: bool, i: nat, empty: bool)
    requires forall k :: 0 <= k < |rows| ==> Parameters(rows[k], inclusive).Value?
    ensures NothingLost(rows, inclusive, i, empty) <==>
            forall k :: i <= k < |rows| && (empty || OpposedBetween(rows, inclusive, i, k))
              ==> Finished(Parameters(rows[k], inclusive).value, Parameters(rows[k], inclusive).value.start)
    decreases |rows| - i
  {
    hide Parameters, Finished, Opposed;
    if i < |rows| {
      NothingLostFrom(rows, inclusive, i + 1, empty || Opposed(Parameters(rows[i], inclusive).value));
      forall k | i < k < |rows|
        ensures OpposedBetween(rows, inclusive, i, k) <==>
                Opposed(Parameters(rows[i], inclusive).value) || OpposedBetween(rows, inclusive, i + 1, k) {
      }
    }
  }

  predicate OpposedBetween(rows: seq<Row>, inclusive: bool, i: nat, k: nat)
    requires k <= |rows|
  {
    exists j :: i <= j < k && Parameters(rows[j], inclusive).Value? && Opposed(Parameters(rows[j], inclusive).value)
  }

  lemma NextDay(months: MonthShift)
    ensures Sum(months, 0, Interval(0, 1, 0)) == Value(MICROS_PER_DAY)
  {
    hide Sum;
    DaysSum(months, 0, 1);
  }

  const DAY := Interval(0, 1, 0)

  /** A row from 1 down to 0 by a positive day, and a row from 0 to 1, which holds 0. */
  const OPPOSED_FIRST := [Row(Present(1), Present(0), Present(DAY)), Row(Present(0), Present(1), Present(DAY))]

  /** The value of the second row is lost behind the opposed first one: nothing is handed out. */
  lemma SecondRowIsLost(months: MonthShift, size: nat, calls: nat)
    requires size > 0 && calls > 3
    ensures RowsWant(months, OPPOSED_FIRST, false, 0, [[], [0]])
    ensures var r := Drain(months, OPPOSED_FIRST, false, size, FRESH, calls);
            r.Present? && r.value.Value? && r.value.value.output == []
  {
    hide Drain, RowsWant, RowsCome, Flatten;
    SecondRowIsWanted(months);
    SecondRowDoesNotCome(months);
    var none: seq<Int64> := [];
    NothingFlattened();
    DrainTakes(months, OPPOSED_FIRST, false, size, FRESH, [], [none, none], calls);
  }

  lemma NothingFlattened()
    ensures var none: seq<Int64> := []; Flatten([none, none]) == []
  {
    var none: seq<Int64> := [];
    assert [none, none][1..] == [none] && [none][1..] == [];
    assert Flatten([none]) == none + Flatten([]);
  }

  lemma SecondRowIsWanted(months: MonthShift)
    ensures RowsWant(months, OPPOSED_FIRST, false, 0, [[], [0]])
  {
    hide Sum;
    var rows := OPPOSED_FIRST;
    var b, c := Bounds(1, 0, DAY, false, true), Bounds(0, 1, DAY, false, true);
    assert Parameters(rows[0], false) == Value(b) && Parameters(rows[1], false) == Value(c);
    NextDay(months);
    assert IsRun(months, c, 0, [0]) by {
      assert IsRun(months, c, MICROS_PER_DAY, [0][1..]);
    }
    assert RowsWant(months, rows, false, 2, [[0]][1..]);
    assert RowsWant(months, rows, false, 1, [[], [0]][1..]);
  }

  lemma SecondRowDoesNotCome(months: MonthShift)
    ensures RowsCome(months, OPPOSED_FIRST, false, 0, false, [[], []])
  {
    hide Sum, IsRun;
    var rows, none: seq<Int64> := OPPOSED_FIRST, [];
    var b, c := Bounds(1, 0, DAY, false, true), Bounds(0, 1, DAY, false, true);
    assert Parameters(rows[0], false) == Value(b) && Parameters(rows[1], false) == Value(c) && Opposed(b);
    assert RowsCome(months, rows, false, 2, true, [none][1..]);
    assert [none, none][1..] == [none];
    assert RowsCome(months, rows, false, 1, true, [none, none][1..]);
  }

  // ----- The list form and the table form -----

  function Slices(v: ListVector, i: nat): seq<seq<Int64>>
    decreases |v.entries| - i
  {
    if i >= |v.entries| then [] else [Slice(v, i)] + Slices(v, i + 1)
  }

  /** The values of the rows from i on. */
  function Tail(v: ListVector, i: nat): seq<Int64> {
    if i < |v.entries| && v.entries[i].offset <= |v.child| then v.child[v.entries[i].offset..] else []
  }

  /** The table form accepts every row. */
  predicate Accepted(rows: seq<Row>, inclusive: bool) {
    forall k :: 0 <= k < |rows| ==> Parameters(rows[k], inclusive).Value?
  }

  /** The rows of the list form, where the table form accepts them, are what the table form
      should hand out. */
  lemma {:induction false} ListRowsAreWanted(months: MonthShift, rows: seq<Row>, inclusive: bool, v: ListVector, i: nat)
    requires HoldsRows(months, rows, inclusive, v) && Accepted(rows, inclusive) && i <= |rows|
    ensures RowsWant(months, rows, inclusive, i, Slices(v, i))
    decreases |rows| - i
  {
    hide IsRun, IsRow, Parameters, Consecutive, HasNull;
    if i < |rows| {
      assert HoldsRow(months, rows, inclusive, v, i);
      ListRowsAreWanted(months, rows, inclusive, v, i + 1);
      RowIsRun(months, rows[i], inclusive, Slice(v, i));
      assert Slices(v, i)[1..] == Slices(v, i + 1);
    }
  }

  lemma {:induction false} FlattenedSlices(months: MonthShift, rows: seq<Row>, inclusive: bool, v: ListVector, i: nat)
    requires HoldsRows(months, rows, inclusive, v) && i <= |rows|
    ensures Flatten(Slices(v, i)) == Tail(v, i)
    decreases |rows| - i
  {
    hide IsRow, Consecutive, HasNull;
    if i < |rows| {
      assert HoldsRow(months, rows, inclusive, v, i);
      FlattenedSlices(months, rows, inclusive, v, i + 1);
      assert Slices(v, i)[1..] == Slices(v, i + 1);
      EntryFollows(v, i);
      if i + 1 < |rows| {
        assert HoldsRow(months, rows, inclusive, v, i + 1);
      }
      assert Tail(v, i) == Slice(v, i) + Tail(v, i + 1);
    }
  }

  lemma EntryFollows(v: ListVector, i: nat)
    requires Consecutive(v.entries, |v.child|) && i < |v.entries|
    ensures v.entries[i].offset + v.entries[i].length ==
            if i + 1 == |v.entries| then |v.child| else v.entries[i + 1].offset
  {
  }

  lemma RowIsRun(months: MonthShift, row: Row, inclusive: bool, vs: seq<Int64>)
    requires IsRow(months, row, inclusive, vs) && Parameters(row, inclusive).Value?
    ensures var b := Parameters(row, inclusive).value; IsRun(months, b, b.start, vs)
  {
  }

  /** On rows that both accept, the table form hands out the child vector of the list form, if
      and only if nothing is lost behind an opposed row. */
  lemma TableMatchesList(months: MonthShift, rows: seq<Row>, inclusive: bool, v: ListVector, size: nat, calls: nat)
    requires HoldsRows(months, rows, inclusive, v) && Accepted(rows, inclusive)
    requires size > 0 && calls > |v.child| + |rows|
    ensures var r := Drain(months, rows, inclusive, size, FRESH, calls);
            && r.Present? && r.value.Value?
            && (r.value.value.output == v.child <==> NothingLost(rows, inclusive, 0, false))
  {
    hide Drain, RowsWant, NothingLost, HoldsRows, Accepted, Slices, Flatten;
    var slices := SlicesOf(months, rows, inclusive, v);
    TableRangeIff(months, rows, inclusive, size, calls, slices);
  }

  lemma SlicesOf(months: MonthShift, rows: seq<Row>, inclusive: bool, v: ListVector) returns (slices: seq<seq<Int64>>)
    requires HoldsRows(months, rows, inclusive, v) && Accepted(rows, inclusive)
    ensures RowsWant(months, rows, inclusive, 0, slices) && Flatten(slices) == v.child
  {
    hide RowsWant, Accepted, Slices, Flatten, HoldsRow;
    slices := Slices(v, 0);
    ListRowsAreWanted(months, rows, inclusive, v, 0);
    FlattenedSlices(months, rows, inclusive, v, 0);
    assert rows == [] ==> v.child == [];
  }

  // ----- The code -----

  class RangeLocalState {
    var initializedRow: bool
    var currentInputRow: nat
    var currentState: Int64
    var bounds: Bounds
    var emptyRange: bool

    ghost function Snapshot(): State
      reads this
    {
      State(initializedRow, currentInputRow, currentState, bounds, emptyRange)
    }

    constructor ()
      ensures Snapshot() == FRESH
    {
      initializedRow, currentInputRow, currentState, bounds, emptyRange := false, 0, 0, NULL_BOUNDS, false;
    }

    /** GenerateRangeDateTimeParameters */
    method GenerateParameters(row: Row, inclusive: bool) returns (error: Cell<TimeError>)
      modifies this`bounds, this`emptyRange
      ensures match Parameters(row, inclusive)
              case Error(e) => error == Present(e)
              case Value(b) => error == Null && bounds == b && emptyRange == (old(emptyRange) || Opposed(b))
    {
      error := Null;
      if HasNull(row) {
        bounds := NULL_BOUNDS;
        return;
      }
      var start, end, increment := row.start.value, row.end.value, row.increment.value;
      if !IsFinite(start) || !IsFinite(end) {
        return Present(InfiniteBounds);
      }
      if increment.months == 0 && increment.days == 0 && increment.micros == 0 {
        return Present(ZeroInterval);
      }
      if Positive(increment) {
        if Negative(increment) {
          return Present(MixedSigns);
        }
        if start > end {
          emptyRange := true;
        }
        bounds := Bounds(start, end, increment, inclusive, true);
      } else {
        if start < end {
          emptyRange := true;
        }
        bounds := Bounds(start, end, increment, inclusive, false);
      }
    }

    /** The inner loop: fills one output chunk. */
    method FillChunk(calendar: Calendar, size: nat) returns (error: Cell<TimeError>, data: seq<Int64>)
      requires size > 0
      modifies this`currentState, calendar
      ensures match Fill(calendar.months, bounds, old(currentState), size)
              case Error(e) => error == Present(e)
              case Value(f) => error == Null && data == f.output && currentState == f.current
    {
      hide Sum;
      error, data := Null, [];
      ghost var start := currentState;
      PrependNothing(Fill(calendar.months, bounds, start, size));
      while |data| < size && !Finished(bounds, currentState)
        invariant |data| <= size
        invariant FillsFrom(calendar.months, bounds, start, size, data, currentState)
        decreases size - |data|
      {
        var next := Add(calendar, currentState, bounds.increment);
        if next.Error? {
          error := Present(next.error);
          return;
        }
        ghost var before := data;
        data := data + [currentState];
        currentState := next.value;
        FillsOn(before, data, Fill(calendar.months, bounds, currentState, size - |data|));
      }
      assert data + [] == data;
    }

    /** ICUTableRangeFunction */
    method TableRange(calendar: Calendar, input: seq<Row>, inclusive: bool, size: nat)
      returns (error: Cell<TimeError>, status: Status, output: seq<Int64>)
      requires size > 0 && Valid(input, Snapshot())
      modifies this, calendar
      ensures match Call(calendar.months, input, inclusive, size, old(Snapshot()))
              case Error(e) => error == Present(e)
              case Value(c) => error == Null && status == c.status && output == c.output && Snapshot() == c.state
    {
      hide Sum, Fill, Parameters;
      error, status, output := Null, NeedMoreInput, [];
      while true
        invariant Valid(input, Snapshot()) && error.Null?
        invariant Call(calendar.months, input, inclusive, size, Snapshot()) ==
                  Call(calendar.months, input, inclusive, size, old(Snapshot()))
        decreases |input| - currentInputRow
      {
        if !initializedRow {
          if currentInputRow >= |input| {
            currentInputRow, initializedRow := 0, false;
            return Null, NeedMoreInput, [];
          }
          error := GenerateParameters(input[currentInputRow], inclusive);
          if error.Present? {
            return;
          }
          initializedRow, currentState := true, bounds.start;
        }
        if emptyRange {
          currentInputRow, initializedRow := currentInputRow + 1, false;
          return Null, HaveMoreOutput, [];
        }
        error, output := FillChunk(calendar, size);
        if error.Present? {
          return;
        }
        if |output| > 0 {
          return Null, HaveMoreOutput, output;
        }
        currentInputRow, initializedRow := currentInputRow + 1, false;
      }
    }
  }

  /** The loop state: some data filled, the rest to be filled from the current value. */
  ghost predicate FillsFrom(months: MonthShift, b: Bounds, start: Int64, size: nat, data: seq<Int64>, current: Int64)
    requires |data| <= size
  {
    Fill(months, b, start, size) == Prepend(data, Fill(months, b, current, size - |data|))
  }

  function Prepend(data: seq<Int64>, r: Outcome<Filled>): Outcome<Filled> {
    if r.Error? then r else Value(Filled(data + r.value.output, r.value.current))
  }

  lemma PrependNothing(r: Outcome<Filled>)
    ensures Prepend([], r) == r
  {
    assert r.Value? ==> [] + r.value.output == r.value.output;
  }

  lemma FillsOn(before: seq<Int64>, data: seq<Int64>, r: Outcome<Filled>)
    requires |data| == |before| + 1 && data[..|before|] == before
    ensures Prepend(before, Prepend([data[|before|]], r)) == Prepend(data, r)
  {
    if r.Value? {
      assert before + ([data[|before|]] + r.value.output) == data + r.value.output;
    }
  }
}
