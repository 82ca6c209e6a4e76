/** list_transform and list_filter (lambda_functions.cpp): the lists of a chunk of rows
    are flattened into batches of at most `vectorSize` elements, the lambda runs on one
    batch at a time, and the result lists are put together from state carried across
    batches. Stated against a lambda applied to each row's own list. */
module ListLambda {

  /** list_entry_t */
  datatype Entry = Entry(offset: nat, length: nat)

  /** What one evaluation of the lambda sees: the 1-based index in the list, the element,
      and the values captured from the row. */
  datatype Call<T, C> = Call(index: nat, element: T, captured: C)

  /** A chunk: the list column in unified format, with its child vector, and the captured
      columns. */
  datatype Chunk<T, C> = Chunk(child: seq<T>, entries: seq<Entry>, valid: seq<bool>, sel: seq<nat>, captured: seq<C>) {

    predicate Valid() {
      && |sel| == |captured|
      && |valid| == |entries|
      && (forall r :: 0 <= r < |sel| ==> sel[r] < |entries|)
      && (forall k :: 0 <= k < |entries| && valid[k] ==> entries[k].offset + entries[k].length <= |child|)
    }

    function Rows(): nat {
      |sel|
    }

    predicate IsNull(r: nat)
      requires Valid() && r < Rows()
    {
      !valid[sel[r]]
    }

    function Length(r: nat): nat
      requires Valid() && r < Rows()
    {
      if IsNull(r) then 0 else entries[sel[r]].length
    }

    /** The list of a row, empty for NULL. */
    function List(r: nat): (list: seq<T>)
      requires Valid() && r < Rows()
      ensures |list| == Length(r)
    {
      if IsNull(r) then [] else var e := entries[sel[r]]; child[e.offset..e.offset + e.length]
    }

    /** The evaluations a row needs. */
    function RowCalls(r: nat): (calls: seq<Call<T, C>>)
      requires Valid() && r < Rows()
      ensures |calls| == Length(r)
    {
      seq(Length(r), k requires 0 <= k < Length(r) => Call(k + 1, List(r)[k], captured[r]))
    }

    /** The evaluations the first n rows need. */
    function Calls(n: nat): seq<Call<T, C>>
      requires Valid() && n <= Rows()
    {
      if n == 0 then [] else Calls(n - 1) + RowCalls(n - 1)
    }

    lemma {:induction false} CallsPrefix(m: nat, n: nat)
      requires Valid() && m <= n <= Rows()
      ensures Calls(m) <= Calls(n)
    {
      if m < n { CallsPrefix(m, n - 1); }
    }

    lemma RowCallAt(r: nat, k: nat)
      requires Valid() && r < Rows() && k < Length(r)
      ensures RowCalls(r)[k] == Call(k + 1, child[entries[sel[r]].offset + k], captured[r])
    {
      assert List(r)[k] == child[entries[sel[r]].offset + k];
    }

    /** The calls of a row lie between those of the rows before and after it. */
    lemma SplitCalls(r: nat) returns (rest: seq<Call<T, C>>)
      requires Valid() && r < Rows()
      ensures Calls(Rows()) == Calls(r) + RowCalls(r) + rest
    {
      CallsPrefix(r + 1, Rows());
      var upTo := Calls(r + 1);
      rest := Calls(Rows())[|upTo|..];
    }

    /** The call after those of the first r rows and k elements of row r. */
    lemma NextCall(r: nat, k: nat, n: nat)
      requires Valid() && r < n <= Rows() && k < Length(r)
      ensures |Calls(r)| + k < |Calls(n)| && Calls(n)[|Calls(r)| + k] == RowCalls(r)[k]
    {
      hide Calls, RowCalls;
      CallsStep(r);
      CallsPrefix(r + 1, n);
      PrefixAt(Calls(r), RowCalls(r), Calls(n), k);
    }

    lemma NullCalls(r: nat)
      requires Valid() && r < Rows()
      ensures IsNull(r) ==> Calls(r + 1) == Calls(r)
    {
    }

    lemma NoCalls()
      requires Valid()
      ensures Calls(0) == []
    {
    }

    lemma CallsStep(r: nat)
      requires Valid() && r < Rows()
      ensures Calls(r + 1) == Calls(r) + RowCalls(r)
    {
    }
  }

  lemma PrefixAt<T>(before: seq<T>, row: seq<T>, all: seq<T>, k: nat)
    requires before + row <= all && k < |row|
    ensures all[|before| + k] == row[k]
  {
    assert (before + row)[|before| + k] == row[k];
  }

  // ----- The batch -----

  /** The selection vectors and the index vector that describe one batch. */
  class Batch<T(!new), C(!new)> {
    const vectorSize: nat
    const childSel: array<nat>
    const rowSel: array<nat>
    const indexVector: array<nat>
    var count: nat

    constructor (vectorSize: nat)
      ensures this.vectorSize == vectorSize && count == 0
      ensures Valid() && fresh(childSel) && fresh(rowSel) && fresh(indexVector)
    {
      this.vectorSize := vectorSize;
      childSel := new nat[vectorSize](_ => 0);
      rowSel := new nat[vectorSize](_ => 0);
      indexVector := new nat[vectorSize](_ => 0);
      count := 0;
    }

    ghost predicate Valid()
      reads this
    {
      && childSel.Length == rowSel.Length == indexVector.Length == vectorSize
      && childSel != rowSel && childSel != indexVector && rowSel != indexVector
      && count <= vectorSize
    }

    ghost predicate Selects(chunk: Chunk<T, C>)
      reads this, childSel, rowSel
    {
      Valid() && forall k :: 0 <= k < count ==> childSel[k] < |chunk.child| && rowSel[k] < |chunk.captured|
    }

    /** The evaluations that the batch describes. */
    ghost function Contents(chunk: Chunk<T, C>): (calls: seq<Call<T, C>>)
      requires Selects(chunk)
      reads this, childSel, rowSel, indexVector
    {
      seq(count, k requires 0 <= k < count reads this, childSel, rowSel, indexVector requires Selects(chunk) =>
        Call(indexVector[k], chunk.child[childSel[k]], chunk.captured[rowSel[k]]))
    }

    method Add(chunk: Chunk<T, C>, childPos: nat, row: nat, index: nat)
      requires Selects(chunk) && count < vectorSize && childPos < |chunk.child| && row < |chunk.captured|
      modifies this`count, childSel, rowSel, indexVector
      ensures Selects(chunk) && count == old(count) + 1
      ensures Contents(chunk) == old(Contents(chunk)) + [Call(index, chunk.child[childPos], chunk.captured[row])]
    {
      childSel[count], rowSel[count], indexVector[count] := childPos, row, index;
      count := count + 1;
    }

    /** ExecuteExpression: the lambda on every element of the batch, and the slice of the
        child vector it was given. */
    method Execute<U>(chunk: Chunk<T, C>, f: Call<T, C> -> U) returns (values: seq<U>, slice: seq<T>)
      requires Selects(chunk)
      ensures |values| == |slice| == count
      ensures forall k :: 0 <= k < count ==>
                values[k] == f(Contents(chunk)[k]) && slice[k] == Contents(chunk)[k].element
    {
      values, slice := [], [];
      for k := 0 to count
        invariant |values| == |slice| == k
        invariant forall j :: 0 <= j < k ==>
                    values[j] == f(Contents(chunk)[j]) && slice[j] == Contents(chunk)[j].element
      {
        var call := Call(indexVector[k], chunk.child[childSel[k]], chunk.captured[rowSel[k]]);
        values, slice := values + [f(call)], slice + [call.element];
      }
    }
  }

  // ----- list_filter -----

  /** What the lambda of list_filter returns; NULL keeps nothing. */
  datatype Truth = Null | Value(b: bool)

  /** The elements of the calls on which the lambda is true, in order. */
  function Keep<T, C>(calls: seq<Call<T, C>>, f: Call<T, C> -> Truth): seq<T> {
    if calls == [] then []
    else
      var last := calls[|calls| - 1];
      Keep(calls[..|calls| - 1], f) + if f(last) == Value(true) then [last.element] else []
  }

  lemma KeepNone<T, C>(f: Call<T, C> -> Truth)
    ensures Keep([], f) == []
  {
  }

  lemma KeepSnoc<T, C>(calls: seq<Call<T, C>>, call: Call<T, C>, f: Call<T, C> -> Truth)
    ensures Keep(calls + [call], f) == Keep(calls, f) + if f(call) == Value(true) then [call.element] else []
  {
    assert (calls + [call])[..|calls|] == calls;
  }

  lemma {:induction false} KeepAppend<T, C>(a: seq<Call<T, C>>, b: seq<Call<T, C>>, f: Call<T, C> -> Truth)
    ensures Keep(a + b, f) == Keep(a, f) + Keep(b, f)
    decreases |b|
  {
    if b == [] {
      assert a + b == a;
    } else {
      var init, last := b[..|b| - 1], b[|b| - 1];
      assert a + b == (a + init) + [last] && b == init + [last];
      KeepAppend(a, init, f);
      KeepSnoc(a + init, last, f);
      KeepSnoc(init, last, f);
    }
  }

  /** The positions where the lambda is true, in order. */
  predicate TrueAt<T(!new), C(!new)>(calls: seq<Call<T, C>>, f: Call<T, C> -> Truth, at: seq<nat>) {
    && (forall j :: 0 <= j < |at| ==> at[j] < |calls| && f(calls[at[j]]).Value? && f(calls[at[j]]).b)
    && (forall i, j :: 0 <= i < j < |at| ==> at[i] < at[j])
    && (forall k :: 0 <= k < |calls| && f(calls[k]).Value? && f(calls[k]).b ==> k in at)
  }

  /** list_filter keeps the elements at the positions where the lambda is true, in order, and
      neither those where it is false nor those where it is NULL. */
  lemma {:induction false} KeepMeans<T(!new), C(!new)>(calls: seq<Call<T, C>>, f: Call<T, C> -> Truth)
    returns (at: seq<nat>)
    ensures TrueAt(calls, f, at) && |at| == |Keep(calls, f)|
    ensures forall j :: 0 <= j < |at| ==> Keep(calls, f)[j] == calls[at[j]].element
    decreases |calls|
  {
    hide TrueAt;
    if calls == [] {
      at := [];
      assert TrueAt(calls, f, at) by {
        TrueNowhere(f);
      }
    } else {
      var init, last := calls[..|calls| - 1], calls[|calls| - 1];
      at := KeepMeans(init, f);
      TrueBelow(init, f, at);
      TrueSnoc(init, last, f, at);
      assert calls == init + [last];
      at := if f(last) == Value(true) then at + [|init|] else at;
    }
  }

  lemma TrueNowhere<T(!new), C(!new)>(f: Call<T, C> -> Truth)
    ensures TrueAt([], f, [])
  {
  }

  lemma TrueBelow<T(!new), C(!new)>(calls: seq<Call<T, C>>, f: Call<T, C> -> Truth, at: seq<nat>)
    requires TrueAt(calls, f, at)
    ensures forall j :: 0 <= j < |at| ==> at[j] < |calls|
  {
  }

  lemma TrueSnoc<T(!new), C(!new)>(calls: seq<Call<T, C>>, call: Call<T, C>, f: Call<T, C> -> Truth, at: seq<nat>)
    requires TrueAt(calls, f, at)
    ensures TrueAt(calls + [call], f, if f(call) == Value(true) then at + [|calls|] else at)
  {
    var all := calls + [call];
    var at' := if f(call) == Value(true) then at + [|calls|] else at;
    forall k | 0 <= k < |all| && f(all[k]).Value? && f(all[k]).b ensures k in at' {
      if k < |calls| {
        assert f(calls[k]) == f(all[k]);
      }
    }
  }

  /** Where the result list of a row lies: after those of the rows before it. */
  ghost function ResultEntry<T, C>(chunk: Chunk<T, C>, f: Call<T, C> -> Truth, r: nat): Entry
    requires chunk.Valid() && r < chunk.Rows()
  {
    Entry(|Keep(chunk.Calls(r), f)|, |Keep(chunk.RowCalls(r), f)|)
  }

  /** ListFilterInfo */
  class ListFilterInfo {
    var entryLengths: seq<nat>
    var length: nat
    var offset: nat
    var rowIdx: nat
    var srcLength: nat

    constructor ()
      ensures entryLengths == [] && length == offset == rowIdx == srcLength == 0
    {
      entryLengths := [];
      length, offset, rowIdx, srcLength := 0, 0, 0, 0;
    }

    /** The first calls, `done`, are accounted for, and the lengths of `pushed` rows known. */
    ghost predicate Reached<T, C>(chunk: Chunk<T, C>, f: Call<T, C> -> Truth, pushed: nat, done: seq<Call<T, C>>)
      reads this
    {
      && chunk.Valid() && rowIdx <= pushed <= chunk.Rows()
      && |entryLengths| == pushed
      && (forall r :: 0 <= r < pushed ==> entryLengths[r] == chunk.Length(r))
      && InRow(chunk, f, pushed, done, rowIdx, srcLength, offset, length)
    }

    ghost predicate Filled<T, C>(chunk: Chunk<T, C>, f: Call<T, C> -> Truth, entries: array<Entry>)
      reads this, entries
    {
      && chunk.Valid() && rowIdx <= chunk.Rows() == entries.Length
      && forall r :: 0 <= r < rowIdx ==> entries[r] == ResultEntry(chunk, f, r)
    }

    /** PushEmptyList for a NULL row, SetResultEntry for the others. */
    method PushLength<T, C>(chunk: Chunk<T, C>, ghost f: Call<T, C> -> Truth, row: nat, ghost done: seq<Call<T, C>>)
      requires Reached(chunk, f, row, done) && row < chunk.Rows()
      modifies this`entryLengths
      ensures Reached(chunk, f, row + 1, done)
    {
      hide InRow;
      PushedRow(chunk, f, row, done, rowIdx, srcLength, offset, length);
      entryLengths := entryLengths + [chunk.Length(row)];
    }

    /** Lists that are empty get their entry without any call. */
    method SkipEmptyLists<T, C>(chunk: Chunk<T, C>, ghost f: Call<T, C> -> Truth, entries: array<Entry>,
        ghost pushed: nat, ghost done: seq<Call<T, C>>)
      requires Reached(chunk, f, pushed, done) && Filled(chunk, f, entries)
      modifies this`rowIdx, entries
      ensures Reached(chunk, f, pushed, done) && Filled(chunk, f, entries)
      ensures rowIdx < pushed ==> srcLength < chunk.Length(rowIdx)
    {
      hide ResultEntry, Keep;
      while rowIdx < |entryLengths| && entryLengths[rowIdx] == 0
        invariant Reached(chunk, f, pushed, done) && Filled(chunk, f, entries)
      {
        EmptyRow(chunk, f, pushed, done, rowIdx, srcLength, offset, length);
        entries[rowIdx] := Entry(offset, 0);
        rowIdx := rowIdx + 1;
      }
    }

    /** ListFilterFunctor::AppendResult: the elements of the batch that are kept. */
    method AppendResult<T, C>(chunk: Chunk<T, C>, ghost f: Call<T, C> -> Truth, values: seq<Truth>, slice: seq<T>,
        entries: array<Entry>, ghost pushed: nat, ghost done: seq<Call<T, C>>, ghost batch: seq<Call<T, C>>)
      returns (kept: seq<T>)
      requires Reached(chunk, f, pushed, done) && Filled(chunk, f, entries)
      requires done + batch <= chunk.Calls(pushed)
      requires |values| == |slice| == |batch|
      requires forall k :: 0 <= k < |batch| ==> values[k] == f(batch[k]) && slice[k] == batch[k].element
      modifies this`length, this`offset, this`rowIdx, this`srcLength, entries
      ensures Reached(chunk, f, pushed, done + batch) && Filled(chunk, f, entries)
      ensures rowIdx < pushed ==> srcLength < chunk.Length(rowIdx)
      ensures kept == Keep(batch, f)
    {
      hide InRow, Filled, Keep;
      var sel: seq<nat> := [];
      var i := 0;
      KeepNone(f);
      assert done + batch[..0] == done;
      while i < |values|
        invariant 0 <= i <= |values|
        invariant Reached(chunk, f, pushed, done + batch[..i]) && Filled(chunk, f, entries)
        invariant forall k :: 0 <= k < |sel| ==> sel[k] < |slice|
        invariant Gather(slice, sel) == Keep(batch[..i], f)
      {
        ghost var before := batch[..i];
        assert batch[..i + 1] == before + [batch[i]];
        KeepSnoc(before, batch[i], f);
        PrefixStep(done, before, batch, chunk.Calls(pushed));
        Consume(chunk, f, values[i], entries, pushed, done + before, batch[i]);
        if values[i] == Value(true) {
          sel := sel + [i];
        }
        i := i + 1;
      }
      assert batch[..i] == batch;
      SkipEmptyLists(chunk, f, entries, pushed, done + batch);
      kept := Gather(slice, sel);
    }

    /** One element of the batch: it belongs to the first row that is not complete. */
    method Consume<T, C>(chunk: Chunk<T, C>, ghost f: Call<T, C> -> Truth, value: Truth, entries: array<Entry>,
        ghost pushed: nat, ghost done: seq<Call<T, C>>, ghost call: Call<T, C>)
      requires Reached(chunk, f, pushed, done) && Filled(chunk, f, entries)
      requires done + [call] <= chunk.Calls(pushed) && value == f(call)
      modifies this`length, this`offset, this`rowIdx, this`srcLength, entries
      ensures Reached(chunk, f, pushed, done + [call]) && Filled(chunk, f, entries)
    {
      hide InRow, ResultEntry;
      SkipEmptyLists(chunk, f, entries, pushed, done);
      NextInRow(chunk, f, pushed, done, call, rowIdx, srcLength, offset, length);
      if value == Value(true) {
        length := length + 1;
      }
      srcLength := srcLength + 1;
      if entryLengths[rowIdx] == srcLength {
        entries[rowIdx] := Entry(offset, length);
        offset := offset + length;
        rowIdx := rowIdx + 1;
        length, srcLength := 0, 0;
      }
    }
  }

  lemma PrefixStep<T>(done: seq<T>, before: seq<T>, batch: seq<T>, all: seq<T>)
    requires done + batch <= all && |before| < |batch| && before == batch[..|before|]
    ensures (done + before) + [batch[|before|]] <= all
    ensures (done + before) + [batch[|before|]] == done + (before + [batch[|before|]])
  {
    var next := (done + before) + [batch[|before|]];
    assert next == (done + batch)[..|next|];
  }

  /** The slice of a vector by a selection vector. */
  function Gather<T>(v: seq<T>, sel: seq<nat>): seq<T>
    requires forall k :: 0 <= k < |sel| ==> sel[k] < |v|
  {
    seq(|sel|, k requires 0 <= k < |sel| => v[sel[k]])
  }

  /** `done` ends after srcLength elements of row rowIdx; offset and length count what the
      rows before it, and that part of the row, keep. */
  ghost predicate InRow<T, C>(chunk: Chunk<T, C>, f: Call<T, C> -> Truth, pushed: nat, done: seq<Call<T, C>>,
      rowIdx: nat, srcLength: nat, offset: nat, length: nat)
    requires chunk.Valid() && rowIdx <= pushed <= chunk.Rows()
  {
    && offset == |Keep(chunk.Calls(rowIdx), f)|
    && if rowIdx == pushed then srcLength == length == 0 && done == chunk.Calls(rowIdx)
       else
         && srcLength <= chunk.Length(rowIdx)
         && (srcLength == chunk.Length(rowIdx) ==> srcLength == 0)
         && done == chunk.Calls(rowIdx) + chunk.RowCalls(rowIdx)[..srcLength]
         && length == |Keep(chunk.RowCalls(rowIdx)[..srcLength], f)|
  }

  lemma EmptyRow<T, C>(chunk: Chunk<T, C>, f: Call<T, C> -> Truth, pushed: nat, done: seq<Call<T, C>>,
      rowIdx: nat, srcLength: nat, offset: nat, length: nat)
    requires chunk.Valid() && rowIdx < pushed <= chunk.Rows()
    requires InRow(chunk, f, pushed, done, rowIdx, srcLength, offset, length) && chunk.Length(rowIdx) == 0
    ensures InRow(chunk, f, pushed, done, rowIdx + 1, srcLength, offset, length)
    ensures Entry(offset, 0) == ResultEntry(chunk, f, rowIdx)
  {
    assert chunk.RowCalls(rowIdx) == [];
    assert chunk.Calls(rowIdx) + [] == chunk.Calls(rowIdx);
    if rowIdx + 1 < pushed {
      assert chunk.RowCalls(rowIdx + 1)[..0] == [];
    }
  }

  /** The next call belongs to the current row. */
  lemma NextInRow<T, C>(chunk: Chunk<T, C>, f: Call<T, C> -> Truth, pushed: nat, done: seq<Call<T, C>>,
      call: Call<T, C>,
      rowIdx: nat, srcLength: nat, offset: nat, length: nat)
    requires chunk.Valid() && rowIdx <= pushed <= chunk.Rows()
    requires InRow(chunk, f, pushed, done, rowIdx, srcLength, offset, length)
    requires rowIdx < pushed ==> srcLength < chunk.Length(rowIdx)
    requires done + [call] <= chunk.Calls(pushed)
    ensures rowIdx < pushed
    ensures var length' := length + if f(call) == Value(true) then 1 else 0;
            if srcLength + 1 == chunk.Length(rowIdx) then
              && InRow(chunk, f, pushed, done + [call], rowIdx + 1, 0, offset + length', 0)
              && Entry(offset, length') == ResultEntry(chunk, f, rowIdx)
            else InRow(chunk, f, pushed, done + [call], rowIdx, srcLength + 1, offset, length')
  {
    var before, row, k := chunk.Calls(rowIdx), chunk.RowCalls(rowIdx), srcLength;
    chunk.NextCall(rowIdx, k, pushed);
    SameIndex(done + [call], chunk.Calls(pushed), |done|);
    SliceSnoc(before, row, k, call);
    KeepSnoc(row[..k], call, f);
    if k + 1 == chunk.Length(rowIdx) {
      NextRow(chunk, f, pushed, rowIdx);
    }
  }

  lemma SameIndex<T>(a: seq<T>, b: seq<T>, k: nat)
    requires a <= b && k < |a|
    ensures a[k] == b[k]
  {
  }

  lemma SliceSnoc<T>(before: seq<T>, row: seq<T>, k: nat, x: T)
    requires k < |row| && row[k] == x
    ensures row[..k + 1] == row[..k] + [x]
    ensures (before + row[..k]) + [x] == before + row[..k + 1]
    ensures k + 1 == |row| ==> row[..k + 1] == row
  {
  }

  /** A complete row is followed by the start of the next. */
  lemma NextRow<T, C>(chunk: Chunk<T, C>, f: Call<T, C> -> Truth, pushed: nat, rowIdx: nat)
    requires chunk.Valid() && rowIdx < pushed <= chunk.Rows() && chunk.Length(rowIdx) > 0
    ensures InRow(chunk, f, pushed, chunk.Calls(rowIdx) + chunk.RowCalls(rowIdx), rowIdx + 1, 0,
                  |Keep(chunk.Calls(rowIdx), f)| + |Keep(chunk.RowCalls(rowIdx), f)|, 0)
  {
    KeepAppend(chunk.Calls(rowIdx), chunk.RowCalls(rowIdx), f);
    if rowIdx + 1 < pushed {
      assert chunk.RowCalls(rowIdx + 1)[..0] == [];
      assert chunk.Calls(rowIdx + 1) + [] == chunk.Calls(rowIdx + 1);
    }
  }

  /** The next row's length is pushed; its elements are still to come. */
  lemma PushedRow<T, C>(chunk: Chunk<T, C>, f: Call<T, C> -> Truth, row: nat, done: seq<Call<T, C>>,
      rowIdx: nat, srcLength: nat, offset: nat, length: nat)
    requires chunk.Valid() && rowIdx <= row < chunk.Rows()
    requires InRow(chunk, f, row, done, rowIdx, srcLength, offset, length)
    ensures InRow(chunk, f, row + 1, done, rowIdx, srcLength, offset, length)
  {
    if rowIdx == row {
      assert chunk.RowCalls(row)[..0] == [];
      assert done + [] == done;
    }
  }

  /** Execute the batch and append what it keeps. */
  method FlushFilter<T(!new), C(!new)>(chunk: Chunk<T, C>, f: Call<T, C> -> Truth, batch: Batch<T, C>,
      info: ListFilterInfo, entries: array<Entry>, ghost pushed: nat, ghost done: seq<Call<T, C>>)
    returns (kept: seq<T>)
    requires batch.Selects(chunk) && info.Reached(chunk, f, pushed, done) && info.Filled(chunk, f, entries)
    requires done + batch.Contents(chunk) <= chunk.Calls(pushed)
    modifies batch`count, info`length, info`offset, info`rowIdx, info`srcLength, entries
    ensures batch.Selects(chunk) && batch.count == 0
    ensures info.Reached(chunk, f, pushed, done + old(batch.Contents(chunk))) && info.Filled(chunk, f, entries)
    ensures info.rowIdx < pushed ==> info.srcLength < chunk.Length(info.rowIdx)
    ensures kept == Keep(old(batch.Contents(chunk)), f)
  {
    var values, slice := batch.Execute(chunk, f);
    kept := info.AppendResult(chunk, f, values, slice, entries, pushed, done, batch.Contents(chunk));
    batch.count := 0;
  }

  /** One element is selected; a full batch is executed first. */
  method FilterElement<T(!new), C(!new)>(chunk: Chunk<T, C>, f: Call<T, C> -> Truth, batch: Batch<T, C>,
      info: ListFilterInfo, entries: array<Entry>, childPos: nat, row: nat, index: nat, child: seq<T>,
      ghost trace: seq<Call<T, C>>, ghost pushed: nat)
    returns (child': seq<T>, ghost trace': seq<Call<T, C>>)
    requires batch.vectorSize >= 1 && batch.Selects(chunk) && childPos < |chunk.child| && row < |chunk.captured|
    requires info.Reached(chunk, f, pushed, trace) && info.Filled(chunk, f, entries)
    requires trace + batch.Contents(chunk) <= chunk.Calls(pushed) && child == Keep(trace, f)
    modifies batch`count, batch.childSel, batch.rowSel, batch.indexVector
    modifies info`length, info`offset, info`rowIdx, info`srcLength, entries
    ensures batch.Selects(chunk) && info.Reached(chunk, f, pushed, trace') && info.Filled(chunk, f, entries)
    ensures child' == Keep(trace', f)
    ensures trace' + batch.Contents(chunk) ==
            trace + old(batch.Contents(chunk)) + [Call(index, chunk.child[childPos], chunk.captured[row])]
  {
    hide InRow, Keep;
    child', trace' := child, trace;
    if batch.count == batch.vectorSize {
      ghost var contents := batch.Contents(chunk);
      var kept := FlushFilter(chunk, f, batch, info, entries, pushed, trace);
      KeepAppend(trace, contents, f);
      child', trace' := child + kept, trace + contents;
      assert trace' + batch.Contents(chunk) == trace + contents;
    }
    batch.Add(chunk, childPos, row, index);
  }

  /** The elements of one row. */
  method FilterRow<T(!new), C(!new)>(chunk: Chunk<T, C>, f: Call<T, C> -> Truth, batch: Batch<T, C>,
      info: ListFilterInfo, entries: array<Entry>, row: nat, child: seq<T>, ghost trace: seq<Call<T, C>>)
    returns (child': seq<T>, ghost trace': seq<Call<T, C>>)
    requires chunk.Valid() && row < chunk.Rows() && !chunk.IsNull(row)
    requires batch.vectorSize >= 1 && batch.Selects(chunk)
    requires info.Reached(chunk, f, row + 1, trace) && info.Filled(chunk, f, entries)
    requires trace + batch.Contents(chunk) == chunk.Calls(row) && child == Keep(trace, f)
    modifies batch`count, batch.childSel, batch.rowSel, batch.indexVector
    modifies info`length, info`offset, info`rowIdx, info`srcLength, entries
    ensures batch.Selects(chunk) && info.Reached(chunk, f, row + 1, trace') && info.Filled(chunk, f, entries)
    ensures trace' + batch.Contents(chunk) == chunk.Calls(row + 1) && child' == Keep(trace', f)
  {
    hide InRow, Keep;
    var entry := chunk.entries[chunk.sel[row]];
    ghost var before, calls := chunk.Calls(row), chunk.RowCalls(row);
    child', trace' := child, trace;
    var k := 0;
    assert before + calls[..0] == before;
    while k < entry.length
      invariant 0 <= k <= entry.length
      invariant batch.Selects(chunk) && info.Reached(chunk, f, row + 1, trace') && info.Filled(chunk, f, entries)
      invariant trace' + batch.Contents(chunk) == before + calls[..k] && child' == Keep(trace', f)
    {
      PrefixOf(before, calls, k);
      child', trace' := FilterElement(chunk, f, batch, info, entries, entry.offset + k, row, k + 1, child', trace',
          row + 1);
      chunk.RowCallAt(row, k);
      SliceSnoc(before, calls, k, calls[k]);
      k := k + 1;
    }
    assert calls[..k] == calls;
  }

  lemma PrefixOf<T>(before: seq<T>, row: seq<T>, k: nat)
    requires k <= |row|
    ensures before + row[..k] <= before + row
  {
  }

  /** ExecuteLambda<ListFilterFunctor>. The result lists are laid out one after another in
      `child`; `trace` records the evaluations of the lambda in order. */
  method ListFilter<T(!new), C(!new)>(chunk: Chunk<T, C>, f: Call<T, C> -> Truth, vectorSize: nat)
    returns (entries: array<Entry>, validity: seq<bool>, child: seq<T>, ghost trace: seq<Call<T, C>>)
    requires chunk.Valid() && vectorSize >= 1
    ensures entries.Length == |validity| == chunk.Rows()
    ensures trace == chunk.Calls(chunk.Rows())
    ensures child == Keep(trace, f)
    ensures forall r :: 0 <= r < chunk.Rows() ==> validity[r] == chunk.valid[chunk.sel[r]]
    ensures forall r :: 0 <= r < chunk.Rows() ==> entries[r] == ResultEntry(chunk, f, r)
    ensures forall r :: 0 <= r < chunk.Rows() ==> Holds(child, entries[r], Keep(chunk.RowCalls(r), f))
  {
    hide InRow, ResultEntry, Keep, Holds;
    entries := new Entry[chunk.Rows()](_ => Entry(0, 0));
    var batch := new Batch<T, C>(vectorSize);
    var info := new ListFilterInfo();
    validity, child, trace := FilterRows(chunk, f, batch, info, entries);
    ghost var contents := batch.Contents(chunk);
    var kept := FlushFilter(chunk, f, batch, info, entries, chunk.Rows(), trace);
    KeepAppend(trace, contents, f);
    child, trace := child + kept, trace + contents;
    AllRowsDone(chunk, f, info.rowIdx, info.srcLength, info.offset, info.length);
    ResultSlices(chunk, f, entries[..], child);
  }

  /** The loop over the rows; a last batch remains to be executed. */
  method FilterRows<T(!new), C(!new)>(chunk: Chunk<T, C>, f: Call<T, C> -> Truth, batch: Batch<T, C>,
      info: ListFilterInfo, entries: array<Entry>)
    returns (validity: seq<bool>, child: seq<T>, ghost trace: seq<Call<T, C>>)
    requires chunk.Valid() && entries.Length == chunk.Rows()
    requires batch.vectorSize >= 1 && batch.Selects(chunk) && batch.count == 0
    requires info.entryLengths == [] && info.length == info.offset == info.rowIdx == info.srcLength == 0
    modifies batch`count, batch.childSel, batch.rowSel, batch.indexVector, info, entries
    ensures batch.Selects(chunk) && info.Reached(chunk, f, chunk.Rows(), trace) && info.Filled(chunk, f, entries)
    ensures trace + batch.Contents(chunk) == chunk.Calls(chunk.Rows()) && child == Keep(trace, f)
    ensures |validity| == chunk.Rows() && forall r :: 0 <= r < chunk.Rows() ==> validity[r] == !chunk.IsNull(r)
  {
    hide InRow, ResultEntry, Keep, Chunk.Calls;
    validity, child, trace := [], [], [];
    chunk.NoCalls();
    StartInRow(chunk, f);
    KeepNone(f);
    var row := 0;
    while row < chunk.Rows()
      invariant 0 <= row <= chunk.Rows() && |validity| == row
      invariant batch.Selects(chunk)
      invariant trace + batch.Contents(chunk) == chunk.Calls(row)
      invariant info.Reached(chunk, f, row, trace) && info.Filled(chunk, f, entries)
      invariant child == Keep(trace, f)
      invariant forall r :: 0 <= r < row ==> validity[r] == !chunk.IsNull(r)
    {
      validity := validity + [!chunk.IsNull(row)];
      info.PushLength(chunk, f, row, trace);
      if chunk.IsNull(row) {
        chunk.NullCalls(row);
      } else {
        child, trace := FilterRow(chunk, f, batch, info, entries, row, child, trace);
      }
      row := row + 1;
    }
  }

  lemma StartInRow<T, C>(chunk: Chunk<T, C>, f: Call<T, C> -> Truth)
    requires chunk.Valid()
    ensures InRow(chunk, f, 0, [], 0, 0, 0, 0)
  {
  }

  lemma AllRowsDone<T, C>(chunk: Chunk<T, C>, f: Call<T, C> -> Truth, rowIdx: nat, srcLength: nat, offset: nat,
      length: nat)
    requires chunk.Valid() && rowIdx <= chunk.Rows()
    requires InRow(chunk, f, chunk.Rows(), chunk.Calls(chunk.Rows()), rowIdx, srcLength, offset, length)
    requires rowIdx < chunk.Rows() ==> srcLength < chunk.Length(rowIdx)
    ensures rowIdx == chunk.Rows()
  {
    if rowIdx < chunk.Rows() {
      chunk.CallsPrefix(rowIdx + 1, chunk.Rows());
    }
  }

  /** The entry cuts out the given list. */
  ghost predicate Holds<T>(child: seq<T>, e: Entry, list: seq<T>) {
    e.offset + e.length <= |child| && child[e.offset..e.offset + e.length] == list
  }

  lemma HoldsMiddle<T>(a: seq<T>, b: seq<T>, c: seq<T>)
    ensures Holds(a + b + c, Entry(|a|, |b|), b)
  {
  }

  /** The result list of a row is what the lambda keeps of the row's own list. */
  lemma ResultSlices<T, C>(chunk: Chunk<T, C>, f: Call<T, C> -> Truth, entries: seq<Entry>, child: seq<T>)
    requires chunk.Valid() && |entries| == chunk.Rows() && child == Keep(chunk.Calls(chunk.Rows()), f)
    requires forall r :: 0 <= r < |entries| ==> entries[r] == ResultEntry(chunk, f, r)
    ensures forall r :: 0 <= r < |entries| ==> Holds(child, entries[r], Keep(chunk.RowCalls(r), f))
  {
    hide Keep, Holds;
    forall r | 0 <= r < |entries| ensures Holds(child, entries[r], Keep(chunk.RowCalls(r), f)) {
      var before, row := chunk.Calls(r), chunk.RowCalls(r);
      var rest := chunk.SplitCalls(r);
      KeepAppend(before + row, rest, f);
      KeepAppend(before, row, f);
      HoldsMiddle(Keep(before, f), Keep(row, f), Keep(rest, f));
    }
  }

  // ----- list_transform -----

  function Apply<T, C, U>(calls: seq<Call<T, C>>, f: Call<T, C> -> U): (values: seq<U>)
    ensures |values| == |calls|
  {
    seq(|calls|, k requires 0 <= k < |calls| => f(calls[k]))
  }

  lemma ApplyAppend<T, C, U>(a: seq<Call<T, C>>, b: seq<Call<T, C>>, f: Call<T, C> -> U)
    ensures Apply(a + b, f) == Apply(a, f) + Apply(b, f)
  {
  }

  method FlushTransform<T(!new), C(!new), U>(chunk: Chunk<T, C>, f: Call<T, C> -> U, batch: Batch<T, C>)
    returns (values: seq<U>)
    requires batch.Selects(chunk)
    modifies batch`count
    ensures batch.Selects(chunk) && batch.count == 0
    ensures values == Apply(old(batch.Contents(chunk)), f)
  {
    var slice;
    values, slice := batch.Execute(chunk, f);
    batch.count := 0;
  }

  method TransformElement<T(!new), C(!new), U>(chunk: Chunk<T, C>, f: Call<T, C> -> U, batch: Batch<T, C>,
      childPos: nat, row: nat, index: nat, child: seq<U>, ghost trace: seq<Call<T, C>>)
    returns (child': seq<U>, ghost trace': seq<Call<T, C>>)
    requires batch.vectorSize >= 1 && batch.Selects(chunk) && childPos < |chunk.child| && row < |chunk.captured|
    requires child == Apply(trace, f)
    modifies batch`count, batch.childSel, batch.rowSel, batch.indexVector
    ensures batch.Selects(chunk) && child' == Apply(trace', f)
    ensures trace' + batch.Contents(chunk) ==
            trace + old(batch.Contents(chunk)) + [Call(index, chunk.child[childPos], chunk.captured[row])]
  {
    hide Apply;
    child', trace' := child, trace;
    if batch.count == batch.vectorSize {
      ghost var contents := batch.Contents(chunk);
      var values := FlushTransform(chunk, f, batch);
      ApplyAppend(trace, contents, f);
      child', trace' := child + values, trace + contents;
      assert trace' + batch.Contents(chunk) == trace + contents;
    }
    batch.Add(chunk, childPos, row, index);
  }

  method TransformRow<T(!new), C(!new), U>(chunk: Chunk<T, C>, f: Call<T, C> -> U, batch: Batch<T, C>, row: nat,
      child: seq<U>, ghost trace: seq<Call<T, C>>)
    returns (child': seq<U>, ghost trace': seq<Call<T, C>>)
    requires chunk.Valid() && row < chunk.Rows() && !chunk.IsNull(row)
    requires batch.vectorSize >= 1 && batch.Selects(chunk)
    requires trace + batch.Contents(chunk) == chunk.Calls(row) && child == Apply(trace, f)
    modifies batch`count, batch.childSel, batch.rowSel, batch.indexVector
    ensures batch.Selects(chunk)
    ensures trace' + batch.Contents(chunk) == chunk.Calls(row + 1) && child' == Apply(trace', f)
  {
    hide Apply;
    var entry := chunk.entries[chunk.sel[row]];
    ghost var before, calls := chunk.Calls(row), chunk.RowCalls(row);
    child', trace' := child, trace;
    var k := 0;
    assert before + calls[..0] == before;
    while k < entry.length
      invariant 0 <= k <= entry.length && batch.Selects(chunk)
      invariant trace' + batch.Contents(chunk) == before + calls[..k] && child' == Apply(trace', f)
    {
      child', trace' := TransformElement(chunk, f, batch, entry.offset + k, row, k + 1, child', trace');
      chunk.RowCallAt(row, k);
      SliceSnoc(before, calls, k, calls[k]);
      k := k + 1;
    }
    assert calls[..k] == calls;
  }

  /** SetResultEntry: the entries of the first rows that are not NULL. */
  ghost predicate Placed<T, C>(chunk: Chunk<T, C>, entries: array<Entry>, rows: nat)
    reads entries
  {
    && chunk.Valid() && rows <= chunk.Rows() == entries.Length
    && forall r :: 0 <= r < rows && !chunk.IsNull(r) ==> entries[r] == Entry(|chunk.Calls(r)|, chunk.Length(r))
  }

  method SetResultEntry<T, C>(chunk: Chunk<T, C>, entries: array<Entry>, offset: nat, row: nat) returns (offset': nat)
    requires row < chunk.Rows() && Placed(chunk, entries, row) && offset == |chunk.Calls(row)|
    modifies entries
    ensures Placed(chunk, entries, row + 1) && offset' == |chunk.Calls(row + 1)|
  {
    offset' := offset;
    if !chunk.IsNull(row) {
      entries[row] := Entry(offset, chunk.Length(row));
      offset' := offset + chunk.Length(row);
    }
  }

  /** ExecuteLambda<ListTransformFunctor>. The entry of a NULL row is left as it was. */
  method ListTransform<T(!new), C(!new), U>(chunk: Chunk<T, C>, f: Call<T, C> -> U, vectorSize: nat)
    returns (entries: array<Entry>, validity: seq<bool>, child: seq<U>, ghost trace: seq<Call<T, C>>)
    requires chunk.Valid() && vectorSize >= 1
    ensures entries.Length == |validity| == chunk.Rows()
    ensures trace == chunk.Calls(chunk.Rows())
    ensures child == Apply(trace, f)
    ensures forall r :: 0 <= r < chunk.Rows() ==> validity[r] == chunk.valid[chunk.sel[r]]
    ensures forall r :: 0 <= r < chunk.Rows() && !chunk.IsNull(r) ==>
              && entries[r] == Entry(|chunk.Calls(r)|, chunk.Length(r))
              && Holds(child, entries[r], Apply(chunk.RowCalls(r), f))
  {
    hide Apply, Holds, Placed;
    entries := new Entry[chunk.Rows()](_ => Entry(0, 0));
    var batch := new Batch<T, C>(vectorSize);
    validity, child, trace := TransformRows(chunk, f, batch, entries);
    ghost var contents := batch.Contents(chunk);
    var values := FlushTransform(chunk, f, batch);
    ApplyAppend(trace, contents, f);
    child, trace := child + values, trace + contents;
    PlacedAll(chunk, entries);
    TransformSlices(chunk, f, entries[..], child);
  }

  /** The loop over the rows; a last batch remains to be executed. */
  method TransformRows<T(!new), C(!new), U>(chunk: Chunk<T, C>, f: Call<T, C> -> U, batch: Batch<T, C>,
      entries: array<Entry>)
    returns (validity: seq<bool>, child: seq<U>, ghost trace: seq<Call<T, C>>)
    requires chunk.Valid() && entries.Length == chunk.Rows()
    requires batch.vectorSize >= 1 && batch.Selects(chunk) && batch.count == 0
    modifies batch`count, batch.childSel, batch.rowSel, batch.indexVector, entries
    ensures batch.Selects(chunk) && Placed(chunk, entries, chunk.Rows())
    ensures trace + batch.Contents(chunk) == chunk.Calls(chunk.Rows()) && child == Apply(trace, f)
    ensures |validity| == chunk.Rows() && forall r :: 0 <= r < chunk.Rows() ==> validity[r] == !chunk.IsNull(r)
  {
    hide Apply, Placed, Chunk.Calls;
    chunk.NoCalls();
    PlacedNone(chunk, entries);
    ApplyAppend<T, C, U>([], [], f);
    validity, child, trace := [], [], [];
    var offset, row := 0, 0;
    while row < chunk.Rows()
      invariant 0 <= row <= chunk.Rows() && |validity| == row
      invariant batch.Selects(chunk) && Placed(chunk, entries, row)
      invariant trace + batch.Contents(chunk) == chunk.Calls(row) && offset == |chunk.Calls(row)|
      invariant child == Apply(trace, f)
      invariant forall r :: 0 <= r < row ==> validity[r] == !chunk.IsNull(r)
    {
      validity := validity + [!chunk.IsNull(row)];
      offset := SetResultEntry(chunk, entries, offset, row);
      if chunk.IsNull(row) {
        chunk.NullCalls(row);
      } else {
        child, trace := TransformRow(chunk, f, batch, row, child, trace);
      }
      row := row + 1;
    }
  }

  lemma PlacedNone<T, C>(chunk: Chunk<T, C>, entries: array<Entry>)
    requires chunk.Valid() && entries.Length == chunk.Rows()
    ensures Placed(chunk, entries, 0)
  {
  }

  lemma PlacedAll<T, C>(chunk: Chunk<T, C>, entries: array<Entry>)
    requires chunk.Valid() && Placed(chunk, entries, chunk.Rows())
    ensures forall r :: 0 <= r < |entries[..]| && !chunk.IsNull(r) ==>
              entries[..][r] == Entry(|chunk.Calls(r)|, chunk.Length(r))
  {
  }

  lemma TransformSlices<T, C, U>(chunk: Chunk<T, C>, f: Call<T, C> -> U, entries: seq<Entry>, child: seq<U>)
    requires chunk.Valid() && |entries| == chunk.Rows() && child == Apply(chunk.Calls(chunk.Rows()), f)
    requires forall r :: 0 <= r < |entries| && !chunk.IsNull(r) ==>
               entries[r] == Entry(|chunk.Calls(r)|, chunk.Length(r))
    ensures forall r :: 0 <= r < |entries| && !chunk.IsNull(r) ==> Holds(child, entries[r], Apply(chunk.RowCalls(r), f))
  {
    hide Apply, Holds;
    forall r | 0 <= r < |entries| && !chunk.IsNull(r) ensures Holds(child, entries[r], Apply(chunk.RowCalls(r), f)) {
      var before, row := chunk.Calls(r), chunk.RowCalls(r);
      var rest := chunk.SplitCalls(r);
      ApplyAppend(before + row, rest, f);
      ApplyAppend(before, row, f);
      HoldsMiddle(Apply(before, f), Apply(row, f), Apply(rest, f));
    }
  }
}
