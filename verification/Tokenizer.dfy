/** BaseTokenizer::TokenizeInput and ParserTokenizer (tokenizer.cpp, autocomplete_extension.cpp:619-637):
    a state machine over the characters of a query that goes back when a number, an
    operator or a keyword ends. */
module Tokenizer {
  import opened Text

  /** TokenizeState */
  datatype Mode =
    | Standard | SingleLineComment | MultiLineComment | QuotedIdentifier
    | StringLiteral | Keyword | Numeric | Operator | DollarQuoted

  /** The local variables of TokenizeInput at the head of its loop. */
  datatype State = State(mode: Mode, i: nat, lastPos: nat, marker: string)

  /** What the tokenizer reports: a token that occupies a source range, or a `;`. The text
      of a dollar-quoted string is its contents between single quotes. */
  datatype Event =
    | Token(start: nat, end: nat, text: string)
    | StatementEnd

  const START := State(Standard, 0, 0, "")

  // ----- Scans -----

  /** IsSpecialOperator: the length of the special operator at a position, or 0. */
  function SpecialOperator(sql: string, i: nat): nat
    requires i < |sql|
  {
    if i + 2 < |sql| && sql[i..i + 3] == "->>" then 3
    else if i + 1 < |sql| && sql[i..i + 2] in {"::", ":=", "->", "**", "//"} then 2
    else 0
  }

  /** IsValidDollarTagCharacter */
  predicate IsTagCharacter(c: char) {
    'A' <= c <= 'Z' || 'a' <= c <= 'z' || 128 as char <= c <= 255 as char
  }

  /** The `$` that ends the tag starting at k, or |sql| if there is none. */
  function TagEnd(sql: string, k: nat): (d: nat)
    requires k <= |sql|
    ensures k <= d <= |sql|
    ensures d < |sql| ==> sql[d] == '$'
    ensures forall j :: k <= j < d < |sql| ==> IsTagCharacter(sql[j])
    decreases |sql| - k
  {
    if k == |sql| || sql[k] == '$' then k
    else if !IsTagCharacter(sql[k]) then |sql|
    else TagEnd(sql, k + 1)
  }

  /** The first `$` at or after k, or |sql|. */
  function NextDollar(sql: string, k: nat): (d: nat)
    requires k <= |sql|
    ensures k <= d <= |sql|
    ensures d < |sql| ==> sql[d] == '$'
    ensures forall j :: k <= j < d ==> sql[j] != '$'
    decreases |sql| - k
  {
    if k == |sql| || sql[k] == '$' then k else NextDollar(sql, k + 1)
  }

  /** Back to just after the last digit or dot before i. */
  function Backtrack(sql: string, low: nat, i: nat): (b: nat)
    requires low < i <= |sql| && IsInitialNumber(sql[low])
    ensures low < b <= i && IsInitialNumber(sql[b - 1])
    decreases i
  {
    if IsInitialNumber(sql[i - 1]) then i else Backtrack(sql, low, i - 1)
  }

  lemma {:induction false} BacktrackIsLast(sql: string, low: nat, i: nat, k: nat)
    requires low < i <= |sql| && IsInitialNumber(sql[low]) && Backtrack(sql, low, i) <= k < i
    ensures !IsInitialNumber(sql[k])
    decreases i
  {
    hide IsInitialNumber;
    if k < i - 1 {
      BacktrackIsLast(sql, low, i - 1, k);
    }
  }

  // ----- One iteration -----

  /** What every iteration keeps. */
  predicate Valid(sql: string, st: State) {
    && st.lastPos <= st.i <= |sql|
    && match st.mode {
         case Numeric => st.lastPos < st.i && IsInitialNumber(sql[st.lastPos])
         case Keyword => st.lastPos < st.i
         case Operator => st.lastPos < st.i
         case StringLiteral => st.lastPos < st.i && sql[st.lastPos] == '\''
         case QuotedIdentifier => st.lastPos < st.i && sql[st.lastPos] == '"'
         case DollarQuoted =>
           && st.lastPos + |st.marker| + 2 <= st.i
           && sql[st.lastPos..st.lastPos + |st.marker| + 2] == "$" + st.marker + "$"
           && '$' !in st.marker
         case _ => true
       }
  }

  /** How far the input is committed; a token in progress may still be cut short. */
  function Committed(st: State): nat {
    if st.mode.Numeric? || st.mode.Keyword? || st.mode.Operator? then st.lastPos + 1 else st.i
  }

  /** PushToken: the text between two positions, if there is any. */
  function Push(sql: string, start: nat, end: nat): seq<Event>
    requires end <= |sql|
  {
    if start >= end then [] else [Token(start, end, sql[start..end])]
  }

  /** An iteration: the events it reports and the state at the head of the next one. */
  datatype Iteration = Iteration(events: seq<Event>, next: State)

  /** The next state is valid and nearer to the end, in the order that Run descends by. */
  predicate Advances(sql: string, st: State, next: State) {
    && Valid(sql, next)
    && Committed(st) <= Committed(next)
    && (Committed(st) == Committed(next) ==>
          (!st.mode.Standard? && next.mode.Standard?) || (st.mode == next.mode && st.i < next.i))
  }

  function Step(sql: string, st: State): (it: Iteration)
    requires Valid(sql, st) && st.i < |sql|
    ensures Advances(sql, st, it.next)
  {
    var i, c, n := st.i, sql[st.i], |sql|;
    match st.mode
    case Standard => StandardStep(sql, st)
    case Numeric =>
      if IsNumber(c) then Iteration([], st.(i := i + 1))
      else
        var b := Backtrack(sql, st.lastPos, i);
        Iteration(Push(sql, st.lastPos, b), State(Standard, b, b, st.marker))
    case Operator =>
      if IsOperator(c) then Iteration([], st.(i := i + 1))
      else Iteration(Push(sql, st.lastPos, i), State(Standard, i, i, st.marker))
    case Keyword =>
      if IsKeyword(c) then Iteration([], st.(i := i + 1))
      else Iteration(Push(sql, st.lastPos, i), State(Standard, i, i, st.marker))
    case StringLiteral => QuoteStep(sql, st, '\'')
    case QuotedIdentifier => QuoteStep(sql, st, '"')
    case SingleLineComment =>
      if c == '\n' || c == '\r' then Iteration([], State(Standard, i + 1, i + 1, st.marker))
      else Iteration([], st.(i := i + 1))
    case MultiLineComment =>
      if c == '*' && i + 1 < n && sql[i + 1] == '/' then Iteration([], State(Standard, i + 2, i + 2, st.marker))
      else Iteration([], st.(i := i + 1))
    case DollarQuoted => DollarStep(sql, st)
  }

  function QuoteStep(sql: string, st: State, quote: char): (it: Iteration)
    requires Valid(sql, st) && st.i < |sql|
    requires st.mode.StringLiteral? || st.mode.QuotedIdentifier?
    ensures Advances(sql, st, it.next)
  {
    var i := st.i;
    if sql[i] != quote then Iteration([], st.(i := i + 1))
    else if i + 1 < |sql| && sql[i + 1] == quote then Iteration([], st.(i := i + 2))
    else Iteration(Push(sql, st.lastPos, i + 1), State(Standard, i + 1, i + 1, st.marker))
  }

  function DollarStep(sql: string, st: State): (it: Iteration)
    requires Valid(sql, st) && st.i < |sql| && st.mode.DollarQuoted?
    ensures Advances(sql, st, it.next)
  {
    var i, m := st.i, |st.marker|;
    if sql[i] != '$' || i + 1 >= |sql| then Iteration([], st.(i := i + 1))
    else
      var end := NextDollar(sql, i + 1);
      if end >= |sql| || end - (i + 1) != m || sql[i + 1..i + 1 + m] != st.marker then Iteration([], st.(i := i + 1))
      else
        // cutting the markers off both ends leaves a range: there is no underflow
        var quoted := sql[st.lastPos..i + m + 2];
        var text := "'" + quoted[m + 2..|quoted| - (m + 2)] + "'";
        Iteration([Token(st.lastPos, i + m + 2, text)], State(Standard, end + 1, end + 1, ""))
  }

  /** A `$` starts a string if a tag and another `$` follow; otherwise it is passed over. */
  function DollarStart(sql: string, st: State): (it: Iteration)
    requires Valid(sql, st) && st.i < |sql| && st.mode.Standard? && sql[st.i] == '$'
    ensures Advances(sql, st, it.next)
  {
    var i, n := st.i, |sql|;
    if i + 1 >= n || '0' <= sql[i + 1] <= '9' then Iteration([], st.(i := i + 1))
    else
      var d := TagEnd(sql, i + 1);
      if d == n then Iteration([], st.(lastPos := i, i := i + 1))
      else
        var marker := sql[i + 1..d];
        assert sql[i..i + |marker| + 2] == "$" + marker + "$";
        Iteration([], State(DollarQuoted, d + 1, i, marker))
  }

  function StandardStep(sql: string, st: State): (it: Iteration)
    requires Valid(sql, st) && st.i < |sql| && st.mode.Standard?
    ensures Advances(sql, st, it.next)
  {
    var i, c, n := st.i, sql[st.i], |sql|;
    if c == '\'' then Iteration([], st.(mode := StringLiteral, lastPos := i, i := i + 1))
    else if c == '"' then Iteration([], st.(mode := QuotedIdentifier, lastPos := i, i := i + 1))
    else if c == ';' then Iteration([StatementEnd], st.(lastPos := i + 1, i := i + 1))
    else if c == '$' then DollarStart(sql, st)
    else if c == '-' && i + 1 < n && sql[i + 1] == '-' then Iteration([], st.(mode := SingleLineComment, i := i + 2))
    else if c == '/' && i + 1 < n && sql[i + 1] == '*' then Iteration([], st.(mode := MultiLineComment, i := i + 2))
    else if IsSpace(c) then Iteration([], st.(lastPos := i + 1, i := i + 1))
    else
      var length := SpecialOperator(sql, i);
      if length > 0 then Iteration([Token(i, i + length, sql[i..i + length])],
          st.(lastPos := i + length, i := i + length))
      else if IsSingleByteOperator(c) then Iteration([Token(i, i + 1, [c])], st.(lastPos := i + 1, i := i + 1))
      else
        var mode := if IsInitialNumber(c) then Numeric else if IsOperatorCharacter(c) then Operator else Keyword;
        Iteration([], st.(mode := mode, lastPos := i, i := i + 1))
  }

  // ----- Runs -----

  /** Everything reported from a state on, and the state in which the input ends. */
  datatype Outcome = Outcome(events: seq<Event>, final: State)

  function Run(sql: string, st: State): (out: Outcome)
    requires Valid(sql, st)
    ensures Valid(sql, out.final) && out.final.i == |sql|
    decreases |sql| - Committed(st), if st.mode.Standard? then 0 else 1, |sql| - st.i
  {
    if st.i == |sql| then Outcome([], st)
    else
      var it := Step(sql, st);
      var rest := Run(sql, it.next);
      Outcome(it.events + rest.events, rest.final)
  }

  lemma Unfold(sql: string, st: State)
    requires Valid(sql, st) && st.i < |sql|
    ensures var it := Step(sql, st);
            && (it.events == [] ==> Run(sql, st) == Run(sql, it.next))
            && Run(sql, st) == Outcome(it.events + Run(sql, it.next).events, Run(sql, it.next).final)
  {
    hide Step, Valid;
  }

  lemma RunEnds(sql: string, st: State)
    requires Valid(sql, st) && st.i == |sql|
    ensures Run(sql, st) == Outcome([], st)
  {
  }

  // ----- Where tokens come from -----

  /** The text of a token is its range of the input; that of a dollar-quoted string is the range
      without the marker at both ends, in single quotes. */
  ghost predicate ReadFrom(sql: string, start: nat, end: nat, text: string) {
    && start < end <= |sql|
    && (text == sql[start..end] || exists m: nat :: ReadFromDollars(sql, start, end, text, m))
  }

  predicate ReadFromDollars(sql: string, start: nat, end: nat, text: string, m: nat) {
    && start + m + 2 <= end - (m + 2) < end <= |sql|
    && sql[start] == '$' == sql[start + m + 1]
    && '$' !in sql[start + 1..start + m + 1]
    && sql[end - (m + 2)..end] == sql[start..start + m + 2]
    && text == "'" + sql[start + m + 2..end - (m + 2)] + "'"
  }

  /** The tokens lie in order and apart from each other in [from, to), and each is the text of
      its nonempty range. */
  ghost predicate Ordered(sql: string, events: seq<Event>, from: nat, to: nat) {
    if events == [] then from <= to
    else match events[0]
      case StatementEnd => Ordered(sql, events[1..], from, to)
      case Token(start, end, text) =>
        text != [] && from <= start && ReadFrom(sql, start, end, text) && Ordered(sql, events[1..], end, to)
  }

  lemma {:induction false} OrderedAppend(sql: string, events: seq<Event>, rest: seq<Event>, from: nat, mid: nat,
      to: nat)
    requires Ordered(sql, events, from, mid) && Ordered(sql, rest, mid, to)
    ensures Ordered(sql, events + rest, from, to)
    decreases |events|
  {
    hide ReadFrom;
    if events == [] {
      assert events + rest == rest;
      OrderedFrom(sql, rest, mid, from, to);
    } else {
      assert (events + rest)[1..] == events[1..] + rest;
      match events[0]
      case StatementEnd => OrderedAppend(sql, events[1..], rest, from, mid, to);
      case Token(_, end, _) => OrderedAppend(sql, events[1..], rest, end, mid, to);
    }
  }

  lemma {:induction false} OrderedFrom(sql: string, events: seq<Event>, from: nat, from': nat, to: nat)
    requires Ordered(sql, events, from, to) && from' <= from
    ensures Ordered(sql, events, from', to)
    decreases |events|
  {
    hide ReadFrom;
    if events != [] && events[0].StatementEnd? { OrderedFrom(sql, events[1..], from, from', to); }
  }

  /** One iteration reports at most one event, between the old last_pos and the new one. */
  lemma StepOrdered(sql: string, st: State)
    requires Valid(sql, st) && st.i < |sql|
    ensures var it := Step(sql, st); Ordered(sql, it.events, st.lastPos, it.next.lastPos)
  {
    hide Step;
    var it := Step(sql, st);
    if st.mode.DollarQuoted? {
      if it.events != [] {
        DollarReadFrom(sql, st);
        DollarTest(sql, st);
        ClosingStep(sql, st);
      } else {
        StepMoves(sql, st);
      }
    } else {
      StepReads(sql, st);
    }
    if it.events != [] {
      assert it.events[1..] == [];
    }
  }

  lemma StepMoves(sql: string, st: State)
    requires Valid(sql, st) && st.i < |sql|
    ensures st.lastPos <= Step(sql, st).next.lastPos
  {
    hide TagEnd, NextDollar, SpecialOperator;
  }

  /** Outside dollar-quoted strings, an iteration reports a range that it has passed. */
  lemma StepReads(sql: string, st: State)
    requires Valid(sql, st) && st.i < |sql| && !st.mode.DollarQuoted?
    ensures var it := Step(sql, st);
            && st.lastPos <= it.next.lastPos
            && (it.events in {[], [StatementEnd]} || (
                  && |it.events| == 1 && it.events[0].Token?
                  && var Token(start, end, text) := it.events[0];
                     st.lastPos <= start < end == it.next.lastPos && text == sql[start..end]))
  {
    hide TagEnd, NextDollar;
  }

  lemma DollarReadFrom(sql: string, st: State)
    requires Valid(sql, st) && st.i < |sql| && st.mode.DollarQuoted? && Step(sql, st).events != []
    ensures var t := Step(sql, st).events[0];
            t.Token? && ReadFromDollars(sql, t.start, t.end, t.text, |st.marker|)
  {
    hide Step;
    DollarTest(sql, st);
    ClosingStep(sql, st);
    var low, m := st.lastPos, |st.marker|;
    MarkerOpens(sql, low, st.marker);
  }

  lemma MarkerOpens(sql: string, low: nat, marker: string)
    requires low + |marker| + 2 <= |sql| && sql[low..low + |marker| + 2] == "$" + marker + "$"
    ensures sql[low] == '$' == sql[low + |marker| + 1] && sql[low + 1..low + |marker| + 1] == marker
  {
    var m := |marker|;
    var open := sql[low..low + m + 2];
    assert sql[low] == open[0] && sql[low + m + 1] == open[m + 1];
    SubSlice(sql, low, low + m + 2, 1, m + 1);
    assert open[1..m + 1] == marker;
  }

  /** Every token is the text of its own nonempty range; the ranges are disjoint and in
      increasing order, although numbers, operators and keywords are scanned twice. */
  lemma {:induction false} RunOrdered(sql: string, st: State)
    requires Valid(sql, st)
    ensures Ordered(sql, Run(sql, st).events, st.lastPos, Run(sql, st).final.lastPos)
    decreases |sql| - Committed(st), if st.mode.Standard? then 0 else 1, |sql| - st.i
  {
    hide Step, Ordered;
    if st.i < |sql| {
      var it := Step(sql, st);
      StepOrdered(sql, st);
      RunOrdered(sql, it.next);
      OrderedAppend(sql, it.events, Run(sql, it.next).events, st.lastPos, it.next.lastPos, Run(sql, st).final.lastPos);
    } else {
      NothingOrdered(sql, st.lastPos);
    }
  }

  lemma NothingOrdered(sql: string, from: nat)
    ensures Ordered(sql, [], from, from)
  {
  }

  /** The last word, which OnLastToken receives, lies behind all tokens. */
  lemma LastWordOrdered(sql: string)
    ensures var out := Run(sql, START);
            Ordered(sql, out.events + Push(sql, WordStart(out.final), |sql|), 0, |sql|)
  {
    hide Run, Ordered;
    var out := Run(sql, START);
    RunOrdered(sql, START);
    var start := WordStart(out.final);
    assert Ordered(sql, Push(sql, start, |sql|), out.final.lastPos, |sql|) by {
      WordOrdered(sql, start, out.final.lastPos);
    }
    OrderedAppend(sql, out.events, Push(sql, start, |sql|), 0, out.final.lastPos, |sql|);
  }

  lemma WordOrdered(sql: string, start: nat, from: nat)
    requires from <= start <= |sql|
    ensures Ordered(sql, Push(sql, start, |sql|), from, |sql|)
  {
    if start < |sql| {
      assert Push(sql, start, |sql|)[1..] == [];
    }
  }

  predicate IsDigitOrDot(c: char) {
    c == '.' || 48 <= c as int <= 57
  }

  /** A number reported inside the loop starts and ends with a digit or a dot, and no digit or dot
      is between its end and the place where it could not go on. */
  lemma NumberEnds(sql: string, st: State)
    requires Valid(sql, st) && st.i < |sql| && st.mode.Numeric?
    requires Step(sql, st).events != []
    ensures var t := Step(sql, st).events[0];
            && t.Token? && t.text == sql[t.start..t.end] != []
            && t.start == st.lastPos && t.end <= st.i && Step(sql, st).next == State(Standard, t.end, t.end, st.marker)
            && IsDigitOrDot(t.text[0]) && IsDigitOrDot(t.text[|t.text| - 1])
            && forall k :: t.end <= k < st.i ==> !IsDigitOrDot(sql[k])
  {
    hide Backtrack, Advances;
    var end := Backtrack(sql, st.lastPos, st.i);
    forall k | end <= k < st.i ensures !IsDigitOrDot(sql[k]) {
      BacktrackIsLast(sql, st.lastPos, st.i, k);
    }
  }

  // ----- Dollar-quoted strings -----

  /** `$marker$` occurs at a position. */
  predicate ClosesAt(sql: string, marker: string, k: nat) {
    k + |marker| + 2 <= |sql| && sql[k..k + |marker| + 2] == "$" + marker + "$"
  }

  /** Scanning to the next dollar and comparing is substring search, since a tag holds no
      dollar. */
  lemma DollarTest(sql: string, st: State)
    requires Valid(sql, st) && st.i < |sql| && st.mode.DollarQuoted?
    ensures Step(sql, st).events != [] <==> ClosesAt(sql, st.marker, st.i)
  {
    hide Step, ClosesAt;
    var i, m := st.i, |st.marker|;
    DollarEvents(sql, st);
    if ClosesAt(sql, st.marker, i) { MarkerFound(sql, st.marker, i); }
    if sql[i] == '$' && i + 1 + m < |sql| && sql[i + 1..i + 1 + m] == st.marker && sql[i + 1 + m] == '$' {
      MarkerHere(sql, st.marker, i);
    }
  }

  lemma DollarEvents(sql: string, st: State)
    requires Valid(sql, st) && st.i < |sql| && st.mode.DollarQuoted?
    ensures var i, m := st.i, |st.marker|;
            Step(sql, st).events != [] <==>
            && sql[i] == '$' && i + 1 + m < |sql| && NextDollar(sql, i + 1) == i + 1 + m
            && sql[i + 1..i + 1 + m] == st.marker
  {
    hide NextDollar, Advances;
  }

  lemma MarkerFound(sql: string, marker: string, i: nat)
    requires ClosesAt(sql, marker, i) && '$' !in marker
    ensures i + 1 + |marker| < |sql| && sql[i] == '$' && sql[i + 1..i + 1 + |marker|] == marker
    ensures NextDollar(sql, i + 1) == i + 1 + |marker|
  {
    hide NextDollar;
    MarkerOpens(sql, i, marker);
    var inside := sql[i + 1..i + 1 + |marker|];
    assert forall j :: i + 1 <= j < i + 1 + |marker| ==> sql[j] == inside[j - (i + 1)];
    assert NextDollar(sql, i + 1) >= i + 1;
  }

  lemma MarkerHere(sql: string, marker: string, i: nat)
    requires i + 1 + |marker| < |sql| && sql[i] == '$' == sql[i + 1 + |marker|]
    requires sql[i + 1..i + 1 + |marker|] == marker
    ensures ClosesAt(sql, marker, i)
  {
    assert sql[i..i + |marker| + 2] == [sql[i]] + sql[i + 1..i + 1 + |marker|] + [sql[i + |marker| + 1]];
  }

  lemma SubSlice<T>(s: seq<T>, a: nat, b: nat, x: nat, y: nat)
    requires x <= y && a + y <= b <= |s|
    ensures s[a..b][x..y] == s[a + x..a + y]
  {
    var l, r := s[a..b][x..y], s[a + x..a + y];
    assert |l| == |r| && forall k :: 0 <= k < |l| ==> l[k] == r[k];
  }

  /** A dollar-quoted string closes at the first later occurrence of its marker, and its
      token is exactly the text in between, in single quotes. */
  lemma {:induction false} DollarCloses(sql: string, st: State, k: nat)
    requires Valid(sql, st) && st.mode.DollarQuoted? && st.i <= k
    requires ClosesAt(sql, st.marker, k) && forall j :: st.i <= j < k ==> !ClosesAt(sql, st.marker, j)
    ensures var m := |st.marker|;
            var rest := Run(sql, State(Standard, k + m + 2, k + m + 2, ""));
            var text := "'" + sql[st.lastPos + m + 2..k] + "'";
            Run(sql, st) == Outcome([Token(st.lastPos, k + m + 2, text)] + rest.events, rest.final)
    decreases k - st.i
  {
    hide Run, Step;
    if st.i == k {
      ClosingStep(sql, st);
      Unfold(sql, st);
    } else {
      DollarGoesOn(sql, st);
      DollarCloses(sql, st.(i := st.i + 1), k);
    }
  }

  lemma DollarGoesOn(sql: string, st: State)
    requires Valid(sql, st) && st.i < |sql| && st.mode.DollarQuoted? && !ClosesAt(sql, st.marker, st.i)
    ensures Valid(sql, st.(i := st.i + 1)) && Run(sql, st) == Run(sql, st.(i := st.i + 1))
  {
    OpenStep(sql, st);
    hide Run, Step;
    Unfold(sql, st);
  }

  lemma ClosingStep(sql: string, st: State)
    requires Valid(sql, st) && st.i < |sql| && st.mode.DollarQuoted? && ClosesAt(sql, st.marker, st.i)
    ensures var i, m := st.i, |st.marker|;
            Step(sql, st) == Iteration([Token(st.lastPos, i + m + 2, "'" + sql[st.lastPos + m + 2..i] + "'")],
                                       State(Standard, i + m + 2, i + m + 2, ""))
  {
    hide NextDollar;
    var i, m := st.i, |st.marker|;
    MarkerFound(sql, st.marker, i);
    SubSlice(sql, st.lastPos, i + m + 2, m + 2, i - st.lastPos);
  }

  lemma OpenStep(sql: string, st: State)
    requires Valid(sql, st) && st.i < |sql| && st.mode.DollarQuoted? && !ClosesAt(sql, st.marker, st.i)
    ensures Step(sql, st) == Iteration([], st.(i := st.i + 1))
  {
    DollarTest(sql, st);
  }

  /** Without such an occurrence the rest of the input stays inside the string. */
  lemma {:induction false} DollarStaysOpen(sql: string, st: State)
    requires Valid(sql, st) && st.mode.DollarQuoted?
    requires forall j :: st.i <= j ==> !ClosesAt(sql, st.marker, j)
    ensures Run(sql, st) == Outcome([], st.(i := |sql|))
    decreases |sql| - st.i
  {
    if st.i < |sql| {
      DollarGoesOn(sql, st);
      DollarStaysOpen(sql, st.(i := st.i + 1));
    }
  }

  // ----- The code -----

  /** The statements closed by `;` and the tokens after the last one. */
  datatype Collected = Collected(statements: seq<seq<string>>, tokens: seq<string>)

  /** ParserTokenizer: what its callbacks make of the events. */
  function Collect(events: seq<Event>, c: Collected): Collected {
    if events == [] then c
    else Collect(events[1..], Receive(events[0], c))
  }

  function Receive(e: Event, c: Collected): Collected {
    match e
    case Token(_, _, text) => c.(tokens := c.tokens + [text])
    case StatementEnd => Collected(c.statements + [c.tokens], [])
  }

  lemma {:induction false} CollectAppend(a: seq<Event>, b: seq<Event>, c: Collected)
    ensures Collect(a + b, c) == Collect(b, Collect(a, c))
    decreases |a|
  {
    if a == [] {
      assert a + b == b;
    } else {
      assert (a + b)[1..] == a[1..] + b;
      CollectAppend(a[1..], b, Receive(a[0], c));
    }
  }

  /** Where the last word starts: the quote of an unfinished string is left out. */
  function WordStart(final: State): nat {
    if final.mode.StringLiteral? then final.lastPos + 1 else final.lastPos
  }

  /** The word after the last token, which OnLastToken receives. */
  function LastWord(sql: string, final: State): string
    requires Valid(sql, final) && final.i == |sql|
  {
    sql[WordStart(final)..]
  }

  method FindTagEnd(sql: string, k: nat) returns (d: nat)
    requires k <= |sql|
    ensures d == TagEnd(sql, k)
  {
    d := k;
    while d < |sql| && sql[d] != '$'
      invariant k <= d <= |sql| && TagEnd(sql, d) == TagEnd(sql, k)
    {
      if !IsTagCharacter(sql[d]) {
        return |sql|;
      }
      d := d + 1;
    }
  }

  method FindDollar(sql: string, k: nat) returns (d: nat)
    requires k <= |sql|
    ensures d == NextDollar(sql, k)
  {
    d := k;
    while d < |sql| && sql[d] != '$'
      invariant k <= d <= |sql| && NextDollar(sql, d) == NextDollar(sql, k)
    {
      d := d + 1;
    }
  }

  class ParserTokenizer {
    const sql: string
    var tokens: seq<string>
    var statements: seq<seq<string>>

    constructor (sql: string)
      ensures this.sql == sql && tokens == [] && statements == []
    {
      this.sql := sql;
      tokens, statements := [], [];
    }

    ghost function View(): Collected
      reads this
    {
      Collected(statements, tokens)
    }

    method PushToken(start: nat, end: nat)
      requires end <= |sql|
      modifies this`tokens
      ensures View() == Collect(Push(sql, start, end), old(View()))
    {
      if start >= end {
        return;
      }
      tokens := tokens + [sql[start..end]];
    }

    method OnStatementEnd()
      modifies this
      ensures View() == Collect([StatementEnd], old(View()))
    {
      statements := statements + [tokens];
      tokens := [];
    }

    /** BaseTokenizer::TokenizeInput; false if the input ends in a comment. */
    method TokenizeInput() returns (complete: bool)
      modifies this
      ensures var out := Run(sql, START);
              var c := Collect(out.events, old(View()));
              var word := LastWord(sql, out.final);
              && complete == !(out.final.mode.SingleLineComment? || out.final.mode.MultiLineComment?)
              && View() == if complete && word != [] then c.(tokens := c.tokens + [word]) else c
    {
      var st := START;
      while st.i < |sql|
        invariant Valid(sql, st)
        invariant Collect(Run(sql, st).events, View()) == Collect(Run(sql, START).events, old(View()))
        invariant Run(sql, st).final == Run(sql, START).final
        decreases |sql| - Committed(st), if st.mode.Standard? then 0 else 1, |sql| - st.i
      {
        CollectAppend(Step(sql, st).events, Run(sql, Step(sql, st).next).events, View());
        if st.mode.Standard? {
          st := ReadStandard(st);
        } else {
          st := ReadInside(st);
        }
      }
      if st.mode.SingleLineComment? || st.mode.MultiLineComment? {
        return false;
      }
      var lastPos := if st.mode.StringLiteral? then st.lastPos + 1 else st.lastPos;
      if sql[lastPos..] != [] {
        tokens := tokens + [sql[lastPos..]];
      }
      return true;
    }

    /** The body of the loop in the standard state. */
    method ReadStandard(st: State) returns (next: State)
      requires Valid(sql, st) && st.i < |sql| && st.mode.Standard?
      modifies this
      ensures next == Step(sql, st).next && View() == Collect(Step(sql, st).events, old(View()))
    {
      hide Valid, DollarStart;
      var i := st.i;
      var c := sql[i];
      if c == '\'' {
        return st.(mode := StringLiteral, lastPos := i, i := i + 1);
      }
      if c == '"' {
        return st.(mode := QuotedIdentifier, lastPos := i, i := i + 1);
      }
      if c == ';' {
        OnStatementEnd();
        return st.(lastPos := i + 1, i := i + 1);
      }
      if c == '$' {
        next := ReadDollar(st);
        return;
      }
      if c == '-' && i + 1 < |sql| && sql[i + 1] == '-' {
        return st.(mode := SingleLineComment, i := i + 2);
      }
      if c == '/' && i + 1 < |sql| && sql[i + 1] == '*' {
        return st.(mode := MultiLineComment, i := i + 2);
      }
      if IsSpace(c) {
        return st.(lastPos := i + 1, i := i + 1);
      }
      var length := SpecialOperator(sql, i);
      if length > 0 {
        tokens := tokens + [sql[i..i + length]];
        return st.(lastPos := i + length, i := i + length);
      }
      if IsSingleByteOperator(c) {
        tokens := tokens + [[c]];
        return st.(lastPos := i + 1, i := i + 1);
      }
      if IsInitialNumber(c) {
        return st.(mode := Numeric, lastPos := i, i := i + 1);
      }
      if IsOperatorCharacter(c) {
        return st.(mode := Operator, lastPos := i, i := i + 1);
      }
      return st.(mode := Keyword, lastPos := i, i := i + 1);
    }

    method ReadDollar(st: State) returns (next: State)
      requires Valid(sql, st) && st.i < |sql| && st.mode.Standard? && sql[st.i] == '$'
      ensures next == DollarStart(sql, st).next && DollarStart(sql, st).events == []
    {
      var i := st.i;
      if i + 1 >= |sql| || '0' <= sql[i + 1] <= '9' {
        return st.(i := i + 1);
      }
      var nextDollar := FindTagEnd(sql, i + 1);
      if nextDollar == |sql| {
        return st.(lastPos := i, i := i + 1);
      }
      return State(DollarQuoted, nextDollar + 1, i, sql[i + 1..nextDollar]);
    }

    /** The body of the loop in the other states. */
    method ReadInside(st: State) returns (next: State)
      requires Valid(sql, st) && st.i < |sql| && !st.mode.Standard?
      modifies this
      ensures next == Step(sql, st).next && View() == Collect(Step(sql, st).events, old(View()))
    {
      var i := st.i;
      var c := sql[i];
      next := st.(i := i + 1);
      match st.mode {
        case Numeric =>
          if !IsNumber(c) {
            while !IsInitialNumber(sql[i - 1])
              invariant st.lastPos < i <= |sql| && Backtrack(sql, st.lastPos, i) == Backtrack(sql, st.lastPos, st.i)
              decreases i
            {
              i := i - 1;
            }
            PushToken(st.lastPos, i);
            next := State(Standard, i, i, st.marker);
          }
        case Operator =>
          if !IsOperator(c) {
            PushToken(st.lastPos, i);
            next := State(Standard, i, i, st.marker);
          }
        case Keyword =>
          if !IsKeyword(c) {
            PushToken(st.lastPos, i);
            next := State(Standard, i, i, st.marker);
          }
        case StringLiteral => next := ReadQuoted(st, '\'');
        case QuotedIdentifier => next := ReadQuoted(st, '"');
        case SingleLineComment =>
          if c == '\n' || c == '\r' {
            next := State(Standard, i + 1, i + 1, st.marker);
          }
        case MultiLineComment =>
          if c == '*' && i + 1 < |sql| && sql[i + 1] == '/' {
            next := State(Standard, i + 2, i + 2, st.marker);
          }
        case DollarQuoted => next := ReadDollarQuoted(st);
      }
    }

    method ReadQuoted(st: State, quote: char) returns (next: State)
      requires Valid(sql, st) && st.i < |sql| && (st.mode.StringLiteral? || st.mode.QuotedIdentifier?)
      modifies this`tokens
      ensures next == QuoteStep(sql, st, quote).next && View() == Collect(QuoteStep(sql, st, quote).events, old(View()))
    {
      var i := st.i;
      next := st.(i := i + 1);
      if sql[i] == quote {
        if i + 1 < |sql| && sql[i + 1] == quote {
          next := st.(i := i + 2);
        } else {
          PushToken(st.lastPos, i + 1);
          next := State(Standard, i + 1, i + 1, st.marker);
        }
      }
    }

    method ReadDollarQuoted(st: State) returns (next: State)
      requires Valid(sql, st) && st.i < |sql| && st.mode.DollarQuoted?
      modifies this`tokens
      ensures next == DollarStep(sql, st).next && View() == Collect(DollarStep(sql, st).events, old(View()))
    {
      next := st.(i := st.i + 1);
      if sql[st.i] != '$' || st.i + 1 >= |sql| {
        return;
      }
      var start := st.i + 1;
      var end := FindDollar(sql, start);
      if end >= |sql| || end - start != |st.marker| || sql[start..start + |st.marker|] != st.marker {
        return;
      }
      var fullMarker := |st.marker| + 2;
      var quoted := sql[st.lastPos..start + |st.marker| + 1];
      tokens := tokens + ["'" + quoted[fullMarker..|quoted| - fullMarker] + "'"];
      next := State(Standard, end + 1, end + 1, "");
    }
  }
}
