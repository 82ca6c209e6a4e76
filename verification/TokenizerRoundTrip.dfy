/** A printed token is tokenized back, whatever follows it that does not continue it. */
module TokenizerRoundTrip {
  import opened Text
  import opened Tokenizer

  datatype Item =
    | Word(text: string)
    | Number(text: string)
    | Symbol(text: string)
    | Str(body: string)
    | Quoted(body: string)

  const SPECIAL: set<string> := {"->>", "::", ":=", "->", "**", "//"}

  /** Words of keyword characters that do not start like a number; numbers that start and
      end in a digit or dot; special operators, single-byte operators other than `$`, and
      operators that do not start with a special one or a comment; any string at all. */
  predicate Admissible(item: Item) {
    match item
    case Word(text) => text != [] && !IsInitialNumber(text[0]) && forall k :: 0 <= k < |text| ==> IsKeyword(text[k])
    case Number(text) =>
      && text != [] && IsInitialNumber(text[0]) && IsInitialNumber(text[|text| - 1])
      && forall k :: 0 <= k < |text| ==> IsNumber(text[k])
    case Symbol(text) =>
      || text in SPECIAL
      || (|text| == 1 && IsSingleByteOperator(text[0]) && text[0] != '$')
      || (text != [] && (forall k :: 0 <= k < |text| ==> IsOperator(text[k])) && OrdinaryStart(text))
    case _ => true
  }

  predicate OrdinaryStart(text: string) {
    |text| >= 2 ==> text[..2] !in {"::", ":=", "->", "**", "//", "/*"}
  }

  function Double(body: string, quote: char): string {
    if body == [] then []
    else (if body[0] == quote then [quote, quote] else [body[0]]) + Double(body[1..], quote)
  }

  function Render(item: Item): (text: string)
    requires Admissible(item)
    ensures text != []
  {
    match item
    case Str(body) => "'" + Double(body, '\'') + "'"
    case Quoted(body) => "\"" + Double(body, '"') + "\""
    case _ => item.text
  }

  /** A number ends behind its last digit or dot, before a character that cannot continue it. */
  predicate StopsNumber(rest: string) {
    rest != [] && (IsNumber(rest[0]) ==> !IsInitialNumber(rest[0]) && StopsNumber(rest[1..]))
  }

  /** The item ends before the text behind it. A word, a number or an ordinary operator at the
      end of the text is its last word. */
  predicate Apart(item: Item, rest: string) {
    match item
    case Word(_) => rest != [] && !IsKeyword(rest[0])
    case Number(_) => StopsNumber(rest)
    case Str(_) => rest == [] || rest[0] != '\''
    case Quoted(_) => rest == [] || rest[0] != '"'
    case Symbol(text) =>
      if text in SPECIAL then rest == [] || text != "->" || rest[0] != '>'
      else if |text| == 1 && IsSingleByteOperator(text[0]) then
        rest == [] || text != "-" || (rest[0] != '-' && rest[0] != '>')
      else rest != [] && !IsOperator(rest[0])
  }

  /** The text that follows a position. */
  function StandardAt(i: nat): State {
    State(Standard, i, i, "")
  }

  /** From a state, the run reports one token and goes on behind it. */
  ghost predicate Yields(sql: string, st: State, start: nat, end: nat)
    requires Valid(sql, st) && start <= end <= |sql|
  {
    var rest := Run(sql, StandardAt(end));
    Run(sql, st) == Outcome([Token(start, end, sql[start..end])] + rest.events, rest.final)
  }

  /** The character continues a keyword or an operator. */
  predicate Continues(mode: Mode, c: char) {
    (mode.Keyword? && IsKeyword(c)) || (mode.Operator? && IsOperator(c))
  }

  lemma WordStep(sql: string, mode: Mode, start: nat, j: nat)
    requires start < j < |sql| && (mode.Keyword? || mode.Operator?)
    ensures var st := State(mode, j, start, "");
            Step(sql, st) == if Continues(mode, sql[j]) then Iteration([], st.(i := j + 1))
                             else Iteration([Token(start, j, sql[start..j])], StandardAt(j))
  {
  }

  /** A keyword or an operator that has begun ends at the first character that does not continue it. */
  lemma {:induction false} WordEnds(sql: string, mode: Mode, start: nat, j: nat, end: nat)
    requires start < j <= end < |sql| && !Continues(mode, sql[end]) && (mode.Keyword? || mode.Operator?)
    requires forall k :: j <= k < end ==> Continues(mode, sql[k])
    ensures Yields(sql, State(mode, j, start, ""), start, end)
    decreases end - j
  {
    hide Run, Step;
    WordStep(sql, mode, start, j);
    Unfold(sql, State(mode, j, start, ""));
    if j < end {
      WordEnds(sql, mode, start, j + 1, end);
    }
  }

  /** Words and longer operators: a first character that starts a mode, then more. */
  lemma TextTokenizes(sql: string, i: nat, text: string, mode: Mode)
    requires text != [] && At(sql, i, text) && (mode.Keyword? || mode.Operator?)
    requires forall k :: 0 <= k < |text| ==> Continues(mode, text[k])
    requires i + |text| < |sql| && !Continues(mode, sql[i + |text|])
    requires Step(sql, StandardAt(i)) == Iteration([], State(mode, i + 1, i, ""))
    ensures Yields(sql, StandardAt(i), i, i + |text|)
  {
    hide Run, Step;
    var end := i + |text|;
    forall k | i <= k < end ensures Continues(mode, sql[k]) {
      AtIndex(sql, i, text, k - i);
    }
    WordEnds(sql, mode, i, i + 1, end);
    Unfold(sql, StandardAt(i));
  }

  lemma KeywordIsPlain(c: char)
    requires IsKeyword(c)
    ensures c != '\'' && c != '"' && c != ';' && c != '$' && c != '-' && c != '/' && c != ':' && c != '*'
    ensures !IsSpace(c) && !IsSingleByteOperator(c) && !IsOperatorCharacter(c)
  {
  }

  lemma KeywordNotSpecial(sql: string, i: nat)
    requires i < |sql| && IsKeyword(sql[i])
    ensures SpecialOperator(sql, i) == 0
  {
    KeywordIsPlain(sql[i]);
    hide IsKeyword;
    if i + 1 < |sql| { assert sql[i..i + 2][0] == sql[i]; }
    if i + 2 < |sql| { assert sql[i..i + 3][0] == sql[i]; }
  }

  lemma KeywordStarts(sql: string, i: nat)
    requires i < |sql| && IsKeyword(sql[i]) && !IsInitialNumber(sql[i])
    ensures Step(sql, StandardAt(i)) == Iteration([], State(Keyword, i + 1, i, ""))
  {
    hide IsKeyword, IsSpace, IsSingleByteOperator, IsOperatorCharacter, SpecialOperator, DollarStart, Advances;
    KeywordIsPlain(sql[i]);
    KeywordNotSpecial(sql, i);
  }

  lemma WordTokenizes(sql: string, i: nat, text: string)
    requires Admissible(Word(text)) && At(sql, i, text)
    requires i + |text| < |sql| && !IsKeyword(sql[i + |text|])
    ensures Yields(sql, StandardAt(i), i, i + |text|)
  {
    hide Step, Yields, IsKeyword;
    AtIndex(sql, i, text, 0);
    KeywordStarts(sql, i);
    TextTokenizes(sql, i, text, Keyword);
  }

  // ----- Numbers -----

  lemma NumberStep(sql: string, i: nat)
    requires i < |sql| && IsInitialNumber(sql[i])
    ensures Step(sql, StandardAt(i)) == Iteration([], State(Numeric, i + 1, i, ""))
  {
  }

  /** A number that has begun goes back to its last digit or dot when it ends. */
  lemma {:induction false} NumberRuns(sql: string, start: nat, j: nat, end: nat, stop: nat)
    requires start < j <= stop < |sql| && start < end <= stop && IsInitialNumber(sql[start])
    requires IsInitialNumber(sql[end - 1]) && (forall k :: end <= k < stop ==> !IsInitialNumber(sql[k]))
    requires !IsNumber(sql[stop]) && forall k :: j <= k < stop ==> IsNumber(sql[k])
    ensures Yields(sql, State(Numeric, j, start, ""), start, end)
    decreases stop - j
  {
    hide Run, Step;
    var st := State(Numeric, j, start, "");
    NumericStep(sql, st);
    Unfold(sql, st);
    if j < stop {
      NumberRuns(sql, start, j + 1, end, stop);
    } else {
      BacktracksTo(sql, start, end, stop);
    }
  }

  lemma BacktracksTo(sql: string, start: nat, end: nat, stop: nat)
    requires start < end <= stop <= |sql| && IsInitialNumber(sql[start]) && IsInitialNumber(sql[end - 1])
    requires forall k :: end <= k < stop ==> !IsInitialNumber(sql[k])
    ensures Backtrack(sql, start, stop) == end
  {
    hide Backtrack, IsInitialNumber;
    var b := Backtrack(sql, start, stop);
    if b < end {
      BacktrackIsLast(sql, start, stop, end - 1);
    }
  }

  lemma NumericStep(sql: string, st: State)
    requires Valid(sql, st) && st.i < |sql| && st.mode.Numeric?
    ensures IsNumber(sql[st.i]) ==> Step(sql, st) == Iteration([], st.(i := st.i + 1))
    ensures var b := Backtrack(sql, st.lastPos, st.i);
            !IsNumber(sql[st.i]) ==>
              Step(sql, st) == Iteration([Token(st.lastPos, b, sql[st.lastPos..b])], State(Standard, b, b, st.marker))
  {
    hide Advances;
  }

  /** Where the characters of a number end. */
  lemma {:induction false} NumberStops(sql: string, i: nat) returns (stop: nat)
    requires i <= |sql| && StopsNumber(sql[i..])
    ensures i <= stop < |sql| && !IsNumber(sql[stop])
    ensures forall k :: i <= k < stop ==> IsNumber(sql[k]) && !IsInitialNumber(sql[k])
    decreases |sql| - i
  {
    hide IsNumber;
    stop := i;
    if IsNumber(sql[i]) {
      assert sql[i..][1..] == sql[i + 1..];
      stop := NumberStops(sql, i + 1);
    }
  }

  lemma NumberTokenizes(sql: string, i: nat, text: string)
    requires Admissible(Number(text)) && At(sql, i, text) && StopsNumber(sql[i + |text|..])
    ensures Yields(sql, StandardAt(i), i, i + |text|)
  {
    hide Run, Step, IsNumber, IsInitialNumber, StopsNumber;
    var end := i + |text|;
    var stop := NumberStops(sql, end);
    AtIndex(sql, i, text, 0);
    AtIndex(sql, i, text, |text| - 1);
    forall k | i <= k < stop ensures IsNumber(sql[k]) {
      if k < end {
        AtIndex(sql, i, text, k - i);
      }
    }
    NumberStep(sql, i);
    Unfold(sql, StandardAt(i));
    NumberRuns(sql, i, i + 1, end, stop);
  }

  // ----- Operators -----

  /** A token reported at once. */
  lemma ImmediateToken(sql: string, i: nat, end: nat)
    requires i < end <= |sql|
    requires Step(sql, StandardAt(i)) == Iteration([Token(i, end, sql[i..end])], StandardAt(end))
    ensures Yields(sql, StandardAt(i), i, end)
  {
    hide Run, Step;
    Unfold(sql, StandardAt(i));
  }

  lemma SpecialTokenizes(sql: string, i: nat, text: string)
    requires text in SPECIAL && At(sql, i, text) && Apart(Symbol(text), sql[i + |text|..])
    ensures Yields(sql, StandardAt(i), i, i + |text|)
  {
    AtIndex(sql, i, text, 0);
    AtIndex(sql, i, text, 1);
    assert SpecialOperator(sql, i) == |text| by {
      if |text| == 3 {
        assert text == "->>";
      } else if i + 2 < |sql| {
        assert sql[i..i + 3][..2] == sql[i..i + 2] == text && "->>"[..2] == "->";
        assert sql[i..i + 3][2] == sql[i + 2..][0] && "->>"[2] == '>';
      }
    }
    assert Step(sql, StandardAt(i)) == Iteration([Token(i, i + |text|, sql[i..i + |text|])], StandardAt(i + |text|));
    ImmediateToken(sql, i, i + |text|);
  }

  lemma SingleByteTokenizes(sql: string, i: nat, c: char)
    requires IsSingleByteOperator(c) && c != '$' && i < |sql| && sql[i] == c
    requires i + 1 < |sql| && c == '-' ==> sql[i + 1] != '-' && sql[i + 1] != '>'
    ensures Yields(sql, StandardAt(i), i, i + 1)
  {
    hide Step, Run, SpecialOperator;
    SingleByteNotSpecial(sql, i);
    assert sql[i..i + 1] == [c];
    SingleByteStep(sql, i);
    ImmediateToken(sql, i, i + 1);
  }

  lemma SingleByteNotSpecial(sql: string, i: nat)
    requires i < |sql| && IsSingleByteOperator(sql[i])
    requires i + 1 < |sql| && sql[i] == '-' ==> sql[i + 1] != '>'
    ensures SpecialOperator(sql, i) == 0
  {
    if i + 1 < |sql| {
      assert sql[i..i + 2][0] == sql[i] && sql[i..i + 2][1] == sql[i + 1];
    }
    if i + 2 < |sql| {
      assert sql[i..i + 3][0] == sql[i] && sql[i..i + 3][1] == sql[i + 1];
    }
  }

  lemma SingleByteStep(sql: string, i: nat)
    requires i < |sql| && IsSingleByteOperator(sql[i]) && sql[i] != '$'
    requires SpecialOperator(sql, i) == 0 && (i + 1 < |sql| && sql[i] == '-' ==> sql[i + 1] != '-')
    ensures Step(sql, StandardAt(i)) == Iteration([Token(i, i + 1, [sql[i]])], StandardAt(i + 1))
  {
    hide SpecialOperator, DollarStart, IsSingleByteOperator;
    SingleByteIsPlain(sql[i]);
  }

  lemma SingleByteIsPlain(c: char)
    requires IsSingleByteOperator(c)
    ensures c != '\'' && c != '"' && c != ';' && c != '/' && !IsSpace(c)
  {
  }

  lemma OperatorTokenizes(sql: string, i: nat, text: string)
    requires text != [] && (forall k :: 0 <= k < |text| ==> IsOperator(text[k])) && OrdinaryStart(text)
    requires At(sql, i, text) && i + |text| < |sql| && !IsOperator(sql[i + |text|])
    ensures Yields(sql, StandardAt(i), i, i + |text|)
  {
    AtIndex(sql, i, text, 0);
    if |text| >= 2 {
      AtIndex(sql, i, text, 1);
      assert text[..2] == [text[0], text[1]];
    }
    OperatorStarts(sql, i);
    TextTokenizes(sql, i, text, Operator);
  }

  lemma OperatorStarts(sql: string, i: nat)
    requires i + 1 < |sql| && IsOperator(sql[i])
    requires IsOperator(sql[i + 1]) ==> OrdinaryStart([sql[i], sql[i + 1]])
    ensures Step(sql, StandardAt(i)) == Iteration([], State(Operator, i + 1, i, ""))
  {
    var two := sql[i..i + 2];
    assert two == [sql[i], sql[i + 1]] && two[..2] == two;
    if i + 2 < |sql| {
      assert sql[i..i + 3][0] == sql[i];
    }
  }

  // ----- Strings and quoted identifiers -----

  predicate QuoteMode(mode: Mode, quote: char) {
    (mode.StringLiteral? && quote == '\'') || (mode.QuotedIdentifier? && quote == '"')
  }

  /** A literal that has begun ends at the quote that is not doubled. */
  lemma {:induction false} QuoteEnds(sql: string, mode: Mode, quote: char, start: nat, j: nat, body: string)
    requires QuoteMode(mode, quote) && start < j && At(sql, j, Double(body, quote) + [quote]) && sql[start] == quote
    requires var end := j + |Double(body, quote)| + 1; end < |sql| ==> sql[end] != quote
    ensures Yields(sql, State(mode, j, start, ""), start, j + |Double(body, quote)| + 1)
    decreases |body|
  {
    hide Yields;
    var text := Double(body, quote) + [quote];
    if body == [] {
      assert text == [quote];
      AtIndex(sql, j, text, 0);
      QuoteStops(sql, mode, quote, start, j);
    } else {
      var head, rest := if body[0] == quote then [quote, quote] else [body[0]], Double(body[1..], quote) + [quote];
      assert text == head + rest;
      AtSplit(sql, j, head, rest);
      QuoteEnds(sql, mode, quote, start, j + |head|, body[1..]);
      AtIndex(sql, j, head, 0);
      if body[0] == quote { AtIndex(sql, j, head, 1); }
      QuoteGoesOn(sql, mode, quote, start, j, |head|, j + |Double(body, quote)| + 1);
    }
  }

  lemma QuoteGoesOn(sql: string, mode: Mode, quote: char, start: nat, j: nat, k: nat, end: nat)
    requires QuoteMode(mode, quote) && start < j < j + k <= end <= |sql| && j + k <= |sql| && sql[start] == quote
    requires (k == 1 && sql[j] != quote) || (k == 2 && sql[j] == sql[j + 1] == quote)
    requires Yields(sql, State(mode, j + k, start, ""), start, end)
    ensures Yields(sql, State(mode, j, start, ""), start, end)
  {
    var st := State(mode, j, start, "");
    assert Step(sql, st) == Iteration([], st.(i := j + k));
    hide Run, Step;
    Unfold(sql, st);
  }

  lemma QuoteStops(sql: string, mode: Mode, quote: char, start: nat, j: nat)
    requires QuoteMode(mode, quote) && start < j < |sql| && sql[start] == quote
    requires sql[j] == quote && (j + 1 < |sql| ==> sql[j + 1] != quote)
    ensures Yields(sql, State(mode, j, start, ""), start, j + 1)
  {
    hide Run, Step;
    var st := State(mode, j, start, "");
    ClosingQuote(sql, mode, quote, start, j);
    Unfold(sql, st);
  }

  lemma ClosingQuote(sql: string, mode: Mode, quote: char, start: nat, j: nat)
    requires QuoteMode(mode, quote) && start < j < |sql| && sql[start] == quote
    requires sql[j] == quote && (j + 1 < |sql| ==> sql[j + 1] != quote)
    ensures Step(sql, State(mode, j, start, "")) ==
            Iteration([Token(start, j + 1, sql[start..j + 1])], StandardAt(j + 1))
  {
    hide Advances;
  }

  lemma QuotedTokenizes(sql: string, i: nat, mode: Mode, quote: char, body: string)
    requires QuoteMode(mode, quote) && At(sql, i, [quote] + Double(body, quote) + [quote])
    requires var end := i + |Double(body, quote)| + 2; end < |sql| ==> sql[end] != quote
    ensures Yields(sql, StandardAt(i), i, i + |Double(body, quote)| + 2)
  {
    hide Run, Step, At, Double, Valid;
    var inner := Double(body, quote);
    assert [quote] + inner + [quote] == [quote] + (inner + [quote]);
    AtSplit(sql, i, [quote], inner + [quote]);
    AtIndex(sql, i, [quote], 0);
    QuoteEnds(sql, mode, quote, i, i + 1, body);
    QuoteOpens(sql, i, mode, quote);
  }

  lemma QuoteOpens(sql: string, i: nat, mode: Mode, quote: char)
    requires QuoteMode(mode, quote) && i < |sql| && sql[i] == quote
    ensures Run(sql, StandardAt(i)) == Run(sql, State(mode, i + 1, i, ""))
  {
    assert Step(sql, StandardAt(i)) == Iteration([], State(mode, i + 1, i, ""));
    hide Run, Step;
    Unfold(sql, StandardAt(i));
  }

  // ----- Items -----

  /** A printed item is tokenized back. */
  lemma ItemTokenizes(sql: string, i: nat, item: Item)
    requires Admissible(item) && At(sql, i, Render(item)) && Apart(item, sql[i + |Render(item)|..])
    ensures Yields(sql, StandardAt(i), i, i + |Render(item)|)
  {
    hide Yields, StopsNumber, IsKeyword, IsOperator, IsNumber, IsSingleByteOperator, At, Double;
    AtValue(sql, i, Render(item));
    var rest := sql[i + |Render(item)|..];
    assert rest != [] ==> rest[0] == sql[i + |Render(item)|];
    match item {
      case Word(text) => WordTokenizes(sql, i, text);
      case Number(text) => NumberTokenizes(sql, i, text);
      case Symbol(text) => SymbolTokenizes(sql, i, text);
      case Str(body) => QuotedTokenizes(sql, i, StringLiteral, '\'', body);
      case Quoted(body) => QuotedTokenizes(sql, i, QuotedIdentifier, '"', body);
    }
  }

  lemma SymbolTokenizes(sql: string, i: nat, text: string)
    requires Admissible(Symbol(text)) && At(sql, i, text) && Apart(Symbol(text), sql[i + |text|..])
    ensures Yields(sql, StandardAt(i), i, i + |text|)
  {
    hide Yields, IsSingleByteOperator, OrdinaryStart;
    if text in SPECIAL {
      SpecialTokenizes(sql, i, text);
    } else if |text| == 1 && IsSingleByteOperator(text[0]) {
      AtIndex(sql, i, text, 0);
      assert text == "-" <==> text[0] == '-';
      SingleByteTokenizes(sql, i, text[0]);
    } else {
      OperatorTokenizes(sql, i, text);
    }
  }
}
