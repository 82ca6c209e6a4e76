/** Statements, comments and dollar-quoted strings: what is written is tokenized back. */
module TokenizerStatements {
  import opened Text
  import opened Tokenizer
  import opened TokenizerRoundTrip

  // ----- Comments -----

  /** A line comment ends at its first line end. */
  lemma {:induction false} LineCommentCloses(sql: string, st: State, k: nat)
    requires Valid(sql, st) && st.mode.SingleLineComment? && st.i <= k < |sql|
    requires (sql[k] == '\n' || sql[k] == '\r') && forall j :: st.i <= j < k ==> sql[j] != '\n' && sql[j] != '\r'
    ensures Run(sql, st) == Run(sql, State(Standard, k + 1, k + 1, st.marker))
    decreases k - st.i
  {
    hide Run, Step;
    CommentStep(sql, st);
    Unfold(sql, st);
    if st.i < k {
      LineCommentCloses(sql, st.(i := st.i + 1), k);
    }
  }

  predicate ClosesBlock(sql: string, k: nat) {
    k + 1 < |sql| && sql[k] == '*' && sql[k + 1] == '/'
  }

  /** A block comment ends at its first closing mark. */
  lemma {:induction false} BlockCommentCloses(sql: string, st: State, k: nat)
    requires Valid(sql, st) && st.mode.MultiLineComment? && st.i <= k
    requires ClosesBlock(sql, k) && forall j :: st.i <= j < k ==> !ClosesBlock(sql, j)
    ensures Run(sql, st) == Run(sql, State(Standard, k + 2, k + 2, st.marker))
    decreases k - st.i
  {
    hide Run, Step;
    CommentStep(sql, st);
    Unfold(sql, st);
    if st.i < k {
      assert !ClosesBlock(sql, st.i);
      BlockCommentCloses(sql, st.(i := st.i + 1), k);
    }
  }

  lemma CommentStep(sql: string, st: State)
    requires Valid(sql, st) && st.i < |sql| && (st.mode.SingleLineComment? || st.mode.MultiLineComment?)
    ensures var i := st.i;
            Step(sql, st) == Iteration([],
              if st.mode.SingleLineComment? && (sql[i] == '\n' || sql[i] == '\r')
              then State(Standard, i + 1, i + 1, st.marker)
              else if st.mode.MultiLineComment? && ClosesBlock(sql, i) then State(Standard, i + 2, i + 2, st.marker)
              else st.(i := i + 1))
  {
    hide Advances;
  }

  /** Without an end, the rest of the input is a comment. */
  lemma {:induction false} CommentStaysOpen(sql: string, st: State)
    requires Valid(sql, st) && (st.mode.SingleLineComment? || st.mode.MultiLineComment?)
    requires st.mode.SingleLineComment? ==> forall j :: st.i <= j < |sql| ==> sql[j] != '\n' && sql[j] != '\r'
    requires st.mode.MultiLineComment? ==> forall j :: st.i <= j < |sql| ==> !ClosesBlock(sql, j)
    ensures Run(sql, st) == Outcome([], st.(i := |sql|))
    decreases |sql| - st.i
  {
    hide Run, Step;
    if st.i == |sql| {
      RunEnds(sql, st);
    } else {
      CommentStep(sql, st);
      Unfold(sql, st);
      CommentStaysOpen(sql, st.(i := st.i + 1));
    }
  }

  // ----- Parts of a text -----

  datatype Part =
    | Single(item: Item)
    | DollarQuote(tag: string, body: string)
    | Semicolon
    | LineComment(text: string, end: char)
    | BlockComment(text: string)
    | Blank(c: char)

  function Marker(tag: string): string {
    "$" + tag + "$"
  }

  /** ASCII letters and the bytes above ASCII. */
  predicate IsTagLetter(c: char) {
    var code := c as int;
    65 <= code <= 90 || 97 <= code <= 122 || 128 <= code <= 255
  }

  /** A part that ends where it is written to end. */
  ghost predicate Sound(part: Part) {
    match part
    case Single(item) => Admissible(item)
    case DollarQuote(tag, body) =>
      && (forall k :: 0 <= k < |tag| ==> IsTagLetter(tag[k]))
      && forall k :: 0 <= k < |body| ==> !ClosesAt(body + Marker(tag), tag, k)
    case LineComment(text, end) =>
      (end == '\n' || end == '\r') && forall k :: 0 <= k < |text| ==> text[k] != '\n' && text[k] != '\r'
    case BlockComment(text) => forall k :: 0 <= k < |text| ==> !ClosesBlock(text + "*/", k)
    case Blank(c) => IsSpace(c)
    case Semicolon => true
  }

  ghost function Write(part: Part): string
    requires Sound(part)
  {
    match part
    case Single(item) => Render(item)
    case DollarQuote(tag, body) => Marker(tag) + (body + Marker(tag))
    case Semicolon => ";"
    case LineComment(text, end) => "--" + (text + [end])
    case BlockComment(text) => "/*" + (text + "*/")
    case Blank(c) => [c]
  }

  /** The parts one after another, and the text behind them. */
  ghost function WriteAll(parts: seq<Part>, tail: string): string
    requires AllSound(parts)
  {
    if parts == [] then tail else Write(parts[0]) + WriteAll(parts[1..], tail)
  }

  ghost predicate AllSound(parts: seq<Part>) {
    forall k :: 0 <= k < |parts| ==> Sound(parts[k])
  }

  /** Every item ends before the text behind it; white space is only needed where it would not. */
  ghost predicate AllApart(parts: seq<Part>, tail: string)
    requires AllSound(parts)
  {
    parts == [] || (
      && (parts[0].Single? ==> Apart(parts[0].item, WriteAll(parts[1..], tail)))
      && AllApart(parts[1..], tail))
  }

  /** The statements that the parts make up. */
  ghost function Gather(parts: seq<Part>, c: Collected): Collected
    requires AllSound(parts)
  {
    if parts == [] then c
    else Gather(parts[1..],
      match parts[0]
      case Single(item) => c.(tokens := c.tokens + [Render(item)])
      case DollarQuote(_, body) => c.(tokens := c.tokens + ["'" + body + "'"])
      case Semicolon => Collected(c.statements + [c.tokens], [])
      case _ => c)
  }

  // ----- One part -----

  /** The events that a part reports. */
  ghost function Reports(part: Part, i: nat): seq<Event>
    requires Sound(part)
  {
    match part
    case Single(item) => [Token(i, i + |Render(item)|, Render(item))]
    case DollarQuote(_, body) => [Token(i, i + |Write(part)|, "'" + body + "'")]
    case Semicolon => [StatementEnd]
    case _ => []
  }

  /** The run from i reports some events and goes on at another position. */
  ghost predicate GoesOn(sql: string, i: nat, events: seq<Event>, end: nat)
    requires i <= |sql| && end <= |sql|
  {
    var rest := Run(sql, StandardAt(end));
    Run(sql, StandardAt(i)) == Outcome(events + rest.events, rest.final)
  }

  lemma PartRuns(sql: string, i: nat, part: Part)
    requires Sound(part) && At(sql, i, Write(part))
    requires part.Single? ==> Apart(part.item, sql[i + |Write(part)|..])
    ensures i + |Write(part)| <= |sql| && GoesOn(sql, i, Reports(part, i), i + |Write(part)|)
  {
    hide Run, Step, Render, Admissible, At, Apart;
    AtValue(sql, i, Write(part));
    match part {
      case Single(item) => ItemTokenizes(sql, i, item);
      case DollarQuote(tag, body) => DollarRuns(sql, i, tag, body);
      case Semicolon => SemicolonRuns(sql, i);
      case LineComment(text, end) => LineRuns(sql, i, text, end);
      case BlockComment(text) => BlockRuns(sql, i, text);
      case Blank(c) => BlankRuns(sql, i, c);
    }
  }

  /** A semicolon ends a statement. */
  lemma SemicolonRuns(sql: string, i: nat)
    requires At(sql, i, ";")
    ensures i < |sql| && GoesOn(sql, i, [StatementEnd], i + 1)
  {
    hide Run;
    AtIndex(sql, i, ";", 0);
    assert Step(sql, StandardAt(i)) == Iteration([StatementEnd], StandardAt(i + 1));
    Unfold(sql, StandardAt(i));
  }

  lemma BlankRuns(sql: string, i: nat, c: char)
    requires IsSpace(c) && At(sql, i, [c])
    ensures i < |sql| && GoesOn(sql, i, [], i + 1)
  {
    hide Run;
    AtIndex(sql, i, [c], 0);
    assert Step(sql, StandardAt(i)) == Iteration([], StandardAt(i + 1));
    Unfold(sql, StandardAt(i));
    NoEvents(Run(sql, StandardAt(i + 1)));
  }

  lemma NoEvents(out: Outcome)
    ensures Outcome([] + out.events, out.final) == out
  {
    assert [] + out.events == out.events;
  }

  lemma LineRuns(sql: string, i: nat, text: string, end: char)
    requires Sound(LineComment(text, end)) && At(sql, i, "--" + (text + [end]))
    ensures i + |text| + 3 <= |sql| && GoesOn(sql, i, [], i + |text| + 3)
  {
    hide Run, Step, At;
    AtValue(sql, i, "--" + (text + [end]));
    AtSplit(sql, i, "--", text + [end]);
    AtIndex(sql, i, "--", 0);
    AtIndex(sql, i, "--", 1);
    CommentOpens(sql, i);
    forall k | 0 <= k <= |text| ensures sql[i + 2 + k] == (text + [end])[k] {
      AtIndex(sql, i + 2, text + [end], k);
    }
    assert sql[i + 2 + |text|] == end;
    assert forall j :: i + 2 <= j < i + 2 + |text| ==> sql[j] == text[j - (i + 2)];
    LineCommentCloses(sql, State(SingleLineComment, i + 2, i, ""), i + 2 + |text|);
    NoEvents(Run(sql, StandardAt(i + |text| + 3)));
  }

  lemma CommentOpens(sql: string, i: nat)
    requires i + 1 < |sql| && ((sql[i] == '-' && sql[i + 1] == '-') || (sql[i] == '/' && sql[i + 1] == '*'))
    ensures Run(sql, StandardAt(i)) ==
            Run(sql, State(if sql[i] == '-' then SingleLineComment else MultiLineComment, i + 2, i, ""))
  {
    hide Run;
    var st := State(if sql[i] == '-' then SingleLineComment else MultiLineComment, i + 2, i, "");
    assert Step(sql, StandardAt(i)) == Iteration([], st);
    Unfold(sql, StandardAt(i));
  }

  lemma BlockRuns(sql: string, i: nat, text: string)
    requires Sound(BlockComment(text)) && At(sql, i, "/*" + (text + "*/"))
    ensures i + |text| + 4 <= |sql| && GoesOn(sql, i, [], i + |text| + 4)
  {
    hide Run, Step, At;
    var inner := text + "*/";
    AtValue(sql, i, "/*" + inner);
    AtSplit(sql, i, "/*", inner);
    AtIndex(sql, i, "/*", 0);
    AtIndex(sql, i, "/*", 1);
    CommentOpens(sql, i);
    forall k | 0 <= k < |inner| ensures sql[i + 2 + k] == inner[k] {
      AtIndex(sql, i + 2, inner, k);
    }
    assert sql[i + 2 + |text|] == '*' && sql[i + 2 + |text| + 1] == '/';
    forall j | i + 2 <= j < i + 2 + |text| ensures !ClosesBlock(sql, j) {
      var k := j - (i + 2);
      assert !ClosesBlock(inner, k) && sql[i + 2 + k] == inner[k] && sql[i + 2 + (k + 1)] == inner[k + 1];
    }
    BlockCommentCloses(sql, State(MultiLineComment, i + 2, i, ""), i + 2 + |text|);
    NoEvents(Run(sql, StandardAt(i + |text| + 4)));
  }

  // ----- Dollar-quoted strings -----

  lemma {:induction false} TagEndAt(sql: string, k: nat, tag: string)
    requires At(sql, k, tag + "$") && forall j :: 0 <= j < |tag| ==> IsTagLetter(tag[j])
    ensures TagEnd(sql, k) == k + |tag|
    decreases |tag|
  {
    AtIndex(sql, k, tag + "$", 0);
    if tag != [] {
      assert tag + "$" == [tag[0]] + (tag[1..] + "$");
      AtSplit(sql, k, [tag[0]], tag[1..] + "$");
      TagEndAt(sql, k + 1, tag[1..]);
    }
  }

  /** A dollar, a tag and another dollar open a string. */
  lemma StringOpens(sql: string, i: nat, tag: string)
    requires At(sql, i, Marker(tag)) && forall j :: 0 <= j < |tag| ==> IsTagLetter(tag[j])
    ensures i + |tag| + 2 <= |sql| && Valid(sql, State(DollarQuoted, i + |tag| + 2, i, tag))
    ensures Run(sql, StandardAt(i)) == Run(sql, State(DollarQuoted, i + |tag| + 2, i, tag))
  {
    hide Run, Step, TagEnd, At;
    AtValue(sql, i, Marker(tag));
    TagAt(sql, i, tag);
    OpeningStep(sql, i, tag);
    Unfold(sql, StandardAt(i));
  }

  lemma TagAt(sql: string, i: nat, tag: string)
    requires At(sql, i, Marker(tag)) && forall j :: 0 <= j < |tag| ==> IsTagLetter(tag[j])
    ensures i + |tag| + 2 <= |sql| && sql[i] == '$' && TagEnd(sql, i + 1) == i + 1 + |tag|
    ensures sql[i + 1..i + 1 + |tag|] == tag && '$' !in tag && !('0' <= sql[i + 1] <= '9')
  {
    hide TagEnd, At;
    AtValue(sql, i, Marker(tag));
    assert Marker(tag) == "$" + (tag + "$");
    AtSplit(sql, i, "$", tag + "$");
    AtIndex(sql, i, "$", 0);
    AtIndex(sql, i + 1, tag + "$", 0);
    TagEndAt(sql, i + 1, tag);
    AtSplit(sql, i + 1, tag, "$");
    AtValue(sql, i + 1, tag);
  }

  lemma OpeningStep(sql: string, i: nat, tag: string)
    requires i + |tag| + 2 <= |sql| && sql[i] == '$' && TagEnd(sql, i + 1) == i + 1 + |tag|
    requires sql[i + 1..i + 1 + |tag|] == tag && !('0' <= sql[i + 1] <= '9')
    ensures Step(sql, StandardAt(i)) == Iteration([], State(DollarQuoted, i + |tag| + 2, i, tag))
  {
    hide TagEnd, Advances, SpecialOperator, IsSingleByteOperator;
  }

  lemma DollarRuns(sql: string, i: nat, tag: string, body: string)
    requires Sound(DollarQuote(tag, body)) && At(sql, i, Marker(tag) + (body + Marker(tag)))
    ensures var end := i + |Write(DollarQuote(tag, body))|;
            end <= |sql| && GoesOn(sql, i, [Token(i, end, "'" + body + "'")], end)
  {
    hide Run, Step, At, ClosesAt;
    var inner, m := body + Marker(tag), |tag| + 2;
    AtValue(sql, i, Marker(tag) + inner);
    AtSplit(sql, i, Marker(tag), inner);
    StringOpens(sql, i, tag);
    FirstClose(sql, i + m, tag, body);
    var st := State(DollarQuoted, i + m, i, tag);
    DollarCloses(sql, st, i + m + |body|);
  }

  lemma FirstClose(sql: string, i: nat, tag: string, body: string)
    requires At(sql, i, body + Marker(tag)) && forall k :: 0 <= k < |body| ==> !ClosesAt(body + Marker(tag), tag, k)
    ensures ClosesAt(sql, tag, i + |body|) && forall j :: i <= j < i + |body| ==> !ClosesAt(sql, tag, j)
    ensures i + |body| <= |sql| && sql[i..i + |body|] == body
  {
    AtSplit(sql, i, body, Marker(tag));
    forall j | i <= j < i + |body| ensures !ClosesAt(sql, tag, j) {
      ClosesInside(sql, i, tag, body, j - i);
    }
  }

  lemma ClosesInside(sql: string, i: nat, tag: string, body: string, k: nat)
    requires At(sql, i, body + Marker(tag)) && k < |body|
    ensures ClosesAt(sql, tag, i + k) <==> ClosesAt(body + Marker(tag), tag, k)
  {
    var inner, m := body + Marker(tag), |tag| + 2;
    SliceOfSlice(sql, i, |inner|, k, m);
  }

  lemma SliceOfSlice(s: string, i: nat, n: nat, k: nat, m: nat)
    requires i + n <= |s| && k + m <= n
    ensures s[i..i + n][k..k + m] == s[i + k..i + k + m]
  {
    var a, b := s[i..i + n][k..k + m], s[i + k..i + k + m];
    forall x | 0 <= x < m ensures a[x] == b[x] {
      assert a[x] == s[i..i + n][k + x] == s[i + (k + x)];
    }
    assert a == b;
  }

  // ----- All parts -----

  lemma Behind(sql: string, i: nat, piece: string, rest: string)
    requires i <= |sql| && sql[i..] == piece + rest
    ensures At(sql, i, piece) && i + |piece| == |sql| - |rest| && sql[i + |piece|..] == rest
  {
    var n := |piece|;
    assert |sql[i..]| == n + |rest|;
    assert sql[i..i + n] == sql[i..][..n] == piece;
    assert sql[i + n..] == sql[i..][n..] == rest;
  }

  lemma {:induction false} PartsRun(sql: string, i: nat, parts: seq<Part>, tail: string, c: Collected)
    requires AllSound(parts) && AllApart(parts, tail) && i <= |sql| && sql[i..] == WriteAll(parts, tail)
    ensures |tail| <= |sql|
    ensures var first, rest := Run(sql, StandardAt(i)), Run(sql, StandardAt(|sql| - |tail|));
            Collect(first.events, c) == Collect(rest.events, Gather(parts, c)) && first.final == rest.final
    decreases |parts|
  {
    hide Run, At, Sound, Write, Reports, Apart;
    if parts != [] {
      var part, rest := parts[0], parts[1..];
      Behind(sql, i, Write(part), WriteAll(rest, tail));
      PartRuns(sql, i, part);
      var end := i + |Write(part)|;
      CollectAppend(Reports(part, i), Run(sql, StandardAt(end)).events, c);
      assert parts == [part] + rest;
      PartGathers(part, i, rest, c);
      PartsRun(sql, end, rest, tail, Collect(Reports(part, i), c));
    }
  }

  lemma PartGathers(part: Part, i: nat, rest: seq<Part>, c: Collected)
    requires Sound(part) && AllSound(rest)
    ensures AllSound([part] + rest) && Gather([part] + rest, c) == Gather(rest, Collect(Reports(part, i), c))
  {
    hide Render, Admissible;
    assert ([part] + rest)[1..] == rest;
    var events := Reports(part, i);
    if events != [] {
      assert events[1..] == [];
    }
  }

  /** Written statements with comments in between are tokenized to exactly those statements. */
  lemma TokenizeStatements(parts: seq<Part>)
    requires AllSound(parts) && AllApart(parts, "")
    ensures var sql := WriteAll(parts, "");
            var out := Run(sql, START);
            && Collect(out.events, Collected([], [])) == Gather(parts, Collected([], []))
            && out.final.mode.Standard? && LastWord(sql, out.final) == []
  {
    hide Run, WriteAll, AllApart, Gather;
    var sql := WriteAll(parts, "");
    assert sql[0..] == sql;
    PartsRun(sql, 0, parts, "", Collected([], []));
    RunEnds(sql, StandardAt(|sql|));
    assert sql[|sql|..] == [];
  }

  // ----- Items with a space behind each -----

  predicate AllAdmissible(items: seq<Item>) {
    forall k :: 0 <= k < |items| ==> Admissible(items[k])
  }

  function RenderAll(items: seq<Item>): seq<string>
    requires AllAdmissible(items)
  {
    if items == [] then [] else [Render(items[0])] + RenderAll(items[1..])
  }

  function Print(items: seq<Item>): string
    requires AllAdmissible(items)
  {
    if items == [] then [] else Render(items[0]) + " " + Print(items[1..])
  }

  function Spaced(items: seq<Item>): seq<Part> {
    if items == [] then [] else [Single(items[0]), Blank(' ')] + Spaced(items[1..])
  }

  lemma {:induction false} SpacedIsApart(items: seq<Item>, tokens: seq<string>)
    requires AllAdmissible(items)
    ensures AllSound(Spaced(items)) && AllApart(Spaced(items), "") && WriteAll(Spaced(items), "") == Print(items)
    ensures Gather(Spaced(items), Collected([], tokens)) == Collected([], tokens + RenderAll(items))
    decreases |items|
  {
    hide Admissible, Render, Apart;
    if items == [] {
      assert tokens + [] == tokens;
    } else {
      var item, rest, parts := items[0], items[1..], Spaced(items);
      var text := Render(item);
      SpacedIsApart(rest, tokens + [text]);
      SpaceIsApart(item, Print(rest));
      assert parts[1..] == [Blank(' ')] + Spaced(rest) && parts[1..][1..] == Spaced(rest);
      assert WriteAll(parts[1..], "") == " " + Print(rest);
      assert tokens + [text] + RenderAll(rest) == tokens + ([text] + RenderAll(rest));
    }
  }

  lemma SpaceIsApart(item: Item, rest: string)
    requires Admissible(item)
    ensures Apart(item, " " + rest)
  {
  }

  /** Tokenizing items with a space behind each returns exactly these items, as one statement
      with no last word. */
  lemma TokenizePrint(items: seq<Item>)
    requires AllAdmissible(items)
    ensures var sql := Print(items);
            var out := Run(sql, START);
            && Collect(out.events, Collected([], [])) == Collected([], RenderAll(items))
            && out.final.mode.Standard? && LastWord(sql, out.final) == []
  {
    hide Run;
    SpacedIsApart(items, []);
    TokenizeStatements(Spaced(items));
    assert [] + RenderAll(items) == RenderAll(items);
  }

  // ----- Unfinished texts -----

  /** A word at the end is the last word. */
  lemma LastWordIsRead(parts: seq<Part>, word: string)
    requires AllSound(parts) && AllApart(parts, word) && Admissible(Word(word))
    ensures var sql := WriteAll(parts, word);
            var out := Run(sql, START);
            && Collect(out.events, Collected([], [])) == Gather(parts, Collected([], []))
            && out.final.mode.Keyword? && LastWord(sql, out.final) == word
  {
    hide Run, Step, WriteAll, AllApart, Gather;
    var i := Reach(parts, word);
    var sql := WriteAll(parts, word);
    assert sql[i] == sql[i..][0] && forall k :: i <= k < |sql| ==> sql[k] == sql[i..][k - i];
    KeywordStarts(sql, i);
    Unfold(sql, StandardAt(i));
    WordGoesToEnd(sql, i, i + 1);
  }

  /** The tail is read from the position where it starts. */
  lemma Reach(parts: seq<Part>, tail: string) returns (i: nat)
    requires AllSound(parts) && AllApart(parts, tail)
    ensures var sql := WriteAll(parts, tail);
            && i <= |sql| && sql[i..] == tail && |sql| == i + |tail|
            && Collect(Run(sql, START).events, Collected([], [])) ==
               Collect(Run(sql, StandardAt(i)).events, Gather(parts, Collected([], [])))
            && Run(sql, START).final == Run(sql, StandardAt(i)).final
  {
    hide Run, AllApart, Gather;
    var sql := WriteAll(parts, tail);
    assert sql[0..] == sql;
    PartsRun(sql, 0, parts, tail, Collected([], []));
    WriteEnds(parts, tail);
    i := |sql| - |tail|;
  }

  lemma {:induction false} WriteEnds(parts: seq<Part>, tail: string)
    requires AllSound(parts)
    ensures var sql := WriteAll(parts, tail); |tail| <= |sql| && sql[|sql| - |tail|..] == tail
    decreases |parts|
  {
    hide Write, Sound;
    if parts != [] {
      WriteEnds(parts[1..], tail);
    }
  }

  lemma {:induction false} WordGoesToEnd(sql: string, start: nat, j: nat)
    requires start < j <= |sql| && forall k :: j <= k < |sql| ==> IsKeyword(sql[k])
    ensures Run(sql, State(Keyword, j, start, "")) == Outcome([], State(Keyword, |sql|, start, ""))
    decreases |sql| - j
  {
    hide Run, Step;
    var st := State(Keyword, j, start, "");
    if j == |sql| {
      RunEnds(sql, st);
    } else {
      WordStep(sql, Keyword, start, j);
      Unfold(sql, st);
      WordGoesToEnd(sql, start, j + 1);
    }
  }

  /** The last word of a text that ends inside a string is the text behind the quote. */
  lemma OpenStringIsRead(parts: seq<Part>, body: string)
    requires AllSound(parts) && AllApart(parts, "'" + Double(body, '\''))
    ensures var sql := WriteAll(parts, "'" + Double(body, '\''));
            var out := Run(sql, START);
            && Collect(out.events, Collected([], [])) == Gather(parts, Collected([], []))
            && out.final.mode.StringLiteral? && LastWord(sql, out.final) == Double(body, '\'')
  {
    hide Run, WriteAll, AllApart, Gather, Double;
    var inner := Double(body, '\'');
    var sql := WriteAll(parts, "'" + inner);
    var i := Reach(parts, "'" + inner);
    assert sql[i] == sql[i..][0] && sql[i + 1..] == sql[i..][1..] == inner;
    QuoteOpens(sql, i, StringLiteral, '\'');
    StringGoesToEnd(sql, i, i + 1, body);
  }

  lemma {:induction false} StringGoesToEnd(sql: string, start: nat, j: nat, body: string)
    requires start < j <= |sql| && sql[start] == '\'' && sql[j..] == Double(body, '\'')
    ensures Run(sql, State(StringLiteral, j, start, "")) == Outcome([], State(StringLiteral, |sql|, start, ""))
    decreases |body|
  {
    hide Run, Step;
    var st := State(StringLiteral, j, start, "");
    if body == [] {
      RunEnds(sql, st);
    } else {
      var n := if body[0] == '\'' then 2 else 1;
      var rest := Double(body[1..], '\'');
      assert sql[j..][..n] == (if body[0] == '\'' then "''" else [body[0]]);
      assert sql[j] == sql[j..][0] && (n == 2 ==> sql[j + 1] == sql[j..][1]);
      assert sql[j + n..] == sql[j..][n..] == rest;
      InsideString(sql, st);
      Unfold(sql, st);
      StringGoesToEnd(sql, start, j + n, body[1..]);
    }
  }

  lemma InsideString(sql: string, st: State)
    requires Valid(sql, st) && st.i < |sql| && st.mode.StringLiteral?
    requires sql[st.i] == '\'' ==> st.i + 1 < |sql| && sql[st.i + 1] == '\''
    ensures Step(sql, st) == Iteration([], st.(i := st.i + if sql[st.i] == '\'' then 2 else 1))
  {
    hide Advances;
  }

  /** A text that ends inside a comment is incomplete. */
  lemma OpenCommentIsRead(parts: seq<Part>, block: bool, text: string)
    requires AllSound(parts) && AllApart(parts, (if block then "/*" else "--") + text)
    requires if block then forall k :: 0 <= k < |text| ==> !ClosesBlock(text, k)
             else forall k :: 0 <= k < |text| ==> text[k] != '\n' && text[k] != '\r'
    ensures var sql := WriteAll(parts, (if block then "/*" else "--") + text);
            var out := Run(sql, START);
            && Collect(out.events, Collected([], [])) == Gather(parts, Collected([], []))
            && out.final.mode == if block then MultiLineComment else SingleLineComment
  {
    hide Run, WriteAll, AllApart, Gather;
    var mark := if block then "/*" else "--";
    var sql := WriteAll(parts, mark + text);
    var i := Reach(parts, mark + text);
    assert forall k :: 0 <= k < |text| + 2 ==> sql[i + k] == sql[i..][k];
    assert forall k :: 0 <= k < |text| ==> sql[i + 2 + k] == text[k];
    CommentOpens(sql, i);
    var st := State(if block then MultiLineComment else SingleLineComment, i + 2, i, "");
    forall j | i + 2 <= j < |sql|
      ensures block ==> !ClosesBlock(sql, j)
      ensures !block ==> sql[j] != '\n' && sql[j] != '\r'
    {
      var k := j - (i + 2);
      assert sql[i + 2 + k] == text[k] && (j + 1 < |sql| ==> sql[i + 2 + (k + 1)] == text[k + 1]);
      if block {
        assert !ClosesBlock(text, k);
      }
    }
    CommentStaysOpen(sql, st);
  }
}
