/** Writing rules as grammar text, in any layout, and parsing the text gives the rules back. */
module GrammarLexerRoundTrip {
  import opened Text
  import opened Grammar
  import opened GrammarBrackets
  import opened GrammarLexer

  // ----- Layout -----

  /** The ASCII letters and digits. */
  predicate IsLetter(c: char) {
    var code := c as int;
    48 <= code <= 57 || 65 <= code <= 90 || 97 <= code <= 122
  }

  predicate EndsLine(c: char) {
    c == '\n' || c == '\r'
  }

  predicate InLine(text: string) {
    forall k :: 0 <= k < |text| ==> !EndsLine(text[k])
  }

  /** White space, or a comment with its line end. */
  datatype Filler = Blank(c: char) | Remark(text: string, end: char)

  predicate IsFiller(f: Filler) {
    match f
    case Blank(c) => c == ' ' || c == '\t' || c == 11 as char || c == 12 as char || EndsLine(c)
    case Remark(text, end) => InLine(text) && EndsLine(end)
  }

  function WriteFiller(f: Filler): string {
    match f
    case Blank(c) => [c]
    case Remark(text, end) => "#" + text + [end]
  }

  type Gap = seq<Filler>

  predicate IsGap(gap: Gap) {
    forall k :: 0 <= k < |gap| ==> IsFiller(gap[k])
  }

  /** A gap that stays on its line. */
  predicate OneLine(gap: Gap) {
    forall k :: 0 <= k < |gap| ==> gap[k].Blank? && !EndsLine(gap[k].c)
  }

  function WriteGap(gap: Gap, rest: string): string {
    if gap == [] then rest else WriteFiller(gap[0]) + WriteGap(gap[1..], rest)
  }

  predicate IsName(name: string) {
    name != [] && forall k :: 0 <= k < |name| ==> IsLetter(name[k])
  }

  /** A rule may have a percent sign in front of its name. */
  predicate IsRuleName(name: string) {
    IsName(name) || (name != [] && name[0] == '%' && (name[1..] == [] || IsName(name[1..])))
  }

  /** Every closing character is escaped, and no escape is cut off. */
  predicate WellEscaped(text: string, final: char) {
    if text == [] then true
    else if text[0] == '\\' then |text| >= 2 && WellEscaped(text[2..], final)
    else text[0] != final && WellEscaped(text[1..], final)
  }

  predicate IsRegex(text: string) {
    var n := |text|;
    && n >= 2
    && ((text[0] == '[' && text[n - 1] == ']') || (text[0] == '<' && text[n - 1] == '>'))
    && WellEscaped(text[1..n - 1], text[n - 1])
  }

  /** A token as it is written: an `i` may follow a literal, and a gap may follow the token. */
  datatype Laid = Laid(token: Token, caseless: bool, gap: Gap)

  predicate Writable(t: Token) {
    match t
    case Literal(text) => WellEscaped(text, '\'')
    case Reference(name) => IsName(name)
    case FunctionCall(name) => IsName(name)
    case Operator(op) => op == '/' || op == '?' || op == '(' || op == ')' || op == '*' || op == '!'
    case Regex(text) => IsRegex(text)
  }

  function WriteToken(t: Token, caseless: bool): (text: string)
    requires Writable(t)
    ensures text != []
  {
    match t
    case Literal(text) => "'" + text + (if caseless then "'i" else "'")
    case Reference(name) => name
    case FunctionCall(name) => name + "("
    case Operator(op) => [op]
    case Regex(text) => text
  }

  /** The token ends before the text behind it. */
  predicate Apart(t: Token, caseless: bool, rest: string) {
    rest == [] || match t
    case Literal(_) => caseless || rest[0] != 'i'
    case Reference(_) => !IsLetter(rest[0]) && rest[0] != '('
    case _ => true
  }

  function WriteTokens(ts: seq<Laid>, rest: string): string
    requires forall k :: 0 <= k < |ts| ==> Writable(ts[k].token)
  {
    if ts == [] then rest
    else WriteToken(ts[0].token, ts[0].caseless) + WriteGap(ts[0].gap, WriteTokens(ts[1..], rest))
  }

  /** Lines may end behind a `/` and inside brackets, of which `open` are open. */
  predicate WellLaid(ts: seq<Laid>, rest: string, open: int) {
    ts == [] ||
    var t := ts[0];
    && Writable(t.token)
    && (forall k :: 0 <= k < |ts| ==> Writable(ts[k].token))
    && IsGap(t.gap)
    && Apart(t.token, t.caseless, WriteGap(t.gap, WriteTokens(ts[1..], rest)))
    && open + Delta(t.token) >= 0
    && (open + Delta(t.token) > 0 || t.token == Operator('/') || OneLine(t.gap))
    && WellLaid(ts[1..], rest, open + Delta(t.token))
  }

  function Tokens(ts: seq<Laid>): seq<Token> {
    if ts == [] then [] else [ts[0].token] + Tokens(ts[1..])
  }

  /** How a rule ends: at the end of its line or of the text, perhaps with a comment. */
  datatype Ending = Ending(remark: Option<string>, line: Option<char>)

  function WriteEnding(e: Ending, rest: string): string {
    (if e.remark.Some? then "#" + e.remark.value else "") + (if e.line.Some? then [e.line.value] else "") + rest
  }

  /** A rule with gaps before its name, behind it, behind its parameter and behind the arrow. */
  datatype LaidRule = LaidRule(
    before: Gap, name: string, behindName: Gap, parameter: Option<string>, behindParameter: Gap,
    behindArrow: Gap, tokens: seq<Laid>, ending: Ending)
  {
    function Stored(): Rule {
      Rule(parameter, Tokens(tokens))
    }

    function WriteHead(rest: string): string {
      WriteGap(before, name + WriteGap(behindName, WriteParameter(parameter, WriteGap(behindParameter,
        "<-" + WriteGap(behindArrow, rest)))))
    }

    function Write(rest: string): string
      requires forall k :: 0 <= k < |tokens| ==> Writable(tokens[k].token)
    {
      WriteHead(WriteTokens(tokens, WriteEnding(ending, rest)))
    }
  }

  function WriteParameter(parameter: Option<string>, rest: string): string {
    if parameter.Some? then "(" + parameter.value + ")" + rest else rest
  }

  ghost predicate WellWritten(r: LaidRule, rest: string) {
    && IsGap(r.before) && IsGap(r.behindName) && IsGap(r.behindParameter) && IsGap(r.behindArrow)
    && IsRuleName(r.name)
    && (r.parameter.Some? ==> IsName(r.parameter.value))
    && r.tokens != []
    && WellLaid(r.tokens, WriteEnding(r.ending, rest), 0)
    && (r.ending.remark.Some? ==> InLine(r.ending.remark.value))
    && if r.ending.line.Some? then EndsLine(r.ending.line.value) && CanEnd(r.Stored().tokens) else rest == []
  }

  /** A line end completes the rule: its brackets are closed, and it does not end in a `/`. */
  predicate CanEnd(ts: seq<Token>) {
    ts != [] && Balance(ts) == 0 && ts[|ts| - 1] != Operator('/')
  }

  predicate AllWritable(rs: seq<LaidRule>) {
    forall j, k :: 0 <= j < |rs| && 0 <= k < |rs[j].tokens| ==> Writable(rs[j].tokens[k].token)
  }

  function WriteRules(rs: seq<LaidRule>, rest: string): string
    requires AllWritable(rs)
  {
    if rs == [] then rest else rs[0].Write(WriteRules(rs[1..], rest))
  }

  ghost predicate AllWellWritten(rs: seq<LaidRule>, rest: string)
    requires AllWritable(rs)
  {
    rs == [] || (WellWritten(rs[0], WriteRules(rs[1..], rest)) && AllWellWritten(rs[1..], rest))
  }

  // ----- The text behind a position -----

  ghost predicate Behind(g: string, c: nat, text: string) {
    c <= |g| && g[c..] == text
  }

  lemma Pass(g: string, c: nat, piece: string, rest: string)
    requires Behind(g, c, piece + rest)
    ensures At(g, c, piece) && Behind(g, c + |piece|, rest) && c + |piece| == |g| - |rest|
    ensures rest != [] ==> c + |piece| < |g| && g[c + |piece|] == rest[0]
  {
    var n := |piece|;
    assert |g[c..]| == n + |rest|;
    assert g[c..c + n] == g[c..][..n] == piece;
    assert g[c + n..] == g[c..][n..] == rest;
    assert rest != [] ==> g[c + n] == g[c + n..][0];
  }

  lemma BehindStart(g: string, c: nat, text: string)
    requires Behind(g, c, text)
    ensures c + |text| == |g| && (text != [] ==> g[c] == text[0])
  {
  }

  lemma Unfold(g: string, st: State)
    requires st.c < |g| && Step(g, st).Value?
    ensures Run(g, st) == Run(g, Step(g, st).value)
  {
    hide Step;
  }

  lemma LettersAreAlphaNumeric(c: char)
    ensures IsLetter(c) <==> IsAlphaNumeric(c)
  {
  }

  // ----- Gaps -----

  /** A line end does not complete a rule. */
  predicate Continues(st: State) {
    !st.phase.RuleDefinition? || st.brackets > 0 || st.inOr || st.rule.tokens == []
  }

  lemma {:induction false} LineEndAt(g: string, c: nat, text: string)
    requires InLine(text) && At(g, c, text) && (c + |text| == |g| || EndsLine(g[c + |text|]))
    ensures LineEnd(g, c) == c + |text|
    decreases |text|
  {
    if text != [] {
      AtIndex(g, c, text, 0);
      assert text == [text[0]] + text[1..];
      AtSplit(g, c, [text[0]], text[1..]);
      LineEndAt(g, c + 1, text[1..]);
    }
  }

  lemma RemarkRuns(g: string, st: State, text: string, rest: string)
    requires InLine(text) && Behind(g, st.c, "#" + text + rest) && (rest == [] || EndsLine(rest[0]))
    ensures |rest| <= |g| && Run(g, st) == Run(g, st.(c := |g| - |rest|)) && Behind(g, |g| - |rest|, rest)
  {
    hide Run;
    Pass(g, st.c, "#" + text, rest);
    AtIndex(g, st.c, "#" + text, 0);
    AtSplit(g, st.c, "#", text);
    LineEndAt(g, st.c + 1, text);
    assert Step(g, st) == Value(st.(c := |g| - |rest|));
    Unfold(g, st);
  }

  lemma BlankRuns(g: string, st: State, c: char, rest: string)
    requires IsFiller(Blank(c)) && Behind(g, st.c, [c] + rest) && (Continues(st) || !EndsLine(c))
    ensures |rest| <= |g| && Run(g, st) == Run(g, st.(c := |g| - |rest|)) && Behind(g, |g| - |rest|, rest)
  {
    hide Run;
    Pass(g, st.c, [c], rest);
    BehindStart(g, st.c, [c] + rest);
    assert Step(g, st) == Value(st.(c := |g| - |rest|));
    Unfold(g, st);
  }

  lemma FillerRuns(g: string, st: State, f: Filler, rest: string)
    requires IsFiller(f) && Behind(g, st.c, WriteFiller(f) + rest)
    requires Continues(st) || (f.Blank? && !EndsLine(f.c))
    ensures |rest| <= |g| && Run(g, st) == Run(g, st.(c := |g| - |rest|)) && Behind(g, |g| - |rest|, rest)
  {
    hide Run, Behind;
    match f {
      case Blank(c) => BlankRuns(g, st, c, rest);
      case Remark(text, end) =>
        assert "#" + text + [end] + rest == "#" + text + ([end] + rest);
        RemarkRuns(g, st, text, [end] + rest);
        BlankRuns(g, st.(c := |g| - |[end] + rest|), end, rest);
    }
  }

  /** A gap is skipped. */
  lemma {:induction false} GapRuns(g: string, st: State, gap: Gap, rest: string)
    requires IsGap(gap) && Behind(g, st.c, WriteGap(gap, rest)) && (Continues(st) || OneLine(gap))
    ensures |rest| <= |g| && Run(g, st) == Run(g, st.(c := |g| - |rest|)) && Behind(g, |g| - |rest|, rest)
    decreases |gap|
  {
    hide Run, WriteFiller, IsFiller, Behind;
    if gap == [] {
      BehindStart(g, st.c, rest);
      assert st.(c := |g| - |rest|) == st;
    } else {
      var text := WriteGap(gap[1..], rest);
      FillerRuns(g, st, gap[0], text);
      GapRuns(g, st.(c := |g| - |text|), gap[1..], rest);
    }
  }

  // ----- Tokens -----

  /** The run of letters ends with the text or at another character. */
  predicate EndsName(rest: string) {
    rest == [] || !IsLetter(rest[0])
  }

  lemma {:induction false} NameEndAt(g: string, c: nat, name: string, rest: string)
    requires Behind(g, c, name + rest) && (forall k :: 0 <= k < |name| ==> IsLetter(name[k])) && EndsName(rest)
    ensures c + |name| <= |g| && NameEnd(g, c) == c + |name|
    decreases |name|
  {
    hide Behind;
    BehindStart(g, c, name + rest);
    if name == [] {
      assert name + rest == rest;
      if rest != [] {
        LettersAreAlphaNumeric(rest[0]);
      }
    } else {
      assert name + rest == [name[0]] + (name[1..] + rest);
      LettersAreAlphaNumeric(name[0]);
      Pass(g, c, [name[0]], name[1..] + rest);
      NameEndAt(g, c + 1, name[1..], rest);
    }
  }

  lemma {:induction false} LiteralEndAt(g: string, i: nat, text: string)
    requires WellEscaped(text, '\'') && At(g, i, text) && i + |text| < |g| && g[i + |text|] == '\''
    ensures LiteralEnd(g, i) == i + |text|
    decreases |text|
  {
    if text != [] {
      AtIndex(g, i, text, 0);
      var k := if text[0] == '\\' then 2 else 1;
      assert text == text[..k] + text[k..];
      AtSplit(g, i, text[..k], text[k..]);
      LiteralEndAt(g, i + k, text[k..]);
    }
  }

  lemma {:induction false} RegexEndAt(g: string, i: nat, text: string, final: char)
    requires WellEscaped(text, final) && At(g, i, text) && i + |text| < |g| && g[i + |text|] == final != '\\'
    ensures RegexEnd(g, i, final) == i + |text| + 1
    decreases |text|
  {
    if text != [] {
      AtIndex(g, i, text, 0);
      var k := if text[0] == '\\' then 2 else 1;
      assert text == text[..k] + text[k..];
      AtSplit(g, i, text[..k], text[k..]);
      RegexEndAt(g, i + k, text[k..], final);
    }
  }

  /** The state after a token has been read. */
  function After(st: State, t: Token, c: nat): State
    requires st.brackets + Delta(t) >= 0
  {
    AddToken(st, t, c).(brackets := st.brackets + Delta(t))
  }

  lemma LiteralStep(g: string, st: State, text: string, caseless: bool, rest: string)
    requires WellEscaped(text, '\'') && Apart(Literal(text), caseless, rest)
    requires Behind(g, st.c, "'" + text + (if caseless then "'i" else "'") + rest)
    ensures st.c < |g| && DefinitionStep(g, st) == Value(After(st, Literal(text), |g| - |rest|))
  {
    hide At, WellEscaped, LiteralEnd, NameEnd, RegexEnd, Behind;
    var mark := if caseless then "i" else "";
    assert "'" + text + (if caseless then "'i" else "'") + rest == "'" + (text + ("'" + (mark + rest)));
    BehindStart(g, st.c, "'" + (text + ("'" + (mark + rest))));
    Pass(g, st.c, "'", text + ("'" + (mark + rest)));
    LiteralAt(g, st.c + 1, text, mark + rest);
    Pass(g, st.c + 2 + |text|, mark, rest);
    BehindStart(g, st.c + 2 + |text|, mark + rest);
  }

  lemma LiteralAt(g: string, c: nat, text: string, rest: string)
    requires WellEscaped(text, '\'') && Behind(g, c, text + (['\''] + rest))
    ensures c + 1 + |text| <= |g| && Behind(g, c + 1 + |text|, rest)
    ensures LiteralEnd(g, c) == c + |text| && g[c..c + |text|] == text
  {
    hide At, WellEscaped, LiteralEnd, Behind;
    Pass(g, c, text, ['\''] + rest);
    AtValue(g, c, text);
    Pass(g, c + |text|, ['\''], rest);
    LiteralEndAt(g, c, text);
  }

  lemma NameAt(g: string, c: nat, name: string, rest: string)
    requires IsName(name) && EndsName(rest) && Behind(g, c, name + rest)
    ensures c < |g| && IsAlphaNumeric(g[c]) && Behind(g, c + |name|, rest)
    ensures NameEnd(g, c) == c + |name| && g[c..c + |name|] == name
  {
    hide NameEnd, At, Behind;
    Pass(g, c, name, rest);
    BehindStart(g, c, name + rest);
    LettersAreAlphaNumeric(name[0]);
    NameEndAt(g, c, name, rest);
    AtValue(g, c, name);
  }

  lemma NameRead(g: string, st: State, name: string, call: bool, rest: string)
    requires IsName(name) && (call || Apart(Reference(name), false, rest))
    requires Behind(g, st.c, name + (if call then "(" else "") + rest)
    ensures DefinitionStep(g, st) ==
            Value(After(st, if call then FunctionCall(name) else Reference(name), |g| - |rest|))
  {
    hide NameEnd, Behind, LiteralEnd, RegexEnd, IsName;
    var mark := if call then "(" else "";
    assert name + mark + rest == name + (mark + rest);
    NameAt(g, st.c, name, mark + rest);
    BehindStart(g, st.c + |name|, mark + rest);
  }

  lemma RegexStep(g: string, st: State, text: string, rest: string)
    requires IsRegex(text) && Behind(g, st.c, text + rest)
    ensures st.c < |g| && DefinitionStep(g, st) == Value(After(st, Regex(text), |g| - |rest|))
  {
    hide NameEnd, At, Behind, LiteralEnd, RegexEnd;
    var c, n := st.c, |text|;
    Pass(g, c, text, rest);
    BehindStart(g, c, text + rest);
    var final := text[n - 1];
    var middle := text[1..n - 1];
    AtIndex(g, c, text, n - 1);
    assert text == [text[0]] + middle + [final];
    AtSplit(g, c, [text[0]] + middle, [final]);
    AtSplit(g, c, [text[0]], middle);
    RegexEndAt(g, c + 1, middle, final);
    AtValue(g, c, text);
    RegexOpens(g, c, final);
  }

  lemma RegexOpens(g: string, c: nat, final: char)
    requires c < |g| && g[c] != final && g[c] != '\\'
    ensures RegexEnd(g, c, final) == RegexEnd(g, c + 1, final)
  {
  }

  /** A written token is read back, whatever follows it. */
  lemma TokenStep(g: string, st: State, t: Token, caseless: bool, rest: string)
    requires Writable(t) && Apart(t, caseless, rest) && st.brackets + Delta(t) >= 0
    requires Behind(g, st.c, WriteToken(t, caseless) + rest)
    ensures st.c < |g| && DefinitionStep(g, st) == Value(After(st, t, |g| - |rest|))
    ensures g[st.c] != '#' && !IsSpace(g[st.c]) && !IsNewline(g[st.c])
  {
    hide DefinitionStep, NameEnd, RegexEnd, LiteralEnd, Behind;
    BehindStart(g, st.c, WriteToken(t, caseless) + rest);
    match t {
      case Literal(text) => LiteralStep(g, st, text, caseless, rest);
      case Reference(name) =>
        assert name + "" + rest == name + rest;
        LettersAreAlphaNumeric(name[0]);
        NameRead(g, st, name, false, rest);
      case FunctionCall(name) =>
        LettersAreAlphaNumeric(name[0]);
        NameRead(g, st, name, true, rest);
      case Operator(op) => OperatorStep(g, st, op, rest);
      case Regex(text) => RegexStep(g, st, text, rest);
    }
  }

  lemma OperatorStep(g: string, st: State, op: char, rest: string)
    requires Writable(Operator(op)) && st.brackets + Delta(Operator(op)) >= 0 && Behind(g, st.c, [op] + rest)
    ensures st.c < |g| && DefinitionStep(g, st) == Value(After(st, Operator(op), |g| - |rest|))
  {
    hide NameEnd, RegexEnd, LiteralEnd;
    BehindStart(g, st.c, [op] + rest);
  }

  lemma TokenRuns(g: string, st: State, t: Token, caseless: bool, rest: string)
    requires st.phase.RuleDefinition? && Writable(t) && Apart(t, caseless, rest) && st.brackets + Delta(t) >= 0
    requires Behind(g, st.c, WriteToken(t, caseless) + rest)
    ensures |rest| <= |g| && Run(g, st) == Run(g, After(st, t, |g| - |rest|)) && Behind(g, |g| - |rest|, rest)
  {
    hide Run, DefinitionStep, WriteToken, Writable, Behind, Apart;
    TokenStep(g, st, t, caseless, rest);
    Pass(g, st.c, WriteToken(t, caseless), rest);
    assert Step(g, st) == Value(After(st, t, |g| - |rest|));
    Unfold(g, st);
  }

  /** The rule with more tokens. */
  function More(st: State, ts: seq<Token>, c: nat): State
    requires st.brackets + Balance(ts) >= 0
  {
    st.(c := c, brackets := st.brackets + Balance(ts), rule := st.rule.(tokens := st.rule.tokens + ts),
        inOr := if ts == [] then st.inOr else ts[|ts| - 1] == Operator('/'))
  }

  /** A token and the gap behind it. */
  lemma LaidRuns(g: string, st: State, t: Laid, later: string)
    requires st.phase.RuleDefinition? && Writable(t.token) && IsGap(t.gap) && st.brackets + Delta(t.token) >= 0
    requires Apart(t.token, t.caseless, WriteGap(t.gap, later))
    requires st.brackets + Delta(t.token) > 0 || t.token == Operator('/') || OneLine(t.gap)
    requires Behind(g, st.c, WriteToken(t.token, t.caseless) + WriteGap(t.gap, later))
    ensures |later| <= |g| && Behind(g, |g| - |later|, later)
    ensures Run(g, st) == Run(g, After(st, t.token, |g| - |later|))
  {
    hide Run, Writable, WriteToken, WriteGap, Behind, Apart, IsGap, OneLine;
    var text := WriteGap(t.gap, later);
    TokenRuns(g, st, t.token, t.caseless, text);
    GapRuns(g, After(st, t.token, |g| - |text|), t.gap, later);
  }

  lemma MoreAfter(st: State, ts: seq<Token>, b: nat, c: nat)
    requires ts != [] && st.brackets + Delta(ts[0]) >= 0 && st.brackets + Balance(ts) >= 0
    ensures st.brackets + Delta(ts[0]) + Balance(ts[1..]) >= 0
    ensures More(After(st, ts[0], b), ts[1..], c) == More(st, ts, c)
  {
    hide Balance, Delta;
    BalanceFirst(ts);
    assert |ts| > 1 ==> ts[1..][|ts| - 2] == ts[|ts| - 1];
    assert (st.rule.tokens + [ts[0]]) + ts[1..] == st.rule.tokens + ts;
  }

  lemma BalanceFirst(ts: seq<Token>)
    requires ts != []
    ensures Balance(ts) == Delta(ts[0]) + Balance(ts[1..])
  {
  }

  /** The written tokens of a definition are read back, in any layout. */
  lemma {:induction false} TokensRun(g: string, st: State, ts: seq<Laid>, rest: string)
    requires st.phase.RuleDefinition? && (forall k :: 0 <= k < |ts| ==> Writable(ts[k].token))
    requires WellLaid(ts, rest, st.brackets) && Behind(g, st.c, WriteTokens(ts, rest))
    ensures |rest| <= |g| && Behind(g, |g| - |rest|, rest)
    ensures st.brackets + Balance(Tokens(ts)) >= 0
    ensures Run(g, st) == Run(g, More(st, Tokens(ts), |g| - |rest|))
    decreases |ts|
  {
    hide Run, Writable, WriteToken, WriteGap, Behind, Apart, IsGap, OneLine, More;
    if ts == [] {
      BehindStart(g, st.c, rest);
      assert More(st, [], st.c) == st by {
        MoreNothing(st);
      }
    } else {
      var t, later := ts[0], WriteTokens(ts[1..], rest);
      LaidRuns(g, st, t, later);
      var next := After(st, t.token, |g| - |later|);
      TokensRun(g, next, ts[1..], rest);
      assert Tokens(ts)[1..] == Tokens(ts[1..]);
      MoreAfter(st, Tokens(ts), |g| - |later|, |g| - |rest|);
    }
  }

  lemma MoreNothing(st: State)
    ensures More(st, [], st.c) == st
  {
    assert st.rule.tokens + [] == st.rule.tokens;
  }

  // ----- Rules -----

  function Between(c: nat, rules: Rules): State {
    State(c, RuleName, "", EMPTY_RULE, 0, false, rules)
  }

  function Headed(c: nat, phase: Phase, name: string, parameter: Option<string>, rules: Rules): State {
    State(c, phase, name, Rule(parameter, []), 0, false, rules)
  }

  lemma NameRuns(g: string, c: nat, name: string, rest: string, rules: Rules)
    requires IsRuleName(name) && EndsName(rest) && Behind(g, c, name + rest)
    ensures |rest| <= |g| && Behind(g, |g| - |rest|, rest)
    ensures Run(g, Between(c, rules)) == Run(g, Headed(|g| - |rest|, RuleSeparator, name, None, rules))
  {
    hide Run, At, Behind, NameEnd, SeparatorStep, DefinitionStep;
    Pass(g, c, name, rest);
    AtValue(g, c, name);
    RuleNameEnds(g, c, name, rest);
    assert Step(g, Between(c, rules)) == Value(Headed(|g| - |rest|, RuleSeparator, name, None, rules));
    Unfold(g, Between(c, rules));
  }

  lemma RuleNameEnds(g: string, c: nat, name: string, rest: string)
    requires IsRuleName(name) && EndsName(rest) && Behind(g, c, name + rest)
    ensures c < |g| && (g[c] == '%' || IsAlphaNumeric(g[c]))
    ensures NameEnd(g, if g[c] == '%' then c + 1 else c) == c + |name|
  {
    hide NameEnd, Behind;
    BehindStart(g, c, name + rest);
    if name[0] == '%' {
      assert name + rest == [name[0]] + (name[1..] + rest);
      Pass(g, c, [name[0]], name[1..] + rest);
      NameEndAt(g, c + 1, name[1..], rest);
    } else {
      LettersAreAlphaNumeric(name[0]);
      NameEndAt(g, c, name, rest);
    }
  }

  lemma ParameterRuns(g: string, c: nat, name: string, parameter: Option<string>, rest: string, rules: Rules)
    requires (parameter.Some? ==> IsName(parameter.value)) && Behind(g, c, WriteParameter(parameter, rest))
    ensures |rest| <= |g| && Behind(g, |g| - |rest|, rest)
    ensures Run(g, Headed(c, RuleSeparator, name, None, rules)) ==
            Run(g, Headed(|g| - |rest|, RuleSeparator, name, parameter, rules))
  {
    hide Run, Behind, NameEnd, NameStep, DefinitionStep;
    if parameter.Some? {
      var st := Headed(c, RuleSeparator, name, None, rules);
      ParameterAt(g, c, parameter.value, rest);
      assert Step(g, st) == Value(Headed(|g| - |rest|, RuleSeparator, name, parameter, rules));
      Unfold(g, st);
    } else {
      BehindStart(g, c, rest);
    }
  }

  lemma ParameterAt(g: string, c: nat, name: string, rest: string)
    requires IsName(name) && Behind(g, c, "(" + name + ")" + rest)
    ensures c + |name| + 2 == |g| - |rest| && Behind(g, c + |name| + 2, rest)
    ensures g[c] == '(' && g[c + 1..c + 1 + |name|] == name && g[c + 1 + |name|] == ')'
    ensures NameEnd(g, c + 1) == c + 1 + |name|
  {
    hide Behind, NameEnd, IsName;
    assert "(" + name + ")" + rest == "(" + (name + (")" + rest));
    BehindStart(g, c, "(" + (name + (")" + rest)));
    Pass(g, c, "(", name + (")" + rest));
    NameAt(g, c + 1, name, ")" + rest);
    BehindStart(g, c + 1 + |name|, ")" + rest);
    Pass(g, c + 1 + |name|, ")", rest);
  }

  lemma ArrowRuns(g: string, c: nat, name: string, parameter: Option<string>, rest: string, rules: Rules)
    requires Behind(g, c, "<-" + rest)
    ensures |rest| <= |g| && Behind(g, |g| - |rest|, rest)
    ensures Run(g, Headed(c, RuleSeparator, name, parameter, rules)) ==
            Run(g, Headed(|g| - |rest|, RuleDefinition, name, parameter, rules))
  {
    hide Run, NameStep, DefinitionStep;
    Pass(g, c, "<-", rest);
    BehindStart(g, c, "<-" + rest);
    var st := Headed(c, RuleSeparator, name, parameter, rules);
    assert Step(g, st) == Value(Headed(|g| - |rest|, RuleDefinition, name, parameter, rules));
    Unfold(g, st);
  }

  lemma EndsNameBehindGap(gap: Gap, rest: string)
    requires IsGap(gap) && EndsName(rest)
    ensures EndsName(WriteGap(gap, rest))
  {
    if gap != [] {
      assert WriteGap(gap, rest)[0] == WriteFiller(gap[0])[0];
    }
  }

  /** The name, the parameter and the arrow of a rule, with everything between them. */
  lemma HeadRuns(g: string, c: nat, r: LaidRule, body: string, rules: Rules)
    requires IsGap(r.before) && IsGap(r.behindName) && IsGap(r.behindParameter) && IsGap(r.behindArrow)
    requires IsRuleName(r.name) && (r.parameter.Some? ==> IsName(r.parameter.value))
    requires Behind(g, c, r.WriteHead(body))
    ensures |body| <= |g| && Behind(g, |g| - |body|, body)
    ensures Run(g, Between(c, rules)) == Run(g, Headed(|g| - |body|, RuleDefinition, r.name, r.parameter, rules))
  {
    hide Run, IsGap, WriteGap, WriteParameter, Behind, IsRuleName, IsName;
    var arrow := WriteGap(r.behindArrow, body);
    var third := WriteGap(r.behindParameter, "<-" + arrow);
    var second := WriteParameter(r.parameter, third);
    var first := WriteGap(r.behindName, second);
    EndsNameBehindGap(r.behindParameter, "<-" + arrow);
    ParameterEndsName(r.parameter, third);
    EndsNameBehindGap(r.behindName, second);
    GapRuns(g, Between(c, rules), r.before, r.name + first);
    NameRuns(g, |g| - |r.name + first|, r.name, first, rules);
    GapRuns(g, Headed(|g| - |first|, RuleSeparator, r.name, None, rules), r.behindName, second);
    ParameterRuns(g, |g| - |second|, r.name, r.parameter, third, rules);
    GapRuns(g, Headed(|g| - |third|, RuleSeparator, r.name, r.parameter, rules), r.behindParameter, "<-" + arrow);
    ArrowRuns(g, |g| - |"<-" + arrow|, r.name, r.parameter, arrow, rules);
    GapRuns(g, Headed(|g| - |arrow|, RuleDefinition, r.name, r.parameter, rules), r.behindArrow, body);
  }

  lemma ParameterEndsName(parameter: Option<string>, rest: string)
    requires EndsName(rest)
    ensures EndsName(WriteParameter(parameter, rest))
  {
  }

  lemma LineRuns(g: string, st: State, line: Option<char>, rest: string)
    requires Behind(g, st.c, (if line.Some? then [line.value] else "") + rest)
    requires st.phase.RuleDefinition? && st.rule.tokens != []
    requires if line.None? then rest == [] else EndsLine(line.value) && st.brackets == 0 && !st.inOr
    ensures |rest| <= |g| && Behind(g, |g| - |rest|, rest)
    ensures Run(g, st) == Ended(g, st, rest)
  {
    hide DefinitionStep, NameStep, SeparatorStep;
    var mark := if line.Some? then [line.value] else "";
    Pass(g, st.c, mark, rest);
    BehindStart(g, st.c, mark + rest);
  }

  /** A rule is stored at its end, unless its name is taken. */
  function Ended(g: string, st: State, rest: string): Lexed<Rules>
    requires |rest| <= |g|
  {
    if st.name in st.rules then Failure(DuplicateRule)
    else Run(g, Between(|g| - |rest|, st.rules[st.name := st.rule]))
  }

  lemma EndingRuns(g: string, st: State, ending: Ending, rest: string)
    requires Behind(g, st.c, WriteEnding(ending, rest)) && (ending.remark.Some? ==> InLine(ending.remark.value))
    requires st.phase.RuleDefinition? && st.rule.tokens != []
    requires if ending.line.None? then rest == []
             else EndsLine(ending.line.value) && st.brackets == 0 && !st.inOr
    ensures |rest| <= |g| && Behind(g, |g| - |rest|, rest)
    ensures Run(g, st) == Ended(g, st, rest)
  {
    hide Run, Behind;
    var line := (if ending.line.Some? then [ending.line.value] else "") + rest;
    if ending.remark.Some? {
      assert WriteEnding(ending, rest) == "#" + ending.remark.value + line;
      RemarkRuns(g, st, ending.remark.value, line);
    } else {
      assert WriteEnding(ending, rest) == line;
      BehindStart(g, st.c, line);
    }
    LineRuns(g, st.(c := |g| - |line|), ending.line, rest);
  }

  /** A written rule is read back, whatever follows it. */
  lemma RuleRuns(g: string, c: nat, r: LaidRule, rest: string, rules: Rules)
    requires forall k :: 0 <= k < |r.tokens| ==> Writable(r.tokens[k].token)
    requires WellWritten(r, rest) && Behind(g, c, r.Write(rest))
    ensures |rest| <= |g| && Behind(g, |g| - |rest|, rest)
    ensures Run(g, Between(c, rules)) == if r.name in rules then Failure(DuplicateRule)
                                         else Run(g, Between(|g| - |rest|, rules[r.name := r.Stored()]))
  {
    hide Run, Behind, WriteTokens, WellLaid, Balance, IsGap, IsRuleName, IsName, InLine, Writable, WriteEnding;
    var ending := WriteEnding(r.ending, rest);
    var body := WriteTokens(r.tokens, ending);
    HeadRuns(g, c, r, body, rules);
    var st := Headed(|g| - |body|, RuleDefinition, r.name, r.parameter, rules);
    TokensRun(g, st, r.tokens, ending);
    assert [] + Tokens(r.tokens) == Tokens(r.tokens);
    var all := More(st, Tokens(r.tokens), |g| - |ending|);
    assert all.rule == r.Stored();
    EndingRuns(g, all, r.ending, rest);
  }

  // ----- Rule sets -----

  predicate NoDuplicates(rs: seq<LaidRule>) {
    forall j, k :: 0 <= j < k < |rs| ==> rs[j].name != rs[k].name
  }

  predicate Fresh(rs: seq<LaidRule>, rules: Rules) {
    NoDuplicates(rs) && forall k :: 0 <= k < |rs| ==> rs[k].name !in rules
  }

  /** All rules are those that were stored before and the written ones. */
  predicate Added(rs: seq<LaidRule>, rules: Rules, all: Rules) {
    && (forall name :: name in rules ==> name in all && all[name] == rules[name])
    && (forall k :: 0 <= k < |rs| ==> rs[k].name in all && all[rs[k].name] == rs[k].Stored())
    && (forall name :: name in all ==> name in rules || exists k :: 0 <= k < |rs| && rs[k].name == name)
  }

  lemma FreshFirst(rs: seq<LaidRule>, rules: Rules, rule: Rule)
    requires rs != []
    ensures Fresh(rs, rules) <==> rs[0].name !in rules && Fresh(rs[1..], rules[rs[0].name := rule])
  {
    var later := rs[1..];
    if rs[0].name !in rules && Fresh(later, rules[rs[0].name := rule]) {
      forall j, k | 0 <= j < k < |rs| ensures rs[j].name != rs[k].name {
        assert rs[k] == later[k - 1];
        if j > 0 {
          assert rs[j] == later[j - 1];
        }
      }
      forall k | 0 <= k < |rs| ensures rs[k].name !in rules {
        if k > 0 {
          assert rs[k] == later[k - 1];
        }
      }
    }
  }

  lemma AddedFirst(rs: seq<LaidRule>, rules: Rules, all: Rules)
    requires rs != [] && Fresh(rs, rules) && Added(rs[1..], rules[rs[0].name := rs[0].Stored()], all)
    ensures Added(rs, rules, all)
  {
    hide LaidRule.Stored;
    var later := rs[1..];
    forall k | 0 <= k < |rs| ensures rs[k].name in all && all[rs[k].name] == rs[k].Stored() {
      if k > 0 {
        assert rs[k] == later[k - 1];
      }
    }
    forall name | name in all && name !in rules ensures exists k :: 0 <= k < |rs| && rs[k].name == name {
      if name != rs[0].name {
        var k: nat :| k < |later| && later[k].name == name;
        assert rs[k + 1].name == name;
      }
    }
  }

  /** The written rules are read back, whatever follows them; a name that is taken is an error. */
  lemma {:induction false} RulesRun(g: string, c: nat, rs: seq<LaidRule>, rest: string, rules: Rules)
    returns (all: Rules)
    requires AllWritable(rs) && AllWellWritten(rs, rest) && Behind(g, c, WriteRules(rs, rest))
    ensures |rest| <= |g| && (Fresh(rs, rules) ==> Added(rs, rules, all) && Behind(g, |g| - |rest|, rest))
    ensures Run(g, Between(c, rules)) ==
            if Fresh(rs, rules) then Run(g, Between(|g| - |rest|, all)) else Failure(DuplicateRule)
    decreases |rs|
  {
    hide Run, Behind, WellWritten, Fresh, Added;
    if rs == [] {
      all := rules;
      assert Fresh(rs, rules) && Added(rs, rules, all) by {
        NothingAdded(rules);
      }
      BehindStart(g, c, rest);
    } else {
      var r, later := rs[0], rs[1..];
      var text := WriteRules(later, rest);
      RuleRuns(g, c, r, text, rules);
      FreshFirst(rs, rules, r.Stored());
      all := RulesRun(g, |g| - |text|, later, rest, rules[r.name := r.Stored()]);
      if Fresh(rs, rules) {
        AddedFirst(rs, rules, all);
      }
    }
  }

  lemma NothingAdded(rules: Rules)
    ensures Fresh([], rules) && Added([], rules, rules)
  {
  }

  /** Parsing rules written in any layout stores exactly these rules, and a name that is given
      twice is an error. */
  lemma ParseWrite(rs: seq<LaidRule>, gap: Gap, remark: Option<string>)
    requires IsGap(gap) && (remark.Some? ==> InLine(remark.value)) && AllWritable(rs)
    requires AllWellWritten(rs, WriteGap(gap, WriteEnding(Ending(remark, None), "")))
    ensures var r := Run(WriteRules(rs, WriteGap(gap, WriteEnding(Ending(remark, None), ""))), START);
            if NoDuplicates(rs) then r.Value? && Added(rs, map[], r.value) else r == Failure(DuplicateRule)
  {
    hide WriteRules, WellWritten, Added, Step, IsGap, InLine;
    var last := if remark.Some? then "#" + remark.value else "";
    assert WriteEnding(Ending(remark, None), "") == last;
    var g := WriteRules(rs, WriteGap(gap, last));
    assert g[0..] == g;
    var all := RulesRun(g, 0, rs, WriteGap(gap, last), map[]);
    if NoDuplicates(rs) {
      var c := |g| - |WriteGap(gap, last)|;
      GapRuns(g, Between(c, all), gap, last);
      if remark.Some? {
        assert last == "#" + remark.value + "";
        RemarkRuns(g, Between(|g| - |last|, all), remark.value, "");
      }
    }
  }

  // ----- One line for every rule -----

  function PlainTokens(ts: seq<Token>): (laid: seq<Laid>)
    ensures |laid| == |ts| && Tokens(laid) == ts
    ensures forall k :: 0 <= k < |ts| ==> laid[k] == Laid(ts[k], false, [Blank(' ')])
  {
    if ts == [] then [] else [Laid(ts[0], false, [Blank(' ')])] + PlainTokens(ts[1..])
  }

  function Plain(name: string, rule: Rule): LaidRule {
    var gap, tokens := [Blank(' ')], PlainTokens(rule.tokens);
    LaidRule([], name, gap, rule.parameter, [], gap, tokens, Ending(None, Some('\n')))
  }

  lemma {:induction false} PlainTokensAreLaid(ts: seq<Token>, rest: string, open: nat)
    requires forall k :: 0 <= k < |ts| ==> Writable(ts[k])
    requires forall k :: 0 <= k <= |ts| ==> open + Balance(ts[..k]) >= 0
    ensures WellLaid(PlainTokens(ts), rest, open)
    decreases |ts|
  {
    hide Writable, WriteToken, Delta, Balance;
    if ts != [] {
      var t, rest' := ts[0], WriteTokens(PlainTokens(ts[1..]), rest);
      OpenAfter(ts, open, 0);
      assert PlainTokens(ts)[1..] == PlainTokens(ts[1..]);
      PlainGap(t, rest');
      forall k | 0 <= k < |ts| ensures open + Delta(t) + Balance(ts[1..][..k]) >= 0 {
        OpenAfter(ts, open, k);
      }
      PlainTokensAreLaid(ts[1..], rest, open + Delta(t));
    }
  }

  lemma OpenAfter(ts: seq<Token>, open: nat, k: nat)
    requires k < |ts| && forall k :: 0 <= k <= |ts| ==> open + Balance(ts[..k]) >= 0
    ensures open + Delta(ts[0]) + Balance(ts[1..][..k]) >= 0
    ensures k == 0 ==> open + Delta(ts[0]) >= 0
  {
    assert ts[..k + 1][1..] == ts[1..][..k];
    assert open + Balance(ts[..k + 1]) >= 0;
  }

  lemma PlainGap(t: Token, rest: string)
    ensures var gap := [Blank(' ')]; IsGap(gap) && OneLine(gap) && Apart(t, false, WriteGap(gap, rest))
  {
    assert WriteGap([Blank(' ')], rest) == [' '] + rest;
  }

  /** Every rule with closed brackets that does not end in a `/` can be written. */
  lemma PlainIsWellWritten(name: string, rule: Rule, rest: string)
    requires IsRuleName(name) && (rule.parameter.Some? ==> IsName(rule.parameter.value))
    requires (forall k :: 0 <= k < |rule.tokens| ==> Writable(rule.tokens[k]))
    requires Bracketed(rule.tokens) && CanEnd(rule.tokens)
    ensures WellWritten(Plain(name, rule), rest) && Plain(name, rule).Stored() == rule
  {
    hide Writable, WellLaid, IsRuleName, IsName, Balance;
    PlainTokensAreLaid(rule.tokens, WriteEnding(Ending(None, Some('\n')), rest), 0);
  }

  // ----- Errors -----

  /** Neither skipped nor a comment. */
  predicate IsInk(c: char) {
    c != '#' && !IsFiller(Blank(c))
  }

  lemma NameErrors(g: string, st: State, rest: string)
    requires st.phase.RuleName? && Behind(g, st.c, rest) && rest != []
    requires IsInk(rest[0]) && !IsLetter(rest[0]) && rest[0] != '%'
    ensures Run(g, st) == Failure(ExpectedRuleName)
  {
    BehindStart(g, st.c, rest);
    LettersAreAlphaNumeric(rest[0]);
  }

  /** What may not follow the name of a rule. */
  lemma SeparatorErrors(g: string, st: State, rest: string)
    requires st.phase.RuleSeparator? && Behind(g, st.c, rest)
    ensures rest == [] ==> Run(g, st) == Failure(MissingDefinition)
    ensures rest != [] && rest[0] == '(' && st.rule.parameter.Some? ==> Run(g, st) == Failure(MultipleParameters)
    ensures rest != [] && rest[0] == '(' && st.rule.parameter.None? && EndsName(rest[1..]) ==>
              Run(g, st) == Failure(ExpectedParameter)
    ensures rest != [] && IsInk(rest[0]) && rest[0] != '(' && (|rest| == 1 || rest[..2] != "<-") ==>
              Run(g, st) == Failure(ExpectedDefinition)
  {
    hide DefinitionStep, NameStep;
    BehindStart(g, st.c, rest);
    if rest != [] && rest[0] == '(' && st.rule.parameter.None? && EndsName(rest[1..]) {
      assert rest == "(" + rest[1..];
      Pass(g, st.c, "(", rest[1..]);
      assert [] + rest[1..] == rest[1..];
      NameEndAt(g, st.c + 1, [], rest[1..]);
    }
    assert |rest| >= 2 ==> g[st.c..st.c + 2] == rest[..2];
  }

  lemma ParameterErrors(g: string, st: State, name: string, rest: string)
    requires st.phase.RuleSeparator? && st.rule.parameter.None? && Behind(g, st.c, "(" + (name + rest))
    requires IsName(name) && EndsName(rest) && (rest == [] || rest[0] != ')')
    ensures Run(g, st) == Failure(ExpectedCloseBracket)
  {
    hide DefinitionStep, NameStep, Behind, NameEnd, IsName;
    BehindStart(g, st.c, "(" + (name + rest));
    Pass(g, st.c, "(", name + rest);
    NameAt(g, st.c + 1, name, rest);
    BehindStart(g, st.c + 1 + |name|, rest);
  }

  /** What may not stand in a definition. */
  lemma DefinitionErrors(g: string, st: State, rest: string)
    requires st.phase.RuleDefinition? && Behind(g, st.c, rest)
    ensures rest == [] && st.rule.tokens == [] ==> Run(g, st) == Failure(EmptyRule)
    ensures rest != [] && rest[0] == ')' && st.brackets == 0 ==> Run(g, st) == Failure(UnopenedBracket)
    ensures rest != [] && rest[0] == '\'' && WellEscaped(rest[1..], '\'') ==> Run(g, st) == Failure(UnclosedLiteral)
    ensures rest != [] && IsInk(rest[0]) && rest[0] != '\'' && rest[0] != '[' && rest[0] != '<'
            && !Writable(Reference([rest[0]])) && !Writable(Operator(rest[0])) ==>
              Run(g, st) == Failure(UnrecognizedContents)
  {
    hide NameStep, SeparatorStep, RegexEnd, NameEnd, LiteralEnd;
    BehindStart(g, st.c, rest);
    if rest != [] {
      LettersAreAlphaNumeric(rest[0]);
      if WellEscaped(rest[1..], '\'') {
        assert g[st.c + 1..] == rest[1..];
        LiteralStaysOpen(g, st.c + 1, rest[1..]);
      }
    }
  }

  lemma {:induction false} LiteralStaysOpen(g: string, c: nat, text: string)
    requires Behind(g, c, text) && WellEscaped(text, '\'')
    ensures LiteralEnd(g, c) == |g|
    decreases |text|
  {
    if text != [] {
      var k := if text[0] == '\\' then 2 else 1;
      assert g[c] == text[0] && g[c + k..] == text[k..];
      LiteralStaysOpen(g, c + k, text[k..]);
    }
  }
}
