/** PEGParser::ParseRules (matcher.cpp:695-927): the lexer that turns grammar text into
    rules. A rule ends at a newline outside brackets that does not follow a `/`. */
module GrammarLexer {
  import opened Text
  import opened Grammar
  import opened GrammarBrackets

  datatype Phase = RuleName | RuleSeparator | RuleDefinition

  /** The local variables of ParseRules, and the rules stored so far. */
  datatype State = State(c: nat, phase: Phase, name: string, rule: Rule, brackets: nat, inOr: bool, rules: Rules)

  /** The exceptions of ParseRules. Text that ends inside an escape or a regular expression
      is read past its end by the original; it counts as an error here. */
  datatype LexError =
    | ExpectedRuleName | MultipleParameters | ExpectedParameter | ExpectedCloseBracket
    | ExpectedDefinition | UnclosedLiteral | UnopenedBracket | UnrecognizedContents
    | DuplicateRule | MissingDefinition | EmptyRule | ReadsPastEnd

  datatype Lexed<+T> = Value(value: T) | Failure(error: LexError)

  const EMPTY_RULE := Rule(None, [])
  const START := State(0, RuleName, "", EMPTY_RULE, 0, false, map[])

  predicate IsPegOperator(c: char) {
    c in "/?()*!"
  }

  // ----- Scans -----

  /** The end of the line. */
  function LineEnd(g: string, c: nat): (e: nat)
    requires c <= |g|
    ensures c <= e <= |g|
    decreases |g| - c
  {
    if c == |g| || IsNewline(g[c]) then c else LineEnd(g, c + 1)
  }

  /** The end of a run of letters and digits. */
  function NameEnd(g: string, c: nat): (e: nat)
    requires c <= |g|
    ensures c <= e <= |g|
    decreases |g| - c
  {
    if c == |g| || !IsAlphaNumeric(g[c]) then c else NameEnd(g, c + 1)
  }

  /** The closing quote of a literal; |g| if there is none, more if an escape is cut off. */
  function LiteralEnd(g: string, c: nat): (e: nat)
    requires c <= |g| + 1
    ensures c <= e <= |g| + 1
    decreases |g| + 1 - c
  {
    if c >= |g| || g[c] == '\'' then c
    else LiteralEnd(g, if g[c] == '\\' then c + 2 else c + 1)
  }

  /** Just after the final character of a regular expression; more than |g| if cut off. */
  function RegexEnd(g: string, c: nat, final: char): (e: nat)
    requires c <= |g|
    ensures c < e <= |g| + 1
    decreases |g| - c
  {
    if c == |g| || g[c] == final then c + 1
    else if g[c] != '\\' then RegexEnd(g, c + 1, final)
    else if c + 1 == |g| then |g| + 1
    else RegexEnd(g, c + 2, final)
  }

  // ----- One iteration -----

  /** AddRule */
  function WithRule(rules: Rules, name: string, rule: Rule): Lexed<Rules> {
    if name in rules then Failure(DuplicateRule) else Value(rules[name := rule])
  }

  function AddToken(st: State, t: Token, c: nat): State {
    st.(c := c, inOr := t == Operator('/'), rule := st.rule.(tokens := st.rule.tokens + [t]))
  }

  predicate CompletesRule(g: string, st: State)
    requires st.c < |g|
  {
    st.phase.RuleDefinition? && IsNewline(g[st.c]) && st.brackets == 0 && !st.inOr && st.rule.tokens != []
  }

  function Step(g: string, st: State): (r: Lexed<State>)
    requires st.c < |g|
    ensures r.Value? ==> st.c < r.value.c <= |g|
  {
    if g[st.c] == '#' then Value(st.(c := LineEnd(g, st.c)))
    else if CompletesRule(g, st) then
      match WithRule(st.rules, st.name, st.rule)
      case Value(rules) => Value(State(st.c + 1, RuleName, "", EMPTY_RULE, st.brackets, st.inOr, rules))
      case Failure(e) => Failure(e)
    else if IsSpace(g[st.c]) then Value(st.(c := st.c + 1))
    else match st.phase
      case RuleName => NameStep(g, st)
      case RuleSeparator => SeparatorStep(g, st)
      case RuleDefinition => DefinitionStep(g, st)
  }

  function NameStep(g: string, st: State): (r: Lexed<State>)
    requires st.c < |g|
    ensures r.Value? ==> st.c < r.value.c <= |g|
  {
    var e := NameEnd(g, if g[st.c] == '%' then st.c + 1 else st.c);
    if e == st.c then Failure(ExpectedRuleName)
    else Value(st.(c := e, phase := RuleSeparator, name := g[st.c..e], rule := EMPTY_RULE))
  }

  function SeparatorStep(g: string, st: State): (r: Lexed<State>)
    requires st.c < |g|
    ensures r.Value? ==> st.c < r.value.c <= |g|
  {
    var c := st.c;
    if g[c] == '(' then
      if st.rule.parameter.Some? then Failure(MultipleParameters)
      else
        var e := NameEnd(g, c + 1);
        if e == c + 1 then Failure(ExpectedParameter)
        else if e == |g| || g[e] != ')' then Failure(ExpectedCloseBracket)
        else Value(st.(c := e + 1, rule := st.rule.(parameter := Some(g[c + 1..e]))))
    else if c + 1 < |g| && g[c..c + 2] == "<-" then Value(st.(c := c + 2, phase := RuleDefinition))
    else Failure(ExpectedDefinition)
  }

  function DefinitionStep(g: string, st: State): (r: Lexed<State>)
    requires st.c < |g|
    ensures r.Value? ==> st.c < r.value.c <= |g|
  {
    var c := st.c;
    if g[c] == '\'' then
      var e := LiteralEnd(g, c + 1);
      if e > |g| then Failure(ReadsPastEnd)
      else if e == |g| then Failure(UnclosedLiteral)
      else
        // an `i` after the literal marks it case insensitive, which every keyword is
        var after := if e + 1 < |g| && g[e + 1] == 'i' then e + 2 else e + 1;
        Value(AddToken(st, Literal(g[c + 1..e]), after))
    else if IsAlphaNumeric(g[c]) then
      var e := NameEnd(g, c);
      if e < |g| && g[e] == '(' then
        Value(AddToken(st, FunctionCall(g[c..e]), e + 1).(brackets := st.brackets + 1))
      else Value(AddToken(st, Reference(g[c..e]), e))
    else if g[c] == '[' || g[c] == '<' then
      var e := RegexEnd(g, c, if g[c] == '[' then ']' else '>');
      if e > |g| then Failure(ReadsPastEnd) else Value(AddToken(st, Regex(g[c..e]), e))
    else if IsPegOperator(g[c]) then
      if g[c] == ')' && st.brackets == 0 then Failure(UnopenedBracket)
      else
        Value(AddToken(st, Operator(g[c]), c + 1).(brackets := st.brackets + Delta(Operator(g[c]))))
    else Failure(UnrecognizedContents)
  }

  /** What is stored at the end of the text. */
  function Finish(st: State): Lexed<Rules> {
    match st.phase
    case RuleName => Value(st.rules)
    case RuleSeparator => Failure(MissingDefinition)
    case RuleDefinition => if st.rule.tokens == [] then Failure(EmptyRule) else WithRule(st.rules, st.name, st.rule)
  }

  function Run(g: string, st: State): Lexed<Rules>
    requires st.c <= |g|
    decreases |g| - st.c
  {
    if st.c == |g| then Finish(st)
    else match Step(g, st)
      case Value(next) => Run(g, next)
      case Failure(e) => Failure(e)
  }

  // ----- What a stored rule satisfies -----

  /** bracket_count is the balance of the rule being read, and 0 between rules. */
  ghost predicate Counts(st: State) {
    && Stored(st.rules)
    && Bracketed(st.rule.tokens)
    && Balance(st.rule.tokens) == st.brackets
    && (!st.phase.RuleDefinition? ==> st.brackets == 0 && st.rule.tokens == [])
  }

  lemma BracketedSnoc(ts: seq<Token>, t: Token)
    requires Bracketed(ts) && Balance(ts) + Delta(t) >= 0 && t != FunctionCall("")
    ensures Bracketed(ts + [t]) && Balance(ts + [t]) == Balance(ts) + Delta(t)
  {
    BalanceSnoc(ts, t);
    var all := ts + [t];
    forall k | 0 <= k <= |all| ensures Balance(all[..k]) >= 0 {
      if k <= |ts| {
        assert all[..k] == ts[..k];
      } else {
        assert all[..k] == all;
      }
    }
  }

  lemma DefinitionCounts(g: string, st: State)
    requires st.c < |g| && Counts(st) && st.phase.RuleDefinition? && DefinitionStep(g, st).Value?
    ensures Counts(DefinitionStep(g, st).value)
  {
    hide Bracketed, Balance;
    var next := DefinitionStep(g, st).value;
    var ts := st.rule.tokens;
    var t := next.rule.tokens[|ts|];
    BracketedSnoc(ts, t);
  }

  lemma StepCounts(g: string, st: State)
    requires st.c < |g| && Counts(st) && Step(g, st).Value?
    ensures Counts(Step(g, st).value)
  {
    hide DefinitionStep;
    if g[st.c] != '#' && !CompletesRule(g, st) && !IsSpace(g[st.c]) && st.phase.RuleDefinition? {
      DefinitionCounts(g, st);
    }
  }

  /** Every rule that ParseRules stores has tokens, with an open bracket at every close. */
  lemma {:induction false} RunStores(g: string, st: State)
    requires st.c <= |g| && Counts(st) && Run(g, st).Value?
    ensures Stored(Run(g, st).value)
    decreases |g| - st.c
  {
    hide Step, Counts, Bracketed;
    if st.c < |g| {
      StepCounts(g, st);
      RunStores(g, Step(g, st).value);
    } else {
      FinishStores(st);
    }
  }

  lemma FinishStores(st: State)
    requires Counts(st) && Finish(st).Value?
    ensures Stored(Finish(st).value)
  {
  }

  lemma ParsedRulesAreStored(g: string)
    requires Run(g, START).Value?
    ensures Stored(Run(g, START).value)
  {
    hide Run;
    RunStores(g, START);
  }

  /** The stack machine raises none of the errors of the matcher stack on a rule that ParseRules
      has stored; MatcherFactory states the same of CreateMatcher. */
  lemma StoredRulesCompile(g: string, name: string)
    requires Run(g, START).Value? && name in Run(g, START).value
    ensures var r := Parse(Run(g, START).value[name].tokens); r.Err? ==> !StackError(r.error)
  {
    hide Run;
    RunStores(g, START);
    StoredRuleErrors(Run(g, START).value[name].tokens);
  }

  // ----- The code -----

  method ScanLine(g: string, start: nat) returns (c: nat)
    requires start <= |g|
    ensures c == LineEnd(g, start)
  {
    c := start;
    while c < |g| && !IsNewline(g[c])
      invariant start <= c <= |g| && LineEnd(g, c) == LineEnd(g, start)
    {
      c := c + 1;
    }
  }

  method ScanName(g: string, start: nat) returns (c: nat)
    requires start <= |g|
    ensures c == NameEnd(g, start)
  {
    c := start;
    while c < |g| && IsAlphaNumeric(g[c])
      invariant start <= c <= |g| && NameEnd(g, c) == NameEnd(g, start)
    {
      c := c + 1;
    }
  }

  method ScanLiteral(g: string, start: nat) returns (c: nat)
    requires start <= |g|
    ensures c == LiteralEnd(g, start)
  {
    c := start;
    while c < |g| && g[c] != '\''
      invariant start <= c <= |g| + 1 && LiteralEnd(g, c) == LiteralEnd(g, start)
      decreases |g| + 1 - c
    {
      if g[c] == '\\' {
        c := c + 1;
      }
      c := c + 1;
    }
  }

  method ScanRegex(g: string, start: nat, final: char) returns (c: nat)
    requires start <= |g|
    ensures c == RegexEnd(g, start, final)
  {
    c := start;
    while c < |g| && g[c] != final
      invariant start <= c <= |g| && RegexEnd(g, c, final) == RegexEnd(g, start, final)
    {
      if g[c] == '\\' {
        c := c + 1;
      }
      if c < |g| {
        c := c + 1;
      }
    }
    c := c + 1;
  }

  class PegParser {
    var rules: Rules

    constructor ()
      ensures rules == map[]
    {
      rules := map[];
    }

    method AddRule(name: string, rule: Rule) returns (error: Option<LexError>)
      modifies this
      ensures match WithRule(old(rules), name, rule)
              case Value(all) => error.None? && rules == all
              case Failure(e) => error == Some(e) && rules == old(rules)
    {
      if name in rules {
        return Some(DuplicateRule);
      }
      rules := rules[name := rule];
      return None;
    }

    /** ParseRules; the rules are stored unless an exception is raised. */
    method ParseRules(g: string) returns (error: Option<LexError>)
      modifies this
      ensures match Run(g, START.(rules := old(rules)))
              case Value(all) => error.None? && rules == all
              case Failure(e) => error == Some(e)
    {
      hide Step;
      var st := START.(rules := rules);
      while st.c < |g|
        invariant st.c <= |g| && rules == st.rules
        invariant Run(g, st) == Run(g, START.(rules := old(rules)))
        decreases |g| - st.c
      {
        var r := ReadNext(g, st);
        if r.Failure? {
          return Some(r.error);
        }
        st := r.value;
      }
      match st.phase {
        case RuleName => return None;
        case RuleSeparator => return Some(MissingDefinition);
        case RuleDefinition =>
          if st.rule.tokens == [] {
            return Some(EmptyRule);
          }
          error := AddRule(st.name, st.rule);
      }
    }

    /** One iteration of the loop. */
    method ReadNext(g: string, st: State) returns (r: Lexed<State>)
      requires st.c < |g| && rules == st.rules
      modifies this
      ensures r == Step(g, st) && (r.Value? ==> rules == r.value.rules)
    {
      hide NameStep, SeparatorStep, DefinitionStep;
      if g[st.c] == '#' {
        var c := ScanLine(g, st.c);
        return Value(st.(c := c));
      }
      if CompletesRule(g, st) {
        var error := AddRule(st.name, st.rule);
        if error.Some? {
          return Failure(error.value);
        }
        return Value(State(st.c + 1, RuleName, "", EMPTY_RULE, st.brackets, st.inOr, rules));
      }
      if IsSpace(g[st.c]) {
        return Value(st.(c := st.c + 1));
      }
      match st.phase {
        case RuleName => r := ReadName(g, st);
        case RuleSeparator => r := ReadSeparator(g, st);
        case RuleDefinition => r := ReadDefinition(g, st);
      }
    }
  }

  method ReadName(g: string, st: State) returns (r: Lexed<State>)
    requires st.c < |g|
    ensures r == NameStep(g, st) && (r.Value? ==> r.value.rules == st.rules)
  {
    var c := ScanName(g, if g[st.c] == '%' then st.c + 1 else st.c);
    if c == st.c {
      return Failure(ExpectedRuleName);
    }
    return Value(st.(c := c, phase := RuleSeparator, name := g[st.c..c], rule := EMPTY_RULE));
  }

  method ReadSeparator(g: string, st: State) returns (r: Lexed<State>)
    requires st.c < |g|
    ensures r == SeparatorStep(g, st) && (r.Value? ==> r.value.rules == st.rules)
  {
    if g[st.c] == '(' {
      if st.rule.parameter.Some? {
        return Failure(MultipleParameters);
      }
      var c := ScanName(g, st.c + 1);
      if c == st.c + 1 {
        return Failure(ExpectedParameter);
      }
      if c == |g| || g[c] != ')' {
        return Failure(ExpectedCloseBracket);
      }
      return Value(st.(c := c + 1, rule := st.rule.(parameter := Some(g[st.c + 1..c]))));
    }
    if st.c + 1 < |g| && g[st.c..st.c + 2] == "<-" {
      return Value(st.(c := st.c + 2, phase := RuleDefinition));
    }
    return Failure(ExpectedDefinition);
  }

  method ReadDefinition(g: string, st: State) returns (r: Lexed<State>)
    requires st.c < |g|
    ensures r == DefinitionStep(g, st) && (r.Value? ==> r.value.rules == st.rules)
  {
    var start := st.c;
    if g[start] == '\'' {
      var c := ScanLiteral(g, start + 1);
      if c > |g| {
        return Failure(ReadsPastEnd);
      }
      if c == |g| {
        return Failure(UnclosedLiteral);
      }
      var text := g[start + 1..c];
      c := c + 1;
      if c < |g| && g[c] == 'i' {
        c := c + 1;
      }
      return Value(AddToken(st, Literal(text), c));
    }
    if IsAlphaNumeric(g[start]) {
      var c := ScanName(g, start);
      if c < |g| && g[c] == '(' {
        return Value(AddToken(st, FunctionCall(g[start..c]), c + 1).(brackets := st.brackets + 1));
      }
      return Value(AddToken(st, Reference(g[start..c]), c));
    }
    if g[start] == '[' || g[start] == '<' {
      var c := ScanRegex(g, start, if g[start] == '[' then ']' else '>');
      if c > |g| {
        return Failure(ReadsPastEnd);
      }
      return Value(AddToken(st, Regex(g[start..c]), c));
    }
    if !IsPegOperator(g[start]) {
      return Failure(UnrecognizedContents);
    }
    var brackets := st.brackets;
    if g[start] == '(' {
      brackets := brackets + 1;
    } else if g[start] == ')' {
      if brackets == 0 {
        return Failure(UnopenedBracket);
      }
      brackets := brackets - 1;
    }
    return Value(AddToken(st, Operator(g[start]), start + 1).(brackets := brackets));
  }
}
