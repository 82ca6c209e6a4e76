/** MatcherFactory and MatcherList (matcher.cpp:564-640, 929-1195): the construction of
    the matcher graph from a rule set, with its memo table, its stack and its macros. */
module MatcherFactory {
  import opened Text
  import opened Matcher
  import opened Grammar
  import opened GrammarBrackets
  import opened GrammarMeaning
  import opened MatcherStore

  /** AddKeywordOverride */
  const KEYWORD_OVERRIDES: seq<string> := ["TABLE", ".", "("]

  /** AddRuleOverride */
  const RULE_OVERRIDES: seq<(string, Node)> := [
    ("Identifier", Name(Variable)),
    ("ReservedIdentifier", ReservedName(Variable)),
    ("TypeName", Name(TypeName)),
    ("TableName", Name(TableName)),
    ("ReservedTableName", ReservedName(TableName)),
    ("CatalogName", Name(CatalogName)),
    ("SchemaName", Name(SchemaName)),
    ("ReservedSchemaName", ReservedName(SchemaName)),
    ("ColumnName", Name(ColumnName)),
    ("ReservedColumnName", ReservedName(ColumnName)),
    ("TableFunctionName", Name(TableFunctionName)),
    ("FunctionName", Name(ScalarFunctionName)),
    ("ReservedFunctionName", ReservedName(ScalarFunctionName)),
    ("PragmaName", Name(PragmaName)),
    ("SettingName", Name(SettingName)),
    ("NumberLiteral", NumberLiteral),
    ("StringLiteral", StringLiteral),
    ("OperatorLiteral", Node.Operator)]

  function Lowered(words: seq<string>): set<string> {
    set w | w in words :: Lower(w)
  }

  /** The keywords that share one matcher, in any case. */
  lemma OverriddenKeywords()
    ensures Lowered(KEYWORD_OVERRIDES[..3]) == {"table", ".", "("}
  {
    assert KEYWORD_OVERRIDES[..3] == ["TABLE", ".", "("];
    assert Lower("TABLE") == "table" && Lower(".") == "." && Lower("(") == "(";
    assert "TABLE" in KEYWORD_OVERRIDES[..3] && "." in KEYWORD_OVERRIDES[..3] && "(" in KEYWORD_OVERRIDES[..3];
  }

  /** The table as a map; as with insert, the first entry for a name stays. */
  function TableMap(table: seq<(string, Node)>): map<string, Node> {
    if table == [] then map[]
    else
      var rest, (name, node) := TableMap(table[..|table| - 1]), table[|table| - 1];
      if name in rest then rest else rest[name := node]
  }

  lemma {:induction false} TableLeaves(table: seq<(string, Node)>)
    requires forall k :: 0 <= k < |table| ==> !table[k].1.Inner()
    ensures forall name :: name in TableMap(table) ==> !TableMap(table)[name].Inner()
  {
    if table != [] { TableLeaves(table[..|table| - 1]); }
  }

  ghost function LanguageOf(rules: Rules): Language {
    Language(rules, TableMap(RULE_OVERRIDES))
  }

  lemma LanguageValid(rules: Rules)
    ensures LanguageOf(rules).Valid()
  {
    TableLeaves(RULE_OVERRIDES);
  }

  /** Rules with a parameter call only rules with a smaller rank. */
  ghost predicate Acyclic(rules: Rules, rank: string -> nat, top: nat) {
    && (forall name :: rank(name) <= top)
    && (forall name, k :: name in rules && rules[name].parameter.Some? && 0 <= k < |rules[name].tokens| ==>
          CallsBelow(rules[name].tokens[k], rank, rank(name)))
  }

  ghost predicate CallsBelow(t: Token, rank: string -> nat, bound: nat) {
    t.FunctionCall? && t.name != "" ==> rank(t.name) < bound
  }

  /** Every rule in `refs` and every macro in `calls` has a body, and names only the others
      or its own parameter. */
  ghost predicate Complete(lang: Language, refs: set<string>, calls: set<string>) {
    && (forall name :: name in refs && name !in lang.overrides ==>
          lang.HasBody(name, false) && NamesWithin(lang.rules[name], refs, calls))
    && (forall name :: name in calls ==>
          lang.HasBody(name, true) && NamesWithin(lang.rules[name], refs, calls))
  }

  ghost predicate NamesWithin(rule: Rule, refs: set<string>, calls: set<string>) {
    forall k :: 0 <= k < |rule.tokens| ==> NameWithin(rule.parameter, rule.tokens[k], refs, calls)
  }

  ghost predicate NameWithin(parameter: Option<string>, t: Token, refs: set<string>, calls: set<string>) {
    match t
    case Reference(name) => parameter == Some(name) || name in refs
    case FunctionCall(name) => name == "" || name in calls
    case _ => true
  }

  /** Why a construction terminates, and which names it may need. */
  datatype Plan = Plan(rank: string -> nat, top: nat, refs: set<string>, calls: set<string>)

  class MatcherFactory {
    const rules: Rules
    var nodes: Graph
    var matchers: map<string, Id>
    var keywordOverrides: Shared
    ghost var labels: Labels
    ghost var pending: set<Id>

    ghost function View(): Store
      reads this
    {
      Store(nodes, matchers, labels, pending)
    }

    ghost predicate Valid()
      reads this
    {
      LanguageOf(rules).Valid() && Consistent(LanguageOf(rules), keywordOverrides, View())
    }

    /** A factory with its keyword and rule overrides in place. */
    constructor (rules: Rules)
      ensures Valid() && this.rules == rules && pending == {}
      ensures keywordOverrides.Keys == {"table", ".", "("}
    {
      this.rules := rules;
      nodes, matchers, keywordOverrides := [], map[], map[];
      labels, pending := map[], {};
      new;
      hide Seeded, Consistent, TableMap;
      SeedEmpty();
      AddKeywordOverrides();
      for k := 0 to |RULE_OVERRIDES|
        invariant Seeded(RULE_OVERRIDES[..k], keywordOverrides, View()) && pending == {}
        invariant keywordOverrides.Keys == {"table", ".", "("}
      {
        assert RULE_OVERRIDES[..k + 1][..k] == RULE_OVERRIDES[..k];
        AddRuleOverride(RULE_OVERRIDES[k].0, RULE_OVERRIDES[k].1, RULE_OVERRIDES[..k + 1]);
      }
      assert RULE_OVERRIDES[..|RULE_OVERRIDES|] == RULE_OVERRIDES;
      LanguageValid(rules);
      SeedConsistent(rules, keywordOverrides, View());
    }

    method AddKeywordOverrides()
      requires Seeded([], keywordOverrides, View()) && keywordOverrides == map[]
      modifies this`nodes, this`keywordOverrides, this`labels
      ensures Seeded([], keywordOverrides, View()) && keywordOverrides.Keys == {"table", ".", "("}
    {
      hide Seeded;
      for k := 0 to |KEYWORD_OVERRIDES|
        invariant Seeded([], keywordOverrides, View())
        invariant keywordOverrides.Keys == Lowered(KEYWORD_OVERRIDES[..k])
      {
        assert KEYWORD_OVERRIDES[..k + 1] == KEYWORD_OVERRIDES[..k] + [KEYWORD_OVERRIDES[k]];
        AddKeywordOverride(KEYWORD_OVERRIDES[k], []);
      }
      OverriddenKeywords();
    }

    method AddKeywordOverride(name: string, ghost table: seq<(string, Node)>)
      requires Seeded(table, keywordOverrides, View())
      modifies this`nodes, this`keywordOverrides, this`labels
      ensures Seeded(table, keywordOverrides, View())
      ensures keywordOverrides.Keys == old(keywordOverrides.Keys) + {Lower(name)}
    {
      hide Seeded, Lower;
      SeedKeyword(table, keywordOverrides, View(), name);
      nodes := nodes + [Node.Keyword(name)];
      labels := labels[|nodes| - 1 := Label(Lit(Lower(name)), NoArg)];
      if Lower(name) !in keywordOverrides {
        keywordOverrides := keywordOverrides[Lower(name) := |nodes| - 1];
      }
    }

    method AddRuleOverride(name: string, node: Node, ghost table: seq<(string, Node)>)
      requires table != [] && table[|table| - 1] == (name, node) && !node.Inner()
      requires Seeded(table[..|table| - 1], keywordOverrides, View())
      modifies this`nodes, this`matchers, this`labels
      ensures Seeded(table, keywordOverrides, View())
    {
      hide Seeded;
      SeedRule(table, keywordOverrides, View());
      nodes := nodes + [node];
      if name !in matchers {
        matchers := matchers[name := |nodes| - 1];
        labels := labels[|nodes| - 1 := Label(Ref(name), NoArg)];
      }
    }

    // ----- MatcherAllocator and the base primitives -----

    method Allocate(node: Node) returns (id: Id)
      requires Valid() && node.Within(|nodes|)
      modifies this`nodes
      ensures id == |old(nodes)| && View() == Grow(old(View()), node)
      ensures Valid() && Keeps(old(View()), View(), |old(nodes)|)
    {
      GrowKeeps(LanguageOf(rules), keywordOverrides, View(), node);
      id := |nodes|;
      nodes := nodes + [node];
    }

    method AllocateFinished(node: Node, ghost l: Label) returns (id: Id)
      requires Valid() && node.Within(|nodes|)
      requires !l.e.Ref? && Fits(LanguageOf(rules), node, labels, l)
      modifies this`nodes, this`labels
      ensures id == |old(nodes)| && View() == GrowFinished(old(View()), node, l)
      ensures Valid() && Keeps(old(View()), View(), |old(nodes)|)
    {
      GrowFinishedKeeps(LanguageOf(rules), keywordOverrides, View(), node, l);
      id := |nodes|;
      nodes := nodes + [node];
      labels := labels[id := l];
    }

    /** Keyword: overridden keywords share one matcher. */
    method Keyword(text: string) returns (id: Id)
      requires Valid()
      modifies this`nodes, this`labels
      ensures Valid() && Keeps(old(View()), View(), |old(nodes)|)
      ensures id in labels && labels[id] == Label(Lit(Lower(text)), NoArg)
      ensures id == if Lower(text) in keywordOverrides then keywordOverrides[Lower(text)] else |old(nodes)|
    {
      if Lower(text) in keywordOverrides {
        return keywordOverrides[Lower(text)];
      }
      id := AllocateFinished(Node.Keyword(text), Label(Lit(Lower(text)), NoArg));
    }

    // ----- MatcherList -----

    /** MatcherList::AddMatcher */
    method AddMatcher(stack: seq<Entry>, x: Id, ghost frames: Stack, ghost env: Env, ghost e: Expr, ghost base: nat)
      returns (r: Result<seq<Entry>>)
      requires Valid() && base <= |nodes| && Above(stack, base)
      requires StackFits(nodes, labels, stack, frames, env) && stack[0].matcher in pending
      requires x in labels && labels[x] == Resolve(e, env)
      modifies this`nodes, this`labels
      ensures Valid() && Keeps(old(View()), View(), base)
      ensures r.Ok? && StackFits(nodes, labels, r.value, Add(frames, e), env)
      ensures r.value == stack || (|stack| > 1 && r.value == stack[..|stack| - 1])
    {
      hide Consistent, StackFits, Keeps;
      ghost var st := View();
      TopFits(nodes, labels, stack, frames, env);
      var top := stack[|stack| - 1].matcher;
      match nodes[top] {
        case List(cs) =>
          AddToListKeeps(LanguageOf(rules), keywordOverrides, st, stack, frames, env, base, x, e);
          nodes := nodes[top := List(cs + [x])];
          return Ok(stack);
        case Choice(cs) =>
          AddToChoiceKeeps(LanguageOf(rules), keywordOverrides, st, stack, frames, env, base, x, e);
          if |stack| <= 1 {
            return Err(ChoiceAtRoot);
          }
          nodes := nodes[top := Choice(cs + [x])];
          labels := labels[top := Label(Alt([Top(frames).first, e]), env)];
          return Ok(stack[..|stack| - 1]);
        case _ => return Err(CannotAdd);
      }
    }

    /** Optional(x) for `?`, Optional(Repeat(x)) for `*`. */
    method Wrap(x: Id, op: char, ghost e: Expr, ghost env: Env) returns (id: Id)
      requires Valid() && x in labels && labels[x] == Resolve(e, env)
      modifies this`nodes, this`labels
      ensures Valid() && Keeps(old(View()), View(), |old(nodes)|)
      ensures id in labels && labels[id] == Resolve(Opt(if op == '*' then Plus(e) else e), env)
    {
      ghost var e := e;
      id := x;
      if op == '*' {
        assert [id][0] == id;
        id := AllocateFinished(Repeat(id), Label(Plus(e), env));
        e := Plus(e);
      }
      assert [id][0] == id;
      id := AllocateFinished(Optional(id), Label(Opt(e), env));
    }

    /** `?` and `*` on the last element of the list on top. */
    method AddSuffix(stack: seq<Entry>, op: char, ghost frames: Stack, ghost env: Env, ghost base: nat)
      returns (r: Result<seq<Entry>>)
      requires Valid() && base <= |nodes| && Above(stack, base) && (op == '?' || op == '*')
      requires StackFits(nodes, labels, stack, frames, env) && stack[0].matcher in pending
      modifies this`nodes, this`labels
      ensures Valid() && Keeps(old(View()), View(), base)
      ensures r.Err? ==> Shift(frames, Token.Operator(op)) == Err(r.error)
      ensures r.Ok? ==> r.value == stack && Shift(frames, Token.Operator(op)).Ok?
      ensures r.Ok? ==> StackFits(nodes, labels, stack, Shift(frames, Token.Operator(op)).value, env)
    {
      hide Consistent, StackFits, Keeps;
      TopFits(nodes, labels, stack, frames, env);
      KeepsItself(View(), base);
      var top := stack[|stack| - 1].matcher;
      if !nodes[top].List? {
        return Err(SuffixNotOnList);
      }
      var children := nodes[top].children;
      if children == [] {
        return Err(SuffixFirst);
      }
      ghost var st := View();
      ghost var last := Top(frames).es[|Top(frames).es| - 1];
      ghost var e := Opt(if op == '*' then Plus(last) else last);
      var final := Wrap(children[|children| - 1], op, last, env);
      ghost var st1 := View();
      StackKept(st, st1, stack, frames, env);
      KeepsNode(st, st1, top);
      KeepsBelow(st, st1, base);
      ReplaceLastKeeps(LanguageOf(rules), keywordOverrides, st1, stack, frames, env, base, final, e);
      nodes := nodes[top := List(children[..|children| - 1] + [final])];
      assert View() == WithLast(st1, stack, final);
      KeepsTransitive(st, st1, View(), base, base);
      return Ok(stack);
    }

    /** `/`: the last element becomes the first alternative of a choice. */
    method AddChoice(stack: seq<Entry>, ghost frames: Stack, ghost env: Env, ghost base: nat)
      returns (r: Result<seq<Entry>>)
      requires Valid() && base <= |nodes| && Above(stack, base)
      requires StackFits(nodes, labels, stack, frames, env) && stack[0].matcher in pending
      modifies this`nodes
      ensures Valid() && Keeps(old(View()), View(), base)
      ensures r.Err? ==> Shift(frames, Token.Operator('/')) == Err(r.error)
      ensures r.Ok? ==> r.value == stack + [Entry(|old(nodes)|, "")] && Shift(frames, Token.Operator('/')).Ok?
      ensures r.Ok? ==> StackFits(nodes, labels, r.value, Shift(frames, Token.Operator('/')).value, env)
    {
      hide Consistent, StackFits, Keeps;
      TopFits(nodes, labels, stack, frames, env);
      KeepsItself(View(), base);
      var top := stack[|stack| - 1].matcher;
      if !nodes[top].List? {
        return Err(OrNotOnList);
      }
      var children := nodes[top].children;
      if children == [] {
        return Err(OrFirst);
      }
      ghost var st := View();
      PushChoiceKeeps(LanguageOf(rules), keywordOverrides, st, stack, frames, env, base);
      var choice, final := |nodes|, children[|children| - 1];
      nodes := (nodes + [Choice([final])])[top := List(children[..|children| - 1] + [choice])];
      assert View() == WithLast(Grow(st, Choice([final])), stack, choice);
      return Ok(stack + [Entry(choice, "")]);
    }

    /** MatcherList::CloseBracket */
    method CloseBracket(stack: seq<Entry>, ghost frames: Stack, ghost env: Env, ghost base: nat, ghost level: nat,
        ghost plan: Plan)
      returns (r: Result<seq<Entry>>)
      requires Valid() && base <= |nodes| && Above(stack, base)
      requires StackFits(nodes, labels, stack, frames, env) && stack[0].matcher in pending
      requires Acyclic(rules, plan.rank, plan.top) && CallsRanked(stack, plan, level)
      modifies this`nodes, this`matchers, this`labels, this`pending
      ensures r.Ok? ==> Valid() && Keeps(old(View()), View(), base) && pending == old(pending)
      ensures r.Ok? ==> r.value != [] && r.value <= stack && Close(frames).Ok?
      ensures r.Ok? ==> StackFits(nodes, labels, r.value, Close(frames).value, env)
      ensures r.Err? && Complete(LanguageOf(rules), plan.refs, plan.calls) && CallsKnown(stack, plan) ==>
                Close(frames) == Err(r.error)
      ensures r.Err? && Stored(rules) && |stack| > 1 ==> !StackError(r.error)
      decreases rules.Keys - matchers.Keys, level, 1
    {
      hide Consistent, StackFits, Keeps, Acyclic, Complete, Stored;
      ghost var st := View();
      TopFits(nodes, labels, stack, frames, env);
      if |stack| <= 1 {
        return Err(TooManyCloseBrackets);
      }
      var functionName := stack[|stack| - 1].functionName;
      if functionName == "" {
        r := CloseList(stack, frames, env, base);
      } else {
        r := CloseCall(stack, frames, env, base, level, plan);
      }
    }

    /** The closing bracket of a list; or of a choice that still waits, which is then
        added to the list that contains it already. */
    method CloseList(stack: seq<Entry>, ghost frames: Stack, ghost env: Env, ghost base: nat)
      returns (r: Result<seq<Entry>>)
      requires Valid() && base <= |nodes| && Above(stack, base) && |stack| > 1
      requires StackFits(nodes, labels, stack, frames, env) && stack[0].matcher in pending && !Top(frames).CallFrame?
      modifies this`nodes, this`labels
      ensures Valid() && Keeps(old(View()), View(), base)
      ensures r.Ok? && r.value != [] && r.value <= stack && Close(frames).Ok?
      ensures StackFits(nodes, labels, r.value, Close(frames).value, env)
    {
      hide Consistent, StackFits, Keeps, Close;
      ghost var st, frame := View(), Top(frames);
      TopFits(nodes, labels, stack, frames, env);
      CloseKeeps(LanguageOf(rules), keywordOverrides, st, stack, frames, env, base);
      ghost var e := if frame.ChoiceFrame? then Alt([frame.first]) else Group(frame.es);
      CloseAdds(frames, e);
      var top := stack[|stack| - 1].matcher;
      labels := labels[top := Label(e, env)];
      ghost var st1 := View();
      ghost var frames' := if frame.ChoiceFrame? then SetTop(Pop(frames), Top(Pop(frames)).es + [e]) else Pop(frames);
      r := AddMatcher(stack[..|stack| - 1], top, frames', env, e, base);
      KeepsTransitive(st, st1, View(), base, base);
    }

    /** The closing bracket of a function call: the macro is expanded. */
    method CloseCall(stack: seq<Entry>, ghost frames: Stack, ghost env: Env, ghost base: nat, ghost level: nat,
        ghost plan: Plan)
      returns (r: Result<seq<Entry>>)
      requires Valid() && base <= |nodes| && Above(stack, base) && |stack| > 1
      requires StackFits(nodes, labels, stack, frames, env) && stack[0].matcher in pending && Top(frames).CallFrame?
      requires Acyclic(rules, plan.rank, plan.top) && CallsRanked(stack, plan, level)
      modifies this`nodes, this`matchers, this`labels, this`pending
      ensures r.Ok? ==> Valid() && Keeps(old(View()), View(), base) && pending == old(pending)
      ensures r.Ok? ==> r.value != [] && r.value <= stack && Close(frames).Ok?
      ensures r.Ok? ==> StackFits(nodes, labels, r.value, Close(frames).value, env)
      ensures r.Err? ==> !(Complete(LanguageOf(rules), plan.refs, plan.calls) && CallsKnown(stack, plan))
      ensures r.Err? && Stored(rules) ==> !StackError(r.error)
      decreases rules.Keys - matchers.Keys, level, 0
    {
      hide Consistent, StackFits, Keeps, Acyclic, Complete, Stored;
      ghost var st := View();
      TopFits(nodes, labels, stack, frames, env);
      var top := stack[|stack| - 1];
      ghost var frame := Top(frames);
      ghost var e := Expr.Apply(frame.name, frame.es);
      NodeWithin(LanguageOf(rules), keywordOverrides, st, top.matcher);
      var argument := Argument(nodes[top.matcher].children, frame.es, env);
      ghost var st1 := View();
      StackKept(st, st1, stack, frames, env);
      KeepsBelow(st, st1, base);
      var call := CreateMatcher(top.functionName, Some(argument), frame.es, env, plan);
      if call.Err? {
        return Err(call.error);
      }
      ghost var st2 := View();
      StackKept(st1, st2, stack, frames, env);
      KeepsTransitive(st, st1, st2, base, |st1.nodes|);
      PopList(nodes, labels, stack, frames, env, Label(e, env));
      r := AddMatcher(stack[..|stack| - 1], call.value, Pop(frames), env, e, base);
      KeepsTransitive(st, st2, View(), base, base);
    }

    /** The arguments of a call are wrapped in a list unless there is just one. */
    method Argument(arguments: seq<Id>, ghost es: seq<Expr>, ghost env: Env) returns (id: Id)
      requires Valid() && Carries(labels, arguments, ResolveAll(es, env)) && AllBelow(arguments, |nodes|)
      modifies this`nodes, this`labels
      ensures Valid() && Keeps(old(View()), View(), |old(nodes)|)
      ensures id in labels && labels[id] == Resolve(AsArgument(es), env)
    {
      hide Consistent, Keeps;
      KeepsItself(View(), |nodes|);
      if |arguments| == 1 {
        return arguments[0];
      }
      id := AllocateFinished(List(arguments), Label(Group(es), env));
      KeepsItself(View(), |nodes|);
    }

    /** One iteration of the loop over a rule's tokens. */
    method AddToken(stack: seq<Entry>, t: Token, parameter: Option<string>, argument: Option<Id>,
        ghost frames: Stack, ghost env: Env, ghost base: nat, ghost level: nat, ghost plan: Plan)
      returns (r: Result<seq<Entry>>)
      requires Valid() && base <= |nodes| && Above(stack, base)
      requires StackFits(nodes, labels, stack, frames, env) && stack[0].matcher in pending
      requires Acyclic(rules, plan.rank, plan.top) && CallsRanked(stack, plan, level)
      requires level > 0 && CallsBelow(t, plan.rank, level - 1)
      requires Binds(labels, parameter, argument, env)
      modifies this`nodes, this`matchers, this`labels, this`pending
      ensures r.Ok? ==> Valid() && Keeps(old(View()), View(), base) && pending == old(pending)
      ensures r.Ok? ==> r.value != [] && r.value[0] == stack[0] && Above(r.value, base) && Shift(frames, t).Ok?
      ensures r.Ok? ==>
                StackFits(nodes, labels, r.value, Shift(frames, t).value, env) && CallsRanked(r.value, plan, level)
      ensures r.Ok? && CallsKnown(stack, plan) && NameWithin(parameter, t, plan.refs, plan.calls) ==>
                CallsKnown(r.value, plan)
      ensures r.Err? && Complete(LanguageOf(rules), plan.refs, plan.calls) && CallsKnown(stack, plan)
              && NameWithin(parameter, t, plan.refs, plan.calls)
              ==> Shift(frames, t) == Err(r.error)
      ensures r.Err? && Stored(rules) && (t == Token.Operator(')') ==> |stack| > 1) ==> !StackError(r.error)
      decreases rules.Keys - matchers.Keys, level, 3
    {
      hide Consistent, StackFits, Keeps, Acyclic, Complete, Stored, LanguageOf, Add, Push, Binds;
      ghost var st := View();
      TopFits(nodes, labels, stack, frames, env);
      KeepsItself(st, base);
      match t {
        case Literal(text) =>
          var keyword := Keyword(text);
          r := AddCreated(st, stack, keyword, frames, env, Lit(text), base);
        case Reference(name) =>
          var rule := FindReference(name, parameter, argument, env, level, plan);
          if rule.Err? {
            return Err(rule.error);
          }
          r := AddCreated(st, stack, rule.value, frames, env, Ref(name), base);
        case FunctionCall(name) => r := PushBracket(stack, name, frames, env, base);
        case Regex(_) => return Err(RegexNotSupported);
        case Operator(op) => r := AddOperator(stack, op, frames, env, base, level, plan);
      }
    }

    /** A reference is the argument if it names the parameter, and else the rule of that name. */
    method FindReference(name: string, parameter: Option<string>, argument: Option<Id>, ghost env: Env,
        ghost level: nat, ghost plan: Plan)
      returns (r: Result<Id>)
      requires Valid() && Acyclic(rules, plan.rank, plan.top) && level > 0
      requires Binds(labels, parameter, argument, env)
      modifies this`nodes, this`matchers, this`labels, this`pending
      ensures r.Ok? ==> Valid() && Keeps(old(View()), View(), |old(nodes)|) && pending == old(pending)
      ensures r.Ok? ==> r.value in labels && labels[r.value] == Resolve(Ref(name), env)
      ensures r.Err? ==> !(Complete(LanguageOf(rules), plan.refs, plan.calls)
                           && NameWithin(parameter, Reference(name), plan.refs, plan.calls))
      ensures r.Err? && Stored(rules) ==> !StackError(r.error)
      decreases rules.Keys - matchers.Keys, level, 2
    {
      hide Consistent, Keeps, Acyclic, Complete, Stored;
      KeepsItself(View(), |nodes|);
      if parameter == Some(name) {
        return Ok(argument.value);
      }
      r := CreateMatcher(name, None, [], NoArg, plan);
    }

    method AddOperator(stack: seq<Entry>, op: char, ghost frames: Stack, ghost env: Env, ghost base: nat,
        ghost level: nat, ghost plan: Plan)
      returns (r: Result<seq<Entry>>)
      requires Valid() && base <= |nodes| && Above(stack, base)
      requires StackFits(nodes, labels, stack, frames, env) && stack[0].matcher in pending
      requires Acyclic(rules, plan.rank, plan.top) && CallsRanked(stack, plan, level)
      modifies this`nodes, this`matchers, this`labels, this`pending
      ensures r.Ok? ==> Valid() && Keeps(old(View()), View(), base) && pending == old(pending)
      ensures r.Ok? ==> r.value != [] && Shift(frames, Token.Operator(op)).Ok?
      ensures r.Ok? ==> r.value <= stack || (exists x: Id :: x >= base && r.value == stack + [Entry(x, "")])
      ensures r.Ok? ==> StackFits(nodes, labels, r.value, Shift(frames, Token.Operator(op)).value, env)
      ensures r.Err? && Complete(LanguageOf(rules), plan.refs, plan.calls) && CallsKnown(stack, plan)
              ==> Shift(frames, Token.Operator(op)) == Err(r.error)
      ensures r.Err? && Stored(rules) && (op == ')' ==> |stack| > 1) ==> !StackError(r.error)
      decreases rules.Keys - matchers.Keys, level, 2
    {
      hide Consistent, StackFits, Keeps, Acyclic, Complete, Stored;
      TopFits(nodes, labels, stack, frames, env);
      KeepsItself(View(), base);
      if op == '?' || op == '*' {
        r := AddSuffix(stack, op, frames, env, base);
      } else if op == '/' {
        r := AddChoice(stack, frames, env, base);
      } else if op == '(' {
        r := PushBracket(stack, "", frames, env, base);
      } else if op == ')' {
        r := CloseBracket(stack, frames, env, base, level, plan);
      } else if op == '!' {
        return Ok(stack);
      } else {
        return Err(UnknownOperator);
      }
    }

    /** AddMatcher for a matcher that has just been created. */
    method AddCreated(ghost st: Store, stack: seq<Entry>, x: Id, ghost frames: Stack, ghost env: Env, ghost e: Expr,
        ghost base: nat)
      returns (r: Result<seq<Entry>>)
      requires Valid() && base <= |st.nodes| && Above(stack, base) && Keeps(st, View(), |st.nodes|)
      requires StackFits(st.nodes, st.labels, stack, frames, env) && stack[0].matcher in pending
      requires x in labels && labels[x] == Resolve(e, env)
      modifies this`nodes, this`labels
      ensures Valid() && Keeps(st, View(), base)
      ensures r.Ok? && StackFits(nodes, labels, r.value, Add(frames, e), env)
      ensures r.value != [] && r.value <= stack
    {
      hide Consistent, StackFits, Keeps;
      ghost var st1 := View();
      TopFits(st.nodes, st.labels, stack, frames, env);
      StackKept(st, st1, stack, frames, env);
      KeepsBelow(st, st1, base);
      r := AddMatcher(stack, x, frames, env, e, base);
      KeepsTransitive(st, st1, View(), base, base);
    }

    /** `(` and the start of a function call. */
    method PushBracket(stack: seq<Entry>, name: string, ghost frames: Stack, ghost env: Env, ghost base: nat)
      returns (r: Result<seq<Entry>>)
      requires Valid() && base <= |nodes| && StackFits(nodes, labels, stack, frames, env)
      modifies this`nodes
      ensures Valid() && Keeps(old(View()), View(), base)
      ensures r == Ok(stack + [Entry(|old(nodes)|, name)])
      ensures var frame := if name == "" then ListFrame([]) else CallFrame(name, []);
              StackFits(nodes, labels, r.value, Push(frames, frame), env)
    {
      hide StackFits;
      ghost var st := View();
      PushList(nodes, labels, stack, frames, env, name);
      var bracket := Allocate(List([]));
      KeepsBelow(st, View(), base);
      return Ok(stack + [Entry(bracket, name)]);
    }

    /** The list for a rule is allocated, and cached before it is filled. */
    method BeginRule(name: string, cache: bool, ghost l: Label) returns (root: Id)
      requires Valid() && cache == l.e.Ref? && (cache ==> name !in matchers && l == Label(Ref(name), NoArg))
      modifies this`nodes, this`matchers, this`labels, this`pending
      ensures root == |old(nodes)| && View() == Begin(old(View()), l)
      ensures Valid() && Keeps(old(View()), View(), root)
      ensures cache ==> name in matchers
    {
      hide Consistent, Keeps;
      BeginKeeps(LanguageOf(rules), keywordOverrides, View(), l);
      root := |nodes|;
      nodes := nodes + [List([])];
      labels, pending := labels[root := l], pending + {root};
      if cache {
        matchers := matchers[name := root];
      }
    }

    /** CreateMatcher(parser, rule_name, parameters) */
    method CreateMatcher(name: string, argument: Option<Id>, ghost args: seq<Expr>, ghost env: Env, ghost plan: Plan)
      returns (r: Result<Id>)
      requires Valid() && Acyclic(rules, plan.rank, plan.top)
      requires argument.Some? ==> argument.value in labels && labels[argument.value] == Resolve(AsArgument(args), env)
      modifies this`nodes, this`matchers, this`labels, this`pending
      ensures r.Ok? ==> Valid() && Keeps(old(View()), View(), |old(nodes)|) && pending == old(pending)
      ensures r.Ok? ==> r.value in labels && labels[r.value] == Subject(name, argument, args, env)
      ensures r.Err? ==> !(Complete(LanguageOf(rules), plan.refs, plan.calls) && Known(name, argument, plan))
      ensures r.Err? && Stored(rules) ==> !StackError(r.error)
      decreases rules.Keys - matchers.Keys, if argument.None? then 0 else plan.rank(name) + 1, 5
    {
      hide Consistent, Keeps, Complete, Acyclic, Fits, NamesWithin, Parse, Stored, TableMap, Carries;
      ghost var st := View();
      KeepsItself(st, |nodes|);
      MemoFits(LanguageOf(rules), keywordOverrides, st);
      CompleteFits(LanguageOf(rules), plan, name, argument);
      if argument.None? && name in matchers {
        return Ok(matchers[name]);
      }
      if name !in rules {
        return Err(RuleMissing);
      }
      ghost var l := Subject(name, argument, args, env);
      var root := BeginRule(name, argument.None?, l);
      KeepsLabels(st, View(), root);
      var rule := rules[name];
      if rule.parameter.Some? != argument.Some? {
        return Err(ParameterMismatch);
      }
      ghost var bodyEnv := if argument.None? then NoArg else Arg(rule.parameter.value, AsArgument(args), env);
      ghost var level := if argument.None? then plan.top + 2 else plan.rank(name) + 1;
      ghost var st1 := View();
      var read := ReadTokens(name, root, argument, bodyEnv, level, plan);
      if read.Err? {
        return Err(read.error);
      }
      RootKeeps(LanguageOf(rules), keywordOverrides, st, st1, View(), root, name, argument, args, env);
      pending := pending - {root};
      r := Ok(root);
    }

    /** The loop of CreateMatcher over the tokens of a rule, which fills the root. */
    method ReadTokens(name: string, root: Id, argument: Option<Id>, ghost env: Env, ghost level: nat, ghost plan: Plan)
      returns (r: Result<()>)
      requires Valid() && Acyclic(rules, plan.rank, plan.top) && name in rules
      requires |nodes| == root + 1 && nodes[root] == List([]) && root in pending && root in labels
      requires Binds(labels, rules[name].parameter, argument, env)
      requires level == if argument.None? then plan.top + 2 else plan.rank(name) + 1
      modifies this`nodes, this`matchers, this`labels, this`pending
      ensures r.Ok? ==> Valid() && Keeps(old(View()), View(), root) && pending == old(pending)
      ensures r.Ok? ==> root < |nodes| && nodes[root].List? && Parse(rules[name].tokens).Ok?
      ensures r.Ok? ==> Carries(labels, nodes[root].children, ResolveAll(Parse(rules[name].tokens).value, env))
      ensures r.Err? && Complete(LanguageOf(rules), plan.refs, plan.calls)
              && NamesWithin(rules[name], plan.refs, plan.calls)
              ==> Parse(rules[name].tokens).Err?
      ensures r.Err? && Stored(rules) ==> !StackError(r.error)
      decreases rules.Keys - matchers.Keys, level, 4
    {
      hide Consistent, StackFits, Keeps, Complete, Acyclic, CallsBelow, LanguageOf;
      hide Bracketed, Balance, Depth, Shift, Add;
      ghost var st := View();
      KeepsItself(st, root);
      EmptyDepth();
      var rule := rules[name];
      BeginStack(nodes[..root], labels, env);
      assert nodes[..root] + [List([])] == nodes;
      var stack := [Entry(root, "")];
      ghost var frames := EMPTY;
      var k := 0;
      while k < |rule.tokens|
        invariant 0 <= k <= |rule.tokens|
        invariant Valid() && Keeps(st, View(), root) && pending == st.pending
        invariant root <= |nodes|
        invariant StackFits(nodes, labels, stack, frames, env) && stack != [] && stack[0].matcher == root
        invariant Above(stack, root) && CallsRanked(stack, plan, level)
        invariant Binds(labels, rule.parameter, argument, env)
        invariant rules.Keys - matchers.Keys <= rules.Keys - st.matchers.Keys
        invariant NamesWithin(rule, plan.refs, plan.calls) ==> CallsKnown(stack, plan)
        invariant ShiftAll(frames, rule.tokens[k..]) == ShiftAll(EMPTY, rule.tokens)
        invariant Depth(frames) >= Balance(rule.tokens[..k]) || !Stored(rules)
      {
        StackSize(nodes, labels, stack, frames, env);
        if Stored(rules) {
          DepthFollows(frames, rule.tokens, k);
        }
        ghost var before := View();
        assert rule.tokens[k..][1..] == rule.tokens[k + 1..];
        CallsFit(rules, name, plan, level, k);
        var next := AddToken(stack, rule.tokens[k], rule.parameter, argument, frames, env, root, level, plan);
        if next.Err? {
          return Err(next.error);
        }
        KeepsLabels(before, View(), root);
        KeepsTransitive(st, before, View(), root, root);
        stack, frames := next.value, Shift(frames, rule.tokens[k]).value;
        k := k + 1;
      }
      TopFits(nodes, labels, stack, frames, env);
      if |stack| != 1 {
        return Err(UnclosedBracket);
      }
      return Ok(());
    }
  }

  lemma CallsFit(rules: Rules, name: string, plan: Plan, level: nat, k: nat)
    requires Acyclic(rules, plan.rank, plan.top) && name in rules && k < |rules[name].tokens|
    requires level == if rules[name].parameter.None? then plan.top + 2 else plan.rank(name) + 1
    ensures CallsBelow(rules[name].tokens[k], plan.rank, level - 1)
  {
  }

  lemma EmptyDepth()
    ensures Depth(EMPTY) == Balance([])
  {
    DepthRoot(EMPTY);
  }

  lemma StackSize(nodes: Graph, labels: Labels, stack: seq<Entry>, frames: Stack, env: Env)
    requires StackFits(nodes, labels, stack, frames, env)
    ensures |stack| == |frames|
  {
  }

  /** Closing a bracket is adding what the bracket holds. */
  lemma CloseAdds(frames: Stack, e: Expr)
    requires |frames| > 1 && !Top(frames).CallFrame?
    requires e == if Top(frames).ChoiceFrame? then Alt([Top(frames).first]) else Group(Top(frames).es)
    ensures var below := Pop(frames);
            Close(frames) == Ok(Add(if Top(frames).ChoiceFrame? then SetTop(below, Top(below).es + [e]) else below, e))
  {
    if Top(frames).ChoiceFrame? {
      var below := Pop(frames);
      var es := Top(below).es;
      SetTopTwice(below, es + [e], es + [e] + [e]);
      assert es + [e] + [e] == es + [e, e];
    }
  }

  /** A store that holds the overrides of a table and nothing else. */
  ghost predicate Seeded(table: seq<(string, Node)>, shared: Shared, st: Store) {
    && st.pending == {}
    && st.matchers.Keys == TableMap(table).Keys
    && (forall id :: 0 <= id < |st.nodes| ==> !st.nodes[id].Inner())
    && (forall id :: id in st.labels ==> id < |st.nodes| && SeedFits(table, st, id))
    && (forall name :: name in st.matchers ==>
          st.matchers[name] in st.labels && st.labels[st.matchers[name]] == Label(Ref(name), NoArg))
    && (forall k :: k in shared ==> shared[k] in st.labels && st.labels[shared[k]] == Label(Lit(k), NoArg))
  }

  lemma SeedEmpty()
    ensures Seeded([], map[], Store([], map[], map[], {}))
  {
  }

  lemma SeedConsistent(rules: Rules, shared: Shared, st: Store)
    requires Seeded(RULE_OVERRIDES, shared, st)
    ensures Consistent(LanguageOf(rules), shared, st)
  {
    hide TableMap;
    forall id | id in st.labels ensures Fits(LanguageOf(rules), st.nodes[id], st.labels, st.labels[id]) {
      assert SeedFits(RULE_OVERRIDES, st, id);
    }
  }

  /** AddKeywordOverride on a seeded store. */
  lemma SeedKeyword(table: seq<(string, Node)>, shared: Shared, st: Store, name: string)
    requires Seeded(table, shared, st)
    ensures var id, word := |st.nodes|, Lower(name);
            Seeded(table, if word in shared then shared else shared[word := id],
              st.(nodes := st.nodes + [Node.Keyword(name)], labels := st.labels[id := Label(Lit(word), NoArg)]))
  {
    hide TableMap, Lower;
    var id := |st.nodes|;
    var st' := st.(nodes := st.nodes + [Node.Keyword(name)], labels := st.labels[id := Label(Lit(Lower(name)), NoArg)]);
    forall x | x in st'.labels ensures x < |st'.nodes| && SeedFits(table, st', x) {
      if x in st.labels { assert SeedFits(table, st, x); }
    }
  }

  /** AddRuleOverride on a seeded store. */
  lemma SeedRule(table: seq<(string, Node)>, shared: Shared, st: Store)
    requires table != [] && !table[|table| - 1].1.Inner() && Seeded(table[..|table| - 1], shared, st)
    ensures var (name, node), id := table[|table| - 1], |st.nodes|;
            var st' := st.(nodes := st.nodes + [node]);
            Seeded(table, shared, if name in st.matchers then st' else Entered(st', name, id))
  {
    hide TableMap, Seeded;
    if table[|table| - 1].0 in st.matchers {
      SeedAgain(table, shared, st);
    } else {
      SeedNew(table, shared, st);
    }
  }

  function Entered(st: Store, name: string, id: Id): Store {
    st.(matchers := st.matchers[name := id], labels := st.labels[id := Label(Ref(name), NoArg)])
  }

  lemma SeedAgain(table: seq<(string, Node)>, shared: Shared, st: Store)
    requires table != [] && !table[|table| - 1].1.Inner() && Seeded(table[..|table| - 1], shared, st)
    requires table[|table| - 1].0 in st.matchers
    ensures Seeded(table, shared, st.(nodes := st.nodes + [table[|table| - 1].1]))
  {
    hide TableMap, Lower;
    TableMapLast(table);
    var st' := st.(nodes := st.nodes + [table[|table| - 1].1]);
    forall x | x in st.labels ensures x < |st'.nodes| && SeedFits(table, st', x) {
      assert SeedFits(table[..|table| - 1], st, x);
    }
  }

  lemma SeedNew(table: seq<(string, Node)>, shared: Shared, st: Store)
    requires table != [] && !table[|table| - 1].1.Inner() && Seeded(table[..|table| - 1], shared, st)
    requires table[|table| - 1].0 !in st.matchers
    ensures var (name, node) := table[|table| - 1];
            Seeded(table, shared, Entered(st.(nodes := st.nodes + [node]), name, |st.nodes|))
  {
    hide TableMap, Lower;
    var (name, node) := table[|table| - 1];
    TableMapLast(table);
    var st' := Entered(st.(nodes := st.nodes + [node]), name, |st.nodes|);
    forall x | x in st'.labels ensures x < |st'.nodes| && SeedFits(table, st', x) {
      if x in st.labels { assert SeedFits(table[..|table| - 1], st, x); }
    }
  }

  lemma TableMapLast(table: seq<(string, Node)>)
    requires table != []
    ensures var m, last := TableMap(table[..|table| - 1]), table[|table| - 1];
            TableMap(table) == if last.0 in m then m else m[last.0 := last.1]
  {
  }

  ghost predicate SeedFits(table: seq<(string, Node)>, st: Store, id: Id)
    requires id in st.labels && id < |st.nodes|
  {
    match st.labels[id].e
    case Lit(text) => st.nodes[id].Keyword? && Lower(st.nodes[id].keyword) == text
    case Ref(name) =>
      name in st.matchers && st.matchers[name] == id && name in TableMap(table) && st.nodes[id] == TableMap(table)[name]
    case _ => false
  }

  /** What a matcher created for a name stands for. */
  ghost function Subject(name: string, argument: Option<Id>, args: seq<Expr>, env: Env): Label {
    if argument.None? then Label(Ref(name), NoArg) else Label(Expr.Apply(name, args), env)
  }

  /** A root filled with the parts of a rule, or of a macro's body, stands for it. */
  lemma RootKeeps(lang: Language, shared: Shared, st: Store, st1: Store, st2: Store, root: Id,
      name: string, argument: Option<Id>, args: seq<Expr>, env: Env)
    requires Keeps(st, st1, root) && Keeps(st1, st2, root) && Consistent(lang, shared, st2)
    requires root in st1.labels && st1.labels[root] == Subject(name, argument, args, env)
    requires lang.HasBody(name, argument.Some?) && root < |st2.nodes| && st2.nodes[root].List?
    requires argument.None? ==> name !in lang.overrides
    requires argument.None? ==> Carries(st2.labels, st2.nodes[root].children, lang.RuleParts(name))
    requires argument.Some? ==> Carries(st2.labels, st2.nodes[root].children, lang.CallParts(name, args, env))
    ensures Consistent(lang, shared, End(st2, root)) && Keeps(st, End(st2, root), root)
    ensures root in st2.labels && st2.labels[root] == Subject(name, argument, args, env)
  {
    hide Consistent;
    assert Fits(lang, st2.nodes[root], st2.labels, Subject(name, argument, args, env));
    KeepsTransitive(st, st1, st2, root, root);
    EndKeeps(lang, shared, st2, root);
  }

  lemma CompleteFits(lang: Language, plan: Plan, name: string, argument: Option<Id>)
    ensures Complete(lang, plan.refs, plan.calls) && Known(name, argument, plan)
            && (argument.None? ==> name !in lang.overrides)
            ==> lang.HasBody(name, argument.Some?) && NamesWithin(lang.rules[name], plan.refs, plan.calls)
  {
  }

  ghost predicate Known(name: string, argument: Option<Id>, plan: Plan) {
    if argument.None? then name in plan.refs else name in plan.calls
  }

  /** The parameter of the rule being read is bound to the argument's matcher. */
  ghost predicate Binds(labels: Labels, parameter: Option<string>, argument: Option<Id>, env: Env) {
    && parameter.Some? == argument.Some? == env.Arg?
    && (env.Arg? ==> parameter == Some(env.parameter))
    && (env.Arg? ==> argument.value in labels && labels[argument.value] == Resolve(env.arg, env.outer))
  }

  /** The macros called on the stack have a rank below the level of the rule being read. */
  ghost predicate CallsRanked(stack: seq<Entry>, plan: Plan, level: nat) {
    forall k :: 0 <= k < |stack| ==> stack[k].functionName == "" || plan.rank(stack[k].functionName) + 1 < level
  }

  ghost predicate CallsKnown(stack: seq<Entry>, plan: Plan) {
    forall k :: 0 <= k < |stack| ==> stack[k].functionName == "" || stack[k].functionName in plan.calls
  }
}
