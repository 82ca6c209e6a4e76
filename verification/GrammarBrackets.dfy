/** Brackets and the matcher stack: which errors the tokens of a stored rule can raise,
    and that tokens which compile are the printed form of what they compile to. */
module GrammarBrackets {
  import opened Grammar

  /** The change of ParseRules' bracket_count at a token. */
  function Delta(t: Token): int {
    match t
    case FunctionCall(_) => 1
    case Operator(op) => if op == '(' then 1 else if op == ')' then -1 else 0
    case _ => 0
  }

  function Balance(ts: seq<Token>): int {
    if ts == [] then 0 else Delta(ts[0]) + Balance(ts[1..])
  }

  /** What ParseRules guarantees of a stored rule: a bracket is open at every close, and
      a function has a name. */
  ghost predicate Bracketed(ts: seq<Token>) {
    && (forall k :: 0 <= k <= |ts| ==> Balance(ts[..k]) >= 0)
    && (forall k :: 0 <= k < |ts| ==> ts[k] != FunctionCall(""))
  }

  /** What ParseRules guarantees of the rules it stores. */
  ghost predicate Stored(rules: Rules) {
    forall name :: name in rules ==> rules[name].tokens != [] && Bracketed(rules[name].tokens)
  }

  /** The exceptions of MatcherList: a close without an open bracket, and a matcher added to a
      choice at the root or to a matcher that is neither a list nor a choice. */
  predicate StackError(e: Error) {
    e == TooManyCloseBrackets || e == ChoiceAtRoot || e == CannotAdd
  }

  lemma {:induction false} BalanceSnoc(ts: seq<Token>, t: Token)
    ensures Balance(ts + [t]) == Balance(ts) + Delta(t)
    decreases |ts|
  {
    if ts == [] {
      assert ([] + [t])[1..] == [];
    } else {
      assert (ts + [t])[1..] == ts[1..] + [t];
      BalanceSnoc(ts[1..], t);
    }
  }

  /** The lists above the root of a stack. */
  function Depth(s: seq<Frame>): int {
    if s == [] then -1
    else Depth(s[..|s| - 1]) + if s[|s| - 1].ChoiceFrame? then 0 else 1
  }

  lemma DepthPush(s: seq<Frame>, f: Frame)
    ensures Depth(s + [f]) == Depth(s) + if f.ChoiceFrame? then 0 else 1
  {
    assert (s + [f])[..|s|] == s;
  }

  lemma DepthSetTop(s: Stack, es: seq<Expr>)
    requires !Top(s).ChoiceFrame?
    ensures Depth(SetTop(s, es)) == Depth(s)
  {
    assert SetTop(s, es)[..|s| - 1] == s[..|s| - 1];
  }

  lemma DepthAdd(s: Stack, e: Expr)
    ensures Depth(Add(s, e)) == Depth(s)
  {
    if Top(s).ChoiceFrame? {
      DepthSetTop(Pop(s), Top(Pop(s)).es + [Alt([Top(s).first, e])]);
    } else {
      DepthSetTop(s, Top(s).es + [e]);
    }
  }

  lemma {:induction false} DepthRoot(s: Stack)
    ensures Depth(s) >= 0 && (|s| == 1 ==> Depth(s) == 0)
    ensures |s| > 1 && !Top(s).ChoiceFrame? ==> Depth(s) > 0
    decreases |s|
  {
    if |s| > 1 {
      DepthRoot(Pop(s));
    } else {
      assert s[..0] == [];
    }
  }

  /** A bracket that closes on a choice still waiting for its alternative. */
  predicate Misplaced(s: Stack, t: Token) {
    t == Operator(')') && Top(s).ChoiceFrame?
  }

  /** The stack follows the brackets, and falls behind only at a misplaced close. */
  lemma ShiftDepth(s: Stack, t: Token)
    requires Shift(s, t).Ok?
    ensures Depth(Shift(s, t).value) == Depth(s) + Delta(t) + if Misplaced(s, t) then 1 else 0
  {
    match t {
      case Literal(text) => DepthAdd(s, Lit(text));
      case Reference(name) => DepthAdd(s, Ref(name));
      case FunctionCall(name) => DepthPush(s, if name == "" then ListFrame([]) else CallFrame(name, []));
      case Operator(op) =>
        if op == '?' || op == '*' {
          DepthSetTop(s, Top(Shift(s, t).value).es);
        } else if op == '/' {
          var es := Top(s).es;
          DepthSetTop(s, es[..|es| - 1]);
          DepthPush(SetTop(s, es[..|es| - 1]), ChoiceFrame(es[|es| - 1]));
        } else if op == '(' {
          DepthPush(s, ListFrame([]));
        } else if op == ')' {
          CloseDepth(s);
        }
    }
  }

  lemma CloseDepth(s: Stack)
    requires Close(s).Ok?
    ensures Depth(Close(s).value) == Depth(s) - if Top(s).ChoiceFrame? then 0 else 1
  {
    var below := Pop(s);
    match Top(s) {
      case ListFrame(es) => DepthAdd(below, Group(es));
      case CallFrame(name, es) => DepthAdd(below, Apply(name, es));
      case ChoiceFrame(first) => DepthSetTop(below, Top(below).es + [Alt([first]), Alt([first])]);
    }
  }

  lemma {:induction false} ShiftAllDepth(s: Stack, ts: seq<Token>)
    requires ShiftAll(s, ts).Ok?
    ensures Depth(ShiftAll(s, ts).value) >= Depth(s) + Balance(ts)
    decreases |ts|
  {
    if ts != [] {
      ShiftDepth(s, ts[0]);
      ShiftAllDepth(Shift(s, ts[0]).value, ts[1..]);
    }
  }

  // ----- Which errors can be raised -----

  /** Tokens with an open bracket at every close never find the stack at its root. */
  lemma {:induction false} NeverTooManyCloses(s: Stack, ts: seq<Token>)
    requires forall k :: 0 <= k <= |ts| ==> Depth(s) + Balance(ts[..k]) >= 0
    ensures ShiftAll(s, ts).Err? ==> !StackError(ShiftAll(s, ts).error)
    decreases |ts|
  {
    if ts != [] {
      assert ts[..1][1..] == [];
      assert Balance(ts[..1]) == Delta(ts[0]);
      DepthRoot(s);
      if Shift(s, ts[0]).Ok? {
        ShiftDepth(s, ts[0]);
        forall k | 0 <= k <= |ts[1..]|
          ensures Depth(Shift(s, ts[0]).value) + Balance(ts[1..][..k]) >= 0
        {
          assert ts[..k + 1][1..] == ts[1..][..k];
          assert Depth(s) + Balance(ts[..k + 1]) >= 0;
        }
        NeverTooManyCloses(Shift(s, ts[0]).value, ts[1..]);
      }
    }
  }

  /** A stored rule raises no error of the matcher stack. A choice at the root is excluded by
      the type of stacks; that a close finds an open bracket is what the tokens guarantee. */
  lemma StoredRuleErrors(ts: seq<Token>)
    requires Bracketed(ts)
    ensures Parse(ts).Err? ==> !StackError(Parse(ts).error)
  {
    DepthRoot(EMPTY);
    NeverTooManyCloses(EMPTY, ts);
  }

  /** In the middle of a stored rule, a close finds a list above the root, and the stack keeps
      up with the brackets. */
  lemma DepthFollows(s: Stack, ts: seq<Token>, k: nat)
    requires Bracketed(ts) && k < |ts| && Depth(s) >= Balance(ts[..k])
    ensures ts[k] == Operator(')') ==> |s| > 1
    ensures Shift(s, ts[k]).Ok? ==> Depth(Shift(s, ts[k]).value) >= Balance(ts[..k + 1])
  {
    hide Depth, Shift, Balance;
    assert ts[..k + 1] == ts[..k] + [ts[k]];
    BalanceSnoc(ts[..k], ts[k]);
    assert Balance(ts[..k + 1]) >= 0;
    DepthRoot(s);
    if Shift(s, ts[k]).Ok? {
      ShiftDepth(s, ts[k]);
    }
  }

  // ----- Compiled tokens are printed expressions -----

  ghost predicate PrintableFrame(f: Frame) {
    match f
    case ListFrame(es) => AllPrintable(es)
    case CallFrame(name, es) => name != "" && AllPrintable(es)
    case ChoiceFrame(first) => Printable(first)
  }

  ghost predicate PrintableStack(s: seq<Frame>) {
    forall k :: 0 <= k < |s| ==> PrintableFrame(s[k])
  }

  ghost function Opening(f: Frame): seq<Token> {
    match f
    case ListFrame(_) => [Operator('(')]
    case CallFrame(name, _) => [FunctionCall(name)]
    case ChoiceFrame(_) => []
  }

  ghost function PrintFrame(f: Frame): seq<Token>
    requires PrintableFrame(f)
  {
    match f
    case ListFrame(es) => PrintAll(es)
    case CallFrame(_, es) => PrintAll(es)
    case ChoiceFrame(first) => Print(first) + [Operator('/')]
  }

  /** The tokens read so far, recovered from the stack. */
  ghost function PrintStack(s: seq<Frame>): seq<Token>
    requires s != [] && PrintableStack(s)
    decreases |s|, 1
  {
    PrintBelow(s) + PrintFrame(s[|s| - 1])
  }

  /** Everything before the contents of the top frame. */
  ghost function PrintBelow(s: seq<Frame>): seq<Token>
    requires s != [] && PrintableStack(s)
    decreases |s|, 0
  {
    if |s| == 1 then [] else PrintStack(s[..|s| - 1]) + Opening(s[|s| - 1])
  }

  /** Without the `!` tokens, which CreateMatcher ignores. */
  function WithoutNots(ts: seq<Token>): seq<Token> {
    if ts == [] then []
    else (if ts[0] == Operator('!') then [] else [ts[0]]) + WithoutNots(ts[1..])
  }

  lemma Associate<T>(a: seq<T>, b: seq<T>, c: seq<T>)
    ensures (a + b) + c == a + (b + c)
  {
  }

  lemma PrintPush(s: Stack, f: Frame)
    requires PrintableStack(s) && PrintableFrame(f)
    ensures PrintableStack(s + [f])
    ensures PrintStack(s + [f]) == PrintStack(s) + Opening(f) + PrintFrame(f)
  {
    assert (s + [f])[..|s|] == s;
  }

  lemma PrintSetTop(s: Stack, es: seq<Expr>)
    requires PrintableStack(s) && !Top(s).ChoiceFrame? && AllPrintable(es)
    ensures PrintableStack(SetTop(s, es))
    ensures PrintStack(SetTop(s, es)) == PrintBelow(s) + PrintAll(es)
  {
    assert SetTop(s, es)[..|s| - 1] == s[..|s| - 1];
  }

  lemma PrintAdd(s: Stack, e: Expr)
    requires PrintableStack(s) && Printable(e) && (Top(s).ChoiceFrame? ==> e.IsAtom())
    ensures PrintableStack(Add(s, e)) && PrintStack(Add(s, e)) == PrintStack(s) + Print(e)
  {
    if Top(s).ChoiceFrame? {
      var below, first := Pop(s), Top(s).first;
      var alt := Alt([first, e]);
      assert PrintableFrame(Top(s));
      PrintAppend(below, alt);
      assert PrintBelow(s) == PrintStack(below);
      assert Print(alt) == Print(first) + [Operator('/')] + Print(e);
      Associate(PrintStack(below), Print(first) + [Operator('/')], Print(e));
    } else {
      PrintAppend(s, e);
    }
  }

  lemma PrintAppend(s: Stack, e: Expr)
    requires PrintableStack(s) && Printable(e) && !Top(s).ChoiceFrame?
    ensures var s' := SetTop(s, Top(s).es + [e]);
            PrintableStack(s') && PrintStack(s') == PrintStack(s) + Print(e)
  {
    assert PrintableFrame(Top(s));
    PrintAllSnoc(Top(s).es, e);
    PrintSetTop(s, Top(s).es + [e]);
    Associate(PrintBelow(s), PrintAll(Top(s).es), Print(e));
  }

  lemma ShiftPrints(s: Stack, t: Token)
    requires PrintableStack(s) && Shift(s, t).Ok? && !Misplaced(s, t) && t != FunctionCall("")
    ensures PrintableStack(Shift(s, t).value)
    ensures PrintStack(Shift(s, t).value) == PrintStack(s) + WithoutNots([t])
  {
    assert [t][1..] == [];
    match t {
      case Literal(text) => PrintAdd(s, Lit(text));
      case Reference(name) => PrintAdd(s, Ref(name));
      case FunctionCall(name) => PrintPush(s, CallFrame(name, []));
      case Operator(op) =>
        if op == '?' || op == '*' {
          SuffixPrints(s, op);
        } else if op == '/' {
          OrPrints(s);
        } else if op == '(' {
          PrintPush(s, ListFrame([]));
        } else if op == ')' {
          ClosePrints(s);
        }
    }
  }

  lemma SuffixPrints(s: Stack, op: char)
    requires PrintableStack(s) && (op == '?' || op == '*') && Shift(s, Operator(op)).Ok?
    ensures PrintableStack(Shift(s, Operator(op)).value)
    ensures PrintStack(Shift(s, Operator(op)).value) == PrintStack(s) + [Operator(op)]
  {
    assert PrintableFrame(Top(s));
    var es := Top(s).es;
    var init, last := es[..|es| - 1], es[|es| - 1];
    assert Printable(last);
    var e := Opt(if op == '*' then Plus(last) else last);
    PrintAllSnoc(init, e);
    PrintSetTop(s, init + [e]);
    Associate(PrintAll(init), Print(last), [Operator(op)]);
    Associate(PrintBelow(s), PrintAll(es), [Operator(op)]);
  }

  lemma OrPrints(s: Stack)
    requires PrintableStack(s) && Shift(s, Operator('/')).Ok?
    ensures PrintableStack(Shift(s, Operator('/')).value)
    ensures PrintStack(Shift(s, Operator('/')).value) == PrintStack(s) + [Operator('/')]
  {
    assert PrintableFrame(Top(s));
    var es := Top(s).es;
    var init, last := es[..|es| - 1], es[|es| - 1];
    PrintSetTop(s, init);
    PrintPush(SetTop(s, init), ChoiceFrame(last));
    var below, or := PrintBelow(s), [Operator('/')];
    Associate(below, PrintAll(init), Print(last));
    Associate(below + PrintAll(init), Print(last), or);
    assert PrintStack(SetTop(s, init)) + [] == PrintStack(SetTop(s, init));
  }

  lemma ClosePrints(s: Stack)
    requires PrintableStack(s) && Close(s).Ok? && !Top(s).ChoiceFrame?
    ensures PrintableStack(Close(s).value)
    ensures PrintStack(Close(s).value) == PrintStack(s) + [Operator(')')]
  {
    var below, close := Pop(s), [Operator(')')];
    assert PrintableFrame(Top(s));
    var e := if Top(s).ListFrame? then Group(Top(s).es) else Apply(Top(s).name, Top(s).es);
    PrintAdd(below, e);
    var opening, inner := Opening(Top(s)), PrintAll(Top(s).es);
    assert Print(e) == opening + inner + close;
    Associate(PrintStack(below), opening, inner);
    Associate(PrintStack(below), opening + inner, close);
  }

  lemma {:induction false} ShiftAllPrints(s: Stack, ts: seq<Token>)
    requires PrintableStack(s) && ShiftAll(s, ts).Ok?
    requires Depth(ShiftAll(s, ts).value) <= Depth(s) + Balance(ts)
    requires forall k :: 0 <= k < |ts| ==> ts[k] != FunctionCall("")
    ensures PrintableStack(ShiftAll(s, ts).value)
    ensures PrintStack(ShiftAll(s, ts).value) == PrintStack(s) + WithoutNots(ts)
    decreases |ts|
  {
    hide Shift, PrintStack, PrintableStack, Depth;
    if ts == [] {
      assert PrintStack(s) + [] == PrintStack(s);
    } else {
      var s1 := Shift(s, ts[0]).value;
      ShiftDepth(s, ts[0]);
      ShiftAllDepth(s1, ts[1..]);
      ShiftPrints(s, ts[0]);
      ShiftAllPrints(s1, ts[1..]);
      assert [ts[0]][1..] == [];
      Associate(PrintStack(s), WithoutNots([ts[0]]), WithoutNots(ts[1..]));
    }
  }

  lemma PrintRoot(s: Stack)
    requires |s| == 1 && PrintableStack(s)
    ensures AllPrintable(s[0].es) && PrintStack(s) == PrintAll(s[0].es)
  {
    assert PrintableFrame(s[0]);
  }

  /** If the tokens of a stored rule compile, then the expressions they compile to print
      back to those tokens; in particular every bracket is closed. */
  lemma PrintParse(ts: seq<Token>)
    requires Bracketed(ts) && Parse(ts).Ok?
    ensures AllPrintable(Parse(ts).value)
    ensures PrintAll(Parse(ts).value) == WithoutNots(ts)
    ensures Balance(ts) == 0
  {
    var s := ShiftAll(EMPTY, ts).value;
    DepthRoot(EMPTY);
    DepthRoot(s);
    ShiftAllDepth(EMPTY, ts);
    assert Balance(ts) >= 0 by { assert ts[..|ts|] == ts; }
    ShiftAllPrints(EMPTY, ts);
    PrintRoot(s);
    PrintRoot(EMPTY);
  }
}
