/** PEG rules as token sequences, and the expressions they stand for.

    MatcherFactory::CreateMatcher (matcher.cpp:944-1157) turns the tokens of a rule into
    matchers with a stack whose entries are still being filled. This module states, on
    values and without sharing, which expression the tokens denote, and relates it to a
    printer of expressions. */
module Grammar {

  datatype Option<+T> = None | Some(value: T)
  datatype Result<+T> = Ok(value: T) | Err(error: Error)

  /** The exceptions raised while a matcher is created. */
  datatype Error =
    | TooManyCloseBrackets
    | ChoiceAtRoot
    | CannotAdd
    | SuffixNotOnList
    | SuffixFirst
    | OrNotOnList
    | OrFirst
    | UnknownOperator
    | RegexNotSupported
    | UnclosedBracket
    | RuleMissing
    | ParameterMismatch

  /** PEGToken */
  datatype Token =
    | Literal(text: string)
    | Reference(name: string)
    | FunctionCall(name: string)
    | Operator(op: char)
    | Regex(text: string)

  /** PEGRule; at most one parameter is ever stored. */
  datatype Rule = Rule(parameter: Option<string>, tokens: seq<Token>)

  type Rules = map<string, Rule>

  /** Plus(e) is one or more e; the dialect writes it only as Opt(Plus(e)), `e*`. */
  datatype Expr =
    | Lit(text: string)
    | Ref(name: string)
    | Apply(name: string, args: seq<Expr>)
    | Opt(e: Expr)
    | Plus(e: Expr)
    | Alt(es: seq<Expr>)
    | Group(es: seq<Expr>)
  {
    predicate IsAtom() {
      Lit? || Ref? || Apply? || Group?
    }
  }

  // ----- The stack -----

  /** An entry of the matcher stack: a list, the parameter list of a call, or a choice
      that holds its first alternative and waits for the next element. */
  datatype Frame =
    | ListFrame(es: seq<Expr>)
    | CallFrame(name: string, es: seq<Expr>)
    | ChoiceFrame(first: Expr)
  {
    function With(es': seq<Expr>): Frame
      requires !ChoiceFrame?
    {
      this.(es := es')
    }
  }

  type Stack = s: seq<Frame> | ProperStack(s) witness [ListFrame([])]

  /** The root is a list, and a choice stands directly on the list that contains it. */
  predicate ProperStack(s: seq<Frame>) {
    && s != []
    && s[0].ListFrame?
    && forall k :: 0 < k < |s| ==> s[k].ChoiceFrame? ==> !s[k - 1].ChoiceFrame?
  }

  function Top(s: Stack): Frame {
    s[|s| - 1]
  }

  function Pop(s: Stack): Stack
    requires |s| > 1
  {
    s[..|s| - 1]
  }

  function SetTop(s: Stack, es: seq<Expr>): Stack
    requires !Top(s).ChoiceFrame?
  {
    s[|s| - 1 := Top(s).With(es)]
  }

  function Push(s: Stack, f: Frame): Stack
    requires f.ChoiceFrame? ==> !Top(s).ChoiceFrame?
  {
    s + [f]
  }

  /** MatcherList::AddMatcher: a waiting choice takes the element and leaves the stack. */
  function Add(s: Stack, e: Expr): Stack {
    if Top(s).ChoiceFrame? then
      var below := Pop(s);
      SetTop(below, Top(below).es + [Alt([Top(s).first, e])])
    else SetTop(s, Top(s).es + [e])
  }

  /** MatcherList::CloseBracket. A bracket that closes on a waiting choice removes that
      choice and adds it a second time to the list that already contains it. */
  function Close(s: Stack): Result<Stack> {
    if |s| <= 1 then Err(TooManyCloseBrackets)
    else match Top(s)
      case ListFrame(es) => Ok(Add(Pop(s), Group(es)))
      case CallFrame(name, es) => Ok(Add(Pop(s), Apply(name, es)))
      case ChoiceFrame(first) =>
        var below := Pop(s);
        Ok(SetTop(below, Top(below).es + [Alt([first]), Alt([first])]))
  }

  /** One iteration of the token loop of CreateMatcher. */
  function Shift(s: Stack, t: Token): Result<Stack> {
    match t
    case Literal(text) => Ok(Add(s, Lit(text)))
    case Reference(name) => Ok(Add(s, Ref(name)))
    case FunctionCall(name) => Ok(Push(s, if name == "" then ListFrame([]) else CallFrame(name, [])))
    case Regex(_) => Err(RegexNotSupported)
    case Operator(op) =>
      if op == '?' || op == '*' then
        if Top(s).ChoiceFrame? then Err(SuffixNotOnList)
        else if Top(s).es == [] then Err(SuffixFirst)
        else
          var es := Top(s).es;
          var last := es[|es| - 1];
          Ok(SetTop(s, es[..|es| - 1] + [Opt(if op == '*' then Plus(last) else last)]))
      else if op == '/' then
        if Top(s).ChoiceFrame? then Err(OrNotOnList)
        else if Top(s).es == [] then Err(OrFirst)
        else
          var es := Top(s).es;
          Ok(Push(SetTop(s, es[..|es| - 1]), ChoiceFrame(es[|es| - 1])))
      else if op == '(' then Ok(Push(s, ListFrame([])))
      else if op == ')' then Close(s)
      else if op == '!' then Ok(s)
      else Err(UnknownOperator)
  }

  function ShiftAll(s: Stack, ts: seq<Token>): Result<Stack>
    decreases |ts|
  {
    if ts == [] then Ok(s)
    else match Shift(s, ts[0])
      case Ok(s') => ShiftAll(s', ts[1..])
      case Err(e) => Err(e)
  }

  const EMPTY: Stack := [ListFrame([])]

  /** The expressions a rule's tokens denote, or the exception they raise. */
  function Parse(ts: seq<Token>): Result<seq<Expr>> {
    match ShiftAll(EMPTY, ts)
    case Ok(s) => if |s| == 1 then Ok(s[0].es) else Err(UnclosedBracket)
    case Err(e) => Err(e)
  }

  lemma {:induction false} ShiftAllAppend(s: Stack, ts: seq<Token>, rest: seq<Token>)
    ensures ShiftAll(s, ts + rest) ==
            match ShiftAll(s, ts) case Ok(s') => ShiftAll(s', rest) case Err(e) => Err(e)
    decreases |ts|
  {
    if ts == [] {
      assert ts + rest == rest;
    } else {
      assert (ts + rest)[1..] == ts[1..] + rest;
      match Shift(s, ts[0])
      case Ok(s') => ShiftAllAppend(s', ts[1..], rest);
      case Err(_) =>
    }
  }

  // ----- The printer -----

  /** What the dialect can write: `/` takes one atom on its right. */
  predicate Printable(e: Expr) {
    match e
    case Lit(_) => true
    case Ref(_) => true
    case Apply(name, args) => name != "" && AllPrintable(args)
    case Opt(e') => if e'.Plus? then Printable(e'.e) else Printable(e')
    case Plus(_) => false
    case Alt(es) => |es| == 2 && Printable(es[0]) && Printable(es[1]) && es[1].IsAtom()
    case Group(es) => AllPrintable(es)
  }

  predicate AllPrintable(es: seq<Expr>) {
    forall k :: 0 <= k < |es| ==> Printable(es[k])
  }

  function Print(e: Expr): seq<Token>
    requires Printable(e)
    decreases e, 0
  {
    match e
    case Lit(text) => [Literal(text)]
    case Ref(name) => [Reference(name)]
    case Apply(name, args) => [FunctionCall(name)] + PrintAll(args) + [Operator(')')]
    case Opt(e') => if e'.Plus? then Print(e'.e) + [Operator('*')] else Print(e') + [Operator('?')]
    case Alt(es) => Print(es[0]) + [Operator('/')] + Print(es[1])
    case Group(es) => [Operator('(')] + PrintAll(es) + [Operator(')')]
  }

  function PrintAll(es: seq<Expr>): seq<Token>
    requires AllPrintable(es)
    decreases es
  {
    if es == [] then [] else PrintAll(es[..|es| - 1]) + Print(es[|es| - 1])
  }

  lemma PrintAllSnoc(es: seq<Expr>, e: Expr)
    requires AllPrintable(es) && Printable(e)
    ensures AllPrintable(es + [e])
    ensures PrintAll(es + [e]) == PrintAll(es) + Print(e)
  {
    assert (es + [e])[..|es|] == es;
  }

  /** Reading the tokens of an expression adds exactly that expression. */
  lemma {:induction false} PrintedShifts(s: Stack, e: Expr)
    requires Printable(e) && (Top(s).ChoiceFrame? ==> e.IsAtom())
    ensures ShiftAll(s, Print(e)) == Ok(Add(s, e))
    decreases e, 0
  {
    match e {
      case Lit(_) =>
      case Ref(_) =>
      case Apply(name, args) =>
        var s1 := Push(s, CallFrame(name, []));
        AllPrintedShifts(s1, args);
        SetTopPush(s, CallFrame(name, []), args);
        ShiftBracketed(s, FunctionCall(name), CallFrame(name, []), args);
      case Group(es) =>
        var s1 := Push(s, ListFrame([]));
        AllPrintedShifts(s1, es);
        SetTopPush(s, ListFrame([]), es);
        ShiftBracketed(s, Operator('('), ListFrame([]), es);
      case Opt(e') =>
        PrintedShifts(s, if e'.Plus? then e'.e else e');
        SuffixShifts(s, e');
      case Alt(es) =>
        PrintedShifts(s, es[0]);
        PrintedShifts(Push(s, ChoiceFrame(es[0])), es[1]);
        OrShifts(s, es);
    }
  }

  lemma SuffixShifts(s: Stack, e: Expr)
    requires Printable(Opt(e)) && !Top(s).ChoiceFrame?
    requires var x := if e.Plus? then e.e else e; ShiftAll(s, Print(x)) == Ok(Add(s, x))
    ensures ShiftAll(s, Print(Opt(e))) == Ok(Add(s, Opt(e)))
  {
    var x := if e.Plus? then e.e else e;
    var suffix := [Operator(if e.Plus? then '*' else '?')];
    ShiftAllAppend(s, Print(x), suffix);
    var added := Add(s, x);
    assert Top(added).es[..|Top(added).es| - 1] == Top(s).es;
    assert suffix[1..] == [];
    SetTopTwice(s, Top(s).es + [x], Top(s).es + [Opt(e)]);
  }

  lemma OrShifts(s: Stack, es: seq<Expr>)
    requires Printable(Alt(es)) && !Top(s).ChoiceFrame?
    requires ShiftAll(s, Print(es[0])) == Ok(Add(s, es[0]))
    requires var waiting := Push(s, ChoiceFrame(es[0])); ShiftAll(waiting, Print(es[1])) == Ok(Add(waiting, es[1]))
    ensures ShiftAll(s, Print(Alt(es))) == Ok(Add(s, Alt(es)))
  {
    hide Print;
    var or := [Operator('/')];
    ShiftAllAppend(s, Print(es[0]), or);
    OrWaits(s, es[0]);
    assert or[1..] == [];
    var waiting := Push(s, ChoiceFrame(es[0]));
    ShiftAllAppend(s, Print(es[0]) + or, Print(es[1]));
    assert Pop(waiting) == s;
    assert es == [es[0], es[1]];
    assert Print(Alt(es)) == Print(es[0]) + or + Print(es[1]) by {
      PrintOr(es);
    }
  }

  lemma PrintOr(es: seq<Expr>)
    requires Printable(Alt(es))
    ensures Print(Alt(es)) == Print(es[0]) + [Operator('/')] + Print(es[1])
  {
  }

  /** The choice takes the last element of the list. */
  lemma OrWaits(s: Stack, e: Expr)
    requires !Top(s).ChoiceFrame?
    ensures Shift(Add(s, e), Operator('/')) == Ok(Push(s, ChoiceFrame(e)))
  {
    var added := Add(s, e);
    assert Top(added).es[..|Top(added).es| - 1] == Top(s).es;
    SetTopTwice(s, Top(s).es + [e], Top(s).es);
  }

  lemma SetTopPush(s: Stack, frame: Frame, es: seq<Expr>)
    requires !frame.ChoiceFrame? && frame.es == []
    ensures SetTop(Push(s, frame), Top(Push(s, frame)).es + es) == Push(s, frame.With(es))
  {
    assert [] + es == es;
  }

  lemma SetTopTwice(s: Stack, es: seq<Expr>, es': seq<Expr>)
    requires !Top(s).ChoiceFrame?
    ensures SetTop(SetTop(s, es), es') == SetTop(s, es')
    ensures SetTop(s, Top(s).es) == s
  {
  }

  lemma ShiftBracketed(s: Stack, open: Token, frame: Frame, es: seq<Expr>)
    requires !frame.ChoiceFrame? && frame.es == [] && AllPrintable(es)
    requires Shift(s, open) == Ok(Push(s, frame))
    requires ShiftAll(Push(s, frame), PrintAll(es)) == Ok(Push(s, frame.With(es)))
    ensures ShiftAll(s, [open] + PrintAll(es) + [Operator(')')]) == Close(Push(s, frame.With(es)))
    ensures Pop(Push(s, frame.With(es))) == s
  {
    var inner, close := PrintAll(es), [Operator(')')];
    ShiftAllAppend(Push(s, frame), inner, close);
    assert close[1..] == [];
    assert ([open] + inner + close)[1..] == inner + close;
  }

  lemma {:induction false} AllPrintedShifts(s: Stack, es: seq<Expr>)
    requires AllPrintable(es) && !Top(s).ChoiceFrame?
    ensures ShiftAll(s, PrintAll(es)) == Ok(SetTop(s, Top(s).es + es))
    decreases es
  {
    hide Print, Shift;
    if es == [] {
      assert Top(s).es + es == Top(s).es;
      SetTopTwice(s, [], []);
    } else {
      var init, last := es[..|es| - 1], es[|es| - 1];
      AllPrintedShifts(s, init);
      PrintedShifts(SetTop(s, Top(s).es + init), last);
      AppendShifts(s, init, last);
      assert init + [last] == es;
    }
  }

  lemma AppendShifts(s: Stack, init: seq<Expr>, last: Expr)
    requires AllPrintable(init) && Printable(last) && !Top(s).ChoiceFrame?
    requires ShiftAll(s, PrintAll(init)) == Ok(SetTop(s, Top(s).es + init))
    requires var s1 := SetTop(s, Top(s).es + init); ShiftAll(s1, Print(last)) == Ok(Add(s1, last))
    ensures ShiftAll(s, PrintAll(init) + Print(last)) == Ok(SetTop(s, Top(s).es + (init + [last])))
  {
    hide Print, PrintAll, Shift, ShiftAll;
    ShiftAllAppend(s, PrintAll(init), Print(last));
    SetTopTwice(s, Top(s).es + init, Top(s).es + init + [last]);
    assert Top(s).es + init + [last] == Top(s).es + (init + [last]);
  }

  /** Compiling the printed tokens of a rule yields exactly its expressions. */
  lemma ParsePrint(es: seq<Expr>)
    requires AllPrintable(es)
    ensures Parse(PrintAll(es)) == Ok(es)
  {
    AllPrintedShifts(EMPTY, es);
    assert [] + es == es;
  }
}
