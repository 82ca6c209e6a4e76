/** The language of a PEG rule set, and what it means for a matcher graph to represent it.

    A rule with a parameter is a macro: its body is read with the parameter standing for
    the argument expression of the call. */
module GrammarMeaning {
  import opened Text
  import opened Matcher
  import opened Grammar

  /** What the parameter of the rule being read stands for. */
  datatype Env = NoArg | Arg(parameter: string, arg: Expr, outer: Env)

  /** An expression in its environment. */
  datatype Label = Label(e: Expr, env: Env)

  /** MatcherList::CloseBracket wraps the arguments in a list unless there is just one. */
  function AsArgument(args: seq<Expr>): Expr {
    if |args| == 1 then args[0] else Group(args)
  }

  /** Looks a parameter up; references and literals do not depend on the environment. */
  function Resolve(e: Expr, env: Env): Label
    decreases env
  {
    match e
    case Lit(text) => Label(Lit(Lower(text)), NoArg)
    case Ref(name) =>
      if env.Arg? && env.parameter == name then Resolve(env.arg, env.outer) else Label(e, NoArg)
    case _ => Label(e, env)
  }

  function ResolveAll(es: seq<Expr>, env: Env): (ls: seq<Label>)
    ensures |ls| == |es|
  {
    seq(|es|, k requires 0 <= k < |es| => Resolve(es[k], env))
  }

  /** A rule set, with the leaves that AddRuleOverride puts in place of some rules. */
  datatype Language = Language(rules: Rules, overrides: map<string, Node>) {

    predicate Valid() {
      forall name :: name in overrides ==> !overrides[name].Inner()
    }

    /** A rule of the given arity whose tokens denote expressions. */
    predicate HasBody(name: string, withParameter: bool) {
      && name in rules
      && rules[name].parameter.Some? == withParameter
      && Parse(rules[name].tokens).Ok?
    }

    function Body(name: string): seq<Expr>
      requires name in rules && Parse(rules[name].tokens).Ok?
    {
      Parse(rules[name].tokens).value
    }

    function RuleParts(name: string): seq<Label>
      requires HasBody(name, false)
    {
      ResolveAll(Body(name), NoArg)
    }

    function CallParts(name: string, args: seq<Expr>, env: Env): seq<Label>
      requires HasBody(name, true)
    {
      ResolveAll(Body(name), Arg(rules[name].parameter.value, AsArgument(args), env))
    }
  }

  /** A rule set and the statement it is read against. */
  datatype Reading = Reading(lang: Language, kw: Keywords, tokens: seq<string>) {

    /** tokens[i..j] has a derivation of height at most n from an expression. */
    ghost predicate Derives(l: Label, i: nat, j: nat, n: nat)
      requires lang.Valid()
      decreases n, 0
    {
      && i <= j <= |tokens|
      && n > 0
      && match l.e {
           case Lit(text) => j == i + 1 && EqualsIgnoreCase(text, tokens[i])
           case Ref(name) =>
             if name in lang.overrides then j == i + 1 && Accepts(kw, lang.overrides[name], tokens[i])
             else lang.HasBody(name, false) && DerivesSeq(lang.RuleParts(name), i, j, n - 1)
           case Apply(name, args) =>
             lang.HasBody(name, true) && DerivesSeq(lang.CallParts(name, args, l.env), i, j, n - 1)
           case Opt(e) => i == j || Derives(Resolve(e, l.env), i, j, n - 1)
           case Plus(e) => exists k: nat :: k > 0 && DerivesSeq(Copies(Resolve(e, l.env), k), i, j, n - 1)
           case Alt(es) => exists k :: 0 <= k < |es| && Derives(ResolveAll(es, l.env)[k], i, j, n - 1)
           case Group(es) => DerivesSeq(ResolveAll(es, l.env), i, j, n - 1)
         }
    }

    ghost predicate DerivesSeq(ls: seq<Label>, i: nat, j: nat, n: nat)
      requires lang.Valid()
      decreases n, |ls| + 1
    {
      if ls == [] then i == j
      else exists m :: Derives(ls[0], i, m, n) && DerivesSeq(ls[1..], m, j, n)
    }

    /** The derivation relation of the grammar. */
    ghost predicate Derivable(l: Label, i: nat, j: nat)
      requires lang.Valid()
    {
      exists n :: Derives(l, i, j, n)
    }
  }

  // ----- Graphs that represent a rule set -----

  type Labels = map<Id, Label>

  /** The children carry, in order, the given expressions. */
  ghost predicate Carries(labels: Labels, cs: seq<Id>, ls: seq<Label>) {
    && |cs| == |ls|
    && forall k :: 0 <= k < |cs| ==> cs[k] in labels && labels[cs[k]] == ls[k]
  }

  /** A node and its children fit the expression it is labelled with. */
  ghost predicate Fits(lang: Language, node: Node, labels: Labels, l: Label) {
    match l.e
    case Lit(text) => node.Keyword? && Lower(node.keyword) == text
    case Ref(name) =>
      if name in lang.overrides then node == lang.overrides[name]
      else lang.HasBody(name, false) && node.List? && Carries(labels, node.children, lang.RuleParts(name))
    case Apply(name, args) =>
      lang.HasBody(name, true) && node.List? && Carries(labels, node.children, lang.CallParts(name, args, l.env))
    case Opt(e) => node.Optional? && Carries(labels, [node.child], [Resolve(e, l.env)])
    case Plus(e) => node.Repeat? && Carries(labels, [node.child], [Resolve(e, l.env)])
    case Alt(es) => node.Choice? && Carries(labels, node.children, ResolveAll(es, l.env))
    case Group(es) => node.List? && Carries(labels, node.children, ResolveAll(es, l.env))
  }

  /** Every labelled node outside `pending` fits its label. */
  ghost predicate Represents(lang: Language, g: Graph, labels: Labels, pending: set<Id>) {
    forall id :: id in labels ==> id < |g| && (id in pending || Fits(lang, g[id], labels, labels[id]))
  }

  lemma LowerTwice(s: string)
    ensures Lower(Lower(s)) == Lower(s)
  {
  }

  lemma CarriesTail(labels: Labels, cs: seq<Id>, ls: seq<Label>)
    requires Carries(labels, cs, ls) && cs != []
    ensures Carries(labels, cs[1..], ls[1..])
  {
  }

  /** A graph that represents the rules derives, from every labelled node, exactly what
      the grammar derives from the label, with derivations of the same height. */
  lemma {:induction false} SameDerivations(r: Reading, g: Graph, labels: Labels, id: Id, i: nat, j: nat, n: nat)
    requires r.lang.Valid() && Represents(r.lang, g, labels, {}) && id in labels
    ensures Setting(g, r.kw, r.tokens).Derives(id, i, j, n) <==> r.Derives(labels[id], i, j, n)
    decreases n, 0
  {
    var w := Setting(g, r.kw, r.tokens);
    if i <= j <= |r.tokens| && n > 0 {
      var l := labels[id];
      match l.e {
        case Lit(text) => LowerTwice(g[id].keyword);
        case Ref(name) =>
          if name !in r.lang.overrides {
            SameSeqDerivations(r, g, labels, g[id].children, r.lang.RuleParts(name), i, j, n - 1);
          }
        case Apply(name, args) =>
          SameSeqDerivations(r, g, labels, g[id].children, r.lang.CallParts(name, args, l.env), i, j, n - 1);
        case Opt(e) =>
          assert labels[g[id].child] == Resolve(e, l.env) by { assert [g[id].child][0] == g[id].child; }
          SameDerivations(r, g, labels, g[id].child, i, j, n - 1);
        case Plus(e) =>
          var c := g[id].child;
          assert labels[c] == Resolve(e, l.env) by { assert [c][0] == c; }
          forall k: nat
            ensures w.DerivesSeq(Copies(c, k), i, j, n - 1) <==> r.DerivesSeq(Copies(Resolve(e, l.env), k), i, j, n - 1)
          {
            SameSeqDerivations(r, g, labels, Copies(c, k), Copies(Resolve(e, l.env), k), i, j, n - 1);
          }
        case Alt(es) =>
          var cs := g[id].children;
          forall k | 0 <= k < |cs|
            ensures w.Derives(cs[k], i, j, n - 1) <==> r.Derives(ResolveAll(es, l.env)[k], i, j, n - 1)
          {
            SameDerivations(r, g, labels, cs[k], i, j, n - 1);
          }
        case Group(es) =>
          SameSeqDerivations(r, g, labels, g[id].children, ResolveAll(es, l.env), i, j, n - 1);
      }
    }
  }

  lemma {:induction false} SameSeqDerivations(r: Reading, g: Graph, labels: Labels, cs: seq<Id>, ls: seq<Label>,
      i: nat, j: nat, n: nat)
    requires r.lang.Valid() && Represents(r.lang, g, labels, {}) && Carries(labels, cs, ls)
    ensures Setting(g, r.kw, r.tokens).DerivesSeq(cs, i, j, n) <==> r.DerivesSeq(ls, i, j, n)
    decreases n, |cs| + 1
  {
    if cs != [] {
      var w := Setting(g, r.kw, r.tokens);
      CarriesTail(labels, cs, ls);
      forall m: nat
        ensures w.Derives(cs[0], i, m, n) <==> r.Derives(ls[0], i, m, n)
        ensures w.DerivesSeq(cs[1..], m, j, n) <==> r.DerivesSeq(ls[1..], m, j, n)
      {
        SameDerivations(r, g, labels, cs[0], i, m, n);
        SameSeqDerivations(r, g, labels, cs[1..], ls[1..], m, j, n);
      }
    }
  }
}
