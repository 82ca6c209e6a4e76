/** A rule with a parameter is a macro: a call means the body of the rule with the argument in
    place of the parameter. Names in the argument keep the meaning they have at the call. */
module GrammarMacros {
  import opened Text
  import opened Matcher
  import opened Grammar
  import opened GrammarMeaning

  /** The expression with another one in place of a name. */
  function Subst(e: Expr, name: string, arg: Expr): Expr {
    match e
    case Lit(_) => e
    case Ref(n) => if n == name then arg else e
    case Apply(f, args) => Apply(f, SubstAll(args, name, arg))
    case Opt(e1) => Opt(Subst(e1, name, arg))
    case Plus(e1) => Plus(Subst(e1, name, arg))
    case Alt(es) => Alt(SubstAll(es, name, arg))
    case Group(es) => Group(SubstAll(es, name, arg))
  }

  function SubstAll(es: seq<Expr>, name: string, arg: Expr): (r: seq<Expr>)
    ensures |r| == |es| && forall k :: 0 <= k < |es| ==> r[k] == Subst(es[k], name, arg)
  {
    seq(|es|, k requires 0 <= k < |es| => Subst(es[k], name, arg))
  }

  /** The expression without its environment: from the inside out, the argument in place of
      every parameter. */
  function Expand(e: Expr, env: Env): Expr
    decreases env
  {
    match env
    case NoArg => e
    case Arg(parameter, arg, outer) => Subst(e, parameter, Expand(arg, outer))
  }

  function ExpandAll(es: seq<Expr>, env: Env): (r: seq<Expr>)
    ensures |r| == |es| && forall k :: 0 <= k < |es| ==> r[k] == Expand(es[k], env)
  {
    seq(|es|, k requires 0 <= k < |es| => Expand(es[k], env))
  }

  /** Expanding goes below every operator. */
  lemma ExpandInside(e: Expr, env: Env)
    ensures Expand(e, env) ==
            match e
            case Lit(_) => e
            case Ref(name) =>
              if env.Arg? && env.parameter == name then Expand(env.arg, env.outer) else e
            case Apply(f, args) => Apply(f, ExpandAll(args, env))
            case Opt(e1) => Opt(Expand(e1, env))
            case Plus(e1) => Plus(Expand(e1, env))
            case Alt(es) => Alt(ExpandAll(es, env))
            case Group(es) => Group(ExpandAll(es, env))
  {
    match e {
      case Apply(f, args) => ExpandEach(args, env);
      case Alt(es) => ExpandEach(es, env);
      case Group(es) => ExpandEach(es, env);
      case _ =>
    }
  }

  lemma ExpandEach(es: seq<Expr>, env: Env)
    ensures ExpandAll(es, env) ==
            if env.NoArg? then es else SubstAll(es, env.parameter, Expand(env.arg, env.outer))
  {
  }

  lemma ExpandArgument(args: seq<Expr>, env: Env)
    ensures AsArgument(ExpandAll(args, env)) == Expand(AsArgument(args), env)
  {
    ExpandInside(Group(args), env);
  }

  /** Two lists of expressions derive the same from all positions. */
  ghost predicate SameParts(r: Reading, ls: seq<Label>, ms: seq<Label>, n: nat)
    requires r.lang.Valid()
  {
    && |ls| == |ms|
    && forall k, i, j :: 0 <= k < |ls| ==> (r.Derives(ls[k], i, j, n) <==> r.Derives(ms[k], i, j, n))
  }

  lemma {:induction false} SameSequences(r: Reading, ls: seq<Label>, ms: seq<Label>, i: nat, j: nat, n: nat)
    requires r.lang.Valid() && SameParts(r, ls, ms, n)
    ensures r.DerivesSeq(ls, i, j, n) <==> r.DerivesSeq(ms, i, j, n)
    decreases |ls|
  {
    hide Reading.Derives;
    if ls != [] {
      forall m: nat
        ensures r.Derives(ls[0], i, m, n) <==> r.Derives(ms[0], i, m, n)
        ensures r.DerivesSeq(ls[1..], m, j, n) <==> r.DerivesSeq(ms[1..], m, j, n)
      {
        SameSequences(r, ls[1..], ms[1..], m, j, n);
      }
    }
  }

  /** An expression derives in its environment what its expansion derives without one. */
  lemma {:induction false} ExpansionDerives(r: Reading, e: Expr, env: Env, i: nat, j: nat, n: nat)
    requires r.lang.Valid()
    ensures r.Derives(Resolve(e, env), i, j, n) <==> r.Derives(Resolve(Expand(e, env), NoArg), i, j, n)
    decreases n, 0, env
  {
    hide Subst;
    ExpandInside(e, env);
    match e {
      case Lit(_) =>
      case Ref(name) =>
        if env.Arg? && env.parameter == name {
          ExpansionDerives(r, env.arg, env.outer, i, j, n);
        }
      case Apply(f, args) =>
        if n > 0 && r.lang.HasBody(f, true) {
          CallsAgree(r, f, args, env, n - 1);
          var parts := r.lang.CallParts(f, args, env);
          SameSequences(r, parts, r.lang.CallParts(f, ExpandAll(args, env), NoArg), i, j, n - 1);
        }
      case Opt(e1) =>
        if n > 0 { ExpansionDerives(r, e1, env, i, j, n - 1); }
      case Plus(e1) =>
        if n > 0 { CopiesAgree(r, e1, env, i, j, n - 1); }
      case Alt(es) =>
        if n > 0 { PartsAgree(r, es, env, n - 1); }
      case Group(es) =>
        if n > 0 {
          PartsAgree(r, es, env, n - 1);
          SameSequences(r, ResolveAll(es, env), ResolveAll(ExpandAll(es, env), NoArg), i, j, n - 1);
        }
    }
  }

  lemma {:induction false} PartsAgree(r: Reading, es: seq<Expr>, env: Env, n: nat)
    requires r.lang.Valid()
    ensures SameParts(r, ResolveAll(es, env), ResolveAll(ExpandAll(es, env), NoArg), n)
    decreases n, 1
  {
    hide Reading.Derives;
    forall k, i: nat, j: nat | 0 <= k < |es|
      ensures r.Derives(ResolveAll(es, env)[k], i, j, n) <==>
              r.Derives(ResolveAll(ExpandAll(es, env), NoArg)[k], i, j, n)
    {
      ExpansionDerives(r, es[k], env, i, j, n);
    }
  }

  lemma {:induction false} CopiesAgree(r: Reading, e: Expr, env: Env, i: nat, j: nat, n: nat)
    requires r.lang.Valid()
    ensures forall k: nat :: r.DerivesSeq(Copies(Resolve(e, env), k), i, j, n) <==>
                             r.DerivesSeq(Copies(Resolve(Expand(e, env), NoArg), k), i, j, n)
    decreases n, 1
  {
    hide Reading.Derives;
    forall a: nat, b: nat
      ensures r.Derives(Resolve(e, env), a, b, n) <==> r.Derives(Resolve(Expand(e, env), NoArg), a, b, n)
    {
      ExpansionDerives(r, e, env, a, b, n);
    }
    forall k: nat
      ensures r.DerivesSeq(Copies(Resolve(e, env), k), i, j, n) <==>
              r.DerivesSeq(Copies(Resolve(Expand(e, env), NoArg), k), i, j, n)
    {
      SameSequences(r, Copies(Resolve(e, env), k), Copies(Resolve(Expand(e, env), NoArg), k), i, j, n);
    }
  }

  /** The body of a call is the same for an argument in its environment and for its expansion. */
  lemma {:induction false} CallsAgree(r: Reading, f: string, args: seq<Expr>, env: Env, n: nat)
    requires r.lang.Valid() && r.lang.HasBody(f, true)
    ensures SameParts(r, r.lang.CallParts(f, args, env), r.lang.CallParts(f, ExpandAll(args, env), NoArg), n)
    decreases n, 1
  {
    hide Reading.Derives;
    var body, p := r.lang.Body(f), r.lang.rules[f].parameter.value;
    var inner, outer := Arg(p, AsArgument(args), env), Arg(p, AsArgument(ExpandAll(args, env)), NoArg);
    ExpandArgument(args, env);
    forall k, i: nat, j: nat | 0 <= k < |body|
      ensures r.Derives(ResolveAll(body, inner)[k], i, j, n) <==> r.Derives(ResolveAll(body, outer)[k], i, j, n)
    {
      ExpansionDerives(r, body[k], inner, i, j, n);
      ExpansionDerives(r, body[k], outer, i, j, n);
      assert Expand(body[k], inner) == Expand(body[k], outer);
    }
  }

  /** A call derives what the body of its rule derives with the argument in place of the
      parameter; several arguments, or none, stand for their sequence. */
  lemma CallIsSubstituted(r: Reading, name: string, args: seq<Expr>, i: nat, j: nat, n: nat)
    requires r.lang.Valid() && r.lang.HasBody(name, true)
    ensures var arg := if |args| == 1 then args[0] else Group(args);
            var body := SubstAll(r.lang.Body(name), r.lang.rules[name].parameter.value, arg);
            r.Derives(Label(Apply(name, args), NoArg), i, j, n) <==> r.Derives(Label(Group(body), NoArg), i, j, n)
  {
    var body, env := r.lang.Body(name), Arg(r.lang.rules[name].parameter.value, AsArgument(args), NoArg);
    if n > 0 {
      PartsAgree(r, body, env, n - 1);
      ExpandEach(body, env);
      SameSequences(r, ResolveAll(body, env), ResolveAll(ExpandAll(body, env), NoArg), i, j, n - 1);
    }
  }
}
