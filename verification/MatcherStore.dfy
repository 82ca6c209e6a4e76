/** The nodes a MatcherFactory has allocated, with the expressions they stand for, and
    how the stack of CreateMatcher sits in them while rules are still being built.

    Nodes on a stack are mutated after other nodes refer to them: a choice is a child of
    the list below it from the moment it is pushed. Such nodes carry no label until they
    leave the stack; the root of a rule that is being built is labelled, since other
    rules may refer to it, but pending. */
module MatcherStore {
  import opened Matcher
  import opened Grammar
  import opened GrammarMeaning

  datatype Store = Store(nodes: Graph, matchers: map<string, Id>, labels: Labels, pending: set<Id>)

  /** keyword_overrides: lower-case keyword to node. */
  type Shared = map<string, Id>

  ghost predicate Consistent(lang: Language, shared: Shared, st: Store) {
    && Closed(st.nodes)
    && Represents(lang, st.nodes, st.labels, st.pending)
    && CachesRules(lang, st)
    && (forall id :: id in st.pending ==> id in st.labels)
    && (forall k :: k in shared ==> shared[k] in st.labels && st.labels[shared[k]] == Label(Lit(k), NoArg))
  }

  /** The memo table holds exactly the nodes that stand for rules, one for each rule. */
  ghost predicate CachesRules(lang: Language, st: Store) {
    && (forall name :: name in st.matchers ==>
          st.matchers[name] in st.labels && st.labels[st.matchers[name]] == Label(Ref(name), NoArg))
    && (forall id :: id in st.labels && st.labels[id].e.Ref? ==>
          st.labels[id].e.name in st.matchers && st.matchers[st.labels[id].e.name] == id)
    && (forall name :: name in lang.overrides ==> name in st.matchers)
  }

  /** Everything known of the first `base` nodes is kept, and nothing is forgotten. */
  ghost predicate Keeps(a: Store, b: Store, base: nat) {
    && base <= |a.nodes| <= |b.nodes|
    && (forall id :: 0 <= id < base ==> b.nodes[id] == a.nodes[id])
    && (forall id :: id in a.labels ==> id in b.labels && b.labels[id] == a.labels[id])
    && (forall id :: id in b.labels ==> id in a.labels || id >= base)
    && (forall name :: name in a.matchers ==> name in b.matchers && b.matchers[name] == a.matchers[name])
  }

  lemma KeepsItself(st: Store, base: nat)
    requires base <= |st.nodes|
    ensures Keeps(st, st, base)
  {
  }

  lemma KeepsTransitive(a: Store, b: Store, c: Store, base: nat, base': nat)
    requires base <= base' && Keeps(a, b, base) && Keeps(b, c, base')
    ensures Keeps(a, c, base)
  {
  }

  lemma KeepsNode(a: Store, b: Store, id: Id)
    requires Keeps(a, b, |a.nodes|) && id < |a.nodes|
    ensures id < |b.nodes| && b.nodes[id] == a.nodes[id]
    ensures id in a.labels ==> id in b.labels && b.labels[id] == a.labels[id]
  {
  }

  lemma KeepsBelow(a: Store, b: Store, base: nat)
    requires Keeps(a, b, |a.nodes|) && base <= |a.nodes|
    ensures Keeps(a, b, base) && |a.nodes| <= |b.nodes|
  {
  }

  lemma MemoFits(lang: Language, shared: Shared, st: Store)
    requires Consistent(lang, shared, st)
    ensures forall name :: name in st.matchers ==>
              st.matchers[name] in st.labels && st.labels[st.matchers[name]] == Label(Ref(name), NoArg)
    ensures forall name :: name in lang.overrides ==> name in st.matchers
    ensures |st.nodes| !in st.pending
  {
  }

  lemma KeepsLabels(a: Store, b: Store, base: nat)
    requires Keeps(a, b, base)
    ensures forall id :: id in a.labels ==> id in b.labels && b.labels[id] == a.labels[id]
    ensures forall name :: name in a.matchers ==> name in b.matchers
    ensures |a.nodes| <= |b.nodes|
  {
  }

  lemma NodeWithin(lang: Language, shared: Shared, st: Store, id: Id)
    requires Consistent(lang, shared, st) && id < |st.nodes|
    ensures st.nodes[id].Within(|st.nodes|)
  {
  }

  // ----- Changes that keep a store consistent -----

  lemma FitsGrows(lang: Language, node: Node, labels: Labels, labels': Labels, l: Label)
    requires Fits(lang, node, labels, l)
    requires forall id :: id in labels ==> id in labels' && labels'[id] == labels[id]
    ensures Fits(lang, node, labels', l)
  {
  }

  lemma ClosedGrows(g: Graph, node: Node)
    requires Closed(g) && node.Within(|g| + 1)
    ensures Closed(g + [node])
  {
    var g' := g + [node];
    forall id | 0 <= id < |g'| ensures g'[id].Within(|g'|) {
      if id < |g| { assert g[id].Within(|g|); }
    }
  }

  /** A new node without a label. */
  function Grow(st: Store, node: Node): Store {
    st.(nodes := st.nodes + [node])
  }

  lemma GrowKeeps(lang: Language, shared: Shared, st: Store, node: Node)
    requires Consistent(lang, shared, st) && node.Within(|st.nodes|)
    ensures Consistent(lang, shared, Grow(st, node))
    ensures Keeps(st, Grow(st, node), |st.nodes|)
  {
    ClosedGrows(st.nodes, node);
  }

  /** A node that is on a stack is changed. */
  function Change(st: Store, id: Id, node: Node): Store
    requires id < |st.nodes|
  {
    st.(nodes := st.nodes[id := node])
  }

  lemma ChangeKeeps(lang: Language, shared: Shared, st: Store, id: Id, node: Node, base: nat)
    requires Consistent(lang, shared, st) && base <= id < |st.nodes| && node.Within(|st.nodes|)
    requires id !in st.labels || id in st.pending
    ensures Consistent(lang, shared, Change(st, id, node))
    ensures Keeps(st, Change(st, id, node), base)
  {
  }

  /** A finished node receives its label. */
  function Finish(st: Store, id: Id, l: Label): Store {
    st.(labels := st.labels[id := l])
  }

  lemma FinishKeeps(lang: Language, shared: Shared, st: Store, id: Id, l: Label, base: nat)
    requires Consistent(lang, shared, st) && base <= id < |st.nodes|
    requires id !in st.labels && !l.e.Ref? && Fits(lang, st.nodes[id], st.labels, l)
    ensures Consistent(lang, shared, Finish(st, id, l))
    ensures Keeps(st, Finish(st, id, l), base)
  {
    var labels' := st.labels[id := l];
    forall x | x in labels'
      ensures x < |st.nodes| && (x in st.pending || Fits(lang, st.nodes[x], labels', labels'[x]))
    {
      if x == id {
        FitsGrows(lang, st.nodes[x], st.labels, labels', l);
      } else if x !in st.pending {
        FitsGrows(lang, st.nodes[x], st.labels, labels', st.labels[x]);
      }
    }
  }

  /** A labelled node is allocated in one go. */
  function GrowFinished(st: Store, node: Node, l: Label): Store {
    Finish(Grow(st, node), |st.nodes|, l)
  }

  lemma GrowFinishedKeeps(lang: Language, shared: Shared, st: Store, node: Node, l: Label)
    requires Consistent(lang, shared, st) && node.Within(|st.nodes|)
    requires !l.e.Ref? && Fits(lang, node, st.labels, l)
    ensures Consistent(lang, shared, GrowFinished(st, node, l))
    ensures Keeps(st, GrowFinished(st, node, l), |st.nodes|)
  {
    GrowKeeps(lang, shared, st, node);
    FinishKeeps(lang, shared, Grow(st, node), |st.nodes|, l, |st.nodes|);
  }

  // ----- The stack -----

  /** MatcherListEntry */
  datatype Entry = Entry(matcher: Id, functionName: string)

  /** The stack of matchers holds what the stack of expressions says. */
  ghost predicate StackFits(nodes: Graph, labels: Labels, stack: seq<Entry>, frames: Stack, env: Env) {
    && |stack| == |frames|
    && (forall k :: 0 <= k < |stack| ==> EntryFits(nodes, labels, stack, frames, env, k))
    && (forall j, k :: 0 <= j < k < |stack| ==> stack[j].matcher != stack[k].matcher)
    && (forall k :: 0 < k < |stack| ==> stack[k].matcher !in labels)
  }

  ghost predicate EntryFits(nodes: Graph, labels: Labels, stack: seq<Entry>, frames: Stack, env: Env, k: nat)
    requires k < |stack| == |frames|
  {
    var id := stack[k].matcher;
    && id < |nodes|
    && stack[k].functionName == (if frames[k].CallFrame? then frames[k].name else "")
    && (frames[k].CallFrame? ==> frames[k].name != "")
    && if frames[k].ChoiceFrame? then
         nodes[id].Choice? && Carries(labels, nodes[id].children, [Resolve(frames[k].first, env)])
       else
         && nodes[id].List?
         && var cs := nodes[id].children;
            if k + 1 < |frames| && frames[k + 1].ChoiceFrame? then
              // the waiting choice is already a child of the list below it
              && cs != []
              && cs[|cs| - 1] == stack[k + 1].matcher
              && Carries(labels, cs[..|cs| - 1], ResolveAll(frames[k].es, env))
            else Carries(labels, cs, ResolveAll(frames[k].es, env))
  }

  ghost predicate Above(stack: seq<Entry>, base: nat) {
    forall k :: 0 <= k < |stack| ==> stack[k].matcher >= base
  }

  /** What the top of the stack looks like. */
  lemma TopFits(nodes: Graph, labels: Labels, stack: seq<Entry>, frames: Stack, env: Env)
    requires StackFits(nodes, labels, stack, frames, env)
    ensures |stack| == |frames| > 0
    ensures var top, frame := stack[|stack| - 1], Top(frames);
            && top.matcher < |nodes|
            && top.functionName == (if frame.CallFrame? then frame.name else "")
            && (frame.CallFrame? ==> frame.name != "")
            && nodes[top.matcher].Choice? == frame.ChoiceFrame?
            && nodes[top.matcher].List? == !frame.ChoiceFrame?
            && (!frame.ChoiceFrame? ==> Carries(labels, nodes[top.matcher].children, ResolveAll(frame.es, env)))
  {
    assert EntryFits(nodes, labels, stack, frames, env, |stack| - 1);
  }

  /** What happens above a stack does not disturb it. */
  lemma StackKept(a: Store, b: Store, stack: seq<Entry>, frames: Stack, env: Env)
    requires StackFits(a.nodes, a.labels, stack, frames, env) && Keeps(a, b, |a.nodes|)
    ensures StackFits(b.nodes, b.labels, stack, frames, env)
  {
    forall k | 0 <= k < |stack|
      ensures EntryFits(b.nodes, b.labels, stack, frames, env, k)
      ensures k > 0 ==> stack[k].matcher !in b.labels
    {
      assert EntryFits(a.nodes, a.labels, stack, frames, env, k);
    }
  }

  lemma ResolveSnoc(es: seq<Expr>, e: Expr, env: Env)
    ensures ResolveAll(es + [e], env) == ResolveAll(es, env) + [Resolve(e, env)]
  {
  }

  /** The list on top gets other children. */
  lemma ChangeTop(nodes: Graph, labels: Labels, stack: seq<Entry>, frames: Stack, env: Env, cs: seq<Id>, es: seq<Expr>)
    requires StackFits(nodes, labels, stack, frames, env) && !Top(frames).ChoiceFrame?
    requires Carries(labels, cs, ResolveAll(es, env))
    ensures var top := stack[|stack| - 1].matcher;
            && top < |nodes| && nodes[top].List?
            && StackFits(nodes[top := List(cs)], labels, stack, SetTop(frames, es), env)
  {
    hide Carries, ResolveAll;
    var n := |stack| - 1;
    var top := stack[n].matcher;
    assert EntryFits(nodes, labels, stack, frames, env, n);
    var nodes', frames' := nodes[top := List(cs)], SetTop(frames, es);
    forall k | 0 <= k < n ensures EntryFits(nodes', labels, stack, frames', env, k) {
      assert EntryFits(nodes, labels, stack, frames, env, k);
      EntryKept(nodes, nodes', labels, stack, stack, frames, frames', env, k);
    }
    assert EntryFits(nodes', labels, stack, frames', env, n);
  }

  /** An element is appended to the list on top. */
  lemma AddToList(nodes: Graph, labels: Labels, stack: seq<Entry>, frames: Stack, env: Env, x: Id, e: Expr)
    requires StackFits(nodes, labels, stack, frames, env) && !Top(frames).ChoiceFrame?
    requires x in labels && labels[x] == Resolve(e, env)
    ensures var top := stack[|stack| - 1].matcher;
            && top < |nodes| && nodes[top].List?
            && StackFits(nodes[top := List(nodes[top].children + [x])], labels, stack, Add(frames, e), env)
  {
    hide StackFits;
    TopFits(nodes, labels, stack, frames, env);
    var cs := nodes[stack[|stack| - 1].matcher].children;
    ResolveSnoc(Top(frames).es, e, env);
    ChangeTop(nodes, labels, stack, frames, env, cs + [x], Top(frames).es + [e]);
  }

  /** The waiting choice takes the element, is finished, and leaves the stack. */
  lemma AddToChoice(nodes: Graph, labels: Labels, stack: seq<Entry>, frames: Stack, env: Env, x: Id, e: Expr)
    requires StackFits(nodes, labels, stack, frames, env) && Top(frames).ChoiceFrame?
    requires x in labels && labels[x] == Resolve(e, env)
    ensures var top := stack[|stack| - 1].matcher;
            && |stack| > 1 && top < |nodes| && nodes[top].Choice?
            && var l := Label(Alt([Top(frames).first, e]), env);
               var node := Choice(nodes[top].children + [x]);
               && Carries(labels, node.children, ResolveAll(l.e.es, env))
               && StackFits(nodes[top := node], labels[top := l], stack[..|stack| - 1], Add(frames, e), env)
  {
    var n := |stack| - 1;
    var top := stack[n].matcher;
    assert EntryFits(nodes, labels, stack, frames, env, n);
    var alt := Alt([Top(frames).first, e]);
    var nodes' := nodes[top := Choice(nodes[top].children + [x])];
    PopChoice(nodes, nodes', labels, stack, frames, env, alt);
  }

  /** The choice on top leaves the stack, labelled as the given alternatives. */
  lemma PopChoice(nodes: Graph, nodes': Graph, labels: Labels, stack: seq<Entry>, frames: Stack, env: Env, alt: Expr)
    requires StackFits(nodes, labels, stack, frames, env) && Top(frames).ChoiceFrame? && alt.Alt?
    requires |nodes'| == |nodes|
    requires forall id :: 0 <= id < |nodes| && id != stack[|stack| - 1].matcher ==> nodes'[id] == nodes[id]
    ensures var below := Pop(frames);
            StackFits(nodes', labels[stack[|stack| - 1].matcher := Label(alt, env)], stack[..|stack| - 1],
                      SetTop(below, Top(below).es + [alt]), env)
  {
    hide Carries, ResolveAll, Resolve;
    var n := |stack| - 1;
    var top := stack[n].matcher;
    var below := Pop(frames);
    var stack', frames', labels' := stack[..n], SetTop(below, Top(below).es + [alt]), labels[top := Label(alt, env)];
    forall k | 0 <= k < |stack'| ensures EntryFits(nodes', labels', stack', frames', env, k) {
      assert EntryFits(nodes, labels, stack, frames, env, k);
      if k < n - 1 {
        EntryLabelled(nodes, labels, stack, frames, env, k, top, Label(alt, env));
        EntryKept(nodes, nodes', labels', stack, stack', frames, frames', env, k);
      } else {
        ChoiceJoins(labels, nodes[stack[k].matcher].children, Top(below).es, env, top, alt);
      }
    }
  }

  /** A node that is not yet labelled gets its label. */
  lemma EntryLabelled(nodes: Graph, labels: Labels, stack: seq<Entry>, frames: Stack, env: Env, k: nat, id: Id,
      l: Label)
    requires k < |stack| == |frames| && EntryFits(nodes, labels, stack, frames, env, k) && id !in labels
    ensures EntryFits(nodes, labels[id := l], stack, frames, env, k)
  {
  }

  /** The choice at the end of its list joins the expressions of the list. */
  lemma ChoiceJoins(labels: Labels, cs: seq<Id>, es: seq<Expr>, env: Env, choice: Id, alt: Expr)
    requires cs != [] && cs[|cs| - 1] == choice && choice !in labels && alt.Alt?
    requires Carries(labels, cs[..|cs| - 1], ResolveAll(es, env))
    ensures Carries(labels[choice := Label(alt, env)], cs, ResolveAll(es + [alt], env))
  {
    ResolveSnoc(es, alt, env);
  }

  /** The list on top of another entry leaves the stack. */
  lemma PopList(nodes: Graph, labels: Labels, stack: seq<Entry>, frames: Stack, env: Env, l: Label)
    requires StackFits(nodes, labels, stack, frames, env) && |stack| > 1 && !Top(frames).ChoiceFrame?
    ensures var top := stack[|stack| - 1].matcher;
            && top < |nodes| && nodes[top].List?
            && Carries(labels, nodes[top].children, ResolveAll(Top(frames).es, env))
            && StackFits(nodes, labels, stack[..|stack| - 1], Pop(frames), env)
            && StackFits(nodes, labels[top := l], stack[..|stack| - 1], Pop(frames), env)
  {
    var n := |stack| - 1;
    var top := stack[n].matcher;
    assert EntryFits(nodes, labels, stack, frames, env, n);
    var stack', frames' := stack[..n], Pop(frames);
    forall k | 0 <= k < |stack'|
      ensures EntryFits(nodes, labels, stack', frames', env, k)
      ensures EntryFits(nodes, labels[top := l], stack', frames', env, k)
      ensures stack'[k].matcher != top
    {
      assert EntryFits(nodes, labels, stack, frames, env, k);
    }
  }

  /** A new, empty list is pushed. */
  lemma PushList(nodes: Graph, labels: Labels, stack: seq<Entry>, frames: Stack, env: Env, name: string)
    requires StackFits(nodes, labels, stack, frames, env)
    requires forall id :: id in labels ==> id < |nodes|
    ensures StackFits(nodes + [List([])], labels, stack + [Entry(|nodes|, name)],
                      Push(frames, if name == "" then ListFrame([]) else CallFrame(name, [])), env)
  {
    var nodes', stack' := nodes + [List([])], stack + [Entry(|nodes|, name)];
    var frames' := Push(frames, if name == "" then ListFrame([]) else CallFrame(name, []));
    assert ResolveAll([], env) == [];
    forall k | 0 <= k < |stack'|
      ensures EntryFits(nodes', labels, stack', frames', env, k)
      ensures k < |stack| ==> stack'[k].matcher < |nodes|
    {
      if k < |stack| { assert EntryFits(nodes, labels, stack, frames, env, k); }
    }
  }

  /** The last child of the list on top is replaced. */
  lemma ReplaceLast(nodes: Graph, labels: Labels, stack: seq<Entry>, frames: Stack, env: Env, x: Id, e: Expr)
    requires StackFits(nodes, labels, stack, frames, env) && !Top(frames).ChoiceFrame? && Top(frames).es != []
    requires x in labels && labels[x] == Resolve(e, env)
    ensures var top, es := stack[|stack| - 1].matcher, Top(frames).es;
            && top < |nodes| && nodes[top].List?
            && var cs := nodes[top].children;
               && |cs| == |es|
               && StackFits(nodes[top := List(cs[..|cs| - 1] + [x])], labels, stack,
                            SetTop(frames, es[..|es| - 1] + [e]), env)
  {
    hide StackFits;
    TopFits(nodes, labels, stack, frames, env);
    var cs, es := nodes[stack[|stack| - 1].matcher].children, Top(frames).es;
    ResolveSnoc(es[..|es| - 1], e, env);
    ChangeTop(nodes, labels, stack, frames, env, cs[..|cs| - 1] + [x], es[..|es| - 1] + [e]);
  }

  lemma CarriesParts(labels: Labels, cs: seq<Id>, es: seq<Expr>, env: Env)
    requires Carries(labels, cs, ResolveAll(es, env)) && es != []
    ensures |cs| == |es|
    ensures Carries(labels, cs[..|cs| - 1], ResolveAll(es[..|es| - 1], env))
    ensures Carries(labels, [cs[|cs| - 1]], [Resolve(es[|es| - 1], env)])
  {
  }

  /** The last child of the list on top becomes the first alternative of a new choice,
      which takes its place in the list and goes on the stack. */
  lemma PushChoice(nodes: Graph, labels: Labels, stack: seq<Entry>, frames: Stack, env: Env)
    requires StackFits(nodes, labels, stack, frames, env) && !Top(frames).ChoiceFrame? && Top(frames).es != []
    requires forall id :: id in labels ==> id < |nodes|
    ensures var top, es := stack[|stack| - 1].matcher, Top(frames).es;
            && top < |nodes| && nodes[top].List?
            && var cs := nodes[top].children;
               && |cs| == |es|
               && StackFits(nodes[top := List(cs[..|cs| - 1] + [|nodes|])] + [Choice([cs[|cs| - 1]])], labels,
                            stack + [Entry(|nodes|, "")],
                            Push(SetTop(frames, es[..|es| - 1]), ChoiceFrame(es[|es| - 1])), env)
  {
    hide Carries, ResolveAll, Resolve;
    var n, es := |stack| - 1, Top(frames).es;
    var top := stack[n].matcher;
    assert EntryFits(nodes, labels, stack, frames, env, n);
    var cs := nodes[top].children;
    CarriesParts(labels, cs, es, env);
    var list, choice := List(cs[..|cs| - 1] + [|nodes|]), Choice([cs[|cs| - 1]]);
    var nodes' := nodes[top := list] + [choice];
    var stack' := stack + [Entry(|nodes|, "")];
    var frames' := Push(SetTop(frames, es[..|es| - 1]), ChoiceFrame(es[|es| - 1]));
    forall k | 0 <= k < |stack| ensures stack'[k].matcher < |nodes| {
      assert EntryFits(nodes, labels, stack, frames, env, k);
    }
    forall k | 0 <= k < n ensures EntryFits(nodes', labels, stack', frames', env, k) {
      EntryKept(nodes, nodes', labels, stack, stack', frames, frames', env, k);
    }
    assert EntryFits(nodes', labels, stack', frames', env, n) by {
      assert nodes'[top] == list;
      assert list.children[..|cs| - 1] == cs[..|cs| - 1];
    }
    assert EntryFits(nodes', labels, stack', frames', env, n + 1) by {
      assert nodes'[|nodes|] == choice;
    }
  }

  lemma EntryKept(nodes: Graph, nodes': Graph, labels: Labels, stack: seq<Entry>, stack': seq<Entry>,
      frames: Stack, frames': Stack, env: Env, k: nat)
    requires k + 1 < |stack| == |frames| && k + 1 < |stack'| == |frames'|
    requires EntryFits(nodes, labels, stack, frames, env, k)
    requires stack'[k] == stack[k] && stack'[k + 1] == stack[k + 1]
    requires frames'[k] == frames[k] && frames'[k + 1].ChoiceFrame? == frames[k + 1].ChoiceFrame?
    requires stack[k].matcher < |nodes'| && nodes'[stack[k].matcher] == nodes[stack[k].matcher]
    ensures EntryFits(nodes', labels, stack', frames', env, k)
  {
  }

  lemma AddToListKeeps(lang: Language, shared: Shared, st: Store, stack: seq<Entry>, frames: Stack, env: Env,
      base: nat, x: Id, e: Expr)
    requires Consistent(lang, shared, st) && Above(stack, base)
    requires StackFits(st.nodes, st.labels, stack, frames, env) && stack[0].matcher in st.pending
    requires !Top(frames).ChoiceFrame?
    requires x in st.labels && st.labels[x] == Resolve(e, env)
    ensures var top := stack[|stack| - 1].matcher;
            && top < |st.nodes| && st.nodes[top].List?
            && var st' := Change(st, top, List(st.nodes[top].children + [x]));
               && Consistent(lang, shared, st')
               && Keeps(st, st', base)
               && StackFits(st'.nodes, st'.labels, stack, Add(frames, e), env)
  {
    AddToList(st.nodes, st.labels, stack, frames, env, x, e);
    var top := stack[|stack| - 1].matcher;
    assert st.nodes[top].Within(|st.nodes|);
    ChangeKeeps(lang, shared, st, top, List(st.nodes[top].children + [x]), base);
  }

  lemma AddToChoiceKeeps(lang: Language, shared: Shared, st: Store, stack: seq<Entry>, frames: Stack, env: Env,
      base: nat, x: Id, e: Expr)
    requires Consistent(lang, shared, st) && Above(stack, base)
    requires StackFits(st.nodes, st.labels, stack, frames, env)
    requires Top(frames).ChoiceFrame?
    requires x in st.labels && st.labels[x] == Resolve(e, env)
    ensures var top := stack[|stack| - 1].matcher;
            && |stack| > 1 && top < |st.nodes| && st.nodes[top].Choice?
            && var st' := Finish(Change(st, top, Choice(st.nodes[top].children + [x])), top,
                Label(Alt([Top(frames).first, e]), env));
               && Consistent(lang, shared, st')
               && Keeps(st, st', base)
               && StackFits(st'.nodes, st'.labels, stack[..|stack| - 1], Add(frames, e), env)
  {
    AddToChoice(st.nodes, st.labels, stack, frames, env, x, e);
    var top := stack[|stack| - 1].matcher;
    var node, l := Choice(st.nodes[top].children + [x]), Label(Alt([Top(frames).first, e]), env);
    assert st.nodes[top].Within(|st.nodes|);
    ChangeKeeps(lang, shared, st, top, node, base);
    FinishKeeps(lang, shared, Change(st, top, node), top, l, base);
  }

  /** A bracket closes: the list on top is finished as a group, or the waiting choice as
      a choice of one alternative, and leaves the stack. */
  lemma CloseKeeps(lang: Language, shared: Shared, st: Store, stack: seq<Entry>, frames: Stack, env: Env, base: nat)
    requires Consistent(lang, shared, st) && Above(stack, base) && |stack| > 1
    requires StackFits(st.nodes, st.labels, stack, frames, env) && !Top(frames).CallFrame?
    ensures var top, frame, below := stack[|stack| - 1].matcher, Top(frames), Pop(frames);
            var e := if frame.ChoiceFrame? then Alt([frame.first]) else Group(frame.es);
            var frames' := if frame.ChoiceFrame? then SetTop(below, Top(below).es + [e]) else below;
            && var st' := Finish(st, top, Label(e, env));
            && Consistent(lang, shared, st')
            && Keeps(st, st', base)
            && StackFits(st'.nodes, st'.labels, stack[..|stack| - 1], frames', env)
  {
    var top, frame := stack[|stack| - 1].matcher, Top(frames);
    assert EntryFits(st.nodes, st.labels, stack, frames, env, |stack| - 1);
    if frame.ChoiceFrame? {
      var alt := Alt([frame.first]);
      PopChoice(st.nodes, st.nodes, st.labels, stack, frames, env, alt);
      FinishKeeps(lang, shared, st, top, Label(alt, env), base);
    } else {
      var l := Label(Group(frame.es), env);
      PopList(st.nodes, st.labels, stack, frames, env, l);
      FinishKeeps(lang, shared, st, top, l, base);
    }
  }

  /** The list on top, with its last child replaced. */
  function WithLast(st: Store, stack: seq<Entry>, x: Id): Store
    requires stack != [] && stack[|stack| - 1].matcher < |st.nodes|
    requires st.nodes[stack[|stack| - 1].matcher].List? && st.nodes[stack[|stack| - 1].matcher].children != []
  {
    var top := stack[|stack| - 1].matcher;
    var cs := st.nodes[top].children;
    Change(st, top, List(cs[..|cs| - 1] + [x]))
  }

  lemma ReplaceLastKeeps(lang: Language, shared: Shared, st: Store, stack: seq<Entry>, frames: Stack, env: Env,
      base: nat, x: Id, e: Expr)
    requires Consistent(lang, shared, st) && Above(stack, base)
    requires StackFits(st.nodes, st.labels, stack, frames, env) && stack[0].matcher in st.pending
    requires !Top(frames).ChoiceFrame? && Top(frames).es != []
    requires x in st.labels && st.labels[x] == Resolve(e, env)
    ensures var top := stack[|stack| - 1].matcher;
            && top < |st.nodes| && st.nodes[top].List? && st.nodes[top].children != []
            && var st', es := WithLast(st, stack, x), Top(frames).es;
               && Consistent(lang, shared, st')
               && Keeps(st, st', base)
               && StackFits(st'.nodes, st'.labels, stack, SetTop(frames, es[..|es| - 1] + [e]), env)
  {
    ReplaceLast(st.nodes, st.labels, stack, frames, env, x, e);
    var top := stack[|stack| - 1].matcher;
    var cs := st.nodes[top].children;
    assert st.nodes[top].Within(|st.nodes|);
    ChangeKeeps(lang, shared, st, top, List(cs[..|cs| - 1] + [x]), base);
  }

  lemma PushChoiceKeeps(lang: Language, shared: Shared, st: Store, stack: seq<Entry>, frames: Stack, env: Env,
      base: nat)
    requires Consistent(lang, shared, st) && Above(stack, base) && base <= |st.nodes|
    requires StackFits(st.nodes, st.labels, stack, frames, env) && stack[0].matcher in st.pending
    requires !Top(frames).ChoiceFrame? && Top(frames).es != []
    ensures var top := stack[|stack| - 1].matcher;
            && top < |st.nodes| && st.nodes[top].List? && st.nodes[top].children != []
            && var cs, es := st.nodes[top].children, Top(frames).es;
               var st' := WithLast(Grow(st, Choice([cs[|cs| - 1]])), stack, |st.nodes|);
               && Consistent(lang, shared, st')
               && Keeps(st, st', base)
               && StackFits(st'.nodes, st'.labels, stack + [Entry(|st.nodes|, "")],
                            Push(SetTop(frames, es[..|es| - 1]), ChoiceFrame(es[|es| - 1])), env)
  {
    PushChoice(st.nodes, st.labels, stack, frames, env);
    var top := stack[|stack| - 1].matcher;
    var cs := st.nodes[top].children;
    assert st.nodes[top].Within(|st.nodes|);
    var list, choice := List(cs[..|cs| - 1] + [|st.nodes|]), Choice([cs[|cs| - 1]]);
    GrowKeeps(lang, shared, st, choice);
    ChangeKeeps(lang, shared, Grow(st, choice), top, list, base);
    assert st.nodes[top := list] + [choice] == (st.nodes + [choice])[top := list];
  }

  // ----- Rules -----

  /** A rule, or a call of a macro, starts: its root is known before it is filled. */
  function Begin(st: Store, l: Label): Store {
    var root := |st.nodes|;
    Store(st.nodes + [List([])], if l.e.Ref? then st.matchers[l.e.name := root] else st.matchers,
          st.labels[root := l], st.pending + {root})
  }

  lemma BeginKeeps(lang: Language, shared: Shared, st: Store, l: Label)
    requires Consistent(lang, shared, st)
    requires l.e.Ref? ==> l.e.name !in st.matchers && l.env == NoArg
    ensures Consistent(lang, shared, Begin(st, l))
    ensures Keeps(st, Begin(st, l), |st.nodes|)
  {
    var st' := Begin(st, l);
    ClosedGrows(st.nodes, List([]));
    forall id | id in st'.labels
      ensures id < |st'.nodes| && (id in st'.pending || Fits(lang, st'.nodes[id], st'.labels, st'.labels[id]))
    {
      if id != |st.nodes| && id !in st.pending {
        FitsGrows(lang, st.nodes[id], st.labels, st'.labels, st.labels[id]);
      }
    }
  }

  lemma BeginStack(nodes: Graph, labels: Labels, env: Env)
    ensures StackFits(nodes + [List([])], labels, [Entry(|nodes|, "")], EMPTY, env)
  {
    assert ResolveAll([], env) == [];
    assert EntryFits(nodes + [List([])], labels, [Entry(|nodes|, "")], EMPTY, env, 0);
  }

  /** The root is filled. */
  function End(st: Store, root: Id): Store {
    st.(pending := st.pending - {root})
  }

  lemma EndKeeps(lang: Language, shared: Shared, st: Store, root: Id)
    requires Consistent(lang, shared, st) && root in st.labels
    requires Fits(lang, st.nodes[root], st.labels, st.labels[root])
    ensures Consistent(lang, shared, End(st, root))
  {
  }
}
