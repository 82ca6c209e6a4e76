/** When Match terminates: on graphs without left-recursive cycles and without Repeat
    over an element that can succeed without consuming, from every state, with a bound
    on the nesting of calls that is linear in the tokens left. */
module MatchTermination {
  import opened Matcher
  import opened MatchRun
  import MatchOrdered

  /** The set contains every matcher that can succeed without consuming a token. */
  ghost predicate NullableWithin(g: Graph, nullable: set<Id>) {
    forall id: Id :: id < |g| && MayConsumeNothing(g[id], nullable) ==> id in nullable
  }

  ghost predicate MayConsumeNothing(node: Node, nullable: set<Id>) {
    match node
    case List(cs) => forall k :: 0 <= k < |cs| ==> cs[k] in nullable
    case Choice(cs) => exists k :: 0 <= k < |cs| && cs[k] in nullable
    case Optional(_) => true
    case Repeat(c) => c in nullable
    case _ => false
  }

  /** A child that can be entered before any token is consumed has a smaller rank. */
  ghost predicate LeadsBelow(cs: seq<Id>, nullable: set<Id>, rank: Id -> nat, bound: nat) {
    forall k :: 0 <= k < |cs| && (forall j :: 0 <= j < k ==> cs[j] in nullable) ==> rank(cs[k]) < bound
  }

  ghost predicate Descends(node: Node, nullable: set<Id>, rank: Id -> nat, bound: nat) {
    match node
    case List(cs) => LeadsBelow(cs, nullable, rank, bound)
    case Choice(cs) => forall k :: 0 <= k < |cs| ==> rank(cs[k]) < bound
    case Optional(c) => rank(c) < bound
    case Repeat(c) => rank(c) < bound && c !in nullable
    case _ => true
  }

  /** No left-recursive cycle, and no Repeat over a nullable element; ranks stay below `top`. */
  ghost predicate WellFounded(g: Graph, nullable: set<Id>, rank: Id -> nat, top: nat) {
    && NullableWithin(g, nullable)
    && (forall id: Id :: id < |g| ==> rank(id) < top && Descends(g[id], nullable, rank, rank(id)))
  }

  /** A matcher outside the nullable set consumes at least one token when it succeeds. */
  lemma {:induction false} MatchConsumes(w: Setting, nullable: set<Id>, id: Id, s: State, fuel: nat)
    requires w.Valid() && id < |w.g| && s.index < |w.tokens|
    requires NullableWithin(w.g, nullable) && id !in nullable
    requires Match(w, id, s, fuel).Finished? && Match(w, id, s, fuel).success
    ensures s.index < Match(w, id, s, fuel).state.index
    decreases fuel, 0
  {
    match w.g[id] {
      case List(cs) =>
        var k :| 0 <= k < |cs| && cs[k] !in nullable;
        ListConsumes(w, nullable, cs, s, s.Copy(), fuel - 1, k);
      case Choice(cs) => ChoiceConsumes(w, nullable, cs, s, fuel - 1);
      case Optional(_) =>
      case Repeat(c) => MatchConsumes(w, nullable, c, s.Copy(), fuel - 1);
      case _ =>
    }
  }

  lemma {:induction false} ListConsumes(w: Setting, nullable: set<Id>, cs: seq<Id>, s: State, copy: State, fuel: nat,
      k: nat)
    requires w.Valid() && AllBelow(cs, |w.g|) && NullableWithin(w.g, nullable)
    requires s.index <= copy.index <= |w.tokens| && s.index < |w.tokens|
    requires k < |cs| && cs[k] !in nullable
    requires MatchList(w, cs, s, copy, fuel).Finished? && MatchList(w, cs, s, copy, fuel).success
    ensures s.index < MatchList(w, cs, s, copy, fuel).state.index
    decreases fuel, |cs| + 1
  {
    if copy.index < |w.tokens| {
      var r := Match(w, cs[0], copy, fuel);
      if k == 0 {
        MatchConsumes(w, nullable, cs[0], copy, fuel);
        ListKeepsIndex(w, cs[1..], s, r.state, fuel);
      } else {
        ListConsumes(w, nullable, cs[1..], s, r.state, fuel, k - 1);
      }
    }
  }

  lemma {:induction false} ListKeepsIndex(w: Setting, cs: seq<Id>, s: State, copy: State, fuel: nat)
    requires w.Valid() && AllBelow(cs, |w.g|) && s.index <= copy.index <= |w.tokens|
    requires MatchList(w, cs, s, copy, fuel).Finished? && MatchList(w, cs, s, copy, fuel).success
    ensures copy.index <= MatchList(w, cs, s, copy, fuel).state.index
    decreases |cs|
  {
    if cs != [] && copy.index < |w.tokens| {
      ListKeepsIndex(w, cs[1..], s, Match(w, cs[0], copy, fuel).state, fuel);
    }
  }

  lemma {:induction false} ChoiceConsumes(w: Setting, nullable: set<Id>, cs: seq<Id>, s: State, fuel: nat)
    requires w.Valid() && AllBelow(cs, |w.g|) && NullableWithin(w.g, nullable)
    requires s.index < |w.tokens|
    requires forall k :: 0 <= k < |cs| ==> cs[k] !in nullable
    requires MatchChoice(w, cs, s, fuel).Finished? && MatchChoice(w, cs, s, fuel).success
    ensures s.index < MatchChoice(w, cs, s, fuel).state.index
    decreases fuel, |cs| + 1
  {
    var r := Match(w, cs[0], s.Copy(), fuel);
    if r.success {
      MatchConsumes(w, nullable, cs[0], s.Copy(), fuel);
    } else {
      ChoiceConsumes(w, nullable, cs[1..], s.Discard(r.state), fuel);
    }
  }

  // ----- Termination -----

  /** left * step */
  ghost function Budget(left: nat, step: nat): nat {
    if left == 0 then 0 else step + Budget(left - 1, step)
  }

  lemma {:induction false} BudgetStep(left: nat, left': nat, step: nat)
    requires left' < left
    ensures Budget(left', step) + step <= Budget(left, step)
  {
    if left' < left - 1 { BudgetStep(left - 1, left', step); }
  }

  /** A bound on the nesting of calls and loop rounds for a node of the given rank. */
  ghost function Bound(w: Setting, i: nat, rank: nat, top: nat): nat
    requires i <= |w.tokens|
  {
    Budget(|w.tokens| - i, top + 2) + rank + 1
  }

  lemma BoundStep(w: Setting, i: nat, j: nat, top: nat)
    requires i < j <= |w.tokens|
    ensures Bound(w, j, 0, top) + top + 2 <= Bound(w, i, 0, top)
  {
    BudgetStep(|w.tokens| - i, |w.tokens| - j, top + 2);
  }

  /** Match finishes from every state in which there is a token left. */
  lemma {:induction false} MatchTerminates(w: Setting, nullable: set<Id>, rank: Id -> nat, top: nat, id: Id, s: State,
      fuel: nat)
    requires w.Valid() && id < |w.g| && s.index < |w.tokens|
    requires WellFounded(w.g, nullable, rank, top)
    requires Bound(w, s.index, rank(id), top) <= fuel
    ensures Match(w, id, s, fuel).Finished?
    decreases fuel, 0
  {
    match w.g[id] {
      case List(cs) => ListTerminates(w, nullable, rank, top, cs, s, s.Copy(), fuel - 1, rank(id));
      case Choice(cs) => ChoiceTerminates(w, nullable, rank, top, cs, s, fuel - 1, rank(id));
      case Optional(c) => MatchTerminates(w, nullable, rank, top, c, s.Copy(), fuel - 1);
      case Repeat(c) =>
        MatchTerminates(w, nullable, rank, top, c, s.Copy(), fuel - 1);
        var r := Match(w, c, s.Copy(), fuel - 1);
        if r.success {
          MatchConsumes(w, nullable, c, s.Copy(), fuel - 1);
          BoundStep(w, s.index, r.state.index, top);
          RepeatTerminates(w, nullable, rank, top, c, s, r.state, fuel - 1);
        }
      case _ =>
    }
  }

  lemma {:induction false} ListTerminates(w: Setting, nullable: set<Id>, rank: Id -> nat, top: nat,
      cs: seq<Id>, s: State, copy: State, fuel: nat, bound: nat)
    requires w.Valid() && AllBelow(cs, |w.g|) && WellFounded(w.g, nullable, rank, top)
    requires s.index <= copy.index <= |w.tokens| && s.index < |w.tokens|
    requires s.index < copy.index || LeadsBelow(cs, nullable, rank, bound)
    requires Bound(w, s.index, bound, top) - 1 <= fuel
    ensures MatchList(w, cs, s, copy, fuel).Finished?
    decreases fuel, |cs| + 1
  {
    if cs != [] && copy.index < |w.tokens| {
      if s.index < copy.index { BoundStep(w, s.index, copy.index, top); }
      MatchTerminates(w, nullable, rank, top, cs[0], copy, fuel);
      var r := Match(w, cs[0], copy, fuel);
      if r.success {
        if cs[0] !in nullable {
          MatchConsumes(w, nullable, cs[0], copy, fuel);
        } else if s.index == copy.index {
          LeadsTail(cs, nullable, rank, bound);
        }
        ListTerminates(w, nullable, rank, top, cs[1..], s, r.state, fuel, bound);
      }
    }
  }

  lemma LeadsTail(cs: seq<Id>, nullable: set<Id>, rank: Id -> nat, bound: nat)
    requires cs != [] && cs[0] in nullable && LeadsBelow(cs, nullable, rank, bound)
    ensures LeadsBelow(cs[1..], nullable, rank, bound)
  {
    var rest := cs[1..];
    forall k | 0 <= k < |rest| && forall j :: 0 <= j < k ==> rest[j] in nullable
      ensures rank(rest[k]) < bound
    {
      assert forall j :: 0 < j < k + 1 ==> cs[j] == rest[j - 1];
      assert cs[k + 1] == rest[k];
    }
  }

  lemma {:induction false} ChoiceTerminates(w: Setting, nullable: set<Id>, rank: Id -> nat, top: nat,
      cs: seq<Id>, s: State, fuel: nat, bound: nat)
    requires w.Valid() && AllBelow(cs, |w.g|) && WellFounded(w.g, nullable, rank, top)
    requires s.index < |w.tokens|
    requires forall k :: 0 <= k < |cs| ==> rank(cs[k]) < bound
    requires Bound(w, s.index, bound, top) - 1 <= fuel
    ensures MatchChoice(w, cs, s, fuel).Finished?
    decreases fuel, |cs| + 1
  {
    if cs != [] {
      MatchTerminates(w, nullable, rank, top, cs[0], s.Copy(), fuel);
      var r := Match(w, cs[0], s.Copy(), fuel);
      ChoiceTerminates(w, nullable, rank, top, cs[1..], s.Discard(r.state), fuel, bound);
    }
  }

  lemma {:induction false} RepeatTerminates(w: Setting, nullable: set<Id>, rank: Id -> nat, top: nat,
      c: Id, s: State, copy: State, fuel: nat)
    requires w.Valid() && c < |w.g| && WellFounded(w.g, nullable, rank, top) && c !in nullable
    requires s.index <= copy.index <= |w.tokens|
    requires Bound(w, copy.index, top, top) <= fuel
    ensures MatchRepeat(w, c, s, copy, fuel).Finished?
    decreases fuel, 1
  {
    if copy.index < |w.tokens| {
      MatchTerminates(w, nullable, rank, top, c, copy, fuel - 1);
      var r := Match(w, c, copy, fuel - 1);
      if r.success {
        MatchConsumes(w, nullable, c, copy, fuel - 1);
        BoundStep(w, copy.index, r.state.index, top);
        RepeatTerminates(w, nullable, rank, top, c, s.Adopt(copy), r.state, fuel - 1);
      }
    }
  }

  // ----- Rounds of a Repeat loop -----

  /** How often the loop of a finished Repeat matches its element again. */
  ghost function Rounds(w: Setting, c: Id, copy: State, fuel: nat): nat
    requires w.Valid() && c < |w.g| && copy.index <= |w.tokens|
    decreases fuel
  {
    if copy.index == |w.tokens| || fuel == 0 then 0
    else
      var r := Match(w, c, copy, fuel - 1);
      if r.Finished? && r.success then 1 + Rounds(w, c, r.state, fuel - 1) else 0
  }

  lemma {:induction false} RoundsBounded(w: Setting, nullable: set<Id>, c: Id, copy: State, fuel: nat)
    requires w.Valid() && c < |w.g| && copy.index <= |w.tokens|
    requires NullableWithin(w.g, nullable) && c !in nullable
    ensures Rounds(w, c, copy, fuel) <= |w.tokens| - copy.index
    decreases fuel
  {
    if copy.index < |w.tokens| && fuel > 0 {
      var r := Match(w, c, copy, fuel - 1);
      if r.Finished? && r.success {
        MatchConsumes(w, nullable, c, copy, fuel - 1);
        RoundsBounded(w, nullable, c, r.state, fuel - 1);
      }
    }
  }

  // ----- Both conditions are needed -----

  /** A matcher succeeds at index i without consuming. */
  ghost predicate Stays(w: Setting, c: Id, i: nat)
    requires w.Valid() && i < |w.tokens|
  {
    c < |w.g| && exists n :: MatchOrdered.Succeeds(Match(w, c, State(i, {}, []), n), i)
  }

  /** A matcher fails at index i. */
  ghost predicate Gives(w: Setting, c: Id, i: nat)
    requires w.Valid() && i < |w.tokens|
  {
    c < |w.g| && exists n :: MatchOrdered.Fails(Match(w, c, State(i, {}, []), n))
  }

  /** At index i a node tries a node of the set before any token is consumed: what a list tries
      before it consumes nothing, and what a choice tries before it fails. */
  ghost predicate LeadsInto(w: Setting, node: Node, cycle: set<Id>, i: nat)
    requires w.Valid() && i < |w.tokens|
  {
    match node
    case List(cs) => exists k: nat :: ListLeads(w, cs, k, cycle, i)
    case Choice(cs) => exists k: nat :: ChoiceLeads(w, cs, k, cycle, i)
    case Optional(c) => c in cycle
    case Repeat(c) => c in cycle
    case _ => false
  }

  ghost predicate ListLeads(w: Setting, cs: seq<Id>, k: nat, cycle: set<Id>, i: nat)
    requires w.Valid() && i < |w.tokens|
  {
    k < |cs| && cs[k] in cycle && forall j :: 0 <= j < k ==> Stays(w, cs[j], i)
  }

  ghost predicate ChoiceLeads(w: Setting, cs: seq<Id>, k: nat, cycle: set<Id>, i: nat)
    requires w.Valid() && i < |w.tokens|
  {
    k < |cs| && cs[k] in cycle && forall j :: 0 <= j < k ==> Gives(w, cs[j], i)
  }

  /** Left recursion: if every matcher of a set tries one of the set at the same index, none of
      them returns. */
  lemma {:induction false} LeftRecursionDiverges(w: Setting, cycle: set<Id>, id: Id, s: State, fuel: nat)
    requires w.Valid() && s.index < |w.tokens| && id in cycle
    requires forall x :: x in cycle ==> x < |w.g| && LeadsInto(w, w.g[x], cycle, s.index)
    ensures Match(w, id, s, fuel).Unfinished?
    decreases fuel, 0
  {
    hide MatchList, MatchChoice, ListLeads, ChoiceLeads;
    if fuel > 0 {
      assert LeadsInto(w, w.g[id], cycle, s.index);
      match w.g[id] {
        case List(cs) =>
          var k: nat :| ListLeads(w, cs, k, cycle, s.index);
          ListDiverges(w, cycle, cs, k, s, s.Copy(), fuel - 1);
        case Choice(cs) =>
          var k: nat :| ChoiceLeads(w, cs, k, cycle, s.index);
          ChoiceDiverges(w, cycle, cs, k, s, fuel - 1);
        case Optional(c) => LeftRecursionDiverges(w, cycle, c, s.Copy(), fuel - 1);
        case Repeat(c) => LeftRecursionDiverges(w, cycle, c, s.Copy(), fuel - 1);
      }
    }
  }

  lemma {:induction false} ListDiverges(w: Setting, cycle: set<Id>, cs: seq<Id>, k: nat, s: State, copy: State,
      fuel: nat)
    requires w.Valid() && AllBelow(cs, |w.g|) && s.index == copy.index < |w.tokens|
    requires ListLeads(w, cs, k, cycle, s.index)
    requires forall x :: x in cycle ==> x < |w.g| && LeadsInto(w, w.g[x], cycle, s.index)
    ensures MatchList(w, cs, s, copy, fuel).Unfinished?
    decreases fuel, |cs| + 1
  {
    hide Match, LeadsInto;
    if k == 0 {
      LeftRecursionDiverges(w, cycle, cs[0], copy, fuel);
    } else if Match(w, cs[0], copy, fuel).Finished? {
      assert Stays(w, cs[0], s.index);
      var n :| MatchOrdered.Succeeds(Match(w, cs[0], State(s.index, {}, []), n), s.index);
      SameAgain(w, cs[0], State(s.index, {}, []), copy, n, fuel);
      ListDiverges(w, cycle, cs[1..], k - 1, s, Match(w, cs[0], copy, fuel).state, fuel);
    }
  }

  lemma {:induction false} ChoiceDiverges(w: Setting, cycle: set<Id>, cs: seq<Id>, k: nat, s: State, fuel: nat)
    requires w.Valid() && AllBelow(cs, |w.g|) && s.index < |w.tokens|
    requires ChoiceLeads(w, cs, k, cycle, s.index)
    requires forall x :: x in cycle ==> x < |w.g| && LeadsInto(w, w.g[x], cycle, s.index)
    ensures MatchChoice(w, cs, s, fuel).Unfinished?
    decreases fuel, |cs| + 1
  {
    hide Match, LeadsInto;
    var copy := s.Copy();
    if k == 0 {
      LeftRecursionDiverges(w, cycle, cs[0], copy, fuel);
    } else if Match(w, cs[0], copy, fuel).Finished? {
      assert Gives(w, cs[0], s.index);
      var n :| MatchOrdered.Fails(Match(w, cs[0], State(s.index, {}, []), n));
      SameAgain(w, cs[0], State(s.index, {}, []), copy, n, fuel);
      ChoiceDiverges(w, cycle, cs[1..], k - 1, s.Discard(Match(w, cs[0], copy, fuel).state), fuel);
    }
  }

  /** A match has the same outcome from every state at the same index, at every sufficient depth. */
  lemma SameAgain(w: Setting, c: Id, s: State, s': State, n: nat, m: nat)
    requires w.Valid() && c < |w.g| && s.index == s'.index < |w.tokens|
    requires Match(w, c, s, n).Finished? && Match(w, c, s', m).Finished?
    ensures var r, r' := Match(w, c, s, n), Match(w, c, s', m);
            r.success == r'.success && (r.success ==> r.state.index == r'.state.index)
  {
    hide Match;
    var big := if n <= m then m else n;
    MatchStable(w, c, s, n, big);
    MatchStable(w, c, s', m, big);
    MatchOrdered.OutcomeIgnoresSuggestions(w, c, s, s', big);
  }

  /** Whether such a matcher returns depends on the tokens: `E <- 'a'? E` stops on `a`. */
  lemma LeftRecursionCanStop(kw: Keywords)
    ensures Match(Setting([List([1, 0]), Optional(2), Keyword("a")], kw, ["a"]), 0, State(0, {}, []), 3).Finished?
  {
    var w := Setting([List([1, 0]), Optional(2), Keyword("a")], kw, ["a"]);
    var s := State(0, {}, []);
    assert Match(w, 2, s, 1) == Finished(true, State(1, {}, []));
    assert Match(w, 1, s, 2) == Finished(true, State(1, {}, []));
  }

  /** A repeat whose element succeeds without consuming never returns. */
  lemma NullableRepeatDiverges(w: Setting, id: Id, s: State, n: nat, fuel: nat)
    requires w.Valid() && id < |w.g| && w.g[id].Repeat? && s.index < |w.tokens|
    requires MatchOrdered.Succeeds(Match(w, w.g[id].child, s, n), s.index)
    ensures Match(w, id, s, fuel).Unfinished?
  {
    var c := w.g[id].child;
    if fuel > 0 && Match(w, c, s.Copy(), fuel - 1).Finished? {
      SameAgain(w, c, s, s.Copy(), n, fuel - 1);
      LoopDiverges(w, c, s, s, Match(w, c, s.Copy(), fuel - 1).state, n, fuel - 1);
    }
  }

  lemma {:induction false} LoopDiverges(w: Setting, c: Id, start: State, s: State, copy: State, n: nat, fuel: nat)
    requires w.Valid() && c < |w.g| && start.index == s.index == copy.index < |w.tokens|
    requires MatchOrdered.Succeeds(Match(w, c, start, n), start.index)
    ensures MatchRepeat(w, c, s, copy, fuel).Unfinished?
    decreases fuel
  {
    hide Match;
    if fuel > 0 && Match(w, c, copy, fuel - 1).Finished? {
      SameAgain(w, c, start, copy, n, fuel - 1);
      LoopDiverges(w, c, start, s.Adopt(copy), Match(w, c, copy, fuel - 1).state, n, fuel - 1);
    }
  }

  /** So does a repeat over an optional whose own element fails. */
  lemma RepeatedOptionalDiverges(w: Setting, id: Id, s: State, n: nat, fuel: nat)
    requires w.Valid() && id < |w.g| && w.g[id].Repeat? && w.g[w.g[id].child].Optional? && s.index < |w.tokens|
    requires MatchOrdered.Fails(Match(w, w.g[w.g[id].child].child, s.Copy(), n))
    ensures Match(w, id, s, fuel).Unfinished?
  {
    NullableRepeatDiverges(w, id, s, n + 1, fuel);
  }
}
