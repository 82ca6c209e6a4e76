/** Soundness of the matcher graph interpreter: what it accepts is derivable, and what
    it suggests can come next. Holds for every graph, cyclic or left-recursive. */
module MatchSound {
  import opened Matcher
  import opened MatchRun

  lemma {:induction false} SubsetSize<T>(a: set<T>, b: set<T>)
    requires a <= b
    ensures |a| <= |b|
  {
    if a != {} {
      var x :| x in a;
      SubsetSize(a - {x}, b - {x});
    }
  }

  /** The nodes not yet added to a state. */
  ghost function Fresh(g: Graph, s: State): nat {
    |Ids(g) - s.added|
  }

  lemma FreshShrinks(g: Graph, s: State, s': State)
    requires s.added <= s'.added
    ensures Fresh(g, s') <= Fresh(g, s)
    ensures forall id: Id :: id < |g| && id !in s.added && id in s'.added ==> Fresh(g, s') < Fresh(g, s)
  {
    SubsetSize(Ids(g) - s'.added, Ids(g) - s.added);
    forall id: Id | id < |g| && id !in s.added && id in s'.added
      ensures Fresh(g, s') < Fresh(g, s)
    {
      SubsetSize(Ids(g) - s'.added, Ids(g) - s.added - {id});
    }
  }

  // ----- AddSuggestion -----

  /** A matcher that reports OPTIONAL derives the empty token sequence, everywhere. */
  lemma {:induction false} OptionalDerivesNothing(w: Setting, id: Id, s: State, i: nat)
    requires w.Valid() && id < |w.g| && i <= |w.tokens|
    requires Suggest(w.g, id, s).optional
    ensures w.Derives(id, i, i, Fresh(w.g, s))
    decreases Ids(w.g) - s.added, 0
  {
    var s1 := s.(added := s.added + {id});
    FreshShrinks(w.g, s, s1);
    match w.g[id] {
      case List(cs) =>
        OptionalListDerivesNothing(w, cs, s1, i);
        w.DerivesSeqMonotone(cs, i, i, Fresh(w.g, s1), Fresh(w.g, s) - 1);
      case _ =>
    }
  }

  lemma {:induction false} OptionalListDerivesNothing(w: Setting, cs: seq<Id>, s: State, i: nat)
    requires w.Valid() && AllBelow(cs, |w.g|) && i <= |w.tokens|
    requires SuggestList(w.g, cs, s).optional
    ensures w.DerivesSeq(cs, i, i, Fresh(w.g, s))
    decreases Ids(w.g) - s.added, |cs| + 1
  {
    if cs != [] {
      var r := Suggest(w.g, cs[0], s);
      OptionalDerivesNothing(w, cs[0], s, i);
      OptionalListDerivesNothing(w, cs[1..], r.state, i);
      FreshShrinks(w.g, s, r.state);
      w.DerivesSeqMonotone(cs[1..], i, i, Fresh(w.g, r.state), Fresh(w.g, s));
    }
  }

  /** One call suggests no leaf twice, and only leaves it has just added. */
  ghost predicate AddsOnce(s: State, s': State) {
    && s.added <= s'.added
    && s.suggestions <= s'.suggestions
    && (forall k :: |s.suggestions| <= k < |s'.suggestions| ==> s'.suggestions[k] in s'.added - s.added)
    && (forall j, k :: |s.suggestions| <= j < k < |s'.suggestions| ==> s'.suggestions[j] != s'.suggestions[k])
  }

  lemma {:induction false} SuggestAddsOnce(g: Graph, id: Id, s: State)
    requires Closed(g) && id < |g|
    ensures AddsOnce(s, Suggest(g, id, s).state)
    decreases Ids(g) - s.added, 0
  {
    if id !in s.added {
      var s1 := s.(added := s.added + {id});
      match g[id] {
        case List(cs) => SuggestListAddsOnce(g, cs, s1);
        case Choice(cs) => SuggestAllAddsOnce(g, cs, s1);
        case Optional(c) => SuggestAddsOnce(g, c, s1);
        case Repeat(c) => SuggestAddsOnce(g, c, s1);
        case _ =>
      }
    }
  }

  lemma {:induction false} SuggestListAddsOnce(g: Graph, cs: seq<Id>, s: State)
    requires Closed(g) && AllBelow(cs, |g|)
    ensures AddsOnce(s, SuggestList(g, cs, s).state)
    decreases Ids(g) - s.added, |cs| + 1
  {
    if cs != [] {
      SuggestAddsOnce(g, cs[0], s);
      SuggestListAddsOnce(g, cs[1..], Suggest(g, cs[0], s).state);
    }
  }

  lemma {:induction false} SuggestAllAddsOnce(g: Graph, cs: seq<Id>, s: State)
    requires Closed(g) && AllBelow(cs, |g|)
    ensures AddsOnce(s, SuggestAll(g, cs, s))
    decreases Ids(g) - s.added, |cs| + 1
  {
    if cs != [] {
      SuggestAddsOnce(g, cs[0], s);
      SuggestAllAddsOnce(g, cs[1..], Suggest(g, cs[0], s).state);
    }
  }

  /** An added matcher has had its turn: a leaf with suggestions is suggested, every
      alternative of a choice is added, and so is the element of an optional or repeat and
      the first child of a list. */
  ghost predicate Expanded(g: Graph, id: Id, s: State)
    requires id < |g|
  {
    match g[id]
    case List(cs) => cs != [] ==> cs[0] in s.added
    case Choice(cs) => forall k :: 0 <= k < |cs| ==> cs[k] in s.added
    case Optional(c) => c in s.added
    case Repeat(c) => c in s.added
    case Keyword(_) => id in s.suggestions
    case Name(_) => id in s.suggestions
    case ReservedName(_) => id in s.suggestions
    case _ => true
  }

  /** All matchers that a call adds are expanded. */
  ghost predicate Expands(g: Graph, s: State, s': State) {
    && s.added <= s'.added
    && s.suggestions <= s'.suggestions
    && forall id: Id :: id < |g| && id in s'.added && id !in s.added ==> Expanded(g, id, s')
  }

  lemma ExpandsThen(g: Graph, a: State, b: State, c: State)
    requires Expands(g, a, b) && Expands(g, b, c)
    ensures Expands(g, a, c)
  {
    forall id: Id | id < |g| && id in c.added && id !in a.added ensures Expanded(g, id, c) {
      if id in b.added {
        assert Expanded(g, id, b);
        assert forall x :: x in b.suggestions ==> x in c.suggestions;
      }
    }
  }

  /** AddSuggestion explores: the matcher is added, and so is all that must follow. */
  lemma {:induction false} SuggestExpands(g: Graph, id: Id, s: State)
    requires Closed(g) && id < |g|
    ensures id in Suggest(g, id, s).state.added && Expands(g, s, Suggest(g, id, s).state)
    decreases Ids(g) - s.added, 0
  {
    if id !in s.added {
      var s1 := s.(added := s.added + {id});
      match g[id] {
        case List(cs) => SuggestListExpands(g, cs, s1);
        case Choice(cs) => SuggestAllExpands(g, cs, s1);
        case Optional(c) => SuggestExpands(g, c, s1);
        case Repeat(c) => SuggestExpands(g, c, s1);
        case _ =>
      }
    }
  }

  lemma {:induction false} SuggestListExpands(g: Graph, cs: seq<Id>, s: State)
    requires Closed(g) && AllBelow(cs, |g|)
    ensures cs != [] ==> cs[0] in SuggestList(g, cs, s).state.added
    ensures Expands(g, s, SuggestList(g, cs, s).state)
    decreases Ids(g) - s.added, |cs| + 1
  {
    if cs != [] {
      var r := Suggest(g, cs[0], s);
      SuggestExpands(g, cs[0], s);
      SuggestListExpands(g, cs[1..], r.state);
      ExpandsThen(g, s, r.state, SuggestList(g, cs[1..], r.state).state);
    }
  }

  lemma {:induction false} SuggestAllExpands(g: Graph, cs: seq<Id>, s: State)
    requires Closed(g) && AllBelow(cs, |g|)
    ensures forall k :: 0 <= k < |cs| ==> cs[k] in SuggestAll(g, cs, s).added
    ensures Expands(g, s, SuggestAll(g, cs, s))
    decreases Ids(g) - s.added, |cs| + 1
  {
    if cs != [] {
      var s1 := Suggest(g, cs[0], s).state;
      SuggestExpands(g, cs[0], s);
      SuggestAllExpands(g, cs[1..], s1);
      ExpandsThen(g, s, s1, SuggestAll(g, cs[1..], s1));
      assert forall k :: 0 < k < |cs| ==> cs[k] == cs[1..][k - 1];
    }
  }

  // ----- Match -----

  /** Whenever Match succeeds, the tokens it consumed are derivable from the matcher. */
  lemma MatchSound(w: Setting, id: Id, s: State, fuel: nat)
    requires w.Valid() && id < |w.g| && s.index < |w.tokens|
    requires Match(w, id, s, fuel).Finished? && Match(w, id, s, fuel).success
    ensures w.Derivable(id, s.index, Match(w, id, s, fuel).state.index)
  {
    MatchDerives(w, id, s, fuel);
  }

  /** The height of the derivations that a run with the given bound can witness. */
  ghost function Height(w: Setting, fuel: nat): nat {
    fuel + |Ids(w.g)|
  }

  lemma {:induction false} MatchDerives(w: Setting, id: Id, s: State, fuel: nat)
    requires w.Valid() && id < |w.g| && s.index < |w.tokens|
    requires Match(w, id, s, fuel).Finished? && Match(w, id, s, fuel).success
    ensures w.Derives(id, s.index, Match(w, id, s, fuel).state.index, Height(w, fuel))
    decreases fuel, 0
  {
    match w.g[id] {
      case List(cs) => ListDerives(w, cs, s, s.Copy(), fuel - 1);
      case Choice(cs) => ChoiceDerives(w, cs, s, fuel - 1);
      case Optional(c) =>
        if Match(w, c, s.Copy(), fuel - 1).success { MatchDerives(w, c, s.Copy(), fuel - 1); }
      case Repeat(c) =>
        var r := Match(w, c, s.Copy(), fuel - 1);
        MatchDerives(w, c, s.Copy(), fuel - 1);
        CopiesOne(w, c, s.index, r.state.index, Height(w, fuel - 1));
        RepeatDerives(w, c, s, r.state, fuel - 1, s.index, 1, Height(w, fuel - 1));
      case _ =>
    }
  }

  lemma CopiesOne(w: Setting, c: Id, i: nat, j: nat, n: nat)
    requires w.Derives(c, i, j, n)
    ensures w.DerivesSeq(Copies(c, 1), i, j, n)
  {
    w.DerivesSnoc([], c, i, i, j, n);
    assert [] + [c] == Copies(c, 1);
  }

  lemma CopiesMore(w: Setting, c: Id, k: nat, i: nat, m: nat, j: nat, n: nat)
    requires w.DerivesSeq(Copies(c, k), i, m, n) && w.Derives(c, m, j, n)
    ensures w.DerivesSeq(Copies(c, k + 1), i, j, n)
  {
    w.DerivesSnoc(Copies(c, k), c, i, m, j, n);
    assert Copies(c, k) + [c] == Copies(c, k + 1);
  }

  lemma {:induction false} ListDerives(w: Setting, cs: seq<Id>, s: State, copy: State, fuel: nat)
    requires w.Valid() && AllBelow(cs, |w.g|)
    requires s.index <= copy.index <= |w.tokens|
    requires MatchList(w, cs, s, copy, fuel).Finished? && MatchList(w, cs, s, copy, fuel).success
    ensures w.DerivesSeq(cs, copy.index, MatchList(w, cs, s, copy, fuel).state.index, Height(w, fuel))
    decreases fuel, |cs| + 1
  {
    if cs == [] {
    } else if copy.index == |w.tokens| {
      OptionalListDerivesNothing(w, cs, copy, copy.index);
      SubsetSize(Ids(w.g) - copy.added, Ids(w.g));
      w.DerivesSeqMonotone(cs, copy.index, copy.index, Fresh(w.g, copy), Height(w, fuel));
    } else {
      MatchDerives(w, cs[0], copy, fuel);
      ListDerives(w, cs[1..], s, Match(w, cs[0], copy, fuel).state, fuel);
    }
  }

  lemma {:induction false} ChoiceDerives(w: Setting, cs: seq<Id>, s: State, fuel: nat)
    requires w.Valid() && AllBelow(cs, |w.g|)
    requires s.index < |w.tokens|
    requires MatchChoice(w, cs, s, fuel).Finished? && MatchChoice(w, cs, s, fuel).success
    ensures exists k :: 0 <= k < |cs| &&
              w.Derives(cs[k], s.index, MatchChoice(w, cs, s, fuel).state.index, Height(w, fuel))
    decreases fuel, |cs| + 1
  {
    var r := Match(w, cs[0], s.Copy(), fuel);
    if r.success {
      MatchDerives(w, cs[0], s.Copy(), fuel);
    } else {
      var s1, rest := s.Discard(r.state), cs[1..];
      ChoiceDerives(w, rest, s1, fuel);
      var k :| 0 <= k < |rest| && w.Derives(rest[k], s.index, MatchChoice(w, rest, s1, fuel).state.index,
          Height(w, fuel));
      assert cs[k + 1] == rest[k];
    }
  }

  /** The loop has matched the element k > 0 times from i; it will have matched it more. */
  lemma {:induction false} RepeatDerives(w: Setting, c: Id, s: State, copy: State, fuel: nat, i: nat, k: nat, n: nat)
    requires w.Valid() && c < |w.g|
    requires s.index <= copy.index <= |w.tokens|
    requires MatchRepeat(w, c, s, copy, fuel).Finished?
    requires k > 0 && w.DerivesSeq(Copies(c, k), i, copy.index, n) && Height(w, fuel) <= n
    ensures exists k': nat :: k' > 0 && w.DerivesSeq(Copies(c, k'), i, MatchRepeat(w, c, s, copy, fuel).state.index, n)
    decreases fuel, 1
  {
    if copy.index < |w.tokens| {
      var r := Match(w, c, copy, fuel - 1);
      if r.success {
        MatchDerives(w, c, copy, fuel - 1);
        w.DerivesMonotone(c, copy.index, r.state.index, Height(w, fuel - 1), n);
        CopiesMore(w, c, k, i, copy.index, r.state.index, n);
        RepeatDerives(w, c, s.Adopt(copy), r.state, fuel - 1, i, k + 1, n);
      }
    }
  }
}
