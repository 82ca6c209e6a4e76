/** What is suggested when the tokens run out (matcher.cpp:22-29, 87-113, 160-175, 199-213, 255-272):
    every leaf at the front of every matcher that the ordered match stops before. */
module MatchSuggests {
  import opened Matcher
  import opened MatchRun
  import opened MatchSound
  import opened MatchOrdered

  // ----- Where a match runs out of tokens -----

  /** A match of `id` from i has used all tokens and stops before the matcher `next`. Alternatives
      are tried until one succeeds, and what a failed one has met still counts. */
  ghost predicate Stuck(w: Setting, id: Id, i: nat, next: Id, n: nat)
    requires w.Valid() && id < |w.g|
    decreases n, 0
  {
    && i < |w.tokens|
    && n > 0
    && match w.g[id] {
         case List(cs) => StuckSeq(w, cs, i, next, n - 1)
         case Choice(cs) =>
           exists k :: 0 <= k < |cs| && Stuck(w, cs[k], i, next, n - 1)
             && forall m :: 0 <= m < k ==> Refuses(w, cs[m], i, n - 1)
         case Optional(c) => Stuck(w, c, i, next, n - 1)
         case Repeat(c) => StuckAgain(w, c, i, next, n - 1)
         case _ => false
       }
  }

  ghost predicate StuckSeq(w: Setting, cs: seq<Id>, i: nat, next: Id, n: nat)
    requires w.Valid() && AllBelow(cs, |w.g|)
    decreases n, |cs| + 1
  {
    && cs != []
    && if i == |w.tokens| then next == cs[0]
       else
         || Stuck(w, cs[0], i, next, n)
         || exists m: nat :: Picks(w, cs[0], i, m, n) && StuckSeq(w, cs[1..], m, next, n)
  }

  ghost predicate StuckMore(w: Setting, c: Id, i: nat, next: Id, n: nat)
    requires w.Valid() && c < |w.g|
    decreases n, 1
  {
    if i == |w.tokens| then next == c else n > 0 && StuckAgain(w, c, i, next, n - 1)
  }

  ghost predicate StuckAgain(w: Setting, c: Id, i: nat, next: Id, n: nat)
    requires w.Valid() && c < |w.g|
    decreases n, 2
  {
    Stuck(w, c, i, next, n) || exists m: nat :: Picks(w, c, i, m, n) && StuckMore(w, c, m, next, n)
  }

  /** A leaf with suggestions stands at the front of a matcher. */
  ghost predicate Begins(g: Graph, id: Id, leaf: Id, n: nat)
    decreases n
  {
    && id < |g|
    && n > 0
    && match g[id] {
         case List(cs) => cs != [] && Begins(g, cs[0], leaf, n - 1)
         case Choice(cs) => exists k :: 0 <= k < |cs| && Begins(g, cs[k], leaf, n - 1)
         case Optional(c) => Begins(g, c, leaf, n - 1)
         case Repeat(c) => Begins(g, c, leaf, n - 1)
         case Keyword(_) => leaf == id
         case Name(_) => leaf == id
         case ReservedName(_) => leaf == id
         case _ => false
       }
  }

  // ----- States -----

  /** Every added matcher has had its turn. */
  ghost predicate Explored(g: Graph, s: State) {
    forall id: Id :: id in s.added && id < |g| ==> Expanded(g, id, s)
  }

  /** A later state: nothing suggested is lost, and every added matcher has had its turn. */
  ghost predicate Later(g: Graph, s: State, s': State) {
    s.suggestions <= s'.suggestions && Explored(g, s')
  }

  lemma {:induction false} BeginningsAreSuggested(g: Graph, s: State, id: Id, leaf: Id, n: nat)
    requires Closed(g) && Explored(g, s) && id in s.added && Begins(g, id, leaf, n)
    ensures leaf in s.suggestions
    decreases n
  {
    assert Expanded(g, id, s);
    match g[id] {
      case List(cs) => BeginningsAreSuggested(g, s, cs[0], leaf, n - 1);
      case Choice(cs) =>
        var k :| 0 <= k < |cs| && Begins(g, cs[k], leaf, n - 1);
        BeginningsAreSuggested(g, s, cs[k], leaf, n - 1);
      case Optional(c) => BeginningsAreSuggested(g, s, c, leaf, n - 1);
      case Repeat(c) => BeginningsAreSuggested(g, s, c, leaf, n - 1);
      case _ =>
    }
  }

  /** More suggestions do not matter. */
  lemma ExploredMore(g: Graph, s: State, s': State)
    requires Explored(g, s) && s.added == s'.added && s.suggestions <= s'.suggestions
    ensures Later(g, s, s')
  {
    forall id: Id | id in s'.added && id < |g| ensures Expanded(g, id, s') {
      assert Expanded(g, id, s);
    }
  }

  lemma SuggestedLater(g: Graph, s: State, s': State)
    requires Explored(g, s) && Expands(g, s, s')
    ensures Later(g, s, s')
  {
    forall id: Id | id in s'.added && id < |g| ensures Expanded(g, id, s') {
      if id in s.added {
        assert Expanded(g, id, s);
        assert forall x :: x in s.suggestions ==> x in s'.suggestions;
      }
    }
  }

  // ----- Match keeps the states explored -----

  lemma {:induction false} MatchLater(w: Setting, id: Id, s: State, n: nat)
    requires w.Valid() && id < |w.g| && s.index < |w.tokens| && Explored(w.g, s)
    requires Match(w, id, s, n).Finished?
    ensures Later(w.g, s, Match(w, id, s, n).state)
    decreases n, 0
  {
    hide Suggest, SuggestList, Expanded;
    match w.g[id] {
      case List(cs) => ListLater(w, cs, s, s.Copy(), n - 1);
      case Choice(cs) => ChoiceLater(w, cs, s, n - 1);
      case Optional(c) =>
        MatchLater(w, c, s.Copy(), n - 1);
        ExploredMore(w.g, s, Match(w, id, s, n).state);
      case Repeat(c) =>
        MatchLater(w, c, s.Copy(), n - 1);
        var r := Match(w, c, s.Copy(), n - 1);
        if r.success {
          RepeatLater(w, c, s, r.state, n - 1);
        } else {
          ExploredMore(w.g, s, s.Discard(r.state));
        }
      case _ => ExploredMore(w.g, s, Match(w, id, s, n).state);
    }
  }

  lemma {:induction false} ListLater(w: Setting, cs: seq<Id>, s: State, copy: State, n: nat)
    requires w.Valid() && AllBelow(cs, |w.g|) && s.index <= copy.index <= |w.tokens|
    requires Explored(w.g, s) && Later(w.g, s, copy) && MatchList(w, cs, s, copy, n).Finished?
    ensures Later(w.g, copy, MatchList(w, cs, s, copy, n).state)
    decreases n, |cs| + 1
  {
    hide Match, SuggestList, Expanded;
    var out := MatchList(w, cs, s, copy, n).state;
    if cs != [] && copy.index == |w.tokens| {
      SuggestListExpands(w.g, cs, copy);
      SuggestedLater(w.g, copy, SuggestList(w.g, cs, copy).state);
    } else if cs != [] {
      MatchLater(w, cs[0], copy, n);
      var r := Match(w, cs[0], copy, n);
      if r.success {
        ListLater(w, cs[1..], s, r.state, n);
      }
    }
    ListAdds(w, cs, s, copy, n);
    ExploredMore(w.g, s, out);
  }

  lemma {:induction false} ChoiceLater(w: Setting, cs: seq<Id>, s: State, n: nat)
    requires w.Valid() && AllBelow(cs, |w.g|) && s.index < |w.tokens|
    requires Explored(w.g, s) && MatchChoice(w, cs, s, n).Finished?
    ensures Later(w.g, s, MatchChoice(w, cs, s, n).state)
    decreases n, |cs| + 1
  {
    hide Match, Expanded;
    if cs != [] {
      MatchLater(w, cs[0], s.Copy(), n);
      var r := Match(w, cs[0], s.Copy(), n);
      ExploredMore(w.g, s, s.Adopt(r.state));
      ExploredMore(w.g, s, s.Discard(r.state));
      if !r.success {
        ChoiceLater(w, cs[1..], s.Discard(r.state), n);
      }
    }
  }

  lemma {:induction false} RepeatLater(w: Setting, c: Id, s: State, copy: State, n: nat)
    requires w.Valid() && c < |w.g| && s.index <= copy.index <= |w.tokens|
    requires Explored(w.g, s) && Later(w.g, s, copy) && MatchRepeat(w, c, s, copy, n).Finished?
    ensures Later(w.g, copy, MatchRepeat(w, c, s, copy, n).state)
    decreases n, 1
  {
    hide Match, Suggest, Expanded;
    var s1 := s.Adopt(copy);
    ExploredMore(w.g, s, s1);
    if copy.index == |w.tokens| {
      SuggestExpands(w.g, c, s1);
      SuggestedLater(w.g, s1, Suggest(w.g, c, s1).state);
    } else {
      MatchLater(w, c, copy, n - 1);
      var r := Match(w, c, copy, n - 1);
      if r.success {
        RepeatLater(w, c, s1, r.state, n - 1);
      } else {
        ExploredMore(w.g, s1, s1.Discard(r.state));
      }
    }
  }

  // ----- Every continuation is suggested -----

  /** A leaf suggested in a state is suggested in a later one. */
  lemma SuggestedThen(g: Graph, s: State, s': State, leaf: Id)
    requires Later(g, s, s') && leaf in s.suggestions
    ensures leaf in s'.suggestions
  {
  }

  /** When a match stops before a matcher for want of tokens, every leaf at the front of that
      matcher has been suggested, whether the match succeeds or fails. */
  lemma {:induction false} ContinuationsAreSuggested(w: Setting, id: Id, s: State, n: nat, next: Id, leaf: Id, k: nat)
    requires w.Valid() && id < |w.g| && s.index < |w.tokens| && Explored(w.g, s)
    requires Match(w, id, s, n).Finished? && Stuck(w, id, s.index, next, n) && Begins(w.g, next, leaf, k)
    ensures leaf in Match(w, id, s, n).state.suggestions
    decreases n, 0
  {
    hide Suggest, SuggestList, Expanded, Begins, Picks, Refuses, StuckAgain;
    match w.g[id] {
      case List(cs) => ListContinues(w, cs, s, s.Copy(), n - 1, next, leaf, k);
      case Choice(cs) =>
        var a :| 0 <= a < |cs| && Stuck(w, cs[a], s.index, next, n - 1)
          && forall m :: 0 <= m < a ==> Refuses(w, cs[m], s.index, n - 1);
        ChoiceContinues(w, cs, s, n - 1, a, next, leaf, k);
      case Optional(c) => ContinuationsAreSuggested(w, c, s.Copy(), n - 1, next, leaf, k);
      case Repeat(c) => RepeatStarts(w, id, s, n, next, leaf, k);
    }
  }

  lemma {:induction false} ListContinues(w: Setting, cs: seq<Id>, s: State, copy: State, n: nat, next: Id, leaf: Id,
      k: nat)
    requires w.Valid() && AllBelow(cs, |w.g|) && s.index <= copy.index <= |w.tokens|
    requires Explored(w.g, s) && Later(w.g, s, copy) && MatchList(w, cs, s, copy, n).Finished?
    requires StuckSeq(w, cs, copy.index, next, n) && Begins(w.g, next, leaf, k)
    ensures leaf in MatchList(w, cs, s, copy, n).state.suggestions
    decreases n, |cs| + 1
  {
    hide Match, SuggestList, Expanded, Begins, Picks, Stuck;
    if copy.index == |w.tokens| {
      var out := SuggestList(w.g, cs, copy).state;
      SuggestListExpands(w.g, cs, copy);
      SuggestedLater(w.g, copy, out);
      BeginningsAreSuggested(w.g, out, next, leaf, k);
    } else {
      var r := Match(w, cs[0], copy, n);
      MatchLater(w, cs[0], copy, n);
      if Stuck(w, cs[0], copy.index, next, n) {
        ContinuationsAreSuggested(w, cs[0], copy, n, next, leaf, k);
        if r.success {
          ListLater(w, cs[1..], s, r.state, n);
          SuggestedThen(w.g, r.state, MatchList(w, cs, s, copy, n).state, leaf);
        }
      } else {
        var m: nat :| Picks(w, cs[0], copy.index, m, n) && StuckSeq(w, cs[1..], m, next, n);
        MatchIsOrdered(w, cs[0], copy, m, n);
        ListContinues(w, cs[1..], s, r.state, n, next, leaf, k);
      }
    }
  }

  lemma {:induction false} ChoiceContinues(w: Setting, cs: seq<Id>, s: State, n: nat, a: nat, next: Id, leaf: Id,
      k: nat)
    requires w.Valid() && AllBelow(cs, |w.g|) && s.index < |w.tokens| && a < |cs|
    requires Explored(w.g, s) && MatchChoice(w, cs, s, n).Finished?
    requires Stuck(w, cs[a], s.index, next, n) && Begins(w.g, next, leaf, k)
    requires forall m :: 0 <= m < a ==> Refuses(w, cs[m], s.index, n)
    ensures leaf in MatchChoice(w, cs, s, n).state.suggestions
    decreases n, |cs| + 1
  {
    hide Match, Expanded, Begins, Refuses, Stuck;
    var r := Match(w, cs[0], s.Copy(), n);
    MatchLater(w, cs[0], s.Copy(), n);
    ExploredMore(w.g, s, s.Discard(r.state));
    if a == 0 {
      ContinuationsAreSuggested(w, cs[0], s.Copy(), n, next, leaf, k);
      if !r.success {
        ChoiceLater(w, cs[1..], s.Discard(r.state), n);
        SuggestedThen(w.g, s.Discard(r.state), MatchChoice(w, cs, s, n).state, leaf);
      }
    } else {
      MatchIsOrdered(w, cs[0], s.Copy(), 0, n);
      assert forall m :: 0 <= m < a - 1 ==> cs[1..][m] == cs[m + 1];
      ChoiceContinues(w, cs[1..], s.Discard(r.state), n, a - 1, next, leaf, k);
    }
  }

  lemma {:induction false} RepeatStarts(w: Setting, id: Id, s: State, n: nat, next: Id, leaf: Id, k: nat)
    requires w.Valid() && id < |w.g| && w.g[id].Repeat? && s.index < |w.tokens| && n > 0 && Explored(w.g, s)
    requires Match(w, id, s, n).Finished? && Begins(w.g, next, leaf, k)
    requires StuckAgain(w, w.g[id].child, s.index, next, n - 1)
    ensures leaf in Match(w, id, s, n).state.suggestions
    decreases n - 1, 3
  {
    hide Suggest, Expanded, Begins, Picks, Stuck, StuckMore;
    var c := w.g[id].child;
    var r := Match(w, c, s.Copy(), n - 1);
    MatchLater(w, c, s.Copy(), n - 1);
    if Stuck(w, c, s.index, next, n - 1) {
      ContinuationsAreSuggested(w, c, s.Copy(), n - 1, next, leaf, k);
      if r.success {
        RepeatLater(w, c, s, r.state, n - 1);
        SuggestedThen(w.g, r.state, MatchRepeat(w, c, s, r.state, n - 1).state, leaf);
      }
    } else {
      var m: nat :| Picks(w, c, s.index, m, n - 1) && StuckMore(w, c, m, next, n - 1);
      MatchIsOrdered(w, c, s.Copy(), m, n - 1);
      RepeatContinues(w, c, s, r.state, n - 1, next, leaf, k);
    }
  }

  lemma {:induction false} RepeatContinues(w: Setting, c: Id, s: State, copy: State, n: nat, next: Id, leaf: Id, k: nat)
    requires w.Valid() && c < |w.g| && s.index <= copy.index <= |w.tokens|
    requires Explored(w.g, s) && Later(w.g, s, copy) && MatchRepeat(w, c, s, copy, n).Finished?
    requires StuckMore(w, c, copy.index, next, n) && Begins(w.g, next, leaf, k)
    ensures leaf in MatchRepeat(w, c, s, copy, n).state.suggestions
    decreases n, 1
  {
    hide Match, Suggest, Expanded, Begins, Picks, Stuck;
    var s1 := s.Adopt(copy);
    ExploredMore(w.g, s, s1);
    if copy.index == |w.tokens| {
      var out := Suggest(w.g, c, s1).state;
      SuggestExpands(w.g, c, s1);
      SuggestedLater(w.g, s1, out);
      BeginningsAreSuggested(w.g, out, next, leaf, k);
    } else {
      var r := Match(w, c, copy, n - 1);
      MatchLater(w, c, copy, n - 1);
      if Stuck(w, c, copy.index, next, n - 1) {
        ContinuationsAreSuggested(w, c, copy, n - 1, next, leaf, k);
        if r.success {
          RepeatLater(w, c, s1, r.state, n - 1);
          SuggestedThen(w.g, r.state, MatchRepeat(w, c, s, copy, n).state, leaf);
        }
      } else {
        var m: nat :| Picks(w, c, copy.index, m, n - 1) && StuckMore(w, c, m, next, n - 1);
        MatchIsOrdered(w, c, copy, m, n - 1);
        RepeatContinues(w, c, s1, r.state, n - 1, next, leaf, k);
      }
    }
  }
}
