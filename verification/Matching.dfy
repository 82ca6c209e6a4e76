/** Matcher::Match and Matcher::AddSuggestion as they run: on states that are copied at
    every list, choice, optional and repeat, and that share one suggestion vector. */
module Matching {
  import opened Matcher
  import Run = MatchRun
  import opened MatchTermination

  /** The vector<MatcherSuggestion> that a state and all its copies refer to. */
  class SuggestionVector {
    var items: seq<Id>

    constructor ()
      ensures items == []
    {
      items := [];
    }
  }

  class MatchState {
    const suggestions: SuggestionVector
    var tokenIndex: nat
    var addedSuggestions: set<Id>

    constructor (suggestions: SuggestionVector)
      ensures this.suggestions == suggestions && tokenIndex == 0 && addedSuggestions == {}
    {
      this.suggestions := suggestions;
      tokenIndex, addedSuggestions := 0, {};
    }

    constructor Copy(state: MatchState)
      ensures suggestions == state.suggestions
      ensures View() == state.View().Copy()
    {
      suggestions := state.suggestions;
      tokenIndex, addedSuggestions := state.tokenIndex, {};
    }

    ghost function View(): Run.State
      reads this, suggestions
    {
      Run.State(tokenIndex, addedSuggestions, suggestions.items)
    }
  }

  /** Matcher::AddSuggestion; true stands for SuggestionType::OPTIONAL. */
  method AddSuggestion(g: Graph, id: Id, state: MatchState) returns (optional: bool)
    requires Closed(g) && id < |g|
    modifies state, state.suggestions
    ensures Run.Suggested(optional, state.View()) == Run.Suggest(g, id, old(state.View()))
    decreases Run.Ids(g) - state.addedSuggestions, 0
  {
    if id in state.addedSuggestions {
      return false;
    }
    state.addedSuggestions := state.addedSuggestions + {id};
    ghost var s1 := state.View();
    match g[id] {
      case List(cs) =>
        var k := 0;
        while k < |cs|
          invariant 0 <= k <= |cs| && s1.added <= state.addedSuggestions
          invariant Run.SuggestList(g, cs, s1) == Run.SuggestList(g, cs[k..], state.View())
        {
          var childOptional := AddSuggestion(g, cs[k], state);
          assert cs[k..][1..] == cs[k + 1..];
          if !childOptional {
            return false;
          }
          k := k + 1;
        }
        return true;
      case Choice(cs) =>
        var k := 0;
        while k < |cs|
          invariant 0 <= k <= |cs| && s1.added <= state.addedSuggestions
          invariant Run.SuggestAll(g, cs, s1) == Run.SuggestAll(g, cs[k..], state.View())
        {
          var _ := AddSuggestion(g, cs[k], state);
          assert cs[k..][1..] == cs[k + 1..];
          k := k + 1;
        }
        return false;
      case Optional(c) =>
        var _ := AddSuggestion(g, c, state);
        return true;
      case Repeat(c) =>
        var _ := AddSuggestion(g, c, state);
        return false;
      case Keyword(_) => state.suggestions.items := state.suggestions.items + [id];
      case Name(_) => state.suggestions.items := state.suggestions.items + [id];
      case ReservedName(_) => state.suggestions.items := state.suggestions.items + [id];
      case _ =>
    }
    return false;
  }

  /** Matcher::Match, for every call that returns at all. */
  method Match(w: Setting, id: Id, state: MatchState, ghost fuel: nat) returns (success: bool)
    requires w.Valid() && id < |w.g| && state.tokenIndex < |w.tokens|
    requires Run.Match(w, id, state.View(), fuel).Finished?
    modifies state, state.suggestions
    ensures Run.Finished(success, state.View()) == Run.Match(w, id, old(state.View()), fuel)
    decreases fuel, 0
  {
    match w.g[id] {
      case List(cs) => success := MatchList(w, cs, state, fuel - 1);
      case Choice(cs) => success := MatchChoice(w, cs, state, fuel - 1);
      case Optional(c) => success := MatchOptional(w, c, state, fuel - 1);
      case Repeat(c) => success := MatchRepeat(w, c, state, fuel - 1);
      case leaf =>
        success := Accepts(w.kw, leaf, w.tokens[state.tokenIndex]);
        if success {
          state.tokenIndex := state.tokenIndex + 1;
        }
    }
  }

  /** ListMatcher::Match */
  method MatchList(w: Setting, cs: seq<Id>, state: MatchState, ghost fuel: nat) returns (success: bool)
    requires w.Valid() && AllBelow(cs, |w.g|) && state.tokenIndex < |w.tokens|
    requires Run.MatchList(w, cs, state.View(), state.View().Copy(), fuel).Finished?
    modifies state, state.suggestions
    ensures Run.Finished(success, state.View()) ==
            Run.MatchList(w, cs, old(state.View()), old(state.View()).Copy(), fuel)
    decreases fuel, 2
  {
    ghost var s := state.View();
    var listState := new MatchState.Copy(state);
    var k := 0;
    while k < |cs|
      invariant 0 <= k <= |cs| && fresh(listState) && listState.suggestions == state.suggestions
      invariant s.index <= listState.tokenIndex <= |w.tokens|
      invariant state.tokenIndex == s.index && state.addedSuggestions == s.added
      invariant Run.MatchList(w, cs, s, s.Copy(), fuel) == Run.MatchList(w, cs[k..], s, listState.View(), fuel)
    {
      assert cs[k..][1..] == cs[k + 1..];
      if listState.tokenIndex >= |w.tokens| {
        // the tokens are exhausted: suggest the remaining children
        success := SuggestRest(w.g, cs, k, listState);
        state.tokenIndex := listState.tokenIndex;
        return;
      }
      var childMatch := Match(w, cs[k], listState, fuel);
      if !childMatch {
        return false;
      }
      k := k + 1;
    }
    state.tokenIndex := listState.tokenIndex;
    return true;
  }

  /** The loop over the children left when the tokens run out: whether all are optional. */
  method SuggestRest(g: Graph, cs: seq<Id>, start: nat, state: MatchState) returns (allOptional: bool)
    requires Closed(g) && AllBelow(cs, |g|) && start <= |cs|
    modifies state, state.suggestions
    ensures Run.Suggested(allOptional, state.View()) == Run.SuggestList(g, cs[start..], old(state.View()))
  {
    ghost var s := state.View();
    var k := start;
    while k < |cs|
      invariant start <= k <= |cs|
      invariant Run.SuggestList(g, cs[start..], s) == Run.SuggestList(g, cs[k..], state.View())
    {
      var childOptional := AddSuggestion(g, cs[k], state);
      assert cs[k..][1..] == cs[k + 1..];
      if !childOptional {
        return false;
      }
      k := k + 1;
    }
    return true;
  }

  /** OptionalMatcher::Match */
  method MatchOptional(w: Setting, c: Id, state: MatchState, ghost fuel: nat) returns (success: bool)
    requires w.Valid() && c < |w.g| && state.tokenIndex < |w.tokens|
    requires Run.Match(w, c, state.View().Copy(), fuel).Finished?
    modifies state, state.suggestions
    ensures var s, r := old(state.View()), Run.Match(w, c, old(state.View()).Copy(), fuel);
            success && state.View() == if r.success then s.Adopt(r.state) else s.Discard(r.state)
    decreases fuel, 2
  {
    var childState := new MatchState.Copy(state);
    var childMatch := Match(w, c, childState, fuel);
    if childMatch {
      state.tokenIndex := childState.tokenIndex;
    }
    return true;
  }

  /** ChoiceMatcher::Match */
  method MatchChoice(w: Setting, cs: seq<Id>, state: MatchState, ghost fuel: nat) returns (success: bool)
    requires w.Valid() && AllBelow(cs, |w.g|) && state.tokenIndex < |w.tokens|
    requires Run.MatchChoice(w, cs, state.View(), fuel).Finished?
    modifies state, state.suggestions
    ensures Run.Finished(success, state.View()) == Run.MatchChoice(w, cs, old(state.View()), fuel)
    decreases fuel, 2
  {
    ghost var s := state.View();
    var k := 0;
    while k < |cs|
      invariant 0 <= k <= |cs|
      invariant state.tokenIndex == s.index && state.addedSuggestions == s.added
      invariant Run.MatchChoice(w, cs, s, fuel) == Run.MatchChoice(w, cs[k..], state.View(), fuel)
    {
      assert cs[k..][1..] == cs[k + 1..];
      var choiceState := new MatchState.Copy(state);
      var childMatch := Match(w, cs[k], choiceState, fuel);
      if childMatch {
        state.tokenIndex := choiceState.tokenIndex;
        return true;
      }
      k := k + 1;
    }
    return false;
  }

  /** RepeatMatcher::Match */
  method MatchRepeat(w: Setting, c: Id, state: MatchState, ghost fuel: nat) returns (success: bool)
    requires w.Valid() && c < |w.g| && state.tokenIndex < |w.tokens|
    requires var r := Run.Match(w, c, state.View().Copy(), fuel);
             r.Finished? && (r.success ==> Run.MatchRepeat(w, c, state.View(), r.state, fuel).Finished?)
    modifies state, state.suggestions
    ensures var s := old(state.View());
            var r := Run.Match(w, c, s.Copy(), fuel);
            Run.Finished(success, state.View()) ==
            if r.success then Run.MatchRepeat(w, c, s, r.state, fuel) else Run.Finished(false, s.Discard(r.state))
    decreases fuel, 2
  {
    ghost var s := state.View();
    var repeatState := new MatchState.Copy(state);
    var childMatch := Match(w, c, repeatState, fuel);
    if !childMatch {
      return false;
    }
    ghost var all := Run.MatchRepeat(w, c, s, repeatState.View(), fuel);
    ghost var left: nat := fuel;
    while true
      invariant fresh(repeatState) && repeatState.suggestions == state.suggestions && left <= fuel
      invariant s.index <= state.tokenIndex <= repeatState.tokenIndex <= |w.tokens|
      invariant state.addedSuggestions == s.added
      invariant all == Run.MatchRepeat(w, c, state.View(), repeatState.View(), left)
      decreases left
    {
      state.tokenIndex := repeatState.tokenIndex;
      if repeatState.tokenIndex >= |w.tokens| {
        // the tokens are exhausted: suggest the element
        var _ := AddSuggestion(w.g, c, state);
        return true;
      }
      childMatch := Match(w, c, repeatState, left - 1);
      if !childMatch {
        return true;
      }
      left := left - 1;
    }
  }

  /** Match on a graph without left recursion, where every call returns. */
  method MatchWellFounded(w: Setting, ghost nullable: set<Id>, ghost rank: Id -> nat, ghost top: nat, id: Id,
      state: MatchState)
    returns (success: bool)
    requires w.Valid() && id < |w.g| && state.tokenIndex < |w.tokens|
    requires WellFounded(w.g, nullable, rank, top)
    modifies state, state.suggestions
    ensures forall fuel :: Bound(w, old(state.tokenIndex), rank(id), top) <= fuel ==>
              Run.Finished(success, state.View()) == Run.Match(w, id, old(state.View()), fuel)
  {
    ghost var s := state.View();
    ghost var fuel := Bound(w, s.index, rank(id), top);
    MatchTerminates(w, nullable, rank, top, id, s, fuel);
    success := Match(w, id, state, fuel);
    forall fuel' | fuel <= fuel'
      ensures Run.Match(w, id, s, fuel') == Run.Match(w, id, s, fuel)
    {
      Run.MatchStable(w, id, s, fuel, fuel');
    }
  }
}
