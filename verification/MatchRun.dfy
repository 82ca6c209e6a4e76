/** What a call of Matcher::Match or Matcher::AddSuggestion does (matcher.cpp:22-340).

    Match may run forever on a left-recursive graph, so its meaning is a function
    with a bound on the nesting of calls and loop rounds; a run that finishes does so
    with the same outcome under every larger bound. */
module MatchRun {
  import opened Matcher

  /** MatchState without its references to the tokens: the suggestions pushed so far
      are the ids of the leaves that were suggested. */
  datatype State = State(index: nat, added: set<Id>, suggestions: seq<Id>) {
    /** MatchState(MatchState &): the copy starts with no added suggestions. */
    function Copy(): State {
      this.(added := {})
    }

    /** What remains of a copy when only its token index is propagated. */
    function Adopt(copy: State): State {
      this.(index := copy.index, suggestions := copy.suggestions)
    }

    /** What remains of a copy that is discarded: the suggestion vector is shared. */
    function Discard(copy: State): State {
      this.(suggestions := copy.suggestions)
    }
  }

  datatype Result = Unfinished | Finished(success: bool, state: State)

  /** Whether AddSuggestion returned SuggestionType::OPTIONAL, and the state it left. */
  datatype Suggested = Suggested(optional: bool, state: State)

  function Ids(g: Graph): (ids: set<Id>)
    ensures forall id: Id :: id in ids <==> id < |g|
  {
    set id: Id {:trigger g[id]} | id < |g|
  }

  // ----- Matcher::AddSuggestion -----

  function Suggest(g: Graph, id: Id, s: State): (r: Suggested)
    requires Closed(g) && id < |g|
    ensures s.added <= r.state.added && r.state.index == s.index
    decreases Ids(g) - s.added, 0
  {
    if id in s.added then Suggested(false, s)
    else
      var s := s.(added := s.added + {id});
      match g[id]
      case List(cs) => SuggestList(g, cs, s)
      case Choice(cs) => Suggested(false, SuggestAll(g, cs, s))
      case Optional(c) => Suggested(true, Suggest(g, c, s).state)
      case Repeat(c) => Suggested(false, Suggest(g, c, s).state)
      case Keyword(_) => Suggested(false, s.(suggestions := s.suggestions + [id]))
      case Name(_) => Suggested(false, s.(suggestions := s.suggestions + [id]))
      case ReservedName(_) => Suggested(false, s.(suggestions := s.suggestions + [id]))
      case _ => Suggested(false, s)
  }

  /** Suggests the nodes in turn until one of them is mandatory. */
  function SuggestList(g: Graph, cs: seq<Id>, s: State): (r: Suggested)
    requires Closed(g) && AllBelow(cs, |g|)
    ensures s.added <= r.state.added && r.state.index == s.index
    decreases Ids(g) - s.added, |cs| + 1
  {
    if cs == [] then Suggested(true, s)
    else
      var r := Suggest(g, cs[0], s);
      if r.optional then SuggestList(g, cs[1..], r.state) else r
  }

  function SuggestAll(g: Graph, cs: seq<Id>, s: State): (s': State)
    requires Closed(g) && AllBelow(cs, |g|)
    ensures s.added <= s'.added && s'.index == s.index
    decreases Ids(g) - s.added, |cs| + 1
  {
    if cs == [] then s
    else SuggestAll(g, cs[1..], Suggest(g, cs[0], s).state)
  }

  // ----- Matcher::Match -----

  function Match(w: Setting, id: Id, s: State, fuel: nat): (r: Result)
    requires w.Valid() && id < |w.g| && s.index < |w.tokens|
    ensures r.Finished? ==> s.index <= r.state.index <= |w.tokens|
    decreases fuel, 0
  {
    if fuel == 0 then Unfinished
    else match w.g[id]
      case List(cs) => MatchList(w, cs, s, s.Copy(), fuel - 1)
      case Choice(cs) => MatchChoice(w, cs, s, fuel - 1)
      case Optional(c) =>
        (match Match(w, c, s.Copy(), fuel - 1)
         case Unfinished => Unfinished
         case Finished(ok, copy) => Finished(true, if ok then s.Adopt(copy) else s.Discard(copy)))
      case Repeat(c) =>
        (match Match(w, c, s.Copy(), fuel - 1)
         case Unfinished => Unfinished
         case Finished(ok, copy) =>
           if ok then MatchRepeat(w, c, s, copy, fuel - 1) else Finished(false, s.Discard(copy)))
      case leaf =>
        if Accepts(w.kw, leaf, w.tokens[s.index]) then Finished(true, s.(index := s.index + 1))
        else Finished(false, s)
  }

  /** The remaining children of a list, from the list's own state `copy`; once the
      tokens are exhausted the rest of the children are suggested instead. */
  function MatchList(w: Setting, cs: seq<Id>, s: State, copy: State, fuel: nat): (r: Result)
    requires w.Valid() && AllBelow(cs, |w.g|)
    requires s.index <= copy.index <= |w.tokens|
    ensures r.Finished? ==> s.index <= r.state.index <= |w.tokens|
    decreases fuel, |cs| + 1
  {
    if cs == [] then Finished(true, s.Adopt(copy))
    else if copy.index == |w.tokens| then
      var r := SuggestList(w.g, cs, copy);
      Finished(r.optional, s.Adopt(r.state))
    else match Match(w, cs[0], copy, fuel)
      case Unfinished => Unfinished
      case Finished(ok, copy') =>
        if ok then MatchList(w, cs[1..], s, copy', fuel) else Finished(false, s.Discard(copy'))
  }

  function MatchChoice(w: Setting, cs: seq<Id>, s: State, fuel: nat): (r: Result)
    requires w.Valid() && AllBelow(cs, |w.g|)
    requires s.index < |w.tokens|
    ensures r.Finished? ==> s.index <= r.state.index <= |w.tokens|
    decreases fuel, |cs| + 1
  {
    if cs == [] then Finished(false, s)
    else match Match(w, cs[0], s.Copy(), fuel)
      case Unfinished => Unfinished
      case Finished(ok, copy) =>
        if ok then Finished(true, s.Adopt(copy)) else MatchChoice(w, cs[1..], s.Discard(copy), fuel)
  }

  /** The loop of RepeatMatcher::Match; `copy` is its repeat_state. */
  function MatchRepeat(w: Setting, c: Id, s: State, copy: State, fuel: nat): (r: Result)
    requires w.Valid() && c < |w.g|
    requires s.index <= copy.index <= |w.tokens|
    ensures r.Finished? ==> s.index <= r.state.index <= |w.tokens|
    decreases fuel, 1
  {
    var s := s.Adopt(copy);
    if copy.index == |w.tokens| then Finished(true, Suggest(w.g, c, s).state)
    else if fuel == 0 then Unfinished
    else match Match(w, c, copy, fuel - 1)
      case Unfinished => Unfinished
      case Finished(ok, copy') =>
        if ok then MatchRepeat(w, c, s, copy', fuel - 1) else Finished(true, s.Discard(copy'))
  }

  // ----- The bound does not matter -----

  /** A finished run has the same outcome under every larger bound. */
  lemma {:induction false} MatchStable(w: Setting, id: Id, s: State, fuel: nat, fuel': nat)
    requires w.Valid() && id < |w.g| && s.index < |w.tokens|
    requires Match(w, id, s, fuel).Finished? && fuel <= fuel'
    ensures Match(w, id, s, fuel') == Match(w, id, s, fuel)
    decreases fuel, 0
  {
    match w.g[id] {
      case List(cs) => ListStable(w, cs, s, s.Copy(), fuel - 1, fuel' - 1);
      case Choice(cs) => ChoiceStable(w, cs, s, fuel - 1, fuel' - 1);
      case Optional(c) => MatchStable(w, c, s.Copy(), fuel - 1, fuel' - 1);
      case Repeat(c) =>
        MatchStable(w, c, s.Copy(), fuel - 1, fuel' - 1);
        var r := Match(w, c, s.Copy(), fuel - 1);
        if r.success { RepeatStable(w, c, s, r.state, fuel - 1, fuel' - 1); }
      case _ =>
    }
  }

  lemma {:induction false} ListStable(w: Setting, cs: seq<Id>, s: State, copy: State, fuel: nat, fuel': nat)
    requires w.Valid() && AllBelow(cs, |w.g|)
    requires s.index <= copy.index <= |w.tokens|
    requires MatchList(w, cs, s, copy, fuel).Finished? && fuel <= fuel'
    ensures MatchList(w, cs, s, copy, fuel') == MatchList(w, cs, s, copy, fuel)
    decreases fuel, |cs| + 1
  {
    if cs != [] && copy.index < |w.tokens| {
      MatchStable(w, cs[0], copy, fuel, fuel');
      var r := Match(w, cs[0], copy, fuel);
      if r.success { ListStable(w, cs[1..], s, r.state, fuel, fuel'); }
    }
  }

  lemma {:induction false} ChoiceStable(w: Setting, cs: seq<Id>, s: State, fuel: nat, fuel': nat)
    requires w.Valid() && AllBelow(cs, |w.g|)
    requires s.index < |w.tokens|
    requires MatchChoice(w, cs, s, fuel).Finished? && fuel <= fuel'
    ensures MatchChoice(w, cs, s, fuel') == MatchChoice(w, cs, s, fuel)
    decreases fuel, |cs| + 1
  {
    if cs != [] {
      MatchStable(w, cs[0], s.Copy(), fuel, fuel');
      var r := Match(w, cs[0], s.Copy(), fuel);
      if !r.success { ChoiceStable(w, cs[1..], s.Discard(r.state), fuel, fuel'); }
    }
  }

  lemma {:induction false} RepeatStable(w: Setting, c: Id, s: State, copy: State, fuel: nat, fuel': nat)
    requires w.Valid() && c < |w.g|
    requires s.index <= copy.index <= |w.tokens|
    requires MatchRepeat(w, c, s, copy, fuel).Finished? && fuel <= fuel'
    ensures MatchRepeat(w, c, s, copy, fuel') == MatchRepeat(w, c, s, copy, fuel)
    decreases fuel, 1
  {
    if copy.index < |w.tokens| {
      MatchStable(w, c, copy, fuel - 1, fuel' - 1);
      var r := Match(w, c, copy, fuel - 1);
      if r.success { RepeatStable(w, c, s.Adopt(copy), r.state, fuel - 1, fuel' - 1); }
    }
  }

  // ----- A failing match and the caller's index -----

  /** A match that fails leaves the caller's index alone unless it ran out of tokens. */
  lemma FailureKeepsIndex(w: Setting, id: Id, s: State, fuel: nat)
    requires w.Valid() && id < |w.g| && s.index < |w.tokens|
    requires Match(w, id, s, fuel).Finished? && !Match(w, id, s, fuel).success
    ensures Match(w, id, s, fuel).state.index in {s.index, |w.tokens|}
    ensures !w.g[id].List? ==> Match(w, id, s, fuel).state.index == s.index
  {
    match w.g[id] {
      case List(cs) => ListFailureKeepsIndex(w, cs, s, s.Copy(), fuel - 1);
      case Choice(cs) => ChoiceFailureKeepsIndex(w, cs, s, fuel - 1);
      case Repeat(c) =>
        var r := Match(w, c, s.Copy(), fuel - 1);
        if r.success { RepeatSucceeds(w, c, s, r.state, fuel - 1); }
      case _ =>
    }
  }

  lemma {:induction false} ListFailureKeepsIndex(w: Setting, cs: seq<Id>, s: State, copy: State, fuel: nat)
    requires w.Valid() && AllBelow(cs, |w.g|)
    requires s.index <= copy.index <= |w.tokens|
    requires MatchList(w, cs, s, copy, fuel).Finished? && !MatchList(w, cs, s, copy, fuel).success
    ensures MatchList(w, cs, s, copy, fuel).state.index in {s.index, |w.tokens|}
    decreases |cs|
  {
    if cs != [] && copy.index < |w.tokens| {
      var r := Match(w, cs[0], copy, fuel);
      if r.success { ListFailureKeepsIndex(w, cs[1..], s, r.state, fuel); }
    }
  }

  lemma {:induction false} ChoiceFailureKeepsIndex(w: Setting, cs: seq<Id>, s: State, fuel: nat)
    requires w.Valid() && AllBelow(cs, |w.g|)
    requires s.index < |w.tokens|
    requires MatchChoice(w, cs, s, fuel).Finished? && !MatchChoice(w, cs, s, fuel).success
    ensures MatchChoice(w, cs, s, fuel).state.index == s.index
    decreases |cs|
  {
    if cs != [] {
      var r := Match(w, cs[0], s.Copy(), fuel);
      ChoiceFailureKeepsIndex(w, cs[1..], s.Discard(r.state), fuel);
    }
  }

  lemma {:induction false} RepeatSucceeds(w: Setting, c: Id, s: State, copy: State, fuel: nat)
    requires w.Valid() && c < |w.g|
    requires s.index <= copy.index <= |w.tokens|
    requires MatchRepeat(w, c, s, copy, fuel).Finished?
    ensures MatchRepeat(w, c, s, copy, fuel).success
    decreases fuel
  {
    if copy.index < |w.tokens| {
      var r := Match(w, c, copy, fuel - 1);
      if r.success { RepeatSucceeds(w, c, s.Adopt(copy), r.state, fuel - 1); }
    }
  }
}
