/** Which matches succeed and which fail (matcher.cpp:55-340), without states, copies and
    suggestions: the ordered choices and greedy repeats of parsing expression grammars, with
    a rule of its own for lists whose tokens run out, which MatchEnd gives in terms of the
    shape of the graph. Each height is a bound of MatchRun. */
module MatchOrdered {
  import opened Matcher
  import opened MatchRun
  import opened MatchEnd

  // ----- Success and failure -----

  /** A matcher takes the tokens from i to j. */
  ghost predicate Picks(w: Setting, id: Id, i: nat, j: nat, n: nat)
    requires w.Valid() && id < |w.g|
    decreases n, 0
  {
    && i < |w.tokens|
    && n > 0
    && match w.g[id] {
         case List(cs) => PicksSeq(w, cs, {}, i, j, n - 1)
         case Choice(cs) =>
           // an alternative is taken only if all alternatives before it fail
           exists k :: 0 <= k < |cs| && Picks(w, cs[k], i, j, n - 1)
             && forall m :: 0 <= m < k ==> Refuses(w, cs[m], i, n - 1)
         case Optional(c) => Picks(w, c, i, j, n - 1) || (j == i && Refuses(w, c, i, n - 1))
         case Repeat(c) => PicksAgain(w, c, i, j, n - 1)
         case leaf => j == i + 1 && Accepts(w.kw, leaf, w.tokens[i])
       }
  }

  /** A matcher fails on the tokens from i. */
  ghost predicate Refuses(w: Setting, id: Id, i: nat, n: nat)
    requires w.Valid() && id < |w.g|
    decreases n, 0
  {
    && i < |w.tokens|
    && n > 0
    && match w.g[id] {
         case List(cs) => RefusesSeq(w, cs, {}, i, n - 1)
         case Choice(cs) => forall k :: 0 <= k < |cs| ==> Refuses(w, cs[k], i, n - 1)
         case Optional(_) => false
         case Repeat(c) => Refuses(w, c, i, n - 1)
         case leaf => !Accepts(w.kw, leaf, w.tokens[i])
       }
  }

  /** The children of a list take the tokens from i to j. Where no tokens are left, the
      remaining children are skipped, given the matchers visited before. */
  ghost predicate PicksSeq(w: Setting, cs: seq<Id>, added: set<Id>, i: nat, j: nat, n: nat)
    requires w.Valid() && AllBelow(cs, |w.g|)
    decreases n, |cs| + 1
  {
    if cs == [] then j == i
    else if i == |w.tokens| then j == i && SkippedAll(w.g, cs, added)
    else exists m: nat :: Picks(w, cs[0], i, m, n) && PicksSeq(w, cs[1..], AddedBy(w, cs[0], added, m), m, j, n)
  }

  ghost predicate RefusesSeq(w: Setting, cs: seq<Id>, added: set<Id>, i: nat, n: nat)
    requires w.Valid() && AllBelow(cs, |w.g|)
    decreases n, |cs| + 1
  {
    && cs != []
    && if i == |w.tokens| then !SkippedAll(w.g, cs, added)
       else
         || Refuses(w, cs[0], i, n)
         || exists m: nat :: Picks(w, cs[0], i, m, n) && RefusesSeq(w, cs[1..], AddedBy(w, cs[0], added, m), m, n)
  }

  /** A repeated element is taken again as long as it can be. */
  ghost predicate PicksMore(w: Setting, c: Id, i: nat, j: nat, n: nat)
    requires w.Valid() && c < |w.g|
    decreases n, 1
  {
    if i == |w.tokens| then j == i
    else
      && n > 0
      && ((j == i && Refuses(w, c, i, n - 1)) || PicksAgain(w, c, i, j, n - 1))
  }

  ghost predicate PicksAgain(w: Setting, c: Id, i: nat, j: nat, n: nat)
    requires w.Valid() && c < |w.g|
    decreases n, 2
  {
    exists m: nat :: Picks(w, c, i, m, n) && PicksMore(w, c, m, j, n)
  }

  /** The matchers a list has visited once a child stops at j: only a repeat that runs out of
      tokens visits its element in the state of the list. */
  ghost function AddedBy(w: Setting, id: Id, added: set<Id>, j: nat): set<Id>
    requires w.Valid() && id < |w.g|
  {
    if w.g[id].Repeat? && j == |w.tokens| then Visit(w.g, w.g[id].child, added) else added
  }

  // ----- Match is ordered -----

  predicate Succeeds(r: Result, j: nat) {
    r.Finished? && r.success && r.state.index == j
  }

  predicate Fails(r: Result) {
    r.Finished? && !r.success
  }

  /** A match finishes with success at j exactly if the matcher takes the tokens up to j, and
      finishes with failure exactly if it fails on them. */
  lemma {:induction false} MatchIsOrdered(w: Setting, id: Id, s: State, j: nat, n: nat)
    requires w.Valid() && id < |w.g| && s.index < |w.tokens|
    ensures Succeeds(Match(w, id, s, n), j) <==> Picks(w, id, s.index, j, n)
    ensures Fails(Match(w, id, s, n)) <==> Refuses(w, id, s.index, n)
    decreases n, 0
  {
    hide Suggest, SuggestList, SuggestAll, Visit, SkippedAll;
    if n > 0 {
      match w.g[id] {
        case List(cs) => ListIsOrdered(w, cs, s, s.Copy(), j, n - 1);
        case Choice(cs) => ChoiceIsOrdered(w, cs, s, j, n - 1);
        case Optional(c) => MatchIsOrdered(w, c, s.Copy(), j, n - 1);
        case Repeat(c) => RepeatIsOrdered(w, id, s, j, n);
        case _ =>
      }
    }
  }

  lemma {:induction false} ListIsOrdered(w: Setting, cs: seq<Id>, s: State, copy: State, j: nat, n: nat)
    requires w.Valid() && AllBelow(cs, |w.g|) && s.index <= copy.index <= |w.tokens|
    ensures Succeeds(MatchList(w, cs, s, copy, n), j) <==> PicksSeq(w, cs, copy.added, copy.index, j, n)
    ensures Fails(MatchList(w, cs, s, copy, n)) <==> RefusesSeq(w, cs, copy.added, copy.index, n)
    decreases n, |cs| + 1
  {
    hide Suggest, SuggestList, SuggestAll, Visit, SkippedAll, Match, Picks, Refuses;
    if cs != [] {
      if copy.index == |w.tokens| {
        SuggestListSkips(w.g, cs, copy);
      } else {
        var r := Match(w, cs[0], copy, n);
        forall m: nat ensures Succeeds(r, m) <==> Picks(w, cs[0], copy.index, m, n) {
          MatchIsOrdered(w, cs[0], copy, m, n);
        }
        MatchIsOrdered(w, cs[0], copy, 0, n);
        if r.Finished? && r.success {
          AddedAfter(w, cs[0], copy, n);
          ListIsOrdered(w, cs[1..], s, r.state, j, n);
        }
      }
    }
  }

  lemma AddedAfter(w: Setting, id: Id, s: State, n: nat)
    requires w.Valid() && id < |w.g| && s.index < |w.tokens|
    requires Match(w, id, s, n).Finished? && Match(w, id, s, n).success
    ensures var s' := Match(w, id, s, n).state; s'.added == AddedBy(w, id, s.added, s'.index)
  {
    hide Suggest, SuggestList, SuggestAll, Visit, SkippedAll;
    match w.g[id] {
      case List(cs) => ListAdds(w, cs, s, s.Copy(), n - 1);
      case Choice(cs) => ChoiceAdds(w, cs, s, n - 1);
      case Optional(_) =>
      case Repeat(c) => RepeatAdds(w, c, s, Match(w, c, s.Copy(), n - 1).state, n - 1);
      case _ =>
    }
  }

  lemma {:induction false} ListAdds(w: Setting, cs: seq<Id>, s: State, copy: State, n: nat)
    requires w.Valid() && AllBelow(cs, |w.g|) && s.index <= copy.index <= |w.tokens|
    requires MatchList(w, cs, s, copy, n).Finished?
    ensures MatchList(w, cs, s, copy, n).state.added == s.added
    decreases |cs|
  {
    hide Match, SuggestList;
    if cs != [] && copy.index < |w.tokens| {
      var r := Match(w, cs[0], copy, n);
      if r.success {
        ListAdds(w, cs[1..], s, r.state, n);
      }
    }
  }

  lemma {:induction false} ChoiceAdds(w: Setting, cs: seq<Id>, s: State, n: nat)
    requires w.Valid() && AllBelow(cs, |w.g|) && s.index < |w.tokens|
    requires MatchChoice(w, cs, s, n).Finished?
    ensures MatchChoice(w, cs, s, n).state.added == s.added
    decreases |cs|
  {
    hide Match;
    if cs != [] {
      var r := Match(w, cs[0], s.Copy(), n);
      if !r.success {
        ChoiceAdds(w, cs[1..], s.Discard(r.state), n);
      }
    }
  }

  lemma {:induction false} RepeatAdds(w: Setting, c: Id, s: State, copy: State, n: nat)
    requires w.Valid() && c < |w.g| && s.index <= copy.index <= |w.tokens|
    requires MatchRepeat(w, c, s, copy, n).Finished?
    ensures var s' := MatchRepeat(w, c, s, copy, n).state;
            s'.added == if s'.index == |w.tokens| then Visit(w.g, c, s.added) else s.added
    decreases n
  {
    hide Match, Suggest, Visit, SkippedAll;
    if copy.index == |w.tokens| {
      SuggestSkips(w.g, c, s.Adopt(copy));
    } else {
      var r := Match(w, c, copy, n - 1);
      if r.success {
        RepeatAdds(w, c, s.Adopt(copy), r.state, n - 1);
      }
    }
  }

  lemma {:induction false} ChoiceIsOrdered(w: Setting, cs: seq<Id>, s: State, j: nat, n: nat)
    requires w.Valid() && AllBelow(cs, |w.g|) && s.index < |w.tokens|
    ensures Succeeds(MatchChoice(w, cs, s, n), j) <==>
            exists k :: 0 <= k < |cs| && Picks(w, cs[k], s.index, j, n)
              && forall m :: 0 <= m < k ==> Refuses(w, cs[m], s.index, n)
    ensures Fails(MatchChoice(w, cs, s, n)) <==> forall k :: 0 <= k < |cs| ==> Refuses(w, cs[k], s.index, n)
    decreases n, |cs| + 1
  {
    hide Match, Picks, Refuses;
    if cs != [] {
      var r, i, rest := Match(w, cs[0], s.Copy(), n), s.index, cs[1..];
      MatchIsOrdered(w, cs[0], s.Copy(), j, n);
      assert forall k :: 0 <= k < |rest| ==> rest[k] == cs[k + 1];
      if Fails(r) {
        ChoiceIsOrdered(w, rest, s.Discard(r.state), j, n);
        if k :| 0 <= k < |rest| && Picks(w, rest[k], i, j, n) && forall m :: 0 <= m < k ==> Refuses(w, rest[m], i, n) {
          assert Picks(w, cs[k + 1], i, j, n);
          assert forall m :: 0 < m < k + 1 ==> cs[m] == rest[m - 1];
        }
        if k :| 0 <= k < |cs| && Picks(w, cs[k], i, j, n) && forall m :: 0 <= m < k ==> Refuses(w, cs[m], i, n) {
          assert k > 0 && rest[k - 1] == cs[k];
        }
      }
    }
  }

  lemma {:induction false} RepeatIsOrdered(w: Setting, id: Id, s: State, j: nat, n: nat)
    requires w.Valid() && id < |w.g| && w.g[id].Repeat? && s.index < |w.tokens| && n > 0
    ensures Succeeds(Match(w, id, s, n), j) <==> Picks(w, id, s.index, j, n)
    ensures Fails(Match(w, id, s, n)) <==> Refuses(w, id, s.index, n)
    decreases n - 1, 3
  {
    hide Suggest, SuggestList, SuggestAll, Visit, SkippedAll, PicksAgain;
    var c := w.g[id].child;
    ElementIsOrdered(w, c, s.Copy(), j, n - 1);
    var r := Match(w, c, s.Copy(), n - 1);
    if r.Finished? && r.success {
      MoreIsOrdered(w, c, s, r.state, j, n - 1);
    }
  }

  /** The element once, and then as often as it can be taken. */
  lemma {:induction false} ElementIsOrdered(w: Setting, c: Id, s: State, j: nat, n: nat)
    requires w.Valid() && c < |w.g| && s.index < |w.tokens|
    ensures var r := Match(w, c, s, n);
            && (Fails(r) <==> Refuses(w, c, s.index, n))
            && (PicksAgain(w, c, s.index, j, n) <==> r.Finished? && r.success && PicksMore(w, c, r.state.index, j, n))
    decreases n, 2
  {
    hide Match, Picks, Refuses, PicksMore;
    var r := Match(w, c, s, n);
    forall m: nat ensures Succeeds(r, m) <==> Picks(w, c, s.index, m, n) {
      MatchIsOrdered(w, c, s, m, n);
    }
    MatchIsOrdered(w, c, s, 0, n);
    if r.Finished? && r.success {
      assert Picks(w, c, s.index, r.state.index, n);
    }
  }

  lemma {:induction false} MoreIsOrdered(w: Setting, c: Id, s: State, copy: State, j: nat, n: nat)
    requires w.Valid() && c < |w.g| && s.index <= copy.index <= |w.tokens|
    ensures Succeeds(MatchRepeat(w, c, s, copy, n), j) <==> PicksMore(w, c, copy.index, j, n)
    ensures !Fails(MatchRepeat(w, c, s, copy, n))
    decreases n, 1
  {
    hide Suggest, Match, Picks, Refuses, PicksAgain;
    if copy.index < |w.tokens| && n > 0 {
      ElementIsOrdered(w, c, copy, j, n - 1);
      var r := Match(w, c, copy, n - 1);
      if r.Finished? && r.success {
        MoreIsOrdered(w, c, s.Adopt(copy), r.state, j, n - 1);
      }
    }
  }

  /** What a match returns and where it stops depends on the index it starts from, not on
      what has been suggested so far. */
  lemma OutcomeIgnoresSuggestions(w: Setting, id: Id, s: State, s': State, n: nat)
    requires w.Valid() && id < |w.g| && s.index == s'.index < |w.tokens|
    ensures var r, r' := Match(w, id, s, n), Match(w, id, s', n);
            && r.Finished? == r'.Finished?
            && (r.Finished? ==> r.success == r'.success)
            && (r.Finished? && r.success ==> r.state.index == r'.state.index)
  {
    hide Match, Picks, Refuses;
    var r, r' := Match(w, id, s, n), Match(w, id, s', n);
    var j := if r.Finished? then r.state.index else if r'.Finished? then r'.state.index else 0;
    MatchIsOrdered(w, id, s, j, n);
    MatchIsOrdered(w, id, s', j, n);
  }
}
