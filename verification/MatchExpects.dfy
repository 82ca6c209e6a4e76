/** Soundness of auto-completion: every leaf that a run suggests can be the next token,
    in the sense that the matcher, started where it was, can consume all the tokens and
    then stands in front of that leaf. */
module MatchExpects {
  import opened Matcher
  import opened MatchRun
  import opened MatchSound

  /** Started at token i, the node can consume every token and then meet the leaf. */
  ghost predicate Expects(w: Setting, id: Id, i: nat, leaf: Id, n: nat)
    decreases n, 0
  {
    && id < |w.g|
    && i <= |w.tokens|
    && n > 0
    && match w.g[id] {
         case List(cs) => ExpectsSeq(w, cs, i, leaf, n - 1)
         case Choice(cs) => exists k :: 0 <= k < |cs| && Expects(w, cs[k], i, leaf, n - 1)
         case Optional(c) => Expects(w, c, i, leaf, n - 1)
         case Repeat(c) => exists k: nat :: ExpectsSeq(w, Copies(c, k), i, leaf, n - 1)
         case _ => id == leaf && i == |w.tokens|
       }
  }

  ghost predicate ExpectsSeq(w: Setting, cs: seq<Id>, i: nat, leaf: Id, n: nat)
    decreases n, |cs| + 1
  {
    && cs != []
    && ( || Expects(w, cs[0], i, leaf, n)
         || exists m :: w.Derives(cs[0], i, m, n) && ExpectsSeq(w, cs[1..], m, leaf, n))
  }

  ghost predicate CanFollow(w: Setting, id: Id, i: nat, leaf: Id) {
    exists n :: Expects(w, id, i, leaf, n)
  }

  lemma {:induction false} ExpectsMonotone(w: Setting, id: Id, i: nat, x: Id, n: nat, n': nat)
    requires Expects(w, id, i, x, n) && n <= n'
    ensures Expects(w, id, i, x, n')
    decreases n, 0
  {
    match w.g[id] {
      case List(cs) => ExpectsSeqMonotone(w, cs, i, x, n - 1, n' - 1);
      case Choice(cs) =>
        var k :| 0 <= k < |cs| && Expects(w, cs[k], i, x, n - 1);
        ExpectsMonotone(w, cs[k], i, x, n - 1, n' - 1);
      case Optional(c) => ExpectsMonotone(w, c, i, x, n - 1, n' - 1);
      case Repeat(c) =>
        var k: nat :| ExpectsSeq(w, Copies(c, k), i, x, n - 1);
        ExpectsSeqMonotone(w, Copies(c, k), i, x, n - 1, n' - 1);
      case _ =>
    }
  }

  lemma {:induction false} ExpectsSeqMonotone(w: Setting, cs: seq<Id>, i: nat, x: Id, n: nat, n': nat)
    requires ExpectsSeq(w, cs, i, x, n) && n <= n'
    ensures ExpectsSeq(w, cs, i, x, n')
    decreases n, |cs| + 1
  {
    if Expects(w, cs[0], i, x, n) {
      ExpectsMonotone(w, cs[0], i, x, n, n');
    } else {
      var m :| w.Derives(cs[0], i, m, n) && ExpectsSeq(w, cs[1..], m, x, n);
      w.DerivesMonotone(cs[0], i, m, n, n');
      ExpectsSeqMonotone(w, cs[1..], m, x, n, n');
    }
  }

  lemma {:induction false} ExpectsSnoc(w: Setting, cs: seq<Id>, c: Id, i: nat, m: nat, x: Id, n: nat)
    requires w.DerivesSeq(cs, i, m, n) && Expects(w, c, m, x, n)
    ensures ExpectsSeq(w, cs + [c], i, x, n)
    decreases |cs|
  {
    if cs != [] {
      var l :| w.Derives(cs[0], i, l, n) && w.DerivesSeq(cs[1..], l, m, n);
      ExpectsSnoc(w, cs[1..], c, l, m, x, n);
      assert (cs + [c])[1..] == cs[1..] + [c];
    }
  }

  // ----- AddSuggestion -----

  lemma {:induction false} SuggestExpected(w: Setting, id: Id, s: State, x: Id)
    requires w.Valid() && id < |w.g| && s.index == |w.tokens|
    requires x in Suggest(w.g, id, s).state.suggestions && x !in s.suggestions
    ensures Expects(w, id, s.index, x, Fresh(w.g, s))
    decreases Ids(w.g) - s.added, 0
  {
    var s1 := s.(added := s.added + {id});
    FreshShrinks(w.g, s, s1);
    var n, n1 := Fresh(w.g, s) - 1, Fresh(w.g, s1);
    match w.g[id] {
      case List(cs) =>
        SuggestListExpected(w, cs, s1, x);
        ExpectsSeqMonotone(w, cs, s.index, x, n1, n);
      case Choice(cs) =>
        SuggestAllExpected(w, cs, s1, x);
        var k :| 0 <= k < |cs| && Expects(w, cs[k], s.index, x, n1);
        ExpectsMonotone(w, cs[k], s.index, x, n1, n);
      case Optional(c) =>
        SuggestExpected(w, c, s1, x);
        ExpectsMonotone(w, c, s.index, x, n1, n);
      case Repeat(c) =>
        SuggestExpected(w, c, s1, x);
        ExpectsMonotone(w, c, s.index, x, n1, n);
        assert ExpectsSeq(w, Copies(c, 1), s.index, x, n);
      case _ =>
    }
  }

  lemma {:induction false} SuggestListExpected(w: Setting, cs: seq<Id>, s: State, x: Id)
    requires w.Valid() && AllBelow(cs, |w.g|) && s.index == |w.tokens|
    requires x in SuggestList(w.g, cs, s).state.suggestions && x !in s.suggestions
    ensures ExpectsSeq(w, cs, s.index, x, Fresh(w.g, s))
    decreases Ids(w.g) - s.added, |cs| + 1
  {
    var r := Suggest(w.g, cs[0], s);
    if x in r.state.suggestions {
      SuggestExpected(w, cs[0], s, x);
    } else {
      OptionalDerivesNothing(w, cs[0], s, s.index);
      SuggestListExpected(w, cs[1..], r.state, x);
      FreshShrinks(w.g, s, r.state);
      ExpectsSeqMonotone(w, cs[1..], s.index, x, Fresh(w.g, r.state), Fresh(w.g, s));
    }
  }

  lemma {:induction false} SuggestAllExpected(w: Setting, cs: seq<Id>, s: State, x: Id)
    requires w.Valid() && AllBelow(cs, |w.g|) && s.index == |w.tokens|
    requires x in SuggestAll(w.g, cs, s).suggestions && x !in s.suggestions
    ensures exists k :: 0 <= k < |cs| && Expects(w, cs[k], s.index, x, Fresh(w.g, s))
    decreases Ids(w.g) - s.added, |cs| + 1
  {
    var r, rest := Suggest(w.g, cs[0], s), cs[1..];
    if x in r.state.suggestions {
      SuggestExpected(w, cs[0], s, x);
    } else {
      SuggestAllExpected(w, rest, r.state, x);
      FreshShrinks(w.g, s, r.state);
      var k :| 0 <= k < |rest| && Expects(w, rest[k], s.index, x, Fresh(w.g, r.state));
      ExpectsMonotone(w, rest[k], s.index, x, Fresh(w.g, r.state), Fresh(w.g, s));
      assert cs[k + 1] == rest[k];
    }
  }

  // ----- Match -----

  /** Every leaf that a run of Match adds to the suggestions can follow the tokens,
      whether the run succeeds or fails. */
  lemma SuggestionsCanFollow(w: Setting, id: Id, s: State, fuel: nat, x: Id)
    requires w.Valid() && id < |w.g| && s.index < |w.tokens|
    requires Match(w, id, s, fuel).Finished?
    requires x in Match(w, id, s, fuel).state.suggestions && x !in s.suggestions
    ensures CanFollow(w, id, s.index, x)
  {
    MatchExpected(w, id, s, fuel, x);
  }

  lemma {:induction false} MatchExpected(w: Setting, id: Id, s: State, fuel: nat, x: Id)
    requires w.Valid() && id < |w.g| && s.index < |w.tokens|
    requires Match(w, id, s, fuel).Finished?
    requires x in Match(w, id, s, fuel).state.suggestions && x !in s.suggestions
    ensures Expects(w, id, s.index, x, Height(w, fuel))
    decreases fuel, 0
  {
    match w.g[id] {
      case List(cs) => ListExpected(w, cs, s, s.Copy(), fuel - 1, x);
      case Choice(cs) => ChoiceExpected(w, cs, s, fuel - 1, x);
      case Optional(c) => MatchExpected(w, c, s.Copy(), fuel - 1, x);
      case Repeat(c) =>
        var r, n := Match(w, c, s.Copy(), fuel - 1), Height(w, fuel - 1);
        if x in r.state.suggestions {
          MatchExpected(w, c, s.Copy(), fuel - 1, x);
          assert ExpectsSeq(w, Copies(c, 1), s.index, x, n);
        } else {
          MatchDerives(w, c, s.Copy(), fuel - 1);
          CopiesOne(w, c, s.index, r.state.index, n);
          RepeatExpected(w, c, s, r.state, fuel - 1, s.index, 1, n, x);
        }
      case _ =>
    }
  }

  lemma {:induction false} ListExpected(w: Setting, cs: seq<Id>, s: State, copy: State, fuel: nat, x: Id)
    requires w.Valid() && AllBelow(cs, |w.g|)
    requires s.index <= copy.index <= |w.tokens|
    requires MatchList(w, cs, s, copy, fuel).Finished?
    requires x in MatchList(w, cs, s, copy, fuel).state.suggestions && x !in copy.suggestions
    ensures ExpectsSeq(w, cs, copy.index, x, Height(w, fuel))
    decreases fuel, |cs| + 1
  {
    if copy.index == |w.tokens| {
      SuggestListExpected(w, cs, copy, x);
      SubsetSize(Ids(w.g) - copy.added, Ids(w.g));
      ExpectsSeqMonotone(w, cs, copy.index, x, Fresh(w.g, copy), Height(w, fuel));
    } else {
      var r := Match(w, cs[0], copy, fuel);
      if x in r.state.suggestions {
        MatchExpected(w, cs[0], copy, fuel, x);
      } else {
        MatchDerives(w, cs[0], copy, fuel);
        ListExpected(w, cs[1..], s, r.state, fuel, x);
      }
    }
  }

  lemma {:induction false} ChoiceExpected(w: Setting, cs: seq<Id>, s: State, fuel: nat, x: Id)
    requires w.Valid() && AllBelow(cs, |w.g|)
    requires s.index < |w.tokens|
    requires MatchChoice(w, cs, s, fuel).Finished?
    requires x in MatchChoice(w, cs, s, fuel).state.suggestions && x !in s.suggestions
    ensures exists k :: 0 <= k < |cs| && Expects(w, cs[k], s.index, x, Height(w, fuel))
    decreases fuel, |cs| + 1
  {
    var r, rest := Match(w, cs[0], s.Copy(), fuel), cs[1..];
    if x in r.state.suggestions {
      MatchExpected(w, cs[0], s.Copy(), fuel, x);
    } else {
      ChoiceExpected(w, rest, s.Discard(r.state), fuel, x);
      var k :| 0 <= k < |rest| && Expects(w, rest[k], s.index, x, Height(w, fuel));
      assert cs[k + 1] == rest[k];
    }
  }

  lemma {:induction false} RepeatExpected(w: Setting, c: Id, s: State, copy: State, fuel: nat, i: nat, k: nat, n: nat,
      x: Id)
    requires w.Valid() && c < |w.g|
    requires s.index <= copy.index <= |w.tokens|
    requires MatchRepeat(w, c, s, copy, fuel).Finished?
    requires w.DerivesSeq(Copies(c, k), i, copy.index, n) && Height(w, fuel) <= n
    requires x in MatchRepeat(w, c, s, copy, fuel).state.suggestions && x !in copy.suggestions
    ensures exists k': nat :: ExpectsSeq(w, Copies(c, k'), i, x, n)
    decreases fuel, 1
  {
    if copy.index == |w.tokens| {
      var s1 := s.Adopt(copy);
      SuggestExpected(w, c, s1, x);
      SubsetSize(Ids(w.g) - s1.added, Ids(w.g));
      ExpectsMonotone(w, c, s1.index, x, Fresh(w.g, s1), n);
      CopiesExpect(w, c, k, i, copy.index, x, n);
    } else {
      var r := Match(w, c, copy, fuel - 1);
      if x in r.state.suggestions {
        MatchExpected(w, c, copy, fuel - 1, x);
        ExpectsMonotone(w, c, copy.index, x, Height(w, fuel - 1), n);
        CopiesExpect(w, c, k, i, copy.index, x, n);
      } else {
        MatchDerives(w, c, copy, fuel - 1);
        w.DerivesMonotone(c, copy.index, r.state.index, Height(w, fuel - 1), n);
        CopiesMore(w, c, k, i, copy.index, r.state.index, n);
        RepeatExpected(w, c, s.Adopt(copy), r.state, fuel - 1, i, k + 1, n, x);
      }
    }
  }

  lemma CopiesExpect(w: Setting, c: Id, k: nat, i: nat, m: nat, x: Id, n: nat)
    requires w.DerivesSeq(Copies(c, k), i, m, n) && Expects(w, c, m, x, n)
    ensures ExpectsSeq(w, Copies(c, k + 1), i, x, n)
  {
    ExpectsSnoc(w, Copies(c, k), c, i, m, x, n);
    assert Copies(c, k) + [c] == Copies(c, k + 1);
  }
}
