/** The acceptance test of check_peg_parser (autocomplete_extension.cpp:652-677): rules are
    compiled to a matcher graph, the graph is run on the tokens of each statement, and a
    statement passes if the run succeeds and consumes every token. */
module Checker {
  import opened Matcher
  import opened Grammar
  import opened GrammarBrackets
  import opened GrammarMeaning
  import opened MatcherStore
  import opened MatcherFactory
  import Run = MatchRun
  import MatchSound
  import MatchEnd
  import MatchOrdered
  import MatchPeg
  import MatchTermination
  import Matching
  import GrammarLexer

  const ROOT := "Statement"

  /** The state in which a statement is checked. */
  const START := Run.State(0, {}, [])

  /** The matcher created for a name derives exactly what the grammar derives from it. */
  lemma SameLanguage(rules: Rules, shared: Shared, st: Store, kw: Keywords, tokens: seq<string>, id: Id, i: nat, j: nat)
    requires Consistent(LanguageOf(rules), shared, st) && st.pending == {} && id in st.labels
    ensures LanguageOf(rules).Valid()
    ensures Setting(st.nodes, kw, tokens).Derivable(id, i, j) <==>
            Reading(LanguageOf(rules), kw, tokens).Derivable(st.labels[id], i, j)
  {
    LanguageValid(rules);
    var w, r := Setting(st.nodes, kw, tokens), Reading(LanguageOf(rules), kw, tokens);
    forall n: nat ensures w.Derives(id, i, j, n) <==> r.Derives(st.labels[id], i, j, n) {
      SameDerivations(r, st.nodes, st.labels, id, i, j, n);
    }
  }

  /** A run that succeeds on every token of a statement. */
  predicate Accepts(g: Graph, kw: Keywords, tokens: seq<string>, id: Id, fuel: nat)
    requires Closed(g) && id < |g| && tokens != []
  {
    var r := Run.Match(Setting(g, kw, tokens), id, START, fuel);
    r.Finished? && r.success && r.state.index == |tokens|
  }

  /** Acceptance in terms of ordered choices, without states and suggestions. */
  lemma AcceptedIffPicked(g: Graph, kw: Keywords, tokens: seq<string>, id: Id, fuel: nat)
    requires Closed(g) && id < |g| && tokens != []
    ensures Accepts(g, kw, tokens, id, fuel) <==> MatchOrdered.Picks(Setting(g, kw, tokens), id, 0, |tokens|, fuel)
  {
    MatchOrdered.MatchIsOrdered(Setting(g, kw, tokens), id, START, |tokens|, fuel);
  }

  /** On an ordinary graph, acceptance is that of ordinary parsing expressions. */
  lemma AcceptedIffParsed(g: Graph, a: MatchPeg.Analysis, kw: Keywords, tokens: seq<string>, id: Id, fuel: nat)
    requires Closed(g) && id < |g| && tokens != [] && MatchPeg.Ordinary(g, a)
    requires MatchTermination.Bound(Setting(g, kw, tokens), 0, a.rank(id), a.top) <= fuel
    ensures Accepts(g, kw, tokens, id, fuel) <==>
            exists n :: MatchPeg.Parses(Setting(g, kw, tokens), id, 0, |tokens|, n)
  {
    hide Run.Match, MatchPeg.Parses;
    var w := Setting(g, kw, tokens);
    MatchTermination.MatchTerminates(w, a.nullable, a.rank, a.top, id, START, fuel);
    MatchPeg.MatchIsPeg(w, a, id, START, |tokens|);
    if n: nat :| MatchOrdered.Succeeds(Run.Match(w, id, START, n), |tokens|) {
      Run.MatchStable(w, id, START, n, if n <= fuel then fuel else n);
      Run.MatchStable(w, id, START, fuel, if n <= fuel then fuel else n);
    }
    if Accepts(g, kw, tokens, id, fuel) {
      assert MatchOrdered.Succeeds(Run.Match(w, id, START, fuel), |tokens|);
    }
  }

  /** The graph of the rules `X <- 'b' C C` and `C <- 'd'?`: both references to C are one node. */
  const SHARED: Graph := [List([1, 2, 2]), Keyword("b"), List([3]), Optional(4), Keyword("d")]

  /** The statement `b` is derivable from X, and an ordinary parser accepts it, but the check
      does not: the second C has been visited when its turn comes. */
  lemma SharedOptionalIsRejected(kw: Keywords, fuel: nat)
    ensures var w := Setting(SHARED, kw, ["b"]);
            && w.Derivable(0, 0, 1)
            && MatchPeg.Parses(w, 0, 0, 1, 4)
            && !Accepts(SHARED, kw, ["b"], 0, fuel)
  {
    hide Accepts, MatchOrdered.Picks, MatchPeg.Parses, Setting.Derivable;
    var w := Setting(SHARED, kw, ["b"]);
    SharedOptionalParses(w);
    SharedOptionalIsNotPicked(w, fuel);
    AcceptedIffPicked(SHARED, kw, ["b"], 0, fuel);
  }

  lemma SharedOptionalParses(w: Setting)
    requires w.g == SHARED && w.tokens == ["b"]
    ensures w.Derivable(0, 0, 1) && MatchPeg.Parses(w, 0, 0, 1, 4)
  {
    hide MatchPeg.Parses, Setting.Derives;
    SharedDerives(w);
    SharedParses(w);
    SharedFirst(w);
  }

  lemma SharedFirst(w: Setting)
    requires w.g == SHARED && w.tokens == ["b"]
    requires w.DerivesSeq([2, 2], 1, 1, 2) && MatchPeg.ParsesSeq(w, [2, 2], 1, 1, 3)
    ensures w.Derives(0, 0, 1, 3) && MatchPeg.Parses(w, 0, 0, 1, 4)
  {
    assert [1, 2, 2][1..] == [2, 2];
    assert w.Derives(1, 0, 1, 2) && MatchPeg.Parses(w, 1, 0, 1, 3);
    assert w.DerivesSeq([1, 2, 2], 0, 1, 2) && MatchPeg.ParsesSeq(w, [1, 2, 2], 0, 1, 3);
  }

  lemma SharedDerives(w: Setting)
    requires w.g == SHARED && w.tokens == ["b"]
    ensures w.DerivesSeq([2, 2], 1, 1, 2)
  {
    assert [3][1..] == [] && [2][1..] == [] && [2, 2][1..] == [2];
    assert w.Derives(3, 1, 1, 1) && w.DerivesSeq([], 1, 1, 1) && w.DerivesSeq([3], 1, 1, 1);
    assert w.Derives(2, 1, 1, 2) && w.DerivesSeq([], 1, 1, 2) && w.DerivesSeq([2], 1, 1, 2);
  }

  lemma SharedParses(w: Setting)
    requires w.g == SHARED && w.tokens == ["b"]
    ensures MatchPeg.ParsesSeq(w, [2, 2], 1, 1, 3)
  {
    assert [3][1..] == [] && [2][1..] == [] && [2, 2][1..] == [2];
    assert MatchPeg.Rejects(w, 4, 1, 1) && MatchPeg.Parses(w, 3, 1, 1, 2);
    assert MatchPeg.ParsesSeq(w, [], 1, 1, 2) && MatchPeg.ParsesSeq(w, [3], 1, 1, 2);
    assert MatchPeg.Parses(w, 2, 1, 1, 3) && MatchPeg.ParsesSeq(w, [], 1, 1, 3) && MatchPeg.ParsesSeq(w, [2], 1, 1, 3);
  }

  lemma SharedOptionalIsNotSkipped()
    ensures !MatchEnd.SkippedAll(SHARED, [2, 2], {})
  {
    hide MatchEnd.SkippedAll, MatchEnd.Skipped, MatchEnd.Visit;
    var seen := MatchEnd.Visit(SHARED, 2, {});
    assert [2, 2][1..] == [2];
    MatchEnd.SkippedFirst(SHARED, [2, 2], {});
    MatchEnd.SkippedFirst(SHARED, [2], seen);
    MatchEnd.SkippedShape(SHARED, 2, seen);
  }

  lemma SharedOptionalIsNotPicked(w: Setting, n: nat)
    requires w.g == SHARED && w.tokens == ["b"]
    ensures !MatchOrdered.Picks(w, 0, 0, 1, n)
  {
    hide MatchEnd.SkippedAll, MatchEnd.Visit;
    if MatchOrdered.Picks(w, 0, 0, 1, n) {
      var m := MatchPeg.PicksFirst(w, [1, 2, 2], {}, 0, 1, n - 1);
      assert [1, 2, 2][1..] == [2, 2];
      SharedOptionalIsNotSkipped();
    }
  }

  /** The graph of the rule `X <- 'b' ('d'? / 'e')`. */
  const OPTIONAL_CHOICE: Graph :=
    [List([1, 2]), Keyword("b"), List([3]), Choice([4, 6]), Optional(5), Keyword("d"), Keyword("e")]

  /** Here no matcher is met twice, but a choice is never skipped: `b` is rejected as well. */
  lemma OptionalChoiceIsRejected(kw: Keywords, fuel: nat)
    ensures var w := Setting(OPTIONAL_CHOICE, kw, ["b"]);
            && w.Derivable(0, 0, 1)
            && MatchPeg.Parses(w, 0, 0, 1, 5)
            && !Accepts(OPTIONAL_CHOICE, kw, ["b"], 0, fuel)
  {
    hide Accepts, MatchOrdered.Picks, MatchPeg.Parses, Setting.Derives;
    var w := Setting(OPTIONAL_CHOICE, kw, ["b"]);
    OptionalChoiceDerives(w);
    OptionalChoiceParses(w);
    OptionalChoiceIsNotPicked(w, fuel);
    AcceptedIffPicked(OPTIONAL_CHOICE, kw, ["b"], 0, fuel);
  }

  lemma OptionalChoiceDerives(w: Setting)
    requires w.g == OPTIONAL_CHOICE && w.tokens == ["b"]
    ensures w.Derives(0, 0, 1, 4)
  {
    assert [3][1..] == [] && [2][1..] == [] && [1, 2][1..] == [2];
    assert w.Derives(4, 1, 1, 1) && [4, 6][0] == 4 && w.Derives(3, 1, 1, 2);
    assert w.DerivesSeq([], 1, 1, 2) && w.DerivesSeq([3], 1, 1, 2) && w.Derives(2, 1, 1, 3);
    assert w.DerivesSeq([], 1, 1, 3) && w.DerivesSeq([2], 1, 1, 3);
    assert w.Derives(1, 0, 1, 3) && w.DerivesSeq([1, 2], 0, 1, 3);
  }

  lemma OptionalChoiceParses(w: Setting)
    requires w.g == OPTIONAL_CHOICE && w.tokens == ["b"]
    ensures MatchPeg.Parses(w, 0, 0, 1, 5)
  {
    assert [2][1..] == [] && [1, 2][1..] == [2];
    OptionalChoiceEnds(w);
    assert MatchPeg.ParsesSeq(w, [], 1, 1, 4) && MatchPeg.ParsesSeq(w, [2], 1, 1, 4);
    assert MatchPeg.Parses(w, 1, 0, 1, 4) && MatchPeg.ParsesSeq(w, [1, 2], 0, 1, 4);
  }

  lemma OptionalChoiceEnds(w: Setting)
    requires w.g == OPTIONAL_CHOICE && w.tokens == ["b"]
    ensures MatchPeg.Parses(w, 2, 1, 1, 4)
  {
    assert [3][1..] == [] && [4, 6][0] == 4;
    assert MatchPeg.Rejects(w, 5, 1, 1) && MatchPeg.Parses(w, 4, 1, 1, 2) && MatchPeg.Parses(w, 3, 1, 1, 3);
    assert MatchPeg.ParsesSeq(w, [], 1, 1, 3) && MatchPeg.ParsesSeq(w, [3], 1, 1, 3);
  }

  lemma OptionalChoiceIsNotSkipped()
    ensures !MatchEnd.SkippedAll(OPTIONAL_CHOICE, [2], {})
  {
    hide MatchEnd.SkippedAll, MatchEnd.Skipped, MatchEnd.Visit;
    MatchEnd.SkippedFirst(OPTIONAL_CHOICE, [2], {});
    MatchEnd.SkippedShape(OPTIONAL_CHOICE, 2, {});
    MatchEnd.SkippedFirst(OPTIONAL_CHOICE, [3], {} + {2});
    MatchEnd.SkippedShape(OPTIONAL_CHOICE, 3, {} + {2});
  }

  lemma OptionalChoiceIsNotPicked(w: Setting, n: nat)
    requires w.g == OPTIONAL_CHOICE && w.tokens == ["b"]
    ensures !MatchOrdered.Picks(w, 0, 0, 1, n)
  {
    hide MatchEnd.SkippedAll, MatchEnd.Visit;
    if MatchOrdered.Picks(w, 0, 0, 1, n) {
      var m := MatchPeg.PicksFirst(w, [1, 2], {}, 0, 1, n - 1);
      assert [1, 2][1..] == [2];
      OptionalChoiceIsNotSkipped();
    }
  }

  /** A statement accepted by the compiled matcher of a rule is derivable from the rule. */
  lemma AcceptedIsDerivable(rules: Rules, shared: Shared, st: Store, kw: Keywords, tokens: seq<string>, name: string,
      id: Id, fuel: nat)
    requires Consistent(LanguageOf(rules), shared, st) && st.pending == {} && tokens != []
    requires id in st.labels && st.labels[id] == Label(Ref(name), NoArg)
    requires Accepts(st.nodes, kw, tokens, id, fuel)
    ensures LanguageOf(rules).Valid()
    ensures Reading(LanguageOf(rules), kw, tokens).Derivable(Label(Ref(name), NoArg), 0, |tokens|)
  {
    MatchSound.MatchSound(Setting(st.nodes, kw, tokens), id, START, fuel);
    SameLanguage(rules, shared, st, kw, tokens, id, 0, |tokens|);
  }

  /** Matcher::RootMatcher for a rule set. */
  method RootMatcher(rules: Rules, name: string, ghost plan: Plan) returns (factory: MatcherFactory, r: Result<Id>)
    requires Acyclic(rules, plan.rank, plan.top)
    ensures r.Ok? ==> factory.Valid() && factory.rules == rules && factory.pending == {}
    ensures r.Ok? ==> r.value in factory.labels && factory.labels[r.value] == Label(Ref(name), NoArg)
    ensures r.Err? ==> !(Complete(LanguageOf(rules), plan.refs, plan.calls) && name in plan.refs)
    ensures r.Err? && Stored(rules) ==> !StackError(r.error)
  {
    factory := new MatcherFactory(rules);
    r := factory.CreateMatcher(name, None, [], NoArg, plan);
  }

  datatype Created =
    | NotLexed(lexError: GrammarLexer.LexError)
    | NotCompiled(error: Error)
    | Created(factory: MatcherFactory, root: Id)

  /** CreateMatcher(grammar, root_rule): the text is parsed, and its rules are compiled. None of
      the errors of the matcher stack is ever raised. */
  method CreateGrammarMatcher(grammar: string, name: string, ghost plan: Plan) returns (r: Created)
    requires var rules := GrammarLexer.Run(grammar, GrammarLexer.START);
             rules.Value? ==> Acyclic(rules.value, plan.rank, plan.top)
    ensures r.NotLexed? <==> GrammarLexer.Run(grammar, GrammarLexer.START).Failure?
    ensures r.NotCompiled? ==> !StackError(r.error)
    ensures r.Created? ==> r.factory.Valid() && r.factory.pending == {}
    ensures r.Created? ==> r.factory.rules == GrammarLexer.Run(grammar, GrammarLexer.START).value
    ensures r.Created? ==> r.root in r.factory.labels && r.factory.labels[r.root] == Label(Ref(name), NoArg)
  {
    hide GrammarLexer.Run, Acyclic, Stored;
    var parser := new GrammarLexer.PegParser();
    var error := parser.ParseRules(grammar);
    if error.Some? {
      return NotLexed(error.value);
    }
    GrammarLexer.ParsedRulesAreStored(grammar);
    var factory, root := RootMatcher(parser.rules, name, plan);
    return if root.Ok? then Created(factory, root.value) else NotCompiled(root.error);
  }

  /** A statement that a matcher accepts and the grammar derives. */
  ghost predicate Passes(rules: Rules, g: Graph, kw: Keywords, tokens: seq<string>, root: Id, fuel: nat)
    requires Closed(g) && root < |g| && tokens != [] && LanguageOf(rules).Valid()
  {
    && Accepts(g, kw, tokens, root, fuel)
    && Reading(LanguageOf(rules), kw, tokens).Derivable(Label(Ref(ROOT), NoArg), 0, |tokens|)
  }

  method CheckStatement(factory: MatcherFactory, root: Id, kw: Keywords, tokens: seq<string>, ghost fuel: nat)
    returns (ok: bool)
    requires factory.Valid() && factory.pending == {} && tokens != []
    requires root in factory.labels && factory.labels[root] == Label(Ref(ROOT), NoArg)
    requires Run.Match(Setting(factory.nodes, kw, tokens), root, START, fuel).Finished?
    ensures LanguageOf(factory.rules).Valid()
    ensures ok == Accepts(factory.nodes, kw, tokens, root, fuel)
    ensures ok ==> Passes(factory.rules, factory.nodes, kw, tokens, root, fuel)
  {
    LanguageValid(factory.rules);
    var suggestions := new Matching.SuggestionVector();
    var state := new Matching.MatchState(suggestions);
    ok := Matching.Match(Setting(factory.nodes, kw, tokens), root, state, fuel);
    ok := ok && state.tokenIndex == |tokens|;
    if ok {
      AcceptedIsDerivable(factory.rules, factory.keywordOverrides, factory.View(), kw, tokens, ROOT, root, fuel);
    }
  }

  /** The loop over the statements; returns the first that is rejected, if any. */
  method CheckStatements(factory: MatcherFactory, root: Id, kw: Keywords, statements: seq<seq<string>>, ghost fuel: nat)
    returns (rejected: Option<nat>)
    requires factory.Valid() && factory.pending == {}
    requires root in factory.labels && factory.labels[root] == Label(Ref(ROOT), NoArg)
    requires forall k :: 0 <= k < |statements| && statements[k] != [] ==>
               Run.Match(Setting(factory.nodes, kw, statements[k]), root, START, fuel).Finished?
    ensures rejected.Some? ==> rejected.value < |statements| && statements[rejected.value] != []
    ensures rejected.Some? ==> !Accepts(factory.nodes, kw, statements[rejected.value], root, fuel)
    ensures LanguageOf(factory.rules).Valid()
    ensures forall k :: 0 <= k < (if rejected.Some? then rejected.value else |statements|) && statements[k] != [] ==>
              Passes(factory.rules, factory.nodes, kw, statements[k], root, fuel)
  {
    hide Passes, Accepts, Fits, CachesRules, TableMap;
    LanguageValid(factory.rules);
    var k := 0;
    while k < |statements|
      invariant 0 <= k <= |statements|
      invariant forall j :: 0 <= j < k && statements[j] != [] ==>
                  Passes(factory.rules, factory.nodes, kw, statements[j], root, fuel)
    {
      if statements[k] != [] {
        var ok := CheckStatement(factory, root, kw, statements[k], fuel);
        if !ok {
          return Some(k);
        }
      }
      k := k + 1;
    }
    return None;
  }
}
