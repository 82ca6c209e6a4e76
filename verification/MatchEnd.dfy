/** What a list does with its remaining children when the tokens run out (matcher.cpp:22-29,
    99-113, 125-135, 172-175, 208-213, 269-272), in terms of the shape of the graph: the
    children must be optional by their shape, and no matcher of that shape may have been
    visited before, since a matcher that is met again reports MANDATORY. */
module MatchEnd {
  import opened Matcher
  import opened MatchRun

  // ----- Shape -----

  /** A matcher is optional by its shape, and the spine lists in order the lists and optionals
      that make it so: an optional, or a list of matchers that are optional by their shape. */
  ghost predicate IsSpine(g: Graph, id: Id, spine: seq<Id>)
    decreases |spine|, 0
  {
    && id < |g|
    && spine != []
    && spine[0] == id
    && match g[id] {
         case Optional(_) => |spine| == 1
         case List(cs) => AreSpines(g, cs, spine[1..])
         case _ => false
       }
  }

  ghost predicate AreSpines(g: Graph, cs: seq<Id>, spine: seq<Id>)
    decreases |spine|, |cs| + 1
  {
    if cs == [] then spine == []
    else exists k :: 0 < k <= |spine| && IsSpine(g, cs[0], spine[..k]) && AreSpines(g, cs[1..], spine[k..])
  }

  ghost predicate StructurallyOptional(g: Graph, id: Id) {
    exists spine :: IsSpine(g, id, spine)
  }

  lemma {:induction false} SpineWithin(g: Graph, id: Id, spine: seq<Id>)
    requires IsSpine(g, id, spine)
    ensures AllBelow(spine, |g|)
    decreases |spine|, 0
  {
    if g[id].List? {
      SpinesWithin(g, g[id].children, spine[1..]);
      assert spine == [id] + spine[1..];
    }
  }

  lemma {:induction false} SpinesWithin(g: Graph, cs: seq<Id>, spine: seq<Id>)
    requires AreSpines(g, cs, spine)
    ensures AllBelow(spine, |g|)
    decreases |spine|, |cs| + 1
  {
    if cs != [] {
      var k :| 0 < k <= |spine| && IsSpine(g, cs[0], spine[..k]) && AreSpines(g, cs[1..], spine[k..]);
      SpineWithin(g, cs[0], spine[..k]);
      SpinesWithin(g, cs[1..], spine[k..]);
      assert spine == spine[..k] + spine[k..];
    }
  }

  // ----- Visits -----

  /** The matchers visited once the given matcher has been, after those in `seen`. */
  ghost function Visit(g: Graph, id: Id, seen: set<Id>): (seen': set<Id>)
    requires Closed(g) && id < |g|
    ensures seen <= seen' && id in seen'
    decreases Ids(g) - seen, 0
  {
    if id in seen then seen
    else match g[id]
      case List(cs) => VisitList(g, cs, seen + {id})
      case Choice(cs) => VisitAll(g, cs, seen + {id})
      case Optional(c) => Visit(g, c, seen + {id})
      case Repeat(c) => Visit(g, c, seen + {id})
      case _ => seen + {id}
  }

  /** A list goes on to its next child as long as children can be skipped. */
  ghost function VisitList(g: Graph, cs: seq<Id>, seen: set<Id>): (seen': set<Id>)
    requires Closed(g) && AllBelow(cs, |g|)
    ensures seen <= seen'
    decreases Ids(g) - seen, |cs| + 3
  {
    if cs == [] then seen
    else
      var seen' := Visit(g, cs[0], seen);
      if Skipped(g, cs[0], seen) then VisitList(g, cs[1..], seen') else seen'
  }

  ghost function VisitAll(g: Graph, cs: seq<Id>, seen: set<Id>): (seen': set<Id>)
    requires Closed(g) && AllBelow(cs, |g|)
    ensures seen <= seen'
    decreases Ids(g) - seen, |cs| + 3
  {
    if cs == [] then seen else VisitAll(g, cs[1..], Visit(g, cs[0], seen))
  }

  /** A matcher can be skipped: it is optional by its shape, and each list and optional of the
      shape is met for the first time. */
  ghost predicate Skipped(g: Graph, id: Id, seen: set<Id>)
    requires Closed(g) && id < |g|
    decreases Ids(g) - seen, 2
  {
    exists spine :: IsSpine(g, id, spine) && FirstTime(g, spine, seen)
  }

  /** No matcher of the spine is in `seen`, occurs earlier in the spine, or is visited from the
      element of an optional earlier in the spine. */
  ghost predicate FirstTime(g: Graph, spine: seq<Id>, seen: set<Id>)
    requires Closed(g)
    decreases Ids(g) - seen, 1
  {
    spine != [] ==>
      && spine[0] < |g|
      && spine[0] !in seen
      && FirstTime(g, spine[1..], Passed(g, spine[0], seen))
  }

  ghost function Passed(g: Graph, id: Id, seen: set<Id>): (seen': set<Id>)
    requires Closed(g) && id < |g| && id !in seen
    ensures seen + {id} <= seen'
    decreases Ids(g) - seen, 0
  {
    if g[id].Optional? then Visit(g, g[id].child, seen + {id}) else seen + {id}
  }

  ghost function PassedAll(g: Graph, spine: seq<Id>, seen: set<Id>): (seen': set<Id>)
    requires Closed(g) && FirstTime(g, spine, seen)
    ensures seen <= seen'
    decreases |spine|
  {
    if spine == [] then seen else PassedAll(g, spine[1..], Passed(g, spine[0], seen))
  }

  /** The remaining children of a list can be skipped, one after the other. */
  ghost predicate SkippedAll(g: Graph, cs: seq<Id>, seen: set<Id>)
    requires Closed(g) && AllBelow(cs, |g|)
  {
    exists spine :: AreSpines(g, cs, spine) && FirstTime(g, spine, seen)
  }

  lemma {:induction false} FirstTimeAppend(g: Graph, a: seq<Id>, b: seq<Id>, seen: set<Id>)
    requires Closed(g)
    ensures FirstTime(g, a + b, seen) <==> FirstTime(g, a, seen) && FirstTime(g, b, PassedAll(g, a, seen))
    decreases |a|
  {
    hide Visit;
    if a == [] {
      assert a + b == b;
    } else {
      assert (a + b)[1..] == a[1..] + b;
      if a[0] < |g| && a[0] !in seen {
        FirstTimeAppend(g, a[1..], b, Passed(g, a[0], seen));
      }
    }
  }

  /** Skipping a matcher visits it. */
  lemma {:induction false} PassedIsVisited(g: Graph, id: Id, spine: seq<Id>, seen: set<Id>)
    requires Closed(g) && IsSpine(g, id, spine) && FirstTime(g, spine, seen)
    ensures PassedAll(g, spine, seen) == Visit(g, id, seen)
    decreases |spine|, 0
  {
    var rest := spine[1..];
    match g[id] {
      case Optional(_) => assert rest == [];
      case List(cs) => PassedAreVisited(g, cs, rest, seen + {id});
    }
  }

  lemma {:induction false} PassedAreVisited(g: Graph, cs: seq<Id>, spine: seq<Id>, seen: set<Id>)
    requires Closed(g) && AllBelow(cs, |g|) && AreSpines(g, cs, spine) && FirstTime(g, spine, seen)
    ensures PassedAll(g, spine, seen) == VisitList(g, cs, seen)
    decreases |spine|, |cs| + 1
  {
    hide Visit;
    if cs != [] {
      var k :| 0 < k <= |spine| && IsSpine(g, cs[0], spine[..k]) && AreSpines(g, cs[1..], spine[k..]);
      var a, b := spine[..k], spine[k..];
      assert spine == a + b;
      FirstTimeAppend(g, a, b, seen);
      PassedAppend(g, a, b, seen);
      PassedIsVisited(g, cs[0], a, seen);
      PassedAreVisited(g, cs[1..], b, Visit(g, cs[0], seen));
    }
  }

  lemma {:induction false} PassedAppend(g: Graph, a: seq<Id>, b: seq<Id>, seen: set<Id>)
    requires Closed(g) && FirstTime(g, a, seen) && FirstTime(g, b, PassedAll(g, a, seen))
    ensures FirstTime(g, a + b, seen) && PassedAll(g, a + b, seen) == PassedAll(g, b, PassedAll(g, a, seen))
    decreases |a|
  {
    hide Visit;
    FirstTimeAppend(g, a, b, seen);
    if a == [] {
      assert a + b == b;
    } else {
      assert (a + b)[1..] == a[1..] + b;
      PassedAppend(g, a[1..], b, Passed(g, a[0], seen));
    }
  }

  /** The first child is skipped, then the others. */
  lemma SkippedFirst(g: Graph, cs: seq<Id>, seen: set<Id>)
    requires Closed(g) && AllBelow(cs, |g|) && cs != []
    ensures SkippedAll(g, cs, seen) <==> Skipped(g, cs[0], seen) && SkippedAll(g, cs[1..], Visit(g, cs[0], seen))
  {
    hide Visit, IsSpine, FirstTime;
    if SkippedAll(g, cs, seen) {
      var spine :| AreSpines(g, cs, spine) && FirstTime(g, spine, seen);
      var k :| 0 < k <= |spine| && IsSpine(g, cs[0], spine[..k]) && AreSpines(g, cs[1..], spine[k..]);
      assert spine == spine[..k] + spine[k..];
      FirstTimeAppend(g, spine[..k], spine[k..], seen);
      PassedIsVisited(g, cs[0], spine[..k], seen);
    }
    if Skipped(g, cs[0], seen) && SkippedAll(g, cs[1..], Visit(g, cs[0], seen)) {
      var a :| IsSpine(g, cs[0], a) && FirstTime(g, a, seen);
      var b :| AreSpines(g, cs[1..], b) && FirstTime(g, b, Visit(g, cs[0], seen));
      PassedIsVisited(g, cs[0], a, seen);
      FirstTimeAppend(g, a, b, seen);
      SpinesAppend(g, cs, a, b);
    }
  }

  lemma SpinesAppend(g: Graph, cs: seq<Id>, a: seq<Id>, b: seq<Id>)
    requires cs != [] && IsSpine(g, cs[0], a) && AreSpines(g, cs[1..], b)
    ensures AreSpines(g, cs, a + b)
  {
    var k := |a|;
    assert (a + b)[..k] == a && (a + b)[k..] == b;
  }

  // ----- AddSuggestion -----

  /** AddSuggestion reports OPTIONAL exactly if the matcher can be skipped, and adds exactly the
      matchers it visits. */
  lemma {:induction false} SuggestSkips(g: Graph, id: Id, s: State)
    requires Closed(g) && id < |g|
    ensures Suggest(g, id, s).optional <==> Skipped(g, id, s.added)
    ensures Suggest(g, id, s).state.added == Visit(g, id, s.added)
    decreases Ids(g) - s.added, 0
  {
    hide SuggestList, SuggestAll, VisitList, VisitAll, AreSpines;
    SkippedShape(g, id, s.added);
    if id !in s.added {
      var s1 := s.(added := s.added + {id});
      match g[id] {
        case List(cs) => SuggestListSkips(g, cs, s1);
        case Choice(cs) => SuggestAllVisits(g, cs, s1);
        case Optional(c) => SuggestSkips(g, c, s1);
        case Repeat(c) => SuggestSkips(g, c, s1);
        case _ =>
      }
    }
  }

  lemma SkippedShape(g: Graph, id: Id, seen: set<Id>)
    requires Closed(g) && id < |g|
    ensures Skipped(g, id, seen) <==>
            id !in seen && match g[id] {
              case Optional(_) => true
              case List(cs) => SkippedAll(g, cs, seen + {id})
              case _ => false
            }
  {
    hide Visit, AreSpines, FirstTime;
    if Skipped(g, id, seen) {
      var spine :| IsSpine(g, id, spine) && FirstTime(g, spine, seen);
      FirstTimeStep(g, id, spine[1..], seen);
      assert spine == [id] + spine[1..];
      if g[id].List? {
        assert AreSpines(g, g[id].children, spine[1..]);
      }
    } else if id !in seen && g[id].Optional? {
      FirstTimeStep(g, id, [], seen);
      NothingToSkip(g, Passed(g, id, seen));
      assert [id] + [] == [id] && IsSpine(g, id, [id]);
    } else if id !in seen && g[id].List? && SkippedAll(g, g[id].children, seen + {id}) {
      var spine :| AreSpines(g, g[id].children, spine) && FirstTime(g, spine, seen + {id});
      FirstTimeStep(g, id, spine, seen);
      assert ([id] + spine)[1..] == spine;
      assert IsSpine(g, id, [id] + spine);
    }
  }

  lemma FirstTimeStep(g: Graph, id: Id, rest: seq<Id>, seen: set<Id>)
    requires Closed(g) && id < |g|
    ensures FirstTime(g, [id] + rest, seen) <==> id !in seen && FirstTime(g, rest, Passed(g, id, seen))
    ensures id !in seen && !g[id].Optional? ==> Passed(g, id, seen) == seen + {id}
  {
    assert ([id] + rest)[1..] == rest;
  }

  lemma {:induction false} SuggestListSkips(g: Graph, cs: seq<Id>, s: State)
    requires Closed(g) && AllBelow(cs, |g|)
    ensures SuggestList(g, cs, s).optional <==> SkippedAll(g, cs, s.added)
    ensures SuggestList(g, cs, s).state.added == VisitList(g, cs, s.added)
    decreases Ids(g) - s.added, |cs| + 1
  {
    hide Suggest, Visit, Skipped, SkippedAll;
    if cs == [] {
      NothingToSkip(g, s.added);
    } else {
      SuggestSkips(g, cs[0], s);
      SkippedFirst(g, cs, s.added);
      SuggestListSkips(g, cs[1..], Suggest(g, cs[0], s).state);
    }
  }

  lemma NothingToSkip(g: Graph, seen: set<Id>)
    requires Closed(g)
    ensures SkippedAll(g, [], seen) && FirstTime(g, [], seen)
  {
    assert AreSpines(g, [], []) && FirstTime(g, [], seen);
  }

  lemma {:induction false} SuggestAllVisits(g: Graph, cs: seq<Id>, s: State)
    requires Closed(g) && AllBelow(cs, |g|)
    ensures SuggestAll(g, cs, s).added == VisitAll(g, cs, s.added)
    decreases Ids(g) - s.added, |cs| + 1
  {
    hide Suggest, Visit;
    if cs != [] {
      SuggestSkips(g, cs[0], s);
      SuggestAllVisits(g, cs[1..], Suggest(g, cs[0], s).state);
    }
  }

  /** It is not enough that the matchers of a shape are distinct: the second optional here is
      visited from the element of the first, and so it cannot be skipped. */
  lemma ElementsAreVisited()
    ensures var g := [Optional(1), Optional(2), Keyword("d")];
            AreSpines(g, [0, 1], [0, 1]) && !SkippedAll(g, [0, 1], {})
  {
    var g := [Optional(1), Optional(2), Keyword("d")];
    assert IsSpine(g, 0, [0]) && IsSpine(g, 1, [1]);
    SpinesAppend(g, [1], [1], []);
    SpinesAppend(g, [0, 1], [0], [1]);
    SkippedFirst(g, [0, 1], {});
    SkippedFirst(g, [1], Visit(g, 0, {}));
    SkippedShape(g, 1, Visit(g, 0, {}));
  }
}
