/** Ordinary parsing expression grammars, in which the end of the input is no special case, and
    the graphs on which Match agrees with them (matcher.cpp:55-340). */
module MatchPeg {
  import opened Matcher
  import opened MatchRun
  import opened MatchEnd
  import opened MatchOrdered
  import opened MatchTermination

  // ----- Parsing expressions -----

  /** A matcher consumes the tokens from i to j; at the end of the input no leaf does. */
  ghost predicate Parses(w: Setting, id: Id, i: nat, j: nat, n: nat)
    requires w.Valid() && id < |w.g|
    decreases n, 0
  {
    && i <= |w.tokens|
    && n > 0
    && match w.g[id] {
         case List(cs) => ParsesSeq(w, cs, i, j, n - 1)
         case Choice(cs) =>
           exists k :: 0 <= k < |cs| && Parses(w, cs[k], i, j, n - 1)
             && forall m :: 0 <= m < k ==> Rejects(w, cs[m], i, n - 1)
         case Optional(c) => Parses(w, c, i, j, n - 1) || (j == i && Rejects(w, c, i, n - 1))
         case Repeat(c) => ParsesAgain(w, c, i, j, n - 1)
         case leaf => i < |w.tokens| && j == i + 1 && Accepts(w.kw, leaf, w.tokens[i])
       }
  }

  ghost predicate Rejects(w: Setting, id: Id, i: nat, n: nat)
    requires w.Valid() && id < |w.g|
    decreases n, 0
  {
    && i <= |w.tokens|
    && n > 0
    && match w.g[id] {
         case List(cs) => RejectsSeq(w, cs, i, n - 1)
         case Choice(cs) => forall k :: 0 <= k < |cs| ==> Rejects(w, cs[k], i, n - 1)
         case Optional(_) => false
         case Repeat(c) => Rejects(w, c, i, n - 1)
         case leaf => i == |w.tokens| || !Accepts(w.kw, leaf, w.tokens[i])
       }
  }

  ghost predicate ParsesSeq(w: Setting, cs: seq<Id>, i: nat, j: nat, n: nat)
    requires w.Valid() && AllBelow(cs, |w.g|)
    decreases n, |cs| + 1
  {
    if cs == [] then j == i
    else exists m: nat :: Parses(w, cs[0], i, m, n) && ParsesSeq(w, cs[1..], m, j, n)
  }

  ghost predicate RejectsSeq(w: Setting, cs: seq<Id>, i: nat, n: nat)
    requires w.Valid() && AllBelow(cs, |w.g|)
    decreases n, |cs| + 1
  {
    && cs != []
    && ( || Rejects(w, cs[0], i, n)
         || exists m: nat :: Parses(w, cs[0], i, m, n) && RejectsSeq(w, cs[1..], m, n))
  }

  ghost predicate ParsesMore(w: Setting, c: Id, i: nat, j: nat, n: nat)
    requires w.Valid() && c < |w.g|
    decreases n, 1
  {
    n > 0 && ((j == i && Rejects(w, c, i, n - 1)) || ParsesAgain(w, c, i, j, n - 1))
  }

  ghost predicate ParsesAgain(w: Setting, c: Id, i: nat, j: nat, n: nat)
    requires w.Valid() && c < |w.g|
    decreases n, 2
  {
    exists m: nat :: Parses(w, c, i, m, n) && ParsesMore(w, c, m, j, n)
  }

  lemma ParsesFirst(w: Setting, cs: seq<Id>, i: nat, j: nat, n: nat) returns (m: nat)
    requires w.Valid() && AllBelow(cs, |w.g|) && cs != [] && ParsesSeq(w, cs, i, j, n)
    ensures Parses(w, cs[0], i, m, n) && ParsesSeq(w, cs[1..], m, j, n)
  {
    m :| Parses(w, cs[0], i, m, n) && ParsesSeq(w, cs[1..], m, j, n);
  }

  lemma RejectsLater(w: Setting, cs: seq<Id>, i: nat, n: nat) returns (m: nat)
    requires w.Valid() && AllBelow(cs, |w.g|) && RejectsSeq(w, cs, i, n) && !Rejects(w, cs[0], i, n)
    ensures Parses(w, cs[0], i, m, n) && RejectsSeq(w, cs[1..], m, n)
  {
    m :| Parses(w, cs[0], i, m, n) && RejectsSeq(w, cs[1..], m, n);
  }

  // ----- Ordinary graphs -----

  /** Why a graph is ordinary: its nullable matchers, their ranks, and for each matcher the
      matchers that can be visited from it at the end of the input. */
  datatype Analysis = Analysis(nullable: set<Id>, rank: Id -> nat, top: nat, reach: Id -> set<Id>)

  ghost predicate Reaches(g: Graph, id: Id, reach: Id -> set<Id>)
    requires id < |g|
  {
    && id in reach(id)
    && match g[id]
       case List(cs) =>
         forall k :: 0 <= k < |cs| && (forall m :: 0 <= m < k ==> StructurallyOptional(g, cs[m])) ==>
           reach(cs[k]) <= reach(id)
       case Choice(cs) => forall k :: 0 <= k < |cs| ==> reach(cs[k]) <= reach(id)
       case Optional(c) => reach(c) <= reach(id)
       case Repeat(c) => reach(c) <= reach(id)
       case _ => true
  }

  /** No matcher that makes the given one optional is in the set. */
  ghost predicate Off(g: Graph, id: Id, visited: set<Id>) {
    forall spine, x :: IsSpine(g, id, spine) && x in spine ==> x !in visited
  }

  /** What makes a child optional is not visited from a child before it. */
  ghost predicate Apart(g: Graph, cs: seq<Id>, reach: Id -> set<Id>) {
    forall p, q :: 0 <= p < q < |cs| ==> Off(g, cs[q], reach(cs[p]))
  }

  /** No left recursion, no repeat over a nullable element, no alternative that is optional by its
      shape, and no list in which a matcher that makes a child optional is met before. */
  ghost predicate Ordinary(g: Graph, a: Analysis) {
    && WellFounded(g, a.nullable, a.rank, a.top)
    && (forall id: Id :: id < |g| ==> Reaches(g, id, a.reach))
    && (forall id: Id :: id < |g| && g[id].List? ==> Apart(g, g[id].children, a.reach))
    && (forall id: Id, k :: id < |g| && g[id].Choice? && 0 <= k < |g[id].children| ==>
          !StructurallyOptional(g, g[id].children[k]))
  }

  ghost predicate AllOptional(g: Graph, cs: seq<Id>) {
    forall k :: 0 <= k < |cs| ==> StructurallyOptional(g, cs[k])
  }

  // ----- Shapes -----

  lemma {:induction false} SpinesExist(g: Graph, cs: seq<Id>) returns (spine: seq<Id>)
    requires AllOptional(g, cs)
    ensures AreSpines(g, cs, spine)
    decreases |cs|
  {
    spine := [];
    if cs != [] {
      var first :| IsSpine(g, cs[0], first);
      var rest := SpinesExist(g, cs[1..]);
      SpinesAppend(g, cs, first, rest);
      spine := first + rest;
    }
  }

  lemma {:induction false} SpinesAreOptional(g: Graph, cs: seq<Id>, spine: seq<Id>)
    requires AreSpines(g, cs, spine)
    ensures AllOptional(g, cs)
    decreases |cs|
  {
    if cs != [] {
      var k :| 0 < k <= |spine| && IsSpine(g, cs[0], spine[..k]) && AreSpines(g, cs[1..], spine[k..]);
      SpinesAreOptional(g, cs[1..], spine[k..]);
      forall m | 0 <= m < |cs| ensures StructurallyOptional(g, cs[m]) {
        if m > 0 {
          assert cs[m] == cs[1..][m - 1];
        }
      }
    }
  }

  lemma OptionalShape(g: Graph, id: Id)
    requires id < |g|
    ensures StructurallyOptional(g, id) <==> g[id].Optional? || (g[id].List? && AllOptional(g, g[id].children))
  {
    hide AreSpines, AllOptional;
    if StructurallyOptional(g, id) {
      var spine :| IsSpine(g, id, spine);
      if g[id].List? {
        SpinesAreOptional(g, g[id].children, spine[1..]);
      }
    }
    if g[id].Optional? {
      assert IsSpine(g, id, [id]);
    }
    if g[id].List? && AllOptional(g, g[id].children) {
      var spine := SpinesExist(g, g[id].children);
      assert ([id] + spine)[1..] == spine;
      assert IsSpine(g, id, [id] + spine);
    }
  }

  /** A matcher that is optional by its shape is nullable, and the others of its spine rank below it. */
  lemma {:induction false} SpineRanks(g: Graph, a: Analysis, id: Id, spine: seq<Id>)
    requires WellFounded(g, a.nullable, a.rank, a.top) && IsSpine(g, id, spine)
    ensures id in a.nullable
    ensures forall k :: 0 < k < |spine| ==> a.rank(spine[k]) < a.rank(id)
    decreases |spine|, 0
  {
    assert Descends(g[id], a.nullable, a.rank, a.rank(id));
    if g[id].List? {
      SpinesRank(g, a, g[id].children, spine[1..], a.rank(id));
      assert MayConsumeNothing(g[id], a.nullable);
      assert forall k :: 0 < k < |spine| ==> spine[k] == spine[1..][k - 1];
    }
  }

  lemma {:induction false} SpinesRank(g: Graph, a: Analysis, cs: seq<Id>, spine: seq<Id>, bound: nat)
    requires WellFounded(g, a.nullable, a.rank, a.top) && AreSpines(g, cs, spine)
    requires LeadsBelow(cs, a.nullable, a.rank, bound)
    ensures forall k :: 0 <= k < |cs| ==> cs[k] in a.nullable
    ensures forall k :: 0 <= k < |spine| ==> a.rank(spine[k]) < bound
    decreases |spine|, |cs| + 1
  {
    hide WellFounded;
    if cs != [] {
      var k :| 0 < k <= |spine| && IsSpine(g, cs[0], spine[..k]) && AreSpines(g, cs[1..], spine[k..]);
      SpineRanks(g, a, cs[0], spine[..k]);
      LeadsTail(cs, a.nullable, a.rank, bound);
      SpinesRank(g, a, cs[1..], spine[k..], bound);
      assert a.rank(cs[0]) < bound;
      assert forall m :: 0 < m < |cs| ==> cs[m] == cs[1..][m - 1];
      forall m | 0 <= m < |spine| ensures a.rank(spine[m]) < bound {
        assert spine[m] == if m < k then spine[..k][m] else spine[k..][m - k];
      }
    }
  }

  // ----- Visits stay within reach -----

  lemma {:induction false} VisitReaches(g: Graph, a: Analysis, id: Id, seen: set<Id>)
    requires Closed(g) && id < |g| && (forall x: Id :: x < |g| ==> Reaches(g, x, a.reach))
    ensures Visit(g, id, seen) <= seen + a.reach(id)
    decreases Ids(g) - seen, 0
  {
    hide VisitList, VisitAll, Reaches;
    assert Reaches(g, id, a.reach);
    ReachesItself(g, id, a.reach);
    if id !in seen {
      var seen1 := seen + {id};
      match g[id] {
        case List(cs) =>
          VisitListReaches(g, a, cs, seen1, a.reach(id)) by {
            ReachesChildren(g, id, a.reach);
          }
        case Choice(cs) =>
          VisitAllReaches(g, a, cs, seen1, a.reach(id)) by {
            ReachesChildren(g, id, a.reach);
          }
        case Optional(c) =>
          VisitReaches(g, a, c, seen1);
          ReachesChildren(g, id, a.reach);
        case Repeat(c) =>
          VisitReaches(g, a, c, seen1);
          ReachesChildren(g, id, a.reach);
        case _ =>
      }
    }
  }

  lemma ReachesItself(g: Graph, id: Id, reach: Id -> set<Id>)
    requires id < |g| && Reaches(g, id, reach)
    ensures id in reach(id)
  {
  }

  lemma ReachesChildren(g: Graph, id: Id, reach: Id -> set<Id>)
    requires id < |g| && Reaches(g, id, reach)
    ensures g[id].List? ==> LeadsWithin(g, g[id].children, reach, reach(id))
    ensures g[id].Choice? ==> forall k :: 0 <= k < |g[id].children| ==> reach(g[id].children[k]) <= reach(id)
    ensures g[id].Optional? || g[id].Repeat? ==> reach(g[id].child) <= reach(id)
  {
  }

  ghost predicate LeadsWithin(g: Graph, cs: seq<Id>, reach: Id -> set<Id>, bound: set<Id>) {
    forall k :: 0 <= k < |cs| && (forall m :: 0 <= m < k ==> StructurallyOptional(g, cs[m])) ==> reach(cs[k]) <= bound
  }

  lemma LeadsWithinTail(g: Graph, cs: seq<Id>, reach: Id -> set<Id>, bound: set<Id>)
    requires cs != [] && StructurallyOptional(g, cs[0]) && LeadsWithin(g, cs, reach, bound)
    ensures LeadsWithin(g, cs[1..], reach, bound)
  {
    var rest := cs[1..];
    forall k | 0 <= k < |rest| && forall m :: 0 <= m < k ==> StructurallyOptional(g, rest[m])
      ensures reach(rest[k]) <= bound
    {
      assert forall m :: 0 < m < k + 1 ==> cs[m] == rest[m - 1];
      assert cs[k + 1] == rest[k];
    }
  }

  lemma {:induction false} VisitListReaches(g: Graph, a: Analysis, cs: seq<Id>, seen: set<Id>, bound: set<Id>)
    requires Closed(g) && AllBelow(cs, |g|) && (forall x: Id :: x < |g| ==> Reaches(g, x, a.reach))
    requires LeadsWithin(g, cs, a.reach, bound)
    ensures VisitList(g, cs, seen) <= seen + bound
    decreases Ids(g) - seen, |cs| + 3
  {
    hide Visit, Reaches;
    if cs != [] {
      VisitReaches(g, a, cs[0], seen);
      assert a.reach(cs[0]) <= bound;
      if Skipped(g, cs[0], seen) {
        LeadsWithinTail(g, cs, a.reach, bound);
        VisitListReaches(g, a, cs[1..], Visit(g, cs[0], seen), bound);
      }
    }
  }

  lemma {:induction false} VisitAllReaches(g: Graph, a: Analysis, cs: seq<Id>, seen: set<Id>, bound: set<Id>)
    requires Closed(g) && AllBelow(cs, |g|) && (forall x: Id :: x < |g| ==> Reaches(g, x, a.reach))
    requires forall k :: 0 <= k < |cs| ==> a.reach(cs[k]) <= bound
    ensures VisitAll(g, cs, seen) <= seen + bound
    decreases Ids(g) - seen, |cs| + 3
  {
    hide Visit, Reaches;
    if cs != [] {
      VisitReaches(g, a, cs[0], seen);
      VisitAllReaches(g, a, cs[1..], Visit(g, cs[0], seen), bound);
    }
  }

  // ----- On an ordinary graph, optional by shape is all that counts -----

  ghost predicate Disjoint(spine: seq<Id>, visited: set<Id>) {
    forall x :: x in spine ==> x !in visited
  }

  lemma {:induction false} SpineIsNew(g: Graph, a: Analysis, id: Id, spine: seq<Id>, seen: set<Id>)
    requires Closed(g) && Ordinary(g, a) && IsSpine(g, id, spine) && Disjoint(spine, seen)
    ensures FirstTime(g, spine, seen)
    decreases |spine|, 0
  {
    hide Ordinary, Visit, Apart;
    assert spine == [id] + spine[1..];
    FirstTimeStep(g, id, spine[1..], seen);
    if g[id].List? {
      OrdinaryMeans(g, a, id);
      SpineRanks(g, a, id, spine);
      var rest := spine[1..];
      assert forall k :: 0 <= k < |rest| ==> rest[k] == spine[k + 1];
      SpinesAreNew(g, a, g[id].children, rest, seen + {id});
    } else {
      assert spine[1..] == [];
      NothingToSkip(g, Passed(g, id, seen));
    }
  }

  lemma OrdinaryMeans(g: Graph, a: Analysis, id: Id)
    requires Ordinary(g, a) && id < |g|
    ensures WellFounded(g, a.nullable, a.rank, a.top)
    ensures forall x: Id :: x < |g| ==> Reaches(g, x, a.reach)
    ensures g[id].List? ==> Apart(g, g[id].children, a.reach)
    ensures g[id].Choice? ==> forall k :: 0 <= k < |g[id].children| ==> !StructurallyOptional(g, g[id].children[k])
  {
  }

  lemma {:induction false} SpinesAreNew(g: Graph, a: Analysis, cs: seq<Id>, spine: seq<Id>, seen: set<Id>)
    requires Closed(g) && Ordinary(g, a) && AllBelow(cs, |g|)
    requires AreSpines(g, cs, spine) && Disjoint(spine, seen) && Apart(g, cs, a.reach)
    ensures FirstTime(g, spine, seen)
    decreases |spine|, |cs| + 1
  {
    hide Ordinary, Visit, IsSpine, FirstTime;
    if cs == [] {
      NothingToSkip(g, seen);
    } else {
      var k :| 0 < k <= |spine| && IsSpine(g, cs[0], spine[..k]) && AreSpines(g, cs[1..], spine[k..]);
      var first, rest := spine[..k], spine[k..];
      SpineIsNew(g, a, cs[0], first, seen);
      PassedIsVisited(g, cs[0], first, seen);
      OrdinaryMeans(g, a, cs[0]);
      VisitReaches(g, a, cs[0], seen);
      forall x | x in rest ensures x !in seen + a.reach(cs[0]) {
        SpineMember(g, cs, rest, x, a.reach(cs[0]));
      }
      ApartTail(g, cs, a.reach);
      SpinesAreNew(g, a, cs[1..], rest, Visit(g, cs[0], seen));
      FirstTimeAppend(g, first, rest, seen);
      assert spine == first + rest;
    }
  }

  lemma ApartTail(g: Graph, cs: seq<Id>, reach: Id -> set<Id>)
    requires cs != [] && Apart(g, cs, reach)
    ensures Apart(g, cs[1..], reach)
    ensures forall q :: 0 <= q < |cs[1..]| ==> Off(g, cs[1..][q], reach(cs[0]))
  {
    hide Off;
    var rest := cs[1..];
    assert forall k :: 0 <= k < |rest| ==> rest[k] == cs[k + 1];
  }

  /** What makes later children optional is outside a set that they are off. */
  lemma SpineMember(g: Graph, cs: seq<Id>, spine: seq<Id>, x: Id, visited: set<Id>)
    requires cs != [] && AreSpines(g, cs[1..], spine) && x in spine
    requires forall q :: 0 < q < |cs| ==> Off(g, cs[q], visited)
    ensures x !in visited
  {
    hide Off;
    assert forall q :: 0 <= q < |cs[1..]| ==> cs[1..][q] == cs[q + 1];
    OffSpines(g, cs[1..], spine, x, visited);
  }

  lemma {:induction false} OffSpines(g: Graph, cs: seq<Id>, spine: seq<Id>, x: Id, visited: set<Id>)
    requires AreSpines(g, cs, spine) && x in spine && forall q :: 0 <= q < |cs| ==> Off(g, cs[q], visited)
    ensures x !in visited
    decreases |cs|
  {
    hide IsSpine;
    if cs != [] {
      var k :| 0 < k <= |spine| && IsSpine(g, cs[0], spine[..k]) && AreSpines(g, cs[1..], spine[k..]);
      assert spine == spine[..k] + spine[k..];
      assert Off(g, cs[0], visited);
      if x in spine[k..] {
        assert forall q :: 0 <= q < |cs[1..]| ==> cs[1..][q] == cs[q + 1];
        OffSpines(g, cs[1..], spine[k..], x, visited);
      }
    }
  }

  /** What makes the children optional has not been visited. */
  ghost predicate Clear(g: Graph, cs: seq<Id>, seen: set<Id>) {
    forall q :: 0 <= q < |cs| ==> Off(g, cs[q], seen)
  }

  /** On an ordinary graph the remaining children are skipped exactly if all of them are
      optional by their shape. */
  lemma SkippedIffOptional(g: Graph, a: Analysis, cs: seq<Id>, seen: set<Id>)
    requires Closed(g) && Ordinary(g, a) && AllBelow(cs, |g|)
    requires Apart(g, cs, a.reach) && Clear(g, cs, seen)
    ensures SkippedAll(g, cs, seen) <==> AllOptional(g, cs)
  {
    hide Ordinary, Visit, AreSpines, FirstTime, AllOptional, Apart, Off;
    if SkippedAll(g, cs, seen) {
      var spine :| AreSpines(g, cs, spine) && FirstTime(g, spine, seen);
      SpinesAreOptional(g, cs, spine);
    }
    if AllOptional(g, cs) {
      var spine := SpinesExist(g, cs);
      forall x | x in spine ensures x !in seen {
        OffSpines(g, cs, spine, x, seen);
      }
      SpinesAreNew(g, a, cs, spine, seen);
    }
  }

  /** Matching the first child leaves the others clear. */
  lemma ClearTail(w: Setting, a: Analysis, cs: seq<Id>, added: set<Id>, m: nat)
    requires w.Valid() && Ordinary(w.g, a) && AllBelow(cs, |w.g|) && cs != []
    requires Apart(w.g, cs, a.reach) && Clear(w.g, cs, added)
    ensures Apart(w.g, cs[1..], a.reach) && Clear(w.g, cs[1..], AddedBy(w, cs[0], added, m))
  {
    hide Ordinary, Visit, Off, Apart, Reaches;
    var rest, id := cs[1..], cs[0];
    ApartTail(w.g, cs, a.reach);
    OrdinaryMeans(w.g, a, id);
    if w.g[id].Repeat? {
      assert Reaches(w.g, id, a.reach);
      ReachesChildren(w.g, id, a.reach);
      VisitReaches(w.g, a, w.g[id].child, added);
    }
    forall q | 0 <= q < |rest| ensures Off(w.g, rest[q], AddedBy(w, id, added, m)) {
      assert rest[q] == cs[q + 1];
      OffUnion(w.g, rest[q], added, a.reach(id), AddedBy(w, id, added, m));
    }
  }

  lemma OffUnion(g: Graph, id: Id, a: set<Id>, b: set<Id>, c: set<Id>)
    requires Off(g, id, a) && Off(g, id, b) && c <= a + b
    ensures Off(g, id, c)
  {
    hide IsSpine;
  }

  // ----- The end of the input -----

  /** At the end of the input, only what is optional by its shape parses, and it does. */
  lemma {:induction false} EndParses(w: Setting, a: Analysis, id: Id, j: nat, n: nat)
    requires w.Valid() && Ordinary(w.g, a) && id < |w.g|
    ensures Parses(w, id, |w.tokens|, j, n) ==> j == |w.tokens| && StructurallyOptional(w.g, id)
    ensures Rejects(w, id, |w.tokens|, n) ==> !StructurallyOptional(w.g, id)
    decreases n, 0
  {
    hide Ordinary, StructurallyOptional, ParsesMore;
    OrdinaryMeans(w.g, a, id);
    OptionalShape(w.g, id);
    if n > 0 {
      match w.g[id] {
        case List(cs) => EndParsesSeq(w, a, cs, j, n - 1);
        case Choice(cs) =>
          forall k | 0 <= k < |cs| ensures !Parses(w, cs[k], |w.tokens|, j, n - 1) {
            EndParses(w, a, cs[k], j, n - 1);
          }
        case Optional(c) => EndParses(w, a, c, j, n - 1);
        case Repeat(c) => EndRepeats(w, a, id, j, n - 1);
        case _ =>
      }
    }
  }

  lemma {:induction false} EndRepeats(w: Setting, a: Analysis, id: Id, j: nat, n: nat)
    requires w.Valid() && Ordinary(w.g, a) && id < |w.g| && w.g[id].Repeat?
    ensures !ParsesAgain(w, w.g[id].child, |w.tokens|, j, n)
    decreases n, 1
  {
    hide Ordinary, ParsesMore, Parses;
    var c := w.g[id].child;
    forall m: nat ensures !Parses(w, c, |w.tokens|, m, n) {
      EndParses(w, a, c, m, n);
      RepeatedIsNotOptional(w.g, a, id);
    }
  }

  lemma RepeatedIsNotOptional(g: Graph, a: Analysis, id: Id)
    requires Ordinary(g, a) && id < |g| && g[id].Repeat?
    ensures !StructurallyOptional(g, g[id].child)
  {
    hide IsSpine;
    assert Descends(g[id], a.nullable, a.rank, a.rank(id));
    if spine :| IsSpine(g, g[id].child, spine) {
      SpineRanks(g, a, g[id].child, spine);
    }
  }

  lemma {:induction false} EndParsesSeq(w: Setting, a: Analysis, cs: seq<Id>, j: nat, n: nat)
    requires w.Valid() && Ordinary(w.g, a) && AllBelow(cs, |w.g|)
    ensures ParsesSeq(w, cs, |w.tokens|, j, n) ==> j == |w.tokens| && AllOptional(w.g, cs)
    ensures RejectsSeq(w, cs, |w.tokens|, n) ==> !AllOptional(w.g, cs)
    decreases n, |cs| + 1
  {
    hide Ordinary, StructurallyOptional;
    if cs != [] {
      var rest := cs[1..];
      assert forall q :: 0 < q < |cs| ==> cs[q] == rest[q - 1];
      assert forall q :: 0 <= q < |rest| ==> rest[q] == cs[q + 1];
      EndParses(w, a, cs[0], 0, n);
      EndParsesSeq(w, a, rest, j, n);
      if ParsesSeq(w, cs, |w.tokens|, j, n) {
        var m := ParsesFirst(w, cs, |w.tokens|, j, n);
        EndParses(w, a, cs[0], m, n);
      }
      if RejectsSeq(w, cs, |w.tokens|, n) && !Rejects(w, cs[0], |w.tokens|, n) {
        var m := RejectsLater(w, cs, |w.tokens|, n);
        EndParses(w, a, cs[0], m, n);
      }
    }
  }

  /** With enough height the end of the input is decided. */
  lemma {:induction false} EndDecides(w: Setting, a: Analysis, id: Id, n: nat)
    requires w.Valid() && Ordinary(w.g, a) && id < |w.g| && n > a.rank(id)
    ensures if StructurallyOptional(w.g, id) then Parses(w, id, |w.tokens|, |w.tokens|, n)
            else Rejects(w, id, |w.tokens|, n)
    decreases n, 0
  {
    hide Ordinary, StructurallyOptional;
    OrdinaryMeans(w.g, a, id);
    assert Descends(w.g[id], a.nullable, a.rank, a.rank(id));
    OptionalShape(w.g, id);
    match w.g[id] {
      case List(cs) => EndDecidesSeq(w, a, cs, a.rank(id), n - 1);
      case Choice(cs) =>
        forall k | 0 <= k < |cs| ensures Rejects(w, cs[k], |w.tokens|, n - 1) {
          EndDecides(w, a, cs[k], n - 1);
        }
      case Optional(c) => EndDecides(w, a, c, n - 1);
      case Repeat(c) =>
        EndDecides(w, a, c, n - 1);
        RepeatedIsNotOptional(w.g, a, id);
      case _ =>
    }
  }

  lemma {:induction false} EndDecidesSeq(w: Setting, a: Analysis, cs: seq<Id>, bound: nat, n: nat)
    requires w.Valid() && Ordinary(w.g, a) && AllBelow(cs, |w.g|)
    requires LeadsBelow(cs, a.nullable, a.rank, bound) && n >= bound
    ensures if AllOptional(w.g, cs) then ParsesSeq(w, cs, |w.tokens|, |w.tokens|, n)
            else RejectsSeq(w, cs, |w.tokens|, n)
    decreases n, |cs| + 1
  {
    hide Ordinary, StructurallyOptional, Parses, Rejects;
    if cs != [] {
      assert a.rank(cs[0]) < bound;
      EndDecides(w, a, cs[0], n);
      assert forall q :: 0 < q < |cs| ==> cs[q] == cs[1..][q - 1];
      assert forall q :: 0 <= q < |cs[1..]| ==> cs[1..][q] == cs[q + 1];
      if StructurallyOptional(w.g, cs[0]) {
        OptionalIsNullable(w.g, a, cs[0]);
        LeadsTail(cs, a.nullable, a.rank, bound);
        EndDecidesSeq(w, a, cs[1..], bound, n);
      }
    }
  }

  lemma OptionalIsNullable(g: Graph, a: Analysis, id: Id)
    requires Ordinary(g, a) && StructurallyOptional(g, id)
    ensures id in a.nullable
  {
    var spine :| IsSpine(g, id, spine);
    SpineRanks(g, a, id, spine);
  }

  // ----- Agreement -----

  /** The height that decides the end of the input. */
  ghost function Extra(a: Analysis): nat {
    a.top + 1
  }

  lemma {:induction false} PicksParses(w: Setting, a: Analysis, id: Id, i: nat, j: nat, n: nat)
    requires w.Valid() && Ordinary(w.g, a) && id < |w.g|
    ensures Picks(w, id, i, j, n) ==> Parses(w, id, i, j, n + Extra(a))
    ensures Refuses(w, id, i, n) ==> Rejects(w, id, i, n + Extra(a))
    decreases n, 0
  {
    hide Ordinary, Visit, SkippedAll;
    if n > 0 {
      match w.g[id] {
        case List(cs) =>
          OrdinaryMeans(w.g, a, id);
          PicksParsesSeq(w, a, cs, {}, i, j, n - 1);
        case Choice(cs) =>
          forall k | 0 <= k < |cs|
            ensures Picks(w, cs[k], i, j, n - 1) ==> Parses(w, cs[k], i, j, n - 1 + Extra(a))
            ensures Refuses(w, cs[k], i, n - 1) ==> Rejects(w, cs[k], i, n - 1 + Extra(a))
          {
            PicksParses(w, a, cs[k], i, j, n - 1);
          }
        case Optional(c) => PicksParses(w, a, c, i, j, n - 1);
        case Repeat(c) =>
          PicksParses(w, a, c, i, j, n - 1);
          PicksParsesAgain(w, a, id, i, j, n - 1);
        case _ =>
      }
    }
  }

  lemma {:induction false} PicksParsesSeq(w: Setting, a: Analysis, cs: seq<Id>, added: set<Id>, i: nat, j: nat, n: nat)
    requires w.Valid() && Ordinary(w.g, a) && AllBelow(cs, |w.g|)
    requires Apart(w.g, cs, a.reach) && Clear(w.g, cs, added)
    ensures PicksSeq(w, cs, added, i, j, n) ==> ParsesSeq(w, cs, i, j, n + Extra(a))
    ensures RefusesSeq(w, cs, added, i, n) ==> RejectsSeq(w, cs, i, n + Extra(a))
    decreases n, |cs| + 1
  {
    hide Ordinary, Visit, SkippedAll, Apart, Clear, AllOptional;
    if cs != [] {
      if i == |w.tokens| {
        SkippedIffOptional(w.g, a, cs, added);
        AllRanked(w.g, a, cs);
        EndDecidesSeq(w, a, cs, a.top, n + Extra(a));
      } else {
        PicksParses(w, a, cs[0], i, 0, n);
        if PicksSeq(w, cs, added, i, j, n) {
          var m := PicksFirst(w, cs, added, i, j, n);
          PicksParses(w, a, cs[0], i, m, n);
          ClearTail(w, a, cs, added, m);
          PicksParsesSeq(w, a, cs[1..], AddedBy(w, cs[0], added, m), m, j, n);
        }
        if RefusesSeq(w, cs, added, i, n) && !Refuses(w, cs[0], i, n) {
          var m := RefusesLater(w, cs, added, i, n);
          PicksParses(w, a, cs[0], i, m, n);
          ClearTail(w, a, cs, added, m);
          PicksParsesSeq(w, a, cs[1..], AddedBy(w, cs[0], added, m), m, j, n);
        }
      }
    }
  }

  lemma AllRanked(g: Graph, a: Analysis, cs: seq<Id>)
    requires Ordinary(g, a) && AllBelow(cs, |g|)
    ensures LeadsBelow(cs, a.nullable, a.rank, a.top)
  {
  }

  lemma PicksFirst(w: Setting, cs: seq<Id>, added: set<Id>, i: nat, j: nat, n: nat) returns (m: nat)
    requires w.Valid() && AllBelow(cs, |w.g|) && cs != [] && i != |w.tokens| && PicksSeq(w, cs, added, i, j, n)
    ensures Picks(w, cs[0], i, m, n) && PicksSeq(w, cs[1..], AddedBy(w, cs[0], added, m), m, j, n)
  {
    m :| Picks(w, cs[0], i, m, n) && PicksSeq(w, cs[1..], AddedBy(w, cs[0], added, m), m, j, n);
  }

  lemma RefusesLater(w: Setting, cs: seq<Id>, added: set<Id>, i: nat, n: nat) returns (m: nat)
    requires w.Valid() && AllBelow(cs, |w.g|) && i != |w.tokens|
    requires RefusesSeq(w, cs, added, i, n) && !Refuses(w, cs[0], i, n)
    ensures Picks(w, cs[0], i, m, n) && RefusesSeq(w, cs[1..], AddedBy(w, cs[0], added, m), m, n)
  {
    m :| Picks(w, cs[0], i, m, n) && RefusesSeq(w, cs[1..], AddedBy(w, cs[0], added, m), m, n);
  }

  lemma PicksOnce(w: Setting, c: Id, i: nat, j: nat, n: nat) returns (m: nat)
    requires w.Valid() && c < |w.g| && PicksAgain(w, c, i, j, n)
    ensures Picks(w, c, i, m, n) && PicksMore(w, c, m, j, n)
  {
    m :| Picks(w, c, i, m, n) && PicksMore(w, c, m, j, n);
  }

  lemma ParsesOnce(w: Setting, c: Id, i: nat, j: nat, n: nat) returns (m: nat)
    requires w.Valid() && c < |w.g| && ParsesAgain(w, c, i, j, n)
    ensures Parses(w, c, i, m, n) && ParsesMore(w, c, m, j, n)
  {
    m :| Parses(w, c, i, m, n) && ParsesMore(w, c, m, j, n);
  }

  lemma {:induction false} PicksParsesAgain(w: Setting, a: Analysis, id: Id, i: nat, j: nat, n: nat)
    requires w.Valid() && Ordinary(w.g, a) && id < |w.g| && w.g[id].Repeat?
    ensures PicksAgain(w, w.g[id].child, i, j, n) ==> ParsesAgain(w, w.g[id].child, i, j, n + Extra(a))
    decreases n, 2
  {
    hide Ordinary, Parses, Picks, ParsesMore, PicksMore;
    var c := w.g[id].child;
    if PicksAgain(w, c, i, j, n) {
      var m := PicksOnce(w, c, i, j, n);
      PicksParses(w, a, c, i, m, n);
      PicksParsesMore(w, a, id, m, j, n);
    }
  }

  lemma {:induction false} PicksParsesMore(w: Setting, a: Analysis, id: Id, i: nat, j: nat, n: nat)
    requires w.Valid() && Ordinary(w.g, a) && id < |w.g| && w.g[id].Repeat?
    ensures PicksMore(w, w.g[id].child, i, j, n) ==> ParsesMore(w, w.g[id].child, i, j, n + Extra(a))
    decreases n, 1
  {
    hide Ordinary, Parses, Picks, Rejects, Refuses, ParsesAgain, PicksAgain, StructurallyOptional;
    var c := w.g[id].child;
    if i == |w.tokens| {
      RepeatedIsNotOptional(w.g, a, id);
      AllRanked(w.g, a, [c]);
      assert a.rank([c][0]) < a.top;
      EndDecides(w, a, c, n + Extra(a) - 1);
    } else if n > 0 {
      PicksParses(w, a, c, i, j, n - 1);
      PicksParsesAgain(w, a, id, i, j, n - 1);
    }
  }

  lemma {:induction false} ParsesPicks(w: Setting, a: Analysis, id: Id, i: nat, j: nat, n: nat)
    requires w.Valid() && Ordinary(w.g, a) && id < |w.g| && i < |w.tokens|
    ensures Parses(w, id, i, j, n) ==> Picks(w, id, i, j, n)
    ensures Rejects(w, id, i, n) ==> Refuses(w, id, i, n)
    decreases n, 0
  {
    hide Ordinary, Visit, SkippedAll;
    if n > 0 {
      match w.g[id] {
        case List(cs) =>
          OrdinaryMeans(w.g, a, id);
          ParsesPicksSeq(w, a, cs, {}, i, j, n - 1);
        case Choice(cs) =>
          forall k | 0 <= k < |cs|
            ensures Parses(w, cs[k], i, j, n - 1) ==> Picks(w, cs[k], i, j, n - 1)
            ensures Rejects(w, cs[k], i, n - 1) ==> Refuses(w, cs[k], i, n - 1)
          {
            ParsesPicks(w, a, cs[k], i, j, n - 1);
          }
        case Optional(c) => ParsesPicks(w, a, c, i, j, n - 1);
        case Repeat(c) =>
          ParsesPicks(w, a, c, i, j, n - 1);
          ParsesPicksAgain(w, a, id, i, j, n - 1);
        case _ =>
      }
    }
  }

  lemma {:induction false} ParsesPicksSeq(w: Setting, a: Analysis, cs: seq<Id>, added: set<Id>, i: nat, j: nat, n: nat)
    requires w.Valid() && Ordinary(w.g, a) && AllBelow(cs, |w.g|)
    requires Apart(w.g, cs, a.reach) && Clear(w.g, cs, added)
    ensures ParsesSeq(w, cs, i, j, n) ==> PicksSeq(w, cs, added, i, j, n)
    ensures RejectsSeq(w, cs, i, n) ==> RefusesSeq(w, cs, added, i, n)
    decreases n, |cs| + 1
  {
    hide Ordinary, Visit, SkippedAll, Apart, Clear, AllOptional;
    if cs != [] {
      if i == |w.tokens| {
        SkippedIffOptional(w.g, a, cs, added);
        EndParsesSeq(w, a, cs, j, n);
      } else if i < |w.tokens| {
        ParsesPicks(w, a, cs[0], i, 0, n);
        if ParsesSeq(w, cs, i, j, n) {
          var m := ParsesFirst(w, cs, i, j, n);
          ParsesPicks(w, a, cs[0], i, m, n);
          ClearTail(w, a, cs, added, m);
          ParsesPicksSeq(w, a, cs[1..], AddedBy(w, cs[0], added, m), m, j, n);
        }
        if RejectsSeq(w, cs, i, n) && !Rejects(w, cs[0], i, n) {
          var m := RejectsLater(w, cs, i, n);
          ParsesPicks(w, a, cs[0], i, m, n);
          ClearTail(w, a, cs, added, m);
          ParsesPicksSeq(w, a, cs[1..], AddedBy(w, cs[0], added, m), m, j, n);
        }
      } else {
        NoneBeyond(w, cs, i, j, n);
      }
    }
  }

  lemma NoneBeyond(w: Setting, cs: seq<Id>, i: nat, j: nat, n: nat)
    requires w.Valid() && AllBelow(cs, |w.g|) && cs != [] && i > |w.tokens|
    ensures !ParsesSeq(w, cs, i, j, n) && !RejectsSeq(w, cs, i, n)
  {
  }

  lemma {:induction false} ParsesPicksAgain(w: Setting, a: Analysis, id: Id, i: nat, j: nat, n: nat)
    requires w.Valid() && Ordinary(w.g, a) && id < |w.g| && w.g[id].Repeat? && i < |w.tokens|
    ensures ParsesAgain(w, w.g[id].child, i, j, n) ==> PicksAgain(w, w.g[id].child, i, j, n)
    decreases n, 2
  {
    hide Ordinary, Parses, Picks, ParsesMore, PicksMore;
    var c := w.g[id].child;
    if ParsesAgain(w, c, i, j, n) {
      var m := ParsesOnce(w, c, i, j, n);
      ParsesPicks(w, a, c, i, m, n);
      ParsesPicksMore(w, a, id, m, j, n);
    }
  }

  lemma {:induction false} ParsesPicksMore(w: Setting, a: Analysis, id: Id, i: nat, j: nat, n: nat)
    requires w.Valid() && Ordinary(w.g, a) && id < |w.g| && w.g[id].Repeat?
    ensures ParsesMore(w, w.g[id].child, i, j, n) ==> PicksMore(w, w.g[id].child, i, j, n)
    decreases n, 1
  {
    hide Ordinary, Picks, Refuses, ParsesAgain, PicksAgain, StructurallyOptional;
    var c := w.g[id].child;
    if n > 0 {
      if i < |w.tokens| {
        ParsesPicks(w, a, c, i, j, n - 1);
        ParsesPicksAgain(w, a, id, i, j, n - 1);
      } else if i == |w.tokens| {
        EndRepeats(w, a, id, j, n - 1);
      } else {
        NothingBeyond(w, c, i, j, n - 1);
      }
    }
  }

  lemma NothingBeyond(w: Setting, c: Id, i: nat, j: nat, n: nat)
    requires w.Valid() && c < |w.g| && i > |w.tokens|
    ensures !ParsesAgain(w, c, i, j, n) && !Rejects(w, c, i, n)
  {
  }

  /** On an ordinary graph Match is an ordinary parser: it succeeds and fails exactly where the
      parsing expressions do. */
  lemma MatchIsPeg(w: Setting, a: Analysis, id: Id, s: State, j: nat)
    requires w.Valid() && Ordinary(w.g, a) && id < |w.g| && s.index < |w.tokens|
    ensures (exists n :: Succeeds(Match(w, id, s, n), j)) <==> (exists n :: Parses(w, id, s.index, j, n))
    ensures (exists n :: Fails(Match(w, id, s, n))) <==> (exists n :: Rejects(w, id, s.index, n))
  {
    hide Ordinary, Match, Picks, Refuses, Parses, Rejects;
    if n :| Succeeds(Match(w, id, s, n), j) {
      MatchIsOrdered(w, id, s, j, n);
      PicksParses(w, a, id, s.index, j, n);
    }
    if n :| Parses(w, id, s.index, j, n) {
      ParsesPicks(w, a, id, s.index, j, n);
      MatchIsOrdered(w, id, s, j, n);
    }
    if n :| Fails(Match(w, id, s, n)) {
      MatchIsOrdered(w, id, s, j, n);
      PicksParses(w, a, id, s.index, j, n);
    }
    if n :| Rejects(w, id, s.index, n) {
      ParsesPicks(w, a, id, s.index, j, n);
      MatchIsOrdered(w, id, s, j, n);
    }
  }

  /** The graph of the rule `E <- 'x' ('+' E)?`, which refers to itself. */
  const RECURSIVE: Graph := [List([1, 2]), Keyword("x"), Optional(3), List([4, 0]), Keyword("+")]

  const ANALYSIS := Analysis({2}, RankIn, 3, ReachIn)

  function RankIn(id: Id): nat {
    if id == 2 then 2 else if id == 0 || id == 3 then 1 else 0
  }

  function ReachIn(id: Id): set<Id> {
    if id == 0 then {0, 1} else if id == 2 then {2, 3, 4} else if id == 3 then {3, 4} else {id}
  }

  /** Recursive grammars can be ordinary. */
  lemma RecursiveIsOrdinary()
    ensures Closed(RECURSIVE) && Ordinary(RECURSIVE, ANALYSIS)
  {
    hide WellFounded, Reaches, Apart, StructurallyOptional;
    RecursiveIsWellFounded();
    forall id: Id | id < |RECURSIVE|
      ensures Reaches(RECURSIVE, id, ReachIn)
      ensures RECURSIVE[id].List? ==> Apart(RECURSIVE, RECURSIVE[id].children, ReachIn)
    {
      RecursiveReaches(id);
      RecursiveIsApart(id);
    }
  }

  lemma RecursiveReaches(id: Id)
    requires id < |RECURSIVE|
    ensures Reaches(RECURSIVE, id, ReachIn)
  {
    hide StructurallyOptional;
    NotOptional(RECURSIVE, 1);
    NotOptional(RECURSIVE, 4);
    assert [1, 2][0] == 1 && [4, 0][0] == 4;
  }

  lemma RecursiveIsApart(id: Id)
    requires id < |RECURSIVE|
    ensures RECURSIVE[id].List? ==> Apart(RECURSIVE, RECURSIVE[id].children, ReachIn)
  {
    hide StructurallyOptional, IsSpine;
    OffOptional(RECURSIVE, 2, ReachIn(1));
    NotOptional(RECURSIVE, 1);
    OptionalShape(RECURSIVE, 0);
    assert [1, 2][0] == 1;
    OffAlways(RECURSIVE, 0, ReachIn(4));
  }

  lemma OffAlways(g: Graph, id: Id, visited: set<Id>)
    requires !StructurallyOptional(g, id)
    ensures Off(g, id, visited)
  {
  }

  lemma RecursiveIsWellFounded()
    ensures WellFounded(RECURSIVE, {2}, RankIn, 3)
  {
    var g, nullable: set<Id> := RECURSIVE, {2};
    forall id: Id | id < |g|
      ensures MayConsumeNothing(g[id], nullable) ==> id in nullable
      ensures RankIn(id) < 3 && Descends(g[id], nullable, RankIn, RankIn(id))
    {
      assert [1, 2][0] == 1 && [4, 0][0] == 4;
      assert id == 0 || id == 1 || id == 2 || id == 3 || id == 4;
    }
  }

  lemma NotOptional(g: Graph, id: Id)
    requires id < |g| && !g[id].Optional? && !g[id].List?
    ensures !StructurallyOptional(g, id)
  {
  }

  lemma OffOptional(g: Graph, id: Id, visited: set<Id>)
    requires id < |g| && g[id].Optional? && id !in visited
    ensures Off(g, id, visited)
  {
  }
}
