/** The matcher graph (matcher.hpp, matcher.cpp) and the language it stands for.

    A matcher is a node of a graph that may be cyclic, since a grammar rule may
    refer to itself; nodes are named by their position in the allocator's vector. */
module Matcher {
  import opened Text

  type Id = nat

  /** The SuggestionState values that the factory gives to identifier matchers. */
  datatype Identifier =
    | Variable | CatalogName | SchemaName | TableName | TypeName | ColumnName
    | FileName | ScalarFunctionName | TableFunctionName | PragmaName | SettingName

  datatype Node =
    | Keyword(keyword: string)
    | Name(kind: Identifier)
    | ReservedName(kind: Identifier)
    | StringLiteral
    | NumberLiteral
    | Operator
    | List(children: seq<Id>)
    | Choice(children: seq<Id>)
    | Optional(child: Id)
    | Repeat(child: Id)
  {
    predicate Inner() {
      List? || Choice? || Optional? || Repeat?
    }

    /** Every edge of this node leads to one of the first n nodes. */
    predicate Within(n: nat) {
      match this
      case List(cs) => AllBelow(cs, n)
      case Choice(cs) => AllBelow(cs, n)
      case Optional(c) => c < n
      case Repeat(c) => c < n
      case _ => true
    }
  }

  predicate AllBelow(cs: seq<Id>, n: nat) {
    forall k :: 0 <= k < |cs| ==> cs[k] < n
  }

  type Graph = seq<Node>

  function Copies<T>(c: T, k: nat): (cs: seq<T>)
    ensures |cs| == k
  {
    seq(k, _ => c)
  }

  /** Every edge leads to a node of the graph. */
  predicate Closed(g: Graph) {
    forall id :: 0 <= id < |g| ==> g[id].Within(|g|)
  }

  /** KeywordHelper: the four keyword lists, in lower case. */
  datatype Keywords = Keywords(reserved: set<string>, unreserved: set<string>,
                               typeFunc: set<string>, colName: set<string>)

  predicate SupportsStringLiteral(kind: Identifier) {
    kind.TableName? || kind.FileName?
  }

  predicate Delimited(text: string, quote: char) {
    text != [] && text[0] == quote && text[|text| - 1] == quote
  }

  /** IdentifierMatcher::IsIdentifier */
  predicate IsIdentifier(kind: Identifier, text: string) {
    && text != []
    && ( || (Delimited(text, '\'') && SupportsStringLiteral(kind))
         || Delimited(text, '"')
         || IsKeyword(text[0]))
  }

  /** The keyword test of IdentifierMatcher::Match. */
  predicate Banned(kw: Keywords, kind: Identifier, text: string) {
    var word := Lower(text);
    var bansColumnNames := kind.ScalarFunctionName? || kind.TableFunctionName?;
    var banned := word in kw.reserved || word in (if bansColumnNames then kw.colName else kw.typeFunc);
    var allowed := word in kw.unreserved || word in (if bansColumnNames then kw.typeFunc else kw.colName);
    if kind.TypeName? then banned else banned && !allowed
  }

  /** Whether a leaf matcher accepts a token: the body of each leaf's Match. */
  predicate Accepts(kw: Keywords, node: Node, text: string)
    requires !node.Inner()
  {
    match node
    case Keyword(k) => EqualsIgnoreCase(k, text)
    case Name(kind) => !Banned(kw, kind, text) && IsIdentifier(kind, text)
    case ReservedName(kind) => IsIdentifier(kind, text)
    case StringLiteral => |text| >= 2 && Delimited(text, '\'')
    case NumberLiteral =>
      text != [] && IsInitialNumber(text[0]) && forall i :: 1 <= i < |text| ==> IsNumber(text[i])
    case Operator => forall i :: 0 <= i < |text| ==> text[i] in "+-*/%^<>=~!@&|"
  }

  /** A matcher graph together with the statement it is run on. */
  datatype Setting = Setting(g: Graph, kw: Keywords, tokens: seq<string>) {

    predicate Valid() {
      Closed(g)
    }

    /** tokens[i..j] has a derivation of height at most n from a node. */
    ghost predicate Derives(id: Id, i: nat, j: nat, n: nat)
      decreases n, 0
    {
      && id < |g|
      && i <= j <= |tokens|
      && n > 0
      && match g[id] {
           case List(cs) => DerivesSeq(cs, i, j, n - 1)
           case Choice(cs) => exists k :: 0 <= k < |cs| && Derives(cs[k], i, j, n - 1)
           case Optional(c) => i == j || Derives(c, i, j, n - 1)
           case Repeat(c) => exists k: nat :: k > 0 && DerivesSeq(Copies(c, k), i, j, n - 1)
           case leaf => j == i + 1 && Accepts(kw, leaf, tokens[i])
         }
    }

    /** tokens[i..j] splits into consecutive pieces derived from the given nodes. */
    ghost predicate DerivesSeq(cs: seq<Id>, i: nat, j: nat, n: nat)
      decreases n, |cs| + 1
    {
      if cs == [] then i == j
      else exists m :: Derives(cs[0], i, m, n) && DerivesSeq(cs[1..], m, j, n)
    }

    /** The derivation relation of the graph. */
    ghost predicate Derivable(id: Id, i: nat, j: nat) {
      exists n :: Derives(id, i, j, n)
    }

    lemma {:induction false} DerivesMonotone(id: Id, i: nat, j: nat, n: nat, n': nat)
      requires Derives(id, i, j, n) && n <= n'
      ensures Derives(id, i, j, n')
      decreases n, 0
    {
      match g[id] {
        case List(cs) => DerivesSeqMonotone(cs, i, j, n - 1, n' - 1);
        case Choice(cs) =>
          var k :| 0 <= k < |cs| && Derives(cs[k], i, j, n - 1);
          DerivesMonotone(cs[k], i, j, n - 1, n' - 1);
        case Optional(c) =>
          if i != j { DerivesMonotone(c, i, j, n - 1, n' - 1); }
        case Repeat(c) =>
          var k: nat :| k > 0 && DerivesSeq(Copies(c, k), i, j, n - 1);
          DerivesSeqMonotone(Copies(c, k), i, j, n - 1, n' - 1);
        case _ =>
      }
    }

    lemma {:induction false} DerivesSeqMonotone(cs: seq<Id>, i: nat, j: nat, n: nat, n': nat)
      requires DerivesSeq(cs, i, j, n) && n <= n'
      ensures DerivesSeq(cs, i, j, n')
      decreases n, |cs| + 1
    {
      if cs != [] {
        var m :| Derives(cs[0], i, m, n) && DerivesSeq(cs[1..], m, j, n);
        DerivesMonotone(cs[0], i, m, n, n');
        DerivesSeqMonotone(cs[1..], m, j, n, n');
      }
    }

    /** A derived sequence can be extended by one more piece on the right. */
    lemma {:induction false} DerivesSnoc(cs: seq<Id>, c: Id, i: nat, m: nat, j: nat, n: nat)
      requires DerivesSeq(cs, i, m, n) && Derives(c, m, j, n)
      ensures DerivesSeq(cs + [c], i, j, n)
      decreases |cs|
    {
      var all := cs + [c];
      if cs == [] {
        assert all[1..] == [];
        assert DerivesSeq(all[1..], j, j, n);
      } else {
        var l :| Derives(cs[0], i, l, n) && DerivesSeq(cs[1..], l, m, n);
        DerivesSnoc(cs[1..], c, l, m, j, n);
        assert all[1..] == cs[1..] + [c];
      }
    }
  }
}
