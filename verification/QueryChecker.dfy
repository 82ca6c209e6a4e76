/** CheckPEGParserBind (autocomplete_extension.cpp:630-680) from the bytes of a query to its
    verdict: Unicode spaces are replaced, the text is tokenized, and every statement is matched. */
module QueryChecker {
  import opened Grammar
  import opened GrammarMeaning
  import opened MatcherFactory
  import Matcher
  import MatchRun
  import Checker
  import Tokenizer
  import TokenizerStatements
  import UnicodeSpaces

  /** The characters that the tokenizer reads are bytes. */
  function AsText(bytes: seq<UnicodeSpaces.byte>): (text: string)
    ensures |text| == |bytes|
  {
    seq(|bytes|, i requires 0 <= i < |bytes| => bytes[i] as char)
  }

  /** The text that is tokenized. */
  function TextOf(query: seq<UnicodeSpaces.byte>): string {
    AsText(UnicodeSpaces.Rewrite(UnicodeSpaces.Regular, query))
  }

  /** The text does not end in a comment. */
  predicate Complete(sql: string) {
    var mode := Tokenizer.Run(sql, Tokenizer.START).final.mode;
    !mode.SingleLineComment? && !mode.MultiLineComment?
  }

  /** The statements of the text; the last one ends with the last word. */
  function Statements(sql: string): seq<seq<string>> {
    var out := Tokenizer.Run(sql, Tokenizer.START);
    var c := Tokenizer.Collect(out.events, Tokenizer.Collected([], []));
    var word := Tokenizer.LastWord(sql, out.final);
    c.statements + [if word != [] then c.tokens + [word] else c.tokens]
  }

  /** A text of written statements is complete, and its statements are those that were written. */
  lemma WrittenStatements(parts: seq<TokenizerStatements.Part>)
    requires TokenizerStatements.AllSound(parts) && TokenizerStatements.AllApart(parts, "")
    ensures var sql := TokenizerStatements.WriteAll(parts, "");
            var written := TokenizerStatements.Gather(parts, Tokenizer.Collected([], []));
            Complete(sql) && Statements(sql) == written.statements + [written.tokens]
  {
    hide Tokenizer.Run, TokenizerStatements.WriteAll, TokenizerStatements.Gather, Tokenizer.Collect;
    TokenizerStatements.TokenizeStatements(parts);
  }

  /** A text that ends inside a comment is not complete. */
  lemma CommentIsIncomplete(parts: seq<TokenizerStatements.Part>, block: bool, text: string)
    requires TokenizerStatements.AllSound(parts)
    requires TokenizerStatements.AllApart(parts, (if block then "/*" else "--") + text)
    requires if block then forall k :: 0 <= k < |text| ==> !TokenizerStatements.ClosesBlock(text, k)
             else forall k :: 0 <= k < |text| ==> text[k] != '\n' && text[k] != '\r'
    ensures !Complete(TokenizerStatements.WriteAll(parts, (if block then "/*" else "--") + text))
  {
    hide Tokenizer.Run, TokenizerStatements.WriteAll;
    TokenizerStatements.OpenCommentIsRead(parts, block, text);
  }

  /** The two scanners agree on quotes, on line ends, on the letters of a dollar tag, and on the
      dollar, the dash and the space; only the first of them takes digits in a tag. */
  lemma ScannersAgree(b: UnicodeSpaces.byte)
    ensures UnicodeSpaces.IsQuote(b) <==> b as char == '\'' || b as char == '"'
    ensures UnicodeSpaces.IsLineEnd(b) <==> b as char == '\n' || b as char == '\r'
    ensures UnicodeSpaces.IsTagStart(b) <==> Tokenizer.IsTagCharacter(b as char)
    ensures UnicodeSpaces.IsTagPart(b) <==> Tokenizer.IsTagCharacter(b as char) || '0' <= b as char <= '9'
    ensures AsText([UnicodeSpaces.DOLLAR, UnicodeSpaces.DASH, UnicodeSpaces.SPACE]) == "$- "
  {
  }

  /** Every statement that is not empty is accepted. */
  ghost predicate AllAccepted(g: Matcher.Graph, kw: Matcher.Keywords, statements: seq<seq<string>>, root: Matcher.Id,
      fuel: nat)
    requires Matcher.Closed(g) && root < |g|
  {
    forall k :: 0 <= k < |statements| && statements[k] != [] ==> Checker.Accepts(g, kw, statements[k], root, fuel)
  }

  /** The matches of all statements finish. */
  ghost predicate AllFinish(g: Matcher.Graph, kw: Matcher.Keywords, statements: seq<seq<string>>, root: Matcher.Id,
      fuel: nat)
    requires Matcher.Closed(g) && root < |g|
  {
    forall k :: 0 <= k < |statements| && statements[k] != [] ==>
      MatchRun.Match(Matcher.Setting(g, kw, statements[k]), root, Checker.START, fuel).Finished?
  }

  /** The statements of a query, unless its text ends in a comment. */
  method ReadStatements(query: seq<UnicodeSpaces.byte>) returns (complete: bool, statements: seq<seq<string>>)
    ensures complete == Complete(TextOf(query))
    ensures complete ==> statements == Statements(TextOf(query))
  {
    hide Tokenizer.Run, Tokenizer.Collect, UnicodeSpaces.Rewrite, UnicodeSpaces.Spans, AsText;
    var found, clean := UnicodeSpaces.StripUnicodeSpaces(query);
    var sql := AsText(if found then clean else query);
    var tokenizer := new Tokenizer.ParserTokenizer(sql);
    complete := tokenizer.TokenizeInput();
    statements := tokenizer.statements + [tokenizer.tokens];
  }

  /** A query passes if and only if its text ends in a comment, in which case nothing is checked,
      or every nonempty statement is accepted; then all of them are derivable. */
  method CheckQuery(factory: MatcherFactory, root: Matcher.Id, kw: Matcher.Keywords, query: seq<UnicodeSpaces.byte>,
      ghost fuel: nat) returns (ok: bool)
    requires factory.Valid() && factory.pending == {}
    requires root in factory.labels && factory.labels[root] == Label(Ref(Checker.ROOT), NoArg)
    requires Complete(TextOf(query)) ==> AllFinish(factory.nodes, kw, Statements(TextOf(query)), root, fuel)
    ensures LanguageOf(factory.rules).Valid()
    ensures ok <==> !Complete(TextOf(query)) ||
                    AllAccepted(factory.nodes, kw, Statements(TextOf(query)), root, fuel)
    ensures ok && Complete(TextOf(query)) ==>
              forall k :: 0 <= k < |Statements(TextOf(query))| && Statements(TextOf(query))[k] != [] ==>
                Checker.Passes(factory.rules, factory.nodes, kw, Statements(TextOf(query))[k], root, fuel)
  {
    hide Statements, Complete, TextOf, Checker.Accepts, MatchRun.Match, Fits, TableMap;
    LanguageValid(factory.rules);
    var complete, statements := ReadStatements(query);
    if !complete {
      return true;
    }
    var rejected := Checker.CheckStatements(factory, root, kw, statements, fuel);
    return rejected.None?;
  }
}
