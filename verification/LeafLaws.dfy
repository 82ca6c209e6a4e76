/** Which tokens the leaf matchers take (matcher.cpp:46-64, 282-360, 401-512), in terms of the
    characters of a token and the keyword lists. */
module LeafLaws {
  import opened Text
  import opened Matcher
  import opened Grammar
  import opened GrammarMeaning
  import opened MatcherFactory

  // ----- Characters -----

  /** Equal, or the same ASCII letter in the other case. */
  predicate SameLetter(a: char, b: char) {
    || a == b
    || ('A' <= a <= 'Z' && b as int == a as int + 32)
    || ('A' <= b <= 'Z' && a as int == b as int + 32)
  }

  predicate SameWord(a: string, b: string) {
    |a| == |b| && forall i :: 0 <= i < |a| ==> SameLetter(a[i], b[i])
  }

  lemma LowerMeans(a: string, b: string)
    ensures Lower(a) == Lower(b) <==> SameWord(a, b)
  {
    if Lower(a) == Lower(b) {
      forall i | 0 <= i < |a| ensures SameLetter(a[i], b[i]) {
        assert Lower(a)[i] == Lower(b)[i];
      }
    }
    if SameWord(a, b) {
      forall i | 0 <= i < |a| ensures Lower(a)[i] == Lower(b)[i] {
        assert SameLetter(a[i], b[i]);
      }
    }
  }

  /** Letters, digits, the underscore, and everything that is neither white space nor printable
      ASCII. */
  predicate IsWordCharacter(c: char) {
    || 'a' <= c <= 'z' || 'A' <= c <= 'Z' || '0' <= c <= '9' || c == '_'
    || c as int >= 127 || c as int < 9 || 14 <= c as int < 32
  }

  lemma WordCharacters(c: char)
    ensures IsKeyword(c) <==> IsWordCharacter(c)
  {
  }

  /** The characters of longer operators. */
  lemma OperatorCharacters(c: char)
    ensures IsOperator(c) <==> c in "!%&*/:<=>@\\^`|~"
  {
  }

  lemma NumberCharacters(c: char)
    ensures IsInitialNumber(c) <==> c in "0123456789."
    ensures IsNumber(c) <==> c in "0123456789.eE+-_"
  {
  }

  lemma SpaceCharacters(c: char)
    ensures IsSpace(c) <==> c as int == 32 || 9 <= c as int <= 13
    ensures IsNewline(c) <==> c as int == 10 || c as int == 13
  {
  }

  // ----- Keywords -----

  /** A keyword leaf takes a token if and only if they differ in ASCII case only. */
  lemma KeywordLeaf(kw: Keywords, keyword: string, text: string)
    ensures Accepts(kw, Keyword(keyword), text) <==> SameWord(keyword, text)
  {
    LowerMeans(keyword, text);
  }

  // ----- Names -----

  /** The keyword lists are in lower case. */
  predicate Folded(category: set<string>) {
    forall w, i :: w in category && 0 <= i < |w| ==> !('A' <= w[i] <= 'Z')
  }

  predicate AllFolded(kw: Keywords) {
    Folded(kw.reserved) && Folded(kw.unreserved) && Folded(kw.typeFunc) && Folded(kw.colName)
  }

  /** The token is a word of the list, in any case. */
  ghost predicate Listed(category: set<string>, text: string) {
    exists w :: w in category && SameWord(w, text)
  }

  lemma ListedMeans(category: set<string>, text: string)
    requires Folded(category)
    ensures Lower(text) in category <==> Listed(category, text)
  {
    if Lower(text) in category {
      assert SameWord(Lower(text), text);
    }
    if w :| w in category && SameWord(w, text) {
      assert w == Lower(text) by {
        forall i | 0 <= i < |w| ensures w[i] == Lower(text)[i] {
          assert SameLetter(w[i], text[i]) && !('A' <= w[i] <= 'Z');
        }
      }
    }
  }

  /** A word, or a text in double quotes, or, where file names may stand, in single quotes. */
  predicate LooksLikeName(text: string, file: bool) {
    && |text| > 0
    && ( || IsWordCharacter(text[0])
         || (text[0] == '"' && text[|text| - 1] == '"')
         || (file && text[0] == '\'' && text[|text| - 1] == '\''))
  }

  lemma NameMeans(kind: Identifier, text: string)
    ensures IsIdentifier(kind, text) <==> LooksLikeName(text, kind == TableName || kind == FileName)
  {
    if text != [] {
      WordCharacters(text[0]);
    }
  }

  /** Names other than those of functions and types: reserved words and the names of types and
      functions are refused, unless they are unreserved or column names as well. */
  lemma NameLeaf(kw: Keywords, kind: Identifier, text: string)
    requires AllFolded(kw) && kind != ScalarFunctionName && kind != TableFunctionName && kind != TypeName
    ensures Accepts(kw, Name(kind), text) <==>
            && LooksLikeName(text, kind == TableName || kind == FileName)
            && ((Listed(kw.reserved, text) || Listed(kw.typeFunc, text)) ==>
                  Listed(kw.unreserved, text) || Listed(kw.colName, text))
  {
    Categories(kw, text);
    NameMeans(kind, text);
  }

  /** Names of functions: column names are refused, and the names of types and functions excuse. */
  lemma FunctionNameLeaf(kw: Keywords, kind: Identifier, text: string)
    requires AllFolded(kw) && (kind == ScalarFunctionName || kind == TableFunctionName)
    ensures Accepts(kw, Name(kind), text) <==>
            && LooksLikeName(text, false)
            && ((Listed(kw.reserved, text) || Listed(kw.colName, text)) ==>
                  Listed(kw.unreserved, text) || Listed(kw.typeFunc, text))
  {
    Categories(kw, text);
    NameMeans(kind, text);
  }

  /** Names of types: nothing excuses a reserved word or the name of a type or function. */
  lemma TypeNameLeaf(kw: Keywords, text: string)
    requires AllFolded(kw)
    ensures Accepts(kw, Name(TypeName), text) <==>
            LooksLikeName(text, false) && !Listed(kw.reserved, text) && !Listed(kw.typeFunc, text)
  {
    Categories(kw, text);
    NameMeans(TypeName, text);
  }

  lemma Categories(kw: Keywords, text: string)
    requires AllFolded(kw)
    ensures Lower(text) in kw.reserved <==> Listed(kw.reserved, text)
    ensures Lower(text) in kw.unreserved <==> Listed(kw.unreserved, text)
    ensures Lower(text) in kw.typeFunc <==> Listed(kw.typeFunc, text)
    ensures Lower(text) in kw.colName <==> Listed(kw.colName, text)
  {
    ListedMeans(kw.reserved, text);
    ListedMeans(kw.unreserved, text);
    ListedMeans(kw.typeFunc, text);
    ListedMeans(kw.colName, text);
  }

  /** A reserved name takes every name. */
  lemma ReservedNameLeaf(kw: Keywords, kind: Identifier, text: string)
    ensures Accepts(kw, ReservedName(kind), text) <==> LooksLikeName(text, kind == TableName || kind == FileName)
  {
    NameMeans(kind, text);
  }

  /** A word that is only reserved is taken by no name, and by every reserved name. */
  lemma ReservedWords(kw: Keywords, kind: Identifier, text: string)
    requires AllFolded(kw) && LooksLikeName(text, false) && Listed(kw.reserved, text)
    requires !Listed(kw.unreserved, text) && !Listed(kw.typeFunc, text) && !Listed(kw.colName, text)
    ensures !Accepts(kw, Name(kind), text) && Accepts(kw, ReservedName(kind), text)
  {
    if kind == TypeName {
      TypeNameLeaf(kw, text);
    } else if kind == ScalarFunctionName || kind == TableFunctionName {
      FunctionNameLeaf(kw, kind, text);
    } else {
      NameLeaf(kw, kind, text);
    }
    ReservedNameLeaf(kw, kind, text);
  }

  /** A word on no list is taken by every name. */
  lemma OtherWords(kw: Keywords, kind: Identifier, text: string)
    requires AllFolded(kw) && LooksLikeName(text, false) && !Listed(kw.reserved, text)
    requires !Listed(kw.unreserved, text) && !Listed(kw.typeFunc, text) && !Listed(kw.colName, text)
    ensures Accepts(kw, Name(kind), text) && Accepts(kw, ReservedName(kind), text)
  {
    if kind == TypeName {
      TypeNameLeaf(kw, text);
    } else if kind == ScalarFunctionName || kind == TableFunctionName {
      FunctionNameLeaf(kw, kind, text);
    } else {
      NameLeaf(kw, kind, text);
    }
    ReservedNameLeaf(kw, kind, text);
  }

  // ----- Literals and operators -----

  predicate IsString(text: string) {
    |text| >= 2 && text[0] == '\'' && text[|text| - 1] == '\''
  }

  predicate IsNumeral(text: string) {
    |text| > 0 && text[0] in "0123456789." && forall i :: 0 < i < |text| ==> text[i] in "0123456789.eE+-_"
  }

  predicate IsOperators(text: string) {
    forall i :: 0 <= i < |text| ==> text[i] in "!%&*+-/<=>@^|~"
  }

  /** Strings in single quotes; numbers that start with a digit or dot; operators. */
  lemma LiteralLeaves(kw: Keywords, text: string)
    ensures Accepts(kw, StringLiteral, text) <==> IsString(text)
    ensures Accepts(kw, NumberLiteral, text) <==> IsNumeral(text)
    ensures Accepts(kw, Node.Operator, text) <==> IsOperators(text)
  {
    forall c: char ensures IsNumber(c) <==> c in "0123456789.eE+-_" {
      NumberCharacters(c);
    }
    if text != [] {
      NumberCharacters(text[0]);
    }
    forall c: char ensures c in "+-*/%^<>=~!@&|" <==> c in "!%&*+-/<=>@^|~" {
    }
  }

  // ----- The rules that leaves stand for -----

  ghost predicate TakesNames(kw: Keywords, node: Node, file: bool) {
    && !node.Inner()
    && forall text :: Accepts(kw, node, text) <==>
         && LooksLikeName(text, file)
         && ((Listed(kw.reserved, text) || Listed(kw.typeFunc, text)) ==>
               Listed(kw.unreserved, text) || Listed(kw.colName, text))
  }

  ghost predicate TakesFunctionNames(kw: Keywords, node: Node) {
    && !node.Inner()
    && forall text :: Accepts(kw, node, text) <==>
         && LooksLikeName(text, false)
         && ((Listed(kw.reserved, text) || Listed(kw.colName, text)) ==>
               Listed(kw.unreserved, text) || Listed(kw.typeFunc, text))
  }

  ghost predicate TakesTypeNames(kw: Keywords, node: Node) {
    && !node.Inner()
    && forall text :: Accepts(kw, node, text) <==>
         LooksLikeName(text, false) && !Listed(kw.reserved, text) && !Listed(kw.typeFunc, text)
  }

  ghost predicate TakesAllNames(kw: Keywords, node: Node, file: bool) {
    !node.Inner() && forall text :: Accepts(kw, node, text) <==> LooksLikeName(text, file)
  }

  ghost predicate TakesStrings(kw: Keywords, node: Node) {
    !node.Inner() && forall text :: Accepts(kw, node, text) <==> IsString(text)
  }

  ghost predicate TakesNumbers(kw: Keywords, node: Node) {
    !node.Inner() && forall text :: Accepts(kw, node, text) <==> IsNumeral(text)
  }

  ghost predicate TakesOperators(kw: Keywords, node: Node) {
    !node.Inner() && forall text :: Accepts(kw, node, text) <==> IsOperators(text)
  }

  /** Each rule that is overridden takes the tokens that its name says: identifiers and tables, */
  lemma OverriddenNames(kw: Keywords, rules: Rules)
    requires AllFolded(kw)
    ensures var o := LanguageOf(rules).overrides;
            && "Identifier" in o && TakesNames(kw, o["Identifier"], false)
            && "TableName" in o && TakesNames(kw, o["TableName"], true)
  {
    hide TakesNames, TakesAllNames, TakesFunctionNames, TakesTypeNames, TakesNumbers, TakesStrings, TakesOperators;
    hide LanguageOf;
    NameNodes(kw);
    Entered(rules, 0, "Identifier", Name(Variable));
    Entered(rules, 3, "TableName", Name(TableName));
  }

  /** catalogs and schemas, */
  lemma OverriddenSchemas(kw: Keywords, rules: Rules)
    requires AllFolded(kw)
    ensures var o := LanguageOf(rules).overrides;
            && "CatalogName" in o && TakesNames(kw, o["CatalogName"], false)
            && "SchemaName" in o && TakesNames(kw, o["SchemaName"], false)
  {
    hide TakesNames, TakesAllNames, TakesFunctionNames, TakesTypeNames, TakesNumbers, TakesStrings, TakesOperators;
    hide LanguageOf;
    NameNodes(kw);
    Entered(rules, 5, "CatalogName", Name(CatalogName));
    Entered(rules, 6, "SchemaName", Name(SchemaName));
  }

  /** columns, pragmas and settings, */
  lemma OverriddenColumns(kw: Keywords, rules: Rules)
    requires AllFolded(kw)
    ensures var o := LanguageOf(rules).overrides;
            && "ColumnName" in o && TakesNames(kw, o["ColumnName"], false)
            && "PragmaName" in o && TakesNames(kw, o["PragmaName"], false)
            && "SettingName" in o && TakesNames(kw, o["SettingName"], false)
  {
    hide TakesNames, TakesAllNames, TakesFunctionNames, TakesTypeNames, TakesNumbers, TakesStrings, TakesOperators;
    hide LanguageOf;
    NameNodes(kw);
    Entered(rules, 8, "ColumnName", Name(ColumnName));
    Entered(rules, 13, "PragmaName", Name(PragmaName));
    Entered(rules, 14, "SettingName", Name(SettingName));
  }

  /** names that may be reserved words, */
  lemma OverriddenReservedNames(kw: Keywords, rules: Rules)
    requires AllFolded(kw)
    ensures var o := LanguageOf(rules).overrides;
            && "ReservedIdentifier" in o && TakesAllNames(kw, o["ReservedIdentifier"], false)
            && "ReservedTableName" in o && TakesAllNames(kw, o["ReservedTableName"], true)
  {
    hide TakesNames, TakesAllNames, TakesFunctionNames, TakesTypeNames, TakesNumbers, TakesStrings, TakesOperators;
    hide LanguageOf;
    NameNodes(kw);
    Entered(rules, 1, "ReservedIdentifier", ReservedName(Variable));
    Entered(rules, 4, "ReservedTableName", ReservedName(TableName));
  }

  /** of schemas and columns as well, */
  lemma OverriddenReservedColumns(kw: Keywords, rules: Rules)
    requires AllFolded(kw)
    ensures var o := LanguageOf(rules).overrides;
            && "ReservedSchemaName" in o && TakesAllNames(kw, o["ReservedSchemaName"], false)
            && "ReservedColumnName" in o && TakesAllNames(kw, o["ReservedColumnName"], false)
  {
    hide TakesNames, TakesAllNames, TakesFunctionNames, TakesTypeNames, TakesNumbers, TakesStrings, TakesOperators;
    hide LanguageOf;
    NameNodes(kw);
    Entered(rules, 7, "ReservedSchemaName", ReservedName(SchemaName));
    Entered(rules, 9, "ReservedColumnName", ReservedName(ColumnName));
  }

  /** functions, */
  lemma OverriddenFunctions(kw: Keywords, rules: Rules)
    requires AllFolded(kw)
    ensures var o := LanguageOf(rules).overrides;
            && "TableFunctionName" in o && TakesFunctionNames(kw, o["TableFunctionName"])
            && "FunctionName" in o && TakesFunctionNames(kw, o["FunctionName"])
  {
    hide TakesNames, TakesAllNames, TakesFunctionNames, TakesTypeNames, TakesNumbers, TakesStrings, TakesOperators;
    hide LanguageOf;
    NameNodes(kw);
    Entered(rules, 10, "TableFunctionName", Name(TableFunctionName));
    Entered(rules, 11, "FunctionName", Name(ScalarFunctionName));
  }

  /** reserved functions and types, */
  lemma OverriddenTypes(kw: Keywords, rules: Rules)
    requires AllFolded(kw)
    ensures var o := LanguageOf(rules).overrides;
            && "ReservedFunctionName" in o && TakesAllNames(kw, o["ReservedFunctionName"], false)
            && "TypeName" in o && TakesTypeNames(kw, o["TypeName"])
  {
    hide TakesNames, TakesAllNames, TakesFunctionNames, TakesTypeNames, TakesNumbers, TakesStrings, TakesOperators;
    hide LanguageOf;
    NameNodes(kw);
    Entered(rules, 12, "ReservedFunctionName", ReservedName(ScalarFunctionName));
    Entered(rules, 2, "TypeName", Name(TypeName));
  }

  /** and literals and operators. */
  lemma OverriddenLiterals(kw: Keywords, rules: Rules)
    requires AllFolded(kw)
    ensures var o := LanguageOf(rules).overrides;
            && "NumberLiteral" in o && TakesNumbers(kw, o["NumberLiteral"])
            && "StringLiteral" in o && TakesStrings(kw, o["StringLiteral"])
            && "OperatorLiteral" in o && TakesOperators(kw, o["OperatorLiteral"])
  {
    hide TakesNames, TakesAllNames, TakesFunctionNames, TakesTypeNames, TakesNumbers, TakesStrings, TakesOperators;
    hide LanguageOf;
    LiteralNodes(kw);
    Entered(rules, 15, "NumberLiteral", NumberLiteral);
    Entered(rules, 16, "StringLiteral", StringLiteral);
    Entered(rules, 17, "OperatorLiteral", Node.Operator);
  }

  lemma Entered(rules: Rules, i: nat, name: string, node: Node)
    requires i < |RULE_OVERRIDES| && RULE_OVERRIDES[i].0 == name && RULE_OVERRIDES[i].1 == node
    ensures name in LanguageOf(rules).overrides && LanguageOf(rules).overrides[name] == node
  {
    hide TableMap;
    OverrideIsEntered(i);
  }

  predicate OverrideAt(i: nat)
    requires i < |RULE_OVERRIDES|
  {
    var (name, node) := RULE_OVERRIDES[i];
    name in TableMap(RULE_OVERRIDES) && TableMap(RULE_OVERRIDES)[name] == node
  }

  /** What tells the names apart. */
  function Key(name: string): (nat, char, char)
    requires |name| > 0
  {
    (|name|, name[0], name[if |name| > 8 then 8 else 0])
  }

  lemma OverrideIsEntered(i: nat)
    requires i < |RULE_OVERRIDES|
    ensures OverrideAt(i)
  {
    var names := RULE_OVERRIDES;
    forall j | 0 <= j < i ensures names[j].0 != names[i].0 {
      assert |names[j].0| > 0 && |names[i].0| > 0 && Key(names[j].0) != Key(names[i].0);
    }
    FirstEntryStays(names, i);
  }

  lemma {:induction false} FirstEntryStays(table: seq<(string, Node)>, i: nat)
    requires i < |table| && forall j :: 0 <= j < i ==> table[j].0 != table[i].0
    ensures table[i].0 in TableMap(table) && TableMap(table)[table[i].0] == table[i].1
    decreases |table|
  {
    var before := table[..|table| - 1];
    TableMapLast(table);
    if i < |before| {
      FirstEntryStays(before, i);
    } else {
      NotEntered(before, table[i].0);
    }
  }

  lemma {:induction false} NotEntered(table: seq<(string, Node)>, name: string)
    requires forall j :: 0 <= j < |table| ==> table[j].0 != name
    ensures name !in TableMap(table)
    decreases |table|
  {
    if table != [] {
      TableMapLast(table);
      NotEntered(table[..|table| - 1], name);
    }
  }

  lemma NameNodes(kw: Keywords)
    requires AllFolded(kw)
    ensures forall kind :: kind != ScalarFunctionName && kind != TableFunctionName && kind != TypeName ==>
              TakesNames(kw, Name(kind), kind == TableName || kind == FileName)
    ensures TakesFunctionNames(kw, Name(ScalarFunctionName)) && TakesFunctionNames(kw, Name(TableFunctionName))
    ensures TakesTypeNames(kw, Name(TypeName))
    ensures forall kind :: TakesAllNames(kw, ReservedName(kind), kind == TableName || kind == FileName)
  {
    hide Accepts, Listed, LooksLikeName;
    forall kind | kind != ScalarFunctionName && kind != TableFunctionName && kind != TypeName
      ensures TakesNames(kw, Name(kind), kind == TableName || kind == FileName)
    {
      forall text { NameLeaf(kw, kind, text); }
    }
    forall text { FunctionNameLeaf(kw, ScalarFunctionName, text); }
    forall text { FunctionNameLeaf(kw, TableFunctionName, text); }
    forall text { TypeNameLeaf(kw, text); }
    forall kind ensures TakesAllNames(kw, ReservedName(kind), kind == TableName || kind == FileName) {
      forall text { ReservedNameLeaf(kw, kind, text); }
    }
  }

  lemma LiteralNodes(kw: Keywords)
    ensures TakesStrings(kw, StringLiteral) && TakesNumbers(kw, NumberLiteral) && TakesOperators(kw, Node.Operator)
  {
    hide Accepts, IsString, IsNumeral, IsOperators;
    forall text { LiteralLeaves(kw, text); }
  }
}
