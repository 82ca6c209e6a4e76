# DuckDB extensions: a verified model of their core algorithms

This project models three parts of the DuckDB extensions and proves what they compute.

1. The PEG engine of the autocomplete extension: the scanner that rewrites Unicode spaces,
   the SQL tokenizer, the lexer of the grammar text, the compiler from rules to a cyclic graph
   of matchers, and the backtracking interpreter of that graph.
2. The vectorised `list_filter` and `list_transform`, which evaluate a lambda batch by batch
   over the flattened lists of a chunk.
3. The timestamp arithmetic of the ICU extension: adding an interval, `time_bucket`, and the
   list and table forms of `range` and `generate_series`.

Code that changes state is modelled by classes and methods with loops; each is proved equal to
a specification on values, and the theorems are about that specification.

| files | content |
|---|---|
| `Text` | the character classes used by the tokenizer and the grammar lexer, and pieces of a text |
| `Matcher`, `MatchRun`, `MatchSound`, `MatchEnd`, `MatchOrdered`, `MatchPeg`, `MatchExpects`, `MatchSuggests`, `MatchTermination`, `Matching` | matcher graphs, derivations, the interpreter as a function and as methods on `MatchState` |
| `Grammar`, `GrammarBrackets`, `GrammarMeaning`, `GrammarMacros` | rule tokens, the stack machine on expressions, the printer, the language of a rule set and of its macros |
| `MatcherStore`, `MatcherFactory`, `LeafLaws`, `Checker` | the compiler with its shared nodes and memo table, what its leaves take, and the statement check built on it |
| `GrammarLexer`, `GrammarLexerRoundTrip` | `ParseRules` and its inverse, in any layout |
| `Tokenizer`, `TokenizerRoundTrip`, `TokenizerStatements`, `UnicodeSpaces`, `UnicodePieces` | the two scanners in front of the matcher |
| `QueryChecker` | the check of a query, from its bytes to the verdict |
| `ListLambda` | batched lambdas |
| `IcuTime`, `IcuAdd`, `IcuBucket`, `IcuListRange`, `IcuTableRange` | timestamps |

## Main results

* Soundness: a statement that the compiled matcher accepts is derivable from the rule
  `Statement` of the grammar (`Checker.CheckStatements`), through the soundness of the
  interpreter on any cyclic graph (`MatchSound.MatchSound`) and the equality of the derivations
  of the graph and of the grammar (`Checker.SameLanguage`). What autocompletion suggests can
  indeed come next (`MatchExpects.SuggestionsCanFollow`), and whatever stands at the front of a
  matcher that the match stops before for want of tokens is suggested
  (`MatchSuggests.ContinuationsAreSuggested`).
* Exactness: success and failure are those of ordered choice and greedy repetition as long as
  tokens are left; when they run out, the remaining children of a list are skipped if and only if
  they are optional by their shape and no matcher of that shape has been visited before
  (`MatchOrdered.MatchIsOrdered`, `MatchEnd.SuggestListSkips`). On graphs in which nothing is met
  twice and no alternative is optional, this is ordinary parsing expression grammar acceptance
  (`MatchPeg.MatchIsPeg`).
* Termination: the interpreter stops on every graph without left recursion and without a
  repeated element that may consume nothing. It does not stop where a cycle of matchers is entered
  again before a token is consumed, nor on a repeat whose element succeeds without consuming.
* Compilation: printing a rule and compiling it gives the rule back, compiling and printing
  gives the tokens back, and the graph with its aliased, still growing choices carries exactly
  that tree. A macro call means the body of its rule with the argument in place of the parameter
  (`GrammarMacros.CallIsSubstituted`).
* Leaves: which tokens a keyword, a name, a reserved name, a number, a string and an operator
  take, character by character and keyword category by keyword category (`LeafLaws`).
* Scanners: a rule set is read back from any layout of its text, with comments, blank lines and
  rules over several lines (`GrammarLexerRoundTrip.ParseWrite`); statements are read back from any
  text of tokens, comments, dollar-quoted strings and semicolons, with white space only where two
  tokens would run together (`TokenizerStatements.TokenizeStatements`); and one pass over Unicode
  spaces leaves none for a second pass.
* Batching: every vector size gives every row its own filter or map, with one evaluation per
  element.
* Time: a sum is the exact shift by months, days and microseconds or a range error, buckets are the
  buckets of the definition, and ranges hold exactly the multiples of their increments up to the
  bound, for every size of the output chunks.

Four promises do not hold without a condition, and the exact condition is proved:

* A statement that the grammar derives, and that an ordinary parser accepts, can be rejected, in
  two ways. At the end of the tokens a matcher that has already been visited reports MANDATORY, so
  with `X <- 'b' C C` and `C <- 'd'?` the statement `b` fails (`Checker.SharedOptionalIsRejected`);
  and a choice always reports MANDATORY, so with `X <- 'b' ('d'? / 'e')` it fails too
  (`Checker.OptionalChoiceIsRejected`). `MatchEnd.SuggestListSkips` says exactly when the end of
  the tokens is accepted.
* Not every Unicode space outside quotes, comments and strings is replaced. The scan goes on at the
  last dollar of a dollar-quoted string, and takes the letters, digits and bytes from 0x80 on behind
  it, or behind a parameter, for a tag; a string whose body is its tag, such as the empty one, is
  closed by its opening tag, and what follows counts as quoted. For every query given as texts,
  quoted texts, comments, strings and parameters, `UnicodePieces.PiecesFound` says which spaces are
  found, and `UnicodePieces.AllFoundIff` when all are; `UnicodePieces.SpaceBehindLetterIsMissed` and
  `UnicodePieces.NothingFoundBehindEmptyString` give inputs.
* `time_bucket` by days can return a bucket that starts after the timestamp when the origin is
  not on a whole millisecond. `IcuBucket.DaysBucketIff` states when, and
  `IcuBucket.OvershootHappens` gives an input.
* The table form of `range` hands out nothing for any row after one whose start lies past its
  end, since `empty_range` is never cleared. `IcuTableRange.TableRangeIff` states when nothing is
  lost, and `IcuTableRange.SecondRowIsLost` gives an input.

## Conventions

* A matcher is a number, its index in the graph; edges are indices, so sharing and cycles are
  explicit. `Derives(id, i, j, n)` says that the matcher derives tokens i to j by a derivation of
  height at most n.
* `MatchRun.Match` takes a bound on the depth of calls and answers `Unfinished` below it.
  `MatchRun.MatchStable` shows that a larger bound changes nothing; the methods of `Matching`
  take it as a ghost and do not use it.
* A copy of a `MatchState` starts with no added suggestions and shares the suggestion vector.
* A `Label` is an expression with the arguments its macro parameters stand for; `Fits` says that
  a node and the labels of its children agree with its own label.
* Timestamps are 64-bit microseconds. A calendar is an integer instant in milliseconds: adding
  milliseconds, seconds, minutes and hours shifts it exactly, in UTC a day has 86,400,000
  milliseconds, the difference in days truncates toward zero, and how months move an instant is
  an arbitrary function.

## Model

| member | source | states |
|---|---|---|
| MatchSound.MatchSound | extension/autocomplete/matcher.cpp:55-340 | a successful match from index i to j means that tokens i to j are derivable from the matcher in the cyclic graph, also when the tokens ran out and all remaining children reported optional |
| MatchSound.OptionalDerivesNothing | extension/autocomplete/matcher.cpp:22-29 | a matcher whose suggestion is reported as optional derives the empty token sequence |
| MatchSound.SuggestAddsOnce | extension/autocomplete/matcher.cpp:22-29 | on any cyclic graph, no matcher is suggested twice in a state, and only matchers newly added are suggested |
| MatchSound.SuggestExpands | extension/autocomplete/matcher.cpp:22-29 | the matcher itself and everything its suggestion has to visit is added: all alternatives of a choice, the element of an optional or repeat, the first child of a list, and leaves are suggested |
| MatchEnd.SuggestListSkips | extension/autocomplete/matcher.cpp:99-135 | the suggestions for the remaining children of a list report OPTIONAL if and only if the children are optional by their shape and the lists and optionals of that shape are met for the first time: not added before, not earlier in the shape, not visited from the element of an earlier optional |
| MatchEnd.SuggestSkips | extension/autocomplete/matcher.cpp:22-29 | the same for one matcher, and the matchers added are exactly those visited |
| MatchEnd.ElementsAreVisited | extension/autocomplete/matcher.cpp:172-175 | two distinct optionals of which the second is visited from the first, so that it cannot be skipped |
| MatchOrdered.MatchIsOrdered | extension/autocomplete/matcher.cpp:55-340 | a match succeeds at j exactly if the ordered semantics takes the tokens up to j, and fails exactly if it refuses them: an alternative only after all earlier ones fail, an optional skipped only if its element fails, a repeat as long as it can, and at the end of the tokens only children that can be skipped |
| MatchPeg.MatchIsPeg | extension/autocomplete/matcher.cpp:55-340 | on graphs without left recursion, nullable repeats, optional alternatives and matchers met twice, a match succeeds and fails exactly where an ordinary parsing expression grammar does, for which the end of the input is no special case |
| MatchPeg.SkippedIffOptional | extension/autocomplete/matcher.cpp:99-113 | on such graphs the remaining children are skipped if and only if all are optional by their shape |
| MatchPeg.RecursiveIsOrdinary | extension/autocomplete/matcher.cpp:1034-1040 | the graph of a rule that refers to itself is such a graph |
| MatchOrdered.OutcomeIgnoresSuggestions | extension/autocomplete/matcher.cpp:93-267 | the outcome of a match depends on where it starts, not on what was suggested before |
| MatchExpects.SuggestionsCanFollow | extension/autocomplete/matcher.cpp:93-135 | every new suggestion of a run is a leaf that some derivation of the matcher reaches right after all tokens |
| MatchSuggests.ContinuationsAreSuggested | extension/autocomplete/matcher.cpp:93-135 | when a match has used all tokens and stops before a matcher, in a list or in a further round of a repeat, every leaf at the front of that matcher is among the suggestions, whether the match succeeds or fails and also if the alternative it was met in fails |
| MatchSuggests.MatchLater | extension/autocomplete/matcher.cpp:93-267 | no match loses a suggestion, and every matcher it has added has had its turn |
| MatchRun.MatchStable | extension/autocomplete/matcher.cpp:93-267 | a run that has finished does not depend on the bound on the depth of calls |
| MatchRun.FailureKeepsIndex | extension/autocomplete/matcher.cpp:93-206 | a failing match leaves the index where it was, unless a list ran out of tokens, in which case it is at the end |
| MatchRun.RepeatSucceeds | extension/autocomplete/matcher.cpp:238-267 | once its element has matched, a repeat succeeds |
| MatchTermination.MatchTerminates | extension/autocomplete/matcher.cpp:93-267 | on a graph without left recursion and without a repeat over an element that may consume nothing, every match finishes, within a depth linear in the tokens left |
| MatchTermination.MatchConsumes | extension/autocomplete/matcher.cpp:93-267 | a matcher outside the set of those that may consume nothing moves the index forward on success |
| MatchTermination.RoundsBounded | extension/autocomplete/matcher.cpp:249-266 | a repeat runs at most once per remaining token |
| MatchTermination.LeftRecursionDiverges | extension/autocomplete/matcher.cpp:93-267 | if every matcher of a set tries one of the set at the same index, behind children that consume nothing or alternatives that fail, none of them finishes at any depth |
| MatchTermination.LeftRecursionCanStop | extension/autocomplete/matcher.cpp:93-123 | a left-recursive rule that stops, since its first child consumes all tokens |
| MatchTermination.NullableRepeatDiverges | extension/autocomplete/matcher.cpp:238-267 | a repeat whose element succeeds without consuming does not finish at any depth |
| MatchTermination.RepeatedOptionalDiverges | extension/autocomplete/matcher.cpp:160-170 | so does a repeat over an optional whose element fails |
| Matching.AddSuggestion | extension/autocomplete/matcher.cpp:22-29 | the method on the mutable state computes the specified suggestions and terminates on every graph |
| Matching.Match | extension/autocomplete/matcher.cpp:55-65 | the methods on the mutable state give the result, the index, the added matchers and the suggestions of the specification |
| LeafLaws.KeywordLeaf | extension/autocomplete/matcher.cpp:55-64 | a keyword takes a token if and only if the lengths agree and each character is equal or differs only in ASCII case |
| LeafLaws.NameLeaf | extension/autocomplete/matcher.cpp:303-340 | a name other than that of a function or type takes an identifier unless its word is reserved or a type-function name, and neither unreserved nor a column name |
| LeafLaws.FunctionNameLeaf | extension/autocomplete/matcher.cpp:303-340 | for a function name the banned category is the column names, and the type-function names are allowed |
| LeafLaws.TypeNameLeaf | extension/autocomplete/matcher.cpp:303-316 | a type name takes no reserved word and no type-function name, with no category that allows it again |
| LeafLaws.ReservedNameLeaf | extension/autocomplete/matcher.cpp:409-417 | a reserved name takes every identifier, whatever its keyword category |
| LeafLaws.ReservedWords | extension/autocomplete/matcher.cpp:320-331 | a word that is reserved and in no other category is refused by every name, and taken by every reserved name if it is an identifier |
| LeafLaws.OtherWords | extension/autocomplete/matcher.cpp:320-340 | a word in no category is taken by every name if it is an identifier |
| LeafLaws.LiteralLeaves | extension/autocomplete/matcher.cpp:428-512 | which tokens are string, number and operator literals, by their characters |
| Matching.MatchList | extension/autocomplete/matcher.cpp:93-123 | the loop over the children, with the suggestions at exhausted tokens, follows the specification |
| Matching.MatchOptional | extension/autocomplete/matcher.cpp:160-170 | an optional matches its child or nothing and always succeeds |
| Matching.MatchChoice | extension/autocomplete/matcher.cpp:195-206 | the first alternative that does not fail decides |
| Matching.MatchRepeat | extension/autocomplete/matcher.cpp:238-267 | the loop of the repeat follows the specification |
| Matching.MatchWellFounded | extension/autocomplete/matcher.cpp:93-267 | on a well-founded graph the method needs no assumption that the match finishes |
| Grammar.ParsePrint | extension/autocomplete/matcher.cpp:1050-1156 | the tokens printed for any expressions of the dialect compile to exactly those expressions |
| Grammar.PrintedShifts | extension/autocomplete/matcher.cpp:1077-1142 | on any stack, reading the tokens of an expression adds exactly that expression to the entry on top |
| GrammarBrackets.PrintParse | extension/autocomplete/matcher.cpp:1050-1156 | tokens that compile have balanced brackets, and the expressions print as those tokens without the ignored `!` |
| GrammarBrackets.StoredRuleErrors | extension/autocomplete/matcher.cpp:982-985 | tokens with an open bracket at every close raise none of the errors of the matcher stack |
| GrammarBrackets.DepthFollows | extension/autocomplete/matcher.cpp:982-1011 | at every close of such tokens a list is above the root, and the open lists number at least the open brackets |
| GrammarBrackets.ShiftDepth | extension/autocomplete/matcher.cpp:982-1011 | a token changes the number of open lists by its bracket, and a bracket closed on a waiting choice leaves one more open |
| GrammarMeaning.SameDerivations | extension/autocomplete/matcher.cpp:1019-1157 | if every node of a graph fits the label it carries, a node derives the same tokens, with the same height, as its label in the grammar with macros |
| GrammarMacros.CallIsSubstituted | extension/autocomplete/matcher.cpp:1042-1077 | a call derives, with the same height, what the body of its rule derives with the argument in place of the parameter; several arguments stand for their sequence |
| GrammarMacros.ExpansionDerives | extension/autocomplete/matcher.cpp:994-1011 | an expression inside nested macros derives what it derives with all parameters replaced from the inside out; a name in an argument keeps the meaning it has at the call |
| MatcherStore.AddToChoiceKeeps | extension/autocomplete/matcher.cpp:956-963 | filling the waiting choice changes the node that the list below already contains, finishes it and keeps the rest of the stack and every finished node |
| MatcherStore.PushChoiceKeeps | extension/autocomplete/matcher.cpp:1100-1123 | the last child becomes the first alternative of a new choice, which replaces it in the list and is pushed on the stack |
| MatcherStore.CloseKeeps | extension/autocomplete/matcher.cpp:982-993 | closing a bracket pops its entry and leaves the other entries as they were |
| MatcherFactory.MatcherFactory.constructor | extension/autocomplete/matcher.cpp:1168-1196 | after the overrides the memo table and all nodes are consistent, and the shared keywords are `TABLE`, `.` and `(` |
| MatcherFactory.MatcherFactory.Keyword | extension/autocomplete/matcher.cpp:578-584 | a keyword that is overridden, in any case, gives its one shared matcher, and every other a new one |
| LeafLaws.OverriddenNames | extension/autocomplete/matcher.cpp:1178-1181 | which tokens the rules `Identifier` and `TableName`, put in place by overrides, take |
| LeafLaws.OverriddenSchemas | extension/autocomplete/matcher.cpp:1183-1184 | the same for catalogs and schemas |
| LeafLaws.OverriddenColumns | extension/autocomplete/matcher.cpp:1186-1192 | the same for columns, pragmas and settings |
| LeafLaws.OverriddenReservedNames | extension/autocomplete/matcher.cpp:1179-1182 | the same for reserved identifiers and tables |
| LeafLaws.OverriddenReservedColumns | extension/autocomplete/matcher.cpp:1185-1187 | the same for reserved schemas and columns |
| LeafLaws.OverriddenFunctions | extension/autocomplete/matcher.cpp:1188-1189 | the same for scalar and table functions |
| LeafLaws.OverriddenTypes | extension/autocomplete/matcher.cpp:1180-1190 | the same for types and reserved functions |
| LeafLaws.OverriddenLiterals | extension/autocomplete/matcher.cpp:1193-1195 | the same for numbers, strings and operators |
| MatcherFactory.MatcherFactory.AddMatcher | extension/autocomplete/matcher.cpp:949-968 | adds a matcher to the list or choice on top and keeps the stack in step with the stack of expressions |
| MatcherFactory.MatcherFactory.AddSuffix | extension/autocomplete/matcher.cpp:1080-1099 | `?` and `*` replace the last child by an optional, or an optional repeat, or raise the specified error |
| MatcherFactory.MatcherFactory.AddChoice | extension/autocomplete/matcher.cpp:1100-1123 | `/` builds and pushes the choice, or raises the specified error |
| MatcherFactory.MatcherFactory.CloseBracket | extension/autocomplete/matcher.cpp:982-1011 | closes a list or expands a macro call with its argument |
| MatcherFactory.MatcherFactory.AddToken | extension/autocomplete/matcher.cpp:1051-1151 | one token moves the stack of matchers as it moves the stack of expressions |
| MatcherFactory.MatcherFactory.ReadTokens | extension/autocomplete/matcher.cpp:1050-1156 | the token loop fills the root with the parts of the rule, and raises no error of the matcher stack on a stored rule |
| MatcherFactory.MatcherFactory.CreateMatcher | extension/autocomplete/matcher.cpp:1019-1157 | terminates if macros do not call each other in a cycle; the node returned stands for the rule or the macro call; each rule has one node, shared by all references; nodes that existed stay; an error implies that some needed rule is missing, mismatched or malformed, and on rules as ParseRules stores them it is never too-many-close-brackets, choice-at-root or cannot-add |
| Checker.SameLanguage | extension/autocomplete/matcher.cpp:1019-1157 | a created matcher derives exactly what its rule derives in the grammar |
| Checker.AcceptedIffPicked | extension/autocomplete/autocomplete_extension.cpp:656-662 | a statement is accepted if and only if the ordered semantics, with its rule for the end of the tokens, takes all its tokens |
| Checker.AcceptedIffParsed | extension/autocomplete/autocomplete_extension.cpp:656-662 | on ordinary graphs a statement is accepted if and only if an ordinary parsing expression grammar parses all of it |
| Checker.SharedOptionalIsRejected | extension/autocomplete/matcher.cpp:22-29 | a graph and a statement that is derivable and parsed by an ordinary grammar, but rejected at every depth |
| Checker.OptionalChoiceIsRejected | extension/autocomplete/matcher.cpp:208-213 | the same for a graph in which no matcher is met twice, because of an optional alternative |
| Checker.AcceptedIsDerivable | extension/autocomplete/autocomplete_extension.cpp:652-662 | an accepted statement is derivable from the rule of the matcher |
| Checker.RootMatcher | extension/autocomplete/matcher.cpp:1174-1198 | builds the matcher that stands for the root rule, and fails only on a rule set that is not complete |
| Checker.CreateGrammarMatcher | extension/autocomplete/matcher.cpp:1168-1199 | from the grammar text: a lexer error exactly if the text has one, otherwise a matcher that stands for the root rule or an error that is none of those of the matcher stack |
| Checker.CheckStatement | extension/autocomplete/autocomplete_extension.cpp:656-662 | passes exactly the statements on which the run succeeds and consumes every token |
| Checker.CheckStatements | extension/autocomplete/autocomplete_extension.cpp:652-677 | all statements before the first rejected one are accepted and derivable; the rejected one is not accepted; empty statements are skipped |
| QueryChecker.ReadStatements | extension/autocomplete/autocomplete_extension.cpp:641-650 | the statements that the tokenizer reads from the query with its Unicode spaces replaced, unless that text ends in a comment |
| QueryChecker.WrittenStatements | extension/autocomplete/autocomplete_extension.cpp:612-650 | the statements of a written text are those that were written |
| QueryChecker.CommentIsIncomplete | extension/autocomplete/autocomplete_extension.cpp:646-649 | a text that ends inside a comment is not complete |
| QueryChecker.CheckQuery | extension/autocomplete/autocomplete_extension.cpp:639-679 | a query passes if and only if its text, with Unicode spaces replaced, ends in a comment, in which case nothing is checked, or every nonempty statement is accepted, and then all are derivable |
| GrammarLexer.RunStores | extension/autocomplete/matcher.cpp:743-927 | every rule stored has tokens, and in every prefix at least as many brackets are opened as closed |
| GrammarLexer.StoredRulesCompile | extension/autocomplete/matcher.cpp:861-905 | the stack machine raises none of the errors of the matcher stack on a rule that the lexer has stored |
| GrammarLexer.ParsedRulesAreStored | extension/autocomplete/matcher.cpp:743-927 | all rules of a parsed text have tokens, with an open bracket at every close |
| GrammarLexer.StepCounts | extension/autocomplete/matcher.cpp:750-918 | the bracket counter is the balance of the tokens read, and is zero between rules |
| GrammarLexer.PegParser.ParseRules | extension/autocomplete/matcher.cpp:743-927 | stores the rules that the specification reads from the text, or raises its error |
| GrammarLexer.PegParser.AddRule | extension/autocomplete/matcher.cpp:712-718 | a second rule of the same name is an error and does not change the rules |
| GrammarLexerRoundTrip.ParseWrite | extension/autocomplete/matcher.cpp:743-927 | parsing the text of any rules stores exactly these rules, and two rules of one name are the error; the text may have comments and blank lines anywhere between rules and around the name, parameter and arrow of a rule, line ends behind any `/` and inside any bracket, an `i` behind a literal, no space where tokens stay apart, and a last rule that ends with the text |
| GrammarLexerRoundTrip.TokensRun | extension/autocomplete/matcher.cpp:817-914 | the tokens of a definition, regular expressions included, are read back from any layout, with their bracket count |
| GrammarLexerRoundTrip.GapRuns | extension/autocomplete/matcher.cpp:752-774 | white space and comments are skipped, with line ends wherever they do not complete a rule |
| GrammarLexerRoundTrip.RuleRuns | extension/autocomplete/matcher.cpp:743-927 | a rule is read back and stored, whatever text follows it |
| GrammarLexerRoundTrip.PlainIsWellWritten | extension/autocomplete/matcher.cpp:759-768 | every rule with closed brackets that does not end in a `/` has a text |
| GrammarLexerRoundTrip.NameErrors | extension/autocomplete/matcher.cpp:776-793 | a character that cannot start a rule name is an error |
| GrammarLexerRoundTrip.SeparatorErrors | extension/autocomplete/matcher.cpp:794-822 | behind a rule name: a second parameter, an empty one, anything but the arrow, and the end of the text are errors |
| GrammarLexerRoundTrip.ParameterErrors | extension/autocomplete/matcher.cpp:794-813 | so is a parameter whose bracket is not closed |
| GrammarLexerRoundTrip.DefinitionErrors | extension/autocomplete/matcher.cpp:823-927 | in a definition: a bracket closed that is not open, a literal without its closing quote, a character that starts no token, and no token at all are errors |
| Tokenizer.RunOrdered | extension/autocomplete/tokenizer.cpp:132-372 | every token is the text of its own nonempty range of the input, or, for a dollar-quoted string, of the range without its markers in single quotes; the ranges are disjoint, in increasing order and before last_pos |
| Tokenizer.LastWordOrdered | extension/autocomplete/tokenizer.cpp:373-387 | the last word is the rest of the input behind all tokens |
| Tokenizer.NumberEnds | extension/autocomplete/tokenizer.cpp:257-272 | a number pushed in the loop starts and ends in a digit or a dot, after backtracking |
| Tokenizer.DollarTest | extension/autocomplete/tokenizer.cpp:330-367 | scanning to the next dollar and comparing is the same as finding the closing tag here |
| Tokenizer.DollarCloses | extension/autocomplete/tokenizer.cpp:330-367 | a dollar-quoted string ends at the first later occurrence of its tag, and the token is the text in between, in single quotes |
| Tokenizer.DollarStaysOpen | extension/autocomplete/tokenizer.cpp:330-367 | without such an occurrence the rest of the input yields no token |
| Tokenizer.ParserTokenizer.TokenizeInput | extension/autocomplete/tokenizer.cpp:153-388 | terminates on every input with the tokens and statements of the specification, and says whether the input is complete |
| Tokenizer.ParserTokenizer.PushToken | extension/autocomplete/tokenizer.cpp:132-138 | appends the text of a nonempty range, and nothing for an empty one |
| TokenizerStatements.TokenizeStatements | extension/autocomplete/tokenizer.cpp:158-388 | any text of tokens, dollar-quoted strings, comments of both kinds, white space and semicolons is tokenized to exactly the statements written, without the comments, if no token is continued by the text behind it; spaces are needed nowhere else |
| TokenizerStatements.TokenizePrint | extension/autocomplete/tokenizer.cpp:158-388 | words, numbers, operators, strings and quoted identifiers, each followed by a space, are tokenized to exactly that sequence, with an empty last word |
| TokenizerRoundTrip.ItemTokenizes | extension/autocomplete/tokenizer.cpp:229-316 | one token is read back and the scan goes on right behind it: a word, number or operator up to the first character that does not continue it, with a number cut back to its last digit or dot, a special operator whole, a quoted text with its doubled quotes |
| TokenizerStatements.SemicolonRuns | extension/autocomplete/tokenizer.cpp:172-176 | a semicolon ends the statement |
| TokenizerStatements.LineCommentCloses | extension/autocomplete/tokenizer.cpp:317-322 | a line comment ends at its first line end |
| TokenizerStatements.BlockCommentCloses | extension/autocomplete/tokenizer.cpp:323-329 | a block comment ends at its first closing mark |
| TokenizerStatements.CommentStaysOpen | extension/autocomplete/tokenizer.cpp:317-329 | without one, the rest of the input is a comment |
| TokenizerStatements.StringOpens | extension/autocomplete/tokenizer.cpp:178-213 | a dollar, letters and another dollar open a dollar-quoted string |
| TokenizerStatements.LastWordIsRead | extension/autocomplete/tokenizer.cpp:373-387 | a word that ends with the text is the last word |
| TokenizerStatements.OpenStringIsRead | extension/autocomplete/tokenizer.cpp:373-387 | the last word of a text that ends inside a string is the text behind the quote |
| TokenizerStatements.OpenCommentIsRead | extension/autocomplete/tokenizer.cpp:373-387 | a text that ends inside a comment is not complete |
| UnicodeSpaces.SecondPassFindsNothing | extension/autocomplete/autocomplete_extension.cpp:381-488 | from every state of the scanner, rewriting and scanning again finds no space |
| UnicodeSpaces.StripIsIdempotent | extension/autocomplete/autocomplete_extension.cpp:381-488 | a second pass over the output finds nothing and changes nothing, for every byte string |
| UnicodeSpaces.PlainSpacesFound | extension/autocomplete/autocomplete_extension.cpp:391-430 | outside quotes and comments exactly the Unicode spaces with at least three bytes left are found, each with its length |
| UnicodeSpaces.InsideIsKept | extension/autocomplete/autocomplete_extension.cpp:455-488 | text inside quotes, dollar-quoted strings and comments is skipped and kept |
| UnicodePieces.PiecesFound | extension/autocomplete/autocomplete_extension.cpp:391-488 | for every query given as pieces, exactly which Unicode spaces are found: those of a text with three bytes left, unless their bytes are taken for a tag or the scan was derailed, and behind a derailed scan those that it finds from the last dollar of the next closing tag on |
| UnicodePieces.AllFoundIff | extension/autocomplete/autocomplete_extension.cpp:391-488 | if the scan is derailed nowhere or for good, all spaces outside quotes, comments and strings are found if and only if each has three bytes left, none is taken for a tag and none comes behind a string whose body is its tag or a string or parameter that a tag and a dollar follow |
| UnicodePieces.AllFoundIffVisible | extension/autocomplete/autocomplete_extension.cpp:391-488 | the same for all queries, with the spaces that a derailed scan finds again |
| UnicodePieces.BehindDollar | extension/autocomplete/autocomplete_extension.cpp:432-448 | a dollar takes a run of bytes for a tag, and opens a string exactly if another dollar ends the run |
| UnicodePieces.RunBehindDollar | extension/autocomplete/autocomplete_extension.cpp:436-448 | behind a dollar, a space is found if and only if some byte between them cannot be part of a tag |
| UnicodePieces.InsideFinds | extension/autocomplete/autocomplete_extension.cpp:468-477 | from inside a string, exactly the spaces that the scan finds from the last dollar of the next closing tag on |
| UnicodePieces.QuotedText | extension/autocomplete/autocomplete_extension.cpp:428-466 | a quoted text, with doubled quotes inside, is kept and the scan goes on behind it |
| UnicodePieces.CommentText | extension/autocomplete/autocomplete_extension.cpp:449-482 | a comment is kept up to the end of its line or of the query |
| UnicodePieces.DollarText | extension/autocomplete/autocomplete_extension.cpp:432-477 | a dollar-quoted string is kept and the scan goes on at its last dollar, inside a string again if the body is the tag |
| UnicodePieces.SpaceBehindTagIsMissed | extension/autocomplete/autocomplete_extension.cpp:432-477 | a space right behind a dollar-quoted string is not found |
| UnicodePieces.SpaceBehindParameterIsMissed | extension/autocomplete/autocomplete_extension.cpp:432-448 | a space right behind a parameter is not found |
| UnicodePieces.SpaceBehindQuoteIsFound | extension/autocomplete/autocomplete_extension.cpp:455-466 | a space right behind a quoted text is found |
| UnicodePieces.FoundBehind | extension/autocomplete/autocomplete_extension.cpp:391-448 | where the scan is in regular text on a byte that opens no quote, a space behind that byte is found if and only if the byte is not a dollar |
| UnicodePieces.SpaceBehindLetterIsMissed | extension/autocomplete/autocomplete_extension.cpp:436-448 | a query in which a space behind a letter, two bytes behind a dollar-quoted string, is missed |
| UnicodePieces.NothingFoundBehindEmptyString | extension/autocomplete/autocomplete_extension.cpp:468-477 | a query in which the empty dollar-quoted string hides everything behind it |
| UnicodePieces.DerailedScanCanComeBack | extension/autocomplete/autocomplete_extension.cpp:468-477 | a query in which dollars in a comment make up for the empty string |
| UnicodeSpaces.SpliceIsRewrite | extension/autocomplete/autocomplete_extension.cpp:353-366 | the recorded spans are in range, in order and disjoint, and replacing each by one space gives the rewritten query |
| UnicodeSpaces.ReplaceUnicodeSpaces | extension/autocomplete/autocomplete_extension.cpp:353-366 | replaces each span by one space and copies the rest |
| UnicodeSpaces.ScanByte | extension/autocomplete/autocomplete_extension.cpp:391-488 | one step of the scanner through its labels records what the specification records |
| UnicodeSpaces.StripUnicodeSpaces | extension/autocomplete/autocomplete_extension.cpp:381-488 | says whether a space was found, and returns the query with exactly the found spaces replaced |
| ListLambda.ListFilter | extension/core_functions/lambda_functions.cpp:275-358 | for every vector size, each row gets the elements of its own list that the lambda keeps, at consecutive offsets; NULL rows are NULL; the lambda is evaluated once per element, in order, with the row's captures and the 1-based index |
| ListLambda.KeepMeans | extension/core_functions/lambda_functions.cpp:104-160 | the elements kept are those at the positions where the lambda is true, in order, and neither those where it is false nor those where it is NULL |
| ListLambda.ListFilterInfo.AppendResult | extension/core_functions/lambda_functions.cpp:104-160 | consuming a batch moves the carried row, offset and length to where the evaluations stand and fills the entries of finished rows |
| ListLambda.ListFilterInfo.SkipEmptyLists | extension/core_functions/lambda_functions.cpp:119-124 | rows without elements get an empty entry at the current offset |
| ListLambda.ListTransform | extension/core_functions/lambda_functions.cpp:275-358 | for every vector size, each row that is not NULL gets the images of its own list; one evaluation per element |
| ListLambda.SetResultEntry | extension/core_functions/lambda_functions.cpp:75-81 | the entry of a row starts where the entries before it end |
| ListLambda.ResultSlices | extension/core_functions/lambda_functions.cpp:104-160 | the entries cut the rows' own results out of the concatenated result |
| IcuTime.DayFits | src/common/types/timestamp.cpp:345-354 | the overflow test on the midnight of a timestamp's date admits exactly the finite timestamps from the first whole day on |
| IcuTime.SetTime | extension/icu/icu-datefunc.cpp:135-150 | splits a timestamp of any sign into the millisecond below it and 0 to 999 microseconds |
| IcuTime.TryGetTime | extension/icu/icu-datefunc.cpp:103-125 | succeeds exactly if the instant is a timestamp in range, and returns it |
| IcuTime.SubtractDay | extension/icu/icu-datesub.cpp:37-40 | the difference in days between the start rounded down and the end truncated to milliseconds |
| IcuAdd.SumIsExact | extension/icu/icu-dateadd.cpp:66-133 | adding days and microseconds of any sign to any finite timestamp gives the exact sum, or a range error exactly if the first millisecond, the last one or the sum is out of range |
| IcuAdd.SumIs | extension/icu/icu-dateadd.cpp:66-133 | for every interval and every behaviour of months, the value returned: if no part is negative the months, if any, move the millisecond of the timestamp and then the days and milliseconds are added; otherwise the milliseconds come first, then the months, then the days; the microseconds are carried |
| IcuAdd.MicrosSum | extension/icu/icu-dateadd.cpp:66-133 | from a timestamp in range, adding microseconds succeeds exactly if the sum is in range |
| IcuAdd.MicrosSumBelowRange | extension/icu/icu-dateadd.cpp:86-91 | which additions the first range check admits for the finite timestamps before the first whole day |
| IcuAdd.DaysSum | extension/icu/icu-dateadd.cpp:66-133 | from a timestamp in range, adding days succeeds exactly if the sum is in range |
| IcuAdd.SubtractAdded | extension/icu/icu-dateadd.cpp:140-144 | subtracting the interval that was added gives the timestamp back |
| IcuAdd.CalendarAddHour | extension/icu/icu-dateadd.cpp:47-65 | the 32-bit hour steps add up to the hours asked for, of any sign |
| IcuAdd.SplitMillis | extension/icu/icu-dateadd.cpp:98-109 | the truncating split into milliseconds, seconds, minutes and hours loses nothing, and the small units fit 32 bits |
| IcuAdd.Add | extension/icu/icu-dateadd.cpp:66-133 | the steps on the calendar give the specified sum, with no 64-bit overflow on the way |
| IcuAdd.Subtract | extension/icu/icu-dateadd.cpp:140-144 | adds the interval with each part negated, where the minimum of a type is its own negation |
| IcuBucket.Classify | extension/icu/icu-timebucket.cpp:42-62 | exactly which widths are buckets by microseconds, days and months |
| IcuBucket.BucketMeans | extension/icu/icu-timebucket.cpp:64-81 | a bucket start is the one multiple of the width from the origin with b <= ts < b + width |
| IcuBucket.MicrosBucketIs | extension/icu/icu-timebucket.cpp:64-79 | buckets by microseconds, from any origin: the right bucket start, or an error exactly on the listed overflows |
| IcuBucket.DaysBucketIs | extension/icu/icu-timebucket.cpp:81-100 | buckets by days, from an origin on a whole millisecond: the right bucket start, or an error exactly if it is out of range |
| IcuBucket.DaysBucketIff | extension/icu/icu-timebucket.cpp:81-100 | from any origin, a returned bucket by days is right if and only if the roundings of origin and timestamp do not overshoot |
| IcuBucket.OvershootHappens | extension/icu/icu-timebucket.cpp:92-96 | an input for which the returned bucket starts after the timestamp |
| IcuBucket.TimeBucketIs | extension/icu/icu-timebucket.cpp:190-204 | the bucket returned holds the timestamp, and exactly when one is returned |
| IcuBucket.WeeksStartOnMonday | extension/icu/icu-timebucket.cpp:20-22 | buckets of one week start on a Monday |
| IcuBucket.MonthsStartIn2000 | extension/icu/icu-timebucket.cpp:23-25 | the default origin of buckets by months is the first of January 2000 |
| IcuBucket.TimeBucketIsIdempotent | extension/icu/icu-timebucket.cpp:64-100 | the bucket of a bucket start is itself |
| IcuBucket.TimeBucketIsMonotone | extension/icu/icu-timebucket.cpp:64-100 | later timestamps have later or equal buckets |
| IcuBucket.OffsetBucketIs | extension/icu/icu-timebucket.cpp:206-262 | the bucket of the timestamp less the offset, plus the offset, or an error exactly if the difference, the bucket or the sum is out of range |
| IcuBucket.OffsetShiftsOrigin | extension/icu/icu-timebucket.cpp:206-262 | an offset that has a negation shifts the origin of the buckets |
| IcuBucket.MicrosCommon | extension/icu/icu-timebucket.cpp:64-79 | the truncating arithmetic and its checks, without overflow |
| IcuBucket.DaysCommon | extension/icu/icu-timebucket.cpp:81-100 | the calendar steps give the specified bucket |
| IcuBucket.TimeBucketAt | extension/icu/icu-timebucket.cpp:190-204 | the dispatch on the width |
| IcuBucket.OffsetBucketAt | extension/icu/icu-timebucket.cpp:206-262 | subtracts the offset, buckets and adds it again |
| IcuListRange.RunIsUnique | extension/icu/icu-list-range.cpp:103-121 | bounds, increment and start determine the maximal in-bounds run |
| IcuListRange.RunIsProgression | extension/icu/icu-list-range.cpp:103-121 | without months, a run is the arithmetic progression within the bounds, all of it |
| IcuListRange.RunEnds | extension/icu/icu-list-range.cpp:103-121 | without months, every run ends, at its bound or at a range error |
| IcuListRange.RunDoesNotBreak | extension/icu/icu-list-range.cpp:103-121 | a run that ends at its bound meets no range error |
| IcuListRange.RowLengthIs | extension/icu/icu-list-range.cpp:79-123 | a row is counted as n if and only if it has a run of n values and n is below 2^32 |
| IcuListRange.RowHolds | extension/icu/icu-list-range.cpp:103-121 | a value is in the row if and only if it is the start plus a multiple of the increment, and before the end, or at it if the bound is inclusive |
| IcuListRange.RowCount | extension/icu/icu-list-range.cpp:103-121 | how many values the row has, as a formula of start, end and increment, for both kinds of bound |
| IcuListRange.RowErrors | extension/icu/icu-list-range.cpp:81-96 | exactly which rows are errors before any value is counted |
| IcuListRange.ListLength | extension/icu/icu-list-range.cpp:79-123 | the checks and counting loops, which stop at 2^32 |
| IcuListRange.ListRange | extension/icu/icu-list-range.cpp:125-182 | every row holds its maximal run at the prefix sum of the lengths before it, NULL rows and zero increments hold nothing; an error is that of the first row that has one |
| IcuTableRange.CallTakes | extension/icu/icu-table-range.cpp:189-230 | a call hands out the first of the pending values, at most a chunk of them, and does not fail while there are any |
| IcuTableRange.ParametersAre | extension/icu/icu-table-range.cpp:111-154 | which rows have bounds, which they are, and which error the others raise |
| IcuTableRange.CallGives | extension/icu/icu-table-range.cpp:189-230 | what is pending after a call was pending before it, behind its output |
| IcuTableRange.DrainTakes | extension/icu/icu-table-range.cpp:189-230 | the calls until more input is needed hand out exactly what is pending, and at most one call per value and row is needed |
| IcuTableRange.DrainEnds | extension/icu/icu-table-range.cpp:189-230 | on rows without months the calls come to an end, whatever the chunk size |
| IcuTableRange.ChunkSizeDoesNotMatter | extension/icu/icu-table-range.cpp:189-230 | all sizes of the output chunks give the same concatenated output and the same empty_range |
| IcuTableRange.InputChunksDoNotMatter | extension/icu/icu-table-range.cpp:189-199 | draining two chunks of input, the second from the state that the first leaves, gives the output and empty_range of draining both at once |
| IcuTableRange.InputChunksCanBeSplit | extension/icu/icu-table-range.cpp:189-199 | and if both at once can be drained, so can one after the other |
| IcuTableRange.TableRangeIff | extension/icu/icu-table-range.cpp:139-153 | the table form hands out the values of all rows if and only if every row behind one whose bounds oppose its increment has none |
| IcuTableRange.NothingLostMeans | extension/icu/icu-table-range.cpp:139-153 | that condition in terms of the bounds of pairs of rows |
| IcuTableRange.SecondRowIsLost | extension/icu/icu-table-range.cpp:202-208 | two rows of which the second holds a value, for which nothing is handed out, whatever the chunk size |
| IcuTableRange.TableMatchesList | extension/icu/icu-table-range.cpp:189-230 | on rows that both forms accept, the table form hands out the child vector of the list form, if and only if nothing is lost |
| IcuTableRange.RangeLocalState.GenerateParameters | extension/icu/icu-table-range.cpp:111-154 | the bounds of a row, the errors, and empty_range, which is set and never cleared |
| IcuTableRange.RangeLocalState.FillChunk | extension/icu/icu-table-range.cpp:211-221 | fills at most one chunk from the current value |
| IcuTableRange.RangeLocalState.TableRange | extension/icu/icu-table-range.cpp:183-230 | one call moves the local state and fills the output as specified |

## Left out

- Catalog, setting, keyword and file suggestions: a suggestion is recorded as the leaf matcher that makes it; its candidates, scores and extra characters are not modelled.
- Keyword tables: the keyword categories are arbitrary sets of words in lower case.
- Completeness against derivations: a derivable statement may be rejected, because the matchers commit to the first alternative and because a matcher that is met again at the end of the tokens cannot be skipped; what is accepted is characterised by the ordered semantics instead.
- MatchPeg.MatchIsPeg: the condition on the graph is sufficient; for the other graphs the exact rule for the end of the tokens is that of MatchEnd.
- Matching.Match: requires a depth at which the specified match finishes, since it does not on left-recursive graphs; MatchWellFounded discharges this for well-founded graphs.
- MatcherFactory.MatcherFactory.CreateMatcher: macros that call each other in a cycle make the original recurse forever and are excluded; after an error the partly built graph is not described.
- The matcher stack is a local sequence passed from step to step, not an object with its own identity.
- Checker.CheckStatements: one compiled matcher serves all statements, where the original compiles the same grammar again for each of them.
- QueryChecker.CheckQuery: a NULL query, which is an error, is not modelled.
- Rejected statements: the text of the error message, and what the matcher would have suggested.
- GrammarLexer.PegParser.ParseRules: grammar text that ends inside an escape or a regular expression is read past its end by the original; here it is an error of its own.
- TokenizerStatements.TokenizeStatements: a dollar that opens no string, such as that of a parameter, is read by the model but not written.
- MatchSuggests.ContinuationsAreSuggested: the leaves behind a child that can be skipped are suggested as well; which children are skipped is stated in MatchEnd.
- Unicode in the tokenizer: characters are the bytes that the original reads, as QueryChecker says; the character classes of `StringUtil` are modelled by their ASCII members.
- UnicodePieces.PiecesFound: dollar-quoted strings whose body starts with the tag and a dollar are no pieces, and a dollar-quoted string or parameter is what the two dollars or the dollar make it, whether or not the tokenizer reads it so.
- Suggestion mode of the tokenizer: only the tokenizer of the parser check is modelled, not the handling of the last, unfinished word.
- ListLambda: vectors, selection vectors and validity masks are sequences and arrays, the expression executor is a pure function of element, captured values and index; constant vectors, which are evaluated for one row, and list_reduce are not modelled.
- Calendars: time zones, daylight saving, calendars other than a fixed day length, date_trunc, date_part, strptime and strftime.
- Floating point: instants are exact integers; a UDate loses single milliseconds beyond 2^53.
- IcuAdd.SubtractAdded: intervals that mix days and microseconds, and those with a part that has no negation, are not covered.
- Bucket widths in months: their result is an arbitrary function of width, timestamp and origin.
- IcuBucket.DaysBucketIff: says nothing about when a range error is raised for an origin that is not on a whole millisecond.
- Differences of timestamps and `age`, which mix rounding down and truncation near the epoch.
- NULL origins and infinite origins of time_bucket, which give NULL before any arithmetic.
- IcuTableRange.TableRangeIff: is about inputs on which every row has a run; with months, a run may be endless, and after an error the output of earlier calls has already been handed out.
- Cardinality estimates, binding, serialisation and registration of the functions.
