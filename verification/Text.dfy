/** Character classes and case folding used by the tokenizer and the matchers. */
module Text {

  /** StringUtil::CharacterIsSpace */
  predicate IsSpace(c: char) {
    c == ' ' || c == '\t' || c == '\n' || c == 11 as char || c == 12 as char || c == '\r'
  }

  /** StringUtil::CharacterIsNewline */
  predicate IsNewline(c: char) {
    c == '\n' || c == '\r'
  }

  /** StringUtil::CharacterIsAlphaNumeric */
  predicate IsAlphaNumeric(c: char) {
    'A' <= c <= 'Z' || 'a' <= c <= 'z' || '0' <= c <= '9'
  }

  /** StringUtil::CharacterIsOperator */
  predicate IsOperatorCharacter(c: char) {
    && c != '_'
    && ('!' <= c <= '/' || ':' <= c <= '@' || '[' <= c <= '`' || '{' <= c <= '~')
  }

  /** BaseTokenizer::IsSingleByteOperator */
  predicate IsSingleByteOperator(c: char) {
    c in "(){}[],?$+-#"
  }

  /** BaseTokenizer::CharacterIsInitialNumber */
  predicate IsInitialNumber(c: char) {
    '0' <= c <= '9' || c == '.'
  }

  /** BaseTokenizer::CharacterIsNumber */
  predicate IsNumber(c: char) {
    IsInitialNumber(c) || c in "eE-+_"
  }

  /** BaseTokenizer::CharacterIsControlFlow */
  predicate IsControlFlow(c: char) {
    c in "'-;\"."
  }

  /** BaseTokenizer::CharacterIsKeyword */
  predicate IsKeyword(c: char) {
    && !IsSingleByteOperator(c)
    && !IsOperatorCharacter(c)
    && !IsSpace(c)
    && !IsControlFlow(c)
  }

  /** BaseTokenizer::CharacterIsOperator */
  predicate IsOperator(c: char) {
    && !IsSingleByteOperator(c)
    && !IsControlFlow(c)
    && IsOperatorCharacter(c)
  }

  function LowerChar(c: char): char {
    if 'A' <= c <= 'Z' then (c as int + 32) as char else c
  }

  function Lower(s: string): (r: string)
    ensures |r| == |s|
  {
    seq(|s|, i requires 0 <= i < |s| => LowerChar(s[i]))
  }

  /** StringUtil::CIEquals */
  predicate EqualsIgnoreCase(a: string, b: string) {
    Lower(a) == Lower(b)
  }

  // ----- Pieces of a text -----

  /** A piece occurs in the text at a position. */
  predicate At(s: string, i: nat, piece: string) {
    i + |piece| <= |s| && s[i..i + |piece|] == piece
  }

  lemma AtValue(s: string, i: nat, piece: string)
    requires At(s, i, piece)
    ensures i + |piece| <= |s| && s[i..i + |piece|] == piece
  {
  }

  lemma AtIndex(s: string, i: nat, piece: string, k: nat)
    requires At(s, i, piece) && k < |piece|
    ensures s[i + k] == piece[k]
  {
    assert s[i..i + |piece|][k] == piece[k];
  }

  lemma AtSplit(s: string, i: nat, piece: string, rest: string)
    requires At(s, i, piece + rest)
    ensures At(s, i, piece) && At(s, i + |piece|, rest)
  {
    var n := |piece| + |rest|;
    assert s[i..i + |piece|] == s[i..i + n][..|piece|];
    assert s[i + |piece|..i + n] == s[i..i + n][|piece|..];
    assert (piece + rest)[..|piece|] == piece && (piece + rest)[|piece|..] == rest;
  }
}
