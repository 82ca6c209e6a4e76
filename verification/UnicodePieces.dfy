/** Which Unicode spaces of a query StripUnicodeSpaces finds (autocomplete_extension.cpp:391-488),
    for a query given as texts, quoted texts, comments and dollar-quoted strings. */
module UnicodePieces {
  import opened UnicodeSpaces

  // ----- Quoted texts and comments -----

  /** Every quote in the body is doubled. */
  predicate Doubled(quote: byte, body: seq<byte>) {
    if body == [] then true
    else if body[0] != quote then Doubled(quote, body[1..])
    else |body| > 1 && body[1] == quote && Doubled(quote, body[2..])
  }

  lemma {:induction false} DoubledIsKept(quote: byte, body: seq<byte>, rest: seq<byte>, pos: nat)
    requires Doubled(quote, body)
    ensures Spans(Quotes(quote), body + rest, pos) == Spans(Quotes(quote), rest, pos + |body|)
    ensures Rewrite(Quotes(quote), body + rest) == body + Rewrite(Quotes(quote), rest)
    decreases |body|
  {
    hide Spans, Rewrite;
    if body == [] {
      assert body + rest == rest;
    } else if body[0] != quote {
      InsideStep(Quotes(quote), body + rest, pos);
      assert (body + rest)[1..] == body[1..] + rest;
      DoubledIsKept(quote, body[1..], rest, pos + 1);
      assert body == [body[0]] + body[1..];
    } else {
      QuoteDoubles(quote, body[2..] + rest, pos);
      assert body + rest == [quote, quote] + (body[2..] + rest);
      DoubledIsKept(quote, body[2..], rest, pos + 2);
      assert body == [quote, quote] + body[2..];
    }
  }

  lemma QuoteDoubles(quote: byte, rest: seq<byte>, pos: nat)
    ensures Spans(Quotes(quote), [quote, quote] + rest, pos) == Spans(Quotes(quote), rest, pos + 2)
    ensures Rewrite(Quotes(quote), [quote, quote] + rest) == [quote, quote] + Rewrite(Quotes(quote), rest)
  {
    var s := [quote, quote] + rest;
    assert s[2..] == rest && s[..2] == [quote, quote];
  }

  /** A quoted text is kept, and the scan goes on behind it. */
  lemma QuotedText(quote: byte, body: seq<byte>, rest: seq<byte>, pos: nat)
    requires IsQuote(quote) && Doubled(quote, body) && (rest == [] || rest[0] != quote)
    ensures var s := [quote] + (body + ([quote] + rest));
            && Spans(Regular, s, pos) == Spans(Regular, rest, pos + |body| + 2)
            && Rewrite(Regular, s) == [quote] + (body + ([quote] + Rewrite(Regular, rest)))
  {
    hide Spans, Rewrite;
    QuoteOpens(quote, body + ([quote] + rest), pos);
    DoubledIsKept(quote, body, [quote] + rest, pos + 1);
    QuoteCloses(quote, rest, pos + 1 + |body|);
  }

  lemma QuoteOpens(quote: byte, rest: seq<byte>, pos: nat)
    requires IsQuote(quote)
    ensures |rest| > 1 ==> Spans(Regular, [quote] + rest, pos) == Spans(Quotes(quote), rest, pos + 1)
    ensures |rest| > 1 ==> Rewrite(Regular, [quote] + rest) == [quote] + Rewrite(Quotes(quote), rest)
    ensures |rest| <= 1 ==> Spans(Regular, [quote] + rest, pos) == Spans(Quotes(quote), rest, pos + 1) == []
    ensures |rest| <= 1 ==> Rewrite(Regular, [quote] + rest) == [quote] + Rewrite(Quotes(quote), rest)
  {
    assert ([quote] + rest)[1..] == rest;
  }

  lemma QuoteCloses(quote: byte, rest: seq<byte>, pos: nat)
    requires rest == [] || rest[0] != quote
    ensures Spans(Quotes(quote), [quote] + rest, pos) == Spans(Regular, rest, pos + 1)
    ensures Rewrite(Quotes(quote), [quote] + rest) == [quote] + Rewrite(Regular, rest)
  {
    assert ([quote] + rest)[1..] == rest;
  }

  /** A comment is kept up to the end of its line, or of the query. */
  lemma CommentText(body: seq<byte>, rest: seq<byte>, pos: nat)
    requires (forall k :: 0 <= k < |body| ==> !IsLineEnd(body[k])) && (rest == [] || IsLineEnd(rest[0]))
    ensures var comment := [DASH, DASH] + body;
            && Spans(Regular, comment + rest, pos) == Spans(Regular, rest, pos + |comment|)
            && Rewrite(Regular, comment + rest) == comment + Rewrite(Regular, rest)
  {
    var comment := [DASH, DASH] + body;
    InsideIsKept(Comment, comment, rest, pos);
    var s := comment + rest;
    assert s[0] == DASH == s[1];
  }

  // ----- Behind a dollar -----

  predicate IsTag(tag: seq<byte>) {
    (tag != [] ==> IsTagStart(tag[0])) && forall k :: 0 <= k < |tag| ==> IsTagPart(tag[k])
  }

  /** How many bytes from the start can be part of a tag. */
  function TagRun(s: seq<byte>): (n: nat)
    ensures n <= |s| && (forall k :: 0 <= k < n ==> IsTagPart(s[k])) && (n < |s| ==> !IsTagPart(s[n]))
  {
    if s == [] || !IsTagPart(s[0]) then 0 else 1 + TagRun(s[1..])
  }

  /** How many bytes a dollar in front takes for a tag. */
  function Taken(s: seq<byte>): (n: nat)
    ensures n <= |s| && IsTag(s[..n])
  {
    if s != [] && IsTagStart(s[0]) then TagRun(s) else 0
  }

  /** The bytes that the dollar in front takes for a tag end in another dollar. */
  predicate OpensString(s: seq<byte>) {
    Taken(s) < |s| && s[Taken(s)] == DOLLAR
  }

  lemma {:induction false} TagIsRead(read: seq<byte>, s: seq<byte>, pos: nat)
    ensures var n := TagRun(s);
            var m := if n < |s| && s[n] == DOLLAR then Dollar(read + s[..n]) else Regular;
            && Spans(Tag(read), s, pos) == Spans(m, s[n..], pos + n)
            && Rewrite(Tag(read), s) == s[..n] + Rewrite(m, s[n..])
    decreases |s|
  {
    hide Spans, Rewrite;
    var n := TagRun(s);
    if n == 0 {
      assert read + s[..0] == read && s[0..] == s;
      TagEnds(read, s, pos);
    } else {
      var rest := s[1..];
      TagIsRead(read + [s[0]], rest, pos + 1);
      TagStep(read, s, pos);
      assert n == TagRun(rest) + 1;
      Rejoins(read, s, n);
    }
  }

  lemma Rejoins(read: seq<byte>, s: seq<byte>, n: nat)
    requires 0 < n <= |s|
    ensures s[1..][n - 1..] == s[n..] && (n < |s| ==> s[1..][n - 1] == s[n])
    ensures read + [s[0]] + s[1..][..n - 1] == read + s[..n]
    ensures forall t: seq<byte> :: [s[0]] + (s[1..][..n - 1] + t) == s[..n] + t
  {
    assert [s[0]] + s[1..][..n - 1] == s[..n];
  }

  lemma TagEnds(read: seq<byte>, s: seq<byte>, pos: nat)
    requires TagRun(s) == 0
    ensures var m := if s != [] && s[0] == DOLLAR then Dollar(read) else Regular;
            Spans(Tag(read), s, pos) == Spans(m, s, pos) && Rewrite(Tag(read), s) == Rewrite(m, s)
  {
    hide SpaceLength;
  }

  lemma TagStep(read: seq<byte>, s: seq<byte>, pos: nat)
    requires TagRun(s) > 0
    ensures Spans(Tag(read), s, pos) == Spans(Tag(read + [s[0]]), s[1..], pos + 1)
    ensures Rewrite(Tag(read), s) == [s[0]] + Rewrite(Tag(read + [s[0]]), s[1..])
  {
    hide SpaceLength;
  }

  /** A dollar in regular text takes a run of bytes for a tag. If another dollar ends the run, a
      string is opened; otherwise the scan goes on behind the run. */
  lemma BehindDollar(s: seq<byte>, pos: nat)
    ensures var n := Taken(s);
            var m := if OpensString(s) then Dollar(s[..n]) else Regular;
            && Spans(Regular, [DOLLAR] + s, pos) == Spans(m, s[n..], pos + 1 + n)
            && Rewrite(Regular, [DOLLAR] + s) == [DOLLAR] + s[..n] + Rewrite(m, s[n..])
  {
    hide Spans, Rewrite, TagRun;
    DollarStarts(s, pos);
    var n := Taken(s);
    if s != [] && (s[0] == DOLLAR || IsTagStart(s[0])) {
      assert n == TagRun(s);
      TagIsRead([], s, pos + 1);
      assert [] + s[..n] == s[..n];
    } else {
      assert n == 0 && s[0..] == s && s[..0] == [];
    }
  }

  lemma DollarStarts(s: seq<byte>, pos: nat)
    ensures var m := if s != [] && (s[0] == DOLLAR || IsTagStart(s[0])) then Tag([]) else Regular;
            && Spans(Regular, [DOLLAR] + s, pos) == Spans(m, s, pos + 1)
            && Rewrite(Regular, [DOLLAR] + s) == [DOLLAR] + Rewrite(m, s)
  {
    assert ([DOLLAR] + s)[1..] == s;
  }

  /** Behind a dollar, a space of plain text is found exactly if some byte between them cannot be
      part of a tag. */
  lemma RunBehindDollar(p: seq<byte>, pos: nat, k: nat, bytes: nat)
    requires Plain(p) && p != [] && IsTagStart(p[0])
    ensures Span(pos + 1 + k, bytes) in Spans(Regular, [DOLLAR] + p, pos) <==>
            && k + 2 < |p| && bytes > 0 && SpaceLength(p[k..]) == bytes
            && exists j :: 0 <= j < k && !IsTagPart(p[j])
  {
    hide Spans, SpaceLength;
    var n, span := Taken(p), Span(pos + 1 + k, bytes);
    BehindDollar(p, pos);
    if k < n {
      if span in Spans(Regular, p[n..], pos + 1 + n) {
        SpansStart(Regular, p[n..], pos + 1 + n, span);
      }
    } else {
      PlainSpacesFound(p[n..], pos + 1 + n, k - n, bytes);
      assert k + 2 < |p| ==> p[n..][k - n..] == p[k..];
      if k == n && k + 2 < |p| {
        NoSpaceHere(p[k..]);
      }
    }
  }

  lemma NoSpaceHere(s: seq<byte>)
    requires |s| > 2 && !IsTagPart(s[0])
    ensures SpaceLength(s) == 0
  {
  }

  // ----- Dollar-quoted strings -----

  /** The closing tag occurs first behind the body. */
  predicate EndsFirst(tag: seq<byte>, body: seq<byte>) {
    forall k :: 0 <= k < |body| ==> !Closes(tag, (body + ClosingTag(tag))[k..])
  }

  function ClosingTag(tag: seq<byte>): seq<byte> {
    [DOLLAR] + tag + [DOLLAR]
  }

  /** The last dollar of the opening tag is already the first one of a closing tag. */
  predicate ClosesAtOnce(tag: seq<byte>, body: seq<byte>) {
    Closes(tag, [DOLLAR] + body + ClosingTag(tag))
  }

  /** From inside a string, a space is found behind the next closing tag, read from that tag's
      last dollar on. */
  ghost predicate Reopened(tag: seq<byte>, s: seq<byte>, pos: nat, span: Span) {
    exists k: nat :: ReopenedAt(tag, s, pos, span, k)
  }

  ghost predicate ReopenedAt(tag: seq<byte>, s: seq<byte>, pos: nat, span: Span, k: nat) {
    NextClose(tag, s, k) && span in Spans(Regular, s[k + |tag| + 1..], pos + k + |tag| + 1)
  }

  /** The first closing tag is at byte k. */
  ghost predicate NextClose(tag: seq<byte>, s: seq<byte>, k: nat) {
    && k + 2 < |s| && k + |tag| + 1 < |s|
    && Closes(tag, s[k..]) && forall j :: 0 <= j < k ==> !Closes(tag, s[j..])
  }

  lemma {:induction false} InsideFinds(tag: seq<byte>, s: seq<byte>, pos: nat, span: Span)
    ensures span in Spans(Dollar(tag), s, pos) <==> Reopened(tag, s, pos, span)
    decreases |s|
  {
    hide Closes, SpaceLength;
    if |s| > 2 {
      assert s[0..] == s;
      if Closes(tag, s) {
        ClosesHere(tag, s);
        assert ReopenedAt(tag, s, pos, span, 0) <==> span in Spans(Regular, s[|tag| + 1..], pos + |tag| + 1);
      } else {
        InsideFinds(tag, s[1..], pos + 1, span);
        ReopenedStep(tag, s, pos, span);
      }
    }
  }

  lemma ClosesHere(tag: seq<byte>, s: seq<byte>)
    requires |s| > 2 && Closes(tag, s)
    ensures |tag| + 1 < |s| && forall k: nat :: NextClose(tag, s, k) <==> k == 0
  {
    assert s[0..] == s;
    forall k: nat ensures NextClose(tag, s, k) <==> k == 0 {
      if k > 0 {
        assert Closes(tag, s[0..]);
      }
    }
  }

  lemma NextCloseStep(tag: seq<byte>, s: seq<byte>, k: nat)
    requires |s| > 2 && !Closes(tag, s)
    ensures !NextClose(tag, s, 0)
    ensures NextClose(tag, s[1..], k) <==> NextClose(tag, s, k + 1)
  {
    hide Closes;
    var rest := s[1..];
    assert s[0..] == s;
    assert forall j :: 0 <= j < |rest| ==> rest[j..] == s[j + 1..];
    assert forall j :: 0 < j < |s| ==> s[j..] == rest[j - 1..];
  }

  lemma ReopenedStep(tag: seq<byte>, s: seq<byte>, pos: nat, span: Span)
    requires |s| > 2 && !Closes(tag, s)
    ensures Reopened(tag, s, pos, span) <==> Reopened(tag, s[1..], pos + 1, span)
  {
    hide Closes, NextClose, Spans;
    var rest, m, next := s[1..], |tag| + 1, pos + 1;
    if k: nat :| ReopenedAt(tag, rest, next, span, k) {
      NextCloseStep(tag, s, k);
      CloseWithin(tag, rest, k);
      assert rest[k + m..] == s[k + 1 + m..] && ReopenedAt(tag, s, pos, span, k + 1);
    }
    if k: nat :| ReopenedAt(tag, s, pos, span, k) {
      NextCloseStep(tag, s, if k > 0 then k - 1 else 0);
      CloseWithin(tag, s, k);
      assert rest[k - 1 + m..] == s[k + m..] && ReopenedAt(tag, rest, pos + 1, span, k - 1);
    }
  }

  lemma CloseWithin(tag: seq<byte>, s: seq<byte>, k: nat)
    requires NextClose(tag, s, k)
    ensures k + |tag| + 1 < |s|
  {
  }

  /** No closing tag starts in the first k bytes. */
  lemma {:induction false} SkipsTo(tag: seq<byte>, s: seq<byte>, k: nat, pos: nat)
    requires k <= |s| && forall j :: 0 <= j < k ==> !Closes(tag, s[j..])
    ensures Spans(Dollar(tag), s, pos) == Spans(Dollar(tag), s[k..], pos + k)
    ensures Rewrite(Dollar(tag), s) == s[..k] + Rewrite(Dollar(tag), s[k..])
    decreases k
  {
    hide Spans, Rewrite, Closes;
    assert s[0..] == s && s[..0] == [];
    if k > 0 {
      assert !Closes(tag, s[0..]);
      DollarSkips(tag, s, pos);
      var rest := s[1..];
      forall j | 0 <= j < k - 1 ensures !Closes(tag, rest[j..]) {
        assert rest[j..] == s[j + 1..];
      }
      SkipsTo(tag, rest, k - 1, pos + 1);
      assert rest[k - 1..] == s[k..] && [s[0]] + rest[..k - 1] == s[..k];
    }
  }

  lemma DollarSkips(tag: seq<byte>, s: seq<byte>, pos: nat)
    requires s != [] && !Closes(tag, s)
    ensures Spans(Dollar(tag), s, pos) == Spans(Dollar(tag), s[1..], pos + 1)
    ensures Rewrite(Dollar(tag), s) == [s[0]] + Rewrite(Dollar(tag), s[1..])
  {
    hide SpaceLength;
  }

  lemma DollarEnds(tag: seq<byte>, rest: seq<byte>, pos: nat)
    ensures var close, last := [DOLLAR] + tag, [DOLLAR] + rest;
            && Spans(Dollar(tag), close + last, pos) == Spans(Regular, last, pos + |close|)
            && Rewrite(Dollar(tag), close + last) == close + Rewrite(Regular, last)
  {
    var close, last := [DOLLAR] + tag, [DOLLAR] + rest;
    var s := close + last;
    assert s[1..|tag| + 1] == tag && s[..|tag| + 1] == close && s[|tag| + 1..] == last;
    assert Closes(tag, s);
  }

  lemma TagIsTaken(tag: seq<byte>, rest: seq<byte>)
    requires IsTag(tag) && rest != [] && rest[0] == DOLLAR
    ensures Taken(tag + rest) == |tag| && OpensString(tag + rest)
    ensures (tag + rest)[..|tag|] == tag && (tag + rest)[|tag|..] == rest
  {
    var s := tag + rest;
    assert s[|tag|] == DOLLAR;
    if tag != [] {
      assert s[0] == tag[0];
      assert TagRun(s) >= |tag|;
    }
  }

  /** An opening tag is read, and the scan stands at its last dollar inside the string. */
  lemma StringOpens(tag: seq<byte>, rest: seq<byte>, pos: nat)
    requires IsTag(tag) && rest != [] && rest[0] == DOLLAR
    ensures Spans(Regular, [DOLLAR] + (tag + rest), pos) == Spans(Dollar(tag), rest, pos + 1 + |tag|)
    ensures Rewrite(Regular, [DOLLAR] + (tag + rest)) == [DOLLAR] + tag + Rewrite(Dollar(tag), rest)
  {
    hide Spans, Rewrite;
    TagIsTaken(tag, rest);
    BehindDollar(tag + rest, pos);
  }

  /** A dollar-quoted string is kept and the scan goes on at its last dollar: in regular text, or,
      if the body is the tag, inside a string again. */
  lemma DollarText(tag: seq<byte>, body: seq<byte>, rest: seq<byte>, pos: nat)
    requires IsTag(tag) && EndsFirst(tag, body) && (ClosesAtOnce(tag, body) ==> body == tag)
    ensures var text := [DOLLAR] + (tag + ([DOLLAR] + body + ([DOLLAR] + tag)));
            var last := [DOLLAR] + rest;
            var m := if body == tag then Dollar(tag) else Regular;
            && Spans(Regular, text + last, pos) == Spans(m, last, pos + |text|)
            && Rewrite(Regular, text + last) == text + Rewrite(m, last)
  {
    hide Spans, Rewrite, Closes, ClosesAtOnce, EndsFirst;
    var close, last := [DOLLAR] + tag, [DOLLAR] + rest;
    var inside := [DOLLAR] + body + close + last;
    var text := [DOLLAR] + (tag + ([DOLLAR] + body + close));
    assert text + last == [DOLLAR] + (tag + inside);
    StringOpens(tag, inside, pos);
    if body == tag {
      var again := [DOLLAR] + (tag + last);
      assert inside == close + again;
      DollarEnds(tag, tag + last, pos + 1 + |tag|);
      StringOpens(tag, last, pos + 1 + |tag| + |close|);
      assert text == [DOLLAR] + tag + (close + ([DOLLAR] + tag));
    } else {
      BodyDoesNotClose(tag, body, rest);
      SkipsTo(tag, inside, |body| + 1, pos + 1 + |tag|);
      assert inside[|body| + 1..] == close + last && inside[..|body| + 1] == [DOLLAR] + body;
      DollarEnds(tag, rest, pos + 2 + |tag| + |body|);
    }
  }

  lemma BodyDoesNotClose(tag: seq<byte>, body: seq<byte>, rest: seq<byte>)
    requires EndsFirst(tag, body) && !ClosesAtOnce(tag, body)
    ensures var inside := [DOLLAR] + body + ([DOLLAR] + tag) + ([DOLLAR] + rest);
            forall j :: 0 <= j < |body| + 1 ==> !Closes(tag, inside[j..])
  {
    hide Closes;
    var inside := [DOLLAR] + body + ([DOLLAR] + tag) + ([DOLLAR] + rest);
    var short := [DOLLAR] + body + ClosingTag(tag);
    assert inside == short + rest;
    forall j | 0 <= j < |body| + 1 ensures !Closes(tag, inside[j..]) {
      assert short[j..] == if j == 0 then short else (body + ClosingTag(tag))[j - 1..];
      assert inside[j..] == short[j..] + rest;
      ClosesEarly(tag, short[j..], rest);
    }
  }

  lemma ClosesEarly(tag: seq<byte>, s: seq<byte>, rest: seq<byte>)
    requires |s| > |tag| + 1
    ensures Closes(tag, s + rest) == Closes(tag, s)
  {
    assert (s + rest)[1..|tag| + 1] == s[1..|tag| + 1];
  }

  // ----- Texts -----

  /** The encodings of U+00A0, U+2000 to U+200B, U+202F, U+205F, U+2060, U+3000 and U+FEFF. */
  predicate IsUnicodeSpace(c: seq<byte>) {
    || c == [0xC2, 0xA0]
    || (|c| == 3 && c[0] == 0xE2 && c[1] == 0x80 && (0x80 <= c[2] <= 0x8B || c[2] == 0xAF))
    || c == [0xE2, 0x81, 0x9F] || c == [0xE2, 0x81, 0xA0]
    || c == [0xE3, 0x80, 0x80]
    || c == [0xEF, 0xBB, 0xBF]
  }

  /** A Unicode space of a text. */
  predicate SpaceIn(text: seq<byte>, k: nat, bytes: nat) {
    k + bytes <= |text| && IsUnicodeSpace(text[k..k + bytes])
  }

  /** Text without quotes, without two dashes in a row, and without a dollar in front of a byte
      that can start a tag. */
  predicate PlainText(text: seq<byte>) {
    forall k :: 0 <= k < |text| ==> PlainAt(text, k)
  }

  predicate PlainAt(text: seq<byte>, k: nat)
    requires k < |text|
  {
    && !IsQuote(text[k])
    && (text[k] == DOLLAR && k + 1 < |text| ==> text[k + 1] != DOLLAR && !IsTagStart(text[k + 1]))
    && (text[k] == DASH && k + 1 < |text| ==> text[k + 1] != DASH)
  }

  /** What follows a text continues neither a space nor a comment nor a tag. */
  predicate Joins(text: seq<byte>, rest: seq<byte>) {
    rest != [] ==>
      && rest[0] < 0x80
      && (text != [] && text[|text| - 1] == DASH ==> rest[0] != DASH)
      && (text != [] && text[|text| - 1] == DOLLAR ==> rest[0] != DOLLAR && !IsTagStart(rest[0]))
  }

  lemma SpaceAtStart(text: seq<byte>, rest: seq<byte>, bytes: nat)
    requires text != [] && Joins(text, rest) && |text + rest| > 2
    ensures bytes > 0 && SpaceLength(text + rest) == bytes <==> SpaceIn(text, 0, bytes)
  {
    var s := text + rest;
    assert forall k :: 0 <= k < |text| ==> s[k] == text[k];
    assert forall k :: |text| <= k < |s| ==> s[k] == rest[k - |text|];
    if bytes <= |text| {
      assert |text[0..bytes]| == bytes && forall k :: 0 <= k < bytes ==> text[0..bytes][k] == text[k];
    }
    if bytes == 2 && SpaceLength(s) == 2 && |text| >= 2 {
      assert text[0..2] == [0xC2, 0xA0];
    }
    if bytes == 3 && SpaceLength(s) == 3 && |text| >= 3 {
      assert text[0..3] == [s[0], s[1], s[2]];
    }
  }

  lemma TextStep(text: seq<byte>, rest: seq<byte>, pos: nat)
    requires text != [] && PlainText(text) && Joins(text, rest) && |text + rest| > 2
    ensures var s := text + rest;
            var tail := Spans(Regular, s[1..], pos + 1);
            Spans(Regular, s, pos) == if SpaceLength(s) > 0 then [Span(pos, SpaceLength(s))] + tail else tail
  {
    hide SpaceLength;
    var s := text + rest;
    assert s[0] == text[0] && s[1] == if |text| > 1 then text[1] else rest[0];
    assert PlainAt(text, 0);
    assert !OpensTag(s) && !OpensComment(s);
  }

  /** In a text exactly the Unicode spaces with three bytes left are found. */
  lemma {:induction false} TextFinds(text: seq<byte>, rest: seq<byte>, pos: nat, k: nat, bytes: nat)
    requires PlainText(text) && Joins(text, rest)
    ensures Span(pos + k, bytes) in Spans(Regular, text + rest, pos) <==>
            if k < |text| then k + 2 < |text + rest| && SpaceIn(text, k, bytes)
            else Span(pos + k, bytes) in Spans(Regular, rest, pos + |text|)
    decreases |text|
  {
    hide Spans, SpaceLength, IsUnicodeSpace, PlainText, Joins;
    var s := text + rest;
    if text == [] {
      assert s == rest;
    } else if |s| <= 2 {
      NothingInShort(s, pos);
      NothingInShort(rest, pos + |text|);
    } else {
      var tail, span := text[1..], Span(pos + k, bytes);
      assert s[1..] == tail + rest;
      TextStep(text, rest, pos);
      if k == 0 {
        SpaceAtStart(text, rest, bytes);
        NothingBefore(Regular, s[1..], pos + 1, span);
      } else {
        TailIsPlain(text, 1, rest);
        TextFinds(tail, rest, pos + 1, k - 1, bytes);
        SpaceInTail(text, 1, k, bytes);
      }
    }
  }

  lemma NothingInShort(s: seq<byte>, pos: nat)
    requires |s| <= 2
    ensures Spans(Regular, s, pos) == []
  {
  }

  lemma SpaceInTail(text: seq<byte>, n: nat, k: nat, bytes: nat)
    requires n <= k && n <= |text|
    ensures SpaceIn(text[n..], k - n, bytes) <==> SpaceIn(text, k, bytes)
  {
    hide IsUnicodeSpace;
    assert k + bytes <= |text| ==> text[n..][k - n..k - n + bytes] == text[k..k + bytes];
  }

  // ----- Pieces -----

  /** The last two kinds are unfinished and can only stand at the end. */
  datatype Piece =
    | Text(text: seq<byte>)
    | Quoted(quote: byte, body: seq<byte>)
    | LineComment(body: seq<byte>)
    | Dollars(tag: seq<byte>, body: seq<byte>)
    | Parameter(name: seq<byte>)
    | OpenQuoted(quote: byte, body: seq<byte>)
    | OpenDollars(tag: seq<byte>, body: seq<byte>)
  {
    function Bytes(): (s: seq<byte>)
      ensures !Text? ==> s != []
    {
      match this
      case Text(text) => text
      case Quoted(quote, body) => [quote] + (body + [quote])
      case LineComment(body) => [DASH, DASH] + body
      case Dollars(tag, body) => [DOLLAR] + (tag + ([DOLLAR] + body + ([DOLLAR] + tag))) + [DOLLAR]
      case Parameter(name) => [DOLLAR] + name
      case OpenQuoted(quote, body) => [quote] + body
      case OpenDollars(tag, body) => [DOLLAR] + (tag + ([DOLLAR] + body))
    }

    /** A piece, and that it ends where the rest starts. */
    ghost predicate Fits(rest: seq<byte>) {
      match this
      case Text(text) => text != [] && PlainText(text) && Joins(text, rest) && (rest != [] ==> !IsTagPart(rest[0]))
      case Quoted(quote, body) => IsQuote(quote) && Doubled(quote, body) && (rest == [] || rest[0] != quote)
      case LineComment(body) =>
        (forall k :: 0 <= k < |body| ==> !IsLineEnd(body[k])) && (rest == [] || IsLineEnd(rest[0]))
      case Dollars(tag, body) => IsTag(tag) && EndsFirst(tag, body) && (ClosesAtOnce(tag, body) ==> body == tag)
      case Parameter(name) => name != [] && IsTag(name)
      case OpenQuoted(quote, body) => IsQuote(quote) && Doubled(quote, body) && rest == []
      case OpenDollars(tag, body) => IsTag(tag) && rest == [] && forall k: nat :: !NextClose(tag, [DOLLAR] + body, k)
    }
  }

  function Render(ps: seq<Piece>): seq<byte> {
    if ps == [] then [] else ps[0].Bytes() + Render(ps[1..])
  }

  ghost predicate WellFormed(ps: seq<Piece>) {
    ps != [] ==> ps[0].Fits(Render(ps[1..])) && WellFormed(ps[1..])
  }

  /** A Unicode space outside quotes, comments and dollar-quoted strings. */
  predicate IsSpaceOf(ps: seq<Piece>, p: nat, bytes: nat) {
    && ps != []
    && var n := |ps[0].Bytes()|;
       if p < n then ps[0].Text? && SpaceIn(ps[0].text, p, bytes) else IsSpaceOf(ps[1..], p - n, bytes)
  }

  /** What stands in front of the rest of a query: a dollar that may start a tag, or part of one. */
  datatype Front = Neither | LastDollar | TagSoFar(tag: seq<byte>)

  function FrontOf(p: Piece): Front {
    if p.Dollars? then LastDollar else if p.Parameter? then TagSoFar(p.name) else Neither
  }

  /** How many bytes of the rest are taken for a tag. */
  function Lead(front: Front, rest: seq<byte>): (n: nat)
    ensures n <= |rest|
  {
    match front
    case Neither => 0
    case LastDollar => Taken(rest)
    case TagSoFar(_) => TagRun(rest)
  }

  /** That tag. */
  function TagOf(front: Front, rest: seq<byte>): seq<byte> {
    (if front.TagSoFar? then front.tag else []) + rest[..Lead(front, rest)]
  }

  /** The tag ends in a dollar, so that a string is opened. */
  predicate Opens(front: Front, rest: seq<byte>) {
    !front.Neither? && Lead(front, rest) < |rest| && rest[Lead(front, rest)] == DOLLAR
  }

  /** The scan loses its way behind a dollar-quoted string or a parameter: the body is the tag, or
      the bytes up to the next dollar are a tag. */
  predicate Derails(p: Piece, rest: seq<byte>) {
    (p.Dollars? && p.body == p.tag) || Opens(FrontOf(p), rest)
  }

  /** The space at byte p of the pieces is found, behind the given front. */
  ghost predicate Visible(ps: seq<Piece>, front: Front, pos: nat, p: nat, bytes: nat)
    decreases |ps|
  {
    && ps != []
    && var n, rest := |ps[0].Bytes()|, Render(ps[1..]);
       if p < n then
         && ps[0].Text?
         && SpaceIn(ps[0].text, p, bytes)
         && p + 2 < |Render(ps)|
         && p >= Lead(front, ps[0].text)
       else if !Derails(ps[0], rest) then Visible(ps[1..], FrontOf(ps[0]), pos + n, p - n, bytes)
       else FoundAgain(ps[0], rest, pos + n, Span(pos + p, bytes))
  }

  /** A space is found behind a piece that derails the scan. */
  ghost predicate FoundAgain(piece: Piece, rest: seq<byte>, pos: nat, span: Span)
    requires pos > 0
  {
    if piece.Dollars? && piece.body == piece.tag then Reopened(piece.tag, [DOLLAR] + rest, pos - 1, span)
    else
      var front := FrontOf(piece);
      Reopened(TagOf(front, rest), rest[Lead(front, rest)..], pos + Lead(front, rest), span)
  }

  /** What the scan finds in the pieces. */
  ghost function Scan(ps: seq<Piece>, front: Front, pos: nat): seq<Span> {
    var s := Render(ps);
    Spans(Regular, s[Lead(front, s)..], pos + Lead(front, s))
  }

  lemma TakenText(text: seq<byte>, rest: seq<byte>)
    requires text != [] && (rest != [] ==> !IsTagPart(rest[0]))
    ensures Taken(text + rest) == Taken(text)
  {
    var s := text + rest;
    assert s[0] == text[0];
    TagRunText(text, rest);
  }

  lemma {:induction false} TagRunText(text: seq<byte>, rest: seq<byte>)
    requires rest != [] ==> !IsTagPart(rest[0])
    ensures TagRun(text + rest) == TagRun(text)
    decreases |text|
  {
    if text == [] {
      assert text + rest == rest;
    } else {
      assert (text + rest)[1..] == text[1..] + rest;
      TagRunText(text[1..], rest);
    }
  }

  lemma LeadText(front: Front, text: seq<byte>, rest: seq<byte>)
    requires text != [] && (rest != [] ==> !IsTagPart(rest[0]))
    ensures Lead(front, text + rest) == Lead(front, text)
  {
    hide TagRun;
    TakenText(text, rest);
    TagRunText(text, rest);
  }

  lemma TextScan(text: seq<byte>, rest: seq<byte>, front: Front, pos: nat, p: nat, bytes: nat)
    requires Text(text).Fits(rest)
    ensures var s := text + rest;
            var n := Lead(front, s);
            Span(pos + p, bytes) in Spans(Regular, s[n..], pos + n) <==>
            if p < |text| then SpaceIn(text, p, bytes) && p + 2 < |s| && p >= Lead(front, text)
            else Span(pos + p, bytes) in Spans(Regular, rest, pos + |text|)
  {
    hide Spans, SpaceIn, PlainText, Joins, Lead;
    var s := text + rest;
    LeadText(front, text, rest);
    var n := Lead(front, s);
    var tail, span := text[n..], Span(pos + p, bytes);
    assert s[n..] == tail + rest;
    if p < n {
      NothingBefore(Regular, s[n..], pos + n, span);
    } else {
      TailIsPlain(text, n, rest);
      TextFinds(tail, rest, pos + n, p - n, bytes);
      SpaceInTail(text, n, p, bytes);
    }
  }

  lemma TailIsPlain(text: seq<byte>, n: nat, rest: seq<byte>)
    requires n <= |text| && PlainText(text) && Joins(text, rest)
    ensures PlainText(text[n..]) && Joins(text[n..], rest)
  {
    var tail := text[n..];
    forall k | 0 <= k < |tail| ensures PlainAt(tail, k) {
      assert PlainAt(text, n + k);
    }
  }

  /** What the scan finds in and behind a piece that is not a text. */
  lemma PieceScan(piece: Piece, rest: seq<byte>, pos: nat)
    requires !piece.Text? && piece.Fits(rest)
    ensures var n, front := |piece.Bytes()|, FrontOf(piece);
            var m := Lead(front, rest);
            Spans(Regular, piece.Bytes() + rest, pos) ==
            if piece.Dollars? && piece.body == piece.tag then Spans(Dollar(piece.tag), [DOLLAR] + rest, pos + n - 1)
            else if Opens(front, rest) then Spans(Dollar(TagOf(front, rest)), rest[m..], pos + n + m)
            else Spans(Regular, rest[m..], pos + n + m)
  {
    hide Spans, Taken, TagRun, Piece.Bytes, Piece.Fits;
    assert rest[0..] == rest;
    match piece {
      case Quoted(_, _) => SealedScan(piece, rest, pos);
      case LineComment(_) => SealedScan(piece, rest, pos);
      case Dollars(tag, body) =>
        StringScan(tag, body, rest, pos);
        assert [] + rest[..Taken(rest)] == rest[..Taken(rest)];
      case Parameter(name) => ParameterScan(name, rest, pos);
      case OpenQuoted(_, _) => OpenScan(piece, rest, pos);
      case OpenDollars(_, _) => OpenScan(piece, rest, pos);
    }
  }

  lemma SealedScan(piece: Piece, rest: seq<byte>, pos: nat)
    requires (piece.Quoted? || piece.LineComment?) && piece.Fits(rest)
    ensures Spans(Regular, piece.Bytes() + rest, pos) == Spans(Regular, rest, pos + |piece.Bytes()|)
  {
    hide Spans, Rewrite;
    if piece.Quoted? {
      assert piece.Bytes() + rest == [piece.quote] + (piece.body + ([piece.quote] + rest));
      QuotedText(piece.quote, piece.body, rest, pos);
    } else {
      CommentText(piece.body, rest, pos);
    }
  }

  lemma StringScan(tag: seq<byte>, body: seq<byte>, rest: seq<byte>, pos: nat)
    requires Dollars(tag, body).Fits(rest)
    ensures var text, n := Dollars(tag, body).Bytes(), Taken(rest);
            Spans(Regular, text + rest, pos) ==
            if body == tag then Spans(Dollar(tag), [DOLLAR] + rest, pos + |text| - 1)
            else if OpensString(rest) then Spans(Dollar(rest[..n]), rest[n..], pos + |text| + n)
            else Spans(Regular, rest[n..], pos + |text| + n)
  {
    hide Spans, Rewrite, Closes, EndsFirst, ClosesAtOnce, Taken, OpensString, IsTag;
    var text := [DOLLAR] + (tag + ([DOLLAR] + body + ([DOLLAR] + tag)));
    assert Dollars(tag, body).Bytes() + rest == text + ([DOLLAR] + rest);
    DollarText(tag, body, rest, pos);
    BehindDollar(rest, pos + |text|);
  }

  /** Nothing is found in an unfinished piece. */
  lemma OpenScan(piece: Piece, rest: seq<byte>, pos: nat)
    requires (piece.OpenQuoted? || piece.OpenDollars?) && piece.Fits(rest)
    ensures Spans(Regular, piece.Bytes() + rest, pos) == Spans(Regular, rest, pos + |piece.Bytes()|) == []
  {
    hide Spans, Rewrite;
    var body := piece.body;
    NothingLeft(Regular, pos + |piece.Bytes()|);
    if piece.OpenQuoted? {
      assert piece.Bytes() + rest == [piece.quote] + body && body + [] == body;
      QuoteOpens(piece.quote, body, pos);
      DoubledIsKept(piece.quote, body, [], pos + 1);
      NothingLeft(Quotes(piece.quote), pos + 1 + |body|);
    } else {
      assert piece.Bytes() + rest == [DOLLAR] + (piece.tag + ([DOLLAR] + body));
      StringOpens(piece.tag, [DOLLAR] + body, pos);
      NeverCloses(piece.tag, [DOLLAR] + body, pos + 1 + |piece.tag|);
    }
  }

  lemma ParameterScan(name: seq<byte>, rest: seq<byte>, pos: nat)
    requires Parameter(name).Fits(rest)
    ensures var n, m := |Parameter(name).Bytes()|, TagRun(rest);
            Spans(Regular, Parameter(name).Bytes() + rest, pos) ==
            if m < |rest| && rest[m] == DOLLAR then Spans(Dollar(name + rest[..m]), rest[m..], pos + n + m)
            else Spans(Regular, rest[m..], pos + n + m)
  {
    hide Spans, Rewrite, TagRun;
    var s, m := name + rest, TagRun(rest);
    assert [DOLLAR] + name + rest == [DOLLAR] + s;
    BehindDollar(s, pos);
    TagRunBehind(name, rest);
    assert s[0] == name[0] && Taken(s) == |name| + m;
    assert s[|name| + m..] == rest[m..] && s[..|name| + m] == name + rest[..m];
    assert m < |rest| ==> s[|name| + m] == rest[m];
  }

  lemma {:induction false} TagRunBehind(name: seq<byte>, rest: seq<byte>)
    requires forall k :: 0 <= k < |name| ==> IsTagPart(name[k])
    ensures TagRun(name + rest) == |name| + TagRun(rest)
    decreases |name|
  {
    if name == [] {
      assert name + rest == rest;
    } else {
      assert (name + rest)[1..] == name[1..] + rest;
      TagRunBehind(name[1..], rest);
    }
  }

  lemma NothingLeft(m: Mode, pos: nat)
    ensures Spans(m, [], pos) == []
  {
  }

  lemma NeverCloses(tag: seq<byte>, s: seq<byte>, pos: nat)
    requires forall k: nat :: !NextClose(tag, s, k)
    ensures Spans(Dollar(tag), s, pos) == []
  {
    hide Spans, NextClose;
    if Spans(Dollar(tag), s, pos) != [] {
      InsideFinds(tag, s, pos, Spans(Dollar(tag), s, pos)[0]);
    }
  }

  /** Which spaces are found in the pieces of a query, from any place at which the scan is in
      regular text. */
  lemma {:induction false} ScanFinds(ps: seq<Piece>, front: Front, pos: nat, p: nat, bytes: nat)
    requires WellFormed(ps)
    ensures Span(pos + p, bytes) in Scan(ps, front, pos) <==> Visible(ps, front, pos, p, bytes)
    decreases |ps|
  {
    hide Scan, SpaceIn, Piece.Bytes, Lead, Piece.Fits, FoundAgain, Opens;
    if ps == [] {
      NothingScanned(front, pos);
    } else {
      if ps[0].Text? {
        TextPieceFinds(ps, front, pos, p, bytes);
      } else {
        PieceFinds(ps, front, pos, p, bytes);
      }
      var n := |ps[0].Bytes()|;
      if p >= n && !Derails(ps[0], Render(ps[1..])) {
        ScanFinds(ps[1..], FrontOf(ps[0]), pos + n, p - n, bytes);
      }
    }
  }

  lemma NothingScanned(front: Front, pos: nat)
    ensures Scan([], front, pos) == []
  {
  }

  lemma TextPieceFinds(ps: seq<Piece>, front: Front, pos: nat, p: nat, bytes: nat)
    requires WellFormed(ps) && ps != [] && ps[0].Text?
    ensures var n, text, span := |ps[0].Bytes()|, ps[0].text, Span(pos + p, bytes);
            && n == |text| && !Derails(ps[0], Render(ps[1..]))
            && (span in Scan(ps, front, pos) <==>
                if p < n then SpaceIn(text, p, bytes) && p + 2 < |Render(ps)| && p >= Lead(front, text)
                else span in Scan(ps[1..], Neither, pos + n))
  {
    hide Spans, SpaceIn, Lead, Piece.Fits, Piece.Bytes;
    TextBytes(ps[0]);
    TextScan(ps[0].text, Render(ps[1..]), front, pos, p, bytes);
    ScanPlain(ps[1..], pos + |ps[0].text|);
  }

  lemma TextBytes(piece: Piece)
    requires piece.Text?
    ensures piece.Bytes() == piece.text
  {
  }

  lemma ScanPlain(ps: seq<Piece>, pos: nat)
    ensures Scan(ps, Neither, pos) == Spans(Regular, Render(ps), pos)
  {
    assert Render(ps)[0..] == Render(ps);
  }

  lemma PieceFinds(ps: seq<Piece>, front: Front, pos: nat, p: nat, bytes: nat)
    requires WellFormed(ps) && ps != [] && !ps[0].Text?
    ensures var n, rest, span := |ps[0].Bytes()|, Render(ps[1..]), Span(pos + p, bytes);
            span in Scan(ps, front, pos) <==>
            && p >= n
            && if !Derails(ps[0], rest) then span in Scan(ps[1..], FrontOf(ps[0]), pos + n)
               else FoundAgain(ps[0], rest, pos + n, span)
  {
    hide Spans, Lead, FoundAgain, Piece.Fits, Piece.Bytes, Opens;
    NotTaken(front, ps[0], Render(ps[1..]));
    assert Render(ps)[0..] == Render(ps);
    PieceBehind(ps[0], Render(ps[1..]), pos, Span(pos + p, bytes));
  }

  lemma PieceBehind(piece: Piece, rest: seq<byte>, pos: nat, span: Span)
    requires !piece.Text? && piece.Fits(rest)
    ensures var n, m := |piece.Bytes()|, Lead(FrontOf(piece), rest);
            span in Spans(Regular, piece.Bytes() + rest, pos) <==>
            && pos + n <= span.pos
            && if Derails(piece, rest) then FoundAgain(piece, rest, pos + n, span)
               else span in Spans(Regular, rest[m..], pos + n + m)
  {
    hide Spans, Lead, Reopened, Piece.Fits, Piece.Bytes, TagOf;
    var n, front := |piece.Bytes()|, FrontOf(piece);
    var m := Lead(front, rest);
    PieceScan(piece, rest, pos);
    if piece.Dollars? && piece.body == piece.tag {
      InsideFinds(piece.tag, [DOLLAR] + rest, pos + n - 1, span);
      InsideStarts(piece.tag, [DOLLAR] + rest, pos + n - 1, span);
    } else if Opens(front, rest) {
      InsideFinds(TagOf(front, rest), rest[m..], pos + n + m, span);
      NothingBefore(Dollar(TagOf(front, rest)), rest[m..], pos + n + m, span);
    } else {
      NothingBefore(Regular, rest[m..], pos + n + m, span);
    }
  }

  lemma NothingBefore(m: Mode, s: seq<byte>, pos: nat, span: Span)
    ensures span in Spans(m, s, pos) ==> pos <= span.pos
  {
    hide Spans;
    if span in Spans(m, s, pos) {
      SpansStart(m, s, pos, span);
    }
  }

  lemma InsideStarts(tag: seq<byte>, s: seq<byte>, pos: nat, span: Span)
    ensures span in Spans(Dollar(tag), s, pos) ==> pos < span.pos
  {
    hide Spans, NextClose;
    InsideFinds(tag, s, pos, span);
    if k: nat :| ReopenedAt(tag, s, pos, span, k) {
      CloseWithin(tag, s, k);
      SpansStart(Regular, s[k + |tag| + 1..], pos + k + |tag| + 1, span);
    }
  }

  lemma NotTaken(front: Front, piece: Piece, rest: seq<byte>)
    requires !piece.Text? && piece.Fits(rest)
    ensures Lead(front, piece.Bytes() + rest) == 0
  {
    hide NextClose, Doubled, EndsFirst, ClosesAtOnce;
    var s := piece.Bytes() + rest;
    assert s[0] == piece.Bytes()[0];
  }

  /** Which Unicode spaces of a query StripUnicodeSpaces finds, for every query given as pieces. */
  lemma PiecesFound(ps: seq<Piece>, p: nat, bytes: nat)
    requires WellFormed(ps)
    ensures Span(p, bytes) in Spans(Regular, Render(ps), 0) <==> Visible(ps, Neither, 0, p, bytes)
  {
    hide Visible, Spans;
    ScanFinds(ps, Neither, 0, p, bytes);
    assert Render(ps)[0..] == Render(ps);
  }

  // ----- When all spaces are found -----

  /** Behind a piece that has derailed the scan, no closing tag follows. */
  ghost predicate NeverReopened(piece: Piece, rest: seq<byte>) {
    var front := FrontOf(piece);
    if piece.Dollars? && piece.body == piece.tag then forall k: nat :: !NextClose(piece.tag, [DOLLAR] + rest, k)
    else
      var tag, tail := TagOf(front, rest), rest[Lead(front, rest)..];
      forall k: nat :: !NextClose(tag, tail, k)
  }

  /** The scan is derailed nowhere, or for the rest of the query. */
  ghost predicate Settled(ps: seq<Piece>) {
    ps != [] ==>
      if Derails(ps[0], Render(ps[1..])) then NeverReopened(ps[0], Render(ps[1..])) else Settled(ps[1..])
  }

  /** Byte p is taken for a tag, or comes behind a piece that derails the scan. */
  predicate Unseen(ps: seq<Piece>, front: Front, p: nat) {
    && ps != []
    && var n := |ps[0].Bytes()|;
       if p < n then ps[0].Text? && p < Lead(front, ps[0].text)
       else Derails(ps[0], Render(ps[1..])) || Unseen(ps[1..], FrontOf(ps[0]), p - n)
  }

  lemma {:induction false} SettledVisible(ps: seq<Piece>, front: Front, pos: nat, p: nat, bytes: nat)
    requires Settled(ps)
    ensures Visible(ps, front, pos, p, bytes) <==>
            IsSpaceOf(ps, p, bytes) && p + 2 < |Render(ps)| && !Unseen(ps, front, p)
    decreases |ps|
  {
    hide Spans, IsUnicodeSpace, Piece.Bytes, Lead, NextClose, TagOf;
    if ps != [] && p >= |ps[0].Bytes()| && !Derails(ps[0], Render(ps[1..])) {
      var n := |ps[0].Bytes()|;
      SettledVisible(ps[1..], FrontOf(ps[0]), pos + n, p - n, bytes);
    }
  }

  /** All Unicode spaces outside quotes, comments and dollar-quoted strings are found. */
  ghost predicate AllFound(ps: seq<Piece>) {
    forall p: nat, bytes: nat :: IsSpaceOf(ps, p, bytes) ==> Span(p, bytes) in Spans(Regular, Render(ps), 0)
  }

  ghost predicate NoneMissed(ps: seq<Piece>) {
    forall p: nat, bytes: nat :: IsSpaceOf(ps, p, bytes) ==> p + 2 < |Render(ps)| && !Unseen(ps, Neither, p)
  }

  /** They are found if and only if each has three bytes left, none is among the bytes behind a
      dollar-quoted string or a parameter that are taken for a tag, and none comes behind a string
      whose body is its tag, or behind a string or parameter that a tag and a dollar follow. */
  lemma AllFoundIff(ps: seq<Piece>)
    requires WellFormed(ps) && Settled(ps)
    ensures AllFound(ps) <==> NoneMissed(ps)
  {
    hide Spans, Visible, Settled;
    if AllFound(ps) {
      forall p: nat, bytes: nat | IsSpaceOf(ps, p, bytes) ensures p + 2 < |Render(ps)| && !Unseen(ps, Neither, p) {
        PiecesFound(ps, p, bytes);
        SettledVisible(ps, Neither, 0, p, bytes);
      }
    }
    if NoneMissed(ps) {
      forall p: nat, bytes: nat | IsSpaceOf(ps, p, bytes) ensures Span(p, bytes) in Spans(Regular, Render(ps), 0) {
        PiecesFound(ps, p, bytes);
        SettledVisible(ps, Neither, 0, p, bytes);
      }
    }
  }

  ghost predicate AllVisible(ps: seq<Piece>) {
    forall p: nat, bytes: nat :: IsSpaceOf(ps, p, bytes) ==> Visible(ps, Neither, 0, p, bytes)
  }

  /** For all queries: also a space behind a piece that derails the scan is found, if a closing tag
      comes in between and the scan from its last dollar on finds it. */
  lemma AllFoundIffVisible(ps: seq<Piece>)
    requires WellFormed(ps)
    ensures AllFound(ps) <==> AllVisible(ps)
  {
    hide Spans;
    if AllFound(ps) {
      forall p: nat, bytes: nat | IsSpaceOf(ps, p, bytes) ensures Visible(ps, Neither, 0, p, bytes) {
        PiecesFound(ps, p, bytes);
      }
    }
    if AllVisible(ps) {
      forall p: nat, bytes: nat | IsSpaceOf(ps, p, bytes) ensures Span(p, bytes) in Spans(Regular, Render(ps), 0) {
        PiecesFound(ps, p, bytes);
      }
    }
  }

  // ----- Inputs -----

  /** Behind `$$x$$` and U+00A0 the letter a does not help: the U+00A0 behind it is missed too. */
  lemma SpaceBehindLetterIsMissed()
    ensures var ps := [Dollars([], [0x78]), Text([0xC2, 0xA0, 0x61, 0xC2, 0xA0, SPACE, SPACE, SPACE])];
            && WellFormed(ps) && IsSpaceOf(ps, 8, 2)
            && Span(8, 2) !in Spans(Regular, Render(ps), 0)
  {
    hide Spans, TagRun;
    var text := [0xC2, 0xA0, 0x61, 0xC2, 0xA0, SPACE, SPACE, SPACE];
    var ps := [Dollars([], [0x78]), Text(text)];
    assert ps[1..] == [Text(text)] && [Text(text)][1..] == [];
    TextAlone(text);
    assert text[3..5] == [0xC2, 0xA0];
    assert |ps[0].Bytes()| == 5;
    assert Taken(text) == 5 by {
      assert IsTagPart(text[0]) && IsTagPart(text[1]) && IsTagPart(text[2]) && IsTagPart(text[3]) && IsTagPart(text[4]);
      assert !IsTagPart(text[5]);
    }
    assert !Derails(ps[0], text);
    assert !Visible([Text(text)], LastDollar, 5, 3, 2);
    PiecesFound(ps, 8, 2);
  }

  lemma TextAlone(text: seq<byte>)
    requires text != [] && PlainText(text)
    ensures Render([Text(text)]) == text && WellFormed([Text(text)])
  {
    assert [Text(text)][1..] == [];
  }

  /** Behind the empty string `$$$$` nothing is found. */
  lemma NothingFoundBehindEmptyString()
    ensures var ps := [Dollars([], []), Text([SPACE, 0x61, 0xC2, 0xA0, 0x62, SPACE, SPACE])];
            && WellFormed(ps) && IsSpaceOf(ps, 6, 2)
            && Spans(Regular, Render(ps), 0) == []
  {
    hide Spans, TagRun;
    var text := [SPACE, 0x61, 0xC2, 0xA0, 0x62, SPACE, SPACE];
    var ps := [Dollars([], []), Text(text)];
    assert ps[1..] == [Text(text)] && [Text(text)][1..] == [];
    TextAlone(text);
    assert text[2..4] == [0xC2, 0xA0];
    assert |ps[0].Bytes()| == 4;
    PieceScan(ps[0], text, 0);
    NeverCloses([], [DOLLAR] + text, 3);
  }

  /** A scan that is derailed can come back: behind `$$$$`, a comment with `$$` in it makes up for
      the empty string. */
  lemma DerailedScanCanComeBack()
    ensures var ps := [Dollars([], []), LineComment([DOLLAR, DOLLAR]), Text([0x0A, 0xC2, 0xA0, 0x62, SPACE])];
            && WellFormed(ps) && Derails(ps[0], Render(ps[1..])) && IsSpaceOf(ps, 9, 2)
            && Span(9, 2) in Spans(Regular, Render(ps), 0)
  {
    hide TagRun;
    var text := [0x0A, 0xC2, 0xA0, 0x62, SPACE];
    var ps := [Dollars([], []), LineComment([DOLLAR, DOLLAR]), Text(text)];
    var rest := [DASH, DASH, DOLLAR, DOLLAR, 0x0A, 0xC2, 0xA0, 0x62, SPACE];
    assert ps[1..] == [LineComment([DOLLAR, DOLLAR]), Text(text)] && ps[1..][1..] == [Text(text)];
    TextAlone(text);
    assert Render(ps[1..]) == rest;
    assert text[1..3] == [0xC2, 0xA0];
    assert IsSpaceOf([Text(text)], 1, 2) && IsSpaceOf(ps[1..], 5, 2);
    PieceScan(ps[0], rest, 0);
    CommentReopens(rest);
  }

  lemma CommentReopens(rest: seq<byte>)
    requires rest == [DASH, DASH, DOLLAR, DOLLAR, 0x0A, 0xC2, 0xA0, 0x62, SPACE]
    ensures Span(9, 2) in Spans(Dollar([]), [DOLLAR] + rest, 3)
  {
    hide TagRun;
    var s := [DOLLAR] + rest;
    var tail := [DOLLAR, 0x0A, 0xC2, 0xA0, 0x62, SPACE];
    assert s[3 + 0 + 1..] == tail;
    assert NextClose([], s, 3);
    DollarStarts(tail[1..], 7);
    assert tail == [DOLLAR] + tail[1..];
    TextFinds(tail[1..], [], 8, 1, 2);
    assert tail[1..] + [] == tail[1..] && tail[1..][1..3] == [0xC2, 0xA0];
    assert ReopenedAt([], s, 3, Span(9, 2), 3);
    InsideFinds([], s, 3, Span(9, 2));
  }

  // ----- Next to a space -----

  /** In regular text, a space behind a byte that opens no quote is found, except behind a dollar,
      which takes the space for the start of a tag. */
  lemma FoundBehind(s: seq<byte>, pos: nat)
    requires |s| > 3 && !IsQuote(s[0]) && SpaceLength(s[1..]) > 0
    ensures Span(pos + 1, SpaceLength(s[1..])) in Spans(Regular, s, pos) <==> s[0] != DOLLAR
  {
    hide Spans, TagRun;
    var rest := s[1..];
    var span := Span(pos + 1, SpaceLength(rest));
    if s[0] == DOLLAR {
      BehindDollar(rest, pos);
      assert s == [DOLLAR] + rest;
      var n := Taken(rest);
      NothingBefore(if OpensString(rest) then Dollar(rest[..n]) else Regular, rest[n..], pos + 1 + n, span);
    } else {
      RegularStep(s, pos);
      SpaceIsFirst(rest, pos + 1);
    }
  }

  lemma RegularStep(s: seq<byte>, pos: nat)
    requires |s| > 2 && !IsQuote(s[0]) && s[0] != DOLLAR && s[1] >= 0xC0
    ensures Spans(Regular, s, pos) == Spans(Regular, s[1..], pos + 1)
  {
  }

  lemma SpaceIsFirst(s: seq<byte>, pos: nat)
    requires |s| > 2 && SpaceLength(s) > 0
    ensures Span(pos, SpaceLength(s)) in Spans(Regular, s, pos)
  {
    assert Spans(Regular, s, pos)[0] == Span(pos, SpaceLength(s));
  }

  /** A space right behind a dollar-quoted string is missed. */
  lemma SpaceBehindTagIsMissed(tag: seq<byte>, body: seq<byte>, rest: seq<byte>, pos: nat)
    requires Dollars(tag, body).Fits(rest) && |rest| > 2 && SpaceLength(rest) > 0
    ensures var text := Dollars(tag, body).Bytes();
            Span(pos + |text|, SpaceLength(rest)) !in Spans(Regular, text + rest, pos)
  {
    hide Spans, TagRun, Closes, EndsFirst, ClosesAtOnce;
    var text := Dollars(tag, body).Bytes();
    var span, n := Span(pos + |text|, SpaceLength(rest)), Taken(rest);
    assert n > 0;
    PieceBehind(Dollars(tag, body), rest, pos, span);
    if body == tag {
      NotReopenedAtOnce(tag, rest, pos + |text| - 1, span);
    } else if OpensString(rest) {
      InsideFinds([] + rest[..n], rest[n..], pos + |text| + n, span);
      NothingBefore(Dollar([] + rest[..n]), rest[n..], pos + |text| + n, span);
    } else {
      NothingBefore(Regular, rest[n..], pos + |text| + n, span);
    }
  }

  /** And so is one right behind a parameter. */
  lemma SpaceBehindParameterIsMissed(name: seq<byte>, rest: seq<byte>, pos: nat)
    requires Parameter(name).Fits(rest) && |rest| > 2 && SpaceLength(rest) > 0
    ensures Span(pos + 1 + |name|, SpaceLength(rest)) !in Spans(Regular, [DOLLAR] + name + rest, pos)
  {
    hide Spans;
    var span, n := Span(pos + 1 + |name|, SpaceLength(rest)), TagRun(rest);
    assert n > 0;
    ParameterScan(name, rest, pos);
    NothingBefore(Regular, rest[n..], pos + 1 + |name| + n, span);
    NothingBefore(Dollar(name + rest[..n]), rest[n..], pos + 1 + |name| + n, span);
  }

  lemma NotReopenedAtOnce(tag: seq<byte>, rest: seq<byte>, pos: nat, span: Span)
    requires rest != [] && rest[0] != DOLLAR && span.pos == pos + 1
    ensures !Reopened(tag, [DOLLAR] + rest, pos, span)
  {
    hide Spans;
    var s := [DOLLAR] + rest;
    assert s[0..] == s;
    if k: nat :| ReopenedAt(tag, s, pos, span, k) {
      SpansStart(Regular, s[k + |tag| + 1..], pos + k + |tag| + 1, span);
    }
  }

  /** A space right behind a quoted text is found. */
  lemma SpaceBehindQuoteIsFound(quote: byte, body: seq<byte>, rest: seq<byte>, pos: nat)
    requires IsQuote(quote) && Doubled(quote, body) && |rest| > 2 && SpaceLength(rest) > 0
    ensures Span(pos + |body| + 2, SpaceLength(rest)) in Spans(Regular, [quote] + (body + ([quote] + rest)), pos)
  {
    hide Spans;
    QuotedText(quote, body, rest, pos);
    SpaceIsFirst(rest, pos + |body| + 2);
  }
}
