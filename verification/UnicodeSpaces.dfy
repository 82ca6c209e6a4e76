/** StripUnicodeSpaces and ReplaceUnicodeSpaces (autocomplete_extension.cpp:345-488): a
    scanner over the bytes of a query that finds Unicode space characters outside quotes,
    dollar-quoted strings and line comments, and replaces each by one space. */
module UnicodeSpaces {

  type byte = b: int | 0 <= b < 256

  const SPACE: byte := 0x20
  const DOLLAR: byte := 0x24
  const DASH: byte := 0x2D

  predicate IsQuote(b: byte) {
    b == 0x22 || b == 0x27
  }

  predicate IsLineEnd(b: byte) {
    b == 0x0A || b == 0x0D
  }

  /** IsValidDollarQuotedStringTagFirstChar */
  predicate IsTagStart(b: byte) {
    0x41 <= b <= 0x5A || 0x61 <= b <= 0x7A || b >= 0x80
  }

  /** IsValidDollarQuotedStringTagSubsequentChar */
  predicate IsTagPart(b: byte) {
    IsTagStart(b) || 0x30 <= b <= 0x39
  }

  /** The length of the Unicode space that the bytes start with, or 0. */
  function SpaceLength(s: seq<byte>): nat
    requires |s| > 2
  {
    if s[0] == 0xC2 then
      if s[1] == 0xA0 then 2 else 0
    else if s[0] == 0xE2 then
      if s[1] == 0x80 then
        if 0x80 <= s[2] <= 0x8B || s[2] == 0xAF then 3 else 0
      else if s[1] == 0x81 then
        if s[2] == 0x9F || s[2] == 0xA0 then 3 else 0
      else 0
    else if s[0] == 0xE3 then
      if s[1] == 0x80 && s[2] == 0x80 then 3 else 0
    else if s[0] == 0xEF then
      if s[1] == 0xBB && s[2] == 0xBF then 3 else 0
    else 0
  }

  /** The bytes a Unicode space can start with, and those it continues with, are disjoint
      (section 3 of RFC 3629). */
  predicate IsLead(b: byte) {
    b == 0xC2 || b == 0xE2 || b == 0xE3 || b == 0xEF
  }

  predicate IsContinuation(b: byte) {
    0x80 <= b <= 0xBF
  }

  /** The label the scanner is at; Tag is the loop that reads a dollar quote's tag. */
  datatype Mode = Regular | Quotes(quote: byte) | Tag(read: seq<byte>) | Dollar(tag: seq<byte>) | Comment

  predicate Closes(tag: seq<byte>, s: seq<byte>)
    requires |s| > 0
  {
    && s[0] == DOLLAR
    && |s| - 1 >= |tag| + 1
    && s[|tag| + 1] == DOLLAR
    && s[1..|tag| + 1] == tag
  }

  predicate OpensTag(s: seq<byte>)
    requires |s| > 1
  {
    s[0] == DOLLAR && (s[1] == DOLLAR || IsTagStart(s[1]))
  }

  predicate OpensComment(s: seq<byte>)
    requires |s| > 1
  {
    s[0] == DASH && s[1] == DASH
  }

  /** Orders the labels at which the scanner stands still: a tag ends where a quote or
      regular text starts, a comment ends at the line end it then reads. */
  function Standing(m: Mode, s: seq<byte>): nat {
    match m
    case Tag(_) => 2
    case Comment => if s != [] && IsLineEnd(s[0]) then 2 else 0
    case Regular => 1
    case _ => 0
  }

  /** UnicodeSpace */
  datatype Span = Span(pos: nat, bytes: nat)

  /** The spaces recorded from byte `pos` on, where `s` is the rest of the query: the
      scan steps one byte at a time, into the spaces it has just recorded. */
  function Spans(m: Mode, s: seq<byte>, pos: nat): seq<Span>
    decreases |s|, Standing(m, s)
  {
    match m
    case Regular =>
      if |s| <= 2 then []
      else if SpaceLength(s) > 0 then [Span(pos, SpaceLength(s))] + Spans(Regular, s[1..], pos + 1)
      else if IsQuote(s[0]) then Spans(Quotes(s[0]), s[1..], pos + 1)
      else if OpensTag(s) then Spans(Tag([]), s[1..], pos + 1)
      else if OpensComment(s) then Spans(Comment, s, pos)
      else Spans(Regular, s[1..], pos + 1)
    case Quotes(quote) =>
      if |s| <= 1 then []
      else if s[0] != quote then Spans(m, s[1..], pos + 1)
      else if s[1] == quote then Spans(m, s[2..], pos + 2)
      else Spans(Regular, s[1..], pos + 1)
    case Tag(read) =>
      if |s| <= 2 then []
      else if s[0] == DOLLAR then Spans(Dollar(read), s, pos)
      else if !IsTagPart(s[0]) then Spans(Regular, s, pos)
      else Spans(Tag(read + [s[0]]), s[1..], pos + 1)
    case Dollar(tag) =>
      if |s| <= 2 then []
      else if Closes(tag, s) then Spans(Regular, s[|tag| + 1..], pos + |tag| + 1)
      else Spans(m, s[1..], pos + 1)
    case Comment =>
      if s == [] then []
      else if IsLineEnd(s[0]) then Spans(Regular, s, pos)
      else Spans(m, s[1..], pos + 1)
  }

  /** The rest of the query with its spaces replaced, skipping over each space at once. */
  function Rewrite(m: Mode, s: seq<byte>): seq<byte>
    decreases |s|, Standing(m, s)
  {
    match m
    case Regular =>
      if |s| <= 2 then s
      else if SpaceLength(s) > 0 then [SPACE] + Rewrite(Regular, s[SpaceLength(s)..])
      else if IsQuote(s[0]) then [s[0]] + Rewrite(Quotes(s[0]), s[1..])
      else if OpensTag(s) then [s[0]] + Rewrite(Tag([]), s[1..])
      else if OpensComment(s) then Rewrite(Comment, s)
      else [s[0]] + Rewrite(Regular, s[1..])
    case Quotes(quote) =>
      if |s| <= 1 then s
      else if s[0] != quote then [s[0]] + Rewrite(m, s[1..])
      else if s[1] == quote then s[..2] + Rewrite(m, s[2..])
      else [s[0]] + Rewrite(Regular, s[1..])
    case Tag(read) =>
      if |s| <= 2 then s
      else if s[0] == DOLLAR then Rewrite(Dollar(read), s)
      else if !IsTagPart(s[0]) then Rewrite(Regular, s)
      else [s[0]] + Rewrite(Tag(read + [s[0]]), s[1..])
    case Dollar(tag) =>
      if |s| <= 2 then s
      else if Closes(tag, s) then s[..|tag| + 1] + Rewrite(Regular, s[|tag| + 1..])
      else [s[0]] + Rewrite(m, s[1..])
    case Comment =>
      if s == [] then s
      else if IsLineEnd(s[0]) then Rewrite(Regular, s)
      else [s[0]] + Rewrite(m, s[1..])
  }

  // ----- Which spaces are found -----

  /** No byte starts a quote, a dollar quote or a comment. */
  predicate Plain(s: seq<byte>) {
    forall k :: 0 <= k < |s| ==> !IsQuote(s[k]) && s[k] != DOLLAR && s[k] != DASH
  }

  /** Nothing is recorded behind the scanner. */
  lemma {:induction false} SpansStart(m: Mode, s: seq<byte>, pos: nat, span: Span)
    requires span in Spans(m, s, pos)
    ensures pos <= span.pos
    decreases |s|, Standing(m, s)
  {
    hide SpaceLength;
    match m {
      case Regular =>
        if IsQuote(s[0]) {
          if SpaceLength(s) == 0 { SpansStart(Quotes(s[0]), s[1..], pos + 1, span); }
        } else if OpensTag(s) {
          if SpaceLength(s) == 0 { SpansStart(Tag([]), s[1..], pos + 1, span); }
        } else if OpensComment(s) {
          if SpaceLength(s) == 0 { SpansStart(Comment, s, pos, span); }
        } else if span in Spans(Regular, s[1..], pos + 1) {
          SpansStart(Regular, s[1..], pos + 1, span);
        }
        if SpaceLength(s) > 0 && span in Spans(Regular, s[1..], pos + 1) {
          SpansStart(Regular, s[1..], pos + 1, span);
        }
      case Quotes(quote) =>
        if s[0] != quote {
          SpansStart(m, s[1..], pos + 1, span);
        } else if s[1] == quote {
          SpansStart(m, s[2..], pos + 2, span);
        } else {
          SpansStart(Regular, s[1..], pos + 1, span);
        }
      case Tag(read) =>
        if s[0] == DOLLAR {
          SpansStart(Dollar(read), s, pos, span);
        } else if !IsTagPart(s[0]) {
          SpansStart(Regular, s, pos, span);
        } else {
          SpansStart(Tag(read + [s[0]]), s[1..], pos + 1, span);
        }
      case Dollar(tag) =>
        if Closes(tag, s) {
          SpansStart(Regular, s[|tag| + 1..], pos + |tag| + 1, span);
        } else {
          SpansStart(m, s[1..], pos + 1, span);
        }
      case Comment =>
        if IsLineEnd(s[0]) {
          SpansStart(Regular, s, pos, span);
        } else {
          SpansStart(m, s[1..], pos + 1, span);
        }
    }
  }

  /** Outside quotes and comments every Unicode space is found with its length, if at least
      three bytes are left, and nothing else is. */
  lemma {:induction false} PlainSpacesFound(s: seq<byte>, pos: nat, k: nat, bytes: nat)
    requires Plain(s)
    ensures Span(pos + k, bytes) in Spans(Regular, s, pos) <==> k + 2 < |s| && bytes > 0 && SpaceLength(s[k..]) == bytes
    decreases |s|
  {
    hide SpaceLength;
    if |s| > 2 {
      var rest := Spans(Regular, s[1..], pos + 1);
      assert s[0..] == s;
      if k == 0 {
        if Span(pos, bytes) in rest {
          SpansStart(Regular, s[1..], pos + 1, Span(pos, bytes));
        }
      } else {
        PlainSpacesFound(s[1..], pos + 1, k - 1, bytes);
        assert k + 2 < |s| ==> s[1..][k - 1..] == s[k..];
      }
    }
  }

  /** A byte that does not end a quote, a dollar-quoted string or a comment. */
  predicate Inside(m: Mode, b: byte) {
    match m
    case Quotes(quote) => b != quote
    case Dollar(_) => b != DOLLAR
    case Comment => !IsLineEnd(b)
    case _ => false
  }

  lemma InsideStep(m: Mode, s: seq<byte>, pos: nat)
    requires s != [] && Inside(m, s[0])
    ensures Spans(m, s, pos) == Spans(m, s[1..], pos + 1)
    ensures Rewrite(m, s) == [s[0]] + Rewrite(m, s[1..])
  {
    hide SpaceLength;
  }

  /** Text inside quotes, dollar-quoted strings and comments is skipped and kept. */
  lemma {:induction false} InsideIsKept(m: Mode, text: seq<byte>, rest: seq<byte>, pos: nat)
    requires forall k :: 0 <= k < |text| ==> Inside(m, text[k])
    ensures Spans(m, text + rest, pos) == Spans(m, rest, pos + |text|)
    ensures Rewrite(m, text + rest) == text + Rewrite(m, rest)
    decreases |text|
  {
    hide Spans, Rewrite;
    if text == [] {
      assert text + rest == rest;
    } else {
      InsideStep(m, text + rest, pos);
      assert (text + rest)[1..] == text[1..] + rest;
      InsideIsKept(m, text[1..], rest, pos + 1);
      assert text == [text[0]] + text[1..];
    }
  }

  // ----- A second pass finds nothing -----

  /** The first byte survives, unless a space starts there. */
  lemma {:induction false} FirstByte(m: Mode, s: seq<byte>)
    requires s != []
    ensures var out := Rewrite(m, s);
            out != [] && (out[0] == s[0] || (m.Regular? && out[0] == SPACE && IsLead(s[0])))
    decreases |s|, Standing(m, s)
  {
    match m {
      case Regular => if |s| > 2 && SpaceLength(s) == 0 && OpensComment(s) { FirstByte(Comment, s); }
      case Tag(read) =>
        if |s| > 2 {
          if s[0] == DOLLAR {
            FirstByte(Dollar(read), s);
          } else if !IsTagPart(s[0]) {
            FirstByte(Regular, s);
          }
        }
      case Comment => if IsLineEnd(s[0]) { FirstByte(Regular, s); }
      case _ =>
    }
  }

  /** Text that ends a dollar quote lies before anything that could be replaced. */
  lemma {:induction false} DollarKeeps(tag: seq<byte>, s: seq<byte>, k: nat)
    requires k <= |tag| + 1 && k <= |Rewrite(Dollar(tag), s)|
    ensures k <= |s| && Rewrite(Dollar(tag), s)[..k] == s[..k]
    decreases |s|
  {
    var out := Rewrite(Dollar(tag), s);
    if |s| > 2 {
      if Closes(tag, s) {
        assert out[..k] == s[..|tag| + 1][..k];
      } else if k > 0 {
        DollarKeeps(tag, s[1..], k - 1);
        assert out[..k] == [s[0]] + Rewrite(Dollar(tag), s[1..])[..k - 1];
      }
    }
  }

  /** A dollar quote that is not closed at a byte is not closed there in the rewritten text. */
  lemma DollarStaysOpen(tag: seq<byte>, s: seq<byte>)
    requires |s| > 2 && !Closes(tag, s) && Rewrite(Dollar(tag), s) != []
    ensures !Closes(tag, Rewrite(Dollar(tag), s))
  {
    var out, n := Rewrite(Dollar(tag), s), |tag| + 1;
    assert out == [s[0]] + Rewrite(Dollar(tag), s[1..]);
    if |out| > n {
      DollarKeeps(tag, s[1..], n);
      SamePrefixCloses(tag, out, s);
    }
  }

  lemma SamePrefixCloses(tag: seq<byte>, a: seq<byte>, b: seq<byte>)
    requires |a| > |tag| + 1 && |b| > |tag| + 1
    requires a[0] == b[0] && a[1..][..|tag| + 1] == b[1..][..|tag| + 1]
    ensures Closes(tag, a) == Closes(tag, b)
  {
    assert a[1..|tag| + 1] == a[1..][..|tag| + 1][..|tag|];
    assert b[1..|tag| + 1] == b[1..][..|tag| + 1][..|tag|];
    assert a[|tag| + 1] == a[1..][..|tag| + 1][|tag|] && b[|tag| + 1] == b[1..][..|tag| + 1][|tag|];
  }

  /** Scanning the rewritten text finds no space, whatever label the scan starts at. */
  lemma {:induction false} SecondPassFindsNothing(m: Mode, s: seq<byte>, pos: nat)
    requires m.Quotes? ==> IsQuote(m.quote)
    ensures Spans(m, Rewrite(m, s), pos) == []
    decreases |s|, Standing(m, s)
  {
    match m {
      case Regular => SecondPassRegular(s, pos);
      case Quotes(quote) => SecondPassQuotes(quote, s, pos);
      case Tag(read) => SecondPassTag(read, s, pos);
      case Dollar(tag) => SecondPassDollar(tag, s, pos);
      case Comment =>
        if s != [] {
          FirstByte(Comment, s);
          if IsLineEnd(s[0]) {
            SecondPassFindsNothing(Regular, s, pos);
          } else {
            SecondPassFindsNothing(Comment, s[1..], pos + 1);
            assert Rewrite(m, s)[1..] == Rewrite(m, s[1..]);
          }
        }
    }
  }

  lemma {:induction false} SecondPassRegular(s: seq<byte>, pos: nat)
    ensures Spans(Regular, Rewrite(Regular, s), pos) == []
    decreases |s|, Standing(Regular, s), 0
  {
    var out := Rewrite(Regular, s);
    if |s| > 2 && |out| > 2 {
      var k := SpaceLength(s);
      if k > 0 {
        SecondPassFindsNothing(Regular, s[k..], pos + 1);
        assert out[1..] == Rewrite(Regular, s[k..]);
      } else if IsQuote(s[0]) {
        SecondPassFindsNothing(Quotes(s[0]), s[1..], pos + 1);
        assert out[1..] == Rewrite(Quotes(s[0]), s[1..]);
      } else if OpensTag(s) {
        FirstByte(Tag([]), s[1..]);
        SecondPassFindsNothing(Tag([]), s[1..], pos + 1);
        assert out[1..] == Rewrite(Tag([]), s[1..]);
      } else if OpensComment(s) {
        SecondPassFindsNothing(Comment, s, pos);
        assert out == [s[0]] + Rewrite(Comment, s[1..]);
        FirstByte(Comment, s[1..]);
      } else {
        NoNewSpace(s);
        SecondPassFindsNothing(Regular, s[1..], pos + 1);
        assert out[1..] == Rewrite(Regular, s[1..]);
      }
    }
  }

  /** An ordinary byte does not become special through what follows it being rewritten. */
  lemma NoNewSpace(s: seq<byte>)
    requires |s| > 2 && SpaceLength(s) == 0 && !IsQuote(s[0]) && !OpensTag(s) && !OpensComment(s)
    requires |Rewrite(Regular, s)| > 2
    ensures var out := Rewrite(Regular, s);
            out[0] == s[0] && SpaceLength(out) == 0 && !OpensTag(out) && !OpensComment(out)
  {
    var out, rest := Rewrite(Regular, s), Rewrite(Regular, s[1..]);
    assert out == [s[0]] + rest;
    FirstByte(Regular, s[1..]);
    if rest[0] == s[1] && !IsLead(s[1]) && IsContinuation(s[1]) {
      // a continuation byte is copied, and the byte after it survives or becomes a space
      if |s[1..]| > 2 {
        assert rest == [s[1]] + Rewrite(Regular, s[2..]) by { assert s[1..][1..] == s[2..]; }
        FirstByte(Regular, s[2..]);
      } else {
        assert rest == s[1..];
      }
    }
  }

  lemma {:induction false} SecondPassQuotes(quote: byte, s: seq<byte>, pos: nat)
    requires IsQuote(quote)
    ensures Spans(Quotes(quote), Rewrite(Quotes(quote), s), pos) == []
    decreases |s|, Standing(Quotes(quote), s), 0
  {
    var m := Quotes(quote);
    var out := Rewrite(m, s);
    if |s| > 1 && |out| > 1 {
      if s[0] != quote {
        SecondPassFindsNothing(m, s[1..], pos + 1);
        assert out[1..] == Rewrite(m, s[1..]);
      } else if s[1] == quote {
        SecondPassFindsNothing(m, s[2..], pos + 2);
        assert out[2..] == Rewrite(m, s[2..]);
      } else {
        FirstByte(Regular, s[1..]);
        SecondPassFindsNothing(Regular, s[1..], pos + 1);
        assert out[1..] == Rewrite(Regular, s[1..]);
      }
    }
  }

  lemma {:induction false} SecondPassTag(read: seq<byte>, s: seq<byte>, pos: nat)
    ensures Spans(Tag(read), Rewrite(Tag(read), s), pos) == []
    decreases |s|, Standing(Tag(read), s), 0
  {
    var m := Tag(read);
    var out := Rewrite(m, s);
    if |s| > 2 && |out| > 2 {
      FirstByte(m, s);
      if s[0] == DOLLAR {
        SecondPassFindsNothing(Dollar(read), s, pos);
      } else if !IsTagPart(s[0]) {
        SecondPassFindsNothing(Regular, s, pos);
      } else {
        SecondPassFindsNothing(Tag(read + [s[0]]), s[1..], pos + 1);
        assert out[1..] == Rewrite(Tag(read + [s[0]]), s[1..]);
      }
    }
  }

  lemma {:induction false} SecondPassDollar(tag: seq<byte>, s: seq<byte>, pos: nat)
    ensures Spans(Dollar(tag), Rewrite(Dollar(tag), s), pos) == []
    decreases |s|, Standing(Dollar(tag), s), 0
  {
    var m := Dollar(tag);
    var out := Rewrite(m, s);
    if |s| > 2 && |out| > 2 {
      var n := |tag| + 1;
      if Closes(tag, s) {
        FirstByte(Regular, s[n..]);
        SecondPassFindsNothing(Regular, s[n..], pos + n);
        assert out[n..] == Rewrite(Regular, s[n..]);
        assert out[1..n] == s[1..n];
        assert Closes(tag, out);
      } else {
        SecondPassFindsNothing(m, s[1..], pos + 1);
        assert out[1..] == Rewrite(m, s[1..]);
        DollarStaysOpen(tag, s);
      }
    }
  }

  // ----- The recorded spans -----

  /** The spans lie between byte `from` and byte `to`, in order and apart from each other. */
  ghost predicate Ordered(spans: seq<Span>, from: nat, to: nat) {
    if spans == [] then from <= to
    else from <= spans[0].pos && Ordered(spans[1..], spans[0].pos + spans[0].bytes, to)
  }

  /** The query with each span replaced by one space, from byte `from` on. */
  function Splice(query: seq<byte>, spans: seq<Span>, from: nat): seq<byte>
    requires Ordered(spans, from, |query|)
    decreases |spans|
  {
    if spans == [] then query[from..]
    else
      OrderedBounds(spans, from, |query|);
      query[from..spans[0].pos] + [SPACE] + Splice(query, spans[1..], spans[0].pos + spans[0].bytes)
  }

  lemma {:induction false} OrderedBounds(spans: seq<Span>, from: nat, to: nat)
    requires Ordered(spans, from, to)
    ensures from <= to
    ensures spans != [] ==> from <= spans[0].pos <= spans[0].pos + spans[0].bytes <= to
    decreases |spans|
  {
    if spans != [] { OrderedBounds(spans[1..], spans[0].pos + spans[0].bytes, to); }
  }

  lemma OrderedEarlier(spans: seq<Span>, from: nat, from': nat, to: nat)
    requires Ordered(spans, from, to) && from' <= from
    ensures Ordered(spans, from', to)
  {
    OrderedBounds(spans, from, to);
  }

  /** A continuation byte means nothing to the scanner outside quotes. */
  lemma ContinuationStep(s: seq<byte>, pos: nat)
    requires s != [] && IsContinuation(s[0])
    ensures Spans(Regular, s, pos) == Spans(Regular, s[1..], pos + 1)
  {
  }

  /** The bytes inside a recorded space are scanned without effect. */
  lemma ScanSkipsSpace(s: seq<byte>, pos: nat)
    requires |s| > 2 && SpaceLength(s) > 0
    ensures var k := SpaceLength(s);
            Spans(Regular, s, pos) == [Span(pos, k)] + Spans(Regular, s[k..], pos + k)
  {
    ContinuationStep(s[1..], pos + 1);
    assert s[1..][1..] == s[2..];
    if SpaceLength(s) == 3 {
      ContinuationStep(s[2..], pos + 2);
      assert s[2..][1..] == s[3..];
    }
  }

  /** The recorded spans are in range, strictly increasing and disjoint, and replacing
      exactly them by one space each is what the scan amounts to. */
  lemma {:induction false} SpliceIsRewrite(query: seq<byte>, m: Mode, pos: nat, from: nat)
    requires from <= pos <= |query|
    ensures Ordered(Spans(m, query[pos..], pos), pos, |query|) && Ordered(Spans(m, query[pos..], pos), from, |query|)
    ensures Splice(query, Spans(m, query[pos..], pos), from) == query[from..pos] + Rewrite(m, query[pos..])
    decreases |query| - pos, Standing(m, query[pos..])
  {
    hide Splice, Ordered, SpaceLength, Closes, OpensTag, OpensComment;
    var s := query[pos..];
    SpliceNothing(query, pos, pos);
    SpliceNothing(query, pos, from);
    match m {
      case Regular => SpliceRegular(query, pos, from);
      case Quotes(quote) => SpliceQuotes(query, quote, pos, from);
      case Tag(read) =>
        if |s| > 2 {
          if s[0] == DOLLAR {
            SpliceIsRewrite(query, Dollar(read), pos, from);
          } else if !IsTagPart(s[0]) {
            SpliceIsRewrite(query, Regular, pos, from);
          } else {
            SpliceStep(query, m, Tag(read + [s[0]]), pos, 1, from);
          }
        }
      case Dollar(tag) => SpliceDollar(query, tag, pos, from);
      case Comment =>
        if s != [] {
          if IsLineEnd(s[0]) {
            SpliceIsRewrite(query, Regular, pos, from);
          } else {
            SpliceStep(query, m, m, pos, 1, from);
          }
        }
    }
  }

  lemma {:induction false} SpliceDollar(query: seq<byte>, tag: seq<byte>, pos: nat, from: nat)
    requires from <= pos <= |query|
    ensures var m := Dollar(tag);
            && Ordered(Spans(m, query[pos..], pos), pos, |query|) && Ordered(Spans(m, query[pos..], pos), from, |query|)
            && Splice(query, Spans(m, query[pos..], pos), from) == query[from..pos] + Rewrite(m, query[pos..])
    decreases |query| - pos, Standing(Dollar(tag), query[pos..]), 1
  {
    hide Splice, Ordered, SpaceLength, OpensTag, OpensComment;
    var m, s := Dollar(tag), query[pos..];
    SpliceNothing(query, pos, pos);
    SpliceNothing(query, pos, from);
    if |s| > 2 {
      if Closes(tag, s) {
        SpliceStep(query, m, Regular, pos, |tag| + 1, from);
      } else {
        SpliceStep(query, m, m, pos, 1, from);
      }
    }
  }

  lemma SpliceNothing(query: seq<byte>, pos: nat, from: nat)
    requires from <= pos <= |query|
    ensures Ordered([], from, |query|) && Splice(query, [], from) == query[from..pos] + query[pos..]
  {
  }

  lemma {:induction false} SpliceRegular(query: seq<byte>, pos: nat, from: nat)
    requires from <= pos <= |query|
    ensures Ordered(Spans(Regular, query[pos..], pos), pos, |query|)
    ensures Ordered(Spans(Regular, query[pos..], pos), from, |query|)
    ensures Splice(query, Spans(Regular, query[pos..], pos), from) == query[from..pos] + Rewrite(Regular, query[pos..])
    decreases |query| - pos, Standing(Regular, query[pos..]), 1
  {
    hide Splice, Ordered;
    var s := query[pos..];
    SpliceNothing(query, pos, pos);
    SpliceNothing(query, pos, from);
    if |s| > 2 {
      if SpaceLength(s) > 0 {
        SpliceSpace(query, pos, from);
      } else if IsQuote(s[0]) {
        SpliceStep(query, Regular, Quotes(s[0]), pos, 1, from);
      } else if OpensTag(s) {
        SpliceStep(query, Regular, Tag([]), pos, 1, from);
      } else if OpensComment(s) {
        SpliceIsRewrite(query, Comment, pos, from);
      } else {
        SpliceStep(query, Regular, Regular, pos, 1, from);
      }
    }
  }

  lemma {:induction false} SpliceQuotes(query: seq<byte>, quote: byte, pos: nat, from: nat)
    requires from <= pos <= |query|
    ensures Ordered(Spans(Quotes(quote), query[pos..], pos), pos, |query|)
    ensures Ordered(Spans(Quotes(quote), query[pos..], pos), from, |query|)
    ensures Splice(query, Spans(Quotes(quote), query[pos..], pos), from) ==
            query[from..pos] + Rewrite(Quotes(quote), query[pos..])
    decreases |query| - pos, Standing(Quotes(quote), query[pos..]), 1
  {
    hide Splice, Ordered;
    var m, s := Quotes(quote), query[pos..];
    SpliceNothing(query, pos, pos);
    SpliceNothing(query, pos, from);
    if |s| > 1 {
      if s[0] != quote {
        SpliceStep(query, m, m, pos, 1, from);
      } else if s[1] == quote {
        SpliceStep(query, m, m, pos, 2, from);
      } else {
        SpliceStep(query, m, Regular, pos, 1, from);
      }
    }
  }

  lemma {:induction false} SpliceSpace(query: seq<byte>, pos: nat, from: nat)
    requires from <= pos <= |query| && |query[pos..]| > 2 && SpaceLength(query[pos..]) > 0
    ensures Ordered(Spans(Regular, query[pos..], pos), pos, |query|)
    ensures Ordered(Spans(Regular, query[pos..], pos), from, |query|)
    ensures Splice(query, Spans(Regular, query[pos..], pos), from) == query[from..pos] + Rewrite(Regular, query[pos..])
    decreases |query| - pos, Standing(Regular, query[pos..]), 0
  {
    hide Spans, Rewrite, SpaceLength;
    var s := query[pos..];
    var k := SpaceLength(s);
    ScanSkipsSpace(s, pos);
    RewriteSpace(s);
    assert s[k..] == query[pos + k..];
    SpliceIsRewrite(query, Regular, pos + k, pos + k);
    var rest := Spans(Regular, query[pos + k..], pos + k);
    assert ([Span(pos, k)] + rest)[1..] == rest;
    assert query[pos + k..pos + k] == [];
  }

  lemma RewriteSpace(s: seq<byte>)
    requires |s| > 2 && SpaceLength(s) > 0
    ensures SpaceLength(s) <= |s|
    ensures Rewrite(Regular, s) == [SPACE] + Rewrite(Regular, s[SpaceLength(s)..])
  {
  }

  /** The scanner moves on by k bytes that it copies. */
  lemma {:induction false} SpliceStep(query: seq<byte>, m: Mode, m': Mode, pos: nat, k: nat, from: nat)
    requires from <= pos <= pos + k <= |query| && k > 0
    requires Spans(m, query[pos..], pos) == Spans(m', query[pos..][k..], pos + k)
    requires Rewrite(m, query[pos..]) == query[pos..][..k] + Rewrite(m', query[pos..][k..])
    ensures Ordered(Spans(m, query[pos..], pos), pos, |query|) && Ordered(Spans(m, query[pos..], pos), from, |query|)
    ensures Splice(query, Spans(m, query[pos..], pos), from) == query[from..pos] + Rewrite(m, query[pos..])
    decreases |query| - pos, Standing(m, query[pos..]), 0
  {
    hide Spans, Rewrite, Splice, Ordered;
    assert query[pos..][k..] == query[pos + k..];
    SpliceIsRewrite(query, m', pos + k, from);
    OrderedEarlier(Spans(m', query[pos + k..], pos + k), pos + k, pos, |query|);
    var before, copied, rest := query[from..pos], query[pos..][..k], Rewrite(m', query[pos + k..]);
    assert query[from..pos + k] == before + copied;
    assert (before + copied) + rest == before + (copied + rest);
  }

  // ----- The code -----

  /** ReplaceUnicodeSpaces */
  method ReplaceUnicodeSpaces(query: seq<byte>, spans: seq<Span>) returns (found: bool, newQuery: seq<byte>)
    requires Ordered(spans, 0, |query|)
    ensures found == (spans != [])
    ensures found ==> newQuery == Splice(query, spans, 0)
  {
    newQuery := [];
    if spans == [] {
      return false, newQuery;
    }
    var prev: nat := 0;
    for i := 0 to |spans|
      invariant Ordered(spans[i..], prev, |query|)
      invariant newQuery + Splice(query, spans[i..], prev) == Splice(query, spans, 0)
    {
      OrderedBounds(spans[i..], prev, |query|);
      assert spans[i..][1..] == spans[i + 1..];
      newQuery := newQuery + query[prev..spans[i].pos];
      newQuery := newQuery + [SPACE];
      prev := spans[i].pos + spans[i].bytes;
    }
    OrderedBounds(spans[|spans|..], prev, |query|);
    newQuery := newQuery + query[prev..];
    found := true;
  }

  /** StripUnicodeSpaces; each round of the loop is one round of the loop at a label. */
  method StripUnicodeSpaces(query: seq<byte>) returns (found: bool, newQuery: seq<byte>)
    ensures found == (Spans(Regular, query, 0) != [])
    ensures found ==> newQuery == Rewrite(Regular, query)
    ensures !found ==> Rewrite(Regular, query) == query
  {
    var mode, pos: nat := Regular, 0;
    var spans: seq<Span> := [];
    assert query[0..] == query;
    while !AtEnd(mode, |query| - pos)
      invariant 0 <= pos <= |query|
      invariant spans + Spans(mode, query[pos..], pos) == Spans(Regular, query, 0)
      decreases |query| - pos, Standing(mode, query[pos..])
    {
      var space;
      mode, pos, space := ScanByte(query, mode, pos);
      spans := spans + space;
    }
    SpliceIsRewrite(query, Regular, 0, 0);
    assert query[0..0] == [];
    assert Spans(mode, query[pos..], pos) == [];
    assert spans == Spans(Regular, query, 0);
    found, newQuery := ReplaceUnicodeSpaces(query, spans);
  }

  /** The condition of the loop at each label, on the bytes left. */
  predicate AtEnd(m: Mode, left: nat) {
    match m
    case Quotes(_) => left <= 1
    case Comment => left == 0
    case _ => left <= 2
  }

  /** One round of the loop at the current label. */
  method ScanByte(query: seq<byte>, mode: Mode, pos: nat) returns (mode': Mode, pos': nat, space: seq<Span>)
    requires pos <= |query| && !AtEnd(mode, |query| - pos)
    ensures pos <= pos' <= |query|
    ensures Spans(mode, query[pos..], pos) == space + Spans(mode', query[pos'..], pos')
    ensures pos' == pos ==> Standing(mode', query[pos..]) < Standing(mode, query[pos..])
  {
    var s := query[pos..];
    assert forall k: nat :: k <= |s| ==> s[k..] == query[pos + k..];
    mode', pos', space := mode, pos + 1, [];
    match mode {
      case Regular =>
        var k := SpaceLength(s);
        if k > 0 {
          space := [Span(pos, k)];
        } else if IsQuote(query[pos]) {
          mode' := Quotes(query[pos]);
        } else if OpensTag(s) {
          mode' := Tag([]);
        } else if OpensComment(s) {
          mode', pos' := Comment, pos;
        }
      case Quotes(quote) =>
        if query[pos] == quote {
          if query[pos + 1] == quote {
            pos' := pos + 2;
          } else {
            mode' := Regular;
          }
        }
      case Tag(read) =>
        if query[pos] == DOLLAR {
          mode', pos' := Dollar(read), pos;
        } else if !IsTagPart(query[pos]) {
          mode', pos' := Regular, pos;
        } else {
          mode' := Tag(read + [query[pos]]);
        }
      case Dollar(tag) =>
        if Closes(tag, s) {
          mode', pos' := Regular, pos + |tag| + 1;
        }
      case Comment =>
        if IsLineEnd(query[pos]) {
          mode', pos' := Regular, pos;
        }
    }
  }

  /** Stripping the result again finds nothing to strip. */
  lemma StripIsIdempotent(query: seq<byte>)
    ensures Spans(Regular, Rewrite(Regular, query), 0) == []
    ensures Rewrite(Regular, Rewrite(Regular, query)) == Rewrite(Regular, query)
  {
    var out := Rewrite(Regular, query);
    SecondPassFindsNothing(Regular, query, 0);
    SpliceIsRewrite(out, Regular, 0, 0);
    assert out[0..] == out && out[0..0] == [];
  }
}
