/** The literals and numbers that the parser reads are those of the syntax. */
module JsonStrings {
  import opened JsonText
  import opened JsonGrammar
  import opened JsonSyntax
  import opened Options

  // ----- string literals: what is written is read ----------------------------------------------------

  lemma ClosedFirst(content: Bytes)
    requires Closed(content) && content != []
    ensures content[0] != QUOTE
    ensures content[0] == BACKSLASH ==> |content| > 1 && Closed(content[2..])
    ensures content[0] != BACKSLASH ==> Closed(content[1..])
  {
  }

  /** The scan for the closing quote stops behind a closed content. */
  lemma {:induction false} ClosedFinds(c: Bytes, i: nat, content: Bytes)
    requires Closed(content) && Occurs(c, i, content + [QUOTE])
    ensures CloseQuote(c, i) == Some(i + |content|)
    decreases |content|
  {
    OccursAt(c, i, content + [QUOTE], 0);
    if content == [] {
      AtQuote(c, i);
    } else {
      ClosedFirst(content);
      var k := if content[0] == BACKSLASH then 2 else 1;
      assert content + [QUOTE] == content[..k] + (content[k..] + [QUOTE]);
      OccursParts(c, i, content[..k], content[k..] + [QUOTE]);
      hide CloseQuote, Closed, Occurs;
      ClosedFinds(c, i + k, content[k..]);
      CloseStep(c, i);
    }
  }

  lemma ShortMeans(letter: Byte)
    ensures letter in SHORT_ESCAPES <==> Unescaped(letter).Some?
    ensures letter in SHORT_ESCAPES ==> Unescaped(letter) == Some(SHORT_ESCAPES[letter]) && letter != LETTER_U
  {
  }

  /** A piece stands at `i`, with at most the last byte of it at `end` or beyond. */
  predicate PieceAt(c: Bytes, i: nat, p: Piece, end: nat) {
    Occurs(c, i, PieceText(p)) && i < end < |c| && (i + |PieceText(p)| <= end || p.Short?)
  }

  lemma CharacterMoved(c: Bytes, i: nat, cp: nat, text: Bytes)
    requires CharacterAt(text, 0, cp) && |text| == EscapeLength(cp) && Occurs(c, i, text)
    ensures CharacterAt(c, i, cp) && i + EscapeLength(cp) <= |c|
  {
    hide Spells;
    forall k | 0 <= k < |text|
      ensures c[i + k] == text[k]
    {
      OccursAt(c, i, text, k);
    }
    assert c[i + 2..i + 6] == text[2..6];
    if cp >= 0x1_0000 { assert c[i + 8..i + 12] == text[8..12]; }
  }

  /** Each piece is decoded to what it stands for. */
  lemma PieceDecodes(c: Bytes, i: nat, p: Piece, end: nat)
    requires GoodPiece(p) && PieceAt(c, i, p, end)
    ensures Decode(c, i, end) == Prefix(PieceValue(p), Decode(c, i + |PieceText(p)|, end))
  {
    hide Utf16Literal, CharacterAt, AllHex, Utf8, Unescaped;
    OccursAt(c, i, PieceText(p), 0);
    match p
    case Plain(b) =>
    case Short(letter) =>
      OccursAt(c, i, PieceText(p), 1);
      ShortMeans(letter);
    case Character(cp, text) =>
      CharacterMoved(c, i, cp, text);
      StartsEscape(c, i, cp);
      LiteralMeans(c, i, end, cp);
    case Broken(text) =>
      OccursAt(c, i, PieceText(p), 1);
      OccursParts(c, i, [0x5C, 0x75], text);
      assert c[i + 2..i + 6] == text;
      AcceptedExactly(c, i, end);
  }

  lemma StartsEscape(c: Bytes, i: nat, cp: nat)
    requires CharacterAt(c, i, cp)
    ensures i + 6 <= |c| && c[i] == BACKSLASH && c[i + 1] == LETTER_U
  {
  }

  lemma DecodeEnds(c: Bytes, i: nat, end: nat)
    requires end <= i && end < |c|
    ensures Decode(c, i, end) == Decoded([])
  {
  }

  lemma PieceSize(p: Piece)
    requires GoodPiece(p)
    ensures |PieceText(p)| > 0 && (p.Short? ==> |PieceText(p)| == 2)
  {
  }

  lemma {:induction false} LastPiece(ps: seq<Piece>)
    requires GoodPieces(ps) && ps != []
    ensures |PiecesText(ps)| >= |PieceText(ps[|ps| - 1])| > 0
    ensures |ps| > 1 ==> |PiecesText(ps)| >= |PieceText(ps[0])| + |PieceText(ps[|ps| - 1])|
  {
    PieceSize(ps[0]);
    if |ps| > 1 { LastPiece(ps[1..]); } else { assert PiecesText(ps[1..]) == []; }
  }

  /** The pieces end at `end`, or one byte beyond with the escape of a quote. */
  predicate Reaches(i: nat, ps: seq<Piece>, end: nat) {
    i + |PiecesText(ps)| == end || (ps != [] && ps[|ps| - 1].Short? && i + |PiecesText(ps)| == end + 1)
  }

  lemma ReachesNothing(i: nat, end: nat)
    requires Reaches(i, [], end)
    ensures i == end
  {
    NoPieces();
  }

  lemma ReachesNext(i: nat, ps: seq<Piece>, end: nat)
    requires GoodPieces(ps) && ps != [] && Reaches(i, ps, end)
    ensures var k := |PieceText(ps[0])|;
      && k > 0 && GoodPiece(ps[0]) && GoodPieces(ps[1..]) && i < end
      && (if i + k <= end then Reaches(i + k, ps[1..], end) else ps[0].Short? && ps[1..] == [])
  {
    PieceSize(ps[0]);
    LastPiece(ps);
    assert PiecesText(ps) == PieceText(ps[0]) + PiecesText(ps[1..]);
    if |ps| == 1 { assert PiecesText(ps[1..]) == []; }
    hide PieceText, GoodPiece;
  }

  lemma PiecesFirst(ps: seq<Piece>)
    requires GoodPieces(ps) && ps != []
    ensures GoodPiece(ps[0]) && GoodPieces(ps[1..])
    ensures PiecesText(ps) == PieceText(ps[0]) + PiecesText(ps[1..])
    ensures PiecesValue(ps) == PieceValue(ps[0]) + PiecesValue(ps[1..])
  {
  }

  lemma PrefixPrefix(a: Bytes, b: Bytes)
    ensures Prefix(a, Decoded(b)) == Decoded(a + b)
  {
  }

  lemma NoPieces()
    ensures PiecesText([]) == [] && PiecesValue([]) == []
  {
  }

  lemma InBounds(c: Bytes, i: nat, p: Piece, end: nat)
    requires Occurs(c, i, PieceText(p)) && i < end < |c| && (i + |PieceText(p)| <= end || p.Short?)
    ensures PieceAt(c, i, p, end) && i + |PieceText(p)| <= |c|
  {
    hide PieceText;
  }

  /** The pieces up to `end` are decoded one after the other; the last of them may reach one byte beyond. */
  lemma {:induction false} PiecesDecode(c: Bytes, i: nat, ps: seq<Piece>, end: nat)
    requires GoodPieces(ps) && Occurs(c, i, PiecesText(ps)) && end < |c| && i <= end && Reaches(i, ps, end)
    ensures Decode(c, i, end) == Decoded(PiecesValue(ps))
    decreases |ps|
  {
    hide *;
    NoPieces();
    if ps == [] {
      ReachesNothing(i, end);
      DecodeEnds(c, i, end);
    } else {
      ReachesNext(i, ps, end);
      PiecesFirst(ps);
      OccursParts(c, i, PieceText(ps[0]), PiecesText(ps[1..]));
      InBounds(c, i, ps[0], end);
      PieceDecodes(c, i, ps[0], end);
      if i + |PieceText(ps[0])| <= end {
        PiecesDecode(c, i + |PieceText(ps[0])|, ps[1..], end);
      } else {
        DecodeEnds(c, i + |PieceText(ps[0])|, end);
      }
      PrefixPrefix(PieceValue(ps[0]), PiecesValue(ps[1..]));
    }
  }

  /** A literal is read as what it stands for, and read whole. */
  lemma LiteralRead(c: Bytes, o: nat, content: Bytes, ps: seq<Piece>)
    requires GoodLiteral(content, ps) && Occurs(c, o, WriteLiteral(content))
    ensures o < |c| && ParseString(c, o) == ParsedString(PiecesValue(ps), o + |WriteLiteral(content)|)
  {
    hide CloseQuote, Decode, Closed, GoodPieces, PiecesText, PiecesValue, Occurs;
    OccursParts(c, o, [QUOTE], content + [QUOTE]);
    OccursAt(c, o, [QUOTE], 0);
    ClosedFinds(c, o + 1, content);
    OccursParts(c, o + 1, content, [QUOTE]);
    OccursAt(c, o + 1 + |content|, [QUOTE], 0);
    PiecesDecode(c, o + 1, ps, o + 1 + |content|);
  }

  // ----- string literals: what is read is written ----------------------------------------------------

  lemma CloseBack(c: Bytes, i: nat)
    requires i <= |c| && CloseQuote(c, i).Some?
    ensures i < |c| && (c[i] != QUOTE && c[i] != BACKSLASH ==> CloseQuote(c, i + 1) == CloseQuote(c, i))
    ensures c[i] == BACKSLASH ==> i + 2 <= |c| && CloseQuote(c, i + 2) == CloseQuote(c, i)
    ensures c[i] == QUOTE ==> CloseQuote(c, i) == Some(i)
  {
  }

  /** The content that the scan finds is closed. */
  lemma {:induction false} FoundClosed(c: Bytes, i: nat)
    requires i <= |c| && CloseQuote(c, i).Some?
    ensures Closed(c[i..CloseQuote(c, i).value])
    decreases |c| - i
  {
    CloseBack(c, i);
    if c[i] != QUOTE {
      var k, end := if c[i] == BACKSLASH then 2 else 1, CloseQuote(c, i).value;
      hide CloseQuote;
      FoundClosed(c, i + k);
      assert c[i..end][k..] == c[i + k..end];
    }
  }

  /** What stands at a place where decoding goes on is a piece. */
  lemma PieceRead(c: Bytes, i: nat, end: nat) returns (p: Piece)
    requires i < end < |c| && c[end] == QUOTE && Decode(c, i, end).Decoded?
    ensures GoodPiece(p) && PieceAt(c, i, p, end) && |PieceText(p)| > 0
    ensures i + |PieceText(p)| > end ==> p == Short(0x22) && i + 2 == end + 1
    ensures Decode(c, i, end) == Prefix(PieceValue(p), Decode(c, i + |PieceText(p)|, end))
  {
    if c[i] != BACKSLASH {
      p := Plain(c[i]);
    } else if c[i + 1] != LETTER_U {
      p := Short(c[i + 1]);
      ShortMeans(c[i + 1]);
      assert c[i..i + 2] == [c[i], c[i + 1]];
    } else {
      p := EscapeRead(c, i, end);
    }
    PieceSize(p);
    hide Decode, PieceText, PieceValue;
    PieceDecodes(c, i, p, end);
  }

  lemma EscapeRead(c: Bytes, i: nat, end: nat) returns (p: Piece)
    requires i + 2 <= end < |c| && c[i] == BACKSLASH && c[i + 1] == LETTER_U && Utf16Literal(c, i, end).Literal?
    ensures GoodPiece(p) && PieceAt(c, i, p, end) && i + |PieceText(p)| <= end
  {
    hide Utf16Literal, CharacterAt, AllHex;
    AcceptedExactly(c, i, end);
    if cp :| CharacterAt(c, i, cp) && i + EscapeLength(cp) <= end {
      var text := c[i..i + EscapeLength(cp)];
      CharacterCut(c, i, cp, text);
      p := Character(cp, text);
    } else {
      p := Broken(c[i + 2..i + 6]);
      assert c[i..i + 6] == [0x5C, 0x75] + c[i + 2..i + 6];
    }
  }

  lemma SliceSlice(c: Bytes, i: nat, n: nat, a: nat, b: nat)
    requires a <= b <= n && i + n <= |c|
    ensures c[i..i + n][a..b] == c[i + a..i + b]
  {
    var t := c[i..i + n];
    assert t[a..b] == c[i + a..i + b] by {
      assert forall k :: 0 <= k < n ==> t[k] == c[i + k];
    }
  }

  lemma SliceJoin(c: Bytes, i: nat, j: nat, k: nat)
    requires i <= j <= k <= |c|
    ensures c[i..k] == c[i..j] + c[j..k]
  {
  }

  lemma CharacterCut(c: Bytes, i: nat, cp: nat, text: Bytes)
    requires CharacterAt(c, i, cp) && i + EscapeLength(cp) <= |c| && text == c[i..i + EscapeLength(cp)]
    ensures CharacterAt(text, 0, cp)
  {
    hide Spells;
    SliceSlice(c, i, EscapeLength(cp), 2, 6);
    if cp >= 0x1_0000 { SliceSlice(c, i, EscapeLength(cp), 8, 12); }
  }

  /** Whatever is decoded consists of pieces. */
  lemma {:induction false} PiecesRead(c: Bytes, i: nat, end: nat) returns (ps: seq<Piece>)
    requires i <= end < |c| && c[end] == QUOTE && Decode(c, i, end).Decoded?
    ensures GoodPieces(ps) && Decode(c, i, end) == Decoded(PiecesValue(ps))
    ensures Consists(c[i..end], ps)
    decreases end - i
  {
    if i == end {
      ps := [];
    } else {
      var p := PieceRead(c, i, end);
      var k := |PieceText(p)|;
      if i + k > end {
        OnlyPiece(c, i, end, p);
        ps := [p];
      } else {
        assert Decode(c, i + k, end).Decoded?;
        hide *;
        var rest := PiecesRead(c, i + k, end);
        ps := [p] + rest;
        AnotherPiece(c, i, end, p, rest);
      }
    }
  }

  lemma OnlyPiece(c: Bytes, i: nat, end: nat, p: Piece)
    requires GoodPiece(p) && PieceAt(c, i, p, end) && c[end] == QUOTE
    requires i + |PieceText(p)| > end && p == Short(0x22) && i + 2 == end + 1
    requires Decode(c, i, end) == Prefix(PieceValue(p), Decode(c, i + |PieceText(p)|, end))
    ensures GoodPieces([p]) && Consists(c[i..end], [p]) && Decode(c, i, end) == Decoded(PiecesValue([p]))
  {
    DecodeEnds(c, i + |PieceText(p)|, end);
    OnePiece(p);
    hide *;
    Overrun(c, i, end, p);
    PrefixPrefix(PieceValue(p), []);
    assert PieceValue(p) + [] == PieceValue(p);
  }

  lemma AnotherPiece(c: Bytes, i: nat, end: nat, p: Piece, rest: seq<Piece>)
    requires GoodPiece(p) && PieceAt(c, i, p, end) && i + |PieceText(p)| <= end < |c|
    requires Decode(c, i, end) == Prefix(PieceValue(p), Decode(c, i + |PieceText(p)|, end))
    requires GoodPieces(rest) && Decode(c, i + |PieceText(p)|, end) == Decoded(PiecesValue(rest))
    requires Consists(c[i + |PieceText(p)|..end], rest)
    ensures GoodPieces([p] + rest) && Consists(c[i..end], [p] + rest)
    ensures Decode(c, i, end) == Decoded(PiecesValue([p] + rest))
  {
    hide *;
    MorePieces(p, rest, PieceText(p), c[i + |PieceText(p)|..end]);
    PrefixPrefix(PieceValue(p), PiecesValue(rest));
    TextJoins(c, i, end, p);
  }

  lemma TextJoins(c: Bytes, i: nat, end: nat, p: Piece)
    requires PieceAt(c, i, p, end) && i + |PieceText(p)| <= end
    ensures c[i..end] == PieceText(p) + c[i + |PieceText(p)|..end]
  {
    TextAt(c, i, p, end);
    SliceJoin(c, i, i + |PieceText(p)|, end);
  }

  lemma TextAt(c: Bytes, i: nat, p: Piece, end: nat)
    requires PieceAt(c, i, p, end)
    ensures i + |PieceText(p)| <= |c| && PieceText(p) == c[i..i + |PieceText(p)|]
  {
  }

  lemma Overrun(c: Bytes, i: nat, end: nat, p: Piece)
    requires i < end < |c| && c[end] == 0x22 && p == Short(0x22) && i + 2 == end + 1 && PieceAt(c, i, p, end)
    requires PiecesText([p]) == PieceText(p)
    ensures GoodPieces([p]) && Consists(c[i..end], [p])
  {
    assert c[i..i + 2] == c[i..end] + [c[end]];
  }

  lemma OnePiece(p: Piece)
    requires GoodPiece(p)
    ensures PiecesText([p]) == PieceText(p) && PiecesValue([p]) == PieceValue(p)
  {
    assert [p][1..] == [] && PiecesText([]) == [] && PiecesValue([]) == [];
  }

  lemma MorePieces(p: Piece, rest: seq<Piece>, first: Bytes, content: Bytes)
    requires GoodPiece(p) && GoodPieces(rest) && PieceText(p) == first && Consists(content, rest)
    ensures GoodPieces([p] + rest) && Consists(first + content, [p] + rest)
    ensures PiecesValue([p] + rest) == PieceValue(p) + PiecesValue(rest)
  {
    hide GoodPiece, PieceText, PieceValue;
    assert ([p] + rest)[1..] == rest;
    assert (first + content) + [0x22] == first + (content + [0x22]);
  }

  /** Whatever literal is read is one of the syntax. */
  lemma LiteralBack(c: Bytes, o: nat) returns (content: Bytes, ps: seq<Piece>)
    requires o < |c| && ParseString(c, o).ParsedString?
    ensures GoodLiteral(content, ps) && GoodPieces(ps)
    ensures ParseString(c, o) == ParsedString(PiecesValue(ps), o + |WriteLiteral(content)|)
    ensures Occurs(c, o, WriteLiteral(content))
  {
    var end := StringParts(c, o);
    FoundClosed(c, o + 1);
    content := c[o + 1..end];
    hide CloseQuote, Closed, ParseString, Decode, GoodPieces, Consists, PiecesValue;
    ps := PiecesRead(c, o + 1, end);
    Quoted(c, o, end);
  }

  lemma StringParts(c: Bytes, o: nat) returns (end: nat)
    requires o < |c| && ParseString(c, o).ParsedString?
    ensures c[o] == QUOTE && o + 1 <= end < |c| && c[end] == QUOTE && CloseQuote(c, o + 1) == Some(end)
    ensures Decode(c, o + 1, end).Decoded?
    ensures ParseString(c, o) == ParsedString(Decode(c, o + 1, end).bytes, end + 1)
  {
    hide CloseQuote, Decode;
    end := CloseQuote(c, o + 1).value;
  }

  lemma Quoted(c: Bytes, o: nat, end: nat)
    requires o + 1 <= end < |c| && c[o] == 0x22 && c[end] == 0x22
    ensures Occurs(c, o, WriteLiteral(c[o + 1..end])) && |WriteLiteral(c[o + 1..end])| == end + 1 - o
  {
    assert c[o..end + 1] == [c[o]] + (c[o + 1..end] + [c[end]]);
  }

  // ----- numbers -------------------------------------------------------------------------------------

  /** A run of digits is as long as it looks. */
  lemma {:induction false} DigitRunIs(s: Bytes, i: nat, d: Bytes, rest: Bytes)
    requires i <= |s| && s[i..] == d + rest && AllDigits(d) && (rest != [] ==> !IsDigit(rest[0]))
    ensures DigitRun(s, i) == i + |d| && s[i + |d|..] == rest
    decreases |d|
  {
    if d == [] {
      assert s[i..] == rest;
      if rest != [] { assert s[i] == s[i..][0]; }
    } else {
      assert s[i] == s[i..][0] == d[0];
      assert s[i + 1..] == s[i..][1..] == d[1..] + rest;
      DigitRunIs(s, i + 1, d[1..], rest);
    }
  }

  lemma SignIs(s: Bytes, i: nat, sign: Bytes, rest: Bytes)
    requires i <= |s| && s[i..] == sign + rest && (sign == [] || sign == [0x2B] || sign == [0x2D])
    requires rest != [] ==> IsDigit(rest[0]) || rest[0] == DOT
    ensures Sign(s, i) == i + |sign| && s[i + |sign|..] == rest
  {
    if sign == [] {
      assert s[i..] == rest;
      if rest != [] { assert s[i] == s[i..][0]; }
    } else {
      assert s[i] == s[i..][0] == sign[0];
      assert s[i + 1..] == s[i..][1..] == rest;
    }
  }

  function Minus(n: Numeral): Bytes { if n.minus then [0x2D] else [] }

  function Point(n: Numeral): Bytes { if n.point then [0x2E] else [] }

  /** Where the whole part of a numeral ends. */
  lemma WholeEnds(n: Numeral)
    requires GoodNumeral(n)
    ensures var s, sign, tail := NumeralText(n), |Minus(n)|, Point(n) + (n.fraction + ExponentText(n.exponent));
      Sign(s, 0) == sign && DigitRun(s, sign) == sign + |n.whole| <= |s| && s[sign + |n.whole|..] == tail
  {
    var s, tail := NumeralText(n), Point(n) + (n.fraction + ExponentText(n.exponent));
    WholeStart(n, tail);
    assert s[0..] == Minus(n) + (n.whole + tail);
    hide ExponentText, Sign, DigitRun, NumeralText;
    SignIs(s, 0, Minus(n), n.whole + tail);
    DigitRunIs(s, |Minus(n)|, n.whole, tail);
  }

  /** The mantissa ends at `mantissa`, if its whole part ends at `whole`. */
  predicate MantissaAt(s: Bytes, whole: nat, mantissa: nat) {
    whole <= mantissa <= |s| &&
    if whole < |s| && s[whole] == DOT then mantissa == DigitRun(s, whole + 1) else mantissa == whole
  }

  lemma FractionEnds(s: Bytes, whole: nat, f: Bytes, e: Bytes)
    requires whole <= |s| && s[whole..] == [0x2E] + (f + e) && AllDigits(f) && (e != [] ==> !IsDigit(e[0]))
    ensures MantissaAt(s, whole, whole + 1 + |f|) && whole + 1 + |f| <= |s| && s[whole + 1 + |f|..] == e
  {
    SecondPart(s, whole, 0x2E, f + e);
    hide AllDigits, DigitRun;
    DigitRunIs(s, whole + 1, f, e);
  }

  lemma NoFraction(s: Bytes, whole: nat, e: Bytes)
    requires whole <= |s| && s[whole..] == e && (e != [] ==> e[0] != DOT)
    ensures MantissaAt(s, whole, whole)
  {
    if whole < |s| { assert s[whole] == s[whole..][0]; }
  }

  /** Where the mantissa of a numeral ends. */
  function Mantissa(n: Numeral): nat {
    |Minus(n)| + |n.whole| + |Point(n)| + |n.fraction|
  }

  lemma MantissaEnds(n: Numeral)
    requires GoodNumeral(n)
    ensures MantissaAt(NumeralText(n), |Minus(n)| + |n.whole|, Mantissa(n)) && Mantissa(n) <= |NumeralText(n)|
    ensures NumeralText(n)[Mantissa(n)..] == ExponentText(n.exponent)
  {
    hide *;
    var s, whole, e := NumeralText(n), |Minus(n)| + |n.whole|, ExponentText(n.exponent);
    WholeEnds(n);
    ExponentStart(n);
    GoodParts(n);
    PointIs(n);
    if n.point {
      FractionEnds(s, whole, n.fraction, e);
    } else {
      assert Point(n) + (n.fraction + e) == e;
      NoFraction(s, whole, e);
    }
    MantissaInside(s, whole, Mantissa(n));
  }

  lemma MantissaInside(s: Bytes, whole: nat, mantissa: nat)
    requires MantissaAt(s, whole, mantissa)
    ensures whole <= mantissa <= |s|
  {
  }

  lemma PointIs(n: Numeral)
    ensures Point(n) == if n.point then [0x2E] else []
    ensures Mantissa(n) == |Minus(n)| + |n.whole| + |Point(n)| + |n.fraction|
  {
  }

  lemma GoodParts(n: Numeral)
    requires GoodNumeral(n)
    ensures AllDigits(n.whole) && AllDigits(n.fraction) && (!n.point ==> n.fraction == [])
    ensures (n.whole != [] || n.fraction != []) && GoodExponent(n.exponent) && |NumeralText(n)| <= 63
    ensures n.exponent.NoExponent? ==> ExponentText(n.exponent) == []
  {
  }

  lemma WholeStart(n: Numeral, tail: Bytes)
    requires GoodNumeral(n) && tail == Point(n) + (n.fraction + ExponentText(n.exponent))
    ensures n.whole + tail != [] && (IsDigit((n.whole + tail)[0]) || (n.whole + tail)[0] == DOT)
    ensures AllDigits(n.whole) && (tail != [] ==> !IsDigit(tail[0]))
  {
    ExponentStart(n);
    hide ExponentText;
  }

  /** How much is converted, given where the parts end. */
  lemma StrtodParts(s: Bytes, sign: nat, whole: nat, mantissa: nat)
    requires sign <= whole <= |s| && Sign(s, 0) == sign && DigitRun(s, sign) == whole && MantissaAt(s, whole, mantissa)
    ensures whole <= mantissa <= |s|
    ensures Strtod(s) ==
      if mantissa - (if mantissa > whole then 1 else 0) == sign then 0
      else if mantissa < |s| && (s[mantissa] == LETTER_E || s[mantissa] == 0x45) then
        var start := Sign(s, mantissa + 1);
        if DigitRun(s, start) > start then DigitRun(s, start) else mantissa
      else mantissa
  {
    hide DigitRun, Sign;
  }

  /** Every numeral of the syntax is converted whole. */
  lemma NumeralConverts(n: Numeral)
    requires GoodNumeral(n)
    ensures Strtod(NumeralText(n)) == |NumeralText(n)|
  {
    hide *;
    var s, sign, mantissa := NumeralText(n), |Minus(n)|, Mantissa(n);
    WholeEnds(n);
    MantissaEnds(n);
    GoodParts(n);
    PointIs(n);
    assert |s[mantissa..]| == |ExponentText(n.exponent)|;
    StrtodParts(s, sign, sign + |n.whole|, mantissa);
    if n.exponent.Exponent? {
      ExponentConverts(s, mantissa, n.exponent);
    } else {
      assert ExponentText(n.exponent) == [];
    }
  }

  /** A numeral starts like a number, and consists of characters of numbers. */
  lemma NumeralBytes(n: Numeral)
    requires GoodNumeral(n)
    ensures var s := NumeralText(n);
      0 < |s| <= 63 && (s[0] == MINUS || IsDigit(s[0])) && forall k :: 0 <= k < |s| ==> InNumber(s[k])
  {
    var e := ExponentText(n.exponent);
    ExponentBytes(n);
    hide ExponentText;
    JoinBytes(n.fraction, e);
    JoinBytes(Point(n), n.fraction + e);
    JoinBytes(n.whole, Point(n) + (n.fraction + e));
    JoinBytes(Minus(n), n.whole + (Point(n) + (n.fraction + e)));
  }

  predicate NumberBytes(s: Bytes) {
    forall k :: 0 <= k < |s| ==> InNumber(s[k])
  }

  lemma JoinBytes(s: Bytes, t: Bytes)
    requires NumberBytes(s) && NumberBytes(t)
    ensures NumberBytes(s + t)
  {
    hide InNumber;
  }

  lemma ExponentBytes(n: Numeral)
    requires GoodNumeral(n)
    ensures NumberBytes(ExponentText(n.exponent))
  {
    match n.exponent
    case NoExponent =>
    case Exponent(letter, sign, digits) =>
      JoinBytes(sign, digits);
      JoinBytes([letter], sign + digits);
  }

  lemma ExponentStart(n: Numeral)
    requires GoodNumeral(n)
    ensures var e := ExponentText(n.exponent);
      && (n.exponent.NoExponent? <==> e == [])
      && (e != [] ==> e[0] == n.exponent.letter && !IsDigit(e[0]) && e[0] != DOT)
  {
  }

  lemma ExponentConverts(s: Bytes, m: nat, e: Exponent)
    requires m <= |s| && s[m..] == ExponentText(e) && e.Exponent? && GoodExponent(e)
    ensures m < |s| && (s[m] == LETTER_E || s[m] == 0x45)
    ensures DigitRun(s, Sign(s, m + 1)) == |s| > Sign(s, m + 1)
  {
    hide *;
    ExponentParts(e);
    SecondPart(s, m, e.letter, e.sign + e.digits);
    SignIs(s, m + 1, e.sign, e.digits);
    assert e.digits == e.digits + [];
    DigitRunIs(s, m + 1 + |e.sign|, e.digits, []);
  }

  lemma ExponentParts(e: Exponent)
    requires e.Exponent? && GoodExponent(e)
    ensures ExponentText(e) == [e.letter] + (e.sign + e.digits) && (e.letter == LETTER_E || e.letter == 0x45)
    ensures e.sign == [] || e.sign == [0x2B] || e.sign == [0x2D]
    ensures e.digits != [] && AllDigits(e.digits) && IsDigit(e.digits[0])
  {
  }

  lemma SecondPart(s: Bytes, m: nat, b: Byte, rest: Bytes)
    requires m <= |s| && s[m..] == [b] + rest
    ensures m < |s| && s[m] == b && s[m + 1..] == rest
  {
    assert s[m] == s[m..][0];
    assert s[m + 1..] == s[m..][1..];
  }

  // ----- numbers: what is converted is written ---------------------------------------------------------

  lemma SignShape(s: Bytes, i: nat)
    requires i <= |s|
    ensures var j := Sign(s, i); s[i..j] == [] || s[i..j] == [0x2B] || s[i..j] == [0x2D]
    ensures i < |s| && s[i] == MINUS ==> Sign(s, i) == i + 1 && s[i..i + 1] == [0x2D]
    ensures i < |s| && IsDigit(s[i]) ==> Sign(s, i) == i
  {
  }

  lemma RunShape(s: Bytes, i: nat)
    requires i <= |s|
    ensures AllDigits(s[i..DigitRun(s, i)])
  {
    var j := DigitRun(s, i);
    assert forall k :: 0 <= k < j - i ==> s[i..j][k] == s[i + k];
  }

  /** The exponent that stands at `m`, if any. */
  lemma ExponentRead(s: Bytes, m: nat, end: nat) returns (e: Exponent)
    requires m <= end <= |s|
    requires end > m ==> m < |s| && (s[m] == 0x65 || s[m] == 0x45) &&
                         var start := Sign(s, m + 1); end == DigitRun(s, start) && end > start
    ensures ExponentText(e) == s[m..end] && GoodExponent(e)
  {
    if end == m {
      e := NoExponent;
    } else {
      var start := Sign(s, m + 1);
      SignShape(s, m + 1);
      RunShape(s, start);
      hide Sign, DigitRun, AllDigits;
      e := Exponent(s[m], s[m + 1..start], s[start..end]);
      SliceJoin(s, m, m + 1, end);
      SliceJoin(s, m + 1, start, end);
      assert s[m..m + 1] == [s[m]];
    }
  }

  lemma PointRead(s: Bytes, whole: nat, mantissa: nat)
    requires whole < mantissa <= |s| && s[whole] == 0x2E
    ensures s[whole..mantissa] == [0x2E] + s[whole + 1..mantissa]
  {
  }

  /** The parts of a text, joined. */
  lemma NumeralJoins(s: Bytes, n: Numeral, sign: nat, whole: nat, mantissa: nat, end: nat)
    requires sign <= whole <= mantissa <= end <= |s|
    requires Minus(n) == s[..sign] && n.whole == s[sign..whole] && Point(n) + n.fraction == s[whole..mantissa]
    requires ExponentText(n.exponent) == s[mantissa..end]
    ensures NumeralText(n) == s[..end]
  {
    var e := ExponentText(n.exponent);
    hide ExponentText;
    assert Point(n) + (n.fraction + e) == s[whole..mantissa] + s[mantissa..end];
    SliceJoin(s, whole, mantissa, end);
    SliceJoin(s, sign, whole, end);
    assert s[..end] == s[..sign] + s[sign..end];
  }

  /** The fraction that stands between `whole` and `mantissa`, if any. */
  function Fraction(s: Bytes, whole: nat, mantissa: nat): Bytes
    requires whole <= mantissa <= |s|
  {
    if whole < mantissa then s[whole + 1..mantissa] else []
  }

  lemma FractionRead(s: Bytes, whole: nat, mantissa: nat)
    requires MantissaAt(s, whole, mantissa)
    ensures whole <= mantissa <= |s| && AllDigits(Fraction(s, whole, mantissa))
    ensures (if whole < mantissa then [0x2E] else []) + Fraction(s, whole, mantissa) == s[whole..mantissa]
    ensures |Fraction(s, whole, mantissa)| == if whole < mantissa then mantissa - whole - 1 else 0
  {
    if whole < mantissa {
      RunShape(s, whole + 1);
      hide DigitRun, AllDigits;
      PointRead(s, whole, mantissa);
    }
  }

  /** Whatever `strtod` converts behind a minus or a digit is a numeral. */
  lemma NumeralRead(s: Bytes) returns (n: Numeral)
    requires 0 < |s| <= 63 && (s[0] == MINUS || IsDigit(s[0])) && Strtod(s) > 0
    ensures GoodNumeral(n) && NumeralText(n) == s[..Strtod(s)]
  {
    var sign := Sign(s, 0);
    var whole := DigitRun(s, sign);
    var mantissa := if whole < |s| && s[whole] == DOT then DigitRun(s, whole + 1) else whole;
    var end := Strtod(s);
    StrtodParts(s, sign, whole, mantissa);
    SignShape(s, 0);
    RunShape(s, sign);
    FractionRead(s, whole, mantissa);
    assert sign == 0 ==> whole > 0;
    var fraction := Fraction(s, whole, mantissa);
    hide Strtod, Sign, DigitRun, AllDigits, NumeralText, Fraction, MantissaAt;
    var e := ExponentRead(s, mantissa, end);
    n := Numeral(sign == 1, s[sign..whole], whole < mantissa, fraction, e);
    NumeralJoins(s, n, sign, whole, mantissa, end);
  }
}
