/** JSON strings as bytes: escaping, and the decoding of string literals. */
module JsonText {
  import opened Options

  type Byte = n: int | 0 <= n < 256
  type Bytes = seq<Byte>

  const QUOTE: Byte := 0x22
  const BACKSLASH: Byte := 0x5C
  const SLASH: Byte := 0x2F
  const BACKSPACE: Byte := 0x08
  const FORMFEED: Byte := 0x0C
  const NEWLINE: Byte := 0x0A
  const RETURN: Byte := 0x0D
  const TAB: Byte := 0x09
  const SPACE: Byte := 0x20
  const LETTER_B: Byte := 0x62
  const LETTER_F: Byte := 0x66
  const LETTER_N: Byte := 0x6E
  const LETTER_R: Byte := 0x72
  const LETTER_T: Byte := 0x74
  const LETTER_U: Byte := 0x75
  const DIGIT_0: Byte := 0x30

  // ----- hexadecimal digits ----------------------------------------------------------------------

  function HexValue(b: Byte): Option<nat> {
    if 0x30 <= b <= 0x39 then Some(b - 0x30)
    else if 0x41 <= b <= 0x46 then Some(10 + b - 0x41)
    else if 0x61 <= b <= 0x66 then Some(10 + b - 0x61)
    else None
  }

  /** A lower-case hexadecimal digit. */
  function HexDigit(n: nat): (b: Byte)
    requires n < 16
    ensures HexValue(b) == Some(n)
  {
    if n < 10 then 0x30 + n else 0x61 + n - 10
  }

  /** The value of four hexadecimal digits, or 0 if one of them is not a digit. */
  function Hex4(s: Bytes): (h: nat)
    requires |s| == 4
    ensures h < 0x1_0000
  {
    if forall i :: 0 <= i < 4 ==> HexValue(s[i]).Some? then
      0x1000 * HexValue(s[0]).value + 0x100 * HexValue(s[1]).value + 0x10 * HexValue(s[2]).value + HexValue(s[3]).value
    else 0
  }

  // ----- UTF-8 (RFC 3629, section 3) ---------------------------------------------------------------

  predicate CodePoint(cp: nat) {
    cp <= 0x10FFFF
  }

  function Utf8(cp: nat): (s: Bytes)
    requires CodePoint(cp)
    ensures 1 <= |s| <= 4
  {
    if cp < 0x80 then [cp]
    else if cp < 0x800 then [0xC0 + cp / 0x40, 0x80 + cp % 0x40]
    else if cp < 0x1_0000 then [0xE0 + cp / 0x1000, 0x80 + (cp / 0x40) % 0x40, 0x80 + cp % 0x40]
    else [0xF0 + cp / 0x4_0000, 0x80 + (cp / 0x1000) % 0x40, 0x80 + (cp / 0x40) % 0x40, 0x80 + cp % 0x40]
  }

  /** The six payload bits of a continuation byte. */
  function Payload(b: Byte): Option<nat> {
    if 0x80 <= b < 0xC0 then Some(b - 0x80) else None
  }

  /** The number that a byte sequence of the table in RFC 3629, section 3, stands for, overlong or not. */
  function Utf8Value(s: Bytes): Option<nat> {
    if |s| == 1 && s[0] < 0x80 then Some(s[0])
    else if |s| == 2 && 0xC0 <= s[0] < 0xE0 && Payload(s[1]).Some? then
      Some((s[0] - 0xC0) * 0x40 + Payload(s[1]).value)
    else if |s| == 3 && 0xE0 <= s[0] < 0xF0 && Payload(s[1]).Some? && Payload(s[2]).Some? then
      Some((s[0] - 0xE0) * 0x1000 + Payload(s[1]).value * 0x40 + Payload(s[2]).value)
    else if |s| == 4 && 0xF0 <= s[0] < 0xF8 && Payload(s[1]).Some? && Payload(s[2]).Some? && Payload(s[3]).Some? then
      Some((s[0] - 0xF0) * 0x4_0000 + Payload(s[1]).value * 0x1000 + Payload(s[2]).value * 0x40 + Payload(s[3]).value)
    else None
  }

  /** The encoding stands for its code point. */
  lemma Utf8Means(cp: nat)
    requires CodePoint(cp)
    ensures Utf8Value(Utf8(cp)) == Some(cp)
  {
    var d0, d1, d2 := cp % 0x40, (cp / 0x40) % 0x40, (cp / 0x1000) % 0x40;
    SixBits(cp);
    SixBits(cp / 0x40);
    SixBits(cp / 0x1000);
    assert cp / 0x40 / 0x40 == cp / 0x1000 && cp / 0x1000 / 0x40 == cp / 0x4_0000;
    if cp < 0x80 {
    } else if cp < 0x800 {
      assert Payload(0x80 + d0) == Some(d0);
    } else if cp < 0x1_0000 {
      assert Payload(0x80 + d0) == Some(d0) && Payload(0x80 + d1) == Some(d1);
    } else {
      assert Payload(0x80 + d0) == Some(d0) && Payload(0x80 + d1) == Some(d1) && Payload(0x80 + d2) == Some(d2);
    }
  }

  lemma SixBits(n: nat)
    ensures n == (n / 0x40) * 0x40 + n % 0x40
  {
  }

  lemma Utf8Limits(s: Bytes)
    ensures Utf8Value(s).Some? ==>
              1 <= |s| <= 4 && Utf8Value(s).value < if |s| == 1 then 0x80 else if |s| == 2 then 0x800 else
                                 if |s| == 3 then 0x1_0000 else 0x20_0000
  {
  }

  /** No sequence that stands for a code point is shorter than its encoding. */
  lemma Utf8Shortest(cp: nat, s: Bytes)
    requires CodePoint(cp) && Utf8Value(s) == Some(cp)
    ensures |Utf8(cp)| <= |s|
  {
    hide Utf8Value;
    Utf8Limits(s);
  }

  // ----- the escape of a UTF-16 literal (RFC 8259, section 7) ---------------------------------------

  datatype Literal = Literal(length: nat, bytes: Bytes) | BadLiteral

  predicate LowSurrogate(code: nat) {
    0xDC00 <= code <= 0xDFFF
  }

  predicate HighSurrogate(code: nat) {
    0xD800 <= code <= 0xDBFF
  }

  /** The code point of a surrogate pair. */
  function PairValue(high: nat, low: nat): (cp: nat)
    requires HighSurrogate(high) && LowSurrogate(low)
    ensures 0x1_0000 <= cp <= 0x10FFFF
  {
    0x1_0000 + (high % 0x400) * 0x400 + low % 0x400
  }

  /** Every code point beyond the basic plane is the value of exactly its surrogate pair (RFC 8259,
      section 7). */
  lemma PairMeans(cp: nat, high: nat, low: nat)
    requires 0x1_0000 <= cp <= 0x10FFFF && HighSurrogate(high) && LowSurrogate(low)
    ensures PairValue(high, low) == cp
       <==> high == 0xD800 + (cp - 0x1_0000) / 0x400 && low == 0xDC00 + (cp - 0x1_0000) % 0x400
  {
    assert high % 0x400 == high - 0xD800 && low % 0x400 == low - 0xDC00;
  }

  /** Four hexadecimal digits, of either case, that spell a number. */
  predicate Spells(s: Bytes, n: nat)
    requires |s| == 4
  {
    && HexValue(s[0]) == Some(n / 0x1000) && HexValue(s[1]) == Some((n / 0x100) % 0x10)
    && HexValue(s[2]) == Some((n / 0x10) % 0x10) && HexValue(s[3]) == Some(n % 0x10)
  }

  predicate AllHex(s: Bytes) {
    forall i :: 0 <= i < |s| ==> HexValue(s[i]).Some?
  }

  /** Four digits are read as the number they spell. */
  lemma Hex4Means(s: Bytes, n: nat)
    requires |s| == 4 && Spells(s, n)
    ensures AllHex(s) && Hex4(s) == n
  {
    hide HexValue;
    HexParts(n);
    assert forall i :: 0 <= i < 4 ==> HexValue(s[i]).Some?;
  }

  /** Four digits always spell the number they are read as, so nothing else does. */
  lemma Hex4Spelled(s: Bytes)
    requires |s| == 4 && AllHex(s)
    ensures Spells(s, Hex4(s))
  {
    var a, b, c, d := HexValue(s[0]).value, HexValue(s[1]).value, HexValue(s[2]).value, HexValue(s[3]).value;
    assert a < 16 && b < 16 && c < 16 && d < 16;
    hide HexValue;
    assert Hex4(s) == 0x1000 * a + 0x100 * b + 0x10 * c + d;
    hide Hex4;
    Digits(a, b, c, d);
  }

  lemma Digits(a: nat, b: nat, c: nat, d: nat)
    requires a < 16 && b < 16 && c < 16 && d < 16
    ensures var n := 0x1000 * a + 0x100 * b + 0x10 * c + d;
      n / 0x1000 == a && (n / 0x100) % 0x10 == b && (n / 0x10) % 0x10 == c && n % 0x10 == d
  {
    var n := 0x1000 * a + 0x100 * b + 0x10 * c + d;
    assert n / 0x10 == 0x100 * a + 0x10 * b + c;
    assert n / 0x100 == 0x10 * a + b;
  }

  lemma HexParts(n: nat)
    ensures n == 0x1000 * (n / 0x1000) + 0x100 * ((n / 0x100) % 0x10) + 0x10 * ((n / 0x10) % 0x10) + n % 0x10
  {
    assert n / 0x10 / 0x10 == n / 0x100 && n / 0x100 / 0x10 == n / 0x1000;
  }

  /** One or two \uXXXX sequences at position `i` of a literal that ends before `end`. */
  function Utf16Literal(c: Bytes, i: nat, end: nat): (r: Literal)
    requires i <= end <= |c|
    ensures r.Literal? ==> (r.length == 6 && |r.bytes| <= 3) || (r.length == 12 && |r.bytes| == 4)
    ensures r.Literal? ==> i + r.length <= end
  {
    if end - i < 6 then BadLiteral
    else
      var first := Hex4(c[i + 2..i + 6]);
      if LowSurrogate(first) then BadLiteral
      else if HighSurrogate(first) then
        if end - (i + 6) < 6 || c[i + 6] != BACKSLASH || c[i + 7] != LETTER_U then BadLiteral
        else
          var second := Hex4(c[i + 8..i + 12]);
          if !LowSurrogate(second) then BadLiteral else Literal(12, Utf8(PairValue(first, second)))
      else Literal(6, Utf8(first))
  }

  /** At `i` stands `\uXXXX` for a number below 2^16, in upper-case or lower-case digits. */
  predicate EscapeAt(c: Bytes, i: nat, code: nat) {
    i + 6 <= |c| && c[i] == BACKSLASH && c[i + 1] == LETTER_U && Spells(c[i + 2..i + 6], code)
  }

  /** How long the escape of a character is: one sequence in the basic plane, a surrogate pair beyond it. */
  function EscapeLength(cp: nat): nat {
    if cp < 0x1_0000 then 6 else 12
  }

  /** At `i` stands an escape of a character as RFC 8259, section 7, defines it. */
  predicate CharacterAt(c: Bytes, i: nat, cp: nat) {
    && CodePoint(cp) && !HighSurrogate(cp) && !LowSurrogate(cp)
    && if cp < 0x1_0000 then EscapeAt(c, i, cp)
       else
         && EscapeAt(c, i, 0xD800 + (cp - 0x1_0000) / 0x400)
         && EscapeAt(c, i + 6, 0xDC00 + (cp - 0x1_0000) % 0x400)
  }

  /** Every escape of a character, in digits of either case, is decoded to the character's UTF-8 form, and the
      whole of it is consumed. */
  lemma LiteralMeans(c: Bytes, i: nat, end: nat, cp: nat)
    requires CharacterAt(c, i, cp) && i + EscapeLength(cp) <= end <= |c|
    ensures Utf16Literal(c, i, end) == Literal(EscapeLength(cp), Utf8(cp))
  {
    hide Spells, Hex4, Utf8;
    if cp < 0x1_0000 {
      Hex4Means(c[i + 2..i + 6], cp);
    } else {
      var high, low := 0xD800 + (cp - 0x1_0000) / 0x400, 0xDC00 + (cp - 0x1_0000) % 0x400;
      Hex4Means(c[i + 2..i + 6], high);
      Hex4Means(c[i + 8..i + 12], low);
      PairMeans(cp, high, low);
    }
  }

  /** At `i` stands an escape of some character, and it ends before `end`. */
  ghost predicate ValidEscape(c: Bytes, i: nat, end: nat) {
    exists cp :: CharacterAt(c, i, cp) && i + EscapeLength(cp) <= end
  }

  /** The decoder does not only accept what RFC 8259 allows: it also takes four bytes that are not all hexadecimal
      digits, and makes a NUL of them.  It accepts nothing else; in particular no malformed second half of a pair. */
  lemma AcceptedExactly(c: Bytes, i: nat, end: nat)
    requires i + 2 <= end <= |c| && c[i] == BACKSLASH && c[i + 1] == LETTER_U
    ensures Utf16Literal(c, i, end).Literal? <==>
              ValidEscape(c, i, end) || (i + 6 <= end && !AllHex(c[i + 2..i + 6]))
    ensures i + 6 <= end && !AllHex(c[i + 2..i + 6]) ==> Utf16Literal(c, i, end) == Literal(6, [0])
  {
    hide Hex4, Spells, HexValue;
    if cp :| CharacterAt(c, i, cp) && i + EscapeLength(cp) <= end { LiteralMeans(c, i, end, cp); }
    if i + 6 <= end {
      if AllHex(c[i + 2..i + 6]) {
        if Utf16Literal(c, i, end).Literal? { AcceptedValid(c, i, end); }
      } else {
        Malformed(c[i + 2..i + 6]);
      }
    }
  }

  /** Bytes that are not all digits are read as 0. */
  lemma Malformed(s: Bytes)
    requires |s| == 4 && !AllHex(s)
    ensures Hex4(s) == 0
  {
  }

  lemma AcceptedValid(c: Bytes, i: nat, end: nat)
    requires i + 6 <= end <= |c| && c[i] == BACKSLASH && c[i + 1] == LETTER_U && AllHex(c[i + 2..i + 6])
    requires Utf16Literal(c, i, end).Literal?
    ensures ValidEscape(c, i, end)
  {
    hide Hex4, Spells, HexValue, Utf8;
    var first := Hex4(c[i + 2..i + 6]);
    Hex4Spelled(c[i + 2..i + 6]);
    if HighSurrogate(first) {
      var half := c[i + 8..i + 12];
      if !AllHex(half) { Malformed(half); }
      Hex4Spelled(half);
      var cp := PairValue(first, Hex4(half));
      PairMeans(cp, first, Hex4(half));
      assert CharacterAt(c, i, cp);
    } else {
      assert CharacterAt(c, i, first);
    }
  }

  // ----- string literals ---------------------------------------------------------------------------

  /** The position of the quote that closes a literal whose content starts at `i`. */
  function CloseQuote(c: Bytes, i: nat): (r: Option<nat>)
    requires i <= |c|
    ensures r.Some? ==> i <= r.value < |c| && c[r.value] == QUOTE
    decreases |c| - i
  {
    if i == |c| then None
    else if c[i] == QUOTE then Some(i)
    else if c[i] == BACKSLASH then
      if i + 1 >= |c| then None else CloseQuote(c, i + 2)
    else CloseQuote(c, i + 1)
  }

  /** The byte a two-character escape stands for. */
  function Unescaped(b: Byte): Option<Byte> {
    if b == LETTER_B then Some(BACKSPACE)
    else if b == LETTER_F then Some(FORMFEED)
    else if b == LETTER_N then Some(NEWLINE)
    else if b == LETTER_R then Some(RETURN)
    else if b == LETTER_T then Some(TAB)
    else if b == QUOTE || b == BACKSLASH || b == SLASH then Some(b)
    else None
  }

  datatype Decoded = Decoded(bytes: Bytes) | Undecodable(at: nat)

  /** The bytes of a literal's content from `i` to `end`, or the position of the first escape that
      cannot be decoded. */
  function Decode(c: Bytes, i: nat, end: nat): Decoded
    requires end < |c|
    decreases |c| - i
  {
    if i >= end then Decoded([])
    else if c[i] != BACKSLASH then Prefix([c[i]], Decode(c, i + 1, end))
    else if c[i + 1] == LETTER_U then
      var r := Utf16Literal(c, i, end);
      if r.BadLiteral? then Undecodable(i) else Prefix(r.bytes, Decode(c, i + r.length, end))
    else if Unescaped(c[i + 1]).Some? then Prefix([Unescaped(c[i + 1]).value], Decode(c, i + 2, end))
    else Undecodable(i)
  }

  function Prefix(s: Bytes, d: Decoded): Decoded {
    if d.Decoded? then Decoded(s + d.bytes) else d
  }

  datatype StringOutcome = ParsedString(bytes: Bytes, offset: nat) | FailedString(offset: nat)

  /** The string literal at offset `o`. */
  function ParseString(c: Bytes, o: nat): (r: StringOutcome)
    requires o < |c|
    ensures r.ParsedString? ==> o + 1 < r.offset <= |c| && c[r.offset - 1] == QUOTE
  {
    if c[o] != QUOTE then FailedString(o + 1)
    else if CloseQuote(c, o + 1).None? then FailedString(o + 1)
    else
      var end := CloseQuote(c, o + 1).value;
      match Decode(c, o + 1, end)
      case Decoded(bytes) => ParsedString(bytes, end + 1)
      case Undecodable(at) => FailedString(at)
  }

  // ----- escaping ----------------------------------------------------------------------------------

  /** The letter of the two-character escape of a control character, if it has one. */
  function EscapeLetter(b: Byte): Option<Byte> {
    if b == BACKSPACE then Some(LETTER_B)
    else if b == FORMFEED then Some(LETTER_F)
    else if b == NEWLINE then Some(LETTER_N)
    else if b == RETURN then Some(LETTER_R)
    else if b == TAB then Some(LETTER_T)
    else None
  }

  function EscapeByte(b: Byte): (s: Bytes)
    ensures 1 <= |s| <= 6
  {
    if b > 31 && b != QUOTE && b != BACKSLASH then [b]
    else if b == QUOTE || b == BACKSLASH then [BACKSLASH, b]
    else if EscapeLetter(b).Some? then [BACKSLASH, EscapeLetter(b).value]
    else [BACKSLASH, LETTER_U, DIGIT_0, DIGIT_0, HexDigit(b / 16), HexDigit(b % 16)]
  }

  function Escape(s: Bytes): Bytes {
    if s == [] then [] else EscapeByte(s[0]) + Escape(s[1..])
  }

  /** The text of a string. */
  function Quote(s: Bytes): Bytes {
    [QUOTE] + Escape(s) + [QUOTE]
  }

  /** A C string: no byte of it is NUL. */
  predicate NulFree(s: Bytes) {
    forall i :: 0 <= i < |s| ==> s[i] != 0
  }

  // ----- decoding undoes escaping --------------------------------------------------------------------

  /** `part` stands in `c` at position `i`. */
  predicate Occurs(c: Bytes, i: nat, part: Bytes) {
    i + |part| <= |c| && c[i..i + |part|] == part
  }

  lemma OccursParts(c: Bytes, i: nat, s: Bytes, t: Bytes)
    requires Occurs(c, i, s + t)
    ensures Occurs(c, i, s) && Occurs(c, i + |s|, t)
  {
    assert (s + t)[..|s|] == s && (s + t)[|s|..] == t;
  }

  lemma OccursAt(c: Bytes, i: nat, s: Bytes, k: nat)
    requires Occurs(c, i, s) && k < |s|
    ensures i + k < |c| && c[i + k] == s[k]
  {
  }

  /** The bytes of an escaped byte, one by one. */
  lemma EscapeBytes(c: Bytes, i: nat, b: Byte)
    requires Occurs(c, i, EscapeByte(b))
    ensures var n := |EscapeByte(b)|;
      && i + n <= |c| && (n == 1 || n == 2 || n == 6)
      && (n == 1 ==> c[i] == b != BACKSLASH && b != QUOTE)
      && (n == 2 ==> c[i] == BACKSLASH && c[i + 1] != LETTER_U && Unescaped(c[i + 1]) == Some(b))
      && (n == 6 ==> (
            && c[i] == BACKSLASH && c[i + 1] == LETTER_U && c[i + 2] == c[i + 3] == DIGIT_0
            && c[i + 4] == HexDigit(b / 16) && c[i + 5] == HexDigit(b % 16)))
  {
    var e := EscapeByte(b);
    OccursAt(c, i, e, 0);
    if |e| >= 2 { OccursAt(c, i, e, 1); }
    if |e| == 6 {
      OccursAt(c, i, e, 2);
      OccursAt(c, i, e, 3);
      OccursAt(c, i, e, 4);
      OccursAt(c, i, e, 5);
    }
  }

  lemma CloseStep(c: Bytes, i: nat)
    requires i < |c| && c[i] != QUOTE
    ensures c[i] != BACKSLASH ==> CloseQuote(c, i) == CloseQuote(c, i + 1)
    ensures c[i] == BACKSLASH && i + 1 < |c| ==> CloseQuote(c, i) == CloseQuote(c, i + 2)
  {
  }

  lemma EscapeClosed(c: Bytes, i: nat, b: Byte)
    requires Occurs(c, i, EscapeByte(b))
    ensures i + |EscapeByte(b)| <= |c|
    ensures CloseQuote(c, i) == CloseQuote(c, i + |EscapeByte(b)|)
  {
    EscapeBytes(c, i, b);
    hide CloseQuote, Occurs, EscapeByte;
    CloseStep(c, i);
    if |EscapeByte(b)| == 6 {
      CloseStep(c, i + 2);
      CloseStep(c, i + 3);
      CloseStep(c, i + 4);
      CloseStep(c, i + 5);
    }
  }

  lemma EscapeFirst(s: Bytes)
    ensures Escape(s) == if s == [] then [] else EscapeByte(s[0]) + Escape(s[1..])
  {
  }

  lemma {:induction false} QuoteClosed(c: Bytes, i: nat, s: Bytes)
    requires Occurs(c, i, Escape(s)) && i + |Escape(s)| < |c| && c[i + |Escape(s)|] == QUOTE
    ensures CloseQuote(c, i) == Some(i + |Escape(s)|)
    decreases |s|
  {
    hide EscapeByte, CloseQuote, Occurs, Escape;
    EscapeFirst(s);
    if s == [] {
      AtQuote(c, i);
    } else {
      OccursParts(c, i, EscapeByte(s[0]), Escape(s[1..]));
      EscapeClosed(c, i, s[0]);
      QuoteClosed(c, i + |EscapeByte(s[0])|, s[1..]);
    }
  }

  lemma AtQuote(c: Bytes, i: nat)
    requires i < |c| && c[i] == QUOTE
    ensures CloseQuote(c, i) == Some(i)
  {
  }

  lemma EscapeDecoded(c: Bytes, i: nat, b: Byte, end: nat)
    requires b != 0 && Occurs(c, i, EscapeByte(b)) && i + |EscapeByte(b)| <= end < |c|
    ensures Decode(c, i, end) == Prefix([b], Decode(c, i + |EscapeByte(b)|, end))
  {
    EscapeBytes(c, i, b);
    if |EscapeByte(b)| == 6 {
      assert b < 0x20;
      ControlLiteral(c, i, b, end);
    }
  }

  lemma ControlLiteral(c: Bytes, i: nat, b: Byte, end: nat)
    requires b < 0x20 && i + 6 <= end <= |c|
    requires c[i + 2] == c[i + 3] == DIGIT_0 && c[i + 4] == HexDigit(b / 16) && c[i + 5] == HexDigit(b % 16)
    ensures Utf16Literal(c, i, end) == Literal(6, [b])
  {
    var h := c[i + 2..i + 6];
    assert h == [DIGIT_0, DIGIT_0, HexDigit(b / 16), HexDigit(b % 16)];
    hide HexDigit;
    assert HexValue(DIGIT_0) == Some(0);
    assert Hex4(h) == 0x10 * (b / 16) + b % 16 == b;
  }

  lemma PrefixFirst(s: Bytes)
    requires s != []
    ensures Prefix([s[0]], Decoded(s[1..])) == Decoded(s)
  {
    assert s == [s[0]] + s[1..];
  }

  lemma NulFreeFirst(s: Bytes)
    requires s != [] && NulFree(s)
    ensures s[0] != 0 && NulFree(s[1..])
  {
  }

  lemma DecodeNothing(c: Bytes, i: nat)
    requires i < |c|
    ensures Decode(c, i, i) == Decoded([])
  {
  }

  lemma {:induction false} EscapedDecodes(c: Bytes, i: nat, s: Bytes)
    requires NulFree(s) && Occurs(c, i, Escape(s)) && i + |Escape(s)| < |c|
    ensures Decode(c, i, i + |Escape(s)|) == Decoded(s)
    decreases |s|
  {
    hide EscapeByte, Decode, Occurs, Escape, NulFree, Prefix;
    EscapeFirst(s);
    if s == [] {
      DecodeNothing(c, i);
    } else {
      var e, end := EscapeByte(s[0]), i + |Escape(s)|;
      NulFreeFirst(s);
      OccursParts(c, i, e, Escape(s[1..]));
      EscapeDecoded(c, i, s[0], end);
      EscapedDecodes(c, i + |e|, s[1..]);
      PrefixFirst(s);
    }
  }

  /** Parsing the text of a NUL-free string gives the string back and consumes exactly the text. */
  lemma StringRoundTrip(c: Bytes, o: nat, s: Bytes)
    requires NulFree(s) && Occurs(c, o, Quote(s))
    ensures ParseString(c, o) == ParsedString(s, o + |Quote(s)|)
  {
    hide Escape, Decode, CloseQuote, Occurs;
    assert Quote(s) == [QUOTE] + (Escape(s) + [QUOTE]);
    OccursParts(c, o, [QUOTE], Escape(s) + [QUOTE]);
    OccursAt(c, o, [QUOTE], 0);
    OccursParts(c, o + 1, Escape(s), [QUOTE]);
    OccursAt(c, o + 1 + |Escape(s)|, [QUOTE], 0);
    QuoteClosed(c, o + 1, s);
    EscapedDecodes(c, o + 1, s);
  }

  /** `"\uZZZZ"` is no JSON string, but it is accepted: as the string of one NUL. */
  lemma MalformedString()
    ensures var c: Bytes := [QUOTE, BACKSLASH, LETTER_U, 0x5A, 0x5A, 0x5A, 0x5A, QUOTE, 0];
      !ValidEscape(c, 1, 7) && ParseString(c, 0) == ParsedString([0], 8)
  {
    var c: Bytes := [QUOTE, BACKSLASH, LETTER_U, 0x5A, 0x5A, 0x5A, 0x5A, QUOTE, 0];
    assert c[3..7][0] == 0x5A && !AllHex(c[3..7]);
    AcceptedExactly(c, 1, 7);
    hide Utf16Literal, AllHex;
    CloseStep(c, 1);
    CloseStep(c, 3);
    CloseStep(c, 4);
    CloseStep(c, 5);
    CloseStep(c, 6);
    AtQuote(c, 7);
    DecodeNothing(c, 7);
    assert Decode(c, 1, 7) == Prefix([0], Decode(c, 7, 7));
  }
}
