/** The recursive-descent parser, working in place on an offset and a depth. */
module JsonParser {
  import opened JsonGrammar
  import opened JsonText
  import opened Options

  // ----- the estimate for a decoded string -----------------------------------------------------------

  /** Scanning escapes from `i` on meets the start of an escape at `j`. */
  predicate EscapeStart(c: Bytes, i: nat, j: nat)
    requires j < |c|
    decreases |c| - i
  {
    if i >= j then i == j && c[j] == BACKSLASH
    else EscapeStart(c, if c[i] == BACKSLASH then i + 2 else i + 1, j)
  }

  /** How many of the bytes from `i` to `end` do not start an escape, as scanned from `first`. */
  function Room(c: Bytes, first: nat, i: nat, end: nat): (r: nat)
    requires end <= |c|
    ensures i <= end ==> r <= end - i
    decreases |c| - i
  {
    if i >= end then 0 else (if EscapeStart(c, first, i) then 0 else 1) + Room(c, first, i + 1, end)
  }

  lemma {:induction false} StartIsBackslash(c: Bytes, i: nat, j: nat)
    requires j < |c| && EscapeStart(c, i, j)
    ensures c[j] == BACKSLASH
    decreases |c| - i
  {
    if i < j { StartIsBackslash(c, if c[i] == BACKSLASH then i + 2 else i + 1, j); }
  }

  /** An escape does not start right behind the start of another. */
  lemma {:induction false} StartsApart(c: Bytes, i: nat, j: nat)
    requires j + 1 < |c| && EscapeStart(c, i, j)
    ensures !EscapeStart(c, i, j + 1)
    decreases |c| - i
  {
    if i < j { StartsApart(c, if c[i] == BACKSLASH then i + 2 else i + 1, j); }
  }

  lemma RoomOne(c: Bytes, first: nat, i: nat, end: nat)
    requires i < end <= |c| && c[i] != BACKSLASH
    ensures Room(c, first, i, end) == 1 + Room(c, first, i + 1, end)
  {
    if EscapeStart(c, first, i) { StartIsBackslash(c, first, i); }
  }

  lemma RoomTwo(c: Bytes, first: nat, i: nat, end: nat)
    requires i + 2 <= end <= |c|
    ensures Room(c, first, i, end) >= 1 + Room(c, first, i + 2, end)
  {
    if EscapeStart(c, first, i) { StartsApart(c, first, i); }
  }

  lemma {:induction false} RoomPairs(c: Bytes, first: nat, i: nat, pairs: nat, end: nat)
    requires i + 2 * pairs <= end <= |c|
    ensures Room(c, first, i, end) >= pairs + Room(c, first, i + 2 * pairs, end)
    decreases pairs
  {
    if pairs > 0 {
      RoomTwo(c, first, i, end);
      RoomPairs(c, first, i + 2, pairs - 1, end);
    }
  }

  /** Scanned from `first`, position `i` is not in the middle of an escape. */
  ghost predicate Aligned(c: Bytes, first: nat, i: nat) {
    first <= i <= |c| && forall j :: i <= j < |c| ==> EscapeStart(c, first, j) == EscapeStart(c, i, j)
  }

  lemma AlignedStep(c: Bytes, first: nat, i: nat, next: nat)
    requires Aligned(c, first, i) && i < |c|
    requires next == (if c[i] == BACKSLASH then i + 2 else i + 1) <= |c|
    ensures Aligned(c, first, next)
    ensures EscapeStart(c, first, i) <==> c[i] == BACKSLASH
  {
    forall j | next <= j < |c|
      ensures EscapeStart(c, first, j) == EscapeStart(c, next, j)
    {
      assert EscapeStart(c, first, j) == EscapeStart(c, i, j);
    }
  }

  lemma {:induction false} RoomSplit(c: Bytes, first: nat, i: nat, mid: nat, end: nat)
    requires i <= mid <= end <= |c|
    ensures Room(c, first, i, end) == Room(c, first, i, mid) + Room(c, first, mid, end)
    decreases mid - i
  {
    if i < mid { RoomSplit(c, first, i + 1, mid, end); }
  }

  /** A scanning step counts one byte that does not start an escape. */
  lemma ScanStep(c: Bytes, first: nat, i: nat, next: nat)
    requires Aligned(c, first, i) && i < |c| && c[i] != QUOTE
    requires next == (if c[i] == BACKSLASH then i + 2 else i + 1) <= |c|
    ensures Aligned(c, first, next) && CloseQuote(c, i) == CloseQuote(c, next)
    ensures Room(c, first, first, next) == Room(c, first, first, i) + 1
  {
    AlignedStep(c, first, i, next);
    RoomSplit(c, first, first, i, next);
    if c[i] == BACKSLASH {
      StartsApart(c, first, i);
      RoomSplit(c, first, i, i + 1, i + 2);
    }
    assert Room(c, first, next, next) == 0;
  }

  // ----- decoding ------------------------------------------------------------------------------------

  function Power64(k: nat): (p: nat)
    ensures p > 0
  {
    if k == 0 then 1 else 0x40 * Power64(k - 1)
  }

  /** The bytes of an encoding, from the last one back to the first. */
  lemma Utf8Bytes(cp: nat, k: nat)
    requires CodePoint(cp) && k < |Utf8(cp)|
    ensures var n := |Utf8(cp)|;
      && (k > 0 ==> Utf8(cp)[k] == 0x80 + (cp / Power64(n - 1 - k)) % 0x40)
      && (k == 0 ==> Utf8(cp)[0] == FirstMark(n) + cp / Power64(n - 1))
  {
    assert Power64(1) == 0x40 && Power64(2) == 0x1000 && Power64(3) == 0x4_0000;
  }

  function FirstMark(n: nat): Byte {
    if n == 2 then 0xC0 else if n == 3 then 0xE0 else if n == 4 then 0xF0 else 0
  }

  lemma Power64Divides(cp: nat, k: nat)
    requires k < 3
    ensures cp / Power64(k) / 0x40 == cp / Power64(k + 1)
  {
    assert Power64(1) == 0x40 && Power64(2) == 0x1000 && Power64(3) == 0x4_0000;
    assert cp / 0x40 / 0x40 == cp / 0x1000 && cp / 0x1000 / 0x40 == cp / 0x4_0000;
  }

  /** Read four hexadecimal digits; 0 if one of them is none. */
  method ParseHex4(c: Bytes, at: nat) returns (h: nat)
    requires at + 4 <= |c|
    ensures h == Hex4(c[at..at + 4])
  {
    ghost var s := c[at..at + 4];
    h := 0;
    var i := 0;
    while i < 4
      invariant i <= 4
      invariant forall k :: 0 <= k < i ==> HexValue(s[k]).Some?
      invariant i == 0 ==> h == 0
      invariant i == 1 ==> h == 0x10 * HexValue(s[0]).value
      invariant i == 2 ==> h == 0x100 * HexValue(s[0]).value + 0x10 * HexValue(s[1]).value
      invariant i == 3 ==>
                  h == 0x1000 * HexValue(s[0]).value + 0x100 * HexValue(s[1]).value + 0x10 * HexValue(s[2]).value
      invariant i == 4 ==> h == Hex4(s)
    {
      assert s[i] == c[at + i];
      if 0x30 <= c[at + i] <= 0x39 {
        h := h + c[at + i] - 0x30;
      } else if 0x41 <= c[at + i] <= 0x46 {
        h := h + 10 + c[at + i] - 0x41;
      } else if 0x61 <= c[at + i] <= 0x66 {
        h := h + 10 + c[at + i] - 0x61;
      } else {
        return 0;
      }
      if i < 3 {
        h := h * 0x10;
      }
      i := i + 1;
    }
  }

  /** Write the UTF-8 form of a code point from its last byte to its first. */
  method EncodeUtf8(cp: nat, output: array<Byte>, at: nat) returns (length: nat)
    requires CodePoint(cp) && at + |Utf8(cp)| <= output.Length
    modifies output
    ensures length == |Utf8(cp)| && output[..at + length] == old(output[..at]) + Utf8(cp)
  {
    var mark: Byte := 0;
    if cp < 0x80 {
      length := 1;
    } else if cp < 0x800 {
      length, mark := 2, 0xC0;
    } else if cp < 0x1_0000 {
      length, mark := 3, 0xE0;
    } else {
      length, mark := 4, 0xF0;
    }
    hide Utf8, Power64;
    var rest := EncodeTail(cp, length, output, at);
    Utf8Bytes(cp, 0);
    ghost var tail := output[at + 1..at + length];
    output[at] := mark + rest;
    assert output[at + 1..at + length] == tail;
    assert output[at..at + length] == [output[at]] + tail == Utf8(cp);
    assert output[..at + length] == output[..at] + output[at..at + length];
  }

  method EncodeTail(cp: nat, length: nat, output: array<Byte>, at: nat) returns (rest: nat)
    requires CodePoint(cp) && length == |Utf8(cp)| && at + length <= output.Length
    modifies output
    ensures rest == cp / Power64(length - 1)
    ensures output[at + 1..at + length] == Utf8(cp)[1..] && output[..at] == old(output[..at])
  {
    hide Utf8, Power64;
    rest := cp;
    var position := length - 1;
    NoPower(cp);
    while position > 0
      invariant 0 <= position < length
      invariant rest == cp / Power64(length - 1 - position)
      invariant forall k :: position < k < length ==> output[at + k] == Utf8(cp)[k]
      invariant output[..at] == old(output[..at])
    {
      Utf8Bytes(cp, position);
      output[at + position] := 0x80 + rest % 0x40;
      Power64Divides(cp, length - 1 - position);
      rest := rest / 0x40;
      position := position - 1;
    }
  }

  lemma NoPower(cp: nat)
    ensures Power64(0) == 1 && cp / Power64(0) == cp
  {
  }

  // ----- the parse buffer ----------------------------------------------------------------------------

  class ParseBuffer {
    const content: Bytes
    var offset: nat
    var depth: nat

    predicate Valid()
      reads this
    {
      Terminated(content) && offset < |content|
    }

    constructor (content: Bytes)
      requires Terminated(content)
      ensures Valid() && this.content == content && offset == depth == 0
    {
      this.content := content;
      offset, depth := 0, 0;
    }

    /** Skip whitespace and control characters. */
    method SkipWhitespace()
      requires Valid()
      modifies this`offset
      ensures Valid() && offset == Skip(content, old(offset))
    {
      while offset < |content| && content[offset] <= 32
        invariant old(offset) <= offset <= |content|
        invariant offset < |content| ==> Skip(content, old(offset)) == Skip(content, offset)
        invariant offset == |content| ==> Skip(content, old(offset)) == |content| - 1
      {
        offset := offset + 1;
      }
      if offset == |content| {
        offset := offset - 1;
      }
    }

    /** Convert a UTF-16 literal at `i` and write it to the output; 0 if it is invalid. */
    method Utf16ToUtf8(i: nat, end: nat, output: array<Byte>, at: nat) returns (sequenceLength: nat, length: nat)
      requires i <= end <= |content|
      requires var r := Utf16Literal(content, i, end);
        r.Literal? ==> at + |r.bytes| <= output.Length
      modifies output
      ensures var r := Utf16Literal(content, i, end);
        if r.BadLiteral? then sequenceLength == 0 && output[..] == old(output[..])
        else
          && sequenceLength == r.length && length == |r.bytes| && at + length <= output.Length
          && output[..at + length] == old(output[..at]) + r.bytes
    {
      hide Utf8, Hex4;
      length := 0;
      if end - i < 6 {
        return 0, 0;
      }
      var first := ParseHex4(content, i + 2);
      if 0xDC00 <= first <= 0xDFFF {
        return 0, 0;
      }
      var codepoint;
      if 0xD800 <= first <= 0xDBFF {
        sequenceLength := 12;
        if end - (i + 6) < 6 {
          return 0, 0;
        }
        if content[i + 6] != BACKSLASH || content[i + 7] != LETTER_U {
          return 0, 0;
        }
        var second := ParseHex4(content, i + 8);
        if second < 0xDC00 || second > 0xDFFF {
          return 0, 0;
        }
        codepoint := 0x1_0000 + (first % 0x400) * 0x400 + second % 0x400;
      } else {
        sequenceLength := 6;
        codepoint := first;
      }
      length := EncodeUtf8(codepoint, output, at);
    }

    /** Find the closing quote and count the escapes before it; `None` if the text ends first. */
    method ScanString() returns (end: Option<nat>, skipped: nat)
      requires Valid()
      ensures end == CloseQuote(content, offset + 1)
      ensures end.Some? ==> skipped + Room(content, offset + 1, offset + 1, end.value) == end.value - (offset + 1)
    {
      var first := offset + 1;
      var i := first;
      skipped := 0;
      while i < |content| && content[i] != QUOTE
        invariant first <= i <= |content| && Aligned(content, first, i)
        invariant CloseQuote(content, first) == CloseQuote(content, i)
        invariant skipped + Room(content, first, first, i) == i - first
      {
        ghost var next := if content[i] == BACKSLASH then i + 2 else i + 1;
        if next <= |content| {
          ScanStep(content, first, i, next);
        }
        if content[i] == BACKSLASH {
          if i + 1 >= |content| {
            return None, skipped;
          }
          skipped := skipped + 1;
          i := i + 1;
        }
        i := i + 1;
      }
      if i >= |content| {
        return None, skipped;
      }
      end := Some(i);
    }

    /** Decode the literal between the quote at the offset and the one at `end` into the output, which the
        estimate made large enough. */
    method DecodeInto(end: nat, output: array<Byte>) returns (ok: bool, i: nat, n: nat)
      requires Valid() && offset < end < |content| && content[end] == QUOTE
      requires output.Length > Room(content, offset + 1, offset + 1, end + 1)
      modifies output
      ensures match Decode(content, offset + 1, end)
              case Decoded(bytes) => ok && n < output.Length && output[..n] == bytes
              case Undecodable(at) => !ok && i == at
    {
      hide Decode, Room, Utf16Literal, Unescaped;
      var first := offset + 1;
      i, n := first, 0;
      DecodeStart(content, first, end);
      while i < end
        invariant first <= i <= end + 1
        invariant n + Room(content, first, i, end + 1) <= Room(content, first, first, end + 1)
        invariant Prefix(output[..n], Decode(content, i, end)) == Decode(content, first, end)
        decreases end + 1 - i
      {
        ghost var before, n0, i0 := output[..n], n, i;
        if content[i] != BACKSLASH {
          RoomOne(content, first, i, end + 1);
          output[n] := content[i];
          n, i := n + 1, i + 1;
          DecodePlain(content, i0, end, before);
          assert output[..n] == before + [content[i0]];
        } else {
          DecodeEscape(content, i0, end, before);
          if content[i + 1] == LETTER_U {
            LiteralRoom(content, first, i, end);
            var sequenceLength, length := Utf16ToUtf8(i, end, output, n);
            if sequenceLength == 0 {
              return false, i, n;
            }
            n, i := n + length, i + sequenceLength;
          } else {
            RoomTwo(content, first, i, end + 1);
            if Unescaped(content[i + 1]).None? {
              return false, i, n;
            }
            output[n] := Unescaped(content[i + 1]).value;
            n, i := n + 1, i + 2;
            assert output[..n] == before + [Unescaped(content[i0 + 1]).value];
          }
        }
      }
      DecodeEnd(content, i, end, output[..n]);
      ok := true;
    }

    /** Parse a string literal into an output of the estimated size. */
    method ParseString() returns (ok: bool, value: Bytes)
      requires Valid()
      modifies this`offset
      ensures match JsonText.ParseString(content, old(offset))
              case ParsedString(bytes, end) => ok && value == bytes && offset == end && Valid()
              case FailedString(at) => !ok && offset == at
    {
      hide Decode, Room, CloseQuote;
      ok, value := false, [];
      if content[offset] != QUOTE {
        offset := offset + 1;
        return;
      }
      var end, skipped := ScanString();
      if end.None? {
        offset := offset + 1;
        return;
      }
      Estimate(content, offset + 1, end.value);
      var allocation := end.value - offset - skipped;
      var output := new Byte[allocation + 1];
      var stop, n;
      ok, stop, n := DecodeInto(end.value, output);
      if !ok {
        offset := stop;
        return;
      }
      output[n] := 0;
      value := output[..n];
      offset := end.value + 1;
    }

    /** Collect number characters for `strtod`, as many as the text has room for. */
    method CollectNumber(text: array<Byte>) returns (i: nat)
      requires Valid() && text.Length == 64
      modifies text
      ensures i <= 63 && text[..i] == NumberRun(content, offset, 63)
    {
      hide NumberRun;
      i := 0;
      while i < 63 && offset + i < |content| && InNumber(content[offset + i])
        invariant i <= 63 && offset + i <= |content|
        invariant forall k :: 0 <= k < i ==> text[k] == content[offset + k] && InNumber(text[k])
      {
        text[i] := content[offset + i];
        i := i + 1;
      }
      assert text[..i] == content[offset..offset + i];
      RunIs(content, offset, i, 63);
    }

    /** Parse a number: the part of its text that `strtod` converts. */
    method ParseNumber() returns (ok: bool, value: Json)
      requires Valid()
      modifies this`offset
      ensures Agrees(JsonGrammar.ParseNumber(content, old(offset)), ok, value)
    {
      NumberInside(content, offset);
      hide NumberRun, Strtod;
      var text := new Byte[64];
      var i := CollectNumber(text);
      ghost var run := text[..i];
      text[i] := 0;
      assert text[..i] == run;
      var n := Strtod(text[..i]);
      value := Number(text[..i][..n]);
      ok := n != 0;
      offset := offset + n;
    }

    /** What an operation that started as the grammar's outcome `r` says leaves behind. */
    ghost predicate Agrees(r: Outcome, ok: bool, value: Json)
      reads this
    {
      match r
      case Parsed(v, end) => ok && value == v && offset == end && Valid()
      case Failed(at) => !ok && offset == at
    }

    /** Parse one value; the depth comes back on success. */
    method ParseValue() returns (ok: bool, value: Json)
      requires Valid()
      modifies this
      ensures Agrees(JsonGrammar.ParseValue(content, old(offset), old(depth)), ok, value)
      ensures ok ==> depth == old(depth)
      decreases |content| - offset, 1
    {
      hide JsonText.ParseString, JsonGrammar.ParseNumber, JsonGrammar.ParseArray, JsonGrammar.ParseObject, IsDigit;
      ok := true;
      if StartsWith(content, offset, NULL_TEXT) {
        value := Null;
        offset := offset + 4;
      } else if StartsWith(content, offset, FALSE_TEXT) {
        value := False;
        offset := offset + 5;
      } else if StartsWith(content, offset, TRUE_TEXT) {
        value := True;
        offset := offset + 4;
      } else if content[offset] == QUOTE {
        var bytes;
        ok, bytes := ParseString();
        value := String(bytes);
      } else if content[offset] == MINUS || IsDigit(content[offset]) {
        ok, value := ParseNumber();
      } else if content[offset] == OPEN_BRACKET {
        ok, value := ParseArray();
      } else if content[offset] == OPEN_BRACE {
        ok, value := ParseObject();
      } else {
        return false, Null;
      }
    }

    method ParseArray() returns (ok: bool, value: Json)
      requires Valid() && content[offset] == OPEN_BRACKET
      modifies this
      ensures Agrees(JsonGrammar.ParseArray(content, old(offset), old(depth)), ok, value)
      ensures ok ==> depth == old(depth)
      decreases |content| - offset, 0
    {
      hide JsonGrammar.ParseValue, ParseItems, Skip;
      value := Null;
      if depth >= NESTING_LIMIT {
        return false, value;
      }
      depth := depth + 1;
      offset := offset + 1;
      SkipWhitespace();
      var items := [];
      if content[offset] != CLOSE_BRACKET {
        offset := offset - 1;
        ghost var r := ParseItems(content, offset, depth);
        var more := true;
        while more
          invariant Valid() && old(offset) <= offset && depth == old(depth) + 1
          invariant more ==> offset + 1 < |content| && JoinItems(items, ParseItems(content, offset, depth)) == r
          invariant !more ==>
                      r == if content[offset] == CLOSE_BRACKET then ParsedItems(items, offset) else FailedItems(offset)
          decreases more, |content| - offset
        {
          ItemsStep(content, offset, depth, items);
          offset := offset + 1;
          SkipWhitespace();
          var item;
          ok, item := ParseValue();
          if !ok {
            return false, value;
          }
          items := items + [item];
          SkipWhitespace();
          more := content[offset] == COMMA;
        }
        if content[offset] != CLOSE_BRACKET {
          return false, value;
        }
      }
      depth := depth - 1;
      offset := offset + 1;
      ok, value := true, Array(items);
    }

    /** Parse a key, a colon and a value. */
    method ParseMember() returns (ok: bool, member: Member)
      requires Valid()
      modifies this
      ensures match JsonGrammar.ParseMember(content, old(offset), old(depth))
              case ParsedMember(m, end) => ok && member == m && offset == end && Valid() && depth == old(depth)
              case FailedMember(at) => !ok && offset == at
      decreases |content| - offset, 2
    {
      hide JsonGrammar.ParseValue, JsonText.ParseString, Skip;
      member := Member([], Null);
      var key, value;
      ok, key := ParseString();
      if !ok {
        return;
      }
      SkipWhitespace();
      if content[offset] != COLON {
        return false, member;
      }
      offset := offset + 1;
      SkipWhitespace();
      ok, value := ParseValue();
      member := Member(key, value);
    }

    method ParseObject() returns (ok: bool, value: Json)
      requires Valid() && content[offset] == OPEN_BRACE
      modifies this
      ensures Agrees(JsonGrammar.ParseObject(content, old(offset), old(depth)), ok, value)
      ensures ok ==> depth == old(depth)
      decreases |content| - offset, 0
    {
      hide JsonGrammar.ParseMember, ParseMembers, Skip;
      value := Null;
      if depth >= NESTING_LIMIT {
        return false, value;
      }
      depth := depth + 1;
      offset := offset + 1;
      SkipWhitespace();
      var members := [];
      if content[offset] != CLOSE_BRACE {
        offset := offset - 1;
        ghost var r := ParseMembers(content, offset, depth);
        var more := true;
        while more
          invariant Valid() && old(offset) <= offset && depth == old(depth) + 1
          invariant more ==> offset + 1 < |content| && JoinMembers(members, ParseMembers(content, offset, depth)) == r
          invariant !more ==>
                      r == if content[offset] == CLOSE_BRACE
                           then ParsedMembers(members, offset) else FailedMembers(offset)
          decreases more, |content| - offset
        {
          MembersStep(content, offset, depth, members);
          offset := offset + 1;
          SkipWhitespace();
          var member;
          ok, member := ParseMember();
          if !ok {
            return false, value;
          }
          members := members + [member];
          SkipWhitespace();
          more := content[offset] == COMMA;
        }
        if content[offset] != CLOSE_BRACE {
          return false, value;
        }
      }
      depth := depth - 1;
      offset := offset + 1;
      ok, value := true, Object(members);
    }

    /** Skip a byte order mark at the beginning. */
    method SkipBom()
      requires Valid() && offset == 0
      modifies this`offset
      ensures Valid() && offset == if |content| > 4 && StartsWith(content, 0, BOM) then 3 else 0
    {
      if offset + 4 < |content| && StartsWith(content, offset, BOM) {
        offset := offset + 3;
      }
    }
  }

  /** Parse a whole text; on failure `end` is the error position. */
  method ParseWithOpts(text: Bytes, requireNullTerminated: bool) returns (item: Option<Json>, end: nat)
    requires Terminated(text)
    ensures match JsonGrammar.ParseText(text, requireNullTerminated)
            case Parsed(value, offset) => item == Some(value) && end == offset
            case Failed(offset) => item == None && end == offset
  {
    hide ParseValue, Skip, StartsWith;
    var buffer := new ParseBuffer(text);
    buffer.SkipBom();
    buffer.SkipWhitespace();
    var ok, value := buffer.ParseValue();
    if ok && requireNullTerminated {
      buffer.SkipWhitespace();
      ok := text[buffer.offset] == 0;
    }
    item := if ok then Some(value) else None;
    end := if buffer.offset < |text| then buffer.offset else |text| - 1;
  }

  /** The byte of the closing quote makes room for the terminating NUL. */
  lemma Estimate(c: Bytes, first: nat, end: nat)
    requires first <= end < |c| && c[end] == QUOTE
    ensures Room(c, first, first, end + 1) == Room(c, first, first, end) + 1
  {
    RoomSplit(c, first, first, end, end + 1);
    RoomOne(c, first, end, end + 1);
    assert Room(c, first, end + 1, end + 1) == 0;
  }

  lemma PrefixTwice(s: Bytes, t: Bytes, d: Decoded)
    ensures Prefix(s, Prefix(t, d)) == Prefix(s + t, d)
  {
    if d.Decoded? { assert s + (t + d.bytes) == s + t + d.bytes; }
  }

  lemma DecodeStart(c: Bytes, i: nat, end: nat)
    requires end < |c|
    ensures Prefix([], Decode(c, i, end)) == Decode(c, i, end)
  {
    hide Decode;
  }

  lemma DecodeEnd(c: Bytes, i: nat, end: nat, s: Bytes)
    requires end <= i && end < |c|
    ensures Prefix(s, Decode(c, i, end)) == Decoded(s)
  {
  }

  lemma DecodePlain(c: Bytes, i: nat, end: nat, s: Bytes)
    requires i < end < |c| && c[i] != BACKSLASH
    ensures Prefix(s, Decode(c, i, end)) == Prefix(s + [c[i]], Decode(c, i + 1, end))
  {
    PrefixTwice(s, [c[i]], Decode(c, i + 1, end));
  }

  lemma DecodeEscape(c: Bytes, i: nat, end: nat, s: Bytes)
    requires i < end < |c| && c[i] == BACKSLASH
    ensures var d, r, p := Prefix(s, Decode(c, i, end)), Utf16Literal(c, i, end), Unescaped(c[i + 1]);
      if c[i + 1] == LETTER_U then
        d == (if r.BadLiteral? then Undecodable(i) else Prefix(s + r.bytes, Decode(c, i + r.length, end)))
      else
        d == (if p.None? then Undecodable(i) else Prefix(s + [p.value], Decode(c, i + 2, end)))
  {
    hide Utf16Literal, Unescaped, Prefix;
    var r, p := Utf16Literal(c, i, end), Unescaped(c[i + 1]);
    if r.Literal? { PrefixTwice(s, r.bytes, Decode(c, i + r.length, end)); }
    if p.Some? { PrefixTwice(s, [p.value], Decode(c, i + 2, end)); }
    assert Prefix(s, Undecodable(i)) == Undecodable(i) by { PrefixFails(s, i); }
  }

  lemma PrefixFails(s: Bytes, at: nat)
    ensures Prefix(s, Undecodable(at)) == Undecodable(at)
  {
  }

  /** A literal of 6 or 12 bytes leaves room for its 3 or 4 bytes of output. */
  lemma LiteralRoom(c: Bytes, first: nat, i: nat, end: nat)
    requires i <= end < |c|
    ensures var r := Utf16Literal(c, i, end);
      r.Literal? ==> Room(c, first, i, end + 1) >= |r.bytes| + Room(c, first, i + r.length, end + 1)
  {
    hide Room, Utf16Literal;
    var r := Utf16Literal(c, i, end);
    if r.Literal? { RoomPairs(c, first, i, r.length / 2, end + 1); }
  }

  // ----- one turn of a loop --------------------------------------------------------------------------

  lemma {:induction false} RunIs(c: Bytes, o: nat, n: nat, limit: nat)
    requires o + n <= |c| && n <= limit && (forall k :: o <= k < o + n ==> InNumber(c[k]))
    requires n == limit || o + n == |c| || !InNumber(c[o + n])
    ensures NumberRun(c, o, limit) == c[o..o + n]
    decreases n
  {
    if n > 0 {
      RunIs(c, o + 1, n - 1, limit - 1);
      assert c[o..o + n] == [c[o]] + c[o + 1..o + n];
    }
  }

  /** What items before those of an outcome make of it. */
  function JoinItems(items: seq<Json>, r: ItemsOutcome): ItemsOutcome {
    if r.ParsedItems? then ParsedItems(items + r.items, r.offset) else r
  }

  function JoinMembers(members: seq<Member>, r: MembersOutcome): MembersOutcome {
    if r.ParsedMembers? then ParsedMembers(members + r.members, r.offset) else r
  }

  lemma ItemsStep(c: Bytes, o: nat, depth: nat, items: seq<Json>)
    requires Terminated(c) && o + 1 < |c|
    ensures var r := JoinItems(items, ParseItems(c, o, depth));
      match ParseValue(c, Skip(c, o + 1), depth)
      case Failed(end) => r == FailedItems(end)
      case Parsed(value, end) =>
        var o2 := Skip(c, end);
        if c[o2] == COMMA then o2 + 1 < |c| && r == JoinItems(items + [value], ParseItems(c, o2, depth))
        else if c[o2] == CLOSE_BRACKET then r == ParsedItems(items + [value], o2)
        else r == FailedItems(o2)
  {
    hide ParseValue, Skip;
    if ParseValue(c, Skip(c, o + 1), depth).Parsed? {
      var v := ParseValue(c, Skip(c, o + 1), depth);
      var o2 := Skip(c, v.offset);
      if c[o2] == COMMA && ParseItems(c, o2, depth).ParsedItems? {
        var rest := ParseItems(c, o2, depth).items;
        assert items + ([v.value] + rest) == items + [v.value] + rest;
      }
    }
  }

  lemma MembersStep(c: Bytes, o: nat, depth: nat, members: seq<Member>)
    requires Terminated(c) && o + 1 < |c|
    ensures var r := JoinMembers(members, ParseMembers(c, o, depth));
      match ParseMember(c, Skip(c, o + 1), depth)
      case FailedMember(end) => r == FailedMembers(end)
      case ParsedMember(member, end) =>
        var o2 := Skip(c, end);
        if c[o2] == COMMA then o2 + 1 < |c| && r == JoinMembers(members + [member], ParseMembers(c, o2, depth))
        else if c[o2] == CLOSE_BRACE then r == ParsedMembers(members + [member], o2)
        else r == FailedMembers(o2)
  {
    hide ParseMember, Skip;
    if ParseMember(c, Skip(c, o + 1), depth).ParsedMember? {
      var v := ParseMember(c, Skip(c, o + 1), depth);
      var o2 := Skip(c, v.offset);
      if c[o2] == COMMA && ParseMembers(c, o2, depth).ParsedMembers? {
        var rest := ParseMembers(c, o2, depth).members;
        assert members + ([v.member] + rest) == members + [v.member] + rest;
      }
    }
  }
}
