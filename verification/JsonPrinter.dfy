/** The printer, working through a buffer that grows on demand. */
module JsonPrinter {
  import opened JsonGrammar
  import opened JsonText
  import opened Options

  const INT_MAX: nat := 0x7FFF_FFFF

  class PrintBuffer {
    var buffer: array<Byte>
    var offset: nat
    var depth: nat
    const noalloc: bool
    const format: bool

    constructor (buffer: array<Byte>, noalloc: bool, format: bool)
      requires buffer.Length <= INT_MAX
      ensures Ready() && offset == depth == 0 && this.buffer == buffer
      ensures this.noalloc == noalloc && this.format == format
    {
      this.buffer := buffer;
      offset, depth := 0, 0;
      this.noalloc, this.format := noalloc, format;
    }

    ghost predicate Valid()
      reads this`buffer, this`offset
    {
      offset <= buffer.Length <= INT_MAX
    }

    /** There is something behind the offset, unless there is no buffer at all. */
    ghost predicate Ready()
      reads this`buffer, this`offset
    {
      Valid() && (buffer.Length == 0 || offset < buffer.Length)
    }

    /** The length the buffer can have at most. */
    ghost function Limit(): nat
      reads this`buffer
    {
      if noalloc then buffer.Length else INT_MAX
    }

    /** What has been printed before the offset. */
    ghost function Written(): Bytes
      requires Valid()
      reads this`buffer, this`offset, buffer
    {
      buffer[..offset]
    }

    /** The buffer holds the C string `text`. */
    ghost predicate Holds(text: Bytes)
      reads this`buffer, buffer
    {
      |text| < buffer.Length && buffer[..|text|] == text && buffer[|text|] == 0
    }

    /** A buffer of the caller's is never replaced. */
    twostate predicate Grown()
      reads this`buffer
    {
      (buffer == old(buffer) || (fresh(buffer) && !noalloc)) && buffer.Length <= INT_MAX
    }

    /** The operation succeeded exactly if the text, its NUL and one more byte fit the limit; then the
        buffer holds what was printed before and the text, and the offset is somewhere in the text. */
    twostate predicate Printed(ok: bool, text: Bytes)
      requires old(Valid())
      reads this, buffer
    {
      && Grown()
      && (ok <==> old(offset) + |text| + 2 <= old(Limit()))
      && (ok ==> (
            && depth == old(depth) && old(offset) <= offset <= old(offset) + |text|
            && Holds(old(Written()) + text)))
    }

    /** The same, with the offset behind the text. */
    twostate predicate Appended(ok: bool, needed: nat, text: Bytes)
      requires old(Valid())
      reads this, buffer
    {
      && Grown()
      && (ok <==> old(offset) + needed + 1 <= old(Limit()))
      && (ok ==> Ready() && depth == old(depth) && Written() == old(Written()) + text)
    }

    /** Make room for `needed` bytes and one more behind the offset. */
    method Ensure(needed: nat) returns (ok: bool)
      requires Valid()
      modifies this`buffer
      ensures Grown() && buffer.Length >= old(buffer.Length)
      ensures ok <==> old(Ready()) && offset + needed + 1 <= old(Limit())
      ensures ok ==> offset + needed + 1 <= buffer.Length && buffer[..offset] == old(buffer[..offset])
    {
      if buffer.Length > 0 && offset >= buffer.Length {
        return false;
      }
      if needed > INT_MAX {
        return false;
      }
      var total := needed + offset + 1;
      if total <= buffer.Length {
        return true;
      }
      if noalloc {
        return false;
      }
      var newSize;
      if total > INT_MAX / 2 {
        if total <= INT_MAX {
          newSize := INT_MAX;
        } else {
          return false;
        }
      } else {
        newSize := total * 2;
      }
      var newBuffer := new Byte[newSize];
      forall k | 0 <= k < buffer.Length {
        newBuffer[k] := buffer[k];
      }
      assert newBuffer[..offset] == buffer[..offset];
      buffer := newBuffer;
      ok := true;
    }

    /** Move the offset to the end of the C string behind it. */
    method UpdateOffset(ghost text: Bytes)
      requires Holds(text) && offset <= |text|
      requires forall k :: offset <= k < |text| ==> text[k] != 0
      modifies this`offset
      ensures offset == |text|
    {
      assert forall k :: 0 <= k < |text| ==> buffer[k] == buffer[..|text|][k];
      while buffer[offset] != 0
        invariant old(offset) <= offset <= |text|
        decreases |text| - offset
      {
        offset := offset + 1;
      }
    }

    /** Store bytes one after the other. */
    method Store(at: nat, s: Bytes)
      requires at + |s| <= buffer.Length
      modifies buffer
      ensures buffer[at..at + |s|] == s && buffer[..at] == old(buffer[..at])
    {
      var i := 0;
      while i < |s|
        invariant i <= |s| && buffer[..at] == old(buffer[..at])
        invariant forall k :: 0 <= k < i ==> buffer[at + k] == s[k]
      {
        buffer[at + i] := s[i];
        i := i + 1;
      }
    }

    /** What stands behind the offset, with its NUL, makes a longer C string. */
    lemma Terminate(text: Bytes)
      requires Valid() && offset + |text| < buffer.Length && buffer[offset..offset + |text| + 1] == text + [0]
      ensures Holds(Written() + text)
    {
      var end := offset + |text|;
      SliceParts(buffer, offset, end, end + 1);
      assert (text + [0])[..|text|] == text;
      assert buffer[end] == buffer[offset..end + 1][|text|] == 0;
    }

    /** Make room, store bytes at the offset and advance it. */
    method Emit(text: Bytes, needed: nat, advance: nat) returns (ok: bool)
      requires Ready() && advance <= |text| <= needed
      modifies this`buffer, this`offset, buffer
      ensures Appended(ok, needed, text[..advance])
      ensures ok ==> offset == old(offset) + advance && old(offset) + |text| < buffer.Length
      ensures ok ==> buffer[old(offset)..old(offset) + |text|] == text
    {
      ok := Ensure(needed);
      if ok {
        ghost var start, end := offset, offset + advance;
        Store(offset, text);
        SliceParts(buffer, start, end, start + |text|);
        offset := offset + advance;
      }
    }

    /** The end of a text: bytes with a NUL, which the offset does not pass. */
    method EmitEnd(text: Bytes) returns (ok: bool)
      requires Ready()
      modifies this`buffer, this`offset, buffer
      ensures Printed(ok, text) && (ok ==> offset == old(offset))
    {
      ok := Emit(text + [0], |text| + 1, 0);
      if ok {
        assert (text + [0])[..0] == [];
        Terminate(text);
      }
    }

    /** Print a string between quotes, escaped where necessary. */
    method PrintStringPtr(input: Bytes) returns (ok: bool)
      requires Ready()
      modifies this`buffer, this`offset, buffer
      ensures Printed(ok, Quote(input)) && (ok ==> offset == old(offset))
    {
      hide Escape;
      var escapeCharacters := CountEscapes(input);
      var outputLength := |input| + escapeCharacters;
      ok := Ensure(outputLength + 3);
      if !ok {
        return;
      }
      if escapeCharacters == 0 {
        NothingToEscape(input);
        StorePlain(input);
      } else {
        StoreEscaped(input, outputLength);
      }
      Terminate(Quote(input));
    }

    /** Store a string that is its own escaped form between quotes, and a NUL. */
    method StorePlain(input: Bytes)
      requires Escape(input) == input && offset + |input| + 3 <= buffer.Length
      modifies buffer
      ensures buffer[..offset] == old(buffer[..offset])
      ensures buffer[offset..offset + |input| + 3] == Quote(input) + [0]
    {
      Store(offset, [QUOTE] + input + [QUOTE, 0]);
      assert [QUOTE] + input + [QUOTE, 0] == Quote(input) + [0];
    }

    /** Store an opening quote, the escaped string, a closing quote and a NUL. */
    method StoreEscaped(input: Bytes, outputLength: nat)
      requires outputLength == |Escape(input)| && offset + outputLength + 3 <= buffer.Length
      modifies buffer
      ensures buffer[..offset] == old(buffer[..offset])
      ensures buffer[offset..offset + outputLength + 3] == Quote(input) + [0]
    {
      hide Escape;
      var body, end := offset + 1, offset + 1 + outputLength;
      Store(offset, [QUOTE]);
      SliceParts(buffer, offset, body, body);
      EscapeInto(input, body);
      ghost var text := buffer[..end];
      Store(end, [QUOTE, 0]);
      assert buffer[..end] == text == old(buffer[..offset]) + [QUOTE] + Escape(input);
      SliceParts(buffer, end, end + 2, end + 2);
      assert buffer[..end + 2] == old(buffer[..offset]) + ([QUOTE] + Escape(input) + [QUOTE, 0]);
      SliceParts(buffer, offset, end + 2, end + 2);
      assert [QUOTE] + Escape(input) + [QUOTE, 0] == Quote(input) + [0];
    }

    /** Store the escaped form of `input` from `at` on. */
    method EscapeInto(input: Bytes, at: nat)
      requires at + |Escape(input)| < buffer.Length
      modifies buffer
      ensures buffer[..at + |Escape(input)|] == old(buffer[..at]) + Escape(input)
    {
      hide Escape, EscapeByte;
      EscapeNothing();
      assert input[..|input|] == input;
      var i, output := 0, at;
      while i < |input|
        invariant i <= |input| && output == at + |Escape(input[..i])| <= at + |Escape(input)|
        invariant buffer[..output] == old(buffer[..at]) + Escape(input[..i])
      {
        EscapeNext(input, i);
        ghost var done := buffer[..output];
        output := EscapeOne(input[i], output);
        assert buffer[..output] == done + EscapeByte(input[i]);
        i := i + 1;
      }
      assert input[..|input|] == input;
    }

    /** Store the escaped form of one byte at `at`. */
    method EscapeOne(b: Byte, at: nat) returns (output: nat)
      requires at + |EscapeByte(b)| < buffer.Length
      modifies buffer
      ensures output == at + |EscapeByte(b)|
      ensures buffer[..output] == old(buffer[..at]) + EscapeByte(b)
    {
      EscapeParts(b);
      hide EscapeByte;
      ghost var before := buffer[..at];
      if b > 31 && b != QUOTE && b != BACKSLASH {
        buffer[at] := b;
        output := at + 1;
        assert buffer[..output] == before + [b];
      } else {
        buffer[at] := BACKSLASH;
        assert buffer[..at + 1] == before + [BACKSLASH];
        output := EscapeCode(b, at + 1);
        SliceParts(buffer, at + 1, output, output);
        assert before + [BACKSLASH] + EscapeByte(b)[1..] == before + EscapeByte(b);
      }
    }

    lemma EscapeParts(b: Byte)
      ensures if b > 31 && b != QUOTE && b != BACKSLASH then EscapeByte(b) == [b]
              else EscapeByte(b) == [BACKSLASH] + EscapeByte(b)[1..]
    {
    }

    /** Store what follows the backslash of an escape. */
    method EscapeCode(b: Byte, at: nat) returns (output: nat)
      requires b <= 31 || b == QUOTE || b == BACKSLASH
      requires 0 < at && at + |EscapeByte(b)| - 1 < buffer.Length
      modifies buffer
      ensures output == at + |EscapeByte(b)| - 1 && buffer[..at] == old(buffer[..at])
      ensures buffer[at..output] == EscapeByte(b)[1..]
    {
      hide HexDigit, EscapeLetter;
      if b == BACKSLASH || b == QUOTE {
        buffer[at] := b;
        output := at;
      } else if EscapeLetter(b).Some? {
        buffer[at] := EscapeLetter(b).value;
        output := at;
      } else {
        Store(at, [LETTER_U, DIGIT_0, DIGIT_0, HexDigit(b / 16), HexDigit(b % 16), 0]);
        output := at + 4;
        SliceParts(buffer, at, at + 5, at + 6);
      }
      output := output + 1;
    }

    /** Print a number's text, unless it is longer than the temporary buffer. */
    method PrintNumber(text: Bytes) returns (ok: bool)
      requires Ready()
      modifies this`buffer, this`offset, buffer
      ensures |text| <= 25 ==> Printed(ok, text)
      ensures |text| > 25 ==> !ok && buffer == old(buffer) && buffer[..] == old(buffer[..]) && offset == old(offset)
    {
      if |text| > 25 {
        return false;
      }
      ok := EmitEnd(text);
      if ok {
        offset := offset + |text|;
      }
    }

    /** Print a value.  It succeeds exactly if the text fits. */
    method PrintValue(item: Json) returns (ok: bool)
      requires Ready() && WellFormed(item)
      modifies this, buffer
      ensures Printed(ok, Render(item, format, old(depth)))
      decreases item, 0
    {
      hide Printed, Quote, Ready, Valid, NumberText;
      match item
      case Null => ok := EmitEnd(NULL_TEXT);
      case False => ok := EmitEnd(FALSE_TEXT);
      case True => ok := EmitEnd(TRUE_TEXT);
      case Number(text) =>
        NumberFits(text);
        ok := PrintNumber(text);
      case String(s) => ok := PrintStringPtr(s);
      case Array(items) => ok := PrintArray(items);
      case Object(members) => ok := PrintObject(members);
    }

    /** Print a value and move the offset behind it. */
    method PrintItem(item: Json) returns (ok: bool)
      requires Ready() && WellFormed(item)
      modifies this, buffer
      ensures Appended(ok, |Render(item, format, old(depth))| + 1, Render(item, format, old(depth)))
      decreases item, 1
    {
      hide Render, WellFormed;
      ghost var text := Written() + Render(item, format, depth);
      RenderNulFree(item, format, depth);
      ok := PrintValue(item);
      if ok {
        UpdateOffset(text);
      }
    }

    /** Print a string and move the offset behind it. */
    method PrintKey(key: Bytes) returns (ok: bool)
      requires Ready() && NulFree(key)
      modifies this`buffer, this`offset, buffer
      ensures Appended(ok, |Quote(key)| + 1, Quote(key))
    {
      hide Quote;
      ghost var text := Written() + Quote(key);
      QuoteNulFree(key);
      ok := PrintStringPtr(key);
      if ok {
        UpdateOffset(text);
      }
    }

    /** Print an item of an array, and a comma if another one follows. */
    method PrintElement(items: seq<Json>, i: nat) returns (ok: bool)
      requires Ready() && i < |items| && WellFormed(items[i])
      modifies this, buffer
      ensures Appended(ok, |ItemText(items, i, format, old(depth))| + 1, ItemText(items, i, format, old(depth)))
      decreases items, 0
    {
      hide Render, WellFormed, ItemComma;
      ok := PrintItem(items[i]);
      if ok && i + 1 < |items| {
        ghost var done := Written();
        ok := Emit(ItemComma(format) + [0], |ItemComma(format)| + 1, |ItemComma(format)|);
        assert (ItemComma(format) + [0])[..|ItemComma(format)|] == ItemComma(format);
      }
    }

    method PrintElements(items: seq<Json>) returns (ok: bool)
      requires Ready() && forall i :: 0 <= i < |items| ==> WellFormed(items[i])
      modifies this, buffer
      ensures items == [] ==> ok && Grown() && Ready() && depth == old(depth) && Written() == old(Written())
      ensures items != [] ==>
                Appended(ok, |RenderItems(items, format, old(depth))| + 1, RenderItems(items, format, old(depth)))
      decreases items, 1
    {
      hide Render, RenderItems, WellFormed, ItemText;
      ok := true;
      ghost var all := Written() + RenderItems(items, format, depth);
      var i := 0;
      assert items[0..] == items && offset + |RenderItems(items, format, depth)| == |all|;
      while i < |items|
        invariant i <= |items| && Ready() && Grown() && depth == old(depth) && (ok || i < |items|)
        invariant i > 0 ==> offset + 2 <= Limit()
        invariant Written() + RenderItems(items[i..], format, depth) == all
        invariant offset + |RenderItems(items[i..], format, depth)| == |all|
      {
        ItemsFirst(items, i, format, depth);
        ok := PrintElement(items, i);
        if !ok {
          return;
        }
        i := i + 1;
      }
      NoItems(items[i..], format, depth);
      assert Written() == all;
    }

    /** Print an array's brackets and, between them, its items. */
    method PrintArray(items: seq<Json>) returns (ok: bool)
      requires Ready() && forall i :: 0 <= i < |items| ==> WellFormed(items[i])
      modifies this, buffer
      ensures Printed(ok, Render(Array(items), format, old(depth)))
      decreases items, 2
    {
      hide Render, RenderItems, WellFormed;
      ArrayText(items, format, depth);
      assert [OPEN_BRACKET][..1] == [OPEN_BRACKET];
      ok := Emit([OPEN_BRACKET], 1, 1);
      if !ok {
        return;
      }
      depth := depth + 1;
      NoItems(items, format, depth);
      ok := PrintElements(items);
      if !ok {
        return;
      }
      Join3(old(Written()), [OPEN_BRACKET], RenderItems(items, format, depth), [CLOSE_BRACKET]);
      assert Written() == old(Written()) + [OPEN_BRACKET] + RenderItems(items, format, depth);
      ok := EmitEnd([CLOSE_BRACKET]);
      depth := depth - 1;
    }

    /** Print the indentation of a member, its key and the colon. */
    method PrintName(key: Bytes) returns (ok: bool)
      requires Ready() && NulFree(key)
      modifies this`buffer, this`offset, buffer
      ensures Appended(ok, |NameText(key, format, depth)|, NameText(key, format, depth))
    {
      hide Quote, NulFree, KeyColon, Indent;
      IndentLength(depth);
      ColonLength(format);
      if format {
        ok := Emit(Tabs(depth), depth, depth);
        if !ok {
          return;
        }
      }
      ok := PrintKey(key);
      if !ok {
        return;
      }
      ok := Emit(KeyColon(format), |KeyColon(format)|, |KeyColon(format)|);
    }

    /** Print a member and, if another one follows, a comma. */
    method PrintMember(m: Member, last: bool) returns (ok: bool)
      requires Ready() && NulFree(m.key) && WellFormed(m.value)
      modifies this, buffer
      ensures Appended(ok, |MemberText(m, last, format, old(depth))| + 1, MemberText(m, last, format, old(depth)))
      decreases m
    {
      hide Render, WellFormed, NulFree, NameText, ValueText;
      ok := PrintName(m.key);
      if ok {
        ok := PrintMemberValue(m.value, last);
      }
    }

    /** Print the value of a member and what separates the member from the next one. */
    method PrintMemberValue(value: Json, last: bool) returns (ok: bool)
      requires Ready() && WellFormed(value)
      modifies this, buffer
      ensures Appended(ok, |ValueText(value, last, format, old(depth))| + 1, ValueText(value, last, format, old(depth)))
      decreases value, 2
    {
      hide Render, WellFormed, NewLine;
      ok := PrintItem(value);
      if ok {
        var tail := (if last then [] else [COMMA]) + NewLine(format);
        assert (tail + [0])[..|tail|] == tail;
        ok := Emit(tail + [0], |tail| + 1, |tail|);
      }
    }

    method PrintMembers(members: seq<Member>) returns (ok: bool)
      requires Ready() && forall i :: 0 <= i < |members| ==> NulFree(members[i].key) && WellFormed(members[i].value)
      modifies this, buffer
      ensures members == [] ==> ok && Grown() && Ready() && depth == old(depth) && Written() == old(Written())
      ensures members != [] ==>
                Appended(ok, |RenderMembers(members, format, old(depth))| + 1,
                         RenderMembers(members, format, old(depth)))
      decreases members, 0
    {
      hide Render, RenderMembers, WellFormed, MemberText, NulFree;
      ok := true;
      ghost var all := Written() + RenderMembers(members, format, depth);
      var i := 0;
      assert members[0..] == members && offset + |RenderMembers(members, format, depth)| == |all|;
      while i < |members|
        invariant i <= |members| && Ready() && Grown() && depth == old(depth) && (ok || i < |members|)
        invariant i > 0 ==> offset + 2 <= Limit()
        invariant Written() + RenderMembers(members[i..], format, depth) == all
        invariant offset + |RenderMembers(members[i..], format, depth)| == |all|
      {
        MembersFirst(members, i, format, depth);
        ok := PrintMember(members[i], i + 1 == |members|);
        if !ok {
          return;
        }
        i := i + 1;
      }
      NoMembers(members[i..], format, depth);
      assert Written() == all;
    }

    /** Print an object's braces and, between them, its members. */
    method PrintObject(members: seq<Member>) returns (ok: bool)
      requires Ready() && forall i :: 0 <= i < |members| ==> NulFree(members[i].key) && WellFormed(members[i].value)
      modifies this, buffer
      ensures Printed(ok, Render(Object(members), format, old(depth)))
      decreases members, 1
    {
      hide Render, RenderMembers, WellFormed, NewLine, Indent;
      IndentLength(depth);
      ObjectText(members, format, depth);
      var open := [OPEN_BRACE] + NewLine(format);
      assert open[..|open|] == open;
      ok := Emit(open, |open| + 1, |open|);
      if !ok {
        return;
      }
      depth := depth + 1;
      NoMembers(members, format, depth);
      ok := PrintMembers(members);
      if !ok {
        return;
      }
      var close := (if format then Tabs(depth - 1) else []) + [CLOSE_BRACE];
      Join3(old(Written()), open, RenderMembers(members, format, depth), close);
      assert Written() == old(Written()) + open + RenderMembers(members, format, depth);
      ok := EmitEnd(close);
      depth := depth - 1;
    }
  }

  /** Print a tree into a new C string of exactly its length.  Only a text too long for an `int` fails. */
  method Print(item: Json, format: bool) returns (printed: Option<Bytes>)
    requires WellFormed(item)
    ensures |Render(item, format, 0)| + 2 <= INT_MAX ==> printed == Some(Render(item, format, 0) + [0])
    ensures |Render(item, format, 0)| + 2 > INT_MAX ==> printed == None
  {
    hide Render, WellFormed;
    var buffer := new Byte[256];
    var p := new PrintBuffer(buffer, false, format);
    ghost var text := Render(item, format, 0);
    RenderNulFree(item, format, 0);
    assert p.Written() + text == text;
    var ok := p.PrintValue(item);
    if !ok {
      return None;
    }
    p.UpdateOffset(text);
    printed := Some(p.buffer[..p.offset + 1]);
    assert printed.value == text + [0];
  }

  /** Print a tree into the caller's buffer, which must hold the text, its NUL and one more byte. */
  method PrintPreallocated(item: Json, buffer: array<Byte>, format: bool) returns (ok: bool)
    requires WellFormed(item) && buffer.Length <= INT_MAX
    modifies buffer
    ensures ok <==> |Render(item, format, 0)| + 2 <= buffer.Length
    ensures ok ==> buffer[..|Render(item, format, 0)| + 1] == Render(item, format, 0) + [0]
  {
    hide Render, WellFormed;
    var p := new PrintBuffer(buffer, true, format);
    ghost var text := Render(item, format, 0);
    assert p.Written() + text == text;
    ok := p.PrintValue(item);
    assert ok ==> buffer[..|text| + 1] == text + [0];
  }

  /** Count the additional characters needed for escaping. */
  method CountEscapes(input: Bytes) returns (escapeCharacters: nat)
    ensures |input| + escapeCharacters == |Escape(input)|
  {
    EscapeNothing();
    hide Escape;
    escapeCharacters := 0;
    var i := 0;
    while i < |input|
      invariant i <= |input| && i + escapeCharacters == |Escape(input[..i])|
    {
      EscapeNext(input, i);
      if input[i] == QUOTE || input[i] == BACKSLASH || EscapeLetter(input[i]).Some? {
        escapeCharacters := escapeCharacters + 1;
      } else if input[i] < 32 {
        escapeCharacters := escapeCharacters + 5;
      }
      i := i + 1;
    }
    assert input[..|input|] == input;
  }

  lemma EscapeNothing()
    ensures forall s: Bytes :: Escape(s[..0]) == []
  {
  }

  lemma {:induction false} EscapeJoin(s: Bytes, t: Bytes)
    ensures Escape(s + t) == Escape(s) + Escape(t)
  {
    hide EscapeByte;
    if s == [] {
      assert s + t == t;
    } else {
      assert (s + t)[1..] == s[1..] + t;
      EscapeJoin(s[1..], t);
    }
  }

  lemma EscapeNext(s: Bytes, i: nat)
    requires i < |s|
    ensures Escape(s[..i + 1]) == Escape(s[..i]) + EscapeByte(s[i])
    ensures |Escape(s[..i + 1])| <= |Escape(s)|
  {
    hide Escape, EscapeByte;
    EscapeJoin(s[..i], [s[i]]);
    EscapeOne(s[i]);
    assert s[..i] + [s[i]] == s[..i + 1];
    EscapeJoin(s[..i + 1], s[i + 1..]);
    assert s[..i + 1] + s[i + 1..] == s;
  }

  lemma EscapeOne(b: Byte)
    ensures Escape([b]) == EscapeByte(b)
  {
    hide EscapeByte;
    assert [b][1..] == [];
  }

  lemma SliceParts<T>(a: array<T>, i: nat, j: nat, k: nat)
    requires i <= j <= k <= a.Length
    ensures a[i..k][..j - i] == a[i..j] && a[..j] == a[..i] + a[i..j]
  {
  }

  /** Escaping never shortens, and changes nothing if it does not lengthen. */
  lemma {:induction false} NothingToEscape(s: Bytes)
    ensures |Escape(s)| >= |s|
    ensures |Escape(s)| == |s| ==> Escape(s) == s
  {
    if s != [] {
      NothingToEscape(s[1..]);
      assert s == [s[0]] + s[1..];
    }
  }

  // ----- texts ---------------------------------------------------------------------------------------

  lemma Join3(s: Bytes, a: Bytes, b: Bytes, c: Bytes)
    ensures s + a + b + c == s + (a + b + c) && |s + a + b + c| == |s| + |a| + |b| + |c|
  {
  }

  lemma NumberFits(text: Bytes)
    requires WellFormed(Number(text))
    ensures |text| <= 25
  {
  }

  lemma ArrayText(items: seq<Json>, fmt: bool, depth: nat)
    ensures Render(Array(items), fmt, depth) == [OPEN_BRACKET] + RenderItems(items, fmt, depth + 1) + [CLOSE_BRACKET]
  {
  }

  lemma NoItems(items: seq<Json>, fmt: bool, depth: nat)
    ensures items == [] ==> RenderItems(items, fmt, depth) == []
  {
  }

  /** The text of an item and the comma behind it. */
  function ItemText(items: seq<Json>, i: nat, fmt: bool, depth: nat): Bytes
    requires i < |items|
  {
    Render(items[i], fmt, depth) + if i + 1 < |items| then ItemComma(fmt) else []
  }

  lemma ItemsFirst(items: seq<Json>, i: nat, fmt: bool, depth: nat)
    requires i < |items|
    ensures RenderItems(items[i..], fmt, depth)
         == ItemText(items, i, fmt, depth) + RenderItems(items[i + 1..], fmt, depth)
  {
    hide Render;
    assert items[i..][1..] == items[i + 1..];
  }

  /** The text of a member, with its indentation and what separates it from the next one. */
  function MemberText(m: Member, last: bool, fmt: bool, depth: nat): Bytes {
    NameText(m.key, fmt, depth) + ValueText(m.value, last, fmt, depth)
  }

  function ValueText(value: Json, last: bool, fmt: bool, depth: nat): Bytes {
    Render(value, fmt, depth) + ((if last then [] else [COMMA]) + NewLine(fmt))
  }

  function NameText(key: Bytes, fmt: bool, depth: nat): Bytes {
    Indent(fmt, depth) + Quote(key) + KeyColon(fmt)
  }

  lemma ColonLength(fmt: bool)
    ensures |KeyColon(fmt)| >= 1
  {
  }

  lemma MembersFirst(members: seq<Member>, i: nat, fmt: bool, depth: nat)
    requires i < |members|
    ensures RenderMembers(members[i..], fmt, depth)
         == MemberText(members[i], i + 1 == |members|, fmt, depth) + RenderMembers(members[i + 1..], fmt, depth)
  {
    hide Render, Quote, KeyColon, Indent, NewLine;
    var some, m := members[i..], members[i];
    assert some[1..] == members[i + 1..];
    var comma, rest := if i + 1 == |members| then [] else [COMMA], RenderMembers(members[i + 1..], fmt, depth);
    assert RenderMembers(some, fmt, depth)
        == Indent(fmt, depth) + (Quote(m.key) + (KeyColon(fmt) + (Render(m.value, fmt, depth) +
           (comma + (NewLine(fmt) + rest)))));
  }

  lemma NoMembers(members: seq<Member>, fmt: bool, depth: nat)
    ensures members == [] ==> RenderMembers(members, fmt, depth) == []
  {
  }

  lemma ObjectText(members: seq<Member>, fmt: bool, depth: nat)
    ensures Render(Object(members), fmt, depth)
         == ([OPEN_BRACE] + NewLine(fmt)) + RenderMembers(members, fmt, depth + 1) +
            (Indent(fmt, depth) + [CLOSE_BRACE])
  {
  }

  lemma IndentLength(depth: nat)
    ensures Indent(true, depth) == Tabs(depth) && Indent(false, depth) == []
  {
  }

  lemma QuoteNulFree(s: Bytes)
    requires NulFree(s)
    ensures NulFree(Quote(s))
  {
    EscapeNulFree(s);
  }

  lemma {:induction false} EscapeNulFree(s: Bytes)
    ensures NulFree(Escape(s))
  {
    if s != [] {
      EscapeNulFree(s[1..]);
    }
  }

  lemma NulFreeJoin(s: Bytes, t: Bytes, u: Bytes)
    requires NulFree(s) && NulFree(t) && NulFree(u)
    ensures NulFree(s + t + u)
  {
  }

  /** The text of a tree is a C string. */
  lemma {:induction false} RenderNulFree(t: Json, fmt: bool, depth: nat)
    requires WellFormed(t)
    ensures NulFree(Render(t, fmt, depth))
    decreases t, 1
  {
    if t.Array? {
      ItemsNulFree(t.items, fmt, depth + 1);
      ArrayText(t.items, fmt, depth);
      hide Render, RenderItems, WellFormed;
      NulFreeJoin([OPEN_BRACKET], RenderItems(t.items, fmt, depth + 1), [CLOSE_BRACKET]);
    } else if t.Object? {
      MembersNulFree(t.members, fmt, depth + 1);
      ObjectText(t.members, fmt, depth);
      var open, close := [OPEN_BRACE] + NewLine(fmt), Indent(fmt, depth) + [CLOSE_BRACE];
      assert NulFree(open) && NulFree(close);
      hide Render, RenderMembers, WellFormed;
      NulFreeJoin(open, RenderMembers(t.members, fmt, depth + 1), close);
    } else if t.String? {
      QuoteNulFree(t.s);
    }
  }

  lemma {:induction false} ItemsNulFree(items: seq<Json>, fmt: bool, depth: nat)
    requires forall i :: 0 <= i < |items| ==> WellFormed(items[i])
    ensures NulFree(RenderItems(items, fmt, depth))
    decreases items, 0
  {
    hide Render, WellFormed;
    if items != [] {
      RenderNulFree(items[0], fmt, depth);
      ItemsNulFree(items[1..], fmt, depth);
    }
  }

  lemma {:induction false} MembersNulFree(members: seq<Member>, fmt: bool, depth: nat)
    requires forall i :: 0 <= i < |members| ==> NulFree(members[i].key) && WellFormed(members[i].value)
    ensures NulFree(RenderMembers(members, fmt, depth))
    decreases members, 0
  {
    hide Render, WellFormed, Quote;
    if members != [] {
      QuoteNulFree(members[0].key);
      RenderNulFree(members[0].value, fmt, depth);
      MembersNulFree(members[1..], fmt, depth);
    }
  }
}
