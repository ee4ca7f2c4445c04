/** The parser reads exactly the texts of the syntax, each as the tree it means, up to the nesting limit. */
module JsonSpelling {
  import opened JsonText
  import opened JsonGrammar
  import opened JsonSyntax
  import opened JsonStrings

  // ----- blanks ----------------------------------------------------------------------------------------

  /** Skipping passes whitespace and stops at what follows it. */
  lemma {:induction false} SkipSpaces(c: Bytes, o: nat, n: nat)
    requires o + n < |c| && c[o + n] > 32
    requires forall i :: o <= i < o + n ==> c[i] <= 32
    ensures Skip(c, o) == o + n
    decreases n
  {
    if n > 0 { SkipSpaces(c, o + 1, n - 1); }
  }

  lemma SkipText(c: Bytes, o: nat, spaces: Bytes, next: Bytes)
    requires Occurs(c, o, spaces + next) && next != [] && next[0] > 32 && Blank(spaces)
    ensures o + |spaces| < |c| && Skip(c, o) == o + |spaces| && c[o + |spaces|] == next[0]
  {
    forall i | 0 <= i < |spaces + next|
      ensures o + i < |c| && c[o + i] == (spaces + next)[i]
    {
      OccursAt(c, o, spaces + next, i);
    }
    forall i | o <= i < o + |spaces|
      ensures c[i] <= 32
    {
      assert c[o + (i - o)] == spaces[i - o];
    }
    assert (spaces + next)[|spaces|] == next[0];
    SkipSpaces(c, o, |spaces|);
  }

  /** What is skipped is blank, and skipping again does not move. */
  lemma {:induction false} SkippedBlank(c: Bytes, o: nat)
    requires o < |c|
    ensures var v := Skip(c, o); Blank(c[o..v]) && Skip(c, v) == v && (v == |c| - 1 || c[v] > 32)
    decreases |c| - o
  {
    if c[o] <= 32 && o + 1 < |c| {
      SkippedBlank(c, o + 1);
      var v := Skip(c, o);
      assert c[o..v] == [c[o]] + c[o + 1..v];
    }
  }

  lemma SkipAgain(c: Bytes, o: nat)
    requires o < |c|
    ensures Skip(c, Skip(c, o)) == Skip(c, o)
  {
    SkippedBlank(c, o);
  }

  // ----- leaves ----------------------------------------------------------------------------------------

  lemma StartByte(c: Bytes, o: nat, text: Bytes)
    requires text != []
    ensures StartsWith(c, o, text) ==> o < |c| && c[o] == text[0]
  {
  }

  lemma OtherStart(c: Bytes, o: nat)
    requires o < |c| && c[o] != 0x6E && c[o] != 0x66 && c[o] != 0x74
    ensures !StartsWith(c, o, NULL_TEXT) && !StartsWith(c, o, FALSE_TEXT) && !StartsWith(c, o, TRUE_TEXT)
  {
    StartByte(c, o, NULL_TEXT);
    StartByte(c, o, FALSE_TEXT);
    StartByte(c, o, TRUE_TEXT);
  }

  lemma {:induction false} WordRead(c: Bytes, o: nat, x: Syntax, depth: nat)
    requires Terminated(c) && (x.NullWord? || x.FalseWord? || x.TrueWord?) && Occurs(c, o, Write(x))
    ensures o < |c| && ParseValue(c, o, depth) == Parsed(Meaning(x), o + |Write(x)|)
  {
    OccursAt(c, o, Write(x), 0);
    StartByte(c, o, NULL_TEXT);
    StartByte(c, o, FALSE_TEXT);
    StartByte(c, o, TRUE_TEXT);
  }

  lemma {:induction false} NumberRunIs(c: Bytes, o: nat, s: Bytes, limit: nat)
    requires Occurs(c, o, s) && |s| <= limit && (forall k :: 0 <= k < |s| ==> InNumber(s[k]))
    requires o + |s| < |c| && !InNumber(c[o + |s|])
    ensures NumberRun(c, o, limit) == s
    decreases |s|
  {
    if s != [] {
      assert s == [s[0]] + s[1..];
      OccursParts(c, o, [s[0]], s[1..]);
      OccursAt(c, o, s, 0);
      NumberRunIs(c, o + 1, s[1..], limit - 1);
    }
  }

  lemma NumberRead(c: Bytes, o: nat, n: Numeral, depth: nat)
    requires Terminated(c) && GoodNumeral(n) && Occurs(c, o, NumeralText(n))
    requires o + |NumeralText(n)| < |c| && !InNumber(c[o + |NumeralText(n)|])
    ensures ParseValue(c, o, depth) == Parsed(Number(NumeralText(n)), o + |NumeralText(n)|)
  {
    hide *;
    NumeralBytes(n);
    NumeralConverts(n);
    RunRead(c, o, NumeralText(n), depth);
  }

  /** Bytes of numbers that convert whole are read as a number. */
  lemma RunRead(c: Bytes, o: nat, s: Bytes, depth: nat)
    requires Terminated(c) && Occurs(c, o, s) && 0 < |s| <= 63 && Strtod(s) == |s| && (s[0] == MINUS || IsDigit(s[0]))
    requires o + |s| < |c| && !InNumber(c[o + |s|]) && forall k :: 0 <= k < |s| ==> InNumber(s[k])
    ensures ParseValue(c, o, depth) == Parsed(Number(s), o + |s|)
  {
    hide Strtod, NumberRun, StartsWith, ParseString, ParseArray, ParseObject, InNumber, Terminated;
    OccursAt(c, o, s, 0);
    OtherStart(c, o);
    NumberRunIs(c, o, s, 63);
    assert s[..|s|] == s;
  }

  /** The first byte of a value is not blank, and tells which kind of value it is. */
  lemma {:induction false} ValueStart(x: Syntax)
    requires Good(x)
    ensures var s := Write(x); s != [] && 32 < s[0] < 0x7E && s[0] != CLOSE_BRACKET && s[0] != CLOSE_BRACE
    ensures x.Text? ==> Write(x)[0] == QUOTE
    ensures x.List? ==> Write(x)[0] == OPEN_BRACKET
    ensures x.Dict? ==> Write(x)[0] == OPEN_BRACE
  {
    if x.Num? { NumeralBytes(x.numeral); }
    hide NumeralText;
  }

  // ----- what is written is read -----------------------------------------------------------------------

  /** A byte that ends a value. */
  predicate Stop(b: Byte) {
    b > 32 && !InNumber(b)
  }

  /** The text from `s` to `z`, and the byte at `z`. */
  predicate Spans(c: Bytes, s: nat, z: nat, text: Bytes, b: Byte) {
    Occurs(c, s, text + [b]) && z == s + |text|
  }

  lemma SpanEnd(c: Bytes, s: nat, z: nat, text: Bytes, b: Byte)
    requires Spans(c, s, z, text, b)
    ensures s <= z < |c| && c[z] == b
  {
    OccursAt(c, s, text + [b], |text|);
  }

  lemma SpanParts(c: Bytes, s: nat, z: nat, first: Bytes, rest: Bytes, b: Byte) returns (m: nat)
    requires Spans(c, s, z, first + rest, b)
    ensures Occurs(c, s, first) && m == s + |first| <= z && Spans(c, m, z, rest, b)
  {
    m := s + |first|;
    assert (first + rest) + [b] == first + (rest + [b]);
    OccursParts(c, s, first, rest + [b]);
  }

  lemma SpanByte(c: Bytes, s: nat, z: nat, first: Byte, rest: Bytes, b: Byte)
    requires Spans(c, s, z, [first] + rest, b)
    ensures s < z < |c| && c[s] == first && Spans(c, s + 1, z, rest, b)
  {
    var m := SpanParts(c, s, z, [first], rest, b);
    SpanEnd(c, m, z, rest, b);
    OccursAt(c, s, [first], 0);
  }

  /** Behind blanks stands what skipping finds. */
  lemma SpanBlank(c: Bytes, s: nat, z: nat, blank: Bytes, rest: Bytes, b: Byte) returns (v: nat)
    requires Spans(c, s, z, blank + rest, b) && Blank(blank) && b > 32 && (rest != [] ==> rest[0] > 32)
    ensures s <= v <= z < |c| && Skip(c, s) == v && Spans(c, v, z, rest, b) && (rest == [] ==> v == z)
  {
    v := SpanParts(c, s, z, blank, rest, b);
    SpanEnd(c, v, z, rest, b);
    assert (blank + rest) + [b] == blank + (rest + [b]);
    SkipText(c, s, blank, rest + [b]);
  }

  /** Between the value of an item and the byte that ends it stand blanks. */
  lemma SpanAfter(c: Bytes, e: nat, q: nat, blank: Bytes, b: Byte)
    requires Spans(c, e, q, blank, b) && Blank(blank) && Stop(b)
    ensures e <= q < |c| && Skip(c, e) == q && c[q] == b && !InNumber(c[e])
  {
    assert blank + [] == blank;
    var v := SpanBlank(c, e, q, blank, [], b);
    SpanEnd(c, e, q, blank, b);
    if blank != [] { OccursAt(c, e, blank + [b], 0); }
  }

  lemma {:induction false} ItemParts(i: Item)
    requires GoodItem(i)
    ensures Blank(i.before) && Blank(i.after) && WriteItem(i) == i.before + (Write(i.value) + i.after)
    ensures Good(i.value) && ItemMeaning(i) == Meaning(i.value)
  {
    hide Good, Write, Meaning, Blank;
  }

  lemma StopVisible(b: Byte)
    requires Stop(b)
    ensures b > 32
  {
  }

  lemma {:induction false} KeyParts(e: Entry)
    requires GoodEntry(e)
    ensures Blank(e.before) && Blank(e.beforeColon)
    ensures WriteEntry(e) == e.before + (WriteLiteral(e.content) + (e.beforeColon + ([COLON] + WriteItem(e.item))))
    ensures GoodPieces(e.pieces) && GoodLiteral(e.content, e.pieces) && KeyMeaning(e) == PiecesValue(e.pieces)
  {
    hide Good, WriteItem, WriteLiteral, PiecesValue, Blank;
  }

  /** The value of an item, and the byte that ends the item. */
  lemma {:induction false} ItemText(c: Bytes, s: nat, q: nat, i: Item, b: Byte) returns (v: nat, e: nat)
    requires GoodItem(i) && Spans(c, s, q, WriteItem(i), b) && Stop(b)
    ensures s <= v < e <= q < |c| && Skip(c, s) == v && Skip(c, e) == q && c[q] == b && !InNumber(c[e])
    ensures Occurs(c, v, Write(i.value)) && e == v + |Write(i.value)| && c[v] == Write(i.value)[0]
  {
    hide *;
    var w := Write(i.value);
    ItemParts(i);
    ValueStart(i.value);
    StopVisible(b);
    assert (w + i.after)[0] == w[0];
    v := SpanBlank(c, s, q, i.before, w + i.after, b);
    e := SpanParts(c, v, q, w, i.after, b);
    OccursAt(c, v, w, 0);
    SpanAfter(c, e, q, i.after, b);
  }

  /** A key with its colon and what stands around it. */
  lemma {:induction false} KeyText(c: Bytes, s: nat, q: nat, e: Entry, b: Byte) returns (k: nat, l: nat, colon: nat)
    requires GoodEntry(e) && Spans(c, s, q, WriteEntry(e), b) && b > 32
    ensures s <= k < l <= colon < q < |c| && Skip(c, s) == k && Occurs(c, k, WriteLiteral(e.content))
    ensures l == k + |WriteLiteral(e.content)| && Skip(c, l) == colon && c[colon] == COLON && c[k] == QUOTE
    ensures Spans(c, colon + 1, q, WriteItem(e.item), b)
  {
    hide *;
    var key, item := WriteLiteral(e.content), WriteItem(e.item);
    var afterKey := e.beforeColon + ([COLON] + item);
    LiteralStart(e.content);
    KeyParts(e);
    Stops();
    assert (key + afterKey)[0] == key[0];
    k := SpanBlank(c, s, q, e.before, key + afterKey, b);
    l := SpanParts(c, k, q, key, afterKey, b);
    OccursAt(c, k, key, 0);
    colon := SpanBlank(c, l, q, e.beforeColon, [COLON] + item, b);
    SpanByte(c, colon, q, COLON, item, b);
  }

  lemma LiteralStart(content: Bytes)
    ensures WriteLiteral(content) != [] && WriteLiteral(content)[0] == QUOTE
  {
  }

  lemma Stops()
    ensures Stop(COMMA) && Stop(CLOSE_BRACKET) && Stop(CLOSE_BRACE)
    ensures COMMA > 32 && COLON > 32 && CLOSE_BRACKET > 32 && CLOSE_BRACE > 32 && 32 < QUOTE != CLOSE_BRACE
  {
  }

  lemma {:induction false} ItemsWritten(items: seq<Item>)
    requires |items| > 1
    ensures WriteItems(items) == WriteItem(items[0]) + ([COMMA] + WriteItems(items[1..]))
  {
    hide WriteItem;
  }

  lemma {:induction false} OneItem(items: seq<Item>)
    requires |items| == 1
    ensures WriteItems(items) == WriteItem(items[0])
  {
  }

  /** Items stand one behind the other, with commas between them. */
  lemma {:induction false} MoreItems(c: Bytes, s: nat, z: nat, items: seq<Item>, close: Byte) returns (q: nat)
    requires |items| > 1 && Spans(c, s, z, WriteItems(items), close)
    ensures Spans(c, s, q, WriteItem(items[0]), COMMA) && Spans(c, q + 1, z, WriteItems(items[1..]), close)
    ensures q + 1 < |c|
  {
    hide *;
    ItemsWritten(items);
    q := Separated(c, s, z, WriteItem(items[0]), WriteItems(items[1..]), close);
  }

  lemma {:induction false} EntriesWritten(entries: seq<Entry>)
    requires |entries| > 1
    ensures WriteEntries(entries) == WriteEntry(entries[0]) + ([COMMA] + WriteEntries(entries[1..]))
  {
    hide WriteEntry;
  }

  lemma {:induction false} OneEntry(entries: seq<Entry>)
    requires |entries| == 1
    ensures WriteEntries(entries) == WriteEntry(entries[0])
  {
  }

  lemma {:induction false} MoreEntries(c: Bytes, s: nat, z: nat, entries: seq<Entry>, close: Byte) returns (q: nat)
    requires |entries| > 1 && Spans(c, s, z, WriteEntries(entries), close)
    ensures Spans(c, s, q, WriteEntry(entries[0]), COMMA) && Spans(c, q + 1, z, WriteEntries(entries[1..]), close)
    ensures q + 1 < |c|
  {
    hide *;
    EntriesWritten(entries);
    q := Separated(c, s, z, WriteEntry(entries[0]), WriteEntries(entries[1..]), close);
  }

  lemma Separated(c: Bytes, s: nat, z: nat, first: Bytes, rest: Bytes, close: Byte) returns (q: nat)
    requires Spans(c, s, z, first + ([COMMA] + rest), close)
    ensures Spans(c, s, q, first, COMMA) && Spans(c, q + 1, z, rest, close) && q + 1 < |c|
  {
    q := SpanParts(c, s, z, first, [COMMA] + rest, close);
    SpanByte(c, q, z, COMMA, rest, close);
    SpanEnd(c, q + 1, z, rest, close);
    assert (first + ([COMMA] + rest)) + [close] == (first + [COMMA]) + (rest + [close]);
    OccursParts(c, s, first + [COMMA], rest + [close]);
  }

  lemma {:induction false} FirstItem(items: seq<Item>)
    requires GoodItems(items) && items != []
    ensures GoodItem(items[0]) && GoodItems(items[1..])
    ensures ItemsMeaning(items) == [ItemMeaning(items[0])] + ItemsMeaning(items[1..])
    ensures |items| == 1 ==> ItemsMeaning(items) == [ItemMeaning(items[0])]
    ensures Height(ItemMeaning(items[0])) <= ItemsHeight(ItemsMeaning(items))
    ensures ItemsHeight(ItemsMeaning(items[1..])) <= ItemsHeight(ItemsMeaning(items))
  {
    hide ItemMeaning, Height;
  }

  lemma {:induction false} FirstEntry(entries: seq<Entry>)
    requires GoodEntries(entries) && entries != []
    ensures GoodEntry(entries[0]) && GoodEntries(entries[1..])
    ensures EntriesMeaning(entries) == [EntryMeaning(entries[0])] + EntriesMeaning(entries[1..])
    ensures |entries| == 1 ==> EntriesMeaning(entries) == [EntryMeaning(entries[0])]
    ensures Height(EntryMeaning(entries[0]).value) <= MembersHeight(EntriesMeaning(entries))
    ensures MembersHeight(EntriesMeaning(entries[1..])) <= MembersHeight(EntriesMeaning(entries))
  {
    hide EntryMeaning, Height;
  }

  lemma ItemTurn(c: Bytes, o: nat, v: nat, depth: nat, value: Json, e: nat, q: nat)
    requires Terminated(c) && o + 1 < |c| && e < |c| && Skip(c, o + 1) == v && Skip(c, e) == q
    requires ParseValue(c, v, depth) == Parsed(value, e)
    ensures c[q] == CLOSE_BRACKET ==> ParseItems(c, o, depth) == ParsedItems([value], q)
    ensures forall rest, z :: c[q] == COMMA && ParseItems(c, q, depth) == ParsedItems(rest, z) ==>
              ParseItems(c, o, depth) == ParsedItems([value] + rest, z)
  {
    hide ParseValue, Skip;
  }

  lemma MemberTurn(c: Bytes, o: nat, v: nat, depth: nat, m: Member, e: nat, q: nat)
    requires Terminated(c) && o + 1 < |c| && e < |c| && Skip(c, o + 1) == v && Skip(c, e) == q
    requires ParseMember(c, v, depth) == ParsedMember(m, e)
    ensures c[q] == CLOSE_BRACE ==> ParseMembers(c, o, depth) == ParsedMembers([m], q)
    ensures forall rest, z :: c[q] == COMMA && ParseMembers(c, q, depth) == ParsedMembers(rest, z) ==>
              ParseMembers(c, o, depth) == ParsedMembers([m] + rest, z)
  {
    hide ParseMember, Skip;
  }

  /** A key is read at `k`, and the colon behind it stands at `colon`. */
  predicate KeyAt(c: Bytes, k: nat, key: Bytes, colon: nat) {
    && k < |c| && colon + 1 < |c| && c[colon] == COLON
    && match ParseString(c, k)
       case ParsedString(bytes, l) => bytes == key && l < |c| && Skip(c, l) == colon
       case FailedString(_) => false
  }

  lemma MemberStands(c: Bytes, k: nat, depth: nat, key: Bytes, colon: nat, value: Json, e: nat)
    requires Terminated(c) && k < |c| && colon + 1 < |c| && KeyAt(c, k, key, colon)
    requires ParseValue(c, Skip(c, colon + 1), depth) == Parsed(value, e)
    ensures ParseMember(c, k, depth) == ParsedMember(Member(key, value), e)
  {
    hide ParseString, ParseValue, Skip;
  }

  lemma KeyStands(c: Bytes, k: nat, key: Bytes, l: nat, colon: nat)
    requires k < |c| && l < |c| && colon + 1 < |c| && c[colon] == COLON && Skip(c, l) == colon
    requires ParseString(c, k) == ParsedString(key, l)
    ensures KeyAt(c, k, key, colon)
  {
    hide ParseString, Skip;
  }

  /** No value ends at the terminating NUL inside brackets or braces. */
  lemma StopInside(c: Bytes, q: nat, b: Byte)
    requires Terminated(c) && Stop(b) && q < |c| && c[q] == b
    ensures q + 1 < |c|
  {
  }

  /** The value of an item, read up to the byte that ends the item. */
  lemma {:induction false} ItemRead(c: Bytes, s: nat, q: nat, x: Item, b: Byte, depth: nat) returns (v: nat, e: nat)
    requires Terminated(c) && GoodItem(x) && Stop(b) && Spans(c, s, q, WriteItem(x), b)
    requires depth + Height(ItemMeaning(x)) <= NESTING_LIMIT
    ensures s <= v < e <= q && q + 1 < |c| && c[q] == b
    ensures Skip(c, s) == v && ParseValue(c, v, depth) == Parsed(ItemMeaning(x), e) && Skip(c, e) == q
    decreases x, 2
  {
    hide *;
    ItemParts(x);
    v, e := ItemText(c, s, q, x, b);
    StopInside(c, q, b);
    ValueRead(c, v, x.value, depth);
  }

  lemma {:induction false} LastItemRead(c: Bytes, o: nat, s: nat, z: nat, x: Item, depth: nat)
    requires Terminated(c) && o + 1 < |c| && s < |c| && GoodItem(x)
    requires depth + Height(ItemMeaning(x)) <= NESTING_LIMIT
    requires Spans(c, s, z, WriteItem(x), CLOSE_BRACKET) && Skip(c, o + 1) == Skip(c, s)
    ensures ParseItems(c, o, depth) == ParsedItems([ItemMeaning(x)], z)
    decreases x, 4
  {
    hide *;
    Stops();
    var v, e := ItemRead(c, s, z, x, CLOSE_BRACKET, depth);
    ItemTurn(c, o, v, depth, ItemMeaning(x), e, z);
  }

  lemma {:induction false} FirstItemRead(c: Bytes, o: nat, s: nat, q: nat, x: Item, rest: seq<Json>, z: nat, depth: nat)
    requires Terminated(c) && o + 1 < |c| && s < |c| && GoodItem(x)
    requires depth + Height(ItemMeaning(x)) <= NESTING_LIMIT
    requires Spans(c, s, q, WriteItem(x), COMMA) && Skip(c, o + 1) == Skip(c, s)
    requires q + 1 < |c| && ParseItems(c, q, depth) == ParsedItems(rest, z)
    ensures ParseItems(c, o, depth) == ParsedItems([ItemMeaning(x)] + rest, z)
    decreases x, 4
  {
    hide *;
    Stops();
    var v, e := ItemRead(c, s, q, x, COMMA, depth);
    ItemTurn(c, o, v, depth, ItemMeaning(x), e, q);
  }

  lemma {:induction false} ItemsRead(c: Bytes, o: nat, s: nat, z: nat, items: seq<Item>, depth: nat)
    requires Terminated(c) && o + 1 < |c| && s < |c| && items != [] && GoodItems(items)
    requires Spans(c, s, z, WriteItems(items), CLOSE_BRACKET) && Skip(c, o + 1) == Skip(c, s)
    requires depth + ItemsHeight(ItemsMeaning(items)) <= NESTING_LIMIT
    ensures ParseItems(c, o, depth) == ParsedItems(ItemsMeaning(items), z)
    decreases items, 0
  {
    hide *;
    FirstItem(items);
    if |items| == 1 {
      OneItem(items);
      LastItemRead(c, o, s, z, items[0], depth);
    } else {
      var q := MoreItems(c, s, z, items, CLOSE_BRACKET);
      ItemsRead(c, q, q + 1, z, items[1..], depth);
      FirstItemRead(c, o, s, q, items[0], ItemsMeaning(items[1..]), z, depth);
    }
  }

  lemma {:induction false} EntryParts(e: Entry)
    requires GoodEntry(e)
    ensures GoodItem(e.item) && EntryMeaning(e) == Member(KeyMeaning(e), ItemMeaning(e.item))
  {
    hide Good, ItemMeaning, KeyMeaning;
  }

  lemma {:induction false} KeyRead(c: Bytes, s: nat, q: nat, x: Entry, b: Byte) returns (k: nat, colon: nat)
    requires GoodEntry(x) && Spans(c, s, q, WriteEntry(x), b) && b > 32
    ensures s <= k < colon < q < |c| && Skip(c, s) == k && KeyAt(c, k, KeyMeaning(x), colon)
    ensures Spans(c, colon + 1, q, WriteItem(x.item), b)
  {
    hide *;
    KeyParts(x);
    var l;
    k, l, colon := KeyText(c, s, q, x, b);
    LiteralRead(c, k, x.content, x.pieces);
    KeyStands(c, k, KeyMeaning(x), l, colon);
  }

  lemma {:induction false} EntryRead(c: Bytes, s: nat, q: nat, x: Entry, b: Byte, depth: nat) returns (k: nat, e: nat)
    requires Terminated(c) && GoodEntry(x) && Spans(c, s, q, WriteEntry(x), b) && Stop(b)
    requires depth + Height(EntryMeaning(x).value) <= NESTING_LIMIT
    ensures s <= k < e <= q && q + 1 < |c| && c[q] == b
    ensures Skip(c, s) == k && ParseMember(c, k, depth) == ParsedMember(EntryMeaning(x), e) && Skip(c, e) == q
    decreases x, 3
  {
    hide *;
    EntryParts(x);
    StopVisible(b);
    var colon, v;
    k, colon := KeyRead(c, s, q, x, b);
    v, e := ItemRead(c, colon + 1, q, x.item, b, depth);
    MemberStands(c, k, depth, KeyMeaning(x), colon, ItemMeaning(x.item), e);
  }

  lemma {:induction false} LastEntryRead(c: Bytes, o: nat, s: nat, z: nat, x: Entry, depth: nat)
    requires Terminated(c) && o + 1 < |c| && s < |c| && GoodEntry(x)
    requires depth + Height(EntryMeaning(x).value) <= NESTING_LIMIT
    requires Spans(c, s, z, WriteEntry(x), CLOSE_BRACE) && Skip(c, o + 1) == Skip(c, s)
    ensures ParseMembers(c, o, depth) == ParsedMembers([EntryMeaning(x)], z)
    decreases x, 4
  {
    hide *;
    Stops();
    var k, e := EntryRead(c, s, z, x, CLOSE_BRACE, depth);
    MemberTurn(c, o, k, depth, EntryMeaning(x), e, z);
  }

  lemma {:induction false} FirstEntryRead(c: Bytes, o: nat, s: nat, q: nat, x: Entry, rest: seq<Member>, z: nat,
                                          depth: nat)
    requires Terminated(c) && o + 1 < |c| && s < |c| && GoodEntry(x)
    requires depth + Height(EntryMeaning(x).value) <= NESTING_LIMIT
    requires Spans(c, s, q, WriteEntry(x), COMMA) && Skip(c, o + 1) == Skip(c, s)
    requires q + 1 < |c| && ParseMembers(c, q, depth) == ParsedMembers(rest, z)
    ensures ParseMembers(c, o, depth) == ParsedMembers([EntryMeaning(x)] + rest, z)
    decreases x, 4
  {
    hide *;
    Stops();
    var k, e := EntryRead(c, s, q, x, COMMA, depth);
    MemberTurn(c, o, k, depth, EntryMeaning(x), e, q);
  }

  lemma {:induction false} EntriesRead(c: Bytes, o: nat, s: nat, z: nat, entries: seq<Entry>, depth: nat)
    requires Terminated(c) && o + 1 < |c| && s < |c| && entries != [] && GoodEntries(entries)
    requires Spans(c, s, z, WriteEntries(entries), CLOSE_BRACE) && Skip(c, o + 1) == Skip(c, s)
    requires depth + MembersHeight(EntriesMeaning(entries)) <= NESTING_LIMIT
    ensures ParseMembers(c, o, depth) == ParsedMembers(EntriesMeaning(entries), z)
    decreases entries, 0
  {
    hide *;
    FirstEntry(entries);
    if |entries| == 1 {
      OneEntry(entries);
      LastEntryRead(c, o, s, z, entries[0], depth);
    } else {
      var q := MoreEntries(c, s, z, entries, CLOSE_BRACE);
      EntriesRead(c, q, q + 1, z, entries[1..], depth);
      FirstEntryRead(c, o, s, q, entries[0], EntriesMeaning(entries[1..]), z, depth);
    }
  }

  lemma EmptyArray(c: Bytes, o: nat, depth: nat)
    requires Terminated(c) && o + 1 < |c| && c[o] == OPEN_BRACKET && depth < NESTING_LIMIT
    requires c[Skip(c, o + 1)] == CLOSE_BRACKET
    ensures ParseArray(c, o, depth) == Parsed(Array([]), Skip(c, o + 1) + 1)
  {
    hide ParseItems, Skip;
  }

  lemma FullArray(c: Bytes, o: nat, depth: nat, values: seq<Json>, z: nat)
    requires Terminated(c) && o + 1 < |c| && c[o] == OPEN_BRACKET && depth < NESTING_LIMIT
    requires c[Skip(c, o + 1)] != CLOSE_BRACKET
    requires ParseItems(c, Skip(c, o + 1) - 1, depth + 1) == ParsedItems(values, z)
    ensures ParseArray(c, o, depth) == Parsed(Array(values), z + 1)
  {
    hide ParseItems, Skip;
  }

  lemma EmptyObject(c: Bytes, o: nat, depth: nat)
    requires Terminated(c) && o + 1 < |c| && c[o] == OPEN_BRACE && depth < NESTING_LIMIT
    requires c[Skip(c, o + 1)] == CLOSE_BRACE
    ensures ParseObject(c, o, depth) == Parsed(Object([]), Skip(c, o + 1) + 1)
  {
    hide ParseMembers, Skip;
  }

  lemma FullObject(c: Bytes, o: nat, depth: nat, members: seq<Member>, z: nat)
    requires Terminated(c) && o + 1 < |c| && c[o] == OPEN_BRACE && depth < NESTING_LIMIT
    requires c[Skip(c, o + 1)] != CLOSE_BRACE
    requires ParseMembers(c, Skip(c, o + 1) - 1, depth + 1) == ParsedMembers(members, z)
    ensures ParseObject(c, o, depth) == Parsed(Object(members), z + 1)
  {
    hide ParseMembers, Skip;
  }

  /** A text between an opening and a closing byte. */
  lemma Enclosed(c: Bytes, o: nat, open: Byte, text: Bytes, close: Byte) returns (z: nat)
    requires Occurs(c, o, [open] + (text + [close]))
    ensures o < z < |c| && c[o] == open && c[z] == close && Spans(c, o + 1, z, text, close)
    ensures o + |[open] + (text + [close])| == z + 1
  {
    OccursParts(c, o, [open], text + [close]);
    OccursAt(c, o, [open], 0);
    z := o + 1 + |text|;
    SpanEnd(c, o + 1, z, text, close);
  }

  lemma {:induction false} ListWritten(blank: Bytes, items: seq<Item>)
    ensures Write(List(blank, items))
         == [OPEN_BRACKET] + ((if items == [] then blank else WriteItems(items)) + [CLOSE_BRACKET])
  {
    hide WriteItems;
  }

  lemma {:induction false} EmptyList(c: Bytes, o: nat, blank: Bytes, depth: nat)
    requires Terminated(c) && Blank(blank) && Occurs(c, o, Write(List(blank, []))) && depth < NESTING_LIMIT
    ensures o < |c| && c[o] == OPEN_BRACKET
    ensures ParseArray(c, o, depth) == Parsed(Array([]), o + |Write(List(blank, []))|)
  {
    hide *;
    ListWritten(blank, []);
    Stops();
    var z := Enclosed(c, o, OPEN_BRACKET, blank, CLOSE_BRACKET);
    assert blank + [] == blank;
    var v := SpanBlank(c, o + 1, z, blank, [], CLOSE_BRACKET);
    EmptyArray(c, o, depth);
  }

  lemma {:induction false} FirstItemStart(c: Bytes, s: nat, z: nat, items: seq<Item>)
    requires items != [] && GoodItems(items) && Spans(c, s, z, WriteItems(items), CLOSE_BRACKET)
    ensures s < |c| && c[Skip(c, s)] != CLOSE_BRACKET
  {
    hide *;
    FirstItem(items);
    ItemParts(items[0]);
    ValueStart(items[0].value);
    Stops();
    if |items| == 1 {
      OneItem(items);
      var v, e := ItemText(c, s, z, items[0], CLOSE_BRACKET);
    } else {
      var q := MoreItems(c, s, z, items, CLOSE_BRACKET);
      var v, e := ItemText(c, s, q, items[0], COMMA);
    }
  }

  lemma {:induction false} ListInside(c: Bytes, o: nat, z: nat, items: seq<Item>, depth: nat)
    requires Terminated(c) && items != [] && GoodItems(items) && o + 1 < |c| && c[o] == OPEN_BRACKET
    requires Spans(c, o + 1, z, WriteItems(items), CLOSE_BRACKET)
    requires depth + 1 + ItemsHeight(ItemsMeaning(items)) <= NESTING_LIMIT
    ensures ParseArray(c, o, depth) == Parsed(Array(ItemsMeaning(items)), z + 1)
    decreases items, 1
  {
    hide *;
    FirstItemStart(c, o + 1, z, items);
    SkipAgain(c, o + 1);
    ItemsRead(c, Skip(c, o + 1) - 1, o + 1, z, items, depth + 1);
    FullArray(c, o, depth, ItemsMeaning(items), z);
  }

  /** Between brackets stand the items. */
  lemma {:induction false} ListRead(c: Bytes, o: nat, blank: Bytes, items: seq<Item>, depth: nat)
    requires Terminated(c) && items != [] && GoodItems(items) && Occurs(c, o, Write(List(blank, items)))
    requires depth + 1 + ItemsHeight(ItemsMeaning(items)) <= NESTING_LIMIT
    ensures o < |c| && c[o] == OPEN_BRACKET
    ensures ParseArray(c, o, depth) == Parsed(Array(ItemsMeaning(items)), o + |Write(List(blank, items))|)
    decreases items, 2
  {
    hide *;
    ListWritten(blank, items);
    var z := Enclosed(c, o, OPEN_BRACKET, WriteItems(items), CLOSE_BRACKET);
    ListInside(c, o, z, items, depth);
  }

  lemma {:induction false} DictWritten(blank: Bytes, entries: seq<Entry>)
    ensures Write(Dict(blank, entries))
         == [OPEN_BRACE] + ((if entries == [] then blank else WriteEntries(entries)) + [CLOSE_BRACE])
  {
    hide WriteEntries;
  }

  lemma {:induction false} EmptyDict(c: Bytes, o: nat, blank: Bytes, depth: nat)
    requires Terminated(c) && Blank(blank) && Occurs(c, o, Write(Dict(blank, []))) && depth < NESTING_LIMIT
    ensures o < |c| && c[o] == OPEN_BRACE
    ensures ParseObject(c, o, depth) == Parsed(Object([]), o + |Write(Dict(blank, []))|)
  {
    hide *;
    DictWritten(blank, []);
    Stops();
    var z := Enclosed(c, o, OPEN_BRACE, blank, CLOSE_BRACE);
    assert blank + [] == blank;
    var v := SpanBlank(c, o + 1, z, blank, [], CLOSE_BRACE);
    EmptyObject(c, o, depth);
  }

  lemma {:induction false} FirstEntryStart(c: Bytes, s: nat, z: nat, entries: seq<Entry>)
    requires entries != [] && GoodEntries(entries) && Spans(c, s, z, WriteEntries(entries), CLOSE_BRACE)
    ensures s < |c| && c[Skip(c, s)] != CLOSE_BRACE
  {
    hide *;
    FirstEntry(entries);
    Stops();
    if |entries| == 1 {
      OneEntry(entries);
      var k, l, colon := KeyText(c, s, z, entries[0], CLOSE_BRACE);
    } else {
      var q := MoreEntries(c, s, z, entries, CLOSE_BRACE);
      var k, l, colon := KeyText(c, s, q, entries[0], COMMA);
    }
  }

  lemma {:induction false} DictInside(c: Bytes, o: nat, z: nat, entries: seq<Entry>, depth: nat)
    requires Terminated(c) && entries != [] && GoodEntries(entries) && o + 1 < |c| && c[o] == OPEN_BRACE
    requires Spans(c, o + 1, z, WriteEntries(entries), CLOSE_BRACE)
    requires depth + 1 + MembersHeight(EntriesMeaning(entries)) <= NESTING_LIMIT
    ensures ParseObject(c, o, depth) == Parsed(Object(EntriesMeaning(entries)), z + 1)
    decreases entries, 1
  {
    hide *;
    FirstEntryStart(c, o + 1, z, entries);
    SkipAgain(c, o + 1);
    EntriesRead(c, Skip(c, o + 1) - 1, o + 1, z, entries, depth + 1);
    FullObject(c, o, depth, EntriesMeaning(entries), z);
  }

  /** Between braces stand the members. */
  lemma {:induction false} DictRead(c: Bytes, o: nat, blank: Bytes, entries: seq<Entry>, depth: nat)
    requires Terminated(c) && entries != [] && GoodEntries(entries) && Occurs(c, o, Write(Dict(blank, entries)))
    requires depth + 1 + MembersHeight(EntriesMeaning(entries)) <= NESTING_LIMIT
    ensures o < |c| && c[o] == OPEN_BRACE
    ensures ParseObject(c, o, depth) == Parsed(Object(EntriesMeaning(entries)), o + |Write(Dict(blank, entries))|)
    decreases entries, 2
  {
    hide *;
    DictWritten(blank, entries);
    var z := Enclosed(c, o, OPEN_BRACE, WriteEntries(entries), CLOSE_BRACE);
    DictInside(c, o, z, entries, depth);
  }

  lemma KindOfValue(c: Bytes, o: nat, depth: nat)
    requires Terminated(c) && o < |c|
    ensures c[o] == QUOTE ==>
              ParseValue(c, o, depth) == (match ParseString(c, o)
                                          case ParsedString(s, offset) => Parsed(String(s), offset)
                                          case FailedString(offset) => Failed(offset))
    ensures c[o] == OPEN_BRACKET ==> ParseValue(c, o, depth) == ParseArray(c, o, depth)
    ensures c[o] == OPEN_BRACE ==> ParseValue(c, o, depth) == ParseObject(c, o, depth)
  {
    hide StartsWith, ParseString, ParseArray, ParseObject;
    if c[o] == QUOTE || c[o] == OPEN_BRACKET || c[o] == OPEN_BRACE { OtherStart(c, o); }
  }

  /** Whatever is written by the syntax is read as what it means, wherever it stands: with any blanks, with any
      escapes, as long as it is not nested too deeply and no number goes on behind it. */
  lemma {:induction false} ValueRead(c: Bytes, o: nat, x: Syntax, depth: nat)
    requires Terminated(c) && Good(x) && Occurs(c, o, Write(x)) && depth + Height(Meaning(x)) <= NESTING_LIMIT
    requires x.Num? ==> o + |Write(x)| < |c| && !InNumber(c[o + |Write(x)|])
    ensures o < |c| && ParseValue(c, o, depth) == Parsed(Meaning(x), o + |Write(x)|)
    decreases x, 1
  {
    hide ParseValue, ParseString, ParseArray, ParseObject, Occurs, NumeralText, GoodLiteral, PiecesValue, WriteItems,
      WriteEntries, GoodItem, GoodEntry, ItemsHeight, MembersHeight;
    match x
    case NullWord => WordRead(c, o, x, depth);
    case FalseWord => WordRead(c, o, x, depth);
    case TrueWord => WordRead(c, o, x, depth);
    case Num(n) => NumberRead(c, o, n, depth);
    case Text(content, ps) =>
      LiteralStart(content);
      OccursAt(c, o, WriteLiteral(content), 0);
      KindOfValue(c, o, depth);
      LiteralRead(c, o, content, ps);
    case List(blank, items) =>
      if items == [] { EmptyList(c, o, blank, depth); } else { ListRead(c, o, blank, items, depth); }
      KindOfValue(c, o, depth);
    case Dict(blank, entries) =>
      if entries == [] { EmptyDict(c, o, blank, depth); } else { DictRead(c, o, blank, entries, depth); }
      KindOfValue(c, o, depth);
  }
}
