/** Whatever the parser accepts is written by the syntax; so a text is accepted as a tree exactly if it spells it. */
module JsonReading {
  import opened JsonText
  import opened JsonGrammar
  import opened JsonSyntax
  import opened JsonStrings
  import opened JsonSpelling
  import opened JsonDepth

  // ----- what is read is written -------------------------------------------------------------------------

  lemma SliceOccurs(c: Bytes, o: nat, text: Bytes)
    requires Occurs(c, o, text)
    ensures o + |text| <= |c| && text == c[o..o + |text|]
  {
  }

  /** A number that is read is a numeral of the syntax. */
  lemma NumberBack(c: Bytes, o: nat) returns (x: Syntax)
    requires Terminated(c) && o < |c| && (c[o] == MINUS || IsDigit(c[o])) && ParseNumber(c, o).Parsed?
    ensures Good(x) && Write(x) == c[o..ParseNumber(c, o).offset] && ParseNumber(c, o).value == Meaning(x)
  {
    hide *;
    NumberParts(c, o);
    var n := NumeralRead(NumberRun(c, o, 63));
    x := NumIs(n);
  }

  lemma NumIs(n: Numeral) returns (x: Syntax)
    requires GoodNumeral(n)
    ensures Good(x) && Write(x) == NumeralText(n) && Meaning(x) == Number(NumeralText(n))
  {
    x := Num(n);
    hide GoodNumeral, NumeralText;
  }

  lemma NumberParts(c: Bytes, o: nat)
    requires Terminated(c) && o < |c| && (c[o] == MINUS || IsDigit(c[o])) && ParseNumber(c, o).Parsed?
    ensures var run := NumberRun(c, o, 63);
      && 0 < Strtod(run) <= |run| <= 63 && run[..Strtod(run)] == c[o..o + Strtod(run)]
      && ParseNumber(c, o) == Parsed(Number(run[..Strtod(run)]), o + Strtod(run))
      && (run[0] == MINUS || IsDigit(run[0]))
  {
    hide Strtod, NumberRun;
  }

  /** Blanks are skipped in front of a value and behind it. */
  lemma {:induction false} ItemBack(c: Bytes, s: nat, depth: nat) returns (i: Item, q: nat)
    requires Terminated(c) && s < |c| && ParseValue(c, Skip(c, s), depth).Parsed?
    ensures GoodItem(i) && ItemMeaning(i) == ParseValue(c, Skip(c, s), depth).value
    ensures s < q == Skip(c, ParseValue(c, Skip(c, s), depth).offset) < |c| && WriteItem(i) == c[s..q]
    decreases |c| - s, 3
  {
    hide *;
    var v := Skip(c, s);
    var e := ParseValue(c, v, depth).offset;
    q := Skip(c, e);
    SkippedBlank(c, s);
    SkippedBlank(c, e);
    var x := ValueBack(c, v, depth);
    i := Item(c[s..v], x, c[e..q]);
    ItemIs(i);
    SliceJoin(c, v, e, q);
    SliceJoin(c, s, v, q);
  }

  lemma {:induction false} ItemIs(i: Item)
    requires Blank(i.before) && Good(i.value) && Blank(i.after)
    ensures GoodItem(i) && ItemMeaning(i) == Meaning(i.value) && WriteItem(i) == i.before + (Write(i.value) + i.after)
  {
    hide Good, Meaning, Write, Blank;
  }

  lemma {:induction false} OneItemIs(i: Item)
    requires GoodItem(i)
    ensures GoodItems([i]) && ItemsMeaning([i]) == [ItemMeaning(i)] && WriteItems([i]) == WriteItem(i)
  {
    FirstItem([i]);
    hide GoodItem, ItemMeaning, WriteItem;
  }

  lemma {:induction false} ItemsAre(i: Item, rest: seq<Item>)
    requires GoodItem(i) && GoodItems(rest) && rest != []
    ensures var items := [i] + rest;
      && GoodItems(items) && ItemsMeaning(items) == [ItemMeaning(i)] + ItemsMeaning(rest)
      && WriteItems(items) == WriteItem(i) + ([COMMA] + WriteItems(rest))
  {
    var items := [i] + rest;
    assert items[1..] == rest;
    hide GoodItem, ItemMeaning, WriteItem;
  }

  lemma {:induction false} MoreItemsAre(c: Bytes, s: nat, q: nat, z: nat, i: Item, rest: seq<Item>)
    requires GoodItem(i) && GoodItems(rest) && rest != [] && s <= q < q + 1 <= z <= |c| && c[q] == COMMA
    requires WriteItem(i) == c[s..q] && WriteItems(rest) == c[q + 1..z]
    ensures var items := [i] + rest;
      GoodItems(items) && ItemsMeaning(items) == [ItemMeaning(i)] + ItemsMeaning(rest) && WriteItems(items) == c[s..z]
  {
    hide *;
    ItemsAre(i, rest);
    CommaJoins(c, s, q, z);
  }

  lemma ItemTurnBack(c: Bytes, o: nat, depth: nat)
    requires Terminated(c) && o + 1 < |c| && ParseItems(c, o, depth).ParsedItems?
    ensures var r, value := ParseItems(c, o, depth), ParseValue(c, Skip(c, o + 1), depth);
      && value.Parsed?
      && var q := Skip(c, value.offset);
         if c[q] == COMMA then
           && q + 1 < |c| && ParseItems(c, q, depth).ParsedItems?
           && r == ParsedItems([value.value] + ParseItems(c, q, depth).items, ParseItems(c, q, depth).offset)
         else c[q] == CLOSE_BRACKET && r == ParsedItems([value.value], q)
  {
    hide ParseValue, Skip;
  }

  lemma {:induction false} ItemsBack(c: Bytes, o: nat, s: nat, depth: nat) returns (items: seq<Item>)
    requires Terminated(c) && o + 1 < |c| && s < |c| && Skip(c, s) == Skip(c, o + 1)
    requires ParseItems(c, o, depth).ParsedItems?
    ensures items != [] && GoodItems(items) && ItemsMeaning(items) == ParseItems(c, o, depth).items
    ensures s <= ParseItems(c, o, depth).offset < |c| && WriteItems(items) == c[s..ParseItems(c, o, depth).offset]
    decreases |c| - s, 4
  {
    hide *;
    ItemTurnBack(c, o, depth);
    var i, q := ItemBack(c, s, depth);
    if c[q] == COMMA {
      var rest := ItemsBack(c, q, q + 1, depth);
      items := [i] + rest;
      MoreItemsAre(c, s, q, ParseItems(c, q, depth).offset, i, rest);
    } else {
      items := [i];
      OneItemIs(i);
    }
  }

  lemma CommaJoins(c: Bytes, s: nat, q: nat, z: nat)
    requires s <= q < q + 1 <= z <= |c| && c[q] == COMMA
    ensures c[s..q] + ([COMMA] + c[q + 1..z]) == c[s..z]
  {
  }

  lemma EnclosedBack(c: Bytes, o: nat, open: Byte, z: nat, close: Byte)
    requires o + 1 <= z < |c| && c[o] == open && c[z] == close
    ensures [open] + (c[o + 1..z] + [close]) == c[o..z + 1]
  {
  }

  lemma {:induction false} ArrayBack(c: Bytes, o: nat, depth: nat) returns (x: Syntax)
    requires Terminated(c) && o < |c| && c[o] == OPEN_BRACKET && ParseArray(c, o, depth).Parsed?
    ensures Good(x) && Meaning(x) == ParseArray(c, o, depth).value && Write(x) == c[o..ParseArray(c, o, depth).offset]
    decreases |c| - o, 1
  {
    hide *;
    ArrayParts(c, o, depth);
    var v := Skip(c, o + 1);
    SkippedBlank(c, o + 1);
    if c[v] == CLOSE_BRACKET {
      EmptyListIs(c[o + 1..v]);
      EnclosedBack(c, o, OPEN_BRACKET, v, CLOSE_BRACKET);
      x := List(c[o + 1..v], []);
    } else {
      var items := ItemsBack(c, v - 1, o + 1, depth + 1);
      ListIs(items);
      EnclosedBack(c, o, OPEN_BRACKET, ParseItems(c, v - 1, depth + 1).offset, CLOSE_BRACKET);
      x := List([], items);
    }
  }

  lemma ArrayParts(c: Bytes, o: nat, depth: nat)
    requires Terminated(c) && o < |c| && c[o] == OPEN_BRACKET && ParseArray(c, o, depth).Parsed?
    ensures o + 1 < |c|
    ensures var v := Skip(c, o + 1);
      if c[v] == CLOSE_BRACKET then ParseArray(c, o, depth) == Parsed(Array([]), v + 1)
      else
        var r := ParseItems(c, v - 1, depth + 1);
        && r.ParsedItems? && ParseArray(c, o, depth) == Parsed(Array(r.items), r.offset + 1)
        && r.offset < |c| && c[r.offset] == CLOSE_BRACKET
  {
    hide ParseItems, Skip;
  }

  lemma {:induction false} EmptyListIs(blank: Bytes)
    requires Blank(blank)
    ensures var x := List(blank, []);
      Good(x) && Meaning(x) == Array([]) && Write(x) == [OPEN_BRACKET] + (blank + [CLOSE_BRACKET])
  {
  }

  lemma {:induction false} ListIs(items: seq<Item>)
    requires items != [] && GoodItems(items)
    ensures var x := List([], items);
      && Good(x) && Meaning(x) == Array(ItemsMeaning(items))
      && Write(x) == [OPEN_BRACKET] + (WriteItems(items) + [CLOSE_BRACKET])
  {
    hide ItemsMeaning, WriteItems;
  }

  // ----- members -----------------------------------------------------------------------------------------

  lemma MemberBack(c: Bytes, k: nat, depth: nat)
    requires Terminated(c) && k < |c| && ParseMember(c, k, depth).ParsedMember?
    ensures ParseString(c, k).ParsedString? && ParseString(c, k).offset < |c|
    ensures var colon := Skip(c, ParseString(c, k).offset);
      && c[colon] == COLON && colon + 1 < |c| && ParseValue(c, Skip(c, colon + 1), depth).Parsed?
      && var value := ParseValue(c, Skip(c, colon + 1), depth);
         ParseMember(c, k, depth) == ParsedMember(Member(ParseString(c, k).bytes, value.value), value.offset)
  {
    hide ParseString, ParseValue, Skip;
  }

  /** A key between blanks, its colon and its value between blanks. */
  lemma {:induction false} EntryBack(c: Bytes, s: nat, depth: nat) returns (e: Entry, q: nat)
    requires Terminated(c) && s < |c| && ParseMember(c, Skip(c, s), depth).ParsedMember?
    ensures GoodEntry(e) && EntryMeaning(e) == ParseMember(c, Skip(c, s), depth).member
    ensures s < q == Skip(c, ParseMember(c, Skip(c, s), depth).offset) < |c| && WriteEntry(e) == c[s..q]
    decreases |c| - s, 4
  {
    hide *;
    var k := Skip(c, s);
    MemberBack(c, k, depth);
    SkippedBlank(c, s);
    var content, pieces, l, colon := KeyBack(c, k);
    var i;
    i, q := ItemBack(c, colon + 1, depth);
    e := Entry(c[s..k], content, pieces, c[l..colon], i);
    EntryIs(e);
    EntryJoins(c, s, k, l, colon, q);
  }

  lemma KeyBack(c: Bytes, k: nat) returns (content: Bytes, pieces: seq<Piece>, l: nat, colon: nat)
    requires k < |c| && ParseString(c, k).ParsedString? && ParseString(c, k).offset < |c|
    ensures GoodPieces(pieces) && GoodLiteral(content, pieces) && PiecesValue(pieces) == ParseString(c, k).bytes
    ensures k < l == ParseString(c, k).offset <= colon == Skip(c, l) < |c|
    ensures WriteLiteral(content) == c[k..l] && Blank(c[l..colon])
  {
    hide *;
    content, pieces := LiteralBack(c, k);
    SliceOccurs(c, k, WriteLiteral(content));
    l := ParseString(c, k).offset;
    colon := Skip(c, l);
    SkippedBlank(c, l);
  }

  lemma EntryJoins(c: Bytes, s: nat, k: nat, l: nat, colon: nat, q: nat)
    requires s <= k <= l <= colon < colon + 1 <= q <= |c| && c[colon] == COLON
    ensures c[s..k] + (c[k..l] + (c[l..colon] + ([COLON] + c[colon + 1..q]))) == c[s..q]
  {
    assert [COLON] + c[colon + 1..q] == c[colon..q];
    SliceJoin(c, l, colon, q);
    SliceJoin(c, k, l, q);
    SliceJoin(c, s, k, q);
  }

  lemma {:induction false} EntryIs(e: Entry)
    requires Blank(e.before) && GoodLiteral(e.content, e.pieces) && GoodPieces(e.pieces) && Blank(e.beforeColon)
    requires GoodItem(e.item)
    ensures GoodEntry(e) && EntryMeaning(e) == Member(PiecesValue(e.pieces), ItemMeaning(e.item))
    ensures WriteEntry(e)
         == e.before + (WriteLiteral(e.content) + (e.beforeColon + ([COLON] + WriteItem(e.item))))
  {
    hide Good, GoodItem, GoodLiteral, ItemMeaning, WriteItem, WriteLiteral, PiecesValue;
  }

  lemma {:induction false} OneEntryIs(e: Entry)
    requires GoodEntry(e)
    ensures GoodEntries([e]) && EntriesMeaning([e]) == [EntryMeaning(e)] && WriteEntries([e]) == WriteEntry(e)
  {
    FirstEntry([e]);
    hide GoodEntry, EntryMeaning, WriteEntry;
  }

  lemma {:induction false} EntriesAre(e: Entry, rest: seq<Entry>)
    requires GoodEntry(e) && GoodEntries(rest) && rest != []
    ensures var entries := [e] + rest;
      && GoodEntries(entries) && EntriesMeaning(entries) == [EntryMeaning(e)] + EntriesMeaning(rest)
      && WriteEntries(entries) == WriteEntry(e) + ([COMMA] + WriteEntries(rest))
  {
    var entries := [e] + rest;
    assert entries[1..] == rest;
    hide GoodEntry, EntryMeaning, WriteEntry;
  }

  lemma {:induction false} MoreEntriesAre(c: Bytes, s: nat, q: nat, z: nat, e: Entry, rest: seq<Entry>)
    requires GoodEntry(e) && GoodEntries(rest) && rest != [] && s <= q < q + 1 <= z <= |c| && c[q] == COMMA
    requires WriteEntry(e) == c[s..q] && WriteEntries(rest) == c[q + 1..z]
    ensures var entries := [e] + rest;
      && GoodEntries(entries) && EntriesMeaning(entries) == [EntryMeaning(e)] + EntriesMeaning(rest)
      && WriteEntries(entries) == c[s..z]
  {
    hide *;
    EntriesAre(e, rest);
    CommaJoins(c, s, q, z);
  }

  lemma MemberTurnBack(c: Bytes, o: nat, depth: nat)
    requires Terminated(c) && o + 1 < |c| && ParseMembers(c, o, depth).ParsedMembers?
    ensures var r, m := ParseMembers(c, o, depth), ParseMember(c, Skip(c, o + 1), depth);
      && m.ParsedMember?
      && var q := Skip(c, m.offset);
         if c[q] == COMMA then
           && q + 1 < |c| && ParseMembers(c, q, depth).ParsedMembers?
           && r == ParsedMembers([m.member] + ParseMembers(c, q, depth).members, ParseMembers(c, q, depth).offset)
         else c[q] == CLOSE_BRACE && r == ParsedMembers([m.member], q)
  {
    hide ParseMember, Skip;
  }

  lemma {:induction false} EntriesBack(c: Bytes, o: nat, s: nat, depth: nat) returns (entries: seq<Entry>)
    requires Terminated(c) && o + 1 < |c| && s < |c| && Skip(c, s) == Skip(c, o + 1)
    requires ParseMembers(c, o, depth).ParsedMembers?
    ensures entries != [] && GoodEntries(entries) && EntriesMeaning(entries) == ParseMembers(c, o, depth).members
    ensures s <= ParseMembers(c, o, depth).offset < |c|
    ensures WriteEntries(entries) == c[s..ParseMembers(c, o, depth).offset]
    decreases |c| - s, 5
  {
    hide *;
    MemberTurnBack(c, o, depth);
    var e, q := EntryBack(c, s, depth);
    if c[q] == COMMA {
      var rest := EntriesBack(c, q, q + 1, depth);
      entries := [e] + rest;
      MoreEntriesAre(c, s, q, ParseMembers(c, q, depth).offset, e, rest);
    } else {
      entries := [e];
      OneEntryIs(e);
    }
  }

  lemma {:induction false} ObjectBack(c: Bytes, o: nat, depth: nat) returns (x: Syntax)
    requires Terminated(c) && o < |c| && c[o] == OPEN_BRACE && ParseObject(c, o, depth).Parsed?
    ensures Good(x) && Meaning(x) == ParseObject(c, o, depth).value && Write(x) == c[o..ParseObject(c, o, depth).offset]
    decreases |c| - o, 1
  {
    hide *;
    ObjectParts(c, o, depth);
    var v := Skip(c, o + 1);
    SkippedBlank(c, o + 1);
    if c[v] == CLOSE_BRACE {
      EmptyDictIs(c[o + 1..v]);
      EnclosedBack(c, o, OPEN_BRACE, v, CLOSE_BRACE);
      x := Dict(c[o + 1..v], []);
    } else {
      var entries := EntriesBack(c, v - 1, o + 1, depth + 1);
      DictIs(entries);
      EnclosedBack(c, o, OPEN_BRACE, ParseMembers(c, v - 1, depth + 1).offset, CLOSE_BRACE);
      x := Dict([], entries);
    }
  }

  lemma ObjectParts(c: Bytes, o: nat, depth: nat)
    requires Terminated(c) && o < |c| && c[o] == OPEN_BRACE && ParseObject(c, o, depth).Parsed?
    ensures o + 1 < |c|
    ensures var v := Skip(c, o + 1);
      if c[v] == CLOSE_BRACE then ParseObject(c, o, depth) == Parsed(Object([]), v + 1)
      else
        var r := ParseMembers(c, v - 1, depth + 1);
        && r.ParsedMembers? && ParseObject(c, o, depth) == Parsed(Object(r.members), r.offset + 1)
        && r.offset < |c| && c[r.offset] == CLOSE_BRACE
  {
    hide ParseMembers, Skip;
  }

  lemma {:induction false} EmptyDictIs(blank: Bytes)
    requires Blank(blank)
    ensures var x := Dict(blank, []);
      Good(x) && Meaning(x) == Object([]) && Write(x) == [OPEN_BRACE] + (blank + [CLOSE_BRACE])
  {
  }

  lemma {:induction false} DictIs(entries: seq<Entry>)
    requires entries != [] && GoodEntries(entries)
    ensures var x := Dict([], entries);
      && Good(x) && Meaning(x) == Object(EntriesMeaning(entries))
      && Write(x) == [OPEN_BRACE] + (WriteEntries(entries) + [CLOSE_BRACE])
  {
    hide EntriesMeaning, WriteEntries;
  }

  // ----- values ------------------------------------------------------------------------------------------

  /** Whatever is read as a value is written by the syntax, and means what it is read as. */
  lemma {:induction false} ValueBack(c: Bytes, o: nat, depth: nat) returns (x: Syntax)
    requires Terminated(c) && o < |c| && ParseValue(c, o, depth).Parsed?
    ensures Good(x) && Meaning(x) == ParseValue(c, o, depth).value && Write(x) == c[o..ParseValue(c, o, depth).offset]
    decreases |c| - o, 2
  {
    hide ParseString, ParseArray, ParseObject, ParseNumber, StartsWith, GoodLiteral, PiecesValue, WriteLiteral;
    if StartsWith(c, o, NULL_TEXT) || StartsWith(c, o, FALSE_TEXT) || StartsWith(c, o, TRUE_TEXT) {
      x := WordBack(c, o, depth);
    } else if c[o] == QUOTE {
      var content, ps := LiteralBack(c, o);
      SliceOccurs(c, o, WriteLiteral(content));
      x := TextIs(content, ps);
    } else if c[o] == MINUS || IsDigit(c[o]) {
      x := NumberBack(c, o);
    } else if c[o] == OPEN_BRACKET {
      x := ArrayBack(c, o, depth);
    } else {
      x := ObjectBack(c, o, depth);
    }
  }

  lemma WordBack(c: Bytes, o: nat, depth: nat) returns (x: Syntax)
    requires Terminated(c) && o < |c|
    requires StartsWith(c, o, NULL_TEXT) || StartsWith(c, o, FALSE_TEXT) || StartsWith(c, o, TRUE_TEXT)
    ensures ParseValue(c, o, depth).Parsed? && Good(x) && Meaning(x) == ParseValue(c, o, depth).value
    ensures Write(x) == c[o..ParseValue(c, o, depth).offset]
  {
    x := if StartsWith(c, o, NULL_TEXT) then NullWord
         else if StartsWith(c, o, FALSE_TEXT) then FalseWord else TrueWord;
  }

  lemma TextIs(content: Bytes, ps: seq<Piece>) returns (x: Syntax)
    requires GoodLiteral(content, ps) && GoodPieces(ps)
    ensures Good(x) && Meaning(x) == String(PiecesValue(ps)) && Write(x) == WriteLiteral(content)
  {
    x := Text(content, ps);
    hide GoodLiteral, PiecesValue, WriteLiteral;
  }

  // ----- whole texts -------------------------------------------------------------------------------------

  /** A byte order mark or none, a value between blanks, and what is left. */
  predicate Spelling(c: Bytes, mark: Bytes, before: Bytes, x: Syntax, rest: Bytes) {
    && (mark == [] || mark == [0xEF, 0xBB, 0xBF]) && Blank(before) && Good(x)
    && c == mark + (before + (Write(x) + rest))
  }

  /** The text, up to its NUL, is a value between blanks. */
  ghost predicate SpellsTree(c: Bytes, t: Json) {
    exists mark, before, x, after ::
      Spelling(c, mark, before, x, after + [0]) && Blank(after) && Meaning(x) == t
  }

  lemma MarkSeen(c: Bytes)
    requires Terminated(c)
    ensures var o := if |c| > 4 && StartsWith(c, 0, BOM) then 3 else 0;
      o < |c| && TextStart(c) == Skip(c, o) && (c[..o] == [] || c[..o] == [0xEF, 0xBB, 0xBF])
  {
    hide Skip;
  }

  /** The mark is passed if there is one, and nothing else is taken for one. */
  lemma MarkRead(c: Bytes, mark: Bytes, before: Bytes, x: Syntax, rest: Bytes)
    requires Terminated(c) && Spelling(c, mark, before, x, rest) && rest != []
    ensures |mark| < |c| && TextStart(c) == Skip(c, |mark|) && c[|mark|..] == before + (Write(x) + rest)
  {
    ValueStart(x);
    hide Write, Good, Skip;
    var text := before + (Write(x) + rest);
    assert c[|mark|..] == text;
    if mark == [] {
      StartByte(c, 0, BOM);
      assert c[0] == if before == [] then Write(x)[0] else before[0];
    } else {
      assert c[..3] == BOM;
    }
  }

  /** Behind the mark and the blanks stands the value. */
  lemma ValueStands(c: Bytes, mark: Bytes, before: Bytes, x: Syntax, rest: Bytes) returns (v: nat)
    requires Terminated(c) && Spelling(c, mark, before, x, rest) && rest != []
    ensures v < v + |Write(x)| == |c| - |rest| < |c| && TextStart(c) == v
    ensures Occurs(c, v, Write(x)) && c[v + |Write(x)|..] == rest
  {
    hide *;
    MarkRead(c, mark, before, x, rest);
    SpellingSize(c, mark, before, x, rest);
    ValueStart(x);
    v := PartsStand(c, |mark|, before, Write(x), rest);
  }

  lemma PartsStand(c: Bytes, o: nat, before: Bytes, w: Bytes, rest: Bytes) returns (v: nat)
    requires o <= |c| && c[o..] == before + (w + rest) && Blank(before) && w != [] && w[0] > 32
    ensures o < |c| && v == o + |before| == Skip(c, o) && v + |w| == |c| - |rest|
    ensures Occurs(c, v, w) && c[v + |w|..] == rest
  {
    v := o + |before|;
    hide Skip;
    assert |c[o..]| == |before| + |w| + |rest|;
    assert Occurs(c, o, before + (w + rest));
    assert (w + rest)[0] == w[0];
    SkipText(c, o, before, w + rest);
    OccursParts(c, o, before, w + rest);
    OccursParts(c, v, w, rest);
    SliceOccurs(c, v + |w|, rest);
    assert c[v + |w|..] == c[v + |w|..v + |w| + |rest|];
  }

  lemma SpellingSize(c: Bytes, mark: Bytes, before: Bytes, x: Syntax, rest: Bytes)
    requires Spelling(c, mark, before, x, rest)
    ensures |c| == |mark| + |before| + |Write(x)| + |rest| && Blank(before) && Good(x)
  {
    hide Write, Good;
  }

  /** With nothing but blanks up to the NUL, skipping ends at the NUL. */
  lemma {:induction false} SkipToEnd(c: Bytes, o: nat)
    requires o < |c| && Blank(c[o..])
    ensures Skip(c, o) == |c| - 1
    decreases |c| - o
  {
    if o + 1 < |c| {
      assert c[o] == c[o..][0] && c[o + 1..] == c[o..][1..];
      SkipToEnd(c, o + 1);
    }
  }

  /** A text that spells a value within the nesting limit is read as what it means, whatever follows, unless a number
      goes on; and to the end, if only blanks follow. */
  lemma TextRead(c: Bytes, mark: Bytes, before: Bytes, x: Syntax, rest: Bytes)
    requires Terminated(c) && Spelling(c, mark, before, x, rest) && rest != [] && (x.Num? ==> !InNumber(rest[0]))
    requires Height(Meaning(x)) <= NESTING_LIMIT
    ensures ParseText(c, false) == Parsed(Meaning(x), |c| - |rest|)
    ensures Blank(rest) ==> ParseText(c, true) == Parsed(Meaning(x), |c| - 1)
  {
    hide *;
    var v := ValueStands(c, mark, before, x, rest);
    var e := |c| - |rest|;
    SpellingSize(c, mark, before, x, rest);
    assert c[e] == c[e..][0] == rest[0];
    ValueRead(c, v, x, 0);
    TextParts(c, v, Meaning(x), e);
    if Blank(rest) { SkipToEnd(c, e); }
  }

  lemma TextParts(c: Bytes, v: nat, value: Json, e: nat)
    requires Terminated(c) && e < |c| && TextStart(c) == v && ParseValue(c, v, 0) == Parsed(value, e)
    ensures ParseText(c, false) == Parsed(value, e)
    ensures Skip(c, e) == |c| - 1 ==> ParseText(c, true) == Parsed(value, |c| - 1)
  {
    hide ParseValue, TextStart, Skip;
  }

  /** A text that spells a value is refused exactly if the value is nested too deeply. */
  lemma RefusedExactly(c: Bytes, mark: Bytes, before: Bytes, x: Syntax, rest: Bytes)
    requires Terminated(c) && Spelling(c, mark, before, x, rest) && rest != [] && (x.Num? ==> !InNumber(rest[0]))
    ensures ParseText(c, false).Failed? <==> Height(Meaning(x)) > NESTING_LIMIT
    ensures Blank(rest) ==> (ParseText(c, true).Failed? <==> Height(Meaning(x)) > NESTING_LIMIT)
  {
    hide *;
    SpellingSize(c, mark, before, x, rest);
    if Height(Meaning(x)) > NESTING_LIMIT {
      TextTooDeep(c, mark, before, x, rest);
    } else {
      TextRead(c, mark, before, x, rest);
    }
  }

  lemma TextTooDeep(c: Bytes, mark: Bytes, before: Bytes, x: Syntax, rest: Bytes)
    requires Terminated(c) && Spelling(c, mark, before, x, rest) && rest != []
    requires Height(Meaning(x)) > NESTING_LIMIT
    ensures ParseText(c, false).Failed? && ParseText(c, true).Failed?
  {
    SpellingSize(c, mark, before, x, rest);
    hide Height, Spelling, Good, Meaning, Write, ParseValue, TextStart;
    var v := ValueStands(c, mark, before, x, rest);
    ValueTooDeep(c, v, x, 0);
  }

  /** Whatever is read off a text is spelled there, and nothing more is consumed. */
  lemma TextBack(c: Bytes) returns (mark: Bytes, before: Bytes, x: Syntax, rest: Bytes)
    requires Terminated(c) && ParseText(c, false).Parsed?
    ensures Spelling(c, mark, before, x, rest) && ParseText(c, false) == Parsed(Meaning(x), |c| - |rest|)
    ensures rest == c[ParseText(c, false).offset..] && rest != []
  {
    hide *;
    MarkSeen(c);
    var o := if |c| > 4 && StartsWith(c, 0, BOM) then 3 else 0;
    var v := TextStart(c);
    SkippedBlank(c, o);
    ValueRead0(c);
    x := ValueBack(c, v, 0);
    var e := ParseValue(c, v, 0).offset;
    mark, before, rest := c[..o], c[o..v], c[e..];
    IsSpelling(c, o, v, e, x);
  }

  lemma ValueRead0(c: Bytes)
    requires Terminated(c)
    ensures ParseText(c, false).Parsed? <==> ParseValue(c, TextStart(c), 0).Parsed?
    ensures ParseText(c, false).Parsed? ==> ParseText(c, false) == ParseValue(c, TextStart(c), 0)
  {
    hide ParseValue, TextStart, Skip;
  }

  lemma IsSpelling(c: Bytes, o: nat, v: nat, e: nat, x: Syntax)
    requires o <= v <= e <= |c| && (c[..o] == [] || c[..o] == [0xEF, 0xBB, 0xBF]) && Blank(c[o..v])
    requires Good(x) && Write(x) == c[v..e]
    ensures Spelling(c, c[..o], c[o..v], x, c[e..])
  {
    hide Good, Write;
    SliceJoin(c, v, e, |c|);
    SliceJoin(c, o, v, |c|);
    assert c[e..] == c[e..|c|] && c == c[..o] + c[o..|c|];
  }

  /** Whatever is read to the end of a text is spelled by it. */
  lemma ReadSpells(c: Bytes)
    requires Terminated(c) && ParseText(c, true).Parsed?
    ensures SpellsTree(c, ParseText(c, true).value) && Height(ParseText(c, true).value) <= NESTING_LIMIT
  {
    hide *;
    ReadToEnd(c);
    ValueRead0(c);
    ParsedHeight(c, TextStart(c), 0);
    var mark, before, x, rest := TextBack(c);
    SpellingSize(c, mark, before, x, rest);
    LastIsNul(c, |c| - |rest|);
    var after := c[ParseText(c, false).offset..|c| - 1];
    SpellsBy(c, mark, before, x, after);
  }

  lemma LastIsNul(c: Bytes, e: nat)
    requires Terminated(c) && e < |c|
    ensures c[e..] == c[e..|c| - 1] + [0]
  {
  }

  lemma SpellsBy(c: Bytes, mark: Bytes, before: Bytes, x: Syntax, after: Bytes)
    requires Spelling(c, mark, before, x, after + [0]) && Blank(after) && Good(x)
    ensures SpellsTree(c, Meaning(x))
  {
    hide Spelling, Blank, Good, Meaning;
  }

  /** A text is read to its end exactly as the trees within the nesting limit that it spells. */
  lemma TextExactly(c: Bytes, t: Json)
    requires Terminated(c)
    ensures ParseText(c, true) == Parsed(t, |c| - 1) <==> SpellsTree(c, t) && Height(t) <= NESTING_LIMIT
    ensures ParseText(c, true).Parsed? ==> ParseText(c, true).offset == |c| - 1
  {
    ReadToEnd(c);
    if SpellsTree(c, t) && Height(t) <= NESTING_LIMIT {
      hide ParseText, Spelling, Blank, Good, Meaning, Height, InNumber, Terminated;
      var mark, before, x, after :| Spelling(c, mark, before, x, after + [0]) && Blank(after) && Meaning(x) == t;
      AfterBlank(after);
      TextRead(c, mark, before, x, after + [0]);
    } else if ParseText(c, true).Parsed? {
      hide *;
      ReadSpells(c);
    }
  }

  lemma AfterBlank(after: Bytes)
    requires Blank(after)
    ensures Blank(after + [0]) && !InNumber((after + [0])[0])
  {
  }

  lemma ReadToEnd(c: Bytes)
    requires Terminated(c)
    ensures ParseText(c, true).Parsed? ==>
              && ParseText(c, false).Parsed? && ParseText(c, false).value == ParseText(c, true).value
              && ParseText(c, true).offset == |c| - 1 && Blank(c[ParseText(c, false).offset..|c| - 1])
  {
    hide ParseValue, Skip, TextStart;
    var r := ParseValue(c, TextStart(c), 0);
    if r.Parsed? { SkippedBlank(c, r.offset); }
  }
}
