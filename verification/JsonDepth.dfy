/** The nesting limit: what is nested within it is never refused for its depth, what is nested more deeply always is. */
module JsonDepth {
  import opened JsonText
  import opened JsonGrammar
  import opened JsonSyntax
  import opened JsonStrings
  import opened JsonSpelling

  // ----- what is read is not too deep ----------------------------------------------------------------------

  /** No tree that the parser builds is nested more deeply than the limit. */
  lemma {:induction false} ParsedHeight(c: Bytes, o: nat, depth: nat)
    requires Terminated(c) && o < |c| && depth <= NESTING_LIMIT
    ensures var r := ParseValue(c, o, depth); r.Parsed? ==> depth + Height(r.value) <= NESTING_LIMIT
    decreases |c| - o, 2
  {
    hide StartsWith, ParseString, ParseArray, ParseObject;
    if c[o] == OPEN_BRACKET {
      ParsedArrayHeight(c, o, depth);
    } else if c[o] == OPEN_BRACE {
      ParsedObjectHeight(c, o, depth);
    }
  }

  lemma {:induction false} ParsedArrayHeight(c: Bytes, o: nat, depth: nat)
    requires Terminated(c) && o < |c| && c[o] == OPEN_BRACKET && depth <= NESTING_LIMIT
    ensures var r := ParseArray(c, o, depth); r.Parsed? ==> depth + Height(r.value) <= NESTING_LIMIT
    decreases |c| - o, 1
  {
    hide ParseItems, Skip;
    var p := Skip(c, o + 1);
    if depth < NESTING_LIMIT && c[p] != CLOSE_BRACKET {
      ParsedItemsHeight(c, p - 1, depth + 1);
    }
  }

  lemma {:induction false} ParsedObjectHeight(c: Bytes, o: nat, depth: nat)
    requires Terminated(c) && o < |c| && c[o] == OPEN_BRACE && depth <= NESTING_LIMIT
    ensures var r := ParseObject(c, o, depth); r.Parsed? ==> depth + Height(r.value) <= NESTING_LIMIT
    decreases |c| - o, 1
  {
    hide ParseMembers, Skip;
    var p := Skip(c, o + 1);
    if depth < NESTING_LIMIT && c[p] != CLOSE_BRACE {
      ParsedMembersHeight(c, p - 1, depth + 1);
    }
  }

  lemma {:induction false} ParsedItemsHeight(c: Bytes, o: nat, depth: nat)
    requires Terminated(c) && o + 1 < |c| && depth <= NESTING_LIMIT
    ensures var r := ParseItems(c, o, depth); r.ParsedItems? ==> depth + ItemsHeight(r.items) <= NESTING_LIMIT
    decreases |c| - o, 0
  {
    hide ParseValue, Skip, Height;
    var p := Skip(c, o + 1);
    ParsedHeight(c, p, depth);
    if ParseValue(c, p, depth).Parsed? {
      var e := Skip(c, ParseValue(c, p, depth).offset);
      if c[e] == COMMA { ParsedItemsHeight(c, e, depth); }
    }
  }

  lemma {:induction false} ParsedMembersHeight(c: Bytes, o: nat, depth: nat)
    requires Terminated(c) && o + 1 < |c| && depth <= NESTING_LIMIT
    ensures var r := ParseMembers(c, o, depth);
      r.ParsedMembers? ==> depth + MembersHeight(r.members) <= NESTING_LIMIT
    decreases |c| - o, 0
  {
    hide ParseMember, Skip, Height;
    var p := Skip(c, o + 1);
    ParsedMemberHeight(c, p, depth);
    if ParseMember(c, p, depth).ParsedMember? {
      var e := Skip(c, ParseMember(c, p, depth).offset);
      if c[e] == COMMA { ParsedMembersHeight(c, e, depth); }
    }
  }

  lemma {:induction false} ParsedMemberHeight(c: Bytes, o: nat, depth: nat)
    requires Terminated(c) && o < |c| && depth <= NESTING_LIMIT
    ensures var r := ParseMember(c, o, depth);
      r.ParsedMember? ==> depth + Height(r.member.value) <= NESTING_LIMIT
    decreases |c| - o, 3
  {
    hide ParseValue, Skip, Height;
    var k := ParseString(c, o);
    if k.ParsedString? {
      var e := Skip(c, k.offset);
      if c[e] == COLON { ParsedHeight(c, Skip(c, e + 1), depth); }
    }
  }

  // ----- failures go up ------------------------------------------------------------------------------------

  lemma ItemsFail(c: Bytes, o: nat, depth: nat)
    requires Terminated(c) && o + 1 < |c| && ParseValue(c, Skip(c, o + 1), depth).Failed?
    ensures ParseItems(c, o, depth).FailedItems?
  {
    hide ParseValue, Skip;
  }

  lemma LaterItemsFail(c: Bytes, o: nat, v: nat, depth: nat, value: Json, e: nat, q: nat)
    requires Terminated(c) && o + 1 < |c| && Skip(c, o + 1) == v && e < |c|
    requires ParseValue(c, v, depth) == Parsed(value, e) && Skip(c, e) == q && c[q] == COMMA
    requires q + 1 < |c| && ParseItems(c, q, depth).FailedItems?
    ensures ParseItems(c, o, depth).FailedItems?
  {
    hide ParseValue, Skip;
  }

  lemma ArrayFails(c: Bytes, o: nat, depth: nat)
    requires Terminated(c) && o < |c| && c[o] == OPEN_BRACKET
    requires depth >= NESTING_LIMIT ||
             var p := Skip(c, o + 1); c[p] != CLOSE_BRACKET && ParseItems(c, p - 1, depth + 1).FailedItems?
    ensures ParseArray(c, o, depth).Failed?
  {
    hide ParseItems, Skip;
  }

  lemma MemberFails(c: Bytes, k: nat, depth: nat, key: Bytes, colon: nat)
    requires Terminated(c) && k < |c| && colon + 1 < |c| && KeyAt(c, k, key, colon)
    requires ParseValue(c, Skip(c, colon + 1), depth).Failed?
    ensures ParseMember(c, k, depth).FailedMember?
  {
    hide ParseString, ParseValue, Skip;
  }

  lemma MembersFail(c: Bytes, o: nat, depth: nat)
    requires Terminated(c) && o + 1 < |c| && ParseMember(c, Skip(c, o + 1), depth).FailedMember?
    ensures ParseMembers(c, o, depth).FailedMembers?
  {
    hide ParseMember, Skip;
  }

  lemma LaterMembersFail(c: Bytes, o: nat, k: nat, depth: nat, m: Member, e: nat, q: nat)
    requires Terminated(c) && o + 1 < |c| && Skip(c, o + 1) == k && e < |c|
    requires ParseMember(c, k, depth) == ParsedMember(m, e) && Skip(c, e) == q && c[q] == COMMA
    requires q + 1 < |c| && ParseMembers(c, q, depth).FailedMembers?
    ensures ParseMembers(c, o, depth).FailedMembers?
  {
    hide ParseMember, Skip;
  }

  lemma ObjectFails(c: Bytes, o: nat, depth: nat)
    requires Terminated(c) && o < |c| && c[o] == OPEN_BRACE
    requires depth >= NESTING_LIMIT ||
             var p := Skip(c, o + 1); c[p] != CLOSE_BRACE && ParseMembers(c, p - 1, depth + 1).FailedMembers?
    ensures ParseObject(c, o, depth).Failed?
  {
    hide ParseMembers, Skip;
  }

  // ----- what is too deep is refused -------------------------------------------------------------------------

  lemma {:induction false} ItemTooDeep(c: Bytes, s: nat, q: nat, x: Item, b: Byte, depth: nat)
    requires Terminated(c) && GoodItem(x) && Stop(b) && Spans(c, s, q, WriteItem(x), b)
    requires depth <= NESTING_LIMIT < depth + Height(ItemMeaning(x))
    ensures s < |c| && ParseValue(c, Skip(c, s), depth).Failed?
    decreases x, 2
  {
    hide *;
    ItemParts(x);
    var v, e := ItemText(c, s, q, x, b);
    ValueTooDeep(c, v, x.value, depth);
  }

  lemma {:induction false} EntryTooDeep(c: Bytes, s: nat, q: nat, x: Entry, b: Byte, depth: nat)
    requires Terminated(c) && GoodEntry(x) && Stop(b) && Spans(c, s, q, WriteEntry(x), b)
    requires depth <= NESTING_LIMIT < depth + Height(EntryMeaning(x).value)
    ensures s < |c| && ParseMember(c, Skip(c, s), depth).FailedMember?
    decreases x, 3
  {
    hide *;
    EntryParts(x);
    StopVisible(b);
    var k, colon := KeyRead(c, s, q, x, b);
    ItemTooDeep(c, colon + 1, q, x.item, b, depth);
    MemberFails(c, k, depth, KeyMeaning(x), colon);
  }

  lemma {:induction false} FirstItemTooDeep(c: Bytes, s: nat, z: nat, items: seq<Item>, depth: nat)
    requires Terminated(c) && items != [] && GoodItem(items[0]) && Spans(c, s, z, WriteItems(items), CLOSE_BRACKET)
    requires depth <= NESTING_LIMIT < depth + Height(ItemMeaning(items[0]))
    ensures s < |c| && ParseValue(c, Skip(c, s), depth).Failed?
    decreases items, 0
  {
    hide *;
    Stops();
    if |items| == 1 {
      OneItem(items);
      ItemTooDeep(c, s, z, items[0], CLOSE_BRACKET, depth);
    } else {
      var q := MoreItems(c, s, z, items, CLOSE_BRACKET);
      ItemTooDeep(c, s, q, items[0], COMMA, depth);
    }
  }

  lemma {:induction false} ItemsTooDeep(c: Bytes, o: nat, s: nat, z: nat, items: seq<Item>, depth: nat)
    requires Terminated(c) && o + 1 < |c| && s < |c| && items != [] && GoodItems(items)
    requires Spans(c, s, z, WriteItems(items), CLOSE_BRACKET) && Skip(c, o + 1) == Skip(c, s)
    requires depth <= NESTING_LIMIT < depth + ItemsHeight(ItemsMeaning(items))
    ensures ParseItems(c, o, depth).FailedItems?
    decreases items, 1
  {
    hide *;
    FirstItem(items);
    Stops();
    ItemsHigh(items);
    if depth + Height(ItemMeaning(items[0])) > NESTING_LIMIT {
      FirstItemTooDeep(c, s, z, items, depth);
      ItemsFail(c, o, depth);
    } else {
      var q := MoreItems(c, s, z, items, CLOSE_BRACKET);
      ItemsTooDeep(c, q, q + 1, z, items[1..], depth);
      var v, e := ItemRead(c, s, q, items[0], COMMA, depth);
      LaterItemsFail(c, o, v, depth, ItemMeaning(items[0]), e, q);
    }
  }

  /** The height is that of the first item or that of the others. */
  lemma {:induction false} ItemsHigh(items: seq<Item>)
    requires items != [] && GoodItems(items) && GoodItem(items[0]) && GoodItems(items[1..])
    ensures var h := ItemsHeight(ItemsMeaning(items));
      h == Height(ItemMeaning(items[0])) || (|items| > 1 && h == ItemsHeight(ItemsMeaning(items[1..])))
  {
    FirstItem(items);
    hide ItemMeaning, Height;
    if |items| == 1 { assert [ItemMeaning(items[0])][1..] == []; }
  }

  lemma {:induction false} FirstEntryTooDeep(c: Bytes, s: nat, z: nat, entries: seq<Entry>, depth: nat)
    requires Terminated(c) && entries != [] && GoodEntry(entries[0])
    requires Spans(c, s, z, WriteEntries(entries), CLOSE_BRACE)
    requires depth <= NESTING_LIMIT < depth + Height(EntryMeaning(entries[0]).value)
    ensures s < |c| && ParseMember(c, Skip(c, s), depth).FailedMember?
    decreases entries, 0
  {
    hide *;
    Stops();
    if |entries| == 1 {
      OneEntry(entries);
      EntryTooDeep(c, s, z, entries[0], CLOSE_BRACE, depth);
    } else {
      var q := MoreEntries(c, s, z, entries, CLOSE_BRACE);
      EntryTooDeep(c, s, q, entries[0], COMMA, depth);
    }
  }

  lemma {:induction false} EntriesTooDeep(c: Bytes, o: nat, s: nat, z: nat, entries: seq<Entry>, depth: nat)
    requires Terminated(c) && o + 1 < |c| && s < |c| && entries != [] && GoodEntries(entries)
    requires Spans(c, s, z, WriteEntries(entries), CLOSE_BRACE) && Skip(c, o + 1) == Skip(c, s)
    requires depth <= NESTING_LIMIT < depth + MembersHeight(EntriesMeaning(entries))
    ensures ParseMembers(c, o, depth).FailedMembers?
    decreases entries, 1
  {
    hide *;
    FirstEntry(entries);
    Stops();
    EntriesHigh(entries);
    if depth + Height(EntryMeaning(entries[0]).value) > NESTING_LIMIT {
      FirstEntryTooDeep(c, s, z, entries, depth);
      MembersFail(c, o, depth);
    } else {
      var q := MoreEntries(c, s, z, entries, CLOSE_BRACE);
      EntriesTooDeep(c, q, q + 1, z, entries[1..], depth);
      var k, e := EntryRead(c, s, q, entries[0], COMMA, depth);
      LaterMembersFail(c, o, k, depth, EntryMeaning(entries[0]), e, q);
    }
  }

  lemma {:induction false} EntriesHigh(entries: seq<Entry>)
    requires entries != [] && GoodEntries(entries) && GoodEntry(entries[0]) && GoodEntries(entries[1..])
    ensures var h := MembersHeight(EntriesMeaning(entries));
      || h == Height(EntryMeaning(entries[0]).value)
      || (|entries| > 1 && h == MembersHeight(EntriesMeaning(entries[1..])))
  {
    FirstEntry(entries);
    hide EntryMeaning, Height;
    if |entries| == 1 { assert [EntryMeaning(entries[0])][1..] == []; }
  }

  lemma {:induction false} ItemsHigher(items: seq<Item>)
    requires GoodItems(items)
    ensures ItemsHeight(ItemsMeaning(items)) > 0 ==> items != []
  {
    hide Height;
  }

  lemma {:induction false} ListInsideTooDeep(c: Bytes, o: nat, z: nat, items: seq<Item>, depth: nat)
    requires Terminated(c) && items != [] && GoodItems(items) && o + 1 < |c| && c[o] == OPEN_BRACKET
    requires Spans(c, o + 1, z, WriteItems(items), CLOSE_BRACKET)
    requires depth < NESTING_LIMIT < depth + 1 + ItemsHeight(ItemsMeaning(items))
    ensures ParseArray(c, o, depth).Failed?
    decreases items, 2
  {
    hide *;
    FirstItemStart(c, o + 1, z, items);
    SkipAgain(c, o + 1);
    ItemsTooDeep(c, Skip(c, o + 1) - 1, o + 1, z, items, depth + 1);
    ArrayFails(c, o, depth);
  }

  lemma {:induction false} ListTooDeep(c: Bytes, o: nat, blank: Bytes, items: seq<Item>, depth: nat)
    requires Terminated(c) && GoodItems(items) && Occurs(c, o, Write(List(blank, items)))
    requires depth <= NESTING_LIMIT < depth + 1 + ItemsHeight(ItemsMeaning(items))
    ensures o < |c| && c[o] == OPEN_BRACKET && ParseArray(c, o, depth).Failed?
    decreases items, 3
  {
    hide *;
    ListWritten(blank, items);
    if depth < NESTING_LIMIT {
      ItemsHigher(items);
      var z := Enclosed(c, o, OPEN_BRACKET, WriteItems(items), CLOSE_BRACKET);
      ListInsideTooDeep(c, o, z, items, depth);
    } else {
      OccursAt(c, o, Write(List(blank, items)), 0);
      ArrayFails(c, o, depth);
    }
  }

  lemma {:induction false} EntriesHigher(entries: seq<Entry>)
    requires GoodEntries(entries)
    ensures MembersHeight(EntriesMeaning(entries)) > 0 ==> entries != []
  {
    hide Height;
  }

  lemma {:induction false} DictInsideTooDeep(c: Bytes, o: nat, z: nat, entries: seq<Entry>, depth: nat)
    requires Terminated(c) && entries != [] && GoodEntries(entries) && o + 1 < |c| && c[o] == OPEN_BRACE
    requires Spans(c, o + 1, z, WriteEntries(entries), CLOSE_BRACE)
    requires depth < NESTING_LIMIT < depth + 1 + MembersHeight(EntriesMeaning(entries))
    ensures ParseObject(c, o, depth).Failed?
    decreases entries, 2
  {
    hide *;
    FirstEntryStart(c, o + 1, z, entries);
    SkipAgain(c, o + 1);
    EntriesTooDeep(c, Skip(c, o + 1) - 1, o + 1, z, entries, depth + 1);
    ObjectFails(c, o, depth);
  }

  lemma {:induction false} DictTooDeep(c: Bytes, o: nat, blank: Bytes, entries: seq<Entry>, depth: nat)
    requires Terminated(c) && GoodEntries(entries) && Occurs(c, o, Write(Dict(blank, entries)))
    requires depth <= NESTING_LIMIT < depth + 1 + MembersHeight(EntriesMeaning(entries))
    ensures o < |c| && c[o] == OPEN_BRACE && ParseObject(c, o, depth).Failed?
    decreases entries, 3
  {
    hide *;
    DictWritten(blank, entries);
    if depth < NESTING_LIMIT {
      EntriesHigher(entries);
      var z := Enclosed(c, o, OPEN_BRACE, WriteEntries(entries), CLOSE_BRACE);
      DictInsideTooDeep(c, o, z, entries, depth);
    } else {
      OccursAt(c, o, Write(Dict(blank, entries)), 0);
      ObjectFails(c, o, depth);
    }
  }

  /** Wherever a value is written that is nested too deeply for that place, with any blanks, parsing it fails. */
  lemma {:induction false} ValueTooDeep(c: Bytes, o: nat, x: Syntax, depth: nat)
    requires Terminated(c) && Good(x) && Occurs(c, o, Write(x))
    requires depth <= NESTING_LIMIT < depth + Height(Meaning(x))
    ensures o < |c| && ParseValue(c, o, depth).Failed?
    decreases x, 1
  {
    hide ParseValue, ParseString, ParseArray, ParseObject, Occurs, NumeralText, GoodLiteral, PiecesValue, WriteItems,
      WriteEntries, GoodItem, GoodEntry, ItemsHeight, MembersHeight;
    match x
    case List(blank, items) =>
      ListTooDeep(c, o, blank, items, depth);
      KindOfValue(c, o, depth);
    case Dict(blank, entries) =>
      DictTooDeep(c, o, blank, entries, depth);
      KindOfValue(c, o, depth);
    case _ =>
  }
}
