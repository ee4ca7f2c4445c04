/** What the printer writes: every tree in one of two layouts. */
module JsonLayout {
  import opened JsonText
  import opened JsonGrammar
  import opened JsonSyntax
  import opened JsonStrings
  import opened JsonSpelling
  import opened JsonReading
  import opened Options

  // ----- the layouts ---------------------------------------------------------------------------------------

  /** The control characters that have a two-character escape. */
  const CONTROL_ESCAPES: map<Byte, Byte> := map[0x08 := 0x62, 0x0C := 0x66, 0x0A := 0x6E, 0x0D := 0x72, 0x09 := 0x74]

  /** How a byte is printed: as it is, unless it is a quote, a backslash or a control character; with two characters
      if there is such an escape; otherwise with four hexadecimal digits, in lower case. */
  predicate Printed(p: Piece, b: Byte) {
    if b == 0x22 || b == 0x5C then p == Short(b)
    else if b in CONTROL_ESCAPES then p == Short(CONTROL_ESCAPES[b])
    else if b < 0x20 then
      && p.Character? && p.cp == b && |p.text| == 6
      && (forall k :: 2 <= k < 6 ==> 0x30 <= p.text[k] <= 0x39 || 0x61 <= p.text[k] <= 0x66)
    else p == Plain(b)
  }

  predicate PrintedString(content: Bytes, ps: seq<Piece>, s: Bytes) {
    && content == PiecesText(ps) && |ps| == |s|
    && forall i :: 0 <= i < |s| ==> Printed(ps[i], s[i])
  }

  /** A line break and tabs in formatted text, nothing in unformatted text. */
  predicate Line(blank: Bytes, fmt: bool, tabs: nat) {
    if fmt then |blank| == 1 + tabs && blank[0] == 0x0A && forall i :: 1 <= i <= tabs ==> blank[i] == 0x09
    else blank == []
  }

  /** Unformatted, a tree has no blanks outside its strings.  Formatted, items follow one another on the same line,
      with a space behind each comma; and each member has a line of its own, one tab deeper than the braces, with a tab
      behind the colon. */
  predicate LaidOut(x: Syntax, fmt: bool, depth: nat)
    requires Good(x)
    decreases x, 2
  {
    match x
    case Text(content, ps) => PrintedString(content, ps, PiecesValue(ps))
    case List(blank, items) => blank == [] && GoodItems(items) && LaidItems(items, fmt, depth + 1, true)
    case Dict(blank, entries) =>
      && (if entries == [] then Line(blank, fmt, depth) else blank == [])
      && GoodEntries(entries) && LaidEntries(entries, fmt, depth + 1)
    case _ => true
  }

  predicate LaidItems(items: seq<Item>, fmt: bool, depth: nat, first: bool)
    requires GoodItems(items)
    decreases items, 0
  {
    forall i :: 0 <= i < |items| ==> LaidItem(items[i], fmt, depth, first && i == 0)
  }

  predicate LaidEntries(entries: seq<Entry>, fmt: bool, depth: nat)
    requires GoodEntries(entries) && depth > 0
    decreases entries, 0
  {
    forall i :: 0 <= i < |entries| ==> LaidEntry(entries[i], fmt, depth, i == |entries| - 1)
  }

  /** Only a space may stand before an item, and nothing behind it. */
  predicate LaidItem(i: Item, fmt: bool, depth: nat, first: bool)
    requires GoodItem(i)
    decreases i, 1
  {
    i.before == (if fmt && !first then [0x20] else []) && i.after == [] && LaidOut(i.value, fmt, depth)
  }

  predicate LaidEntry(e: Entry, fmt: bool, depth: nat, last: bool)
    requires GoodEntry(e) && depth > 0
    decreases e, 1
  {
    && Line(e.before, fmt, depth) && PrintedString(e.content, e.pieces, PiecesValue(e.pieces))
    && e.beforeColon == [] && e.item.before == (if fmt then [0x09] else [])
    && (if last then Line(e.item.after, fmt, depth - 1) else e.item.after == [])
    && GoodItem(e.item) && LaidOut(e.item.value, fmt, depth)
  }

  // ----- strings -------------------------------------------------------------------------------------------

  function PieceOf(b: Byte): Piece {
    if b == 0x22 || b == 0x5C then Short(b)
    else if b in CONTROL_ESCAPES then Short(CONTROL_ESCAPES[b])
    else if b < 0x20 then Character(b, EscapeByte(b))
    else Plain(b)
  }

  lemma PieceIs(b: Byte)
    ensures var p := PieceOf(b);
      Printed(p, b) && GoodPiece(p) && PieceText(p) == EscapeByte(b) && PieceValue(p) == [b]
  {
    var p := PieceOf(b);
    if p.Character? {
      var h := p.text[2..6];
      assert h == [0x30, 0x30, HexDigit(b / 16), HexDigit(b % 16)];
      hide HexDigit;
      assert HexValue(0x30) == Some(0);
      assert Spells(h, b);
      LowDigit(b / 16);
      LowDigit(b % 16);
    }
  }

  lemma LowDigit(n: nat)
    requires n < 16
    ensures 0x30 <= HexDigit(n) <= 0x39 || 0x61 <= HexDigit(n) <= 0x66
  {
  }

  lemma ClosedPlain(b: Byte, rest: Bytes)
    requires b != 0x22 && b != 0x5C && Closed(rest)
    ensures Closed([b] + rest)
  {
    assert ([b] + rest)[1..] == rest;
  }

  lemma ClosedShort(b: Byte, rest: Bytes)
    requires Closed(rest)
    ensures Closed([0x5C, b] + rest)
  {
    assert ([0x5C, b] + rest)[2..] == rest;
  }

  lemma ClosedLong(x: Byte, y: Byte, rest: Bytes)
    requires Closed(rest) && x != 0x22 && x != 0x5C && y != 0x22 && y != 0x5C
    ensures Closed([0x5C, 0x75, 0x30, 0x30, x, y] + rest)
  {
    hide Closed;
    ClosedPlain(y, rest);
    ClosedPlain(x, [y] + rest);
    ClosedPlain(0x30, [x] + ([y] + rest));
    ClosedPlain(0x30, [0x30] + ([x] + ([y] + rest)));
    ClosedShort(0x75, [0x30] + ([0x30] + ([x] + ([y] + rest))));
    assert [0x5C, 0x75, 0x30, 0x30, x, y] + rest == [0x5C, 0x75] + ([0x30] + ([0x30] + ([x] + ([y] + rest))));
  }

  lemma ClosedByte(b: Byte, rest: Bytes)
    requires Closed(rest)
    ensures Closed(EscapeByte(b) + rest)
  {
    var e := EscapeByte(b);
    hide Closed;
    if |e| == 1 {
      ClosedPlain(b, rest);
    } else if |e| == 2 {
      ClosedShort(e[1], rest);
    } else {
      LowDigit(b / 16);
      LowDigit(b % 16);
      ClosedLong(HexDigit(b / 16), HexDigit(b % 16), rest);
    }
  }

  /** The literal of a string, as it is printed. */
  lemma {:induction false} StringLaid(s: Bytes) returns (ps: seq<Piece>)
    ensures GoodPieces(ps) && PiecesText(ps) == Escape(s) && PiecesValue(ps) == s && Closed(Escape(s))
    ensures |ps| == |s| && forall i :: 0 <= i < |s| ==> Printed(ps[i], s[i])
    decreases |s|
  {
    EscapeFirst(s);
    if s == [] {
      ps := [];
    } else {
      var rest := StringLaid(s[1..]);
      PieceIs(s[0]);
      ClosedByte(s[0], Escape(s[1..]));
      ps := [PieceOf(s[0])] + rest;
      hide EscapeByte, Escape, Closed, PieceOf, PieceText, PieceValue, GoodPiece, Printed;
      assert ps[1..] == rest && s == [s[0]] + s[1..];
      FirstPiece(PieceOf(s[0]), rest);
    }
  }

  lemma FirstPiece(p: Piece, rest: seq<Piece>)
    requires GoodPiece(p) && GoodPieces(rest)
    ensures var ps := [p] + rest;
      && GoodPieces(ps) && PiecesText(ps) == PieceText(p) + PiecesText(rest)
      && PiecesValue(ps) == PieceValue(p) + PiecesValue(rest)
  {
    assert ([p] + rest)[1..] == rest;
    hide GoodPiece, PieceText, PieceValue;
  }

  lemma LiteralLaid(s: Bytes) returns (content: Bytes, ps: seq<Piece>)
    ensures GoodLiteral(content, ps) && GoodPieces(ps) && PiecesValue(ps) == s && PrintedString(content, ps, s)
    ensures WriteLiteral(content) == Quote(s)
  {
    ps := StringLaid(s);
    content := Escape(s);
    hide Escape, Closed, GoodPieces, PiecesText, PiecesValue, Printed;
  }

  // ----- numbers -------------------------------------------------------------------------------------------

  lemma NumberLaid(text: Bytes) returns (n: Numeral)
    requires NumberText(text)
    ensures GoodNumeral(n) && NumeralText(n) == text
  {
    hide Strtod, NumeralText, GoodNumeral, InNumber;
    n := NumeralRead(text);
    assert text[..|text|] == text;
  }

  // ----- trees ---------------------------------------------------------------------------------------------

  predicate WellItems(items: seq<Json>) {
    forall i :: 0 <= i < |items| ==> WellFormed(items[i])
  }

  predicate WellMembers(members: seq<Member>) {
    forall i :: 0 <= i < |members| ==> NulFree(members[i].key) && WellFormed(members[i].value)
  }

  function Space(fmt: bool, first: bool): Bytes { if fmt && !first then [0x20] else [] }

  lemma RenderOne(items: seq<Json>, fmt: bool, depth: nat)
    requires |items| == 1 && WellItems(items)
    ensures WellFormed(items[0]) && items == [items[0]]
    ensures RenderItems(items, fmt, depth) == Render(items[0], fmt, depth)
  {
    assert RenderItems(items[1..], fmt, depth) == [];
    hide Render, WellFormed;
  }

  lemma RenderMore(items: seq<Json>, fmt: bool, depth: nat)
    requires |items| > 1 && WellItems(items)
    ensures WellFormed(items[0]) && WellItems(items[1..]) && items == [items[0]] + items[1..]
    ensures RenderItems(items, fmt, depth)
         == Render(items[0], fmt, depth) + ([COMMA] + (Space(fmt, false) + RenderItems(items[1..], fmt, depth)))
  {
    hide Render, WellFormed;
  }

  /** An item as it is printed. */
  lemma {:induction false} ItemLaid(t: Json, fmt: bool, depth: nat, first: bool) returns (i: Item)
    requires WellFormed(t)
    ensures GoodItem(i) && ItemMeaning(i) == t && LaidItem(i, fmt, depth, first)
    ensures WriteItem(i) == Space(fmt, first) + Render(t, fmt, depth)
    decreases t, 2
  {
    hide Good, Meaning, Write, Render, LaidOut, WellFormed;
    var x := Rendered(t, fmt, depth);
    i := Item(Space(fmt, first), x, []);
    assert Render(t, fmt, depth) + [] == Render(t, fmt, depth);
  }

  lemma {:induction false} OneLaid(i: Item, fmt: bool, depth: nat, first: bool)
    requires GoodItem(i) && GoodItems([i]) && LaidItem(i, fmt, depth, first)
    ensures LaidItems([i], fmt, depth, first)
  {
    hide GoodItem, LaidItem;
  }

  lemma {:induction false} MoreLaid(i: Item, rest: seq<Item>, fmt: bool, depth: nat, first: bool)
    requires GoodItem(i) && GoodItems(rest) && GoodItems([i] + rest)
    requires LaidItem(i, fmt, depth, first) && LaidItems(rest, fmt, depth, false)
    ensures LaidItems([i] + rest, fmt, depth, first)
  {
    hide GoodItem, LaidItem;
  }

  /** Items as they are printed, after what stands before the first of them. */
  lemma {:induction false} ItemsLaid(items: seq<Json>, fmt: bool, depth: nat, first: bool) returns (ls: seq<Item>)
    requires items != [] && WellItems(items)
    ensures ls != [] && GoodItems(ls) && ItemsMeaning(ls) == items && LaidItems(ls, fmt, depth, first)
    ensures WriteItems(ls) == Space(fmt, first) + RenderItems(items, fmt, depth)
    decreases items, 0
  {
    hide *;
    if |items| == 1 {
      RenderOne(items, fmt, depth);
      var i := ItemLaid(items[0], fmt, depth, first);
      ls := [i];
      OneItemIs(i);
      OneLaid(i, fmt, depth, first);
    } else {
      RenderMore(items, fmt, depth);
      var i := ItemLaid(items[0], fmt, depth, first);
      var rest := ItemsLaid(items[1..], fmt, depth, false);
      ls := [i] + rest;
      ItemsAre(i, rest);
      MoreLaid(i, rest, fmt, depth, first);
      Associate(Space(fmt, first), Render(items[0], fmt, depth), [COMMA] + WriteItems(rest));
    }
  }

  lemma Associate(a: Bytes, b: Bytes, d: Bytes)
    ensures (a + b) + d == a + (b + d)
  {
  }

  /** The text of one member with the line break before it, up to the comma or the line break behind it. */
  function EntryText(m: Member, fmt: bool, depth: nat): Bytes {
    (NewLine(fmt) + Indent(fmt, depth + 1)) +
    (Quote(m.key) + ([] + ([COLON] + ((if fmt then [0x09] else []) + Render(m.value, fmt, depth + 1)))))
  }

  /** The last line break, and the tabs before the closing brace. */
  function LastLine(fmt: bool, depth: nat): Bytes { NewLine(fmt) + Indent(fmt, depth) }

  /** What stands between the braces. */
  function Inside(members: seq<Member>, fmt: bool, depth: nat): Bytes {
    NewLine(fmt) + (RenderMembers(members, fmt, depth + 1) + Indent(fmt, depth))
  }

  lemma InsideOne(members: seq<Member>, fmt: bool, depth: nat)
    requires |members| == 1 && WellMembers(members)
    ensures NulFree(members[0].key) && WellFormed(members[0].value) && members == [members[0]]
    ensures Inside(members, fmt, depth) == EntryText(members[0], fmt, depth) + LastLine(fmt, depth)
  {
    var m, sp: Bytes := members[0], if fmt then [0x09] else [];
    assert RenderMembers(members[1..], fmt, depth + 1) == [];
    assert RenderMembers(members, fmt, depth + 1)
        == Indent(fmt, depth + 1) + (Quote(m.key) + (KeyColon(fmt) + (Render(m.value, fmt, depth + 1) +
           ([] + (NewLine(fmt) + [])))));
    assert KeyColon(fmt) == [COLON] + sp;
    hide Quote, Render, Indent, NewLine, WellFormed, NulFree, RenderMembers, KeyColon;
    RegroupLast(NewLine(fmt), Indent(fmt, depth + 1), Quote(m.key), KeyColon(fmt), sp, Render(m.value, fmt, depth + 1),
                Indent(fmt, depth));
  }

  lemma InsideMore(members: seq<Member>, fmt: bool, depth: nat)
    requires |members| > 1 && WellMembers(members)
    ensures NulFree(members[0].key) && WellFormed(members[0].value) && members == [members[0]] + members[1..]
    ensures WellMembers(members[1..])
    ensures Inside(members, fmt, depth)
         == EntryText(members[0], fmt, depth) + ([COMMA] + Inside(members[1..], fmt, depth))
  {
    var m, rest := members[0], RenderMembers(members[1..], fmt, depth + 1);
    assert RenderMembers(members, fmt, depth + 1)
        == Indent(fmt, depth + 1) + (Quote(m.key) + (KeyColon(fmt) + (Render(m.value, fmt, depth + 1) +
           ([COMMA] + (NewLine(fmt) + rest)))));
    assert KeyColon(fmt) == [COLON] + if fmt then [0x09] else [];
    hide Quote, Render, Indent, NewLine, WellFormed, NulFree, RenderMembers, KeyColon;
    Regroup(NewLine(fmt), Indent(fmt, depth + 1), Quote(m.key), KeyColon(fmt), if fmt then [0x09] else [],
            Render(m.value, fmt, depth + 1), rest, Indent(fmt, depth));
  }

  lemma Regroup(nl: Bytes, ind: Bytes, q: Bytes, k: Bytes, sp: Bytes, r: Bytes, rest: Bytes, last: Bytes)
    requires k == [COLON] + sp
    ensures nl + ((ind + (q + (k + (r + ([COMMA] + (nl + rest)))))) + last)
         == ((nl + ind) + (q + ([] + ([COLON] + (sp + r))))) + ([COMMA] + (nl + (rest + last)))
  {
    Associate([COLON], sp, r);
    RegroupTail(nl, rest, last);
    var kr := k + r;
    assert k + (r + ([COMMA] + (nl + rest))) == kr + ([COMMA] + (nl + rest));
    RegroupAll(nl, ind, q, kr, [COMMA] + (nl + rest), last);
  }

  lemma RegroupLast(nl: Bytes, ind: Bytes, q: Bytes, k: Bytes, sp: Bytes, r: Bytes, last: Bytes)
    requires k == [COLON] + sp
    ensures nl + ((ind + (q + (k + (r + ([] + (nl + [])))))) + last)
         == ((nl + ind) + (q + ([] + ([COLON] + (sp + r))))) + (nl + last)
  {
    Associate([COLON], sp, r);
    var kr := k + r;
    assert [] + (nl + []) == nl;
    assert k + (r + nl) == kr + nl;
    RegroupAll(nl, ind, q, kr, nl, last);
    assert [] + kr == kr;
  }

  lemma RegroupTail(nl: Bytes, rest: Bytes, last: Bytes)
    ensures ([COMMA] + (nl + rest)) + last == [COMMA] + (nl + (rest + last))
  {
  }

  lemma RegroupAll(a: Bytes, b: Bytes, d: Bytes, e: Bytes, f: Bytes, g: Bytes)
    ensures a + ((b + (d + (e + f))) + g) == ((a + b) + (d + e)) + (f + g)
  {
  }

  lemma LineIs(fmt: bool, depth: nat)
    ensures Line(LastLine(fmt, depth), fmt, depth) && Blank(LastLine(fmt, depth))
  {
  }

  /** A member as it is printed. */
  lemma {:induction false} EntryLaid(m: Member, fmt: bool, depth: nat, last: bool) returns (e: Entry)
    requires WellFormed(m.value)
    ensures GoodEntry(e) && EntryMeaning(e) == m && LaidEntry(e, fmt, depth + 1, last)
    ensures WriteEntry(e) == EntryText(m, fmt, depth) + if last then LastLine(fmt, depth) else []
    decreases m, 2
  {
    hide *;
    var x := Rendered(m.value, fmt, depth + 1);
    var content, ps := LiteralLaid(m.key);
    var after := if last then LastLine(fmt, depth) else [];
    e := Entry(LastLine(fmt, depth + 1), content, ps, [], Item(if fmt then [0x09] else [], x, after));
    LineIs(fmt, depth);
    LineIs(fmt, depth + 1);
    LaidEntryIs(e, m, fmt, depth, last);
    LaidEntryText(e, m, fmt, depth, after);
  }

  lemma {:induction false} LaidEntryIs(e: Entry, m: Member, fmt: bool, depth: nat, last: bool)
    requires Good(e.item.value) && Meaning(e.item.value) == m.value && LaidOut(e.item.value, fmt, depth + 1)
    requires GoodLiteral(e.content, e.pieces) && GoodPieces(e.pieces) && PiecesValue(e.pieces) == m.key
    requires PrintedString(e.content, e.pieces, m.key) && Line(e.before, fmt, depth + 1) && Blank(e.before)
    requires e.beforeColon == [] && e.item.before == (if fmt then [0x09] else [])
    requires if last then Line(e.item.after, fmt, depth) && Blank(e.item.after) else e.item.after == []
    ensures GoodEntry(e) && EntryMeaning(e) == m && LaidEntry(e, fmt, depth + 1, last)
  {
    hide Good, Meaning, LaidOut, GoodLiteral, PiecesValue, PrintedString, Line, GoodPieces;
    assert GoodItem(e.item);
  }

  lemma {:induction false} LaidEntryText(e: Entry, m: Member, fmt: bool, depth: nat, after: Bytes)
    requires Write(e.item.value) == Render(m.value, fmt, depth + 1) && WriteLiteral(e.content) == Quote(m.key)
    requires e.before == LastLine(fmt, depth + 1) && e.beforeColon == [] && e.item.after == after
    requires e.item.before == if fmt then [0x09] else []
    ensures WriteEntry(e) == EntryText(m, fmt, depth) + after
  {
    var sp := e.item.before;
    hide Write, Render, WriteLiteral, Quote, Indent, NewLine;
    RegroupEntry(e.before, Quote(m.key), sp, Render(m.value, fmt, depth + 1), after);
  }

  lemma RegroupEntry(b: Bytes, q: Bytes, sp: Bytes, r: Bytes, after: Bytes)
    ensures b + (q + ([] + ([COLON] + (sp + (r + after))))) == (b + (q + ([] + ([COLON] + (sp + r))))) + after
  {
    Associate(sp, r, after);
    Associate([COLON], sp + r, after);
    Associate(q, [COLON] + (sp + r), after);
    Associate(b, q + ([COLON] + (sp + r)), after);
    assert [] + ([COLON] + (sp + (r + after))) == [COLON] + (sp + (r + after));
    assert [] + ([COLON] + (sp + r)) == [COLON] + (sp + r);
  }

  lemma {:induction false} LastLaid(e: Entry, fmt: bool, depth: nat)
    requires GoodEntry(e) && GoodEntries([e]) && LaidEntry(e, fmt, depth + 1, true)
    ensures LaidEntries([e], fmt, depth + 1)
  {
    hide GoodEntry, LaidEntry;
  }

  lemma {:induction false} EarlierLaid(e: Entry, rest: seq<Entry>, fmt: bool, depth: nat)
    requires GoodEntry(e) && GoodEntries(rest) && GoodEntries([e] + rest) && rest != []
    requires LaidEntry(e, fmt, depth + 1, false) && LaidEntries(rest, fmt, depth + 1)
    ensures LaidEntries([e] + rest, fmt, depth + 1)
  {
    hide GoodEntry, LaidEntry;
  }

  /** Members as they are printed between the braces. */
  lemma {:induction false} MembersLaid(members: seq<Member>, fmt: bool, depth: nat) returns (es: seq<Entry>)
    requires members != [] && WellMembers(members)
    ensures es != [] && GoodEntries(es) && EntriesMeaning(es) == members && LaidEntries(es, fmt, depth + 1)
    ensures WriteEntries(es) == Inside(members, fmt, depth)
    decreases members, 0
  {
    hide *;
    if |members| == 1 {
      InsideOne(members, fmt, depth);
      var e := EntryLaid(members[0], fmt, depth, true);
      es := [e];
      OneEntryIs(e);
      LastLaid(e, fmt, depth);
    } else {
      InsideMore(members, fmt, depth);
      var e := EntryLaid(members[0], fmt, depth, false);
      var rest := MembersLaid(members[1..], fmt, depth);
      es := [e] + rest;
      EntriesAre(e, rest);
      EarlierLaid(e, rest, fmt, depth);
      assert EntryText(members[0], fmt, depth) + [] == EntryText(members[0], fmt, depth);
    }
  }

  lemma ArrayInside(items: seq<Json>, fmt: bool, depth: nat)
    ensures Render(Array(items), fmt, depth) == [OPEN_BRACKET] + (RenderItems(items, fmt, depth + 1) + [CLOSE_BRACKET])
    ensures Space(fmt, true) == []
  {
    hide RenderItems;
  }

  lemma {:induction false} ArrayLaid(items: seq<Json>, fmt: bool, depth: nat) returns (x: Syntax)
    requires items != [] && WellItems(items)
    ensures Good(x) && Meaning(x) == Array(items) && Write(x) == Render(Array(items), fmt, depth)
    ensures LaidOut(x, fmt, depth)
    decreases items, 1
  {
    hide *;
    ArrayInside(items, fmt, depth);
    var ls := ItemsLaid(items, fmt, depth + 1, true);
    assert [] + RenderItems(items, fmt, depth + 1) == RenderItems(items, fmt, depth + 1);
    ListIs(ls);
    x := List([], ls);
    ListLaid(ls, fmt, depth);
  }

  lemma {:induction false} ListLaid(ls: seq<Item>, fmt: bool, depth: nat)
    requires GoodItems(ls) && Good(List([], ls)) && LaidItems(ls, fmt, depth + 1, true)
    ensures LaidOut(List([], ls), fmt, depth)
  {
    hide GoodItems, LaidItems, GoodItem;
  }

  lemma {:induction false} ObjectLaid(members: seq<Member>, fmt: bool, depth: nat) returns (x: Syntax)
    requires members != [] && WellMembers(members)
    ensures Good(x) && Meaning(x) == Object(members) && Write(x) == Render(Object(members), fmt, depth)
    ensures LaidOut(x, fmt, depth)
    decreases members, 1
  {
    hide *;
    ObjectInside(members, fmt, depth);
    var es := MembersLaid(members, fmt, depth);
    DictIs(es);
    x := Dict([], es);
    DictLaid(es, fmt, depth);
  }

  lemma ObjectInside(members: seq<Member>, fmt: bool, depth: nat)
    ensures Render(Object(members), fmt, depth) == [OPEN_BRACE] + (Inside(members, fmt, depth) + [CLOSE_BRACE])
  {
    hide RenderMembers, Indent, NewLine;
  }

  lemma {:induction false} DictLaid(es: seq<Entry>, fmt: bool, depth: nat)
    requires es != [] && GoodEntries(es) && Good(Dict([], es)) && LaidEntries(es, fmt, depth + 1)
    ensures LaidOut(Dict([], es), fmt, depth)
  {
    hide GoodEntries, LaidEntries, GoodEntry;
  }

  lemma {:induction false} EmptyArrayLaid(fmt: bool, depth: nat)
    ensures var x := List([], []);
      Good(x) && Meaning(x) == Array([]) && Write(x) == Render(Array([]), fmt, depth) && LaidOut(x, fmt, depth)
  {
    EmptyListIs([]);
  }

  lemma EmptyObjectText(fmt: bool, depth: nat)
    ensures Render(Object([]), fmt, depth) == [OPEN_BRACE] + (LastLine(fmt, depth) + [CLOSE_BRACE])
  {
    hide Indent, NewLine;
  }

  lemma {:induction false} EmptyDictLaid(blank: Bytes, fmt: bool, depth: nat)
    requires Line(blank, fmt, depth) && Blank(blank)
    ensures LaidOut(Dict(blank, []), fmt, depth)
  {
    hide Line, Blank;
  }

  lemma {:induction false} EmptyObjectLaid(fmt: bool, depth: nat)
    ensures var x := Dict(LastLine(fmt, depth), []);
      Good(x) && Meaning(x) == Object([]) && Write(x) == Render(Object([]), fmt, depth) && LaidOut(x, fmt, depth)
  {
    hide *;
    LineIs(fmt, depth);
    EmptyDictIs(LastLine(fmt, depth));
    EmptyObjectText(fmt, depth);
    EmptyDictLaid(LastLine(fmt, depth), fmt, depth);
  }

  /** Every tree is printed as the text of a syntax tree that means it and is laid out. */
  lemma {:induction false} Rendered(t: Json, fmt: bool, depth: nat) returns (x: Syntax)
    requires WellFormed(t)
    ensures Good(x) && Meaning(x) == t && Write(x) == Render(t, fmt, depth) && LaidOut(x, fmt, depth)
    decreases t, 1
  {
    hide NumberText, GoodNumeral, NumeralText, GoodLiteral, PrintedString, PiecesValue, Quote, WriteLiteral, NulFree;
    match t
    case Null => x := NullWord;
    case False => x := FalseWord;
    case True => x := TrueWord;
    case Number(text) =>
      var n := NumberLaid(text);
      x := Num(n);
    case String(s) =>
      var content, ps := LiteralLaid(s);
      x := Text(content, ps);
    case Array(items) =>
      if items == [] {
        EmptyArrayLaid(fmt, depth);
        x := List([], []);
      } else {
        x := ArrayLaid(items, fmt, depth);
      }
    case Object(members) =>
      if members == [] {
        EmptyObjectLaid(fmt, depth);
        x := Dict(LastLine(fmt, depth), []);
      } else {
        x := ObjectLaid(members, fmt, depth);
      }
  }
}
