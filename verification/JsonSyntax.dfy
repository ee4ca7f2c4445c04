/** The texts of JSON, written down as syntax trees: every string, number and blank as it stands in the text.  What a
    syntax tree is written as, and which tree of values it means, are defined without regard to any parser or printer.

    Three things go beyond RFC 8259, because the parser takes them: any byte up to 32 is blank; numbers are those of
    `strtod`; and four bytes behind `\u` that are not all hexadecimal digits stand for a NUL. */
module JsonSyntax {
  import opened JsonText
  import opened JsonGrammar

  // ----- strings -------------------------------------------------------------------------------------

  /** A plain byte, a two-character escape, the escape of a character in one sequence or two, or a broken escape. */
  datatype Piece = Plain(b: Byte) | Short(letter: Byte) | Character(cp: nat, text: Bytes) | Broken(text: Bytes)

  /** What the two-character escapes of RFC 8259, section 7, stand for. */
  const SHORT_ESCAPES: map<Byte, Byte> :=
    map[0x22 := 0x22, 0x5C := 0x5C, 0x2F := 0x2F, 0x62 := 0x08, 0x66 := 0x0C, 0x6E := 0x0A, 0x72 := 0x0D, 0x74 := 0x09]

  predicate GoodPiece(p: Piece) {
    match p
    case Plain(b) => b != 0x5C
    case Short(letter) => letter in SHORT_ESCAPES
    case Character(cp, text) => CharacterAt(text, 0, cp) && |text| == EscapeLength(cp)
    case Broken(text) => |text| == 4 && !AllHex(text)
  }

  function PieceText(p: Piece): Bytes {
    match p
    case Plain(b) => [b]
    case Short(letter) => [0x5C, letter]
    case Character(_, text) => text
    case Broken(text) => [0x5C, 0x75] + text
  }

  function PieceValue(p: Piece): Bytes
    requires GoodPiece(p)
  {
    match p
    case Plain(b) => [b]
    case Short(letter) => [SHORT_ESCAPES[letter]]
    case Character(cp, _) => Utf8(cp)
    case Broken(_) => [0]
  }

  predicate GoodPieces(ps: seq<Piece>) {
    forall i :: 0 <= i < |ps| ==> GoodPiece(ps[i])
  }

  function PiecesText(ps: seq<Piece>): Bytes {
    if ps == [] then [] else PieceText(ps[0]) + PiecesText(ps[1..])
  }

  function PiecesValue(ps: seq<Piece>): Bytes
    requires GoodPieces(ps)
  {
    if ps == [] then [] else PieceValue(ps[0]) + PiecesValue(ps[1..])
  }

  /** No quote in it ends a literal: each stands behind a backslash that is not itself escaped. */
  predicate Closed(content: Bytes) {
    content == [] ||
    (content[0] != 0x22 &&
     if content[0] == 0x5C then |content| > 1 && Closed(content[2..]) else Closed(content[1..]))
  }

  /** A literal's content as pieces.  Behind a broken escape the last piece can reach one byte too far and take the
      closing quote for an escaped one. */
  predicate Consists(content: Bytes, ps: seq<Piece>) {
    || PiecesText(ps) == content
    || (ps != [] && ps[|ps| - 1] == Short(0x22) && PiecesText(ps) == content + [0x22])
  }

  predicate GoodLiteral(content: Bytes, ps: seq<Piece>) {
    Closed(content) && GoodPieces(ps) && Consists(content, ps)
  }

  // ----- numbers -------------------------------------------------------------------------------------

  /** An exponent: its letter, its sign and its digits. */
  datatype Exponent = NoExponent | Exponent(letter: Byte, sign: Bytes, digits: Bytes)

  /** A minus, digits, digits behind a point, and an exponent. */
  datatype Numeral = Numeral(minus: bool, whole: Bytes, point: bool, fraction: Bytes, exponent: Exponent)

  predicate AllDigits(s: Bytes) {
    forall i :: 0 <= i < |s| ==> 0x30 <= s[i] <= 0x39
  }

  predicate GoodExponent(e: Exponent) {
    match e
    case NoExponent => true
    case Exponent(letter, sign, digits) =>
      && (letter == 0x65 || letter == 0x45) && (sign == [] || sign == [0x2B] || sign == [0x2D])
      && digits != [] && AllDigits(digits)
  }

  /** At most 63 bytes of a number are collected. */
  predicate GoodNumeral(n: Numeral) {
    && AllDigits(n.whole) && AllDigits(n.fraction) && (!n.point ==> n.fraction == [])
    && (if n.minus then n.whole != [] || n.fraction != [] else n.whole != [])
    && GoodExponent(n.exponent) && |NumeralText(n)| <= 63
  }

  function ExponentText(e: Exponent): Bytes {
    match e
    case NoExponent => []
    case Exponent(letter, sign, digits) => [letter] + (sign + digits)
  }

  function NumeralText(n: Numeral): Bytes {
    (if n.minus then [0x2D] else []) +
    (n.whole + ((if n.point then [0x2E] else []) + (n.fraction + ExponentText(n.exponent))))
  }

  // ----- values --------------------------------------------------------------------------------------

  datatype Syntax =
    | NullWord | FalseWord | TrueWord
    | Num(numeral: Numeral)
    | Text(content: Bytes, pieces: seq<Piece>)
    | List(blank: Bytes, items: seq<Item>)
    | Dict(blank: Bytes, entries: seq<Entry>)

  /** A value with the blanks around it. */
  datatype Item = Item(before: Bytes, value: Syntax, after: Bytes)

  datatype Entry = Entry(before: Bytes, content: Bytes, pieces: seq<Piece>, beforeColon: Bytes, item: Item)

  predicate Blank(s: Bytes) {
    forall i :: 0 <= i < |s| ==> s[i] <= 32
  }

  predicate Good(x: Syntax)
    decreases x, 2
  {
    match x
    case Num(n) => GoodNumeral(n)
    case Text(content, ps) => GoodLiteral(content, ps)
    case List(blank, items) => Blank(blank) && forall i :: 0 <= i < |items| ==> GoodItem(items[i])
    case Dict(blank, entries) =>
      Blank(blank) && forall i :: 0 <= i < |entries| ==> GoodEntry(entries[i])
    case _ => true
  }

  predicate GoodItem(i: Item)
    decreases i, 1
  {
    Blank(i.before) && Good(i.value) && Blank(i.after)
  }

  predicate GoodEntry(e: Entry)
    decreases e, 1
  {
    Blank(e.before) && GoodLiteral(e.content, e.pieces) && Blank(e.beforeColon) && GoodItem(e.item)
  }

  /** What a syntax tree is written as. */
  function Write(x: Syntax): Bytes
    decreases x, 2
  {
    match x
    case NullWord => [0x6E, 0x75, 0x6C, 0x6C]
    case FalseWord => [0x66, 0x61, 0x6C, 0x73, 0x65]
    case TrueWord => [0x74, 0x72, 0x75, 0x65]
    case Num(n) => NumeralText(n)
    case Text(content, _) => WriteLiteral(content)
    case List(blank, items) => [0x5B] + ((if items == [] then blank else WriteItems(items)) + [0x5D])
    case Dict(blank, entries) => [0x7B] + ((if entries == [] then blank else WriteEntries(entries)) + [0x7D])
  }

  function WriteLiteral(content: Bytes): Bytes {
    [0x22] + (content + [0x22])
  }

  function WriteItem(i: Item): Bytes
    decreases i, 1
  {
    i.before + (Write(i.value) + i.after)
  }

  function WriteEntry(e: Entry): Bytes
    decreases e, 1
  {
    e.before + (WriteLiteral(e.content) + (e.beforeColon + ([0x3A] + WriteItem(e.item))))
  }

  function WriteItems(items: seq<Item>): Bytes
    requires items != []
    decreases items, 0
  {
    if |items| == 1 then WriteItem(items[0]) else WriteItem(items[0]) + ([0x2C] + WriteItems(items[1..]))
  }

  function WriteEntries(entries: seq<Entry>): Bytes
    requires entries != []
    decreases entries, 0
  {
    if |entries| == 1 then WriteEntry(entries[0]) else WriteEntry(entries[0]) + ([0x2C] + WriteEntries(entries[1..]))
  }

  /** The tree of values that a syntax tree means. */
  function Meaning(x: Syntax): Json
    requires Good(x)
    decreases x, 2
  {
    match x
    case NullWord => Null
    case FalseWord => False
    case TrueWord => True
    case Num(n) => Number(NumeralText(n))
    case Text(_, ps) => String(PiecesValue(ps))
    case List(_, items) => Array(ItemsMeaning(items))
    case Dict(_, entries) => Object(EntriesMeaning(entries))
  }

  predicate GoodItems(items: seq<Item>) {
    forall i :: 0 <= i < |items| ==> GoodItem(items[i])
  }

  predicate GoodEntries(entries: seq<Entry>) {
    forall i :: 0 <= i < |entries| ==> GoodEntry(entries[i])
  }

  function ItemMeaning(i: Item): Json
    requires GoodItem(i)
    decreases i, 1
  {
    Meaning(i.value)
  }

  function ItemsMeaning(items: seq<Item>): (r: seq<Json>)
    requires GoodItems(items)
    ensures |r| == |items|
    decreases items, 0
  {
    if items == [] then []
    else
      assert GoodItem(items[0]);
      [ItemMeaning(items[0])] + ItemsMeaning(items[1..])
  }

  function KeyMeaning(e: Entry): Bytes
    requires GoodEntry(e)
  {
    PiecesValue(e.pieces)
  }

  function EntryMeaning(e: Entry): Member
    requires GoodEntry(e)
    decreases e, 2
  {
    Member(KeyMeaning(e), ItemMeaning(e.item))
  }

  function EntriesMeaning(entries: seq<Entry>): (r: seq<Member>)
    requires GoodEntries(entries)
    ensures |r| == |entries|
    decreases entries, 0
  {
    if entries == [] then []
    else
      assert GoodEntry(entries[0]);
      [EntryMeaning(entries[0])] + EntriesMeaning(entries[1..])
  }
}
