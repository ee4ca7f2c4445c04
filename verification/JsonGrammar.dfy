/** JSON trees, the text the printer gives them, and what the recursive-descent parser makes of a text. */
module JsonGrammar {
  import opened JsonText

  const NESTING_LIMIT: nat := 1000

  const COMMA: Byte := 0x2C
  const COLON: Byte := 0x3A
  const OPEN_BRACKET: Byte := 0x5B
  const CLOSE_BRACKET: Byte := 0x5D
  const OPEN_BRACE: Byte := 0x7B
  const CLOSE_BRACE: Byte := 0x7D
  const MINUS: Byte := 0x2D
  const PLUS: Byte := 0x2B
  const DOT: Byte := 0x2E
  const LETTER_E: Byte := 0x65

  const NULL_TEXT: Bytes := [0x6E, 0x75, 0x6C, 0x6C]
  const TRUE_TEXT: Bytes := [0x74, 0x72, 0x75, 0x65]
  const FALSE_TEXT: Bytes := [0x66, 0x61, 0x6C, 0x73, 0x65]

  /** A tree of items.  A number is kept as its text: what the text is worth is left to the C library. */
  datatype Json =
    | Null | False | True
    | Number(text: Bytes)
    | String(s: Bytes)
    | Array(items: seq<Json>)
    | Object(members: seq<Member>)

  datatype Member = Member(key: Bytes, value: Json)

  // ----- numbers -----------------------------------------------------------------------------------

  predicate IsDigit(b: Byte) {
    0x30 <= b <= 0x39
  }

  /** The characters the parser collects for `strtod`. */
  predicate InNumber(b: Byte) {
    IsDigit(b) || b == PLUS || b == MINUS || b == LETTER_E || b == 0x45 || b == DOT
  }

  function DigitRun(s: Bytes, i: nat): (j: nat)
    requires i <= |s|
    ensures i <= j <= |s|
    ensures forall k :: i <= k < j ==> IsDigit(s[k])
    ensures j < |s| ==> !IsDigit(s[j])
    decreases |s| - i
  {
    if i < |s| && IsDigit(s[i]) then DigitRun(s, i + 1) else i
  }

  function Sign(s: Bytes, i: nat): (j: nat)
    requires i <= |s|
    ensures i <= j <= |s|
  {
    if i < |s| && (s[i] == PLUS || s[i] == MINUS) then i + 1 else i
  }

  /** How much of `s`, which holds only number characters, `strtod` converts: an optional sign, digits
      with at most one point, and an exponent if it has a digit. */
  function Strtod(s: Bytes): (n: nat)
    ensures n <= |s|
  {
    var sign := Sign(s, 0);
    var whole := DigitRun(s, sign);
    var mantissa := if whole < |s| && s[whole] == DOT then DigitRun(s, whole + 1) else whole;
    var digits := if mantissa > whole then mantissa - sign - 1 else mantissa - sign;
    if digits == 0 then 0
    else if mantissa < |s| && (s[mantissa] == LETTER_E || s[mantissa] == 0x45) then
      var start := Sign(s, mantissa + 1);
      var end := DigitRun(s, start);
      if end > start then end else mantissa
    else mantissa
  }

  /** The number characters from `i` on, at most `limit` of them. */
  function NumberRun(c: Bytes, i: nat, limit: nat): (r: Bytes)
    requires i <= |c|
    ensures i + |r| <= |c| && |r| <= limit && r == c[i..i + |r|]
    ensures forall k :: 0 <= k < |r| ==> InNumber(r[k])
    ensures |r| == limit || i + |r| == |c| || !InNumber(c[i + |r|])
    decreases limit
  {
    if limit == 0 || i == |c| || !InNumber(c[i]) then [] else [c[i]] + NumberRun(c, i + 1, limit - 1)
  }

  // ----- well-formed trees -------------------------------------------------------------------------

  /** The text of a number as `print_number` may produce it. */
  predicate NumberText(s: Bytes) {
    && 0 < |s| <= 25
    && (s[0] == MINUS || IsDigit(s[0]))
    && (forall k :: 0 <= k < |s| ==> InNumber(s[k]))
    && Strtod(s) == |s|
  }

  predicate WellFormed(t: Json) {
    match t
    case Null => true
    case False => true
    case True => true
    case Number(text) => NumberText(text)
    case String(s) => NulFree(s)
    case Array(items) => forall i :: 0 <= i < |items| ==> WellFormed(items[i])
    case Object(members) => forall i :: 0 <= i < |members| ==> NulFree(members[i].key) && WellFormed(members[i].value)
  }

  function Max(x: nat, y: nat): (m: nat)
    ensures m >= x && m >= y && (m == x || m == y)
  {
    if x >= y then x else y
  }

  /** How deeply arrays and objects are nested. */
  function Height(t: Json): nat
    decreases t, 1
  {
    match t
    case Array(items) => 1 + ItemsHeight(items)
    case Object(members) => 1 + MembersHeight(members)
    case _ => 0
  }

  function ItemsHeight(items: seq<Json>): nat
    decreases items, 0
  {
    if items == [] then 0 else Max(Height(items[0]), ItemsHeight(items[1..]))
  }

  function MembersHeight(members: seq<Member>): nat
    decreases members, 0
  {
    if members == [] then 0 else Max(Height(members[0].value), MembersHeight(members[1..]))
  }

  // ----- printing ----------------------------------------------------------------------------------

  function Tabs(n: nat): (s: Bytes)
    ensures |s| == n && forall i :: 0 <= i < n ==> s[i] == TAB
  {
    seq(n, _ => TAB)
  }

  /** The text of a tree at nesting depth `depth`, formatted or not. */
  function Render(t: Json, fmt: bool, depth: nat): Bytes
    decreases t, 1
  {
    match t
    case Null => NULL_TEXT
    case False => FALSE_TEXT
    case True => TRUE_TEXT
    case Number(text) => text
    case String(s) => Quote(s)
    case Array(items) => [OPEN_BRACKET] + RenderItems(items, fmt, depth + 1) + [CLOSE_BRACKET]
    case Object(members) =>
      [OPEN_BRACE] + NewLine(fmt) + RenderMembers(members, fmt, depth + 1) + Indent(fmt, depth) + [CLOSE_BRACE]
  }

  function NewLine(fmt: bool): Bytes { if fmt then [NEWLINE] else [] }

  function Indent(fmt: bool, depth: nat): Bytes { if fmt then Tabs(depth) else [] }

  function ItemComma(fmt: bool): Bytes { if fmt then [COMMA, SPACE] else [COMMA] }

  function KeyColon(fmt: bool): Bytes { if fmt then [COLON, TAB] else [COLON] }

  function RenderItems(items: seq<Json>, fmt: bool, depth: nat): Bytes
    decreases items, 0
  {
    if items == [] then []
    else
      Render(items[0], fmt, depth) +
      ((if |items| > 1 then ItemComma(fmt) else []) + RenderItems(items[1..], fmt, depth))
  }

  function RenderMembers(members: seq<Member>, fmt: bool, depth: nat): Bytes
    decreases members, 1
  {
    if members == [] then [] else Indent(fmt, depth) + MembersBody(members, fmt, depth)
  }

  /** The text of members without the indentation of the first one. */
  function MembersBody(members: seq<Member>, fmt: bool, depth: nat): Bytes
    requires members != []
    decreases members, 0
  {
    Quote(members[0].key) + (KeyColon(fmt) + (Render(members[0].value, fmt, depth) +
    ((if |members| > 1 then [COMMA] else []) + (NewLine(fmt) + RenderMembers(members[1..], fmt, depth)))))
  }

  // ----- parsing -----------------------------------------------------------------------------------

  /** A text as the parser gets it: a C string with its terminating NUL. */
  predicate Terminated(c: Bytes) {
    |c| > 0 && c[|c| - 1] == 0
  }

  /** The offset after skipping whitespace; the last byte is never passed. */
  function Skip(c: Bytes, o: nat): (r: nat)
    requires o < |c|
    ensures o <= r < |c|
    decreases |c| - o
  {
    if c[o] <= 32 && o + 1 < |c| then Skip(c, o + 1) else o
  }

  /** A word that is not ended by NUL never reaches the terminating one. */
  predicate StartsWith(c: Bytes, o: nat, text: Bytes): (r: bool)
    ensures r && Terminated(c) && text != [] && text[|text| - 1] != 0 ==> o + |text| < |c|
  {
    assert o + |text| <= |c| && text != [] ==> c[o..o + |text|][|text| - 1] == c[o + |text| - 1];
    o + |text| <= |c| && c[o..o + |text|] == text
  }

  datatype Outcome = Parsed(value: Json, offset: nat) | Failed(offset: nat)
  datatype ItemsOutcome = ParsedItems(items: seq<Json>, offset: nat) | FailedItems(offset: nat)
  datatype MemberOutcome = ParsedMember(member: Member, offset: nat) | FailedMember(offset: nat)
  datatype MembersOutcome = ParsedMembers(members: seq<Member>, offset: nat) | FailedMembers(offset: nat)

  /** The value at offset `o`, inside `depth` arrays and objects. */
  function ParseValue(c: Bytes, o: nat, depth: nat): (r: Outcome)
    requires Terminated(c) && o < |c|
    ensures r.Parsed? ==> o < r.offset < |c|
    decreases |c| - o, 2
  {
    if StartsWith(c, o, NULL_TEXT) then Parsed(Null, o + 4)
    else if StartsWith(c, o, FALSE_TEXT) then Parsed(False, o + 5)
    else if StartsWith(c, o, TRUE_TEXT) then Parsed(True, o + 4)
    else if c[o] == QUOTE then
      match ParseString(c, o)
      case ParsedString(s, offset) => Parsed(String(s), offset)
      case FailedString(offset) => Failed(offset)
    else if c[o] == MINUS || IsDigit(c[o]) then ParseNumber(c, o)
    else if c[o] == OPEN_BRACKET then ParseArray(c, o, depth)
    else if c[o] == OPEN_BRACE then ParseObject(c, o, depth)
    else Failed(o)
  }

  lemma NumberInside(c: Bytes, o: nat)
    requires Terminated(c) && o < |c|
    ensures o + |NumberRun(c, o, 63)| < |c|
  {
    hide NumberRun;
    var run := NumberRun(c, o, 63);
    assert !InNumber(c[|c| - 1]);
    assert |run| > 0 ==> InNumber(c[o + |run| - 1]);
  }

  function ParseNumber(c: Bytes, o: nat): (r: Outcome)
    requires Terminated(c) && o < |c|
    ensures r.Parsed? ==> o < r.offset < |c|
  {
    var run := NumberRun(c, o, 63);
    var n := Strtod(run);
    NumberInside(c, o);
    if n == 0 then Failed(o) else Parsed(Number(run[..n]), o + n)
  }

  function ParseArray(c: Bytes, o: nat, depth: nat): (r: Outcome)
    requires Terminated(c) && o < |c| && c[o] == OPEN_BRACKET
    ensures r.Parsed? ==> o < r.offset < |c|
    decreases |c| - o, 1
  {
    if depth >= NESTING_LIMIT then Failed(o)
    else
      var o1 := Skip(c, o + 1);
      if c[o1] == CLOSE_BRACKET then Parsed(Array([]), o1 + 1)
      else
        match ParseItems(c, o1 - 1, depth + 1)
        case ParsedItems(items, offset) => Parsed(Array(items), offset + 1)
        case FailedItems(offset) => Failed(offset)
  }

  /** The items behind offset `o`, which is just before the first of them or at the comma between two,
      up to the closing bracket. */
  function ParseItems(c: Bytes, o: nat, depth: nat): (r: ItemsOutcome)
    requires Terminated(c) && o + 1 < |c|
    ensures r.ParsedItems? ==> r.items != [] && o < r.offset < |c| - 1 && c[r.offset] == CLOSE_BRACKET
    decreases |c| - o, 0
  {
    hide ParseValue, Skip;
    match ParseValue(c, Skip(c, o + 1), depth)
    case Failed(offset) => FailedItems(offset)
    case Parsed(value, offset) =>
      var o2 := Skip(c, offset);
      if c[o2] == COMMA then
        match ParseItems(c, o2, depth)
        case ParsedItems(items, end) => ParsedItems([value] + items, end)
        case FailedItems(end) => FailedItems(end)
      else if c[o2] == CLOSE_BRACKET then ParsedItems([value], o2)
      else FailedItems(o2)
  }

  function ParseObject(c: Bytes, o: nat, depth: nat): (r: Outcome)
    requires Terminated(c) && o < |c| && c[o] == OPEN_BRACE
    ensures r.Parsed? ==> o < r.offset < |c|
    decreases |c| - o, 1
  {
    if depth >= NESTING_LIMIT then Failed(o)
    else
      var o1 := Skip(c, o + 1);
      if c[o1] == CLOSE_BRACE then Parsed(Object([]), o1 + 1)
      else
        match ParseMembers(c, o1 - 1, depth + 1)
        case ParsedMembers(members, offset) => Parsed(Object(members), offset + 1)
        case FailedMembers(offset) => Failed(offset)
  }

  /** A key, a colon and a value. */
  function ParseMember(c: Bytes, o: nat, depth: nat): (r: MemberOutcome)
    requires Terminated(c) && o < |c|
    ensures r.ParsedMember? ==> o < r.offset < |c|
    decreases |c| - o, 3
  {
    match ParseString(c, o)
    case FailedString(offset) => FailedMember(offset)
    case ParsedString(key, offset) =>
      var o2 := Skip(c, offset);
      if c[o2] != COLON then FailedMember(o2)
      else
        match ParseValue(c, Skip(c, o2 + 1), depth)
        case Failed(end) => FailedMember(end)
        case Parsed(value, end) => ParsedMember(Member(key, value), end)
  }

  function ParseMembers(c: Bytes, o: nat, depth: nat): (r: MembersOutcome)
    requires Terminated(c) && o + 1 < |c|
    ensures r.ParsedMembers? ==> r.members != [] && o < r.offset < |c| - 1 && c[r.offset] == CLOSE_BRACE
    decreases |c| - o, 0
  {
    match ParseMember(c, Skip(c, o + 1), depth)
    case FailedMember(offset) => FailedMembers(offset)
    case ParsedMember(member, offset) =>
      var o2 := Skip(c, offset);
      if c[o2] == COMMA then
        match ParseMembers(c, o2, depth)
        case ParsedMembers(members, end) => ParsedMembers([member] + members, end)
        case FailedMembers(end) => FailedMembers(end)
      else if c[o2] == CLOSE_BRACE then ParsedMembers([member], o2)
      else FailedMembers(o2)
  }

  const BOM: Bytes := [0xEF, 0xBB, 0xBF]

  /** Where the text starts: behind a byte order mark, if there is one, and the whitespace after it. */
  function TextStart(c: Bytes): (o: nat)
    requires Terminated(c)
    ensures o < |c|
  {
    Skip(c, if |c| > 4 && StartsWith(c, 0, BOM) then 3 else 0)
  }

  /** A whole text: a value and, if the caller asks for it, nothing but whitespace behind it. */
  function ParseText(c: Bytes, toTheEnd: bool): (r: Outcome)
    requires Terminated(c)
    ensures r.offset < |c|
  {
    match ParseValue(c, TextStart(c), 0)
    case Failed(offset) => Failed(if offset < |c| then offset else |c| - 1)
    case Parsed(value, offset) =>
      var end := Skip(c, offset);
      if !toTheEnd then Parsed(value, offset)
      else if c[end] != 0 then Failed(end)
      else Parsed(value, end)
  }
}
