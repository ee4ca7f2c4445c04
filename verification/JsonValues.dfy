/** The values that trees stand for; comparing trees is comparing their values, unless a key is repeated with different
    values. */
module JsonValues {
  import opened JsonText
  import opened JsonGrammar
  import opened JsonCompare

  /** A value: the order of an object's members does not matter, nor does the text of a number. */
  datatype Value =
    | Nothing
    | Truth(holds: bool)
    | Amount(worth: real)
    | Words(s: Bytes)
    | Row(values: seq<Value>)
    | Record(fields: map<Bytes, Value>)

  /** The key that a member is found under. */
  ghost function Fold(key: Bytes, caseSensitive: bool): Bytes {
    if caseSensitive then key else seq(|key|, i requires 0 <= i < |key| => LowerCase(key[i]))
  }

  const UPPER := "ABCDEFGHIJKLMNOPQRSTUVWXYZ"
  const LOWER := "abcdefghijklmnopqrstuvwxyz"

  /** Letters in lower case, other bytes as they are. */
  ghost function LowerCase(b: Byte): Byte {
    if exists i :: 0 <= i < |UPPER| && UPPER[i] as int == b then
      var i :| 0 <= i < |UPPER| && UPPER[i] as int == b;
      Letters();
      LOWER[i] as int
    else b
  }

  lemma Letters()
    ensures |UPPER| == |LOWER| == 26
    ensures forall i :: 0 <= i < 26 ==> UPPER[i] as int == 0x41 + i && LOWER[i] as int == 0x61 + i
  {
  }

  ghost function ValueOf(t: Json, rule: Rule): Value
    decreases t, 1
  {
    match t
    case Null => Nothing
    case False => Truth(false)
    case True => Truth(true)
    case Number(text) => Amount(rule.worth(text))
    case String(s) => Words(s)
    case Array(items) => Row(ItemsValue(items, rule))
    case Object(members) => Record(Fields(members, rule))
  }

  ghost function ItemsValue(items: seq<Json>, rule: Rule): (vs: seq<Value>)
    ensures |vs| == |items|
    decreases items, 0
  {
    if items == [] then [] else [ValueOf(items[0], rule)] + ItemsValue(items[1..], rule)
  }

  /** The fields of a record: of members with the same key the first counts. */
  ghost function Fields(members: seq<Member>, rule: Rule): map<Bytes, Value>
    decreases members, 0
  {
    if members == [] then map[]
    else Fields(members[1..], rule)[Fold(members[0].key, rule.caseSensitive) := ValueOf(members[0].value, rule)]
  }

  /** Members with the same key have the same value, and so it goes all the way down. */
  ghost predicate Unanimous(t: Json, rule: Rule)
    decreases t
  {
    match t
    case Array(items) => forall i :: 0 <= i < |items| ==> Unanimous(items[i], rule)
    case Object(members) =>
      && (forall i :: 0 <= i < |members| ==> Unanimous(members[i].value, rule))
      && (forall i, j | 0 <= i < j < |members| ::
            Fold(members[i].key, rule.caseSensitive) == Fold(members[j].key, rule.caseSensitive) ==>
            ValueOf(members[i].value, rule) == ValueOf(members[j].value, rule))
    case _ => true
  }

  // ----- keys ----------------------------------------------------------------------------------------------

  lemma LowerIs(b: Byte)
    ensures LowerCase(b) == ToLower(b)
  {
    Letters();
    if 0x41 <= b <= 0x5A { assert UPPER[b - 0x41] as int == b; }
  }

  /** Keys match exactly if they are found under the same key. */
  lemma FoldMatches(a: Bytes, b: Bytes, caseSensitive: bool)
    ensures KeysMatch(a, b, caseSensitive) <==> Fold(a, caseSensitive) == Fold(b, caseSensitive)
  {
    var x, y := Fold(a, caseSensitive), Fold(b, caseSensitive);
    forall i | 0 <= i < |a| && i < |b|
      ensures x[i] == y[i] <==> if caseSensitive then a[i] == b[i] else ToLower(a[i]) == ToLower(b[i])
    {
      LowerIs(a[i]);
      LowerIs(b[i]);
    }
    if KeysMatch(a, b, caseSensitive) { assert x == y; }
  }

  /** The first member with a matching key is the one that counts. */
  lemma {:induction false} FieldsFirst(members: seq<Member>, key: Bytes, rule: Rule)
    ensures var k, i := Fold(key, rule.caseSensitive), First(members, key, rule.caseSensitive);
      && (k in Fields(members, rule) <==> i < |members|)
      && (i < |members| ==> Fields(members, rule)[k] == ValueOf(members[i].value, rule))
    decreases |members|
  {
    hide Fold, KeysMatch, ValueOf;
    if members != [] {
      FoldMatches(key, members[0].key, rule.caseSensitive);
      FieldsFirst(members[1..], key, rule);
    }
  }

  lemma {:induction false} FieldsKeys(members: seq<Member>, k: Bytes, rule: Rule) returns (i: nat)
    requires k in Fields(members, rule)
    ensures i < |members| && k == Fold(members[i].key, rule.caseSensitive)
    decreases |members|
  {
    hide Fold, ValueOf;
    if k == Fold(members[0].key, rule.caseSensitive) {
      i := 0;
    } else {
      i := FieldsKeys(members[1..], k, rule);
      i := i + 1;
    }
  }

  // ----- comparing is comparing values -----------------------------------------------------------------------

  lemma {:induction false} ItemsValueAt(items: seq<Json>, i: nat, rule: Rule)
    requires i < |items|
    ensures ItemsValue(items, rule)[i] == ValueOf(items[i], rule)
    decreases |items|
  {
    hide ValueOf;
    if i > 0 { ItemsValueAt(items[1..], i - 1, rule); }
  }

  /** Every member of `a` has the value of the first member of `b` with its key. */
  ghost predicate Matches(a: seq<Member>, b: seq<Member>, rule: Rule) {
    forall i :: 0 <= i < |a| ==> var j := First(b, a[i].key, rule.caseSensitive);
      && j < |b| && ValueOf(a[i].value, rule) == ValueOf(b[j].value, rule)
      && Unanimous(a[i].value, rule) && Unanimous(b[j].value, rule)
  }

  lemma {:induction false} CoversExactly(a: seq<Member>, b: seq<Member>, rule: Rule)
    ensures Covers(a, b, rule) <==> Matches(a, b, rule)
    decreases MembersSize(a) + MembersSize(b) + 1
  {
    MembersSmaller(a);
    MembersSmaller(b);
    hide First, Same, ValueOf, Unanimous, Size, MembersSize;
    forall i | 0 <= i < |a| && First(b, a[i].key, rule.caseSensitive) < |b|
      ensures var j := First(b, a[i].key, rule.caseSensitive);
        Same(a[i].value, b[j].value, rule) <==>
          && ValueOf(a[i].value, rule) == ValueOf(b[j].value, rule)
          && Unanimous(a[i].value, rule) && Unanimous(b[j].value, rule)
    {
      SameExactly(a[i].value, b[First(b, a[i].key, rule.caseSensitive)].value, rule);
    }
  }

  /** What `a` has under the key of one of its members, `b` has too. */
  lemma MatchesField(a: seq<Member>, b: seq<Member>, i: nat, rule: Rule)
    requires Matches(a, b, rule) && i < |a|
    ensures var k := Fold(a[i].key, rule.caseSensitive);
      && k in Fields(a, rule) && k in Fields(b, rule)
      && Fields(a, rule)[k] == Fields(b, rule)[k] == ValueOf(a[i].value, rule)
  {
    hide Fold, ValueOf, Unanimous, First, Fields;
    var f := First(a, a[i].key, rule.caseSensitive);
    FieldsFirst(a, a[i].key, rule);
    FieldsFirst(b, a[i].key, rule);
    FirstNotLater(a, i, rule.caseSensitive);
    FirstMatch(b, a[i].key, a[f].key, rule.caseSensitive);
  }

  lemma {:induction false} MatchesUnanimous(a: seq<Member>, b: seq<Member>, rule: Rule)
    requires Matches(a, b, rule)
    ensures Unanimous(Object(a), rule)
  {
    forall i | 0 <= i < |a|
      ensures Unanimous(a[i].value, rule)
      ensures Fold(a[i].key, rule.caseSensitive) in Fields(b, rule)
      ensures Fields(b, rule)[Fold(a[i].key, rule.caseSensitive)] == ValueOf(a[i].value, rule)
    {
      MatchesField(a, b, i, rule);
    }
    hide Fold, ValueOf, Fields, Matches;
  }

  lemma {:induction false} MatchesRecords(a: seq<Member>, b: seq<Member>, rule: Rule)
    requires Matches(a, b, rule) && Matches(b, a, rule)
    ensures Fields(a, rule) == Fields(b, rule)
  {
    hide Fold, ValueOf, Fields, Matches;
    forall k | k in Fields(a, rule)
      ensures k in Fields(b, rule) && Fields(a, rule)[k] == Fields(b, rule)[k]
    {
      var i := FieldsKeys(a, k, rule);
      MatchesField(a, b, i, rule);
    }
    forall k | k in Fields(b, rule)
      ensures k in Fields(a, rule)
    {
      var i := FieldsKeys(b, k, rule);
      MatchesField(b, a, i, rule);
    }
  }

  lemma {:induction false} RecordsMatch(a: seq<Member>, b: seq<Member>, rule: Rule)
    requires Fields(a, rule) == Fields(b, rule) && Unanimous(Object(a), rule) && Unanimous(Object(b), rule)
    ensures Matches(a, b, rule)
  {
    forall i | 0 <= i < |a|
      ensures var j := First(b, a[i].key, rule.caseSensitive);
        j < |b| && ValueOf(a[i].value, rule) == ValueOf(b[j].value, rule)
    {
      RecordsMatchAt(a, b, i, rule);
    }
    hide Fold, ValueOf, Fields, First;
  }

  lemma {:induction false} RecordsMatchAt(a: seq<Member>, b: seq<Member>, i: nat, rule: Rule)
    requires Fields(a, rule) == Fields(b, rule) && Unanimous(Object(a), rule) && i < |a|
    ensures var j := First(b, a[i].key, rule.caseSensitive);
      j < |b| && ValueOf(a[i].value, rule) == ValueOf(b[j].value, rule)
  {
    hide Fold, ValueOf, Fields, First, KeysMatch;
    var f := First(a, a[i].key, rule.caseSensitive);
    FieldsFirst(a, a[i].key, rule);
    FieldsFirst(b, a[i].key, rule);
    FirstNotLater(a, i, rule.caseSensitive);
    FoldMatches(a[i].key, a[f].key, rule.caseSensitive);
    if f < i { assert ValueOf(a[f].value, rule) == ValueOf(a[i].value, rule); }
  }

  /** Two trees compare equal exactly if they stand for the same value and neither gives a key two values. */
  lemma {:induction false} SameExactly(a: Json, b: Json, rule: Rule)
    ensures Same(a, b, rule) <==> ValueOf(a, rule) == ValueOf(b, rule) && Unanimous(a, rule) && Unanimous(b, rule)
    decreases Size(a) + Size(b)
  {
    if a.Array? && b.Array? {
      ArraysExactly(a.items, b.items, rule);
    } else if a.Object? && b.Object? {
      CoversExactly(a.members, b.members, rule);
      CoversExactly(b.members, a.members, rule);
      RecordsExactly(a.members, b.members, rule);
      hide Covers, Fields, Matches;
    }
  }

  lemma {:induction false} RecordsExactly(a: seq<Member>, b: seq<Member>, rule: Rule)
    ensures Matches(a, b, rule) && Matches(b, a, rule) <==>
            Fields(a, rule) == Fields(b, rule) && Unanimous(Object(a), rule) && Unanimous(Object(b), rule)
  {
    hide *;
    if Matches(a, b, rule) && Matches(b, a, rule) {
      MatchesRecords(a, b, rule);
      MatchesUnanimous(a, b, rule);
      MatchesUnanimous(b, a, rule);
    }
    if Fields(a, rule) == Fields(b, rule) && Unanimous(Object(a), rule) && Unanimous(Object(b), rule) {
      RecordsMatch(a, b, rule);
      RecordsMatch(b, a, rule);
    }
  }

  lemma {:induction false} ArraysExactly(a: seq<Json>, b: seq<Json>, rule: Rule)
    ensures Same(Array(a), Array(b), rule) <==>
            ItemsValue(a, rule) == ItemsValue(b, rule) && Unanimous(Array(a), rule) && Unanimous(Array(b), rule)
    decreases ItemsSize(a) + ItemsSize(b) + 1
  {
    ItemsSmaller(a);
    ItemsSmaller(b);
    if |a| == |b| {
      forall i | 0 <= i < |a|
        ensures Same(a[i], b[i], rule) <==>
                  && ItemsValue(a, rule)[i] == ItemsValue(b, rule)[i] && Unanimous(a[i], rule) && Unanimous(b[i], rule)
      {
        SameExactly(a[i], b[i], rule);
        ItemsValueAt(a, i, rule);
        ItemsValueAt(b, i, rule);
      }
      hide ValueOf, ItemsValue, Size;
    }
  }

  lemma {:induction false} UniqueUnanimous(t: Json, rule: Rule)
    requires UniqueKeys(t, rule.caseSensitive)
    ensures Unanimous(t, rule)
    decreases t
  {
    if t.Array? {
      forall i | 0 <= i < |t.items| { UniqueUnanimous(t.items[i], rule); }
    } else if t.Object? {
      forall i | 0 <= i < |t.members| { UniqueUnanimous(t.members[i].value, rule); }
      forall i, j | 0 <= i < j < |t.members|
        ensures Fold(t.members[i].key, rule.caseSensitive) != Fold(t.members[j].key, rule.caseSensitive)
      {
        FoldMatches(t.members[i].key, t.members[j].key, rule.caseSensitive);
      }
    }
  }

  /** A tree without objects. */
  predicate Plain(t: Json)
    decreases t
  {
    match t
    case Array(items) => forall i :: 0 <= i < |items| ==> Plain(items[i])
    case Object(_) => false
    case _ => true
  }

  /** If each number is written in one way only, trees without objects compare equal only to themselves. */
  lemma {:induction false} PlainSame(a: Json, b: Json, rule: Rule)
    requires Plain(a) && Plain(b) && forall x, y :: rule.worth(x) == rule.worth(y) ==> x == y
    ensures Same(a, b, rule) <==> a == b
    decreases a
  {
    if a.Array? && b.Array? && |a.items| == |b.items| {
      forall i | 0 <= i < |a.items| { PlainSame(a.items[i], b.items[i], rule); }
      if Same(a, b, rule) { assert a.items == b.items; }
    }
  }
}
