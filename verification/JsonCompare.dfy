/** Comparing trees: arrays element by element, objects member by member whatever their order. */
module JsonCompare {
  import opened JsonText
  import opened JsonGrammar

  // ----- keys ----------------------------------------------------------------------------------------

  function ToLower(b: Byte): Byte {
    if 0x41 <= b <= 0x5A then b + 0x20 else b
  }

  /** Two keys are the same, or the same but for the case of letters. */
  predicate KeysMatch(a: Bytes, b: Bytes, caseSensitive: bool) {
    |a| == |b| && forall i :: 0 <= i < |a| ==> if caseSensitive then a[i] == b[i] else ToLower(a[i]) == ToLower(b[i])
  }

  /** The position of the first member with a matching key; the number of members if there is none. */
  function First(members: seq<Member>, key: Bytes, caseSensitive: bool): (i: nat)
    ensures i <= |members|
    ensures i < |members| ==> KeysMatch(key, members[i].key, caseSensitive)
    ensures forall j :: 0 <= j < i ==> !KeysMatch(key, members[j].key, caseSensitive)
  {
    if members == [] || KeysMatch(key, members[0].key, caseSensitive) then 0
    else 1 + First(members[1..], key, caseSensitive)
  }

  /** Compare keys byte by byte. */
  method CompareKeys(a: Bytes, b: Bytes, caseSensitive: bool) returns (match_: bool)
    ensures match_ == KeysMatch(a, b, caseSensitive)
  {
    if |a| != |b| {
      return false;
    }
    var i := 0;
    while i < |a|
      invariant i <= |a|
      invariant forall k :: 0 <= k < i ==> if caseSensitive then a[k] == b[k] else ToLower(a[k]) == ToLower(b[k])
    {
      if caseSensitive && a[i] != b[i] {
        return false;
      }
      if !caseSensitive && ToLower(a[i]) != ToLower(b[i]) {
        return false;
      }
      i := i + 1;
    }
    match_ := true;
  }

  method GetObjectItem(members: seq<Member>, name: Bytes, caseSensitive: bool) returns (i: nat)
    ensures i == First(members, name, caseSensitive)
  {
    i := 0;
    while i < |members|
      invariant i <= |members|
      invariant forall j :: 0 <= j < i ==> !KeysMatch(name, members[j].key, caseSensitive)
    {
      var found := CompareKeys(name, members[i].key, caseSensitive);
      if found {
        break;
      }
      i := i + 1;
    }
    FirstUnique(members, name, caseSensitive, i);
  }

  lemma FirstUnique(members: seq<Member>, key: Bytes, caseSensitive: bool, i: nat)
    requires i <= |members| && (i < |members| ==> KeysMatch(key, members[i].key, caseSensitive))
    requires forall j :: 0 <= j < i ==> !KeysMatch(key, members[j].key, caseSensitive)
    ensures First(members, key, caseSensitive) == i
  {
    hide KeysMatch;
  }

  /** Matching keys find the same member. */
  lemma FirstMatch(members: seq<Member>, a: Bytes, b: Bytes, caseSensitive: bool)
    requires KeysMatch(a, b, caseSensitive)
    ensures First(members, a, caseSensitive) == First(members, b, caseSensitive)
  {
    var i := First(members, b, caseSensitive);
    forall j | 0 <= j < |members|
      ensures KeysMatch(a, members[j].key, caseSensitive) == KeysMatch(b, members[j].key, caseSensitive)
    {
      KeysMatchThrough(a, b, members[j].key, caseSensitive);
    }
    FirstUnique(members, a, caseSensitive, i);
  }

  lemma KeysMatchThrough(a: Bytes, b: Bytes, k: Bytes, caseSensitive: bool)
    requires KeysMatch(a, b, caseSensitive)
    ensures KeysMatch(a, k, caseSensitive) == KeysMatch(b, k, caseSensitive)
  {
  }

  lemma KeyMatchesItself(k: Bytes, caseSensitive: bool)
    ensures KeysMatch(k, k, caseSensitive)
  {
  }

  lemma KeysMatchBack(a: Bytes, b: Bytes, caseSensitive: bool)
    requires KeysMatch(a, b, caseSensitive)
    ensures KeysMatch(b, a, caseSensitive)
  {
  }

  // ----- what compares equal ---------------------------------------------------------------------------

  /** How items are compared: whether the case of letters in keys matters, and which number a text stands for.
      Numbers are compared only for equality, so the infinities may be any further numbers. */
  datatype Rule = Rule(caseSensitive: bool, worth: Bytes -> real)

  /** The number of items in a tree. */
  function Size(t: Json): (n: nat)
    ensures n > 0
    decreases t, 1
  {
    match t
    case Array(items) => 1 + ItemsSize(items)
    case Object(members) => 1 + MembersSize(members)
    case _ => 1
  }

  function ItemsSize(items: seq<Json>): nat
    decreases items, 0
  {
    if items == [] then 0 else Size(items[0]) + ItemsSize(items[1..])
  }

  function MembersSize(members: seq<Member>): nat
    decreases members, 0
  {
    if members == [] then 0 else Size(members[0].value) + MembersSize(members[1..])
  }

  lemma {:induction false} ItemsSmaller(items: seq<Json>)
    ensures forall i :: 0 <= i < |items| ==> Size(items[i]) <= ItemsSize(items)
  {
    hide Size;
    if items != [] {
      ItemsSmaller(items[1..]);
      forall i | 0 <= i < |items|
        ensures Size(items[i]) <= ItemsSize(items)
      {
        assert i > 0 ==> items[i] == items[1..][i - 1];
      }
    }
  }

  lemma {:induction false} MembersSmaller(members: seq<Member>)
    ensures forall i :: 0 <= i < |members| ==> Size(members[i].value) <= MembersSize(members)
  {
    hide Size;
    if members != [] {
      MembersSmaller(members[1..]);
      forall i | 0 <= i < |members|
        ensures Size(members[i].value) <= MembersSize(members)
      {
        assert i > 0 ==> members[i] == members[1..][i - 1];
      }
    }
  }

  ghost predicate Same(a: Json, b: Json, rule: Rule)
    decreases Size(a) + Size(b), 1
  {
    match a
    case Null => b.Null?
    case False => b.False?
    case True => b.True?
    case Number(text) => b.Number? && rule.worth(text) == rule.worth(b.text)
    case String(s) => b.String? && s == b.s
    case Array(items) =>
      && b.Array? && |items| == |b.items|
      && (ItemsSmaller(items); ItemsSmaller(b.items); forall i :: 0 <= i < |items| ==> Same(items[i], b.items[i], rule))
    case Object(members) =>
      b.Object? && Covers(members, b.members, rule) && Covers(b.members, members, rule)
  }

  /** Every member of `a` compares equal to the first member of `b` with its key. */
  ghost predicate Covers(a: seq<Member>, b: seq<Member>, rule: Rule)
    decreases MembersSize(a) + MembersSize(b) + 2, 0
  {
    MembersSmaller(a);
    MembersSmaller(b);
    forall i :: 0 <= i < |a| ==> var j := First(b, a[i].key, rule.caseSensitive);
      j < |b| && Same(a[i].value, b[j].value, rule)
  }

  /** Compare two items; `identical` says that they are one and the same. */
  method Compare(a: Json, b: Json, rule: Rule, identical: bool) returns (equal: bool)
    requires identical ==> a == b
    ensures equal == (identical || Same(a, b, rule))
    decreases Size(a) + Size(b)
  {
    if identical {
      return true;
    }
    if a.Null? || a.False? || a.True? {
      return a == b;
    }
    if a.Number? {
      return b.Number? && rule.worth(a.text) == rule.worth(b.text);
    }
    if a.String? {
      return b.String? && a.s == b.s;
    }
    if a.Array? {
      if !b.Array? {
        return false;
      }
      equal := CompareArrays(a.items, b.items, rule);
      return;
    }
    if !b.Object? {
      return false;
    }
    hide Covers;
    equal := CompareMembers(a.members, b.members, rule);
    if equal {
      equal := CompareMembers(b.members, a.members, rule);
    }
  }

  method CompareArrays(a: seq<Json>, b: seq<Json>, rule: Rule) returns (equal: bool)
    ensures equal == Same(Array(a), Array(b), rule)
    decreases ItemsSize(a) + ItemsSize(b) + 1
  {
    ItemsSmaller(a);
    ItemsSmaller(b);
    var i := 0;
    while i < |a| && i < |b|
      invariant i <= |a| && i <= |b|
      invariant forall k :: 0 <= k < i ==> Same(a[k], b[k], rule)
    {
      equal := Compare(a[i], b[i], rule, false);
      if !equal {
        return;
      }
      i := i + 1;
    }
    equal := i == |a| && i == |b|;
  }

  method CompareMembers(a: seq<Member>, b: seq<Member>, rule: Rule) returns (equal: bool)
    ensures equal == Covers(a, b, rule)
    decreases MembersSize(a) + MembersSize(b) + 1
  {
    MembersSmaller(a);
    MembersSmaller(b);
    hide First;
    var i := 0;
    while i < |a|
      invariant i <= |a|
      invariant forall k :: 0 <= k < i ==>
                  First(b, a[k].key, rule.caseSensitive) < |b| &&
                  Same(a[k].value, b[First(b, a[k].key, rule.caseSensitive)].value, rule)
    {
      var j := GetObjectItem(b, a[i].key, rule.caseSensitive);
      if j == |b| {
        return false;
      }
      equal := Compare(a[i].value, b[j].value, rule, false);
      if !equal {
        return;
      }
      i := i + 1;
    }
    equal := true;
  }

  // ----- an equivalence --------------------------------------------------------------------------------

  lemma {:induction false} SameSymmetric(a: Json, b: Json, rule: Rule)
    requires Same(a, b, rule)
    ensures Same(b, a, rule)
    decreases Size(a)
  {
    hide Covers;
    if a.Array? {
      ItemsSmaller(a.items);
      forall i | 0 <= i < |a.items|
        ensures Same(b.items[i], a.items[i], rule)
      {
        SameSymmetric(a.items[i], b.items[i], rule);
      }
    }
  }

  lemma {:induction false} SameTransitive(a: Json, b: Json, c: Json, rule: Rule)
    requires Same(a, b, rule) && Same(b, c, rule)
    ensures Same(a, c, rule)
    decreases Size(a) + Size(c)
  {
    hide Covers;
    if a.Array? {
      ItemsSmaller(a.items);
      ItemsSmaller(c.items);
      forall i | 0 <= i < |a.items|
        ensures Same(a.items[i], c.items[i], rule)
      {
        SameTransitive(a.items[i], b.items[i], c.items[i], rule);
      }
    } else if a.Object? {
      CoversTransitive(a.members, b.members, c.members, rule);
      CoversTransitive(c.members, b.members, a.members, rule);
    }
  }

  lemma {:induction false} CoversTransitive(a: seq<Member>, b: seq<Member>, c: seq<Member>, rule: Rule)
    requires Covers(a, b, rule) && Covers(b, c, rule)
    ensures Covers(a, c, rule)
    decreases MembersSize(a) + MembersSize(c) + 1
  {
    MembersSmaller(a);
    MembersSmaller(c);
    hide First, Same;
    forall i | 0 <= i < |a|
      ensures var k := First(c, a[i].key, rule.caseSensitive);
        k < |c| && Same(a[i].value, c[k].value, rule)
    {
      var j := First(b, a[i].key, rule.caseSensitive);
      FirstMatch(c, a[i].key, b[j].key, rule.caseSensitive);
      SameTransitive(a[i].value, b[j].value, c[First(c, a[i].key, rule.caseSensitive)].value, rule);
    }
  }

  // ----- copies ----------------------------------------------------------------------------------------

  /** Members of an object whose keys match also compare equal, and so it goes all the way down. */
  ghost predicate Consistent(t: Json, rule: Rule)
    decreases t
  {
    match t
    case Array(items) => forall i :: 0 <= i < |items| ==> Consistent(items[i], rule)
    case Object(members) =>
      && (forall i :: 0 <= i < |members| ==> Consistent(members[i].value, rule))
      && (forall i, j :: 0 <= i < j < |members| && KeysMatch(members[i].key, members[j].key, rule.caseSensitive) ==>
            Same(members[i].value, members[j].value, rule))
    case _ => true
  }

  predicate UniqueKeys(t: Json, caseSensitive: bool)
    decreases t
  {
    match t
    case Array(items) => forall i :: 0 <= i < |items| ==> UniqueKeys(items[i], caseSensitive)
    case Object(members) =>
      && (forall i :: 0 <= i < |members| ==> UniqueKeys(members[i].value, caseSensitive))
      && (forall i, j :: 0 <= i < j < |members| ==> !KeysMatch(members[i].key, members[j].key, caseSensitive))
    case _ => true
  }

  /** A tree compares equal to its copy exactly if it is consistent. */
  lemma {:induction false} CopySame(t: Json, rule: Rule)
    ensures Same(t, t, rule) <==> Consistent(t, rule)
    decreases t
  {
    hide Covers;
    if t.Array? {
      forall i | 0 <= i < |t.items| { CopySame(t.items[i], rule); }
    } else if t.Object? {
      forall i | 0 <= i < |t.members| { CopySame(t.members[i].value, rule); }
      CoversItself(t.members, rule);
    }
  }

  ghost predicate Repeats(members: seq<Member>, rule: Rule) {
    && (forall i :: 0 <= i < |members| ==> Same(members[i].value, members[i].value, rule))
    && (forall i, j :: 0 <= i < j < |members| && KeysMatch(members[i].key, members[j].key, rule.caseSensitive) ==>
          Same(members[i].value, members[j].value, rule))
  }

  lemma CoversItself(members: seq<Member>, rule: Rule)
    ensures Covers(members, members, rule) <==> Repeats(members, rule)
  {
    if Covers(members, members, rule) { CoversRepeats(members, rule); }
    if Repeats(members, rule) { RepeatsCover(members, rule); }
  }

  lemma FirstNotLater(members: seq<Member>, i: nat, caseSensitive: bool)
    requires i < |members|
    ensures First(members, members[i].key, caseSensitive) <= i
  {
    KeyMatchesItself(members[i].key, caseSensitive);
    hide KeysMatch;
  }

  lemma CoversRepeats(members: seq<Member>, rule: Rule)
    requires Covers(members, members, rule)
    ensures Repeats(members, rule)
  {
    hide Same, First, KeysMatch;
    forall i, j | 0 <= i <= j < |members| && KeysMatch(members[i].key, members[j].key, rule.caseSensitive)
      ensures Same(members[i].value, members[j].value, rule)
    {
      var f := First(members, members[i].key, rule.caseSensitive);
      FirstMatch(members, members[i].key, members[j].key, rule.caseSensitive);
      SameSymmetric(members[j].value, members[f].value, rule);
      SameTransitive(members[i].value, members[f].value, members[j].value, rule);
    }
    forall i | 0 <= i < |members|
      ensures Same(members[i].value, members[i].value, rule)
    {
      KeyMatchesItself(members[i].key, rule.caseSensitive);
    }
  }

  lemma RepeatsCover(members: seq<Member>, rule: Rule)
    requires Repeats(members, rule)
    ensures Covers(members, members, rule)
  {
    hide Same, First, KeysMatch;
    forall i | 0 <= i < |members|
      ensures First(members, members[i].key, rule.caseSensitive) < |members|
      ensures Same(members[i].value, members[First(members, members[i].key, rule.caseSensitive)].value, rule)
    {
      FirstNotLater(members, i, rule.caseSensitive);
      var f := First(members, members[i].key, rule.caseSensitive);
      if f < i {
        KeysMatchBack(members[i].key, members[f].key, rule.caseSensitive);
        SameSymmetric(members[f].value, members[i].value, rule);
      }
    }
  }

  /** A tree with unique keys compares equal to its copy. */
  lemma {:induction false} UniqueCopySame(t: Json, rule: Rule)
    requires UniqueKeys(t, rule.caseSensitive)
    ensures Same(t, t, rule)
  {
    UniqueConsistent(t, rule);
    CopySame(t, rule);
  }

  lemma {:induction false} UniqueConsistent(t: Json, rule: Rule)
    requires UniqueKeys(t, rule.caseSensitive)
    ensures Consistent(t, rule)
    decreases t
  {
    if t.Array? {
      forall i | 0 <= i < |t.items| { UniqueConsistent(t.items[i], rule); }
    } else if t.Object? {
      forall i | 0 <= i < |t.members| { UniqueConsistent(t.members[i].value, rule); }
    }
  }

  /** An object that gives one key two different values does not compare equal to its copy. */
  lemma RepeatedKeyDiffers(key: Bytes, rule: Rule)
    ensures var t := Object([Member(key, True), Member(key, False)]);
      !Same(t, t, rule)
  {
    var t := Object([Member(key, True), Member(key, False)]);
    KeyMatchesItself(key, rule.caseSensitive);
    assert KeysMatch(t.members[0].key, t.members[1].key, rule.caseSensitive);
    assert !Same(t.members[0].value, t.members[1].value, rule);
    CopySame(t, rule);
  }
}
