/** Parsing undoes printing: exactly for the trees within the nesting limit. */
module JsonRoundTrip {
  import opened JsonText
  import opened JsonGrammar
  import opened JsonSyntax
  import opened JsonSpelling
  import opened JsonDepth
  import opened JsonReading
  import opened JsonLayout

  /** Parsing the text of a tree gives the tree back and consumes exactly the text: wherever the text
      stands, formatted or not, if the tree is not nested too deeply. */
  lemma ValueRoundTrip(c: Bytes, o: nat, t: Json, fmt: bool, pd: nat, depth: nat)
    requires Terminated(c) && WellFormed(t) && depth + Height(t) <= NESTING_LIMIT
    requires Occurs(c, o, Render(t, fmt, pd))
    requires t.Number? ==> o + |Render(t, fmt, pd)| < |c| && !InNumber(c[o + |Render(t, fmt, pd)|])
    ensures o < |c| && ParseValue(c, o, depth) == Parsed(t, o + |Render(t, fmt, pd)|)
  {
    hide *;
    var x := Rendered(t, fmt, pd);
    MeaningNumber(x);
    ValueRead(c, o, x, depth);
  }

  lemma MeaningNumber(x: Syntax)
    requires Good(x)
    ensures x.Num? <==> Meaning(x).Number?
  {
    hide ItemsMeaning, EntriesMeaning;
  }

  /** The text of a tree, with its NUL, spells the tree. */
  lemma PrintSpells(t: Json, fmt: bool) returns (x: Syntax)
    requires WellFormed(t)
    ensures var c := Render(t, fmt, 0) + [0];
      Terminated(c) && Spelling(c, [], [], x, [0]) && Good(x) && Meaning(x) == t
  {
    hide WellFormed, Render, Good, Meaning, Write;
    x := Rendered(t, fmt, 0);
    assert [] + ([] + (Write(x) + [0])) == Write(x) + [0];
  }

  /** A tree nested at most 1000 deep, printed as a C string, formatted or not, and parsed: the same tree
      comes back and only the NUL is left. */
  lemma PrintThenParse(t: Json, fmt: bool, toTheEnd: bool)
    requires WellFormed(t) && Height(t) <= NESTING_LIMIT
    ensures var c := Render(t, fmt, 0) + [0];
      Terminated(c) && ParseText(c, toTheEnd) == Parsed(t, |c| - 1)
  {
    assert Blank([0]) && !InNumber(0);
    hide *;
    var x := PrintSpells(t, fmt);
    TextRead(Render(t, fmt, 0) + [0], [], [], x, [0]);
  }

  /** Parsing undoes printing exactly for the trees within the limit; the text of any other tree is refused. */
  lemma RoundTripExactly(t: Json, fmt: bool, toTheEnd: bool)
    requires WellFormed(t)
    ensures var c := Render(t, fmt, 0) + [0];
      && Terminated(c) && (ParseText(c, toTheEnd) == Parsed(t, |c| - 1) <==> Height(t) <= NESTING_LIMIT)
      && (ParseText(c, toTheEnd).Failed? <==> Height(t) > NESTING_LIMIT)
  {
    hide *;
    if Height(t) <= NESTING_LIMIT {
      PrintThenParse(t, fmt, toTheEnd);
    } else {
      var x := PrintSpells(t, fmt);
      TextTooDeep(Render(t, fmt, 0) + [0], [], [], x, [0]);
    }
  }

  // ----- an example ----------------------------------------------------------------------------------

  /** An empty array inside `k` arrays. */
  function Nested(k: nat): Json {
    if k == 0 then Array([]) else Array([Nested(k - 1)])
  }

  lemma {:induction false} NestedHeight(k: nat)
    ensures Height(Nested(k)) == k + 1 && WellFormed(Nested(k))
  {
    if k > 0 {
      NestedHeight(k - 1);
      var items := [Nested(k - 1)];
      assert items[1..] == [] && ItemsHeight(items) == k;
    }
  }

  /** A thousand arrays inside one another are read back; one more, and their text is refused. */
  lemma ThousandAndOne(fmt: bool, toTheEnd: bool)
    ensures var c := Render(Nested(999), fmt, 0) + [0];
      Terminated(c) && ParseText(c, toTheEnd) == Parsed(Nested(999), |c| - 1)
    ensures var c := Render(Nested(1000), fmt, 0) + [0];
      Terminated(c) && ParseText(c, toTheEnd).Failed?
  {
    hide Nested, Render, ParseText, WellFormed, Height;
    NestedHeight(999);
    NestedHeight(1000);
    RoundTripExactly(Nested(999), fmt, toTheEnd);
    RoundTripExactly(Nested(1000), fmt, toTheEnd);
  }
}
