/** What Resolve writes for a set-up and puts on record, in its own words. */
module CalcWritten {
  import opened Wrappers
  import opened Text
  import opened Sequences
  import opened CalcResolve
  import opened CalcResolveFacts
  import CalcAnswer

  // ---------------------------------------------------------------- any set-up, anywhere

  /** A set-up among others, `inside` another or outside them all. What it holds is worked out first, c is
      the engine's answer to that; outside, value and expression are written or the expression with a note,
      inside, the value alone or the expression in parentheses. What stands before and after is as without
      it, and its calculations come between theirs, its own last. */
  lemma SetUpIsWritten<F, O>(eng: Engine<F, O>, before: seq<Item>, body: seq<Item>, after: seq<Item>, inside: bool)
    ensures var b := Meaning(eng, before, inside, Empty());
            var held := Meaning(eng, body, true, Empty());
            var a := Meaning(eng, after, inside, Empty());
            var all := Meaning(eng, before + [SetUp(body)] + after, inside, Empty());
            var expr := TrimSpace(held.text);
            var c := eng.evaluate(expr, set k | 0 <= k < |held.derived| :: held.derived[k] - Leading(held.text, Blank));
            && all.calcs == b.calcs + (held.calcs + [c]) + a.calcs
            && (inside && c.value.Some? ==> all.text == b.text + eng.plain(c.value.value) + a.text)
            && (inside && c.value.None? ==> all.text == b.text + ("(" + expr + ")") + a.text)
            && (!inside && c.value.Some? ==> all.text == b.text + (c.display + " (= " + expr + ")") + a.text)
            && (!inside && c.value.None? ==> all.text == b.text + (expr + " (could not be computed)") + a.text)
  {
    Between(eng, before, SetUp(body), after, inside);
    var held := Meaning(eng, body, true, Empty<F, O>());
    assert Places(held) == set k | 0 <= k < |held.derived| :: held.derived[k] - Leading(held.text, Blank);
    var c := Calculated(eng, held);
    assert "" + Replacement(eng, inside, Expression(held), c) == Replacement(eng, inside, Expression(held), c);
  }

  /** One item between others. */
  lemma Between<F, O>(eng: Engine<F, O>, before: seq<Item>, item: Item, after: seq<Item>, inside: bool)
    ensures var b, a := Meaning(eng, before, inside, Empty()), Meaning(eng, after, inside, Empty());
            Meaning(eng, before + [item] + after, inside, Empty())
            == After(After(b, MeaningOf(eng, item, inside, Empty())), a)
  {
    var none := Empty<F, O>();
    var b := Meaning(eng, before, inside, none);
    MeaningConcat(eng, before + [item], after, inside, none);
    MeaningConcat(eng, before, [item], inside, none);
    ItemReadsTheSame(eng, item, inside, b);
    ReadsTheSameAnywhere(eng, after, inside, MeaningOf(eng, item, inside, b));
    assert [item][1..] == [];
  }

  /** A set-up never closed takes in all that follows it and fails. */
  lemma OpenSetUpIsWritten<F, O>(eng: Engine<F, O>, before: seq<Item>, body: seq<Item>, inside: bool)
    ensures var b := Meaning(eng, before, inside, Empty());
            var held := Meaning(eng, body, true, Empty());
            var all := Meaning(eng, before + [OpenSetUp(body)], inside, Empty());
            var expr := TrimSpace(held.text);
            && all.text == b.text + (expr + " (could not be computed)")
            && all.calcs == b.calcs + (held.calcs + [Calculation(expr, None, "", "a << with no >>", [])])
  {
    Between(eng, before, OpenSetUp(body), [], inside);
    assert before + [OpenSetUp(body)] + [] == before + [OpenSetUp(body)];
    var held := Meaning(eng, body, true, Empty<F, O>());
    assert "" + (Expression(held) + NOTE) == Expression(held) + NOTE;
    var one := MeaningOf(eng, OpenSetUp(body), inside, Empty<F, O>());
    assert After(Meaning(eng, before, inside, Empty<F, O>()), one)
        == After(After(Meaning(eng, before, inside, Empty<F, O>()), one), Empty<F, O>());
  }

  /** A closing mark that closes nothing leaves the text and is on record. */
  lemma StrayIsRecorded<F, O>(eng: Engine<F, O>, before: seq<Item>, after: seq<Item>)
    ensures var b, a := Meaning(eng, before, false, Empty()), Meaning(eng, after, false, Empty());
            var all := Meaning(eng, before + [Stray] + after, false, Empty());
            && all.text == b.text + a.text
            && all.calcs == b.calcs + [Calculation(">>", None, "", "a >> with no <<", [])] + a.calcs
  {
    Between(eng, before, Stray, after, false);
    var b := Meaning(eng, before, false, Empty<F, O>());
    assert b.text + "" == b.text && [] + [Unopened<F, O>()] == [Unopened<F, O>()];
  }

  // ---------------------------------------------------------------- as text

  /** A nesting as text. */
  function Spell(items: seq<Item>): string
    decreases items, 0
  {
    if items == [] then "" else SpellItem(items[0]) + Spell(items[1..])
  }

  function SpellItem(item: Item): string
    decreases item, 1
  {
    match item
    case Byte(c) => [c]
    case SetUp(body) => "<<" + (Spell(body) + ">>")
    case OpenSetUp(body) => "<<" + Spell(body)
    case Stray => ">>"
  }

  /** No byte of it is an angle bracket. */
  predicate NoAngles(items: seq<Item>)
    decreases items, 0
  {
    items == [] || (NoAnglesIn(items[0]) && NoAngles(items[1..]))
  }

  predicate NoAnglesIn(item: Item)
    decreases item, 1
  {
    match item
    case Byte(c) => c != '<' && c != '>'
    case SetUp(body) => NoAngles(body)
    case OpenSetUp(body) => NoAngles(body)
    case Stray => true
  }

  lemma {:induction false} MarksOfItems(items: seq<Item>, rest: string)
    requires NoAngles(items)
    ensures Marks(Spell(items) + rest) == Flat(items) + Marks(rest)
    decreases items, 0
  {
    if items == [] {
      assert Spell(items) + rest == rest;
    } else {
      MarksOfItems(items[1..], rest);
      MarksOfItem(items[0], Spell(items[1..]) + rest);
      ConcatAssociates(SpellItem(items[0]), Spell(items[1..]), rest);
      ConcatAssociates(FlatItem(items[0]), Flat(items[1..]), Marks(rest));
    }
  }

  lemma {:induction false} MarksOfItem(item: Item, rest: string)
    requires NoAnglesIn(item)
    ensures Marks(SpellItem(item) + rest) == FlatItem(item) + Marks(rest)
    decreases item, 1
  {
    match item
    case Byte(c) => assert ([c] + rest)[1..] == rest;
    case Stray => PairRead(">>", rest);
    case OpenSetUp(body) =>
      MarksOfItems(body, rest);
      PairRead("<<", Spell(body) + rest);
      ConcatAssociates("<<", Spell(body), rest);
      ConcatAssociates([Open], Flat(body), Marks(rest));
    case SetUp(body) =>
      PairRead(">>", rest);
      MarksOfItems(body, ">>" + rest);
      PairRead("<<", Spell(body) + (">>" + rest));
      ConcatFour("<<", Spell(body), ">>", rest);
      ConcatFour([Open], Flat(body), [Close], Marks(rest));
      assert "<<" + (Spell(body) + ">>") == "<<" + Spell(body) + ">>";
  }

  lemma PairRead(pair: string, rest: string)
    requires pair == "<<" || pair == ">>"
    ensures Marks(pair + rest) == [if pair == "<<" then Open else Close] + Marks(rest)
  {
    assert (pair + rest)[2..] == rest && (pair + rest)[0] == pair[0] && (pair + rest)[1] == pair[1];
  }

  /** Resolve reads a nesting back from its text. */
  lemma SpelledIsRead(items: seq<Item>)
    requires Nested(items, false) && NoAngles(items)
    ensures Nesting(Spell(items)) == items
  {
    MarksOfItems(items, "");
    assert Spell(items) + "" == Spell(items) && Flat(items) + Marks("") == Flat(items);
    NestingIsUnique(Spell(items), items);
  }

  predicate Angled(s: string) { exists k | 0 <= k < |s| :: s[k] == '<' || s[k] == '>' }

  lemma {:induction false} BytesSpelled(s: string, rest: seq<Item>)
    ensures Spell(Bytes(s) + rest) == s + Spell(rest)
    ensures !Angled(s) ==> (NoAngles(Bytes(s) + rest) <==> NoAngles(rest))
    ensures Nested(Bytes(s) + rest, true) <==> Nested(rest, true)
    ensures Nested(Bytes(s) + rest, false) <==> Nested(rest, false)
    decreases |s|
  {
    if s == "" {
      assert Bytes(s) + rest == rest;
    } else {
      var t := s[1..];
      assert (Bytes(s) + rest)[1..] == Bytes(t) + rest;
      assert forall k | 0 <= k < |t| :: t[k] == s[k + 1];
      BytesSpelled(t, rest);
      assert [s[0]] + (t + Spell(rest)) == s + Spell(rest);
    }
  }

  lemma OneSetUpSpelled(x: string, e: string, y: string)
    requires !Angled(x) && !Angled(e) && !Angled(y)
    ensures Nesting(x + ("<<" + (e + ">>") + y)) == Bytes(x) + [SetUp(Bytes(e))] + Bytes(y)
  {
    var one, last := [SetUp(Bytes(e))] + Bytes(y), Bytes(y);
    BytesSpelled(e, []);
    assert Bytes(e) + [] == Bytes(e) && e + "" == e;
    BytesSpelled(y, []);
    assert Bytes(y) + [] == Bytes(y) && y + "" == y;
    assert one[1..] == last;
    assert EndsOpen(Bytes(e)) == false;
    BytesSpelled(x, one);
    SpelledIsRead(Bytes(x) + one);
    ConcatAssociates(Bytes(x), [SetUp(Bytes(e))], Bytes(y));
  }

  /** What the answer says for one set-up in plain text: its value as formatted and its expression, or the
      expression and a note; and what is on record. */
  lemma AnswerSays<F(!new)>(ru: CalcAnswer.Rules<F>, x: string, e: string, y: string)
    requires !Angled(x) && !Angled(e) && !Angled(y)
    ensures var all := Meaning(CalcAnswer.EngineOf(ru), Nesting(x + ("<<" + (e + ">>") + y)), false, Empty());
            var expr := TrimSpace(e);
            var v := CalcAnswer.ValueOf(ru, expr);
            && |all.calcs| == 1 && all.calcs[0].expression == expr && all.calcs[0].value == v
            && (v.Some? ==> all.text == x + (ru.format(v.value) + " (= " + expr + ")") + y
                            && all.calcs[0].error == "")
            && (v.None? ==> all.text == x + (expr + " (could not be computed)") + y
                            && all.calcs[0].error == ru.why(expr))
  {
    var eng := CalcAnswer.EngineOf(ru);
    OneSetUpSpelled(x, e, y);
    SetUpIsWritten(eng, Bytes(x), Bytes(e), Bytes(y), false);
    BytesStay(eng, x, false, Empty());
    BytesStay(eng, e, true, Empty());
    BytesStay(eng, y, false, Empty());
    assert "" + x == x && "" + e == e && "" + y == y;
  }
}
