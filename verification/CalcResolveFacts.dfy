/** What the reading of a nesting promises a reader of the answer. */
module CalcResolveFacts {
  import opened CalcResolve

  // ---------------------------------------------------------------- one calculation per mark

  function OpenMarks(m: seq<Mark>): nat {
    if m == [] then 0 else (if m[0].Open? then 1 else 0) + OpenMarks(m[1..])
  }

  /** The closing marks that close nothing, `depth` set-ups being open at the start. */
  function Unmatched(depth: nat, m: seq<Mark>): nat
    decreases |m|
  {
    if m == [] then 0
    else match m[0]
      case Char(_) => Unmatched(depth, m[1..])
      case Open => Unmatched(depth + 1, m[1..])
      case Close => if depth == 0 then 1 + Unmatched(0, m[1..]) else Unmatched(depth - 1, m[1..])
  }

  function Strays(items: seq<Item>): nat {
    if items == [] then 0 else (if items[0].Stray? then 1 else 0) + Strays(items[1..])
  }

  lemma {:induction false} OpenMarksConcat(a: seq<Mark>, b: seq<Mark>)
    ensures OpenMarks(a + b) == OpenMarks(a) + OpenMarks(b)
    decreases |a|
  {
    if a == [] {
      assert a + b == b;
    } else {
      assert (a + b)[1..] == a[1..] + b;
      OpenMarksConcat(a[1..], b);
    }
  }

  lemma {:induction false} UnmatchedInNesting(items: seq<Item>, depth: nat, rest: seq<Mark>)
    requires Nested(items, depth > 0) && (EndsOpen(items) ==> rest == [])
    ensures Unmatched(depth, Flat(items) + rest) == Strays(items) + Unmatched(depth, rest)
    ensures depth > 0 ==> Strays(items) == 0
    decreases items
  {
    if items == [] {
      assert Flat(items) + rest == rest;
      return;
    }
    var tail := Flat(items[1..]) + rest;
    assert Flat(items) + rest == FlatItem(items[0]) + tail;
    UnmatchedInNesting(items[1..], depth, rest);
    match items[0]
    case Byte(c) => assert ([Char(c)] + tail)[1..] == tail;
    case Stray => assert ([Close] + tail)[1..] == tail;
    case SetUp(body) =>
      UnmatchedInNesting(body, depth + 1, [Close] + tail);
      UnmatchedAround(body, depth, tail);
    case OpenSetUp(body) =>
      UnmatchedInNesting(body, depth + 1, []);
      assert tail == [] && (FlatItem(items[0]) + tail)[1..] == Flat(body) + [];
  }

  lemma UnmatchedAround(body: seq<Item>, depth: nat, tail: seq<Mark>)
    requires Unmatched(depth + 1, Flat(body) + ([Close] + tail)) == Unmatched(depth + 1, [Close] + tail)
    ensures Unmatched(depth, FlatItem(SetUp(body)) + tail) == Unmatched(depth, tail)
  {
    assert (FlatItem(SetUp(body)) + tail)[1..] == Flat(body) + ([Close] + tail);
    assert ([Close] + tail)[1..] == tail;
  }

  lemma {:induction false} CalcsOfItems<F, O>(eng: Engine<F, O>, items: seq<Item>, inside: bool, at: Local<F, O>)
    requires Nested(items, inside)
    ensures |Meaning(eng, items, inside, at).calcs| == |at.calcs| + OpenMarks(Flat(items)) + Strays(items)
    decreases items, 0
  {
    if items != [] {
      OpenMarksConcat(FlatItem(items[0]), Flat(items[1..]));
      CalcsOfItem(eng, items[0], inside, at);
      CalcsOfItems(eng, items[1..], inside, MeaningOf(eng, items[0], inside, at));
    }
  }

  lemma {:induction false} CalcsOfItem<F, O>(eng: Engine<F, O>, item: Item, inside: bool, at: Local<F, O>)
    requires NestedItem(item, inside)
    ensures |MeaningOf(eng, item, inside, at).calcs|
            == |at.calcs| + OpenMarks(FlatItem(item)) + if item.Stray? then 1 else 0
    decreases item, 1
  {
    match item
    case Byte(_) =>
    case Stray =>
    case SetUp(body) =>
      CalcsOfBody(eng, body, at);
      OpenMarksConcat([Open] + Flat(body), [Close]);
    case OpenSetUp(body) =>
      CalcsOfBody(eng, body, at);
  }

  lemma {:induction false} CalcsOfBody<F, O>(eng: Engine<F, O>, body: seq<Item>, at: Local<F, O>)
    requires Nested(body, true)
    ensures |Meaning(eng, body, true, Local("", [], at.calcs)).calcs| + 1 == |at.calcs| + OpenMarks([Open] + Flat(body))
    decreases body, 1
  {
    CalcsOfItems(eng, body, true, Local("", [], at.calcs));
    UnmatchedInNesting(body, 1, []);
    assert ([Open] + Flat(body))[1..] == Flat(body);
  }

  /** Every level is recorded: one calculation for each opening mark and one for each closing mark that
      closes nothing. */
  lemma OneCalculationPerMark<F, O>(eng: Engine<F, O>, text: string)
    ensures |Meaning(eng, Nesting(text), false, Empty()).calcs| == OpenMarks(Marks(text)) + Unmatched(0, Marks(text))
  {
    NestingReads(text);
    CalcsOfItems(eng, Nesting(text), false, Empty());
    UnmatchedInNesting(Nesting(text), 0, []);
    assert Flat(Nesting(text)) + [] == Flat(Nesting(text));
  }

  // ---------------------------------------------------------------- nothing else changes

  function Shifted(places: seq<int>, offset: int): seq<int> {
    seq(|places|, k requires 0 <= k < |places| => places[k] + offset)
  }

  /** A local reading appended to the one before it. */
  function After<F, O>(at: Local<F, O>, r: Local<F, O>): Local<F, O> {
    Local(at.text + r.text, at.derived + Shifted(r.derived, |at.text|), at.calcs + r.calcs)
  }

  lemma AfterAssociates<F, O>(a: Local<F, O>, b: Local<F, O>, c: Local<F, O>)
    ensures After(After(a, b), c) == After(a, After(b, c))
  {
    assert a.text + b.text + c.text == a.text + (b.text + c.text);
    assert a.calcs + b.calcs + c.calcs == a.calcs + (b.calcs + c.calcs);
    assert After(After(a, b), c).derived == After(a, After(b, c)).derived;
  }

  /** A set-up's result does not depend on what was written before it. */
  lemma {:induction false} ReadsTheSameAnywhere<F, O>(eng: Engine<F, O>, items: seq<Item>, inside: bool,
                                                      at: Local<F, O>)
    ensures Meaning(eng, items, inside, at) == After(at, Meaning(eng, items, inside, Empty()))
    decreases items, 0
  {
    if items == [] {
      assert After(at, Empty<F, O>()) == at;
    } else {
      var one := MeaningOf(eng, items[0], inside, Empty<F, O>());
      ItemReadsTheSame(eng, items[0], inside, at);
      ReadsTheSameAnywhere(eng, items[1..], inside, MeaningOf(eng, items[0], inside, at));
      ReadsTheSameAnywhere(eng, items[1..], inside, one);
      AfterAssociates(at, one, Meaning(eng, items[1..], inside, Empty<F, O>()));
    }
  }

  lemma {:induction false} ItemReadsTheSame<F, O>(eng: Engine<F, O>, item: Item, inside: bool, at: Local<F, O>)
    ensures MeaningOf(eng, item, inside, at) == After(at, MeaningOf(eng, item, inside, Empty()))
    decreases item, 1
  {
    match item
    case Byte(c) => JoinsAfter(at, [c], []);
    case Stray => JoinsAfter(at, "", [Unopened()]);
    case SetUp(body) =>
      BodyReadsTheSame(eng, body, at);
      ClosedShifts(eng, inside, at, Meaning(eng, body, true, Empty<F, O>()));
    case OpenSetUp(body) =>
      BodyReadsTheSame(eng, body, at);
      NeverClosedShifts(at, Meaning(eng, body, true, Empty<F, O>()));
  }

  lemma JoinsAfter<F, O>(at: Local<F, O>, text: string, calcs: seq<Calculation<F, O>>)
    ensures After(at, Local("" + text, [], [] + calcs)) == Local(at.text + text, at.derived, at.calcs + calcs)
  {
    assert "" + text == text && [] + calcs == calcs;
    assert Shifted([], |at.text|) == [];
  }

  lemma NeverClosedShifts<F, O>(at: Local<F, O>, inner: Local<F, O>)
    ensures NeverClosed(at, Local(inner.text, inner.derived, at.calcs + inner.calcs))
            == After(at, NeverClosed(Empty(), inner))
  {
    var one := [Unclosed(Expression(inner))];
    JoinsAfter(at, Expression(inner) + NOTE, inner.calcs + one);
    assert at.calcs + inner.calcs + one == at.calcs + (inner.calcs + one);
    assert [] + (inner.calcs + one) == inner.calcs + one;
  }

  lemma {:induction false} BodyReadsTheSame<F, O>(eng: Engine<F, O>, body: seq<Item>, at: Local<F, O>)
    ensures var inner := Meaning(eng, body, true, Empty());
            Meaning(eng, body, true, Local("", [], at.calcs))
                == Local(inner.text, inner.derived, at.calcs + inner.calcs)
    decreases body, 1
  {
    ReadsTheSameAnywhere(eng, body, true, Local("", [], at.calcs));
    var inner := Meaning(eng, body, true, Empty<F, O>());
    assert "" + inner.text == inner.text;
    assert [] + Shifted(inner.derived, 0) == inner.derived;
  }

  lemma ClosedShifts<F, O>(eng: Engine<F, O>, inside: bool, at: Local<F, O>, inner: Local<F, O>)
    ensures Closed(eng, inside, at, Local(inner.text, inner.derived, at.calcs + inner.calcs))
            == After(at, Closed(eng, inside, Empty(), inner))
  {
    var there := Local(inner.text, inner.derived, at.calcs + inner.calcs);
    assert Places(there) == Places(inner);
    var c := Calculated(eng, inner);
    var place := ResultPlace(eng, inside, c);
    assert at.calcs + inner.calcs + [c] == at.calcs + (inner.calcs + [c]);
    assert Noted(at.derived, |at.text|, place) == at.derived + Shifted(Noted([], 0, place), |at.text|);
  }

  function Bytes(s: string): seq<Item> { seq(|s|, k requires 0 <= k < |s| => Byte(s[k])) }

  lemma {:induction false} MeaningConcat<F, O>(eng: Engine<F, O>, a: seq<Item>, b: seq<Item>, inside: bool,
                                               at: Local<F, O>)
    ensures Meaning(eng, a + b, inside, at) == Meaning(eng, b, inside, Meaning(eng, a, inside, at))
    decreases |a|
  {
    if a == [] {
      assert a + b == b;
    } else {
      assert (a + b)[1..] == a[1..] + b;
      MeaningConcat(eng, a[1..], b, inside, MeaningOf(eng, a[0], inside, at));
    }
  }

  lemma {:induction false} BytesStay<F, O>(eng: Engine<F, O>, s: string, inside: bool, at: Local<F, O>)
    ensures Meaning(eng, Bytes(s), inside, at) == Local(at.text + s, at.derived, at.calcs)
    decreases |s|
  {
    if s == "" {
      assert at.text + s == at.text;
    } else {
      assert Bytes(s)[1..] == Bytes(s[1..]);
      BytesStay(eng, s[1..], inside, Local(at.text + [s[0]], at.derived, at.calcs));
      assert at.text + [s[0]] + s[1..] == at.text + s;
    }
  }

  /** Text outside set-ups is unchanged byte for byte, and does not change what the set-ups come to. */
  lemma TextOutsideIsUnchanged<F, O>(eng: Engine<F, O>, before: string, items: seq<Item>, after: string)
    ensures var alone := Meaning(eng, items, false, Empty());
            var whole := Meaning(eng, Bytes(before) + items + Bytes(after), false, Empty());
            whole.text == before + alone.text + after && whole.calcs == alone.calcs
  {
    MeaningConcat(eng, Bytes(before) + items, Bytes(after), false, Empty());
    MeaningConcat(eng, Bytes(before), items, false, Empty());
    BytesStay(eng, before, false, Empty());
    assert "" + before == before;
    ReadsTheSameAnywhere(eng, items, false, Local(before, [], []));
    BytesStay(eng, after, false, Meaning(eng, items, false, Local(before, [], [])));
    var alone := Meaning(eng, items, false, Empty<F, O>());
    assert [] + alone.calcs == alone.calcs;
  }
}
