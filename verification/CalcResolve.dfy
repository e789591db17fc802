/** pkg/calc's Resolve: one pass over the text that rewrites its own output for set-ups nested in
    set-ups, and the recursive reading of the nesting that it computes. A `char` is one byte. */
module CalcResolve {
  import opened Wrappers
  import opened Text
  import opened Sequences

  datatype Calculation<+F, +O> = Calculation(
    expression: string,
    value: Option<F>,
    display: string,
    error: string,
    operands: seq<O>
  )

  /** What Resolve calls: `evaluate` on an expression and the places of inner results in it, and the
      spelling of a value inside an outer expression. */
  datatype Engine<!F, !O> = Engine(
    evaluate: (string, set<int>) -> Calculation<F, O>,
    plain: F -> string
  )

  const NOTE := " (could not be computed)"

  function Unopened<F, O>(): Calculation<F, O> { Calculation(">>", None, "", "a >> with no <<", []) }

  function Unclosed<F, O>(expr: string): Calculation<F, O> { Calculation(expr, None, "", "a << with no >>", []) }

  // ---------------------------------------------------------------- marks and nesting

  datatype Mark = Open | Close | Char(c: char)

  predicate Twice(s: string, i: nat, c: char) { i + 1 < |s| && s[i] == c && s[i + 1] == c }

  /** The text as Resolve scans it: each pair of angle brackets is a mark, read left to right. */
  function Marks(s: string): seq<Mark> {
    if s == [] then []
    else if Twice(s, 0, '<') then [Open] + Marks(s[2..])
    else if Twice(s, 0, '>') then [Close] + Marks(s[2..])
    else [Char(s[0])] + Marks(s[1..])
  }

  /** A text's nesting: bytes, set-ups, a set-up never closed (the last thing where it stands), and
      closing marks that close nothing. */
  datatype Item = Byte(c: char) | SetUp(body: seq<Item>) | OpenSetUp(body: seq<Item>) | Stray

  function Flat(items: seq<Item>): seq<Mark> {
    if items == [] then [] else FlatItem(items[0]) + Flat(items[1..])
  }

  function FlatItem(item: Item): seq<Mark> {
    match item
    case Byte(c) => [Char(c)]
    case SetUp(body) => [Open] + Flat(body) + [Close]
    case OpenSetUp(body) => [Open] + Flat(body)
    case Stray => [Close]
  }

  predicate EndsOpen(items: seq<Item>) { items != [] && items[|items| - 1].OpenSetUp? }

  /** A closing mark is stray only outside every set-up, and nothing follows a set-up never closed. */
  predicate Nested(items: seq<Item>, inside: bool) {
    items == [] ||
    (NestedItem(items[0], inside) && Nested(items[1..], inside) && (items[0].OpenSetUp? ==> |items| == 1))
  }

  predicate NestedItem(item: Item, inside: bool) {
    match item
    case Byte(_) => true
    case SetUp(body) => Nested(body, true) && !EndsOpen(body)
    case OpenSetUp(body) => Nested(body, true)
    case Stray => !inside
  }

  /** Reads the items up to the closing mark of the set-up around them, or to the end. */
  function Forest(m: seq<Mark>, inside: bool): (r: (seq<Item>, seq<Mark>))
    ensures |r.1| <= |m| && (r.1 == [] || (inside && r.1[0] == Close))
    decreases |m|
  {
    if m == [] then ([], [])
    else match m[0]
      case Char(c) =>
        var (items, rest) := Forest(m[1..], inside);
        ([Byte(c)] + items, rest)
      case Close =>
        if inside then ([], m)
        else
          var (items, rest) := Forest(m[1..], inside);
          ([Stray] + items, rest)
      case Open =>
        var (body, after) := Forest(m[1..], true);
        if after == [] then ([OpenSetUp(body)], [])
        else
          var (items, rest) := Forest(after[1..], inside);
          ([SetUp(body)] + items, rest)
  }

  ghost predicate Reads(r: (seq<Item>, seq<Mark>), m: seq<Mark>, inside: bool) {
    Nested(r.0, inside) && Flat(r.0) + r.1 == m && (EndsOpen(r.0) ==> r.1 == [])
  }

  lemma Prepend(item: Item, items: seq<Item>, rest: seq<Mark>, m: seq<Mark>, tail: seq<Mark>, inside: bool)
    requires NestedItem(item, inside) && (item.OpenSetUp? ==> items == [] && rest == [])
    requires m == FlatItem(item) + tail && Reads((items, rest), tail, inside)
    ensures Reads(([item] + items, rest), m, inside)
  {
    assert ([item] + items)[1..] == items;
    assert FlatItem(item) + (Flat(items) + rest) == FlatItem(item) + Flat(items) + rest;
  }

  lemma {:induction false} ForestReads(m: seq<Mark>, inside: bool)
    ensures Reads(Forest(m, inside), m, inside)
    decreases |m|
  {
    if m == [] {
    } else if m[0].Open? {
      ForestReads(m[1..], true);
      var (body, after) := Forest(m[1..], true);
      if after == [] {
        OpenReads(m, body, inside);
      } else {
        ForestReads(after[1..], inside);
        SetUpReads(m, body, after, inside);
      }
    } else if m[0].Char? || !inside {
      var (items, rest) := Forest(m[1..], inside);
      ForestReads(m[1..], inside);
      Prepend(if m[0].Char? then Byte(m[0].c) else Stray, items, rest, m, m[1..], inside);
    }
  }

  lemma OpenReads(m: seq<Mark>, body: seq<Item>, inside: bool)
    requires m != [] && m[0].Open? && Reads((body, []), m[1..], true)
    ensures Reads(([OpenSetUp(body)], []), m, inside)
  {
    assert Flat(body) + [] == Flat(body);
    assert m == [Open] + Flat(body) + [];
    Prepend(OpenSetUp(body), [], [], m, [], inside);
  }

  lemma SetUpReads(m: seq<Mark>, body: seq<Item>, after: seq<Mark>, inside: bool)
    requires m != [] && m[0].Open? && Reads((body, after), m[1..], true) && after != [] && after[0].Close?
    requires |after| <= |m| && Reads(Forest(after[1..], inside), after[1..], inside)
    ensures Reads(([SetUp(body)] + Forest(after[1..], inside).0, Forest(after[1..], inside).1), m, inside)
  {
    assert m == [Open] + Flat(body) + [Close] + after[1..];
    Prepend(SetUp(body), Forest(after[1..], inside).0, Forest(after[1..], inside).1, m, after[1..], inside);
  }

  /** The nesting of a text. */
  function Nesting(text: string): seq<Item> { Forest(Marks(text), false).0 }

  lemma NestingReads(text: string)
    ensures Nested(Nesting(text), false) && Flat(Nesting(text)) == Marks(text)
  {
    ForestReads(Marks(text), false);
    assert Flat(Nesting(text)) + [] == Flat(Nesting(text));
  }

  /** Reading on over one more item: a set-up whose inside is read off m, leaving `after`. */
  lemma SetUpSteps(m: seq<Mark>, body: seq<Item>, after: seq<Mark>, inside: bool)
    requires Forest(m, true) == (body, after)
    ensures Forest([Open] + m, inside)
            == if after == [] then ([OpenSetUp(body)], [])
               else ([SetUp(body)] + Forest(after[1..], inside).0, Forest(after[1..], inside).1)
  {
    var all := [Open] + m;
    assert all[0] == Open && all[1..] == m;
  }

  lemma {:induction false} ItemFinds(item: Item, tail: seq<Mark>, inside: bool)
    requires NestedItem(item, inside) && (item.OpenSetUp? ==> tail == [])
    ensures Forest(FlatItem(item) + tail, inside) == ([item] + Forest(tail, inside).0, Forest(tail, inside).1)
    decreases item, 1
  {
    match item
    case Byte(_) => assert (FlatItem(item) + tail)[1..] == tail;
    case Stray => assert (FlatItem(item) + tail)[1..] == tail;
    case SetUp(body) =>
      ForestFinds(body, [Close] + tail, true);
      SetUpFound(body, tail, inside);
    case OpenSetUp(body) =>
      ForestFinds(body, [], true);
      SetUpSteps(Flat(body) + [], body, [], inside);
      assert FlatItem(item) + tail == [Open] + (Flat(body) + []);
      assert Forest(tail, inside) == ([], []) && [item] + [] == [item];
  }

  lemma SetUpFound(body: seq<Item>, tail: seq<Mark>, inside: bool)
    requires Forest(Flat(body) + ([Close] + tail), true) == (body, [Close] + tail)
    ensures Forest(FlatItem(SetUp(body)) + tail, inside)
            == ([SetUp(body)] + Forest(tail, inside).0, Forest(tail, inside).1)
  {
    var after := [Close] + tail;
    SetUpSteps(Flat(body) + after, body, after, inside);
    ConcatFour([Open], Flat(body), [Close], tail);
    assert after[1..] == tail;
  }

  /** No other nesting has the same marks. */
  lemma {:induction false} ForestFinds(items: seq<Item>, rest: seq<Mark>, inside: bool)
    requires Nested(items, inside) && (EndsOpen(items) ==> rest == [])
    requires rest == [] || (inside && rest[0] == Close)
    ensures Forest(Flat(items) + rest, inside) == (items, rest)
    decreases items, 0
  {
    if items == [] {
      assert Flat(items) + rest == rest;
    } else {
      var tail := Flat(items[1..]) + rest;
      assert Flat(items) + rest == FlatItem(items[0]) + tail;
      assert [items[0]] + items[1..] == items;
      ForestFinds(items[1..], rest, inside);
      ItemFinds(items[0], tail, inside);
    }
  }

  lemma NestingIsUnique(text: string, items: seq<Item>)
    requires Nested(items, false) && Flat(items) == Marks(text)
    ensures items == Nesting(text)
  {
    ForestFinds(items, [], false);
    assert Flat(items) + [] == Flat(items);
  }

  // ---------------------------------------------------------------- what a nesting means

  /** The text built so far where we stand, the places in it where inner results begin, and every
      calculation done so far. */
  datatype Local<+F, +O> = Local(text: string, derived: seq<int>, calcs: seq<Calculation<F, O>>)

  /** The expression of a set-up whose inside came to `inner`, and the places of inner results in it. */
  function Expression<F, O>(inner: Local<F, O>): string { TrimSpace(inner.text) }

  function Places<F, O>(inner: Local<F, O>): set<int> { Relative(inner.derived, Leading(inner.text, Blank)) }

  /** Places counted from `origin` on. */
  function Relative(places: seq<int>, origin: int): set<int> {
    set k | 0 <= k < |places| :: places[k] - origin
  }

  function Calculated<F, O>(eng: Engine<F, O>, inner: Local<F, O>): Calculation<F, O> {
    eng.evaluate(Expression(inner), Places(inner))
  }

  /** What stands for a closed set-up: inside another one its value, or else its expression in
      parentheses; outside them all its value and expression, or the expression with a note. */
  function Replacement<F, O>(eng: Engine<F, O>, inside: bool, expr: string, c: Calculation<F, O>): string {
    match c.value
    case None => if inside then "(" + expr + ")" else expr + NOTE
    case Some(v) => if inside then eng.plain(v) else c.display + " (= " + expr + ")"
  }

  /** Where in it an inner result's number begins, after any sign. */
  function ResultPlace<F, O>(eng: Engine<F, O>, inside: bool, c: Calculation<F, O>): Option<nat> {
    if inside && c.value.Some? then
      var p := eng.plain(c.value.value);
      Some(if p != [] && p[0] == '-' then 1 else 0)
    else None
  }

  function Noted(derived: seq<int>, at: nat, place: Option<nat>): seq<int> {
    if place.Some? then derived + [at + place.value] else derived
  }

  function Closed<F, O>(eng: Engine<F, O>, inside: bool, at: Local<F, O>, inner: Local<F, O>): Local<F, O> {
    var c := Calculated(eng, inner);
    Local(at.text + Replacement(eng, inside, Expression(inner), c),
          Noted(at.derived, |at.text|, ResultPlace(eng, inside, c)),
          inner.calcs + [c])
  }

  /** A set-up never closed: one failed calculation over all that follows it. */
  function NeverClosed<F, O>(at: Local<F, O>, inner: Local<F, O>): Local<F, O> {
    var expr := Expression(inner);
    Local(at.text + (expr + NOTE), at.derived, inner.calcs + [Unclosed(expr)])
  }

  function Meaning<F, O>(eng: Engine<F, O>, items: seq<Item>, inside: bool, at: Local<F, O>): Local<F, O>
    decreases items, 0
  {
    if items == [] then at
    else Meaning(eng, items[1..], inside, MeaningOf(eng, items[0], inside, at))
  }

  /** An inner set-up is worked out first, from an empty text, and what stands for it joins the text
      around it. */
  function MeaningOf<F, O>(eng: Engine<F, O>, item: Item, inside: bool, at: Local<F, O>): Local<F, O>
    decreases item, 1
  {
    match item
    case Byte(c) => Local(at.text + [c], at.derived, at.calcs)
    case Stray => Local(at.text, at.derived, at.calcs + [Unopened()])
    case SetUp(body) => Closed(eng, inside, at, Meaning(eng, body, true, Local("", [], at.calcs)))
    case OpenSetUp(body) => NeverClosed(at, Meaning(eng, body, true, Local("", [], at.calcs)))
  }

  function Empty<F, O>(): Local<F, O> { Local("", [], []) }

  // ---------------------------------------------------------------- reading marks with a stack

  /** The text of one open set-up, or of what is outside them all, and the inner results in it. */
  datatype Frame = Frame(text: string, derived: seq<int>)

  function FrameOf<F, O>(l: Local<F, O>): Frame { Frame(l.text, l.derived) }

  function With<F, O>(f: Frame, calcs: seq<Calculation<F, O>>): Local<F, O> { Local(f.text, f.derived, calcs) }

  /** The stack with its innermost set-up gone into the frame around it. */
  function Popped<F, O>(eng: Engine<F, O>, stack: seq<Frame>, calcs: seq<Calculation<F, O>>, closed: bool): Local<F, O>
    requires |stack| > 1
  {
    var at, inner := With(stack[|stack| - 2], calcs), With(stack[|stack| - 1], calcs);
    if closed then Closed(eng, |stack| > 2, at, inner) else NeverClosed(at, inner)
  }

  function Under(stack: seq<Frame>): seq<Frame>
    requires |stack| > 1
  {
    stack[..|stack| - 2]
  }

  /** From a stack of open frames, what the remaining marks come to. */
  function Continue<F, O>(eng: Engine<F, O>, stack: seq<Frame>, calcs: seq<Calculation<F, O>>, m: seq<Mark>)
    : (string, seq<Calculation<F, O>>)
    requires |stack| > 0
    decreases |m|, |stack|
  {
    var top := stack[|stack| - 1];
    if m == [] then
      if |stack| == 1 then (top.text, calcs)
      else
        var l := Popped(eng, stack, calcs, false);
        Continue(eng, Under(stack) + [FrameOf(l)], l.calcs, m)
    else match m[0]
      case Char(c) => Continue(eng, stack[..|stack| - 1] + [Frame(top.text + [c], top.derived)], calcs, m[1..])
      case Open => Continue(eng, stack + [Frame("", [])], calcs, m[1..])
      case Close =>
        if |stack| == 1 then Continue(eng, stack, calcs + [Unopened()], m[1..])
        else
          var l := Popped(eng, stack, calcs, true);
          Continue(eng, Under(stack) + [FrameOf(l)], l.calcs, m[1..])
  }

  /** The stack reads a nesting as its meaning says. */
  lemma {:induction false} ItemsRun<F, O>(eng: Engine<F, O>, stack: seq<Frame>, at: Local<F, O>, items: seq<Item>,
                                          rest: seq<Mark>)
    requires Nested(items, |stack| > 0) && (EndsOpen(items) ==> rest == [])
    ensures var l := Meaning(eng, items, |stack| > 0, at);
            Continue(eng, stack + [FrameOf(at)], at.calcs, Flat(items) + rest)
            == Continue(eng, stack + [FrameOf(l)], l.calcs, rest)
    decreases items, 0
  {
    if items == [] {
      assert Flat(items) + rest == rest;
    } else {
      var tail := Flat(items[1..]) + rest;
      assert Flat(items) + rest == FlatItem(items[0]) + tail;
      ItemRuns(eng, stack, at, items[0], tail);
      ItemsRun(eng, stack, MeaningOf(eng, items[0], |stack| > 0, at), items[1..], rest);
    }
  }

  lemma {:induction false} ItemRuns<F, O>(eng: Engine<F, O>, stack: seq<Frame>, at: Local<F, O>, item: Item,
                                          rest: seq<Mark>)
    requires NestedItem(item, |stack| > 0) && (item.OpenSetUp? ==> rest == [])
    ensures var l := MeaningOf(eng, item, |stack| > 0, at);
            Continue(eng, stack + [FrameOf(at)], at.calcs, FlatItem(item) + rest)
            == Continue(eng, stack + [FrameOf(l)], l.calcs, rest)
    decreases item, 1
  {
    match item
    case Byte(c) => ByteRuns(eng, stack, at, c, rest);
    case Stray => StrayRuns(eng, stack, at, rest);
    case SetUp(body) => SetUpRuns(eng, stack, at, body, rest);
    case OpenSetUp(body) => OpenSetUpRuns(eng, stack, at, body);
  }

  lemma {:induction false} SetUpRuns<F, O>(eng: Engine<F, O>, stack: seq<Frame>, at: Local<F, O>, body: seq<Item>,
                                           rest: seq<Mark>)
    requires NestedItem(SetUp(body), |stack| > 0)
    ensures var l := MeaningOf(eng, SetUp(body), |stack| > 0, at);
            Continue(eng, stack + [FrameOf(at)], at.calcs, FlatItem(SetUp(body)) + rest)
            == Continue(eng, stack + [FrameOf(l)], l.calcs, rest)
    decreases body, 2
  {
    BodyRuns(eng, stack, at, body, [Close] + rest);
    assert FlatItem(SetUp(body)) + rest == [Open] + (Flat(body) + ([Close] + rest));
    ClosePops(eng, stack, at, Meaning(eng, body, true, Local("", [], at.calcs)), rest);
  }

  lemma {:induction false} OpenSetUpRuns<F, O>(eng: Engine<F, O>, stack: seq<Frame>, at: Local<F, O>, body: seq<Item>)
    requires NestedItem(OpenSetUp(body), |stack| > 0)
    ensures var l := MeaningOf(eng, OpenSetUp(body), |stack| > 0, at);
            Continue(eng, stack + [FrameOf(at)], at.calcs, FlatItem(OpenSetUp(body)) + [])
            == Continue(eng, stack + [FrameOf(l)], l.calcs, [])
    decreases body, 2
  {
    BodyRuns(eng, stack, at, body, []);
    assert FlatItem(OpenSetUp(body)) + [] == [Open] + (Flat(body) + []);
    EndPops(eng, stack, at, Meaning(eng, body, true, Local("", [], at.calcs)));
  }

  lemma ByteRuns<F, O>(eng: Engine<F, O>, stack: seq<Frame>, at: Local<F, O>, c: char, rest: seq<Mark>)
    ensures var l := MeaningOf(eng, Byte(c), |stack| > 0, at);
            Continue(eng, stack + [FrameOf(at)], at.calcs, [Char(c)] + rest)
            == Continue(eng, stack + [FrameOf(l)], l.calcs, rest)
  {
    var here := stack + [FrameOf(at)];
    assert ([Char(c)] + rest)[1..] == rest && here[..|here| - 1] == stack;
  }

  lemma StrayRuns<F, O>(eng: Engine<F, O>, stack: seq<Frame>, at: Local<F, O>, rest: seq<Mark>)
    requires stack == []
    ensures var l := MeaningOf(eng, Stray, false, at);
            Continue(eng, stack + [FrameOf(at)], at.calcs, [Close] + rest)
            == Continue(eng, stack + [FrameOf(l)], l.calcs, rest)
  {
    assert ([Close] + rest)[1..] == rest;
  }

  lemma ClosePops<F, O>(eng: Engine<F, O>, stack: seq<Frame>, at: Local<F, O>, inner: Local<F, O>, rest: seq<Mark>)
    ensures var l := Closed(eng, |stack| > 0, at, inner);
            Continue(eng, stack + [FrameOf(at)] + [FrameOf(inner)], inner.calcs, [Close] + rest)
            == Continue(eng, stack + [FrameOf(l)], l.calcs, rest)
  {
    assert ([Close] + rest)[1..] == rest;
    assert Under(stack + [FrameOf(at)] + [FrameOf(inner)]) == stack;
  }

  lemma EndPops<F, O>(eng: Engine<F, O>, stack: seq<Frame>, at: Local<F, O>, inner: Local<F, O>)
    ensures var l := NeverClosed(at, inner);
            Continue(eng, stack + [FrameOf(at)] + [FrameOf(inner)], inner.calcs, [])
            == Continue(eng, stack + [FrameOf(l)], l.calcs, [])
  {
    assert Under(stack + [FrameOf(at)] + [FrameOf(inner)]) == stack;
  }

  lemma {:induction false} BodyRuns<F, O>(eng: Engine<F, O>, stack: seq<Frame>, at: Local<F, O>, body: seq<Item>,
                                          after: seq<Mark>)
    requires Nested(body, true) && (EndsOpen(body) ==> after == [])
    ensures var l := Meaning(eng, body, true, Local("", [], at.calcs));
            Continue(eng, stack + [FrameOf(at)], at.calcs, [Open] + (Flat(body) + after))
            == Continue(eng, stack + [FrameOf(at)] + [FrameOf(l)], l.calcs, after)
    decreases body, 1
  {
    assert ([Open] + (Flat(body) + after))[1..] == Flat(body) + after;
    ItemsRun(eng, stack + [FrameOf(at)], Local("", [], at.calcs), body, after);
  }

  // ---------------------------------------------------------------- the pass itself

  /** A set-up still open: where it starts in the output, and where inner results were written. */
  datatype Opened = Opened(start: nat, derived: seq<int>)

  function Texts(stack: seq<Frame>): string {
    if stack == [] then "" else Texts(stack[..|stack| - 1]) + stack[|stack| - 1].text
  }

  /** The output buffer holds the frames' texts one after the other, and places in it are absolute. */
  ghost predicate Holds(buf: string, opens: seq<Opened>, stack: seq<Frame>) {
    && |stack| == |opens| + 1
    && buf == Texts(stack)
    && stack[0].derived == []
    && forall k | 0 <= k < |opens| ::
         && opens[k].start == |Texts(stack[..k + 1])|
         && |opens[k].derived| == |stack[k + 1].derived|
         && forall j | 0 <= j < |opens[k].derived| :: opens[k].derived[j] == opens[k].start + stack[k + 1].derived[j]
  }

  /** Takes an open set-up's text out of the output: its expression, and the places of inner results
      in that. */
  method Cut(buf: string, o: Opened) returns (head: string, expr: string, at: set<int>)
    requires o.start <= |buf|
    ensures head == buf[..o.start] && expr == TrimSpace(buf[o.start..])
    ensures at == Relative(o.derived, o.start + Leading(buf[o.start..], Blank))
  {
    head := buf[..o.start];
    var raw := buf[o.start..];
    var lead := Leading(raw, Blank);
    at := {};
    for k := 0 to |o.derived|
      invariant at == set j | 0 <= j < k :: o.derived[j] - (o.start + lead)
    {
      at := at + {o.derived[k] - o.start - lead};
    }
    expr := TrimSpace(raw);
  }

  lemma HoldsPush(buf: string, opens: seq<Opened>, stack: seq<Frame>)
    requires Holds(buf, opens, stack)
    ensures Holds(buf, opens + [Opened(|buf|, [])], stack + [Frame("", [])])
  {
    var opens', stack' := opens + [Opened(|buf|, [])], stack + [Frame("", [])];
    assert stack'[..|stack|] == stack;
    forall k | 0 <= k < |opens'|
      ensures opens'[k].start == |Texts(stack'[..k + 1])|
    {
      assert stack'[..k + 1] == stack[..k + 1];
    }
  }

  lemma HoldsWrite(buf: string, opens: seq<Opened>, stack: seq<Frame>, more: string)
    requires Holds(buf, opens, stack)
    ensures var top := stack[|stack| - 1];
            Holds(buf + more, opens, stack[..|stack| - 1] + [Frame(top.text + more, top.derived)])
  {
    var n := |stack| - 1;
    var stack' := stack[..n] + [Frame(stack[n].text + more, stack[n].derived)];
    assert stack'[..n] == stack[..n];
    forall k | 0 <= k < |opens|
      ensures opens[k].start == |Texts(stack'[..k + 1])|
    {
      assert stack'[..k + 1] == stack[..k + 1];
    }
  }

  lemma HoldsCut(buf: string, opens: seq<Opened>, stack: seq<Frame>)
    requires Holds(buf, opens, stack) && opens != []
    ensures var n := |opens| - 1;
            && opens[n].start <= |buf| && buf[opens[n].start..] == stack[n + 1].text
            && Holds(buf[..opens[n].start], opens[..n], stack[..n + 1])
  {
    var n := |opens| - 1;
    forall k | 0 <= k < n
      ensures opens[k].start == |Texts(stack[..n + 1][..k + 1])|
    {
      assert stack[..n + 1][..k + 1] == stack[..k + 1];
    }
  }

  lemma MarkAt(text: string, i: nat)
    requires i < |text|
    ensures Marks(text[i..])
            == if Twice(text, i, '<') then [Open] + Marks(text[i + 2..])
               else if Twice(text, i, '>') then [Close] + Marks(text[i + 2..])
               else [Char(text[i])] + Marks(text[i + 1..])
  {
    var s := text[i..];
    assert s[0] == text[i] && s[1..] == text[i + 1..];
    if i + 1 < |text| {
      assert s[1] == text[i + 1] && s[2..] == text[i + 2..];
    }
  }

  lemma HoldsPlace(buf: string, opens: seq<Opened>, stack: seq<Frame>)
    requires Holds(buf, opens, stack) && opens != []
    ensures |buf| == opens[|opens| - 1].start + |stack[|opens|].text|
  {
    assert stack[..|opens|] == stack[..|opens| - 1 + 1];
  }

  /** What stands for a set-up is written into the one around it, which remembers a result's place. */
  lemma HoldsResult(buf: string, opens: seq<Opened>, stack: seq<Frame>, more: string, place: Option<nat>)
    requires Holds(buf, opens, stack) && (place.Some? ==> opens != [])
    ensures var n := |opens|;
            var top := stack[n];
            Holds(buf + more, NotedIn(opens, |buf|, place),
                  stack[..n] + [Frame(top.text + more, Noted(top.derived, |top.text|, place))])
  {
    var n := |opens|;
    var top := stack[n];
    HoldsWrite(buf, opens, stack, more);
    if place.Some? {
      HoldsPlace(buf, opens, stack);
      var before, after := stack[..n] + [Frame(top.text + more, top.derived)],
          stack[..n] + [Frame(top.text + more, Noted(top.derived, |top.text|, place))];
      assert before[..n] == stack[..n] == after[..n];
      forall k | 0 <= k < n
        ensures opens[k].start == |Texts(after[..k + 1])|
      {
        assert before[..k + 1] == after[..k + 1];
      }
    }
  }

  function NotedIn(opens: seq<Opened>, at: nat, place: Option<nat>): seq<Opened>
    requires place.Some? ==> opens != []
  {
    if place.None? then opens
    else
      var n := |opens| - 1;
      opens[..n] + [Opened(opens[n].start, Noted(opens[n].derived, at, place))]
  }

  lemma PlacesAgree<F, O>(o: Opened, inner: Local<F, O>)
    requires |o.derived| == |inner.derived|
    requires forall k | 0 <= k < |o.derived| :: o.derived[k] == o.start + inner.derived[k]
    ensures Places(inner) == Relative(o.derived, o.start + Leading(inner.text, Blank))
  {
    var lead := Leading(inner.text, Blank);
    assert forall k | 0 <= k < |o.derived| :: o.derived[k] - (o.start + lead) == inner.derived[k] - lead;
  }

  /** The step at a closing mark inside a set-up. */
  method CloseInnermost<F, O>(eng: Engine<F, O>, buf: string, opens: seq<Opened>, calcs: seq<Calculation<F, O>>,
                              ghost stack: seq<Frame>)
    returns (buf': string, opens': seq<Opened>, calcs': seq<Calculation<F, O>>)
    requires Holds(buf, opens, stack) && opens != []
    ensures var l := Popped(eng, stack, calcs, true);
            Holds(buf', opens', Under(stack) + [FrameOf(l)]) && calcs' == l.calcs
  {
    var o := opens[|opens| - 1];
    opens' := opens[..|opens| - 1];
    HoldsCut(buf, opens, stack);
    var head, expr, derived := Cut(buf, o);
    PlacesAgree(o, With(stack[|stack| - 1], calcs));
    var c := eng.evaluate(expr, derived);
    calcs' := calcs + [c];
    var more, place := Standing(eng, opens' != [], expr, c);
    HoldsPopped(eng, head, opens', stack, calcs);
    opens' := NotedIn(opens', |head|, place);
    buf' := head + more;
  }

  lemma HoldsPopped<F, O>(eng: Engine<F, O>, head: string, opens: seq<Opened>, stack: seq<Frame>,
                          calcs: seq<Calculation<F, O>>)
    requires |stack| > 1 && Holds(head, opens, stack[..|stack| - 1])
    ensures var inner := With(stack[|stack| - 1], calcs);
            var c := Calculated(eng, inner);
            Holds(head + Replacement(eng, opens != [], Expression(inner), c),
                  NotedIn(opens, |head|, ResultPlace(eng, opens != [], c)),
                  Under(stack) + [FrameOf(Popped(eng, stack, calcs, true))])
  {
    var inner, below := With(stack[|stack| - 1], calcs), stack[..|stack| - 1];
    var c := Calculated(eng, inner);
    assert below[..|opens|] == Under(stack);
    HoldsResult(head, opens, below, Replacement(eng, opens != [], Expression(inner), c),
                ResultPlace(eng, opens != [], c));
  }

  /** What is written for a set-up just calculated, and where in that an inner result's number is. */
  method Standing<F, O>(eng: Engine<F, O>, nested: bool, expr: string, c: Calculation<F, O>)
    returns (more: string, place: Option<nat>)
    ensures more == Replacement(eng, nested, expr, c) && place == ResultPlace(eng, nested, c)
  {
    more, place := "", None;
    if c.value.None? && nested {
      more := "(" + expr + ")";
    } else if c.value.None? {
      more := expr + NOTE;
    } else if nested {
      more := eng.plain(c.value.value);
      place := Some(if more != [] && more[0] == '-' then 1 else 0);
    } else {
      more := c.display + " (= " + expr + ")";
    }
  }

  /** The step at the end of the text, inside a set-up. */
  method FailInnermost<F, O>(buf: string, opens: seq<Opened>, calcs: seq<Calculation<F, O>>, ghost stack: seq<Frame>)
    returns (buf': string, opens': seq<Opened>, calcs': seq<Calculation<F, O>>)
    requires Holds(buf, opens, stack) && opens != []
    ensures var l := NeverClosed(With(stack[|stack| - 2], calcs), With(stack[|stack| - 1], calcs));
            Holds(buf', opens', Under(stack) + [FrameOf(l)]) && calcs' == l.calcs
    ensures |opens'| < |opens|
  {
    var o := opens[|opens| - 1];
    opens' := opens[..|opens| - 1];
    HoldsCut(buf, opens, stack);
    ghost var below := stack[..|stack| - 1];
    var head, expr, _ := Cut(buf, o);
    calcs' := calcs + [Unclosed(expr)];
    HoldsWrite(head, opens', below, expr + NOTE);
    assert below[..|opens'|] == Under(stack);
    buf' := head + (expr + NOTE);
  }

  lemma ResolvedIs<F, O>(eng: Engine<F, O>, text: string)
    ensures var l := Meaning(eng, Nesting(text), false, Empty());
            Continue(eng, [Frame("", [])], [], Marks(text)) == (l.text, l.calcs)
  {
    NestingReads(text);
    ItemsRun(eng, [], Empty<F, O>(), Nesting(text), []);
    assert Flat(Nesting(text)) + [] == Marks(text);
    assert [] + [FrameOf(Empty<F, O>())] == [Frame("", [])];
  }

  method Resolve<F, O>(eng: Engine<F, O>, text: string) returns (out: string, calcs: seq<Calculation<F, O>>)
    ensures var l := Meaning(eng, Nesting(text), false, Empty());
            out == l.text && calcs == l.calcs
  {
    var opens: seq<Opened> := [];
    out, calcs := "", [];
    ghost var stack := [Frame("", [])];
    ghost var goal := Continue(eng, stack, calcs, Marks(text));
    var i := 0;
    while i < |text|
      invariant i <= |text| && Holds(out, opens, stack)
      invariant goal == Continue(eng, stack, calcs, Marks(text[i..]))
      decreases |text| - i
    {
      ghost var m := Marks(text[i..]);
      if Twice(text, i, '<') {
        MarkAt(text, i);
        HoldsPush(out, opens, stack);
        opens, stack := opens + [Opened(|out|, [])], stack + [Frame("", [])];
        i := i + 2;
      } else if Twice(text, i, '>') {
        MarkAt(text, i);
        i := i + 2;
        if opens == [] {
          calcs := calcs + [Unopened()];
          continue;
        }
        ghost var l := Popped(eng, stack, calcs, true);
        out, opens, calcs := CloseInnermost(eng, out, opens, calcs, stack);
        stack := Under(stack) + [FrameOf(l)];
      } else {
        MarkAt(text, i);
        HoldsWrite(out, opens, stack, [text[i]]);
        ghost var top := stack[|stack| - 1];
        stack := stack[..|stack| - 1] + [Frame(top.text + [text[i]], top.derived)];
        out := out + [text[i]];
        i := i + 1;
      }
    }
    assert text[i..] == "";
    while opens != []
      invariant Holds(out, opens, stack)
      invariant goal == Continue(eng, stack, calcs, [])
      decreases |opens|
    {
      ghost var l := Popped(eng, stack, calcs, false);
      out, opens, calcs := FailInnermost(out, opens, calcs, stack);
      stack := Under(stack) + [FrameOf(l)];
    }
    assert stack[..0] == [] && out == stack[0].text;
    ResolvedIs(eng, text);
  }
}
