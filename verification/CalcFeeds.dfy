/** How an inner set-up reaches the one around it, on text: its value stands in its place, and its failure
    fails the other. */
module CalcFeeds {
  import opened Wrappers
  import opened Text
  import opened Sequences
  import opened CalcGrammar
  import opened CalcLexer
  import opened CalcLexerFacts
  import opened CalcAnswer
  import CalcNesting
  import CalcResolve
  import CalcResolveFacts

  // ---------------------------------------------------------------- a number in a tree stands alone

  lemma ApartJoin<F>(a: seq<Token<F>>, t: Token<F>, b: seq<Token<F>>)
    requires Apart(a) && Apart(b) && !t.Num?
    ensures Apart(a + [t] + b)
  {
    var s := a + [t] + b;
    forall k | 0 < k < |s|
      ensures !(s[k - 1].Num? && s[k].Num?)
    {
      if k < |a| {
        assert s[k - 1] == a[k - 1] && s[k] == a[k];
      } else if k > |a| + 1 {
        assert s[k - 1] == b[k - |a| - 2] && s[k] == b[k - |a| - 1];
      }
    }
  }

  lemma {:induction false} NumbersApart<F>(e: Expr<F>)
    ensures Apart(Flatten(e))
  {
    match e
    case Lit(_, _, _) =>
    case Group(x) =>
      NumbersApart(x);
      ApartJoin([], LParen, Flatten(x));
      assert [] + [LParen] + Flatten(x) == [LParen] + Flatten(x);
      ApartJoin([LParen] + Flatten(x), RParen, []);
      assert [LParen] + Flatten(x) + [RParen] + [] == Flatten(e);
    case Sign(op, x) =>
      NumbersApart(x);
      ApartJoin([], Op(op), Flatten(x));
      assert [] + [Op(op)] + Flatten(x) == Flatten(e);
    case Pow(b, x) =>
      NumbersApart(b);
      NumbersApart(x);
      ApartJoin(Flatten(b), Op(Power), Flatten(x));
    case Bin(op, l, r) =>
      NumbersApart(l);
      NumbersApart(r);
      ApartJoin(Flatten(l), Op(op), Flatten(r));
  }

  lemma HoleStandsAlone<F>(a: seq<Token<F>>, hole: Token<F>, b: seq<Token<F>>)
    requires Apart(a + [hole] + b) && hole.Num?
    ensures AwaitsNumber(a) && StartsNoNumber(b)
  {
    var s := a + [hole] + b;
    assert s[|a|] == hole;
    assert b != [] ==> s[|a| + 1] == b[0];
    assert a != [] ==> s[|a| - 1] == a[|a| - 1];
    forall k | 0 < k < |a|
      ensures !(a[k - 1].Num? && a[k].Num?)
    {
      assert s[k - 1] == a[k - 1] && s[k] == a[k];
    }
  }

  // ---------------------------------------------------------------- a value in its place

  /** What surrounds an inner set-up, with some number in its place, is one expression; `currency` is what
      stands directly before it, a currency sign or nothing, and `percent` whether a percent sign stands
      directly behind it. */
  datatype Frame<+F> = Frame(tree: Expr<F>, before: seq<Token<F>>, hole: Token<F>, after: seq<Token<F>>,
                             currency: string, percent: bool)

  /** Where the outer expression's number begins, the inner set-up standing after `pre`. */
  function NumberStart<F>(fr: Frame<F>, pre: string): nat {
    if |fr.currency| <= |pre| then |pre| - |fr.currency| else 0
  }

  /** What follows that number, `post` following the inner set-up. */
  function NumberRest<F>(fr: Frame<F>, post: string): string { if fr.percent && post != "" then post[1..] else post }

  ghost predicate Surrounds<F>(scan: Scanner<F>, fr: Frame<F>, pre: string, size: nat, post: string) {
    && Fits(fr.tree, EXPR) && Flatten(fr.tree) == fr.before + [fr.hole] + fr.after && fr.hole.Num?
    && MayPrecede(fr.currency) && pre == pre[..NumberStart(fr, pre)] + fr.currency
    && post == PercentSign(fr.percent) + NumberRest(fr, post)
    && Lex(scan, pre[..NumberStart(fr, pre)], 0) == Some(fr.before)
    && Lex(scan, NumberRest(fr, post), |pre| + size + |PercentSign(fr.percent)|) == Some(fr.after)
  }

  /** The number as the outer expression has it. */
  function Priced<F>(rd: Reader<F>, fr: Frame<F>, n: Numeral<F>): Numeral<F> {
    Written(rd, n, fr.currency, fr.percent)
  }

  /** The same for the place a numeral takes, which is read as one number there. */
  ghost predicate Prepared<F(!new)>(scan: Scanner<F>, rd: Reader<F>, fr: Frame<F>, pre: string, n: Numeral<F>,
                                    post: string) {
    && Sound(scan) && Scanned(scan, Priced(rd, fr, n)) && (fr.currency != "" ==> !n.negative)
    && Surrounds(scan, fr, pre, |Spelled(n)|, post)
  }

  /** Its tokens with a numeral's in that place, the number being at position `at` of the expression. */
  function TokensWith<F>(rd: Reader<F>, fr: Frame<F>, n: Numeral<F>, at: nat): (toks: seq<Token<F>>)
    ensures toks != []
  {
    fr.before + Flatten(NumberTree(Priced(rd, fr, n), at)) + fr.after
  }

  /** The expression with another number in that place. */
  function Filled<F>(fr: Frame<F>, v: F): Expr<F>
    requires CalcNesting.NumberAt(Flatten(fr.tree), |fr.before|)
  {
    CalcNesting.Plug(fr.tree, |fr.before|, Lit(v, "", 0))
  }

  function NumeralValue<F>(ar: Arith<F>, n: Numeral<F>): F { if n.negative then ar.neg(n.value) else n.value }

  /** A negative number may not stand as the base of a power. */
  predicate MayStand<F>(fr: Frame<F>, n: Numeral<F>) {
    n.negative ==> !CalcNesting.RaisedAt(Flatten(fr.tree), |fr.before|)
  }

  lemma HoleIsNumber<F>(fr: Frame<F>)
    requires Flatten(fr.tree) == fr.before + [fr.hole] + fr.after && fr.hole.Num?
    ensures CalcNesting.NumberAt(Flatten(fr.tree), |fr.before|)
  {
  }

  /** The outer expression's tokens are those around the inner set-up with its number's between them. */
  lemma ResultTokens<F(!new)>(scan: Scanner<F>, rd: Reader<F>, fr: Frame<F>, pre: string, n: Numeral<F>, post: string)
    requires Prepared(scan, rd, fr, Ascii(pre), n, Ascii(post)) && Simple(n.figure)
    ensures Tokens(scan, pre + Spelled(n) + post) == Some(TokensWith(rd, fr, n, NumberStart(fr, pre)))
  {
    AsciiTokens(scan, rd, fr, pre, n, post);
    SpelledTokens(scan, rd, fr, pre, n, post);
  }

  lemma AsciiTokens<F(!new)>(scan: Scanner<F>, rd: Reader<F>, fr: Frame<F>, pre: string, n: Numeral<F>, post: string)
    requires Prepared(scan, rd, fr, Ascii(pre), n, Ascii(post))
    ensures Lex(scan, Ascii(pre) + Spelled(n) + Ascii(post), 0) == Some(TokensWith(rd, fr, n, NumberStart(fr, pre)))
  {
    SurroundedTokens(scan, rd, fr, Ascii(pre), n, Ascii(post));
  }

  lemma SpelledTokens<F>(scan: Scanner<F>, rd: Reader<F>, fr: Frame<F>, pre: string, n: Numeral<F>, post: string)
    requires Simple(n.figure)
             && Lex(scan, Ascii(pre) + Spelled(n) + Ascii(post), 0) == Some(TokensWith(rd, fr, n, NumberStart(fr, pre)))
    ensures Tokens(scan, pre + Spelled(n) + post) == Some(TokensWith(rd, fr, n, NumberStart(fr, pre)))
  {
    SpelledEnds(n);
    TokensAround(scan, pre, Spelled(n), post, TokensWith(rd, fr, n, NumberStart(fr, pre)));
  }

  lemma TokensAround<F>(scan: Scanner<F>, pre: string, p: string, post: string, toks: seq<Token<F>>)
    requires p != "" && AsciiOnly(p) && Lex(scan, Ascii(pre) + p + Ascii(post), 0) == Some(toks) && toks != []
    ensures Tokens(scan, pre + p + post) == Some(toks)
  {
    AsciiAround(pre, p, post);
  }

  lemma SurroundedTokens<F(!new)>(scan: Scanner<F>, rd: Reader<F>, fr: Frame<F>, pre: string, n: Numeral<F>,
                                  post: string)
    requires Prepared(scan, rd, fr, pre, n, post)
    ensures Lex(scan, pre + Spelled(n) + post, 0) == Some(TokensWith(rd, fr, n, NumberStart(fr, pre)))
  {
    var start, rest := pre[..NumberStart(fr, pre)], NumberRest(fr, post);
    NumbersApart(fr.tree);
    HoleStandsAlone(fr.before, fr.hole, fr.after);
    PricedText(rd, fr, n, start, rest);
    ResultReadInPlace(scan, start, Priced(rd, fr, n), rest, fr.before, fr.after);
  }

  lemma PricedText<F>(rd: Reader<F>, fr: Frame<F>, n: Numeral<F>, start: string, rest: string)
    requires fr.currency != "" ==> !n.negative
    ensures start + fr.currency + Spelled(n) + (PercentSign(fr.percent) + rest)
            == start + Spelled(Priced(rd, fr, n)) + rest
    ensures |start + fr.currency| + |Spelled(n)| + |PercentSign(fr.percent)| == |start| + |Spelled(Priced(rd, fr, n))|
  {
    var cur, p := fr.currency, PercentSign(fr.percent);
    assert Spelled(Priced(rd, fr, n)) == cur + Spelled(n) + p;
    assert start + cur + Spelled(n) + (p + rest) == start + (cur + Spelled(n) + p) + rest;
  }

  lemma FilledTokens<F(!new)>(ar: Arith<F>, rd: Reader<F>, fr: Frame<F>, n: Numeral<F>, at: nat)
    requires Fits(fr.tree, EXPR) && Flatten(fr.tree) == fr.before + [fr.hole] + fr.after && fr.hole.Num?
             && MayStand(fr, n)
    ensures CalcNesting.NumberAt(Flatten(fr.tree), |fr.before|)
    ensures forall v :: Evaluates(ar, TokensWith(rd, fr, n, at), v) <==>
              var whole := Filled(fr, NumeralValue(ar, Priced(rd, fr, n)));
              Computable(ar, whole) && ar.finite(v) && Value(ar, whole) == v
  {
    HoleIsNumber(fr);
    var num := NumberTree(Priced(rd, fr, n), at);
    SpliceIs(fr.before, fr.hole, fr.after, Flatten(num));
    forall v
      ensures Evaluates(ar, TokensWith(rd, fr, n, at), v) <==>
                var whole := Filled(fr, NumeralValue(ar, Priced(rd, fr, n)));
                Computable(ar, whole) && ar.finite(v) && Value(ar, whole) == v
    {
      CalcNesting.InnerValueFeedsOuter(ar, fr.tree, |fr.before|, num, v);
    }
  }

  lemma SpliceIs<T>(a: seq<T>, x: T, b: seq<T>, mid: seq<T>)
    ensures CalcNesting.Splice(a + [x] + b, |a|, mid) == a + mid + b
  {
    assert (a + [x] + b)[..|a|] == a && (a + [x] + b)[|a| + 1..] == b;
  }

  /** A tree's value, if it is computable and finite. */
  function Worth<F>(ar: Arith<F>, e: Expr<F>): Option<F> {
    if Computable(ar, e) && ar.finite(Value(ar, e)) then Some(Value(ar, e)) else None
  }

  lemma AsciiAround(pre: string, p: string, post: string)
    requires p != "" && AsciiOnly(p)
    ensures Ascii(pre + p + post) == Ascii(pre) + p + Ascii(post)
  {
    AsciiKeeps(p, post);
    ConcatAssociates(pre, p, post);
    AsciiSplits(pre, p + post);
    ConcatAssociates(Ascii(pre), p, Ascii(post));
  }

  lemma ResultFeedsExpression<F(!new)>(ru: Rules<F>, rd: Reader<F>, fr: Frame<F>, pre: string, n: Numeral<F>,
                                       post: string)
    requires Prepared(ru.scan, rd, fr, Ascii(pre), n, Ascii(post)) && Simple(n.figure) && MayStand(fr, n)
    ensures CalcNesting.NumberAt(Flatten(fr.tree), |fr.before|)
    ensures ValueOf(ru, pre + Spelled(n) + post) == Worth(ru.ar, Filled(fr, NumeralValue(ru.ar, Priced(rd, fr, n))))
  {
    ResultTokens(ru.scan, rd, fr, pre, n, post);
    FilledTokens(ru.ar, rd, fr, n, NumberStart(fr, pre));
    WorthIsValue(ru, pre + Spelled(n) + post, TokensWith(rd, fr, n, NumberStart(fr, pre)),
                 Filled(fr, NumeralValue(ru.ar, Priced(rd, fr, n))));
  }

  lemma WorthIsValue<F(!new)>(ru: Rules<F>, expr: string, toks: seq<Token<F>>, e: Expr<F>)
    requires Tokens(ru.scan, expr) == Some(toks)
    requires forall v :: Evaluates(ru.ar, toks, v) <==> Computable(ru.ar, e) && ru.ar.finite(v) && Value(ru.ar, e) == v
    ensures ValueOf(ru, expr) == Worth(ru.ar, e)
  {
    ValueIsTheTokens(ru, expr);
    if ValueOf(ru, expr).Some? {
      assert Evaluates(ru.ar, toks, ValueOf(ru, expr).value);
    }
    if Worth(ru.ar, e).Some? {
      assert Evaluates(ru.ar, toks, Worth(ru.ar, e).value);
    }
  }

  // ---------------------------------------------------------------- an inner set-up and the one around it

  type Local<!F> = CalcResolve.Local<F, Used<F>>

  type Items = seq<CalcResolve.Item>

  /** What is read inside a set-up. */
  function Inside<F>(ru: Rules<F>, items: Items): Local<F> {
    CalcResolve.Meaning(EngineOf(ru), items, true, CalcResolve.Empty())
  }

  function Body(before: Items, inner: Items, after: Items): Items { before + [CalcResolve.SetUp(inner)] + after }

  /** The calculation of the set-up that holds `items`. */
  function CalcOf<F>(ru: Rules<F>, items: Items): Calc<F> { CalcResolve.Calculated(EngineOf(ru), Inside(ru, items)) }

  /** What the text before an inner set-up comes to in the outer expression, and the text after it. */
  function Head<F>(ru: Rules<F>, before: Items): string {
    var s := Inside(ru, before).text;
    s[LeadingSpace(s)..]
  }

  function Tail<F>(ru: Rules<F>, after: Items): string { TrimRight(Inside(ru, after).text) }

  lemma LocalOfBody<F>(ru: Rules<F>, before: Items, inner: Items, after: Items)
    ensures Inside(ru, Body(before, inner, after))
            == CalcResolveFacts.After(
                 CalcResolveFacts.After(Inside(ru, before),
                                        CalcResolve.Closed(EngineOf(ru), true, CalcResolve.Empty(), Inside(ru, inner))),
                 Inside(ru, after))
  {
    var eng, none := EngineOf(ru), CalcResolve.Empty<F, Used<F>>();
    var sofar := CalcResolve.Meaning(eng, before, true, none);
    CalcResolveFacts.MeaningConcat(eng, before + [CalcResolve.SetUp(inner)], after, true, none);
    CalcResolveFacts.MeaningConcat(eng, before, [CalcResolve.SetUp(inner)], true, none);
    CalcResolveFacts.ItemReadsTheSame(eng, CalcResolve.SetUp(inner), true, sofar);
    var there := CalcResolve.MeaningOf(eng, CalcResolve.SetUp(inner), true, sofar);
    CalcResolveFacts.ReadsTheSameAnywhere(eng, after, true, there);
  }

  lemma TextOfBody<F>(ru: Rules<F>, before: Items, inner: Items, after: Items)
    ensures Inside(ru, Body(before, inner, after)).text
            == Inside(ru, before).text + Left(ru, inner) + Inside(ru, after).text
  {
    LocalOfBody(ru, before, inner, after);
    assert "" + Left(ru, inner) == Left(ru, inner);
  }

  /** What is left where an inner set-up stood. */
  function Left<F>(ru: Rules<F>, inner: Items): string {
    CalcResolve.Replacement(EngineOf(ru), true, CalcResolve.Expression(Inside(ru, inner)), CalcOf(ru, inner))
  }

  lemma {:induction false} LeadingKeeps(s: string, t: string, p: char -> bool)
    requires t != "" && !p(t[0])
    ensures Leading(s + t, p) == Leading(s, p)
    decreases |s|
  {
    if s == "" {
      assert s + t == t;
    } else {
      assert (s + t)[0] == s[0];
      DropSplits(s, t, 1);
      LeadingKeeps(s[1..], t, p);
    }
  }

  lemma ExpressionOfBody<F>(ru: Rules<F>, before: Items, inner: Items, after: Items)
    requires var p := Left(ru, inner); p != "" && Solid(p[0]) && Solid(p[|p| - 1])
    ensures CalcResolve.Expression(Inside(ru, Body(before, inner, after)))
            == Head(ru, before) + Left(ru, inner) + Tail(ru, after)
  {
    TextOfBody(ru, before, inner, after);
    TrimAround(Inside(ru, before).text, Left(ru, inner), Inside(ru, after).text);
  }

  /** The inner set-up has a value, written as numeral n. */
  predicate Gives<F>(ru: Rules<F>, inner: Items, n: Numeral<F>) {
    CalcOf(ru, inner).value.Some? && ru.plain(CalcOf(ru, inner).value.value) == Spelled(n) && Simple(n.figure)
  }

  lemma LeavesNumeral<F>(ru: Rules<F>, inner: Items, n: Numeral<F>)
    requires Gives(ru, inner, n)
    ensures var p := Left(ru, inner); p == Spelled(n) && p != "" && Solid(p[0]) && Solid(p[|p| - 1])
  {
    LeftIsSpelled(ru, inner, n);
    EndsOf(Left(ru, inner), n);
  }

  lemma LeftIsSpelled<F>(ru: Rules<F>, inner: Items, n: Numeral<F>)
    requires Gives(ru, inner, n)
    ensures Left(ru, inner) == Spelled(n)
  {
  }

  lemma EndsOf<F>(p: string, n: Numeral<F>)
    requires Simple(n.figure) && p == Spelled(n)
    ensures p != "" && Solid(p[0]) && Solid(p[|p| - 1])
  {
    SpelledEnds(n);
  }

  lemma SpelledEnds<F>(n: Numeral<F>)
    requires Simple(n.figure)
    ensures var p := Spelled(n); p != "" && Solid(p[0]) && Solid(p[|p| - 1]) && AsciiOnly(p)
  {
    var q := n.figure;
    assert Digit(q[|q| - 1]) || q[|q| - 1] == '.';
    assert n.negative ==> forall k | 0 < k < |Spelled(n)| :: Spelled(n)[k] == q[k - 1];
  }

  lemma CalcIsOfExpression<F>(ru: Rules<F>, items: Items)
    ensures CalcOf(ru, items).value == ValueOf(ru, CalcResolve.Expression(Inside(ru, items)))
  {
  }

  lemma ValueFeedsOuter<F(!new)>(ru: Rules<F>, rd: Reader<F>, before: Items, inner: Items, after: Items,
                                 n: Numeral<F>, fr: Frame<F>)
    requires Prepared(ru.scan, rd, fr, Ascii(Head(ru, before)), n, Ascii(Tail(ru, after)))
    requires Gives(ru, inner, n) && MayStand(fr, n)
    ensures CalcNesting.NumberAt(Flatten(fr.tree), |fr.before|)
    ensures CalcOf(ru, Body(before, inner, after)).value
            == Worth(ru.ar, Filled(fr, NumeralValue(ru.ar, Priced(rd, fr, n))))
  {
    LeavesNumeral(ru, inner, n);
    ExpressionOfBody(ru, before, inner, after);
    ResultFeedsExpression(ru, rd, fr, Head(ru, before), n, Tail(ru, after));
    CalcIsOfExpression(ru, Body(before, inner, after));
  }

  /** The numeral is read back as n says, and what surrounds the inner set-up is an expression with some
      number in its place. */
  ghost predicate Stands<F(!new)>(ru: Rules<F>, rd: Reader<F>, before: Items, after: Items, n: Numeral<F>,
                                  fr: Frame<F>) {
    && ReadsBy(ru.scan, rd) && Figure(n.figure) && ReadNumber(rd, n.figure) == Some(n.value)
    && (fr.currency != "" ==> !n.negative)
    && Surrounds(ru.scan, fr, Ascii(Head(ru, before)), |Spelled(n)|, Ascii(Tail(ru, after)))
  }

  lemma StandsPrepared<F(!new)>(ru: Rules<F>, rd: Reader<F>, before: Items, after: Items, n: Numeral<F>, fr: Frame<F>)
    requires Stands(ru, rd, before, after, n, fr)
    ensures Prepared(ru.scan, rd, fr, Ascii(Head(ru, before)), n, Ascii(Tail(ru, after)))
  {
    ScannerIsSound(ru.scan, rd);
    AmountIsScanned(ru.scan, rd, n, fr.currency, fr.percent);
  }

  /** The innermost is worked out first and its value feeds the one around it: where a number may stand,
      a set-up that holds another evaluates to what its tree does with the inner value in that place,
      whatever else it holds. */
  lemma InnerFeedsOuter<F(!new)>(ru: Rules<F>, rd: Reader<F>, before: Items, inner: Items, after: Items,
                                 n: Numeral<F>, fr: Frame<F>)
    requires Gives(ru, inner, n) && Stands(ru, rd, before, after, n, fr) && MayStand(fr, n)
    ensures CalcNesting.NumberAt(Flatten(fr.tree), |fr.before|)
    ensures CalcOf(ru, Body(before, inner, after)).value
            == Worth(ru.ar, Filled(fr, NumeralValue(ru.ar, Priced(rd, fr, n))))
  {
    StandsPrepared(ru, rd, before, after, n, fr);
    ValueFeedsOuter(ru, rd, before, inner, after, n, fr);
  }

  /** A set-up's calculation is on record whatever stands before it and around it. */
  lemma SetUpIsCalculated<F>(ru: Rules<F>, items: Items, inside: bool, at: Local<F>)
    ensures var calcs := CalcResolve.MeaningOf(EngineOf(ru), CalcResolve.SetUp(items), inside, at).calcs;
            calcs != [] && calcs[|calcs| - 1] == CalcOf(ru, items)
  {
    CalcResolveFacts.BodyReadsTheSame(EngineOf(ru), items, at);
    var inner := Inside(ru, items);
    PlacesIgnoreCalcs(inner, at.calcs + inner.calcs);
  }

  lemma PlacesIgnoreCalcs<F>(l: Local<F>, calcs: seq<Calc<F>>)
    ensures CalcResolve.Places(CalcResolve.Local(l.text, l.derived, calcs)) == CalcResolve.Places(l)
  {
  }

  /** What Resolve makes of a text with one set-up that holds another: its last calculation is the outer
      one's, with the inner value in its place. */
  lemma ResolvedNested<F(!new)>(ru: Rules<F>, rd: Reader<F>, text: string, x: string, y: string,
                                before: Items, inner: Items, after: Items, n: Numeral<F>, fr: Frame<F>)
    requires CalcResolve.Nesting(text)
             == CalcResolveFacts.Bytes(x) + [CalcResolve.SetUp(Body(before, inner, after))] + CalcResolveFacts.Bytes(y)
    requires Gives(ru, inner, n) && Stands(ru, rd, before, after, n, fr) && MayStand(fr, n)
    ensures CalcNesting.NumberAt(Flatten(fr.tree), |fr.before|)
    ensures var calcs := CalcResolve.Meaning(EngineOf(ru), CalcResolve.Nesting(text), false, CalcResolve.Empty()).calcs;
            calcs != [] && calcs[|calcs| - 1].value == Worth(ru.ar, Filled(fr, NumeralValue(ru.ar, Priced(rd, fr, n))))
  {
    OnlySetUpIsLast(ru, x, Body(before, inner, after), y);
    InnerFeedsOuter(ru, rd, before, inner, after, n, fr);
  }

  lemma OnlySetUpIsLast<F>(ru: Rules<F>, x: string, items: Items, y: string)
    ensures var all := CalcResolveFacts.Bytes(x) + [CalcResolve.SetUp(items)] + CalcResolveFacts.Bytes(y);
            var calcs := CalcResolve.Meaning(EngineOf(ru), all, false, CalcResolve.Empty()).calcs;
            calcs != [] && calcs[|calcs| - 1] == CalcOf(ru, items)
  {
    CalcResolveFacts.TextOutsideIsUnchanged(EngineOf(ru), x, [CalcResolve.SetUp(items)], y);
    SetUpIsCalculated(ru, items, false, CalcResolve.Empty());
    OneItem(EngineOf(ru), CalcResolve.SetUp(items));
  }

  lemma OneItem<F>(eng: CalcResolve.Engine<F, Used<F>>, item: CalcResolve.Item)
    ensures CalcResolve.Meaning(eng, [item], false, CalcResolve.Empty())
            == CalcResolve.MeaningOf(eng, item, false, CalcResolve.Empty())
  {
    assert [item][1..] == [];
  }

  /** A negative result behind a currency sign is no number, and the outer set-up fails. */
  lemma NegativeBehindCurrencyFails<F(!new)>(ru: Rules<F>, rd: Reader<F>, before: Items, inner: Items, after: Items,
                                             n: Numeral<F>, start: string, cur: string, a: seq<Token<F>>)
    requires Gives(ru, inner, n) && n.negative && ReadsBy(ru.scan, rd) && IsCurrency(cur)
    requires Ascii(Head(ru, before)) == start + cur && Lex(ru.scan, start, 0) == Some(a) && AwaitsNumber(a)
    ensures CalcOf(ru, Body(before, inner, after)).value.None?
  {
    LeavesNumeral(ru, inner, n);
    ExpressionOfBody(ru, before, inner, after);
    CalcIsOfExpression(ru, Body(before, inner, after));
    SpelledEnds(n);
    AsciiAround(Head(ru, before), Spelled(n), Tail(ru, after));
    ConcatAssociates("-", n.figure, Ascii(Tail(ru, after)));
    PricedMinusFails(ru.scan, rd, start, cur, n.figure + Ascii(Tail(ru, after)), a);
    ConcatAssociates(start + cur, Spelled(n), Ascii(Tail(ru, after)));
  }

  lemma PricedMinusFails<F(!new)>(scan: Scanner<F>, rd: Reader<F>, start: string, cur: string, t: string,
                                  a: seq<Token<F>>)
    requires ReadsBy(scan, rd) && IsCurrency(cur) && Lex(scan, start, 0) == Some(a) && AwaitsNumber(a)
    ensures Lex(scan, start + cur + ("-" + t), 0) == None
  {
    var rest := cur + ("-" + t);
    CurrencyOpens(cur, "-" + t);
    assert rest[0] == cur[0];
    SplitsBeforeNumber(scan, rd, rest);
    OnlyNumbersGoOn(scan, rd);
    LexBeforeNumber(scan, start, rest, 0);
    MinusNotRead(scan, rd, cur, t, |start|);
    ConcatAssociates(start, cur, "-" + t);
  }

  lemma MinusNotRead<F>(scan: Scanner<F>, rd: Reader<F>, cur: string, t: string, at: nat)
    requires ReadsBy(scan, rd) && IsCurrency(cur)
    ensures Lex(scan, cur + ("-" + t), at) == None
  {
    CurrencyOpens(cur, "-" + t);
    MinusUnscanned(scan, rd, cur, t, at);
    NoTokens(scan, cur + ("-" + t), at);
  }

  lemma MinusUnscanned<F>(scan: Scanner<F>, rd: Reader<F>, cur: string, t: string, at: nat)
    requires ReadsBy(scan, rd) && IsCurrency(cur)
    ensures scan(cur + ("-" + t), at) == None
  {
    MinusBehindCurrency(rd, cur, t, at);
    ScannedAs(scan, rd, cur + ("-" + t), at);
  }

  lemma NoTokens<F>(scan: Scanner<F>, s: string, at: nat)
    requires s != "" && !Blank(s[0]) && scan(s, at) == None
    ensures Lex(scan, s, at) == None
  {
  }
}
