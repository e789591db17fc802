/** Set-ups as text: what one evaluates to, and how an inner one's result or failure reaches the one around
    it. */
module CalcAnswer {
  import opened Wrappers
  import opened Sequences
  import opened CalcGrammar
  import opened CalcLexer
  import opened CalcLexerFacts
  import CalcParser
  import CalcOperands
  import CalcNesting
  import CalcResolve

  /** How tokens are read, numbers calculated and written, and what an error says. */
  datatype Rules<!F> = Rules(ar: Arith<F>, scan: Scanner<F>, format: F -> string, plain: F -> string,
                             why: string -> string)

  // ---------------------------------------------------------------- one expression

  /** The value of an expression, if it is arithmetic and stays finite. */
  function ValueOf<F>(ru: Rules<F>, expr: string): Option<F> {
    match Tokens(ru.scan, expr)
    case None => None
    case Some(toks) => TreeValue(ru.ar, CalcGrammar.ParseExpr(toks))
  }

  function TreeValue<F>(ar: Arith<F>, p: Option<Parse<F>>): Option<F> {
    if p.Some? && p.value.rest == [] && Computable(ar, p.value.tree) && ar.finite(Value(ar, p.value.tree))
    then Some(Value(ar, p.value.tree))
    else None
  }

  lemma ValueIsTheTokens<F(!new)>(ru: Rules<F>, expr: string)
    ensures forall v :: ValueOf(ru, expr) == Some(v) <==>
              Tokens(ru.scan, expr).Some? && Evaluates(ru.ar, Tokens(ru.scan, expr).value, v)
  {
    if Tokens(ru.scan, expr).Some? {
      CalcParser.EvaluatesIffParsed(ru.ar, Tokens(ru.scan, expr).value);
    }
  }

  method Evaluate<F(!new)>(ru: Rules<F>, rd: Reader<F>, expr: string) returns (r: CalcParser.Result<F>)
    requires ReadsBy(ru.scan, rd)
    ensures match ValueOf(ru, expr) case Some(v) => r == CalcParser.Ok(v) case None => r == CalcParser.Invalid
  {
    ValueIsTheTokens(ru, expr);
    var toks := Tokenize(rd, expr, ru.scan);
    if toks.None? {
      return CalcParser.Invalid;
    }
    r := CalcParser.EvaluateTokens(ru.ar, toks.value);
  }

  // ---------------------------------------------------------------- one calculation

  /** An operand of a calculation, marked if it is the result of one nested in it. */
  datatype Used<+F> = Used(operand: CalcOperands.Operand<F>, derived: bool)

  type Calc<!F> = CalcResolve.Calculation<F, Used<F>>

  function Marked<F>(ops: seq<CalcOperands.Operand<F>>, at: set<int>): seq<Used<F>> {
    seq(|ops|, i requires 0 <= i < |ops| => Used(ops[i], ops[i].pos in at))
  }

  function UsedIn<F>(ru: Rules<F>, expr: string, at: set<int>): seq<Used<F>> {
    match Tokens(ru.scan, expr)
    case None => []
    case Some(toks) => Marked(CalcOperands.OperandsIn(ru.ar, toks, |toks|), at)
  }

  function Calculate<F>(ru: Rules<F>, expr: string, at: set<int>): Calc<F> {
    match ValueOf(ru, expr)
    case None => CalcResolve.Calculation(expr, None, "", ru.why(expr), UsedIn(ru, expr, at))
    case Some(v) => CalcResolve.Calculation(expr, Some(v), ru.format(v), "", UsedIn(ru, expr, at))
  }

  /** What Resolve calls. */
  function EngineOf<F>(ru: Rules<F>): CalcResolve.Engine<F, Used<F>> {
    CalcResolve.Engine((expr: string, at: set<int>) => Calculate(ru, expr, at), ru.plain)
  }

  method EvaluateSetUp<F(!new)>(ru: Rules<F>, rd: Reader<F>, expr: string, at: set<int>) returns (c: Calc<F>)
    requires ReadsBy(ru.scan, rd)
    ensures c == EngineOf(ru).evaluate(expr, at)
  {
    var used: seq<Used<F>> := [];
    var toks := Tokenize(rd, expr, ru.scan);
    if toks.Some? {
      var ops := CalcOperands.Operands(ru.ar, toks.value);
      for i := 0 to |ops|
        invariant used == Marked(ops, at)[..i]
      {
        used := used + [Used(ops[i], ops[i].pos in at)];
      }
      assert used == Marked(ops, at);
    }
    var r := Evaluate(ru, rd, expr);
    c := if r.Invalid? then CalcResolve.Calculation(expr, None, "", ru.why(expr), used)
         else CalcResolve.Calculation(expr, Some(r.value), ru.format(r.value), "", used);
  }

  // ---------------------------------------------------------------- a result written in its place

  /** A number as an inner result is written, figures with a sign before them if it is negative, and what
      the figures are read as. */
  datatype Numeral<+F> = Numeral(negative: bool, figure: string, value: F)

  function Spelled<F>(n: Numeral<F>): string { if n.negative then "-" + n.figure else n.figure }

  /** The tree its tokens stand for. */
  function NumberTree<F>(n: Numeral<F>, at: nat): (e: Expr<F>)
    ensures CalcNesting.Written(e)
    ensures Flatten(e)
            == if n.negative then [Op(Minus), Num(n.value, n.figure, at + 1)] else [Num(n.value, n.figure, at)]
  {
    if n.negative then Sign(Minus, Lit(n.value, n.figure, at + 1)) else Lit(n.value, n.figure, at)
  }

  /** The figures are one token wherever nothing that goes on a number follows them. */
  ghost predicate Scanned<F(!new)>(scan: Scanner<F>, n: Numeral<F>) {
    && n.figure != "" && Opener(n.figure[0])
    && forall t, at: nat | EndsNumber(t) ::
           scan(n.figure + t, at) == Some(Piece(Num(n.value, n.figure, at), |n.figure|))
  }

  /** The number as the outer expression has it: a numeral with what stands directly before and behind it. */
  function Written<F>(rd: Reader<F>, n: Numeral<F>, cur: string, percent: bool): Numeral<F> {
    Numeral(n.negative, Amount(cur, n.figure, percent), AmountValue(rd, n.value, percent))
  }

  lemma AmountIsScanned<F(!new)>(scan: Scanner<F>, rd: Reader<F>, n: Numeral<F>, cur: string, percent: bool)
    requires ReadsBy(scan, rd) && MayPrecede(cur) && Figure(n.figure) && ReadNumber(rd, n.figure) == Some(n.value)
    ensures Scanned(scan, Written(rd, n, cur, percent))
  {
    var m := Amount(cur, n.figure, percent);
    AmountEnds(cur, n.figure, percent);
    forall t, at: nat | EndsNumber(t)
      ensures scan(m + t, at) == Some(Piece(Num(AmountValue(rd, n.value, percent), m, at), |m|))
    {
      AmountIsFirst(rd, cur, n.figure, percent, t, at, n.value);
      assert scan(m + t, at) == FirstToken(rd, m + t, at);
    }
  }

  lemma FiguresAreScanned<F(!new)>(scan: Scanner<F>, rd: Reader<F>, n: Numeral<F>)
    requires ReadsBy(scan, rd) && Figure(n.figure) && ReadNumber(rd, n.figure) == Some(n.value)
    ensures Scanned(scan, n)
  {
    AmountIsScanned(scan, rd, n, "", false);
    assert Amount("", n.figure, false) == n.figure;
  }

  // Cutting a text into tokens piece by piece asks no more of the scanner than this.

  ghost predicate Sound<F(!new)>(scan: Scanner<F>) {
    && Bounded(scan) && NumbersGoOn(scan)
    && (forall t | t != "" && Separator(t[0]) :: Splits(scan, t))
    && (forall t | t != "" && Opener(t[0]) :: SplitsBetween(scan, t))
    && (forall t, at: nat :: scan("-" + t, at) == Some(Piece(Op(Minus), 1)))
  }

  lemma ScannerIsSound<F(!new)>(scan: Scanner<F>, rd: Reader<F>)
    requires ReadsBy(scan, rd)
    ensures Sound(scan)
  {
    ScannerIsBounded(scan, rd);
    OnlyNumbersGoOn(scan, rd);
    forall t | t != "" && Separator(t[0])
      ensures Splits(scan, t)
    {
      SplitsAtSeparator(scan, rd, t);
    }
    forall t | t != "" && Opener(t[0])
      ensures SplitsBetween(scan, t)
    {
      SplitsBeforeNumber(scan, rd, t);
    }
    forall t, at: nat
      ensures scan("-" + t, at) == Some(Piece(Op(Minus), 1))
    {
      assert scan("-" + t, at) == FirstToken(rd, "-" + t, at);
    }
  }

  lemma MinusAndMore<F>(scan: Scanner<F>, q: string, post: string, at: nat, num: Token<F>)
    requires scan("-" + (q + post), at) == Some(Piece(Op(Minus), 1))
    requires Lex(scan, q + post, at + 1) == Join(Some([num]), Lex(scan, post, at + 1 + |q|))
    ensures Lex(scan, "-" + q + post, at) == Join(Some([Op(Minus), num]), Lex(scan, post, at + |"-" + q|))
  {
    ConcatAssociates("-", q, post);
    FirstThenRest(scan, "-", q + post, at, Piece(Op(Minus), 1));
    JoinAssociates(Some([Op(Minus)]), Some([num]), Lex(scan, post, at + 1 + |q|));
    assert [Op(Minus)] + [num] == [Op(Minus), num];
  }

  lemma NumeralIsRead<F(!new)>(scan: Scanner<F>, n: Numeral<F>, post: string, at: nat)
    requires Sound(scan) && Scanned(scan, n) && EndsNumber(post)
    ensures Lex(scan, Spelled(n) + post, at)
            == Join(Some(Flatten(NumberTree(n, at))), Lex(scan, post, at + |Spelled(n)|))
  {
    if n.negative {
      NegativeIsRead(scan, n, post, at);
    } else {
      FigureIsRead(scan, n, post, at);
    }
  }

  lemma NegativeIsRead<F(!new)>(scan: Scanner<F>, n: Numeral<F>, post: string, at: nat)
    requires Sound(scan) && Scanned(scan, n) && EndsNumber(post)
    ensures Lex(scan, "-" + n.figure + post, at)
            == Join(Some([Op(Minus), Num(n.value, n.figure, at + 1)]), Lex(scan, post, at + |"-" + n.figure|))
  {
    NegativeFigure(scan, n, n.figure, post, at, at + 1, Num(n.value, n.figure, at + 1));
  }

  lemma NegativeFigure<F(!new)>(scan: Scanner<F>, n: Numeral<F>, q: string, post: string, at: nat, next: nat,
                                num: Token<F>)
    requires Sound(scan) && Scanned(scan, n) && EndsNumber(post)
    requires next == at + 1 && q == n.figure && num == Num(n.value, q, next)
    ensures Lex(scan, "-" + q + post, at) == Join(Some([Op(Minus), num]), Lex(scan, post, at + |"-" + q|))
  {
    FigureIsRead(scan, n, post, next);
    MinusScanned(scan, q + post, at);
    MinusAndMore(scan, q, post, at, num);
  }

  lemma MinusScanned<F(!new)>(scan: Scanner<F>, t: string, at: nat)
    requires Sound(scan)
    ensures scan("-" + t, at) == Some(Piece(Op(Minus), 1))
  {
  }

  lemma FigureIsRead<F(!new)>(scan: Scanner<F>, n: Numeral<F>, post: string, at: nat)
    requires Scanned(scan, n) && EndsNumber(post)
    ensures Lex(scan, n.figure + post, at) == Join(Some([Num(n.value, n.figure, at)]), Lex(scan, post, at + |n.figure|))
  {
    FirstThenRest(scan, n.figure, post, at, Piece(Num(n.value, n.figure, at), |n.figure|));
  }

  predicate Begins(p: string) { p != "" && (Opener(p[0]) || p[0] == '-') }

  lemma SplitsBeforeResult<F(!new)>(scan: Scanner<F>, pre: string, p: string, post: string, a: seq<Token<F>>)
    requires Sound(scan) && Begins(p)
    requires Lex(scan, pre, 0) == Some(a) && AwaitsNumber(a)
    ensures Lex(scan, pre + (p + post), 0) == Join(Some(a), Lex(scan, p + post, |pre|))
  {
    assert (p + post)[0] == p[0];
    if p[0] == '-' {
      LexSplits(scan, pre, p + post, 0);
    } else {
      LexBeforeNumber(scan, pre, p + post, 0);
    }
  }

  lemma PiecesRead<F>(scan: Scanner<F>, pre: string, p: string, post: string, a: seq<Token<F>>, n: seq<Token<F>>,
                      b: seq<Token<F>>)
    requires Lex(scan, pre + (p + post), 0) == Join(Some(a), Lex(scan, p + post, |pre|))
    requires Lex(scan, p + post, |pre|) == Join(Some(n), Lex(scan, post, |pre| + |p|))
             && Lex(scan, post, |pre| + |p|) == Some(b)
    ensures Lex(scan, pre + p + post, 0) == Some(a + n + b)
  {
    ConcatAssociates(pre, p, post);
    JoinThree(a, n, b);
  }

  lemma JoinThree<T>(a: seq<T>, n: seq<T>, b: seq<T>)
    ensures Join(Some(a), Join(Some(n), Some(b))) == Some(a + n + b)
  {
    ConcatAssociates(a, n, b);
  }

  /** Where a number may stand, a result written there is read as that number, and the text around it as
      without it. */
  lemma ResultReadInPlace<F(!new)>(scan: Scanner<F>, pre: string, n: Numeral<F>, post: string, a: seq<Token<F>>,
                                   b: seq<Token<F>>)
    requires Sound(scan) && Scanned(scan, n)
    requires Lex(scan, pre, 0) == Some(a) && AwaitsNumber(a)
    requires Lex(scan, post, |pre| + |Spelled(n)|) == Some(b) && StartsNoNumber(b)
    ensures Lex(scan, pre + Spelled(n) + post, 0) == Some(a + Flatten(NumberTree(n, |pre|)) + b)
  {
    GoingOnIsNumber(scan, post, |pre| + |Spelled(n)|);
    NumeralIsRead(scan, n, post, |pre|);
    SplitsBeforeResult(scan, pre, Spelled(n), post, a);
    PiecesRead(scan, pre, Spelled(n), post, a, Flatten(NumberTree(n, |pre|)), b);
  }
}
