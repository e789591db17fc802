/** How an inner set-up that fails fails the one around it, on text: it is left there in parentheses. */
module CalcFails {
  import opened Wrappers
  import opened Text
  import opened CalcGrammar
  import opened CalcLexer
  import opened CalcLexerFacts
  import opened CalcAnswer
  import opened CalcFeeds
  import CalcNesting
  import CalcResolve

  // ---------------------------------------------------------------- where a text stands does not matter

  function Moved<F>(t: Token<F>, f: nat -> nat): Token<F> {
    if t.Num? then Num(t.value, t.text, f(t.pos)) else t
  }

  function MovedAll<F>(toks: seq<Token<F>>, f: nat -> nat): (r: seq<Token<F>>)
    ensures |r| == |toks|
  {
    seq(|toks|, i requires 0 <= i < |toks| => Moved(toks[i], f))
  }

  function MovedTree<F>(e: Expr<F>, f: nat -> nat): Expr<F> {
    match e
    case Lit(v, text, pos) => Lit(v, text, f(pos))
    case Group(x) => Group(MovedTree(x, f))
    case Sign(op, x) => Sign(op, MovedTree(x, f))
    case Pow(b, x) => Pow(MovedTree(b, f), MovedTree(x, f))
    case Bin(op, l, r) => Bin(op, MovedTree(l, f), MovedTree(r, f))
  }

  lemma MovedConcat<F>(a: seq<Token<F>>, b: seq<Token<F>>, f: nat -> nat)
    ensures MovedAll(a + b, f) == MovedAll(a, f) + MovedAll(b, f)
  {
  }

  lemma MovedOne<F>(t: Token<F>, f: nat -> nat)
    ensures MovedAll([t], f) == [Moved(t, f)]
  {
  }

  lemma {:induction false} MovedFlattens<F>(e: Expr<F>, f: nat -> nat)
    ensures Flatten(MovedTree(e, f)) == MovedAll(Flatten(e), f)
  {
    match e
    case Lit(_, _, _) =>
    case Group(x) =>
      MovedFlattens(x, f);
      MovedAround(LParen, Flatten(x), RParen, f);
    case Sign(op, x) =>
      MovedFlattens(x, f);
      MovedBehind(Op(op), Flatten(x), f);
    case Pow(b, x) =>
      MovedFlattens(b, f);
      MovedFlattens(x, f);
      MovedThree(Flatten(b), Op(Power), Flatten(x), f);
    case Bin(op, l, r) =>
      MovedFlattens(l, f);
      MovedFlattens(r, f);
      MovedThree(Flatten(l), Op(op), Flatten(r), f);
  }

  lemma MovedBehind<F>(t: Token<F>, s: seq<Token<F>>, f: nat -> nat)
    ensures MovedAll([t] + s, f) == [Moved(t, f)] + MovedAll(s, f)
  {
    MovedConcat([t], s, f);
    MovedOne(t, f);
  }

  lemma MovedAround<F>(l: Token<F>, s: seq<Token<F>>, r: Token<F>, f: nat -> nat)
    ensures MovedAll([l] + s + [r], f) == [Moved(l, f)] + MovedAll(s, f) + [Moved(r, f)]
  {
    MovedConcat([l] + s, [r], f);
    MovedBehind(l, s, f);
    MovedOne(r, f);
  }

  lemma MovedThree<F>(a: seq<Token<F>>, t: Token<F>, b: seq<Token<F>>, f: nat -> nat)
    ensures MovedAll(a + [t] + b, f) == MovedAll(a, f) + [Moved(t, f)] + MovedAll(b, f)
  {
    MovedConcat(a + [t], b, f);
    MovedConcat(a, [t], f);
    MovedOne(t, f);
  }

  lemma {:induction false} MovedMeans<F>(ar: Arith<F>, e: Expr<F>, f: nat -> nat)
    ensures Value(ar, MovedTree(e, f)) == Value(ar, e) && Computable(ar, MovedTree(e, f)) == Computable(ar, e)
  {
    match e
    case Lit(_, _, _) =>
    case Group(x) => MovedMeans(ar, x, f);
    case Sign(op, x) => MovedMeans(ar, x, f);
    case Pow(b, x) =>
      MovedMeans(ar, b, f);
      MovedMeans(ar, x, f);
    case Bin(op, l, r) =>
      MovedMeans(ar, l, f);
      MovedMeans(ar, r, f);
  }

  lemma {:induction false} MovedFits<F>(e: Expr<F>, rank: nat, f: nat -> nat)
    requires Fits(e, rank)
    ensures Fits(MovedTree(e, f), rank)
  {
    match e
    case Lit(_, _, _) =>
    case Group(x) => MovedFits(x, EXPR, f);
    case Sign(op, x) => MovedFits(x, UNARY, f);
    case Pow(b, x) =>
      MovedFits(b, ATOM, f);
      MovedFits(x, UNARY, f);
    case Bin(op, l, r) =>
      MovedFits(l, if Additive(op) then EXPR else TERM, f);
      MovedFits(r, if Additive(op) then TERM else UNARY, f);
  }

  lemma MovedEvaluates<F(!new)>(ar: Arith<F>, toks: seq<Token<F>>, f: nat -> nat, v: F)
    requires Evaluates(ar, toks, v)
    ensures Evaluates(ar, MovedAll(toks, f), v)
  {
    var e: Expr<F> :| Denotes(ar, e, toks, v);
    MovedFlattens(e, f);
    MovedMeans(ar, e, f);
    MovedFits(e, EXPR, f);
    assert Denotes(ar, MovedTree(e, f), MovedAll(toks, f), v);
  }

  lemma {:induction false} MovedNests<F>(d: nat, toks: seq<Token<F>>, f: nat -> nat)
    ensures CalcNesting.Nest(d, MovedAll(toks, f)) == CalcNesting.Nest(d, toks)
    decreases |toks|
  {
    if toks != [] {
      assert MovedAll(toks, f)[1..] == MovedAll(toks[1..], f);
      match toks[0]
      case LParen => MovedNests(d + 1, toks[1..], f);
      case RParen =>
        if d > 0 {
          MovedNests(d - 1, toks[1..], f);
        }
      case _ => MovedNests(d, toks[1..], f);
    }
  }

  // ---------------------------------------------------------------- a text read further on

  function Further(k: nat): nat -> nat { (p: nat) => p + k }

  function Nearer(k: nat): nat -> nat { (p: nat) => if p >= k then p - k else 0 }

  /** Where a token stands is all that its position is. */
  ghost predicate Steady<F(!new)>(scan: Scanner<F>) {
    forall u, at: nat, on: nat | at <= on :: scan(u, on) == MovedPiece(scan(u, at), on - at)
  }

  function MovedPiece<F>(p: Option<Piece<F>>, k: nat): Option<Piece<F>> {
    if p.None? then None else Some(Piece(Moved(p.value.token, Further(k)), p.value.length))
  }

  lemma ScannerIsSteady<F(!new)>(scan: Scanner<F>, rd: Reader<F>)
    requires ReadsBy(scan, rd)
    ensures Steady(scan)
  {
    forall u, at: nat, on: nat | at <= on
      ensures scan(u, on) == MovedPiece(scan(u, at), on - at)
    {
      ScanMoves(scan, rd, u, at, on);
    }
  }

  lemma ScanMoves<F>(scan: Scanner<F>, rd: Reader<F>, u: string, at: nat, on: nat)
    requires ReadsBy(scan, rd) && at <= on
    ensures scan(u, on) == MovedPiece(scan(u, at), on - at)
  {
    FirstMoves(rd, u, at, on);
    assert scan(u, at) == FirstToken(rd, u, at);
    assert scan(u, on) == FirstToken(rd, u, on);
  }

  lemma FirstMoves<F>(rd: Reader<F>, u: string, at: nat, on: nat)
    requires at <= on
    ensures FirstToken(rd, u, on) == MovedPiece(FirstToken(rd, u, at), on - at)
  {
    if u != "" && !Symbolic(u[0]) {
      NumberMoves(rd, u[..NumberLength(u)], at, on);
    }
  }

  lemma NumberMoves<F>(rd: Reader<F>, m: string, at: nat, on: nat)
    requires at <= on
    ensures NumberPiece(rd, m, on) == MovedPiece(NumberPiece(rd, m, at), on - at)
  {
  }

  function MovedText<F>(r: Option<seq<Token<F>>>, k: nat): Option<seq<Token<F>>> {
    if r.None? then None else Some(MovedAll(r.value, Further(k)))
  }

  lemma {:induction false} LexMoves<F(!new)>(scan: Scanner<F>, s: string, at: nat, on: nat)
    requires Steady(scan) && at <= on
    ensures Lex(scan, s, on) == MovedText(Lex(scan, s, at), on - at)
    decreases |s|
  {
    if s == "" {
    } else if Blank(s[0]) {
      LexMoves(scan, s[1..], at + 1, on + 1);
    } else {
      var p, k := scan(s, at), on - at;
      assert scan(s, on) == MovedPiece(p, k);
      if p.Some? && 0 < p.value.length <= |s| {
        LexMoves(scan, s[p.value.length..], at + p.value.length, on + p.value.length);
        LexMovesFrom(scan, s, at, on, p.value, k);
      }
    }
  }

  lemma LexMovesFrom<F>(scan: Scanner<F>, s: string, at: nat, on: nat, p: Piece<F>, k: nat)
    requires s != "" && !Blank(s[0]) && scan(s, at) == Some(p) && 0 < p.length <= |s|
    requires scan(s, on) == Some(Piece(Moved(p.token, Further(k)), p.length))
    requires Lex(scan, s[p.length..], on + p.length) == MovedText(Lex(scan, s[p.length..], at + p.length), k)
    ensures Lex(scan, s, on) == MovedText(Lex(scan, s, at), k)
  {
    MovedJoin(p.token, Lex(scan, s[p.length..], at + p.length), k);
    LexFirst(scan, s, at, p);
    LexFirst(scan, s, on, Piece(Moved(p.token, Further(k)), p.length));
  }

  lemma LexFirst<F>(scan: Scanner<F>, s: string, at: nat, p: Piece<F>)
    requires s != "" && !Blank(s[0]) && scan(s, at) == Some(p) && 0 < p.length <= |s|
    ensures Lex(scan, s, at) == Join(Some([p.token]), Lex(scan, s[p.length..], at + p.length))
  {
  }

  lemma MovedJoin<F>(t: Token<F>, rest: Option<seq<Token<F>>>, k: nat)
    ensures MovedText(Join(Some([t]), rest), k) == Join(Some([Moved(t, Further(k))]), MovedText(rest, k))
  {
    if rest.Some? {
      MovedConcat([t], rest.value, Further(k));
      MovedOne(t, Further(k));
    }
  }

  lemma MovedBack<F>(toks: seq<Token<F>>, k: nat)
    ensures MovedAll(MovedAll(toks, Further(k)), Nearer(k)) == toks
  {
  }

  // ---------------------------------------------------------------- a failure left in parentheses

  ghost predicate ScansParentheses<F(!new)>(scan: Scanner<F>) {
    && (forall t, at: nat :: scan("(" + t, at) == Some(Piece(LParen, 1)))
    && (forall t, at: nat :: scan(")" + t, at) == Some(Piece(RParen, 1)))
  }

  lemma ParenthesesAreScanned<F(!new)>(scan: Scanner<F>, rd: Reader<F>)
    requires ReadsBy(scan, rd)
    ensures ScansParentheses(scan)
  {
    forall t, at: nat
      ensures scan("(" + t, at) == Some(Piece(LParen, 1)) && scan(")" + t, at) == Some(Piece(RParen, 1))
    {
      assert scan("(" + t, at) == FirstToken(rd, "(" + t, at) && scan(")" + t, at) == FirstToken(rd, ")" + t, at);
    }
  }

  lemma LexAtParenthesis<F(!new)>(scan: Scanner<F>, s: string, c: char, t: string, at: nat)
    requires Sound(scan) && ScansParentheses(scan) && (c == '(' || c == ')')
    ensures Lex(scan, s + ([c] + t), at)
            == Join(Lex(scan, s, at), Join(Some([if c == '(' then LParen else RParen]), Lex(scan, t, at + |s| + 1)))
  {
    assert ([c] + t)[0] == c;
    LexSplits(scan, s, [c] + t, at);
    assert scan([c] + t, at + |s|) == Some(Piece(if c == '(' then LParen else RParen, 1)) by {
      assert if c == '(' then [c] + t == "(" + t else [c] + t == ")" + t;
    }
    FirstThenRest(scan, [c], t, at + |s|, Piece(if c == '(' then LParen else RParen, 1));
  }

  function Parenthesised(pre: string, e: string, post: string): string { pre + ("(" + (e + (")" + post))) }

  lemma ParenthesisedTokens<F(!new)>(scan: Scanner<F>, pre: string, e: string, post: string)
    returns (a: seq<Token<F>>, i: seq<Token<F>>, b: seq<Token<F>>)
    requires Sound(scan) && ScansParentheses(scan) && Steady(scan) && Lex(scan, Parenthesised(pre, e, post), 0).Some?
    ensures Lex(scan, e, 0) == Some(i)
    ensures Lex(scan, Parenthesised(pre, e, post), 0).value
            == a + [LParen] + MovedAll(i, Further(|pre| + 1)) + [RParen] + b
  {
    LexAtParenthesis(scan, pre, '(', e + (")" + post), 0);
    LexAtParenthesis(scan, e, ')', post, |pre| + 1);
    LexMoves(scan, e, 0, |pre| + 1);
    a, i, b := Lex(scan, pre, 0).value, Lex(scan, e, 0).value, Lex(scan, post, |pre| + 1 + |e| + 1).value;
    JoinFive(a, LParen, MovedAll(i, Further(|pre| + 1)), RParen, b);
  }

  lemma JoinFive<T>(a: seq<T>, l: T, i: seq<T>, r: T, b: seq<T>)
    ensures Join(Some(a), Join(Some([l]), Join(Some(i), Join(Some([r]), Some(b))))) == Some(a + [l] + i + [r] + b)
  {
    assert a + ([l] + (i + ([r] + b))) == a + [l] + i + [r] + b;
  }

  /** Numbers are read as finite ones and stay so under a sign. */
  ghost predicate ReadsFinite<F(!new)>(ar: Arith<F>, scan: Scanner<F>) {
    && (forall u, k: nat | scan(u, k).Some? && scan(u, k).value.token.Num? :: ar.finite(scan(u, k).value.token.value))
    && (forall x :: ar.finite(x) ==> ar.finite(ar.neg(x)))
  }

  lemma {:induction false} LexFinite<F(!new)>(ar: Arith<F>, scan: Scanner<F>, s: string, at: nat)
    requires ReadsFinite(ar, scan) && Lex(scan, s, at).Some?
    ensures CalcNesting.FiniteNumbers(ar, Lex(scan, s, at).value)
    decreases |s|
  {
    if s == "" {
    } else if Blank(s[0]) {
      LexFinite(ar, scan, s[1..], at + 1);
    } else {
      var p := scan(s, at).value;
      LexFinite(ar, scan, s[p.length..], at + p.length);
      LexFirst(scan, s, at, p);
    }
  }

  lemma MovedFinite<F(!new)>(ar: Arith<F>, toks: seq<Token<F>>, f: nat -> nat)
    requires CalcNesting.FiniteNumbers(ar, toks)
    ensures CalcNesting.FiniteNumbers(ar, MovedAll(toks, f))
  {
    forall t | t in MovedAll(toks, f) && t.Num?
      ensures ar.finite(t.value)
    {
      var i :| 0 <= i < |toks| && MovedAll(toks, f)[i] == t;
      assert toks[i] in toks;
    }
  }

  lemma FailureFailsTokens<F(!new)>(ar: Arith<F>, scan: Scanner<F>, pre: string, e: string, post: string, v: F)
    requires Sound(scan) && ScansParentheses(scan) && Steady(scan) && ReadsFinite(ar, scan)
    requires Lex(scan, Parenthesised(pre, e, post), 0).Some?
             && Evaluates(ar, Lex(scan, Parenthesised(pre, e, post), 0).value, v)
    ensures Lex(scan, e, 0).Some?
    ensures (exists w :: Evaluates(ar, Lex(scan, e, 0).value, w)) <==> CalcNesting.Balanced(Lex(scan, e, 0).value)
  {
    var a, i, b := ParenthesisedTokens(scan, pre, e, post);
    var k := |pre| + 1;
    var there := MovedAll(i, Further(k));
    LexFinite(ar, scan, e, 0);
    MovedFinite(ar, i, Further(k));
    CalcNesting.FailedInnerFailsOuter(ar, a, there, b, v);
    MovedNests(0, i, Further(k));
    MovedBack(i, k);
    if w :| Evaluates(ar, i, w) {
      MovedEvaluates(ar, i, Further(k), w);
    }
    if w :| Evaluates(ar, there, w) {
      MovedEvaluates(ar, there, Nearer(k), w);
    }
  }

  lemma AsciiParenthesised(pre: string, e: string, post: string)
    ensures Ascii(pre + ("(" + e + ")") + post) == Parenthesised(Ascii(pre), Ascii(e), Ascii(post))
  {
    assert pre + ("(" + e + ")") + post == pre + ("(" + (e + (")" + post)));
    AsciiKeeps(")", post);
    AsciiSplits(e, ")" + post);
    AsciiKeeps("(", e + (")" + post));
    AsciiSplits(pre, "(" + (e + (")" + post)));
  }

  /** What the scanner of set-ups is: proved of the one the code has in ScannerIsUsual. */
  ghost predicate Usual<F(!new)>(ar: Arith<F>, scan: Scanner<F>) {
    Sound(scan) && ScansParentheses(scan) && Steady(scan) && ReadsFinite(ar, scan)
  }

  /** Every number the reader gives is finite, as ParseFloat's are, and percent and sign keep it so. */
  ghost predicate FiniteReader<F(!new)>(ar: Arith<F>, rd: Reader<F>) {
    && (forall s :: rd.parse(s).Some? ==> ar.finite(rd.parse(s).value))
    && (forall x :: ar.finite(x) ==> ar.finite(rd.percent(x)) && ar.finite(ar.neg(x)))
  }

  lemma ScannerIsUsual<F(!new)>(ar: Arith<F>, scan: Scanner<F>, rd: Reader<F>)
    requires ReadsBy(scan, rd) && FiniteReader(ar, rd)
    ensures Usual(ar, scan)
  {
    ScannerIsSound(scan, rd);
    ParenthesesAreScanned(scan, rd);
    ScannerIsSteady(scan, rd);
    ScansFinite(ar, scan, rd);
  }

  lemma ScansFinite<F(!new)>(ar: Arith<F>, scan: Scanner<F>, rd: Reader<F>)
    requires ReadsBy(scan, rd) && FiniteReader(ar, rd)
    ensures ReadsFinite(ar, scan)
  {
    forall u, k: nat | scan(u, k).Some? && scan(u, k).value.token.Num?
      ensures ar.finite(scan(u, k).value.token.value)
    {
      assert scan(u, k) == FirstToken(rd, u, k);
      PieceFinite(ar, rd, u[..NumberLength(u)], k);
    }
  }

  lemma PieceFinite<F(!new)>(ar: Arith<F>, rd: Reader<F>, m: string, at: nat)
    requires FiniteReader(ar, rd)
    ensures NumberPiece(rd, m, at).Some? ==> ar.finite(NumberPiece(rd, m, at).value.token.value)
  {
  }

  lemma LeavesParentheses<F>(ru: Rules<F>, inner: Items)
    requires CalcOf(ru, inner).value.None?
    ensures Left(ru, inner) == "(" + CalcResolve.Expression(Inside(ru, inner)) + ")"
  {
  }

  lemma ValueNeedsTokens<F(!new)>(ru: Rules<F>, expr: string, toks: seq<Token<F>>, v: F)
    requires Lex(ru.scan, Ascii(expr), 0) == Some(toks) && Evaluates(ru.ar, toks, v)
    ensures ValueOf(ru, expr) == Some(v)
  {
    ValueIsTheTokens(ru, expr);
    var e: Expr<F> :| Denotes(ru.ar, e, toks, v);
  }

  lemma FailureFailsExpression<F(!new)>(ru: Rules<F>, pre: string, e: string, post: string)
    requires Usual(ru.ar, ru.scan) && ValueOf(ru, pre + ("(" + e + ")") + post).Some?
    ensures Lex(ru.scan, Ascii(e), 0).Some?
    ensures ValueOf(ru, e).Some? <==> CalcNesting.Balanced(Lex(ru.scan, Ascii(e), 0).value)
  {
    var whole := pre + ("(" + e + ")") + post;
    ValueIsTheTokens(ru, whole);
    AsciiParenthesised(pre, e, post);
    FailureFailsTokens(ru.ar, ru.scan, Ascii(pre), Ascii(e), Ascii(post), ValueOf(ru, whole).value);
    var i := Lex(ru.scan, Ascii(e), 0).value;
    if w :| Evaluates(ru.ar, i, w) {
      ValueNeedsTokens(ru, e, i, w);
    }
    ValueIsTheTokens(ru, e);
  }

  lemma FailureFailsOuter<F(!new)>(ru: Rules<F>, before: Items, inner: Items, after: Items)
    requires Usual(ru.ar, ru.scan) && CalcOf(ru, inner).value.None?
    requires var toks := Lex(ru.scan, Ascii(CalcResolve.Expression(Inside(ru, inner))), 0);
             toks.Some? ==> CalcNesting.Balanced(toks.value)
    ensures CalcOf(ru, Body(before, inner, after)).value.None?
  {
    var e := CalcResolve.Expression(Inside(ru, inner));
    LeavesParentheses(ru, inner);
    ExpressionOfBody(ru, before, inner, after);
    CalcIsOfExpression(ru, inner);
    CalcIsOfExpression(ru, Body(before, inner, after));
    if CalcOf(ru, Body(before, inner, after)).value.Some? {
      FailureFailsExpression(ru, Head(ru, before), e, Tail(ru, after));
      assert false;
    }
  }

  /** An inner set-up that fails makes the one around it fail, whatever else that holds, unless what
      fails it is parentheses that do not balance. */
  lemma FailedInnerFailsOuter<F(!new)>(ru: Rules<F>, rd: Reader<F>, before: Items, inner: Items, after: Items)
    requires ReadsBy(ru.scan, rd) && FiniteReader(ru.ar, rd) && CalcOf(ru, inner).value.None?
    requires var toks := Lex(ru.scan, Ascii(CalcResolve.Expression(Inside(ru, inner))), 0);
             toks.Some? ==> CalcNesting.Balanced(toks.value)
    ensures CalcOf(ru, Body(before, inner, after)).value.None?
  {
    ScannerIsUsual(ru.ar, ru.scan, rd);
    FailureFailsOuter(ru, before, inner, after);
  }
}
