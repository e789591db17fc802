/** What two numbers with an operator between them come to, as text: each operator by its spelling, with any
    numbers of the pattern and any blanks around it. */
module CalcTexts {
  import opened Wrappers
  import opened Text
  import opened Sequences
  import opened CalcGrammar
  import opened CalcLexer
  import opened CalcLexerFacts
  import opened CalcNumbers
  import opened CalcAnswer
  import CalcOperations

  predicate Blanks(p: string) { forall k | 0 <= k < |p| :: p[k] == ' ' || p[k] == '\t' || p[k] == '\n' }

  /** x, a sign and y, with blanks p and q around the sign. */
  function Infix(x: string, p: string, sign: string, q: string, y: string): string { x + (p + (sign + (q + y))) }

  /** x is all of one number, and reads as a. */
  ghost predicate Reads<F>(rd: Reader<F>, x: string, a: F) { IsNumber(x) && ReadNumber(rd, x) == Some(a) }

  // ---------------------------------------------------------------- the text as it is scanned

  lemma NumberStarts(x: string)
    requires IsNumber(x)
    ensures x != "" && NumberLength(x) == |x| && !Symbolic(x[0]) && !Blank(x[0])
  {
    NumberIsLongest(x, x);
    NotEmpty(x);
    NumberBegins(x);
    NoSymbol(x);
  }

  lemma NotEmpty(x: string)
    requires IsNumber(x)
    ensures x != ""
  {
    var c, w, f, p :| Spells(x, c, w, f, p);
    assert |x| >= |w + f|;
  }

  lemma NoSymbol(x: string)
    requires x != "" && (CurrencySign(x) > 0 || x[0] == '.' || Digit(x[0]))
    ensures !Symbolic(x[0]) && !Blank(x[0])
  {
  }

  lemma MarkIsPlain(c: string, t: string)
    requires IsMark(c) && (t == "" || t[0] as int < 128)
    ensures Ascii(c + t) == c + Ascii(t)
  {
    AsciiSplits(c, t);
    SignIsPlain(c);
  }

  lemma SignIsPlain(c: string)
    requires IsMark(c)
    ensures Ascii(c) == c
  {
    if c[|c| - 1] as int < 128 && |c| > 1 {
      var m := c[..|c| - 1];
      assert c == m + [c[|c| - 1]];
      AsciiSplits(m, [c[|c| - 1]]);
      AsciiIs([c[|c| - 1]]);
      OnlySign(m);
    } else {
      OnlySign(c);
    }
  }

  lemma OnlySign(c: string)
    requires IsSign(c)
    ensures Ascii(c) == c
  {
    var d, e := c[1..], if |c| > 1 then c[2..] else "";
    assert Ascii("") == "";
    assert |c| == 3 ==> e == [c[2]] && e[1..] == "" && Ascii(e) == e;
    assert |c| > 1 ==> d[1..] == e && Ascii(d) == [c[1]] + Ascii(e);
  }

  lemma FiguresAreAscii(w: string, f: string, p: string)
    requires IsParts("", w, f, p)
    ensures AsciiOnly(w + (f + p))
  {
    if w != "" {
      WholeIsAscii(w);
    }
  }

  lemma {:induction false} GroupsAreAscii(b: string)
    requires IsGroups(b)
    ensures AsciiOnly(b)
    decreases |b|
  {
    if b != "" {
      GroupsAreAscii(b[4..]);
      assert b == [b[0]] + b[1..4] + b[4..];
    }
  }

  lemma WholeIsAscii(w: string)
    requires IsWhole(w)
    ensures AsciiOnly(w)
  {
    if !Digits(w) {
      var a, b :| w == a + b && IsGrouped(a, b);
      GroupsAreAscii(b);
    }
  }

  /** A number is scanned as it is. */
  lemma NumberIsPlain(x: string, t: string)
    requires IsNumber(x)
    ensures Ascii(x + t) == x + Ascii(t)
  {
    var c, w, f, p :| Spells(x, c, w, f, p);
    FiguresAreAscii(w, f, p);
    MarkedIsPlain(c, w + (f + p), t);
  }

  lemma MarkedIsPlain(c: string, n: string, t: string)
    requires (c == "" || IsMark(c)) && n != "" && AsciiOnly(n)
    ensures Ascii(c + n + t) == c + n + Ascii(t)
  {
    AsciiKeeps(n, t);
    if c == "" {
      assert c + n == n;
    } else {
      ConcatAssociates(c, n, t);
      ConcatAssociates(c, n, Ascii(t));
      assert (n + t)[0] == n[0];
      MarkIsPlain(c, n + t);
    }
  }

  // ---------------------------------------------------------------- the tokens

  /** Nothing is trimmed off a number. */
  lemma NumberIsTrim(x: string)
    requires IsNumber(x)
    ensures TrimSpace(x) == x
  {
    NumberStarts(x);
    NumberBegins(x);
    NumberEnds(x);
    NoSpaceAround(x);
  }

  lemma NoSpaceAround(x: string)
    requires x != "" && (CurrencySign(x) > 0 || x[0] == '.' || Digit(x[0])) && Solid(x[|x| - 1])
    ensures TrimSpace(x) == x
  {
    assert FirstSpace(x) == 0 && LastSpace(x) == 0;
    assert x[0..] == x;
  }

  lemma NumberEnds(x: string)
    requires IsNumber(x)
    ensures x != "" && Solid(x[|x| - 1])
  {
    var c, w, f, p :| Spells(x, c, w, f, p);
    if p != "" {
    } else if f != "" {
      assert x[|x| - 1] == f[1..][|f| - 2];
    } else {
      WholeEnds(w);
      assert x[|x| - 1] == w[|w| - 1];
    }
  }

  lemma WholeEnds(w: string)
    requires IsWhole(w)
    ensures w != "" && Digit(w[|w| - 1])
  {
    if !Digits(w) {
      var a, b :| w == a + b && IsGrouped(a, b);
      GroupsEndInDigit(b);
    }
  }

  lemma NumberIsScanned<F>(scan: Scanner<F>, rd: Reader<F>, x: string, a: F, rest: string, at: nat)
    requires ReadsBy(scan, rd) && Reads(rd, x, a) && EndsNumber(rest)
    ensures x != "" && !Blank(x[0]) && scan(x + rest, at) == Some(Piece(Num(a, x, at), |x|))
  {
    NumberStarts(x);
    NumberIsWhole(x, rest);
    WholeNumberFirst(rd, x, rest, at);
    NumberIsTrim(x);
    NumberPieceIs(rd, x, a, at);
    ScannedAs(scan, rd, x + rest, at);
  }

  lemma NumberIsWhole(x: string, rest: string)
    requires IsNumber(x) && EndsNumber(rest)
    ensures NumberLength(x + rest) == |x|
  {
    NumberStarts(x);
    CurrencyStays(x, rest);
    NumberSplits(x, rest);
  }

  lemma NumberPieceIs<F>(rd: Reader<F>, x: string, a: F, at: nat)
    requires x != "" && TrimSpace(x) == x && ReadNumber(rd, x) == Some(a)
    ensures NumberPiece(rd, x, at) == Some(Piece(Num(a, x, at), |x|))
  {
  }

  lemma NumberThen<F>(scan: Scanner<F>, rd: Reader<F>, x: string, a: F, rest: string, at: nat, next: nat,
                      toks: seq<Token<F>>)
    requires ReadsBy(scan, rd) && Reads(rd, x, a) && EndsNumber(rest)
    requires next == at + |x| && Lex(scan, rest, next) == Some(toks)
    ensures Lex(scan, x + rest, at) == Some([Num(a, x, at)] + toks)
  {
    NumberIsScanned(scan, rd, x, a, rest, at);
    TokenThen(scan, x, rest, at, next, Num(a, x, at), toks);
  }

  lemma TokenThen<F>(scan: Scanner<F>, q: string, rest: string, at: nat, next: nat, t: Token<F>, toks: seq<Token<F>>)
    requires q != "" && !Blank(q[0]) && scan(q + rest, at) == Some(Piece(t, |q|))
    requires next == at + |q| && Lex(scan, rest, next) == Some(toks)
    ensures Lex(scan, q + rest, at) == Some([t] + toks)
  {
    FirstThenRest(scan, q, rest, at, Piece(t, |q|));
  }

  lemma {:induction false} BlanksThen<F>(scan: Scanner<F>, p: string, rest: string, at: nat, next: nat,
                                         toks: seq<Token<F>>)
    requires Blanks(p) && next == at + |p| && Lex(scan, rest, next) == Some(toks)
    ensures Lex(scan, p + rest, at) == Some(toks)
    decreases |p|
  {
    if p == "" {
      assert p + rest == rest;
    } else {
      assert (p + rest)[0] == p[0];
      DropSplits(p, rest, 1);
      BlanksThen(scan, p[1..], rest, at + 1, next, toks);
    }
  }

  /** How an operator is typed. */
  predicate Typed(op: Operator, sign: string) {
    || (op == Plus && sign == "+")
    || (op == Minus && sign == "-")
    || (op == Times && sign == "*")
    || (op == Over && sign == "/")
    || (op == Power && (sign == "**" || sign == "^"))
  }

  lemma SignIsScanned<F>(scan: Scanner<F>, rd: Reader<F>, op: Operator, sign: string, rest: string, at: nat)
    requires ReadsBy(scan, rd) && Typed(op, sign) && rest != "" && rest[0] != '*'
    ensures !Blank(sign[0]) && scan(sign + rest, at) == Some(Piece(Op(op), |sign|))
  {
    var s := sign + rest;
    assert s[0] == sign[0] && s[1] == if |sign| > 1 then sign[1] else rest[0];
    ScannedAs(scan, rd, s, at);
    assert FirstToken(rd, s, at) == Some(Symbol(s));
  }

  lemma SignThen<F>(scan: Scanner<F>, rd: Reader<F>, op: Operator, sign: string, rest: string, at: nat, next: nat,
                    toks: seq<Token<F>>)
    requires ReadsBy(scan, rd) && Typed(op, sign) && rest != "" && rest[0] != '*'
    requires next == at + |sign| && Lex(scan, rest, next) == Some(toks)
    ensures Lex(scan, sign + rest, at) == Some([Op(op)] + toks)
  {
    SignIsScanned(scan, rd, op, sign, rest, at);
    TokenThen(scan, sign, rest, at, next, Op(op), toks);
  }

  /** Parentheses are read as themselves, whatever follows. */
  lemma ParensAreRead<F>(scan: Scanner<F>, rd: Reader<F>, rest: string, at: nat, next: nat, toks: seq<Token<F>>)
    requires ReadsBy(scan, rd) && next == at + 1 && Lex(scan, rest, next) == Some(toks)
    ensures Lex(scan, "(" + rest, at) == Some([LParen] + toks)
    ensures Lex(scan, ")" + rest, at) == Some([RParen] + toks)
  {
    ParenIsScanned(scan, rd, "(", LParen, rest, at);
    ParenIsScanned(scan, rd, ")", RParen, rest, at);
    TokenThen(scan, "(", rest, at, next, LParen, toks);
    TokenThen(scan, ")", rest, at, next, RParen, toks);
  }

  lemma ParenIsScanned<F>(scan: Scanner<F>, rd: Reader<F>, paren: string, t: Token<F>, rest: string, at: nat)
    requires ReadsBy(scan, rd) && ((paren == "(" && t == LParen) || (paren == ")" && t == RParen))
    ensures !Blank(paren[0]) && scan(paren + rest, at) == Some(Piece(t, |paren|))
  {
    assert (paren + rest)[0] == paren[0];
    ScannedAs(scan, rd, paren + rest, at);
    assert FirstToken(rd, paren + rest, at) == Some(Symbol(paren + rest));
  }

  /** The tokens of an infix text; j, k and at are where the sign, the blanks after it and the second number
      begin. */
  lemma InfixIsRead<F>(scan: Scanner<F>, rd: Reader<F>, x: string, a: F, p: string, op: Operator, sign: string,
                       q: string, y: string, b: F, j: nat, k: nat, at: nat)
    requires ReadsBy(scan, rd) && Reads(rd, x, a) && Reads(rd, y, b) && Blanks(p) && Blanks(q) && Typed(op, sign)
    requires j == |x| + |p| && k == j + |sign| && at == k + |q|
    ensures Lex(scan, Infix(x, p, sign, q, y), 0) == Some([Num(a, x, 0), Op(op), Num(b, y, at)])
  {
    var second, rest := [Num(b, y, at)], sign + (q + y);
    LastIsRead(scan, rd, y, b, at, at + |y|);
    BlanksThen(scan, q, y, k, at, second);
    NoStar(q, y);
    SignThen(scan, rd, op, sign, q + y, j, k, second);
    BlanksThen(scan, p, rest, |x|, j, [Op(op)] + second);
    PlainEnds(p, op, sign, q + y);
    NumberThen(scan, rd, x, a, p + rest, 0, |x|, [Op(op)] + second);
    assert [Num(a, x, 0)] + ([Op(op)] + second) == [Num(a, x, 0), Op(op), Num(b, y, at)];
  }

  lemma PlainEnds(p: string, op: Operator, sign: string, rest: string)
    requires Blanks(p) && Typed(op, sign)
    ensures EndsNumber(p + (sign + rest))
  {
    assert (p + (sign + rest))[0] == if p != "" then p[0] else sign[0];
  }

  lemma NoStar(q: string, y: string)
    requires Blanks(q) && IsNumber(y)
    ensures q + y != "" && (q + y)[0] != '*'
  {
    NumberStarts(y);
    assert (q + y)[0] == if q != "" then q[0] else y[0];
  }

  lemma LastIsRead<F>(scan: Scanner<F>, rd: Reader<F>, y: string, b: F, at: nat, end: nat)
    requires ReadsBy(scan, rd) && Reads(rd, y, b) && end == at + |y|
    ensures Lex(scan, y, at) == Some([Num(b, y, at)])
  {
    NumberThen(scan, rd, y, b, "", at, end, []);
    assert y + "" == y && [Num(b, y, at)] + [] == [Num(b, y, at)];
  }

  // ---------------------------------------------------------------- typeset operators

  /** An operator as it is typeset: a multiplication or division sign, a minus sign or an en dash. */
  predicate Typeset(op: Operator, sign: string) {
    || (op == Times && sign == "\U{C3}\U{97}")
    || (op == Over && sign == "\U{C3}\U{B7}")
    || (op == Minus && (sign == "\U{E2}\U{88}\U{92}" || sign == "\U{E2}\U{80}\U{93}"))
  }

  /** How it is typed, and what makes that as long. */
  function TypedAs(op: Operator): string { if op == Times then "*" else if op == Over then "/" else "-" }

  function Pad(op: Operator): string { if op == Minus then "  " else " " }

  lemma SignIsPlainText(op: Operator, sign: string, t: string)
    requires Typeset(op, sign)
    ensures Ascii(sign + t) == TypedAs(op) + (Pad(op) + Ascii(t))
  {
    var s := sign + t;
    assert s[..|sign|] == sign && s[|sign|..] == t;
    assert Two(s, '\U{C3}', '\U{97}') || Two(s, '\U{C3}', '\U{B7}') || Three(s, '\U{E2}', '\U{88}', '\U{92}')
        || Three(s, '\U{E2}', '\U{80}', '\U{93}');
    ConcatAssociates(TypedAs(op), Pad(op), Ascii(t));
  }

  lemma BlanksArePlain(p: string, t: string)
    requires Blanks(p)
    ensures Ascii(p + t) == p + Ascii(t)
  {
    AsciiKeeps(p, t);
  }

  lemma EndIsPlain(q: string, y: string)
    requires Blanks(q) && IsNumber(y)
    ensures Ascii(q + y) == q + y
  {
    BlanksArePlain(q, y);
    NumberIsPlain(y, "");
    assert y + "" == y && Ascii("") == "";
  }

  lemma TypedIsPlain(x: string, p: string, op: Operator, sign: string, q: string, y: string)
    requires IsNumber(x) && IsNumber(y) && Blanks(p) && Blanks(q) && Typed(op, sign)
    ensures Ascii(Infix(x, p, sign, q, y)) == Infix(x, p, sign, q, y)
  {
    NumberIsPlain(x, p + (sign + (q + y)));
    BlanksArePlain(p, sign + (q + y));
    AsciiKeeps(sign, q + y);
    EndIsPlain(q, y);
  }

  lemma TypesetIsPlain(x: string, p: string, op: Operator, sign: string, q: string, y: string)
    requires IsNumber(x) && IsNumber(y) && Blanks(p) && Blanks(q) && Typeset(op, sign)
    ensures Ascii(Infix(x, p, sign, q, y)) == Infix(x, p, TypedAs(op), Pad(op) + q, y)
  {
    NumberIsPlain(x, p + (sign + (q + y)));
    BlanksArePlain(p, sign + (q + y));
    SignIsPlainText(op, sign, q + y);
    EndIsPlain(q, y);
    ConcatAssociates(Pad(op), q, y);
  }

  /** An operator as it may stand in a text. */
  predicate Operates(op: Operator, sign: string) { Typed(op, sign) || Typeset(op, sign) }

  lemma InfixTokens<F>(scan: Scanner<F>, rd: Reader<F>, x: string, a: F, p: string, op: Operator, sign: string,
                       q: string, y: string, b: F)
    requires ReadsBy(scan, rd) && Reads(rd, x, a) && Reads(rd, y, b) && Blanks(p) && Blanks(q) && Operates(op, sign)
    ensures Tokens(scan, Infix(x, p, sign, q, y))
            == Some([Num(a, x, 0), Op(op), Num(b, y, |x| + |p| + |sign| + |q|)])
  {
    if Typed(op, sign) {
      TypedTokens(scan, rd, x, a, p, op, sign, q, y, b, |x| + |p|, |x| + |p| + |sign|, |x| + |p| + |sign| + |q|);
    } else {
      TypesetTokens(scan, rd, x, a, p, op, sign, q, y, b, |x| + |p|, |x| + |p| + 1, |x| + |p| + |sign| + |q|);
    }
  }

  lemma TypedTokens<F>(scan: Scanner<F>, rd: Reader<F>, x: string, a: F, p: string, op: Operator, sign: string,
                       q: string, y: string, b: F, j: nat, k: nat, at: nat)
    requires ReadsBy(scan, rd) && Reads(rd, x, a) && Reads(rd, y, b) && Blanks(p) && Blanks(q) && Typed(op, sign)
    requires j == |x| + |p| && k == j + |sign| && at == k + |q|
    ensures Tokens(scan, Infix(x, p, sign, q, y)) == Some([Num(a, x, 0), Op(op), Num(b, y, at)])
  {
    TypedIsPlain(x, p, op, sign, q, y);
    InfixIsRead(scan, rd, x, a, p, op, sign, q, y, b, j, k, at);
  }

  lemma TypesetTokens<F>(scan: Scanner<F>, rd: Reader<F>, x: string, a: F, p: string, op: Operator, sign: string,
                         q: string, y: string, b: F, j: nat, k: nat, at: nat)
    requires ReadsBy(scan, rd) && Reads(rd, x, a) && Reads(rd, y, b) && Blanks(p) && Blanks(q) && Typeset(op, sign)
    requires j == |x| + |p| && k == j + 1 && at == j + |sign| + |q|
    ensures Tokens(scan, Infix(x, p, sign, q, y)) == Some([Num(a, x, 0), Op(op), Num(b, y, at)])
  {
    TypesetIsPlain(x, p, op, sign, q, y);
    InfixIsRead(scan, rd, x, a, p, op, TypedAs(op), Pad(op) + q, y, b, j, k, at);
  }

  // ---------------------------------------------------------------- what it comes to

  /** v, if it is finite. */
  function Settled<F>(ar: Arith<F>, v: F): Option<F> { if ar.finite(v) then Some(v) else None }

  lemma ValueByTokens<F(!new)>(ru: Rules<F>, expr: string, toks: seq<Token<F>>, v: Option<F>)
    requires Tokens(ru.scan, expr) == Some(toks) && forall w :: Evaluates(ru.ar, toks, w) <==> v == Some(w)
    ensures ValueOf(ru, expr) == v
  {
    ValueIsTheTokens(ru, expr);
    if v.Some? {
      assert Evaluates(ru.ar, toks, v.value);
    }
    if ValueOf(ru, expr).Some? {
      assert Evaluates(ru.ar, toks, ValueOf(ru, expr).value);
    }
  }

  /** A sum of two numbers. */
  lemma SumText<F(!new)>(ru: Rules<F>, rd: Reader<F>, x: string, a: F, p: string, sign: string,
                         q: string, y: string, b: F)
    requires ReadsBy(ru.scan, rd) && Reads(rd, x, a) && Reads(rd, y, b) && Blanks(p) && Blanks(q)
    requires sign == "+"
    ensures ValueOf(ru, Infix(x, p, sign, q, y))
            == Settled(ru.ar, ru.ar.add(a, b))
  {
    var l, r := Num(a, x, 0), Num(b, y, |x| + |p| + |sign| + |q|);
    InfixTokens(ru.scan, rd, x, a, p, Plus, sign, q, y, b);
    forall v
      ensures Evaluates(ru.ar, [l, Op(Plus), r], v) <==> ru.ar.finite(v) && v == ru.ar.add(a, b)
    {
      CalcOperations.Sums(ru.ar, [l], [r], a, b, v);
      assert [l] + [Op(Plus)] + [r] == [l, Op(Plus), r];
    }
    ValueByTokens(ru, Infix(x, p, sign, q, y), [l, Op(Plus), r],
                  Settled(ru.ar, ru.ar.add(a, b)));
  }

  /** A difference, the sign typed or typeset as a minus sign or an en dash. */
  lemma DifferenceText<F(!new)>(ru: Rules<F>, rd: Reader<F>, x: string, a: F, p: string, sign: string,
                                q: string, y: string, b: F)
    requires ReadsBy(ru.scan, rd) && Reads(rd, x, a) && Reads(rd, y, b) && Blanks(p) && Blanks(q)
    requires sign == "-" || sign == "\U{E2}\U{88}\U{92}" || sign == "\U{E2}\U{80}\U{93}"
    ensures ValueOf(ru, Infix(x, p, sign, q, y))
            == Settled(ru.ar, ru.ar.sub(a, b))
  {
    var l, r := Num(a, x, 0), Num(b, y, |x| + |p| + |sign| + |q|);
    InfixTokens(ru.scan, rd, x, a, p, Minus, sign, q, y, b);
    forall v
      ensures Evaluates(ru.ar, [l, Op(Minus), r], v) <==> ru.ar.finite(v) && v == ru.ar.sub(a, b)
    {
      CalcOperations.Differences(ru.ar, [l], [r], a, b, v);
      assert [l] + [Op(Minus)] + [r] == [l, Op(Minus), r];
    }
    ValueByTokens(ru, Infix(x, p, sign, q, y), [l, Op(Minus), r],
                  Settled(ru.ar, ru.ar.sub(a, b)));
  }

  /** A product, by a star or a multiplication sign. */
  lemma ProductText<F(!new)>(ru: Rules<F>, rd: Reader<F>, x: string, a: F, p: string, sign: string,
                             q: string, y: string, b: F)
    requires ReadsBy(ru.scan, rd) && Reads(rd, x, a) && Reads(rd, y, b) && Blanks(p) && Blanks(q)
    requires sign == "*" || sign == "\U{C3}\U{97}"
    ensures ValueOf(ru, Infix(x, p, sign, q, y))
            == Settled(ru.ar, ru.ar.mul(a, b))
  {
    var l, r := Num(a, x, 0), Num(b, y, |x| + |p| + |sign| + |q|);
    InfixTokens(ru.scan, rd, x, a, p, Times, sign, q, y, b);
    forall v
      ensures Evaluates(ru.ar, [l, Op(Times), r], v) <==> ru.ar.finite(v) && v == ru.ar.mul(a, b)
    {
      CalcOperations.Products(ru.ar, [l], [r], a, b, v);
      assert [l] + [Op(Times)] + [r] == [l, Op(Times), r];
    }
    ValueByTokens(ru, Infix(x, p, sign, q, y), [l, Op(Times), r],
                  Settled(ru.ar, ru.ar.mul(a, b)));
  }

  /** A quotient, by a slash or a division sign. */
  lemma QuotientText<F(!new)>(ru: Rules<F>, rd: Reader<F>, x: string, a: F, p: string, sign: string,
                              q: string, y: string, b: F)
    requires ReadsBy(ru.scan, rd) && Reads(rd, x, a) && Reads(rd, y, b) && Blanks(p) && Blanks(q)
    requires sign == "/" || sign == "\U{C3}\U{B7}"
    ensures ValueOf(ru, Infix(x, p, sign, q, y))
            == if ru.ar.zero(b) then None else Settled(ru.ar, ru.ar.div(a, b))
  {
    var l, r := Num(a, x, 0), Num(b, y, |x| + |p| + |sign| + |q|);
    InfixTokens(ru.scan, rd, x, a, p, Over, sign, q, y, b);
    forall v
      ensures Evaluates(ru.ar, [l, Op(Over), r], v) <==> !ru.ar.zero(b) && ru.ar.finite(v) && v == ru.ar.div(a, b)
    {
      CalcOperations.Quotients(ru.ar, [l], [r], a, b, v);
      assert [l] + [Op(Over)] + [r] == [l, Op(Over), r];
    }
    ValueByTokens(ru, Infix(x, p, sign, q, y), [l, Op(Over), r],
                  if ru.ar.zero(b) then None else Settled(ru.ar, ru.ar.div(a, b)));
  }

  /** What a power asks of its base and exponent. */
  predicate MayRaise<F>(ar: Arith<F>, a: F, b: F) {
    && ar.finite(a) && ar.finite(b) && !ar.beyond(b, 100)
    && (ar.negative(a) ==> ar.whole(b)) && !(ar.zero(a) && ar.negative(b))
  }

  /** A power, by two stars or a caret. */
  lemma PowerText<F(!new)>(ru: Rules<F>, rd: Reader<F>, x: string, a: F, p: string, sign: string,
                           q: string, y: string, b: F)
    requires ReadsBy(ru.scan, rd) && Reads(rd, x, a) && Reads(rd, y, b) && Blanks(p) && Blanks(q)
    requires sign == "**" || sign == "^"
    ensures ValueOf(ru, Infix(x, p, sign, q, y))
            == if MayRaise(ru.ar, a, b) then Settled(ru.ar, ru.ar.pow(a, b)) else None
  {
    var l, r := Num(a, x, 0), Num(b, y, |x| + |p| + |sign| + |q|);
    InfixTokens(ru.scan, rd, x, a, p, Power, sign, q, y, b);
    forall v
      ensures Evaluates(ru.ar, [l, Op(Power), r], v)
              <==> MayRaise(ru.ar, a, b) && ru.ar.finite(v) && v == ru.ar.pow(a, b)
    {
      CalcOperations.Powers(ru.ar, [l], [r], a, b, v);
      assert [l] + [Op(Power)] + [r] == [l, Op(Power), r];
    }
    ValueByTokens(ru, Infix(x, p, sign, q, y), [l, Op(Power), r],
                  if MayRaise(ru.ar, a, b) then Settled(ru.ar, ru.ar.pow(a, b)) else None);
  }
}
