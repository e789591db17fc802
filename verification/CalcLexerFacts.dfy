/** Where an expression's text may be put together from parts without changing how the parts are read:
    at a parenthesis or a sign anywhere, and at a number written where one may stand. */
module CalcLexerFacts {
  import opened Wrappers
  import opened Text
  import opened Sequences
  import opened CalcGrammar
  import opened CalcLexer

  // ---------------------------------------------------------------- plain operators

  predicate AsciiOnly(s: string) { forall k | 0 <= k < |s| :: s[k] as int < 128 }

  /** ASCII text is scanned as it is. */
  lemma {:induction false} AsciiKeeps(s: string, t: string)
    requires AsciiOnly(s)
    ensures Ascii(s + t) == s + Ascii(t)
    decreases |s|
  {
    if s == "" {
      assert s + t == t;
    } else {
      PlainByte(s + t);
      DropSplits(s, t, 1);
      AsciiKeeps(s[1..], t);
      ConcatAssociates([s[0]], s[1..], Ascii(t));
      assert [s[0]] + s[1..] == s && (s + t)[0] == s[0];
    }
  }

  lemma AsciiIs(s: string)
    requires AsciiOnly(s)
    ensures Ascii(s) == s
  {
    AsciiKeeps(s, "");
    assert s + "" == s && Ascii("") == "";
  }

  lemma PlainByte(s: string)
    requires s != "" && s[0] as int < 128
    ensures Plainly(s) == [s[0]]
  {
  }

  /** An operator begun in s cannot go on in ASCII text. */
  lemma PlainlySplits(s: string, t: string)
    requires s != "" && (t == "" || t[0] as int < 128)
    ensures Plainly(s + t) == Plainly(s)
  {
    assert (s + t)[0] == s[0];
    assert |s| > 1 ==> (s + t)[1] == s[1];
    assert |s| > 2 ==> (s + t)[2] == s[2];
    assert |s| == 1 && t != "" ==> (s + t)[1] == t[0];
    assert |s| == 2 && t != "" ==> (s + t)[2] == t[0];
  }

  lemma {:induction false} AsciiSplits(s: string, t: string)
    requires t == "" || t[0] as int < 128
    ensures Ascii(s + t) == Ascii(s) + Ascii(t)
    decreases |s|
  {
    if s == "" {
      assert s + t == t;
    } else {
      var o := Plainly(s);
      PlainlySplits(s, t);
      DropSplits(s, t, |o|);
      AsciiSplits(s[|o|..], t);
      ConcatAssociates(o, Ascii(s[|o|..]), Ascii(t));
    }
  }

  // ---------------------------------------------------------------- numbers

  /** A byte that may go on a number just read. */
  predicate GoesOn(c: char) { Digit(c) || c == ',' || c == '.' || c == '%' }

  predicate EndsNumber(t: string) { t == "" || !GoesOn(t[0]) }

  /** No figures go on here; a percent sign still may. */
  predicate EndsFigures(t: string) { t == "" || t[0] == '%' || !GoesOn(t[0]) }

  lemma {:induction false} LeadingSplits(s: string, t: string)
    requires t == "" || !Digit(t[0])
    ensures Leading(s + t, Digit) == Leading(s, Digit)
    decreases |s|
  {
    if s == "" {
      assert s + t == t;
    } else {
      DropSplits(s, t, 1);
      LeadingSplits(s[1..], t);
      assert (s + t)[0] == s[0];
    }
  }

  lemma {:induction false} GroupsSplit(s: string, t: string)
    requires EndsFigures(t)
    ensures Groups(s + t) == Groups(s)
    decreases |s|
  {
    if s == "" {
      assert s + t == t;
    } else {
      assert (s + t)[0] == s[0];
      DropSplits(s, t, 1);
      LeadingSplits(s[1..], t);
      if Groups(s) > 0 {
        DropSplits(s, t, 4);
        GroupsSplit(s[4..], t);
      }
    }
  }

  lemma WholeSplits(s: string, t: string)
    requires EndsFigures(t)
    ensures Whole(s + t) == Whole(s)
  {
    LeadingSplits(s, t);
    var d := Leading(s, Digit);
    DropSplits(s, t, d);
    GroupsSplit(s[d..], t);
  }

  lemma FractionSplits(s: string, t: string)
    requires EndsFigures(t)
    ensures Fraction(s + t) == Fraction(s)
  {
    if s == "" {
      assert s + t == t;
    } else {
      assert (s + t)[0] == s[0];
      DropSplits(s, t, 1);
      LeadingSplits(s[1..], t);
    }
  }

  lemma PercentSplits(s: string, t: string)
    requires EndsNumber(t)
    ensures Percent(s + t) == Percent(s)
  {
    if s == "" {
      assert s + t == t;
    } else {
      assert (s + t)[0] == s[0];
    }
  }

  /** What comes after a number does not change it unless it goes on the number. */
  lemma NumberSplits(s: string, t: string)
    requires EndsNumber(t) && Currency(s + t) == Currency(s)
    ensures NumberLength(s + t) == NumberLength(s)
  {
    DropSplits(s, t, Currency(s));
    FiguresSplit(s[Currency(s)..], t);
  }

  lemma FiguresSplit(s: string, t: string)
    requires EndsNumber(t)
    ensures Figures(s + t) == Figures(s)
  {
    var w := Whole(s);
    var f := Fraction(s[w..]);
    WholeSplits(s, t);
    DropSplits(s, t, w);
    FractionSplits(s[w..], t);
    DropSplits(s[w..], t, f);
    PercentSplits(s[w..][f..], t);
  }

  lemma CurrencyStays(s: string, t: string)
    requires NumberLength(s) > 0
    ensures Currency(s + t) == Currency(s) < |s|
  {
    NumberBegins(s);
    CurrencyGrows(s, t);
  }

  lemma CurrencyGrows(s: string, t: string)
    requires Currency(s) < |s| && (CurrencySign(s) > 0 || s[0] == '.' || Digit(s[0]))
    ensures Currency(s + t) == Currency(s)
  {
    assert forall k | 0 <= k < |s| :: (s + t)[k] == s[k];
  }

  lemma NumberBegins(s: string)
    requires NumberLength(s) > 0
    ensures Currency(s) < NumberLength(s) && (CurrencySign(s) > 0 || s[0] == '.' || Digit(s[0]))
  {
  }

  lemma CurrencyTake(s: string, n: nat)
    requires Currency(s) < n <= |s| && (CurrencySign(s) > 0 || s[0] == '.' || Digit(s[0]))
    ensures Currency(s[..n]) == Currency(s)
  {
    assert forall k | 0 <= k < n :: s[..n][k] == s[k];
  }

  /** The number at the start of s is that of any other text that has the same bytes there and then one
      that does not go on it. */
  lemma NumberStays(s: string, t: string)
    requires 0 < NumberLength(s) < |s| && !GoesOn(s[NumberLength(s)])
    ensures NumberLength(s + t) == NumberLength(s)
  {
    var n := NumberLength(s);
    var x, r := s[..n], s[n..];
    assert s == x + r;
    NumberBegins(s);
    CurrencyTake(s, n);
    NumberSplits(x, r);
    CurrencyStays(x, r + t);
    NumberSplits(x, r + t);
    ConcatAssociates(x, r, t);
  }

  // ---------------------------------------------------------------- one token

  /** A parenthesis or a sign: a token by itself, whatever it follows. */
  predicate Separator(c: char) { c == '(' || c == ')' || c == '-' || c == '+' }

  lemma ScannedAs<F>(scan: Scanner<F>, rd: Reader<F>, s: string, at: nat)
    requires ReadsBy(scan, rd)
    ensures scan(s, at) == FirstToken(rd, s, at)
  {
  }

  lemma CurrencyBefore(s: string, t: string)
    requires s != "" && t != "" && Separator(t[0])
    ensures Currency(s + t) == Currency(s)
  {
    assert forall k | 0 <= k < |s| :: (s + t)[k] == s[k];
    assert (s + t)[|s|] == t[0];
  }

  lemma SameSymbol<F>(s: string, t: string)
    requires s != "" && Symbolic(s[0]) && t != "" && t[0] != '*'
    ensures (s + t)[0] == s[0] && Symbol<F>(s + t) == Symbol<F>(s)
  {
    assert (s + t)[1] == if |s| > 1 then s[1] else t[0];
  }

  lemma SameNumber<F>(rd: Reader<F>, s: string, t: string, at: nat)
    requires s != "" && !Symbolic(s[0]) && NumberLength(s + t) == NumberLength(s)
    ensures FirstToken(rd, s + t, at) == FirstToken(rd, s, at)
  {
    var n := NumberLength(s);
    TakeSame(s, t, n);
    FirstNumber(rd, s, n, s[..n], at);
    FirstNumber(rd, s + t, n, s[..n], at);
  }

  lemma TakeSame(s: string, t: string, n: nat)
    requires 0 < |s| && n <= |s|
    ensures (s + t)[0] == s[0] && (s + t)[..n] == s[..n]
  {
  }

  lemma FirstNumber<F>(rd: Reader<F>, s: string, n: nat, m: string, at: nat)
    requires s != "" && !Symbolic(s[0]) && n == NumberLength(s) && s[..n] == m
    ensures FirstToken(rd, s, at) == NumberPiece(rd, m, at)
  {
  }

  /** The next token is the same before t. */
  ghost predicate Splits<F(!new)>(scan: Scanner<F>, t: string) {
    forall u, k: nat | u != "" :: scan(u + t, k) == scan(u, k)
  }

  lemma SplitsAtSeparator<F(!new)>(scan: Scanner<F>, rd: Reader<F>, t: string)
    requires ReadsBy(scan, rd) && t != "" && Separator(t[0])
    ensures Splits(scan, t)
  {
    forall u, k: nat | u != ""
      ensures scan(u + t, k) == scan(u, k)
    {
      assert scan(u, k) == FirstToken(rd, u, k) && scan(u + t, k) == FirstToken(rd, u + t, k);
      if Symbolic(u[0]) {
        SameSymbol<F>(u, t);
      } else {
        CurrencyBefore(u, t);
        NumberSplits(u, t);
        SameNumber(rd, u, t, k);
      }
    }
  }

  /** The next token is the same before t, unless it is a number that t may go on. */
  ghost predicate SplitsBetween<F(!new)>(scan: Scanner<F>, t: string) {
    forall u, k: nat | Ended(scan, u, k) :: scan(u + t, k) == scan(u, k)
  }

  /** The next token is not a number, or something follows that does not go on it. */
  predicate Ended<F>(scan: Scanner<F>, u: string, k: nat) {
    && u != "" && scan(u, k).Some?
    && var p := scan(u, k).value; p.token.Num? ==> p.length < |u| && !GoesOn(u[p.length])
  }

  /** A byte that figures or a currency sign before them may start with. */
  predicate Opener(c: char) { Digit(c) || c == '$' || c == '\U{C2}' || c == '\U{E2}' }

  lemma SplitsBeforeNumber<F(!new)>(scan: Scanner<F>, rd: Reader<F>, t: string)
    requires ReadsBy(scan, rd) && t != "" && Opener(t[0])
    ensures SplitsBetween(scan, t)
  {
    forall u, k: nat | Ended(scan, u, k)
      ensures scan(u + t, k) == scan(u, k)
    {
      assert scan(u, k) == FirstToken(rd, u, k) && scan(u + t, k) == FirstToken(rd, u + t, k);
      if Symbolic(u[0]) {
        SameSymbol<F>(u, t);
      } else {
        NumberStays(u, t);
        SameNumber(rd, u, t, k);
      }
    }
  }

  /** Only a number starts with a byte that goes on one. */
  ghost predicate NumbersGoOn<F(!new)>(scan: Scanner<F>) {
    forall u, k: nat | u != "" && GoesOn(u[0]) && scan(u, k).Some? :: scan(u, k).value.token.Num?
  }

  lemma OnlyNumbersGoOn<F(!new)>(scan: Scanner<F>, rd: Reader<F>)
    requires ReadsBy(scan, rd)
    ensures NumbersGoOn(scan)
  {
    forall u, k: nat | u != "" && GoesOn(u[0]) && scan(u, k).Some?
      ensures scan(u, k).value.token.Num?
    {
      assert scan(u, k) == FirstToken(rd, u, k);
    }
  }

  // ---------------------------------------------------------------- token lists

  lemma JoinAssociates<T>(a: Option<seq<T>>, b: Option<seq<T>>, c: Option<seq<T>>)
    ensures Join(a, Join(b, c)) == Join(Join(a, b), c)
  {
    if a.Some? && b.Some? && c.Some? {
      ConcatAssociates(a.value, b.value, c.value);
    }
  }

  /** A text is read piece by piece if its first token is read the same and what is left is. */
  lemma LexFrom<F>(scan: Scanner<F>, s: string, t: string, at: nat, p: Piece<F>)
    requires s != "" && !Blank(s[0]) && scan(s, at) == Some(p) == scan(s + t, at) && 0 < p.length <= |s|
    requires Lex(scan, s[p.length..] + t, at + p.length)
             == Join(Lex(scan, s[p.length..], at + p.length), Lex(scan, t, at + p.length + |s[p.length..]|))
    ensures Lex(scan, s + t, at) == Join(Lex(scan, s, at), Lex(scan, t, at + |s|))
  {
    assert (s + t)[0] == s[0] && at + p.length + |s[p.length..]| == at + |s|;
    DropSplits(s, t, p.length);
    JoinAssociates(Some([p.token]), Lex(scan, s[p.length..], at + p.length), Lex(scan, t, at + |s|));
  }

  ghost predicate Bounded<F(!new)>(scan: Scanner<F>) {
    forall u, k: nat | scan(u, k).Some? :: 0 < scan(u, k).value.length <= |u|
  }

  lemma ScannerIsBounded<F(!new)>(scan: Scanner<F>, rd: Reader<F>)
    requires ReadsBy(scan, rd)
    ensures Bounded(scan)
  {
    forall u, k: nat | scan(u, k).Some?
      ensures 0 < scan(u, k).value.length <= |u|
    {
      assert scan(u, k) == FirstToken(rd, u, k);
    }
  }

  /** A text is read the same before a parenthesis or a sign as alone. */
  lemma {:induction false} LexSplits<F(!new)>(scan: Scanner<F>, s: string, t: string, at: nat)
    requires Splits(scan, t) && Bounded(scan)
    ensures Lex(scan, s + t, at) == Join(Lex(scan, s, at), Lex(scan, t, at + |s|))
    decreases |s|, 1
  {
    if s == "" {
      LexNone(scan, t, at);
    } else if Blank(s[0]) {
      LexSplits(scan, s[1..], t, at + 1);
      LexBlank(scan, s, t, at);
    } else {
      TokenSplits(scan, s, t, at);
    }
  }

  lemma {:induction false} TokenSplits<F(!new)>(scan: Scanner<F>, s: string, t: string, at: nat)
    requires Splits(scan, t) && Bounded(scan) && s != "" && !Blank(s[0])
    ensures Lex(scan, s + t, at) == Join(Lex(scan, s, at), Lex(scan, t, at + |s|))
    decreases |s|, 0
  {
    SplitsAtOne(scan, s, t, at);
    match scan(s, at)
    case None => LexNowhere(scan, s, t, at);
    case Some(p) =>
      LexSplits(scan, s[p.length..], t, at + p.length);
      LexFrom(scan, s, t, at, p);
  }

  lemma SplitsAtOne<F(!new)>(scan: Scanner<F>, s: string, t: string, at: nat)
    requires Splits(scan, t) && Bounded(scan) && s != ""
    ensures scan(s, at) == scan(s + t, at) && (scan(s, at).Some? ==> 0 < scan(s, at).value.length <= |s|)
  {
  }

  lemma LexNone<F>(scan: Scanner<F>, t: string, at: nat)
    ensures Lex(scan, "" + t, at) == Join(Lex(scan, "", at), Lex(scan, t, at))
  {
    assert "" + t == t;
    JoinNothing(Lex(scan, t, at));
  }

  lemma LexBlank<F>(scan: Scanner<F>, s: string, t: string, at: nat)
    requires s != "" && Blank(s[0])
    requires Lex(scan, s[1..] + t, at + 1) == Join(Lex(scan, s[1..], at + 1), Lex(scan, t, at + 1 + |s[1..]|))
    ensures Lex(scan, s + t, at) == Join(Lex(scan, s, at), Lex(scan, t, at + |s|))
  {
    assert (s + t)[0] == s[0] && at + 1 + |s[1..]| == at + |s|;
    DropSplits(s, t, 1);
  }

  lemma LexNowhere<F>(scan: Scanner<F>, s: string, t: string, at: nat)
    requires s != "" && !Blank(s[0]) && scan(s, at) == None == scan(s + t, at)
    ensures Lex(scan, s, at) == None == Lex(scan, s + t, at)
  {
    assert (s + t)[0] == s[0];
  }

  /** No two numbers in a row. */
  ghost predicate Apart<F>(toks: seq<Token<F>>) {
    forall k | 0 < k < |toks| :: !(toks[k - 1].Num? && toks[k].Num?)
  }

  /** A number may come next. */
  ghost predicate AwaitsNumber<F>(toks: seq<Token<F>>) {
    Apart(toks) && (toks == [] || !toks[|toks| - 1].Num?)
  }

  /** A number does not come first. */
  predicate StartsNoNumber<F>(toks: seq<Token<F>>) { toks == [] || !toks[0].Num? }

  lemma GoingOnIsNumber<F(!new)>(scan: Scanner<F>, s: string, at: nat)
    requires NumbersGoOn(scan) && Lex(scan, s, at).Some? && StartsNoNumber(Lex(scan, s, at).value)
    ensures EndsNumber(s)
  {
  }

  lemma AwaitsTail<F>(first: Token<F>, rest: seq<Token<F>>)
    requires AwaitsNumber([first] + rest)
    ensures AwaitsNumber(rest) && (first.Num? ==> rest != [] && StartsNoNumber(rest))
  {
    var all := [first] + rest;
    assert all[0] == first && forall k | 0 <= k < |rest| :: all[k + 1] == rest[k];
    forall k | 0 < k < |rest|
      ensures !(rest[k - 1].Num? && rest[k].Num?)
    {
      assert all[k] == rest[k - 1] && all[k + 1] == rest[k];
    }
    if rest != [] {
      assert !(all[0].Num? && all[1].Num?);
    }
  }

  /** A text in which a number may come next is read the same before one as alone. */
  lemma {:induction false} LexBeforeNumber<F(!new)>(scan: Scanner<F>, s: string, t: string, at: nat)
    requires SplitsBetween(scan, t) && NumbersGoOn(scan)
    requires Lex(scan, s, at).Some? && AwaitsNumber(Lex(scan, s, at).value)
    ensures Lex(scan, s + t, at) == Join(Lex(scan, s, at), Lex(scan, t, at + |s|))
    decreases |s|, 1
  {
    if s == "" {
      LexNone(scan, t, at);
    } else if Blank(s[0]) {
      BlankBeforeNumber(scan, s, t, at);
    } else {
      TokenBeforeNumber(scan, s, t, at);
    }
  }

  lemma {:induction false} BlankBeforeNumber<F(!new)>(scan: Scanner<F>, s: string, t: string, at: nat)
    requires SplitsBetween(scan, t) && NumbersGoOn(scan) && s != "" && Blank(s[0])
    requires Lex(scan, s, at).Some? && AwaitsNumber(Lex(scan, s, at).value)
    ensures Lex(scan, s + t, at) == Join(Lex(scan, s, at), Lex(scan, t, at + |s|))
    decreases |s|, 0
  {
    SameAfterBlank(scan, s, at);
    LexBeforeNumber(scan, s[1..], t, at + 1);
    LexBlank(scan, s, t, at);
  }

  lemma {:induction false} TokenBeforeNumber<F(!new)>(scan: Scanner<F>, s: string, t: string, at: nat)
    requires SplitsBetween(scan, t) && NumbersGoOn(scan) && s != "" && !Blank(s[0])
    requires Lex(scan, s, at).Some? && AwaitsNumber(Lex(scan, s, at).value)
    ensures Lex(scan, s + t, at) == Join(Lex(scan, s, at), Lex(scan, t, at + |s|))
    decreases |s|, 0
  {
    AwaitsAfter(scan, s, at);
    var p := scan(s, at).value;
    LexBeforeNumber(scan, s[p.length..], t, at + p.length);
    SameToken(scan, s, t, at, p);
    LexFrom(scan, s, t, at, p);
  }

  lemma SameAfterBlank<F>(scan: Scanner<F>, s: string, at: nat)
    requires s != "" && Blank(s[0])
    ensures Lex(scan, s, at) == Lex(scan, s[1..], at + 1)
  {
  }

  /** If a number may come after a text, it may come after what follows its first token. */
  lemma AwaitsAfter<F>(scan: Scanner<F>, s: string, at: nat)
    requires s != "" && !Blank(s[0]) && Lex(scan, s, at).Some? && AwaitsNumber(Lex(scan, s, at).value)
    ensures Takes(scan, s, at)
    ensures var p := scan(s, at).value; var rest := Lex(scan, s[p.length..], at + p.length);
            rest.Some? && AwaitsNumber(rest.value) && (p.token.Num? ==> rest.value != [] && StartsNoNumber(rest.value))
  {
    var p := scan(s, at).value;
    AwaitsTail(p.token, Lex(scan, s[p.length..], at + p.length).value);
  }

  /** A token starts s. */
  predicate Takes<F>(scan: Scanner<F>, s: string, at: nat) {
    scan(s, at).Some? && 0 < scan(s, at).value.length <= |s|
  }

  lemma SameToken<F(!new)>(scan: Scanner<F>, s: string, t: string, at: nat, p: Piece<F>)
    requires SplitsBetween(scan, t) && NumbersGoOn(scan) && s != "" && scan(s, at) == Some(p) && p.length <= |s|
    requires Lex(scan, s[p.length..], at + p.length).Some?
    requires var rest := Lex(scan, s[p.length..], at + p.length).value;
             p.token.Num? ==> rest != [] && StartsNoNumber(rest)
    ensures scan(s + t, at) == scan(s, at)
  {
    EndsHere(scan, s, at, p);
  }

  lemma EndsHere<F(!new)>(scan: Scanner<F>, s: string, at: nat, p: Piece<F>)
    requires NumbersGoOn(scan) && s != "" && scan(s, at) == Some(p) && p.length <= |s|
    requires Lex(scan, s[p.length..], at + p.length).Some?
    requires var rest := Lex(scan, s[p.length..], at + p.length).value;
             p.token.Num? ==> rest != [] && StartsNoNumber(rest)
    ensures Ended(scan, s, at)
  {
    if p.token.Num? {
      GoingOnIsNumber(scan, s[p.length..], at + p.length);
      assert p.length < |s| && s[p.length..][0] == s[p.length];
    }
  }

  // ---------------------------------------------------------------- a number written into a text

  /** Digits with or without a point among them. */
  predicate Simple(q: string) {
    q != "" && Digit(q[0]) && forall k | 0 <= k < |q| :: Digit(q[k]) || q[k] == '.'
  }

  /** The whole of one number. */
  predicate Figure(q: string) { Simple(q) && NumberLength(q) == |q| }

  lemma FirstThenRest<F>(scan: Scanner<F>, q: string, t: string, at: nat, p: Piece<F>)
    requires q != "" && !Blank(q[0]) && scan(q + t, at) == Some(p) && p.length == |q|
    ensures Lex(scan, q + t, at) == Join(Some([p.token]), Lex(scan, t, at + |q|))
  {
    assert (q + t)[0] == q[0] && (q + t)[|q|..] == t;
  }

  // ---------------------------------------------------------------- currency and percent signs around it

  /** A currency sign, and the one space that may follow it. */
  predicate IsCurrency(cur: string) { CurrencySign(cur) > 0 && Currency(cur) == |cur| }

  function PercentSign(percent: bool): string { if percent then "%" else "" }

  /** Figures with what stands directly before and behind them: a currency sign, a percent sign or nothing. */
  function Amount(cur: string, q: string, percent: bool): string { cur + (q + PercentSign(percent)) }

  predicate MayPrecede(cur: string) { cur == "" || IsCurrency(cur) }

  lemma CurrencyOpens(cur: string, t: string)
    requires IsCurrency(cur) && t != "" && !Gap(t[0])
    ensures Opener(cur[0]) && Currency(cur + t) == |cur|
  {
    assert forall k | 0 <= k < |cur| :: (cur + t)[k] == cur[k];
    assert (cur + t)[|cur|] == t[0];
  }

  lemma FiguresOf(q: string)
    requires Figure(q)
    ensures Currency(q) == 0 && Figures(q) == |q|
  {
    NoCurrency(q);
    assert q[0..] == q;
  }

  lemma NoPercent(q: string)
    requires Simple(q) && Figures(q) == |q|
    ensures Whole(q) + Fraction(q[Whole(q)..]) == |q|
  {
    var rest := q[Whole(q)..][Fraction(q[Whole(q)..])..];
    assert rest == q[Whole(q) + Fraction(q[Whole(q)..])..];
  }

  lemma PercentGoesOn(q: string, t: string)
    requires Simple(q) && Figures(q) == |q|
    ensures Figures(q + ("%" + t)) == |q| + 1
  {
    var u := "%" + t;
    NoPercent(q);
    var w := Whole(q);
    WholeSplits(q, u);
    DropSplits(q, u, w);
    FractionSplits(q[w..], u);
    DropSplits(q[w..], u, Fraction(q[w..]));
    assert q[w..][Fraction(q[w..])..] == "" && "" + u == u;
  }

  lemma AmountFigures(q: string, percent: bool, t: string)
    requires Figure(q) && EndsNumber(t)
    ensures Figures(q + PercentSign(percent) + t) == |q + PercentSign(percent)|
  {
    FiguresOf(q);
    if percent {
      PercentGoesOn(q, t);
      ConcatAssociates(q, "%", t);
    } else {
      FiguresSplit(q, t);
      assert q + "" == q;
    }
  }

  lemma AmountLength(cur: string, q: string, percent: bool, t: string)
    requires MayPrecede(cur) && Figure(q) && EndsNumber(t)
    ensures NumberLength(Amount(cur, q, percent) + t) == |Amount(cur, q, percent)|
  {
    var m := q + PercentSign(percent);
    AmountFigures(q, percent, t);
    assert (m + t)[0] == q[0];
    ConcatAssociates(cur, m, t);
    CurrencyAround(cur, m + t);
  }

  lemma CurrencyAround(cur: string, u: string)
    requires MayPrecede(cur) && u != "" && (Digit(u[0]) || u[0] == '.')
    ensures NumberLength(cur + u) == if Figures(u) == 0 then 0 else |cur| + Figures(u)
  {
    if cur == "" {
      NoCurrency(u);
      assert cur + u == u && u[0..] == u;
    } else {
      CurrencyOpens(cur, u);
      assert (cur + u)[|cur|..] == u;
    }
  }

  lemma {:induction false} OnlyFigures(cur: string, q: string)
    requires forall k | 0 <= k < |cur| :: !Digit(cur[k]) && cur[k] != '.'
    ensures DigitsAndPoint(cur + q) == DigitsAndPoint(q)
    decreases |cur|
  {
    if cur == "" {
      assert cur + q == q;
    } else {
      assert (cur + q)[0] == cur[0];
      DropSplits(cur, q, 1);
      OnlyFigures(cur[1..], q);
      assert "" + DigitsAndPoint(q) == DigitsAndPoint(q);
    }
  }

  lemma {:induction false} PercentDrops(q: string)
    requires forall k | 0 <= k < |q| :: Digit(q[k]) || q[k] == '.'
    ensures DigitsAndPoint(q + "%") == DigitsAndPoint(q)
    decreases |q|
  {
    if q == "" {
      assert q + "%" == "%" && "%"[1..] == "";
    } else {
      assert (q + "%")[0] == q[0];
      DropSplits(q, "%", 1);
      PercentDrops(q[1..]);
    }
  }

  lemma CurrencyBytes(cur: string)
    requires MayPrecede(cur)
    ensures forall k | 0 <= k < |cur| :: !Digit(cur[k]) && cur[k] != '.'
  {
  }

  /** What the figures read as is what the whole reads as, or what a percent sign makes of it. */
  function AmountValue<F>(rd: Reader<F>, v: F, percent: bool): F { if percent then rd.percent(v) else v }

  lemma AmountReads<F>(rd: Reader<F>, cur: string, q: string, percent: bool, v: F)
    requires MayPrecede(cur) && Simple(q) && ReadNumber(rd, q) == Some(v)
    ensures ReadNumber(rd, Amount(cur, q, percent)) == Some(AmountValue(rd, v, percent))
  {
    var m := q + PercentSign(percent);
    CurrencyBytes(cur);
    OnlyFigures(cur, m);
    PercentDrops(q);
    assert q + "" == q;
    assert (cur + m)[|cur + m| - 1] == m[|m| - 1];
    assert q[|q| - 1] != '%';
  }

  lemma AmountTrim(cur: string, q: string, percent: bool)
    requires MayPrecede(cur) && Simple(q)
    ensures TrimSpace(Amount(cur, q, percent)) == Amount(cur, q, percent)
  {
    var s := Amount(cur, q, percent);
    AmountEnds(cur, q, percent);
    assert s[0..] == s;
  }

  lemma AmountEnds(cur: string, q: string, percent: bool)
    requires MayPrecede(cur) && Simple(q)
    ensures var s := Amount(cur, q, percent); s != "" && Opener(s[0]) && FirstSpace(s) == 0 && LastSpace(s) == 0
  {
    var m, s := q + PercentSign(percent), Amount(cur, q, percent);
    assert m[0] == q[0] && Solid(m[|m| - 1]);
    assert s[|s| - 1] == m[|m| - 1];
    if cur == "" {
      assert s == m;
    } else {
      assert s[0] == cur[0] && (|cur| > 1 ==> s[1] == cur[1]) && (|cur| > 2 ==> s[2] == cur[2]);
    }
  }

  lemma AmountPiece<F>(rd: Reader<F>, cur: string, q: string, percent: bool, at: nat, v: F)
    requires MayPrecede(cur) && Simple(q) && ReadNumber(rd, q) == Some(v)
    ensures var m := Amount(cur, q, percent);
            NumberPiece(rd, m, at) == Some(Piece(Num(AmountValue(rd, v, percent), m, at), |m|))
  {
    AmountReads(rd, cur, q, percent, v);
    AmountTrim(cur, q, percent);
  }

  lemma AmountIsFirst<F>(rd: Reader<F>, cur: string, q: string, percent: bool, t: string, at: nat, v: F)
    requires MayPrecede(cur) && Figure(q) && EndsNumber(t) && ReadNumber(rd, q) == Some(v)
    ensures var m := Amount(cur, q, percent);
            FirstToken(rd, m + t, at) == Some(Piece(Num(AmountValue(rd, v, percent), m, at), |m|))
  {
    AmountIsWhole(rd, cur, q, percent, t, at);
    AmountPiece(rd, cur, q, percent, at, v);
  }

  lemma AmountIsWhole<F>(rd: Reader<F>, cur: string, q: string, percent: bool, t: string, at: nat)
    requires MayPrecede(cur) && Figure(q) && EndsNumber(t)
    ensures FirstToken(rd, Amount(cur, q, percent) + t, at) == NumberPiece(rd, Amount(cur, q, percent), at)
  {
    AmountLength(cur, q, percent, t);
    AmountEnds(cur, q, percent);
    WholeNumberFirst(rd, Amount(cur, q, percent), t, at);
  }

  lemma WholeNumberFirst<F>(rd: Reader<F>, m: string, t: string, at: nat)
    requires m != "" && !Symbolic(m[0]) && NumberLength(m + t) == |m|
    ensures FirstToken(rd, m + t, at) == NumberPiece(rd, m, at)
  {
    TakeSame(m, t, |m|);
    assert m[..|m|] == m;
    FirstNumber(rd, m + t, |m|, m, at);
  }

  /** A minus sign cannot follow a currency sign. */
  lemma MinusBehindCurrency<F>(rd: Reader<F>, cur: string, t: string, at: nat)
    requires IsCurrency(cur)
    ensures FirstToken(rd, cur + ("-" + t), at) == None
  {
    var rest := "-" + t;
    CurrencyOpens(cur, rest);
    assert (cur + rest)[|cur|..] == rest && (cur + rest)[0] == cur[0];
    NoFigures(rest);
    FirstNumber(rd, cur + rest, 0, "", at);
  }

  lemma NoFigures(s: string)
    requires s != "" && s[0] == '-'
    ensures Figures(s) == 0
  {
    assert s[0..] == s;
  }

  predicate Digits(s: string) { forall k | 0 <= k < |s| :: Digit(s[k]) }

  /** A result written against figures makes one number with them: 5<<2>> is read as 52. */
  lemma FiguresGlue(x: string, y: string)
    requires x != "" && Digits(x) && Digits(y)
    ensures NumberLength(x + y) == |x + y|
  {
    DigitsConcat(x, y);
    DigitsAreNumber(x + y);
  }

  lemma DigitsConcat(x: string, y: string)
    requires Digits(x) && Digits(y)
    ensures Digits(x + y)
  {
  }

  lemma DigitsAreNumber(s: string)
    requires s != "" && Digits(s)
    ensures NumberLength(s) == |s|
  {
    assert Digit(s[0]);
    NoCurrency(s);
    assert s[0..] == s;
    DigitsAreFigures(s);
  }

  lemma NoCurrency(s: string)
    requires s != "" && (Digit(s[0]) || s[0] == '.')
    ensures Currency(s) == 0
  {
  }

  lemma DigitsAreFigures(s: string)
    requires Digits(s)
    ensures Figures(s) == |s|
  {
    DigitsAreWhole(s);
    var rest := s[|s|..];
    assert rest == "" && rest[0..] == "";
  }

  lemma DigitsAreWhole(s: string)
    requires Digits(s)
    ensures Whole(s) == |s|
  {
    AllLeading(s);
    var rest := s[|s|..];
    assert rest == "" && Groups(rest) == 0;
  }

  lemma {:induction false} AllLeading(s: string)
    requires Digits(s)
    ensures Leading(s, Digit) == |s|
    decreases |s|
  {
    if s != "" {
      AllLeading(s[1..]);
    }
  }
}
