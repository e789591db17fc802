/** pkg/calc's tokenize: how a set-up's text is cut into tokens, and where that can be done piece by
    piece. A `char` is one byte. */
module CalcLexer {
  import opened Wrappers
  import opened Text
  import opened CalcGrammar

  /** How a number's digits and point are read (nothing if out of range), and what a percent sign does. */
  datatype Reader<!F> = Reader(parse: string -> Option<F>, percent: F -> F)

  // ---------------------------------------------------------------- the text as it is scanned

  predicate Two(s: string, a: char, b: char) { |s| >= 2 && s[0] == a && s[1] == b }

  predicate Three(s: string, a: char, b: char, c: char) { |s| >= 3 && s[0] == a && s[1] == b && s[2] == c }

  /** The next byte or, for a typographic operator, the plain one it stands for, padded to as many bytes
      (a multiplication or division sign takes two, a minus sign or en dash three). */
  function Plainly(s: string): (o: string)
    requires s != ""
    ensures 0 < |o| <= |s|
  {
    if Two(s, '\U{C3}', '\U{97}') then "* "
    else if Two(s, '\U{C3}', '\U{B7}') then "/ "
    else if Three(s, '\U{E2}', '\U{88}', '\U{92}') || Three(s, '\U{E2}', '\U{80}', '\U{93}') then "-  "
    else [s[0]]
  }

  /** The text with plain operators, as long as before. */
  function Ascii(s: string): (r: string)
    ensures |r| == |s|
  {
    if s == "" then "" else Plainly(s) + Ascii(s[|Plainly(s)|..])
  }

  // ---------------------------------------------------------------- one number

  /** An optional currency sign and one optional space after it. */
  function Currency(s: string): (n: nat)
    ensures n <= |s|
  {
    var c := CurrencySign(s);
    if 0 < c < |s| && Gap(s[c]) then c + 1 else c
  }

  /** A dollar, pound or euro sign. */
  function CurrencySign(s: string): (n: nat)
    ensures n <= |s|
  {
    if s != "" && s[0] == '$' then 1
    else if Two(s, '\U{C2}', '\U{A3}') then 2
    else if Three(s, '\U{E2}', '\U{82}', '\U{AC}') then 3
    else 0
  }

  predicate Gap(c: char) { Blank(c) || c == '\r' || c as int == 12 }

  /** Groups of a comma and three digits. */
  function Groups(s: string): (n: nat)
    ensures n <= |s|
  {
    if |s| >= 4 && s[0] == ',' && Leading(s[1..], Digit) >= 3 then 4 + Groups(s[4..]) else 0
  }

  /** The digits before the point: up to three and then groups, or any number of them. */
  function Whole(s: string): (n: nat)
    ensures n <= |s|
  {
    var d := Leading(s, Digit);
    if 1 <= d <= 3 then d + Groups(s[d..]) else d
  }

  function Fraction(s: string): (n: nat)
    ensures n <= |s|
  {
    if s != "" && s[0] == '.' && Leading(s[1..], Digit) > 0 then 1 + Leading(s[1..], Digit) else 0
  }

  function Percent(s: string): (n: nat)
    ensures n <= |s|
  {
    if s != "" && s[0] == '%' then 1 else 0
  }

  /** How many bytes the number that starts s takes; none if s starts with no number. */
  function NumberLength(s: string): (n: nat)
    ensures n <= |s|
  {
    var c := Currency(s);
    var n := Figures(s[c..]);
    if n == 0 then 0 else c + n
  }

  /** Digits before or after the point, or both, and a percent sign if there is one. */
  function Figures(s: string): (n: nat)
    ensures n <= |s|
  {
    var w := Whole(s);
    var f := Fraction(s[w..]);
    if w + f == 0 then 0 else w + f + Percent(s[w..][f..])
  }

  function DigitsAndPoint(s: string): string {
    if s == "" then "" else (if Digit(s[0]) || s[0] == '.' then [s[0]] else "") + DigitsAndPoint(s[1..])
  }

  function ReadNumber<F>(rd: Reader<F>, s: string): Option<F> {
    match rd.parse(DigitsAndPoint(s))
    case None => None
    case Some(v) => Some(if s != "" && s[|s| - 1] == '%' then rd.percent(v) else v)
  }

  // ---------------------------------------------------------------- all tokens

  datatype Piece<+F> = Piece(token: Token<F>, length: nat)

  /** A number spelled by all of m, at position `at` of the expression. */
  function NumberPiece<F>(rd: Reader<F>, m: string, at: nat): (r: Option<Piece<F>>)
    ensures r.Some? ==> r.value.token.Num? && 0 < r.value.length == |m|
  {
    if m == "" then None
    else match ReadNumber(rd, m)
      case None => None
      case Some(v) => Some(Piece(Num(v, TrimSpace(m), at), |m|))
  }

  predicate Symbolic(c: char) { c in "*+-/^()" }

  /** An operator or a parenthesis; two stars are a power. */
  function Symbol<F>(s: string): (p: Piece<F>)
    requires s != "" && Symbolic(s[0])
    ensures 0 < p.length <= |s| && !p.token.Num?
  {
    match s[0]
    case '*' => if |s| > 1 && s[1] == '*' then Piece(Op(Power), 2) else Piece(Op(Times), 1)
    case '+' => Piece(Op(Plus), 1)
    case '-' => Piece(Op(Minus), 1)
    case '/' => Piece(Op(Over), 1)
    case '^' => Piece(Op(Power), 1)
    case '(' => Piece(LParen, 1)
    case _ => Piece(RParen, 1)
  }

  /** The token that starts s, at position `at` of the expression. */
  function FirstToken<F>(rd: Reader<F>, s: string, at: nat): (r: Option<Piece<F>>)
    ensures r.Some? ==> 0 < r.value.length <= |s|
  {
    if s == "" then None
    else if Symbolic(s[0]) then Some(Symbol(s))
    else NumberPiece(rd, s[..NumberLength(s)], at)
  }

  /** How the next token is read; every token takes a byte or more. */
  type Scanner<!F> = (string, nat) -> Option<Piece<F>>

  /** `scan` reads tokens as the code does, and numbers by `rd`. */
  ghost predicate ReadsBy<F>(scan: Scanner<F>, rd: Reader<F>) {
    forall u, at: nat {:trigger FirstToken(rd, u, at)} :: scan(u, at) == FirstToken(rd, u, at)
  }

  function ScannerOf<F>(rd: Reader<F>): Scanner<F> { (s: string, at: nat) => FirstToken(rd, s, at) }

  lemma ScannerReads<F>(rd: Reader<F>)
    ensures ReadsBy(ScannerOf(rd), rd)
  {
  }

  function Join<T>(a: Option<seq<T>>, b: Option<seq<T>>): Option<seq<T>> {
    if a.Some? && b.Some? then Some(a.value + b.value) else None
  }

  /** The tokens of s, which begins at position `at` of the expression. */
  function Lex<F>(scan: Scanner<F>, s: string, at: nat): Option<seq<Token<F>>>
    decreases |s|
  {
    if s == "" then Some([])
    else if Blank(s[0]) then Lex(scan, s[1..], at + 1)
    else
      match scan(s, at)
      case None => None
      case Some(p) =>
        if 0 < p.length <= |s| then Join(Some([p.token]), Lex(scan, s[p.length..], at + p.length)) else None
  }

  /** The tokens of an expression; none if it has no token or a part that is none. */
  function Tokens<F>(scan: Scanner<F>, expr: string): Option<seq<Token<F>>> {
    match Lex(scan, Ascii(expr), 0)
    case None => None
    case Some(toks) => if toks == [] then None else Some(toks)
  }

  /** The tokens read before position i and those still to be read are all of them. */
  ghost predicate ReadSoFar<F>(scan: Scanner<F>, s: string, i: nat, toks: seq<Token<F>>) {
    i <= |s| && Lex(scan, s, 0) == Join(Some(toks), Lex(scan, s[i..], i))
  }

  lemma NothingRead<F>(scan: Scanner<F>, s: string)
    ensures ReadSoFar(scan, s, 0, [])
  {
    assert s[0..] == s;
    JoinNothing(Lex(scan, s, 0));
  }

  lemma BlankStep<F>(scan: Scanner<F>, s: string, i: nat, toks: seq<Token<F>>)
    requires ReadSoFar(scan, s, i, toks) && i < |s| && Blank(s[i])
    ensures ReadSoFar(scan, s, i + 1, toks)
  {
    assert s[i..][0] == s[i] && s[i..][1..] == s[i + 1..];
  }

  lemma TokenStep<F>(scan: Scanner<F>, s: string, i: nat, toks: seq<Token<F>>, p: Piece<F>)
    requires ReadSoFar(scan, s, i, toks) && i < |s| && !Blank(s[i])
    requires scan(s[i..], i) == Some(p) && 0 < p.length <= |s| - i
    ensures ReadSoFar(scan, s, i + p.length, toks + [p.token])
  {
    assert s[i..][0] == s[i] && s[i..][p.length..] == s[i + p.length..];
    JoinStep(toks, p.token, Lex(scan, s[i + p.length..], i + p.length));
  }

  lemma NoStep<F>(scan: Scanner<F>, s: string, i: nat, toks: seq<Token<F>>)
    requires ReadSoFar(scan, s, i, toks) && i < |s| && !Blank(s[i]) && scan(s[i..], i) == None
    ensures Lex(scan, s, 0) == None
  {
    assert s[i..][0] == s[i];
  }

  lemma AllRead<F>(scan: Scanner<F>, s: string, toks: seq<Token<F>>)
    requires ReadSoFar(scan, s, |s|, toks)
    ensures Lex(scan, s, 0) == Some(toks)
  {
    JoinNothing(Some(toks));
  }

  lemma JoinStep<T>(toks: seq<T>, t: T, rest: Option<seq<T>>)
    ensures Join(Some(toks), Join(Some([t]), rest)) == Join(Some(toks + [t]), rest)
  {
    if rest.Some? {
      assert toks + ([t] + rest.value) == toks + [t] + rest.value;
    }
  }

  lemma JoinNothing<T>(a: Option<seq<T>>)
    ensures Join(Some([]), a) == a && Join(a, Some([])) == a
  {
    if a.Some? {
      assert [] + a.value == a.value == a.value + [];
    }
  }

  lemma SymbolHere<F>(scan: Scanner<F>, rd: Reader<F>, s: string, i: nat)
    requires i < |s| && ReadsBy(scan, rd) && Symbolic(s[i])
    ensures scan(s[i..], i) == Some(Symbol(s[i..])) && s[i..][0] == s[i] && (i + 1 < |s| ==> s[i..][1] == s[i + 1])
  {
    assert scan(s[i..], i) == FirstToken(rd, s[i..], i);
  }

  lemma NumberHere<F>(scan: Scanner<F>, rd: Reader<F>, s: string, i: nat)
    requires i < |s| && ReadsBy(scan, rd) && !Symbolic(s[i])
    ensures scan(s[i..], i) == NumberPiece(rd, s[i..][..NumberLength(s[i..])], i)
  {
    assert scan(s[i..], i) == FirstToken(rd, s[i..], i) && s[i..][0] == s[i];
  }

  /** One turn of the loop at a byte that is not blank. */
  method Scan<F>(rd: Reader<F>, s: string, i: nat, ghost scan: Scanner<F>) returns (p: Option<Piece<F>>)
    requires i < |s| && ReadsBy(scan, rd)
    ensures p == scan(s[i..], i) && (p.Some? ==> 0 < p.value.length <= |s| - i)
  {
    var c := s[i];
    if Symbolic(c) {
      SymbolHere(scan, rd, s, i);
      if c == '*' && i + 1 < |s| && s[i + 1] == '*' {
        return Some(Piece(Op(Power), 2));
      }
      var t := if c == '(' then LParen else if c == ')' then RParen
               else Op(if c == '*' then Times else if c == '+' then Plus else if c == '-' then Minus
                       else if c == '/' then Over else Power);
      return Some(Piece(t, 1));
    }
    var m := s[i..][..NumberLength(s[i..])];
    NumberHere(scan, rd, s, i);
    if m == "" {
      return None;
    }
    var v := ReadNumber(rd, m);
    p := if v.None? then None else Some(Piece(Num(v.value, TrimSpace(m), i), |m|));
  }

  method Tokenize<F>(rd: Reader<F>, expr: string, ghost scan: Scanner<F>) returns (r: Option<seq<Token<F>>>)
    requires ReadsBy(scan, rd)
    ensures r == Tokens(scan, expr)
  {
    var s := Ascii(expr);
    var toks: seq<Token<F>> := [];
    var i := 0;
    NothingRead(scan, s);
    while i < |s|
      invariant ReadSoFar(scan, s, i, toks)
      decreases |s| - i
    {
      if Blank(s[i]) {
        BlankStep(scan, s, i, toks);
        i := i + 1;
        continue;
      }
      var p := Scan(rd, s, i, scan);
      if p.None? {
        NoStep(scan, s, i, toks);
        return None;
      }
      TokenStep(scan, s, i, toks, p.value);
      toks := toks + [p.value.token];
      i := i + p.value.length;
    }
    AllRead(scan, s, toks);
    r := if toks == [] then None else Some(toks);
  }
}
