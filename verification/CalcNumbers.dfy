/** What the scanner takes for one number. CalcLexer.NumberLength follows the alternatives of the number pattern
    in their order, as a regular expression of Go does; what it takes is the longest text that matches. */
module CalcNumbers {
  import opened Text
  import opened Sequences
  import opened CalcLexer
  import opened CalcLexerFacts
  import opened Wrappers

  // ---------------------------------------------------------------- the pattern, on a whole text

  predicate IsSign(c: string) { c == "$" || c == "\U{C2}\U{A3}" || c == "\U{E2}\U{82}\U{AC}" }

  /** \s */
  predicate IsSpace(c: char) { c == ' ' || c == '\t' || c == '\n' || c == '\r' || c == '\U{0C}' }

  /** [$€£]\s? */
  predicate IsMark(c: string) {
    IsSign(c) || (c != "" && IsSign(c[..|c| - 1]) && IsSpace(c[|c| - 1]))
  }

  /** (,\d{3})* */
  predicate IsGroups(b: string) {
    b == "" || (|b| >= 4 && b[0] == ',' && Digits(b[1..4]) && IsGroups(b[4..]))
  }

  /** \d{1,3}(,\d{3})+ as its first digits and the groups. */
  predicate IsGrouped(a: string, b: string) {
    1 <= |a| <= 3 && Digits(a) && b != "" && IsGroups(b)
  }

  /** \d{1,3}(,\d{3})+|\d+ */
  ghost predicate IsWhole(w: string) {
    (w != "" && Digits(w)) || exists a, b :: w == a + b && IsGrouped(a, b)
  }

  /** \.\d+ */
  predicate IsFraction(f: string) {
    |f| >= 2 && f[0] == '.' && Digits(f[1..])
  }

  /** The pattern's four parts: a currency mark, digits before the point, digits after it and a percent
      sign, each of which may be missing, but not all the digits. */
  ghost predicate IsParts(c: string, w: string, f: string, p: string) {
    && (c == "" || IsMark(c))
    && (w == "" || IsWhole(w)) && (f == "" || IsFraction(f)) && w + f != ""
    && (p == "" || p == "%")
  }

  ghost predicate Spells(x: string, c: string, w: string, f: string, p: string) {
    x == c + (w + (f + p)) && IsParts(c, w, f, p)
  }

  /** All of x matches the pattern. */
  ghost predicate IsNumber(x: string) {
    exists c, w, f, p :: Spells(x, c, w, f, p)
  }

  // ---------------------------------------------------------------- the scanned number matches

  lemma {:induction false} GroupsMatch(s: string)
    ensures IsGroups(s[..Groups(s)])
    decreases |s|
  {
    var n := Groups(s);
    if n > 0 {
      GroupsMatch(s[4..]);
      assert s[..n][4..] == s[4..][..n - 4];
      assert forall k | 0 <= k < 3 :: s[..n][1..4][k] == s[1..][k];
    }
  }

  lemma WholeMatches(s: string)
    requires Whole(s) > 0
    ensures IsWhole(s[..Whole(s)])
  {
    var d, g := Leading(s, Digit), Groups(s[Leading(s, Digit)..]);
    if 1 <= d <= 3 && g > 0 {
      GroupsMatch(s[d..]);
      assert s[..d + g] == s[..d] + s[d..][..g] && IsGrouped(s[..d], s[d..][..g]);
    }
  }

  lemma FractionMatches(s: string)
    requires Fraction(s) > 0
    ensures IsFraction(s[..Fraction(s)])
  {
    var f := s[..Fraction(s)];
    assert forall k | 0 <= k < |f| - 1 :: f[1..][k] == s[1..][k];
  }

  lemma MarkMatches(s: string)
    requires Currency(s) > 0
    ensures IsMark(s[..Currency(s)])
  {
    var n, c := CurrencySign(s), s[..Currency(s)];
    assert IsSign(s[..n]);
    if |c| > n {
      assert c[..|c| - 1] == s[..n];
    }
  }

  /** What the scanner takes is a number of the pattern. */
  lemma NumberMatches(s: string)
    requires NumberLength(s) > 0
    ensures IsNumber(s[..NumberLength(s)])
  {
    MatchesAfter(s, Currency(s), Figures(s[Currency(s)..]));
  }

  lemma MatchesAfter(s: string, n: nat, m: nat)
    requires n == Currency(s) && m == Figures(s[n..]) > 0
    ensures IsNumber(s[..n + m])
  {
    var w, f, p := FiguresMatch(s[n..], m);
    if n > 0 {
      MarkMatches(s);
    }
    SpelledAfter(s, n, m, w, f, p);
  }

  lemma SpelledAfter(s: string, n: nat, m: nat, w: string, f: string, p: string)
    requires n + m <= |s| && Spells(s[n..][..m], "", w, f, p) && (n == 0 || IsMark(s[..n]))
    ensures IsNumber(s[..n + m])
  {
    assert s[..n + m] == s[..n] + s[n..][..m];
    assert Spells(s[..n + m], s[..n], w, f, p);
  }

  lemma FiguresMatch(u: string, m: nat) returns (w: string, f: string, p: string)
    requires m == Figures(u) > 0
    ensures Spells(u[..m], "", w, f, p)
  {
    var i := Whole(u);
    var j := Fraction(u[i..]);
    var k := Percent(u[i..][j..]);
    PartsMatch(u, i, j, k);
    ThreeParts(u, i, j, k);
    w, f, p := u[..i], u[i..][..j], u[i..][j..][..k];
  }

  lemma ThreeParts(u: string, i: nat, j: nat, k: nat)
    requires i + j + k <= |u| && IsParts("", u[..i], u[i..][..j], u[i..][j..][..k])
    ensures Spells(u[..i + j + k], "", u[..i], u[i..][..j], u[i..][j..][..k])
  {
  }

  lemma PartsMatch(u: string, i: nat, j: nat, k: nat)
    requires i == Whole(u) && j == Fraction(u[i..]) && k == Percent(u[i..][j..]) && i + j > 0
    ensures IsParts("", u[..i], u[i..][..j], u[i..][j..][..k])
  {
    if i > 0 {
      WholeMatches(u);
    }
    if j > 0 {
      FractionMatches(u[i..]);
    }
    assert |u[..i] + u[i..][..j]| == i + j;
  }

  // ---------------------------------------------------------------- and no match is longer

  lemma {:induction false} LeadingLongest(d: string, t: string)
    requires Digits(d)
    ensures Leading(d + t, Digit) >= |d|
    decreases |d|
  {
    if d == "" {
    } else {
      assert (d + t)[0] == d[0];
      DropSplits(d, t, 1);
      LeadingLongest(d[1..], t);
    }
  }

  lemma {:induction false} GroupsLongest(b: string, t: string)
    requires IsGroups(b)
    ensures Groups(b + t) >= |b|
    decreases |b|
  {
    if b == "" {
    } else {
      var d := b[1..4];
      assert (b + t)[0] == b[0] && (b + t)[1..] == d + (b[4..] + t);
      LeadingLongest(d, b[4..] + t);
      DropSplits(b, t, 4);
      GroupsLongest(b[4..], t);
    }
  }

  lemma WholeLongest(w: string, t: string)
    requires IsWhole(w)
    ensures Whole(w + t) >= |w|
  {
    if Digits(w) {
      LeadingLongest(w, t);
    } else {
      var a, b :| w == a + b && IsGrouped(a, b);
      ConcatAssociates(a, b, t);
      GroupedLongest(a, b, t);
    }
  }

  lemma GroupedLongest(a: string, b: string, t: string)
    requires IsGrouped(a, b)
    ensures Whole(a + (b + t)) >= |a + b|
  {
    LeadingLongest(a, b + t);
    assert (a + (b + t))[|a|] == ',';
    DropSplits(a, b + t, |a|);
    assert a[|a|..] + (b + t) == b + t;
    GroupsLongest(b, t);
  }

  lemma FractionLongest(f: string, t: string)
    requires IsFraction(f)
    ensures Fraction(f + t) >= |f|
  {
    assert (f + t)[0] == f[0];
    DropSplits(f, t, 1);
    LeadingLongest(f[1..], t);
  }

  lemma {:induction false} GroupsBytes(s: string, k: nat)
    requires k < Groups(s)
    ensures Digit(s[k]) || s[k] == ','
    decreases |s|
  {
    if 1 <= k < 4 {
      assert s[1..][k - 1] == s[k];
    } else if k >= 4 {
      GroupsBytes(s[4..], k - 4);
    }
  }

  /** Before the point there are only digits and commas. */
  lemma WholeBytes(s: string, k: nat)
    requires k < Whole(s)
    ensures Digit(s[k]) || s[k] == ','
  {
    var d := Leading(s, Digit);
    if k >= d {
      GroupsBytes(s[d..], k - d);
    }
  }

  lemma FiguresLongest(w: string, f: string, p: string, t: string)
    requires IsParts("", w, f, p)
    ensures Figures(w + (f + (p + t))) >= |w + (f + p)|
  {
    var u := w + (f + (p + t));
    if w != "" {
      WholeLongest(w, f + (p + t));
    }
    if Whole(u) > |w| {
      WholeBytes(u, |w|);
      assert u[|w|] == (f + (p + t))[0];
    } else {
      assert u[|w|..] == f + (p + t);
      RestLongest(f, p, t);
    }
  }

  lemma RestLongest(f: string, p: string, t: string)
    requires (f == "" || IsFraction(f)) && (p == "" || p == "%")
    ensures var u := f + (p + t); Fraction(u) + Percent(u[Fraction(u)..]) >= |f + p|
  {
    var u := f + (p + t);
    if f != "" {
      FractionLongest(f, p + t);
    }
    if Fraction(u) == |f| {
      assert u[|f|..] == p + t;
    }
  }

  lemma PartsLongest(c: string, w: string, f: string, p: string, t: string)
    requires IsParts(c, w, f, p)
    ensures NumberLength(c + (w + (f + (p + t)))) >= |c| + |w + (f + p)|
  {
    FiguresLongest(w, f, p, t);
    BeginsWithFigure(w, f, p + t);
    if c != "" {
      MarkIsCurrency(c);
    }
    CurrencyAround(c, w + (f + (p + t)));
  }

  /** No number of the pattern that s starts with is longer than what the scanner takes. */
  lemma NumberIsLongest(s: string, x: string)
    requires IsNumber(x) && x <= s
    ensures |x| <= NumberLength(s)
  {
    var c, w, f, p :| Spells(x, c, w, f, p);
    SpelledIsLongest(s, x, c, w, f, p);
  }

  lemma SpelledIsLongest(s: string, x: string, c: string, w: string, f: string, p: string)
    requires Spells(x, c, w, f, p) && x <= s
    ensures |x| <= NumberLength(s)
  {
    var t := s[|x|..];
    assert s == x + t;
    FourThenRest(c, w, f, p, t);
    PartsLongest(c, w, f, p, t);
  }

  lemma FourThenRest(c: string, w: string, f: string, p: string, t: string)
    ensures c + (w + (f + p)) + t == c + (w + (f + (p + t)))
  {
  }

  lemma BeginsWithFigure(w: string, f: string, t: string)
    requires IsParts("", w, f, "")
    ensures var u := w + (f + t); u != "" && (Digit(u[0]) || u[0] == '.')
  {
    if w != "" {
      WholeBegins(w);
      assert (w + (f + t))[0] == w[0];
    } else {
      assert (w + (f + t))[0] == f[0];
    }
  }

  lemma WholeBegins(w: string)
    requires IsWhole(w)
    ensures w != "" && Digit(w[0])
  {
    if !Digits(w) {
      var a, b :| w == a + b && IsGrouped(a, b);
      assert w[0] == a[0];
    }
  }

  lemma MarkIsCurrency(c: string)
    requires IsMark(c)
    ensures IsCurrency(c)
  {
    if !IsSign(c) {
      var m := c[..|c| - 1];
      assert forall k | 0 <= k < |m| :: c[k] == m[k];
    }
  }

  // ---------------------------------------------------------------- what a number reads as

  /** The digits of groups of three, without their commas. */
  function GroupDigits(b: string): string
    requires IsGroups(b)
  {
    if b == "" then "" else b[1..4] + GroupDigits(b[4..])
  }

  lemma {:induction false} KeptOfBoth(s: string, t: string)
    ensures DigitsAndPoint(s + t) == DigitsAndPoint(s) + DigitsAndPoint(t)
    decreases |s|
  {
    if s == "" {
      assert s + t == t;
    } else {
      var kept := if Digit(s[0]) || s[0] == '.' then [s[0]] else "";
      DropSplits(s, t, 1);
      KeptOfBoth(s[1..], t);
      KeptFirst(s, kept);
      KeptFirst(s + t, kept);
      ConcatAssociates(kept, DigitsAndPoint(s[1..]), DigitsAndPoint(t));
    }
  }

  lemma KeptFirst(s: string, kept: string)
    requires s != "" && kept == if Digit(s[0]) || s[0] == '.' then [s[0]] else ""
    ensures DigitsAndPoint(s) == kept + DigitsAndPoint(s[1..])
  {
  }

  lemma {:induction false} DigitsAreKept(s: string)
    requires forall k | 0 <= k < |s| :: Digit(s[k]) || s[k] == '.'
    ensures DigitsAndPoint(s) == s
    decreases |s|
  {
    if s != "" {
      DigitsAreKept(s[1..]);
    }
  }

  lemma MarkIsDropped(c: string)
    requires c == "" || IsMark(c)
    ensures DigitsAndPoint(c) == ""
  {
    if c != "" {
      MarkIsCurrency(c);
      CurrencyBytes(c);
      OnlyFigures(c, "");
      assert c + "" == c;
    }
  }

  lemma {:induction false} CommasAreDropped(b: string)
    requires IsGroups(b)
    ensures DigitsAndPoint(b) == GroupDigits(b)
    decreases |b|
  {
    if b != "" {
      CommasAreDropped(b[4..]);
      KeptOfBoth(",", b[1..4] + b[4..]);
      KeptOfBoth(b[1..4], b[4..]);
      DigitsAreKept(b[1..4]);
      assert b == "," + (b[1..4] + b[4..]) && DigitsAndPoint(",") == "";
    }
  }

  /** A number reads as its digits and point do, currency sign and commas left out, and as a percentage if a
      percent sign ends it. */
  lemma NumberReadsAs<F>(rd: Reader<F>, c: string, a: string, b: string, f: string, p: string)
    requires c == "" || IsMark(c)
    requires Digits(a) && (b == "" || IsGrouped(a, b)) && (f == "" || IsFraction(f)) && a + f != ""
    requires p == "" || p == "%"
    ensures IsNumber(c + (a + b + (f + p)))
    ensures ReadNumber(rd, c + (a + b + (f + p)))
            == match rd.parse(a + GroupDigits(b) + f)
               case None => None
               case Some(v) => Some(if p == "%" then rd.percent(v) else v)
  {
    var x := c + (a + b + (f + p));
    KeptFigures(a, b, f, p);
    MarkIsDropped(c);
    KeptOfBoth(c, a + b + (f + p));
    assert "" + (a + GroupDigits(b) + f) == a + GroupDigits(b) + f;
    LastByte(c, a, b, f, p);
    PartsOfFigures(a, b, f);
    assert Spells(x, c, a + b, f, p);
  }

  lemma KeptFigures(a: string, b: string, f: string, p: string)
    requires Digits(a) && IsGroups(b) && (f == "" || IsFraction(f)) && (p == "" || p == "%")
    ensures DigitsAndPoint(a + b + (f + p)) == a + GroupDigits(b) + f
  {
    DigitsAreKept(a);
    CommasAreDropped(b);
    KeptOfBoth(a, b);
    FractionIsKept(f);
    KeptOfBoth(f, p);
    KeptOfBoth(a + b, f + p);
    assert f + "" == f;
  }

  lemma FractionIsKept(f: string)
    requires f == "" || IsFraction(f)
    ensures DigitsAndPoint(f) == f
  {
    assert forall k | 0 < k < |f| :: f[k] == f[1..][k - 1];
    DigitsAreKept(f);
  }

  lemma PartsOfFigures(a: string, b: string, f: string)
    requires Digits(a) && (b == "" || IsGrouped(a, b)) && a + f != ""
    ensures (a + b == "" || IsWhole(a + b)) && a + b + f != ""
  {
    assert b == "" ==> a + b == a;
  }

  lemma LastByte(c: string, a: string, b: string, f: string, p: string)
    requires Digits(a) && (b == "" || IsGrouped(a, b)) && (f == "" || IsFraction(f)) && a + f != ""
    requires p == "" || p == "%"
    ensures var x := c + (a + b + (f + p)); x != "" && (x[|x| - 1] == '%' <==> p == "%")
  {
    var x := c + (a + b + (f + p));
    if p == "" {
      if f != "" {
        assert x[|x| - 1] == f[1..][|f| - 2];
      } else if b != "" {
        GroupsEndInDigit(b);
        assert x[|x| - 1] == b[|b| - 1];
      } else {
        assert x[|x| - 1] == a[|a| - 1];
      }
    }
  }

  lemma {:induction false} GroupsEndInDigit(b: string)
    requires IsGroups(b) && b != ""
    ensures Digit(b[|b| - 1])
    decreases |b|
  {
    if |b| == 4 {
      assert b[1..4][2] == b[3];
    } else {
      GroupsEndInDigit(b[4..]);
    }
  }
}
