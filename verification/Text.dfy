/** Trimming of strings; a `char` is one byte of UTF-8. */
module Text {

  predicate Blank(c: char) { c == ' ' || c == '\t' || c == '\n' }

  predicate AsciiSpace(c: char) { Blank(c) || c == '\r' || c as int == 11 || c as int == 12 }

  predicate Digit(c: char) { '0' <= c <= '9' }

  /** How many leading characters satisfy p. */
  function Leading(s: string, p: char -> bool): (n: nat)
    ensures n <= |s|
    ensures forall k | 0 <= k < n :: p(s[k])
    ensures n < |s| ==> !p(s[n])
  {
    if s != [] && p(s[0]) then 1 + Leading(s[1..], p) else 0
  }

  /** A number in decimal. */
  function Print(n: nat): string {
    if n < 10 then [n as char + '0'] else Print(n / 10) + [(n % 10) as char + '0']
  }

  // ---------------------------------------------------------------- Unicode white space

  /** U+0085 and U+00A0. */
  predicate TwoByteSpace(a: char, b: char) { a == '\U{C2}' && (b == '\U{85}' || b == '\U{A0}') }

  /** U+1680, U+2000 to U+200A, U+2028, U+2029, U+202F, U+205F and U+3000. */
  predicate ThreeByteSpace(a: char, b: char, c: char) {
    || (a == '\U{E1}' && b == '\U{9A}' && c == '\U{80}')
    || (a == '\U{E2}' && b == '\U{80}'
         && ('\U{80}' <= c <= '\U{8A}' || c == '\U{A8}' || c == '\U{A9}' || c == '\U{AF}'))
    || (a == '\U{E2}' && b == '\U{81}' && c == '\U{9F}')
    || (a == '\U{E3}' && b == '\U{80}' && c == '\U{80}')
  }

  /** How many bytes the white-space character takes that s starts with; none if it starts with none. */
  function FirstSpace(s: string): (n: nat)
    ensures n <= |s|
  {
    if s != "" && AsciiSpace(s[0]) then 1
    else if |s| >= 2 && TwoByteSpace(s[0], s[1]) then 2
    else if |s| >= 3 && ThreeByteSpace(s[0], s[1], s[2]) then 3
    else 0
  }

  /** The same for the one that s ends with. */
  function LastSpace(s: string): (n: nat)
    ensures n <= |s|
  {
    var e := |s|;
    if e >= 1 && AsciiSpace(s[e - 1]) then 1
    else if e >= 2 && TwoByteSpace(s[e - 2], s[e - 1]) then 2
    else if e >= 3 && ThreeByteSpace(s[e - 3], s[e - 2], s[e - 1]) then 3
    else 0
  }

  /** How many bytes the white space takes that s starts with. */
  function LeadingSpace(s: string): (n: nat)
    ensures n <= |s|
  {
    if FirstSpace(s) == 0 then 0 else FirstSpace(s) + LeadingSpace(s[FirstSpace(s)..])
  }

  function TrimRight(s: string): (t: string)
    ensures t <= s
  {
    if LastSpace(s) == 0 then s else TrimRight(s[..|s| - LastSpace(s)])
  }

  /** strings.TrimSpace. */
  function TrimSpace(s: string): string { TrimRight(s[LeadingSpace(s)..]) }

  // ---------------------------------------------------------------- trimming around other text

  /** An ASCII byte that is no white space. */
  predicate Solid(c: char) { c as int < 128 && !AsciiSpace(c) }

  lemma FirstSpaceKeeps(s: string, t: string)
    requires s != "" && t != "" && Solid(t[0])
    ensures FirstSpace(s + t) == FirstSpace(s)
  {
    assert forall k | 0 <= k < |s| :: (s + t)[k] == s[k];
    assert (s + t)[|s|] == t[0];
  }

  /** White space begun in s does not go on in text that starts with a solid byte. */
  lemma {:induction false} LeadingSpaceKeeps(s: string, t: string)
    requires t != "" && Solid(t[0])
    ensures LeadingSpace(s + t) == LeadingSpace(s)
    decreases |s|
  {
    if s == "" {
      assert s + t == t;
    } else {
      FirstSpaceKeeps(s, t);
      var n := FirstSpace(s);
      if n > 0 {
        assert (s + t)[n..] == s[n..] + t;
        LeadingSpaceKeeps(s[n..], t);
      }
    }
  }

  lemma LastSpaceKeeps(s: string, t: string)
    requires s != "" && Solid(s[|s| - 1])
    ensures LastSpace(s + t) == LastSpace(t)
  {
    var u, e, d := s + t, |s + t|, |t|;
    assert d >= 1 ==> u[e - 1] == t[d - 1];
    assert d >= 2 ==> u[e - 2] == t[d - 2];
    assert d >= 3 ==> u[e - 3] == t[d - 3];
    assert d == 0 ==> u[e - 1] == s[|s| - 1];
    assert d == 1 ==> u[e - 2] == s[|s| - 1];
    assert d == 2 ==> u[e - 3] == s[|s| - 1];
  }

  /** Nor does it reach back into text that ends with one. */
  lemma {:induction false} TrimRightKeeps(s: string, t: string)
    requires s != "" && Solid(s[|s| - 1])
    ensures TrimRight(s + t) == s + TrimRight(t)
    decreases |t|
  {
    LastSpaceKeeps(s, t);
    var n := LastSpace(t);
    if n > 0 {
      assert (s + t)[..|s + t| - n] == s + t[..|t| - n];
      TrimRightKeeps(s, t[..|t| - n]);
    }
  }

  /** Trimming a text takes white space from before and after a part of it that has none at its ends. */
  lemma TrimAround(pre: string, p: string, post: string)
    requires p != "" && Solid(p[0]) && Solid(p[|p| - 1])
    ensures TrimSpace(pre + p + post) == pre[LeadingSpace(pre)..] + p + TrimRight(post)
  {
    var n, all := LeadingSpace(pre), pre + p + post;
    assert all == pre + (p + post) && (p + post)[0] == p[0];
    LeadingSpaceKeeps(pre, p + post);
    assert all[n..] == (pre[n..] + p) + post;
    assert (pre[n..] + p)[|pre[n..] + p| - 1] == p[|p| - 1];
    TrimRightKeeps(pre[n..] + p, post);
  }

  lemma {:induction false} BlankIsSpace(s: string)
    ensures Leading(s, Blank) <= LeadingSpace(s)
    decreases |s|
  {
    if s != "" && Blank(s[0]) {
      BlankIsSpace(s[1..]);
    }
  }

  // ---------------------------------------------------------------- the same by code points

  /** Unicode's white space. */
  predicate White(cp: nat) {
    || 9 <= cp <= 13 || cp == 32 || cp == 0x85 || cp == 0xA0 || cp == 0x1680 || 0x2000 <= cp <= 0x200A
    || cp == 0x2028 || cp == 0x2029 || cp == 0x202F || cp == 0x205F || cp == 0x3000
  }

  function AsByte(n: nat): char
    requires n < 256
  {
    n as char
  }

  /** A code point as bytes. */
  function Utf8(cp: nat): string
    requires cp < 0x11_0000
  {
    if cp < 0x80 then [AsByte(cp)]
    else if cp < 0x800 then [AsByte(0xC0 + cp / 64), AsByte(0x80 + cp % 64)]
    else if cp < 0x1_0000 then [AsByte(0xE0 + cp / 4096), AsByte(0x80 + cp / 64 % 64), AsByte(0x80 + cp % 64)]
    else [AsByte(0xF0 + cp / 262144), AsByte(0x80 + cp / 4096 % 64), AsByte(0x80 + cp / 64 % 64),
          AsByte(0x80 + cp % 64)]
  }

  lemma TwoBytesWhite(cp: nat, a: nat, b: nat)
    requires cp == 64 * a + b && 2 <= a < 32 && b < 64
    ensures TwoByteSpace(AsByte(0xC0 + a), AsByte(0x80 + b)) <==> White(cp)
  {
  }

  lemma ThreeBytesWhite(cp: nat, a: nat, b: nat, c: nat)
    requires cp == 4096 * a + 64 * b + c && a < 16 && b < 64 && c < 64 && cp >= 0x800
    ensures ThreeByteSpace(AsByte(0xE0 + a), AsByte(0x80 + b), AsByte(0x80 + c)) <==> White(cp)
  {
  }

  lemma InBytes(cp: nat)
    ensures cp == 64 * (cp / 64) + cp % 64
    ensures cp / 64 == 64 * (cp / 4096) + cp / 64 % 64
  {
    assert cp / 64 / 64 == cp / 4096;
  }

  /** A text's first character is taken as white space exactly when its code point is. */
  lemma FirstIsWhite(cp: nat, t: string)
    requires cp < 0x11_0000
    ensures FirstSpace(Utf8(cp) + t) == if White(cp) then |Utf8(cp)| else 0
  {
    var u := Utf8(cp);
    var s := u + t;
    assert forall k | 0 <= k < |u| :: s[k] == u[k];
    InBytes(cp);
    if cp < 0x80 {
      assert !TwoByteSpace(s[0], 'x');
    } else if cp < 0x800 {
      TwoBytesWhite(cp, cp / 64, cp % 64);
    } else if cp < 0x1_0000 {
      ThreeBytesWhite(cp, cp / 4096, cp / 64 % 64, cp % 64);
    }
  }

  /** And so its last. */
  lemma LastIsWhite(t: string, cp: nat)
    requires cp < 0x11_0000
    ensures LastSpace(t + Utf8(cp)) == if White(cp) then |Utf8(cp)| else 0
  {
    var u := Utf8(cp);
    var s, e := t + u, |t + u|;
    assert forall k | 0 <= k < |u| :: s[|t| + k] == u[k];
    InBytes(cp);
    if cp < 0x80 {
      assert s[e - 1] == u[0];
    } else if cp < 0x800 {
      TwoBytesWhite(cp, cp / 64, cp % 64);
      assert s[e - 1] == u[1] && s[e - 2] == u[0];
    } else if cp < 0x1_0000 {
      ThreeBytesWhite(cp, cp / 4096, cp / 64 % 64, cp % 64);
      assert s[e - 1] == u[2] && s[e - 2] == u[1] && s[e - 3] == u[0];
    } else {
      assert s[e - 1] == u[3] && s[e - 2] == u[2] && s[e - 3] == u[1];
    }
  }

  /** White space at either end is trimmed and nothing else is. */
  lemma WhiteIsTrimmed(cp: nat, s: string)
    requires cp < 0x11_0000
    ensures LeadingSpace(Utf8(cp) + s) == if White(cp) then |Utf8(cp)| + LeadingSpace(s) else 0
    ensures TrimRight(s + Utf8(cp)) == if White(cp) then TrimRight(s) else s + Utf8(cp)
  {
    FirstIsWhite(cp, s);
    LastIsWhite(s, cp);
    assert (Utf8(cp) + s)[|Utf8(cp)|..] == s;
    assert (s + Utf8(cp))[..|s|] == s;
  }
}
