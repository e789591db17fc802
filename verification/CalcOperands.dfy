/** pkg/calc's list of the numbers an expression uses. It reads the signs off the token list without
    parsing; the lemmas show that it reads exactly the signs the grammar's `unary` consumes. */
module CalcOperands {
  import opened Sequences
  import opened CalcGrammar

  datatype Operand<+F> = Operand(text: string, value: F, pos: nat)

  /** toks[i] is a sign on what follows it: it opens the list or follows an operator or a "(". */
  predicate UnarySign<F>(toks: seq<Token<F>>, i: int)
    requires i < |toks|
  {
    && 0 <= i && toks[i].Op? && Additive(toks[i].op)
    && Opens(toks, i)
  }

  /** An operand may begin at position i. */
  predicate Opens<F>(toks: seq<Token<F>>, i: nat)
    requires i <= |toks|
  {
    i == 0 || toks[i - 1].Op? || toks[i - 1].LParen?
  }

  /** The unbroken run of unary signs that ends just before position i. */
  function SignRun<F>(toks: seq<Token<F>>, i: nat): seq<Operator>
    requires i <= |toks|
  {
    if UnarySign(toks, i - 1) then SignRun(toks, i - 1) + [toks[i - 1].op] else []
  }

  function RunText(run: seq<Operator>): string {
    if run == [] then "" else (if run[0] == Minus then "-" else "+") + RunText(run[1..])
  }

  /** Signs applied from the one nearest the number outwards. */
  function SignAll<F>(ar: Arith<F>, run: seq<Operator>, v: F): F {
    if run == [] then v else SignAll(ar, run[..|run| - 1], Signed(ar, run[|run| - 1], v))
  }

  function SignedOperand<F>(ar: Arith<F>, run: seq<Operator>, v: F, text: string, pos: nat): Operand<F> {
    Operand(RunText(run) + text, SignAll(ar, run, v), pos)
  }

  /** The operand that toks[i] is, under the signs directly before it. */
  function OperandAt<F>(ar: Arith<F>, toks: seq<Token<F>>, i: nat): Operand<F>
    requires i < |toks| && toks[i].Num?
  {
    SignedOperand(ar, SignRun(toks, i), toks[i].value, toks[i].text, toks[i].pos)
  }

  /** One operand for each number among the first n tokens, in order. */
  function OperandsIn<F>(ar: Arith<F>, toks: seq<Token<F>>, n: nat): seq<Operand<F>>
    requires n <= |toks|
  {
    if n == 0 then []
    else if toks[n - 1].Num? then OperandsIn(ar, toks, n - 1) + [OperandAt(ar, toks, n - 1)]
    else OperandsIn(ar, toks, n - 1)
  }

  lemma {:induction false} RunTextSnoc(a: seq<Operator>, op: Operator)
    ensures RunText(a + [op]) == RunText(a) + RunText([op])
  {
    if a != [] {
      assert (a + [op])[1..] == a[1..] + [op];
      RunTextSnoc(a[1..], op);
    } else {
      assert [] + [op] == [op] && [op][1..] == [];
    }
  }

  /** A step of the inner loop: the sign at j moves from the run still to be read to what was read. */
  lemma RunStep<F>(ar: Arith<F>, toks: seq<Token<F>>, j: nat, text: string, v: F)
    requires j < |toks| && UnarySign(toks, j)
    ensures RunText(SignRun(toks, j)) + ((if toks[j].op == Minus then "-" else "+") + text)
            == RunText(SignRun(toks, j + 1)) + text
    ensures SignAll(ar, SignRun(toks, j), Signed(ar, toks[j].op, v)) == SignAll(ar, SignRun(toks, j + 1), v)
  {
    var run := SignRun(toks, j);
    assert SignRun(toks, j + 1) == run + [toks[j].op];
    RunTextSnoc(run, toks[j].op);
    assert (run + [toks[j].op])[..|run|] == run;
    assert RunText([toks[j].op]) == (if toks[j].op == Minus then "-" else "+") + RunText([]);
  }

  method ReadOperand<F>(ar: Arith<F>, toks: seq<Token<F>>, i: nat) returns (o: Operand<F>)
    requires i < |toks| && toks[i].Num?
    ensures o == OperandAt(ar, toks, i)
  {
    var text, value := toks[i].text, toks[i].value;
    var j := i - 1;
    while UnarySign(toks, j)
      invariant -1 <= j < i
      invariant RunText(SignRun(toks, j + 1)) + text == RunText(SignRun(toks, i)) + toks[i].text
      invariant SignAll(ar, SignRun(toks, j + 1), value) == SignAll(ar, SignRun(toks, i), toks[i].value)
      decreases j
    {
      RunStep(ar, toks, j, text, value);
      text := (if toks[j].op == Minus then "-" else "+") + text;
      value := if toks[j].op == Minus then ar.neg(value) else value;
      j := j - 1;
    }
    assert SignRun(toks, j + 1) == [] && RunText([]) + text == text;
    o := Operand(text, value, toks[i].pos);
  }

  method Operands<F>(ar: Arith<F>, toks: seq<Token<F>>) returns (out: seq<Operand<F>>)
    ensures out == OperandsIn(ar, toks, |toks|)
  {
    out := [];
    for i := 0 to |toks|
      invariant out == OperandsIn(ar, toks, i)
    {
      if toks[i].Num? {
        var o := ReadOperand(ar, toks, i);
        out := out + [o];
      }
    }
  }

  // ---------------------------------------------------------------- the signs `unary` consumes

  /** For each token of a tree, whether the rule `unary` consumed it as a sign. */
  function Marks<F>(e: Expr<F>): (m: seq<bool>)
    ensures |m| == |Flatten(e)|
  {
    match e
    case Lit(_, _, _) => [false]
    case Group(x) => [false] + Marks(x) + [false]
    case Sign(_, x) => [true] + Marks(x)
    case Pow(b, x) => Marks(b) + [false] + Marks(x)
    case Bin(_, l, r) => Marks(l) + [false] + Marks(r)
  }

  /** The operands of a tree: each literal under the signs of the tree directly above it, `run` being
      those met on the way down; a parenthesis or an operator ends the run. */
  function TreeOperands<F>(ar: Arith<F>, e: Expr<F>, run: seq<Operator>): seq<Operand<F>> {
    match e
    case Lit(v, text, pos) => [SignedOperand(ar, run, v, text, pos)]
    case Group(x) => TreeOperands(ar, x, [])
    case Sign(op, x) => TreeOperands(ar, x, run + [op])
    case Pow(b, x) => TreeOperands(ar, b, run) + TreeOperands(ar, x, [])
    case Bin(_, l, r) => TreeOperands(ar, l, run) + TreeOperands(ar, r, [])
  }

  // The same two readings made left to right: `opens` says that an operand may begin here, `run` holds
  // the unary signs directly before.

  function Flags<F>(opens: bool, s: seq<Token<F>>): (m: seq<bool>)
    ensures |m| == |s|
    decreases |s|
  {
    if s == [] then []
    else [opens && s[0].Op? && Additive(s[0].op)] + Flags(s[0].Op? || s[0].LParen?, s[1..])
  }

  function Scan<F>(ar: Arith<F>, opens: bool, run: seq<Operator>, s: seq<Token<F>>): seq<Operand<F>>
    decreases |s|
  {
    if s == [] then []
    else match s[0]
      case Num(v, text, pos) => [SignedOperand(ar, run, v, text, pos)] + Scan(ar, false, [], s[1..])
      case Op(op) => Scan(ar, true, if opens && Additive(op) then run + [op] else [], s[1..])
      case LParen => Scan(ar, true, [], s[1..])
      case RParen => Scan(ar, false, [], s[1..])
  }

  lemma {:induction false} FlagsOfTree<F>(e: Expr<F>, rank: nat, s: seq<Token<F>>)
    requires Fits(e, rank)
    ensures Flags(true, Flatten(e) + s) == Marks(e) + Flags(false, s)
    decreases |Flatten(e)|, 1
  {
    var t := Flatten(e) + s;
    match e
    case Lit(_, _, _) =>
      assert t[1..] == s;
    case Group(x) => FlagsOfGroup(x, s);
    case Sign(op, x) => FlagsOfSign(op, x, s);
    case Pow(b, x) =>
      FlagsOfPair(b, ATOM, Power, x, UNARY, s);
    case Bin(op, l, r) =>
      FlagsOfPair(l, if Additive(op) then EXPR else TERM, op, r, if Additive(op) then TERM else UNARY, s);
  }

  lemma {:induction false} FlagsOfSign<F>(op: Operator, x: Expr<F>, s: seq<Token<F>>)
    requires Additive(op) && Fits(x, UNARY)
    ensures Flags(true, Flatten(Sign(op, x)) + s) == Marks(Sign(op, x)) + Flags(false, s)
    decreases |Flatten(x)| + 1, 0
  {
    var t := Flatten(Sign(op, x)) + s;
    assert t[0] == Op(op) && t[1..] == Flatten(x) + s;
    FlagsOfTree(x, UNARY, s);
    ConcatAssociates([true], Marks(x), Flags(false, s));
  }

  lemma {:induction false} FlagsOfGroup<F>(x: Expr<F>, s: seq<Token<F>>)
    requires Fits(x, EXPR)
    ensures Flags(true, Flatten(Group(x)) + s) == Marks(Group(x)) + Flags(false, s)
    decreases |Flatten(x)| + 2, 0
  {
    var rest := [RParen] + s;
    assert ([LParen] + (Flatten(x) + rest))[1..] == Flatten(x) + rest;
    FlagsOfTree(x, EXPR, rest);
    assert rest[1..] == s;
    ConcatFour([LParen], Flatten(x), [RParen], s);
    ConcatFour([false], Marks(x), [false], Flags(false, s));
  }

  lemma {:induction false} FlagsOfPair<F>(l: Expr<F>, i: nat, op: Operator, r: Expr<F>, j: nat, s: seq<Token<F>>)
    requires Fits(l, i) && Fits(r, j)
    ensures Flags(true, Flatten(l) + [Op(op)] + Flatten(r) + s) == Marks(l) + [false] + Marks(r) + Flags(false, s)
    decreases |Flatten(l)| + |Flatten(r)| + 1, 0
  {
    var rest := [Op(op)] + (Flatten(r) + s);
    FlagsOfTree(l, i, rest);
    assert rest[1..] == Flatten(r) + s;
    FlagsOfTree(r, j, s);
    ConcatFour(Flatten(l), [Op(op)], Flatten(r), s);
    ConcatFour(Marks(l), [false], Marks(r), Flags(false, s));
  }

  lemma {:induction false} ScanOfTree<F>(ar: Arith<F>, e: Expr<F>, rank: nat, run: seq<Operator>, s: seq<Token<F>>)
    requires Fits(e, rank)
    ensures Scan(ar, true, run, Flatten(e) + s) == TreeOperands(ar, e, run) + Scan(ar, false, [], s)
    decreases |Flatten(e)|, 1
  {
    var t := Flatten(e) + s;
    match e
    case Lit(_, _, _) =>
      assert t[1..] == s;
    case Group(x) =>
      ScanOfGroup(ar, x, run, s);
      ConcatFour([LParen], Flatten(x), [RParen], s);
    case Sign(op, x) =>
      assert t[1..] == Flatten(x) + s;
      ScanOfTree(ar, x, UNARY, run + [op], s);
    case Pow(b, x) =>
      ScanOfPair(ar, b, ATOM, run, Power, x, UNARY, s);
      ConcatFour(Flatten(b), [Op(Power)], Flatten(x), s);
    case Bin(op, l, r) =>
      ScanOfPair(ar, l, if Additive(op) then EXPR else TERM, run, op, r, if Additive(op) then TERM else UNARY, s);
      ConcatFour(Flatten(l), [Op(op)], Flatten(r), s);
  }

  lemma {:induction false} ScanOfGroup<F>(ar: Arith<F>, x: Expr<F>, run: seq<Operator>, s: seq<Token<F>>)
    requires Fits(x, EXPR)
    ensures Scan(ar, true, run, [LParen] + (Flatten(x) + ([RParen] + s)))
            == TreeOperands(ar, x, []) + Scan(ar, false, [], s)
    decreases |Flatten(x)| + 2, 0
  {
    var rest := [RParen] + s;
    assert ([LParen] + (Flatten(x) + rest))[1..] == Flatten(x) + rest;
    ScanOfTree(ar, x, EXPR, [], rest);
    assert rest[1..] == s;
  }

  lemma {:induction false} ScanOfPair<F>(ar: Arith<F>, l: Expr<F>, i: nat, run: seq<Operator>, op: Operator,
                                         r: Expr<F>, j: nat,
                                         s: seq<Token<F>>)
    requires Fits(l, i) && Fits(r, j)
    ensures Scan(ar, true, run, Flatten(l) + ([Op(op)] + (Flatten(r) + s)))
            == TreeOperands(ar, l, run) + (TreeOperands(ar, r, []) + Scan(ar, false, [], s))
    decreases |Flatten(l)| + |Flatten(r)| + 1, 0
  {
    var rest := [Op(op)] + (Flatten(r) + s);
    ScanOfTree(ar, l, i, run, rest);
    assert rest[1..] == Flatten(r) + s;
    ScanOfTree(ar, r, j, [], s);
  }

  lemma {:induction false} FlagsAreUnarySigns<F>(toks: seq<Token<F>>, i: nat)
    requires i <= |toks|
    ensures forall k | i <= k < |toks| :: Flags(Opens(toks, i), toks[i..])[k - i] <==> UnarySign(toks, k)
    decreases |toks| - i
  {
    if i < |toks| {
      FlagsAreUnarySigns(toks, i + 1);
      assert toks[i..][1..] == toks[i + 1..];
    }
  }

  lemma {:induction false} ScanIsOperands<F>(ar: Arith<F>, toks: seq<Token<F>>, i: nat)
    requires i <= |toks|
    ensures OperandsIn(ar, toks, |toks|)
            == OperandsIn(ar, toks, i) + Scan(ar, Opens(toks, i), SignRun(toks, i), toks[i..])
    decreases |toks| - i
  {
    if i < |toks| {
      ScanIsOperands(ar, toks, i + 1);
      assert toks[i..][0] == toks[i] && toks[i..][1..] == toks[i + 1..];
    }
  }

  /** On every token list the parser accepts: the signs `unary` consumed are those UnarySign marks, and
      the operands reported are the literals of the tree under their own signs. */
  lemma OperandsAreTheTrees<F>(ar: Arith<F>, e: Expr<F>)
    requires Fits(e, EXPR)
    ensures forall k | 0 <= k < |Flatten(e)| :: UnarySign(Flatten(e), k) <==> Marks(e)[k]
    ensures OperandsIn(ar, Flatten(e), |Flatten(e)|) == TreeOperands(ar, e, [])
  {
    var toks := Flatten(e);
    assert toks[0..] == toks && toks + [] == toks;
    FlagsOfTree(e, EXPR, []);
    FlagsAreUnarySigns(toks, 0);
    assert forall k | 0 <= k < |toks| :: Flags(true, toks)[k - 0] == Marks(e)[k];
    ScanOfTree(ar, e, EXPR, [], []);
    ScanIsOperands(ar, toks, 0);
  }

  function Minuses(run: seq<Operator>): nat {
    if run == [] then 0 else Minuses(run[..|run| - 1]) + if run[|run| - 1] == Minus then 1 else 0
  }

  /** Where negating twice is the identity, only the parity of the minus signs counts. */
  lemma {:induction false} SignsByParity<F(!new)>(ar: Arith<F>, run: seq<Operator>, v: F)
    requires forall x :: ar.neg(ar.neg(x)) == x
    ensures SignAll(ar, run, v) == if Minuses(run) % 2 == 0 then v else ar.neg(v)
    decreases |run|
  {
    if run != [] {
      SignsByParity(ar, run[..|run| - 1], Signed(ar, run[|run| - 1], v));
    }
  }

  // ---------------------------------------------------------------- what an operand says

  function NegatedTimes<F>(ar: Arith<F>, n: nat, v: F): F { if n == 0 then v else ar.neg(NegatedTimes(ar, n - 1, v)) }

  /** The minus signs among the tokens from j on and before i. */
  function MinusesFrom<F>(toks: seq<Token<F>>, j: nat, i: nat): nat
    requires j <= i <= |toks|
    decreases i - j
  {
    if j == i then 0 else MinusesFrom(toks, j, i - 1) + if toks[i - 1] == Op(Minus) then 1 else 0
  }

  /** An operand is its number under the longest run of unary signs that ends before it: the run's bytes and
      then the number's as typed, the number's value negated once for each minus sign, and the number's
      place. */
  lemma OperandSays<F>(ar: Arith<F>, toks: seq<Token<F>>, i: nat) returns (j: nat)
    requires i < |toks| && toks[i].Num?
    ensures j <= i && (forall k | j <= k < i :: UnarySign(toks, k)) && !UnarySign(toks, j - 1)
    ensures var o := OperandAt(ar, toks, i);
            && o.pos == toks[i].pos && o.value == NegatedTimes(ar, MinusesFrom(toks, j, i), toks[i].value)
            && |o.text| == (i - j) + |toks[i].text| && o.text[i - j..] == toks[i].text
            && forall k | j <= k < i :: o.text[k - j] == if toks[k] == Op(Minus) then '-' else '+'
  {
    j := RunIs(toks, i);
    var run := SignRun(toks, i);
    RunSpelled(run);
    SignedTimes(ar, toks, j, i, toks[i].value);
    assert forall k | j <= k < i :: Op(run[k - j]) == toks[k];
  }

  lemma {:induction false} RunIs<F>(toks: seq<Token<F>>, i: nat) returns (j: nat)
    requires i <= |toks|
    ensures j <= i && (forall k | j <= k < i :: UnarySign(toks, k)) && !UnarySign(toks, j - 1)
    ensures |SignRun(toks, i)| == i - j && forall k | j <= k < i :: Op(SignRun(toks, i)[k - j]) == toks[k]
    decreases i
  {
    if UnarySign(toks, i - 1) {
      j := RunIs(toks, i - 1);
    } else {
      j := i;
    }
  }

  lemma {:induction false} RunSpelled(run: seq<Operator>)
    ensures |RunText(run)| == |run|
    ensures forall k | 0 <= k < |run| :: RunText(run)[k] == if run[k] == Minus then '-' else '+'
    decreases |run|
  {
    if run != [] {
      RunSpelled(run[1..]);
    }
  }

  lemma {:induction false} SignedTimes<F>(ar: Arith<F>, toks: seq<Token<F>>, j: nat, i: nat, v: F)
    requires j <= i <= |toks| && (forall k | j <= k < i :: UnarySign(toks, k)) && !UnarySign(toks, j - 1)
    ensures SignAll(ar, SignRun(toks, i), v) == NegatedTimes(ar, MinusesFrom(toks, j, i), v)
    decreases i - j
  {
    if j < i {
      assert UnarySign(toks, i - 1);
      var run, op := SignRun(toks, i - 1), toks[i - 1].op;
      SignAllSnoc(ar, run, op, v);
      SignedTimes(ar, toks, j, i - 1, Signed(ar, op, v));
      NegatedInside(ar, MinusesFrom(toks, j, i - 1), v);
    }
  }

  lemma SignAllSnoc<F>(ar: Arith<F>, run: seq<Operator>, op: Operator, v: F)
    ensures SignAll(ar, run + [op], v) == SignAll(ar, run, Signed(ar, op, v))
  {
    assert (run + [op])[..|run|] == run;
  }

  lemma {:induction false} NegatedInside<F>(ar: Arith<F>, n: nat, v: F)
    ensures NegatedTimes(ar, n, ar.neg(v)) == NegatedTimes(ar, n + 1, v)
  {
    if n > 0 {
      NegatedInside(ar, n - 1, v);
    }
  }
}
