/** What each operator does, by its own name and then by its own spelling: every statement is about tokens or
    text and the field of `Arith` that the operator stands for. */
module CalcOperations {
  import opened Wrappers
  import opened CalcGrammar
  import opened CalcParser

  // ---------------------------------------------------------------- on tokens

  function Parens<F>(x: seq<Token<F>>): seq<Token<F>> { [LParen] + x + [RParen] }

  /** x is one number, or an expression in parentheses, and stands for a. */
  ghost predicate StandsFor<F(!new)>(ar: Arith<F>, x: seq<Token<F>>, a: F) {
    || (|x| == 1 && x[0].Num? && x[0].value == a)
    || (exists inner :: InParens(ar, x, inner, a))
  }

  ghost predicate InParens<F(!new)>(ar: Arith<F>, x: seq<Token<F>>, inner: seq<Token<F>>, a: F) {
    x == Parens(inner) && Evaluates(ar, inner, a)
  }

  ghost predicate IsAtom<F>(ar: Arith<F>, e: Expr<F>, x: seq<Token<F>>, a: F) {
    (e.Lit? || e.Group?) && Fits(e, ATOM) && Flatten(e) == x && Computable(ar, e) && Value(ar, e) == a
  }

  lemma OperandTree<F(!new)>(ar: Arith<F>, x: seq<Token<F>>, a: F) returns (e: Expr<F>)
    requires StandsFor(ar, x, a)
    ensures IsAtom(ar, e, x, a)
  {
    if |x| == 1 && x[0].Num? && x[0].value == a {
      e := Lit(a, x[0].text, x[0].pos);
      assert x == [x[0]];
    } else {
      var inner :| InParens(ar, x, inner, a);
      var t: Expr<F> :| Denotes(ar, t, inner, a);
      e := Group(t);
    }
  }

  lemma Alone<F(!new)>(ar: Arith<F>, x: seq<Token<F>>, a: F, v: F)
    requires StandsFor(ar, x, a)
    ensures Evaluates(ar, x, v) <==> ar.finite(v) && v == a
  {
    var e := OperandTree(ar, x, a);
    TreeDecides(ar, e, x, v);
  }

  lemma Signs<F(!new)>(ar: Arith<F>, x: seq<Token<F>>, a: F, v: F)
    requires StandsFor(ar, x, a)
    ensures Evaluates(ar, [Op(Minus)] + x, v) <==> ar.finite(v) && v == ar.neg(a)
    ensures Evaluates(ar, [Op(Plus)] + x, v) <==> ar.finite(v) && v == a
  {
    var e := OperandTree(ar, x, a);
    TreeDecides(ar, Sign(Minus, e), [Op(Minus)] + x, v);
    TreeDecides(ar, Sign(Plus, e), [Op(Plus)] + x, v);
  }

  lemma Sums<F(!new)>(ar: Arith<F>, x: seq<Token<F>>, y: seq<Token<F>>, a: F, b: F, v: F)
    requires StandsFor(ar, x, a) && StandsFor(ar, y, b)
    ensures Evaluates(ar, x + [Op(Plus)] + y, v) <==> ar.finite(v) && v == ar.add(a, b)
  {
    var l := OperandTree(ar, x, a);
    var r := OperandTree(ar, y, b);
    TreeDecides(ar, Bin(Plus, l, r), x + [Op(Plus)] + y, v);
  }

  lemma Differences<F(!new)>(ar: Arith<F>, x: seq<Token<F>>, y: seq<Token<F>>, a: F, b: F, v: F)
    requires StandsFor(ar, x, a) && StandsFor(ar, y, b)
    ensures Evaluates(ar, x + [Op(Minus)] + y, v) <==> ar.finite(v) && v == ar.sub(a, b)
  {
    var l := OperandTree(ar, x, a);
    var r := OperandTree(ar, y, b);
    TreeDecides(ar, Bin(Minus, l, r), x + [Op(Minus)] + y, v);
  }

  lemma Products<F(!new)>(ar: Arith<F>, x: seq<Token<F>>, y: seq<Token<F>>, a: F, b: F, v: F)
    requires StandsFor(ar, x, a) && StandsFor(ar, y, b)
    ensures Evaluates(ar, x + [Op(Times)] + y, v) <==> ar.finite(v) && v == ar.mul(a, b)
  {
    var l := OperandTree(ar, x, a);
    var r := OperandTree(ar, y, b);
    TreeDecides(ar, Bin(Times, l, r), x + [Op(Times)] + y, v);
  }

  lemma Quotients<F(!new)>(ar: Arith<F>, x: seq<Token<F>>, y: seq<Token<F>>, a: F, b: F, v: F)
    requires StandsFor(ar, x, a) && StandsFor(ar, y, b)
    ensures Evaluates(ar, x + [Op(Over)] + y, v) <==> !ar.zero(b) && ar.finite(v) && v == ar.div(a, b)
  {
    var l := OperandTree(ar, x, a);
    var r := OperandTree(ar, y, b);
    TreeDecides(ar, Bin(Over, l, r), x + [Op(Over)] + y, v);
  }

  lemma Powers<F(!new)>(ar: Arith<F>, x: seq<Token<F>>, y: seq<Token<F>>, a: F, b: F, v: F)
    requires StandsFor(ar, x, a) && StandsFor(ar, y, b)
    ensures Evaluates(ar, x + [Op(Power)] + y, v) <==>
            && ar.finite(a) && ar.finite(b)
            && !ar.beyond(b, 100)
            && (ar.negative(a) ==> ar.whole(b))
            && !(ar.zero(a) && ar.negative(b))
            && ar.finite(v) && v == ar.pow(a, b)
  {
    var l := OperandTree(ar, x, a);
    var r := OperandTree(ar, y, b);
    TreeDecides(ar, Pow(l, r), x + [Op(Power)] + y, v);
  }

  // ---------------------------------------------------------------- and of two, which is done first

  function Tightness(op: Operator): nat { if Additive(op) then 0 else if Multiplicative(op) then 1 else 2 }

  function Joined<F>(op: Operator, l: Expr<F>, r: Expr<F>): Expr<F> {
    if op == Power then Pow(l, r) else Bin(op, l, r)
  }

  /** w read as a number. */
  function Result<F>(w: F): seq<Token<F>> { [Num(w, "", 0)] }

  lemma JoinDecides<F(!new)>(ar: Arith<F>, op: Operator, l: Expr<F>, r: Expr<F>, x: seq<Token<F>>, y: seq<Token<F>>,
                             v: F)
    requires Flatten(l) == x && Flatten(r) == y && Fits(Joined(op, l, r), EXPR)
    ensures Evaluates(ar, x + [Op(op)] + y, v) <==>
            Computable(ar, Joined(op, l, r)) && ar.finite(v) && Value(ar, Joined(op, l, r)) == v
  {
    TreeDecides(ar, Joined(op, l, r), x + [Op(op)] + y, v);
  }

  lemma JoinedWorth<F>(ar: Arith<F>, op: Operator, l: Expr<F>, r: Expr<F>, a: F, b: F)
    requires Computable(ar, l) && Value(ar, l) == a && Computable(ar, r) && Value(ar, r) == b
    ensures Value(ar, Joined(op, l, r)) == Apply(ar, op, a, b)
    ensures Computable(ar, Joined(op, l, r))
            <==> (if op == Power then PowerDefined(ar, a, b) else op == Over ==> !ar.zero(b))
                 && ar.finite(Apply(ar, op, a, b))
  {
  }

  /** Only what a part comes to counts for the whole. */
  lemma SameWorth<F>(ar: Arith<F>, op: Operator, l: Expr<F>, r: Expr<F>, l': Expr<F>, r': Expr<F>)
    requires Computable(ar, l) && Computable(ar, l') && Value(ar, l) == Value(ar, l')
    requires Computable(ar, r) && Computable(ar, r') && Value(ar, r) == Value(ar, r')
    ensures Computable(ar, Joined(op, l, r)) <==> Computable(ar, Joined(op, l', r'))
    ensures Value(ar, Joined(op, l, r)) == Value(ar, Joined(op, l', r'))
  {
    JoinedWorth(ar, op, l, r, Value(ar, l), Value(ar, r));
    JoinedWorth(ar, op, l', r', Value(ar, l), Value(ar, r));
  }

  /** With what a part comes to in its place, the whole comes to the same. */
  lemma {:induction false} PartOnLeft<F(!new)>(ar: Arith<F>, op: Operator, part: Expr<F>, e: Expr<F>,
                                                  p: seq<Token<F>>, z: seq<Token<F>>, v: F)
    requires Flatten(part) == p && Flatten(e) == z && Computable(ar, e) && Fits(part, EXPR)
             && Fits(Joined(op, part, e), EXPR) && (forall w :: Fits(Joined(op, Lit(w, "", 0), e), EXPR))
             && (Computable(ar, part) ==> ar.finite(Value(ar, part)))
    ensures Evaluates(ar, p + [Op(op)] + z, v) <==>
            exists w :: Evaluates(ar, p, w) && Evaluates(ar, Result(w) + [Op(op)] + z, v)
  {
    JoinDecides(ar, op, part, e, p, z, v);
    forall w
      ensures Evaluates(ar, p, w) <==> Computable(ar, part) && ar.finite(w) && Value(ar, part) == w
      ensures Computable(ar, part) && Value(ar, part) == w ==>
                (Evaluates(ar, Result(w) + [Op(op)] + z, v) <==> Evaluates(ar, p + [Op(op)] + z, v))
    {
      TreeDecides(ar, part, p, w);
      JoinDecides(ar, op, Lit(w, "", 0), e, Result(w), z, v);
      if Computable(ar, part) && Value(ar, part) == w {
        SameWorth(ar, op, part, e, Lit(w, "", 0), e);
      }
    }
  }

  lemma {:induction false} PartOnRight<F(!new)>(ar: Arith<F>, op: Operator, e: Expr<F>, part: Expr<F>,
                                                   x: seq<Token<F>>, p: seq<Token<F>>, v: F)
    requires Flatten(e) == x && Flatten(part) == p && Computable(ar, e) && Fits(part, EXPR)
             && Fits(Joined(op, e, part), EXPR) && (forall w :: Fits(Joined(op, e, Lit(w, "", 0)), EXPR))
             && (Computable(ar, part) ==> ar.finite(Value(ar, part)))
    ensures Evaluates(ar, x + [Op(op)] + p, v) <==>
            exists w :: Evaluates(ar, p, w) && Evaluates(ar, x + [Op(op)] + Result(w), v)
  {
    JoinDecides(ar, op, e, part, x, p, v);
    forall w
      ensures Evaluates(ar, p, w) <==> Computable(ar, part) && ar.finite(w) && Value(ar, part) == w
      ensures Computable(ar, part) && Value(ar, part) == w ==>
                (Evaluates(ar, x + [Op(op)] + Result(w), v) <==> Evaluates(ar, x + [Op(op)] + p, v))
    {
      TreeDecides(ar, part, p, w);
      JoinDecides(ar, op, e, Lit(w, "", 0), x, Result(w), v);
      if Computable(ar, part) && Value(ar, part) == w {
        SameWorth(ar, op, e, part, e, Lit(w, "", 0));
      }
    }
  }

  predicate Atomic<F>(e: Expr<F>) { e.Lit? || (e.Group? && Fits(e, ATOM)) }

  lemma LeftFits<F>(op1: Operator, op2: Operator, l: Expr<F>, r: Expr<F>, s: Expr<F>)
    requires Atomic(l) && Atomic(r) && Atomic(s) && Tightness(op1) >= Tightness(op2) && op2 != Power
    ensures Fits(Joined(op1, l, r), EXPR) && Fits(Joined(op2, Joined(op1, l, r), s), EXPR)
    ensures forall w :: Fits(Joined(op2, Lit(w, "", 0), s), EXPR)
  {
  }

  /** Of two operators that bind equally, except powers, or the first of which binds tighter, the first is
      done first; what it comes to must be finite. */
  lemma LeftFirst<F(!new)>(ar: Arith<F>, x: seq<Token<F>>, y: seq<Token<F>>, z: seq<Token<F>>, a: F, b: F, c: F,
                           op1: Operator, op2: Operator, v: F)
    requires StandsFor(ar, x, a) && StandsFor(ar, y, b) && StandsFor(ar, z, c)
    requires Tightness(op1) >= Tightness(op2) && op2 != Power
    ensures Evaluates(ar, x + [Op(op1)] + y + [Op(op2)] + z, v) <==>
            exists w :: Evaluates(ar, x + [Op(op1)] + y, w) && Evaluates(ar, Result(w) + [Op(op2)] + z, v)
  {
    var l := OperandTree(ar, x, a);
    var r := OperandTree(ar, y, b);
    var s := OperandTree(ar, z, c);
    LeftFits(op1, op2, l, r, s);
    PartOnLeft(ar, op2, Joined(op1, l, r), s, x + [Op(op1)] + y, z, v);
  }

  /** Of two powers, or two operators the second of which binds tighter, the second is done first. */
  lemma RightFirst<F(!new)>(ar: Arith<F>, x: seq<Token<F>>, y: seq<Token<F>>, z: seq<Token<F>>, a: F, b: F, c: F,
                            op1: Operator, op2: Operator, v: F)
    requires StandsFor(ar, x, a) && StandsFor(ar, y, b) && StandsFor(ar, z, c)
    requires Tightness(op1) < Tightness(op2) || op1 == Power == op2
    ensures Evaluates(ar, x + [Op(op1)] + (y + [Op(op2)] + z), v) <==>
            exists w :: Evaluates(ar, y + [Op(op2)] + z, w) && Evaluates(ar, x + [Op(op1)] + Result(w), v)
  {
    var l := OperandTree(ar, x, a);
    var r := OperandTree(ar, y, b);
    var s := OperandTree(ar, z, c);
    PartOnRight(ar, op1, l, Joined(op2, r, s), x, y + [Op(op2)] + z, v);
  }

  /** A power is done before a sign on its left. */
  lemma PowerBeforeSign<F(!new)>(ar: Arith<F>, x: seq<Token<F>>, y: seq<Token<F>>, a: F, b: F, v: F)
    requires StandsFor(ar, x, a) && StandsFor(ar, y, b)
    ensures Evaluates(ar, [Op(Minus)] + (x + [Op(Power)] + y), v) <==>
            exists w :: Evaluates(ar, x + [Op(Power)] + y, w) && Evaluates(ar, [Op(Minus)] + Result(w), v)
  {
    var l := OperandTree(ar, x, a);
    var r := OperandTree(ar, y, b);
    TreeDecides(ar, Sign(Minus, Pow(l, r)), [Op(Minus)] + (x + [Op(Power)] + y), v);
    forall w
      ensures Evaluates(ar, x + [Op(Power)] + y, w) <==>
              Computable(ar, Pow(l, r)) && ar.finite(w) && Value(ar, Pow(l, r)) == w
      ensures Evaluates(ar, [Op(Minus)] + Result(w), v) <==> ar.finite(v) && v == ar.neg(w)
    {
      JoinDecides(ar, Power, l, r, x, y, w);
      Signs(ar, Result(w), w, v);
    }
  }
}
