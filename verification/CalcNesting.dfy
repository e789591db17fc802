/** What one set-up's result does to the set-up around it, on tokens: a value is written in where its
    set-up stood, a failed set-up is left there in parentheses. */
module CalcNesting {
  import opened CalcGrammar
  import opened Wrappers
  import opened CalcParser

  // ---------------------------------------------------------------- an inner value

  predicate NumberAt<F>(s: seq<Token<F>>, i: nat) { i < |s| && s[i].Num? }

  function Infix<F>(l: Expr<F>, op: Operator, r: Expr<F>): seq<Token<F>> {
    Flatten(l) + [Op(op)] + Flatten(r)
  }

  /** `outer` with the number at token i replaced. */
  function Plug<F>(outer: Expr<F>, i: nat, num: Expr<F>): Expr<F>
    requires NumberAt(Flatten(outer), i)
    decreases |Flatten(outer)|, 0
  {
    match outer
    case Lit(_, _, _) => num
    case Group(x) => Group(Plug(x, i - 1, num))
    case Sign(op, x) => Sign(op, Plug(x, i - 1, num))
    case Pow(b, x) => var (b', x') := PlugPair(b, Power, x, i, num); Pow(b', x')
    case Bin(op, l, r) => var (l', r') := PlugPair(l, op, r, i, num); Bin(op, l', r')
  }

  /** The operands of an infix operator with the number at token i of the whole replaced. */
  function PlugPair<F>(l: Expr<F>, op: Operator, r: Expr<F>, i: nat, num: Expr<F>): (Expr<F>, Expr<F>)
    requires NumberAt(Infix(l, op, r), i)
    decreases |Flatten(l)| + |Flatten(r)|, 1
  {
    if i < |Flatten(l)| then (Plug(l, i, num), r) else (l, Plug(r, i - |Flatten(l)| - 1, num))
  }

  /** How a value is written back: its digits, behind a minus sign when it is negative. */
  predicate Written<F>(num: Expr<F>) {
    num.Lit? || (num.Sign? && num.op == Minus && num.operand.Lit?)
  }

  function Splice<T>(s: seq<T>, i: nat, mid: seq<T>): seq<T>
    requires i < |s|
  {
    s[..i] + mid + s[i + 1..]
  }

  lemma SpliceLeft<T>(a: seq<T>, b: seq<T>, i: nat, mid: seq<T>)
    requires i < |a|
    ensures Splice(a + b, i, mid) == Splice(a, i, mid) + b
  {
    assert (a + b)[i + 1..] == a[i + 1..] + b;
  }

  lemma SpliceRight<T>(a: seq<T>, b: seq<T>, i: nat, mid: seq<T>)
    requires |a| <= i < |a| + |b|
    ensures Splice(a + b, i, mid) == a + Splice(b, i - |a|, mid)
  {
    assert (a + b)[..i] == a + b[..i - |a|];
  }

  lemma SpliceMiddle<T>(first: T, s: seq<T>, last: T, i: nat, mid: seq<T>)
    requires 0 < i <= |s|
    ensures Splice([first] + s + [last], i, mid) == [first] + Splice(s, i - 1, mid) + [last]
  {
    SpliceLeft([first] + s, [last], i, mid);
    SpliceRight([first], s, i, mid);
  }

  lemma {:induction false} PlugFlattens<F>(e: Expr<F>, i: nat, num: Expr<F>)
    requires NumberAt(Flatten(e), i)
    ensures Flatten(Plug(e, i, num)) == Splice(Flatten(e), i, Flatten(num))
    decreases |Flatten(e)|, 0
  {
    match e
    case Lit(v, text, pos) => SpliceOnly(Num(v, text, pos), Flatten(num));
    case Group(x) =>
      GroupShifts(x, i);
      PlugFlattens(x, i - 1, num);
      GroupFlattens(x, i, num);
    case Sign(op, x) =>
      SignShifts(op, x, i);
      PlugFlattens(x, i - 1, num);
      SignFlattens(op, x, i, num);
    case Pow(b, x) => PairFlattens(b, Power, x, i, num);
    case Bin(op, l, r) => PairFlattens(l, op, r, i, num);
  }

  lemma SpliceOnly<T>(t: T, mid: seq<T>)
    ensures Splice([t], 0, mid) == mid
  {
  }

  lemma GroupShifts<F>(x: Expr<F>, i: nat)
    requires NumberAt(Flatten(Group(x)), i)
    ensures i > 0 && NumberAt(Flatten(x), i - 1)
  {
  }

  lemma GroupFlattens<F>(x: Expr<F>, i: nat, num: Expr<F>)
    requires i > 0 && NumberAt(Flatten(x), i - 1) && NumberAt(Flatten(Group(x)), i)
    requires Flatten(Plug(x, i - 1, num)) == Splice(Flatten(x), i - 1, Flatten(num))
    ensures Flatten(Plug(Group(x), i, num)) == Splice(Flatten(Group(x)), i, Flatten(num))
  {
    SpliceMiddle(LParen, Flatten(x), RParen, i, Flatten(num));
  }

  lemma SignShifts<F>(op: Operator, x: Expr<F>, i: nat)
    requires NumberAt(Flatten(Sign(op, x)), i)
    ensures i > 0 && NumberAt(Flatten(x), i - 1)
  {
  }

  lemma SignFlattens<F>(op: Operator, x: Expr<F>, i: nat, num: Expr<F>)
    requires i > 0 && NumberAt(Flatten(x), i - 1) && NumberAt(Flatten(Sign(op, x)), i)
    requires Flatten(Plug(x, i - 1, num)) == Splice(Flatten(x), i - 1, Flatten(num))
    ensures Flatten(Plug(Sign(op, x), i, num)) == Splice(Flatten(Sign(op, x)), i, Flatten(num))
  {
    SpliceRight([Op(op)], Flatten(x), i, Flatten(num));
  }

  lemma {:induction false} PairFlattens<F>(l: Expr<F>, op: Operator, r: Expr<F>, i: nat, num: Expr<F>)
    requires NumberAt(Infix(l, op, r), i)
    ensures Infix(PlugPair(l, op, r, i, num).0, op, PlugPair(l, op, r, i, num).1)
            == Splice(Infix(l, op, r), i, Flatten(num))
    decreases |Flatten(l)| + |Flatten(r)|, 1
  {
    if i < |Flatten(l)| {
      PlugFlattens(l, i, num);
      SpliceLeft(Flatten(l) + [Op(op)], Flatten(r), i, Flatten(num));
      SpliceLeft(Flatten(l), [Op(op)], i, Flatten(num));
    } else {
      PlugFlattens(r, i - |Flatten(l)| - 1, num);
      SpliceRight(Flatten(l) + [Op(op)], Flatten(r), i, Flatten(num));
    }
  }

  /** The number at token i is raised to a power. */
  predicate RaisedAt<F>(s: seq<Token<F>>, i: nat) {
    i + 1 < |s| && s[i + 1] == Op(Power)
  }

  /** Writing a value where a number stood keeps the tree's shape exactly when no sign lands under a
      power: a negative value may stand anywhere but as the base of one. */
  lemma {:induction false} PlugFits<F>(e: Expr<F>, rank: nat, i: nat, num: Expr<F>)
    requires Fits(e, rank) && NumberAt(Flatten(e), i) && Written(num)
    requires rank <= UNARY || e.Group?
    ensures Fits(Plug(e, i, num), rank) <==> num.Lit? || !RaisedAt(Flatten(e), i)
    decreases |Flatten(e)|, 0
  {
    match e
    case Lit(_, _, _) =>
    case Group(x) => PlugFits(x, EXPR, i - 1, num);
    case Sign(_, x) => PlugFits(x, UNARY, i - 1, num);
    case Pow(b, x) => PairFits(b, ATOM, Power, x, UNARY, i, num);
    case Bin(op, l, r) =>
      PairFits(l, if Additive(op) then EXPR else TERM, op, r, if Additive(op) then TERM else UNARY, i, num);
  }

  lemma {:induction false} PairFits<F>(l: Expr<F>, j: nat, op: Operator, r: Expr<F>, k: nat, i: nat, num: Expr<F>)
    requires Fits(l, j) && Fits(r, k) && NumberAt(Infix(l, op, r), i) && Written(num)
    requires if op == Power then j == ATOM else j <= UNARY
    requires k <= UNARY
    ensures Fits(PlugPair(l, op, r, i, num).0, j) && Fits(PlugPair(l, op, r, i, num).1, k)
            <==> num.Lit? || !RaisedAt(Infix(l, op, r), i)
    decreases |Flatten(l)| + |Flatten(r)|, 1
  {
    assert Infix(l, op, r)[|Flatten(l)|] == Op(op);
    if i < |Flatten(l)| {
      if !l.Lit? {
        PlugFits(l, j, i, num);
        LastIsNoOperator(l);
      }
    } else {
      PlugFits(r, k, i - |Flatten(l)| - 1, num);
    }
  }

  lemma {:induction false} LastIsNoOperator<F>(e: Expr<F>)
    ensures !Flatten(e)[|Flatten(e)| - 1].Op?
  {
    match e
    case Lit(_, _, _) =>
    case Group(_) =>
    case Sign(_, x) => LastIsNoOperator(x);
    case Pow(_, x) => LastIsNoOperator(x);
    case Bin(_, _, r) => LastIsNoOperator(r);
  }

  ghost predicate SameMeaning<F>(ar: Arith<F>, e: Expr<F>, e': Expr<F>) {
    Value(ar, e) == Value(ar, e') && Computable(ar, e) == Computable(ar, e')
  }

  lemma {:induction false} PlugMeans<F>(ar: Arith<F>, e: Expr<F>, i: nat, num: Expr<F>, num': Expr<F>)
    requires NumberAt(Flatten(e), i) && SameMeaning(ar, num, num')
    ensures SameMeaning(ar, Plug(e, i, num), Plug(e, i, num'))
    decreases |Flatten(e)|, 0
  {
    match e
    case Lit(_, _, _) =>
    case Group(x) => PlugMeans(ar, x, i - 1, num, num');
    case Sign(_, x) => PlugMeans(ar, x, i - 1, num, num');
    case Pow(b, x) => PairMeans(ar, b, Power, x, i, num, num');
    case Bin(op, l, r) => PairMeans(ar, l, op, r, i, num, num');
  }

  lemma {:induction false} PairMeans<F>(ar: Arith<F>, l: Expr<F>, op: Operator, r: Expr<F>, i: nat, num: Expr<F>,
                                        num': Expr<F>)
    requires NumberAt(Infix(l, op, r), i) && SameMeaning(ar, num, num')
    ensures SameMeaning(ar, PlugPair(l, op, r, i, num).0, PlugPair(l, op, r, i, num').0)
    ensures SameMeaning(ar, PlugPair(l, op, r, i, num).1, PlugPair(l, op, r, i, num').1)
    decreases |Flatten(l)| + |Flatten(r)|, 1
  {
    if i < |Flatten(l)| {
      PlugMeans(ar, l, i, num, num');
    } else {
      PlugMeans(ar, r, i - |Flatten(l)| - 1, num, num');
    }
  }

  /** An inner result feeds the set-up around it as its number would: wherever a number may stand, the
      tokens of a written value, unless it is negative and raised to a power, give the outer set-up the
      value of its tree with that value in that place, and an undefined step exactly where that tree
      has one. */
  lemma InnerValueFeedsOuter<F(!new)>(ar: Arith<F>, outer: Expr<F>, i: nat, num: Expr<F>, v: F)
    requires Fits(outer, EXPR) && NumberAt(Flatten(outer), i) && Written(num)
    requires num.Lit? || !RaisedAt(Flatten(outer), i)
    ensures var whole := Plug(outer, i, Lit(Value(ar, num), "", 0));
            Evaluates(ar, Splice(Flatten(outer), i, Flatten(num)), v) <==>
              Computable(ar, whole) && ar.finite(v) && Value(ar, whole) == v
  {
    var written, toks := Plug(outer, i, num), Splice(Flatten(outer), i, Flatten(num));
    PlugFlattens(outer, i, num);
    PlugFits(outer, EXPR, i, num);
    PlugMeans(ar, outer, i, num, Lit(Value(ar, num), "", 0));
    if Evaluates(ar, toks, v) {
      var t: Expr<F> :| Denotes(ar, t, toks, v);
      TreeIsUnique(t, written);
    }
    if Computable(ar, written) && Value(ar, written) == v {
      assert Denotes(ar, written, toks, v);
    }
  }

  /** Whether the outer set-up is read as its own tree with the written value in place: in every case
      but the negative base of a power. */
  lemma ReadInPlaceIff<F(!new)>(outer: Expr<F>, i: nat, num: Expr<F>)
    requires Fits(outer, EXPR) && NumberAt(Flatten(outer), i) && Written(num)
    ensures ParseExpr(Splice(Flatten(outer), i, Flatten(num))) == Some(Parsed(Plug(outer, i, num), []))
            <==> num.Lit? || !RaisedAt(Flatten(outer), i)
  {
    PlugFlattens(outer, i, num);
    PlugFits(outer, EXPR, i, num);
    if Fits(Plug(outer, i, num), EXPR) {
      ParseFindsTree(Plug(outer, i, num));
    } else {
      ExprSound(Splice(Flatten(outer), i, Flatten(num)));
    }
  }

  // ---------------------------------------------------------------- a failed inner set-up

  /** The parenthesis depth after `s`, from depth d; None once a ")" has no "(". */
  function Nest<F>(d: nat, s: seq<Token<F>>): Option<nat>
    decreases |s|
  {
    if s == [] then Some(d)
    else match s[0]
      case LParen => Nest(d + 1, s[1..])
      case RParen => if d == 0 then None else Nest(d - 1, s[1..])
      case _ => Nest(d, s[1..])
  }

  /** Every parenthesis has its partner. */
  predicate Balanced<F>(s: seq<Token<F>>) { Nest(0, s) == Some(0) }

  lemma {:induction false} NestConcat<F>(d: nat, a: seq<Token<F>>, b: seq<Token<F>>)
    ensures Nest(d, a + b) == if Nest(d, a).None? then None else Nest(Nest(d, a).value, b)
    decreases |a|
  {
    if a == [] {
      assert a + b == b;
    } else {
      assert (a + b)[1..] == a[1..] + b;
      var d' := if a[0].LParen? then d + 1 else if a[0].RParen? then d - 1 else d;
      if d' >= 0 {
        NestConcat(d', a[1..], b);
      }
    }
  }

  lemma {:induction false} TreeIsBalanced<F>(e: Expr<F>, d: nat)
    ensures Nest(d, Flatten(e)) == Some(d)
    decreases |Flatten(e)|, 0
  {
    match e
    case Lit(_, _, _) =>
    case Group(x) =>
      TreeIsBalanced(x, d + 1);
      NestConcat(d + 1, Flatten(x), [RParen]);
      assert Flatten(e)[1..] == Flatten(x) + [RParen];
    case Sign(_, x) => TreeIsBalanced(x, d);
    case Pow(b, x) => InfixIsBalanced(b, Power, x, d);
    case Bin(op, l, r) => InfixIsBalanced(l, op, r, d);
  }

  lemma {:induction false} InfixIsBalanced<F>(l: Expr<F>, op: Operator, r: Expr<F>, d: nat)
    ensures Nest(d, Infix(l, op, r)) == Some(d)
    decreases |Flatten(l)| + |Flatten(r)|, 1
  {
    TreeIsBalanced(l, d);
    TreeIsBalanced(r, d);
    NestConcat(d, Flatten(l), [Op(op)]);
    NestConcat(d, Flatten(l) + [Op(op)], Flatten(r));
  }

  /** A "(" has one partner. */
  lemma PartnerIsUnique<F>(a: seq<Token<F>>, c: seq<Token<F>>, b: seq<Token<F>>, d: seq<Token<F>>)
    requires Balanced(a) && Balanced(b) && a + [RParen] + c == b + [RParen] + d
    ensures a == b
  {
    if |a| < |b| {
      PartnerIsNotEarlier(a, c, b, d);
    } else if |b| < |a| {
      PartnerIsNotEarlier(b, d, a, c);
    } else {
      assert a == (a + [RParen] + c)[..|a|] == b;
    }
  }

  lemma PartnerIsNotEarlier<F>(a: seq<Token<F>>, c: seq<Token<F>>, b: seq<Token<F>>, d: seq<Token<F>>)
    requires Balanced(a) && Balanced(b) && a + [RParen] + c == b + [RParen] + d
    ensures |a| >= |b|
  {
    if |a| < |b| {
      var whole := b + [RParen] + d;
      assert b[..|a| + 1] == whole[..|a| + 1] == a + [RParen];
      assert b == a + [RParen] + b[|a| + 1..];
      NestConcat(0, a, [RParen]);
      NestConcat(0, a + [RParen], b[|a| + 1..]);
    }
  }

  /** From token i on, `s` is a group of contents x and then `rest`. */
  ghost predicate OpensGroup<F>(s: seq<Token<F>>, i: nat, x: Expr<F>, rest: seq<Token<F>>) {
    i < |s| && s[i + 1..] == Flatten(x) + [RParen] + rest
  }

  lemma GroupInMiddle<F>(a: seq<Token<F>>, s: seq<Token<F>>, c: seq<Token<F>>, i: nat, x: Expr<F>, rest: seq<Token<F>>)
    requires OpensGroup(s, i, x, rest)
    ensures OpensGroup(a + s + c, |a| + i, x, rest + c)
  {
    assert (a + s + c)[|a| + i + 1..] == s[i + 1..] + c;
  }

  /** Every "(" of a derived token list opens a group of its tree. */
  lemma {:induction false} GroupAt<F>(ar: Arith<F>, e: Expr<F>, rank: nat, i: nat)
    returns (x: Expr<F>, rest: seq<Token<F>>)
    requires Fits(e, rank) && i < |Flatten(e)| && Flatten(e)[i].LParen?
    ensures Fits(x, EXPR) && OpensGroup(Flatten(e), i, x, rest)
    ensures Computable(ar, e) ==> Computable(ar, x)
    decreases |Flatten(e)|, 0
  {
    match e
    case Group(y) =>
      if i == 0 {
        x, rest := y, [];
      } else {
        x, rest := GroupAt(ar, y, EXPR, i - 1);
        GroupInMiddle([LParen], Flatten(y), [RParen], i - 1, x, rest);
        rest := rest + [RParen];
      }
    case Sign(op, y) =>
      x, rest := GroupAt(ar, y, UNARY, i - 1);
      GroupInMiddle([Op(op)], Flatten(y), [], i - 1, x, rest);
      rest := rest + [];
      assert [Op(op)] + Flatten(y) + [] == Flatten(e);
    case Pow(b, y) => x, rest := GroupInPair(ar, b, ATOM, Power, y, UNARY, i);
    case Bin(op, l, r) =>
      x, rest := GroupInPair(ar, l, if Additive(op) then EXPR else TERM, op, r, if Additive(op) then TERM else UNARY,
                             i);
  }

  lemma {:induction false} GroupInPair<F>(ar: Arith<F>, l: Expr<F>, j: nat, op: Operator, r: Expr<F>, k: nat, i: nat)
    returns (x: Expr<F>, rest: seq<Token<F>>)
    requires Fits(l, j) && Fits(r, k) && i < |Infix(l, op, r)| && Infix(l, op, r)[i].LParen?
    ensures Fits(x, EXPR) && OpensGroup(Infix(l, op, r), i, x, rest)
    ensures Computable(ar, l) && Computable(ar, r) ==> Computable(ar, x)
    decreases |Flatten(l)| + |Flatten(r)|, 1
  {
    if i < |Flatten(l)| {
      x, rest := GroupAt(ar, l, j, i);
      GroupInMiddle([], Flatten(l), [Op(op)] + Flatten(r), i, x, rest);
      rest := rest + ([Op(op)] + Flatten(r));
      assert [] + Flatten(l) + ([Op(op)] + Flatten(r)) == Infix(l, op, r);
    } else {
      var i' := i - |Flatten(l)| - 1;
      x, rest := GroupAt(ar, r, k, i');
      GroupInMiddle(Flatten(l) + [Op(op)], Flatten(r), [], i', x, rest);
      rest := rest + [];
      assert Flatten(l) + [Op(op)] + Flatten(r) + [] == Infix(l, op, r);
    }
  }

  /** Literals are finite, as ParseFloat reads them, and a sign keeps a number finite. */
  ghost predicate FiniteNumbers<F(!new)>(ar: Arith<F>, s: seq<Token<F>>) {
    && (forall t :: t in s && t.Num? ==> ar.finite(t.value))
    && (forall x :: ar.finite(x) ==> ar.finite(ar.neg(x)))
  }

  lemma {:induction false} ComputableIsFinite<F(!new)>(ar: Arith<F>, e: Expr<F>)
    requires Computable(ar, e) && FiniteNumbers(ar, Flatten(e))
    ensures ar.finite(Value(ar, e))
  {
    match e
    case Lit(_, _, _) => assert Flatten(e)[0] in Flatten(e);
    case Group(x) => ComputableIsFinite(ar, x);
    case Sign(_, x) => ComputableIsFinite(ar, x);
    case Pow(_, _) =>
    case Bin(_, _, _) =>
  }

  /** An inner set-up left in its parentheses inside an outer one that evaluates: it evaluates too
      exactly when its own parentheses balance. So a failed inner set-up fails the outer one, whatever
      surrounds it, unless the failure is an unbalanced parenthesis. */
  lemma FailedInnerFailsOuter<F(!new)>(ar: Arith<F>, pre: seq<Token<F>>, inner: seq<Token<F>>, post: seq<Token<F>>,
                                       v: F)
    requires FiniteNumbers(ar, inner)
    requires Evaluates(ar, pre + [LParen] + inner + [RParen] + post, v)
    ensures (exists w :: Evaluates(ar, inner, w)) <==> Balanced(inner)
  {
    if w :| Evaluates(ar, inner, w) {
      var t: Expr<F> :| Denotes(ar, t, inner, w);
      TreeIsBalanced(t, 0);
    }
    if Balanced(inner) {
      var toks := pre + [LParen] + inner + [RParen] + post;
      var e: Expr<F> :| Denotes(ar, e, toks, v);
      assert toks[|pre|] == LParen;
      var x, rest := GroupAt(ar, e, EXPR, |pre|);
      assert toks[|pre| + 1..] == inner + [RParen] + post;
      TreeIsBalanced(x, 0);
      PartnerIsUnique(inner, post, Flatten(x), rest);
      ComputableIsFinite(ar, x);
      assert Denotes(ar, x, inner, Value(ar, x));
      assert Evaluates(ar, inner, Value(ar, x));
    }
  }

  // ---------------------------------------------------------------- the two conditions are needed

  /** Whole numbers with the squares and first powers. */
  const Ints: Arith<int> := Arith(
    (a: int, b: int) => a + b,
    (a: int, b: int) => a - b,
    (a: int, b: int) => a * b,
    (a: int, b: int) => if b == 0 then 0 else a / b,
    (a: int, b: int) => if b == 2 then a * a else a,
    (a: int) => -a,
    (a: int) => true,
    (a: int) => a == 0,
    (a: int) => a < 0,
    (a: int) => true,
    (a: int, n: nat) => a > n || a + n < 0)

  function IntLit(n: int): Expr<int> { Lit(n, "", 0) }

  /** <<<<1-3>> ** 2>> is read as -2 ** 2: minus four, where the substituted value gives four. */
  lemma NegativeBaseLosesItsSign()
    ensures var outer := Pow(IntLit(7), IntLit(2));
            && Evaluates(Ints, Splice(Flatten(outer), 0, Flatten(Sign(Minus, IntLit(2)))), -4)
            && Value(Ints, Plug(outer, 0, IntLit(-2))) == 4
  {
    var outer := Pow(IntLit(7), IntLit(2));
    var e := Sign(Minus, Pow(IntLit(2), IntLit(2)));
    assert Flatten(Pow(IntLit(2), IntLit(2))) == [Num(2, "", 0), Op(Power), Num(2, "", 0)];
    assert Flatten(e) == [Op(Minus), Num(2, "", 0), Op(Power), Num(2, "", 0)];
    assert Flatten(outer) == [Num(7, "", 0), Op(Power), Num(2, "", 0)];
    assert Splice(Flatten(outer), 0, Flatten(Sign(Minus, IntLit(2)))) == Flatten(e);
    assert Value(Ints, Pow(IntLit(2), IntLit(2))) == 4;
    assert Denotes(Ints, e, Flatten(e), -4);
  }

  /** <<<<1) + (2>>>> is left as (1) + (2): the inner set-up fails and the outer one is three. */
  lemma UnbalancedInnerCanSucceed()
    ensures var inner := [Num(1, "", 0), RParen, Op(Plus), LParen, Num(2, "", 0)];
            && Evaluates(Ints, [] + [LParen] + inner + [RParen] + [], 3)
            && (forall w :: !Evaluates(Ints, inner, w))
  {
    var inner := [Num(1, "", 0), RParen, Op(Plus), LParen, Num(2, "", 0)];
    var e := Bin(Plus, Group(IntLit(1)), Group(IntLit(2)));
    assert Flatten(Group(IntLit(1))) == [LParen, Num(1, "", 0), RParen];
    assert Flatten(Group(IntLit(2))) == [LParen, Num(2, "", 0), RParen];
    assert Flatten(e) == [] + [LParen] + inner + [RParen] + [];
    assert Denotes(Ints, e, Flatten(e), 3);
    assert Nest(0, inner) == Nest(0, inner[1..]) == None;
    forall w
      ensures !Evaluates(Ints, inner, w)
    {
      if Evaluates(Ints, inner, w) {
        var t: Expr<int> :| Denotes(Ints, t, inner, w);
        TreeIsBalanced(t, 0);
        assert false;
      }
    }
  }
}
