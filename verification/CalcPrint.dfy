/** Precedence and associativity, said without the parser: printing any tree with only the parentheses
    its operators need and evaluating the print gives the tree's own value. */
module CalcPrint {
  import opened CalcGrammar
  import opened Wrappers
  import opened CalcParser

  /** A tree of arithmetic operators, nested in any way. */
  predicate Arithmetic<F>(e: Expr<F>) {
    match e
    case Lit(_, _, _) => true
    case Group(x) => Arithmetic(x)
    case Sign(op, x) => Additive(op) && Arithmetic(x)
    case Pow(b, x) => Arithmetic(b) && Arithmetic(x)
    case Bin(op, l, r) => op != Power && Arithmetic(l) && Arithmetic(r)
  }

  function Bracket<F>(e: Expr<F>, when: bool): Expr<F> {
    if when then Group(e) else e
  }

  /** `e` with a parenthesis wherever an operand binds looser than its place allows: the left operand
      of + - * / may be a chain of the same rank, the right one may not; a power's exponent may be a
      sign or another power, its base neither; a sign covers everything up to the next * or /. */
  function Layout<F>(e: Expr<F>, rank: nat): Expr<F> {
    match e
    case Lit(_, _, _) => e
    case Group(x) => Group(Layout(x, EXPR))
    case Sign(op, x) => Bracket(Sign(op, Layout(x, UNARY)), rank > UNARY)
    case Pow(b, x) => Bracket(Pow(Layout(b, ATOM), Layout(x, UNARY)), rank > POWER)
    case Bin(op, l, r) =>
      if Additive(op) then Bracket(Bin(op, Layout(l, EXPR), Layout(r, TERM)), rank > EXPR)
      else Bracket(Bin(op, Layout(l, TERM), Layout(r, UNARY)), rank > TERM)
  }

  lemma {:induction false} LayoutFits<F>(e: Expr<F>, rank: nat)
    requires Arithmetic(e) && rank <= ATOM
    ensures Fits(Layout(e, rank), rank)
  {
    match e
    case Lit(_, _, _) =>
    case Group(x) => LayoutFits(x, EXPR);
    case Sign(_, x) => LayoutFits(x, UNARY);
    case Pow(b, x) => LayoutFits(b, ATOM); LayoutFits(x, UNARY);
    case Bin(op, l, r) =>
      LayoutFits(l, if Additive(op) then EXPR else TERM);
      LayoutFits(r, if Additive(op) then TERM else UNARY);
  }

  lemma {:induction false} LayoutMeans<F>(ar: Arith<F>, e: Expr<F>, rank: nat)
    ensures Value(ar, Layout(e, rank)) == Value(ar, e)
    ensures Computable(ar, Layout(e, rank)) <==> Computable(ar, e)
  {
    match e
    case Lit(_, _, _) =>
    case Group(x) => LayoutMeans(ar, x, EXPR);
    case Sign(_, x) => LayoutMeans(ar, x, UNARY);
    case Pow(b, x) => LayoutMeans(ar, b, ATOM); LayoutMeans(ar, x, UNARY);
    case Bin(op, l, r) =>
      LayoutMeans(ar, l, if Additive(op) then EXPR else TERM);
      LayoutMeans(ar, r, if Additive(op) then TERM else UNARY);
  }

  /** No parenthesis is added that the grammar does not need. */
  lemma {:induction false} LayoutIsMinimal<F>(e: Expr<F>, rank: nat)
    requires Fits(e, rank)
    ensures Layout(e, rank) == e
  {
    match e
    case Lit(_, _, _) =>
    case Group(x) => LayoutIsMinimal(x, EXPR);
    case Sign(_, x) => LayoutIsMinimal(x, UNARY);
    case Pow(b, x) => LayoutIsMinimal(b, ATOM); LayoutIsMinimal(x, UNARY);
    case Bin(op, l, r) =>
      LayoutIsMinimal(l, if Additive(op) then EXPR else TERM);
      LayoutIsMinimal(r, if Additive(op) then TERM else UNARY);
  }

  /** Print then evaluate is the identity on meanings: the printed tokens have a value exactly when the
      tree is computable and its value finite, and it is the tree's. */
  lemma PrintEvaluates<F(!new)>(ar: Arith<F>, e: Expr<F>, v: F)
    requires Arithmetic(e)
    ensures Evaluates(ar, Flatten(Layout(e, EXPR)), v) <==>
            Computable(ar, e) && ar.finite(v) && Value(ar, e) == v
  {
    LayoutFits(e, EXPR);
    LayoutMeans(ar, e, EXPR);
    TreeDecides(ar, Layout(e, EXPR), Flatten(Layout(e, EXPR)), v);
  }

  /** + and - group to the left, and so do * and /; ** groups to the right and binds before a sign on
      its left: a - b - c, a ** b ** c and -a ** b each have the one tree named here. */
  lemma Grouping<F>(a: Expr<F>, b: Expr<F>, c: Expr<F>, op1: Operator, op2: Operator)
    requires a.Lit? && b.Lit? && c.Lit?
    requires (Additive(op1) && Additive(op2)) || (Multiplicative(op1) && Multiplicative(op2))
    ensures ParseExpr([Number(a), Op(op1), Number(b), Op(op2), Number(c)])
            == Some(Parsed(Bin(op2, Bin(op1, a, b), c), []))
    ensures ParseExpr([Number(a), Op(Power), Number(b), Op(Power), Number(c)])
            == Some(Parsed(Pow(a, Pow(b, c)), []))
    ensures ParseExpr([Op(Minus), Number(a), Op(Power), Number(b)])
            == Some(Parsed(Sign(Minus, Pow(a, b)), []))
  {
    assert forall x: Expr<F> | x.Lit? :: Flatten(x) == [Number(x)];
    assert Flatten(Bin(op1, a, b)) == [Number(a), Op(op1), Number(b)];
    assert Flatten(Pow(b, c)) == [Number(b), Op(Power), Number(c)];
    assert Flatten(Pow(a, b)) == [Number(a), Op(Power), Number(b)];
    ParseFindsTree(Bin(op2, Bin(op1, a, b), c));
    assert Flatten(Bin(op2, Bin(op1, a, b), c)) == [Number(a), Op(op1), Number(b), Op(op2), Number(c)];
    ParseFindsTree(Pow(a, Pow(b, c)));
    assert Flatten(Pow(a, Pow(b, c))) == [Number(a), Op(Power), Number(b), Op(Power), Number(c)];
    ParseFindsTree(Sign(Minus, Pow(a, b)));
    assert Flatten(Sign(Minus, Pow(a, b))) == [Op(Minus), Number(a), Op(Power), Number(b)];
  }

  /** A tighter operator is applied first on either side of a looser one: a + b * c, a * b + c,
      a * b ** c and a ** b * c each have the one tree named here. */
  lemma Precedence<F>(a: Expr<F>, b: Expr<F>, c: Expr<F>, loose: Operator, tight: Operator)
    requires a.Lit? && b.Lit? && c.Lit? && Additive(loose) && Multiplicative(tight)
    ensures ParseExpr([Number(a), Op(loose), Number(b), Op(tight), Number(c)])
            == Some(Parsed(Bin(loose, a, Bin(tight, b, c)), []))
    ensures ParseExpr([Number(a), Op(tight), Number(b), Op(loose), Number(c)])
            == Some(Parsed(Bin(loose, Bin(tight, a, b), c), []))
    ensures ParseExpr([Number(a), Op(tight), Number(b), Op(Power), Number(c)])
            == Some(Parsed(Bin(tight, a, Pow(b, c)), []))
    ensures ParseExpr([Number(a), Op(Power), Number(b), Op(tight), Number(c)])
            == Some(Parsed(Bin(tight, Pow(a, b), c), []))
  {
    Pair(a, Bin(tight, b, c), loose);
    Pair(Bin(tight, a, b), c, loose);
    Pair(a, Pow(b, c), tight);
    Pair(Pow(a, b), c, tight);
    assert Flatten(Bin(tight, b, c)) == [Number(b), Op(tight), Number(c)];
    assert Flatten(Bin(tight, a, b)) == [Number(a), Op(tight), Number(b)];
    assert Flatten(Pow(b, c)) == [Number(b), Op(Power), Number(c)];
    assert Flatten(Pow(a, b)) == [Number(a), Op(Power), Number(b)];
    assert forall x: Expr<F> | x.Lit? :: Flatten(x) == [Number(x)];
    Five(Number(a), Op(loose), Number(b), Op(tight), Number(c));
    Five(Number(a), Op(tight), Number(b), Op(loose), Number(c));
    Five(Number(a), Op(tight), Number(b), Op(Power), Number(c));
    Five(Number(a), Op(Power), Number(b), Op(tight), Number(c));
  }

  lemma Pair<F>(l: Expr<F>, r: Expr<F>, op: Operator)
    requires Fits(Bin(op, l, r), EXPR)
    ensures ParseExpr(Flatten(l) + [Op(op)] + Flatten(r)) == Some(Parsed(Bin(op, l, r), []))
  {
    ParseFindsTree(Bin(op, l, r));
  }

  lemma Five<T>(a: T, b: T, c: T, d: T, e: T)
    ensures [a] + [b] + [c, d, e] == [a, b, c, d, e] == [a, b, c] + [d] + [e]
  {
  }

  function Number<F>(e: Expr<F>): Token<F>
    requires e.Lit?
  {
    Num(e.value, e.text, e.pos)
  }
}
