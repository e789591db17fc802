/** The arithmetic of an answer's set-ups: tokens, the five-rule grammar as syntax trees, and what a
    tree means. float64 is a parameter `F` and its operations are the fields of `Arith`, so every
    statement below holds for IEEE arithmetic and for any other. */
module CalcGrammar {
  import opened Wrappers

  datatype Operator = Plus | Minus | Times | Over | Power

  datatype Token<+F> = Num(value: F, text: string, pos: nat) | Op(op: Operator) | LParen | RParen

  /** What the evaluator asks of float64 (package math and the built-in operators). */
  datatype Arith<!F> = Arith(
    add: (F, F) -> F,
    sub: (F, F) -> F,
    mul: (F, F) -> F,
    div: (F, F) -> F,
    pow: (F, F) -> F,
    neg: F -> F,
    finite: F -> bool,
    zero: F -> bool,
    negative: F -> bool,
    whole: F -> bool,
    beyond: (F, nat) -> bool  // |x| > n
  )

  /** A power's exponent is a count of periods or a root, not more. */
  const MAX_EXPONENT: nat := 100

  predicate Additive(op: Operator) { op == Plus || op == Minus }

  predicate Multiplicative(op: Operator) { op == Times || op == Over }

  predicate IsPower(op: Operator) { op == Power }

  // ---------------------------------------------------------------- syntax trees

  datatype Expr<+F> =
    | Lit(value: F, text: string, pos: nat)
    | Group(inner: Expr<F>)
    | Sign(op: Operator, operand: Expr<F>)
    | Pow(base: Expr<F>, exponent: Expr<F>)
    | Bin(op: Operator, left: Expr<F>, right: Expr<F>)

  // The five rules, loosest first.
  const EXPR: nat := 0
  const TERM: nat := 1
  const UNARY: nat := 2
  const POWER: nat := 3
  const ATOM: nat := 4

  /** `e` is a tree of the rule `rank`:
        expr  := expr ("+"|"-") term | term
        term  := term ("*"|"/") unary | unary
        unary := ("+"|"-") unary | power
        power := atom "^" unary | atom
        atom  := number | "(" expr ")" */
  predicate Fits<F>(e: Expr<F>, rank: nat) {
    match e
    case Lit(_, _, _) => true
    case Group(x) => Fits(x, EXPR)
    case Pow(b, x) => rank <= POWER && Fits(b, ATOM) && Fits(x, UNARY)
    case Sign(op, x) => rank <= UNARY && Additive(op) && Fits(x, UNARY)
    case Bin(op, l, r) =>
      if Additive(op) then rank <= EXPR && Fits(l, EXPR) && Fits(r, TERM)
      else Multiplicative(op) && rank <= TERM && Fits(l, TERM) && Fits(r, UNARY)
  }

  /** The tokens a tree derives. */
  function Flatten<F>(e: Expr<F>): (s: seq<Token<F>>)
    ensures |s| > 0
  {
    match e
    case Lit(v, text, pos) => [Num(v, text, pos)]
    case Group(x) => [LParen] + Flatten(x) + [RParen]
    case Sign(op, x) => [Op(op)] + Flatten(x)
    case Pow(b, x) => Flatten(b) + [Op(Power)] + Flatten(x)
    case Bin(op, l, r) => Flatten(l) + [Op(op)] + Flatten(r)
  }

  // ---------------------------------------------------------------- meaning

  function Apply<F>(ar: Arith<F>, op: Operator, a: F, b: F): F {
    match op
    case Plus => ar.add(a, b)
    case Minus => ar.sub(a, b)
    case Times => ar.mul(a, b)
    case Over => ar.div(a, b)
    case Power => ar.pow(a, b)
  }

  function Signed<F>(ar: Arith<F>, op: Operator, v: F): F {
    if op == Minus then ar.neg(v) else v
  }

  /** The number a tree stands for, read as plain arithmetic. */
  function Value<F>(ar: Arith<F>, e: Expr<F>): F {
    match e
    case Lit(v, _, _) => v
    case Group(x) => Value(ar, x)
    case Sign(op, x) => Signed(ar, op, Value(ar, x))
    case Pow(b, x) => ar.pow(Value(ar, b), Value(ar, x))
    case Bin(op, l, r) => Apply(ar, op, Value(ar, l), Value(ar, r))
  }

  /** What a power may be asked for: two finite operands, an exponent of at most MAX_EXPONENT, no
      fractional power of a negative number, no negative power of zero. */
  predicate PowerDefined<F>(ar: Arith<F>, b: F, x: F) {
    && ar.finite(b) && ar.finite(x)
    && !ar.beyond(x, MAX_EXPONENT)
    && (ar.negative(b) ==> ar.whole(x))
    && (ar.zero(b) ==> !ar.negative(x))
  }

  /** Every operation of the tree is defined and every intermediate result is finite. */
  predicate Computable<F>(ar: Arith<F>, e: Expr<F>) {
    match e
    case Lit(_, _, _) => true
    case Group(x) => Computable(ar, x)
    case Sign(_, x) => Computable(ar, x)
    case Pow(b, x) =>
      && Computable(ar, b) && Computable(ar, x)
      && PowerDefined(ar, Value(ar, b), Value(ar, x))
      && ar.finite(Value(ar, e))
    case Bin(op, l, r) =>
      && Computable(ar, l) && Computable(ar, r)
      && (op == Over ==> !ar.zero(Value(ar, r)))
      && ar.finite(Value(ar, e))
  }

  /** `toks` is an arithmetic expression whose value is `v`. */
  ghost predicate Evaluates<F(!new)>(ar: Arith<F>, toks: seq<Token<F>>, v: F) {
    ar.finite(v) && exists e: Expr<F> :: Denotes(ar, e, toks, v)
  }

  ghost predicate Denotes<F>(ar: Arith<F>, e: Expr<F>, toks: seq<Token<F>>, v: F) {
    Fits(e, EXPR) && Flatten(e) == toks && Computable(ar, e) && Value(ar, e) == v
  }

  // ---------------------------------------------------------------- parsing without arithmetic

  datatype Parse<+F> = Parsed(tree: Expr<F>, rest: seq<Token<F>>)

  predicate StartsWith<F>(s: seq<Token<F>>, p: Operator -> bool) {
    |s| > 0 && s[0].Op? && p(s[0].op)
  }

  function ParseExpr<F>(s: seq<Token<F>>): (r: Option<Parse<F>>)
    ensures r.Some? ==> |r.value.rest| < |s|
    decreases |s|, 6
  {
    match ParseTerm(s)
    case None => None
    case Some(p) => MoreTerms(p.tree, p.rest)
  }

  function MoreTerms<F>(left: Expr<F>, s: seq<Token<F>>): (r: Option<Parse<F>>)
    ensures r.Some? ==> |r.value.rest| <= |s|
    decreases |s|, 5
  {
    if StartsWith(s, Additive) then
      match ParseTerm(s[1..])
      case None => None
      case Some(p) =>
        MoreTerms(Bin(s[0].op, left, p.tree), p.rest)
    else
      Some(Parsed(left, s))
  }

  function ParseTerm<F>(s: seq<Token<F>>): (r: Option<Parse<F>>)
    ensures r.Some? ==> |r.value.rest| < |s|
    decreases |s|, 4
  {
    match ParseUnary(s)
    case None => None
    case Some(p) => MoreFactors(p.tree, p.rest)
  }

  function MoreFactors<F>(left: Expr<F>, s: seq<Token<F>>): (r: Option<Parse<F>>)
    ensures r.Some? ==> |r.value.rest| <= |s|
    decreases |s|, 3
  {
    if StartsWith(s, Multiplicative) then
      match ParseUnary(s[1..])
      case None => None
      case Some(p) =>
        MoreFactors(Bin(s[0].op, left, p.tree), p.rest)
    else
      Some(Parsed(left, s))
  }

  function ParseUnary<F>(s: seq<Token<F>>): (r: Option<Parse<F>>)
    ensures r.Some? ==> |r.value.rest| < |s|
    decreases |s|, 2
  {
    if StartsWith(s, Additive) then
      match ParseUnary(s[1..])
      case None => None
      case Some(p) => Some(Parsed(Sign(s[0].op, p.tree), p.rest))
    else
      ParsePower(s)
  }

  function ParsePower<F>(s: seq<Token<F>>): (r: Option<Parse<F>>)
    ensures r.Some? ==> |r.value.rest| < |s|
    decreases |s|, 1
  {
    match ParseAtom(s)
    case None => None
    case Some(b) =>
      if StartsWith(b.rest, IsPower) then
        match ParseUnary(b.rest[1..])
        case None => None
        case Some(x) =>
          Some(Parsed(Pow(b.tree, x.tree), x.rest))
      else
        Some(b)
  }

  function ParseAtom<F>(s: seq<Token<F>>): (r: Option<Parse<F>>)
    ensures r.Some? ==> |r.value.rest| < |s|
    decreases |s|, 0
  {
    if |s| == 0 then None
    else match s[0]
      case Num(v, text, pos) => Some(Parsed(Lit(v, text, pos), s[1..]))
      case LParen =>
        (match ParseExpr(s[1..])
         case None => None
         case Some(p) =>
           if |p.rest| > 0 && p.rest[0].RParen? then
                Some(Parsed(Group(p.tree), p.rest[1..]))
           else None)
      case _ => None
  }
}
