/** pkg/calc's recursive-descent parser fused with its evaluator, and the proof that it computes the
    value of the one tree the grammar derives. */
module CalcParser {
  import opened CalcGrammar
  import opened Wrappers

  // ---------------------------------------------------------------- what is parsed is derived

  /** The tokens read are those the tree derives, and the tree is one of the rule `rank`. */
  ghost predicate Derived<F>(p: Option<Parse<F>>, rank: nat, s: seq<Token<F>>) {
    p.Some? ==> Fits(p.value.tree, rank) && s == Flatten(p.value.tree) + p.value.rest
  }

  lemma Regroup<T>(a: seq<T>, b: seq<T>, s: seq<T>, rest: seq<T>)
    requires |s| > 0 && s[1..] == b + rest
    ensures a + s == a + [s[0]] + b + rest
  {
    assert s == [s[0]] + (b + rest);
  }

  lemma {:induction false} ExprSound<F>(s: seq<Token<F>>)
    ensures Derived(ParseExpr(s), EXPR, s)
    decreases |s|, 6
  {
    TermSound(s);
    if ParseTerm(s).Some? {
      MoreTermsSound(ParseTerm(s).value.tree, ParseTerm(s).value.rest);
    }
  }

  lemma {:induction false} MoreTermsSound<F>(left: Expr<F>, s: seq<Token<F>>)
    requires Fits(left, EXPR)
    ensures Derived(MoreTerms(left, s), EXPR, Flatten(left) + s)
    decreases |s|, 5
  {
    if StartsWith(s, Additive) && ParseTerm(s[1..]).Some? {
      TermSound(s[1..]);
      var p := ParseTerm(s[1..]).value;
      Regroup(Flatten(left), Flatten(p.tree), s, p.rest);
      MoreTermsSound(Bin(s[0].op, left, p.tree), p.rest);
    }
  }

  lemma {:induction false} TermSound<F>(s: seq<Token<F>>)
    ensures Derived(ParseTerm(s), TERM, s)
    decreases |s|, 4
  {
    UnarySound(s);
    if ParseUnary(s).Some? {
      MoreFactorsSound(ParseUnary(s).value.tree, ParseUnary(s).value.rest);
    }
  }

  lemma {:induction false} MoreFactorsSound<F>(left: Expr<F>, s: seq<Token<F>>)
    requires Fits(left, TERM)
    ensures Derived(MoreFactors(left, s), TERM, Flatten(left) + s)
    decreases |s|, 3
  {
    if StartsWith(s, Multiplicative) && ParseUnary(s[1..]).Some? {
      UnarySound(s[1..]);
      var p := ParseUnary(s[1..]).value;
      Regroup(Flatten(left), Flatten(p.tree), s, p.rest);
      MoreFactorsSound(Bin(s[0].op, left, p.tree), p.rest);
    }
  }

  lemma {:induction false} UnarySound<F>(s: seq<Token<F>>)
    ensures Derived(ParseUnary(s), UNARY, s)
    decreases |s|, 2
  {
    if StartsWith(s, Additive) {
      UnarySound(s[1..]);
    } else {
      PowerSound(s);
    }
  }

  lemma {:induction false} PowerSound<F>(s: seq<Token<F>>)
    ensures Derived(ParsePower(s), POWER, s)
    decreases |s|, 1
  {
    AtomSound(s);
    if ParseAtom(s).Some? {
      var b := ParseAtom(s).value;
      if StartsWith(b.rest, IsPower) && ParseUnary(b.rest[1..]).Some? {
        UnarySound(b.rest[1..]);
        var x := ParseUnary(b.rest[1..]).value;
        Regroup(Flatten(b.tree), Flatten(x.tree), b.rest, x.rest);
      }
    }
  }

  lemma {:induction false} AtomSound<F>(s: seq<Token<F>>)
    ensures Derived(ParseAtom(s), ATOM, s)
    decreases |s|, 0
  {
    if |s| > 0 && s[0].LParen? {
      ExprSound(s[1..]);
      if ParseAtom(s).Some? {
        var p := ParseExpr(s[1..]).value;
        assert p.rest == [RParen] + p.rest[1..];
        Regroup([], Flatten(p.tree) + [RParen], s, p.rest[1..]);
      }
    }
  }

  // ---------------------------------------------------------------- the grammar is unambiguous

  predicate Stops<F>(s: seq<Token<F>>, p: Operator -> bool) { !StartsWith(s, p) }

  /** An additive chain is read left to right: having read `e`, the parser goes on as if `e` had been
      its first term. */
  lemma {:induction false} ExprComplete<F>(e: Expr<F>, s: seq<Token<F>>)
    requires Fits(e, EXPR) && Stops(s, Multiplicative) && Stops(s, IsPower)
    ensures ParseExpr(Flatten(e) + s) == MoreTerms(e, s)
    decreases e, 5
  {
    match e
    case Bin(op, l, r) =>
      if Additive(op) {
        var s' := [Op(op)] + (Flatten(r) + s);
        assert Flatten(e) + s == Flatten(l) + s';
        ExprComplete(l, s');
        assert s'[1..] == Flatten(r) + s;
        TermComplete(r, s);
      } else {
        TermComplete(e, s);
      }
    case _ => TermComplete(e, s);
  }

  lemma {:induction false} TermComplete<F>(e: Expr<F>, s: seq<Token<F>>)
    requires Fits(e, TERM) && Stops(s, IsPower)
    ensures ParseTerm(Flatten(e) + s) == MoreFactors(e, s)
    decreases e, 4
  {
    match e
    case Bin(op, l, r) =>
      var s' := [Op(op)] + (Flatten(r) + s);
      assert Flatten(e) + s == Flatten(l) + s';
      TermComplete(l, s');
      assert s'[1..] == Flatten(r) + s;
      UnaryComplete(r, s);
    case _ => UnaryComplete(e, s);
  }

  lemma {:induction false} UnaryComplete<F>(e: Expr<F>, s: seq<Token<F>>)
    requires Fits(e, UNARY) && Stops(s, IsPower)
    ensures ParseUnary(Flatten(e) + s) == Some(Parsed(e, s))
    decreases e, 3
  {
    match e
    case Sign(op, x) =>
      assert (Flatten(e) + s)[1..] == Flatten(x) + s;
      UnaryComplete(x, s);
    case _ => PowerComplete(e, s);
  }

  lemma {:induction false} PowerComplete<F>(e: Expr<F>, s: seq<Token<F>>)
    requires Fits(e, POWER) && Stops(s, IsPower)
    ensures ParsePower(Flatten(e) + s) == Some(Parsed(e, s))
    ensures !StartsWith(Flatten(e) + s, Additive)
    decreases e, 2
  {
    match e
    case Pow(b, x) =>
      var s' := [Op(Power)] + (Flatten(x) + s);
      assert Flatten(e) + s == Flatten(b) + s';
      AtomComplete(b, s');
      assert s'[1..] == Flatten(x) + s;
      UnaryComplete(x, s);
    case Lit(_, _, _) => AtomComplete(e, s);
    case Group(_) => AtomComplete(e, s);
  }

  lemma {:induction false} AtomComplete<F>(e: Expr<F>, s: seq<Token<F>>)
    requires Fits(e, ATOM)
    ensures ParseAtom(Flatten(e) + s) == Some(Parsed(e, s))
    ensures !StartsWith(Flatten(e) + s, Additive)
    decreases e, 1
  {
    match e
    case Lit(_, _, _) => assert (Flatten(e) + s)[1..] == s;
    case Group(x) =>
      var s' := [RParen] + s;
      assert (Flatten(e) + s)[1..] == Flatten(x) + s';
      ExprComplete(x, s');
      assert s'[1..] == s;
  }

  /** What the parser accepts, it accepts for every tree that derives it. */
  lemma ParseFindsTree<F>(e: Expr<F>)
    requires Fits(e, EXPR)
    ensures ParseExpr(Flatten(e)) == Some(Parsed(e, []))
  {
    assert Flatten(e) + [] == Flatten(e);
    ExprComplete(e, []);
  }

  /** The grammar is unambiguous: a token list has at most one tree. */
  lemma TreeIsUnique<F>(e1: Expr<F>, e2: Expr<F>)
    requires Fits(e1, EXPR) && Fits(e2, EXPR) && Flatten(e1) == Flatten(e2)
    ensures e1 == e2
  {
    ParseFindsTree(e1);
    ParseFindsTree(e2);
  }

  /** An expression's value is its tree's. */
  lemma TreeDecides<F(!new)>(ar: Arith<F>, e: Expr<F>, toks: seq<Token<F>>, v: F)
    requires Fits(e, EXPR) && Flatten(e) == toks
    ensures Evaluates(ar, toks, v) <==> Computable(ar, e) && ar.finite(v) && Value(ar, e) == v
  {
    if Evaluates(ar, toks, v) {
      var t: Expr<F> :| Denotes(ar, t, toks, v);
      TreeIsUnique(t, e);
    }
    if Computable(ar, e) && Value(ar, e) == v {
      assert Denotes(ar, e, toks, v);
    }
  }

  // ---------------------------------------------------------------- the fused parser

  /** Every error of the parser wraps ErrInvalid; the message is not modelled. */
  datatype Result<+F> = Ok(value: F) | Invalid

  /** `r` is what evaluating the parsed tree gives; nothing is a value that the tree does not have. */
  ghost predicate Agrees<F>(ar: Arith<F>, p: Option<Parse<F>>, r: Result<F>) {
    && (r.Ok? <==> p.Some? && Computable(ar, p.value.tree))
    && (r.Ok? ==> r.value == Value(ar, p.value.tree))
  }

  lemma {:induction false} MoreTermsKeepsFailure<F>(ar: Arith<F>, left: Expr<F>, s: seq<Token<F>>)
    requires !Computable(ar, left)
    ensures Agrees(ar, MoreTerms(left, s), Invalid)
    decreases |s|
  {
    if StartsWith(s, Additive) && ParseTerm(s[1..]).Some? {
      var p := ParseTerm(s[1..]).value;
      MoreTermsKeepsFailure(ar, Bin(s[0].op, left, p.tree), p.rest);
    }
  }

  lemma {:induction false} MoreFactorsKeepsFailure<F>(ar: Arith<F>, left: Expr<F>, s: seq<Token<F>>)
    requires !Computable(ar, left)
    ensures Agrees(ar, MoreFactors(left, s), Invalid)
    decreases |s|
  {
    if StartsWith(s, Multiplicative) && ParseUnary(s[1..]).Some? {
      var p := ParseUnary(s[1..]).value;
      MoreFactorsKeepsFailure(ar, Bin(s[0].op, left, p.tree), p.rest);
    }
  }

  /** One turn of the loop in `expr` whose term fails. */
  lemma TermFails<F>(ar: Arith<F>, left: Expr<F>, s: seq<Token<F>>)
    requires StartsWith(s, Additive)
    requires Agrees(ar, ParseTerm(s[1..]), Invalid)
    ensures Agrees(ar, MoreTerms(left, s), Invalid)
  {
    if ParseTerm(s[1..]).Some? {
      var p := ParseTerm(s[1..]).value;
      MoreTermsKeepsFailure(ar, Bin(s[0].op, left, p.tree), p.rest);
    }
  }

  /** One turn of the loop in `expr` whose term has a value: the chain goes on from the joined tree,
      and is lost if the joined value is not finite. */
  lemma TermJoins<F>(ar: Arith<F>, left: Expr<F>, s: seq<Token<F>>, v: F) returns (joined: Expr<F>)
    requires StartsWith(s, Additive) && Computable(ar, left)
    requires Agrees(ar, ParseTerm(s[1..]), Ok(v))
    ensures MoreTerms(left, s) == MoreTerms(joined, ParseTerm(s[1..]).value.rest)
    ensures Value(ar, joined) == Apply(ar, s[0].op, Value(ar, left), v)
    ensures Computable(ar, joined) <==> ar.finite(Value(ar, joined))
    ensures !Computable(ar, joined) ==> Agrees(ar, MoreTerms(left, s), Invalid)
  {
    var p := ParseTerm(s[1..]).value;
    joined := Bin(s[0].op, left, p.tree);
    if !Computable(ar, joined) {
      MoreTermsKeepsFailure(ar, joined, p.rest);
    }
  }

  /** One turn of the loop in `term` whose factor fails. */
  lemma FactorFails<F>(ar: Arith<F>, left: Expr<F>, s: seq<Token<F>>)
    requires StartsWith(s, Multiplicative)
    requires Agrees(ar, ParseUnary(s[1..]), Invalid)
    ensures Agrees(ar, MoreFactors(left, s), Invalid)
  {
    if ParseUnary(s[1..]).Some? {
      var p := ParseUnary(s[1..]).value;
      MoreFactorsKeepsFailure(ar, Bin(s[0].op, left, p.tree), p.rest);
    }
  }

  /** One turn of the loop in `term` whose factor has a value: the chain goes on from the joined tree,
      and is lost if it divides by zero or the joined value is not finite. */
  lemma FactorJoins<F>(ar: Arith<F>, left: Expr<F>, s: seq<Token<F>>, v: F) returns (joined: Expr<F>)
    requires StartsWith(s, Multiplicative) && Computable(ar, left)
    requires Agrees(ar, ParseUnary(s[1..]), Ok(v))
    ensures MoreFactors(left, s) == MoreFactors(joined, ParseUnary(s[1..]).value.rest)
    ensures Value(ar, joined) == Apply(ar, s[0].op, Value(ar, left), v)
    ensures Computable(ar, joined) <==> (s[0].op == Over ==> !ar.zero(v)) && ar.finite(Value(ar, joined))
    ensures !Computable(ar, joined) ==> Agrees(ar, MoreFactors(left, s), Invalid)
  {
    var p := ParseUnary(s[1..]).value;
    joined := Bin(s[0].op, left, p.tree);
    if !Computable(ar, joined) {
      MoreFactorsKeepsFailure(ar, joined, p.rest);
    }
  }

  /** The value of an atom raised to a unary, or no value when the power is not defined. */
  lemma PowerJoins<F>(ar: Arith<F>, s: seq<Token<F>>, base: F, exponent: Result<F>)
    requires Agrees(ar, ParseAtom(s), Ok(base)) && StartsWith(ParseAtom(s).value.rest, IsPower)
    requires Agrees(ar, ParseUnary(ParseAtom(s).value.rest[1..]), exponent)
    ensures exponent.Invalid? ==> Agrees(ar, ParsePower(s), Invalid)
    ensures exponent.Ok? ==>
              var v := ar.pow(base, exponent.value);
              && Agrees(ar, ParsePower(s),
                        if PowerDefined(ar, base, exponent.value) && ar.finite(v) then Ok(v) else Invalid)
              && ParsePower(s).Some?
              && ParsePower(s).value.rest == ParseUnary(ParseAtom(s).value.rest[1..]).value.rest
  {
  }

  lemma RestOfChain<T>(s: seq<T>, i: nat, next: nat)
    requires next == i + 1 <= |s|
    ensures s[i..] != [] && s[i..][0] == s[i] && s[i..][1..] == s[next..]
  {
  }

  class Parser<F> {
    const ar: Arith<F>
    const toks: seq<Token<F>>
    var pos: nat

    constructor (ar: Arith<F>, toks: seq<Token<F>>)
      ensures this.ar == ar && this.toks == toks && pos == 0
    {
      this.ar := ar;
      this.toks := toks;
      pos := 0;
    }

    function Peek(): (t: Option<Token<F>>)
      reads this`pos
      ensures t == if pos < |toks| && |toks[pos..]| > 0 then Some(toks[pos..][0]) else None
    {
      if pos < |toks| then Some(toks[pos]) else None
    }

    predicate NextIs(p: Operator -> bool)
      reads this`pos
      ensures NextIs(p) == (pos <= |toks| && StartsWith(toks[pos..], p))
    {
      Peek().Some? && Peek().value.Op? && p(Peek().value.op)
    }

    method Expr() returns (r: Result<F>)
      requires pos <= |toks|
      modifies this`pos
      ensures old(pos) <= pos <= |toks|
      ensures Agrees(ar, ParseExpr(toks[old(pos)..]), r)
      ensures r.Ok? ==> old(pos) < pos && toks[pos..] == ParseExpr(toks[old(pos)..]).value.rest
      decreases |toks| - pos, 4
    {
      ghost var s, goal := toks[pos..], ParseExpr(toks[pos..]);
      r := Term();
      if r.Invalid? {
        if ParseTerm(s).Some? {
          MoreTermsKeepsFailure(ar, ParseTerm(s).value.tree, ParseTerm(s).value.rest);
        }
        return;
      }
      var v := r.value;
      ghost var tree := ParseTerm(s).value.tree;
      while NextIs(Additive)
        invariant old(pos) < pos <= |toks|
        invariant Computable(ar, tree) && v == Value(ar, tree)
        invariant goal == MoreTerms(tree, toks[pos..])
        decreases |toks| - pos
      {
        var op := toks[pos].op;
        ghost var chain := toks[pos..];
        var next := pos + 1;
        RestOfChain(toks, pos, next);
        pos := next;
        var right := Term();
        if right.Invalid? {
          TermFails(ar, tree, chain);
          return Invalid;
        }
        tree := TermJoins(ar, tree, chain, right.value);
        v := if op == Plus then ar.add(v, right.value) else ar.sub(v, right.value);
        if !ar.finite(v) {
          return Invalid;
        }
      }
      r := Ok(v);
    }

    method Term() returns (r: Result<F>)
      requires pos <= |toks|
      modifies this`pos
      ensures old(pos) <= pos <= |toks|
      ensures Agrees(ar, ParseTerm(toks[old(pos)..]), r)
      ensures r.Ok? ==> old(pos) < pos && toks[pos..] == ParseTerm(toks[old(pos)..]).value.rest
      decreases |toks| - pos, 3
    {
      ghost var s, goal := toks[pos..], ParseTerm(toks[pos..]);
      r := Unary();
      if r.Invalid? {
        if ParseUnary(s).Some? {
          MoreFactorsKeepsFailure(ar, ParseUnary(s).value.tree, ParseUnary(s).value.rest);
        }
        return;
      }
      var v := r.value;
      ghost var tree := ParseUnary(s).value.tree;
      while NextIs(Multiplicative)
        invariant old(pos) < pos <= |toks|
        invariant Computable(ar, tree) && v == Value(ar, tree)
        invariant goal == MoreFactors(tree, toks[pos..])
        decreases |toks| - pos
      {
        var op := toks[pos].op;
        ghost var chain := toks[pos..];
        var next := pos + 1;
        RestOfChain(toks, pos, next);
        pos := next;
        var right := Unary();
        if right.Invalid? {
          FactorFails(ar, tree, chain);
          return Invalid;
        }
        tree := FactorJoins(ar, tree, chain, right.value);
        if op == Over && ar.zero(right.value) {
          return Invalid;
        }
        v := if op == Times then ar.mul(v, right.value) else ar.div(v, right.value);
        if !ar.finite(v) {
          return Invalid;
        }
      }
      r := Ok(v);
    }

    method Unary() returns (r: Result<F>)
      requires pos <= |toks|
      modifies this`pos
      ensures old(pos) <= pos <= |toks|
      ensures Agrees(ar, ParseUnary(toks[old(pos)..]), r)
      ensures r.Ok? ==> old(pos) < pos && toks[pos..] == ParseUnary(toks[old(pos)..]).value.rest
      decreases |toks| - pos, 2
    {
      if NextIs(Additive) {
        var op := toks[pos].op;
        assert toks[pos..][1..] == toks[pos + 1..];
        pos := pos + 1;
        r := Unary();
        if r.Ok? && op == Minus {
          r := Ok(ar.neg(r.value));
        }
      } else {
        r := PowerRule();
      }
    }

    method PowerRule() returns (r: Result<F>)
      requires pos <= |toks|
      modifies this`pos
      ensures old(pos) <= pos <= |toks|
      ensures Agrees(ar, ParsePower(toks[old(pos)..]), r)
      ensures r.Ok? ==> old(pos) < pos && toks[pos..] == ParsePower(toks[old(pos)..]).value.rest
      decreases |toks| - pos, 1
    {
      ghost var s := toks[pos..];
      r := Atom();
      if r.Invalid? || !NextIs(IsPower) {
        return;
      }
      var base := r.value;
      assert toks[pos..][1..] == toks[pos + 1..];
      pos := pos + 1;
      var exponent := Unary();
      PowerJoins(ar, s, base, exponent);
      if exponent.Invalid? {
        return Invalid;
      }
      var exp := exponent.value;
      if !ar.finite(base) || !ar.finite(exp) {
        return Invalid;
      } else if ar.beyond(exp, MAX_EXPONENT) {
        return Invalid;
      } else if ar.negative(base) && !ar.whole(exp) {
        return Invalid;
      } else if ar.zero(base) && ar.negative(exp) {
        return Invalid;
      }
      var v := ar.pow(base, exp);
      r := if ar.finite(v) then Ok(v) else Invalid;
    }

    method Atom() returns (r: Result<F>)
      requires pos <= |toks|
      modifies this`pos
      ensures old(pos) <= pos <= |toks|
      ensures Agrees(ar, ParseAtom(toks[old(pos)..]), r)
      ensures r.Ok? ==> old(pos) < pos && toks[pos..] == ParseAtom(toks[old(pos)..]).value.rest
      decreases |toks| - pos, 0
    {
      var t := Peek();
      if t.None? {
        return Invalid;
      }
      assert toks[pos..][1..] == toks[pos + 1..];
      match t.value {
        case Num(v, _, _) =>
          pos := pos + 1;
          r := Ok(v);
        case LParen =>
          pos := pos + 1;
          r := Expr();
          if r.Ok? {
            var c := Peek();
            if c.None? || !c.value.RParen? {
              return Invalid;
            }
            assert toks[pos..][1..] == toks[pos + 1..];
            pos := pos + 1;
          }
        case _ =>
          r := Invalid;
      }
    }
  }

  /** The value of one token list, as Evaluate computes it after tokenizing. */
  method EvaluateTokens<F(!new)>(ar: Arith<F>, toks: seq<Token<F>>) returns (r: Result<F>)
    ensures forall v :: r == Ok(v) <==> Evaluates(ar, toks, v)
  {
    var p := new Parser(ar, toks);
    r := p.Expr();
    assert toks[0..] == toks;
    if r.Ok? && (p.pos != |toks| || !ar.finite(r.value)) {
      r := Invalid;
    }
    EvaluatesIffParsed(ar, toks);
  }

  /** A token list has a value exactly when the parser consumes all of it and its tree is computable. */
  lemma EvaluatesIffParsed<F(!new)>(ar: Arith<F>, toks: seq<Token<F>>)
    ensures forall v :: Evaluates(ar, toks, v) <==>
              && ParseExpr(toks).Some? && ParseExpr(toks).value.rest == []
              && Agrees(ar, ParseExpr(toks), Ok(v)) && ar.finite(v)
  {
    forall v | Evaluates(ar, toks, v)
      ensures ParseExpr(toks).Some? && ParseExpr(toks).value.rest == [] && Agrees(ar, ParseExpr(toks), Ok(v))
    {
      var e: Expr<F> :| Denotes(ar, e, toks, v);
      ParseFindsTree(e);
    }
    ExprSound(toks);
    if ParseExpr(toks).Some? && ParseExpr(toks).value.rest == [] {
      var e := ParseExpr(toks).value.tree;
      assert Flatten(e) + [] == Flatten(e);
      assert forall v :: Agrees(ar, ParseExpr(toks), Ok(v)) ==> Denotes(ar, e, toks, v);
    }
  }

  /** An expression has at most one value. */
  lemma ValueIsUnique<F(!new)>(ar: Arith<F>, toks: seq<Token<F>>, v: F, w: F)
    requires Evaluates(ar, toks, v) && Evaluates(ar, toks, w)
    ensures v == w
  {
    EvaluatesIffParsed(ar, toks);
  }
}
