/** Pages grouped into requests (batchByTokens): the grouping is greedy, and no grouping that keeps the
    pages in order uses fewer requests. */
module TocBatch {

  /** What one request's pages may cost, and what asking about a page adds to its text. */
  const JUDGE_BUDGET: nat := 24000
  const QUESTION_OVERHEAD: nat := 96

  function Cost<P>(tokens: P -> nat, page: P): nat { tokens(page) + QUESTION_OVERHEAD }

  function Total<P>(tokens: P -> nat, pages: seq<P>): nat {
    if pages == [] then 0 else Total(tokens, pages[..|pages| - 1]) + Cost(tokens, pages[|pages| - 1])
  }

  /** The pages that fit a request alone. */
  function Fitting<P>(tokens: P -> nat, pages: seq<P>): seq<P> {
    if pages == [] then []
    else
      var p := pages[|pages| - 1];
      Fitting(tokens, pages[..|pages| - 1]) + if Cost(tokens, p) <= JUDGE_BUDGET then [p] else []
  }

  function Concat<P>(g: seq<seq<P>>): seq<P> {
    if g == [] then [] else Concat(g[..|g| - 1]) + g[|g| - 1]
  }

  /** A way to ask about `pages` in order: every batch holds something and is within budget. */
  ghost predicate Grouping<P>(tokens: P -> nat, g: seq<seq<P>>, pages: seq<P>) {
    Concat(g) == pages && forall b | b in g :: b != [] && Total(tokens, b) <= JUDGE_BUDGET
  }

  function Last<T>(s: seq<T>): T
    requires s != []
  {
    s[|s| - 1]
  }

  function Front<T>(s: seq<T>): seq<T>
    requires s != []
  {
    s[..|s| - 1]
  }

  /** No grouping of the pages so far has fewer batches, and one with as many ends on a batch at least
      as long: the greedy grouping is never behind. */
  ghost predicate Ahead<P(!new)>(tokens: P -> nat, greedy: seq<seq<P>>, pages: seq<P>) {
    forall g | Grouping(tokens, g, pages) ::
      && |g| >= |greedy|
      && (greedy != [] && |g| == |greedy| ==> |Last(g)| >= |Last(greedy)|)
  }

  lemma {:induction false} TotalOfSuffix<P>(tokens: P -> nat, a: seq<P>, b: seq<P>)
    ensures Total(tokens, a + b) >= Total(tokens, b)
    decreases |b|
  {
    if b != [] {
      assert Front(a + b) == a + Front(b);
      TotalOfSuffix(tokens, a, Front(b));
    }
  }

  /** Of two tails of the same pages the longer one costs at least as much. */
  lemma LongerTailCostsMore<P>(tokens: P -> nat, x: seq<P>, cur: seq<P>, y: seq<P>, b: seq<P>)
    requires x + cur == y + b && |b| >= |cur|
    ensures Total(tokens, b) >= Total(tokens, cur)
  {
    var whole := x + cur;
    assert b == whole[|y|..] && cur == whole[|x|..];
    assert b == b[..|b| - |cur|] + cur;
    TotalOfSuffix(tokens, b[..|b| - |cur|], cur);
  }

  lemma GroupingGrows<P>(tokens: P -> nat, out: seq<seq<P>>, cur: seq<P>, pages: seq<P>, p: P)
    requires Grouping(tokens, out + [cur], pages) && Total(tokens, cur + [p]) <= JUDGE_BUDGET
    ensures Grouping(tokens, out + [cur + [p]], pages + [p])
  {
    var g, g' := out + [cur], out + [cur + [p]];
    assert Front(g) == out == Front(g');
    assert Concat(out) + (cur + [p]) == Concat(out) + cur + [p];
    assert forall b | b in out :: b in g;
  }

  lemma GroupingStarts<P>(tokens: P -> nat, g: seq<seq<P>>, pages: seq<P>, p: P)
    requires Grouping(tokens, g, pages) && Cost(tokens, p) <= JUDGE_BUDGET
    ensures Grouping(tokens, g + [[p]], pages + [p])
  {
    assert Front(g + [[p]]) == g;
    assert Front([p]) == [];
  }

  /** A grouping that ends on page p, with p taken off. */
  lemma WithoutLast<P>(tokens: P -> nat, g: seq<seq<P>>, pages: seq<P>, p: P) returns (h: seq<seq<P>>)
    requires Grouping(tokens, g, pages + [p])
    ensures g != [] && Grouping(tokens, h, pages)
    ensures if |Last(g)| == 1 then h == Front(g) else |h| == |g| && Last(g) == Last(h) + [p]
  {
    var b := Last(g);
    assert b in g;
    assert Concat(g) == Concat(Front(g)) + b;
    assert Last(b) == Last(Concat(g)) == p;
    assert forall c | c in Front(g) :: c in g;
    if |b| == 1 {
      h := Front(g);
      assert Concat(h) == Front(Concat(g)) == pages;
    } else {
      h := Front(g) + [Front(b)];
      assert Front(h) == Front(g);
      assert Concat(h) == Front(Concat(g)) == pages;
      assert b == Front(b) + [p];
      assert Front(Front(b) + [p]) == Front(b);
    }
  }

  lemma AheadWhenItFits<P(!new)>(tokens: P -> nat, out: seq<seq<P>>, cur: seq<P>, pages: seq<P>, p: P)
    requires Ahead(tokens, out + [cur], pages)
    ensures Ahead(tokens, out + [cur + [p]], pages + [p])
  {
    forall g | Grouping(tokens, g, pages + [p])
      ensures |g| >= |out| + 1 && (|g| == |out| + 1 ==> |Last(g)| >= |cur| + 1)
    {
      var h := WithoutLast(tokens, g, pages, p);
    }
  }

  lemma AheadWhenItDoesNot<P(!new)>(tokens: P -> nat, out: seq<seq<P>>, cur: seq<P>, pages: seq<P>, p: P)
    requires Ahead(tokens, out + [cur], pages) && Grouping(tokens, out + [cur], pages)
    requires Total(tokens, cur) + Cost(tokens, p) > JUDGE_BUDGET
    ensures Ahead(tokens, out + [cur] + [[p]], pages + [p])
  {
    var greedy := out + [cur];
    forall g | Grouping(tokens, g, pages + [p])
      ensures |g| >= |greedy| + 1 && |Last(g)| >= 1
    {
      var h := WithoutLast(tokens, g, pages, p);
      assert Last(g) in g;
      if |Last(g)| > 1 && |h| == |greedy| {
        var b := Last(h);
        assert Front(Last(g)) == b;
        LongerTailCostsMore(tokens, Concat(Front(greedy)), cur, Concat(Front(h)), b);
      }
    }
  }

  /** The greedy grouping before the last batch is closed. */
  ghost predicate Greedy<P(!new)>(tokens: P -> nat, out: seq<seq<P>>, cur: seq<P>, asked: seq<P>) {
    && (cur == [] ==> out == [] && asked == [])
    && (cur != [] ==> Grouping(tokens, out + [cur], asked) && Ahead(tokens, out + [cur], asked))
  }

  lemma FittingStep<P>(tokens: P -> nat, pages: seq<P>, i: nat)
    requires i < |pages|
    ensures Fitting(tokens, pages[..i + 1])
            == Fitting(tokens, pages[..i]) + if Cost(tokens, pages[i]) <= JUDGE_BUDGET then [pages[i]] else []
  {
    assert pages[..i + 1][..i] == pages[..i];
  }

  /** A page joins the open batch if there is room, and opens the next one if there is not. */
  lemma GreedyStep<P(!new)>(tokens: P -> nat, out: seq<seq<P>>, cur: seq<P>, asked: seq<P>, p: P)
    requires Greedy(tokens, out, cur, asked) && Cost(tokens, p) <= JUDGE_BUDGET
    ensures var full := cur != [] && Total(tokens, cur) + Cost(tokens, p) > JUDGE_BUDGET;
            Greedy(tokens, if full then out + [cur] else out, (if full then [] else cur) + [p], asked + [p])
    ensures Total(tokens, cur + [p]) == Total(tokens, cur) + Cost(tokens, p)
            && Total(tokens, [] + [p]) == Cost(tokens, p)
  {
    assert Front(cur + [p]) == cur && Front([p]) == [] && [] + [p] == [p];
    if cur == [] {
      FirstPage(tokens, p);
    } else if Total(tokens, cur) + Cost(tokens, p) > JUDGE_BUDGET {
      GroupingStarts(tokens, out + [cur], asked, p);
      AheadWhenItDoesNot(tokens, out, cur, asked, p);
    } else {
      GroupingGrows(tokens, out, cur, asked, p);
      AheadWhenItFits(tokens, out, cur, asked, p);
    }
  }

  /** The batches in order, none empty or over budget, and as few as can be. */
  ghost predicate Best<P(!new)>(tokens: P -> nat, out: seq<seq<P>>, pages: seq<P>) {
    Grouping(tokens, out, pages) && forall g | Grouping(tokens, g, pages) :: |out| <= |g|
  }

  lemma GreedyIsBest<P(!new)>(tokens: P -> nat, out: seq<seq<P>>, cur: seq<P>, asked: seq<P>)
    requires Greedy(tokens, out, cur, asked)
    ensures Best(tokens, if |cur| > 0 then out + [cur] else out, asked)
  {
  }

  function Tokens<P>(tokens: P -> nat, pages: seq<P>): nat {
    if pages == [] then 0 else Tokens(tokens, pages[..|pages| - 1]) + tokens(pages[|pages| - 1])
  }

  /** What a request costs: its pages' tokens and 96 for each. */
  lemma {:induction false} RequestCosts<P>(tokens: P -> nat, pages: seq<P>)
    ensures Total(tokens, pages) == Tokens(tokens, pages) + 96 * |pages|
    decreases |pages|
  {
    if pages != [] {
      RequestCosts(tokens, pages[..|pages| - 1]);
    }
  }

  /** The pages asked about are those that fit a request of 24000 alone. */
  lemma {:induction false} FittingIs<P(!new)>(tokens: P -> nat, a: seq<P>, p: P, b: seq<P>)
    ensures Fitting(tokens, a + [p] + b)
            == Fitting(tokens, a) + (if tokens(p) + 96 <= 24000 then [p] else []) + Fitting(tokens, b)
    decreases |b|
  {
    var all := a + [p] + b;
    if b == [] {
      assert all == a + [p] && all[..|all| - 1] == a;
    } else {
      var front := b[..|b| - 1];
      assert all[..|all| - 1] == a + [p] + front;
      FittingIs(tokens, a, p, front);
    }
  }

  method BatchByTokens<P(!new)>(tokens: P -> nat, pages: seq<P>) returns (out: seq<seq<P>>)
    ensures Best(tokens, out, Fitting(tokens, pages))
  {
    out := [];
    var cur: seq<P> := [];
    var used := 0;
    for i := 0 to |pages|
      invariant used == Total(tokens, cur) && Greedy(tokens, out, cur, Fitting(tokens, pages[..i]))
    {
      FittingStep(tokens, pages, i);
      var p := pages[i];
      var cost := Cost(tokens, p);
      if cost > JUDGE_BUDGET {
        continue;
      }
      GreedyStep(tokens, out, cur, Fitting(tokens, pages[..i]), p);
      if |cur| > 0 && used + cost > JUDGE_BUDGET {
        out := out + [cur];
        cur, used := [], 0;
      }
      cur := cur + [p];
      used := used + cost;
    }
    assert pages[..|pages|] == pages;
    GreedyIsBest(tokens, out, cur, Fitting(tokens, pages));
    if |cur| > 0 {
      out := out + [cur];
    }
  }

  lemma FirstPage<P(!new)>(tokens: P -> nat, p: P)
    requires Cost(tokens, p) <= JUDGE_BUDGET
    ensures Grouping(tokens, [] + [[] + [p]], [] + [p]) && Ahead(tokens, [] + [[] + [p]], [] + [p])
  {
    GroupingStarts(tokens, [], [], p);
    assert [] + [p] == [p];
    forall g | Grouping(tokens, g, [] + [p])
      ensures |g| >= 1 && |Last(g)| >= 1
    {
      var h := WithoutLast(tokens, g, [], p);
      assert Last(g) in g;
    }
  }
}
