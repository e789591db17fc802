/** Start pages that cannot be true are cleared in place (repairStarts). */
module TocRepair {
  import opened TocTree
  import opened TocOrder

  // ---------------------------------------------------------------- what a repair is

  /** A section never begins on the contents page itself, or before what holds it begins. */
  predicate Impossible(p: int, floor: int, toc: set<int>) {
    p > 0 && (p in toc || p < floor)
  }

  /** The starts left once the impossible ones are cleared. */
  function Possible(s: seq<int>, floor: int, toc: set<int>): (t: seq<int>)
    ensures |t| == |s| && forall i | 0 <= i < |s| :: t[i] == if Impossible(s[i], floor, toc) then 0 else s[i]
  {
    seq(|s|, i requires 0 <= i < |s| => if Impossible(s[i], floor, toc) then 0 else s[i])
  }

  /** The page that what a node holds may not begin before. */
  function FloorUnder(floor: int, start: int): int { if start > 0 then start else floor }

  /** `after` is `before` repaired: among siblings the impossible starts go, then the fewest that put the
      rest in order; a cleared node loses its end too; and the same again inside each node. */
  ghost predicate Repaired(before: seq<Node>, after: seq<Node>, floor: int, toc: set<int>)
    decreases before, 0
  {
    && |after| == |before|
    && FewestCleared(Possible(Starts(before), floor, toc), Starts(after))
    && forall i | 0 <= i < |before| :: RepairedOf(before[i], after[i], floor, toc)
  }

  ghost predicate RepairedOf(b: Node, a: Node, floor: int, toc: set<int>)
    decreases b, 1
  {
    && a.title == b.title
    && a.end == (if a.start == b.start then b.end else 0)
    && Repaired(b.kids, a.kids, FloorUnder(floor, a.start), toc)
  }

  /** How many nodes of a forest are placed. */
  function PlacedIn(ns: seq<Node>): nat
    decreases ns, 1
  {
    Count(Starts(ns)) + PlacedBelow(ns)
  }

  function PlacedBelow(ns: seq<Node>): nat
    decreases ns, 0
  {
    if ns == [] then 0 else PlacedBelow(ns[..|ns| - 1]) + PlacedIn(ns[|ns| - 1].kids)
  }

  // ---------------------------------------------------------------- what a repair achieves

  /** No placed node is on a contents page, before what holds it, or before an earlier placed sibling. */
  ghost predicate Clean(ns: seq<Node>, floor: int, toc: set<int>)
    decreases ns, 0
  {
    InOrder(Starts(ns)) && forall i | 0 <= i < |ns| :: CleanOf(ns[i], floor, toc)
  }

  ghost predicate CleanOf(n: Node, floor: int, toc: set<int>)
    decreases n, 1
  {
    !Impossible(n.start, floor, toc) && Clean(n.kids, FloorUnder(floor, n.start), toc)
  }

  lemma {:induction false} RepairedIsClean(before: seq<Node>, after: seq<Node>, floor: int, toc: set<int>)
    requires Repaired(before, after, floor, toc)
    ensures Clean(after, floor, toc)
    decreases before
  {
    forall i | 0 <= i < |after|
      ensures CleanOf(after[i], floor, toc)
    {
      assert RepairedOf(before[i], after[i], floor, toc);
      RepairedIsClean(before[i].kids, after[i].kids, FloorUnder(floor, after[i].start), toc);
      assert Starts(after)[i] == after[i].start;
    }
  }

  lemma {:induction false} NothingCleared(s: seq<int>, t: seq<int>)
    requires Clears(s, t) && Count(t) >= Count(s)
    ensures t == s
    decreases |s|
  {
    CountFalls(s, t);
    if s != [] {
      var n := |s| - 1;
      CountFalls(s[..n], t[..n]);
      NothingCleared(s[..n], t[..n]);
      assert s == s[..n] + [s[n]] && t == t[..n] + [t[n]];
    }
  }

  lemma {:induction false} CountFalls(s: seq<int>, t: seq<int>)
    requires Clears(s, t)
    ensures Count(t) <= Count(s)
    decreases |s|
  {
    if s != [] {
      CountFalls(s[..|s| - 1], t[..|s| - 1]);
    }
  }

  /** Repairing what is clean changes nothing. */
  lemma {:induction false} CleanStays(before: seq<Node>, after: seq<Node>, floor: int, toc: set<int>)
    requires Clean(before, floor, toc) && Repaired(before, after, floor, toc)
    ensures after == before
    decreases before
  {
    var s := Starts(before);
    assert forall i | 0 <= i < |before| :: CleanOf(before[i], floor, toc);
    assert Possible(s, floor, toc) == s;
    assert Clears(s, s);
    NothingCleared(s, Starts(after));
    forall i | 0 <= i < |before|
      ensures after[i] == before[i]
    {
      assert RepairedOf(before[i], after[i], floor, toc) && CleanOf(before[i], floor, toc);
      assert Starts(after)[i] == after[i].start && s[i] == before[i].start;
      CleanStays(before[i].kids, after[i].kids, FloorUnder(floor, before[i].start), toc);
    }
  }

  /** A second run clears nothing. */
  lemma SecondRepairClearsNothing(before: seq<Node>, once: seq<Node>, twice: seq<Node>, toc: set<int>)
    requires Repaired(before, once, 0, toc) && Repaired(once, twice, 0, toc)
    ensures twice == once
  {
    RepairedIsClean(before, once, 0, toc);
    CleanStays(once, twice, 0, toc);
  }

  /** Some placed node at or under n starts on page p. */
  ghost predicate StartsIn(n: Node, p: int) {
    p > 0 && (n.start == p || exists k | k in n.kids :: StartsIn(k, p))
  }

  /** After a repair no start anywhere is on a contents page or before any placed ancestor's. */
  lemma {:induction false} NotBeforeAncestors(n: Node, floor: int, toc: set<int>, p: int)
    requires CleanOf(n, floor, toc) && StartsIn(n, p)
    ensures p !in toc && p >= floor && (n.start > 0 ==> p >= n.start)
  {
    if n.start != p {
      var k :| k in n.kids && StartsIn(k, p);
      var i :| 0 <= i < |n.kids| && n.kids[i] == k;
      assert CleanOf(n.kids[i], FloorUnder(floor, n.start), toc);
      NotBeforeAncestors(k, FloorUnder(floor, n.start), toc, p);
    }
  }

  // ---------------------------------------------------------------- the repair in place

  function Pages(ts: seq<Toc>): set<Cell> {
    set i | 0 <= i < |ts| :: ts[i].page
  }

  /** Siblings' own cells are distinct and none lies under any of them. */
  lemma PagesApart(ts: seq<Toc>)
    requires Separate(ts)
    ensures forall i, j | 0 <= i < j < |ts| :: ts[i].page != ts[j].page
    ensures forall i | 0 <= i < |ts| :: Pages(ts) !! Cells(ts[i].kids)
    ensures Pages(ts) <= Cells(ts)
  {
    forall i, j | 0 <= i < j < |ts|
      ensures ts[i].page != ts[j].page
    {
      assert CellsOf(ts[i]) !! CellsOf(ts[j]);
      assert ts[i].page in CellsOf(ts[i]) && ts[j].page in CellsOf(ts[j]);
    }
    forall i, j | 0 <= i < |ts| && 0 <= j < |ts|
      ensures ts[j].page !in Cells(ts[i].kids)
    {
      assert ts[j].page in CellsOf(ts[j]);
      assert Cells(ts[i].kids) <= CellsOf(ts[i]);
      assert i != j ==> CellsOf(ts[i]) !! CellsOf(ts[j]);
    }
    PagesWithin(ts);
  }

  lemma {:induction false} CountSnoc(s: seq<int>, i: nat)
    requires i < |s|
    ensures Count(s[..i + 1]) == Count(s[..i]) + if s[i] > 0 then 1 else 0
  {
    assert s[..i + 1][..i] == s[..i];
  }

  /** The sibling pages after some were cleared. */
  ghost predicate ShowsCleared(ts: seq<Toc>, before: seq<Node>, after: seq<int>)
    reads Pages(ts)
  {
    && |ts| == |before| == |after|
    && forall i | 0 <= i < |ts| :: ShowsClearedAt(ts[i].page, before[i], after[i])
  }

  ghost predicate ShowsClearedAt(page: Cell, b: Node, start: int)
    reads page
  {
    page.start == start && page.end == if start == b.start then b.end else 0
  }

  method ClearImpossible(ts: seq<Toc>, floor: int, toc: set<int>, ghost before: seq<Node>) returns (cleared: nat)
    requires forall i, j | 0 <= i < j < |ts| :: ts[i].page != ts[j].page
    requires ShowsCleared(ts, before, Starts(before))
    modifies Pages(ts)
    ensures ShowsCleared(ts, before, Possible(Starts(before), floor, toc))
    ensures cleared + Count(Possible(Starts(before), floor, toc)) == Count(Starts(before))
  {
    ghost var s := Starts(before);
    ghost var t := Possible(s, floor, toc);
    cleared := 0;
    for i := 0 to |ts|
      invariant forall k | 0 <= k < i :: ShowsClearedAt(ts[k].page, before[k], t[k])
      invariant forall k | i <= k < |ts| :: ShowsClearedAt(ts[k].page, before[k], s[k])
      invariant cleared + Count(t[..i]) == Count(s[..i])
    {
      CountSnoc(s, i);
      CountSnoc(t, i);
      assert ShowsClearedAt(ts[i].page, before[i], s[i]);
      var gone := ClearIfImpossible(ts[i].page, floor, toc);
      cleared := cleared + gone;
    }
    assert s[..|s|] == s && t[..|t|] == t;
  }

  method ClearIfImpossible(page: Cell, floor: int, toc: set<int>) returns (cleared: nat)
    modifies page
    ensures var gone := Impossible(old(page.start), floor, toc);
            && page.start == (if gone then 0 else old(page.start))
            && page.end == (if gone then 0 else old(page.end))
            && cleared == (if gone then 1 else 0)
  {
    cleared := 0;
    if Impossible(page.start, floor, toc) {
      page.start, page.end := 0, 0;
      cleared := 1;
    }
  }

  method ReadStarts(ts: seq<Toc>, ghost before: seq<Node>, ghost s: seq<int>) returns (starts: seq<int>)
    requires ShowsCleared(ts, before, s)
    ensures starts == s
  {
    starts := [];
    for i := 0 to |ts|
      invariant starts == s[..i]
    {
      assert ShowsClearedAt(ts[i].page, before[i], s[i]);
      starts := starts + [ts[i].page.start];
    }
  }

  method ClearAll(ts: seq<Toc>, out: seq<nat>, ghost before: seq<Node>, ghost s: seq<int>)
    requires forall i, j | 0 <= i < j < |ts| :: ts[i].page != ts[j].page
    requires Clears(Starts(before), s) && ShowsCleared(ts, before, s)
    requires Ascending(out) && forall i | i in out :: i < |s| && s[i] > 0
    modifies Pages(ts)
    ensures ShowsCleared(ts, before, ClearedAt(s, out))
  {
    for k := 0 to |out|
      invariant forall i | 0 <= i < |ts| :: ShowsClearedAt(ts[i].page, before[i], ClearedAt(s, out[..k])[i])
    {
      var i := out[k];
      assert i in out && ClearedAt(s, out[..k])[i] == s[i];
      assert ShowsClearedAt(ts[i].page, before[i], s[i]);
      ts[i].page.start, ts[i].page.end := 0, 0;
      assert out[..k + 1] == out[..k] + [i];
      assert Starts(before)[i] == before[i].start;
    }
    assert out[..|out|] == out;
  }

  method ClearOutOfOrder(ts: seq<Toc>, ghost before: seq<Node>, ghost s: seq<int>)
    returns (cleared: nat, ghost after: seq<int>)
    requires forall i, j | 0 <= i < j < |ts| :: ts[i].page != ts[j].page
    requires Clears(Starts(before), s) && ShowsCleared(ts, before, s)
    modifies Pages(ts)
    ensures FewestCleared(s, after) && ShowsCleared(ts, before, after)
    ensures cleared + Count(after) == Count(s)
  {
    var starts := ReadStarts(ts, before, s);
    var out := OutOfOrder(starts);
    after := ClearedAt(s, out);
    ClearedCount(s, out);
    ClearAll(ts, out, before, s);
    cleared := |out|;
  }

  /** The siblings' own pages are settled; the same repair goes on under node i. */
  method RepairUnder(ts: seq<Toc>, i: nat, floor: int, toc: set<int>, ghost vals: seq<Node>)
    returns (cleared: nat, ghost kids: seq<Node>)
    requires Separate(ts) && i < |ts| && Shows(ts, vals)
    modifies Cells(ts)
    ensures Shows(ts, vals[i := vals[i].(kids := kids)])
    ensures Repaired(vals[i].kids, kids, FloorUnder(floor, vals[i].start), toc)
    ensures cleared + PlacedIn(kids) == PlacedIn(vals[i].kids)
    decreases ts, 0
  {
    assert Cells(ts[i].kids) <= CellsOf(ts[i]) <= Cells(ts);
    assert ValOf(ts[i]) == vals[i];
    var childFloor := floor;
    if ts[i].page.start > 0 {
      childFloor := ts[i].page.start;
    }
    cleared := RepairWalk(ts[i].kids, childFloor, toc);
    kids := Val(ts[i].kids);
    forall k | 0 <= k < |ts|
      ensures ValOf(ts[k]) == vals[i := vals[i].(kids := kids)][k]
    {
      if k != i {
        assert CellsOf(ts[k]) !! CellsOf(ts[i]);
        TreeKept(ts[k]);
      }
    }
  }

  lemma BelowSnoc(ns: seq<Node>, i: nat)
    requires i < |ns|
    ensures PlacedBelow(ns[..i + 1]) == PlacedBelow(ns[..i]) + PlacedIn(ns[i].kids)
  {
    assert ns[..i + 1][..i] == ns[..i];
  }

  /** The first n siblings are repaired inside, the rest as they were. */
  ghost predicate Progress(mid: seq<Node>, after: seq<Node>, n: nat, floor: int, toc: set<int>) {
    && |after| == |mid|
    && (forall k | 0 <= k < n && k < |mid| :: KidsRepaired(mid[k], after[k], floor, toc))
    && (forall k | n <= k < |mid| :: after[k] == mid[k])
  }

  lemma ProgressStep(mid: seq<Node>, after: seq<Node>, n: nat, floor: int, toc: set<int>, kids: seq<Node>,
                     cleared: nat, c: nat)
    returns (next: seq<Node>)
    requires Progress(mid, after, n, floor, toc) && n < |mid|
    requires Repaired(mid[n].kids, kids, FloorUnder(floor, mid[n].start), toc)
    requires cleared + PlacedBelow(after[..n]) == PlacedBelow(mid[..n]) && c + PlacedIn(kids) == PlacedIn(mid[n].kids)
    ensures next == after[n := mid[n].(kids := kids)] && Progress(mid, next, n + 1, floor, toc)
    ensures cleared + c + PlacedBelow(next[..n + 1]) == PlacedBelow(mid[..n + 1])
  {
    next := after[n := mid[n].(kids := kids)];
    assert next[..n] == after[..n];
    BelowSnoc(next, n);
    BelowSnoc(mid, n);
  }

  lemma ProgressDone(mid: seq<Node>, after: seq<Node>, floor: int, toc: set<int>)
    requires Progress(mid, after, |mid|, floor, toc)
    ensures Starts(after) == Starts(mid)
  {
    assert forall k | 0 <= k < |mid| :: KidsRepaired(mid[k], after[k], floor, toc);
  }

  method RepairKids(ts: seq<Toc>, floor: int, toc: set<int>, ghost mid: seq<Node>) returns (cleared: nat)
    requires Separate(ts) && Val(ts) == mid
    modifies Cells(ts)
    ensures Progress(mid, Val(ts), |ts|, floor, toc)
    ensures cleared + PlacedBelow(Val(ts)) == PlacedBelow(mid)
    decreases ts, 1
  {
    cleared := 0;
    ghost var after := mid;
    for i := 0 to |ts|
      invariant Progress(mid, after, i, floor, toc)
      invariant Shows(ts, after)
      invariant cleared + PlacedBelow(after[..i]) == PlacedBelow(mid[..i])
    {
      var c, kids := RepairUnder(ts, i, floor, toc, after);
      after := ProgressStep(mid, after, i, floor, toc, kids, cleared, c);
      cleared := cleared + c;
    }
    assert Val(ts) == after && after[..|ts|] == after && mid[..|ts|] == mid;
  }

  ghost predicate KidsRepaired(m: Node, a: Node, floor: int, toc: set<int>) {
    a == m.(kids := a.kids) && Repaired(m.kids, a.kids, FloorUnder(floor, m.start), toc)
  }

  method RepairWalk(ts: seq<Toc>, floor: int, toc: set<int>) returns (cleared: nat)
    requires Separate(ts)
    modifies Cells(ts)
    ensures Repaired(old(Val(ts)), Val(ts), floor, toc)
    ensures cleared + PlacedIn(Val(ts)) == PlacedIn(old(Val(ts)))
    decreases ts, 2
  {
    ghost var before := Val(ts);
    PagesApart(ts);
    var c1, c2, after := ClearPages(ts, floor, toc, before);
    ghost var mid := Val(ts);
    var c3 := RepairKids(ts, floor, toc, mid);
    ProgressDone(mid, Val(ts), floor, toc);
    cleared := c1 + c2 + c3;
    BelowSame(before, mid);
    assert Starts(mid) == after;
    forall i | 0 <= i < |ts|
      ensures RepairedOf(before[i], Val(ts)[i], floor, toc)
    {
      assert KidsRepaired(mid[i], Val(ts)[i], floor, toc);
    }
  }

  lemma {:induction false} BelowSame(a: seq<Node>, b: seq<Node>)
    requires |a| == |b| && forall i | 0 <= i < |a| :: a[i].kids == b[i].kids
    ensures PlacedBelow(a) == PlacedBelow(b)
    decreases |a|
  {
    if a != [] {
      BelowSame(a[..|a| - 1], b[..|b| - 1]);
    }
  }

  /** The two passes over the siblings' own pages. */
  method ClearPages(ts: seq<Toc>, floor: int, toc: set<int>, ghost before: seq<Node>)
    returns (c1: nat, c2: nat, ghost after: seq<int>)
    requires Separate(ts) && Val(ts) == before
    modifies Pages(ts)
    ensures FewestCleared(Possible(Starts(before), floor, toc), after)
    ensures c1 + c2 + Count(after) == Count(Starts(before))
    ensures forall i | 0 <= i < |ts| ::
              ValOf(ts[i])
                  == before[i].(start := after[i], end := if after[i] == before[i].start then before[i].end else 0)
  {
    PagesApart(ts);
    assert ShowsCleared(ts, before, Starts(before));
    c1 := ClearImpossible(ts, floor, toc, before);
    c2, after := ClearOutOfOrder(ts, before, Possible(Starts(before), floor, toc));
    forall i | 0 <= i < |ts|
      ensures ValOf(ts[i])
              == before[i].(start := after[i], end := if after[i] == before[i].start then before[i].end else 0)
    {
      assert ShowsClearedAt(ts[i].page, before[i], after[i]);
      KidsKept(ts[i].kids);
    }
  }

  /** Clears the starts that cannot be true, everywhere in the tree. */
  method RepairStarts(nodes: seq<Toc>, tocPages: seq<int>) returns (cleared: nat)
    requires Separate(nodes)
    modifies Cells(nodes)
    ensures Repaired(old(Val(nodes)), Val(nodes), 0, set p | p in tocPages)
    ensures cleared + PlacedIn(Val(nodes)) == PlacedIn(old(Val(nodes)))
  {
    var onToc: set<int> := {};
    for i := 0 to |tocPages|
      invariant onToc == set p | p in tocPages[..i]
    {
      onToc := onToc + {tocPages[i]};
    }
    assert tocPages[..|tocPages|] == tocPages;
    cleared := RepairWalk(nodes, 0, onToc);
  }
}
