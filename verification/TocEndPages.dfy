/** End pages from start pages (inheritParentStarts, deriveEndPages) and what readers may expect of the
    spans. */
module TocEndPages {
  import opened TocTree

  // ---------------------------------------------------------------- the derivation on values

  /** The smallest placed start among the children, from `s` as found so far. */
  function FirstChildStart(s: int, kids: seq<Node>): int
    decreases kids
  {
    if kids == [] then s
    else
      var k := kids[0].start;
      FirstChildStart(if k > 0 && (s == 0 || k < s) then k else s, kids[1..])
  }

  function InheritOf(n: Node): Node
    decreases n, 1
  {
    if n.kids == [] then n
    else
      var kids := Inherit(n.kids);
      n.(kids := kids, start := if n.start > 0 then n.start else FirstChildStart(n.start, kids))
  }

  /** A container without a page gets the first page any of its children starts on. */
  function Inherit(ns: seq<Node>): (r: seq<Node>)
    ensures |r| == |ns| && forall i | 0 <= i < |ns| :: r[i] == InheritOf(ns[i])
    decreases ns, 0
  {
    if ns == [] then [] else [InheritOf(ns[0])] + Inherit(ns[1..])
  }

  /** Where the siblings that follow end a section that starts on page s; zero if they do not. */
  function NextEnd(s: int, later: seq<Node>): int {
    if later == [] then 0
    else
      var next := later[0].start;
      if next == 0 || s == 0 then NextEnd(s, later[1..])
      else if next == s then s
      else if next > s then next - 1
      else NextEnd(s, later[1..])
  }

  function Max(a: int, b: int): int { if a < b then b else a }

  function MaxEnd(e: int, kids: seq<Node>): int
    decreases kids
  {
    if kids == [] then e else MaxEnd(Max(e, kids[0].end), kids[1..])
  }

  /** A node's own end, before its children are looked at. */
  function OwnEnd(n: Node, later: seq<Node>, ceiling: int): int {
    var end := NextEnd(n.start, later);
    if n.start > 0 then Max(if end <= 0 then ceiling else end, n.start) else n.end
  }

  function DeriveOf(n: Node, later: seq<Node>, ceiling: int): Node
    decreases n, 1
  {
    var own := OwnEnd(n, later, ceiling);
    var kids := Derive(n.kids, if own == 0 then ceiling else own);
    n.(kids := kids, end := MaxEnd(own, kids))
  }

  function Derive(ns: seq<Node>, ceiling: int): (r: seq<Node>)
    ensures |r| == |ns|
    decreases ns, 0
  {
    if ns == [] then [] else [DeriveOf(ns[0], ns[1..], ceiling)] + Derive(ns[1..], ceiling)
  }

  lemma {:induction false} DeriveIndex(ns: seq<Node>, ceiling: int, i: nat)
    requires i < |ns|
    ensures Derive(ns, ceiling)[i] == DeriveOf(ns[i], ns[i + 1..], ceiling)
    ensures Derive(ns, ceiling)[i].start == ns[i].start
    decreases |ns|
  {
    if i > 0 {
      DeriveIndex(ns[1..], ceiling, i - 1);
      assert ns[1..][i..] == ns[i + 1..];
    }
  }

  // ---------------------------------------------------------------- the derivation in place

  method InheritParentStarts(nodes: seq<Toc>)
    requires Separate(nodes)
    modifies Cells(nodes)
    ensures Val(nodes) == Inherit(old(Val(nodes)))
    decreases nodes, 1
  {
    ghost var before := Val(nodes);
    ghost var goal := Inherit(before);
    for i := 0 to |nodes|
      invariant forall k | 0 <= k < i :: ValOf(nodes[k]) == goal[k]
      invariant forall k | i <= k < |nodes| :: ValOf(nodes[k]) == before[k]
    {
      InheritAt(nodes, i, before[i]);
    }
  }

  method InheritAt(nodes: seq<Toc>, i: nat, ghost val: Node)
    requires Separate(nodes) && i < |nodes| && ValOf(nodes[i]) == val
    modifies CellsOf(nodes[i])
    ensures ValOf(nodes[i]) == InheritOf(val)
    ensures forall k | 0 <= k < |nodes| && k != i :: ValOf(nodes[k]) == old(ValOf(nodes[k]))
    decreases nodes, 0
  {
    InheritOne(nodes[i], val);
    forall k | 0 <= k < |nodes| && k != i
      ensures ValOf(nodes[k]) == old(ValOf(nodes[k]))
    {
      assert CellsOf(nodes[k]) !! CellsOf(nodes[i]);
      TreeKept(nodes[k]);
    }
  }

  method InheritOne(n: Toc, ghost val: Node)
    requires n.page !in Cells(n.kids) && Separate(n.kids) && ValOf(n) == val
    modifies CellsOf(n)
    ensures ValOf(n) == InheritOf(val)
    decreases n, 1
  {
    if n.kids == [] {
      return;
    }
    InheritParentStarts(n.kids);
    if n.page.start > 0 {
      return;
    }
    StartFromKids(n.page, n.kids, Inherit(val.kids));
  }

  method StartFromKids(page: Cell, kids: seq<Toc>, ghost vals: seq<Node>)
    requires page !in Cells(kids) && Val(kids) == vals
    modifies page
    ensures page.start == FirstChildStart(old(page.start), vals) && page.end == old(page.end)
    ensures Val(kids) == vals
  {
    PagesWithin(kids);
    for j := 0 to |kids|
      invariant page.end == old(page.end)
      invariant forall k | 0 <= k < |kids| :: kids[k].page.start == vals[k].start
      invariant FirstChildStart(page.start, vals[j..]) == FirstChildStart(old(page.start), vals)
    {
      var c := kids[j].page;
      assert c.start == vals[j..][0].start && vals[j..][1..] == vals[j + 1..];
      if c.start > 0 && (page.start == 0 || c.start < page.start) {
        page.start := c.start;
      }
    }
    KidsKept(kids);
  }

  method DeriveEndPagesIn(nodes: seq<Toc>, ceiling: int)
    requires Separate(nodes)
    modifies Cells(nodes)
    ensures Val(nodes) == Derive(old(Val(nodes)), ceiling)
    decreases nodes, 1
  {
    ghost var before := Val(nodes);
    ghost var goal := Derive(before, ceiling);
    for i := 0 to |nodes|
      invariant forall k | 0 <= k < i :: ValOf(nodes[k]) == goal[k]
      invariant forall k | i <= k < |nodes| :: ValOf(nodes[k]) == before[k]
    {
      assert forall k | i <= k < |nodes| :: nodes[k].page.start == before[k].start by {
        assert forall k | i <= k < |nodes| :: ValOf(nodes[k]) == before[k];
      }
      DeriveIndex(before, ceiling, i);
      DeriveAt(nodes, i, before, ceiling);
    }
  }

  method DeriveAt(nodes: seq<Toc>, i: nat, ghost vals: seq<Node>, ceiling: int)
    requires Separate(nodes) && i < |nodes| == |vals| && ValOf(nodes[i]) == vals[i]
    requires forall k | i <= k < |nodes| :: nodes[k].page.start == vals[k].start
    modifies CellsOf(nodes[i])
    ensures ValOf(nodes[i]) == DeriveOf(vals[i], vals[i + 1..], ceiling)
    ensures forall k | 0 <= k < |nodes| && k != i :: ValOf(nodes[k]) == old(ValOf(nodes[k]))
    decreases nodes, 0
  {
    var end := SiblingEnd(nodes, i, vals);
    TreeKept(nodes[i]);
    DeriveOne(nodes[i], end, vals[i], vals[i + 1..], ceiling);
    forall k | 0 <= k < |nodes| && k != i
      ensures ValOf(nodes[k]) == old(ValOf(nodes[k]))
    {
      assert CellsOf(nodes[k]) !! CellsOf(nodes[i]);
      TreeKept(nodes[k]);
    }
  }

  /** The end page that the siblings after node i give it; zero when they give none. */
  method SiblingEnd(nodes: seq<Toc>, i: nat, ghost vals: seq<Node>) returns (end: int)
    requires i < |nodes| == |vals| && forall k | i <= k < |nodes| :: nodes[k].page.start == vals[k].start
    ensures end == NextEnd(vals[i].start, vals[i + 1..])
  {
    end := 0;
    var n := nodes[i].page;
    var j := i + 1;
    while j < |nodes|
      invariant i < j <= |nodes| && end == 0
      invariant NextEnd(n.start, vals[j..]) == NextEnd(n.start, vals[i + 1..])
    {
      var next := nodes[j].page.start;
      assert vals[j..][0].start == next && vals[j..][1..] == vals[j + 1..];
      j := j + 1;
      if next == 0 || n.start == 0 {
        continue;
      }
      if next == n.start {
        return n.start;
      }
      if next > n.start {
        return next - 1;
      }
    }
  }

  method DeriveOne(n: Toc, siblingEnd: int, ghost val: Node, ghost later: seq<Node>, ceiling: int)
    requires n.page !in Cells(n.kids) && Separate(n.kids) && ValOf(n) == val
    requires siblingEnd == NextEnd(val.start, later)
    modifies CellsOf(n)
    ensures ValOf(n) == DeriveOf(val, later, ceiling)
    decreases n, 1
  {
    var end := siblingEnd;
    if end <= 0 {
      end := ceiling;
    }
    if n.page.start > 0 {
      if end < n.page.start {
        end := n.page.start;
      }
      n.page.end := end;
    }
    KidsKept(n.kids);
    ghost var own := n.page.end;
    assert own == OwnEnd(val, later, ceiling);
    var childCeiling := n.page.end;
    if childCeiling == 0 {
      childCeiling := ceiling;
    }
    DeriveEndPagesIn(n.kids, childCeiling);
    EndFromKids(n.page, n.kids, Derive(val.kids, childCeiling));
  }

  method EndFromKids(page: Cell, kids: seq<Toc>, ghost vals: seq<Node>)
    requires page !in Cells(kids) && Val(kids) == vals
    modifies page
    ensures page.end == MaxEnd(old(page.end), vals) && page.start == old(page.start)
    ensures Val(kids) == vals
  {
    PagesWithin(kids);
    for j := 0 to |kids|
      invariant page.start == old(page.start)
      invariant forall k | 0 <= k < |kids| :: kids[k].page.end == vals[k].end
      invariant MaxEnd(page.end, vals[j..]) == MaxEnd(old(page.end), vals)
    {
      var c := kids[j].page;
      assert c.end == vals[j..][0].end && vals[j..][1..] == vals[j + 1..];
      if c.end > page.end {
        page.end := c.end;
      }
    }
    KidsKept(kids);
  }

  method DeriveEndPages(nodes: seq<Toc>, docLastPage: int)
    requires Separate(nodes)
    modifies Cells(nodes)
    ensures Val(nodes) == Derive(Inherit(old(Val(nodes))), docLastPage)
  {
    InheritParentStarts(nodes);
    DeriveEndPagesIn(nodes, docLastPage);
  }
}
