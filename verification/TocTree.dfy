/** A table of contents whose shape is fixed while its pages are written in place. Each node's StartPage
    and EndPage sit in a cell of their own; `Val` reads a forest of cells as plain values. */
module TocTree {

  class Cell {
    var start: int
    var end: int

    constructor (start: int, end: int)
      ensures this.start == start && this.end == end
    {
      this.start := start;
      this.end := end;
    }
  }

  datatype Toc = Toc(title: string, page: Cell, kids: seq<Toc>)

  /** A node's value: zero for a page means unknown. */
  datatype Node = Node(title: string, start: int, end: int, kids: seq<Node>)

  function CellsOf(t: Toc): set<Cell>
    decreases t, 1
  {
    {t.page} + Cells(t.kids)
  }

  function Cells(ts: seq<Toc>): set<Cell>
    decreases ts, 0
  {
    set t, c | t in ts && c in CellsOf(t) :: c
  }

  lemma PagesWithin(ts: seq<Toc>)
    ensures forall k | 0 <= k < |ts| :: ts[k].page in Cells(ts)
  {
    forall k | 0 <= k < |ts|
      ensures ts[k].page in Cells(ts)
    {
      assert ts[k] in ts && ts[k].page in CellsOf(ts[k]);
    }
  }

  /** No two nodes share a cell. */
  ghost predicate Separate(ts: seq<Toc>) {
    && (forall i | 0 <= i < |ts| :: ts[i].page !in Cells(ts[i].kids) && Separate(ts[i].kids))
    && (forall i, j | 0 <= i < j < |ts| :: CellsOf(ts[i]) !! CellsOf(ts[j]))
  }

  function ValOf(t: Toc): Node
    reads CellsOf(t)
    decreases t, 1
  {
    Node(t.title, t.page.start, t.page.end, Val(t.kids))
  }

  function Val(ts: seq<Toc>): (ns: seq<Node>)
    reads Cells(ts)
    ensures |ns| == |ts| && forall i | 0 <= i < |ts| :: ns[i] == ValOf(ts[i])
    decreases ts, 0
  {
    if ts == [] then []
    else
      assert forall t | t in ts[1..] :: t in ts;
      [ValOf(ts[0])] + Val(ts[1..])
  }

  twostate lemma {:induction false} CellsWereAllocated(t: Toc)
    ensures forall c | c in CellsOf(t) :: old(allocated(c))
  {
    forall c | c in CellsOf(t)
      ensures old(allocated(c))
    {
      if c != t.page {
        assert c in Cells(t.kids);
        var k :| k in t.kids && c in CellsOf(k);
        CellsWereAllocated(k);
      }
    }
  }

  twostate lemma TreeKept(t: Toc)
    ensures (forall c | c in CellsOf(t) && old(allocated(c)) :: unchanged(c)) ==> ValOf(t) == old(ValOf(t))
  {
    CellsWereAllocated(t);
  }

  twostate lemma KidsKept(ts: seq<Toc>)
    ensures (forall c | c in Cells(ts) && old(allocated(c)) :: unchanged(c)) ==> Val(ts) == old(Val(ts))
  {
    if forall c | c in Cells(ts) && old(allocated(c)) :: unchanged(c) {
      forall i | 0 <= i < |ts|
        ensures ValOf(ts[i]) == old(ValOf(ts[i]))
      {
        assert forall c | c in CellsOf(ts[i]) :: c in Cells(ts);
        TreeKept(ts[i]);
      }
    }
  }

  function Starts(ns: seq<Node>): (s: seq<int>)
    ensures |s| == |ns| && forall i | 0 <= i < |ns| :: s[i] == ns[i].start
  {
    seq(|ns|, i requires 0 <= i < |ns| => ns[i].start)
  }

  /** The trees hold these values. */
  ghost predicate Shows(ts: seq<Toc>, vals: seq<Node>)
    reads Cells(ts)
  {
    |ts| == |vals| && forall k | 0 <= k < |ts| :: ValOf(ts[k]) == vals[k]
  }

  /** Placed pages never go backwards; zero and below is unplaced. */
  ghost predicate InOrder(s: seq<int>) {
    forall i, j | 0 <= i < j < |s| && s[i] > 0 && s[j] > 0 :: s[i] <= s[j]
  }
}
