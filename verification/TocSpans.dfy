/** What readers of a table of contents may rely on once its end pages are derived. */
module TocSpans {
  import opened TocTree
  import opened TocEndPages

  predicate Placed(n: Node) { n.start > 0 }

  /** No start passes the page `last`, and a node without a start has no end yet. */
  ghost predicate Within(ns: seq<Node>, last: int) {
    forall n | n in ns :: WithinOf(n, last)
  }

  ghost predicate WithinOf(n: Node, last: int) {
    0 <= n.start <= last && (n.start == 0 ==> n.end == 0) && Within(n.kids, last)
  }

  /** Every placed node ends on or after its start and by the page `last`, and no child outlasts its
      parent. */
  ghost predicate Spans(ns: seq<Node>, last: int) {
    forall n | n in ns :: SpansOf(n, last)
  }

  ghost predicate SpansOf(n: Node, last: int) {
    && (Placed(n) ==> n.start <= n.end)
    && n.end <= last
    && (forall k | k in n.kids :: k.end <= n.end)
    && Spans(n.kids, last)
  }

  // ---------------------------------------------------------------- spans stay inside

  lemma {:induction false} MaxEndBounds(e: int, kids: seq<Node>)
    ensures e <= MaxEnd(e, kids)
    ensures forall k | k in kids :: k.end <= MaxEnd(e, kids)
    decreases |kids|
  {
    if kids != [] {
      MaxEndBounds(Max(e, kids[0].end), kids[1..]);
      assert forall k | k in kids :: k == kids[0] || k in kids[1..];
    }
  }

  lemma {:induction false} MaxEndLeast(e: int, kids: seq<Node>, bound: int)
    requires e <= bound && forall k | k in kids :: k.end <= bound
    ensures MaxEnd(e, kids) <= bound
    decreases |kids|
  {
    if kids != [] {
      MaxEndLeast(Max(e, kids[0].end), kids[1..], bound);
    }
  }

  lemma {:induction false} NextEndBound(s: int, later: seq<Node>, bound: int)
    requires 0 <= s <= bound && forall n | n in later :: n.start <= bound
    ensures NextEnd(s, later) <= bound
    decreases |later|
  {
    if later != [] {
      NextEndBound(s, later[1..], bound);
    }
  }

  lemma {:induction false} DerivedSpans(ns: seq<Node>, ceiling: int, last: int)
    requires Within(ns, last) && 0 <= ceiling <= last
    ensures Spans(Derive(ns, ceiling), last)
    decreases ns, 0
  {
    var d := Derive(ns, ceiling);
    forall n | n in d
      ensures SpansOf(n, last)
    {
      var i :| 0 <= i < |d| && d[i] == n;
      forall m | m in ns[i + 1..]
        ensures m.start <= last
      {
        assert m in ns && WithinOf(m, last);
      }
      assert ns[i] in ns;
      DerivedSpan(ns[i], ns[i + 1..], ceiling, last);
      DeriveIndex(ns, ceiling, i);
    }
  }

  lemma {:induction false} DerivedSpan(n: Node, later: seq<Node>, ceiling: int, last: int)
    requires WithinOf(n, last) && 0 <= ceiling <= last && forall m | m in later :: m.start <= last
    ensures SpansOf(DeriveOf(n, later, ceiling), last)
    decreases n, 1
  {
    NextEndBound(n.start, later, last);
    var own := OwnEnd(n, later, ceiling);
    var c := if own == 0 then ceiling else own;
    var kids := Derive(n.kids, c);
    DerivedSpans(n.kids, c, last);
    MaxEndBounds(own, kids);
    MaxEndLeast(own, kids, last);
  }

  // ---------------------------------------------------------------- no gaps

  /** Page p lies in the span of some placed node of the list. */
  ghost predicate Covered(d: seq<Node>, p: int) {
    exists j :: 0 <= j < |d| && Placed(d[j]) && d[j].start <= p <= d[j].end
  }

  ghost predicate StartedBy(d: seq<Node>, p: int) {
    exists j :: 0 <= j < |d| && Placed(d[j]) && d[j].start <= p
  }

  ghost predicate ReachedBy(d: seq<Node>, p: int) {
    exists j :: 0 <= j < |d| && Placed(d[j]) && p <= d[j].end
  }

  lemma {:induction false} RunsTo(s: int, later: seq<Node>, p: int)
    requires 0 < s <= p && forall n | n in later :: n.start >= 0 && (Placed(n) ==> n.start > p)
    ensures NextEnd(s, later) >= p || (NextEnd(s, later) == 0 && forall n | n in later :: !Placed(n))
    decreases |later|
  {
    if later != [] {
      assert later[0] in later;
      assert forall n | n in later :: n == later[0] || n in later[1..];
      RunsTo(s, later[1..], p);
    }
  }

  /** A section begun by page p, with no sibling between it and p, runs to p or to the ceiling. */
  lemma SectionRunsTo(n: Node, later: seq<Node>, ceiling: int, p: int)
    requires 0 < n.start <= p && forall m | m in later :: m.start >= 0 && (Placed(m) ==> m.start > p)
    ensures var e := DeriveOf(n, later, ceiling).end; e >= p || (e >= ceiling && forall m | m in later :: !Placed(m))
  {
    RunsTo(n.start, later, p);
    var own := OwnEnd(n, later, ceiling);
    MaxEndBounds(own, Derive(n.kids, if own == 0 then ceiling else own));
  }

  lemma LastStarted(d: seq<Node>, p: int) returns (j: nat)
    requires StartedBy(d, p)
    ensures j < |d| && Placed(d[j]) && d[j].start <= p
    ensures forall i | j < i < |d| && Placed(d[i]) :: d[i].start > p
  {
    j :| 0 <= j < |d| && Placed(d[j]) && d[j].start <= p;
    var k: nat := j + 1;
    while k < |d|
      invariant j < k <= |d| && Placed(d[j]) && d[j].start <= p
      invariant forall i | j < i < k && Placed(d[i]) :: d[i].start > p
    {
      if Placed(d[k]) && d[k].start <= p {
        j := k;
      }
      k := k + 1;
    }
  }

  /** A sibling list covers every page from its first start to its ceiling, and on to the furthest end
      of any of its sections. */
  lemma NoGaps(ns: seq<Node>, ceiling: int, p: int)
    requires InOrder(Starts(ns)) && forall n | n in ns :: n.start >= 0
    requires StartedBy(ns, p) && (p <= ceiling || ReachedBy(Derive(ns, ceiling), p))
    ensures Covered(Derive(ns, ceiling), p)
  {
    var d := Derive(ns, ceiling);
    var j := LastStarted(ns, p);
    var later := ns[j + 1..];
    forall m | m in later
      ensures m.start >= 0 && (Placed(m) ==> m.start > p)
    {
      var i :| 0 <= i < |later| && later[i] == m;
      assert ns[j + 1 + i] == m && m in ns;
    }
    forall i | j < i < |ns|
      ensures ns[i] in later
    {
      assert ns[i] == later[i - j - 1];
    }
    SectionRunsTo(ns[j], later, ceiling, p);
    DeriveIndex(ns, ceiling, j);
    if d[j].end < p {
      var c :| 0 <= c < |d| && Placed(d[c]) && p <= d[c].end;
      DeriveIndex(ns, ceiling, c);
      assert c < j;
    }
  }

  /** A node without a page anywhere in it. */
  ghost predicate Blank(n: Node) {
    n.start == 0 && n.end == 0 && forall k | k in n.kids :: Blank(k)
  }

  /** An unplaced node holds nothing placed, as inheritance leaves it; siblings are in order, at every
      level. */
  ghost predicate Tidy(ns: seq<Node>) {
    InOrder(Starts(ns)) && forall n | n in ns :: TidyOf(n)
  }

  ghost predicate TidyOf(n: Node) {
    n.start >= 0 && (!Placed(n) ==> Blank(n)) && Tidy(n.kids)
  }

  lemma {:induction false} BlankStaysBlank(n: Node, later: seq<Node>, ceiling: int)
    requires Blank(n)
    ensures Blank(DeriveOf(n, later, ceiling))
  {
    var kids := Derive(n.kids, ceiling);
    forall k | k in kids
      ensures Blank(k)
    {
      var i :| 0 <= i < |kids| && kids[i] == k;
      DeriveIndex(n.kids, ceiling, i);
      assert n.kids[i] in n.kids;
      BlankStaysBlank(n.kids[i], n.kids[i + 1..], ceiling);
    }
    MaxEndIsSome(0, kids);
  }

  /** Inside a placed section the children's spans leave no page out, from the first child's start to
      the section's own last page. */
  lemma ChildrenLeaveNoGap(n: Node, later: seq<Node>, ceiling: int, p: int)
    requires Placed(n) && TidyOf(n)
    requires StartedBy(n.kids, p) && p <= DeriveOf(n, later, ceiling).end
    ensures Covered(DeriveOf(n, later, ceiling).kids, p)
  {
    var own := OwnEnd(n, later, ceiling);
    var d := Derive(n.kids, own);
    MaxEndIsSome(own, d);
    if p > own {
      var k :| k in d && k.end == MaxEnd(own, d);
      var i :| 0 <= i < |d| && d[i] == k;
      DeriveIndex(n.kids, own, i);
      assert n.kids[i] in n.kids && TidyOf(n.kids[i]);
      if Blank(n.kids[i]) {
        BlankStaysBlank(n.kids[i], n.kids[i + 1..], own);
      }
      assert ReachedBy(d, p);
    }
    assert forall k | k in n.kids :: TidyOf(k);
    NoGaps(n.kids, own, p);
  }

  /** At every level, a placed section's children leave no page of it out once the first has begun. */
  ghost predicate Gapless(d: seq<Node>) {
    forall n | n in d :: GaplessOf(n)
  }

  ghost predicate GaplessOf(n: Node) {
    && (Placed(n) ==> forall p | StartedBy(n.kids, p) && p <= n.end :: Covered(n.kids, p))
    && Gapless(n.kids)
  }

  lemma {:induction false} DerivedGapless(ns: seq<Node>, ceiling: int)
    requires Tidy(ns)
    ensures Gapless(Derive(ns, ceiling))
    decreases ns, 0
  {
    var d := Derive(ns, ceiling);
    forall n | n in d
      ensures GaplessOf(n)
    {
      var i :| 0 <= i < |d| && d[i] == n;
      DeriveIndex(ns, ceiling, i);
      assert ns[i] in ns && TidyOf(ns[i]);
      DerivedGaplessOf(ns[i], ns[i + 1..], ceiling);
    }
  }

  lemma {:induction false} DerivedGaplessOf(n: Node, later: seq<Node>, ceiling: int)
    requires TidyOf(n)
    ensures GaplessOf(DeriveOf(n, later, ceiling))
    decreases n, 1
  {
    var e := DeriveOf(n, later, ceiling);
    var own := OwnEnd(n, later, ceiling);
    DerivedGapless(n.kids, if own == 0 then ceiling else own);
    if Placed(n) {
      forall p | StartedBy(e.kids, p) && p <= e.end
        ensures Covered(e.kids, p)
      {
        var j :| 0 <= j < |e.kids| && Placed(e.kids[j]) && e.kids[j].start <= p;
        DeriveIndex(n.kids, own, j);
        assert Placed(n.kids[j]) && n.kids[j].start <= p;
        ChildrenLeaveNoGap(n, later, ceiling, p);
      }
    }
  }

  // ---------------------------------------------------------------- what inheritance leaves

  lemma {:induction false} FirstChildStartIs(s: int, kids: seq<Node>, last: int)
    requires 0 <= s <= last && forall k | k in kids :: 0 <= k.start <= last
    ensures 0 <= FirstChildStart(s, kids) <= last
    ensures FirstChildStart(s, kids) == 0 ==> s == 0 && forall k | k in kids :: k.start == 0
    decreases |kids|
  {
    if kids != [] {
      var k := kids[0].start;
      assert kids[0] in kids;
      FirstChildStartIs(if k > 0 && (s == 0 || k < s) then k else s, kids[1..], last);
      assert forall n | n in kids :: n == kids[0] || n in kids[1..];
    }
  }

  lemma {:induction false} InheritedWithin(n: Node, last: int)
    requires WithinOf(n, last)
    ensures WithinOf(InheritOf(n), last)
    ensures !Placed(InheritOf(n)) ==> Blank(InheritOf(n))
  {
    var kids := Inherit(n.kids);
    forall k | k in kids
      ensures WithinOf(k, last) && (!Placed(k) ==> Blank(k))
    {
      var i :| 0 <= i < |kids| && kids[i] == k;
      assert n.kids[i] in n.kids;
      InheritedWithin(n.kids[i], last);
    }
    FirstChildStartIs(n.start, kids, last);
  }

  /** Siblings in order at every level. */
  ghost predicate OrderedThroughout(ns: seq<Node>) {
    InOrder(Starts(ns)) && forall n | n in ns :: OrderedThroughout(n.kids)
  }

  lemma {:induction false} InheritedTidy(ns: seq<Node>, last: int)
    requires Within(ns, last) && OrderedThroughout(Inherit(ns))
    ensures Within(Inherit(ns), last) && Tidy(Inherit(ns))
    decreases ns
  {
    var r := Inherit(ns);
    forall n | n in r
      ensures WithinOf(n, last) && TidyOf(n)
    {
      var i :| 0 <= i < |r| && r[i] == n;
      assert ns[i] in ns && WithinOf(ns[i], last);
      InheritedWithin(ns[i], last);
      if ns[i].kids != [] {
        assert OrderedThroughout(Inherit(ns[i].kids));
        InheritedTidy(ns[i].kids, last);
      } else {
        assert InOrder(Starts([]));
      }
    }
  }

  /** deriveEndPages as a whole. If no start passes the last page and, once containers have inherited
      their pages, siblings are in order, then spans nest and stay inside the document, the top level
      covers every page from its first start to the last, and no level leaves a gap. */
  lemma DerivedContents(ns: seq<Node>, last: int)
    requires Within(ns, last) && last >= 0 && OrderedThroughout(Inherit(ns))
    ensures var d := Derive(Inherit(ns), last);
            && Spans(d, last)
            && (forall p | StartedBy(d, p) && p <= last :: Covered(d, p))
            && Gapless(d)
  {
    InheritedTidy(ns, last);
    var r := Inherit(ns);
    var d := Derive(r, last);
    DerivedSpans(r, last, last);
    DerivedGapless(r, last);
    forall p | StartedBy(d, p) && p <= last
      ensures Covered(d, p)
    {
      var j :| 0 <= j < |d| && Placed(d[j]) && d[j].start <= p;
      DeriveIndex(r, last, j);
      assert Placed(r[j]) && r[j].start <= p;
      assert forall n | n in r :: TidyOf(n);
      NoGaps(r, last, p);
    }
  }

  lemma {:induction false} MaxEndIsSome(e: int, kids: seq<Node>)
    ensures MaxEnd(e, kids) == e || exists k :: k in kids && k.end == MaxEnd(e, kids)
    decreases |kids|
  {
    if kids != [] {
      MaxEndIsSome(Max(e, kids[0].end), kids[1..]);
      assert kids[0] in kids;
    }
  }

  // ---------------------------------------------------------------- overlaps

  /** The starts of a forest in reading order. */
  function PreStarts(ns: seq<Node>): seq<int> {
    if ns == [] then [] else [ns[0].start] + PreStarts(ns[0].kids) + PreStarts(ns[1..])
  }

  lemma {:induction false} StartIsRead(ns: seq<Node>, j: nat)
    requires j < |ns|
    ensures ns[j].start in PreStarts(ns)
    decreases |ns|
  {
    if j == 0 {
      assert PreStarts(ns)[0] == ns[0].start;
    } else {
      StartIsRead(ns[1..], j - 1);
    }
  }

  lemma AcrossConcat(a: seq<int>, b: seq<int>, x: int, y: int)
    requires InOrder(a + b) && x in a && y in b && x > 0 && y > 0
    ensures x <= y
  {
    var i :| 0 <= i < |a| && a[i] == x;
    var j :| 0 <= j < |b| && b[j] == y;
    assert (a + b)[i] == x && (a + b)[|a| + j] == y;
  }

  lemma SuffixForwards(a: seq<int>, b: seq<int>)
    requires InOrder(a + b)
    ensures InOrder(b)
  {
    forall i, j | 0 <= i < j < |b| && b[i] > 0 && b[j] > 0
      ensures b[i] <= b[j]
    {
      assert (a + b)[|a| + i] == b[i] && (a + b)[|a| + j] == b[j];
    }
  }

  /** In reading order, a section and all it holds start by the start of any later sibling. */
  lemma {:induction false} SubtreeStartsBefore(ns: seq<Node>, i: nat, j: nat, s: int)
    requires InOrder(PreStarts(ns)) && i < j < |ns| && Placed(ns[j])
    requires s > 0 && (s == ns[i].start || s in PreStarts(ns[i].kids))
    ensures s <= ns[j].start
    decreases |ns|
  {
    var a := [ns[0].start] + PreStarts(ns[0].kids);
    if i == 0 {
      StartIsRead(ns[1..], j - 1);
      assert a[0] == ns[0].start;
      AcrossConcat(a, PreStarts(ns[1..]), s, ns[j].start);
    } else {
      SuffixForwards(a, PreStarts(ns[1..]));
      SubtreeStartsBefore(ns[1..], i - 1, j - 1, s);
    }
  }

  /** A forest within the document is within any page its starts do not pass. */
  lemma {:induction false} WithinStarts(ns: seq<Node>, last: int, bound: int)
    requires Within(ns, last) && bound > 0 && forall s | s in PreStarts(ns) && s > 0 :: s <= bound
    ensures Within(ns, bound)
    decreases ns
  {
    if ns != [] {
      var pre := PreStarts(ns);
      assert pre[0] == ns[0].start && ns[0].start in pre;
      assert WithinOf(ns[0], last);
      assert forall s | s in PreStarts(ns[0].kids) :: s in pre;
      WithinStarts(ns[0].kids, last, bound);
      assert forall n | n in ns[1..] :: n in ns;
      assert forall s | s in PreStarts(ns[1..]) :: s in pre;
      WithinStarts(ns[1..], last, bound);
      assert WithinOf(ns[0], bound);
      assert forall n | n in ns :: n == ns[0] || n in ns[1..];
    }
  }

  lemma {:induction false} EndsBefore(s: int, later: seq<Node>, j: nat)
    requires j < |later| && 0 < s <= later[j].start
    requires forall m | 0 <= m <= j :: 0 <= later[m].start <= later[j].start
    ensures 0 < NextEnd(s, later) <= later[j].start
    decreases |later|
  {
    var next := later[0].start;
    if next == 0 || next < s {
      EndsBefore(s, later[1..], j - 1);
    }
  }

  /** Two siblings share at most the later one's first page. */
  lemma SiblingsShareAtMostOnePage(ns: seq<Node>, ceiling: int, last: int, i: nat, j: nat)
    requires Within(ns, last) && InOrder(PreStarts(ns))
    requires i < j < |ns| && Placed(ns[i]) && Placed(ns[j])
    ensures Derive(ns, ceiling)[i].end <= Derive(ns, ceiling)[j].start
  {
    var n, later, bound := ns[i], ns[i + 1..], ns[j].start;
    assert n in ns && WithinOf(n, last);
    SubtreeStartsBefore(ns, i, j, n.start);
    forall m | 0 <= m <= j - i - 1
      ensures 0 <= later[m].start <= bound
    {
      assert later[m] in ns && WithinOf(later[m], last);
      if m < j - i - 1 && later[m].start > 0 {
        SubtreeStartsBefore(ns, i + 1 + m, j, later[m].start);
      }
    }
    EndsBefore(n.start, later, j - i - 1);
    var own := OwnEnd(n, later, ceiling);
    forall s | s in PreStarts(n.kids) && s > 0
      ensures s <= bound
    {
      SubtreeStartsBefore(ns, i, j, s);
    }
    WithinStarts(n.kids, last, bound);
    DerivedSpans(n.kids, own, bound);
    MaxEndLeast(own, Derive(n.kids, own), bound);
    DeriveIndex(ns, ceiling, i);
    DeriveIndex(ns, ceiling, j);
  }
}
