/** What single sections of a table of contents get: the start a container inherits, the end a section is
    given, and why a start is cleared. */
module TocPages {
  import opened TocTree
  import opened TocOrder
  import opened TocRepair
  import opened TocEndPages
  import opened TocSpans

  // ---------------------------------------------------------------- starts that containers inherit

  lemma {:induction false} FirstChildStartLeast(s: int, kids: seq<Node>)
    requires s >= 0
    ensures var r := FirstChildStart(s, kids);
            && (r == s || exists k :: k in kids && k.start == r > 0)
            && (s > 0 ==> 0 < r <= s) && forall k | k in kids && k.start > 0 :: 0 < r <= k.start
    decreases |kids|
  {
    if kids != [] {
      var k := kids[0].start;
      FirstChildStartLeast(if k > 0 && (s == 0 || k < s) then k else s, kids[1..]);
      assert kids[0] in kids;
      assert forall n | n in kids :: n == kids[0] || n in kids[1..];
    }
  }

  /** Inheritance gives a section with subsections and no page the smallest start that any of them has once
      they have inherited theirs, and changes nothing else. */
  lemma InheritedStart(ns: seq<Node>, i: nat)
    requires i < |ns| && ns[i].start >= 0
    ensures var n, r := ns[i], Inherit(ns)[i];
            && r.title == n.title && r.end == n.end && r.kids == Inherit(n.kids)
            && (n.start > 0 ==> r.start == n.start)
            && (n.start == 0 && (exists k :: k in r.kids && k.start > 0) ==>
                  (exists k :: k in r.kids && k.start == r.start)
                  && forall k | k in r.kids && k.start > 0 :: 0 < r.start <= k.start)
            && (n.start == 0 && !(exists k :: k in r.kids && k.start > 0) ==> r.start == 0)
  {
    FirstChildStartLeast(ns[i].start, Inherit(ns[i].kids));
  }

  // ---------------------------------------------------------------- where sections end

  /** The first later sibling of section i that starts on its page or later. */
  predicate NextFrom(ns: seq<Node>, i: nat, j: nat)
    requires i < |ns|
  {
    i < j < |ns| && ns[j].start >= ns[i].start && forall k | i < k < j :: ns[k].start < ns[i].start
  }

  predicate NoneFrom(ns: seq<Node>, i: nat)
    requires i < |ns|
  {
    forall k | i < k < |ns| :: ns[k].start < ns[i].start
  }

  lemma {:induction false} NextEndIs(s: int, later: seq<Node>, j: nat)
    requires s > 0 && j <= |later| && forall k | 0 <= k < j :: later[k].start < s
    requires j < |later| ==> later[j].start >= s
    ensures NextEnd(s, later)
            == if j == |later| then 0 else if later[j].start > s then later[j].start - 1 else s
    decreases |later|
  {
    if later != [] && j > 0 {
      assert forall k | 0 <= k < j - 1 :: later[1..][k] == later[k + 1];
      NextEndIs(s, later[1..], j - 1);
    }
  }

  /** A placed section's own end: the page before the next sibling that starts on its page or later, its own
      page if that starts there too, and where there is none the ceiling, or its own page if that is
      beyond. What it holds is derived under that end, and its end is the furthest of that and theirs. */
  lemma SectionEnd(ns: seq<Node>, ceiling: int, i: nat) returns (own: int)
    requires i < |ns| && ns[i].start > 0
    ensures forall j: nat | NextFrom(ns, i, j) ::
              own == if ns[j].start > ns[i].start then ns[j].start - 1 else ns[i].start
    ensures NoneFrom(ns, i) ==> own == if ns[i].start > ceiling then ns[i].start else ceiling
    ensures var d := Derive(ns, ceiling)[i];
            && d.title == ns[i].title && d.start == ns[i].start && d.kids == Derive(ns[i].kids, own)
            && own <= d.end && (forall k | k in d.kids :: k.end <= d.end)
            && (d.end == own || exists k :: k in d.kids && k.end == d.end)
  {
    var n, later := ns[i], ns[i + 1..];
    own := OwnEnd(n, later, ceiling);
    DeriveIndex(ns, ceiling, i);
    MaxEndBounds(own, Derive(n.kids, own));
    MaxEndIsSome(own, Derive(n.kids, own));
    assert forall k | i < k < |ns| :: later[k - i - 1] == ns[k];
    forall j: nat | NextFrom(ns, i, j)
      ensures own == if ns[j].start > n.start then ns[j].start - 1 else n.start
    {
      NextEndIs(n.start, later, j - i - 1);
    }
    if NoneFrom(ns, i) {
      NextEndIs(n.start, later, |later|);
    }
  }

  /** A section without a page keeps the end it has, if that is none its subsections may run to the ceiling,
      and it ends where the furthest of them does. */
  lemma UnplacedSectionEnd(ns: seq<Node>, ceiling: int, i: nat)
    requires i < |ns| && ns[i].start <= 0
    ensures var n, d := ns[i], Derive(ns, ceiling)[i];
            && d.title == n.title && d.start == n.start
            && d.kids == Derive(n.kids, if n.end == 0 then ceiling else n.end)
            && n.end <= d.end && (forall k | k in d.kids :: k.end <= d.end)
            && (d.end == n.end || exists k :: k in d.kids && k.end == d.end)
  {
    DeriveIndex(ns, ceiling, i);
    MaxEndBounds(ns[i].end, Derive(ns[i].kids, if ns[i].end == 0 then ceiling else ns[i].end));
    MaxEndIsSome(ns[i].end, Derive(ns[i].kids, if ns[i].end == 0 then ceiling else ns[i].end));
  }

  // ---------------------------------------------------------------- pages that siblings share

  lemma {:induction false} SameStarts(ns: seq<Node>, ceiling: int)
    ensures PreStarts(Derive(ns, ceiling)) == PreStarts(ns)
    decreases ns
  {
    if ns != [] {
      var own := OwnEnd(ns[0], ns[1..], ceiling);
      SameStarts(ns[0].kids, if own == 0 then ceiling else own);
      SameStarts(ns[1..], ceiling);
    }
  }

  lemma {:induction false} StartsByEnd(ns: seq<Node>, last: int, bound: int, s: int)
    requires Spans(ns, last) && (forall n | n in ns :: n.end <= bound) && s in PreStarts(ns) && s > 0
    ensures s <= bound
    decreases ns
  {
    assert ns[0] in ns && SpansOf(ns[0], last);
    var a, b, c := [ns[0].start], PreStarts(ns[0].kids), PreStarts(ns[1..]);
    assert s in a + b + c;
    if s in b {
      StartsByEnd(ns[0].kids, last, ns[0].end, s);
    } else if s in c {
      assert forall n | n in ns[1..] :: n in ns;
      StartsByEnd(ns[1..], last, bound, s);
    }
  }

  /** Some placed node at or under section i starts on page s. */
  predicate StartsOn(ns: seq<Node>, i: nat, s: int)
    requires i < |ns|
  {
    s > 0 && (ns[i].start == s || s in PreStarts(ns[i].kids))
  }

  /** Where starts never go backwards in reading order, two siblings share a page if and only if something in
      the earlier one starts on the later one's first page, and then that page is the one they share. */
  lemma SharedPage(ns: seq<Node>, ceiling: int, last: int, i: nat, j: nat)
    requires Within(ns, last) && InOrder(PreStarts(ns)) && 0 <= ceiling <= last
    requires i < j < |ns| && Placed(ns[i]) && Placed(ns[j])
    ensures Derive(ns, ceiling)[i].end >= ns[j].start <==> StartsOn(ns, i, ns[j].start)
  {
    var n, t, d := ns[i], ns[j].start, Derive(ns, ceiling);
    SiblingsShareAtMostOnePage(ns, ceiling, last, i, j);
    DeriveIndex(ns, ceiling, i);
    assert n in ns && WithinOf(n, last);
    if StartsOn(ns, i, t) {
      DerivedSpans(ns, ceiling, last);
      assert d[i] in d && SpansOf(d[i], last);
      if n.start != t {
        var own := OwnEnd(n, ns[i + 1..], ceiling);
        SameStarts(n.kids, if own == 0 then ceiling else own);
        StartsByEnd(d[i].kids, last, d[i].end, t);
      }
    } else {
      EndsBeforeIt(ns, ceiling, last, i, j);
    }
  }

  lemma EndsBeforeIt(ns: seq<Node>, ceiling: int, last: int, i: nat, j: nat)
    requires Within(ns, last) && InOrder(PreStarts(ns))
    requires i < j < |ns| && Placed(ns[i]) && Placed(ns[j]) && !StartsOn(ns, i, ns[j].start)
    ensures Derive(ns, ceiling)[i].end < ns[j].start
  {
    var n, bound := ns[i], ns[j].start - 1;
    assert n in ns && WithinOf(n, last);
    var own := OwnEndBefore(ns, ceiling, i, j);
    forall s | s in PreStarts(n.kids) && s > 0
      ensures s <= bound
    {
      SubtreeStartsBefore(ns, i, j, s);
    }
    WithinStarts(n.kids, last, bound);
    DerivedSpans(n.kids, own, bound);
  }

  lemma OwnEndBefore(ns: seq<Node>, ceiling: int, i: nat, j: nat) returns (own: int)
    requires InOrder(PreStarts(ns)) && i < j < |ns|
    requires Placed(ns[i]) && Placed(ns[j]) && ns[i].start != ns[j].start
    ensures 0 < own < ns[j].start
    ensures var d := Derive(ns, ceiling)[i];
            d.kids == Derive(ns[i].kids, own) && (d.end == own || exists k :: k in d.kids && k.end == d.end)
  {
    StartInOrder(ns, i, j);
    own := SectionEnd(ns, ceiling, i);
    var k := FirstNext(ns, i, j);
    if k < j {
      StartInOrder(ns, k, j);
    }
    assert NextFrom(ns, i, k);
  }

  lemma FirstNext(ns: seq<Node>, i: nat, j: nat) returns (k: nat)
    requires i < j < |ns| && ns[i].start < ns[j].start
    ensures k <= j && NextFrom(ns, i, k)
  {
    k := i + 1;
    while ns[k].start < ns[i].start
      invariant i < k <= j && forall m | i < m < k :: ns[m].start < ns[i].start
      decreases j - k
    {
      k := k + 1;
    }
  }

  lemma StartInOrder(ns: seq<Node>, k: nat, j: nat)
    requires InOrder(PreStarts(ns)) && k < j < |ns| && ns[k].start > 0 && ns[j].start > 0
    ensures ns[k].start <= ns[j].start
  {
    SubtreeStartsBefore(ns, k, j, ns[k].start);
  }

  // ---------------------------------------------------------------- why a start is cleared

  /** No start is on a contents page or before the page of the nearest placed section around it (`floor` if
      there is none), and no sibling starts before an earlier one. */
  ghost predicate Sensible(ns: seq<Node>, floor: int, toc: set<int>) {
    && (forall i, j | 0 <= i < j < |ns| && ns[i].start > 0 && ns[j].start > 0 :: ns[i].start <= ns[j].start)
    && forall n | n in ns ::
         && (n.start > 0 ==> n.start !in toc && n.start >= floor)
         && Sensible(n.kids, if n.start > 0 then n.start else floor, toc)
  }

  lemma {:induction false} SensibleIsClean(ns: seq<Node>, floor: int, toc: set<int>)
    requires Sensible(ns, floor, toc)
    ensures Clean(ns, floor, toc)
    decreases ns
  {
    forall i | 0 <= i < |ns|
      ensures CleanOf(ns[i], floor, toc)
    {
      assert ns[i] in ns;
      SensibleIsClean(ns[i].kids, FloorUnder(floor, ns[i].start), toc);
    }
  }

  /** A repair changes nothing in contents that make sense. */
  lemma SensibleStays(before: seq<Node>, after: seq<Node>, toc: set<int>)
    requires Sensible(before, 0, toc) && Repaired(before, after, 0, toc)
    ensures after == before
  {
    SensibleIsClean(before, 0, toc);
    CleanStays(before, after, 0, toc);
  }

  lemma {:induction false} CleanIsSensible(ns: seq<Node>, floor: int, toc: set<int>)
    requires Clean(ns, floor, toc)
    ensures Sensible(ns, floor, toc)
    decreases ns
  {
    assert forall i | 0 <= i < |ns| :: Starts(ns)[i] == ns[i].start;
    forall n | n in ns
      ensures n.start > 0 ==> n.start !in toc && n.start >= floor
      ensures Sensible(n.kids, if n.start > 0 then n.start else floor, toc)
    {
      var i :| 0 <= i < |ns| && ns[i] == n;
      assert CleanOf(ns[i], floor, toc);
      CleanIsSensible(n.kids, FloorUnder(floor, n.start), toc);
    }
  }

  /** And what it leaves makes sense. */
  lemma RepairedIsSensible(before: seq<Node>, after: seq<Node>, toc: set<int>)
    requires Repaired(before, after, 0, toc)
    ensures Sensible(after, 0, toc)
  {
    RepairedIsClean(before, after, 0, toc);
    CleanIsSensible(after, 0, toc);
  }

  /** Some sibling that keeps its start runs against section i's. */
  ghost predicate Crossed(before: seq<Node>, after: seq<Node>, i: nat)
    requires i < |before| == |after|
  {
    exists j :: 0 <= j < |after| && after[j].start > 0
                && ((j < i && after[j].start > before[i].start) || (i < j && after[j].start < before[i].start))
  }

  /** Every start is kept, or goes with its end because it is on a contents page, before the page of the
      nearest section around it that keeps one, or against a sibling that keeps its own; titles and shape
      stay. */
  ghost predicate WithReason(before: seq<Node>, after: seq<Node>, floor: int, toc: set<int>)
    decreases before
  {
    && |after| == |before|
    && forall i | 0 <= i < |before| ::
         && after[i].title == before[i].title
         && (after[i].start == before[i].start ==> after[i].end == before[i].end)
         && (after[i].start != before[i].start ==>
               && before[i].start > 0 && after[i].start == 0 == after[i].end
               && (before[i].start in toc || before[i].start < floor || Crossed(before, after, i)))
         && WithReason(before[i].kids, after[i].kids, if after[i].start > 0 then after[i].start else floor, toc)
  }

  lemma {:induction false} CountSet(t: seq<int>, i: nat, x: int)
    requires i < |t| && t[i] <= 0 < x
    ensures Count(t[i := x]) == Count(t) + 1
    decreases |t|
  {
    var n, u := |t| - 1, t[i := x];
    if i < n {
      CountSet(t[..n], i, x);
      assert u[..n] == t[..n][i := x];
    } else {
      assert u[..n] == t[..n];
    }
  }

  /** What the fewest clearings take out runs against something they leave. */
  lemma TakenOutIsCrossed(s: seq<int>, t: seq<int>, i: nat)
    requires FewestCleared(s, t) && i < |s| && s[i] > 0 && t[i] == 0
    ensures exists j :: 0 <= j < |t| && t[j] > 0 && ((j < i && t[j] > s[i]) || (i < j && t[j] < s[i]))
  {
    if forall j | 0 <= j < |t| && t[j] > 0 :: !((j < i && t[j] > s[i]) || (i < j && t[j] < s[i])) {
      var u := t[i := s[i]];
      assert Clears(s, u) && InOrder(u);
      CountSet(t, i, s[i]);
    }
  }

  /** A repair clears a start for one of the three reasons only. */
  lemma {:induction false} ClearedWithReason(before: seq<Node>, after: seq<Node>, floor: int, toc: set<int>)
    requires Repaired(before, after, floor, toc)
    ensures WithReason(before, after, floor, toc)
    decreases before
  {
    var s, t := Possible(Starts(before), floor, toc), Starts(after);
    forall i | 0 <= i < |before| && after[i].start != before[i].start
      ensures before[i].start > 0 && after[i].start == 0
      ensures before[i].start in toc || before[i].start < floor || Crossed(before, after, i)
    {
      assert t[i] == after[i].start && Starts(before)[i] == before[i].start;
      if s[i] == before[i].start {
        TakenOutIsCrossed(s, t, i);
      }
    }
    forall i | 0 <= i < |before|
      ensures after[i].title == before[i].title
      ensures after[i].end == if after[i].start == before[i].start then before[i].end else 0
      ensures WithReason(before[i].kids, after[i].kids, if after[i].start > 0 then after[i].start else floor, toc)
    {
      assert RepairedOf(before[i], after[i], floor, toc);
      ClearedWithReason(before[i].kids, after[i].kids, FloorUnder(floor, after[i].start), toc);
    }
  }
}
