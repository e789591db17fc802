/** The two walks of calibrateFromPrinted over the tree in place. */
module TocCalibrateWalk {
  import opened TocTree
  import opened TocCalibrate

  datatype Survey = Survey(seen: Seen, offsets: seq<int>, waiting: nat)

  /** What surveying some more leaves comes to. */
  function Surveyed(c: Calibration, leaves: seq<Node>, s: Survey): Survey {
    var keys := Keys(c.slug, leaves, s.seen);
    Survey(SeenAfter(c.slug, leaves, s.seen),
           s.offsets + Offsets(c.printed, leaves, keys),
           s.waiting + Waiting(c.printed, leaves, keys))
  }

  lemma SurveyedConcat(c: Calibration, a: seq<Node>, b: seq<Node>, s: Survey)
    ensures Surveyed(c, a + b, s) == Surveyed(c, b, Surveyed(c, a, s))
  {
    var seen := SeenAfter(c.slug, a, s.seen);
    SeenConcat(c.slug, a, b, s.seen);
    SurveyConcat(c.printed, a, Keys(c.slug, a, s.seen), b, Keys(c.slug, b, seen));
    var x, y := Offsets(c.printed, a, Keys(c.slug, a, s.seen)), Offsets(c.printed, b, Keys(c.slug, b, seen));
    assert s.offsets + (x + y) == s.offsets + x + y;
  }

  lemma {:induction false} LeavesSnoc(ns: seq<Node>, i: nat)
    requires i < |ns|
    ensures Leaves(ns[..i + 1]) == Leaves(ns[..i]) + LeavesOf(ns[i])
    decreases i
  {
    if i == 0 {
      assert ns[..1] == [ns[0]] && Leaves(ns[..1][1..]) == [];
    } else {
      LeavesSnoc(ns[1..], i - 1);
      assert ns[..i + 1][1..] == ns[1..][..i] && ns[..i][1..] == ns[1..][..i - 1];
    }
  }

  method SurveyWalk(c: Calibration, ts: seq<Toc>, ghost vals: seq<Node>, start: Survey) returns (s: Survey)
    requires Val(ts) == vals
    ensures s == Surveyed(c, Leaves(vals), start) && Val(ts) == vals
    decreases ts, 1
  {
    s := start;
    NothingSurveyed(c, s);
    for i := 0 to |ts|
      invariant Val(ts) == vals
      invariant s == Surveyed(c, Leaves(vals[..i]), start)
    {
      LeavesSnoc(vals, i);
      SurveyedConcat(c, Leaves(vals[..i]), LeavesOf(vals[i]), start);
      s := SurveyAt(c, ts, i, vals, s);
    }
    assert vals[..|ts|] == vals;
  }

  lemma NothingSurveyed(c: Calibration, s: Survey)
    ensures Surveyed(c, [], s) == s
  {
    assert s.offsets + [] == s.offsets;
  }

  method SurveyAt(c: Calibration, ts: seq<Toc>, i: nat, ghost vals: seq<Node>, start: Survey) returns (s: Survey)
    requires Val(ts) == vals && i < |ts|
    ensures s == Surveyed(c, LeavesOf(vals[i]), start) && Val(ts) == vals
    decreases ts, 0
  {
    var n := ts[i];
    assert ValOf(n) == vals[i];
    if n.kids != [] {
      s := SurveyWalk(c, n.kids, vals[i].kids, start);
      KidsKept(ts);
      return;
    }
    s := SurveyLeaf(c, n, vals[i], start);
    KidsKept(ts);
  }

  method SurveyLeaf(c: Calibration, n: Toc, ghost val: Node, start: Survey) returns (s: Survey)
    requires ValOf(n) == val && n.kids == []
    ensures s == Surveyed(c, [val], start)
  {
    var key := KeyOf(c.slug, n.title, start.seen);
    s := start.(seen := Met(start.seen, key));
    OneSurveyed(c, val, start);
    if !Printed(c.printed, key) {
      return;
    }
    var pp := c.printed[key];
    if n.page.start > 0 {
      s := s.(offsets := s.offsets + [n.page.start - pp]);
    } else {
      s := s.(waiting := s.waiting + 1);
    }
  }

  lemma OneSurveyed(c: Calibration, n: Node, start: Survey)
    ensures var key := KeyOf(c.slug, n.title, start.seen);
            var s := Surveyed(c, [n], start);
            && s.seen == Met(start.seen, key)
            && s.offsets
                 == start.offsets + (if Printed(c.printed, key) && n.start > 0 then [n.start - c.printed[key]] else [])
            && s.waiting == start.waiting + (if Printed(c.printed, key) && n.start <= 0 then 1 else 0)
  {
    var keys := Keys(c.slug, [n], start.seen);
    assert [n][1..] == [] && keys[1..] == [];
    assert Offsets(c.printed, [], []) == [] && Waiting(c.printed, [], []) == 0;
    var one := if Printed(c.printed, keys[0]) && n.start > 0 then [n.start - c.printed[keys[0]]] else [];
    assert one + [] == one;
    assert SeenAfter(c.slug, [], Met(start.seen, keys[0])) == Met(start.seen, keys[0]);
  }

  // ---------------------------------------------------------------- the walk that places

  method PlaceWalk(c: Calibration, ts: seq<Toc>, start: Seen) returns (seen: Seen, placed: nat)
    requires Separate(ts)
    modifies Cells(ts)
    ensures Placing(Val(ts), seen, placed) == PlaceAll(c, old(Val(ts)), start)
    decreases ts, 1
  {
    ghost var before := Val(ts);
    ghost var vals, goal := before, PlaceAll(c, before, start);
    seen, placed := start, 0;
    for i := 0 to |ts|
      invariant Shows(ts, vals)
      invariant SoFar(c, goal, before, vals, i, seen, placed)
    {
      var p: nat;
      ghost var now: Node;
      ghost var next := SoFarStep(c, goal, before, vals, i, seen, placed);
      seen, p, now := PlaceAt(c, ts, i, vals, seen);
      vals := next;
      placed := placed + p;
    }
    assert vals[..|ts|] == vals && before[|ts|..] == [];
    assert Val(ts) == vals;
  }

  /** The first i siblings are placed and the rest as they were. */
  ghost predicate SoFar(c: Calibration, goal: Placing, before: seq<Node>, vals: seq<Node>, i: nat, seen: Seen,
                        placed: nat) {
    && i <= |before| == |vals| && vals[i..] == before[i..]
    && goal == Joined(vals[..i], placed, PlaceAll(c, before[i..], seen))
  }

  lemma SoFarStep(c: Calibration, goal: Placing, before: seq<Node>, vals: seq<Node>, i: nat, seen: Seen, placed: nat)
    returns (next: seq<Node>)
    requires SoFar(c, goal, before, vals, i, seen, placed) && i < |before|
    ensures var one := PlaceOf(c, vals[i], seen);
            next == vals[i := one.nodes[0]] && SoFar(c, goal, before, next, i + 1, one.seen, placed + one.placed)
  {
    assert vals[i] == vals[i..][0] == before[i];
    var one := PlaceOf(c, before[i], seen);
    next := vals[i := one.nodes[0]];
    PlaceStep(c, before, i, seen, vals[..i], placed);
    assert next[..i + 1] == vals[..i] + [one.nodes[0]];
    assert next[i + 1..] == vals[i..][1..] == before[i..][1..] == before[i + 1..];
  }

  /** What was placed so far followed by what is still to come. */
  function Joined(done: seq<Node>, placed: nat, rest: Placing): Placing {
    Placing(done + rest.nodes, rest.seen, placed + rest.placed)
  }

  lemma PlaceStep(c: Calibration, ns: seq<Node>, i: nat, seen: Seen, done: seq<Node>, placed: nat)
    requires i < |ns|
    ensures var one := PlaceOf(c, ns[i], seen);
            Joined(done, placed, PlaceAll(c, ns[i..], seen))
            == Joined(done + [one.nodes[0]], placed + one.placed, PlaceAll(c, ns[i + 1..], one.seen))
  {
    var one := PlaceOf(c, ns[i], seen);
    var rest := PlaceAll(c, ns[i + 1..], one.seen);
    assert ns[i..][0] == ns[i] && ns[i..][1..] == ns[i + 1..];
    assert done + ([one.nodes[0]] + rest.nodes) == done + [one.nodes[0]] + rest.nodes;
  }

  method PlaceAt(c: Calibration, ts: seq<Toc>, i: nat, ghost vals: seq<Node>, start: Seen)
    returns (seen: Seen, placed: nat, ghost now: Node)
    requires Separate(ts) && i < |ts| && Shows(ts, vals)
    modifies Cells(ts)
    ensures Placing([now], seen, placed) == PlaceOf(c, vals[i], start)
    ensures Shows(ts, vals[i := now])
    decreases ts, 0
  {
    assert CellsOf(ts[i]) <= Cells(ts);
    assert ValOf(ts[i]) == vals[i];
    seen, placed := PlaceOne(c, ts[i], vals[i], start);
    now := ValOf(ts[i]);
    forall k | 0 <= k < |ts|
      ensures ValOf(ts[k]) == vals[i := now][k]
    {
      if k != i {
        assert CellsOf(ts[k]) !! CellsOf(ts[i]);
        TreeKept(ts[k]);
      }
    }
  }

  method PlaceOne(c: Calibration, n: Toc, ghost val: Node, start: Seen) returns (seen: Seen, placed: nat)
    requires n.page !in Cells(n.kids) && Separate(n.kids) && ValOf(n) == val
    modifies CellsOf(n)
    ensures Placing([ValOf(n)], seen, placed) == PlaceOf(c, val, start)
    decreases n, 1
  {
    if n.kids != [] {
      seen, placed := PlaceWalk(c, n.kids, start);
      return;
    }
    var key := KeyOf(c.slug, n.title, start);
    seen, placed := Met(start, key), 0;
    if n.page.start != 0 || !Printed(c.printed, key) {
      return;
    }
    var p := c.printed[key] + c.k;
    if p >= 1 && (c.lastPage == 0 || p <= c.lastPage) {
      n.page.start := p;
      placed := 1;
    }
  }

  // ---------------------------------------------------------------- the whole

  /** Whether there is an offset to go by and a leaf to use it on. */
  predicate Calibrates(c: Calibration, leaves: seq<Node>) {
    var keys := Keys(c.slug, leaves, map[]);
    c.printed != map[] && |Offsets(c.printed, leaves, keys)| >= 2 && Waiting(c.printed, leaves, keys) > 0
  }

  function OffsetOf(slug: string -> string, printed: map<string, int>, leaves: seq<Node>): int {
    var offsets := Offsets(printed, leaves, Keys(slug, leaves, map[]));
    if offsets == [] then 0 else Median(offsets)
  }

  /** What a calibration of these nodes comes to, and how many leaves it places. */
  function Calibrated(slug: string -> string, before: seq<Node>, printed: map<string, int>,
                      lastPage: int): (seq<Node>, nat) {
    var c := Calibration(slug, printed, OffsetOf(slug, printed, Leaves(before)), lastPage);
    var r := PlaceAll(c, before, map[]);
    if Calibrates(c, Leaves(before)) then (r.nodes, r.placed) else (before, 0)
  }

  method CalibrateFromPrinted(slug: string -> string, nodes: seq<Toc>, printed: map<string, int>, lastPage: int)
    returns (placed: nat)
    requires Separate(nodes)
    modifies Cells(nodes)
    ensures (Val(nodes), placed) == Calibrated(slug, old(Val(nodes)), printed, lastPage)
  {
    if |printed| == 0 {
      assert printed == map[];
      return 0;
    }
    ghost var before := Val(nodes);
    var c := Calibration(slug, printed, 0, lastPage);
    var s := SurveyWalk(c, nodes, before, Survey(map[], [], 0));
    assert s.offsets == Offsets(printed, Leaves(before), Keys(slug, Leaves(before), map[]));
    if |s.offsets| < 2 || s.waiting == 0 {
      return 0;
    }
    var _, n := PlaceWalk(c.(k := Median(s.offsets)), nodes, map[]);
    placed := n;
  }

  /** A leaf without a page whose printed number, moved by k, is a page of the document; a last page of zero
      is unknown. */
  predicate Placeable(printed: map<string, int>, lastPage: int, k: int, leaf: Node, key: string) {
    && leaf.start == 0 && key in printed && printed[key] > 0
    && 1 <= printed[key] + k && (lastPage != 0 ==> printed[key] + k <= lastPage)
  }

  /** A leaf that has a page and whose key leads to a printed one. */
  predicate Known(printed: map<string, int>, leaf: Node, key: string) {
    leaf.start > 0 && key in printed && printed[key] > 0
  }

  function CountKnown(printed: map<string, int>, leaves: seq<Node>, keys: seq<string>): nat
    requires |keys| == |leaves|
  {
    if leaves == [] then 0
    else CountKnown(printed, leaves[1..], keys[1..]) + if Known(printed, leaves[0], keys[0]) then 1 else 0
  }

  /** Those whose page is the printed one and k. */
  function CountAgreeing(printed: map<string, int>, k: int, leaves: seq<Node>, keys: seq<string>): nat
    requires |keys| == |leaves|
  {
    if leaves == [] then 0
    else
      CountAgreeing(printed, k, leaves[1..], keys[1..])
      + if Known(printed, leaves[0], keys[0]) && leaves[0].start == printed[keys[0]] + k then 1 else 0
  }

  lemma {:induction false} OffsetsCounted(printed: map<string, int>, k: int, leaves: seq<Node>, keys: seq<string>)
    requires |keys| == |leaves|
    ensures |Offsets(printed, leaves, keys)| == CountKnown(printed, leaves, keys)
    ensures multiset(Offsets(printed, leaves, keys))[k] == CountAgreeing(printed, k, leaves, keys)
    decreases |leaves|
  {
    if leaves != [] {
      var rest := Offsets(printed, leaves[1..], keys[1..]);
      OffsetsCounted(printed, k, leaves[1..], keys[1..]);
      OffsetsCons(printed, leaves, keys);
      if Known(printed, leaves[0], keys[0]) {
        OneMore(leaves[0].start - printed[keys[0]], rest, k);
      } else {
        assert [] + rest == rest;
      }
    }
  }

  lemma OffsetsCons(printed: map<string, int>, leaves: seq<Node>, keys: seq<string>)
    requires |keys| == |leaves| > 0
    ensures Offsets(printed, leaves, keys)
            == (if Known(printed, leaves[0], keys[0]) then [leaves[0].start - printed[keys[0]]] else [])
                + Offsets(printed, leaves[1..], keys[1..])
  {
  }

  lemma OneMore(x: int, s: seq<int>, k: int)
    ensures |[x] + s| == |s| + 1 && multiset([x] + s)[k] == multiset(s)[k] + if x == k then 1 else 0
  {
  }

  function CountPlaceable(printed: map<string, int>, lastPage: int, k: int, leaves: seq<Node>, keys: seq<string>): nat
    requires |keys| == |leaves|
  {
    if leaves == [] then 0
    else
      CountPlaceable(printed, lastPage, k, leaves[1..], keys[1..])
      + if Placeable(printed, lastPage, k, leaves[0], keys[0]) then 1 else 0
  }

  lemma {:induction false} MovedAreCounted(c: Calibration, leaves: seq<Node>, keys: seq<string>)
    requires |keys| == |leaves|
    ensures MovedCount(c, leaves, keys) == CountPlaceable(c.printed, c.lastPage, c.k, leaves, keys)
    decreases |leaves|
  {
    if leaves != [] {
      MovedAreCounted(c, leaves[1..], keys[1..]);
    }
  }

  /** A calibration moves by the middle of the differences between page and printed page, in rising order,
      over the leaves that have both. */
  lemma OffsetIsMiddle(slug: string -> string, printed: map<string, int>, leaves: seq<Node>, t: seq<int>)
    requires t != [] && Rising(t)
    requires forall d :: multiset(t)[d] == CountAgreeing(printed, d, leaves, Keys(slug, leaves, map[]))
    ensures |t| == CountKnown(printed, leaves, Keys(slug, leaves, map[]))
    ensures OffsetOf(slug, printed, leaves) == t[|t| / 2]
  {
    var keys := Keys(slug, leaves, map[]);
    var offsets := Offsets(printed, leaves, keys);
    forall d
      ensures multiset(t)[d] == multiset(offsets)[d]
    {
      OffsetsCounted(printed, d, leaves, keys);
    }
    assert multiset(t) == multiset(offsets);
    assert |multiset(t)| == |multiset(offsets)|;
    OffsetsCounted(printed, 0, leaves, keys);
    MedianIsMiddle(offsets, t);
  }

  /** Where at least two leaves have both a page and a printed one, every leaf without a page whose printed
      page, so moved, is a page of the document gets that page, nothing else changes, and the count is of
      the leaves that changed. Where fewer do, nothing changes. */
  lemma CalibrationPlaces(slug: string -> string, before: seq<Node>, printed: map<string, int>, lastPage: int)
    ensures var (after, placed) := Calibrated(slug, before, printed, lastPage);
            var leaves, keys := Leaves(before), Keys(slug, Leaves(before), map[]);
            var k := OffsetOf(slug, printed, leaves);
            if CountKnown(printed, leaves, keys) < 2 then after == before && placed == 0
            else
              && |Leaves(after)| == |leaves| && Containers(after) == Containers(before)
              && (forall i | 0 <= i < |leaves| ::
                    Leaves(after)[i]
                        == if Placeable(printed, lastPage, k, leaves[i], keys[i])
                           then leaves[i].(start := printed[keys[i]] + k) else leaves[i])
              && placed == CountPlaceable(printed, lastPage, k, leaves, keys)
  {
    var leaves := Leaves(before);
    var keys := Keys(slug, leaves, map[]);
    OffsetsCounted(printed, 0, leaves, keys);
    if CountKnown(printed, leaves, keys) >= 2 {
      var c := Calibration(slug, printed, OffsetOf(slug, printed, leaves), lastPage);
      CalibratedLeaves(c, before);
      MovedAreCounted(c, leaves, keys);
      forall i | 0 <= i < |leaves| {
        LeafSays(c, leaves[i], keys[i]);
      }
    }
  }

  lemma LeafSays(c: Calibration, leaf: Node, key: string)
    ensures PlacedLeaf(c, leaf, key)
            == if Placeable(c.printed, c.lastPage, c.k, leaf, key) then leaf.(start := c.printed[key] + c.k) else leaf
  {
  }

  /** Walking or not, where no leaf waits for a page none is placed. */
  lemma CalibratedLeaves(c: Calibration, before: seq<Node>)
    requires var leaves := Leaves(before);
             c.k == OffsetOf(c.slug, c.printed, leaves)
             && |Offsets(c.printed, leaves, Keys(c.slug, leaves, map[]))| >= 2
    ensures var (after, placed) := Calibrated(c.slug, before, c.printed, c.lastPage);
            var leaves, keys := Leaves(before), Keys(c.slug, Leaves(before), map[]);
            && Leaves(after) == PlaceLeaves(c, leaves, keys) && Containers(after) == Containers(before)
            && placed == MovedCount(c, leaves, keys)
  {
    var leaves := Leaves(before);
    var keys := Keys(c.slug, leaves, map[]);
    WalkPlacesLeaves(c, before, map[]);
    if c.printed == map[] {
      NothingPrinted(leaves, keys);
    }
    if Waiting(c.printed, leaves, keys) == 0 {
      NoneWaitingNoneMoves(c, leaves, keys);
    }
  }

  /** If more than half of at least two placed leaves with a printed number agree on a difference k, that is
      what the leaves are moved by. */
  lemma AgreedOffsetPlacesTheRest(slug: string -> string, before: seq<Node>, printed: map<string, int>,
                                  lastPage: int, k: int)
    requires var leaves, keys := Leaves(before), Keys(slug, Leaves(before), map[]);
             2 <= CountKnown(printed, leaves, keys) < 2 * CountAgreeing(printed, k, leaves, keys)
    ensures var (after, placed) := Calibrated(slug, before, printed, lastPage);
            var leaves, keys := Leaves(before), Keys(slug, Leaves(before), map[]);
            && |Leaves(after)| == |leaves| && Containers(after) == Containers(before)
            && (forall i | 0 <= i < |leaves| ::
                  Leaves(after)[i]
                      == if Placeable(printed, lastPage, k, leaves[i], keys[i])
                         then leaves[i].(start := printed[keys[i]] + k) else leaves[i])
            && placed == CountPlaceable(printed, lastPage, k, leaves, keys)
  {
    var leaves := Leaves(before);
    var keys := Keys(slug, leaves, map[]);
    OffsetsCounted(printed, k, leaves, keys);
    MajorityIsMedian(Offsets(printed, leaves, keys), k);
    CalibrationPlaces(slug, before, printed, lastPage);
  }

  lemma {:induction false} NoneWaitingNoneMoves(c: Calibration, leaves: seq<Node>, keys: seq<string>)
    requires |keys| == |leaves| && Waiting(c.printed, leaves, keys) == 0
    ensures PlaceLeaves(c, leaves, keys) == leaves && MovedCount(c, leaves, keys) == 0
    decreases |leaves|
  {
    if leaves != [] {
      NoneWaitingNoneMoves(c, leaves[1..], keys[1..]);
      assert PlaceLeaves(c, leaves, keys)
          == [PlacedLeaf(c, leaves[0], keys[0])] + PlaceLeaves(c, leaves[1..], keys[1..]);
    }
  }

  lemma {:induction false} NothingPrinted(leaves: seq<Node>, keys: seq<string>)
    requires |keys| == |leaves|
    ensures Offsets(map[], leaves, keys) == []
    decreases |leaves|
  {
    if leaves != [] {
      NothingPrinted(leaves[1..], keys[1..]);
    }
  }
}
