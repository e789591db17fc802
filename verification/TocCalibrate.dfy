/** Pages for the leaves the resolver could not place, from their printed page numbers and the offset the
    placed leaves agree on (calibrateFromPrinted). */
module TocCalibrate {
  import opened Text
  import opened TocTree

  // ---------------------------------------------------------------- keys

  type Seen = map<string, nat>

  function Times(seen: Seen, key: string): nat { if key in seen then seen[key] else 0 }

  /** The key of the next leaf: its title's slug, numbered when that slug was met before. */
  function KeyOf(slug: string -> string, title: string, seen: Seen): string {
    var key := "r_" + slug(title);
    if Times(seen, key) > 0 then key + "_" + Print(Times(seen, key)) else key
  }

  function Met(seen: Seen, key: string): Seen { seen[key := Times(seen, key) + 1] }

  /** The leaves of a forest in reading order. */
  function LeavesOf(n: Node): seq<Node>
    decreases n, 1
  {
    if n.kids == [] then [n] else Leaves(n.kids)
  }

  function Leaves(ns: seq<Node>): seq<Node>
    decreases ns, 0
  {
    if ns == [] then [] else LeavesOf(ns[0]) + Leaves(ns[1..])
  }

  function SeenAfter(slug: string -> string, leaves: seq<Node>, seen: Seen): Seen
    decreases |leaves|
  {
    if leaves == [] then seen else SeenAfter(slug, leaves[1..], Met(seen, KeyOf(slug, leaves[0].title, seen)))
  }

  function Keys(slug: string -> string, leaves: seq<Node>, seen: Seen): (keys: seq<string>)
    ensures |keys| == |leaves|
    decreases |leaves|
  {
    if leaves == [] then []
    else
      var key := KeyOf(slug, leaves[0].title, seen);
      [key] + Keys(slug, leaves[1..], Met(seen, key))
  }

  lemma {:induction false} SeenConcat(slug: string -> string, a: seq<Node>, b: seq<Node>, seen: Seen)
    ensures SeenAfter(slug, a + b, seen) == SeenAfter(slug, b, SeenAfter(slug, a, seen))
    ensures Keys(slug, a + b, seen) == Keys(slug, a, seen) + Keys(slug, b, SeenAfter(slug, a, seen))
    decreases |a|
  {
    if a == [] {
      assert a + b == b;
    } else {
      assert (a + b)[1..] == a[1..] + b;
      SeenConcat(slug, a[1..], b, Met(seen, KeyOf(slug, a[0].title, seen)));
    }
  }

  /** How many of some keys are this one. */
  function Occurs(keys: seq<string>, key: string): nat {
    if keys == [] then 0 else Occurs(keys[..|keys| - 1], key) + if keys[|keys| - 1] == key then 1 else 0
  }

  /** The counts kept are those of the keys given out. */
  ghost predicate Counted(seen: Seen, keys: seq<string>) { forall k :: Times(seen, k) == Occurs(keys, k) }

  /** The key after `keys` for a title with this slug. */
  function Numbered(keys: seq<string>, base: string): string {
    if Occurs(keys, base) == 0 then base else base + "_" + Print(Occurs(keys, base))
  }

  lemma CountedStep(seen: Seen, keys: seq<string>, key: string)
    requires Counted(seen, keys)
    ensures Counted(Met(seen, key), keys + [key])
  {
    assert (keys + [key])[..|keys|] == keys;
  }

  lemma {:induction false} KeysCounted(slug: string -> string, leaves: seq<Node>, seen: Seen, before: seq<string>,
                                       i: nat)
    requires Counted(seen, before) && i < |leaves|
    ensures Keys(slug, leaves, seen)[i]
            == Numbered(before + Keys(slug, leaves, seen)[..i], "r_" + slug(leaves[i].title))
    decreases i
  {
    var keys, key := Keys(slug, leaves, seen), KeyOf(slug, leaves[0].title, seen);
    if i == 0 {
      assert before + keys[..0] == before;
    } else {
      CountedStep(seen, before, key);
      KeysCounted(slug, leaves[1..], Met(seen, key), before + [key], i - 1);
      KeysTail(keys, key, Keys(slug, leaves[1..], Met(seen, key)), before, i);
    }
  }

  lemma KeysTail(keys: seq<string>, key: string, rest: seq<string>, before: seq<string>, i: nat)
    requires keys == [key] + rest && 0 < i < |keys|
    ensures keys[i] == rest[i - 1] && before + [key] + rest[..i - 1] == before + keys[..i]
  {
  }

  /** A leaf's key is its title's slug behind "r_", with a number after it if that was a key before: how often
      it was. */
  lemma KeySays(slug: string -> string, leaves: seq<Node>, i: nat)
    requires i < |leaves|
    ensures var keys, base := Keys(slug, leaves, map[]), "r_" + slug(leaves[i].title);
            keys[i] == if base !in keys[..i] then base else base + "_" + Print(Occurs(keys[..i], base))
  {
    var keys := Keys(slug, leaves, map[]);
    KeysCounted(slug, leaves, map[], [], i);
    assert [] + keys[..i] == keys[..i];
    OccursIfThere(keys[..i], "r_" + slug(leaves[i].title));
  }

  lemma {:induction false} OccursIfThere(keys: seq<string>, key: string)
    ensures Occurs(keys, key) > 0 <==> key in keys
    decreases |keys|
  {
    if keys != [] {
      OccursIfThere(keys[..|keys| - 1], key);
      assert keys == keys[..|keys| - 1] + [keys[|keys| - 1]];
    }
  }

  // ---------------------------------------------------------------- the offset

  /** A leaf has a printed page when its key leads to a positive one. */
  predicate Printed(printed: map<string, int>, key: string) { key in printed && printed[key] > 0 }

  /** Physical minus printed page, over the leaves that have both. */
  function Offsets(printed: map<string, int>, leaves: seq<Node>, keys: seq<string>): seq<int>
    requires |keys| == |leaves|
  {
    if leaves == [] then []
    else
      (if Printed(printed, keys[0]) && leaves[0].start > 0 then [leaves[0].start - printed[keys[0]]] else [])
      + Offsets(printed, leaves[1..], keys[1..])
  }

  /** How many leaves have a printed page only. */
  function Waiting(printed: map<string, int>, leaves: seq<Node>, keys: seq<string>): nat
    requires |keys| == |leaves|
  {
    if leaves == [] then 0
    else (if Printed(printed, keys[0]) && leaves[0].start <= 0 then 1 else 0) + Waiting(printed, leaves[1..], keys[1..])
  }

  lemma {:induction false} SurveyConcat(printed: map<string, int>, a: seq<Node>, ka: seq<string>, b: seq<Node>,
                                        kb: seq<string>)
    requires |ka| == |a| && |kb| == |b|
    ensures Offsets(printed, a + b, ka + kb) == Offsets(printed, a, ka) + Offsets(printed, b, kb)
    ensures Waiting(printed, a + b, ka + kb) == Waiting(printed, a, ka) + Waiting(printed, b, kb)
    decreases |a|
  {
    if a == [] {
      assert a + b == b && ka + kb == kb;
    } else {
      assert (a + b)[1..] == a[1..] + b && (ka + kb)[1..] == ka[1..] + kb;
      SurveyConcat(printed, a[1..], ka[1..], b, kb);
    }
  }

  /** sort.Ints. */
  function Insert(x: int, s: seq<int>): seq<int> {
    if s == [] || x <= s[0] then [x] + s else [s[0]] + Insert(x, s[1..])
  }

  function Sorted(s: seq<int>): seq<int> {
    if s == [] then [] else Insert(s[0], Sorted(s[1..]))
  }

  ghost predicate Rising(s: seq<int>) {
    forall i, j | 0 <= i < j < |s| :: s[i] <= s[j]
  }

  lemma RisingCons(x: int, s: seq<int>)
    requires Rising(s) && forall e | e in s :: x <= e
    ensures Rising([x] + s)
  {
    assert forall i | 0 < i < |s| + 1 :: ([x] + s)[i] == s[i - 1] && s[i - 1] in s;
  }

  lemma {:induction false} InsertSorts(x: int, s: seq<int>)
    requires Rising(s)
    ensures Rising(Insert(x, s)) && multiset(Insert(x, s)) == multiset(s) + multiset{x}
    ensures forall e | e in Insert(x, s) :: e == x || e in s
  {
    if s == [] || x <= s[0] {
      RisingCons(x, s);
    } else {
      InsertSorts(x, s[1..]);
      assert s == [s[0]] + s[1..];
      RisingCons(s[0], Insert(x, s[1..]));
    }
  }

  lemma {:induction false} SortedSorts(s: seq<int>)
    ensures Rising(Sorted(s)) && multiset(Sorted(s)) == multiset(s) && |Sorted(s)| == |s|
  {
    if s != [] {
      SortedSorts(s[1..]);
      InsertSorts(s[0], Sorted(s[1..]));
      assert s == [s[0]] + s[1..];
    }
    assert |multiset(Sorted(s))| == |multiset(s)|;
  }

  function Median(s: seq<int>): int
    requires s != []
  {
    SortedLength(s);
    Sorted(s)[|s| / 2]
  }

  lemma {:induction false} SortedLength(s: seq<int>)
    ensures |Sorted(s)| == |s|
  {
    SortedSorts(s);
  }

  lemma {:induction false} SortedIsUnique(s: seq<int>, t: seq<int>)
    requires Rising(s) && Rising(t) && multiset(s) == multiset(t)
    ensures s == t
    decreases |s|
  {
    if s == [] {
      assert |multiset(t)| == 0;
    } else {
      assert |multiset(t)| == |multiset(s)| > 0;
      FirstIsFirst(s, t);
      FirstIsFirst(t, s);
      assert s == [s[0]] + s[1..] && t == [t[0]] + t[1..];
      assert multiset(s[1..]) == multiset(s) - multiset{s[0]};
      assert multiset(t[1..]) == multiset(t) - multiset{t[0]};
      SortedIsUnique(s[1..], t[1..]);
    }
  }

  lemma FirstIsFirst(s: seq<int>, t: seq<int>)
    requires Rising(s) && multiset(s) == multiset(t) && s != [] && t != []
    ensures s[0] <= t[0]
  {
    assert t[0] in multiset(s);
    var i :| 0 <= i < |s| && s[i] == t[0];
  }

  /** The median is the middle of the offsets in rising order, the upper one of two. */
  lemma MedianIsMiddle(s: seq<int>, t: seq<int>)
    requires s != [] && Rising(t) && multiset(t) == multiset(s)
    ensures |t| == |s| && Median(s) == t[|s| / 2]
  {
    SortedSorts(s);
    SortedIsUnique(Sorted(s), t);
  }

  /** An offset that more than half the leaves agree on is the median. */
  lemma MajorityIsMedian(s: seq<int>, k: int)
    requires 2 * multiset(s)[k] > |s|
    ensures s != [] && Median(s) == k
  {
    OccursAtMost(s, k);
    if s != [] && Median(s) != k {
      OthersAreNoMajority(s, k);
    }
  }

  lemma OthersAreNoMajority(s: seq<int>, k: int)
    requires s != [] && Median(s) != k
    ensures 2 * multiset(s)[k] <= |s|
  {
    SortedSorts(s);
    var t, m := Sorted(s), |s| / 2;
    if t[m] < k {
      NotUpTo(t, m + 1, k);
    } else {
      NotFrom(t, m, k);
    }
  }

  lemma NotUpTo(t: seq<int>, m: nat, k: int)
    requires m <= |t| && forall i | 0 <= i < m :: t[i] != k
    ensures multiset(t)[k] <= |t| - m
  {
    assert t == t[..m] + t[m..];
    assert k !in t[..m];
    OccursOutside(t[..m], t[m..], k);
  }

  lemma NotFrom(t: seq<int>, m: nat, k: int)
    requires m <= |t| && forall i | m <= i < |t| :: t[i] != k
    ensures multiset(t)[k] <= m
  {
    assert t == t[..m] + t[m..];
    assert k !in t[m..];
    OccursOutside(t[..m], t[m..], k);
  }

  lemma OccursOutside(a: seq<int>, b: seq<int>, k: int)
    ensures k !in a ==> multiset(a + b)[k] <= |b|
    ensures k !in b ==> multiset(a + b)[k] <= |a|
  {
    OccursAtMost(a, k);
    OccursAtMost(b, k);
  }

  lemma {:induction false} OccursAtMost(s: seq<int>, k: int)
    ensures multiset(s)[k] <= |s|
  {
    if s != [] {
      OccursAtMost(s[1..], k);
      assert s == [s[0]] + s[1..];
    }
  }

  // ---------------------------------------------------------------- placing on values

  datatype Calibration = Calibration(slug: string -> string, printed: map<string, int>, k: int, lastPage: int)

  /** The page a leaf with this key would get is a page of the document. */
  predicate Fits(c: Calibration, key: string) {
    Printed(c.printed, key) && 1 <= c.printed[key] + c.k && (c.lastPage == 0 || c.printed[key] + c.k <= c.lastPage)
  }

  predicate Moves(c: Calibration, leaf: Node, key: string) { leaf.start == 0 && Fits(c, key) }

  /** What a leaf becomes: an unplaced one with a printed page gets that page plus the offset. */
  function PlacedLeaf(c: Calibration, leaf: Node, key: string): Node {
    if Moves(c, leaf, key) then leaf.(start := c.printed[key] + c.k) else leaf
  }

  datatype Placing = Placing(nodes: seq<Node>, seen: Seen, placed: nat)

  function PlaceOf(c: Calibration, n: Node, seen: Seen): Placing
    decreases n, 1
  {
    if n.kids == [] then
      var key := KeyOf(c.slug, n.title, seen);
      Placing([PlacedLeaf(c, n, key)], Met(seen, key), if Moves(c, n, key) then 1 else 0)
    else
      var r := PlaceAll(c, n.kids, seen);
      Placing([n.(kids := r.nodes)], r.seen, r.placed)
  }

  function PlaceAll(c: Calibration, ns: seq<Node>, seen: Seen): (r: Placing)
    ensures |r.nodes| == |ns|
    decreases ns, 0
  {
    if ns == [] then Placing([], seen, 0)
    else
      var one := PlaceOf(c, ns[0], seen);
      var rest := PlaceAll(c, ns[1..], one.seen);
      Placing([one.nodes[0]] + rest.nodes, rest.seen, one.placed + rest.placed)
  }

  function PlaceLeaves(c: Calibration, leaves: seq<Node>, keys: seq<string>): (r: seq<Node>)
    requires |keys| == |leaves|
    ensures |r| == |leaves|
  {
    seq(|leaves|, i requires 0 <= i < |leaves| => PlacedLeaf(c, leaves[i], keys[i]))
  }

  function MovedCount(c: Calibration, leaves: seq<Node>, keys: seq<string>): nat
    requires |keys| == |leaves|
  {
    if leaves == [] then 0
    else (if Moves(c, leaves[0], keys[0]) then 1 else 0) + MovedCount(c, leaves[1..], keys[1..])
  }

  lemma {:induction false} MovedConcat(c: Calibration, a: seq<Node>, ka: seq<string>, b: seq<Node>, kb: seq<string>)
    requires |ka| == |a| && |kb| == |b|
    ensures PlaceLeaves(c, a + b, ka + kb) == PlaceLeaves(c, a, ka) + PlaceLeaves(c, b, kb)
    ensures MovedCount(c, a + b, ka + kb) == MovedCount(c, a, ka) + MovedCount(c, b, kb)
    decreases |a|
  {
    if a == [] {
      assert a + b == b && ka + kb == kb;
    } else {
      assert (a + b)[1..] == a[1..] + b && (ka + kb)[1..] == ka[1..] + kb;
      MovedConcat(c, a[1..], ka[1..], b, kb);
    }
  }

  /** The walk over the tree places its leaves one by one under their keys, and touches nothing else. */
  ghost predicate PlacesLeaves(c: Calibration, ns: seq<Node>, seen: Seen, r: Placing) {
    var leaves := Leaves(ns);
    var keys := Keys(c.slug, leaves, seen);
    && Leaves(r.nodes) == PlaceLeaves(c, leaves, keys)
    && r.seen == SeenAfter(c.slug, leaves, seen)
    && r.placed == MovedCount(c, leaves, keys)
    && Containers(r.nodes) == Containers(ns)
  }

  /** A forest with its leaves' starts blanked: what a calibration may not change. */
  function ContainerOf(n: Node): Node
    decreases n, 1
  {
    if n.kids == [] then n.(start := 0) else n.(kids := Containers(n.kids))
  }

  function Containers(ns: seq<Node>): (r: seq<Node>)
    ensures |r| == |ns|
    decreases ns, 0
  {
    if ns == [] then [] else [ContainerOf(ns[0])] + Containers(ns[1..])
  }

  lemma {:induction false} WalkPlacesLeaves(c: Calibration, ns: seq<Node>, seen: Seen)
    ensures PlacesLeaves(c, ns, seen, PlaceAll(c, ns, seen))
    decreases ns, 0
  {
    if ns != [] {
      var one := PlaceOf(c, ns[0], seen);
      var rest := PlaceAll(c, ns[1..], one.seen);
      var a, b := LeavesOf(ns[0]), Leaves(ns[1..]);
      NodePlacesLeaves(c, ns[0], seen);
      WalkPlacesLeaves(c, ns[1..], one.seen);
      SeenConcat(c.slug, a, b, seen);
      MovedConcat(c, a, Keys(c.slug, a, seen), b, Keys(c.slug, b, one.seen));
      assert ([one.nodes[0]] + rest.nodes)[1..] == rest.nodes;
    }
  }

  lemma {:induction false} NodePlacesLeaves(c: Calibration, n: Node, seen: Seen)
    ensures var r := PlaceOf(c, n, seen);
            var leaves := LeavesOf(n);
            var keys := Keys(c.slug, leaves, seen);
            && LeavesOf(r.nodes[0]) == PlaceLeaves(c, leaves, keys)
            && r.seen == SeenAfter(c.slug, leaves, seen)
            && r.placed == MovedCount(c, leaves, keys)
            && ContainerOf(r.nodes[0]) == ContainerOf(n)
    decreases n, 1
  {
    if n.kids != [] {
      WalkPlacesLeaves(c, n.kids, seen);
    }
  }
}
