/** A flat contents listing nested by its dotted numbers (assembleHierarchy). The code keeps pointers to
    the nodes it is inside of while it appends to the very slices those nodes live in, so slices are
    modelled with their backing arrays: an append may write in place or move everything elsewhere. */
module TocAssemble {
  import opened Text
  import opened Wrappers

  /** An entry as the model answered it. */
  datatype Payload = Payload(structure: string, title: string, index: Option<string>)

  datatype Item = Item(structure: string, title: string, start: int)

  // ---------------------------------------------------------------- reading one entry

  const PREFIX := "<physical_index_"

  function Decimal(s: string): nat {
    if s == "" || !Digit(s[|s| - 1]) then 0
    else 10 * Decimal(s[..|s| - 1]) + (s[|s| - 1] as int - '0' as int)
  }

  /** The page in "<physical_index_X>"; zero when it is not written so. */
  function PhysicalIndex(s: string): nat {
    var t := TrimSpace(s);
    if PREFIX <= t && t[|t| - 1] == '>' && forall c | c in t[|PREFIX|..|t| - 1] :: Digit(c)
    then Decimal(t[|PREFIX|..|t| - 1])
    else 0
  }

  method ParsePhysicalIndex(s: string) returns (n: nat)
    ensures n == PhysicalIndex(s)
  {
    var t := TrimSpace(s);
    if !(PREFIX <= t) || t[|t| - 1] != '>' {
      return 0;
    }
    var mid := t[|PREFIX|..|t| - 1];
    n := 0;
    for i := 0 to |mid|
      invariant n == Decimal(mid[..i]) && forall c | c in mid[..i] :: Digit(c)
    {
      if !Digit(mid[i]) {
        assert mid[i] in mid;
        return 0;
      }
      assert mid[..i + 1][..i] == mid[..i];
      n := n * 10 + (mid[i] as int - '0' as int);
    }
    assert mid[..|mid|] == mid;
  }

  /** How many numbers a structure like "1.2.3" holds; an unnumbered entry counts as a top-level one. */
  function DottedDepth(structure: string): nat {
    if structure == "" then 1 else Dots(structure) + 1
  }

  function Dots(s: string): nat {
    if s == "" then 0 else (if s[0] == '.' then 1 else 0) + Dots(s[1..])
  }

  /** Two numberings joined by a dot are as deep as both together, and one without dots is one deep. */
  lemma {:induction false} DotsAddDepth(x: string, y: string)
    ensures x != "" && y != "" ==> DottedDepth(x + "." + y) == DottedDepth(x) + DottedDepth(y)
    ensures (forall k | 0 <= k < |x| :: x[k] != '.') ==> DottedDepth(x) == 1
    decreases |x|
  {
    DotsConcat(x + ".", y);
    DotsConcat(x, ".");
    assert "."[1..] == "";
    if forall k | 0 <= k < |x| :: x[k] != '.' {
      NoDots(x);
    }
  }

  lemma {:induction false} DotsConcat(x: string, y: string)
    ensures Dots(x + y) == Dots(x) + Dots(y)
    decreases |x|
  {
    if x == "" {
      assert x + y == y;
    } else {
      assert (x + y)[1..] == x[1..] + y;
      DotsConcat(x[1..], y);
    }
  }

  lemma {:induction false} NoDots(x: string)
    requires forall k | 0 <= k < |x| :: x[k] != '.'
    ensures Dots(x) == 0
    decreases |x|
  {
    if x != "" {
      NoDots(x[1..]);
    }
  }

  lemma {:induction false} PrintReadsBack(n: nat)
    ensures Decimal(Print(n)) == n && forall c | c in Print(n) :: '0' <= c <= '9'
    decreases n
  {
    if n < 10 {
      assert [n as char + '0'][..0] == "" && Decimal("") == 0;
    } else {
      PrintReadsBack(n / 10);
      var s := Print(n);
      assert s[..|s| - 1] == Print(n / 10) && s[|s| - 1] == (n % 10) as char + '0';
    }
  }

  /** A tag as the pages are given to the model gives its page back, whatever white space is around it, and
      a positive page is only ever read from digits in such a tag. */
  lemma TagReadsBack(n: nat, s: string)
    requires TrimSpace(s) == "<physical_index_" + Print(n) + ">"
    ensures PhysicalIndex(s) == n
  {
    var t := TrimSpace(s);
    PrintReadsBack(n);
    assert t[|PREFIX|..|t| - 1] == Print(n);
    assert t[..|PREFIX|] == PREFIX;
  }

  lemma OnlyTagsAreRead(s: string) returns (digits: string)
    requires PhysicalIndex(s) > 0
    ensures TrimSpace(s) == "<physical_index_" + digits + ">" && digits != ""
    ensures forall c | c in digits :: '0' <= c <= '9'
  {
    var t := TrimSpace(s);
    assert t[..|PREFIX|] == PREFIX && t[|t| - 1] == '>' && PREFIX[|PREFIX| - 1] == '_';
    digits := t[|PREFIX|..|t| - 1];
    assert Decimal("") == 0 && t == t[..|PREFIX|] + digits + [t[|t| - 1]];
    assert forall c | c in digits :: Digit(c);
  }

  lemma PrintsInTens()
    ensures Print(7) == "7" && Print(128) == "128"
  {
    assert Print(1) == "1" && Print(12) == "1" + "2" == "12";
    assert Print(128) == "12" + "8" == "128";
  }

  function ItemOf(p: Payload): Item {
    Item(TrimSpace(p.structure), TrimSpace(p.title), if p.index.Some? then PhysicalIndex(p.index.value) else 0)
  }

  /** The entries that have a title, in order. */
  function Items(flat: seq<Payload>): seq<Item> {
    if flat == [] then []
    else
      var p := flat[|flat| - 1];
      Items(flat[..|flat| - 1]) + if TrimSpace(p.title) == "" then [] else [ItemOf(p)]
  }

  /** Entries are read one by one: an answer without a title is dropped, any other becomes an entry with its
      numbering and title trimmed and the page in its tag, zero without one. */
  lemma ItemsAre(a: seq<Payload>, b: seq<Payload>, p: Payload)
    ensures Items(a + b) == Items(a) + Items(b)
    ensures Items([p])
            == if TrimSpace(p.title) == "" then []
               else [Item(TrimSpace(p.structure), TrimSpace(p.title),
                          if p.index.None? then 0 else PhysicalIndex(p.index.value))]
  {
    ItemsConcat(a, b);
    assert [p][..0] == [] && Items([]) == [];
  }

  lemma {:induction false} ItemsConcat(a: seq<Payload>, b: seq<Payload>)
    ensures Items(a + b) == Items(a) + Items(b)
    decreases |b|
  {
    if b == [] {
      assert a + b == a;
    } else {
      assert (a + b)[..|a + b| - 1] == a + b[..|b| - 1];
      ItemsConcat(a, b[..|b| - 1]);
    }
  }

  method ReadItems(flat: seq<Payload>) returns (items: seq<Item>)
    ensures items == Items(flat)
  {
    items := [];
    for i := 0 to |flat|
      invariant items == Items(flat[..i])
    {
      assert flat[..i + 1][..i] == flat[..i];
      var title := TrimSpace(flat[i].title);
      if title == "" {
        continue;
      }
      var page := 0;
      if flat[i].index.Some? {
        page := ParsePhysicalIndex(flat[i].index.value);
      }
      items := items + [Item(TrimSpace(flat[i].structure), title, page)];
    }
    assert flat[..|flat|] == flat;
  }

  // ---------------------------------------------------------------- what a nesting is

  datatype Tree = Tree(item: Item, kids: seq<Tree>)

  /** A forest in reading order, each node with its depth in the tree. */
  function Listed(f: seq<Tree>, depth: nat): seq<(Item, nat)> {
    if f == [] then [] else [(f[0].item, depth)] + Listed(f[0].kids, depth + 1) + Listed(f[1..], depth)
  }

  /** Each entry at its dotted depth, or one below the entry before it when that is less. */
  function Nested(items: seq<Item>): (r: seq<(Item, nat)>)
    ensures |r| == |items| && forall i | 0 <= i < |r| :: r[i].0 == items[i]
  {
    if items == [] then []
    else
      var n := |items| - 1;
      var before := Nested(items[..n]);
      before + [(items[n], Min(DottedDepth(items[n].structure), LastDepth(before) + 1))]
  }

  lemma NestedStep(items: seq<Item>, i: nat)
    requires i < |items|
    ensures var before := Nested(items[..i]);
            Nested(items[..i + 1]) == before + [(items[i], Min(DottedDepth(items[i].structure), LastDepth(before) + 1))]
  {
    assert items[..i + 1][..i] == items[..i];
  }

  /** Each entry, in order, is as deep as its numbering says or one below the entry before it, whichever is less
      deep; the first is at the top. */
  lemma {:induction false} NestedSays(items: seq<Item>, i: nat)
    requires i < |items|
    ensures var (item, depth) := Nested(items)[i];
            var deepest := if i == 0 then 1 else Nested(items)[i - 1].1 + 1;
            item == items[i] && depth == if DottedDepth(item.structure) < deepest then DottedDepth(item.structure)
                                         else deepest
    decreases |items|
  {
    if i < |items| - 1 {
      NestedSays(items[..|items| - 1], i);
    }
  }

  function LastDepth(r: seq<(Item, nat)>): nat { if r == [] then 0 else r[|r| - 1].1 }

  function Min(a: nat, b: nat): nat { if a < b then a else b }

  lemma {:induction false} ListedConcat(f: seq<Tree>, g: seq<Tree>, d: nat)
    ensures Listed(f + g, d) == Listed(f, d) + Listed(g, d)
    decreases |f|
  {
    if f == [] {
      assert f + g == g;
    } else {
      assert (f + g)[1..] == f[1..] + g;
      ListedConcat(f[1..], g, d);
    }
  }

  lemma ListedOne(t: Tree, d: nat)
    ensures Listed([t], d) == [(t.item, d)] + Listed(t.kids, d + 1)
  {
    assert [t][1..] == [];
  }

  /** Every depth listed from depth d is at least d, the first exactly d. */
  predicate From(r: seq<(Item, nat)>, d: nat) {
    (r != [] ==> r[0].1 == d) && forall k | 0 <= k < |r| :: r[k].1 >= d
  }

  lemma {:induction false} ListedFrom(f: seq<Tree>, d: nat)
    ensures From(Listed(f, d), d) && (f == [] <==> Listed(f, d) == [])
    decreases f
  {
    if f != [] {
      ListedFrom(f[0].kids, d + 1);
      ListedFrom(f[1..], d);
    }
  }

  /** Reading order and depths say what the forest is. */
  lemma {:induction false} ListingDeterminesForest(f: seq<Tree>, g: seq<Tree>, d: nat)
    requires Listed(f, d) == Listed(g, d)
    ensures f == g
    decreases f
  {
    ListedFrom(f, d);
    ListedFrom(g, d);
    if f != [] && g != [] {
      SplitAtRoot(f, g, d);
      ListingDeterminesForest(f[0].kids, g[0].kids, d + 1);
      ListingDeterminesForest(f[1..], g[1..], d);
      assert f == [f[0]] + f[1..] && g == [g[0]] + g[1..];
    }
  }

  lemma SplitAtRoot(f: seq<Tree>, g: seq<Tree>, d: nat)
    requires f != [] && g != [] && Listed(f, d) == Listed(g, d)
    ensures f[0].item == g[0].item
    ensures Listed(f[0].kids, d + 1) == Listed(g[0].kids, d + 1) && Listed(f[1..], d) == Listed(g[1..], d)
  {
    var a, b := Listed(f[0].kids, d + 1), Listed(g[0].kids, d + 1);
    var x, y := Listed(f[1..], d), Listed(g[1..], d);
    ListedFrom(f[0].kids, d + 1);
    ListedFrom(g[0].kids, d + 1);
    ListedFrom(f[1..], d);
    ListedFrom(g[1..], d);
    RootFirst(f, d);
    RootFirst(g, d);
    SameSplit(a, x, b, y, d);
  }

  lemma RootFirst(f: seq<Tree>, d: nat)
    requires f != []
    ensures Listed(f, d) != [] && Listed(f, d)[0] == (f[0].item, d)
    ensures Listed(f, d)[1..] == Listed(f[0].kids, d + 1) + Listed(f[1..], d)
  {
  }

  /** Where the children end is seen from the depths. */
  lemma SameSplit(a: seq<(Item, nat)>, x: seq<(Item, nat)>, b: seq<(Item, nat)>, y: seq<(Item, nat)>, d: nat)
    requires a + x == b + y && From(a, d + 1) && From(b, d + 1) && From(x, d) && From(y, d)
    ensures a == b && x == y
  {
    NoEarlierSplit(a, x, b, y, d);
    NoEarlierSplit(b, y, a, x, d);
    assert a == (a + x)[..|a|] && x == (a + x)[|a|..];
    assert b == (b + y)[..|b|] && y == (b + y)[|b|..];
  }

  lemma NoEarlierSplit(a: seq<(Item, nat)>, x: seq<(Item, nat)>, b: seq<(Item, nat)>, y: seq<(Item, nat)>, d: nat)
    requires a + x == b + y && From(b, d + 1) && From(x, d)
    ensures |b| <= |a|
  {
    var whole := b + y;
    assert forall k | 0 <= k < |b| :: whole[k].1 > d;
    assert x != [] ==> (a + x)[|a|].1 == d;
  }

  // ---------------------------------------------------------------- slices

  /** A node as it lies in memory, its children in a slice of their own. */
  datatype Value = Value(item: Item, nodes: Slice)

  datatype Slice = Nil | Slice(back: array<Value>, len: nat)

  datatype Pointer = Pointer(back: array<Value>, at: nat)

  function Len(s: Slice): nat { if s.Nil? then 0 else s.len }

  function Backing(s: Slice): set<array<Value>> { if s.Nil? then {} else {s.back} }

  ghost predicate Fits(s: Slice) { s.Slice? ==> s.len <= s.back.Length }

  /** The built-in append: in place when there is room, otherwise into a new array of any larger size. */
  method Append(s: Slice, v: Value) returns (r: Slice)
    requires Fits(s)
    modifies Backing(s)
    ensures r.Slice? && r.len == Len(s) + 1 <= r.back.Length && r.back[Len(s)] == v
    ensures Backing(r) == Backing(s) || fresh(r.back)
    ensures forall j | 0 <= j < Len(s) :: r.back[j] == old(s.back[j])
  {
    if s.Slice? && s.len < s.back.Length {
      s.back[s.len] := v;
      return Slice(s.back, s.len + 1);
    }
    var cap: nat :| cap > Len(s);
    var back := new Value[cap](i => v);
    for i := 0 to Len(s)
      invariant forall j | 0 <= j < i :: back[j] == s.back[j]
      invariant back[Len(s)] == v
      invariant s.Slice? ==> s.back[..] == old(s.back[..])
    {
      back[i] := s.back[i];
    }
    r := Slice(back, Len(s) + 1);
  }

  /** Memory from `back` on holds the trees f, all further down in the arrays `arrs`. */
  ghost predicate Prefix(back: array<Value>, f: seq<Tree>, arrs: set<array<Value>>)
    reads back, arrs
    decreases f, 0
  {
    |f| <= back.Length && forall j | 0 <= j < |f| :: StoredAt(back[j], f[j], arrs)
  }

  ghost predicate StoredAt(v: Value, t: Tree, arrs: set<array<Value>>)
    reads arrs
    decreases t, 1
  {
    v.item == t.item && Stored(v.nodes, t.kids, arrs)
  }

  /** The slice holds the forest f, in the arrays `arrs`. */
  ghost predicate Stored(s: Slice, f: seq<Tree>, arrs: set<array<Value>>)
    reads arrs
    decreases f, 1
  {
    Len(s) == |f| && (s.Slice? ==> s.back in arrs && Prefix(s.back, f, arrs))
  }

  lemma {:induction false} MoreArrays(s: Slice, f: seq<Tree>, arrs: set<array<Value>>, more: set<array<Value>>)
    requires Stored(s, f, arrs) && arrs <= more
    ensures Stored(s, f, more)
    decreases f, 1
  {
    if s.Slice? {
      MoreArraysPrefix(s.back, f, arrs, more);
    }
  }

  lemma {:induction false} MoreArraysPrefix(back: array<Value>, f: seq<Tree>, arrs: set<array<Value>>,
                                            more: set<array<Value>>)
    requires Prefix(back, f, arrs) && arrs <= more
    ensures Prefix(back, f, more)
    decreases f, 0
  {
    forall j | 0 <= j < |f|
      ensures StoredAt(back[j], f[j], more)
    {
      assert StoredAt(back[j], f[j], arrs);
      MoreArrays(back[j].nodes, f[j].kids, arrs, more);
    }
  }

  // ---------------------------------------------------------------- the nodes still open

  /** A node on the path: the array it lies in, the finished siblings before it there, and itself. */
  datatype Frame = Frame(back: array<Value>, done: seq<Tree>, item: Item)

  /** The forest so far: `tail` holds the finished children of the innermost open node. */
  ghost function Close(frames: seq<Frame>, tail: seq<Tree>): seq<Tree>
    decreases |frames|
  {
    if frames == [] then tail
    else
      var fr := frames[|frames| - 1];
      Close(frames[..|frames| - 1], fr.done + [Tree(fr.item, tail)])
  }

  /** A node appended under the innermost open one comes last in reading order, one deeper. */
  lemma {:induction false} CloseGrows(frames: seq<Frame>, tail: seq<Tree>, more: seq<Tree>, e: (Item, nat))
    requires Listed(more, |frames| + 1) == Listed(tail, |frames| + 1) + [e]
    ensures Listed(Close(frames, more), 1) == Listed(Close(frames, tail), 1) + [e]
    decreases |frames|
  {
    if frames != [] {
      var p := |frames| - 1;
      var fr := frames[p];
      ListedConcat(fr.done, [Tree(fr.item, tail)], p + 1);
      ListedConcat(fr.done, [Tree(fr.item, more)], p + 1);
      ListedOne(Tree(fr.item, tail), p + 1);
      ListedOne(Tree(fr.item, more), p + 1);
      CloseGrows(frames[..p], fr.done + [Tree(fr.item, tail)], fr.done + [Tree(fr.item, more)], e);
    }
  }

  lemma ClosePushes(frames: seq<Frame>, fr: Frame)
    ensures Listed(Close(frames + [fr], []), 1) == Listed(Close(frames, fr.done), 1) + [(fr.item, |frames| + 1)]
  {
    var leaf := Tree(fr.item, []);
    ListedConcat(fr.done, [leaf], |frames| + 1);
    ListedOne(leaf, |frames| + 1);
    CloseGrows(frames, fr.done, fr.done + [leaf], (fr.item, |frames| + 1));
    assert (frames + [fr])[..|frames|] == frames;
  }

  /** The slice at level k of the path. */
  function SliceAt(frames: seq<Frame>, k: nat, s: Slice): Slice {
    if k < |frames| then Slice(frames[k].back, |frames[k].done| + 1) else s
  }

  /** The open node's memory: finished siblings, then the node itself with its children's slice. */
  ghost predicate Holds(fr: Frame, nodes: Slice, arrs: set<array<Value>>)
    reads fr.back, arrs
  {
    && |fr.done| < fr.back.Length && fr.back[|fr.done|] == Value(fr.item, nodes)
    && Prefix(fr.back, fr.done, arrs)
  }

  /** Open nodes lie in arrays of their own, outside everything finished. */
  ghost predicate Apart(frames: seq<Frame>, s: Slice, arrs: set<array<Value>>) {
    && (forall k | 0 <= k < |frames| :: frames[k].back !in arrs && frames[k].back !in Backing(s))
    && (forall j, k | 0 <= j < k < |frames| :: frames[j].back != frames[k].back)
    && Backing(s) !! arrs
  }

  ghost function Spine(frames: seq<Frame>): (r: set<array<Value>>)
    ensures forall k | 0 <= k < |frames| :: frames[k].back in r
  {
    if frames == [] then {} else Spine(frames[..|frames| - 1]) + {frames[|frames| - 1].back}
  }

  /** Every pointer on the path leads to the last node of the slice it is in. */
  ghost predicate Points(path: seq<Pointer>, frames: seq<Frame>) {
    |path| == |frames| && forall k | 0 <= k < |frames| :: path[k] == Pointer(frames[k].back, |frames[k].done|)
  }

  ghost predicate HoldsAll(frames: seq<Frame>, s: Slice, arrs: set<array<Value>>)
    reads Spine(frames), arrs
  {
    forall k | 0 <= k < |frames| :: Holds(frames[k], SliceAt(frames, k + 1, s), arrs)
  }

  /** The innermost open node's children are finished. */
  ghost predicate HoldsTail(s: Slice, tail: seq<Tree>, arrs: set<array<Value>>)
    reads arrs, Backing(s)
  {
    Len(s) == |tail| && (s.Slice? ==> Prefix(s.back, tail, arrs))
  }

  /** What memory holds while the listing is read, s being the slice of the innermost open node. */
  ghost predicate Open(path: seq<Pointer>, frames: seq<Frame>, s: Slice, tail: seq<Tree>, arrs: set<array<Value>>)
    reads Spine(frames), arrs, Backing(s)
  {
    Points(path, frames) && HoldsAll(frames, s, arrs) && Apart(frames, s, arrs) && HoldsTail(s, tail, arrs)
  }

  lemma HoldsMore(fr: Frame, nodes: Slice, arrs: set<array<Value>>, more: set<array<Value>>)
    requires Holds(fr, nodes, arrs) && arrs <= more
    ensures Holds(fr, nodes, more)
  {
    MoreArraysPrefix(fr.back, fr.done, arrs, more);
  }

  /** An open node whose children's slice holds `tail` is a finished tree among its siblings. */
  lemma Finishes(fr: Frame, s: Slice, tail: seq<Tree>, arrs: set<array<Value>>)
    requires Holds(fr, s, arrs) && Len(s) == |tail| && (s.Slice? ==> Prefix(s.back, tail, arrs))
    ensures Prefix(fr.back, fr.done + [Tree(fr.item, tail)], arrs + Backing(s))
  {
    var more := arrs + Backing(s);
    if s.Slice? {
      MoreArraysPrefix(s.back, tail, arrs, more);
    }
    MoreArraysPrefix(fr.back, fr.done, arrs, more);
    assert StoredAt(fr.back[|fr.done|], Tree(fr.item, tail), more);
  }

  /** The slice the last frame lies in. */
  function Around(frames: seq<Frame>): Slice
    requires frames != []
  {
    var fr := frames[|frames| - 1];
    Slice(fr.back, |fr.done| + 1)
  }

  lemma HoldsFront(frames: seq<Frame>, s: Slice, arrs: set<array<Value>>, more: set<array<Value>>)
    requires HoldsAll(frames, s, arrs) && frames != [] && arrs <= more
    ensures HoldsAll(frames[..|frames| - 1], Around(frames), more)
  {
    var front := frames[..|frames| - 1];
    forall k | 0 <= k < |front|
      ensures Holds(front[k], SliceAt(front, k + 1, Around(frames)), more)
    {
      assert SliceAt(front, k + 1, Around(frames)) == SliceAt(frames, k + 1, s);
      HoldsMore(frames[k], SliceAt(frames, k + 1, s), arrs, more);
    }
  }

  /** Leaving the innermost open node: it is finished, and so is all it holds. */
  lemma Pops(path: seq<Pointer>, frames: seq<Frame>, s: Slice, tail: seq<Tree>, arrs: set<array<Value>>)
    requires Open(path, frames, s, tail, arrs) && frames != []
    ensures var p := |frames| - 1;
            Open(path[..p], frames[..p], Around(frames), frames[p].done + [Tree(frames[p].item, tail)],
                 arrs + Backing(s))
  {
    var p := |frames| - 1;
    assert Holds(frames[p], SliceAt(frames, p + 1, s), arrs);
    Finishes(frames[p], s, tail, arrs);
    HoldsFront(frames, s, arrs, arrs + Backing(s));
  }

  lemma {:induction false} PopsAll(path: seq<Pointer>, frames: seq<Frame>, s: Slice, tail: seq<Tree>,
                                   arrs: set<array<Value>>)
    returns (all: set<array<Value>>)
    requires Open(path, frames, s, tail, arrs)
    ensures all <= Spine(frames) + Backing(s) + arrs
    ensures Stored(SliceAt(frames, 0, s), Close(frames, tail), all)
    decreases |frames|
  {
    if frames == [] {
      all := arrs + Backing(s);
      if s.Slice? {
        MoreArraysPrefix(s.back, tail, arrs, all);
      }
    } else {
      var p := |frames| - 1;
      Pops(path, frames, s, tail, arrs);
      all := PopsAll(path[..p], frames[..p], Around(frames), frames[p].done + [Tree(frames[p].item, tail)],
                     arrs + Backing(s));
      assert SliceAt(frames, 0, s) == SliceAt(frames[..p], 0, Around(frames));
    }
  }

  /** Memory as Prefix describes it. */
  datatype Shelf = Shelf(back: array<Value>, trees: seq<Tree>, arrs: set<array<Value>>)

  twostate predicate Untouched(arrs: set<array<Value>>)
    reads arrs
  {
    forall a | a in arrs :: unchanged(a)
  }

  /** Finished trees are kept by whatever leaves their arrays alone, wherever their roots are moved. */
  twostate lemma PrefixKept(was: Shelf, new back: array<Value>)
    requires old(Prefix(was.back, was.trees, was.arrs)) && Untouched(was.arrs)
    requires |was.trees| <= back.Length && forall j | 0 <= j < |was.trees| :: back[j] == old(was.back[j])
    ensures Prefix(back, was.trees, was.arrs)
  {
    forall j | 0 <= j < |was.trees|
      ensures StoredAt(back[j], was.trees[j], was.arrs)
    {
      assert old(StoredAt(was.back[j], was.trees[j], was.arrs));
    }
  }

  /** The step for an entry that goes to the top level. */
  method AppendTop(out: Slice, item: Item, ghost tail: seq<Tree>, ghost arrs: set<array<Value>>)
    returns (out': Slice, path: seq<Pointer>, ghost fr: Frame)
    requires Open([], [], out, tail, arrs)
    modifies Backing(out)
    ensures |path| == 1 && fr.done == tail && fr.item == item && out' == Slice(fr.back, |tail| + 1)
    ensures fr.back in Backing(out) || fresh(fr.back)
    ensures Open(path, [] + [fr], Nil, [], arrs)
  {
    out' := Append(out, Value(item, Nil));
    path := [Pointer(out'.back, out'.len - 1)];
    fr := Frame(out'.back, tail, item);
    if out.Slice? {
      PrefixKept(Shelf(out.back, tail, arrs), out'.back);
    }
  }

  /** A new innermost node lies in the slice that was open, or where that slice was moved to. */
  lemma ApartPush(path: seq<Pointer>, frames: seq<Frame>, s: Slice, arrs: set<array<Value>>, fr: Frame)
    requires Points(path, frames) && Apart(frames, s, arrs)
    requires fr.back in Backing(s) || fr.back !in Spine(frames) + arrs
    ensures Points(path + [Pointer(fr.back, |fr.done|)], frames + [fr]) && Apart(frames + [fr], Nil, arrs)
  {
  }

  lemma {:induction false} SpineApart(frames: seq<Frame>, apart: set<array<Value>>)
    requires forall k | 0 <= k < |frames| :: frames[k].back !in apart
    ensures Spine(frames) !! apart
    decreases |frames|
  {
    if frames != [] {
      SpineApart(frames[..|frames| - 1], apart);
    }
  }

  lemma HoldsPush(frames: seq<Frame>, fr: Frame, last: Frame, arrs: set<array<Value>>)
    requires HoldsAll(frames, Slice(last.back, |last.done| + 1), arrs)
    requires Holds(last, Slice(fr.back, |fr.done| + 1), arrs) && Holds(fr, Nil, arrs)
    ensures HoldsAll(frames + [last] + [fr], Nil, arrs)
  {
    var all := frames + [last] + [fr];
    forall i | 0 <= i < |all|
      ensures Holds(all[i], SliceAt(all, i + 1, Nil), arrs)
    {
      if i < |frames| {
        assert SliceAt(all, i + 1, Nil) == SliceAt(frames, i + 1, Slice(last.back, |last.done| + 1));
      }
    }
  }

  /** The step for an entry that goes under the innermost open node: through the pointer on top of the
      path, its children's slice is replaced by the one with the entry appended. */
  method AppendUnder(path: seq<Pointer>, item: Item, ghost frames: seq<Frame>, ghost s: Slice, ghost tail: seq<Tree>,
                     ghost arrs: set<array<Value>>)
    returns (path': seq<Pointer>, ghost fr: Frame)
    requires Open(path, frames, s, tail, arrs) && path != []
    modifies Spine(frames), Backing(s)
    ensures |path'| == |path| + 1 && fr.done == tail && fr.item == item
    ensures fr.back in Backing(s) || fresh(fr.back)
    ensures Open(path', frames + [fr], Nil, [], arrs)
  {
    var p := path[|path| - 1];
    ghost var front, last := frames[..|frames| - 1], frames[|frames| - 1];
    assert frames == front + [last];
    assert Holds(last, SliceAt(frames, |frames|, s), arrs);
    HoldsFront(frames, s, arrs, arrs);
    SpineApart(front, {last.back} + Backing(s));
    SpineApart(frames, arrs);
    var nodes := AppendThrough(p, item, front, last, s, tail, arrs);
    if nodes.back !in Backing(s) {
      SpineApart(frames, {nodes.back});
    }
    fr := Frame(nodes.back, tail, item);
    path' := path + [Pointer(nodes.back, nodes.len - 1)];
    ApartPush(path, frames, s, arrs, fr);
    HoldsPush(front, fr, last, arrs);
  }

  method AppendThrough(p: Pointer, item: Item, ghost front: seq<Frame>, ghost last: Frame, ghost s: Slice,
                       ghost tail: seq<Tree>,
                       ghost arrs: set<array<Value>>)
    returns (nodes: Slice)
    requires Holds(last, s, arrs) && HoldsTail(s, tail, arrs) && p == Pointer(last.back, |last.done|)
    requires last.back !in arrs + Backing(s) && Backing(s) !! arrs
    requires HoldsAll(front, Slice(last.back, |last.done| + 1), arrs) && Spine(front) !! {last.back} + Backing(s)
    modifies last.back, Backing(s)
    ensures nodes.Slice? && nodes.len == |tail| + 1 && (nodes.back in Backing(s) || fresh(nodes.back))
    ensures Holds(last, nodes, arrs) && Holds(Frame(nodes.back, tail, item), Nil, arrs)
    ensures HoldsAll(front, Slice(last.back, |last.done| + 1), arrs)
  {
    nodes := Append(p.back[p.at].nodes, Value(item, Nil));
    p.back[p.at] := Value(p.back[p.at].item, nodes);
    if s.Slice? {
      PrefixKept(Shelf(s.back, tail, arrs), nodes.back);
    }
    PrefixKept(Shelf(p.back, last.done, arrs), p.back);
  }

  /** The reading as it stands: open nodes, the innermost one's slice and finished children, and the
      arrays finished trees lie in; `own` holds every array there is. */
  datatype Walk = Walk(frames: seq<Frame>, s: Slice, tail: seq<Tree>, arrs: set<array<Value>>, own: set<array<Value>>)

  ghost function Forest(w: Walk): seq<Tree> { Close(w.frames, w.tail) }

  ghost predicate Reading(out: Slice, path: seq<Pointer>, w: Walk)
    reads w.own
  {
    && Spine(w.frames) + Backing(w.s) + w.arrs <= w.own
    && Open(path, w.frames, w.s, w.tail, w.arrs) && out == SliceAt(w.frames, 0, w.s)
  }

  ghost function Left(w: Walk): Walk
    requires w.frames != []
  {
    var p := |w.frames| - 1;
    Walk(w.frames[..p], Around(w.frames), w.frames[p].done + [Tree(w.frames[p].item, w.tail)], w.arrs + Backing(w.s),
         w.own)
  }

  lemma Leaves(out: Slice, path: seq<Pointer>, w: Walk)
    requires Reading(out, path, w) && w.frames != []
    ensures Reading(out, path[..|path| - 1], Left(w)) && Forest(Left(w)) == Forest(w)
  {
    Pops(path, w.frames, w.s, w.tail, w.arrs);
  }

  /** Pops the path until the entry to come is no deeper than one below it. */
  method PopTo(ghost out: Slice, path: seq<Pointer>, depth: nat, ghost w: Walk)
    returns (path': seq<Pointer>, ghost w': Walk)
    requires Reading(out, path, w) && depth >= 1
    ensures Reading(out, path', w') && |path'| == Min(|path|, depth - 1)
    ensures Forest(w') == Forest(w) && w'.own == w.own
  {
    path', w' := path, w;
    while |path'| >= depth
      invariant Reading(out, path', w') && Min(|path|, depth - 1) <= |path'| <= |path|
      invariant Forest(w') == Forest(w) && w'.own == w.own
    {
      Leaves(out, path', w');
      path', w' := path'[..|path'| - 1], Left(w');
    }
  }

  method Place(out: Slice, path: seq<Pointer>, item: Item, ghost v: Walk)
    returns (out': Slice, path': seq<Pointer>, ghost fr: Frame)
    requires Reading(out, path, v)
    modifies v.own
    ensures fr.done == v.tail && fr.item == item && (fr.back in v.own || fresh(fr.back))
    ensures |path'| == |path| + 1
    ensures Reading(out', path', Walk(v.frames + [fr], Nil, [], v.arrs, v.own + {fr.back}))
  {
    out' := out;
    if path == [] {
      out', path', fr := AppendTop(out, item, v.tail, v.arrs);
    } else {
      path', fr := AppendUnder(path, item, v.frames, v.s, v.tail, v.arrs);
    }
    assert (v.frames + [fr])[..|v.frames|] == v.frames;
  }

  method AddEntry(out: Slice, path: seq<Pointer>, item: Item, ghost w: Walk, ghost listed: seq<(Item, nat)>)
    returns (out': Slice, path': seq<Pointer>, ghost w': Walk)
    requires Reading(out, path, w) && Listed(Forest(w), 1) == listed
    modifies w.own
    ensures Reading(out', path', w') && fresh(w'.own - w.own)
    ensures |path'| == Min(DottedDepth(item.structure), |path| + 1)
    ensures Listed(Forest(w'), 1) == listed + [(item, |path'|)]
  {
    ghost var v: Walk;
    path', v := PopTo(out, path, DottedDepth(item.structure), w);
    ghost var fr: Frame;
    out', path', fr := Place(out, path', item, v);
    ClosePushes(v.frames, fr);
    w' := Walk(v.frames + [fr], Nil, [], v.arrs, v.own + {fr.back});
  }

  ghost function Unread(): Walk { Walk([], Nil, [], {}, {}) }

  lemma NothingRead()
    ensures Reading(Nil, [], Unread()) && Listed(Forest(Unread()), 1) == []
  {
  }

  method AddEntries(items: seq<Item>) returns (out: Slice, path: seq<Pointer>, ghost w: Walk)
    ensures Reading(out, path, w) && fresh(w.own) && Listed(Forest(w), 1) == Nested(items)
  {
    out, path, w := Nil, [], Unread();
    NothingRead();
    ghost var listed: seq<(Item, nat)> := [];
    for i := 0 to |items|
      invariant Reading(out, path, w) && fresh(w.own) && Listed(Forest(w), 1) == listed
      invariant listed == Nested(items[..i]) && |path| == LastDepth(listed)
    {
      NestedStep(items, i);
      out, path, w := AddEntry(out, path, items[i], w, listed);
      listed := listed + [(items[i], |path|)];
    }
    assert items[..|items|] == items;
  }

  /** The forest built in memory lists every titled entry in order, each as deep as its number says but
      never more than one below the entry before it. */
  method AssembleHierarchy(flat: seq<Payload>)
    returns (out: Slice, ghost forest: seq<Tree>, ghost arrs: set<array<Value>>)
    ensures fresh(arrs) && Stored(out, forest, arrs)
    ensures Listed(forest, 1) == Nested(Items(flat))
  {
    var items := ReadItems(flat);
    var path: seq<Pointer>;
    ghost var w: Walk;
    out, path, w := AddEntries(items);
    forest := Forest(w);
    arrs := PopsAll(path, w.frames, w.s, w.tail, w.arrs);
  }
}
