/** The section tree rebuilt from listed rows (buildTree), and that it is the tree that was persisted. */
module LoadTree {
  import opened Persist
  import opened Sections
  import opened Text

  class Section {
    const id: string
    const parent: string
    const ordinal: nat
    const title: string
    const ref: string
    const tokens: nat
    const start: int
    const end: int
    var children: seq<Section>

    constructor (r: Row)
      ensures Shows(this, r) && children == []
    {
      id, parent, ordinal, title, ref, tokens, start, end := r.id, r.parent, r.ordinal, r.title, r.ref, r.tokens,
          r.start, r.end;
      children := [];
    }

    /** The root made up for a document with several top-level sections. */
    constructor Synthetic(title: string, children: seq<Section>)
      ensures id == "" && this.title == title && this.children == children
    {
      id, parent, ordinal, this.title, ref, tokens, start, end := "", "", 0, title, "", 0, 0, 0;
      this.children := children;
    }
  }

  /** A section carries its row's columns; the depth is left behind. */
  predicate Shows(s: Section, r: Row) {
    && s.id == r.id && s.parent == r.parent && s.ordinal == r.ordinal && s.title == r.title && s.ref == r.ref
    && s.tokens == r.tokens && s.start == r.start && s.end == r.end
  }

  type Index = map<string, Section>

  function Objects(byID: Index, rows: seq<Row>): seq<Section> {
    if rows == [] then []
    else
      var r := rows[|rows| - 1];
      Objects(byID, rows[..|rows| - 1]) + if r.id in byID then [byID[r.id]] else []
  }

  /** Ids are the table's key, and none is empty. */
  ghost predicate Keyed(rows: seq<Row>) {
    && (forall r | r in rows :: r.id != "")
    && (forall i, j | 0 <= i < j < |rows| :: rows[i].id != rows[j].id)
  }

  /** One object for each row, showing it; no two share one. */
  ghost predicate Indexes(byID: Index, rows: seq<Row>) {
    && (forall r | r in rows :: r.id in byID && Shows(byID[r.id], r))
    && (forall id | id in byID :: byID[id].id == id && exists r :: r in rows && r.id == id)
  }

  /** Every section has for children those whose rows name it, in the order of the rows so far. */
  ghost predicate Linked(byID: Index, rows: seq<Row>, top: seq<Section>)
    reads byID.Values
  {
    && (forall id | id in byID :: byID[id].children == Objects(byID, Filter(rows, id)))
    && top == Objects(byID, Filter(rows, ""))
  }

  method BuildTree(title: string, rows: seq<Row>) returns (root: Section?, ghost byID: Index, ghost top: seq<Section>)
    requires Keyed(rows)
    ensures Indexes(byID, rows) && Linked(byID, rows, top) && (forall id | id in byID :: fresh(byID[id]))
    ensures if |top| == 0 then root == null
            else if |top| == 1 then root == top[0]
            else root != null && fresh(root) && root.id == "" && root.title == title && root.children == top
  {
    var index := IndexRows(rows);
    var topLevel := LinkRows(index, rows);
    byID, top := index, topLevel;
    if |topLevel| == 0 {
      root := null;
    } else if |topLevel| == 1 {
      root := topLevel[0];
    } else {
      root := new Section.Synthetic(title, topLevel);
    }
  }

  method IndexRows(rows: seq<Row>) returns (byID: Index)
    requires Keyed(rows)
    ensures Indexes(byID, rows) && forall id | id in byID :: fresh(byID[id]) && byID[id].children == []
  {
    byID := map[];
    for i := 0 to |rows|
      invariant Indexes(byID, rows[..i])
      invariant forall id | id in byID :: fresh(byID[id]) && byID[id].children == []
    {
      var r := rows[i];
      var s := new Section(r);
      IndexGrows(byID, rows, i, s);
      byID := byID[r.id := s];
    }
    assert rows[..|rows|] == rows;
  }

  lemma IndexGrows(byID: Index, rows: seq<Row>, i: nat, s: Section)
    requires Keyed(rows) && i < |rows| && Indexes(byID, rows[..i]) && Shows(s, rows[i])
    ensures Indexes(byID[rows[i].id := s], rows[..i + 1]) && rows[i].id !in byID
  {
    var rows', r := rows[..i + 1], rows[i];
    assert rows' == rows[..i] + [r];
    assert forall k | 0 <= k < i :: rows[..i][k].id != r.id;
    assert r in rows';
    forall id | id in byID
      ensures exists q :: q in rows' && q.id == id
    {
      var q :| q in rows[..i] && q.id == id;
      assert q in rows';
    }
    forall q | q in rows'
      ensures q.id in byID[r.id := s] && Shows(byID[r.id := s][q.id], q)
    {
      if q != r {
        assert q in rows[..i];
      }
    }
  }

  function Next(byID: Index, r: Row, parent: string): seq<Section> {
    if r.parent == parent && r.id in byID then [byID[r.id]] else []
  }

  lemma ObjectsStep(byID: Index, rows: seq<Row>, i: nat, parent: string)
    requires i < |rows|
    ensures Objects(byID, Filter(rows[..i + 1], parent))
            == Objects(byID, Filter(rows[..i], parent)) + Next(byID, rows[i], parent)
  {
    assert rows[..i + 1][..i] == rows[..i];
    var f := Filter(rows[..i], parent);
    assert (f + [rows[i]])[..|f|] == f;
    assert f + [] == f;
  }

  /** One turn of the second pass: a section goes under its parent, to the top level, or nowhere. */
  method LinkRow(byID: Index, rows: seq<Row>, i: nat, top: seq<Section>) returns (top': seq<Section>)
    requires Indexes(byID, rows) && "" !in byID && i < |rows| && Linked(byID, rows[..i], top)
    modifies byID.Values
    ensures Linked(byID, rows[..i + 1], top')
  {
    assert rows[i] in rows;
    var s := byID[rows[i].id];
    top' := Attach(byID, s, top);
    NextIs(byID, rows[i], "");
    ObjectsStep(byID, rows, i, "");
    forall id | id in byID
      ensures byID[id].children == Objects(byID, Filter(rows[..i + 1], id))
    {
      NextIs(byID, rows[i], id);
      ObjectsStep(byID, rows, i, id);
    }
  }

  lemma NextIs(byID: Index, r: Row, parent: string)
    requires r.id in byID && Shows(byID[r.id], r)
    ensures Next(byID, r, parent) == OnlyUnder(byID[r.id], parent)
  {
  }

  function OnlyUnder(s: Section, parent: string): seq<Section> {
    if s.parent == parent then [s] else []
  }

  method Attach(byID: Index, s: Section, top: seq<Section>) returns (top': seq<Section>)
    requires "" !in byID && forall id | id in byID :: byID[id].id == id
    modifies byID.Values
    ensures top' == top + OnlyUnder(s, "")
    ensures forall id | id in byID :: byID[id].children == old(byID[id].children) + OnlyUnder(s, id)
  {
    top' := top;
    if s.parent == "" {
      top' := top + [s];
    } else if s.parent in byID {
      var parent := byID[s.parent];
      parent.children := parent.children + [s];
    }
  }

  method LinkRows(byID: Index, rows: seq<Row>) returns (top: seq<Section>)
    requires Keyed(rows) && Indexes(byID, rows) && forall id | id in byID :: byID[id].children == []
    modifies byID.Values
    ensures Linked(byID, rows, top)
  {
    top := [];
    assert "" !in byID;
    for i := 0 to |rows|
      invariant Linked(byID, rows[..i], top)
    {
      top := LinkRow(byID, rows, i, top);
    }
    assert rows[..|rows|] == rows;
  }

  /** The forest a loaded tree stands for: a synthetic root is not one of its sections. */
  function TopSections(root: Section?): seq<Section>
    reads root
  {
    if root == null then [] else if root.id == "" then root.children else [root]
  }

  // ---------------------------------------------------------------- what was persisted is loaded

  /** In memory, `s` and all below it are the parsed section and all it holds: same shape, same order,
      cleaned titles, references and sizes of its text, and its pages. */
  ghost predicate Restores(c: Context, s: Section, sec: Sec, parent: string, ordinal: nat, objs: set<Section>)
    reads objs
    decreases sec
  {
    && s in objs && s.parent == parent && s.ordinal == ordinal && s.title == c.clean(sec.title)
    && s.ref == (if TrimSpace(c.clean(sec.content)) == "" then ""
                 else "documents/" + c.doc + "/sections/" + s.id + ".txt")
    && s.tokens == c.tokens(c.clean(sec.content))
    && s.start == (if sec.start <= 0 then 0 else sec.start) && s.end == (if sec.end <= 0 then 0 else sec.end)
    && |s.children| == |sec.kids|
    && forall i | 0 <= i < |sec.kids| :: Restores(c, s.children[i], sec.kids[i], s.id, i, objs)
  }

  /** The rows of some siblings themselves, without what they hold, as they come back. */
  function Tops(c: Context, secs: seq<Sec>, parent: string, depth: nat, ordinal: nat, n: nat): (t: seq<Row>)
    ensures |t| == |secs|
    decreases |secs|
  {
    if secs == [] then []
    else [Back(RowFor(c, secs[0], c.mint(n), parent, ordinal, depth))]
         + Tops(c, secs[1..], parent, depth, ordinal + 1, n + SizeOf(secs[0]))
  }

  /** Rows of one parent and depth, their ordinals counting up from `ordinal`. */
  ghost predicate InLine(rows: seq<Row>, parent: string, depth: nat, ordinal: nat) {
    forall i | 0 <= i < |rows| :: rows[i].parent == parent && rows[i].depth == depth && rows[i].ordinal == ordinal + i
  }

  lemma InLineCons(r: Row, rows: seq<Row>)
    requires InLine(rows, r.parent, r.depth, r.ordinal + 1)
    ensures InLine([r] + rows, r.parent, r.depth, r.ordinal)
  {
    assert forall i | 0 < i < |rows| + 1 :: ([r] + rows)[i] == rows[i - 1];
  }

  lemma {:induction false} TopsInLine(c: Context, secs: seq<Sec>, parent: string, depth: nat, ordinal: nat, n: nat)
    ensures InLine(Tops(c, secs, parent, depth, ordinal, n), parent, depth, ordinal)
    decreases |secs|
  {
    if secs != [] {
      TopsInLine(c, secs[1..], parent, depth, ordinal + 1, n + SizeOf(secs[0]));
      InLineCons(Back(RowFor(c, secs[0], c.mint(n), parent, ordinal, depth)),
                 Tops(c, secs[1..], parent, depth, ordinal + 1, n + SizeOf(secs[0])));
    }
  }

  lemma TopsAreSiblings(c: Context, secs: seq<Sec>, parent: string, depth: nat, ordinal: nat, n: nat)
    ensures Siblings(Tops(c, secs, parent, depth, ordinal, n))
  {
    TopsInLine(c, secs, parent, depth, ordinal, n);
  }

  /** The planned rows of some siblings, as they come back. */
  function Backs(c: Context, secs: seq<Sec>, parent: string, depth: nat, ordinal: nat, n: nat): seq<Row> {
    BackAll(Rows(Plan(c, secs, parent, depth, ordinal, n)))
  }

  function OwnBack(c: Context, s: Sec, parent: string, depth: nat, ordinal: nat, n: nat): Row {
    Back(RowFor(c, s, c.mint(n), parent, ordinal, depth))
  }

  function KidsBack(c: Context, s: Sec, depth: nat, n: nat): seq<Row> {
    Backs(c, s.kids, c.mint(n), depth + 1, 0, n + 1)
  }

  function RestBack(c: Context, secs: seq<Sec>, parent: string, depth: nat, ordinal: nat, n: nat): seq<Row>
    requires secs != []
  {
    Backs(c, secs[1..], parent, depth, ordinal + 1, n + SizeOf(secs[0]))
  }

  lemma BacksSplit(c: Context, secs: seq<Sec>, parent: string, depth: nat, ordinal: nat, n: nat)
    requires secs != []
    ensures Backs(c, secs, parent, depth, ordinal, n)
            == [OwnBack(c, secs[0], parent, depth, ordinal, n)] + KidsBack(c, secs[0], depth, n)
               + RestBack(c, secs, parent, depth, ordinal, n)
  {
    var s := secs[0];
    var own, kids := [PlannedFor(c, s, c.mint(n), parent, ordinal, depth)],
        Plan(c, s.kids, c.mint(n), depth + 1, 0, n + 1);
    var rest := Plan(c, secs[1..], parent, depth, ordinal + 1, n + SizeOf(s));
    assert Plan(c, secs, parent, depth, ordinal, n) == own + kids + rest;
    BackConcat(own + kids, rest);
    BackConcat(own, kids);
    assert BackAll(Rows(own)) == [OwnBack(c, s, parent, depth, ordinal, n)];
  }

  lemma BackConcat(a: seq<Planned>, b: seq<Planned>)
    ensures BackAll(Rows(a + b)) == BackAll(Rows(a)) + BackAll(Rows(b))
  {
  }

  /** `id` is none of the ids drawn from number n on, `size` of them. */
  ghost predicate Outside(c: Context, id: string, n: nat, size: nat) {
    forall k | n <= k < n + size :: id != c.mint(k)
  }

  ghost predicate NoneUnder(c: Context, rows: seq<Row>, n: nat, size: nat) {
    forall r | r in rows :: Outside(c, r.parent, n, size)
  }

  ghost predicate HangsFrom(c: Context, r: Row, parent: string, n: nat, size: nat) {
    r.parent == parent || exists k :: n <= k < n + size && r.parent == c.mint(k)
  }

  ghost predicate AllHangFrom(c: Context, rows: seq<Row>, parent: string, n: nat, size: nat) {
    forall r | r in rows :: HangsFrom(c, r, parent, n, size)
  }

  lemma HangTogether(c: Context, own: Row, kids: seq<Row>, rest: seq<Row>, parent: string, n: nat, size: nat)
    requires HangsFrom(c, own, parent, n, size) && AllHangFrom(c, kids, parent, n, size)
             && AllHangFrom(c, rest, parent, n, size)
    ensures AllHangFrom(c, [own] + kids + rest, parent, n, size)
  {
  }

  lemma HangInside(c: Context, rows: seq<Row>, from: string, n: nat, size: nat, parent: string, m: nat, all: nat)
    requires AllHangFrom(c, rows, from, n, size) && m <= n && n + size <= m + all
    requires from == parent || exists k :: m <= k < m + all && from == c.mint(k)
    ensures AllHangFrom(c, rows, parent, m, all)
  {
    forall r | r in rows
      ensures HangsFrom(c, r, parent, m, all)
    {
      assert HangsFrom(c, r, from, n, size);
    }
  }

  /** Rows planned from number n on hang from the parent given or from one another. */
  lemma {:induction false} ParentsWithin(c: Context, secs: seq<Sec>, parent: string, depth: nat, ordinal: nat, n: nat)
    ensures AllHangFrom(c, Backs(c, secs, parent, depth, ordinal, n), parent, n, Size(secs))
    decreases secs
  {
    if secs != [] {
      var s, size := secs[0], Size(secs);
      BacksSplit(c, secs, parent, depth, ordinal, n);
      ParentsWithin(c, s.kids, c.mint(n), depth + 1, 0, n + 1);
      HangInside(c, KidsBack(c, s, depth, n), c.mint(n), n + 1, Size(s.kids), parent, n, size);
      ParentsWithin(c, secs[1..], parent, depth, ordinal + 1, n + SizeOf(s));
      HangInside(c, RestBack(c, secs, parent, depth, ordinal, n), parent, n + SizeOf(s), Size(secs[1..]), parent, n,
                 size);
      HangTogether(c, OwnBack(c, s, parent, depth, ordinal, n), KidsBack(c, s, depth, n),
                   RestBack(c, secs, parent, depth, ordinal, n), parent, n, size);
    }
  }

  /** So none of them hangs from an id drawn elsewhere. */
  lemma NoneUnderOthers(c: Context, secs: seq<Sec>, parent: string, depth: nat, ordinal: nat, n: nat, m: nat, size: nat)
    requires Minting(c) && Outside(c, parent, m, size) && (m + size <= n || n + Size(secs) <= m)
    ensures NoneUnder(c, Backs(c, secs, parent, depth, ordinal, n), m, size)
  {
    ParentsWithin(c, secs, parent, depth, ordinal, n);
    forall r | r in Backs(c, secs, parent, depth, ordinal, n)
      ensures Outside(c, r.parent, m, size)
    {
      assert HangsFrom(c, r, parent, n, Size(secs));
    }
  }

  /** Under their parent the planned rows are the siblings themselves. */
  lemma {:induction false} FilterTops(c: Context, secs: seq<Sec>, parent: string, depth: nat, ordinal: nat, n: nat)
    requires Minting(c) && Outside(c, parent, n, Size(secs))
    ensures Filter(Backs(c, secs, parent, depth, ordinal, n), parent) == Tops(c, secs, parent, depth, ordinal, n)
    decreases |secs|, 1
  {
    if secs != [] {
      FilterFirstTop(c, secs, parent, depth, ordinal, n, ordinal + 1, n + SizeOf(secs[0]));
    }
  }

  lemma {:induction false} FilterFirstTop(c: Context, secs: seq<Sec>, parent: string, depth: nat, ordinal: nat, n: nat,
                                          next: nat, m: nat)
    requires secs != [] && Minting(c) && Outside(c, parent, n, Size(secs)) && next == ordinal + 1
             && m == n + SizeOf(secs[0])
    ensures Filter(Backs(c, secs, parent, depth, ordinal, n), parent) == Tops(c, secs, parent, depth, ordinal, n)
    decreases |secs|, 0
  {
    FilterFirst(c, secs, parent, depth, ordinal, n);
    RestIs(c, secs, parent, depth, ordinal, n, next, m);
    OutsideRest(c, secs, parent, n, m);
    FilterTops(c, secs[1..], parent, depth, next, m);
    TopsCons(c, secs, parent, depth, ordinal, n, next, m);
  }

  lemma TopsCons(c: Context, secs: seq<Sec>, parent: string, depth: nat, ordinal: nat, n: nat, next: nat, m: nat)
    requires secs != [] && next == ordinal + 1 && m == n + SizeOf(secs[0])
    ensures Tops(c, secs, parent, depth, ordinal, n)
            == [OwnBack(c, secs[0], parent, depth, ordinal, n)] + Tops(c, secs[1..], parent, depth, next, m)
  {
  }

  lemma RestIs(c: Context, secs: seq<Sec>, parent: string, depth: nat, ordinal: nat, n: nat, next: nat, m: nat)
    requires secs != [] && next == ordinal + 1 && m == n + SizeOf(secs[0])
    ensures RestBack(c, secs, parent, depth, ordinal, n) == Backs(c, secs[1..], parent, depth, next, m)
  {
  }

  lemma OutsideRest(c: Context, secs: seq<Sec>, parent: string, n: nat, m: nat)
    requires secs != [] && Outside(c, parent, n, Size(secs)) && m == n + SizeOf(secs[0])
    ensures Outside(c, parent, m, Size(secs[1..]))
  {
  }

  lemma FilterFirst(c: Context, secs: seq<Sec>, parent: string, depth: nat, ordinal: nat, n: nat)
    requires secs != [] && Minting(c) && Outside(c, parent, n, Size(secs))
    ensures Filter(Backs(c, secs, parent, depth, ordinal, n), parent)
            == [OwnBack(c, secs[0], parent, depth, ordinal, n)]
                + Filter(RestBack(c, secs, parent, depth, ordinal, n), parent)
  {
    BacksSplit(c, secs, parent, depth, ordinal, n);
    KidsElsewhere(c, secs[0], parent, depth, n);
    FilterThree(OwnBack(c, secs[0], parent, depth, ordinal, n), KidsBack(c, secs[0], depth, n),
                RestBack(c, secs, parent, depth, ordinal, n), parent);
  }

  lemma KidsElsewhere(c: Context, s: Sec, parent: string, depth: nat, n: nat)
    requires Minting(c) && Outside(c, parent, n, SizeOf(s))
    ensures forall r | r in KidsBack(c, s, depth, n) :: r.parent != parent
  {
    ParentsWithin(c, s.kids, c.mint(n), depth + 1, 0, n + 1);
    forall r | r in KidsBack(c, s, depth, n)
      ensures r.parent != parent
    {
      assert HangsFrom(c, r, c.mint(n), n + 1, Size(s.kids));
    }
  }

  lemma FilterThree(own: Row, kids: seq<Row>, rest: seq<Row>, parent: string)
    requires own.parent == parent && forall r | r in kids :: r.parent != parent
    ensures Filter([own] + kids + rest, parent) == [own] + Filter(rest, parent)
  {
    FilterConcat([own] + kids, rest, parent);
    FilterConcat([own], kids, parent);
    FilterNone(kids, parent);
    assert [own][..0] == [] && Filter([own], parent) == [own];
    assert [own] + [] == [own];
  }

  lemma {:induction false} ObjectsAre(byID: Index, rows: seq<Row>)
    requires forall r | r in rows :: r.id in byID
    ensures |Objects(byID, rows)| == |rows| && forall i | 0 <= i < |rows| :: Objects(byID, rows)[i] == byID[rows[i].id]
    decreases |rows|
  {
    if rows != [] {
      assert rows[|rows| - 1] in rows;
      ObjectsAre(byID, rows[..|rows| - 1]);
    }
  }

  /** Rows listed and rows planned that hold the section list `secs` in the middle of the plan. */
  datatype Place = Place(pre: seq<Row>, post: seq<Row>, parent: string, depth: nat, ordinal: nat, n: nat)

  function BacksAt(c: Context, secs: seq<Sec>, at: Place): seq<Row> {
    Backs(c, secs, at.parent, at.depth, at.ordinal, at.n)
  }

  ghost predicate Placed(c: Context, planned: seq<Row>, secs: seq<Sec>, at: Place) {
    && planned == at.pre + BacksAt(c, secs, at) + at.post
    && Outside(c, at.parent, at.n, Size(secs))
    && NoneUnder(c, at.pre, at.n, Size(secs)) && NoneUnder(c, at.post, at.n, Size(secs))
  }

  function KidsPlace(c: Context, secs: seq<Sec>, at: Place): Place
    requires secs != []
  {
    Place(at.pre + [OwnBack(c, secs[0], at.parent, at.depth, at.ordinal, at.n)],
          RestBack(c, secs, at.parent, at.depth, at.ordinal, at.n) + at.post,
          c.mint(at.n), at.depth + 1, 0, at.n + 1)
  }

  function RestPlace(c: Context, secs: seq<Sec>, at: Place): Place
    requires secs != []
  {
    Place(at.pre + [OwnBack(c, secs[0], at.parent, at.depth, at.ordinal, at.n)] + KidsBack(c, secs[0], at.depth, at.n),
          at.post, at.parent, at.depth, at.ordinal + 1, at.n + SizeOf(secs[0]))
  }

  /** The plan taken apart around the first section. */
  lemma SplitsAtKids(c: Context, planned: seq<Row>, secs: seq<Sec>, at: Place)
    requires secs != [] && planned == at.pre + BacksAt(c, secs, at) + at.post
    ensures var k := KidsPlace(c, secs, at); planned == k.pre + BacksAt(c, secs[0].kids, k) + k.post
  {
    BacksSplit(c, secs, at.parent, at.depth, at.ordinal, at.n);
    KidsPlaceIs(c, secs, at);
    AroundKids(planned, BacksAt(c, secs, at), at.pre, OwnBack(c, secs[0], at.parent, at.depth, at.ordinal, at.n),
               KidsBack(c, secs[0], at.depth, at.n), RestBack(c, secs, at.parent, at.depth, at.ordinal, at.n), at.post);
  }

  lemma SplitsAtRest(c: Context, planned: seq<Row>, secs: seq<Sec>, at: Place)
    requires secs != [] && planned == at.pre + BacksAt(c, secs, at) + at.post
    ensures var r := RestPlace(c, secs, at); planned == r.pre + BacksAt(c, secs[1..], r) + r.post
  {
    BacksSplit(c, secs, at.parent, at.depth, at.ordinal, at.n);
    RestPlaceIs(c, secs, at);
    AroundRest(planned, BacksAt(c, secs, at), at.pre, OwnBack(c, secs[0], at.parent, at.depth, at.ordinal, at.n),
               KidsBack(c, secs[0], at.depth, at.n), RestBack(c, secs, at.parent, at.depth, at.ordinal, at.n), at.post);
  }

  lemma KidsPlaceIs(c: Context, secs: seq<Sec>, at: Place)
    requires secs != []
    ensures var k := KidsPlace(c, secs, at);
            && k.pre == at.pre + [OwnBack(c, secs[0], at.parent, at.depth, at.ordinal, at.n)]
            && BacksAt(c, secs[0].kids, k) == KidsBack(c, secs[0], at.depth, at.n)
            && k.post == RestBack(c, secs, at.parent, at.depth, at.ordinal, at.n) + at.post
  {
  }

  lemma RestPlaceIs(c: Context, secs: seq<Sec>, at: Place)
    requires secs != []
    ensures var r := RestPlace(c, secs, at);
            && r.pre == at.pre + [OwnBack(c, secs[0], at.parent, at.depth, at.ordinal, at.n)]
                 + KidsBack(c, secs[0], at.depth, at.n)
            && BacksAt(c, secs[1..], r) == RestBack(c, secs, at.parent, at.depth, at.ordinal, at.n)
            && r.post == at.post
  {
  }

  lemma AroundKids<T>(planned: seq<T>, all: seq<T>, pre: seq<T>, own: T, kids: seq<T>, rest: seq<T>, post: seq<T>)
    requires planned == pre + all + post && all == [own] + kids + rest
    ensures planned == (pre + [own]) + kids + (rest + post)
  {
  }

  lemma AroundRest<T>(planned: seq<T>, all: seq<T>, pre: seq<T>, own: T, kids: seq<T>, rest: seq<T>, post: seq<T>)
    requires planned == pre + all + post && all == [own] + kids + rest
    ensures planned == (pre + [own] + kids) + rest + post
  {
  }

  lemma Apart(c: Context, n: nat, m: nat, size: nat)
    requires Minting(c) && n < m
    ensures Outside(c, c.mint(n), m, size)
  {
  }

  lemma NoneUnderConcat(c: Context, a: seq<Row>, b: seq<Row>, n: nat, size: nat)
    requires NoneUnder(c, a, n, size) && NoneUnder(c, b, n, size)
    ensures NoneUnder(c, a + b, n, size)
  {
  }

  lemma NoneUnderThree(c: Context, a: seq<Row>, own: Row, b: seq<Row>, n: nat, size: nat)
    requires NoneUnder(c, a, n, size) && Outside(c, own.parent, n, size) && NoneUnder(c, b, n, size)
    ensures NoneUnder(c, a + [own] + b, n, size)
  {
    NoneUnderConcat(c, a, [own], n, size);
    NoneUnderConcat(c, a + [own], b, n, size);
  }

  lemma PlacedIf(c: Context, planned: seq<Row>, secs: seq<Sec>, at: Place)
    requires planned == at.pre + BacksAt(c, secs, at) + at.post && Outside(c, at.parent, at.n, Size(secs))
    requires NoneUnder(c, at.pre, at.n, Size(secs)) && NoneUnder(c, at.post, at.n, Size(secs))
    ensures Placed(c, planned, secs, at)
  {
  }

  /** Before and after a section's own children in the plan, nothing hangs from an id of theirs. */
  lemma KidsPlaced(c: Context, planned: seq<Row>, secs: seq<Sec>, at: Place)
    requires Minting(c) && secs != [] && Placed(c, planned, secs, at)
    ensures Placed(c, planned, secs[0].kids, KidsPlace(c, secs, at))
  {
    SplitsAtKids(c, planned, secs, at);
    BeforeKids(c, planned, secs, at);
    AfterKids(c, planned, secs, at);
    Apart(c, at.n, at.n + 1, Size(secs[0].kids));
    PlacedIf(c, planned, secs[0].kids, KidsPlace(c, secs, at));
  }

  lemma BeforeKids(c: Context, planned: seq<Row>, secs: seq<Sec>, at: Place)
    requires Minting(c) && secs != [] && Placed(c, planned, secs, at)
    ensures NoneUnder(c, KidsPlace(c, secs, at).pre, at.n + 1, Size(secs[0].kids))
  {
    OutsideParts(c, at.parent, secs, at.n);
    NoneUnderPart(c, at.pre, at.n, Size(secs), at.n + 1, Size(secs[0].kids));
    NoneUnderConcat(c, at.pre, [OwnBack(c, secs[0], at.parent, at.depth, at.ordinal, at.n)], at.n + 1,
                    Size(secs[0].kids));
  }

  lemma AfterKids(c: Context, planned: seq<Row>, secs: seq<Sec>, at: Place)
    requires Minting(c) && secs != [] && Placed(c, planned, secs, at)
    ensures NoneUnder(c, KidsPlace(c, secs, at).post, at.n + 1, Size(secs[0].kids))
  {
    var n, size := at.n + 1, Size(secs[0].kids);
    OutsideParts(c, at.parent, secs, at.n);
    NoneUnderPart(c, at.post, at.n, Size(secs), n, size);
    NoneUnderOthers(c, secs[1..], at.parent, at.depth, at.ordinal + 1, at.n + SizeOf(secs[0]), n, size);
    NoneUnderConcat(c, RestBack(c, secs, at.parent, at.depth, at.ordinal, at.n), at.post, n, size);
  }

  lemma RestPlaced(c: Context, planned: seq<Row>, secs: seq<Sec>, at: Place)
    requires Minting(c) && secs != [] && Placed(c, planned, secs, at)
    ensures Placed(c, planned, secs[1..], RestPlace(c, secs, at))
  {
    SplitsAtRest(c, planned, secs, at);
    OutsideParts(c, at.parent, secs, at.n);
    NoneUnderPart(c, at.post, at.n, Size(secs), at.n + SizeOf(secs[0]), Size(secs[1..]));
    BeforeRest(c, planned, secs, at);
    PlacedIf(c, planned, secs[1..], RestPlace(c, secs, at));
  }

  lemma BeforeRest(c: Context, planned: seq<Row>, secs: seq<Sec>, at: Place)
    requires Minting(c) && secs != [] && Placed(c, planned, secs, at)
    ensures NoneUnder(c, RestPlace(c, secs, at).pre, at.n + SizeOf(secs[0]), Size(secs[1..]))
  {
    var s, n, size := secs[0], at.n + SizeOf(secs[0]), Size(secs[1..]);
    OutsideParts(c, at.parent, secs, at.n);
    NoneUnderPart(c, at.pre, at.n, Size(secs), n, size);
    Apart(c, at.n, n, size);
    NoneUnderOthers(c, s.kids, c.mint(at.n), at.depth + 1, 0, at.n + 1, n, size);
    NoneUnderThree(c, at.pre, OwnBack(c, s, at.parent, at.depth, at.ordinal, at.n), KidsBack(c, s, at.depth, at.n),
                   n, size);
  }

  lemma NoneUnderPart(c: Context, rows: seq<Row>, n: nat, size: nat, m: nat, part: nat)
    requires NoneUnder(c, rows, n, size) && n <= m && m + part <= n + size
    ensures NoneUnder(c, rows, m, part)
  {
    forall r | r in rows
      ensures Outside(c, r.parent, m, part)
    {
      assert Outside(c, r.parent, n, size);
    }
  }

  /** The ids drawn for a section list: those of the first section's own subtree and then the others. */
  lemma OutsideParts(c: Context, id: string, secs: seq<Sec>, n: nat)
    requires secs != [] && Outside(c, id, n, Size(secs))
    ensures Outside(c, id, n, 1) && Outside(c, id, n + 1, Size(secs[0].kids))
            && Outside(c, id, n + SizeOf(secs[0]), Size(secs[1..]))
  {
    assert Size(secs) == 1 + Size(secs[0].kids) + Size(secs[1..]);
    assert forall k | n <= k < n + Size(secs) :: id != c.mint(k);
  }

  function TopsAt(c: Context, secs: seq<Sec>, at: Place): seq<Row> {
    Tops(c, secs, at.parent, at.depth, at.ordinal, at.n)
  }

  /** However the rows are listed, those under the parent of `secs` are the sections of `secs`, in
      order. */
  lemma KidsListed(c: Context, rows: seq<Row>, planned: seq<Row>, secs: seq<Sec>, at: Place)
    requires Minting(c) && Ordered(rows) && multiset(rows) == multiset(planned) && Placed(c, planned, secs, at)
    requires (forall r | r in at.pre :: r.parent != at.parent) && (forall r | r in at.post :: r.parent != at.parent)
    ensures Filter(rows, at.parent) == TopsAt(c, secs, at)
  {
    var mid := Backs(c, secs, at.parent, at.depth, at.ordinal, at.n);
    FilterConcat(at.pre + mid, at.post, at.parent);
    FilterConcat(at.pre, mid, at.parent);
    FilterNone(at.pre, at.parent);
    FilterNone(at.post, at.parent);
    FilterTops(c, secs, at.parent, at.depth, at.ordinal, at.n);
    var t := Tops(c, secs, at.parent, at.depth, at.ordinal, at.n);
    assert [] + t + [] == t;
    TopsAreSiblings(c, secs, at.parent, at.depth, at.ordinal, at.n);
    ListedSiblings(rows, planned, at.parent);
  }

  /** Nothing outside a section's own children hangs from it. */
  lemma OnlyItsOwn(c: Context, planned: seq<Row>, secs: seq<Sec>, at: Place)
    requires Minting(c) && secs != [] && Placed(c, planned, secs, at)
    ensures var k := KidsPlace(c, secs, at);
            (forall r | r in k.pre :: r.parent != k.parent) && (forall r | r in k.post :: r.parent != k.parent)
  {
    var k := KidsPlace(c, secs, at);
    NoneUnderPart(c, at.pre, at.n, Size(secs), at.n, 1);
    NoneUnderPart(c, at.post, at.n, Size(secs), at.n, 1);
    NoneUnderOthers(c, secs[1..], at.parent, at.depth, at.ordinal + 1, at.n + SizeOf(secs[0]), at.n, 1);
    assert Outside(c, at.parent, at.n, 1);
  }

  /** The sections of `secs` are in memory under their ids, each with all it holds. */
  ghost predicate AllRestored(c: Context, byID: Index, secs: seq<Sec>, at: Place)
    reads byID.Values
  {
    var t := TopsAt(c, secs, at);
    |t| == |secs| && forall i | 0 <= i < |secs| :: RestoredAt(c, byID, t[i].id, secs[i], at.parent, at.ordinal + i)
  }

  ghost predicate RestoredAt(c: Context, byID: Index, id: string, s: Sec, parent: string, ordinal: nat)
    reads byID.Values
  {
    id in byID && Restores(c, byID[id], s, parent, ordinal, byID.Values)
  }

  lemma {:induction false} SectionsRestored(c: Context, rows: seq<Row>, planned: seq<Row>, secs: seq<Sec>, at: Place,
                                            byID: Index, top: seq<Section>)
    requires Minting(c) && Ordered(rows) && multiset(rows) == multiset(planned) && Placed(c, planned, secs, at)
    requires Indexes(byID, rows) && Linked(byID, rows, top)
    ensures AllRestored(c, byID, secs, at)
    decreases secs
  {
    if secs != [] {
      var kids, rest := KidsPlace(c, secs, at), RestPlace(c, secs, at);
      KidsPlaced(c, planned, secs, at);
      SectionsRestored(c, rows, planned, secs[0].kids, kids, byID, top);
      OnlyItsOwn(c, planned, secs, at);
      KidsListed(c, rows, planned, secs[0].kids, kids);
      OwnRowListed(c, rows, planned, secs, at);
      OwnRestored(c, secs, rows, at, byID, top);
      RestPlaced(c, planned, secs, at);
      SectionsRestored(c, rows, planned, secs[1..], rest, byID, top);
      RestoredCons(c, byID, secs, at);
    }
  }

  lemma OwnRowListed(c: Context, rows: seq<Row>, planned: seq<Row>, secs: seq<Sec>, at: Place)
    requires secs != [] && multiset(rows) == multiset(planned) && Placed(c, planned, secs, at)
    ensures OwnBack(c, secs[0], at.parent, at.depth, at.ordinal, at.n) in rows
  {
    var own := OwnBack(c, secs[0], at.parent, at.depth, at.ordinal, at.n);
    BacksSplit(c, secs, at.parent, at.depth, at.ordinal, at.n);
    assert planned[|at.pre|] == own;
    assert own in multiset(planned);
  }

  lemma AllListed(c: Context, byID: Index, secs: seq<Sec>, at: Place)
    requires AllRestored(c, byID, secs, at)
    ensures var t := TopsAt(c, secs, at);
            && |Objects(byID, t)| == |t| == |secs|
            && forall i | 0 <= i < |t| :: t[i].id in byID && Objects(byID, t)[i] == byID[t[i].id]
  {
    var t := TopsAt(c, secs, at);
    forall i | 0 <= i < |t|
      ensures t[i].id in byID
    {
      assert RestoredAt(c, byID, t[i].id, secs[i], at.parent, at.ordinal + i);
    }
    ObjectsAre(byID, t);
  }

  /** A section is restored once its children are: they are what memory has under it. */
  lemma OwnRestored(c: Context, secs: seq<Sec>, rows: seq<Row>, at: Place, byID: Index, top: seq<Section>)
    requires secs != [] && Indexes(byID, rows) && Linked(byID, rows, top)
    requires OwnBack(c, secs[0], at.parent, at.depth, at.ordinal, at.n) in rows
    requires var kids := KidsPlace(c, secs, at);
             Filter(rows, kids.parent) == TopsAt(c, secs[0].kids, kids) && AllRestored(c, byID, secs[0].kids, kids)
    ensures RestoredAt(c, byID, c.mint(at.n), secs[0], at.parent, at.ordinal)
  {
    var s, kids := secs[0], KidsPlace(c, secs, at);
    var t := TopsAt(c, s.kids, kids);
    AllListed(c, byID, s.kids, kids);
    var me := byID[c.mint(at.n)];
    assert me.children == Objects(byID, t);
    forall i | 0 <= i < |s.kids|
      ensures Restores(c, me.children[i], s.kids[i], me.id, i, byID.Values)
    {
      assert RestoredAt(c, byID, t[i].id, s.kids[i], kids.parent, kids.ordinal + i);
    }
  }

  lemma RestoredCons(c: Context, byID: Index, secs: seq<Sec>, at: Place)
    requires secs != [] && RestoredAt(c, byID, c.mint(at.n), secs[0], at.parent, at.ordinal)
    requires AllRestored(c, byID, secs[1..], RestPlace(c, secs, at))
    ensures AllRestored(c, byID, secs, at)
  {
    TopsUnfold(c, secs, at);
    var t, t', rest := TopsAt(c, secs, at), TopsAt(c, secs[1..], RestPlace(c, secs, at)), RestPlace(c, secs, at);
    forall i | 0 <= i < |secs|
      ensures RestoredAt(c, byID, t[i].id, secs[i], at.parent, at.ordinal + i)
    {
      if i > 0 {
        assert t[i] == t'[i - 1] && secs[i] == secs[1..][i - 1];
        assert RestoredAt(c, byID, t'[i - 1].id, secs[1..][i - 1], rest.parent, rest.ordinal + (i - 1));
      }
    }
  }

  lemma TopsUnfold(c: Context, secs: seq<Sec>, at: Place)
    requires secs != []
    ensures TopsAt(c, secs, at)
            == [OwnBack(c, secs[0], at.parent, at.depth, at.ordinal, at.n)]
                + TopsAt(c, secs[1..], RestPlace(c, secs, at))
  {
  }

  /** What listing gives after a document's sections were written. */
  ghost predicate ListedAfterWrite(c: Context, secs: seq<Sec>, table: seq<DbRow>, rows: seq<Row>) {
    && Minting(c) && (forall d | d in table :: d.doc != c.doc)
    && Listing(table + ToDbAll(Rows(PlanOf(c, secs))), c.doc, rows)
  }

  lemma {:induction false} PlanDoc(c: Context, secs: seq<Sec>, parent: string, depth: nat, ordinal: nat, n: nat)
    ensures forall p | p in Plan(c, secs, parent, depth, ordinal, n) :: p.row.doc == c.doc
    decreases secs
  {
    if secs != [] {
      PlanDoc(c, secs[0].kids, c.mint(n), depth + 1, 0, n + 1);
      PlanDoc(c, secs[1..], parent, depth, ordinal + 1, n + SizeOf(secs[0]));
    }
  }

  lemma ListedIsPlanned(c: Context, secs: seq<Sec>, table: seq<DbRow>, rows: seq<Row>)
    requires ListedAfterWrite(c, secs, table, rows)
    ensures Ordered(rows) && multiset(rows) == multiset(Backs(c, secs, "", 0, 0, 0))
  {
    PlanDoc(c, secs, "", 0, 0, 0);
    var p := PlanOf(c, secs);
    forall r | r in Rows(p)
      ensures r.doc == c.doc
    {
      var i :| 0 <= i < |p| && Rows(p)[i] == r;
      assert p[i] in p;
    }
    ScanOfWritten(table, Rows(p), c.doc);
  }

  /** The listed rows have distinct ids, as the table's key asks. */
  lemma ListedAreKeyed(c: Context, secs: seq<Sec>, table: seq<DbRow>, rows: seq<Row>)
    requires ListedAfterWrite(c, secs, table, rows)
    ensures Keyed(rows)
  {
    ListedIsPlanned(c, secs, table, rows);
    PlanNumbered(c, secs, "", 0, 0, 0);
    var b := Backs(c, secs, "", 0, 0, 0);
    assert forall k | 0 <= k < |b| :: b[k].id == c.mint(0 + k);
    DistinctIds(b, rows);
  }

  /** Listed by depth, every section but a top-level one comes after its parent, one level up. */
  lemma ParentsListedFirst(c: Context, secs: seq<Sec>, table: seq<DbRow>, rows: seq<Row>, j: nat) returns (i: nat)
    requires ListedAfterWrite(c, secs, table, rows) && j < |rows| && rows[j].parent != ""
    ensures i < j && rows[i].id == rows[j].parent && rows[j].depth == rows[i].depth + 1
  {
    ListedIsPlanned(c, secs, table, rows);
    var b := Backs(c, secs, "", 0, 0, 0);
    var k := MemberAt(b, multiset(rows), rows[j]);
    ParentsComeFirst(c, secs, k);
    var p := PlanOf(c, secs);
    var m :| 0 <= m < k && Under(p[m].row, p[k].row);
    assert b[m] in multiset(b);
    i := MemberAt(rows, multiset(b), b[m]);
    assert j <= i ==> j == i || NotAfter(rows[j], rows[i]);
  }

  lemma DistinctIds(b: seq<Row>, rows: seq<Row>)
    requires multiset(rows) == multiset(b) && Keyed(b)
    ensures Keyed(rows)
  {
    forall r | r in rows
      ensures r.id != ""
    {
      assert r in multiset(b);
    }
    forall i, j | 0 <= i < j < |rows|
      ensures rows[i].id != rows[j].id
    {
      if rows[i].id == rows[j].id {
        assert rows[i] in multiset(b) && rows[j] in multiset(b);
        assert rows[i] == rows[j];
        TwiceListed(rows, i, j);
        OnceKeyed(b, rows[i]);
      }
    }
  }

  lemma TwiceListed(rows: seq<Row>, i: nat, j: nat)
    requires i < j < |rows| && rows[i] == rows[j]
    ensures multiset(rows)[rows[i]] >= 2
  {
    assert rows == rows[..j] + [rows[j]] + rows[j + 1..];
    assert rows[..j][i] == rows[j];
    assert rows[j] in multiset(rows[..j]);
  }

  lemma {:induction false} OnceKeyed(b: seq<Row>, r: Row)
    requires Keyed(b)
    ensures multiset(b)[r] <= 1
    decreases |b|
  {
    if b != [] {
      var front, last := b[..|b| - 1], b[|b| - 1];
      assert b == front + [last];
      OnceKeyed(front, r);
      assert last !in front;
      assert last !in multiset(front);
    }
  }

  /** Persist, then load: whatever order ties are listed in, the loaded tree's top-level sections are the
      parsed ones, each in its place with all it holds, for zero, one or many of them. */
  method LoadPersisted(ghost c: Context, ghost secs: seq<Sec>, ghost table: seq<DbRow>, title: string, rows: seq<Row>)
    returns (root: Section?, ghost objs: set<Section>)
    requires ListedAfterWrite(c, secs, table, rows)
    ensures |TopSections(root)| == |secs|
    ensures forall i | 0 <= i < |secs| :: Restores(c, TopSections(root)[i], secs[i], "", i, objs)
    ensures root == null <==> secs == []
    ensures |secs| > 1 ==> root.title == title
  {
    ListedAreKeyed(c, secs, table, rows);
    ghost var byID: Index, top: seq<Section>;
    root, byID, top := BuildTree(title, rows);
    objs := byID.Values;
    TopRestored(c, secs, table, rows, byID, top);
  }

  lemma TopRestored(c: Context, secs: seq<Sec>, table: seq<DbRow>, rows: seq<Row>, byID: Index, top: seq<Section>)
    requires ListedAfterWrite(c, secs, table, rows) && Indexes(byID, rows) && Linked(byID, rows, top)
    ensures |top| == |secs| && forall i | 0 <= i < |secs| ::
              Restores(c, top[i], secs[i], "", i, byID.Values) && top[i].id != ""
  {
    ListedIsPlanned(c, secs, table, rows);
    ListedAreKeyed(c, secs, table, rows);
    WholeIsPlaced(c, secs);
    SectionsRestored(c, rows, Backs(c, secs, "", 0, 0, 0), secs, Whole(), byID, top);
    KidsListed(c, rows, Backs(c, secs, "", 0, 0, 0), secs, Whole());
    TopsInMemory(c, byID, secs, rows, top);
  }

  /** Where the top-level sections stand in the plan: they are all of it. */
  function Whole(): Place { Place([], [], "", 0, 0, 0) }

  lemma WholeIsPlaced(c: Context, secs: seq<Sec>)
    requires Minting(c)
    ensures Placed(c, Backs(c, secs, "", 0, 0, 0), secs, Whole())
  {
    var b := Backs(c, secs, "", 0, 0, 0);
    assert [] + b + [] == b;
  }

  lemma TopsInMemory(c: Context, byID: Index, secs: seq<Sec>, rows: seq<Row>, top: seq<Section>)
    requires Keyed(rows) && Indexes(byID, rows) && AllRestored(c, byID, secs, Whole())
    requires top == Objects(byID, TopsAt(c, secs, Whole()))
    ensures |top| == |secs|
    ensures forall i | 0 <= i < |secs| :: Restores(c, top[i], secs[i], "", i, byID.Values) && top[i].id != ""
  {
    var t := TopsAt(c, secs, Whole());
    AllListed(c, byID, secs, Whole());
    forall i | 0 <= i < |secs|
      ensures Restores(c, top[i], secs[i], "", i, byID.Values) && top[i].id != ""
    {
      assert RestoredAt(c, byID, t[i].id, secs[i], "", 0 + i);
    }
  }
}
