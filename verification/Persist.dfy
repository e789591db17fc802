/** Writing a parsed document's section tree as rows (persistTree). */
module Persist {
  import opened Text

  /** A section as parsed. */
  datatype Sec = Sec(title: string, content: string, start: int, end: int, kids: seq<Sec>)

  /** A row of the sections table; an empty parent is none, a zero page unknown. */
  datatype Row = Row(id: string, doc: string, parent: string, ordinal: nat, depth: nat, title: string, ref: string,
                     tokens: nat, start: int, end: int)

  datatype Planned = Planned(row: Row, content: string)

  /** What the walk is given: the document, how text is cleaned and measured, and the ids drawn. */
  datatype Context = Context(doc: string, clean: string -> string, tokens: string -> nat, mint: nat -> string)

  /** Ids are drawn once each, and none is empty. */
  ghost predicate Minting(c: Context) {
    (forall i, j | i != j :: c.mint(i) != c.mint(j)) && (forall i :: c.mint(i) != "")
  }

  /** Only text that is more than blank is stored. */
  function RefFor(c: Context, id: string, content: string): string {
    if TrimSpace(content) == "" then "" else "documents/" + c.doc + "/sections/" + id + ".txt"
  }

  function RowFor(c: Context, s: Sec, id: string, parent: string, ordinal: nat, depth: nat): Row {
    var content := c.clean(s.content);
    Row(id, c.doc, parent, ordinal, depth, c.clean(s.title), RefFor(c, id, content), c.tokens(content), s.start, s.end)
  }

  function SizeOf(s: Sec): nat
    decreases s, 1
  {
    1 + Size(s.kids)
  }

  function Size(secs: seq<Sec>): nat
    decreases secs, 0
  {
    if secs == [] then 0 else SizeOf(secs[0]) + Size(secs[1..])
  }

  function PlannedFor(c: Context, s: Sec, id: string, parent: string, ordinal: nat, depth: nat): Planned {
    Planned(RowFor(c, s, id, parent, ordinal, depth), c.clean(s.content))
  }

  /** The plan of a section and all it holds, from the id number it begins with. */
  function PlanOne(c: Context, s: Sec, parent: string, depth: nat, ordinal: nat, n: nat): (p: seq<Planned>)
    ensures |p| == SizeOf(s)
    decreases s, 1
  {
    [PlannedFor(c, s, c.mint(n), parent, ordinal, depth)] + Plan(c, s.kids, c.mint(n), depth + 1, 0, n + 1)
  }

  /** The plan of some siblings, from the ordinal and the id number they begin with. */
  function Plan(c: Context, secs: seq<Sec>, parent: string, depth: nat, ordinal: nat, n: nat): (p: seq<Planned>)
    ensures |p| == Size(secs)
    decreases secs, 0
  {
    if secs == [] then []
    else
      PlanOne(c, secs[0], parent, depth, ordinal, n)
      + Plan(c, secs[1..], parent, depth, ordinal + 1, n + SizeOf(secs[0]))
  }

  class Planner {
    const c: Context
    var plan: seq<Planned>
    var minted: nat

    constructor (c: Context)
      ensures this.c == c && plan == [] && minted == 0
    {
      this.c := c;
      plan, minted := [], 0;
    }

    method Walk(secs: seq<Sec>, parent: string, depth: nat)
      modifies this
      ensures plan == old(plan) + Plan(c, secs, parent, depth, 0, old(minted))
      ensures minted == old(minted) + Size(secs)
      decreases secs, 0
    {
      ghost var rest := Plan(c, secs, parent, depth, 0, minted);
      ghost var goal, last, n := plan + rest, minted + |rest|, minted;
      assert secs[0..] == secs;
      for i := 0 to |secs|
        invariant n == minted && rest == Plan(c, secs[i..], parent, depth, i, n)
        invariant goal == plan + rest && last == minted + |rest|
      {
        rest, n := PlanTurn(c, secs, i, parent, depth, n, plan);
        PlanSection(secs[i], parent, depth, i);
      }
      assert secs[|secs|..] == [];
    }

    /** One turn of the walk. */
    method PlanSection(s: Sec, parent: string, depth: nat, i: nat)
      modifies this
      ensures plan == old(plan) + PlanOne(c, s, parent, depth, i, old(minted))
      ensures minted == old(minted) + SizeOf(s)
      decreases s, 1
    {
      var id := c.mint(minted);
      minted := minted + 1;
      var cleaned := c.clean(s.content);
      plan := plan + [Planned(RowFor(c, s, id, parent, i, depth), cleaned)];
      Walk(s.kids, id, depth + 1);
    }
  }

  /** The plan of the siblings from i on is that of sibling i and then that of the ones after it. */
  lemma PlanTurn(c: Context, secs: seq<Sec>, i: nat, parent: string, depth: nat, n: nat, before: seq<Planned>)
    returns (rest: seq<Planned>, next: nat)
    requires i < |secs|
    ensures next == n + SizeOf(secs[i]) && rest == Plan(c, secs[i + 1..], parent, depth, i + 1, next)
    ensures before + Plan(c, secs[i..], parent, depth, i, n) == before + PlanOne(c, secs[i], parent, depth, i, n) + rest
    ensures |Plan(c, secs[i..], parent, depth, i, n)| == SizeOf(secs[i]) + |rest|
  {
    assert secs[i..][0] == secs[i] && secs[i..][1..] == secs[i + 1..];
    next := n + SizeOf(secs[i]);
    rest := Plan(c, secs[i + 1..], parent, depth, i + 1, next);
  }

  function Rows(p: seq<Planned>): (r: seq<Row>)
    ensures |r| == |p| && forall i | 0 <= i < |r| :: r[i] == p[i].row
  {
    seq(|p|, i requires 0 <= i < |p| => p[i].row)
  }

  /** The rows of a document's whole tree. */
  function PlanOf(c: Context, secs: seq<Sec>): seq<Planned> { Plan(c, secs, "", 0, 0, 0) }

  // ---------------------------------------------------------------- what the rows say

  /** Sections and all they hold, in reading order. */
  function Preorder(secs: seq<Sec>): (r: seq<Sec>)
    ensures |r| == Size(secs)
    decreases secs
  {
    if secs == [] then [] else [secs[0]] + Preorder(secs[0].kids) + Preorder(secs[1..])
  }

  /** A planned row and its text are a section's: cleaned title and text, the size of that, pages as parsed, and
      a reference to stored text if it is more than white space. */
  predicate Says(c: Context, p: Planned, s: Sec) {
    && p.row.doc == c.doc && p.row.title == c.clean(s.title) && p.content == c.clean(s.content)
    && p.row.tokens == c.tokens(c.clean(s.content)) && p.row.start == s.start && p.row.end == s.end
    && p.row.ref == if TrimSpace(c.clean(s.content)) == "" then ""
                    else "documents/" + c.doc + "/sections/" + p.row.id + ".txt"
  }

  ghost predicate AllSay(c: Context, p: seq<Planned>, secs: seq<Sec>) {
    |p| == |secs| && forall j | 0 <= j < |p| :: Says(c, p[j], secs[j])
  }

  lemma {:induction false} PlanSays(c: Context, secs: seq<Sec>, parent: string, depth: nat, ordinal: nat, n: nat)
    ensures AllSay(c, Plan(c, secs, parent, depth, ordinal, n), Preorder(secs))
    decreases secs, 1
  {
    if secs != [] {
      FirstSays(c, secs, parent, depth, ordinal, n, ordinal + 1, n + SizeOf(secs[0]));
    }
  }

  lemma {:induction false} FirstSays(c: Context, secs: seq<Sec>, parent: string, depth: nat, ordinal: nat, n: nat,
                                     next: nat, m: nat)
    requires secs != [] && next == ordinal + 1 && m == n + SizeOf(secs[0])
    ensures AllSay(c, Plan(c, secs, parent, depth, ordinal, n), Preorder(secs))
    decreases secs, 0
  {
    OneSays(c, secs[0], parent, depth, ordinal, n);
    PlanSays(c, secs[1..], parent, depth, next, m);
    PlanCons(c, secs, parent, depth, ordinal, n, next, m);
    SaysJoin(c, PlanOne(c, secs[0], parent, depth, ordinal, n), [secs[0]] + Preorder(secs[0].kids),
             Plan(c, secs[1..], parent, depth, next, m), Preorder(secs[1..]));
  }

  lemma PlanCons(c: Context, secs: seq<Sec>, parent: string, depth: nat, ordinal: nat, n: nat, next: nat, m: nat)
    requires secs != [] && next == ordinal + 1 && m == n + SizeOf(secs[0])
    ensures Plan(c, secs, parent, depth, ordinal, n)
            == PlanOne(c, secs[0], parent, depth, ordinal, n) + Plan(c, secs[1..], parent, depth, next, m)
    ensures Preorder(secs) == [secs[0]] + Preorder(secs[0].kids) + Preorder(secs[1..])
  {
  }

  lemma {:induction false} OneSays(c: Context, s: Sec, parent: string, depth: nat, ordinal: nat, n: nat)
    ensures AllSay(c, PlanOne(c, s, parent, depth, ordinal, n), [s] + Preorder(s.kids))
    decreases s
  {
    PlanSays(c, s.kids, c.mint(n), depth + 1, 0, n + 1);
    RowSays(c, s, c.mint(n), parent, ordinal, depth);
    SaysJoin(c, [PlannedFor(c, s, c.mint(n), parent, ordinal, depth)], [s],
             Plan(c, s.kids, c.mint(n), depth + 1, 0, n + 1), Preorder(s.kids));
  }

  lemma RowSays(c: Context, s: Sec, id: string, parent: string, ordinal: nat, depth: nat)
    ensures AllSay(c, [PlannedFor(c, s, id, parent, ordinal, depth)], [s])
  {
    assert Says(c, PlannedFor(c, s, id, parent, ordinal, depth), s);
  }

  lemma SaysJoin(c: Context, p: seq<Planned>, a: seq<Sec>, q: seq<Planned>, b: seq<Sec>)
    requires AllSay(c, p, a) && AllSay(c, q, b)
    ensures AllSay(c, p + q, a + b)
  {
    forall j | 0 <= j < |p + q|
      ensures Says(c, (p + q)[j], (a + b)[j])
    {
      if j >= |p| {
        assert (p + q)[j] == q[j - |p|] && (a + b)[j] == b[j - |p|];
      }
    }
  }

  /** Every section has one row, in reading order, that says what it is, under the id drawn for it. */
  lemma RowsAreSections(c: Context, secs: seq<Sec>, j: nat)
    requires j < |PlanOf(c, secs)|
    ensures |PlanOf(c, secs)| == |Preorder(secs)| && Says(c, PlanOf(c, secs)[j], Preorder(secs)[j])
    ensures PlanOf(c, secs)[j].row.id == c.mint(j)
  {
    PlanSays(c, secs, "", 0, 0, 0);
    PlanNumbered(c, secs, "", 0, 0, 0);
    assert PlanOf(c, secs)[j].row.id == c.mint(0 + j);
  }

  // ---------------------------------------------------------------- the order rows are written in

  /** Row number j has the j-th id drawn. */
  ghost predicate Numbered(c: Context, p: seq<Planned>, n: nat) {
    forall j | 0 <= j < |p| :: p[j].row.id == c.mint(n + j)
  }

  lemma NumberedJoin(c: Context, a: seq<Planned>, b: seq<Planned>, n: nat)
    requires Numbered(c, a, n) && Numbered(c, b, n + |a|)
    ensures Numbered(c, a + b, n)
  {
    forall j | 0 <= j < |a + b|
      ensures (a + b)[j].row.id == c.mint(n + j)
    {
      if j >= |a| {
        assert (a + b)[j] == b[j - |a|] && n + j == n + |a| + (j - |a|);
      }
    }
  }

  lemma {:induction false} PlanNumbered(c: Context, secs: seq<Sec>, parent: string, depth: nat, ordinal: nat, n: nat)
    ensures Numbered(c, Plan(c, secs, parent, depth, ordinal, n), n)
    decreases secs
  {
    if secs != [] {
      var s := secs[0];
      PlanNumbered(c, s.kids, c.mint(n), depth + 1, 0, n + 1);
      NumberedJoin(c, [PlannedFor(c, s, c.mint(n), parent, ordinal, depth)],
                   Plan(c, s.kids, c.mint(n), depth + 1, 0, n + 1), n);
      PlanNumbered(c, secs[1..], parent, depth, ordinal + 1, n + SizeOf(s));
      NumberedJoin(c, PlanOne(c, s, parent, depth, ordinal, n),
                   Plan(c, secs[1..], parent, depth, ordinal + 1, n + SizeOf(s)), n);
    }
  }

  /** Row j hangs from the parent given, at the depth given, or from a row before it, one deeper. */
  ghost predicate Hangs(p: seq<Planned>, j: nat, parent: string, depth: nat)
    requires j < |p|
  {
    (p[j].row.parent == parent && p[j].row.depth == depth) || exists i :: 0 <= i < j && Under(p[i].row, p[j].row)
  }

  predicate Under(parent: Row, child: Row) { child.parent == parent.id && child.depth == parent.depth + 1 }

  ghost predicate AllHang(p: seq<Planned>, parent: string, depth: nat) {
    forall j | 0 <= j < |p| :: Hangs(p, j, parent, depth)
  }

  lemma HangJoin(a: seq<Planned>, b: seq<Planned>, parent: string, depth: nat)
    requires AllHang(a, parent, depth) && AllHang(b, parent, depth)
    ensures AllHang(a + b, parent, depth)
  {
    forall j | 0 <= j < |a + b|
      ensures Hangs(a + b, j, parent, depth)
    {
      if j < |a| {
        assert Hangs(a, j, parent, depth);
        if i :| 0 <= i < j && Under(a[i].row, a[j].row) {
          assert Under((a + b)[i].row, (a + b)[j].row);
        }
      } else {
        assert Hangs(b, j - |a|, parent, depth);
        if i :| 0 <= i < j - |a| && Under(b[i].row, b[j - |a|].row) {
          assert Under((a + b)[|a| + i].row, (a + b)[j].row);
        }
      }
    }
  }

  lemma HangBelow(own: Planned, kids: seq<Planned>)
    requires AllHang(kids, own.row.id, own.row.depth + 1)
    ensures AllHang([own] + kids, own.row.parent, own.row.depth)
  {
    var p := [own] + kids;
    forall j | 0 <= j < |p|
      ensures Hangs(p, j, own.row.parent, own.row.depth)
    {
      if j > 0 {
        assert p[j] == kids[j - 1] && Hangs(kids, j - 1, own.row.id, own.row.depth + 1);
        if i :| 0 <= i < j - 1 && Under(kids[i].row, kids[j - 1].row) {
          assert Under(p[i + 1].row, p[j].row);
        } else {
          assert Under(p[0].row, p[j].row);
        }
      }
    }
  }

  lemma {:induction false} PlanHangs(c: Context, secs: seq<Sec>, parent: string, depth: nat, ordinal: nat, n: nat)
    ensures AllHang(Plan(c, secs, parent, depth, ordinal, n), parent, depth)
    decreases secs
  {
    if secs != [] {
      var s := secs[0];
      PlanHangs(c, s.kids, c.mint(n), depth + 1, 0, n + 1);
      HangBelow(PlannedFor(c, s, c.mint(n), parent, ordinal, depth), Plan(c, s.kids, c.mint(n), depth + 1, 0, n + 1));
      PlanHangs(c, secs[1..], parent, depth, ordinal + 1, n + SizeOf(s));
      HangJoin(PlanOne(c, s, parent, depth, ordinal, n),
               Plan(c, secs[1..], parent, depth, ordinal + 1, n + SizeOf(s)), parent, depth);
    }
  }

  /** Every row but a top-level one comes after its parent's, as the foreign key asks, and is one
      deeper. */
  lemma ParentsComeFirst(c: Context, secs: seq<Sec>, j: nat)
    requires j < |PlanOf(c, secs)| && PlanOf(c, secs)[j].row.parent != ""
    ensures var p := PlanOf(c, secs);
            exists i :: 0 <= i < j && Under(p[i].row, p[j].row)
  {
    PlanHangs(c, secs, "", 0, 0, 0);
    assert Hangs(PlanOf(c, secs), j, "", 0);
  }
}
