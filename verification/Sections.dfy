/** The sections table: writing rows and listing them again (pkg/db/sections.go). */
module Sections {
  import opened Wrappers
  import opened Persist

  // ---------------------------------------------------------------- columns

  /** A stored row: NULL for no parent and for an unknown page. */
  datatype DbRow = DbRow(id: string, doc: string, parent: Option<string>, ordinal: nat, depth: nat, title: string,
                         ref: string,
                         tokens: nat, start: Option<int>, end: Option<int>)

  function NullIfZero(n: int): Option<int> { if n <= 0 then None else Some(n) }

  function OrZero(n: Option<int>): int { if n.None? then 0 else n.value }

  function ToDb(r: Row): DbRow {
    DbRow(r.id, r.doc, if r.parent == "" then None else Some(r.parent), r.ordinal, r.depth, r.title, r.ref, r.tokens,
          NullIfZero(r.start), NullIfZero(r.end))
  }

  function FromDb(d: DbRow): Row {
    Row(d.id, d.doc, if d.parent.None? then "" else d.parent.value, d.ordinal, d.depth, d.title, d.ref, d.tokens,
        OrZero(d.start), OrZero(d.end))
  }

  /** A page as it comes back: zero unless it was a page. */
  function Page(n: int): int { if n <= 0 then 0 else n }

  function Back(r: Row): Row { r.(start := Page(r.start), end := Page(r.end)) }

  lemma ColumnsComeBack(r: Row)
    ensures FromDb(ToDb(r))
            == r.(start := if r.start <= 0 then 0 else r.start, end := if r.end <= 0 then 0 else r.end)
  {
  }

  // ---------------------------------------------------------------- writing

  predicate HasId(table: seq<DbRow>, id: string) { exists k :: 0 <= k < |table| && table[k].id == id }

  /** One upsert: refused when the parent's row is not there, unless that is the row itself; in place when the id's
      row is there, and that row then keeps its document. */
  ghost function Upserted(table: seq<DbRow>, d: DbRow): Option<seq<DbRow>> {
    if d.parent.Some? && d.parent.value != d.id && !HasId(table, d.parent.value) then None
    else if HasId(table, d.id) then
      var k :| 0 <= k < |table| && table[k].id == d.id;
      Some(table[k := d.(doc := table[k].doc)])
    else Some(table + [d])
  }

  /** A batch in one transaction: all rows in order, or none. */
  ghost function UpsertedAll(table: seq<DbRow>, rows: seq<Row>): Option<seq<DbRow>> {
    if rows == [] then Some(table)
    else
      match UpsertedAll(table, rows[..|rows| - 1])
      case None => None
      case Some(t) => Upserted(t, ToDb(rows[|rows| - 1]))
  }

  function ToDbAll(rows: seq<Row>): (d: seq<DbRow>)
    ensures |d| == |rows| && forall i | 0 <= i < |d| :: d[i] == ToDb(rows[i])
  {
    seq(|rows|, i requires 0 <= i < |rows| => ToDb(rows[i]))
  }

  /** A plan's first rows go in one after the other: each parent is already there, and no id is. */
  lemma {:induction false} PlanGoesIn(c: Context, secs: seq<Sec>, table: seq<DbRow>, n: nat)
    requires Minting(c) && n <= |PlanOf(c, secs)|
    requires forall k, j: nat | 0 <= k < |table| :: table[k].id != c.mint(j)
    ensures var rows := Rows(PlanOf(c, secs))[..n];
            UpsertedAll(table, rows) == Some(table + ToDbAll(rows))
    decreases n
  {
    var all := Rows(PlanOf(c, secs));
    var rows := all[..n];
    if n == 0 {
      assert table + ToDbAll(rows) == table;
    } else {
      var before := all[..n - 1];
      assert rows[..n - 1] == before;
      PlanGoesIn(c, secs, table, n - 1);
      IdIsNew(c, secs, table, n);
      ParentIsThere(c, secs, table, n);
      assert rows == before + [all[n - 1]];
      GoesInNext(table, before, all[n - 1]);
    }
  }

  lemma GoesInNext(table: seq<DbRow>, rows: seq<Row>, r: Row)
    requires var t, d := table + ToDbAll(rows), ToDb(r);
             && UpsertedAll(table, rows) == Some(t) && !HasId(t, d.id)
             && (d.parent.Some? ==> HasId(t, d.parent.value))
    ensures UpsertedAll(table, rows + [r]) == Some(table + ToDbAll(rows + [r]))
  {
    assert (rows + [r])[..|rows|] == rows;
    ToDbSnoc(table, rows, r);
  }

  lemma ToDbSnoc(table: seq<DbRow>, rows: seq<Row>, r: Row)
    ensures table + ToDbAll(rows + [r]) == table + ToDbAll(rows) + [ToDb(r)]
  {
  }

  lemma IdIsNew(c: Context, secs: seq<Sec>, table: seq<DbRow>, n: nat)
    requires Minting(c) && 0 < n <= |PlanOf(c, secs)|
    requires forall k, j: nat | 0 <= k < |table| :: table[k].id != c.mint(j)
    ensures var all := Rows(PlanOf(c, secs)); !HasId(table + ToDbAll(all[..n - 1]), ToDb(all[n - 1]).id)
  {
    PlanNumbered(c, secs, "", 0, 0, 0);
    var p, all := PlanOf(c, secs), Rows(PlanOf(c, secs));
    var t := table + ToDbAll(all[..n - 1]);
    assert p[n - 1].row.id == c.mint(0 + (n - 1));
    forall k | 0 <= k < |t|
      ensures t[k].id != all[n - 1].id
    {
      if k >= |table| {
        assert t[k] == ToDb(all[k - |table|]) && p[k - |table|].row.id == c.mint(0 + (k - |table|));
      }
    }
  }

  lemma ParentIsThere(c: Context, secs: seq<Sec>, table: seq<DbRow>, n: nat)
    requires Minting(c) && 0 < n <= |PlanOf(c, secs)|
    ensures var all := Rows(PlanOf(c, secs));
            var d := ToDb(all[n - 1]);
            d.parent.Some? ==> HasId(table + ToDbAll(all[..n - 1]), d.parent.value)
  {
    var p, all := PlanOf(c, secs), Rows(PlanOf(c, secs));
    if ToDb(all[n - 1]).parent.Some? {
      ParentsComeFirst(c, secs, n - 1);
      var i :| 0 <= i < n - 1 && Under(p[i].row, p[n - 1].row);
      assert (table + ToDbAll(all[..n - 1]))[|table| + i] == ToDb(all[i]);
    }
  }

  /** So the whole plan is written, into a table that holds none of the ids drawn. */
  lemma PlanIsWritten(c: Context, secs: seq<Sec>, table: seq<DbRow>)
    requires Minting(c) && forall k, j: nat | 0 <= k < |table| :: table[k].id != c.mint(j)
    ensures UpsertedAll(table, Rows(PlanOf(c, secs))) == Some(table + ToDbAll(Rows(PlanOf(c, secs))))
  {
    var rows := Rows(PlanOf(c, secs));
    PlanGoesIn(c, secs, table, |rows|);
    assert rows[..|rows|] == rows;
  }

  // ---------------------------------------------------------------- any batch

  /** Ids are distinct and every parent named is there. */
  ghost predicate Intact(table: seq<DbRow>) {
    && (forall i, j | 0 <= i < j < |table| :: table[i].id != table[j].id)
    && forall i | 0 <= i < |table| :: ParentThere(table, table[i].parent)
  }

  predicate ParentThere(table: seq<DbRow>, parent: Option<string>) { parent.Some? ==> HasId(table, parent.value) }

  predicate Names(rows: seq<Row>, id: string) { exists j :: 0 <= j < |rows| && rows[j].id == id }

  /** The rows of `t` are those of `table`, except that the one of d's id has d's columns; no row has changed
      documents. */
  ghost predicate Updates(table: seq<DbRow>, d: DbRow, t: seq<DbRow>) {
    && (forall e: DbRow | e.id != d.id :: e in t <==> e in table)
    && (forall e | e in t && e.id == d.id :: e == d.(doc := e.doc))
    && forall e, f | e in table && f in t && e.id == f.id :: e.doc == f.doc
  }

  lemma UpsertedIds(table: seq<DbRow>, d: DbRow, id: string)
    requires Upserted(table, d).Some?
    ensures HasId(Upserted(table, d).value, id) <==> HasId(table, id) || id == d.id
  {
    var t := Upserted(table, d).value;
    assert forall k | 0 <= k < |table| :: t[k].id == table[k].id;
    if !HasId(table, d.id) {
      assert t[|table|].id == d.id;
    }
  }

  lemma UpsertUpdates(table: seq<DbRow>, d: DbRow)
    requires Intact(table) && Upserted(table, d).Some?
    ensures Updates(table, d, Upserted(table, d).value)
  {
    var t := Upserted(table, d).value;
    if HasId(table, d.id) {
      forall e: DbRow | e.id != d.id
        ensures e in t <==> e in table
      {
        if e in table {
          var k :| 0 <= k < |table| && table[k] == e;
          assert t[k] == e;
        }
      }
    }
  }

  lemma UpsertKeepsIntact(table: seq<DbRow>, d: DbRow)
    requires Intact(table) && Upserted(table, d).Some?
    ensures Intact(Upserted(table, d).value)
  {
    var t := Upserted(table, d).value;
    forall i | 0 <= i < |t|
      ensures ParentThere(t, t[i].parent)
    {
      if t[i].parent.Some? {
        UpsertedIds(table, d, t[i].parent.value);
        assert i < |table| ==> ParentThere(table, table[i].parent);
      }
    }
  }

  lemma {:induction false} BatchIds(table: seq<DbRow>, rows: seq<Row>, id: string)
    requires UpsertedAll(table, rows).Some?
    ensures HasId(UpsertedAll(table, rows).value, id) <==> HasId(table, id) || Names(rows, id)
    decreases |rows|
  {
    if rows != [] {
      var before, r := rows[..|rows| - 1], rows[|rows| - 1];
      BatchIds(table, before, id);
      UpsertedIds(UpsertedAll(table, before).value, ToDb(r), id);
      assert forall j | 0 <= j < |before| :: rows[j] == before[j];
    }
  }

  /** Row j of a batch is top-level, its own parent, or under a row of the table or one before it. */
  predicate ParentKnown(table: seq<DbRow>, rows: seq<Row>, j: nat)
    requires j < |rows|
  {
    rows[j].parent == "" || rows[j].parent == rows[j].id || HasId(table, rows[j].parent)
    || Names(rows[..j], rows[j].parent)
  }

  /** A batch goes in exactly when every row's parent is known by the time the row is written; otherwise none of
      it does. */
  lemma {:induction false} BatchGoesInIff(table: seq<DbRow>, rows: seq<Row>)
    ensures UpsertedAll(table, rows).Some? <==> forall j | 0 <= j < |rows| :: ParentKnown(table, rows, j)
    decreases |rows|
  {
    if rows != [] {
      var n := |rows| - 1;
      BatchGoesInIff(table, rows[..n]);
      KnownBefore(table, rows, n);
      if UpsertedAll(table, rows[..n]).Some? {
        LastGoesIn(table, rows, n);
        assert (forall j | 0 <= j < |rows| :: ParentKnown(table, rows, j))
            <==> (forall j | 0 <= j < n :: ParentKnown(table, rows, j)) && ParentKnown(table, rows, n);
      }
    }
  }

  lemma KnownBefore(table: seq<DbRow>, rows: seq<Row>, n: nat)
    requires n + 1 == |rows|
    ensures (forall j | 0 <= j < n :: ParentKnown(table, rows, j))
            <==> forall j | 0 <= j < |rows[..n]| :: ParentKnown(table, rows[..n], j)
  {
    assert forall j | 0 <= j < n :: rows[..n][..j] == rows[..j];
    assert forall j | 0 <= j < n :: ParentKnown(table, rows, j) <==> ParentKnown(table, rows[..n], j);
  }

  lemma LastGoesIn(table: seq<DbRow>, rows: seq<Row>, n: nat)
    requires n + 1 == |rows| && UpsertedAll(table, rows[..n]).Some?
    ensures UpsertedAll(table, rows).Some? <==> ParentKnown(table, rows, n)
  {
    BatchIds(table, rows[..n], rows[n].parent);
  }

  /** What the table has after a batch of rows went in: each of them as last written, every other row as it was,
      and each id under the document it first had. */
  ghost predicate Written(table: seq<DbRow>, rows: seq<Row>, t: seq<DbRow>) {
    && (forall e: DbRow | !Names(rows, e.id) :: e in t <==> e in table)
    && (forall e, j | e in t && 0 <= j < |rows| && rows[j].id == e.id && !Names(rows[j + 1..], e.id) ::
           e == ToDb(rows[j]).(doc := e.doc))
    && forall e, f | e in table && f in t && e.id == f.id :: e.doc == f.doc
  }

  lemma NamesSnoc(rows: seq<Row>, r: Row, id: string)
    ensures Names(rows + [r], id) <==> Names(rows, id) || r.id == id
  {
    var all := rows + [r];
    assert all[|rows|] == r;
    if j :| 0 <= j < |rows| && rows[j].id == id {
      assert all[j].id == id;
    }
  }

  lemma WrittenNext(table: seq<DbRow>, rows: seq<Row>, r: Row, t: seq<DbRow>, t': seq<DbRow>)
    requires Written(table, rows, t) && Updates(t, ToDb(r), t')
    requires forall e | e in table :: HasId(t, e.id)
    ensures Written(table, rows + [r], t')
  {
    var all := rows + [r];
    forall e: DbRow | !Names(all, e.id)
      ensures e in t' <==> e in table
    {
      NamesSnoc(rows, r, e.id);
    }
    forall e, j | e in t' && 0 <= j < |all| && all[j].id == e.id && !Names(all[j + 1..], e.id)
      ensures e == ToDb(all[j]).(doc := e.doc)
    {
      if j < |rows| {
        assert all[j + 1..] == rows[j + 1..] + [r];
        NamesSnoc(rows[j + 1..], r, e.id);
      }
    }
    forall e, f | e in table && f in t' && e.id == f.id
      ensures e.doc == f.doc
    {
      var k :| 0 <= k < |t| && t[k].id == e.id;
      assert t[k] in t;
    }
  }

  /** A batch leaves the ids distinct and every parent there, and writes its rows and nothing else. */
  lemma {:induction false} BatchIsWritten(table: seq<DbRow>, rows: seq<Row>)
    requires Intact(table) && UpsertedAll(table, rows).Some?
    ensures Intact(UpsertedAll(table, rows).value) && Written(table, rows, UpsertedAll(table, rows).value)
    decreases |rows|
  {
    if rows == [] {
      NothingWritten(table);
    } else {
      var before, r := rows[..|rows| - 1], rows[|rows| - 1];
      BatchIsWritten(table, before);
      StillThere(table, before);
      assert rows == before + [r];
      OneMoreWritten(table, before, r, UpsertedAll(table, before).value);
    }
  }

  lemma NothingWritten(table: seq<DbRow>)
    requires Intact(table)
    ensures Written(table, [], table)
  {
  }

  lemma StillThere(table: seq<DbRow>, rows: seq<Row>)
    requires UpsertedAll(table, rows).Some?
    ensures forall id | HasId(table, id) :: HasId(UpsertedAll(table, rows).value, id)
  {
    forall id | HasId(table, id)
      ensures HasId(UpsertedAll(table, rows).value, id)
    {
      BatchIds(table, rows, id);
    }
  }

  lemma OneMoreWritten(table: seq<DbRow>, rows: seq<Row>, r: Row, t: seq<DbRow>)
    requires Intact(t) && Written(table, rows, t) && Upserted(t, ToDb(r)).Some?
    requires forall id | HasId(table, id) :: HasId(t, id)
    ensures var t' := Upserted(t, ToDb(r)).value;
            Intact(t') && Written(table, rows + [r], t')
  {
    UpsertUpdates(t, ToDb(r));
    UpsertKeepsIntact(t, ToDb(r));
    forall e | e in table
      ensures HasId(t, e.id)
    {
      assert HasId(table, e.id);
    }
    WrittenNext(table, rows, r, t, Upserted(t, ToDb(r)).value);
  }

  // ---------------------------------------------------------------- listing

  /** ORDER BY depth ASC, ordinal ASC. */
  predicate NotAfter(a: Row, b: Row) { a.depth < b.depth || (a.depth == b.depth && a.ordinal <= b.ordinal) }

  ghost predicate Ordered(rows: seq<Row>) {
    forall i, j | 0 <= i < j < |rows| :: NotAfter(rows[i], rows[j])
  }

  function Scan(table: seq<DbRow>, doc: string): seq<Row> {
    if table == [] then []
    else
      var d := table[|table| - 1];
      Scan(table[..|table| - 1], doc) + if d.doc == doc then [FromDb(d)] else []
  }

  /** `rows` is what listing a document's sections may give: ties come in any order. */
  ghost predicate Listing(table: seq<DbRow>, doc: string, rows: seq<Row>) {
    Ordered(rows) && multiset(rows) == multiset(Scan(table, doc))
  }

  function BackAll(rows: seq<Row>): (b: seq<Row>)
    ensures |b| == |rows| && forall i | 0 <= i < |b| :: b[i] == Back(rows[i])
  {
    seq(|rows|, i requires 0 <= i < |rows| => Back(rows[i]))
  }

  /** Scanning the table after the plan was written gives the planned rows, if the document had none. */
  lemma {:induction false} ScanOfWritten(table: seq<DbRow>, rows: seq<Row>, doc: string)
    requires (forall r | r in rows :: r.doc == doc) && (forall d | d in table :: d.doc != doc)
    ensures Scan(table + ToDbAll(rows), doc) == BackAll(rows)
    decreases |rows|
  {
    if rows == [] {
      assert table + ToDbAll(rows) == table;
      NothingScanned(table, doc);
    } else {
      var before, last := rows[..|rows| - 1], rows[|rows| - 1];
      assert rows == before + [last];
      assert last.doc == doc;
      ScanOfWritten(table, before, doc);
      ScanOneMore(table, before, last, doc);
      BackSnoc(before, last);
    }
  }

  lemma ScanOneMore(table: seq<DbRow>, rows: seq<Row>, r: Row, doc: string)
    requires r.doc == doc
    ensures Scan(table + ToDbAll(rows + [r]), doc) == Scan(table + ToDbAll(rows), doc) + [Back(r)]
  {
    ToDbSnoc(table, rows, r);
    ScanSnoc(table + ToDbAll(rows), ToDb(r), doc);
    ColumnsComeBack(r);
  }

  lemma BackSnoc(rows: seq<Row>, r: Row)
    ensures BackAll(rows + [r]) == BackAll(rows) + [Back(r)]
  {
  }

  lemma ScanSnoc(table: seq<DbRow>, d: DbRow, doc: string)
    ensures Scan(table + [d], doc) == Scan(table, doc) + if d.doc == doc then [FromDb(d)] else []
  {
    assert (table + [d])[..|table|] == table;
  }

  lemma {:induction false} NothingScanned(table: seq<DbRow>, doc: string)
    requires forall d | d in table :: d.doc != doc
    ensures Scan(table, doc) == []
    decreases |table|
  {
    if table != [] {
      assert table[|table| - 1] in table;
      NothingScanned(table[..|table| - 1], doc);
    }
  }

  // ---------------------------------------------------------------- the rows under one parent

  function Filter(rows: seq<Row>, parent: string): seq<Row> {
    if rows == [] then []
    else
      Filter(rows[..|rows| - 1], parent) + if rows[|rows| - 1].parent == parent then [rows[|rows| - 1]] else []
  }

  lemma {:induction false} FilterConcat(a: seq<Row>, b: seq<Row>, parent: string)
    ensures Filter(a + b, parent) == Filter(a, parent) + Filter(b, parent)
    decreases |b|
  {
    if b == [] {
      assert a + b == a;
    } else {
      assert (a + b)[..|a + b| - 1] == a + b[..|b| - 1];
      FilterConcat(a, b[..|b| - 1], parent);
    }
  }

  lemma {:induction false} FilterNone(rows: seq<Row>, parent: string)
    requires forall r | r in rows :: r.parent != parent
    ensures Filter(rows, parent) == []
    decreases |rows|
  {
    if rows != [] {
      assert rows[|rows| - 1] in rows;
      FilterNone(rows[..|rows| - 1], parent);
    }
  }

  lemma {:induction false} FilterMultiset(rows: seq<Row>, parent: string, r: Row)
    ensures multiset(Filter(rows, parent))[r] == if r.parent == parent then multiset(rows)[r] else 0
    decreases |rows|
  {
    if rows != [] {
      var before := rows[..|rows| - 1];
      FilterMultiset(before, parent, r);
      assert rows == before + [rows[|rows| - 1]];
    }
  }

  lemma FilterFrom(rows: seq<Row>, parent: string, i: nat)
    requires i < |Filter(rows, parent)|
    ensures Filter(rows, parent)[i].parent == parent && Filter(rows, parent)[i] in rows
  {
    var r := Filter(rows, parent)[i];
    assert r in multiset(Filter(rows, parent));
    FilterMultiset(rows, parent, r);
    assert r in multiset(rows);
  }

  lemma {:induction false} FilterOrdered(rows: seq<Row>, parent: string)
    requires Ordered(rows)
    ensures Ordered(Filter(rows, parent))
    decreases |rows|
  {
    if rows != [] {
      var before, last := rows[..|rows| - 1], rows[|rows| - 1];
      FilterOrdered(before, parent);
      var f := Filter(before, parent);
      forall i | 0 <= i < |f|
        ensures NotAfter(f[i], last)
      {
        FilterFrom(before, parent, i);
        var k :| 0 <= k < |before| && before[k] == f[i];
        assert rows[k] == f[i];
      }
    }
  }

  /** Siblings: one depth, ordinals going up. */
  ghost predicate Siblings(rows: seq<Row>) {
    forall i, j | 0 <= i < j < |rows| :: rows[i].depth == rows[j].depth && rows[i].ordinal < rows[j].ordinal
  }

  lemma MemberAt(s: seq<Row>, m: multiset<Row>, r: Row) returns (i: nat)
    requires multiset(s) == m && r in m
    ensures i < |s| && s[i] == r
  {
    assert r in s;
    i :| 0 <= i < |s| && s[i] == r;
  }

  lemma LastIsLast(a: seq<Row>, b: seq<Row>)
    requires Ordered(a) && Siblings(b) && multiset(a) == multiset(b) && a != [] && b != []
    ensures a[|a| - 1] == b[|b| - 1]
  {
    var x, y := a[|a| - 1], b[|b| - 1];
    assert x in a && y in b;
    var i := MemberAt(a, multiset(b), y);
    var j := MemberAt(b, multiset(a), x);
    assert i < |a| - 1 ==> NotAfter(y, x);
    assert j < |b| - 1 ==> x.depth == y.depth && x.ordinal < y.ordinal;
  }

  lemma FrontMultiset(s: seq<Row>)
    requires s != []
    ensures multiset(s[..|s| - 1]) == multiset(s) - multiset{s[|s| - 1]}
  {
    assert s == s[..|s| - 1] + [s[|s| - 1]];
  }

  lemma FrontsAgree(a: seq<Row>, b: seq<Row>)
    requires Ordered(a) && Siblings(b) && multiset(a) == multiset(b) && a != [] && b != []
    ensures a[|a| - 1] == b[|b| - 1]
    ensures Ordered(a[..|a| - 1]) && Siblings(b[..|b| - 1]) && multiset(a[..|a| - 1]) == multiset(b[..|b| - 1])
  {
    LastIsLast(a, b);
    FrontMultiset(a);
    FrontMultiset(b);
  }

  /** There is one way to list siblings in order. */
  lemma {:induction false} SiblingsListOneWay(a: seq<Row>, b: seq<Row>)
    requires Ordered(a) && Siblings(b) && multiset(a) == multiset(b)
    ensures a == b
    decreases |b|
  {
    if b == [] {
      assert |multiset(a)| == 0;
    } else {
      assert |multiset(b)| > 0;
      FrontsAgree(a, b);
      SiblingsListOneWay(a[..|a| - 1], b[..|b| - 1]);
      assert a == a[..|a| - 1] + [a[|a| - 1]] && b == b[..|b| - 1] + [b[|b| - 1]];
    }
  }

  /** However a document's rows are listed, those under one parent come in the order of their ordinals,
      if they are siblings. */
  lemma ListedSiblings(rows: seq<Row>, planned: seq<Row>, parent: string)
    requires Ordered(rows) && multiset(rows) == multiset(planned) && Siblings(Filter(planned, parent))
    ensures Filter(rows, parent) == Filter(planned, parent)
  {
    FilterOrdered(rows, parent);
    forall r
      ensures multiset(Filter(rows, parent))[r] == multiset(Filter(planned, parent))[r]
    {
      FilterMultiset(rows, parent, r);
      FilterMultiset(planned, parent, r);
    }
    SiblingsListOneWay(Filter(rows, parent), Filter(planned, parent));
  }
}
