/** Repeats and fragments dropped from a contents listing (dedupEntries). The second pass compacts the
    listing into the same slice it is still scanning. */
module TocDedup {

  datatype Entry = Entry(title: string, printed: int, depth: int, container: bool)

  // ---------------------------------------------------------------- exact repeats

  /** What makes an entry the repeat of another: its normalised title and its printed page. */
  function Key(norm: string -> string, e: Entry): (string, int) { (norm(e.title), e.printed) }

  /** Containers, and of every other kind of entry the first one. */
  function Firsts(norm: string -> string, es: seq<Entry>): seq<Entry> {
    if es == [] then []
    else
      var e, before := es[|es| - 1], es[..|es| - 1];
      Firsts(norm, before)
      + if e.container || forall b | b in before :: b.container || Key(norm, b) != Key(norm, e) then [e] else []
  }

  // ---------------------------------------------------------------- fragments

  predicate Extends(long: string, short: string) { |long| > |short| && short <= long }

  /** A page-less entry whose title another entry's spells out further. */
  predicate FragmentOf(norm: string -> string, e: Entry, o: Entry) {
    !o.container && Extends(norm(o.title), norm(e.title))
  }

  predicate MayGo(e: Entry) { !e.container && e.printed == 0 }

  ghost predicate Fragment(norm: string -> string, e: Entry, all: seq<Entry>) {
    MayGo(e) && exists o :: o in all && FragmentOf(norm, e, o)
  }

  /** The entries of es that are not fragments of the whole listing. */
  ghost function Whole(norm: string -> string, es: seq<Entry>, all: seq<Entry>): seq<Entry> {
    if es == [] then []
    else
      var e := es[|es| - 1];
      Whole(norm, es[..|es| - 1], all) + if Fragment(norm, e, all) then [] else [e]
  }

  /** If an entry is a fragment, it is one of an entry that is itself no fragment: follow the
      extensions to a longest one. */
  lemma {:induction false} WholeExtension(norm: string -> string, e: Entry, o: Entry, all: seq<Entry>)
    returns (w: Entry)
    requires o in all && FragmentOf(norm, e, o)
    ensures w in all && FragmentOf(norm, e, w) && !Fragment(norm, w, all)
    decreases Longest(norm, all) - |norm(o.title)|
  {
    if Fragment(norm, o, all) {
      var p :| p in all && FragmentOf(norm, o, p);
      LongestBounds(norm, all);
      w := WholeExtension(norm, e, p, all);
    } else {
      w := o;
    }
  }

  function Longest(norm: string -> string, es: seq<Entry>): nat {
    if es == [] then 0
    else
      var n, m := |norm(es[0].title)|, Longest(norm, es[1..]);
      if n > m then n else m
  }

  lemma {:induction false} LongestBounds(norm: string -> string, es: seq<Entry>)
    ensures forall e | e in es :: |norm(e.title)| <= Longest(norm, es)
  {
    if es != [] {
      LongestBounds(norm, es[1..]);
      assert forall e | e in es :: e == es[0] || e in es[1..];
    }
  }

  /** What the slice holds halfway: the entries kept so far, leftovers, and from i on the listing as it
      was. */
  ghost predicate Halfway(norm: string -> string, now: seq<Entry>, all: seq<Entry>, kept: nat, i: nat) {
    && |now| == |all| && kept <= i <= |all|
    && now[..kept] == Whole(norm, all[..i], all)
    && (forall j | kept <= j < i :: now[j] in all)
    && now[i..] == all[i..]
  }

  lemma {:induction false} WholeIsFrom(norm: string -> string, es: seq<Entry>, all: seq<Entry>)
    ensures |Whole(norm, es, all)| <= |es|
    ensures forall e :: e in Whole(norm, es, all) <==> e in es && !Fragment(norm, e, all)
    decreases |es|
  {
    if es != [] {
      WholeIsFrom(norm, es[..|es| - 1], all);
      assert es == es[..|es| - 1] + [es[|es| - 1]];
    }
  }

  /** Although entries before i have been overwritten, the slice shows an extension of entry i exactly
      when the listing had one. */
  lemma OverwritingHidesNothing(norm: string -> string, now: seq<Entry>, all: seq<Entry>, kept: nat, i: nat)
    requires Halfway(norm, now, all, kept, i) && i < |all|
    ensures now[i] == all[i]
    ensures (exists j :: 0 <= j < |now| && j != i && FragmentOf(norm, now[i], now[j]))
            <==> (exists o :: o in all && FragmentOf(norm, all[i], o))
  {
    WholeIsFrom(norm, all[..i], all);
    assert now[i] == now[i..][0] == all[i];
    forall j | 0 <= j < |now|
      ensures now[j] in all
    {
      if j < kept {
        assert now[j] == now[..kept][j] && now[..kept][j] in Whole(norm, all[..i], all);
        assert now[j] in all[..i];
      } else if j >= i {
        assert now[j] == now[i..][j - i] == all[j];
      }
    }
    if o :| o in all && FragmentOf(norm, all[i], o) {
      var w := WholeExtension(norm, all[i], o, all);
      var k :| 0 <= k < |all| && all[k] == w;
      if k < i {
        assert all[..i][k] == w;
        assert w in now[..kept];
        var j :| 0 <= j < kept && now[..kept][j] == w;
        assert now[j] == w;
      } else {
        assert now[i..][k - i] == w == now[k];
      }
    }
  }

  lemma WholeStep(norm: string -> string, all: seq<Entry>, i: nat)
    requires i < |all|
    ensures Whole(norm, all[..i + 1], all)
            == Whole(norm, all[..i], all) + if Fragment(norm, all[i], all) then [] else [all[i]]
  {
    assert all[..i + 1][..i] == all[..i];
  }

  lemma HalfwayStep(norm: string -> string, now: seq<Entry>, next: seq<Entry>, all: seq<Entry>, kept: nat, i: nat)
    requires Halfway(norm, now, all, kept, i) && i < |all|
    requires next == if Fragment(norm, all[i], all) then now else now[kept := all[i]]
    ensures Halfway(norm, next, all, if Fragment(norm, all[i], all) then kept else kept + 1, i + 1)
  {
    WholeStep(norm, all, i);
    assert now[i] == now[i..][0] == all[i];
    assert next[i + 1..] == now[i..][1..] == all[i..][1..] == all[i + 1..];
    if !Fragment(norm, all[i], all) {
      assert next[..kept + 1] == now[..kept] + [all[i]];
    }
  }

  /** Whether the slice, as it now stands, shows another entry that spells out entry i further. */
  method HasExtension(norm: string -> string, out: array<Entry>, i: nat) returns (frag: bool)
    requires i < out.Length
    ensures frag <==> exists j :: 0 <= j < out.Length && j != i && FragmentOf(norm, out[i], out[j])
  {
    for j := 0 to out.Length
      invariant forall k | 0 <= k < j && k != i :: !FragmentOf(norm, out[i], out[k])
    {
      if j != i && FragmentOf(norm, out[i], out[j]) {
        return true;
      }
    }
    frag := false;
  }

  method DropFragments(norm: string -> string, out: array<Entry>) returns (kept: nat)
    modifies out
    ensures kept <= out.Length && out[..kept] == Whole(norm, old(out[..]), old(out[..]))
  {
    ghost var all := out[..];
    kept := 0;
    for i := 0 to out.Length
      invariant Halfway(norm, out[..], all, kept, i)
    {
      OverwritingHidesNothing(norm, out[..], all, kept, i);
      HalfwayStep(norm, out[..], if Fragment(norm, all[i], all) then out[..] else out[..][kept := all[i]], all, kept,
                  i);
      var e := out[i];
      if MayGo(e) {
        var frag := HasExtension(norm, out, i);
        if frag {
          continue;
        }
      }
      out[kept] := e;
      kept := kept + 1;
    }
    assert all[..out.Length] == all;
  }

  /** The whole of dedupEntries: the first pass by the set of keys seen, the second in place. */
  method DedupEntries(norm: string -> string, es: seq<Entry>) returns (kept: seq<Entry>)
    ensures kept == Whole(norm, Firsts(norm, es), Firsts(norm, es))
  {
    var out: seq<Entry> := [];
    var seen: set<(string, int)> := {};
    for i := 0 to |es|
      invariant out == Firsts(norm, es[..i])
      invariant seen == set e | e in es[..i] && !e.container :: Key(norm, e)
    {
      var e := es[i];
      assert es[..i + 1][..i] == es[..i] && es[..i + 1] == es[..i] + [e];
      if e.container {
        out := out + [e];
        continue;
      }
      var k := Key(norm, e);
      if k in seen {
        continue;
      }
      seen := seen + {k};
      out := out + [e];
    }
    assert es[..|es|] == es;
    var slice := new Entry[|out|](i requires 0 <= i < |out| => out[i]);
    assert slice[..] == out;
    var n := DropFragments(norm, slice);
    kept := slice[..n];
  }

  /** What is left has no repeat and no fragment, and nothing else was dropped: every entry of the
      listing is left itself, repeats an entry before it, or is spelled out further by one that is left. */
  lemma DedupLosesNothing(norm: string -> string, es: seq<Entry>, e: Entry)
    requires e in es
    ensures var first := Firsts(norm, es);
            var kept := Whole(norm, first, first);
            || e in kept
            || (!e.container && exists b :: b in es && !b.container && b != e && Key(norm, b) == Key(norm, e))
            || (MayGo(e) && exists w :: w in kept && FragmentOf(norm, e, w))
  {
    var first := Firsts(norm, es);
    FirstsKeep(norm, es);
    WholeIsFrom(norm, first, first);
    if e in first && Fragment(norm, e, first) {
      var o :| o in first && FragmentOf(norm, e, o);
      var w := WholeExtension(norm, e, o, first);
    }
  }

  lemma {:induction false} FirstsKeep(norm: string -> string, es: seq<Entry>)
    ensures forall e | e in Firsts(norm, es) :: e in es
    ensures forall e | e in es && e.container :: e in Firsts(norm, es)
    ensures forall e | e in es && !e.container :: exists b ::
              b in Firsts(norm, es) && !b.container && Key(norm, b) == Key(norm, e)
  {
    if es != [] {
      var e, before := es[|es| - 1], es[..|es| - 1];
      FirstsKeep(norm, before);
      assert es == before + [e];
    }
  }

  // ---------------------------------------------------------------- in plain words

  /** Two entries, neither a container, have the same normalised title and the same printed page. */
  predicate SameEntry(norm: string -> string, a: Entry, b: Entry) {
    !a.container && !b.container && norm(a.title) == norm(b.title) && a.printed == b.printed
  }

  /** e has no printed page and o's title goes on where e's ends; neither is a container. */
  predicate GoesOn(norm: string -> string, e: Entry, o: Entry) {
    && !e.container && !o.container && e.printed == 0
    && |norm(e.title)| < |norm(o.title)| && norm(o.title)[..|norm(e.title)|] == norm(e.title)
  }

  /** The listing's entries at these places. */
  function Chosen(es: seq<Entry>, at: seq<nat>): (r: seq<Entry>)
    requires forall k | 0 <= k < |at| :: at[k] < |es|
    ensures |r| == |at| && forall k | 0 <= k < |r| :: r[k] == es[at[k]]
  {
    seq(|at|, k requires 0 <= k < |at| => es[at[k]])
  }

  predicate Ascending(at: seq<nat>, n: nat) {
    (forall k | 0 <= k < |at| :: at[k] < n) && forall k, l | 0 <= k < l < |at| :: at[k] < at[l]
  }

  /** The first of its kind: no entry before place i is the same. */
  predicate First(norm: string -> string, es: seq<Entry>, i: nat)
    requires i < |es|
  {
    forall b | 0 <= b < i :: !SameEntry(norm, es[b], es[i])
  }

  lemma {:induction false} FirstsAt(norm: string -> string, es: seq<Entry>) returns (at: seq<nat>)
    ensures Ascending(at, |es|) && Firsts(norm, es) == Chosen(es, at)
    ensures forall i | 0 <= i < |es| :: i in at <==> First(norm, es, i)
    decreases |es|
  {
    at := [];
    if es != [] {
      var n := |es| - 1;
      var before := es[..n];
      at := FirstsAt(norm, before);
      ChosenSnoc(es, at);
      FirstsSnoc(norm, es);
      if First(norm, es, n) {
        at := at + [n];
      }
    }
  }

  lemma FirstsSnoc(norm: string -> string, es: seq<Entry>)
    requires es != []
    ensures var n := |es| - 1;
            && Firsts(norm, es) == Firsts(norm, es[..n]) + (if First(norm, es, n) then [es[n]] else [])
            && forall i | 0 <= i < n :: First(norm, es, i) <==> First(norm, es[..n], i)
  {
    var n := |es| - 1;
    NewKind(norm, es[..n], es[n]);
    forall i | 0 <= i < n
      ensures First(norm, es, i) <==> First(norm, es[..n], i)
    {
      FirstInPrefix(norm, es, n, i);
    }
    assert First(norm, es, n) <==> forall k | 0 <= k < n :: !SameEntry(norm, es[..n][k], es[n]);
  }

  lemma FirstInPrefix(norm: string -> string, es: seq<Entry>, n: nat, i: nat)
    requires i < n <= |es|
    ensures First(norm, es, i) <==> First(norm, es[..n], i)
  {
    assert forall b | 0 <= b <= i :: es[..n][b] == es[b];
  }

  lemma NewKind(norm: string -> string, before: seq<Entry>, e: Entry)
    ensures (e.container || forall b | b in before :: b.container || Key(norm, b) != Key(norm, e))
            <==> forall k | 0 <= k < |before| :: !SameEntry(norm, before[k], e)
  {
    forall b
      ensures SameEntry(norm, b, e) <==> !b.container && !e.container && Key(norm, b) == Key(norm, e)
    {
    }
    if forall k | 0 <= k < |before| :: !SameEntry(norm, before[k], e) {
      forall b | b in before
        ensures !SameEntry(norm, b, e)
      {
        var k :| 0 <= k < |before| && before[k] == b;
      }
    }
  }

  lemma ChosenSnoc(es: seq<Entry>, at: seq<nat>)
    requires es != [] && Ascending(at, |es| - 1)
    ensures var n := |es| - 1;
            && Ascending(at, |es|) && Ascending(at + [n], |es|)
            && Chosen(es, at) == Chosen(es[..n], at) && Chosen(es, at + [n]) == Chosen(es[..n], at) + [es[n]]
  {
  }

  lemma {:induction false} WholeAt(norm: string -> string, es: seq<Entry>, all: seq<Entry>) returns (at: seq<nat>)
    ensures Ascending(at, |es|) && Whole(norm, es, all) == Chosen(es, at)
    ensures forall i | 0 <= i < |es| :: i in at <==> !Fragment(norm, es[i], all)
    decreases |es|
  {
    at := [];
    if es != [] {
      var n := |es| - 1;
      at := WholeAt(norm, es[..n], all);
      ChosenSnoc(es, at);
      assert forall i | 0 <= i < n :: es[..n][i] == es[i];
      if !Fragment(norm, es[n], all) {
        at := at + [n];
      }
    }
  }

  lemma FragmentSays(norm: string -> string, e: Entry, all: seq<Entry>)
    ensures Fragment(norm, e, all) <==> exists o :: o in all && GoesOn(norm, e, o)
  {
    forall o
      ensures MayGo(e) && FragmentOf(norm, e, o) <==> GoesOn(norm, e, o)
    {
    }
  }

  /** What is kept of a listing, in its order: the entries that are the first of their kind and that no other
      first one's title goes on from. */
  lemma DedupKeeps(norm: string -> string, es: seq<Entry>) returns (at: seq<nat>)
    ensures Ascending(at, |es|) && Whole(norm, Firsts(norm, es), Firsts(norm, es)) == Chosen(es, at)
    ensures forall i | 0 <= i < |es| ::
              i in at <==> First(norm, es, i)
                           && !exists j :: 0 <= j < |es| && First(norm, es, j) && GoesOn(norm, es[i], es[j])
  {
    var f := FirstsAt(norm, es);
    var first := Firsts(norm, es);
    var w := WholeAt(norm, first, first);
    forall k | 0 <= k < |first|
      ensures k in w <==> !exists o :: o in first && GoesOn(norm, first[k], o)
    {
      FragmentSays(norm, first[k], first);
    }
    at := seq(|w|, k requires 0 <= k < |w| => f[w[k]]);
    assert Chosen(es, at) == Chosen(first, w);
    forall i | 0 <= i < |es|
      ensures i in at <==> First(norm, es, i)
                           && !exists j :: 0 <= j < |es| && First(norm, es, j) && GoesOn(norm, es[i], es[j])
    {
      KeptAt(norm, es, f, w, at, i);
    }
  }

  lemma KeptAt(norm: string -> string, es: seq<Entry>, f: seq<nat>, w: seq<nat>, at: seq<nat>, i: nat)
    requires Ascending(f, |es|) && (forall k | 0 <= k < |es| :: k in f <==> First(norm, es, k))
    requires var first := Chosen(es, f);
             Ascending(w, |first|)
             && forall k | 0 <= k < |first| :: k in w <==> !exists o :: o in first && GoesOn(norm, first[k], o)
    requires |at| == |w| && (forall k | 0 <= k < |w| :: at[k] == f[w[k]]) && i < |es|
    ensures i in at <==> First(norm, es, i)
                         && !exists j :: 0 <= j < |es| && First(norm, es, j) && GoesOn(norm, es[i], es[j])
  {
    var first := Chosen(es, f);
    SameOthers(norm, es, f, es[i]);
    if i in at {
      var m :| 0 <= m < |at| && at[m] == i;
      assert w[m] in w && f[w[m]] in f && first[w[m]] == es[i];
    }
    if First(norm, es, i) && !exists o :: o in first && GoesOn(norm, es[i], o) {
      assert i in f;
      var k :| 0 <= k < |f| && f[k] == i;
      assert first[k] == es[i] && k in w;
      var m :| 0 <= m < |w| && w[m] == k;
      assert at[m] == i;
    }
  }

  lemma SameOthers(norm: string -> string, es: seq<Entry>, f: seq<nat>, e: Entry)
    requires Ascending(f, |es|) && (forall k | 0 <= k < |es| :: k in f <==> First(norm, es, k))
    ensures (exists o :: o in Chosen(es, f) && GoesOn(norm, e, o))
            <==> exists j :: 0 <= j < |es| && First(norm, es, j) && GoesOn(norm, e, es[j])
  {
    var first := Chosen(es, f);
    if o :| o in first && GoesOn(norm, e, o) {
      var k :| 0 <= k < |first| && first[k] == o;
      assert f[k] in f && es[f[k]] == o;
    }
    if j :| 0 <= j < |es| && First(norm, es, j) && GoesOn(norm, e, es[j]) {
      var k :| 0 <= k < |f| && f[k] == j;
      assert first[k] == es[j];
    }
  }
}
