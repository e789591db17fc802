/** The siblings whose pages cannot be true because they run backwards (outOfOrder): a dynamic programme
    for the longest run of placed siblings that never goes back. */
module TocOrder {
  import opened TocTree

  /** `t` is `s` with some of its pages cleared. */
  ghost predicate Clears(s: seq<int>, t: seq<int>) {
    |t| == |s| && forall i | 0 <= i < |s| :: t[i] == s[i] || (s[i] > 0 && t[i] == 0)
  }

  /** How many pages are placed. */
  function Count(s: seq<int>): nat {
    if s == [] then 0 else Count(s[..|s| - 1]) + if s[|s| - 1] > 0 then 1 else 0
  }

  /** `t` puts `s` in order by clearing as few pages as can be. */
  ghost predicate FewestCleared(s: seq<int>, t: seq<int>) {
    && Clears(s, t) && InOrder(t)
    && forall u | Clears(s, u) && InOrder(u) :: Count(u) <= Count(t)
  }

  /** A choice of placed siblings, in order, whose pages never go backwards. */
  ghost predicate IsRun(s: seq<int>, c: seq<nat>) {
    && (forall k | 0 <= k < |c| :: c[k] < |s| && s[c[k]] > 0)
    && (forall k, l | 0 <= k < l < |c| :: c[k] < c[l] && s[c[k]] <= s[c[l]])
  }

  predicate Ascending(c: seq<nat>) {
    forall k, l | 0 <= k < l < |c| :: c[k] < c[l]
  }

  /** The indexes of the placed pages. */
  function PlacedAt(s: seq<int>): (p: seq<nat>)
    ensures |p| == Count(s)
    ensures forall k | 0 <= k < |p| :: p[k] < |s| && s[p[k]] > 0
    ensures Ascending(p)
    ensures forall i | 0 <= i < |s| && s[i] > 0 :: i in p
  {
    if s == [] then []
    else
      var n := |s| - 1;
      var p := PlacedAt(s[..n]);
      if s[n] > 0 then p + [n] else p
  }

  /** Any ascending choice of placed pages is no longer than all of them. */
  lemma {:induction false} ChoiceFits(t: seq<int>, c: seq<nat>)
    requires Ascending(c) && forall k | 0 <= k < |c| :: c[k] < |t| && t[c[k]] > 0
    ensures |c| <= Count(t)
    decreases |t|
  {
    assert c != [] ==> c[0] < |t|;
    if c != [] {
      var n := |t| - 1;
      var c' := if c[|c| - 1] == n then c[..|c| - 1] else c;
      assert forall k | 0 <= k < |c'| :: c'[k] < c[|c| - 1] || c'[k] == c[|c| - 1];
      ChoiceFits(t[..n], c');
    }
  }

  /** What any clearing that restores order keeps is a run. */
  lemma KeptIsRun(s: seq<int>, u: seq<int>)
    requires Clears(s, u) && InOrder(u)
    ensures IsRun(s, PlacedAt(u))
  {
    var p := PlacedAt(u);
    forall k | 0 <= k < |p|
      ensures p[k] < |s| && s[p[k]] == u[p[k]] > 0
    {
    }
  }

  function ClearedAt(s: seq<int>, out: seq<nat>): (t: seq<int>)
    ensures |t| == |s| && forall i | 0 <= i < |s| :: t[i] == if i in out then 0 else s[i]
  {
    seq(|s|, i requires 0 <= i < |s| => if i in out then 0 else s[i])
  }

  /** Keeping exactly a run that no run outgrows clears the fewest pages. */
  lemma LongestRunIsFewest(s: seq<int>, run: seq<nat>, out: seq<nat>)
    requires IsRun(s, run) && forall c | IsRun(s, c) :: |c| <= |run|
    requires forall i :: i in out <==> 0 <= i < |s| && s[i] > 0 && i !in run
    ensures FewestCleared(s, ClearedAt(s, out))
  {
    var t := ClearedAt(s, out);
    forall i, j | 0 <= i < j < |s| && t[i] > 0 && t[j] > 0
      ensures t[i] <= t[j]
    {
      var k :| 0 <= k < |run| && run[k] == i;
      var l :| 0 <= l < |run| && run[l] == j;
      assert k != l && !(l < k);
    }
    ChoiceFits(t, run);
    forall u | Clears(s, u) && InOrder(u)
      ensures Count(u) <= Count(t)
    {
      KeptIsRun(s, u);
      assert |PlacedAt(u)| <= |run|;
    }
  }

  lemma {:induction false} ClearingOne(s: seq<int>, i: nat)
    requires i < |s| && s[i] > 0
    ensures Count(s[i := 0]) + 1 == Count(s)
    decreases |s|
  {
    var n := |s| - 1;
    if i == n {
      assert s[i := 0][..n] == s[..n];
    } else {
      assert s[i := 0][..n] == s[..n][i := 0];
      ClearingOne(s[..n], i);
    }
  }

  /** Each cleared index takes one page off the count. */
  lemma {:induction false} ClearedCount(s: seq<int>, out: seq<nat>)
    requires Ascending(out) && forall i | i in out :: i < |s| && s[i] > 0
    ensures Count(ClearedAt(s, out)) + |out| == Count(s)
    decreases |out|
  {
    if out == [] {
      assert ClearedAt(s, out) == s;
    } else {
      var i, out' := out[|out| - 1], out[..|out| - 1];
      assert out == out' + [i] && i in out;
      assert forall j | j in out' :: j in out && j != i;
      assert ClearedAt(s, out) == ClearedAt(s, out')[i := 0];
      ClearedCount(s, out');
      ClearingOne(ClearedAt(s, out'), i);
    }
  }

  // ---------------------------------------------------------------- the dynamic programme

  /** The placed siblings in order. */
  ghost predicate Indexes(s: seq<int>, idx: seq<nat>, n: nat) {
    && Ascending(idx)
    && (forall k | 0 <= k < |idx| :: idx[k] < n && idx[k] < |s| && s[idx[k]] > 0)
    && (forall i | 0 <= i < n && i < |s| && s[i] > 0 :: i in idx)
  }

  /** `len` is the length of a longest run that ends on sibling i. */
  ghost predicate Longest(s: seq<int>, i: nat, len: int, run: seq<nat>) {
    && IsRun(s, run) && run != [] && run[|run| - 1] == i && |run| == len
    && forall c | IsRun(s, c) && c != [] && c[|c| - 1] == i :: |c| <= len
  }

  ghost predicate Linked(idx: seq<nat>, prev: seq<int>, runs: seq<seq<nat>>, a: nat)
    requires a < |idx| && a < |prev| && a < |runs|
  {
    && -1 <= prev[a] < a
    && runs[a] == (if prev[a] < 0 then [] else runs[prev[a]]) + [idx[a]]
  }

  /** The table after some of the placed siblings: `runs` says what the links in `prev` lead through. */
  ghost predicate Table(s: seq<int>, idx: seq<nat>, length: seq<int>, prev: seq<int>, runs: seq<seq<nat>>) {
    && |length| == |prev| == |runs| <= |idx|
    && forall b | 0 <= b < |runs| :: Row(s, idx, length, prev, runs, b)
  }

  ghost predicate Row(s: seq<int>, idx: seq<nat>, length: seq<int>, prev: seq<int>, runs: seq<seq<nat>>, b: nat)
    requires b < |length| == |prev| == |runs| <= |idx|
  {
    Linked(idx, prev, runs, b) && Longest(s, idx[b], length[b], runs[b])
  }

  lemma RunExtends(s: seq<int>, run: seq<nat>, i: nat)
    requires IsRun(s, run) && run != [] && i < |s| && s[i] > 0
    requires run[|run| - 1] < i && s[run[|run| - 1]] <= s[i]
    ensures IsRun(s, run + [i])
  {
  }

  /** No run that ends on idx[a] is longer than one more than the best before it. */
  lemma RunsEndingAt(s: seq<int>, idx: seq<nat>, length: seq<int>, prev: seq<int>, runs: seq<seq<nat>>, a: nat,
                     len: int)
    requires Indexes(s, idx, |s|) && Table(s, idx, length, prev, runs) && a == |runs| < |idx| && len >= 1
    requires forall b | 0 <= b < a && s[idx[b]] <= s[idx[a]] :: length[b] + 1 <= len
    ensures forall c | IsRun(s, c) && c != [] && c[|c| - 1] == idx[a] :: |c| <= len
  {
    forall c | IsRun(s, c) && c != [] && c[|c| - 1] == idx[a]
      ensures |c| <= len
    {
      if |c| > 1 {
        var c' := c[..|c| - 1];
        var i := c'[|c'| - 1];
        assert i == c[|c| - 2] && i in idx;
        var b :| 0 <= b < |idx| && idx[b] == i;
        assert b < a;
        assert IsRun(s, c');
        assert Row(s, idx, length, prev, runs, b);
      }
    }
  }

  /** The inner search: the longest run among those before idx[a] that idx[a] may follow. */
  method FindLongest(s: seq<int>, idx: seq<nat>, length: seq<int>, ghost prev: seq<int>, ghost runs: seq<seq<nat>>,
                     a: nat)
    returns (len: int, p: int)
    requires Indexes(s, idx, |s|) && Table(s, idx, length, prev, runs) && a == |runs| < |idx|
    ensures -1 <= p < a
    ensures var run := (if p < 0 then [] else runs[p]) + [idx[a]];
            Table(s, idx, length + [len], prev + [p], runs + [run])
  {
    len, p := 1, -1;
    for b := 0 to a
      invariant -1 <= p < a && len == (if p < 0 then 1 else length[p] + 1) >= 1
      invariant p >= 0 ==> s[idx[p]] <= s[idx[a]]
      invariant forall c | 0 <= c < b && s[idx[c]] <= s[idx[a]] :: length[c] + 1 <= len
    {
      if s[idx[b]] <= s[idx[a]] && length[b] + 1 > len {
        assert Row(s, idx, length, prev, runs, b);
        len, p := length[b] + 1, b;
      }
    }
    RunsEndingAt(s, idx, length, prev, runs, a, len);
    if p >= 0 {
      assert Row(s, idx, length, prev, runs, p);
      RunExtends(s, runs[p], idx[a]);
    }
    TableGrows(s, idx, length, prev, runs, len, p, (if p < 0 then [] else runs[p]) + [idx[a]]);
  }

  lemma TableGrows(s: seq<int>, idx: seq<nat>, length: seq<int>, prev: seq<int>, runs: seq<seq<nat>>, len: int,
                   p: int, run: seq<nat>)
    requires Table(s, idx, length, prev, runs) && |runs| < |idx| && -1 <= p < |runs|
    requires run == (if p < 0 then [] else runs[p]) + [idx[|runs|]] && Longest(s, idx[|runs|], len, run)
    ensures Table(s, idx, length + [len], prev + [p], runs + [run])
  {
    var length', prev', runs' := length + [len], prev + [p], runs + [run];
    forall b | 0 <= b < |runs'|
      ensures Row(s, idx, length', prev', runs', b)
    {
      assert b < |runs| ==> Row(s, idx, length, prev, runs, b);
    }
  }

  lemma BestIsLongest(s: seq<int>, idx: seq<nat>, length: seq<int>, prev: seq<int>, runs: seq<seq<nat>>, best: nat)
    requires Indexes(s, idx, |s|) && Table(s, idx, length, prev, runs) && |runs| == |idx| && best < |runs|
    requires forall b | 0 <= b < |runs| :: length[b] <= length[best]
    ensures IsRun(s, runs[best]) && forall c | IsRun(s, c) :: |c| <= |runs[best]|
  {
    assert Row(s, idx, length, prev, runs, best);
    forall c | IsRun(s, c)
      ensures |c| <= |runs[best]|
    {
      if c != [] {
        var i := c[|c| - 1];
        assert i in idx;
        var b :| 0 <= b < |idx| && idx[b] == i;
        assert Row(s, idx, length, prev, runs, b);
      }
    }
  }

  /** `keep` is a run that no run outgrows. */
  ghost predicate KeepsLongest(s: seq<int>, keep: set<nat>) {
    exists run :: IsRun(s, run) && keep == (set i | i in run) && forall c | IsRun(s, c) :: |c| <= |run|
  }

  /** The members of a longest run, by following the links back from where it ends. */
  method KeepLongest(s: seq<int>, idx: seq<nat>) returns (keep: set<nat>, ghost run: seq<nat>)
    requires Indexes(s, idx, |s|) && idx != []
    ensures IsRun(s, run) && forall c | IsRun(s, c) :: |c| <= |run|
    ensures KeepsLongest(s, keep) && forall i :: i in keep <==> i in run
  {
    var length: seq<int>, prev: seq<int> := [], [];
    ghost var runs: seq<seq<nat>> := [];
    var best := 0;
    for a := 0 to |idx|
      invariant |runs| == a && Table(s, idx, length, prev, runs)
      invariant best <= a && (a > 0 ==> best < a)
      invariant forall b | 0 <= b < a :: length[b] <= length[best]
    {
      var len, p := FindLongest(s, idx, length, prev, runs, a);
      run := (if p < 0 then [] else runs[p]) + [idx[a]];
      length, prev, runs := length + [len], prev + [p], runs + [run];
      if length[a] > length[best] {
        best := a;
      }
    }
    run := runs[best];
    BestIsLongest(s, idx, length, prev, runs, best);
    keep := Follow(s, idx, length, prev, runs, best);
    assert keep == set i | i in run;
  }

  method Follow(ghost s: seq<int>, idx: seq<nat>, ghost length: seq<int>, prev: seq<int>, ghost runs: seq<seq<nat>>,
                best: nat)
    returns (keep: set<nat>)
    requires Table(s, idx, length, prev, runs) && best < |runs|
    ensures forall i :: i in keep <==> i in runs[best]
  {
    keep := {};
    var a: int := best;
    while a >= 0
      invariant -1 <= a < |runs|
      invariant forall i :: i in runs[best] <==> i in keep || (a >= 0 && i in runs[a])
      decreases a
    {
      assert Row(s, idx, length, prev, runs, a);
      keep := keep + {idx[a]};
      a := prev[a];
    }
  }

  /** The indexes of placed siblings outside the longest run; unplaced siblings are ignored. */
  method OutOfOrder(s: seq<int>) returns (out: seq<nat>)
    ensures Ascending(out) && forall i | i in out :: i < |s| && s[i] > 0
    ensures FewestCleared(s, ClearedAt(s, out))
  {
    var idx: seq<nat> := [];
    for i := 0 to |s|
      invariant Indexes(s, idx, i)
    {
      if s[i] > 0 {
        idx := idx + [i];
      }
    }
    if |idx| < 2 {
      FewPlaced(s, idx);
      return [];
    }
    var keep, run := KeepLongest(s, idx);
    out := Outside(idx, keep);
    LongestRunIsFewest(s, run, out);
  }

  method Outside(idx: seq<nat>, keep: set<nat>) returns (out: seq<nat>)
    requires Ascending(idx)
    ensures Ascending(out) && forall i :: i in out <==> i in idx && i !in keep
  {
    out := [];
    for k := 0 to |idx|
      invariant Ascending(out) && (k < |idx| ==> forall j | 0 <= j < |out| :: out[j] < idx[k])
      invariant forall i :: i in out <==> i in idx[..k] && i !in keep
    {
      if idx[k] !in keep {
        out := out + [idx[k]];
      }
    }
    assert idx[..|idx|] == idx;
  }

  lemma FewPlaced(s: seq<int>, idx: seq<nat>)
    requires Indexes(s, idx, |s|) && |idx| < 2
    ensures FewestCleared(s, ClearedAt(s, []))
  {
    assert ClearedAt(s, []) == s;
    assert InOrder(s);
    forall u | Clears(s, u) && InOrder(u)
      ensures Count(u) <= Count(s)
    {
      KeptIsRun(s, u);
      ChoiceFits(s, PlacedAt(u));
    }
  }
}
