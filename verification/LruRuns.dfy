/** What a user of the cache may rely on, over any sequence of calls at any times. */
module LruRuns {
  import opened Wrappers
  import opened Lru

  datatype Op<+V> = Get(key: string) | Set(key: string, value: V, ttl: int) | Delete(key: string) | Clear

  datatype Event<+V> = Event(op: Op<V>, now: int)

  function Step<V>(s: State<V>, max: nat, e: Event<V>): State<V>
    requires max >= 1
  {
    match e.op
    case Get(k) => Got(s, k, e.now).0
    case Set(_, _, _) => Put(s, max, Made(e))
    case Delete(k) => Deleted(s, k)
    case Clear => s.(entries := [])
  }

  /** The entry that a call of Set writes. */
  function Made<V>(e: Event<V>): (it: Item<V>)
    requires e.op.Set?
    ensures it.key == e.op.key
  {
    Item(e.op.key, e.op.value, Expiry(e.now, e.op.ttl))
  }

  function Run<V>(s: State<V>, max: nat, events: seq<Event<V>>): State<V>
    requires max >= 1
  {
    if events == [] then s else Step(Run(s, max, events[..|events| - 1]), max, events[|events| - 1])
  }

  // ---------------------------------------------------------------- what every state satisfies

  ghost predicate Sound<V>(s: State<V>, max: nat) { Unique(s.entries) && |s.entries| <= max }

  lemma FrontSound<V>(s: seq<Item<V>>, e: Item<V>)
    requires Unique(s)
    ensures Unique([e] + Without(s, e.key)) && |Without(s, e.key)| == |s| - if Has(s, e.key) then 1 else 0
  {
    WithoutUnique(s, e.key);
    WithoutFacts(s, e.key);
    UniqueCons(e, Without(s, e.key));
  }

  lemma StepSound<V>(s: State<V>, max: nat, e: Event<V>)
    requires max >= 1 && Sound(s, max)
    ensures Sound(Step(s, max, e), max)
  {
    match e.op
    case Get(k) =>
      if Has(s.entries, k) {
        FrontSound(s.entries, Find(s.entries, k));
        WithoutUnique(s.entries, k);
      }
    case Set(k, _, _) =>
      var it := Made(e);
      if Has(s.entries, k) {
        FrontSound(s.entries, it);
      } else {
        HasMember(s.entries, k);
        HasMember(RoomMade(s, max).entries, k);
        UniqueCons(it, RoomMade(s, max).entries);
      }
    case Delete(k) => WithoutUnique(s.entries, k);
    case Clear =>
  }

  lemma {:induction false} RunSound<V>(s: State<V>, max: nat, events: seq<Event<V>>)
    requires max >= 1 && Sound(s, max)
    ensures Sound(Run(s, max, events), max)
    decreases |events|
  {
    if events != [] {
      RunSound(s, max, events[..|events| - 1]);
      StepSound(Run(s, max, events[..|events| - 1]), max, events[|events| - 1]);
    }
  }

  // ---------------------------------------------------------------- the counters

  function Lookups<V>(events: seq<Event<V>>): nat {
    if events == [] then 0
    else Lookups(events[..|events| - 1]) + if events[|events| - 1].op.Get? then 1 else 0
  }

  /** The cache holds an entry under the key whose time is not up. */
  predicate Live<V>(s: State<V>, key: string, now: int) {
    exists i :: 0 <= i < |s.entries| && s.entries[i].key == key && now <= s.entries[i].expiresAt
  }

  /** The lookups that found such an entry. */
  function Found<V>(max: nat, events: seq<Event<V>>): nat
    requires max >= 1
  {
    if events == [] then 0
    else
      var before, e := events[..|events| - 1], events[|events| - 1];
      Found(max, before) + if e.op.Get? && Live(Run(Empty(), max, before), e.op.key, e.now) then 1 else 0
  }

  lemma GotIsLive<V>(s: State<V>, max: nat, key: string, now: int)
    requires Sound(s, max)
    ensures var (s', r) := Got(s, key, now);
            && (r.Some? <==> Live(s, key, now))
            && s'.hits == s.hits + (if Live(s, key, now) then 1 else 0)
            && s'.misses == s.misses + (if Live(s, key, now) then 0 else 1)
  {
    HasMember(s.entries, key);
    if Has(s.entries, key) {
      var e := Find(s.entries, key);
      var i :| 0 <= i < |s.entries| && s.entries[i] == e;
      assert forall j | 0 <= j < |s.entries| && s.entries[j].key == key :: j == i;
    }
  }

  /** Hits are the lookups that found a live entry, misses the others. */
  lemma {:induction false} HitsAreFound<V>(max: nat, events: seq<Event<V>>)
    requires max >= 1
    ensures var s := Run(Empty(), max, events);
            s.hits == Found(max, events) && s.misses == Lookups(events) - Found(max, events)
    decreases |events|
  {
    if events != [] {
      var before, e := events[..|events| - 1], events[|events| - 1];
      HitsAreFound(max, before);
      var s := Run(Empty<V>(), max, before);
      RunSound(Empty<V>(), max, before);
      if e.op.Get? {
        GotIsLive(s, max, e.op.key, e.now);
      }
    }
  }

  /** Entries made: calls of Set with a key the cache did not hold. */
  function Inserts<V>(max: nat, events: seq<Event<V>>): nat
    requires max >= 1
  {
    if events == [] then 0
    else
      var before, op := events[..|events| - 1], events[|events| - 1].op;
      Inserts(max, before) + if op.Set? && !Has(Run(Empty(), max, before).entries, op.key) then 1 else 0
  }

  /** Entries thrown away by Clear, which no counter sees. */
  function Cleared<V>(max: nat, events: seq<Event<V>>): nat
    requires max >= 1
  {
    if events == [] then 0
    else
      var before := events[..|events| - 1];
      Cleared(max, before) + if events[|events| - 1].op.Clear? then |Run(Empty(), max, before).entries| else 0
  }

  /** Every lookup is a hit or a miss; every entry made is still there, was counted as evicted (for want
      of room, by expiry or by Delete), or was cleared. */
  lemma {:induction false} CountersBalance<V>(max: nat, events: seq<Event<V>>)
    requires max >= 1
    ensures var s := Run(Empty(), max, events);
            && s.hits + s.misses == Lookups(events)
            && Inserts(max, events) == |s.entries| + s.evictions + Cleared(max, events)
    decreases |events|
  {
    if events != [] {
      var before, e := events[..|events| - 1], events[|events| - 1];
      CountersBalance(max, before);
      var s := Run(Empty<V>(), max, before);
      RunSound(Empty<V>(), max, before);
      if !e.op.Clear? {
        WithoutUnique(s.entries, e.op.key);
      }
    }
  }

  // ---------------------------------------------------------------- values

  /** What was last written under a key and until when it holds, if that was not taken back. */
  function Written<V>(events: seq<Event<V>>, key: string): Option<(V, int)> {
    if events == [] then None
    else
      var e := events[|events| - 1];
      match e.op
      case Set(k, v, ttl) => if k == key then Some((v, Expiry(e.now, ttl))) else Written(events[..|events| - 1], key)
      case Delete(k) => if k == key then None else Written(events[..|events| - 1], key)
      case Clear => None
      case Get(_) => Written(events[..|events| - 1], key)
  }

  ghost predicate AsWritten<V>(s: seq<Item<V>>, events: seq<Event<V>>) {
    forall it | it in s :: Written(events, it.key) == Some((it.value, it.expiresAt))
  }

  /** An entry after a call is the one just written, or was there before and was not the call's to take. */
  lemma StepSource<V>(s: State<V>, max: nat, e: Event<V>, it: Item<V>)
    requires max >= 1 && it in Step(s, max, e).entries && !e.op.Clear?
    ensures if e.op.Set? && it.key == e.op.key then it == Made(e)
            else it in s.entries && !(e.op.Delete? && it.key == e.op.key)
  {
    WithoutFacts(s.entries, e.op.key);
    HasMember(s.entries, it.key);
  }

  lemma {:induction false} EntriesAsWritten<V>(max: nat, events: seq<Event<V>>)
    requires max >= 1
    ensures AsWritten(Run(Empty(), max, events).entries, events)
    decreases |events|
  {
    if events != [] {
      var before, e := events[..|events| - 1], events[|events| - 1];
      var s := Run(Empty<V>(), max, before);
      EntriesAsWritten(max, before);
      forall it | it in Step(s, max, e).entries
        ensures Written(events, it.key) == Some((it.value, it.expiresAt))
      {
        StepSource(s, max, e, it);
      }
    }
  }

  /** A value that Get returns is the one last written under the key, and has not expired. */
  lemma HitIsLastWritten<V>(max: nat, events: seq<Event<V>>, key: string, now: int, v: V)
    requires max >= 1 && Got(Run(Empty(), max, events), key, now).1 == Some(v)
    ensures exists until :: Written(events, key) == Some((v, until)) && now <= until
  {
    EntriesAsWritten(max, events);
    var e := Find(Run(Empty<V>(), max, events).entries, key);
    assert Written(events, key) == Some((v, e.expiresAt));
  }

  // ---------------------------------------------------------------- what Set makes room with

  /** What a Set of a key at time `now` leaves of the entries before it. */
  function Survivors<V>(s: seq<Item<V>>, max: nat, key: string): (r: seq<Item<V>>)
    requires max >= 1
  {
    if Has(s, key) then Without(s, key) else if |s| < max then s else s[..max - 1]
  }

  /** Set loses, for a new key, exactly the entries beyond the most recent max - 1, and for a key already
      there no other: whether they have expired plays no part. */
  lemma SetLosesTheOldest<V>(s: State<V>, max: nat, e: Event<V>, i: nat)
    requires max >= 1 && Sound(s, max) && e.op.Set? && i < |s.entries| && s.entries[i].key != e.op.key
    ensures Step(s, max, e).entries == [Made(e)] + Survivors(s.entries, max, e.op.key)
    ensures Has(Step(s, max, e).entries, s.entries[i].key) <==> Has(s.entries, e.op.key) || i < max - 1
  {
    var it, r := s.entries[i], Survivors(s.entries, max, e.op.key);
    HasCons(Made(e), r, it.key);
    HasMember(s.entries, it.key);
    if Has(s.entries, e.op.key) {
      HasWithout(s.entries, e.op.key, it.key);
    } else {
      HasMember(r, it.key);
      if i < max - 1 {
        assert i < |r| && r[i] == it;
      }
    }
  }

  /** So Set leaves no other entry expired exactly when none was expired among those it has no need to
      lose; it drops none for being expired. */
  lemma SetDropsNoneForExpiry<V>(s: State<V>, max: nat, e: Event<V>)
    requires max >= 1 && Sound(s, max) && e.op.Set?
    ensures (forall it | it in Step(s, max, e).entries && it.key != e.op.key :: e.now <= it.expiresAt)
            <==> forall i | 0 <= i < |s.entries| && s.entries[i].key != e.op.key
                            && (Has(s.entries, e.op.key) || i < max - 1) :: e.now <= s.entries[i].expiresAt
  {
    var after := Step(s, max, e).entries;
    WithoutFacts(s.entries, e.op.key);
    forall i | 0 <= i < |s.entries| && s.entries[i].key != e.op.key && (Has(s.entries, e.op.key) || i < max - 1)
      ensures s.entries[i] in after
    {
      SetKeeps(s, max, e, i);
    }
    forall it | it in after && it.key != e.op.key
      ensures exists i :: 0 <= i < |s.entries| && s.entries[i] == it && (Has(s.entries, e.op.key) || i < max - 1)
    {
      assert after == [Made(e)] + Survivors(s.entries, max, e.op.key);
      var i := FromSurvivors(s.entries, max, e.op.key, it);
    }
  }

  lemma FromSurvivors<V>(s: seq<Item<V>>, max: nat, key: string, it: Item<V>) returns (i: nat)
    requires max >= 1 && it in Survivors(s, max, key)
    ensures i < |s| && s[i] == it && (Has(s, key) || i < max - 1)
  {
    WithoutFacts(s, key);
    if Has(s, key) {
      i :| i < |s| && s[i] == it;
    } else {
      var r := Survivors(s, max, key);
      i :| i < |r| && r[i] == it;
    }
  }

  lemma SetKeeps<V>(s: State<V>, max: nat, e: Event<V>, i: nat)
    requires max >= 1 && Sound(s, max) && e.op.Set? && i < |s.entries| && s.entries[i].key != e.op.key
    requires Has(s.entries, e.op.key) || i < max - 1
    ensures s.entries[i] in Step(s, max, e).entries
  {
    WithoutFacts(s.entries, e.op.key);
    var r := Survivors(s.entries, max, e.op.key);
    if !Has(s.entries, e.op.key) {
      assert r[i] == s.entries[i];
    }
    assert s.entries[i] in r;
  }

  /** Two calls fill an empty cache of two, and a moment later the entry in front is expired and the last one
      live: the next Set evicts the live one and keeps the expired one. */
  lemma SetKeepsTheExpired(now: int)
    ensures var b, a := Event(Set("b", 2, 2), now - 1), Event(Set("a", 1, 0), now - 1);
            && Run(Empty(), 2, [b, a]).entries == [Item("a", 1, now - 1), Item("b", 2, now + 1)]
            && Run(Empty(), 2, [b, a, Event(Set("c", 3, 1), now)]).entries
               == [Item("c", 3, now + 1), Item("a", 1, now - 1)]
  {
    var b, a, c := Event(Set("b", 2, 2), now - 1), Event(Set("a", 1, 0), now - 1), Event(Set("c", 3, 1), now);
    assert [] + [b] == [b] && [b] + [a] == [b, a] && [b, a] + [c] == [b, a, c];
    RunSnoc([], b);
    RunSnoc([b], a);
    RunSnoc([b, a], c);
    HasMember(Run(Empty(), 2, [b]).entries, "a");
    HasMember(Run(Empty(), 2, [b, a]).entries, "c");
    assert Run(Empty(), 2, [b, a]).entries[..1] == [Item("a", 1, now - 1)];
  }

  lemma RunSnoc(events: seq<Event<int>>, e: Event<int>)
    ensures Run(Empty(), 2, events + [e]) == Step(Run(Empty(), 2, events), 2, e)
  {
    assert (events + [e])[..|events|] == events;
  }

  // ---------------------------------------------------------------- what is lost, and when

  /** The entries ahead of a key in the list, or all of them if it is not there. */
  function Ahead<V>(s: seq<Item<V>>, key: string): (r: seq<Item<V>>)
    ensures r <= s
  {
    if s == [] || s[0].key == key then [] else [s[0]] + Ahead(s[1..], key)
  }

  lemma {:induction false} AheadFacts<V>(s: seq<Item<V>>, key: string)
    ensures !Has(Ahead(s, key), key) && (Has(s, key) <==> |Ahead(s, key)| < |s|)
    decreases |s|
  {
    if s != [] {
      AheadFacts(s[1..], key);
    }
  }

  lemma ConsAhead<V>(e: Item<V>, s: seq<Item<V>>, key: string)
    requires e.key != key
    ensures Ahead([e] + s, key) == [e] + Ahead(s, key) && Has([e] + s, key) == Has(s, key)
    ensures Has(s, key) ==> Find([e] + s, key) == Find(s, key)
  {
    HasCons(e, s, key);
    assert ([e] + s)[1..] == s;
  }

  /** Taking another key out, or some entries off the end, leaves the entries ahead in their order. */
  lemma {:induction false} AheadWithout<V>(s: seq<Item<V>>, key: string, other: string)
    requires key != other
    ensures Ahead(Without(s, other), key) == Without(Ahead(s, key), other)
    ensures Has(s, key) ==> Has(Without(s, other), key) && Find(Without(s, other), key) == Find(s, key)
    decreases |s|
  {
    if s != [] {
      AheadWithout(s[1..], key, other);
      if s[0].key == key {
        HasCons(s[0], Without(s[1..], other), key);
      } else {
        var ahead := Ahead(s[1..], key);
        assert ([s[0]] + ahead)[1..] == ahead;
        if s[0].key != other {
          ConsAhead(s[0], Without(s[1..], other), key);
        }
      }
    }
  }

  /** Where a key is first found. */
  ghost predicate FirstAt<V>(s: seq<Item<V>>, key: string, i: nat) {
    i < |s| && s[i].key == key && forall j | 0 <= j < i :: s[j].key != key
  }

  lemma {:induction false} AheadOfFirst<V>(s: seq<Item<V>>, key: string, i: nat)
    requires FirstAt(s, key, i)
    ensures Has(s, key) && Ahead(s, key) == s[..i] && Find(s, key) == s[i]
    decreases i
  {
    if i > 0 {
      AheadOfFirst(s[1..], key, i - 1);
      assert s[..i] == [s[0]] + s[1..][..i - 1];
    }
  }

  lemma {:induction false} FirstFound<V>(s: seq<Item<V>>, key: string)
    requires Has(s, key)
    ensures FirstAt(s, key, |Ahead(s, key)|)
    decreases |s|
  {
    if s[0].key != key {
      FirstFound(s[1..], key);
    }
  }

  lemma AheadTake<V>(s: seq<Item<V>>, r: seq<Item<V>>, key: string)
    requires r <= s && |Ahead(s, key)| < |r| && Has(s, key)
    ensures Has(r, key) && Ahead(r, key) == Ahead(s, key) && Find(r, key) == Find(s, key)
  {
    var i := |Ahead(s, key)|;
    FirstFound(s, key);
    AheadOfFirst(s, key, i);
    AheadOfFirst(r, key, i);
    assert r[..i] == s[..i];
  }

  lemma {:induction false} KeysCount<V>(s: seq<Item<V>>)
    requires Unique(s)
    ensures |Keys(s)| == |s|
    decreases |s|
  {
    if s != [] {
      KeysCount(s[1..]);
      assert Keys(s) == {s[0].key} + Keys(s[1..]);
      assert s[0].key !in Keys(s[1..]);
    }
  }

  /** A call that neither names the key nor clears the cache. */
  predicate Spares<V>(op: Op<V>, key: string) { !op.Clear? && op.key != key }

  /** The key a call makes the most recent one, if it does: written, or found and not expired. */
  function TouchedBy<V>(s: State<V>, e: Event<V>): set<string> {
    match e.op
    case Set(k, _, _) => {k}
    case Get(k) => if Got(s, k, e.now).1.Some? then {k} else {}
    case _ => {}
  }

  function Touched<V>(s: State<V>, max: nat, events: seq<Event<V>>): set<string>
    requires max >= 1
  {
    if events == [] then {}
    else
      var before := events[..|events| - 1];
      Touched(s, max, before) + TouchedBy(Run(s, max, before), events[|events| - 1])
  }

  /** Whether a call takes out an entry other than for want of room. */
  predicate TakesOut<V>(s: State<V>, e: Event<V>) {
    match e.op
    case Delete(k) => Has(s.entries, k)
    case Get(k) => Has(s.entries, k) && e.now > Find(s.entries, k).expiresAt
    case Set(_, _, _) => false
    case Clear => s.entries != []
  }

  predicate NothingTakenOut<V>(s: State<V>, max: nat, events: seq<Event<V>>)
    requires max >= 1
  {
    events == [] ||
    (var before := events[..|events| - 1];
     NothingTakenOut(s, max, before) && !TakesOut(Run(s, max, before), events[|events| - 1]))
  }

  /** The entry `it` is still there, and every key ahead of it is among `touched` (and no other is, if
      nothing was taken out); or it is lost, and `touched` has at least as many keys as the cache
      holds. */
  ghost predicate Standing<V>(s: seq<Item<V>>, max: nat, it: Item<V>, touched: set<string>, exact: bool) {
    if Has(s, it.key) then Kept(s, it, touched, exact) else |touched| >= max
  }

  ghost predicate Kept<V>(s: seq<Item<V>>, it: Item<V>, touched: set<string>, exact: bool)
    requires Has(s, it.key)
  {
    var ahead := Keys(Ahead(s, it.key));
    Find(s, it.key) == it && ahead <= touched && (exact ==> ahead == touched)
  }

  lemma KeysMember<V>(s: seq<Item<V>>, key: string)
    ensures key in Keys(s) <==> Has(s, key)
  {
    HasMember(s, key);
  }

  lemma KeysWithout<V>(s: seq<Item<V>>, key: string)
    ensures Keys(Without(s, key)) == Keys(s) - {key}
  {
    forall k
      ensures k in Keys(Without(s, key)) <==> k in Keys(s) - {key}
    {
      KeysMember(s, k);
      KeysMember(Without(s, key), k);
      HasWithout(s, key, k);
    }
  }

  lemma AheadCons<V>(e: Item<V>, s: seq<Item<V>>, key: string)
    requires e.key != key
    ensures Keys(Ahead([e] + s, key)) == {e.key} + Keys(Ahead(s, key))
    ensures |Ahead([e] + s, key)| == 1 + |Ahead(s, key)|
  {
    var r := Ahead(s, key);
    assert ([e] + s)[1..] == s && Ahead([e] + s, key) == [e] + r;
    assert forall i | 0 <= i < |r| :: ([e] + r)[i + 1] == r[i];
    assert ([e] + r)[0] == e;
  }

  lemma Grows(touched: set<string>, key: string)
    ensures |touched + {key}| >= |touched|
  {
    if key in touched {
      assert touched + {key} == touched;
    }
  }

  /** Another entry moves to the front, from wherever it was. */
  lemma FrontStanding<V>(s: seq<Item<V>>, max: nat, it: Item<V>, touched: set<string>, exact: bool, e: Item<V>)
    requires Standing(s, max, it, touched, exact) && e.key != it.key
    ensures Standing([e] + Without(s, e.key), max, it, touched + {e.key}, exact)
  {
    HasWithout(s, e.key, it.key);
    HasCons(e, Without(s, e.key), it.key);
    if Has(s, it.key) {
      AheadWithout(s, it.key, e.key);
      AheadCons(e, Without(s, e.key), it.key);
      KeysWithout(Ahead(s, it.key), e.key);
    } else {
      Grows(touched, e.key);
    }
  }

  /** Another entry is taken out. */
  lemma OutStanding<V>(s: seq<Item<V>>, max: nat, it: Item<V>, touched: set<string>, exact: bool, key: string)
    requires Standing(s, max, it, touched, exact) && key != it.key
    ensures Standing(Without(s, key), max, it, touched, exact && !Has(s, key))
  {
    WithoutFacts(s, key);
    HasWithout(s, key, it.key);
    if Has(s, it.key) {
      AheadWithout(s, it.key, key);
      KeysWithout(Ahead(s, it.key), key);
    }
  }

  lemma {:induction false} HasPrefix<V>(s: seq<Item<V>>, n: nat, key: string)
    requires n <= |s|
    ensures Has(s[..n], key) <==> |Ahead(s, key)| < n
    decreases n
  {
    if n > 0 && s[0].key != key {
      HasPrefix(s[1..], n - 1, key);
      assert s[..n][1..] == s[1..][..n - 1];
    }
  }

  lemma SubsetSize<T>(a: set<T>, b: set<T>)
    requires a <= b
    ensures |a| <= |b|
  {
    assert b == a + (b - a);
  }

  lemma OneMore(ahead: set<string>, touched: set<string>, key: string)
    requires ahead <= touched && key !in ahead
    ensures |touched + {key}| > |ahead|
  {
    SubsetSize(ahead + {key}, touched + {key});
  }

  /** The last entry of a full cache gives way to a new key: all the others were touched, and the new
      key makes one more. */
  lemma LastGivesWay<V>(s: seq<Item<V>>, max: nat, it: Item<V>, touched: set<string>, exact: bool, key: string)
    requires Unique(s) && |s| == max && Has(s, it.key) && Kept(s, it, touched, exact)
    requires |Ahead(s, it.key)| >= max - 1 && !Has(s, key)
    ensures |touched + {key}| >= max
  {
    var ahead := Ahead(s, it.key);
    KeysCount(ahead);
    HasMember(s, key);
    assert key !in Keys(ahead);
    OneMore(Keys(ahead), touched, key);
  }

  lemma PrefixKeeps<V>(s: seq<Item<V>>, r: seq<Item<V>>, it: Item<V>, touched: set<string>, exact: bool)
    requires r <= s && Has(s, it.key) && Kept(s, it, touched, exact) && |Ahead(s, it.key)| < |r|
    ensures Has(r, it.key) && Kept(r, it, touched, exact)
  {
    AheadTake(s, r, it.key);
    KeptAhead(s, r, it, touched, exact);
  }

  /** Room is made for a new entry. */
  lemma RoomStanding<V>(s: seq<Item<V>>, max: nat, it: Item<V>, touched: set<string>, exact: bool, key: string)
    requires Unique(s) && |s| == max >= 1 && Standing(s, max, it, touched, exact) && !Has(s, key)
    ensures var r := s[..max - 1];
            if Has(r, it.key) then Kept(r, it, touched, exact) else |touched + {key}| >= max
  {
    HasPrefix(s, max - 1, it.key);
    AheadFacts(s, it.key);
    if !Has(s, it.key) {
      Grows(touched, key);
    } else if |Ahead(s, it.key)| < max - 1 {
      PrefixKeeps(s, s[..max - 1], it, touched, exact);
    } else {
      LastGivesWay(s, max, it, touched, exact, key);
    }
  }

  lemma KeptAhead<V>(s: seq<Item<V>>, r: seq<Item<V>>, it: Item<V>, touched: set<string>, exact: bool)
    requires Has(s, it.key) && Has(r, it.key) && Ahead(r, it.key) == Ahead(s, it.key)
             && Find(r, it.key) == Find(s, it.key)
    requires Kept(s, it, touched, exact)
    ensures Kept(r, it, touched, exact)
  {
  }

  lemma AddStanding<V>(s: seq<Item<V>>, max: nat, it: Item<V>, touched: set<string>, exact: bool, e: Item<V>)
    requires Unique(s) && |s| <= max && max >= 1 && Standing(s, max, it, touched, exact) && e.key != it.key
             && !Has(s, e.key)
    ensures var r := if |s| < max then s else s[..max - 1];
            Standing([e] + r, max, it, touched + {e.key}, exact)
  {
    if |s| < max {
      WithoutFacts(s, e.key);
      FrontStanding(s, max, it, touched, exact, e);
    } else {
      var r := s[..max - 1];
      RoomStanding(s, max, it, touched, exact, e.key);
      if Has(r, it.key) {
        HasMember(s, e.key);
        HasMember(r, e.key);
        WithoutFacts(r, e.key);
        FrontStanding(r, max, it, touched, exact, e);
      } else {
        HasCons(e, r, it.key);
      }
    }
  }

  lemma GetStanding<V>(s: State<V>, max: nat, it: Item<V>, touched: set<string>, exact: bool, e: Event<V>)
    requires max >= 1 && Standing(s.entries, max, it, touched, exact) && e.op.Get? && e.op.key != it.key
    ensures Standing(Step(s, max, e).entries, max, it, touched + TouchedBy(s, e), exact && !TakesOut(s, e))
  {
    var k := e.op.key;
    if !Has(s.entries, k) {
      assert TouchedBy(s, e) == {} && touched + {} == touched;
    } else if e.now > Find(s.entries, k).expiresAt {
      assert TouchedBy(s, e) == {} && touched + {} == touched;
      OutStanding(s.entries, max, it, touched, exact, k);
    } else {
      FrontStanding(s.entries, max, it, touched, exact, Find(s.entries, k));
    }
  }

  lemma SetStanding<V>(s: State<V>, max: nat, it: Item<V>, touched: set<string>, exact: bool, e: Event<V>)
    requires max >= 1 && Sound(s, max) && Standing(s.entries, max, it, touched, exact) && e.op.Set?
             && e.op.key != it.key
    ensures Standing(Step(s, max, e).entries, max, it, touched + TouchedBy(s, e), exact && !TakesOut(s, e))
  {
    var it' := Made(e);
    if Has(s.entries, it'.key) {
      FrontStanding(s.entries, max, it, touched, exact, it');
    } else {
      AddStanding(s.entries, max, it, touched, exact, it');
    }
  }

  lemma DeleteStanding<V>(s: State<V>, max: nat, it: Item<V>, touched: set<string>, exact: bool, e: Event<V>)
    requires max >= 1 && Standing(s.entries, max, it, touched, exact) && e.op.Delete? && e.op.key != it.key
    ensures Standing(Step(s, max, e).entries, max, it, touched + TouchedBy(s, e), exact && !TakesOut(s, e))
  {
    assert TouchedBy(s, e) == {} && touched + {} == touched;
    WithoutFacts(s.entries, e.op.key);
    OutStanding(s.entries, max, it, touched, exact, e.op.key);
  }

  lemma StandingStep<V>(s: State<V>, max: nat, it: Item<V>, touched: set<string>, exact: bool, e: Event<V>)
    requires max >= 1 && Sound(s, max) && Standing(s.entries, max, it, touched, exact) && Spares(e.op, it.key)
    ensures Standing(Step(s, max, e).entries, max, it, touched + TouchedBy(s, e), exact && !TakesOut(s, e))
  {
    match e.op
    case Get(_) => GetStanding(s, max, it, touched, exact, e);
    case Set(_, _, _) => SetStanding(s, max, it, touched, exact, e);
    case Delete(_) => DeleteStanding(s, max, it, touched, exact, e);
  }

  lemma {:induction false} StandingRun<V>(s: State<V>, max: nat, it: Item<V>, events: seq<Event<V>>)
    requires max >= 1 && Sound(s, max) && s.entries != [] && s.entries[0] == it
    requires forall e | e in events :: Spares(e.op, it.key)
    ensures Standing(Run(s, max, events).entries, max, it, Touched(s, max, events), NothingTakenOut(s, max, events))
    decreases |events|
  {
    if events != [] {
      var before, e := events[..|events| - 1], events[|events| - 1];
      StandingRun(s, max, it, before);
      RunSound(s, max, before);
      StandingStep(Run(s, max, before), max, it, Touched(s, max, before), NothingTakenOut(s, max, before), e);
    }
  }

  /** The entry `it` was just touched, so it is in front, and no call since names its key or clears the
      cache. It is lost only once at least as many other keys were touched as the cache has room for;
      and then it is lost for certain, if no entry was deleted or expired in between. */
  lemma LostOnlyToRecentKeys<V>(s: State<V>, max: nat, it: Item<V>, since: seq<Event<V>>)
    requires max >= 1 && Sound(s, max) && s.entries != [] && s.entries[0] == it
    requires forall e | e in since :: Spares(e.op, it.key)
    ensures var kept := Has(Run(s, max, since).entries, it.key);
            && (!kept ==> |Touched(s, max, since)| >= max)
            && (NothingTakenOut(s, max, since) ==> (kept <==> |Touched(s, max, since)| < max))
            && (kept ==> Find(Run(s, max, since).entries, it.key) == it)
  {
    StandingRun(s, max, it, since);
    RunSound(s, max, since);
    var r := Run(s, max, since).entries;
    if Has(r, it.key) {
      var ahead := Ahead(r, it.key);
      AheadFacts(r, it.key);
      KeysCount(ahead);
    }
  }

  /** A value written, and touched again by any later lookups that found it, is found until it expires,
      as long as fewer other keys were touched since than the cache has room for. */
  lemma RecentValueIsFound<V>(max: nat, before: seq<Event<V>>, touch: Event<V>, since: seq<Event<V>>, key: string,
                              now: int)
    requires max >= 1 && !touch.op.Clear? && touch.op.key == key
    requires TouchedBy(Run(Empty(), max, before), touch) == {key} && forall e | e in since :: Spares(e.op, key)
    requires var s := Run(Empty(), max, before + [touch]); |Touched(s, max, since)| < max
    ensures Written(before + [touch], key).Some?
    ensures var (v, until) := Written(before + [touch], key).value;
            now <= until ==> Got(Run(Run(Empty(), max, before + [touch]), max, since), key, now).1 == Some(v)
  {
    var events := before + [touch];
    assert events[..|events| - 1] == before;
    var s := Run(Empty<V>(), max, events);
    RunSound(Empty<V>(), max, events);
    EntriesAsWritten(max, events);
    assert s.entries[0].key == key;
    LostOnlyToRecentKeys(s, max, s.entries[0], since);
  }
}
