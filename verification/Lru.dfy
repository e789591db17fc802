/** The query cache: a map and a list of shared entries (pkg/cache) that together behave as one list of
    entries, most recently used first. Times are nanoseconds. */
module Lru {
  import opened Wrappers

  datatype Item<+V> = Item(key: string, value: V, expiresAt: int)

  /** The cache as a list, front to back, with its counters. */
  datatype State<+V> = State(entries: seq<Item<V>>, hits: nat, misses: nat, evictions: nat)

  // ---------------------------------------------------------------- lists of entries

  predicate Has<V>(s: seq<Item<V>>, key: string) {
    s != [] && (s[0].key == key || Has(s[1..], key))
  }

  lemma {:induction false} HasMember<V>(s: seq<Item<V>>, key: string)
    ensures Has(s, key) <==> exists e :: e in s && e.key == key
    ensures Has(s, key) <==> exists i :: 0 <= i < |s| && s[i].key == key
    decreases |s|
  {
    if s != [] {
      HasMember(s[1..], key);
      assert s == [s[0]] + s[1..];
    }
  }

  function Find<V>(s: seq<Item<V>>, key: string): (e: Item<V>)
    requires Has(s, key)
    ensures e in s && e.key == key
  {
    if s[0].key == key then s[0] else Find(s[1..], key)
  }

  function Without<V>(s: seq<Item<V>>, key: string): seq<Item<V>> {
    if s == [] then []
    else if s[0].key == key then Without(s[1..], key)
    else [s[0]] + Without(s[1..], key)
  }

  ghost predicate Unique<V>(s: seq<Item<V>>) {
    forall i, j | 0 <= i < j < |s| :: s[i].key != s[j].key
  }

  function Keys<V>(s: seq<Item<V>>): set<string> {
    set i | 0 <= i < |s| :: s[i].key
  }

  lemma {:induction false} WithoutFacts<V>(s: seq<Item<V>>, key: string)
    ensures forall e :: e in Without(s, key) <==> e in s && e.key != key
    ensures !Has(Without(s, key), key)
    ensures !Has(s, key) ==> Without(s, key) == s
    decreases |s|
  {
    if s != [] {
      WithoutFacts(s[1..], key);
      assert s == [s[0]] + s[1..];
      HasCons(s[0], Without(s[1..], key), key);
    }
  }

  lemma HasCons<V>(e: Item<V>, s: seq<Item<V>>, key: string)
    ensures Has([e] + s, key) <==> e.key == key || Has(s, key)
    ensures Has(s, key) && e.key != key ==> Find([e] + s, key) == Find(s, key)
  {
    assert ([e] + s)[1..] == s;
  }

  lemma {:induction false} HasWithout<V>(s: seq<Item<V>>, key: string, other: string)
    ensures Has(Without(s, key), other) <==> other != key && Has(s, other)
    decreases |s|
  {
    if s != [] {
      HasWithout(s[1..], key, other);
      HasCons(s[0], Without(s[1..], key), other);
    }
  }

  lemma {:induction false} WithoutUnique<V>(s: seq<Item<V>>, key: string)
    requires Unique(s)
    ensures Unique(Without(s, key)) && |Without(s, key)| == |s| - if Has(s, key) then 1 else 0
    decreases |s|
  {
    if s != [] {
      var rest := s[1..];
      WithoutUnique(rest, key);
      HasMember(rest, s[0].key);
      if s[0].key == key {
        WithoutFacts(rest, key);
      } else {
        HasWithout(rest, key, s[0].key);
        UniqueCons(s[0], Without(rest, key));
      }
    }
  }

  lemma UniqueCons<V>(e: Item<V>, s: seq<Item<V>>)
    requires Unique(s) && !Has(s, e.key)
    ensures Unique([e] + s)
  {
    HasMember(s, e.key);
  }

  lemma {:induction false} WithoutConcat<V>(a: seq<Item<V>>, b: seq<Item<V>>, key: string)
    ensures Without(a + b, key) == Without(a, key) + Without(b, key)
    decreases |a|
  {
    if a == [] {
      assert a + b == b;
    } else {
      assert (a + b)[1..] == a[1..] + b;
      WithoutConcat(a[1..], b, key);
    }
  }

  // ---------------------------------------------------------------- what each operation does

  function Empty<V>(): State<V> { State([], 0, 0, 0) }

  function Got<V>(s: State<V>, key: string, now: int): (State<V>, Option<V>) {
    if !Has(s.entries, key) then (s.(misses := s.misses + 1), None)
    else
      var e := Find(s.entries, key);
      if now > e.expiresAt then
        (s.(entries := Without(s.entries, key), misses := s.misses + 1, evictions := s.evictions + 1), None)
      else
        (s.(entries := [e] + Without(s.entries, key), hits := s.hits + 1), Some(e.value))
  }

  function Put<V>(s: State<V>, max: nat, e: Item<V>): State<V>
    requires max >= 1
  {
    if Has(s.entries, e.key) then Renewed(s, e) else Added(s, max, e)
  }

  function Renewed<V>(s: State<V>, e: Item<V>): State<V> { s.(entries := [e] + Without(s.entries, e.key)) }

  function Added<V>(s: State<V>, max: nat, e: Item<V>): State<V>
    requires max >= 1
  {
    var r := RoomMade(s, max);
    r.(entries := [e] + r.entries)
  }

  /** The last entries gone, so that one more fits. */
  function RoomMade<V>(s: State<V>, max: nat): State<V>
    requires max >= 1
  {
    if |s.entries| < max then s
    else s.(entries := s.entries[..max - 1], evictions := s.evictions + (|s.entries| - (max - 1)))
  }

  function Deleted<V>(s: State<V>, key: string): State<V> {
    if Has(s.entries, key) then s.(entries := Without(s.entries, key), evictions := s.evictions + 1) else s
  }

  /** When an entry stored now expires. */
  function Expiry(now: int, ttl: int): int { now + ttl }

  // ---------------------------------------------------------------- the map and the list

  class Entry<V> {
    const key: string
    var value: V
    var expiresAt: int

    constructor (key: string, value: V, expiresAt: int)
      ensures this.key == key && this.value == value && this.expiresAt == expiresAt
    {
      this.key, this.value, this.expiresAt := key, value, expiresAt;
    }
  }

  function Drop<V>(order: seq<Entry<V>>, el: Entry<V>): (r: seq<Entry<V>>)
    ensures forall e :: e in r ==> e in order
  {
    if order == [] then []
    else if order[0] == el then Drop(order[1..], el)
    else [order[0]] + Drop(order[1..], el)
  }

  function ValuesOf<V>(order: seq<Entry<V>>): (s: seq<Item<V>>)
    reads order
    ensures |s| == |order| && forall i | 0 <= i < |s| :: s[i] == ValueOf(order[i])
  {
    seq(|order|, i requires 0 <= i < |order| reads order => ValueOf(order[i]))
  }

  ghost predicate Distinct<V>(order: seq<Entry<V>>) {
    forall i, j | 0 <= i < j < |order| :: order[i].key != order[j].key
  }

  lemma DistinctCons<V>(e: Entry<V>, order: seq<Entry<V>>)
    requires Distinct(order) && forall o | o in order :: o.key != e.key
    ensures Distinct([e] + order)
  {
  }

  /** The list holds distinct keys, and the map leads from each to its entry and holds no other. */
  ghost predicate Linked<V>(items: map<string, Entry<V>>, order: seq<Entry<V>>) {
    && Distinct(order)
    && (forall e | e in order :: e.key in items && items[e.key] == e)
    && (forall k | k in items :: items[k] in order && items[k].key == k)
  }

  lemma {:induction false} DropFacts<V>(order: seq<Entry<V>>, el: Entry<V>)
    requires Distinct(order)
    ensures forall e :: e in Drop(order, el) <==> e in order && e != el
    ensures Distinct(Drop(order, el)) && (el !in order ==> Drop(order, el) == order)
    decreases |order|
  {
    if order != [] {
      DropFacts(order[1..], el);
      assert order == [order[0]] + order[1..];
      if order[0] != el {
        DistinctCons(order[0], Drop(order[1..], el));
      }
    }
  }

  lemma {:induction false} DropValues<V>(order: seq<Entry<V>>, el: Entry<V>)
    requires Distinct(order) && el in order
    ensures ValuesOf(Drop(order, el)) == Without(ValuesOf(order), el.key)
    decreases |order|
  {
    var rest := order[1..];
    assert order == [order[0]] + rest && Distinct(rest);
    assert ValuesOf(order)[1..] == ValuesOf(rest);
    if order[0] == el {
      DropFacts(rest, el);
      assert el !in rest;
      HasMember(ValuesOf(rest), el.key);
      WithoutFacts(ValuesOf(rest), el.key);
    } else {
      DropValues(rest, el);
      ValuesCons(order[0], Drop(rest, el));
    }
  }

  lemma {:induction false} DropLength<V>(order: seq<Entry<V>>, el: Entry<V>)
    requires Distinct(order) && el in order
    ensures |Drop(order, el)| == |order| - 1
    decreases |order|
  {
    if order[0] == el {
      DropFacts(order[1..], el);
    } else {
      DropLength(order[1..], el);
    }
  }

  function ValueOf<V>(e: Entry<V>): Item<V>
    reads e
  {
    Item(e.key, e.value, e.expiresAt)
  }

  lemma ValuesCons<V>(e: Entry<V>, order: seq<Entry<V>>)
    ensures ValuesOf([e] + order) == [ValueOf(e)] + ValuesOf(order)
  {
  }

  lemma ListedKeys<V>(items: map<string, Entry<V>>, order: seq<Entry<V>>, key: string)
    requires Linked(items, order)
    ensures key in items <==> Has(ValuesOf(order), key)
  {
    HasMember(ValuesOf(order), key);
    if key in items {
      var i :| 0 <= i < |order| && order[i] == items[key];
      assert ValuesOf(order)[i].key == key;
    }
  }

  lemma EntryFound<V>(items: map<string, Entry<V>>, order: seq<Entry<V>>, key: string)
    requires Linked(items, order) && key in items
    ensures Has(ValuesOf(order), key) && Find(ValuesOf(order), key) == ValueOf(items[key])
  {
    ListedKeys(items, order, key);
    var i :| 0 <= i < |order| && order[i] == items[key];
    assert ValuesOf(order)[i].key == key;
  }

  class LRU<V> {
    const maxEntries: nat
    var items: map<string, Entry<V>>
    var order: seq<Entry<V>>
    var hits: nat
    var misses: nat
    var evictions: nat
    ghost var Repr: set<Entry<V>>  // every entry the cache ever made

    ghost predicate Valid()
      reads this
    {
      maxEntries >= 1 && |order| <= maxEntries && Linked(items, order) && forall e | e in order :: e in Repr
    }

    ghost function Abstract(): State<V>
      reads this, order
    {
      State(ValuesOf(order), hits, misses, evictions)
    }

    /** A capacity of zero or less is 1024. */
    constructor (max: int)
      ensures Valid() && Abstract() == Empty() && Repr == {}
      ensures maxEntries == if max <= 0 then 1024 else max
    {
      maxEntries := if max <= 0 then 1024 else max;
      items, order := map[], [];
      hits, misses, evictions := 0, 0, 0;
      Repr := {};
    }

    method RemoveElement(el: Entry<V>)
      requires Linked(items, order) && el in order
      modifies this`items, this`order, this`evictions
      ensures Linked(items, order) && items.Keys <= old(items.Keys) && (forall e | e in order :: e in old(order))
      ensures |order| == |old(order)| - 1
      ensures ValuesOf(order) == Without(old(ValuesOf(order)), el.key) && evictions == old(evictions) + 1
    {
      DropFacts(order, el);
      DropValues(order, el);
      DropLength(order, el);
      order := Drop(order, el);
      items := items - {el.key};
      evictions := evictions + 1;
    }

    method MoveToFront(el: Entry<V>)
      requires Linked(items, order) && el in order
      modifies this`order
      ensures Linked(items, order) && |order| == |old(order)| && forall e :: e in order <==> e in old(order)
      ensures order[0] == el && ValuesOf(order) == [ValueOf(el)] + Without(old(ValuesOf(order)), el.key)
    {
      var rest := Drop(order, el);
      DropFacts(order, el);
      DropValues(order, el);
      DropLength(order, el);
      DistinctCons(el, rest);
      ValuesCons(el, rest);
      order := [el] + rest;
    }

    method EvictOldest()
      requires Linked(items, order)
      modifies this`items, this`order, this`evictions
      ensures Linked(items, order) && items.Keys <= old(items.Keys) && (forall e | e in order :: e in old(order))
      ensures if old(order) == [] then unchanged(this)
              else ValuesOf(order) == old(ValuesOf(order)[..|order| - 1]) && evictions == old(evictions) + 1
    {
      if order == [] {
        return;
      }
      WithoutLast(ValuesOf(order));
      RemoveElement(order[|order| - 1]);
    }

    method Get(key: string, now: int) returns (r: Option<V>)
      requires Valid()
      modifies this
      ensures Valid() && (Abstract(), r) == Got(old(Abstract()), key, now)
      ensures Repr == old(Repr)
    {
      ListedKeys(items, order, key);
      if key !in items {
        misses := misses + 1;
        return None;
      }
      var el := items[key];
      EntryFound(items, order, key);
      r := GetListed(el, now);
    }

    method GetListed(el: Entry<V>, now: int) returns (r: Option<V>)
      requires Valid() && el in order && Has(ValuesOf(order), el.key) && Find(ValuesOf(order), el.key) == ValueOf(el)
      modifies this
      ensures Valid() && (Abstract(), r) == Got(old(Abstract()), el.key, now)
      ensures Repr == old(Repr)
    {
      if now > el.expiresAt {
        RemoveElement(el);
        misses := misses + 1;
        return None;
      }
      MoveToFront(el);
      hits := hits + 1;
      r := Some(el.value);
    }

    method Set(key: string, value: V, ttl: int, now: int)
      requires Valid()
      modifies this, Repr
      ensures Valid() && Abstract() == Put(old(Abstract()), maxEntries, Item(key, value, Expiry(now, ttl)))
      ensures fresh(Repr - old(Repr))
    {
      var expiresAt := Expiry(now, ttl);
      if key in items {
        Update(key, value, expiresAt);
      } else {
        Add(key, value, expiresAt);
      }
    }

    method Update(key: string, value: V, expiresAt: int)
      requires Valid() && key in items
      modifies this`order, Repr
      ensures Valid() && Abstract() == Put(old(Abstract()), maxEntries, Item(key, value, expiresAt))
      ensures Repr == old(Repr)
    {
      ListedKeys(items, order, key);
      var el := items[key];
      MoveToFront(el);
      Refresh(el, value, expiresAt);
    }

    method Add(key: string, value: V, expiresAt: int)
      requires Valid() && key !in items
      modifies this`items, this`order, this`evictions, this`Repr
      ensures Valid() && Abstract() == Put(old(Abstract()), maxEntries, Item(key, value, expiresAt))
      ensures fresh(Repr - old(Repr))
    {
      ListedKeys(items, order, key);
      ghost var was := Abstract();
      MakeRoom();
      ghost var room := Abstract();
      assert room == RoomMade(was, maxEntries) && !Has(was.entries, key);
      var el := new Entry(key, value, expiresAt);
      Repr := Repr + {el};
      assert Abstract() == room;
      Insert(el);
      assert Abstract() == Added(was, maxEntries, Item(key, value, expiresAt));
    }

    /** The front entry takes a new value and expiry. */
    method Refresh(el: Entry<V>, value: V, expiresAt: int)
      requires Linked(items, order) && order != [] && order[0] == el
      modifies el
      ensures Linked(items, order)
      ensures ValuesOf(order) == [Item(el.key, value, expiresAt)] + old(ValuesOf(order))[1..]
    {
      el.value := value;
      el.expiresAt := expiresAt;
    }

    method MakeRoom()
      requires Valid()
      modifies this`items, this`order, this`evictions
      ensures Valid() && |order| < maxEntries && items.Keys <= old(items.Keys)
      ensures (forall e | e in order :: e in old(order))
      ensures Abstract() == RoomMade(old(Abstract()), maxEntries)
    {
      while |order| >= maxEntries
        invariant Valid() && |order| <= old(|order|) && items.Keys <= old(items.Keys)
        invariant (forall e | e in order :: e in old(order))
        invariant |order| == old(|order|) ==> Abstract() == old(Abstract())
        invariant |order| < old(|order|) ==>
                    && |order| == maxEntries - 1 && old(|order|) == maxEntries
                    && Abstract() == RoomMade(old(Abstract()), maxEntries)
        decreases |order|
      {
        EvictOldest();
      }
    }

    method Insert(el: Entry<V>)
      requires Linked(items, order) && el.key !in items
      modifies this`items, this`order
      ensures Linked(items, order) && order == [el] + old(order)
      ensures Abstract() == old(Abstract()).(entries := [ValueOf(el)] + old(ValuesOf(order)))
    {
      DistinctCons(el, order);
      ValuesCons(el, order);
      order := [el] + order;
      items := items[el.key := el];
    }

    method Delete(key: string)
      requires Valid()
      modifies this
      ensures Valid() && Abstract() == Deleted(old(Abstract()), key)
      ensures Repr == old(Repr)
    {
      ListedKeys(items, order, key);
      if key in items {
        RemoveElement(items[key]);
      }
    }

    method Clear()
      requires Valid()
      modifies this
      ensures Valid() && Abstract() == old(Abstract()).(entries := [])
    {
      items, order := map[], [];
    }
  }

  lemma {:induction false} WithoutLast<V>(s: seq<Item<V>>)
    requires Unique(s) && s != []
    ensures Without(s, s[|s| - 1].key) == s[..|s| - 1]
    decreases |s|
  {
    if |s| > 1 {
      WithoutLast(s[1..]);
      assert s[..|s| - 1] == [s[0]] + s[1..][..|s| - 2];
    }
  }
}
