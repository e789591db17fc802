/** Per-principal rate limiting: token buckets made on first use and reaped when idle. Times are seconds,
    and float64 arithmetic is exact. */
module Limiter {

  const REAP_AFTER: real := 600.0

  /** A bucket's contents: whole tokens, and when they were last topped up. */
  datatype Tokens = Tokens(count: int, last: real)

  /** Tokens per second. */
  function Rate(rpm: nat): real { rpm as real / 60.0 }

  /** A float's whole part, as Go converts it. */
  function Trunc(x: real): int { if x >= 0.0 then x.Floor else -((-x).Floor) }

  /** Whole tokens earned in some seconds; the fraction is lost. */
  function Earned(elapsed: real, rate: real): int { Trunc(elapsed * rate) }

  function Full(rpm: nat, now: real): Tokens { Tokens(rpm, now) }

  function ToppedUp(rpm: nat, t: Tokens, now: real): int {
    var n := t.count + Earned(now - t.last, Rate(rpm));
    if n > rpm then rpm else n
  }

  function Allowed(rpm: nat, t: Tokens, now: real): (Tokens, bool) {
    var n := ToppedUp(rpm, t, now);
    if n <= 0 then (Tokens(n, now), false) else (Tokens(n - 1, now), true)
  }

  type Store = map<string, Tokens>

  /** One request: its principal's bucket, made if there is none, and its answer. */
  function Requested(rpm: nat, s: Store, key: string, now: real): (Store, bool) {
    var (t, ok) := Allowed(rpm, if key in s then s[key] else Full(rpm, now), now);
    (s[key := t], ok)
  }

  function Reaped(s: Store, now: real): Store {
    map k | k in s && !(s[k].last < now - REAP_AFTER) :: s[k]
  }

  // ---------------------------------------------------------------- the buckets

  class TokenBucket {
    const capacity: nat
    var tokens: int
    const rate: real
    var last: real

    constructor (rpm: nat, now: real)
      ensures capacity == rpm && rate == Rate(rpm) && Value() == Full(rpm, now)
    {
      capacity, tokens, rate, last := rpm, rpm, rpm as real / 60.0, now;
    }

    function Value(): Tokens
      reads this
    {
      Tokens(tokens, last)
    }

    method Allow(now: real) returns (ok: bool)
      requires rate == Rate(capacity)
      modifies this
      ensures (Value(), ok) == Allowed(capacity, old(Value()), now)
    {
      var elapsed := now - last;
      last := now;
      tokens := tokens + Earned(elapsed, rate);
      if tokens > capacity {
        tokens := capacity;
      }
      if tokens <= 0 {
        return false;
      }
      tokens := tokens - 1;
      ok := true;
    }
  }

  class BucketStore {
    var buckets: map<string, TokenBucket>
    const rpm: nat
    ghost var Repr: set<TokenBucket>  // every bucket the store ever made

    ghost predicate Valid()
      reads this
    {
      && (forall k | k in buckets :: buckets[k] in Repr && buckets[k].capacity == rpm && buckets[k].rate == Rate(rpm))
      && (forall j, k | j in buckets && k in buckets && j != k :: buckets[j] != buckets[k])
    }

    ghost function Abstract(): Store
      reads this, buckets.Values
    {
      map k | k in buckets :: buckets[k].Value()
    }

    constructor (rpm: nat)
      ensures Valid() && Abstract() == map[] && Repr == {} && this.rpm == rpm
    {
      this.rpm := rpm;
      buckets, Repr := map[], {};
    }

    method Get(key: string, now: real) returns (b: TokenBucket)
      requires Valid()
      modifies this
      ensures Valid() && key in buckets && b == buckets[key] && fresh(Repr - old(Repr))
      ensures Abstract() == if key in old(buckets) then old(Abstract()) else old(Abstract())[key := Full(rpm, now)]
    {
      if key in buckets {
        return buckets[key];
      }
      b := new TokenBucket(rpm, now);
      buckets := buckets[key := b];
      Repr := Repr + {b};
    }

    /** One request, with the look-up and the decision as one step. */
    method Request(key: string, now: real) returns (ok: bool)
      requires Valid()
      modifies this, Repr
      ensures Valid() && fresh(Repr - old(Repr))
      ensures (Abstract(), ok) == Requested(rpm, old(Abstract()), key, now)
    {
      var b := Get(key, now);
      ghost var before := Abstract();
      assert before[key] == b.Value();
      ok := b.Allow(now);
      assert Abstract() == before[key := b.Value()];
      assert before[key := b.Value()] == old(Abstract())[key := b.Value()];
    }

    /** One tick of the reaper. */
    method Reap(now: real)
      requires Valid()
      modifies this
      ensures Valid() && Repr == old(Repr) && Abstract() == Reaped(old(Abstract()), now)
      ensures forall k :: k in buckets <==> k in old(buckets) && now - old(buckets[k].last) <= 600.0
      ensures forall k | k in buckets :: buckets[k] == old(buckets[k])
    {
      var cutoff := now - REAP_AFTER;
      var todo := buckets.Keys;
      while todo != {}
        invariant Valid() && Repr == old(Repr) && todo <= buckets.Keys <= old(buckets).Keys
        invariant forall k | k in buckets :: buckets[k] == old(buckets)[k]
        invariant forall k | k in old(buckets) && k !in todo :: k in buckets <==> !(old(buckets)[k].last < cutoff)
        decreases todo
      {
        var k :| k in todo;
        todo := todo - {k};
        if buckets[k].last < cutoff {
          buckets := buckets - {k};
        }
      }
    }
  }

  // ---------------------------------------------------------------- runs

  datatype Event = Request(key: string, at: real) | Reap(at: real)

  /** The clock never goes back. */
  ghost predicate Timed(events: seq<Event>) {
    forall i, j | 0 <= i < j < |events| :: events[i].at <= events[j].at
  }

  /** The store after some events, with or without its reaper, starting from no buckets. */
  function After(rpm: nat, reaping: bool, events: seq<Event>): Store {
    if events == [] then map[]
    else
      var before, e := After(rpm, reaping, events[..|events| - 1]), events[|events| - 1];
      match e
      case Request(key, at) => Requested(rpm, before, key, at).0
      case Reap(at) => if reaping then Reaped(before, at) else before
  }

  /** How the i-th event is answered: whether it is a request that is admitted. */
  predicate Admits(rpm: nat, reaping: bool, events: seq<Event>, i: nat)
    requires i < |events|
  {
    events[i].Request? && Requested(rpm, After(rpm, reaping, events[..i]), events[i].key, events[i].at).1
  }

  // ---------------------------------------------------------------- arithmetic

  lemma FloorSum(x: real, y: real)
    requires x >= 0.0 && y >= 0.0
    ensures x.Floor + y.Floor <= (x + y).Floor
  {
  }

  lemma FloorMonotone(x: real, y: real)
    requires x <= y
    ensures x.Floor <= y.Floor
  {
  }

  lemma Elapsed(rpm: nat, a: real, b: real, c: real)
    requires a <= b <= c
    ensures Earned(b - a, Rate(rpm)) >= 0
    ensures Earned(b - a, Rate(rpm)) + Earned(c - b, Rate(rpm)) <= Earned(c - a, Rate(rpm))
  {
    assert c - a == (b - a) + (c - b);
    EarnedTogether(b - a, c - b, Rate(rpm));
  }

  lemma EarnedTogether(x: real, y: real, r: real)
    requires x >= 0.0 && y >= 0.0 && r >= 0.0
    ensures Earned(x, r) >= 0 && Earned(x, r) + Earned(y, r) <= Earned(x + y, r)
  {
    Product(x, r);
    Product(y, r);
    Distributes(x, y, r);
    FloorSum(x * r, y * r);
  }

  lemma Product(x: real, r: real)
    requires x >= 0.0 && r >= 0.0
    ensures x * r >= 0.0
  {
  }

  lemma Distributes(x: real, y: real, r: real)
    ensures (x + y) * r == x * r + y * r
  {
  }

  /** Ten idle minutes fill any bucket. */
  lemma IdleFills(rpm: nat, t: Tokens, now: real)
    requires t.count >= 0 && t.last < now - REAP_AFTER
    ensures ToppedUp(rpm, t, now) == rpm
  {
    var idle, r := now - t.last, Rate(rpm);
    Scales(REAP_AFTER, idle, r);
    TenMinutes(rpm);
    FloorMonotone((10 * rpm) as real, idle * r);
    assert Earned(idle, r) >= 10 * rpm;
  }

  lemma Scales(x: real, y: real, r: real)
    requires x <= y && r >= 0.0
    ensures x * r <= y * r
  {
  }

  lemma TenMinutes(rpm: nat)
    ensures REAP_AFTER * Rate(rpm) == (10 * rpm) as real
  {
  }
}
