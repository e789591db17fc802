/** What per-principal limiting promises over a whole run of requests and reaper ticks. */
module LimiterRuns {
  import opened Limiter

  // ---------------------------------------------------------------- reaping is unobservable

  ghost predicate Sane(rpm: nat, t: Tokens, now: real) { 0 <= t.count <= rpm && t.last <= now }

  /** The reaped store has some of the other's buckets; those it lacks have been idle for over ten
      minutes. */
  ghost predicate Mirrors(rpm: nat, reaped: Store, full: Store, now: real) {
    && (forall k | k in reaped :: k in full && reaped[k] == full[k])
    && (forall k | k in full && k !in reaped :: full[k].last < now - REAP_AFTER)
    && (forall k | k in full :: Sane(rpm, full[k], now))
  }

  lemma AllowedSane(rpm: nat, t: Tokens, now: real)
    requires Sane(rpm, t, now)
    ensures Sane(rpm, Allowed(rpm, t, now).0, now)
  {
    Elapsed(rpm, t.last, now, now);
  }

  lemma FullAllows(rpm: nat, now: real)
    ensures ToppedUp(rpm, Full(rpm, now), now) == rpm
  {
    assert (now - now) * Rate(rpm) == 0.0;
  }

  /** The reaped store answers a request as the other does: a bucket it lacks would have been full. */
  lemma SameAnswer(rpm: nat, reaped: Store, full: Store, key: string, now: real)
    requires Mirrors(rpm, reaped, full, now)
    ensures Requested(rpm, reaped, key, now).1 == Requested(rpm, full, key, now).1
    ensures Mirrors(rpm, Requested(rpm, reaped, key, now).0, Requested(rpm, full, key, now).0, now)
  {
    FullAllows(rpm, now);
    AllowedSane(rpm, Full(rpm, now), now);
    if key in full {
      AllowedSane(rpm, full[key], now);
      if key !in reaped {
        IdleFills(rpm, full[key], now);
      }
    }
  }

  lemma MirrorsLater(rpm: nat, reaped: Store, full: Store, now: real, later: real)
    requires Mirrors(rpm, reaped, full, now) && now <= later
    ensures Mirrors(rpm, reaped, full, later)
  {
    forall k | k in full
      ensures Sane(rpm, full[k], later)
    {
      assert Sane(rpm, full[k], now);
    }
  }

  lemma {:induction false} StoresMirror(rpm: nat, events: seq<Event>, now: real)
    requires Timed(events) && forall e | e in events :: e.at <= now
    ensures Mirrors(rpm, After(rpm, true, events), After(rpm, false, events), now)
    decreases |events|
  {
    if events != [] {
      var before, e := events[..|events| - 1], events[|events| - 1];
      StoresMirror(rpm, before, e.at);
      if e.Request? {
        SameAnswer(rpm, After(rpm, true, before), After(rpm, false, before), e.key, e.at);
      }
      MirrorsLater(rpm, After(rpm, true, events), After(rpm, false, events), e.at, now);
    }
  }

  /** No request is ever answered differently because idle buckets were reaped. */
  lemma ReapingIsUnobservable(rpm: nat, events: seq<Event>, i: nat)
    requires Timed(events) && i < |events|
    ensures Admits(rpm, true, events, i) == Admits(rpm, false, events, i)
  {
    StoresMirror(rpm, events[..i], events[i].at);
    if events[i].Request? {
      SameAnswer(rpm, After(rpm, true, events[..i]), After(rpm, false, events[..i]), events[i].key, events[i].at);
    }
  }

  // ---------------------------------------------------------------- at most so many in a window

  predicate IsFrom(e: Event, key: string) { e.Request? && e.key == key }

  /** How many of a principal's requests were admitted from the i-th event to before the j-th. */
  function Admitted(rpm: nat, reaping: bool, events: seq<Event>, key: string, i: nat, j: nat): nat
    requires i <= j <= |events|
    decreases j
  {
    if i == j then 0
    else
      Admitted(rpm, reaping, events, key, i, j - 1)
      + if IsFrom(events[j - 1], key) && Admits(rpm, reaping, events, j - 1) then 1 else 0
  }

  /** What was admitted and what the bucket still holds were all there at the start of the window or
      earned in it. */
  ghost predicate Budgeted(rpm: nat, s: Store, key: string, admitted: nat, start: real) {
    admitted == 0
    || (key in s && start <= s[key].last && admitted + s[key].count <= rpm + Earned(s[key].last - start, Rate(rpm)))
  }

  lemma {:induction false} WindowBudget(rpm: nat, events: seq<Event>, key: string, i: nat, j: nat)
    requires Timed(events) && i <= j <= |events| && i < |events|
    ensures Budgeted(rpm, After(rpm, false, events[..j]), key, Admitted(rpm, false, events, key, i, j), events[i].at)
    decreases j
  {
    if i < j {
      WindowBudget(rpm, events, key, i, j - 1);
      AfterOne(rpm, events, j);
      if IsFrom(events[j - 1], key) {
        OneMoreAdmitted(rpm, events, key, i, j);
      }
    }
  }

  lemma OneMoreAdmitted(rpm: nat, events: seq<Event>, key: string, i: nat, j: nat)
    requires Timed(events) && i < j <= |events| && IsFrom(events[j - 1], key)
    requires Budgeted(rpm, After(rpm, false, events[..j - 1]), key, Admitted(rpm, false, events, key, i, j - 1),
                      events[i].at)
    ensures Budgeted(rpm, After(rpm, false, events[..j]), key, Admitted(rpm, false, events, key, i, j), events[i].at)
  {
    var before, e := events[..j - 1], events[j - 1];
    AfterOne(rpm, events, j);
    StoresMirror(rpm, before, e.at);
    BudgetStep(rpm, After(rpm, false, before), key, Admitted(rpm, false, events, key, i, j - 1), events[i].at, e.at);
  }

  /** What one more event does to the store of a principal. */
  lemma AfterOne(rpm: nat, events: seq<Event>, j: nat)
    requires 0 < j <= |events|
    ensures var s, s', e := After(rpm, false, events[..j - 1]), After(rpm, false, events[..j]), events[j - 1];
            s' == if e.Request? then Requested(rpm, s, e.key, e.at).0 else s
  {
    assert events[..j][..j - 1] == events[..j - 1];
  }

  lemma BudgetStep(rpm: nat, s: Store, key: string, admitted: nat, start: real, now: real)
    requires Budgeted(rpm, s, key, admitted, start) && start <= now
    requires key in s ==> Sane(rpm, s[key], now)
    ensures var (s', ok) := Requested(rpm, s, key, now);
            Budgeted(rpm, s', key, admitted + if ok then 1 else 0, start)
  {
    Elapsed(rpm, start, now, now);
    if admitted > 0 {
      Elapsed(rpm, start, s[key].last, now);
    }
  }

  /** In any window of T seconds a principal has at most rpm requests admitted, plus what rpm a minute
      comes to in T seconds, with the reaper at work. */
  lemma AdmissionsAreBounded(rpm: nat, events: seq<Event>, key: string, i: nat, j: nat, T: real)
    requires Timed(events) && i <= j <= |events| && T >= 0.0
    requires forall k | i <= k < j :: events[k].at <= events[i].at + T
    ensures Admitted(rpm, true, events, key, i, j) <= rpm + (rpm as real * T / 60.0).Floor
  {
    SameAdmitted(rpm, events, key, i, j);
    EarnedIs(rpm, T);
    if i < j {
      WindowBudget(rpm, events, key, i, j);
      StoresMirror(rpm, events[..j], events[i].at + T);
      BudgetBound(rpm, After(rpm, false, events[..j]), key, Admitted(rpm, false, events, key, i, j), events[i].at, T);
    }
  }

  lemma EarnedIs(rpm: nat, T: real)
    requires T >= 0.0
    ensures Earned(T, Rate(rpm)) == (rpm as real * T / 60.0).Floor >= 0
  {
    assert rpm as real * T / 60.0 == T * Rate(rpm);
    assert T * Rate(rpm) >= 0.0;
  }

  lemma BudgetBound(rpm: nat, s: Store, key: string, admitted: nat, start: real, T: real)
    requires Budgeted(rpm, s, key, admitted, start) && T >= 0.0
    requires key in s ==> Sane(rpm, s[key], start + T)
    ensures admitted <= rpm + Earned(T, Rate(rpm))
  {
    if admitted > 0 {
      Elapsed(rpm, start, s[key].last, start + T);
      Elapsed(rpm, s[key].last, start + T, start + T);
    } else {
      EarnedIs(rpm, T);
    }
  }

  lemma {:induction false} SameAdmitted(rpm: nat, events: seq<Event>, key: string, i: nat, j: nat)
    requires Timed(events) && i <= j <= |events|
    ensures Admitted(rpm, true, events, key, i, j) == Admitted(rpm, false, events, key, i, j)
    decreases j
  {
    if i < j {
      SameAdmitted(rpm, events, key, i, j - 1);
      ReapingIsUnobservable(rpm, events, j - 1);
    }
  }

  // ---------------------------------------------------------------- the bound is met, and no lower one holds

  function Burst(key: string, n: nat, at: real): seq<Event> { seq(n, _ => Request(key, at)) }

  /** A principal's first rpm requests are all admitted, even at one instant. */
  lemma {:induction false} BurstIsAdmitted(rpm: nat, key: string, n: nat, at: real)
    requires n <= rpm
    ensures Admitted(rpm, true, Burst(key, n, at), key, 0, n) == n
    ensures n > 0 ==> After(rpm, true, Burst(key, n, at)) == map[key := Tokens(rpm - n, at)]
    decreases n
  {
    if n > 0 {
      var events, before := Burst(key, n, at), Burst(key, n - 1, at);
      assert events[..n - 1] == before;
      BurstIsAdmitted(rpm, key, n - 1, at);
      AdmittedPrefix(rpm, events, key, n - 1);
      OneOfBurst(rpm, After(rpm, true, before), key, n, at);
      LastOfBurst(rpm, key, n, at);
    }
  }

  lemma LastOfBurst(rpm: nat, key: string, n: nat, at: real)
    requires n > 0
    ensures var events, s := Burst(key, n, at), After(rpm, true, Burst(key, n - 1, at));
            After(rpm, true, events) == Requested(rpm, s, key, at).0
            && Admits(rpm, true, events, n - 1) == Requested(rpm, s, key, at).1
  {
    assert Burst(key, n, at)[..n - 1] == Burst(key, n - 1, at);
  }

  lemma OneOfBurst(rpm: nat, s: Store, key: string, n: nat, at: real)
    requires 0 < n <= rpm && s == if n == 1 then map[] else map[key := Tokens(rpm - (n - 1), at)]
    ensures Requested(rpm, s, key, at) == (map[key := Tokens(rpm - n, at)], true)
  {
    FullAllows(rpm, at);
    var t := Tokens(rpm - (n - 1), at);
    assert (if key in s then s[key] else Full(rpm, at)) == t;
    assert (at - at) * Rate(rpm) == 0.0;
    assert ToppedUp(rpm, t, at) == rpm - (n - 1);
    assert s[key := Tokens(rpm - n, at)] == map[key := Tokens(rpm - n, at)];
  }

  lemma {:induction false} AdmittedPrefix(rpm: nat, events: seq<Event>, key: string, j: nat)
    requires j <= |events|
    ensures Admitted(rpm, true, events, key, 0, j) == Admitted(rpm, true, events[..j], key, 0, j)
    decreases j
  {
    if j > 0 {
      AdmittedPrefix(rpm, events, key, j - 1);
      AdmittedPrefix(rpm, events[..j], key, j - 1);
      assert events[..j][..j - 1] == events[..j - 1];
    }
  }

  /** The time before the i-th, the first of all being `last`. */
  function Before(last: real, times: seq<real>, i: nat): real
    requires i <= |times|
  {
    if i == 0 then last else times[i - 1]
  }

  ghost predicate Forwards(last: real, times: seq<real>) {
    forall i | 0 <= i < |times| :: Before(last, times, i) <= times[i]
  }

  /** Each time comes sooner after the one before it than one token takes to earn. */
  ghost predicate TooSoon(rpm: nat, last: real, times: seq<real>) {
    forall i | 0 <= i < |times| :: SoonAfter(rpm, Before(last, times, i), times[i])
  }

  predicate SoonAfter(rpm: nat, last: real, now: real) { (now - last) * Rate(rpm) < 1.0 }

  /** A bucket after requests at these times, and how they were answered. */
  function Asked(rpm: nat, t: Tokens, times: seq<real>): Tokens {
    if times == [] then t else Allowed(rpm, Asked(rpm, t, times[..|times| - 1]), times[|times| - 1]).0
  }

  function Answers(rpm: nat, t: Tokens, times: seq<real>): seq<bool> {
    if times == [] then []
    else
      var before := times[..|times| - 1];
      Answers(rpm, t, before) + [Allowed(rpm, Asked(rpm, t, before), times[|times| - 1]).1]
  }

  /** A request to an empty bucket is refused exactly when it comes sooner than one token takes to earn,
      and then the fraction earned is thrown away. */
  lemma EmptyBucket(rpm: nat, last: real, now: real)
    requires last <= now
    ensures var (t, ok) := Allowed(rpm, Tokens(0, last), now);
            (ok <==> !SoonAfter(rpm, last, now)) && (!ok ==> t == Tokens(0, now))
  {
    Product(now - last, Rate(rpm));
    if rpm == 0 {
      assert (now - last) * Rate(rpm) == 0.0;
    }
  }

  lemma BeforeSnoc(last: real, times: seq<real>)
    requires times != [] && Forwards(last, times)
    ensures var n := |times| - 1;
            && Forwards(last, times[..n]) && Before(last, times[..n], n) == Before(last, times, n) <= times[n]
    ensures forall rpm: nat :: TooSoon(rpm, last, times) <==>
              TooSoon(rpm, last, times[..|times| - 1])
                  && SoonAfter(rpm, Before(last, times, |times| - 1), times[|times| - 1])
  {
    var n := |times| - 1;
    assert forall i | 0 <= i < n :: times[..n][i] == times[i] && Before(last, times[..n], i) == Before(last, times, i);
  }

  /** A principal whose bucket is empty is never admitted again exactly when it asks, over and over, sooner
      than one token takes to earn: each refused request throws away the fraction earned. */
  lemma {:induction false} EagerPrincipalStarves(rpm: nat, last: real, times: seq<real>)
    requires Forwards(last, times)
    ensures true !in Answers(rpm, Tokens(0, last), times) <==> TooSoon(rpm, last, times)
    ensures TooSoon(rpm, last, times) ==>
              Asked(rpm, Tokens(0, last), times) == Tokens(0, Before(last, times, |times|))
    decreases |times|
  {
    if times != [] {
      var n := |times| - 1;
      BeforeSnoc(last, times);
      EagerPrincipalStarves(rpm, last, times[..n]);
      EmptyBucket(rpm, Before(last, times, n), times[n]);
    }
  }

  // ---------------------------------------------------------------- the same in a whole run

  /** When a principal asked. */
  function TimesOf(events: seq<Event>, key: string): seq<real> {
    if events == [] then []
    else
      var e := events[|events| - 1];
      TimesOf(events[..|events| - 1], key) + if IsFrom(e, key) then [e.at] else []
  }

  /** No request of the principal from the n-th event on is admitted. */
  ghost predicate ShutOut(rpm: nat, reaping: bool, events: seq<Event>, key: string, n: nat) {
    forall i | n <= i < |events| && IsFrom(events[i], key) :: !Admits(rpm, reaping, events, i)
  }

  lemma ShutOutSnoc(rpm: nat, events: seq<Event>, e: Event, key: string, n: nat)
    requires n <= |events|
    ensures ShutOut(rpm, false, events + [e], key, n) <==>
              ShutOut(rpm, false, events, key, n)
              && (IsFrom(e, key) ==> !Requested(rpm, After(rpm, false, events), key, e.at).1)
  {
    var all := events + [e];
    assert all[..|events|] == events;
    forall i | 0 <= i < |events|
      ensures all[i] == events[i] && all[..i] == events[..i]
    {
    }
    if ShutOut(rpm, false, all, key, n) {
      assert IsFrom(all[|events|], key) ==> !Admits(rpm, false, all, |events|);
      forall i | n <= i < |events| && IsFrom(events[i], key)
        ensures !Admits(rpm, false, events, i)
      {
        assert !Admits(rpm, false, all, i);
      }
    }
  }

  /** Other principals and the reaper left aside, a principal's bucket and answers are those of its own
      requests. */
  lemma {:induction false} OwnRequestsOnly(rpm: nat, events: seq<Event>, more: seq<Event>, key: string)
    requires key in After(rpm, false, events)
    ensures var t := After(rpm, false, events)[key];
            && key in After(rpm, false, events + more)
            && After(rpm, false, events + more)[key] == Asked(rpm, t, TimesOf(more, key))
            && (ShutOut(rpm, false, events + more, key, |events|) <==> true !in Answers(rpm, t, TimesOf(more, key)))
    decreases |more|
  {
    if more == [] {
      assert events + more == events;
    } else {
      var before, e := more[..|more| - 1], more[|more| - 1];
      OwnRequestsOnly(rpm, events, before, key);
      assert events + more == events + before + [e];
      assert (events + before + [e])[..|events + before|] == events + before;
      ShutOutSnoc(rpm, events + before, e, key, |events|);
      if IsFrom(e, key) {
        var times := TimesOf(before, key);
        assert (times + [e.at])[..|times|] == times;
      } else {
        assert TimesOf(before, key) + [] == TimesOf(before, key);
      }
    }
  }

  lemma {:induction false} TimesGoForwards(events: seq<Event>, more: seq<Event>, key: string, last: real)
    requires Timed(events + more) && (forall e | e in more :: last <= e.at)
    ensures Forwards(last, TimesOf(more, key)) && forall t | t in TimesOf(more, key) :: exists e ::
              e in more && e.at == t
    decreases |more|
  {
    if more != [] {
      var before, e := more[..|more| - 1], more[|more| - 1];
      assert (events + more)[..|events + before|] == events + before;
      assert forall x | x in before :: x in more;
      TimesGoForwards(events, before, key, last);
      var times := TimesOf(before, key);
      forall t | t in times
        ensures t <= e.at
      {
        var x :| x in before && x.at == t;
        var i :| 0 <= i < |before| && before[i] == x;
        assert (events + more)[|events| + i] == x && (events + more)[|events| + |before|] == e;
      }
      ForwardsSnoc(last, times, e.at);
    }
  }

  lemma ForwardsSnoc(last: real, times: seq<real>, t: real)
    requires Forwards(last, times) && last <= t && forall x | x in times :: x <= t
    ensures Forwards(last, times + [t])
  {
    var all := times + [t];
    forall i | 0 <= i < |all|
      ensures Before(last, all, i) <= all[i]
    {
      if i < |times| {
        assert Before(last, all, i) == Before(last, times, i) && all[i] == times[i];
      } else if i > 0 {
        assert all[i - 1] == times[i - 1] && times[i - 1] in times;
      }
    }
  }

  /** The bucket of a principal in a run, its reaper's ticks left out, was last topped up before now. */
  lemma LastIsPast(rpm: nat, events: seq<Event>, more: seq<Event>, key: string)
    requires Timed(events + more) && key in After(rpm, false, events)
    ensures forall e | e in more :: After(rpm, false, events)[key].last <= e.at
  {
    forall e | e in more
      ensures After(rpm, false, events)[key].last <= e.at
    {
      var i :| 0 <= i < |more| && more[i] == e;
      var all := events + more;
      assert all[|events| + i] == e;
      forall x | x in events
        ensures x.at <= e.at
      {
        var j :| 0 <= j < |events| && events[j] == x;
        assert all[j] == x;
      }
      assert Timed(events) by {
        assert forall a, b | 0 <= a < b < |events| :: all[a] == events[a] && all[b] == events[b];
      }
      StoresMirror(rpm, events, e.at);
    }
  }

  /** In any run, reaper and other principals included: once a principal's bucket is empty, none of its
      later requests is admitted if and only if each comes too soon after the one before it. */
  lemma StarvedInARun(rpm: nat, events: seq<Event>, more: seq<Event>, key: string)
    requires Timed(events + more) && key in After(rpm, false, events) && After(rpm, false, events)[key].count == 0
    ensures var last := After(rpm, false, events)[key].last;
            ShutOut(rpm, true, events + more, key, |events|) <==> TooSoon(rpm, last, TimesOf(more, key))
  {
    var last, all := After(rpm, false, events)[key].last, events + more;
    LastIsPast(rpm, events, more, key);
    TimesGoForwards(events, more, key, last);
    EagerPrincipalStarves(rpm, last, TimesOf(more, key));
    OwnRequestsOnly(rpm, events, more, key);
    assert After(rpm, false, events)[key] == Tokens(0, last);
    forall i | 0 <= i < |all|
      ensures Admits(rpm, true, all, i) == Admits(rpm, false, all, i)
    {
      ReapingIsUnobservable(rpm, all, i);
    }
  }

  /** From no buckets at all: after a principal's first rpm requests, admitted at one instant, it is never
      admitted again if and only if it keeps asking too soon. So no lower bound on admissions holds. */
  lemma StarvedAfterBurst(rpm: nat, key: string, at: real, more: seq<Event>)
    requires rpm > 0 && Timed(Burst(key, rpm, at) + more)
    ensures ShutOut(rpm, true, Burst(key, rpm, at) + more, key, rpm) <==> TooSoon(rpm, at, TimesOf(more, key))
  {
    var events := Burst(key, rpm, at);
    BurstIsAdmitted(rpm, key, rpm, at);
    StoresMirror(rpm, events, at);
    StarvedInARun(rpm, events, more, key);
  }
}
