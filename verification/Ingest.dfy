/** Ingest requests side by side: each takes its steps on the documents table, the object store and the
    job queue, in any interleaving with the others, and any step may fail before or after it took
    effect. A request is known by its number, which is also the document id it drew. */
module Ingest {
  import opened Wrappers

  datatype Req = Req(org: string, key: string)

  datatype Answer = Accepted(id: nat) | BadRequest | ServerError

  /** What a request does next. */
  datatype Stage = Looking | Reading | Storing | Inserting | Cleaning | Relooking | Enqueuing | Done(answer: Answer)

  /** How a call to another service goes; LostAck takes effect and yet reports an error. */
  datatype Outcome = Ok | Error | LostAck

  datatype State = State(
    stage: seq<Stage>,
    table: map<nat, Req>,  // document id to the columns the unique index covers
    objects: set<nat>,     // documents whose source is in the object store
    queue: seq<nat>,       // documents a job was enqueued for
    faults: set<nat>       // requests one of whose calls reported an error other than the conflict
  )

  function Init(reqs: seq<Req>): State {
    State(seq(|reqs|, _ => Looking), map[], {}, [], {})
  }

  /** The unique index: rows without a key are outside it. */
  predicate Under(table: map<nat, Req>, id: nat, q: Req) { id in table && table[id] == q && q.key != "" }

  ghost function Lookup(table: map<nat, Req>, q: Req): (r: Option<nat>)
    ensures r.Some? ==> Under(table, r.value, q)
    ensures r.None? ==> forall id :: !Under(table, id, q)
  {
    if exists id :: Under(table, id, q) then
      var id :| Under(table, id, q);
      Some(id)
    else None
  }

  function Goes(s: State, r: nat, next: Stage): State
    requires r < |s.stage|
  {
    s.(stage := s.stage[r := next])
  }

  function Fails(s: State, r: nat): State
    requires r < |s.stage|
  {
    Goes(s, r, Done(ServerError)).(faults := s.faults + {r})
  }

  ghost function Step(reqs: seq<Req>, s: State, r: nat, o: Outcome): State
    requires r < |reqs| == |s.stage|
  {
    var q := reqs[r];
    match s.stage[r]
    case Looking =>
      if q.key == "" then Goes(s, r, Reading)
      else if o != Ok then Fails(s, r)
      else (match Lookup(s.table, q)
            case Some(id) => Goes(s, r, Done(Accepted(id)))
            case None => Goes(s, r, Reading))
    case Reading =>
      Goes(s, r, if o == Ok then Storing else Done(BadRequest))
    case Storing =>
      if o == Error then Fails(s, r)
      else
        var put := s.(objects := s.objects + {r});
        if o == Ok then Goes(put, r, Inserting) else Fails(put, r)
    case Inserting =>
      if o == Error then Fails(s, r)
      else if Lookup(s.table, q).Some? then
        (if o == Ok then Goes(s, r, Cleaning) else Fails(s, r))
      else
        var inserted := s.(table := s.table[r := q]);
        if o == Ok then Goes(inserted, r, Enqueuing) else Fails(inserted, r)
    case Cleaning =>
      var s' := if o == Ok then s else s.(faults := s.faults + {r});
      Goes(if o == Error then s' else s'.(objects := s'.objects - {r}), r, Relooking)
    case Relooking =>
      if o != Ok then Fails(s, r)
      else (match Lookup(s.table, q)
            case Some(id) => Goes(s, r, Done(Accepted(id)))
            case None => Goes(s, r, Done(ServerError)))
    case Enqueuing =>
      if o == Error then Fails(s, r)
      else
        var enqueued := s.(queue := s.queue + [r]);
        if o == Ok then Goes(enqueued, r, Done(Accepted(r))) else Fails(enqueued, r)
    case Done(_) => s
  }

  type Schedule = seq<(nat, Outcome)>

  ghost function Run(reqs: seq<Req>, sched: Schedule): (s: State)
    ensures |s.stage| == |reqs|
  {
    if sched == [] then Init(reqs)
    else
      var before, (r, o) := Run(reqs, sched[..|sched| - 1]), sched[|sched| - 1];
      if r < |reqs| then Step(reqs, before, r, o) else before
  }

  // ---------------------------------------------------------------- what every step keeps

  /** What holds of one request, seen with the table, store and queue. */
  ghost predicate Consistent(reqs: seq<Req>, s: State, r: nat)
    requires r < |reqs| == |s.stage|
  {
    var q := reqs[r];
    && (r in s.table ==>
          s.table[r] == q && r in s.objects && (r in s.queue || s.stage[r] == Enqueuing || r in s.faults))
    && (r in s.queue ==> r in s.table && s.stage[r].Done?)
    && match s.stage[r]
       case Looking => Untouched(s, r)
       case Reading => Untouched(s, r)
       case Storing => Untouched(s, r)
       case Inserting => r in s.objects && r !in s.table
       case Cleaning => r !in s.table && exists id :: Under(s.table, id, q)
       case Relooking => r !in s.table && (r in s.objects ==> r in s.faults) && exists id :: Under(s.table, id, q)
       case Enqueuing => r in s.table
       case Done(Accepted(id)) =>
         && id in s.table && (id == r || Under(s.table, id, q))
         && (r in s.table ==> id == r) && (r !in s.table && r in s.objects ==> r in s.faults)
         && (id == r ==> r in s.queue)
       case Done(BadRequest) => Untouched(s, r)
       case Done(ServerError) => r in s.faults
  }

  predicate Untouched(s: State, r: nat) { r !in s.table && r !in s.objects && r !in s.queue }

  predicate Repeats(queue: seq<nat>) { exists i, j :: 0 <= i < j < |queue| && queue[i] == queue[j] }

  ghost predicate Invariant(reqs: seq<Req>, s: State) {
    && |s.stage| == |reqs|
    && (forall id | id in s.table :: id < |reqs|)
    && (forall i, j, q | Under(s.table, i, q) && Under(s.table, j, q) :: i == j)
    && (forall r | 0 <= r < |reqs| :: Consistent(reqs, s, r))
    && (forall r | r in s.queue :: r < |reqs|)
    && !Repeats(s.queue)
  }

  lemma StepKeepsTable(reqs: seq<Req>, s: State, r: nat, o: Outcome)
    requires Invariant(reqs, s) && r < |reqs|
    ensures var s' := Step(reqs, s, r, o);
            && (forall id | id in s.table :: id in s'.table && s'.table[id] == s.table[id])
            && (forall id | id in s'.table && id !in s.table ::
                   id == r && s'.table[id] == reqs[r] && Lookup(s.table, reqs[r]).None?)
            && (forall i, j, q | Under(s'.table, i, q) && Under(s'.table, j, q) :: i == j)
  {
    var s' := Step(reqs, s, r, o);
    assert Consistent(reqs, s, r);
    forall i, j, q | Under(s'.table, i, q) && Under(s'.table, j, q)
      ensures i == j
    {
      if i in s.table && j in s.table {
        assert Under(s.table, i, q) && Under(s.table, j, q);
      } else if i in s.table {
        assert Under(s.table, i, q);
      } else if j in s.table {
        assert Under(s.table, j, q);
      }
    }
  }

  /** What a request is owed does not change when another request takes a step. */
  lemma OthersUnmoved(reqs: seq<Req>, s: State, r: nat, o: Outcome, other: nat)
    requires Invariant(reqs, s) && r < |reqs| && other < |reqs| && other != r
    ensures Consistent(reqs, Step(reqs, s, r, o), other)
  {
    var s' := Step(reqs, s, r, o);
    StepKeepsTable(reqs, s, r, o);
    assert Consistent(reqs, s, other);
    assert s'.stage[other] == s.stage[other];
    if id :| Under(s.table, id, reqs[other]) {
      assert Under(s'.table, id, reqs[other]);
    }
    match s.stage[other]
    case Done(Accepted(id)) => assert Under(s.table, id, reqs[other]) ==> Under(s'.table, id, reqs[other]);
    case _ =>
  }

  lemma StepConsistent(reqs: seq<Req>, s: State, r: nat, o: Outcome)
    requires Invariant(reqs, s) && r < |reqs|
    ensures Consistent(reqs, Step(reqs, s, r, o), r)
  {
    assert Consistent(reqs, s, r);
    StepKeepsTable(reqs, s, r, o);
  }

  lemma StepInvariant(reqs: seq<Req>, s: State, r: nat, o: Outcome)
    requires Invariant(reqs, s) && r < |reqs|
    ensures Invariant(reqs, Step(reqs, s, r, o))
  {
    var s' := Step(reqs, s, r, o);
    StepKeepsTable(reqs, s, r, o);
    StepConsistent(reqs, s, r, o);
    forall other | 0 <= other < |reqs|
      ensures Consistent(reqs, s', other)
    {
      if other != r {
        OthersUnmoved(reqs, s, r, o, other);
      }
    }
    assert Consistent(reqs, s, r);
  }

  lemma {:induction false} RunInvariant(reqs: seq<Req>, sched: Schedule)
    ensures Invariant(reqs, Run(reqs, sched))
    decreases |sched|
  {
    if sched != [] {
      RunInvariant(reqs, sched[..|sched| - 1]);
      var (r, o) := sched[|sched| - 1];
      if r < |reqs| {
        StepInvariant(reqs, Run(reqs, sched[..|sched| - 1]), r, o);
      }
    }
  }

  // ---------------------------------------------------------------- which requests met an error

  /** The request is at a call to another service; reading its own body is none. */
  predicate Calls(reqs: seq<Req>, s: State, r: nat)
    requires r < |reqs| == |s.stage|
  {
    match s.stage[r]
    case Looking => reqs[r].key != ""
    case Reading => false
    case Done(_) => false
    case _ => true
  }

  /** The k-th step is a call of request r that reports an error, with or without having taken effect. */
  ghost predicate ReportsError(reqs: seq<Req>, sched: Schedule, k: nat, r: nat)
    requires k < |sched| && r < |reqs|
  {
    sched[k].0 == r && sched[k].1 != Ok && Calls(reqs, Run(reqs, sched[..k]), r)
  }

  ghost predicate NoErrorOf(reqs: seq<Req>, sched: Schedule, r: nat)
    requires r < |reqs|
  {
    forall k: nat | k < |sched| :: !ReportsError(reqs, sched, k, r)
  }

  /** What counts as an error of a request: exactly the errors its calls reported. A conflict is none, and
      neither is finding no row after one. */
  lemma {:induction false} FaultsAreReported(reqs: seq<Req>, sched: Schedule, r: nat)
    requires r < |reqs|
    ensures r in Run(reqs, sched).faults <==> exists k: nat :: k < |sched| && ReportsError(reqs, sched, k, r)
    decreases |sched|
  {
    if sched != [] {
      var n := |sched| - 1;
      var before := sched[..n];
      FaultsAreReported(reqs, before, r);
      FaultStep(reqs, Run(reqs, before), sched[n].0, sched[n].1, r);
      forall k: nat | k < n
        ensures ReportsError(reqs, sched, k, r) <==> ReportsError(reqs, before, k, r)
      {
        assert sched[..k] == before[..k];
      }
      assert ReportsError(reqs, sched, n, r)
          <==> sched[n].0 == r && sched[n].1 != Ok && Calls(reqs, Run(reqs, before), r);
    }
  }

  lemma FaultStep(reqs: seq<Req>, s: State, from: nat, o: Outcome, r: nat)
    requires r < |reqs| == |s.stage|
    ensures var s' := if from < |reqs| then Step(reqs, s, from, o) else s;
            r in s'.faults <==> r in s.faults || (from == r && o != Ok && Calls(reqs, s, r))
  {
  }

  // ---------------------------------------------------------------- what clients may rely on

  predicate SameKey(reqs: seq<Req>, i: nat, j: nat)
    requires i < |reqs| && j < |reqs|
  {
    reqs[i] == reqs[j] && reqs[i].key != ""
  }

  /** At most one document row is ever under an org's key, and its source is in the store. */
  lemma AtMostOneRow(reqs: seq<Req>, sched: Schedule, i: nat, j: nat)
    requires var s := Run(reqs, sched); i in s.table && j in s.table
    requires i < |reqs| && j < |reqs| && SameKey(reqs, i, j)
    ensures i == j && i in Run(reqs, sched).objects
  {
    RunInvariant(reqs, sched);
    var s := Run(reqs, sched);
    assert Consistent(reqs, s, i) && Consistent(reqs, s, j);
    assert Under(s.table, i, reqs[i]) && Under(s.table, j, reqs[i]);
  }

  /** Every 202 names a document that exists; requests with the same org and key are all given the same
      one, and a request without a key its own. */
  lemma AcceptedNamesTheRow(reqs: seq<Req>, sched: Schedule, i: nat, j: nat, a: nat, b: nat)
    requires i < |reqs| && j < |reqs|
    requires Run(reqs, sched).stage[i] == Done(Accepted(a)) && Run(reqs, sched).stage[j] == Done(Accepted(b))
    ensures a in Run(reqs, sched).table && a < |reqs| && reqs[a] == reqs[i]
    ensures SameKey(reqs, i, j) ==> a == b
    ensures reqs[i].key == "" ==> a == i
  {
    RunInvariant(reqs, sched);
    var s := Run(reqs, sched);
    assert Consistent(reqs, s, i) && Consistent(reqs, s, j);
    assert Consistent(reqs, s, a) && Consistent(reqs, s, b);
    if SameKey(reqs, i, j) {
      assert Under(s.table, a, reqs[i]) && Under(s.table, b, reqs[i]);
    }
  }

  /** A document once there stays, so a 202 given early names the same document as one given late. */
  lemma {:induction false} RowsStay(reqs: seq<Req>, sched: Schedule, more: Schedule, id: nat)
    requires id in Run(reqs, sched).table
    ensures id in Run(reqs, sched + more).table && Run(reqs, sched + more).table[id] == Run(reqs, sched).table[id]
    decreases |more|
  {
    if more == [] {
      assert sched + more == sched;
    } else {
      var before := more[..|more| - 1];
      assert (sched + more)[..|sched + more| - 1] == sched + before;
      RowsStay(reqs, sched, before, id);
      RunInvariant(reqs, sched + before);
      var (r, o) := more[|more| - 1];
      if r < |reqs| {
        StepKeepsTable(reqs, Run(reqs, sched + before), r, o);
      }
    }
  }

  /** At most one job is enqueued for an org's key, and only for a document that exists. */
  lemma AtMostOneJob(reqs: seq<Req>, sched: Schedule, i: nat, j: nat)
    requires var queue := Run(reqs, sched).queue;
             i < j < |queue| && queue[i] < |reqs| && queue[j] < |reqs|
    ensures var queue := Run(reqs, sched).queue;
            !SameKey(reqs, queue[i], queue[j]) && queue[i] in Run(reqs, sched).table
  {
    RunInvariant(reqs, sched);
    var s := Run(reqs, sched);
    var a, b := s.queue[i], s.queue[j];
    assert a in s.queue && b in s.queue;
    assert Consistent(reqs, s, a) && Consistent(reqs, s, b);
    if SameKey(reqs, a, b) {
      assert Under(s.table, a, reqs[a]) && Under(s.table, b, reqs[a]);
    }
  }

  /** The requests under request r's org and key. */
  function Group(reqs: seq<Req>, r: nat): set<nat>
    requires r < |reqs|
  {
    set i | 0 <= i < |reqs| && reqs[i] == reqs[r]
  }

  lemma NoFaultsIn(reqs: seq<Req>, sched: Schedule, r: nat)
    requires r < |reqs| && forall i | i in Group(reqs, r) :: NoErrorOf(reqs, sched, i)
    ensures forall i | i in Group(reqs, r) :: i !in Run(reqs, sched).faults
  {
    forall i | i in Group(reqs, r)
      ensures i !in Run(reqs, sched).faults
    {
      FaultsAreReported(reqs, sched, i);
    }
  }

  lemma OneWinner(reqs: seq<Req>, s: State, r: nat, w: nat, j: nat)
    requires Invariant(reqs, s) && r < |reqs| && Under(s.table, w, reqs[r]) && w in Group(reqs, r)
             && j in Group(reqs, r)
    requires s.stage[j].Done? && j !in s.faults && s.stage[w].Done? && w !in s.faults
    ensures s.stage[j] == Done(Accepted(w)) || s.stage[j] == Done(BadRequest)
    ensures (j in s.table <==> j == w) && (j in s.objects <==> j == w) && (j in s.queue <==> j == w)
  {
    assert Consistent(reqs, s, j) && Consistent(reqs, s, w);
    assert j in s.table ==> Under(s.table, j, reqs[r]);
    if s.stage[j] != Done(BadRequest) {
      assert Under(s.table, s.stage[j].answer.id, reqs[r]);
    }
  }

  lemma AllSettle(reqs: seq<Req>, s: State, r: nat)
    requires Invariant(reqs, s) && r < |reqs| && reqs[r].key != ""
    requires forall i | i in Group(reqs, r) :: s.stage[i].Done? && i !in s.faults
    ensures || (forall i | i in Group(reqs, r) :: s.stage[i] == Done(BadRequest) && Untouched(s, i))
            || (exists w :: w in Group(reqs, r) && Settled(reqs, s, r, w))
  {
    assert forall i | i in Group(reqs, r) :: Consistent(reqs, s, i);
    if i :| i in Group(reqs, r) && s.stage[i] != Done(BadRequest) {
      var w := s.stage[i].answer.id;
      AnsweredIsRow(reqs, s, r, i);
      forall j | j in Group(reqs, r)
        ensures s.stage[j] == Done(Accepted(w)) || s.stage[j] == Done(BadRequest)
        ensures (j in s.table <==> j == w) && (j in s.objects <==> j == w) && (j in s.queue <==> j == w)
      {
        OneWinner(reqs, s, r, w, j);
      }
      assert Settled(reqs, s, r, w);
    }
  }

  lemma AnsweredIsRow(reqs: seq<Req>, s: State, r: nat, i: nat)
    requires Invariant(reqs, s) && r < |reqs| && reqs[r].key != "" && i in Group(reqs, r)
    requires s.stage[i].Done? && i !in s.faults && s.stage[i] != Done(BadRequest)
    ensures s.stage[i].answer.Accepted?
    ensures var w := s.stage[i].answer.id; w in Group(reqs, r) && Under(s.table, w, reqs[r])
  {
    assert Consistent(reqs, s, i);
    assert Consistent(reqs, s, s.stage[i].answer.id);
  }

  /** Once all requests under a key are answered and none of their calls reported an error other than the
      conflict, either none was well formed, or one document is what all the others were given: the only
      row, the only source object left, and the subject of the only job. */
  lemma WhenAllAreDone(reqs: seq<Req>, sched: Schedule, r: nat)
    requires r < |reqs| && reqs[r].key != ""
    requires forall i | i in Group(reqs, r) :: Run(reqs, sched).stage[i].Done? && NoErrorOf(reqs, sched, i)
    ensures var s := Run(reqs, sched);
            || (forall i | i in Group(reqs, r) :: s.stage[i] == Done(BadRequest) && Untouched(s, i))
            || (exists w :: w in Group(reqs, r) && Settled(reqs, s, r, w))
  {
    RunInvariant(reqs, sched);
    NoFaultsIn(reqs, sched, r);
    AllSettle(reqs, Run(reqs, sched), r);
  }

  ghost predicate Settled(reqs: seq<Req>, s: State, r: nat, w: nat)
    requires r < |reqs| == |s.stage|
  {
    && !Repeats(s.queue)
    && forall j | j in Group(reqs, r) ::
         && (s.stage[j] == Done(Accepted(w)) || s.stage[j] == Done(BadRequest))
         && (j in s.table <==> j == w) && (j in s.objects <==> j == w) && (j in s.queue <==> j == w)
  }

  /** A request none of whose calls reported an error is never answered 500: the loser of the race for a
      key always finds the winner's row. */
  lemma NoErrorNo500(reqs: seq<Req>, sched: Schedule, r: nat)
    requires r < |reqs| && Run(reqs, sched).stage[r] == Done(ServerError)
    ensures exists k: nat :: k < |sched| && ReportsError(reqs, sched, k, r)
  {
    RunInvariant(reqs, sched);
    assert Consistent(reqs, Run(reqs, sched), r);
    FaultsAreReported(reqs, sched, r);
  }

  /** The k-th step is request r's reading of its own body, and the body is no good. */
  ghost predicate Refuses(reqs: seq<Req>, sched: Schedule, k: nat, r: nat)
    requires k < |sched| && r < |reqs|
  {
    sched[k].0 == r && Run(reqs, sched[..k]).stage[r] == Reading && sched[k].1 != Ok
  }

  ghost predicate Refused(reqs: seq<Req>, sched: Schedule, r: nat)
    requires r < |reqs|
  {
    exists k: nat :: k < |sched| && Refuses(reqs, sched, k, r)
  }

  lemma RefusedSnoc(reqs: seq<Req>, sched: Schedule, r: nat)
    requires r < |reqs| && sched != []
    ensures var n := |sched| - 1;
            Refused(reqs, sched, r) <==> Refused(reqs, sched[..n], r) || Refuses(reqs, sched, n, r)
  {
    var n := |sched| - 1;
    var before := sched[..n];
    if Refused(reqs, before, r) {
      var k: nat :| k < |before| && Refuses(reqs, before, k, r);
      assert sched[..k] == before[..k];
      assert Refuses(reqs, sched, k, r);
    }
    if Refused(reqs, sched, r) && !Refuses(reqs, sched, n, r) {
      var k: nat :| k < |sched| && Refuses(reqs, sched, k, r);
      assert sched[..k] == before[..k];
      assert Refuses(reqs, before, k, r);
    }
  }

  lemma RefusalStep(reqs: seq<Req>, s: State, from: nat, o: Outcome, r: nat)
    requires r < |reqs| == |s.stage|
    ensures var s' := if from < |reqs| then Step(reqs, s, from, o) else s;
            s'.stage[r] == Done(BadRequest)
            <==> s.stage[r] == Done(BadRequest) || (from == r && s.stage[r] == Reading && o != Ok)
  {
  }

  /** A request is answered 400 exactly when reading its own body did not go well, key or no key. */
  lemma {:induction false} RefusedOnReading(reqs: seq<Req>, sched: Schedule, r: nat)
    requires r < |reqs|
    ensures Run(reqs, sched).stage[r] == Done(BadRequest) <==> Refused(reqs, sched, r)
    decreases |sched|
  {
    if sched != [] {
      var n := |sched| - 1;
      RefusedOnReading(reqs, sched[..n], r);
      RefusalStep(reqs, Run(reqs, sched[..n]), sched[n].0, sched[n].1, r);
      RefusedSnoc(reqs, sched, r);
    }
  }

  /** Where every call goes well, whatever the interleaving, a request that is answered is accepted. */
  lemma AllWellIsAccepted(reqs: seq<Req>, sched: Schedule, r: nat)
    requires r < |reqs| && Run(reqs, sched).stage[r].Done? && forall k | 0 <= k < |sched| :: sched[k].1 == Ok
    ensures Run(reqs, sched).stage[r].answer.Accepted?
  {
    RefusedOnReading(reqs, sched, r);
    match Run(reqs, sched).stage[r].answer
    case ServerError => NoErrorNo500(reqs, sched, r);
    case _ =>
  }

  // ---------------------------------------------------------------- a request's own steps

  /** How its own steps go. */
  function Own(sched: Schedule, r: nat): (o: seq<Outcome>)
    ensures |o| <= |sched|
  {
    if sched == [] then []
    else
      var (from, o) := sched[|sched| - 1];
      if from == r then Own(sched[..|sched| - 1], r) + [o] else Own(sched[..|sched| - 1], r)
  }

  function StepsTaken(stage: Stage): nat {
    match stage
    case Looking => 0
    case Reading => 1
    case Storing => 2
    case Inserting => 3
    case Cleaning => 4
    case Enqueuing => 4
    case Relooking => 5
    case Done(_) => 6
  }

  lemma OneStepOn(reqs: seq<Req>, s: State, from: nat, o: Outcome, r: nat)
    requires r < |reqs| == |s.stage|
    ensures var s' := if from < |reqs| then Step(reqs, s, from, o) else s;
            && (from != r ==> s'.stage[r] == s.stage[r])
            && (from == r && !s.stage[r].Done? ==> StepsTaken(s'.stage[r]) > StepsTaken(s.stage[r]))
            && (from == r && s.stage[r].Done? ==> s'.stage[r] == s.stage[r])
  {
  }

  /** Six steps of its own answer any request, whatever the others do. */
  lemma {:induction false} SixStepsAnswer(reqs: seq<Req>, sched: Schedule, r: nat)
    requires r < |reqs|
    ensures StepsTaken(Run(reqs, sched).stage[r]) >= if |Own(sched, r)| < 6 then |Own(sched, r)| else 6
    ensures |Own(sched, r)| >= 6 ==> Run(reqs, sched).stage[r].Done?
    decreases |sched|
  {
    if sched != [] {
      var n := |sched| - 1;
      SixStepsAnswer(reqs, sched[..n], r);
      OneStepOn(reqs, Run(reqs, sched[..n]), sched[n].0, sched[n].1, r);
    }
  }

  /** No other request is under this one's key. */
  predicate Alone(reqs: seq<Req>, r: nat)
    requires r < |reqs|
  {
    reqs[r].key == "" || forall j | 0 <= j < |reqs| && j != r :: reqs[j] != reqs[r]
  }

  lemma NoRowYet(reqs: seq<Req>, s: State, r: nat)
    requires Invariant(reqs, s) && r < |reqs| && Alone(reqs, r)
    ensures s.stage[r] == Looking || s.stage[r] == Inserting ==> Lookup(s.table, reqs[r]).None?
  {
    assert Consistent(reqs, s, r);
    if Lookup(s.table, reqs[r]).Some? {
      assert Consistent(reqs, s, Lookup(s.table, reqs[r]).value);
    }
  }

  /** What n steps that go well have done for such a request. */
  predicate Advanced(s: State, r: nat, q: Req, n: nat)
    requires r < |s.stage|
  {
    && (n == 0 ==> s.stage[r] == Looking)
    && (n == 1 ==> s.stage[r] == Reading)
    && (n == 2 ==> s.stage[r] == Storing)
    && (n == 3 ==> s.stage[r] == Inserting)
    && (n == 4 ==> s.stage[r] == Enqueuing)
    && (n >= 5 ==> s.stage[r] == Done(Accepted(r)) && r in s.queue)
    && (n >= 3 ==> r in s.objects)
    && (n >= 4 ==> r in s.table && s.table[r] == q)
  }

  lemma AdvancedStep(reqs: seq<Req>, s: State, r: nat, n: nat)
    requires r < |reqs| == |s.stage| && Advanced(s, r, reqs[r], n)
    requires s.stage[r] == Looking || s.stage[r] == Inserting ==> Lookup(s.table, reqs[r]).None?
    ensures Advanced(Step(reqs, s, r, Ok), r, reqs[r], n + 1)
  {
  }

  lemma AdvancedStays(reqs: seq<Req>, s: State, from: nat, o: Outcome, r: nat, n: nat)
    requires r < |reqs| == |s.stage| && from < |reqs| && from != r && Advanced(s, r, reqs[r], n)
    ensures Advanced(Step(reqs, s, from, o), r, reqs[r], n)
  {
  }

  lemma {:induction false} AloneAdvances(reqs: seq<Req>, sched: Schedule, r: nat)
    requires r < |reqs| && Alone(reqs, r) && forall k | 0 <= k < |Own(sched, r)| :: Own(sched, r)[k] == Ok
    ensures Advanced(Run(reqs, sched), r, reqs[r], |Own(sched, r)|)
    decreases |sched|
  {
    if sched != [] {
      var before := sched[..|sched| - 1];
      var (from, o) := sched[|sched| - 1];
      assert Own(before, r) <= Own(sched, r);
      AloneAdvances(reqs, before, r);
      if from == r {
        assert Own(sched, r)[|Own(sched, r)| - 1] == o;
        RunInvariant(reqs, before);
        NoRowYet(reqs, Run(reqs, before), r);
        AdvancedStep(reqs, Run(reqs, before), r, |Own(before, r)|);
      } else if from < |reqs| {
        AdvancedStays(reqs, Run(reqs, before), from, o, r, |Own(before, r)|);
      }
    }
  }

  /** A request without a key, or under a key that no other has, is answered 202 after five steps that go
      well, whatever the others do, with its own document: its row, its source in the store and one job. */
  lemma AloneIsIngested(reqs: seq<Req>, sched: Schedule, r: nat)
    requires r < |reqs| && Alone(reqs, r)
    requires |Own(sched, r)| >= 5 && forall k | 0 <= k < |Own(sched, r)| :: Own(sched, r)[k] == Ok
    ensures var s := Run(reqs, sched);
            && s.stage[r] == Done(Accepted(r)) && r in s.table && s.table[r] == reqs[r] && r in s.objects
            && r in s.queue && !Repeats(s.queue)
  {
    AloneAdvances(reqs, sched, r);
    RunInvariant(reqs, sched);
  }

  /** The k-th step is one request r takes at `stage`, and it takes effect. */
  ghost predicate TakesEffect(reqs: seq<Req>, sched: Schedule, k: nat, r: nat, stage: Stage)
    requires k < |sched| && r < |reqs|
  {
    sched[k].0 == r && sched[k].1 != Error && Run(reqs, sched[..k]).stage[r] == stage
  }

  ghost predicate TookEffect(reqs: seq<Req>, sched: Schedule, r: nat, stage: Stage)
    requires r < |reqs|
  {
    exists k: nat :: k < |sched| && TakesEffect(reqs, sched, k, r, stage)
  }

  lemma TookEffectSnoc(reqs: seq<Req>, sched: Schedule, n: nat, r: nat, stage: Stage)
    requires r < |reqs| && n + 1 == |sched|
    ensures TookEffect(reqs, sched, r, stage)
            <==> TookEffect(reqs, sched[..n], r, stage) || TakesEffect(reqs, sched, n, r, stage)
  {
    var before := sched[..n];
    assert forall k: nat | k < |before| :: before[..k] == sched[..k];
    assert forall k: nat | k < |before| ::
        TakesEffect(reqs, before, k, r, stage) <==> TakesEffect(reqs, sched, k, r, stage);
  }

  /** The request is past the removal of its source. */
  predicate PastCleaning(stage: Stage) { stage.Relooking? || stage.Done? }

  lemma ObjectStep(reqs: seq<Req>, s: State, from: nat, o: Outcome, r: nat)
    requires r < |reqs| == |s.stage| && from < |reqs|
    ensures var s', acts := Step(reqs, s, from, o), from == r && o != Error;
            && (r in s'.objects <==> (r in s.objects || (acts && s.stage[r] == Storing))
                                     && !(acts && s.stage[r] == Cleaning))
            && (acts && s.stage[r] == Cleaning ==> PastCleaning(s'.stage[r]))
            && (PastCleaning(s.stage[r]) ==> PastCleaning(s'.stage[r]))
  {
  }

  lemma {:induction false} CleanedIsPast(reqs: seq<Req>, sched: Schedule, r: nat)
    requires r < |reqs|
    ensures TookEffect(reqs, sched, r, Cleaning) ==> PastCleaning(Run(reqs, sched).stage[r])
    decreases |sched|
  {
    if sched != [] {
      var n := |sched| - 1;
      CleanedIsPast(reqs, sched[..n], r);
      TookEffectSnoc(reqs, sched, n, r, Cleaning);
      if sched[n].0 < |reqs| {
        ObjectStep(reqs, Run(reqs, sched[..n]), sched[n].0, sched[n].1, r);
      }
    }
  }

  /** A document's source is in the store exactly when its own request's storing took effect and no removal
      by it did. */
  lemma {:induction false} ObjectsAreStored(reqs: seq<Req>, sched: Schedule, r: nat)
    requires r < |reqs|
    ensures r in Run(reqs, sched).objects
            <==> TookEffect(reqs, sched, r, Storing) && !TookEffect(reqs, sched, r, Cleaning)
    decreases |sched|
  {
    if sched != [] {
      var n := |sched| - 1;
      ObjectsAreStored(reqs, sched[..n], r);
      CleanedIsPast(reqs, sched[..n], r);
      TookEffectSnoc(reqs, sched, n, r, Storing);
      TookEffectSnoc(reqs, sched, n, r, Cleaning);
      if sched[n].0 < |reqs| {
        ObjectStep(reqs, Run(reqs, sched[..n]), sched[n].0, sched[n].1, r);
      }
    }
  }

  /** The k-th step is request r's insert, it takes effect, and no row is in its way. */
  ghost predicate Inserts(reqs: seq<Req>, sched: Schedule, k: nat, r: nat)
    requires k < |sched| && r < |reqs|
  {
    sched[k].0 == r && sched[k].1 != Error && InsertsNow(reqs, Run(reqs, sched[..k]), r)
  }

  ghost predicate InsertsNow(reqs: seq<Req>, s: State, r: nat)
    requires r < |reqs| == |s.stage|
  {
    s.stage[r] == Inserting && (reqs[r].key == "" || forall id | id in s.table :: s.table[id] != reqs[r])
  }

  ghost predicate Inserted(reqs: seq<Req>, sched: Schedule, r: nat)
    requires r < |reqs|
  {
    exists k: nat :: k < |sched| && Inserts(reqs, sched, k, r)
  }

  lemma InsertedSnoc(reqs: seq<Req>, sched: Schedule, n: nat, r: nat)
    requires r < |reqs| && n + 1 == |sched|
    ensures Inserted(reqs, sched, r) <==> Inserted(reqs, sched[..n], r) || Inserts(reqs, sched, n, r)
  {
    var before := sched[..n];
    assert forall k: nat | k < |before| :: before[..k] == sched[..k];
    assert forall k: nat | k < |before| :: Inserts(reqs, before, k, r) <==> Inserts(reqs, sched, k, r);
  }

  lemma RowStep(reqs: seq<Req>, s: State, from: nat, o: Outcome, r: nat)
    requires r < |reqs| == |s.stage| && from < |reqs|
    ensures r in Step(reqs, s, from, o).table
            <==> r in s.table || (from == r && o != Error && InsertsNow(reqs, s, r))
  {
    if s.stage[from] == Inserting {
      assert Lookup(s.table, reqs[from]).None? <==> forall id :: !Under(s.table, id, reqs[from]);
      assert forall id :: Under(s.table, id, reqs[from])
                 <==> id in s.table && s.table[id] == reqs[from] && reqs[from].key != "";
    }
  }

  /** A document has a row exactly when its own request's insert took effect with no row under the same
      organisation and key in its way, even if the call reported an error. */
  lemma {:induction false} RowsAreInserts(reqs: seq<Req>, sched: Schedule, r: nat)
    requires r < |reqs|
    ensures r in Run(reqs, sched).table <==> Inserted(reqs, sched, r)
    decreases |sched|
  {
    if sched != [] {
      var n := |sched| - 1;
      RowsAreInserts(reqs, sched[..n], r);
      InsertedSnoc(reqs, sched, n, r);
      if sched[n].0 < |reqs| {
        RowStep(reqs, Run(reqs, sched[..n]), sched[n].0, sched[n].1, r);
      }
    }
  }

  /** A document has a job exactly when the request that inserted it came to enqueue one and that call took
      effect: no other request ever makes up for a lost enqueue. */
  lemma {:induction false} JobsAreOfInserters(reqs: seq<Req>, sched: Schedule, r: nat)
    requires r < |reqs|
    ensures r in Run(reqs, sched).queue <==> TookEffect(reqs, sched, r, Enqueuing)
    decreases |sched|
  {
    if sched != [] {
      var n := |sched| - 1;
      JobsAreOfInserters(reqs, sched[..n], r);
      JobStep(reqs, Run(reqs, sched[..n]), sched[n].0, sched[n].1, r);
      TookEffectSnoc(reqs, sched, n, r, Enqueuing);
    }
  }

  lemma JobStep(reqs: seq<Req>, s: State, from: nat, o: Outcome, r: nat)
    requires r < |reqs| == |s.stage|
    ensures var s' := if from < |reqs| then Step(reqs, s, from, o) else s;
            r in s'.queue <==> r in s.queue || (from == r && s.stage[r] == Enqueuing && o != Error)
  {
  }

  /** Where no call takes effect and still reports an error, jobs are exactly those of the documents
      whose own request was answered 202. */
  lemma {:induction false} JobsOfAnswered(reqs: seq<Req>, sched: Schedule)
    requires forall e | e in sched :: e.1 != LostAck
    ensures var s := Run(reqs, sched);
            forall r | 0 <= r < |reqs| :: r in s.queue <==> s.stage[r] == Done(Accepted(r))
    decreases |sched|
  {
    RunInvariant(reqs, sched);
    var s := Run(reqs, sched);
    assert forall r | 0 <= r < |reqs| :: Consistent(reqs, s, r);
    if sched != [] {
      var before := sched[..|sched| - 1];
      JobsOfAnswered(reqs, before);
      RunInvariant(reqs, before);
      var (r, o) := sched[|sched| - 1];
      assert sched[|sched| - 1] in sched;
      if r < |reqs| {
        assert Consistent(reqs, Run(reqs, before), r);
      }
    }
  }

  /** So a 202 may be given though no job will ever run: two requests under one key, the first losing
      its enqueue. */
  lemma AcceptedWithoutJob(q: Req)
    requires q.key != ""
    ensures var s := Run([q, q], [(0, Ok), (0, Ok), (0, Ok), (0, Ok), (0, Error), (1, Ok)]);
            s.stage == [Done(ServerError), Done(Accepted(0))] && s.queue == []
  {
    var reqs := [q, q];
    FirstInserts(q);
    var sched: Schedule := [(0, Ok), (0, Ok), (0, Ok), (0, Ok), (0, Error), (1, Ok)];
    assert sched[..5][..4] == [(0, Ok), (0, Ok), (0, Ok), (0, Ok)];
    var s := Run(reqs, sched[..5]);
    assert s == State([Done(ServerError), Looking], map[0 := q], {0}, [], {0});
    assert Under(s.table, 0, q);
  }

  lemma FirstInserts(q: Req)
    requires q.key != ""
    ensures Run([q, q], [(0, Ok), (0, Ok), (0, Ok), (0, Ok)]) == State([Enqueuing, Looking], map[0 := q], {0}, [], {})
  {
    var reqs := [q, q];
    var sched: Schedule := [(0, Ok), (0, Ok), (0, Ok), (0, Ok)];
    assert sched[..3][..2] == sched[..2] && sched[..2][..1] == sched[..1] && sched[..1][..0] == [];
    assert Run(reqs, sched[..1]) == State([Reading, Looking], map[], {}, [], {});
    assert Run(reqs, sched[..2]) == State([Storing, Looking], map[], {}, [], {});
    assert Run(reqs, sched[..3]) == State([Inserting, Looking], map[], {0}, [], {});
  }
}
