/** Safety and progress of the enrichment stages, in every interleaving. */
module StageFacts {
  import opened Stages

  // ---------------------------------------------------------------- counting

  function Count(ps: seq<Phase>, p: Phase -> bool): nat {
    if ps == [] then 0 else Count(ps[..|ps| - 1], p) + if p(ps[|ps| - 1]) then 1 else 0
  }

  lemma {:induction false} CountUpdate(ps: seq<Phase>, p: Phase -> bool, i: nat, x: Phase)
    requires i < |ps|
    ensures Count(ps[i := x], p) == Count(ps, p) - (if p(ps[i]) then 1 else 0) + (if p(x) then 1 else 0)
    ensures p(ps[i]) ==> Count(ps, p) > 0
    decreases |ps|
  {
    var n := |ps| - 1;
    if i == n {
      assert ps[i := x][..n] == ps[..n];
    } else {
      assert ps[i := x][..n] == ps[..n][i := x];
      CountUpdate(ps[..n], p, i, x);
    }
  }

  lemma {:induction false} CountNone(ps: seq<Phase>, p: Phase -> bool)
    ensures Count(ps, p) == 0 <==> forall i | 0 <= i < |ps| :: !p(ps[i])
    decreases |ps|
  {
    if ps != [] {
      CountNone(ps[..|ps| - 1], p);
    }
  }

  lemma {:induction false} CountFewer(ps: seq<Phase>, p: Phase -> bool, q: Phase -> bool)
    requires forall x :: p(x) ==> q(x)
    ensures Count(ps, p) <= Count(ps, q)
    decreases |ps|
  {
    if ps != [] {
      CountFewer(ps[..|ps| - 1], p, q);
    }
  }

  predicate InFlight(p: Phase) { p.Calling? }

  /** A worker that made its call. */
  predicate Called(p: Phase) {
    p.Calling? || (p.Leaving? && p.outcome != Skipped) || (p.Done? && p.outcome != Skipped)
  }

  // ---------------------------------------------------------------- what every step keeps

  /** The semaphores count what they should and stay within their caps. */
  ghost predicate Slots(c: Config, s: State) {
    && s.summarySem == Count(s.summary, Holding) <= c.summaryCap
    && s.hydeSem == Count(s.hyde, Holding) <= c.hydeCap
    && s.globalSem == Count(s.summary, InFlight) + Count(s.hyde, InFlight)
    && (c.global > 0 ==> s.globalSem <= c.global)
  }

  /** Deeper layers are done, this one has begun, the ones above have not. */
  ghost predicate Layers(c: Config, s: State)
    requires |s.summary| == |s.hyde| == |c.sections|
  {
    && -1 <= s.layer
    && forall i | 0 <= i < |c.sections| ::
         && InLayer(c.sections[i], s.layer, s.summary[i])
         && (s.hyde[i] == Idle <==> !Asks(c, i))
  }

  predicate InLayer(sec: Section, layer: int, p: Phase) {
    if sec.summarised || sec.depth < layer then p == Idle
    else if sec.depth > layer then p.Done?
    else p != Idle
  }

  /** The calls on record: each worker that made its call, once. */
  ghost predicate Recorded(s: State) {
    && (forall g, i | 0 <= i < |Phases(s, g)| :: (g, i) in s.calls <==> Called(Phases(s, g)[i]))
    && (forall g, i | (g, i) in s.calls :: i < |Phases(s, g)|)
    && (forall a, b | 0 <= a < b < |s.calls| :: s.calls[a] != s.calls[b])
  }

  ghost predicate Invariant(c: Config, s: State) {
    |s.summary| == |s.hyde| == |c.sections| && Slots(c, s) && Layers(c, s) && Recorded(s)
  }

  lemma {:induction false} NoneDeeper(sections: seq<Section>)
    ensures forall i | 0 <= i < |sections| :: sections[i].depth <= Deepest(sections)
    decreases |sections|
  {
    if sections != [] {
      NoneDeeper(sections[..|sections| - 1]);
    }
  }

  lemma InitInvariant(c: Config)
    ensures Invariant(c, Init(c))
  {
    NoneDeeper(c.sections);
    var s := Init(c);
    CountNone(s.summary, Holding);
    CountNone(s.hyde, Holding);
    CountNone(s.summary, InFlight);
    CountNone(s.hyde, InFlight);
  }

  lemma SlotsStep(c: Config, s: State, m: Move)
    requires Invariant(c, s) && Enabled(c, s, m)
    ensures Slots(c, Step(c, s, m))
  {
    match m
    case NextLayer => NextLayerSlots(c, s);
    case Cancel =>
    case TakeSlot(_, _) => SlotTaken(c, s, m);
    case GiveUpSlot(_, _) => SlotGivenUp(c, s, m);
    case Finish(_, _) => SlotFreed(c, s, m);
    case TakeGlobal(_, _) => CallStarts(c, s, m);
    case GiveUpGlobal(_, _) => CallGivenUp(c, s, m);
    case Return(_, _, _) => CallReturns(c, s, m);
  }

  lemma SlotTaken(c: Config, s: State, m: Move)
    requires Invariant(c, s) && Enabled(c, s, m) && m.TakeSlot?
    ensures Slots(c, Step(c, s, m))
  {
    MoveSlots(s, m.g, m.i, Slotted);
  }

  lemma SlotGivenUp(c: Config, s: State, m: Move)
    requires Invariant(c, s) && Enabled(c, s, m) && m.GiveUpSlot?
    ensures Slots(c, Step(c, s, m))
  {
    MoveSlots(s, m.g, m.i, Done(Skipped));
  }

  lemma SlotFreed(c: Config, s: State, m: Move)
    requires Invariant(c, s) && Enabled(c, s, m) && m.Finish?
    ensures Slots(c, Step(c, s, m))
  {
    MoveSlots(s, m.g, m.i, Done(At(s, m.g, m.i).outcome));
  }

  lemma CallStarts(c: Config, s: State, m: Move)
    requires Invariant(c, s) && Enabled(c, s, m) && m.TakeGlobal?
    ensures Slots(c, Step(c, s, m))
  {
    MoveSlots(s, m.g, m.i, Calling);
  }

  lemma CallGivenUp(c: Config, s: State, m: Move)
    requires Invariant(c, s) && Enabled(c, s, m) && m.GiveUpGlobal?
    ensures Slots(c, Step(c, s, m))
  {
    MoveSlots(s, m.g, m.i, Leaving(Skipped));
  }

  lemma CallReturns(c: Config, s: State, m: Move)
    requires Invariant(c, s) && Enabled(c, s, m) && m.Return?
    ensures Slots(c, Step(c, s, m))
  {
    MoveSlots(s, m.g, m.i, Leaving(if m.ok then Written else Failed));
  }

  lemma MoveSlots(s: State, g: Stage, i: nat, p: Phase)
    requires i < |Phases(s, g)|
    ensures var s' := Moved(s, g, i, p);
            var x := Phases(s, g)[i];
            && Count(Phases(s', g), Holding)
                 == Count(Phases(s, g), Holding) - (if Holding(x) then 1 else 0) + (if Holding(p) then 1 else 0)
            && Count(Phases(s', g), InFlight)
                 == Count(Phases(s, g), InFlight) - (if InFlight(x) then 1 else 0) + (if InFlight(p) then 1 else 0)
            && (Holding(x) ==> Count(Phases(s, g), Holding) > 0) && (InFlight(x) ==> Count(Phases(s, g), InFlight) > 0)
  {
    CountUpdate(Phases(s, g), Holding, i, p);
    CountUpdate(Phases(s, g), InFlight, i, p);
  }

  lemma NextLayerSlots(c: Config, s: State)
    requires Invariant(c, s) && Enabled(c, s, NextLayer)
    ensures Slots(c, Step(c, s, NextLayer))
  {
    var s' := Step(c, s, NextLayer);
    forall i | 0 <= i < |c.sections|
      ensures !Holding(s.summary[i]) && !Holding(s'.summary[i])
    {
      assert InLayer(c.sections[i], s.layer, s.summary[i]);
    }
    CountNone(s.summary, Holding);
    CountNone(s'.summary, Holding);
    CountNone(s.summary, InFlight);
    CountNone(s'.summary, InFlight);
  }

  lemma LayersStep(c: Config, s: State, m: Move)
    requires Invariant(c, s) && Enabled(c, s, m)
    ensures Layers(c, Step(c, s, m))
  {
    if m.NextLayer? {
      NextLayerLayers(c, s);
    } else if !m.Cancel? {
      var s' := Step(c, s, m);
      PhasesAdvance(c, s, m);
      forall i | 0 <= i < |c.sections|
        ensures InLayer(c.sections[i], s'.layer, s'.summary[i]) && (s'.hyde[i] == Idle <==> !Asks(c, i))
      {
        assert InLayer(c.sections[i], s.layer, s.summary[i]);
        assert Advances(s.summary[i], s'.summary[i]) && Advances(s.hyde[i], s'.hyde[i]);
      }
    }
  }

  /** A worker's own move starts from a phase that is neither idle nor done, and ends in one that is not
      idle. */
  predicate Advances(p: Phase, p': Phase) { p' == p || (p != Idle && !p.Done? && p' != Idle) }

  lemma PhasesAdvance(c: Config, s: State, m: Move)
    requires |s.summary| == |s.hyde| == |c.sections| && Enabled(c, s, m) && !m.NextLayer? && !m.Cancel?
    ensures var s' := Step(c, s, m);
            s'.layer == s.layer && forall i | 0 <= i < |c.sections| ::
              Advances(s.summary[i], s'.summary[i]) && Advances(s.hyde[i], s'.hyde[i])
  {
  }

  lemma NextLayerLayers(c: Config, s: State)
    requires Invariant(c, s) && Enabled(c, s, NextLayer)
    ensures Layers(c, Step(c, s, NextLayer))
  {
    var s' := Step(c, s, NextLayer);
    forall i | 0 <= i < |c.sections|
      ensures InLayer(c.sections[i], s'.layer, s'.summary[i])
    {
      assert InLayer(c.sections[i], s.layer, s.summary[i]);
    }
  }

  lemma RecordedStep(c: Config, s: State, m: Move)
    requires Invariant(c, s) && Enabled(c, s, m)
    ensures Recorded(Step(c, s, m))
  {
    if m.NextLayer? {
      NextLayerRecorded(c, s);
    } else if m.TakeGlobal? {
      CallRecorded(c, s, m);
    } else if !m.Cancel? {
      NothingRecorded(c, s, m);
    }
  }

  lemma NextLayerRecorded(c: Config, s: State)
    requires Invariant(c, s) && Enabled(c, s, NextLayer)
    ensures Recorded(Step(c, s, NextLayer))
  {
    var s' := Step(c, s, NextLayer);
    forall i | 0 <= i < |c.sections|
      ensures Called(s'.summary[i]) <==> Called(s.summary[i])
    {
      assert InLayer(c.sections[i], s.layer, s.summary[i]);
    }
    SameCalls(s, s');
  }

  lemma CallRecorded(c: Config, s: State, m: Move)
    requires Invariant(c, s) && Enabled(c, s, m) && m.TakeGlobal?
    ensures Recorded(Step(c, s, m))
  {
    assert !Called(Phases(s, m.g)[m.i]);
    assert (m.g, m.i) !in s.calls;
  }

  lemma NothingRecorded(c: Config, s: State, m: Move)
    requires Invariant(c, s) && Enabled(c, s, m) && !m.NextLayer? && !m.Cancel? && !m.TakeGlobal?
    ensures Recorded(Step(c, s, m))
  {
    var s' := Step(c, s, m);
    assert Called(Phases(s', m.g)[m.i]) <==> Called(Phases(s, m.g)[m.i]);
    SameCalls(s, s');
  }

  lemma SameCalls(s: State, s': State)
    requires Recorded(s) && s'.calls == s.calls && |s'.summary| == |s.summary| && |s'.hyde| == |s.hyde|
    requires forall g, i | 0 <= i < |Phases(s, g)| :: Called(Phases(s', g)[i]) <==> Called(Phases(s, g)[i])
    ensures Recorded(s')
  {
  }

  lemma {:induction false} RunInvariant(c: Config, moves: seq<Move>)
    ensures Invariant(c, Run(c, moves))
    decreases |moves|
  {
    if moves == [] {
      InitInvariant(c);
    } else {
      var s, m := Run(c, moves[..|moves| - 1]), moves[|moves| - 1];
      RunInvariant(c, moves[..|moves| - 1]);
      if Enabled(c, s, m) {
        SlotsStep(c, s, m);
        LayersStep(c, s, m);
        RecordedStep(c, s, m);
      }
    }
  }

  // ---------------------------------------------------------------- safety

  /** Calls in flight never exceed a stage's cap, nor the shared one. */
  lemma CallsStayWithinCaps(c: Config, moves: seq<Move>)
    ensures var s := Run(c, moves);
            && Count(s.summary, InFlight) <= c.summaryCap && Count(s.hyde, InFlight) <= c.hydeCap
            && (c.global > 0 ==> Count(s.summary, InFlight) + Count(s.hyde, InFlight) <= c.global)
  {
    RunInvariant(c, moves);
    CountFewer(Run(c, moves).summary, InFlight, Holding);
    CountFewer(Run(c, moves).hyde, InFlight, Holding);
  }

  /** A section has no summary yet, or it holds no other and has no questions yet. */
  predicate Lacks(c: Config, g: Stage, i: nat)
    requires i < |c.sections|
  {
    if g == Summary then !c.sections[i].summarised
    else !c.sections[i].asked && forall j | 0 <= j < |c.sections| :: c.sections[j].parent != i
  }

  /** No section is ever called for twice in a stage, and only those that lack the stage's result. */
  lemma CalledAtMostOnce(c: Config, moves: seq<Move>, a: nat)
    requires a < |Run(c, moves).calls|
    ensures var calls := Run(c, moves).calls;
            && (forall b | a < b < |calls| :: calls[a] != calls[b])
            && calls[a].1 < |c.sections| && Lacks(c, calls[a].0, calls[a].1)
  {
    RunInvariant(c, moves);
    var s := Run(c, moves);
    var (g, i) := s.calls[a];
    assert (g, i) in s.calls;
    assert Called(Phases(s, g)[i]);
    assert InLayer(c.sections[i], s.layer, s.summary[i]);
  }

  predicate ChildOf(c: Config, child: nat, parent: nat) {
    child < |c.sections| && parent < |c.sections|
    && c.sections[child].parent == parent && c.sections[child].depth > c.sections[parent].depth
  }

  /** Once a section's summary is even waited for, every child's has been written, failed or given up. */
  lemma ChildrenFirst(c: Config, moves: seq<Move>, child: nat, parent: nat)
    requires ChildOf(c, child, parent) && Run(c, moves).summary[parent] != Idle
             && !c.sections[child].summarised
    ensures Run(c, moves).summary[child].Done?
  {
    RunInvariant(c, moves);
    var s := Run(c, moves);
    assert InLayer(c.sections[child], s.layer, s.summary[child]);
    assert InLayer(c.sections[parent], s.layer, s.summary[parent]);
  }

  /** On record a child's summary call always comes before its parent's. */
  lemma {:induction false} CallsGoUp(c: Config, moves: seq<Move>, a: nat, b: nat)
    requires a < |Run(c, moves).calls| && b < |Run(c, moves).calls|
    requires Run(c, moves).calls[a].0 == Summary && Run(c, moves).calls[b].0 == Summary
    requires ChildOf(c, Run(c, moves).calls[a].1, Run(c, moves).calls[b].1)
    ensures a < b
    decreases |moves|
  {
    if moves != [] {
      var before := moves[..|moves| - 1];
      var s := Run(c, before);
      RecordGrows(c, s, moves[|moves| - 1]);
      if a < |s.calls| && b < |s.calls| {
        CallsGoUp(c, before, a, b);
      } else if b < |s.calls| {
        NewCallIsNoChild(c, before, moves[|moves| - 1], b);
      }
    }
  }

  lemma RecordGrows(c: Config, s: State, m: Move)
    requires |s.summary| == |s.hyde| == |c.sections|
    ensures s.calls <= Step(c, s, m).calls && |Step(c, s, m).calls| <= |s.calls| + 1
  {
  }

  /** A section whose parent was called for is not called for any more. */
  lemma NewCallIsNoChild(c: Config, moves: seq<Move>, m: Move, b: nat)
    requires var s := Run(c, moves); b < |s.calls| < |Step(c, s, m).calls| && s.calls[b].0 == Summary
    ensures var s := Run(c, moves);
            var (g, child) := Step(c, s, m).calls[|s.calls|];
            !(g == Summary && ChildOf(c, child, s.calls[b].1))
  {
    RunInvariant(c, moves);
    var s := Run(c, moves);
    assert s.calls[b] in s.calls && Called(s.summary[s.calls[b].1]);
    if m.g == Summary && ChildOf(c, m.i, s.calls[b].1) {
      assert InLayer(c.sections[m.i], s.layer, s.summary[m.i]);
      ChildrenFirst(c, moves, m.i, s.calls[b].1);
      assert false;
    }
  }

  // ---------------------------------------------------------------- progress

  /** Both stages are over. */
  predicate Finished(c: Config, s: State)
    requires |s.summary| == |s.hyde| == |c.sections|
  {
    s.layer == -1 && forall i | 0 <= i < |c.sections| :: s.hyde[i] == Idle || s.hyde[i].Done?
  }

  ghost predicate CanMove(c: Config, s: State)
    requires |s.summary| == |s.hyde| == |c.sections|
  {
    exists m :: m != Cancel && Enabled(c, s, m)
  }

  /** Some worker is in the phase; then it has a move of its own. */
  lemma WorkerMoves(c: Config, s: State, g: Stage, i: nat)
    requires Invariant(c, s) && c.summaryCap > 0 && c.hydeCap > 0
    requires i < |Phases(s, g)| && Phases(s, g)[i] != Idle && !Phases(s, g)[i].Done?
    requires Phases(s, g)[i].Slotted? ==> s.globalSem == 0
    requires Phases(s, g)[i].Queued? ==> Sem(s, g) == 0
    ensures CanMove(c, s)
  {
    match Phases(s, g)[i]
    case Calling => assert Enabled(c, s, Return(g, i, true));
    case Leaving(_) => assert Enabled(c, s, Finish(g, i));
    case Slotted => assert Enabled(c, s, TakeGlobal(g, i));
    case Queued => assert Enabled(c, s, TakeSlot(g, i));
  }

  ghost predicate SomeIn(s: State, p: Phase -> bool) {
    exists g, i :: 0 <= i < |Phases(s, g)| && p(Phases(s, g)[i])
  }

  lemma NoneIn(s: State, p: Phase -> bool)
    requires !SomeIn(s, p)
    ensures forall i | 0 <= i < |s.summary| :: !p(s.summary[i])
    ensures forall i | 0 <= i < |s.hyde| :: !p(s.hyde[i])
    ensures Count(s.summary, p) == 0 && Count(s.hyde, p) == 0
  {
    forall i | 0 <= i < |s.summary|
      ensures !p(s.summary[i])
    {
      assert Phases(s, Summary)[i] == s.summary[i];
    }
    forall i | 0 <= i < |s.hyde|
      ensures !p(s.hyde[i])
    {
      assert Phases(s, Hyde)[i] == s.hyde[i];
    }
    CountNone(s.summary, p);
    CountNone(s.hyde, p);
  }

  predicate PastCall(p: Phase) { p.Leaving? }

  predicate Waits(p: Phase) { p.Queued? }

  /** With no worker under way the layer is done: the next one begins, or both stages are over. */
  lemma AllQuiet(c: Config, s: State)
    requires Invariant(c, s) && !SomeIn(s, Holding) && !SomeIn(s, Waits)
    ensures Finished(c, s) || CanMove(c, s)
  {
    NoneIn(s, Holding);
    NoneIn(s, Waits);
    assert forall i | 0 <= i < |c.sections| :: InLayer(c.sections[i], s.layer, s.summary[i]);
    if s.layer >= 0 {
      assert Enabled(c, s, NextLayer);
    }
  }

  /** The two levels of locking never deadlock: until both stages are over, some worker can go on or the
      next layer can begin, cancelled or not. */
  lemma NeverDeadlocks(c: Config, moves: seq<Move>)
    requires c.summaryCap > 0 && c.hydeCap > 0
    ensures var s := Run(c, moves); Finished(c, s) || CanMove(c, s)
  {
    RunInvariant(c, moves);
    var s := Run(c, moves);
    if SomeIn(s, InFlight) {
      var g, i :| 0 <= i < |Phases(s, g)| && InFlight(Phases(s, g)[i]);
      WorkerMoves(c, s, g, i);
    } else if SomeIn(s, PastCall) {
      var g, i :| 0 <= i < |Phases(s, g)| && PastCall(Phases(s, g)[i]);
      WorkerMoves(c, s, g, i);
    } else if SomeIn(s, Holding) {
      NoneIn(s, InFlight);
      var g, i :| 0 <= i < |Phases(s, g)| && Holding(Phases(s, g)[i]);
      assert !PastCall(Phases(s, g)[i]) && !InFlight(Phases(s, g)[i]);
      WorkerMoves(c, s, g, i);
    } else if SomeIn(s, Waits) {
      NoneIn(s, Holding);
      var g, i :| 0 <= i < |Phases(s, g)| && Waits(Phases(s, g)[i]);
      WorkerMoves(c, s, g, i);
    } else {
      AllQuiet(c, s);
    }
  }

  /** As NewPipeline configures it, whatever its settings. */
  lemma PipelineCaps(sections: seq<Section>, summary: int, hyde: int, global: int)
    ensures var c := Pipeline(sections, summary, hyde, global);
            && c.sections == sections
            && c.summaryCap == (if summary > 0 then summary else 4) && c.hydeCap == (if hyde > 0 then hyde else 4)
            && c.global == (if global > 0 then global else 12)
  {
  }

  lemma PipelineNeverDeadlocks(sections: seq<Section>, summary: int, hyde: int, global: int, moves: seq<Move>)
    ensures var c := Pipeline(sections, summary, hyde, global);
            Finished(c, Run(c, moves)) || CanMove(c, Run(c, moves))
  {
    NeverDeadlocks(Pipeline(sections, summary, hyde, global), moves);
  }

  /** How many moves a worker may still make. */
  function Left(p: Phase): nat {
    match p
    case Idle => 5
    case Queued => 4
    case Slotted => 3
    case Calling => 2
    case Leaving(_) => 1
    case Done(_) => 0
  }

  function LeftAll(ps: seq<Phase>): nat {
    if ps == [] then 0 else LeftAll(ps[..|ps| - 1]) + Left(ps[|ps| - 1])
  }

  function LeftBoth(s: State): nat { LeftAll(s.summary) + LeftAll(s.hyde) }

  function Remaining(s: State): int {
    LeftBoth(s) + s.layer + 1 + if s.cancelled then 0 else 1
  }

  lemma {:induction false} LeftUpdate(ps: seq<Phase>, i: nat, x: Phase)
    requires i < |ps|
    ensures LeftAll(ps[i := x]) == LeftAll(ps) - Left(ps[i]) + Left(x)
    decreases |ps|
  {
    var n := |ps| - 1;
    if i == n {
      assert ps[i := x][..n] == ps[..n];
    } else {
      assert ps[i := x][..n] == ps[..n][i := x];
      LeftUpdate(ps[..n], i, x);
    }
  }

  lemma {:induction false} LeftFalls(ps: seq<Phase>, qs: seq<Phase>)
    requires |ps| == |qs| && forall i | 0 <= i < |ps| :: Left(qs[i]) <= Left(ps[i])
    ensures LeftAll(qs) <= LeftAll(ps)
    decreases |ps|
  {
    if ps != [] {
      LeftFalls(ps[..|ps| - 1], qs[..|qs| - 1]);
    }
  }

  lemma NextLayerSpends(c: Config, s: State)
    requires Invariant(c, s) && Enabled(c, s, NextLayer)
    ensures 0 <= Remaining(Step(c, s, NextLayer)) < Remaining(s)
  {
    var s' := Step(c, s, NextLayer);
    forall i | 0 <= i < |c.sections|
      ensures Left(s'.summary[i]) <= Left(s.summary[i])
    {
      assert InLayer(c.sections[i], s.layer, s.summary[i]);
    }
    LeftFalls(s.summary, s'.summary);
  }

  lemma WorkerSpends(s: State, g: Stage, i: nat, p: Phase)
    requires i < |Phases(s, g)| && Left(p) < Left(Phases(s, g)[i])
    ensures LeftBoth(Moved(s, g, i, p)) < LeftBoth(s)
  {
    LeftUpdate(Phases(s, g), i, p);
  }

  function Next(s: State, m: Move): Phase
    requires !m.NextLayer? && !m.Cancel?
  {
    match m
    case TakeSlot(_, _) => Slotted
    case GiveUpSlot(_, _) => Done(Skipped)
    case TakeGlobal(_, _) => Calling
    case GiveUpGlobal(_, _) => Leaving(Skipped)
    case Return(_, _, ok) => Leaving(if ok then Written else Failed)
    case Finish(g, i) => Done(if At(s, g, i).Leaving? then At(s, g, i).outcome else Skipped)
  }

  lemma OneWorkerMoves(c: Config, s: State, m: Move)
    requires |s.summary| == |s.hyde| == |c.sections| && Enabled(c, s, m) && !m.NextLayer? && !m.Cancel?
    ensures var s' := Step(c, s, m);
            var moved := Moved(s, m.g, m.i, Next(s, m));
            s'.summary == moved.summary && s'.hyde == moved.hyde && s'.layer == s.layer && s'.cancelled == s.cancelled
    ensures m.i < |Phases(s, m.g)| && Left(Next(s, m)) < Left(Phases(s, m.g)[m.i])
  {
  }

  /** Every move that is made brings the end nearer. */
  lemma MoveSpends(c: Config, s: State, m: Move)
    requires Invariant(c, s) && Enabled(c, s, m)
    ensures 0 <= Remaining(Step(c, s, m)) < Remaining(s)
  {
    if m.NextLayer? {
      NextLayerSpends(c, s);
    } else if !m.Cancel? {
      OneWorkerMoves(c, s, m);
      WorkerSpends(s, m.g, m.i, Next(s, m));
    }
  }

  /** Every move of the run was one that could be made. */
  predicate Real(c: Config, moves: seq<Move>) {
    moves == [] ||
    (var before := moves[..|moves| - 1]; Real(c, before) && Enabled(c, Run(c, before), moves[|moves| - 1]))
  }

  /** Runs are finite: no schedule makes more moves than there were to make at the start. So a run that
      is never abandoned ends, and by NeverDeadlocks it ends with both stages over. */
  lemma {:induction false} RunsEnd(c: Config, moves: seq<Move>)
    requires Real(c, moves)
    ensures |moves| + Remaining(Run(c, moves)) <= Remaining(Init(c)) && Remaining(Run(c, moves)) >= 0
    decreases |moves|
  {
    if moves != [] {
      var before := moves[..|moves| - 1];
      RunsEnd(c, before);
      RunInvariant(c, before);
      MoveSpends(c, Run(c, before), moves[|moves| - 1]);
    }
  }

  // ---------------------------------------------------------------- how the workers come out

  predicate CameTo(p: Phase, o: Outcome) { (p.Leaving? || p.Done?) && p.outcome == o }

  function OutcomeOf(ok: bool): Outcome { if ok then Written else Failed }

  lemma LayerCameTo(c: Config, s: State, g: Stage, i: nat, o: Outcome)
    requires Invariant(c, s) && Enabled(c, s, NextLayer) && i < |c.sections|
    ensures CameTo(At(Step(c, s, NextLayer), g, i), o) <==> CameTo(At(s, g, i), o)
  {
    assert InLayer(c.sections[i], s.layer, s.summary[i]);
  }

  lemma WorkerCameTo(c: Config, s: State, m: Move, g: Stage, i: nat, o: Outcome)
    requires |s.summary| == |s.hyde| == |c.sections| && Enabled(c, s, m) && !m.NextLayer? && !m.Cancel?
    ensures var at := if m.g == g && m.i == i then Next(s, m) else At(s, g, i);
            CameTo(At(Step(c, s, m), g, i), o) <==> CameTo(at, o)
  {
    OneWorkerMoves(c, s, m);
  }

  lemma OwnCameTo(c: Config, s: State, m: Move, ok: bool)
    requires |s.summary| == |s.hyde| == |c.sections| && Enabled(c, s, m) && !m.NextLayer? && !m.Cancel?
    ensures CameTo(Next(s, m), OutcomeOf(ok)) <==> CameTo(At(s, m.g, m.i), OutcomeOf(ok)) || m == Return(m.g, m.i, ok)
  {
  }

  lemma StepCameTo(c: Config, s: State, m: Move, g: Stage, i: nat, ok: bool)
    requires Invariant(c, s) && Enabled(c, s, m) && i < |c.sections|
    ensures CameTo(At(Step(c, s, m), g, i), OutcomeOf(ok))
            <==> CameTo(At(s, g, i), OutcomeOf(ok)) || m == Return(g, i, ok)
  {
    if m.NextLayer? {
      LayerCameTo(c, s, g, i, OutcomeOf(ok));
    } else if !m.Cancel? {
      WorkerCameTo(c, s, m, g, i, OutcomeOf(ok));
      OwnCameTo(c, s, m, ok);
    }
  }

  /** Move number a ends the worker's call, with or without an error. */
  predicate ReturnsAt(c: Config, moves: seq<Move>, a: nat, g: Stage, i: nat, ok: bool)
    requires a < |moves|
  {
    moves[a] == Return(g, i, ok) && At(Run(c, moves[..a]), g, i).Calling?
  }

  ghost predicate Returned(c: Config, moves: seq<Move>, g: Stage, i: nat, ok: bool) {
    exists a :: 0 <= a < |moves| && ReturnsAt(c, moves, a, g, i, ok)
  }

  lemma ReturnsSooner(c: Config, moves: seq<Move>, n: nat, g: Stage, i: nat, ok: bool)
    requires n + 1 == |moves|
    ensures Returned(c, moves, g, i, ok) <==> ReturnsAt(c, moves, n, g, i, ok) || Returned(c, moves[..n], g, i, ok)
  {
    var before := moves[..n];
    assert forall a | 0 <= a < |before| :: before[..a] == moves[..a];
    assert forall a | 0 <= a < |before| :: ReturnsAt(c, before, a, g, i, ok) <==> ReturnsAt(c, moves, a, g, i, ok);
  }

  /** A worker came to Written exactly when its call returned without an error, and to Failed exactly when it
      returned with one. */
  lemma {:induction false} OutcomeIsTheCalls(c: Config, moves: seq<Move>, g: Stage, i: nat, ok: bool)
    requires i < |c.sections|
    ensures CameTo(At(Run(c, moves), g, i), if ok then Written else Failed)
            <==> exists a :: 0 <= a < |moves| && ReturnsAt(c, moves, a, g, i, ok)
    decreases |moves|
  {
    if moves != [] {
      var n := |moves| - 1;
      var before := moves[..n];
      OutcomeIsTheCalls(c, before, g, i, ok);
      RunInvariant(c, before);
      ReturnsSooner(c, moves, n, g, i, ok);
      LastCameTo(c, Run(c, before), moves[n], g, i, ok);
    }
  }

  lemma LastCameTo(c: Config, s: State, m: Move, g: Stage, i: nat, ok: bool)
    requires Invariant(c, s) && i < |c.sections|
    ensures CameTo(At(Step(c, s, m), g, i), OutcomeOf(ok))
            <==> CameTo(At(s, g, i), OutcomeOf(ok)) || (m == Return(g, i, ok) && At(s, g, i).Calling?)
  {
    if Enabled(c, s, m) {
      StepCameTo(c, s, m, g, i, ok);
    }
  }

  // ---------------------------------------------------------------- what is done at the end

  predicate NotSkipped(p: Phase) {
    (p.Leaving? ==> p.outcome != Skipped) && (p.Done? ==> p.outcome != Skipped)
  }

  ghost predicate NoneSkipped(s: State) {
    (forall i | 0 <= i < |s.summary| :: NotSkipped(s.summary[i]))
        && (forall i | 0 <= i < |s.hyde| :: NotSkipped(s.hyde[i]))
  }

  lemma NoneSkippedStep(c: Config, s: State, m: Move)
    requires Invariant(c, s) && Enabled(c, s, m) && NoneSkipped(s) && !Step(c, s, m).cancelled
    ensures NoneSkipped(Step(c, s, m))
  {
    if !m.NextLayer? && !m.Cancel? && !m.GiveUpSlot? && !m.GiveUpGlobal? {
      NotSkippedMoved(s, m.g, m.i, Next(s, m));
    }
  }

  lemma NotSkippedMoved(s: State, g: Stage, i: nat, p: Phase)
    requires i < |Phases(s, g)| && NoneSkipped(s) && NotSkipped(p)
    ensures NoneSkipped(Moved(s, g, i, p))
  {
  }

  lemma {:induction false} NothingSkipped(c: Config, moves: seq<Move>)
    requires !Run(c, moves).cancelled
    ensures NoneSkipped(Run(c, moves))
    decreases |moves|
  {
    if moves != [] {
      var s, m := Run(c, moves[..|moves| - 1]), moves[|moves| - 1];
      NothingSkipped(c, moves[..|moves| - 1]);
      RunInvariant(c, moves[..|moves| - 1]);
      if Enabled(c, s, m) {
        NoneSkippedStep(c, s, m);
      }
    }
  }

  /** When both stages are over and nobody cancelled, every section that lacked a result was called for,
      exactly once. */
  lemma AllWorkIsDone(c: Config, moves: seq<Move>, g: Stage, i: nat)
    requires Finished(c, Run(c, moves)) && !Run(c, moves).cancelled && i < |c.sections|
    ensures (g, i) in Run(c, moves).calls <==> Lacks(c, g, i)
  {
    RunInvariant(c, moves);
    NothingSkipped(c, moves);
    var s := Run(c, moves);
    assert InLayer(c.sections[i], s.layer, s.summary[i]) && (s.hyde[i] == Idle <==> !Asks(c, i));
    assert NotSkipped(Phases(s, g)[i]);
  }

  // ---------------------------------------------------------------- the caps must leave room

  /** Without a slot for summaries the stages never get past the first section that needs one. */
  lemma NoSlotsNoEnd(c: Config, moves: seq<Move>, i: nat)
    requires c.summaryCap == 0 && i < |c.sections| && !c.sections[i].summarised && !Run(c, moves).cancelled
    ensures !Finished(c, Run(c, moves))
  {
    NoSlotsNoMoves(c, moves);
    RunInvariant(c, moves);
    var s := Run(c, moves);
    assert InLayer(c.sections[i], s.layer, s.summary[i]);
  }

  ghost predicate NoneStarted(s: State) {
    forall i | 0 <= i < |s.summary| :: s.summary[i] == Idle || s.summary[i] == Queued
  }

  lemma NoSlotsNoMove(c: Config, s: State, m: Move)
    requires |s.summary| == |s.hyde| == |c.sections| && c.summaryCap == 0 && NoneStarted(s) && !s.cancelled
    ensures NoneStarted(Step(c, s, m))
  {
  }

  lemma {:induction false} NoSlotsNoMoves(c: Config, moves: seq<Move>)
    requires c.summaryCap == 0 && !Run(c, moves).cancelled
    ensures NoneStarted(Run(c, moves))
    decreases |moves|
  {
    if moves != [] {
      var before := moves[..|moves| - 1];
      assert !Run(c, before).cancelled;
      NoSlotsNoMoves(c, before);
      NoSlotsNoMove(c, Run(c, before), moves[|moves| - 1]);
    }
  }
}
