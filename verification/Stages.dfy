/** The two enrichment stages of one document side by side: summaries, layer by layer from the deepest
    sections up, and HyDE questions for the leaves. Every call to the language model needs a slot of its
    stage's semaphore and then one of the semaphore both stages share. */
module Stages {

  datatype Section = Section(parent: int, depth: nat, summarised: bool, asked: bool)  // parent: -1 for none

  /** `global` is zero when there is no shared cap. */
  datatype Config = Config(sections: seq<Section>, summaryCap: nat, hydeCap: nat, global: nat)

  datatype Outcome = Written | Failed | Skipped

  /** A setting of zero or less is its default. */
  function Setting(n: int, default: nat): nat { if n <= 0 then default else n }

  /** The caps NewPipeline fills in; a negative shared cap does not switch it off. */
  function Pipeline(sections: seq<Section>, summary: int, hyde: int, global: int): Config {
    Config(sections, Setting(summary, 4), Setting(hyde, 4), Setting(global, 12))
  }

  /** One worker's progress: not started, waiting for its stage's slot, holding it and waiting for a
      shared one, calling, past the call with the stage's slot still held, or done. */
  datatype Phase = Idle | Queued | Slotted | Calling | Leaving(outcome: Outcome) | Done(outcome: Outcome)

  datatype Stage = Summary | Hyde

  datatype State = State(
    layer: int,             // the depth being summarised; -1 when no layer is left
    summary: seq<Phase>,
    hyde: seq<Phase>,
    summarySem: nat,        // slots taken
    hydeSem: nat,
    globalSem: nat,
    cancelled: bool,
    calls: seq<(Stage, nat)>  // every call ever started, in order
  )

  predicate Holding(p: Phase) { p.Slotted? || p.Calling? || p.Leaving? }

  function Phases(s: State, g: Stage): seq<Phase> { if g == Summary then s.summary else s.hyde }

  function Sem(s: State, g: Stage): nat { if g == Summary then s.summarySem else s.hydeSem }

  function Cap(c: Config, g: Stage): nat { if g == Summary then c.summaryCap else c.hydeCap }

  function Moved(s: State, g: Stage, i: nat, p: Phase): State
    requires i < |Phases(s, g)|
  {
    if g == Summary then s.(summary := s.summary[i := p]) else s.(hyde := s.hyde[i := p])
  }

  function WithSem(s: State, g: Stage, n: nat): State {
    if g == Summary then s.(summarySem := n) else s.(hydeSem := n)
  }

  // ---------------------------------------------------------------- the work there is

  predicate HasChildren(c: Config, i: nat) { exists j :: 0 <= j < |c.sections| && c.sections[j].parent == i }

  predicate Summarises(c: Config, i: nat)
    requires i < |c.sections|
  {
    !c.sections[i].summarised
  }

  predicate Asks(c: Config, i: nat)
    requires i < |c.sections|
  {
    !HasChildren(c, i) && !c.sections[i].asked
  }

  function Deepest(sections: seq<Section>): nat {
    if sections == [] then 0
    else
      var d, m := sections[|sections| - 1].depth, Deepest(sections[..|sections| - 1]);
      if d > m then d else m
  }

  /** The workers of a layer are queued when it begins. */
  function Begun(c: Config, layer: int, summary: seq<Phase>): (r: seq<Phase>)
    requires |summary| == |c.sections|
    ensures |r| == |summary|
  {
    seq(|summary|, i requires 0 <= i < |summary| =>
      if c.sections[i].depth == layer && Summarises(c, i) then Queued else summary[i])
  }

  /** Both stages start at once: the deepest layer of summaries and every leaf's questions. */
  function Init(c: Config): State {
    var idle := seq(|c.sections|, _ => Idle);
    State(Deepest(c.sections),
          Begun(c, Deepest(c.sections), idle),
          seq(|c.sections|, i requires 0 <= i < |c.sections| => if Asks(c, i) then Queued else Idle),
          0, 0, 0, false, [])
  }

  predicate LayerDone(c: Config, s: State)
    requires |s.summary| == |c.sections|
  {
    forall i | 0 <= i < |c.sections| && c.sections[i].depth == s.layer && Summarises(c, i) :: s.summary[i].Done?
  }

  // ---------------------------------------------------------------- steps

  datatype Move =
    | TakeSlot(g: Stage, i: nat)
    | GiveUpSlot(g: Stage, i: nat)     // cancelled while waiting for the stage's slot
    | TakeGlobal(g: Stage, i: nat)     // and the call starts
    | GiveUpGlobal(g: Stage, i: nat)   // cancelled while waiting for the shared slot
    | Return(g: Stage, i: nat, ok: bool)
    | Finish(g: Stage, i: nat)
    | NextLayer
    | Cancel

  function At(s: State, g: Stage, i: nat): Phase {
    if i < |Phases(s, g)| then Phases(s, g)[i] else Idle
  }

  predicate GlobalFree(c: Config, s: State) { c.global == 0 || s.globalSem < c.global }

  predicate Enabled(c: Config, s: State, m: Move)
    requires |s.summary| == |s.hyde| == |c.sections|
  {
    match m
    case TakeSlot(g, i) => At(s, g, i).Queued? && Sem(s, g) < Cap(c, g)
    case GiveUpSlot(g, i) => At(s, g, i).Queued? && s.cancelled
    case TakeGlobal(g, i) => At(s, g, i).Slotted? && GlobalFree(c, s)
    case GiveUpGlobal(g, i) => At(s, g, i).Slotted? && s.cancelled && c.global > 0
    case Return(g, i, _) => At(s, g, i).Calling?
    case Finish(g, i) => At(s, g, i).Leaving?
    case NextLayer => s.layer >= 0 && LayerDone(c, s)
    case Cancel => !s.cancelled
  }

  /** A move that is not enabled changes nothing. */
  function Step(c: Config, s: State, m: Move): (s': State)
    requires |s.summary| == |s.hyde| == |c.sections|
    ensures |s'.summary| == |s'.hyde| == |c.sections|
  {
    if !Enabled(c, s, m) then s
    else match m
      case TakeSlot(g, i) => WithSem(Moved(s, g, i, Slotted), g, Sem(s, g) + 1)
      case GiveUpSlot(g, i) => Moved(s, g, i, Done(Skipped))
      case TakeGlobal(g, i) =>
        Moved(s, g, i, Calling).(globalSem := s.globalSem + 1, calls := s.calls + [(g, i)])
      case GiveUpGlobal(g, i) => Moved(s, g, i, Leaving(Skipped))
      case Return(g, i, ok) =>
        var left := Moved(s, g, i, Leaving(if ok then Written else Failed));
        left.(globalSem := if s.globalSem > 0 then s.globalSem - 1 else 0)
      case Finish(g, i) =>
        WithSem(Moved(s, g, i, Done(At(s, g, i).outcome)), g, if Sem(s, g) > 0 then Sem(s, g) - 1 else 0)
      case NextLayer => s.(layer := s.layer - 1, summary := Begun(c, s.layer - 1, s.summary), summarySem := 0)
      case Cancel => s.(cancelled := true)
  }

  function Run(c: Config, moves: seq<Move>): (s: State)
    ensures |s.summary| == |s.hyde| == |c.sections|
  {
    if moves == [] then Init(c) else Step(c, Run(c, moves[..|moves| - 1]), moves[|moves| - 1])
  }
}
