/** The stop-and-wait telemetry session between the agent and an honest, in-order
    controller: both keep a baseline, and each delta is computed against the last
    acknowledged one. */
module Telemetry {
  import opened Common
  import opened Delta

  const MAX_SEQUENCE: nat := 0xffff_ffff_ffff_ffff

  /** The agent's side of one session. */
  datatype Agent = Agent(base: Option<Tree>, pending: Option<Tree>, revision: nat)

  const START := Agent(None, None, 0)

  datatype Update = Update(sequence: nat, delta: Delta)

  datatype Sampled = Skipped | Closed | Sent(update: Update)

  predicate Baselines(size: Tree -> nat, a: Agent) {
    && (a.base.Some? ==> Normalized(size, a.base.value))
    && (a.pending.Some? ==> Normalized(size, a.pending.value) && a.revision < MAX_SEQUENCE)
    && a.revision <= MAX_SEQUENCE
  }

  /** What a new sample does: nothing while an acknowledgement is outstanding. */
  ghost predicate SampleStep(size: Tree -> nat, a: Agent, sample: Tree, a2: Agent, r: Sampled)
    requires sample.Obj? && Baselines(size, a)
  {
    if a.pending.Some? then a2 == a && r.Skipped?
    else if Clone(size, sample).Err? || a.revision == MAX_SEQUENCE then a2 == a && r.Closed?
    else
      && a2 == a.(pending := Some(sample))
      && r.Sent? && r.update.sequence == a.revision + 1
      && Describes(r.update.delta, a.revision, a.base, sample)
  }

  function AckStep(a: Agent, ack: nat): Result<Agent> {
    if a.pending.None? || ack != a.revision + 1 then Err else Ok(Agent(a.pending, None, ack))
  }

  class Session {
    var base: Option<Tree>
    var pending: Option<Tree>
    var revision: nat

    ghost function Value(): Agent
      reads this
    {
      Agent(base, pending, revision)
    }

    constructor ()
      ensures Value() == START
    {
      base, pending, revision := None, None, 0;
    }

    method OnSample(size: Tree -> nat, bytes: Delta -> nat, sample: Tree) returns (r: Sampled)
      requires sample.Obj? && Baselines(size, Value())
      modifies this
      ensures SampleStep(size, old(Value()), sample, Value(), r) && Baselines(size, Value())
      ensures r.Sent? <==>
        old(pending).None? && old(revision) < MAX_SEQUENCE && size(sample) <= MAX_PACKET && Bounded(sample, 0)
      ensures
        r.Sent? && old(base).Some? && Generation(old(base).value) == Generation(sample) &&
        PatchesAreShorter(bytes, old(revision), old(base), sample)
        ==> !r.update.delta.full
    {
      if pending.Some? { return Skipped; }
      var next := Clone(size, sample);
      if next.Err? || revision == MAX_SEQUENCE { return Closed; }
      var delta := MakeObservationDelta(bytes, revision, base, next.value);
      pending := Some(next.value);
      r := Sent(Update(revision + 1, delta));
    }

    method OnAck(ack: nat) returns (ok: bool)
      modifies this
      ensures ok <==> AckStep(old(Value()), ack).Ok?
      ensures ok <==> old(pending).Some? && ack == old(revision) + 1
      ensures Value() == if ok then AckStep(old(Value()), ack).value else old(Value())
    {
      if pending.None? || ack != revision + 1 { return false; }
      base, pending, revision := pending, None, ack;
      ok := true;
    }
  }

  // ----- Two parties -----

  /** The receiver: it applies the next update, and acknowledges it once, at some
      later time. */
  datatype Controller = Controller(sequence: nat, baseline: Option<Tree>, acked: nat)

  /** Updates and acknowledgements in flight, in order, and whether a party has refused
      what it received. `samples` are the snapshots taken in this session. */
  datatype System = System(agent: Agent, controller: Controller, up: seq<Update>, down: seq<nat>,
                           samples: set<Tree>, refusedUpdate: bool, refusedAck: bool)

  const FRESH := System(START, Controller(0, None, 0), [], [], {}, false, false)

  function Receive(size: Tree -> nat, c: Controller, u: Update): Result<Controller>
    requires (c.baseline.Some? ==> c.baseline.value.Obj?) && (u.delta.patch.Some? ==> u.delta.patch.value.Obj?)
  {
    if u.sequence != c.sequence + 1 || (c.sequence == 0 && !u.delta.full) then Err
    else
      var next := Apply(size, c.sequence, c.baseline, u.delta);
      if next.Err? then Err else Ok(Controller(c.sequence + 1, Some(next.value), c.acked))
  }

  predicate WellTyped(s: System) {
    && (s.controller.baseline.Some? ==> s.controller.baseline.value.Obj?)
    && forall u | u in s.up :: u.delta.patch.Some? ==> u.delta.patch.value.Obj?
  }

  datatype Event = Sample(sample: Tree, outcome: Sampled) | Deliver | Acknowledge | Confirm | Reconnect

  /** The guard holds in every reachable state; it only makes the rest well defined. */
  ghost predicate Step(size: Tree -> nat, s: System, e: Event, s2: System) {
    WellTyped(s) && Baselines(size, s.agent) &&
    match e
    case Sample(sample, outcome) =>
      && sample.Obj? && sample.fields != map[]
      && SampleStep(size, s.agent, sample, s2.agent, outcome)
      && s2 == if outcome.Closed? then FRESH
               else if outcome.Skipped? then s
               else s.(agent := s2.agent, samples := s.samples + {sample},
                       up := s.up + [outcome.update.(delta := OverTheWire(outcome.update.delta))])
    case Deliver =>
      && s.up != []
      && var c := Receive(size, s.controller, s.up[0]);
         s2 == if c.Ok? then s.(controller := c.value, up := s.up[1..]) else s.(refusedUpdate := true)
    case Acknowledge =>
      && s.controller.acked < s.controller.sequence
      && s2 == s.(controller := s.controller.(acked := s.controller.sequence), down := s.down + [s.controller.sequence])
    case Confirm =>
      && s.down != []
      && var a := AckStep(s.agent, s.down[0]);
         s2 == if a.Ok? then s.(agent := a.value, down := s.down[1..]) else s.(refusedAck := true)
    case Reconnect => s2 == FRESH
  }

  /** Where an update is on its round: nowhere, on its way, applied, acknowledged. */
  ghost predicate InStep(size: Tree -> nat, s: System)
    requires Baselines(size, s.agent)
  {
    var a, c := s.agent, s.controller;
    if a.pending.None? then
      s.up == [] && s.down == [] && c == Controller(a.revision, a.base, a.revision)
    else if s.up != [] then
      && s.down == [] && c == Controller(a.revision, a.base, a.revision)
      && |s.up| == 1 && s.up[0].sequence == a.revision + 1
      && exists d :: s.up[0].delta == OverTheWire(d) && Describes(d, a.revision, a.base, a.pending.value)
    else
      && c.sequence == a.revision + 1 && c.baseline == a.pending
      && (if c.acked == a.revision then s.down == [] else c.acked == c.sequence && s.down == [c.sequence])
  }

  ghost predicate Inv(size: Tree -> nat, s: System) {
    && Baselines(size, s.agent) && WellTyped(s)
    && (s.agent.base.None? <==> s.agent.revision == 0)
    && (s.agent.base.Some? ==> s.agent.base.value in s.samples)
    && (s.agent.pending.Some? ==> s.agent.pending.value in s.samples && s.agent.pending.value.fields != map[])
    && InStep(size, s) && !s.refusedUpdate && !s.refusedAck
  }

  lemma FreshInv(size: Tree -> nat)
    ensures Inv(size, FRESH)
  {}

  lemma SampleKeepsInv(size: Tree -> nat, s: System, e: Event, s2: System)
    requires Inv(size, s) && e.Sample? && Step(size, s, e, s2)
    ensures Inv(size, s2)
  {
    if e.outcome.Sent? {
      var d := e.outcome.update.delta;
      assert s2.up == [e.outcome.update.(delta := OverTheWire(d))];
      assert Describes(d, s2.agent.revision, s2.agent.base, s2.agent.pending.value);
    } else {
      FreshInv(size);
    }
  }

  /** The update in flight always applies, and yields the agent's pending sample. */
  lemma DeliverKeepsInv(size: Tree -> nat, s: System, s2: System)
    requires Inv(size, s) && Step(size, s, Deliver, s2)
    ensures Inv(size, s2) && s2.controller.baseline == s.agent.pending
  {
    var a, u := s.agent, s.up[0];
    var d :| u.delta == OverTheWire(d) && Describes(d, a.revision, a.base, a.pending.value);
    RoundTripOverTheWire(size, a.revision, a.base, a.pending.value, d);
    assert a.revision == 0 ==> d.full;
  }

  lemma StepKeepsInv(size: Tree -> nat, s: System, e: Event, s2: System)
    requires Inv(size, s) && Step(size, s, e, s2)
    ensures Inv(size, s2)
  {
    match e
    case Sample(_, _) => SampleKeepsInv(size, s, e, s2);
    case Deliver => DeliverKeepsInv(size, s, s2);
    case Acknowledge =>
    case Confirm =>
    case Reconnect => FreshInv(size);
  }

  ghost predicate Run(size: Tree -> nat, ss: seq<System>, es: seq<Event>) {
    && |ss| == |es| + 1 && ss[0] == FRESH
    && forall i | 0 <= i < |es| :: Step(size, ss[i], es[i], ss[i + 1])
  }

  lemma {:induction false} RunsKeepInv(size: Tree -> nat, ss: seq<System>, es: seq<Event>, i: nat)
    requires Run(size, ss, es) && i < |ss|
    ensures Inv(size, ss[i])
  {
    if i == 0 {
      FreshInv(size);
    } else {
      RunsKeepInv(size, ss, es, i - 1);
      StepKeepsInv(size, ss[i - 1], es[i - 1], ss[i]);
    }
  }

  /** On every run the controller stands at the agent's acknowledged baseline or at its
      pending one, holds only complete samples, and neither party refuses the other. */
  lemma BaselinesAgree(size: Tree -> nat, ss: seq<System>, es: seq<Event>, i: nat)
    requires Run(size, ss, es) && i < |ss|
    ensures var a, c := ss[i].agent, ss[i].controller;
      && (|| (c.sequence == a.revision && c.baseline == a.base)
          || (a.pending.Some? && c.sequence == a.revision + 1 && c.baseline == a.pending))
      && (c.baseline.Some? ==> c.baseline.value in ss[i].samples)
      && !ss[i].refusedUpdate && !ss[i].refusedAck
  {
    RunsKeepInv(size, ss, es, i);
  }

  /** No update is ever computed against a baseline the controller has not confirmed. */
  lemma DeltasUseAcknowledgedBaselines(size: Tree -> nat, ss: seq<System>, es: seq<Event>, i: nat)
    requires Run(size, ss, es) && i < |es| && es[i].Sample? && es[i].outcome.Sent?
    ensures var c := ss[i].controller;
      && c.acked == c.sequence && ss[i].up == [] && ss[i].down == []
      && es[i].outcome.update.delta.base == c.sequence && ss[i].agent.base == c.baseline
  {
    RunsKeepInv(size, ss, es, i);
    assert Step(size, ss[i], es[i], ss[i + 1]);
  }
}
