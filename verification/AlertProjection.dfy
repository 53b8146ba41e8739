/** The engine seen through one condition key. Whatever else happens in a run, a key evolves as the
    single-key machine does on the key's own observations, so the guarantees proved for that machine
    hold of the notices the engine generates. */
module AlertProjection {
  import opened Units
  import opened Options
  import opened AlertRules
  import opened AlertKey
  import opened AlertState
  import opened AlertInvariants
  import opened AlertTheorems

  // ---------------------------------------------------------------- the view of one key

  ghost function KeyOf(g: State, k: string): KeyState
    requires Linked(g)
  {
    if k !in g.conds then Untracked else Tracked(g.conds[k].timers, FiringOf(g, g.conds[k]))
  }

  ghost function EmissionOf(n: Notice): Emission {
    Emission(n.t, n.alert.severity, if n.t == Cleared then n.alert.resolved else n.alert.last)
  }

  /** The condition transitions of one key in the log, in order. */
  ghost function Emissions(log: seq<Notice>, k: string): seq<Emission> {
    if log == [] then []
    else
      var n := log[|log| - 1];
      Emissions(log[..|log| - 1], k) + if n.alert.kind == Condition && n.alert.key == k then [EmissionOf(n)] else []
  }

  lemma EmissionsSnoc(log: seq<Notice>, n: Notice, k: string)
    ensures Emissions(log + [n], k) ==
            Emissions(log, k) + if n.alert.kind == Condition && n.alert.key == k then [EmissionOf(n)] else []
  {
    assert (log + [n])[..|log|] == log;
  }

  /** The view of key k advanced by r: its state, and its transition appended to the log. */
  ghost predicate Advanced(g: State, g': State, k: string, r: KeyResult)
    requires Linked(g) && Linked(g')
  {
    KeyOf(g', k) == r.state && Emissions(g'.log, k) == Emissions(g.log, k) + Seq(r.out)
  }

  ghost predicate Unmoved(g: State, g': State, k: string)
    requires Linked(g) && Linked(g')
  {
    && KeyOf(g', k) == KeyOf(g, k) && Emissions(g'.log, k) == Emissions(g.log, k)
    && (k in g.conds ==> g'.conds[k].lastSampled == g.conds[k].lastSampled)
  }

  // ---------------------------------------------------------------- single steps

  lemma RaiseLeavesKey(cfg: Config, g: State, incoming: Alert, clock: Time, k: string)
    requires Inv(g)
    ensures Unmoved(g, Raise(cfg, g, incoming, clock), k)
  {
    var a := Normalize(incoming, clock);
    if incoming.rule !in cfg.mute {
      if InWindow(cfg, g, a) {
        EmissionsSnoc(g.log, Notice(Repeat(g.alerts[g.events[a.key]], a), Repeated), k);
      } else {
        EmissionsSnoc(g.log, Notice(NewEvent(a, |g.alerts| + 1), Raised), k);
      }
    }
  }

  lemma StepLeavesOthers(cfg: Config, g: State, s: Sample, now: Time, k: string)
    requires Inv(g) && SampleKey(s) != k
    ensures Unmoved(g, Step(cfg, g, s, now), k)
  {
    var g' := Step(cfg, g, s, now);
    if g'.log != g.log {
      var n := g'.log[|g.log|];
      assert g'.log == g.log + [n];
      EmissionsSnoc(g.log, n, k);
    }
  }

  lemma QuietStepAdvances(cfg: Config, g: State, s: Sample, now: Time)
    requires Inv(g) && CondOf(g, SampleKey(s)).alert.None?
    ensures Advanced(g, Step(cfg, g, s, now), SampleKey(s), KeySample(cfg, KeyOf(g, SampleKey(s)), s, now))
  {
    EmissionsSnoc(g.log, Notice(NewCondition(s, |g.alerts| + 1, now), Raised), SampleKey(s));
  }

  lemma FiringStepAdvances(cfg: Config, g: State, s: Sample, now: Time)
    requires Inv(g) && CondOf(g, SampleKey(s)).alert.Some?
    ensures Advanced(g, Step(cfg, g, s, now), SampleKey(s), KeySample(cfg, KeyOf(g, SampleKey(s)), s, now))
  {
    var g' := Step(cfg, g, s, now);
    if g'.log != g.log {
      var n := g'.log[|g.log|];
      assert g'.log == g.log + [n];
      EmissionsSnoc(g.log, n, SampleKey(s));
    }
  }

  lemma StepAdvances(cfg: Config, g: State, s: Sample, now: Time)
    requires Inv(g)
    ensures var k := SampleKey(s);
            var g' := Step(cfg, g, s, now);
            Advanced(g, g', k, KeySample(cfg, KeyOf(g, k), s, now)) && g'.conds[k].lastSampled == now
  {
    if CondOf(g, SampleKey(s)).alert.None? {
      QuietStepAdvances(cfg, g, s, now);
    } else {
      FiringStepAdvances(cfg, g, s, now);
    }
  }

  lemma SweepKeyLeavesOthers(g: State, x: string, now: Time, k: string)
    requires Inv(g) && (x != k || k !in g.conds || g.conds[k].lastSampled == now)
    ensures Unmoved(g, SweepKey(g, x, now), k)
  {
    if x in g.conds && g.conds[x].lastSampled != now && g.conds[x].alert.Some? {
      EmissionsSnoc(g.log, Notice(Close(g.alerts[g.conds[x].alert.value], now), Cleared), k);
    }
  }

  lemma SweepKeyAdvances(g: State, k: string, now: Time)
    requires Inv(g) && k in g.conds && g.conds[k].lastSampled != now
    ensures Advanced(g, SweepKey(g, k, now), k, KeyVanish(KeyOf(g, k), now))
  {
    if g.conds[k].alert.Some? {
      EmissionsSnoc(g.log, Notice(Close(g.alerts[g.conds[k].alert.value], now), Cleared), k);
    }
  }

  lemma {:induction false} ExpireLeavesKey(cfg: Config, g: State, order: seq<string>, now: Time, k: string)
    requires Inv(g)
    ensures Unmoved(g, Expire(cfg, g, order, now), k)
  {
    if order != [] {
      var init := order[..|order| - 1];
      var x := order[|order| - 1];
      ExpireLeavesKey(cfg, g, init, now, k);
      ExpireKeepsInv(cfg, g, init, now);
      var g1 := Expire(cfg, g, init, now);
      if x in g1.events {
        EmissionsSnoc(g1.log, Notice(g1.alerts[g1.events[x]], Summarized), k);
      }
    }
  }

  // ---------------------------------------------------------------- one tick

  /** The sample a tick holds for a key: the last unmuted one. */
  ghost function TickSample(cfg: Config, samples: seq<Sample>, k: string): Option<Sample> {
    if samples == [] then None
    else
      var s := samples[|samples| - 1];
      if s.rule !in cfg.mute && SampleKey(s) == k then Some(s) else TickSample(cfg, samples[..|samples| - 1], k)
  }

  /** No key is sampled twice in a tick. */
  ghost predicate OnePerKey(cfg: Config, samples: seq<Sample>) {
    forall i, j :: 0 <= i < j < |samples| && samples[i].rule !in cfg.mute && samples[j].rule !in cfg.mute ==>
      SampleKey(samples[i]) != SampleKey(samples[j])
  }

  lemma {:induction false} NotSampled(cfg: Config, samples: seq<Sample>, k: string)
    requires forall s :: s in samples && s.rule !in cfg.mute ==> SampleKey(s) != k
    ensures TickSample(cfg, samples, k) == None
  {
    if samples != [] {
      NotSampled(cfg, samples[..|samples| - 1], k);
    }
  }

  /** What processing a tick's sample for key k, if any, does to its view. */
  ghost predicate Sampled(cfg: Config, g: State, g': State, sample: Option<Sample>, now: Time, k: string)
    requires Linked(g) && Linked(g')
  {
    match sample
    case None => Unmoved(g, g', k)
    case Some(s) =>
      Advanced(g, g', k, KeySample(cfg, KeyOf(g, k), s, now)) && k in g'.conds && g'.conds[k].lastSampled == now
  }

  lemma SampledNext(cfg: Config, g: State, g1: State, sample: Option<Sample>, s: Sample, now: Time, k: string)
    requires Linked(g) && Inv(g1) && Sampled(cfg, g, g1, sample, now, k)
    requires SampleKey(s) == k ==> sample == None
    ensures Sampled(cfg, g, Step(cfg, g1, s, now), if SampleKey(s) == k then Some(s) else sample, now, k)
  {
    if SampleKey(s) == k {
      StepAdvances(cfg, g1, s, now);
    } else {
      StepLeavesOthers(cfg, g1, s, now, k);
    }
  }

  lemma {:induction false} SamplesProject(cfg: Config, g: State, samples: seq<Sample>, now: Time, k: string)
    requires Inv(g) && OnePerKey(cfg, samples)
    ensures Sampled(cfg, g, Samples(cfg, g, samples, now), TickSample(cfg, samples, k), now, k)
  {
    if samples != [] {
      var init := samples[..|samples| - 1];
      var s := samples[|samples| - 1];
      SamplesProject(cfg, g, init, now, k);
      if s.rule !in cfg.mute {
        if SampleKey(s) == k {
          NotSampled(cfg, init, k);
        }
        SamplesKeepInv(cfg, g, init, now);
        SampledNext(cfg, g, Samples(cfg, g, init, now), TickSample(cfg, init, k), s, now, k);
      }
    }
  }

  /** The sweep forgets the key exactly when it was not sampled this tick. */
  lemma {:induction false} SweepProjects(g: State, order: seq<string>, now: Time, k: string)
    requires Inv(g)
    ensures var g' := Sweep(g, order, now);
            if k in order && k in g.conds && g.conds[k].lastSampled != now
            then Advanced(g, g', k, KeyVanish(KeyOf(g, k), now))
            else Unmoved(g, g', k)
  {
    if order != [] {
      var init := order[..|order| - 1];
      var x := order[|order| - 1];
      SweepProjects(g, init, now, k);
      SweepKeepsInv(g, init, now);
      var g1 := Sweep(g, init, now);
      if x == k && k in g1.conds && g1.conds[k].lastSampled != now {
        SweepKeyAdvances(g1, k, now);
      } else {
        SweepKeyLeavesOthers(g1, x, now, k);
      }
    }
  }

  /** One tick moves a key as one step of the single-key machine. */
  lemma EvaluateProjects(cfg: Config, g: State, now: Time, samples: seq<Sample>,
                         order: seq<string>, eventOrder: seq<string>, k: string)
    requires Inv(g) && OnePerKey(cfg, samples)
    requires WalksAll(cfg, g, EvaluateOp(now, samples, order, eventOrder))
    requires k in g.conds ==> g.conds[k].lastSampled != now
    ensures var g' := Evaluate(cfg, g, now, samples, order, eventOrder);
            && Advanced(g, g', k, KeyStep(cfg, KeyOf(g, k), Obs(now, TickSample(cfg, samples, k))))
            && (k in g'.conds ==> g'.conds[k].lastSampled == now)
  {
    var g1 := Samples(cfg, g, samples, now);
    var g2 := Sweep(g1, order, now);
    SamplesProject(cfg, g, samples, now, k);
    SamplesKeepInv(cfg, g, samples, now);
    SweepProjects(g1, order, now, k);
    SweepKeepsInv(g1, order, now);
    ExpireLeavesKey(cfg, g2, eventOrder, now, k);
  }

  // ---------------------------------------------------------------- whole runs

  ghost function ObsOf(cfg: Config, op: Op, k: string): seq<Obs> {
    if op.EvaluateOp? then [Obs(op.now, TickSample(cfg, op.samples, k))] else []
  }

  /** What a run shows of a key: one observation per tick. */
  ghost function Stream(cfg: Config, ops: seq<Op>, k: string): seq<Obs> {
    if ops == [] then [] else Stream(cfg, ops[..|ops| - 1], k) + ObsOf(cfg, ops[|ops| - 1], k)
  }

  /** The time of the last tick, or the zero time. */
  ghost function LastTick(ops: seq<Op>): Time {
    if ops == [] then ZERO_TIME
    else if ops[|ops| - 1].EvaluateOp? then ops[|ops| - 1].now
    else LastTick(ops[..|ops| - 1])
  }

  /** A tick after `last` with at most one sample per key. */
  ghost predicate RegularOp(cfg: Config, last: Time, op: Op) {
    op.EvaluateOp? ==> last < op.now && OnePerKey(cfg, op.samples)
  }

  /** Ticks come at increasing times with at most one sample per key. */
  ghost predicate RegularRun(cfg: Config, ops: seq<Op>) {
    ops == [] ||
    var init := ops[..|ops| - 1];
    RegularRun(cfg, init) && RegularOp(cfg, LastTick(init), ops[|ops| - 1])
  }

  ghost predicate OrderlyOp(cfg: Config, g: State, last: Time, op: Op)
    requires Linked(g)
  {
    RegularOp(cfg, last, op) && WalksAll(cfg, g, op)
  }

  /** Every tick of the run is regular and walks the tables completely. */
  ghost predicate OrderlyRun(cfg: Config, ops: seq<Op>) {
    RegularRun(cfg, ops) && AllWalked(cfg, ops)
  }

  lemma TimelySnoc(obs: seq<Obs>, o: Obs)
    requires Timely(obs) && (if obs == [] then ZERO_TIME else obs[|obs| - 1].now) < o.now
    ensures Timely(obs + [o])
  {
  }

  lemma {:induction false} StreamTimely(cfg: Config, ops: seq<Op>, k: string)
    requires OrderlyRun(cfg, ops)
    ensures var obs := Stream(cfg, ops, k);
            && Timely(obs)
            && LastTick(ops) == if obs == [] then ZERO_TIME else obs[|obs| - 1].now
  {
    if ops != [] {
      var init := ops[..|ops| - 1];
      var op := ops[|ops| - 1];
      StreamTimely(cfg, init, k);
      if op.EvaluateOp? {
        TimelySnoc(Stream(cfg, init, k), Obs(op.now, TickSample(cfg, op.samples, k)));
      }
    }
  }

  /** The engine's view of key k is the single-key machine's after observations `obs`. */
  ghost predicate Mirrors(cfg: Config, g: State, obs: seq<Obs>, k: string)
    requires Linked(g)
  {
    && KeyOf(g, k) == KeyRun(cfg, obs)
    && Emissions(g.log, k) == KeyOutputs(cfg, obs)
    && (k in g.conds ==> obs != [] && g.conds[k].lastSampled == obs[|obs| - 1].now)
  }

  lemma MirrorsNext(cfg: Config, g: State, g': State, obs: seq<Obs>, o: Obs, k: string)
    requires Linked(g) && Linked(g') && Mirrors(cfg, g, obs, k)
    requires Advanced(g, g', k, KeyStep(cfg, KeyOf(g, k), o)) && (k in g'.conds ==> g'.conds[k].lastSampled == o.now)
    ensures Mirrors(cfg, g', obs + [o], k)
  {
    assert (obs + [o])[..|obs|] == obs;
  }

  lemma MirrorsApply(cfg: Config, g: State, op: Op, obs: seq<Obs>, k: string)
    requires Inv(g) && Mirrors(cfg, g, obs, k)
    requires OrderlyOp(cfg, g, if obs == [] then ZERO_TIME else obs[|obs| - 1].now, op)
    ensures Mirrors(cfg, Apply(cfg, g, op), obs + ObsOf(cfg, op, k), k)
  {
    match op
    case RaiseOp(a, clock) =>
      RaiseLeavesKey(cfg, g, a, clock, k);
      assert obs + [] == obs;
    case EvaluateOp(now, samples, order, eventOrder) =>
      EvaluateProjects(cfg, g, now, samples, order, eventOrder, k);
      MirrorsNext(cfg, g, Apply(cfg, g, op), obs, Obs(now, TickSample(cfg, samples, k)), k);
  }

  /** Over every orderly run the engine's state of a key is the single-key machine's, and the
      condition transitions it generates for the key are exactly those of that machine. */
  lemma {:induction false} RunMirrors(cfg: Config, ops: seq<Op>, k: string)
    requires OrderlyRun(cfg, ops)
    ensures Mirrors(cfg, Run(cfg, ops), Stream(cfg, ops, k), k)
  {
    if ops != [] {
      var init := ops[..|ops| - 1];
      RunMirrors(cfg, init, k);
      RunKeepsInv(cfg, init);
      StreamTimely(cfg, init, k);
      MirrorsApply(cfg, Run(cfg, init), ops[|ops| - 1], Stream(cfg, init, k), k);
    }
  }

  /** Tracked keys. After every tick of an orderly run the engine tracks exactly the unmuted keys
      sampled in that tick. */
  lemma TrackedAreSampled(cfg: Config, ops: seq<Op>, k: string)
    requires OrderlyRun(cfg, ops) && ops != [] && ops[|ops| - 1].EvaluateOp?
    ensures k in Run(cfg, ops).conds <==> TickSample(cfg, ops[|ops| - 1].samples, k).Some?
  {
    RunMirrors(cfg, ops, k);
  }

  /** The engine refines the declarative reading: over every orderly run a key is firing, at the
      severity the stream calls for, exactly when the declarative phase of its stream says so, and
      the transitions in the log are exactly the ones due. */
  lemma EngineRefinesHistory(cfg: Config, ops: seq<Op>, k: string)
    requires OrderlyRun(cfg, ops)
    ensures var obs := Stream(cfg, ops, k);
            && Emissions(Run(cfg, ops).log, k) == AllDue(cfg, obs)
            && (match Expected(cfg, obs)
                case Quiet => !KeyOf(Run(cfg, ops), k).Tracked? || KeyOf(Run(cfg, ops), k).firing == None
                case Firing(_, sev) => KeyOf(Run(cfg, ops), k).Tracked? && KeyOf(Run(cfg, ops), k).firing == Some(sev))
  {
    RunMirrors(cfg, ops, k);
    StreamTimely(cfg, ops, k);
    MachineRefinesHistory(cfg, Stream(cfg, ops, k));
  }

  // ---------------------------------------------------------------- no flapping, in the log

  /** Every unmuted sample of key k keeps its clear level outside its alert bands. */
  ghost predicate WellPlacedRun(cfg: Config, ops: seq<Op>, k: string) {
    forall i, s :: 0 <= i < |ops| && ops[i].EvaluateOp? && s in ops[i].samples && s.rule !in cfg.mute && SampleKey(s) == k ==>
      ClearLevelOutside(s.level, s.lowerWorse, cfg.clearRatio)
  }

  lemma {:induction false} TickSampleIn(cfg: Config, samples: seq<Sample>, k: string)
    ensures var s := TickSample(cfg, samples, k);
            s.Some? ==> s.value in samples && s.value.rule !in cfg.mute && SampleKey(s.value) == k
  {
    if samples != [] {
      TickSampleIn(cfg, samples[..|samples| - 1], k);
    }
  }

  lemma {:induction false} StreamWellPlaced(cfg: Config, ops: seq<Op>, k: string)
    requires WellPlacedRun(cfg, ops, k)
    ensures WellPlaced(cfg, Stream(cfg, ops, k))
  {
    if ops != [] {
      StreamWellPlaced(cfg, ops[..|ops| - 1], k);
      if ops[|ops| - 1].EvaluateOp? {
        TickSampleIn(cfg, ops[|ops| - 1].samples, k);
      }
    }
  }

  /** No flapping. Over every orderly run, a Raised of a key comes at least raiseAfter after every
      earlier Cleared of that key. */
  lemma EngineNeverFlaps(cfg: Config, ops: seq<Op>, k: string, p: nat, q: nat)
    requires OrderlyRun(cfg, ops) && WellPlacedRun(cfg, ops, k)
    requires p < q < |Emissions(Run(cfg, ops).log, k)|
    requires Emissions(Run(cfg, ops).log, k)[p].t == Cleared && Emissions(Run(cfg, ops).log, k)[q].t == Raised
    ensures Emissions(Run(cfg, ops).log, k)[q].at - Emissions(Run(cfg, ops).log, k)[p].at >= cfg.raiseAfter
  {
    EngineRefinesHistory(cfg, ops, k);
    StreamTimely(cfg, ops, k);
    StreamWellPlaced(cfg, ops, k);
    DueNeverFlaps(cfg, Stream(cfg, ops, k), p, q);
  }

  /** Slow clearing. Over every orderly run, a Cleared of a key that was sampled in that tick comes
      at least clearAfter after the Raised it answers. */
  lemma EngineClearsSlowly(cfg: Config, ops: seq<Op>, k: string, q: nat)
    requires OrderlyRun(cfg, ops)
    requires q < |Emissions(Run(cfg, ops).log, k)| && Emissions(Run(cfg, ops).log, k)[q].t == Cleared
    requires SampledAt(Stream(cfg, ops, k), Emissions(Run(cfg, ops).log, k)[q].at)
    ensures AnsweredSlowly(cfg, Emissions(Run(cfg, ops).log, k), q)
  {
    EngineRefinesHistory(cfg, ops, k);
    StreamTimely(cfg, ops, k);
    DueClearsSlowly(cfg, Stream(cfg, ops, k), q);
  }
}
