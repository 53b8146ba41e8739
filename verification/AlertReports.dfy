/** What condition alerts say: which samples each of them reports, over whole runs. */
module AlertReports {
  import opened Units
  import opened Options
  import opened AlertRules
  import opened AlertKey
  import opened AlertState
  import opened AlertInvariants
  import opened AlertProjection
  import AlertTheorems

  ghost predicate SampledFrom(obs: seq<Obs>, f: nat, t: nat)
    requires f <= t < |obs|
  {
    forall j :: f <= j <= t ==> obs[j].sample.Some?
  }

  /** The message is that of observation m: the first of the alert, or one that was not under the
      clear level, with only such ones after it. */
  ghost predicate MessageOf(cfg: Config, a: Alert, obs: seq<Obs>, f: nat, m: nat, t: nat)
    requires f <= t < |obs| && SampledFrom(obs, f, t)
  {
    && f <= m <= t && a.message == obs[m].sample.value.message
    && (m == f || !SampleClear(cfg, obs[m].sample.value))
    && forall j :: m < j <= t ==> SampleClear(cfg, obs[j].sample.value)
  }

  /** The alert was raised at observation f and last sampled at t. It names the condition as sampled
      first and shows what was sampled last; if it is over, it ended at t or because the subject was
      gone at the next tick. */
  ghost predicate Reports(cfg: Config, a: Alert, obs: seq<Obs>, f: nat, t: nat) {
    && f <= t < |obs| && SampledFrom(obs, f, t)
    && Names(a, obs[f].sample.value, obs[f].now) && Shows(a, obs[t].sample.value, obs[t].now)
    && (exists m: nat :: MessageOf(cfg, a, obs, f, m, t))
    && if a.active then t == |obs| - 1 && a.resolved == ZERO_TIME
       else a.resolved == obs[t].now
            || (t + 1 < |obs| && a.resolved == obs[t + 1].now && obs[t + 1].sample.None?)
  }

  ghost predicate Names(a: Alert, s: Sample, at: Time) {
    && a.rule == s.rule && a.category == s.category && a.domainID == s.domainID && a.subject == s.subject
    && a.first == at && a.count == 1 && a.source == "metrics"
  }

  ghost predicate Shows(a: Alert, s: Sample, at: Time) {
    a.value == s.value && a.domainName == s.domainName && a.last == at
  }

  ghost predicate ReportsSome(cfg: Config, a: Alert, obs: seq<Obs>) {
    exists f: nat, t: nat :: Reports(cfg, a, obs, f, t)
  }

  /** Every condition alert of the key reports some of the key's observations. */
  ghost predicate AllReport(cfg: Config, g: State, obs: seq<Obs>, k: string) {
    forall i :: 0 <= i < |g.alerts| && g.alerts[i].kind == Condition && g.alerts[i].key == k ==>
      ReportsSome(cfg, g.alerts[i], obs)
  }

  // ---------------------------------------------------------------- one alert, one observation

  /** What is over stays as it is. */
  lemma ReportsLater(cfg: Config, a: Alert, obs: seq<Obs>, o: Obs)
    requires ReportsSome(cfg, a, obs) && !a.active
    ensures ReportsSome(cfg, a, obs + [o])
  {
    var f: nat, t: nat :| Reports(cfg, a, obs, f, t);
    var m: nat :| MessageOf(cfg, a, obs, f, m, t);
    var all := obs + [o];
    assert forall j :: 0 <= j < |obs| ==> all[j] == obs[j];
    assert MessageOf(cfg, a, all, f, m, t);
    assert Reports(cfg, a, all, f, t);
  }

  /** A new alert. */
  lemma ReportsFirst(cfg: Config, obs: seq<Obs>, s: Sample, now: Time, id: nat)
    ensures ReportsSome(cfg, NewCondition(s, id, now), obs + [Obs(now, Some(s))])
  {
    var all, n := obs + [Obs(now, Some(s))], |obs|;
    assert all[n] == Obs(now, Some(s));
    assert MessageOf(cfg, NewCondition(s, id, now), all, n, n, n);
    assert Reports(cfg, NewCondition(s, id, now), all, n, n);
  }

  /** The alert after one more sample, still firing or closed by it. */
  ghost predicate Sampled(cfg: Config, a: Alert, b: Alert, s: Sample, now: Time) {
    && Shows(b, s, now)
    && b.rule == a.rule && b.category == a.category && b.domainID == a.domainID && b.subject == a.subject
    && b.first == a.first && b.count == a.count && b.source == a.source
    && b.message == (if SampleClear(cfg, s) then a.message else s.message)
    && if b.active then b.resolved == a.resolved else b.resolved == now
  }

  lemma ReportsNext(cfg: Config, a: Alert, b: Alert, obs: seq<Obs>, s: Sample, now: Time)
    requires ReportsSome(cfg, a, obs) && a.active && Sampled(cfg, a, b, s, now)
    ensures ReportsSome(cfg, b, obs + [Obs(now, Some(s))])
  {
    var f: nat, t: nat :| Reports(cfg, a, obs, f, t);
    var m: nat :| MessageOf(cfg, a, obs, f, m, t);
    var all, n := obs + [Obs(now, Some(s))], |obs|;
    assert forall j :: 0 <= j < n ==> all[j] == obs[j];
    assert all[n] == Obs(now, Some(s));
    assert MessageOf(cfg, b, all, f, if SampleClear(cfg, s) then m else n, n);
    assert Reports(cfg, b, all, f, n);
  }

  /** The alert of a subject that is gone. */
  lemma ReportsGone(cfg: Config, a: Alert, obs: seq<Obs>, now: Time)
    requires ReportsSome(cfg, a, obs) && a.active
    ensures ReportsSome(cfg, Close(a, now), obs + [Obs(now, None)])
  {
    var f: nat, t: nat :| Reports(cfg, a, obs, f, t);
    var m: nat :| MessageOf(cfg, a, obs, f, m, t);
    var all := obs + [Obs(now, None)];
    assert forall j :: 0 <= j < |obs| ==> all[j] == obs[j];
    assert MessageOf(cfg, Close(a, now), all, f, m, t);
    assert Reports(cfg, Close(a, now), all, f, t);
  }

  // ---------------------------------------------------------------- one step of the engine

  /** The condition alerts of key k are the same. */
  ghost predicate SameReports(g: State, g': State, k: string) {
    forall i :: 0 <= i < |g'.alerts| && g'.alerts[i].kind == Condition && g'.alerts[i].key == k ==>
      i < |g.alerts| && g.alerts[i] == g'.alerts[i]
  }

  lemma StepSamples(cfg: Config, g: State, s: Sample, now: Time)
    requires Inv(g) && CondOf(g, SampleKey(s)).alert.Some?
    ensures var i := CondOf(g, SampleKey(s)).alert.value;
            var g' := Step(cfg, g, s, now);
            |g'.alerts| == |g.alerts| && g'.alerts == g.alerts[i := g'.alerts[i]]
            && Sampled(cfg, g.alerts[i], g'.alerts[i], s, now)
  {
  }

  /** A key without an active alert. */
  lemma AllReportLater(cfg: Config, g: State, obs: seq<Obs>, o: Obs, k: string)
    requires Inv(g) && AllReport(cfg, g, obs, k) && CondOf(g, k).alert.None?
    ensures AllReport(cfg, g, obs + [o], k)
  {
    forall i | 0 <= i < |g.alerts| && g.alerts[i].kind == Condition && g.alerts[i].key == k
      ensures ReportsSome(cfg, g.alerts[i], obs + [o])
    {
      ReportsLater(cfg, g.alerts[i], obs, o);
    }
  }

  lemma QuietStepReports(cfg: Config, g: State, s: Sample, now: Time, obs: seq<Obs>)
    requires Inv(g) && AllReport(cfg, g, obs, SampleKey(s)) && CondOf(g, SampleKey(s)).alert.None?
    ensures AllReport(cfg, Step(cfg, g, s, now), obs + [Obs(now, Some(s))], SampleKey(s))
  {
    var g' := Step(cfg, g, s, now);
    AllReportLater(cfg, g, obs, Obs(now, Some(s)), SampleKey(s));
    ReportsFirst(cfg, obs, s, now, |g.alerts| + 1);
    assert g'.alerts == g.alerts || g'.alerts == g.alerts + [NewCondition(s, |g.alerts| + 1, now)];
  }

  lemma FiringStepReports(cfg: Config, g: State, s: Sample, now: Time, obs: seq<Obs>)
    requires Inv(g) && AllReport(cfg, g, obs, SampleKey(s)) && CondOf(g, SampleKey(s)).alert.Some?
    ensures AllReport(cfg, Step(cfg, g, s, now), obs + [Obs(now, Some(s))], SampleKey(s))
  {
    var k, g' := SampleKey(s), Step(cfg, g, s, now);
    var c := CondOf(g, k).alert.value;
    StepSamples(cfg, g, s, now);
    forall i | 0 <= i < |g'.alerts| && g'.alerts[i].kind == Condition && g'.alerts[i].key == k
      ensures ReportsSome(cfg, g'.alerts[i], obs + [Obs(now, Some(s))])
    {
      if i == c {
        assert ReportsSome(cfg, g.alerts[c], obs);
        ReportsNext(cfg, g.alerts[c], g'.alerts[c], obs, s, now);
      } else {
        assert !g.alerts[i].active;
        ReportsLater(cfg, g.alerts[i], obs, Obs(now, Some(s)));
      }
    }
  }

  lemma StepSameReports(cfg: Config, g: State, s: Sample, now: Time, k: string)
    requires Inv(g) && SampleKey(s) != k
    ensures SameReports(g, Step(cfg, g, s, now), k)
  {
  }

  lemma SweepKeyReports(cfg: Config, g: State, now: Time, obs: seq<Obs>, k: string)
    requires Inv(g) && AllReport(cfg, g, obs, k) && (k in g.conds ==> g.conds[k].lastSampled != now)
    ensures AllReport(cfg, SweepKey(g, k, now), obs + [Obs(now, None)], k)
  {
    var g', o := SweepKey(g, k, now), Obs(now, None);
    if CondOf(g, k).alert.None? {
      AllReportLater(cfg, g, obs, o, k);
    } else {
      var c := g.conds[k].alert.value;
      forall i | 0 <= i < |g'.alerts| && g'.alerts[i].kind == Condition && g'.alerts[i].key == k
        ensures ReportsSome(cfg, g'.alerts[i], obs + [o])
      {
        if i == c {
          ReportsGone(cfg, g.alerts[c], obs, now);
        } else {
          ReportsLater(cfg, g.alerts[i], obs, o);
        }
      }
    }
  }

  // ---------------------------------------------------------------- one tick and whole runs

  /** With the tick's sample of key k, if any, processed. */
  lemma {:induction false} SamplesReport(cfg: Config, g: State, samples: seq<Sample>, now: Time, obs: seq<Obs>, k: string)
    requires Inv(g) && OnePerKey(cfg, samples) && AllReport(cfg, g, obs, k)
    ensures var s := TickSample(cfg, samples, k);
            AllReport(cfg, Samples(cfg, g, samples, now), if s.Some? then obs + [Obs(now, s)] else obs, k)
  {
    if samples != [] {
      var init, s := samples[..|samples| - 1], samples[|samples| - 1];
      SamplesReport(cfg, g, init, now, obs, k);
      SamplesKeepInv(cfg, g, init, now);
      var g1 := Samples(cfg, g, init, now);
      if s.rule !in cfg.mute {
        if SampleKey(s) == k {
          NotSampled(cfg, init, k);
          if CondOf(g1, k).alert.None? {
            QuietStepReports(cfg, g1, s, now, obs);
          } else {
            FiringStepReports(cfg, g1, s, now, obs);
          }
        } else {
          StepSameReports(cfg, g1, s, now, k);
        }
      }
    }
  }

  /** The sweep closes what key k fires if the key was not sampled. */
  lemma {:induction false} SweepReports(cfg: Config, g: State, order: seq<string>, now: Time, obs: seq<Obs>, k: string)
    requires Inv(g) && AllReport(cfg, g, obs, k)
    ensures var stale := k in order && k in g.conds && g.conds[k].lastSampled != now;
            AllReport(cfg, Sweep(g, order, now), if stale then obs + [Obs(now, None)] else obs, k)
  {
    if order != [] {
      var init, x := order[..|order| - 1], order[|order| - 1];
      SweepReports(cfg, g, init, now, obs, k);
      SweepKeepsInv(g, init, now);
      SweepProjects(g, init, now, k);
      var g1 := Sweep(g, init, now);
      if x == k && k in g1.conds && g1.conds[k].lastSampled != now {
        SweepKeyReports(cfg, g1, now, obs, k);
      } else {
        assert SameReports(g1, SweepKey(g1, x, now), k);
      }
    }
  }

  lemma EvaluateReports(cfg: Config, g: State, op: Op, obs: seq<Obs>, k: string)
    requires Inv(g) && op.EvaluateOp? && OnePerKey(cfg, op.samples) && WalksAll(cfg, g, op) && AllReport(cfg, g, obs, k)
    requires k in g.conds ==> g.conds[k].lastSampled != op.now
    ensures AllReport(cfg, Apply(cfg, g, op), obs + [Obs(op.now, TickSample(cfg, op.samples, k))], k)
  {
    var now, s := op.now, TickSample(cfg, op.samples, k);
    var g1 := Samples(cfg, g, op.samples, now);
    var g2 := Sweep(g1, op.order, now);
    SamplesReport(cfg, g, op.samples, now, obs, k);
    SamplesProject(cfg, g, op.samples, now, k);
    SamplesKeepInv(cfg, g, op.samples, now);
    if s.None? && k !in g1.conds {
      AllReportLater(cfg, g1, obs, Obs(now, None), k);
      SweepReports(cfg, g1, op.order, now, obs + [Obs(now, None)], k);
    } else {
      SweepReports(cfg, g1, op.order, now, if s.Some? then obs + [Obs(now, s)] else obs, k);
    }
    AlertTheorems.ExpireKeepsAlerts(cfg, g2, op.eventOrder, now);
  }

  /** Over every orderly run, each condition alert of a key reports observations of that key. */
  lemma {:induction false} ConditionsReport(cfg: Config, ops: seq<Op>, k: string)
    requires OrderlyRun(cfg, ops)
    ensures AllReport(cfg, Run(cfg, ops), Stream(cfg, ops, k), k)
  {
    if ops != [] {
      var init, op := ops[..|ops| - 1], ops[|ops| - 1];
      ConditionsReport(cfg, init, k);
      RunKeepsInv(cfg, init);
      if op.EvaluateOp? {
        RunMirrors(cfg, init, k);
        StreamTimely(cfg, init, k);
        EvaluateReports(cfg, Run(cfg, init), op, Stream(cfg, init, k), k);
      } else {
        assert SameReports(Run(cfg, init), Run(cfg, ops), k);
        assert Stream(cfg, init, k) + [] == Stream(cfg, init, k);
      }
    }
  }

  // ---------------------------------------------------------------- since when it fires

  /** The start of what a key fires. */
  ghost function FirstOf(g: State, k: string): Option<Time>
    requires Linked(g)
  {
    if k in g.conds && g.conds[k].alert.Some? then Some(g.alerts[g.conds[k].alert.value].first) else None
  }

  ghost predicate Fires(g: State, k: string) {
    k in g.conds && g.conds[k].alert.Some?
  }

  /** What fires keeps its start; what begins to fire starts now. */
  ghost predicate Starts(g: State, g': State, now: Time, k: string)
    requires Linked(g) && Linked(g')
  {
    Fires(g', k) ==> FirstOf(g', k) == if Fires(g, k) then FirstOf(g, k) else Some(now)
  }

  ghost predicate SameStart(g: State, g': State, k: string)
    requires Linked(g) && Linked(g')
  {
    FirstOf(g', k) == FirstOf(g, k)
  }

  lemma StepStarts(cfg: Config, g: State, s: Sample, now: Time, k: string)
    requires Inv(g)
    ensures var g' := Step(cfg, g, s, now);
            if SampleKey(s) == k then Starts(g, g', now, k) else SameStart(g, g', k)
  {
  }

  lemma {:induction false} SamplesStart(cfg: Config, g: State, samples: seq<Sample>, now: Time, k: string)
    requires Inv(g) && OnePerKey(cfg, samples)
    ensures var g' := Samples(cfg, g, samples, now);
            if TickSample(cfg, samples, k).Some? then Starts(g, g', now, k) else SameStart(g, g', k)
  {
    if samples != [] {
      var init, s := samples[..|samples| - 1], samples[|samples| - 1];
      SamplesStart(cfg, g, init, now, k);
      SamplesKeepInv(cfg, g, init, now);
      StepStarts(cfg, Samples(cfg, g, init, now), s, now, k);
      if s.rule !in cfg.mute && SampleKey(s) == k {
        NotSampled(cfg, init, k);
      }
    }
  }

  /** The sweep ends what fires or leaves it alone. */
  lemma {:induction false} SweepStarts(g: State, order: seq<string>, now: Time, k: string)
    requires Inv(g)
    ensures var g' := Sweep(g, order, now); Fires(g', k) ==> Fires(g, k) && SameStart(g, g', k)
  {
    if order != [] {
      var init := order[..|order| - 1];
      SweepStarts(g, init, now, k);
      SweepKeepsInv(g, init, now);
    }
  }

  lemma EvaluateStarts(cfg: Config, g: State, op: Op, k: string)
    requires Inv(g) && op.EvaluateOp? && OnePerKey(cfg, op.samples)
    ensures Starts(g, Apply(cfg, g, op), op.now, k)
  {
    var g1 := Samples(cfg, g, op.samples, op.now);
    var g2 := Sweep(g1, op.order, op.now);
    SamplesStart(cfg, g, op.samples, op.now, k);
    SamplesKeepInv(cfg, g, op.samples, op.now);
    SweepStarts(g1, op.order, op.now, k);
    AlertTheorems.ExpireKeepsAlerts(cfg, g2, op.eventOrder, op.now);
  }

  lemma FiresIff(cfg: Config, ops: seq<Op>, k: string)
    requires OrderlyRun(cfg, ops)
    ensures Fires(Run(cfg, ops), k) <==> Expected(cfg, Stream(cfg, ops, k)).Firing?
  {
    EngineRefinesHistory(cfg, ops, k);
  }

  /** What a key fires started at the tick that the phase of its observations says. */
  ghost predicate StartsAt(cfg: Config, g: State, obs: seq<Obs>, k: string)
    requires Linked(g)
  {
    && Expected(cfg, obs).Firing? && Expected(cfg, obs).since < |obs|
    && FirstOf(g, k) == Some(obs[Expected(cfg, obs).since].now)
  }

  lemma StartsAtNext(cfg: Config, g: State, g': State, obs: seq<Obs>, o: Obs, k: string)
    requires Linked(g) && Linked(g') && Starts(g, g', o.now, k) && Fires(g', k) && Expected(cfg, obs + [o]).Firing?
    requires Fires(g, k) <==> Expected(cfg, obs).Firing?
    requires Fires(g, k) ==> StartsAt(cfg, g, obs, k)
    ensures StartsAt(cfg, g', obs + [o], k)
  {
    var all := obs + [o];
    assert all[..|obs|] == obs && all[..|all|] == all;
    FiringGoesOn(cfg, all, |all|);
  }

  /** A firing alert has the time of the tick that raised it as its start. */
  lemma {:induction false} FirstIsRaised(cfg: Config, ops: seq<Op>, k: string)
    requires OrderlyRun(cfg, ops) && Fires(Run(cfg, ops), k)
    ensures StartsAt(cfg, Run(cfg, ops), Stream(cfg, ops, k), k)
  {
    var init, op := ops[..|ops| - 1], ops[|ops| - 1];
    FiresIff(cfg, ops, k);
    FiresIff(cfg, init, k);
    RunKeepsInv(cfg, init);
    if Fires(Run(cfg, init), k) {
      FirstIsRaised(cfg, init, k);
    }
    if op.EvaluateOp? {
      EvaluateStarts(cfg, Run(cfg, init), op, k);
      StartsAtNext(cfg, Run(cfg, init), Run(cfg, ops), Stream(cfg, init, k), Obs(op.now, TickSample(cfg, op.samples, k)), k);
    } else {
      assert Stream(cfg, init, k) + [] == Stream(cfg, init, k);
    }
  }

  /** The alert that a key fires shows the key's latest sample, since the tick that raised it. */
  lemma FiringReports(cfg: Config, ops: seq<Op>, k: string)
    requires OrderlyRun(cfg, ops) && Fires(Run(cfg, ops), k)
    ensures var g, obs := Run(cfg, ops), Stream(cfg, ops, k);
            var a := g.alerts[g.conds[k].alert.value];
            && LastSampled(obs) && Shows(a, LastSample(obs), obs[|obs| - 1].now)
            && Expected(cfg, obs).Firing? && a.severity == Expected(cfg, obs).severity
            && Expected(cfg, obs).since < |obs| && a.first == obs[Expected(cfg, obs).since].now
            && ReportsSome(cfg, a, obs)
  {
    var g, obs := Run(cfg, ops), Stream(cfg, ops, k);
    var i := g.conds[k].alert.value;
    FirstIsRaised(cfg, ops, k);
    EngineRefinesHistory(cfg, ops, k);
    ConditionsReport(cfg, ops, k);
    RunKeepsInv(cfg, ops);
    assert ReportsSome(cfg, g.alerts[i], obs);
    var f: nat, t: nat :| Reports(cfg, g.alerts[i], obs, f, t);
    assert t == |obs| - 1;
  }
}
