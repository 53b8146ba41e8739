/** The guarantees of the alert engine over whole runs, read off the invariant. */
module AlertTheorems {
  import opened Units
  import opened Options
  import opened AlertRules
  import opened AlertState
  import opened AlertInvariants

  // ---------------------------------------------------------------- the notices of one alert

  /** The notices generated for one alert ID, in order. */
  ghost function Notices(log: seq<Notice>, id: nat): seq<Notice> {
    if log == [] then []
    else
      var n := log[|log| - 1];
      Notices(log[..|log| - 1], id) + if n.alert.id == id then [n] else []
  }

  /** Raised, then Escalated any number of times, each one a real change of severity, never Info. */
  ghost predicate RaisedThenEscalated(p: seq<Notice>) {
    && p != [] && p[0].t == Raised
    && (forall i :: 0 <= i < |p| ==> p[i].alert.severity != Info)
    && (forall i :: 0 < i < |p| ==> p[i].t == Escalated)
    && (forall i, j :: 0 <= i && j == i + 1 < |p| ==> p[j].alert.severity != p[i].alert.severity)
  }

  /** Raised, then Repeated, each carrying its own ordinal as the count. */
  ghost predicate RaisedThenRepeated(p: seq<Notice>) {
    && p != [] && p[0].t == Raised
    && (forall i :: 0 <= i < |p| ==> p[i].alert.count == i + 1)
    && (forall i :: 0 < i < |p| ==> p[i].t == Repeated)
  }

  /** A finished track spelled out as the sequence of notices it stands for. */
  ghost predicate Spells(p: seq<Notice>, tr: Track) {
    match tr
    case Unseen => p == []
    case OpenCond(sev) => RaisedThenEscalated(p) && p[|p| - 1].alert.severity == sev
    case ClosedCond(a) =>
      && 2 <= |p| && RaisedThenEscalated(p[..|p| - 1])
      && p[|p| - 1] == Notice(a, Cleared) && p[|p| - 2].alert.severity == a.severity
    case OpenEvent(a) => RaisedThenRepeated(p) && |p| == a.count && p[|p| - 1].alert == a
    case Summed(a) =>
      && 2 <= a.count && |p| == a.count + 1 && RaisedThenRepeated(p[..a.count])
      && p[a.count] == Notice(a, Summarized)
    case Broken => true
  }

  lemma SpellsNext(p: seq<Notice>, tr: Track, n: Notice)
    requires Spells(p, tr)
    ensures Spells(p + [n], Advance(tr, n))
  {
    var q := p + [n];
    assert forall i :: 0 <= i < |p| ==> q[i] == p[i];
    assert q[..|p|] == p;
  }

  lemma {:induction false} TrackSpells(log: seq<Notice>, id: nat)
    ensures Spells(Notices(log, id), TrackOf(log, id))
  {
    if log != [] {
      var init := log[..|log| - 1];
      TrackSpells(init, id);
      var n := log[|log| - 1];
      if n.alert.id == id {
        SpellsNext(Notices(init, id), TrackOf(init, id), n);
      }
    }
  }

  /** The notices of a condition that stands as `a`: Raised, then Escalated any number of times,
      then one Cleared carrying the final alert, exactly when it is no longer active. */
  ghost predicate ConditionNotices(p: seq<Notice>, a: Alert) {
    if a.active then RaisedThenEscalated(p) && p[|p| - 1].alert.severity == a.severity
    else
      && 2 <= |p| && RaisedThenEscalated(p[..|p| - 1]) && p[|p| - 2].alert.severity == a.severity
      && p[|p| - 1] == Notice(a, Cleared)
  }

  /** The notices of an event that stands as `a`: one per occurrence, then at most one summary of
      the total, which is at least two; none yet while the event is still in the table. */
  ghost predicate EventNotices(p: seq<Notice>, a: Alert, live: bool) {
    && 1 <= a.count <= |p| && RaisedThenRepeated(p[..a.count])
    && (|p| == a.count || (!live && 2 <= a.count && |p| == a.count + 1 && p[a.count] == Notice(a, Summarized)))
  }

  lemma RunStands(cfg: Config, ops: seq<Op>, i: nat)
    requires i < |Run(cfg, ops).alerts|
    ensures StandsAt(Run(cfg, ops), i, TrackOf(Run(cfg, ops).log, i + 1))
  {
    RunKeepsInv(cfg, ops);
    assert Life(Run(cfg, ops), i);
  }

  lemma ConditionLifecycle(cfg: Config, ops: seq<Op>, i: nat)
    requires i < |Run(cfg, ops).alerts| && Run(cfg, ops).alerts[i].kind == Condition
    ensures ConditionNotices(Notices(Run(cfg, ops).log, i + 1), Run(cfg, ops).alerts[i])
  {
    RunStands(cfg, ops, i);
    var g := Run(cfg, ops);
    TrackSpells(g.log, i + 1);
  }

  lemma EventLifecycle(cfg: Config, ops: seq<Op>, i: nat)
    requires i < |Run(cfg, ops).alerts| && Run(cfg, ops).alerts[i].kind == Event
    ensures var g := Run(cfg, ops);
            var a := g.alerts[i];
            EventNotices(Notices(g.log, i + 1), a, a.key in g.events && g.events[a.key] == i)
  {
    RunStands(cfg, ops, i);
    var g := Run(cfg, ops);
    var a := g.alerts[i];
    TrackSpells(g.log, i + 1);
    EventSpelled(Notices(g.log, i + 1), a, TrackOf(g.log, i + 1), a.key in g.events && g.events[a.key] == i);
  }

  lemma EventSpelled(p: seq<Notice>, a: Alert, tr: Track, live: bool)
    requires Spells(p, tr) && (tr == OpenEvent(a) || (tr == Summed(a) && !live))
    ensures EventNotices(p, a, live)
  {
    if tr.OpenEvent? {
      assert p[..a.count] == p;
    }
  }

  // ---------------------------------------------------------------- conservation of events

  /** What one alert contributes to the occurrences of an event key. */
  ghost function Occurrences(a: Alert, k: string): int {
    if a.kind == Event && a.key == k then a.count else 0
  }

  ghost function EventTotal(alerts: seq<Alert>, k: string): int {
    if alerts == [] then 0
    else EventTotal(alerts[..|alerts| - 1], k) + Occurrences(alerts[|alerts| - 1], k)
  }

  /** The number of unmuted Raise calls for a key. */
  ghost function RaiseCalls(cfg: Config, ops: seq<Op>, k: string): int {
    if ops == [] then 0
    else
      var op := ops[|ops| - 1];
      RaiseCalls(cfg, ops[..|ops| - 1], k) +
      if op.RaiseOp? && op.alert.rule !in cfg.mute && Normalize(op.alert, op.clock).key == k then 1 else 0
  }

  lemma {:induction false} TotalUpdate(alerts: seq<Alert>, i: nat, b: Alert, k: string)
    requires i < |alerts|
    ensures EventTotal(alerts[i := b], k) == EventTotal(alerts, k) - Occurrences(alerts[i], k) + Occurrences(b, k)
  {
    var n := |alerts| - 1;
    if i == n {
      assert alerts[i := b][..n] == alerts[..n];
    } else {
      TotalUpdate(alerts[..n], i, b, k);
      assert alerts[i := b][..n] == alerts[..n][i := b];
    }
  }

  lemma TotalSnoc(alerts: seq<Alert>, a: Alert, k: string)
    ensures EventTotal(alerts + [a], k) == EventTotal(alerts, k) + Occurrences(a, k)
  {
    assert (alerts + [a])[..|alerts|] == alerts;
  }

  /** Each unmuted Raise adds one occurrence to its own key. */
  lemma RaiseCounts(cfg: Config, g: State, incoming: Alert, clock: Time, k: string)
    requires Inv(g)
    ensures var a := Normalize(incoming, clock);
            EventTotal(Raise(cfg, g, incoming, clock).alerts, k) ==
            EventTotal(g.alerts, k) + if incoming.rule !in cfg.mute && a.key == k then 1 else 0
  {
    var a := Normalize(incoming, clock);
    if incoming.rule !in cfg.mute {
      if InWindow(cfg, g, a) {
        TotalUpdate(g.alerts, g.events[a.key], Repeat(g.alerts[g.events[a.key]], a), k);
      } else {
        TotalSnoc(g.alerts, NewEvent(a, |g.alerts| + 1), k);
      }
    }
  }

  lemma StepKeepsTotal(cfg: Config, g: State, s: Sample, now: Time, k: string)
    requires Inv(g)
    ensures EventTotal(Step(cfg, g, s, now).alerts, k) == EventTotal(g.alerts, k)
  {
    var g' := Step(cfg, g, s, now);
    var c := CondOf(g, SampleKey(s));
    if c.alert.Some? {
      var i := c.alert.value;
      assert g'.alerts == g.alerts[i := g'.alerts[i]];
      TotalUpdate(g.alerts, i, g'.alerts[i], k);
    } else {
      TotalSnoc(g.alerts, NewCondition(s, |g.alerts| + 1, now), k);
    }
  }

  lemma SweepKeyKeepsTotal(g: State, x: string, now: Time, k: string)
    requires Inv(g)
    ensures EventTotal(SweepKey(g, x, now).alerts, k) == EventTotal(g.alerts, k)
  {
    if x in g.conds && g.conds[x].lastSampled != now && g.conds[x].alert.Some? {
      var i := g.conds[x].alert.value;
      TotalUpdate(g.alerts, i, Close(g.alerts[i], now), k);
    }
  }

  lemma {:induction false} SamplesKeepTotal(cfg: Config, g: State, samples: seq<Sample>, now: Time, k: string)
    requires Inv(g)
    ensures EventTotal(Samples(cfg, g, samples, now).alerts, k) == EventTotal(g.alerts, k)
  {
    if samples != [] {
      var init := samples[..|samples| - 1];
      SamplesKeepTotal(cfg, g, init, now, k);
      SamplesKeepInv(cfg, g, init, now);
      StepKeepsTotal(cfg, Samples(cfg, g, init, now), samples[|samples| - 1], now, k);
    }
  }

  lemma {:induction false} SweepKeepsTotal(g: State, order: seq<string>, now: Time, k: string)
    requires Inv(g)
    ensures EventTotal(Sweep(g, order, now).alerts, k) == EventTotal(g.alerts, k)
  {
    if order != [] {
      var init := order[..|order| - 1];
      SweepKeepsTotal(g, init, now, k);
      SweepKeepsInv(g, init, now);
      SweepKeyKeepsTotal(Sweep(g, init, now), order[|order| - 1], now, k);
    }
  }

  lemma {:induction false} ExpireKeepsAlerts(cfg: Config, g: State, order: seq<string>, now: Time)
    requires Linked(g)
    ensures Expire(cfg, g, order, now).alerts == g.alerts
    ensures Expire(cfg, g, order, now).conds == g.conds
  {
    if order != [] {
      ExpireKeepsAlerts(cfg, g, order[..|order| - 1], now);
    }
  }

  /** Event conservation. Over every run, the counts of all event alerts ever created under a key
      add up to the number of unmuted Raise calls for that key. */
  lemma {:induction false} EventsConserved(cfg: Config, ops: seq<Op>, k: string)
    ensures EventTotal(Run(cfg, ops).alerts, k) == RaiseCalls(cfg, ops, k)
  {
    if ops != [] {
      var init := ops[..|ops| - 1];
      EventsConserved(cfg, init, k);
      RunKeepsInv(cfg, init);
      var g := Run(cfg, init);
      match ops[|ops| - 1]
      case RaiseOp(a, clock) => RaiseCounts(cfg, g, a, clock, k);
      case EvaluateOp(now, samples, order, eventOrder) =>
        var g1 := Samples(cfg, g, samples, now);
        SamplesKeepTotal(cfg, g, samples, now, k);
        SamplesKeepInv(cfg, g, samples, now);
        SweepKeepsTotal(g1, order, now, k);
        ExpireKeepsAlerts(cfg, Sweep(g1, order, now), eventOrder, now);
    }
  }

  // ---------------------------------------------------------------- the order of a tick's notices

  /** The log grew by these notices. */
  ghost predicate Added(g: State, g': State, more: seq<Notice>) {
    g'.log == g.log + more
  }

  ghost predicate NoSummary(more: seq<Notice>) {
    forall i :: 0 <= i < |more| ==> more[i].t != Summarized
  }

  lemma {:induction false} SamplesAdd(cfg: Config, g: State, samples: seq<Sample>, now: Time) returns (more: seq<Notice>)
    requires Linked(g)
    ensures Added(g, Samples(cfg, g, samples, now), more) && NoSummary(more)
  {
    more := [];
    if samples != [] {
      var init, s := samples[..|samples| - 1], samples[|samples| - 1];
      more := SamplesAdd(cfg, g, init, now);
      if s.rule !in cfg.mute {
        var one := StepAdds(cfg, Samples(cfg, g, init, now), s, now);
        more := more + one;
      }
    }
  }

  lemma StepAdds(cfg: Config, g: State, s: Sample, now: Time) returns (more: seq<Notice>)
    requires Linked(g)
    ensures Added(g, Step(cfg, g, s, now), more) && NoSummary(more)
  {
    var g' := Step(cfg, g, s, now);
    more := if g'.log == g.log then [] else [g'.log[|g.log|]];
  }

  lemma {:induction false} SweepAdds(g: State, order: seq<string>, now: Time) returns (more: seq<Notice>)
    requires Linked(g)
    ensures Added(g, Sweep(g, order, now), more) && forall i :: 0 <= i < |more| ==> more[i].t == Cleared
  {
    more := [];
    if order != [] {
      more := SweepAdds(g, order[..|order| - 1], now);
      var g1, g' := Sweep(g, order[..|order| - 1], now), Sweep(g, order, now);
      if g'.log != g1.log {
        more := more + [g'.log[|g1.log|]];
      }
    }
  }

  lemma {:induction false} ExpireAdds(cfg: Config, g: State, order: seq<string>, now: Time) returns (more: seq<Notice>)
    requires Linked(g)
    ensures Added(g, Expire(cfg, g, order, now), more) && forall i :: 0 <= i < |more| ==> more[i].t == Summarized
  {
    more := [];
    if order != [] {
      more := ExpireAdds(cfg, g, order[..|order| - 1], now);
      var g1, g' := Expire(cfg, g, order[..|order| - 1], now), Expire(cfg, g, order, now);
      if g'.log != g1.log {
        more := more + [g'.log[|g1.log|]];
      }
    }
  }

  /** A tick announces first what its samples change, then what is cleared because it was not sampled,
      then the summaries. */
  lemma TickOrder(cfg: Config, g: State, op: Op) returns (a: seq<Notice>, b: seq<Notice>, c: seq<Notice>)
    requires Linked(g) && op.EvaluateOp?
    ensures Apply(cfg, g, op).log == g.log + a + b + c && Added(g, Samples(cfg, g, op.samples, op.now), a) && NoSummary(a)
    ensures (forall i :: 0 <= i < |b| ==> b[i].t == Cleared) && forall i :: 0 <= i < |c| ==> c[i].t == Summarized
  {
    var g1 := Samples(cfg, g, op.samples, op.now);
    a := SamplesAdd(cfg, g, op.samples, op.now);
    b := SweepAdds(g1, op.order, op.now);
    c := ExpireAdds(cfg, Sweep(g1, op.order, op.now), op.eventOrder, op.now);
  }
}
