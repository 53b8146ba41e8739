/** The whole alert engine as a value: every alert ever created, the tracked conditions, the
    deduplication table, the pushes onto the history and the notices generated so far. Alerts are
    referred to by index, so that sharing between the tables is explicit. */
module AlertState {
  import opened Units
  import opened Options
  import opened AlertRules

  datatype Kind = Event | Condition

  datatype Alert = Alert(id: nat, key: string, rule: string, kind: Kind, severity: Severity,
                         category: string, domainID: string, domainName: string, subject: string,
                         message: string, value: real, source: string, first: Time, last: Time,
                         count: int, active: bool, resolved: Time)

  datatype Notice = Notice(alert: Alert, t: Transition)

  /** A tracked condition; `alert` is the index of its alert while it fires. */
  datatype Cond = Cond(timers: Timers, lastSampled: Time, alert: Option<nat>)

  datatype State = State(alerts: seq<Alert>, conds: map<string, Cond>, events: map<string, nat>,
                         pushed: seq<nat>, log: seq<Notice>)

  const EMPTY := State([], map[], map[], [], [])

  // ---------------------------------------------------------------- references are in range

  /** Every index the tables hold refers to an alert. */
  predicate Linked(g: State) {
    && (forall k :: k in g.conds && g.conds[k].alert.Some? ==> g.conds[k].alert.value < |g.alerts|)
    && (forall k :: k in g.events ==> g.events[k] < |g.alerts|)
  }

  // ---------------------------------------------------------------- events

  /** The defaults an incoming event gets. */
  function Normalize(a: Alert, clock: Time): Alert {
    a.(last := if a.last == ZERO_TIME then clock else a.last,
       key := if a.key == "" then ConditionKey(a.rule, a.domainID, a.subject) else a.key)
  }

  predicate MoreSevere(a: Severity, b: Severity) {
    (a == Critical && b != Critical) || (a == Warning && b == Info)
  }

  /** An event alert after one more occurrence of it. */
  function Repeat(prior: Alert, a: Alert): Alert {
    prior.(count := prior.count + 1, last := a.last, message := a.message, value := a.value,
         severity := if MoreSevere(a.severity, prior.severity) then a.severity else prior.severity)
  }

  function NewEvent(a: Alert, id: nat): Alert {
    a.(id := id, kind := Event, first := a.last, count := 1, active := false)
  }

  predicate InWindow(cfg: Config, g: State, a: Alert)
    requires Linked(g)
  {
    a.key in g.events && a.last - g.alerts[g.events[a.key]].last < cfg.dedup
  }

  function RaiseRepeat(g: State, a: Alert): (g': State)
    requires Linked(g) && a.key in g.events
    ensures Linked(g')
  {
    var i := g.events[a.key];
    var merged := Repeat(g.alerts[i], a);
    g.(alerts := g.alerts[i := merged], log := g.log + [Notice(merged, Repeated)])
  }

  function RaiseNew(g: State, a: Alert): (g': State)
    requires Linked(g)
    ensures Linked(g')
  {
    var n := NewEvent(a, |g.alerts| + 1);
    g.(alerts := g.alerts + [n], events := g.events[a.key := |g.alerts|],
       pushed := g.pushed + [|g.alerts|], log := g.log + [Notice(n, Raised)])
  }

  function Raise(cfg: Config, g: State, incoming: Alert, clock: Time): (g': State)
    requires Linked(g)
    ensures Linked(g')
  {
    if incoming.rule in cfg.mute then g
    else
      var a := Normalize(incoming, clock);
      if InWindow(cfg, g, a) then RaiseRepeat(g, a) else RaiseNew(g, a)
  }

  // ---------------------------------------------------------------- conditions

  function NewCondition(s: Sample, id: nat, now: Time): Alert {
    Alert(id, SampleKey(s), s.rule, Condition, SampleSeverity(s), s.category, s.domainID, s.domainName,
          s.subject, s.message, s.value, "metrics", now, now, 1, true, ZERO_TIME)
  }

  /** What every sample of a firing condition refreshes. */
  function Refresh(a: Alert, s: Sample, now: Time): Alert {
    a.(last := now, value := s.value, domainName := s.domainName)
  }

  function Close(a: Alert, now: Time): Alert {
    a.(active := false, resolved := now)
  }

  /** Replace the tracked state of a key and the alert it fires, if any. */
  function Put(g: State, k: string, c: Cond, a: Alert): (g': State)
    requires Linked(g) && (c.alert.Some? ==> c.alert.value < |g.alerts|)
    ensures Linked(g')
  {
    g.(conds := g.conds[k := c], alerts := if c.alert.Some? then g.alerts[c.alert.value := a] else g.alerts)
  }

  function Fired(g: State, k: string, c: Cond, a: Alert): (g': State)
    requires Linked(g)
    ensures Linked(g')
  {
    g.(conds := g.conds[k := c.(alert := Some(|g.alerts|))], alerts := g.alerts + [a],
       log := g.log + [Notice(a, Raised)])
  }

  /** Close the alert a key fires: it becomes inactive, moves to the history and is announced. */
  function Resolved(g: State, k: string, c: Cond, a: Alert): (g': State)
    requires Linked(g) && c.alert.Some? && c.alert.value < |g.alerts|
    ensures Linked(g')
  {
    g.(conds := g.conds[k := c.(alert := None)], alerts := g.alerts[c.alert.value := a],
       pushed := g.pushed + [c.alert.value], log := g.log + [Notice(a, Cleared)])
  }

  /** Closing what key k fires, at `now`. */
  function ResolvedNow(g: State, k: string, now: Time): (g': State)
    requires Linked(g) && k in g.conds && g.conds[k].alert.Some?
    ensures Linked(g')
  {
    var c := g.conds[k];
    Resolved(g, k, c.(timers := c.timers.(belowAt := ZERO_TIME)), Close(g.alerts[c.alert.value], now))
  }

  function CondOf(g: State, k: string): Cond {
    if k in g.conds then g.conds[k] else Cond(FRESH_TIMERS, ZERO_TIME, None)
  }

  function FiringOf(g: State, c: Cond): Option<Severity>
    requires c.alert.Some? ==> c.alert.value < |g.alerts|
  {
    if c.alert.Some? then Some(g.alerts[c.alert.value].severity) else None
  }

  /** One unmuted sample. */
  function Step(cfg: Config, g: State, s: Sample, now: Time): (g': State)
    requires Linked(g)
    ensures Linked(g')
  {
    var k := SampleKey(s);
    var c0 := CondOf(g, k);
    var (t, act) := Decide(cfg, c0.timers, FiringOf(g, c0), s, now);
    var c := Cond(t, now, c0.alert);
    if c.alert.None? then
      if act == Fire then Fired(g, k, c, NewCondition(s, |g.alerts| + 1, now))
      else g.(conds := g.conds[k := c])
    else
      var a := Refresh(g.alerts[c.alert.value], s, now);
      match act
      case Resolve => Resolved(g, k, c, Close(a, now))
      case Escalate =>
        var e := a.(severity := SampleSeverity(s), message := s.message);
        Put(g, k, c, e).(log := g.log + [Notice(e, Escalated)])
      case _ => Put(g, k, c, if SampleClear(cfg, s) then a else a.(message := s.message))
  }

  /** Starting to track a key, if it is not tracked yet. */
  function Tracking(g: State, k: string): (g': State)
    requires Linked(g)
    ensures Linked(g')
  {
    if k in g.conds then g else g.(conds := g.conds[k := Cond(FRESH_TIMERS, ZERO_TIME, None)])
  }

  lemma StepAfterTrack(cfg: Config, g: State, s: Sample, now: Time)
    requires Linked(g)
    ensures Step(cfg, Tracking(g, SampleKey(s)), s, now) == Step(cfg, g, s, now)
  {
    var k := SampleKey(s);
    var c := Step(cfg, g, s, now).conds[k];
    assert Tracking(g, k).conds[k := c] == g.conds[k := c];
  }

  /** The clear timer after a sample under the clear level. */
  function Below(t: Timers, now: Time): Timers {
    if t.belowAt == ZERO_TIME then t.(belowAt := now) else t
  }

  /** What one sample does to a tracked condition that fires, case by case. */
  lemma StepWhileFiring(cfg: Config, g: State, s: Sample, now: Time)
    requires Linked(g) && SampleKey(s) in g.conds && g.conds[SampleKey(s)].alert.Some?
    ensures var k := SampleKey(s);
            var c := g.conds[k];
            var t := Pend(c.timers, SampleSeverity(s), now);
            var a := Refresh(g.alerts[c.alert.value], s, now);
            var sev := SampleSeverity(s);
            var e := a.(severity := sev, message := s.message);
            Step(cfg, g, s, now) ==
              if SampleClear(cfg, s) then
                var touched := Put(g, k, Cond(Below(t, now), now, c.alert), a);
                if now - Below(t, now).belowAt >= cfg.clearAfter then ResolvedNow(touched, k, now) else touched
              else
                var t0 := t.(belowAt := ZERO_TIME);
                if sev != Info && sev != a.severity && now - t.pendingAt >= cfg.raiseAfter
                then Put(g, k, Cond(t0, now, c.alert), e).(log := g.log + [Notice(e, Escalated)])
                else Put(g, k, Cond(t0, now, c.alert), a.(message := s.message))
  {
  }

  function Samples(cfg: Config, g: State, samples: seq<Sample>, now: Time): (g': State)
    requires Linked(g)
    ensures Linked(g')
  {
    if samples == [] then g
    else
      var before := Samples(cfg, g, samples[..|samples| - 1], now);
      var s := samples[|samples| - 1];
      if s.rule in cfg.mute then before else Step(cfg, before, s, now)
  }

  /** Forget one key that was not sampled at `now`, closing its alert. */
  function SweepKey(g: State, k: string, now: Time): (g': State)
    requires Linked(g)
    ensures Linked(g')
  {
    if k !in g.conds || g.conds[k].lastSampled == now then g
    else
      var c := g.conds[k];
      var closed := if c.alert.Some? then Resolved(g, k, c, Close(g.alerts[c.alert.value], now)) else g;
      closed.(conds := closed.conds - {k})
  }

  function Dropped(g: State, k: string): (g': State)
    requires Linked(g)
    ensures Linked(g')
  {
    g.(conds := g.conds - {k})
  }

  lemma SweepKeyWhenStale(g: State, k: string, now: Time)
    requires Linked(g) && k in g.conds && g.conds[k].lastSampled != now
    ensures SweepKey(g, k, now) == Dropped(if g.conds[k].alert.Some? then ResolvedNow(g, k, now) else g, k)
  {
    if g.conds[k].alert.Some? {
      assert SweepKey(g, k, now).conds == ResolvedNow(g, k, now).conds - {k};
    }
  }

  function Sweep(g: State, order: seq<string>, now: Time): (g': State)
    requires Linked(g)
    ensures Linked(g')
  {
    if order == [] then g
    else SweepKey(Sweep(g, order[..|order| - 1], now), order[|order| - 1], now)
  }

  lemma SweepSnoc(g: State, order: seq<string>, k: string, now: Time)
    requires Linked(g)
    ensures Sweep(g, order + [k], now) == SweepKey(Sweep(g, order, now), k, now)
  {
    assert (order + [k])[..|order|] == order;
  }

  /** Drop one event whose window has closed, summarizing it if it repeated. */
  function ExpireKey(cfg: Config, g: State, k: string, now: Time): (g': State)
    requires Linked(g)
    ensures Linked(g')
  {
    if k !in g.events then g
    else
      var a := g.alerts[g.events[k]];
      if now - a.last < cfg.dedup then g
      else g.(events := g.events - {k}, log := if a.count > 1 then g.log + [Notice(a, Summarized)] else g.log)
  }

  function Expire(cfg: Config, g: State, order: seq<string>, now: Time): (g': State)
    requires Linked(g)
    ensures Linked(g')
  {
    if order == [] then g
    else ExpireKey(cfg, Expire(cfg, g, order[..|order| - 1], now), order[|order| - 1], now)
  }

  lemma ExpireSnoc(cfg: Config, g: State, order: seq<string>, k: string, now: Time)
    requires Linked(g)
    ensures Expire(cfg, g, order + [k], now) == ExpireKey(cfg, Expire(cfg, g, order, now), k, now)
  {
    assert (order + [k])[..|order|] == order;
  }

  lemma SamplesSnoc(cfg: Config, g: State, samples: seq<Sample>, s: Sample, now: Time)
    requires Linked(g)
    ensures var before := Samples(cfg, g, samples, now);
            Samples(cfg, g, samples + [s], now) == if s.rule in cfg.mute then before else Step(cfg, before, s, now)
  {
    assert (samples + [s])[..|samples|] == samples;
  }

  /** Conditions never touch the deduplication table. */
  lemma {:induction false} SamplesKeepEvents(cfg: Config, g: State, samples: seq<Sample>, now: Time)
    requires Linked(g)
    ensures Samples(cfg, g, samples, now).events == g.events
  {
    if samples != [] {
      SamplesKeepEvents(cfg, g, samples[..|samples| - 1], now);
    }
  }

  lemma {:induction false} SweepKeepsEvents(g: State, order: seq<string>, now: Time)
    requires Linked(g)
    ensures Sweep(g, order, now).events == g.events
  {
    if order != [] {
      SweepKeepsEvents(g, order[..|order| - 1], now);
    }
  }

  /** One tick. The two orders are those in which the tables happen to be walked. */
  function Evaluate(cfg: Config, g: State, now: Time, samples: seq<Sample>,
                    order: seq<string>, eventOrder: seq<string>): (g': State)
    requires Linked(g)
    ensures Linked(g')
  {
    Expire(cfg, Sweep(Samples(cfg, g, samples, now), order, now), eventOrder, now)
  }

  /** A walk over a table visits each key once. */
  ghost predicate IsWalk(order: seq<string>, keys: set<string>) {
    && (forall k :: k in order <==> k in keys)
    && (forall i, j :: 0 <= i < j < |order| ==> order[i] != order[j])
  }

  // ---------------------------------------------------------------- runs

  datatype Op =
    | RaiseOp(alert: Alert, clock: Time)
    | EvaluateOp(now: Time, samples: seq<Sample>, order: seq<string>, eventOrder: seq<string>)

  function Apply(cfg: Config, g: State, op: Op): (g': State)
    requires Linked(g)
    ensures Linked(g')
  {
    match op
    case RaiseOp(a, clock) => Raise(cfg, g, a, clock)
    case EvaluateOp(now, samples, order, eventOrder) => Evaluate(cfg, g, now, samples, order, eventOrder)
  }

  function Run(cfg: Config, ops: seq<Op>): (g: State)
    ensures Linked(g)
  {
    if ops == [] then EMPTY else Apply(cfg, Run(cfg, ops[..|ops| - 1]), ops[|ops| - 1])
  }

  lemma RunSnoc(cfg: Config, ops: seq<Op>, op: Op)
    ensures Run(cfg, ops + [op]) == Apply(cfg, Run(cfg, ops), op)
  {
    assert (ops + [op])[..|ops|] == ops;
  }

  /** The walk orders of a tick are walks of the tables as they stand at that point. */
  ghost predicate WalksAll(cfg: Config, g: State, op: Op)
    requires Linked(g)
  {
    op.EvaluateOp? ==>
      && IsWalk(op.order, Samples(cfg, g, op.samples, op.now).conds.Keys)
      && IsWalk(op.eventOrder, g.events.Keys)
  }

  /** Every tick of a run walked the tables completely. */
  ghost predicate AllWalked(cfg: Config, ops: seq<Op>) {
    ops == [] ||
    var init := ops[..|ops| - 1];
    AllWalked(cfg, init) && WalksAll(cfg, Run(cfg, init), ops[|ops| - 1])
  }

  lemma AllWalkedSnoc(cfg: Config, ops: seq<Op>, op: Op)
    requires AllWalked(cfg, ops) && WalksAll(cfg, Run(cfg, ops), op)
    ensures AllWalked(cfg, ops + [op])
  {
    assert (ops + [op])[..|ops|] == ops;
  }
}
