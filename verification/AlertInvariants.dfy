/** What every operation of the alert engine keeps, and hence what holds after every run. */
module AlertInvariants {
  import opened Units
  import opened Options
  import opened AlertRules
  import opened AlertState

  // ---------------------------------------------------------------- the invariant

  /** IDs are handed out once, in order of creation. */
  ghost predicate Numbered(g: State) {
    forall i :: 0 <= i < |g.alerts| ==> g.alerts[i].id == i + 1
  }

  /** The tables and the alerts agree: a tracked condition that fires owns the one active alert of
      its key, and the deduplication table holds events under their own key. */
  ghost predicate Owned(g: State)
    requires Linked(g)
  {
    && (forall k :: k in g.conds && g.conds[k].alert.Some? ==>
          g.alerts[g.conds[k].alert.value].active && g.alerts[g.conds[k].alert.value].key == k)
    && (forall i :: 0 <= i < |g.alerts| && g.alerts[i].active ==>
          && g.alerts[i].kind == Condition && g.alerts[i].severity != Info
          && g.alerts[i].key in g.conds && g.conds[g.alerts[i].key].alert == Some(i))
    && (forall k :: k in g.events ==> g.alerts[g.events[k]].kind == Event && g.alerts[g.events[k]].key == k)
  }

  /** The history received every inactive alert, and only those, once each. */
  ghost predicate PushedOnce(g: State) {
    && (forall i, j :: 0 <= i < j < |g.pushed| ==> g.pushed[i] != g.pushed[j])
    && (forall p :: p in g.pushed ==> p < |g.alerts|)
    && (forall i :: 0 <= i < |g.alerts| ==> (i in g.pushed <==> !g.alerts[i].active))
  }

  /** How far the notices of one alert have come. */
  datatype Track =
    | Unseen
    | OpenCond(severity: Severity)
    | ClosedCond(final: Alert)
    | OpenEvent(latest: Alert)
    | Summed(final: Alert)
    | Broken

  /** One more notice: a condition is Raised, Escalated by real changes of severity, then Cleared;
      an event is Raised with count 1, Repeated with the next count, then Summarized if it repeated. */
  ghost function Advance(tr: Track, n: Notice): Track {
    match (tr, n.t)
    case (Unseen, Raised) =>
      if n.alert.kind == Condition && n.alert.severity != Info then OpenCond(n.alert.severity)
      else if n.alert.kind == Event && n.alert.count == 1 then OpenEvent(n.alert)
      else Broken
    case (OpenCond(sev), Escalated) =>
      if n.alert.severity != sev && n.alert.severity != Info then OpenCond(n.alert.severity) else Broken
    case (OpenCond(sev), Cleared) => if n.alert.severity == sev then ClosedCond(n.alert) else Broken
    case (OpenEvent(a), Repeated) => if n.alert.count == a.count + 1 then OpenEvent(n.alert) else Broken
    case (OpenEvent(a), Summarized) => if n.alert == a && 2 <= a.count then Summed(a) else Broken
    case _ => Broken
  }

  ghost function TrackOf(log: seq<Notice>, id: nat): Track {
    if log == [] then Unseen
    else
      var n := log[|log| - 1];
      var before := TrackOf(log[..|log| - 1], id);
      if n.alert.id == id then Advance(before, n) else before
  }

  /** The notices of alert `i`, tracked by `tr`, are where the alert itself stands. */
  ghost predicate StandsAt(g: State, i: nat, tr: Track)
    requires i < |g.alerts|
  {
    var a := g.alerts[i];
    if a.kind == Condition then tr == if a.active then OpenCond(a.severity) else ClosedCond(a)
    else tr == OpenEvent(a) || (tr == Summed(a) && !(a.key in g.events && g.events[a.key] == i))
  }

  ghost predicate Life(g: State, i: nat)
    requires i < |g.alerts|
  {
    StandsAt(g, i, TrackOf(g.log, i + 1))
  }

  ghost predicate Logged(g: State) {
    && (forall n :: n in g.log ==> 1 <= n.alert.id <= |g.alerts|)
    && (forall i :: 0 <= i < |g.alerts| ==> Life(g, i))
  }

  ghost predicate Inv(g: State) {
    Linked(g) && Numbered(g) && Owned(g) && PushedOnce(g) && Logged(g)
  }

  // ---------------------------------------------------------------- notices of one ID

  lemma TrackSnoc(log: seq<Notice>, n: Notice, id: nat)
    ensures TrackOf(log + [n], id) == if n.alert.id == id then Advance(TrackOf(log, id), n) else TrackOf(log, id)
  {
    assert (log + [n])[..|log|] == log;
  }

  lemma {:induction false} TrackUnseen(log: seq<Notice>, id: nat)
    requires forall n :: n in log ==> n.alert.id != id
    ensures TrackOf(log, id) == Unseen
  {
    if log != [] {
      TrackUnseen(log[..|log| - 1], id);
    }
  }

  // ---------------------------------------------------------------- changing or adding one alert

  /** Changing one alert and announcing it at most once. */
  lemma UpdateKeepsLogged(g: State, g': State, i: nat, added: seq<Notice>)
    requires Logged(g) && i < |g.alerts| == |g'.alerts|
    requires forall j :: 0 <= j < |g.alerts| && j != i ==> g'.alerts[j] == g.alerts[j]
    requires forall k :: k in g'.events ==> k in g.events && g'.events[k] == g.events[k]
    requires g'.log == g.log + added && |added| <= 1 && forall n :: n in added ==> n.alert.id == i + 1
    requires var tr := TrackOf(g.log, i + 1); StandsAt(g', i, if added == [] then tr else Advance(tr, added[0]))
    ensures Logged(g')
  {
    if added == [] {
      assert g'.log == g.log;
      forall j | 0 <= j < |g.alerts| ensures Life(g', j) {
        assert Life(g, j);
      }
    } else {
      forall j | 0 <= j < |g.alerts| ensures Life(g', j) {
        assert Life(g, j);
        TrackSnoc(g.log, added[0], j + 1);
      }
    }
  }

  /** Creating an alert and announcing it. */
  lemma {:induction false} CreateKeepsLogged(g: State, g': State, a: Alert)
    requires Logged(g)
    requires g'.alerts == g.alerts + [a] && g'.log == g.log + [Notice(a, Raised)]
    requires a.id == |g.alerts| + 1 && (a.kind == Condition ==> a.active && a.severity != Info)
    requires a.kind == Event ==> a.count == 1
    requires forall k :: k in g'.events ==>
               g'.events[k] == |g.alerts| || (k in g.events && g'.events[k] == g.events[k])
    ensures Logged(g')
  {
    var n := Notice(a, Raised);
    forall j | 0 <= j < |g.alerts| ensures Life(g', j) {
      assert Life(g, j);
      TrackSnoc(g.log, n, j + 1);
    }
    TrackUnseen(g.log, a.id);
    TrackSnoc(g.log, n, a.id);
  }

  // ---------------------------------------------------------------- events

  lemma RaiseRepeatKeepsInv(g: State, a: Alert)
    requires Inv(g) && a.key in g.events
    ensures Inv(RaiseRepeat(g, a))
  {
    var g' := RaiseRepeat(g, a);
    var i := g.events[a.key];
    var n := Notice(g'.alerts[i], Repeated);
    assert Life(g, i);
    UpdateKeepsLogged(g, g', i, [n]);
  }

  lemma RaiseNewKeepsInv(g: State, a: Alert)
    requires Inv(g)
    ensures Inv(RaiseNew(g, a))
  {
    var g' := RaiseNew(g, a);
    CreateKeepsLogged(g, g', NewEvent(a, |g.alerts| + 1));
    assert |g.alerts| !in g.pushed;
  }

  lemma RaiseKeepsInv(cfg: Config, g: State, incoming: Alert, clock: Time)
    requires Inv(g)
    ensures Inv(Raise(cfg, g, incoming, clock))
  {
    var a := Normalize(incoming, clock);
    if incoming.rule !in cfg.mute {
      if InWindow(cfg, g, a) {
        RaiseRepeatKeepsInv(g, a);
      } else {
        RaiseNewKeepsInv(g, a);
      }
    }
  }

  lemma ExpireKeyKeepsInv(cfg: Config, g: State, k: string, now: Time)
    requires Inv(g)
    ensures Inv(ExpireKey(cfg, g, k, now))
  {
    ExpireKeyKeepsLogged(cfg, g, k, now);
  }

  lemma ExpireKeyKeepsLogged(cfg: Config, g: State, k: string, now: Time)
    requires Linked(g) && Owned(g) && Numbered(g) && Logged(g)
    ensures Logged(ExpireKey(cfg, g, k, now))
  {
    var g' := ExpireKey(cfg, g, k, now);
    if k in g.events && now - g.alerts[g.events[k]].last >= cfg.dedup {
      var i := g.events[k];
      var a := g.alerts[i];
      assert Life(g, i);
      UpdateKeepsLogged(g, g', i, if a.count > 1 then [Notice(a, Summarized)] else []);
    }
  }

  // ---------------------------------------------------------------- conditions

  lemma FiredKeepsInv(g: State, k: string, c: Cond, a: Alert)
    requires Inv(g) && CondOf(g, k).alert.None?
    requires a.id == |g.alerts| + 1 && a.key == k && a.kind == Condition && a.active && a.severity != Info
    ensures Inv(Fired(g, k, c, a))
  {
    var g' := Fired(g, k, c, a);
    CreateKeepsLogged(g, g', a);
    assert |g.alerts| !in g.pushed;
  }

  /** Closing the alert of a key. */
  lemma ResolvedKeepsInv(g: State, k: string, c: Cond, a: Alert)
    requires Inv(g) && k in g.conds && g.conds[k].alert.Some? && c.alert == g.conds[k].alert
    requires var b := g.alerts[c.alert.value];
             a.id == b.id && a.kind == b.kind && a.severity == b.severity && !a.active
    ensures Inv(Resolved(g, k, c, a))
  {
    var g' := Resolved(g, k, c, a);
    var i := c.alert.value;
    var n := Notice(a, Cleared);
    assert Logged(g') by {
      assert Life(g, i);
      UpdateKeepsLogged(g, g', i, [n]);
    }
    assert i !in g.pushed;
  }

  /** Updating the alert of a key in place, with at most an Escalated notice that changes its
      severity. */
  lemma PutKeepsInv(g: State, g': State, k: string, c: Cond, a: Alert)
    requires Inv(g) && k in g.conds && g.conds[k].alert.Some? && c.alert == g.conds[k].alert
    requires g'.(log := g.log) == Put(g, k, c, a)
    requires var b := g.alerts[c.alert.value];
             && a.id == b.id && a.kind == b.kind && a.key == b.key && a.active && a.severity != Info
             && ((g'.log == g.log && a.severity == b.severity)
                 || (g'.log == g.log + [Notice(a, Escalated)] && a.severity != b.severity))
    ensures Inv(g')
  {
    var i := c.alert.value;
    var n := Notice(a, Escalated);
    assert Life(g, i);
    UpdateKeepsLogged(g, g', i, if g'.log == g.log then [] else [n]);
  }

  /** Tracking or forgetting a key that fires nothing. */
  lemma SilentKeepsInv(g: State, g': State, k: string)
    requires Inv(g) && CondOf(g, k).alert.None?
    requires g' == g.(conds := g'.conds)
    requires forall x :: x != k ==> (x in g'.conds <==> x in g.conds)
    requires forall x :: x != k && x in g.conds ==> g'.conds[x] == g.conds[x]
    requires k in g'.conds ==> g'.conds[k].alert.None?
    ensures Inv(g')
  {
    forall j | 0 <= j < |g.alerts| ensures Life(g', j) {
      assert Life(g, j);
    }
  }

  lemma StepKeepsInv(cfg: Config, g: State, s: Sample, now: Time)
    requires Inv(g)
    ensures Inv(Step(cfg, g, s, now))
  {
    var k := SampleKey(s);
    var c0 := CondOf(g, k);
    var (t, act) := Decide(cfg, c0.timers, FiringOf(g, c0), s, now);
    var c := Cond(t, now, c0.alert);
    var g' := Step(cfg, g, s, now);
    if c.alert.None? {
      if act == Fire {
        FiredKeepsInv(g, k, c, NewCondition(s, |g.alerts| + 1, now));
      } else {
        SilentKeepsInv(g, g', k);
      }
    } else {
      var a := Refresh(g.alerts[c.alert.value], s, now);
      match act
      case Resolve => ResolvedKeepsInv(g, k, c, Close(a, now));
      case Escalate => PutKeepsInv(g, g', k, c, a.(severity := SampleSeverity(s), message := s.message));
      case _ => PutKeepsInv(g, g', k, c, if SampleClear(cfg, s) then a else a.(message := s.message));
    }
  }

  lemma SweepKeyKeepsInv(g: State, k: string, now: Time)
    requires Inv(g)
    ensures Inv(SweepKey(g, k, now))
  {
    var g' := SweepKey(g, k, now);
    if k in g.conds && g.conds[k].lastSampled != now {
      var c := g.conds[k];
      if c.alert.Some? {
        var closed := Resolved(g, k, c, Close(g.alerts[c.alert.value], now));
        ResolvedKeepsInv(g, k, c, Close(g.alerts[c.alert.value], now));
        SilentKeepsInv(closed, g', k);
      } else {
        SilentKeepsInv(g, g', k);
      }
    }
  }

  // ---------------------------------------------------------------- whole operations and runs

  lemma {:induction false} SamplesKeepInv(cfg: Config, g: State, samples: seq<Sample>, now: Time)
    requires Inv(g)
    ensures Inv(Samples(cfg, g, samples, now))
  {
    if samples != [] {
      var init := samples[..|samples| - 1];
      SamplesKeepInv(cfg, g, init, now);
      StepKeepsInv(cfg, Samples(cfg, g, init, now), samples[|samples| - 1], now);
    }
  }

  lemma {:induction false} SweepKeepsInv(g: State, order: seq<string>, now: Time)
    requires Inv(g)
    ensures Inv(Sweep(g, order, now))
  {
    if order != [] {
      var init := order[..|order| - 1];
      SweepKeepsInv(g, init, now);
      SweepKeyKeepsInv(Sweep(g, init, now), order[|order| - 1], now);
    }
  }

  lemma {:induction false} ExpireKeepsInv(cfg: Config, g: State, order: seq<string>, now: Time)
    requires Inv(g)
    ensures Inv(Expire(cfg, g, order, now))
  {
    if order != [] {
      var init := order[..|order| - 1];
      ExpireKeepsInv(cfg, g, init, now);
      ExpireKeyKeepsInv(cfg, Expire(cfg, g, init, now), order[|order| - 1], now);
    }
  }

  lemma ApplyKeepsInv(cfg: Config, g: State, op: Op)
    requires Inv(g)
    ensures Inv(Apply(cfg, g, op))
  {
    match op
    case RaiseOp(a, clock) => RaiseKeepsInv(cfg, g, a, clock);
    case EvaluateOp(now, samples, order, eventOrder) =>
      var g1 := Samples(cfg, g, samples, now);
      SamplesKeepInv(cfg, g, samples, now);
      SweepKeepsInv(g1, order, now);
      ExpireKeepsInv(cfg, Sweep(g1, order, now), eventOrder, now);
  }

  /** The invariant holds after every run, whatever the calls, timestamps and walk orders. */
  lemma {:induction false} RunKeepsInv(cfg: Config, ops: seq<Op>)
    ensures Inv(Run(cfg, ops))
  {
    if ops != [] {
      RunKeepsInv(cfg, ops[..|ops| - 1]);
      ApplyKeepsInv(cfg, Run(cfg, ops[..|ops| - 1]), ops[|ops| - 1]);
    }
  }
}
