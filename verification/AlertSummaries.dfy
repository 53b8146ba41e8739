/** When a repeated event gets its summary. The design promises one whenever the deduplication
    window of a repeated event closes; the engine keeps that promise when a tick closes the window,
    and only then. */
module AlertSummaries {
  import opened Units
  import opened Options
  import opened AlertRules
  import opened AlertState
  import opened AlertInvariants
  import opened AlertTheorems

  /** Nothing happened to event alert i: same alert, no notice. */
  ghost predicate EventKept(g: State, g': State, i: nat)
    requires i < |g.alerts|
  {
    && i < |g'.alerts| && g'.alerts[i] == g.alerts[i]
    && TrackOf(g'.log, i + 1) == TrackOf(g.log, i + 1)
  }

  lemma StepKeepsEvent(cfg: Config, g: State, s: Sample, now: Time, i: nat)
    requires Inv(g) && i < |g.alerts| && g.alerts[i].kind == Event
    ensures EventKept(g, Step(cfg, g, s, now), i)
  {
    var g' := Step(cfg, g, s, now);
    if g'.log != g.log {
      var n := g'.log[|g.log|];
      assert g'.log == g.log + [n];
      TrackSnoc(g.log, n, i + 1);
    }
  }

  lemma SweepKeyKeepsEvent(g: State, k: string, now: Time, i: nat)
    requires Inv(g) && i < |g.alerts| && g.alerts[i].kind == Event
    ensures EventKept(g, SweepKey(g, k, now), i)
  {
    if k in g.conds && g.conds[k].lastSampled != now && g.conds[k].alert.Some? {
      TrackSnoc(g.log, Notice(Close(g.alerts[g.conds[k].alert.value], now), Cleared), i + 1);
    }
  }

  lemma {:induction false} SamplesKeepEvent(cfg: Config, g: State, samples: seq<Sample>, now: Time, i: nat)
    requires Inv(g) && i < |g.alerts| && g.alerts[i].kind == Event
    ensures EventKept(g, Samples(cfg, g, samples, now), i)
  {
    if samples != [] {
      var init := samples[..|samples| - 1];
      SamplesKeepEvent(cfg, g, init, now, i);
      SamplesKeepInv(cfg, g, init, now);
      StepKeepsEvent(cfg, Samples(cfg, g, init, now), samples[|samples| - 1], now, i);
    }
  }

  lemma {:induction false} SweepKeepsEvent(g: State, order: seq<string>, now: Time, i: nat)
    requires Inv(g) && i < |g.alerts| && g.alerts[i].kind == Event
    ensures EventKept(g, Sweep(g, order, now), i)
  {
    if order != [] {
      var init := order[..|order| - 1];
      SweepKeepsEvent(g, init, now, i);
      SweepKeepsInv(g, init, now);
      SweepKeyKeepsEvent(Sweep(g, init, now), order[|order| - 1], now, i);
    }
  }

  /** The event stays live with the same notices, or left with a summary. */
  ghost predicate KeptOrSummed(g: State, g': State, k: string)
    requires Linked(g) && k in g.events
  {
    var i := g.events[k];
    && g'.alerts == g.alerts
    && (if k in g'.events then g'.events[k] == i && TrackOf(g'.log, i + 1) == TrackOf(g.log, i + 1)
        else TrackOf(g'.log, i + 1) == Summed(g.alerts[i]))
  }

  lemma ExpireKeySums(cfg: Config, g: State, x: string, now: Time, k: string)
    requires Inv(g) && k in g.events && 2 <= g.alerts[g.events[k]].count
    ensures KeptOrSummed(g, ExpireKey(cfg, g, x, now), k)
  {
    if x in g.events {
      assert Life(g, g.events[k]);
      TrackSnoc(g.log, Notice(g.alerts[g.events[x]], Summarized), g.events[k] + 1);
    }
  }

  /** A notice about another live event leaves a summed one alone. */
  lemma ExpireKeyKeepsSummed(cfg: Config, g: State, x: string, now: Time, k: string, i: nat)
    requires Inv(g) && k !in g.events && i < |g.alerts| && g.alerts[i].key == k
    ensures var g' := ExpireKey(cfg, g, x, now); k !in g'.events && TrackOf(g'.log, i + 1) == TrackOf(g.log, i + 1)
  {
    if x in g.events {
      TrackSnoc(g.log, Notice(g.alerts[g.events[x]], Summarized), i + 1);
    }
  }

  lemma KeptOrSummedNext(cfg: Config, g: State, g1: State, x: string, now: Time, k: string)
    requires Linked(g) && k in g.events && 2 <= g.alerts[g.events[k]].count && g.alerts[g.events[k]].key == k
    requires Inv(g1) && KeptOrSummed(g, g1, k)
    ensures KeptOrSummed(g, ExpireKey(cfg, g1, x, now), k)
  {
    if k in g1.events {
      ExpireKeySums(cfg, g1, x, now, k);
    } else {
      ExpireKeyKeepsSummed(cfg, g1, x, now, k, g.events[k]);
    }
  }

  lemma {:induction false} ExpireSums(cfg: Config, g: State, order: seq<string>, now: Time, k: string)
    requires Inv(g) && k in g.events && 2 <= g.alerts[g.events[k]].count
    ensures KeptOrSummed(g, Expire(cfg, g, order, now), k)
  {
    if order != [] {
      var init := order[..|order| - 1];
      ExpireSums(cfg, g, init, now, k);
      ExpireKeepsInv(cfg, g, init, now);
      KeptOrSummedNext(cfg, g, Expire(cfg, g, init, now), order[|order| - 1], now, k);
    }
  }

  lemma EvaluateSums(cfg: Config, g: State, now: Time, samples: seq<Sample>, order: seq<string>,
                     eventOrder: seq<string>, k: string)
    requires Inv(g) && k in g.events && 2 <= g.alerts[g.events[k]].count
    ensures var g' := Evaluate(cfg, g, now, samples, order, eventOrder);
            k !in g'.events ==> TrackOf(g'.log, g.events[k] + 1) == Summed(g.alerts[g.events[k]])
  {
    var i := g.events[k];
    var g1 := Samples(cfg, g, samples, now);
    var g2 := Sweep(g1, order, now);
    SamplesKeepEvent(cfg, g, samples, now, i);
    SamplesKeepInv(cfg, g, samples, now);
    SweepKeepsEvent(g1, order, now, i);
    SweepKeepsInv(g1, order, now);
    SamplesKeepEvents(cfg, g, samples, now);
    SweepKeepsEvents(g1, order, now);
    assert k in g2.events && g2.events[k] == i && g2.alerts[i] == g.alerts[i];
    ExpireSums(cfg, g2, eventOrder, now, k);
    assert KeptOrSummed(g2, Expire(cfg, g2, eventOrder, now), k);
  }

  /** An event alert that an operation pushes out of the deduplication table. */
  ghost predicate LeavesTable(cfg: Config, g: State, op: Op, k: string)
    requires Linked(g)
  {
    k in g.events && !(k in Apply(cfg, g, op).events && Apply(cfg, g, op).events[k] == g.events[k])
  }

  /** A repeated event that leaves the table is summarized exactly when a tick removed it; an
      occurrence arriving after the window, before any tick, replaces it without a summary. */
  lemma SummaryIffTick(cfg: Config, g: State, op: Op, k: string)
    requires Inv(g) && LeavesTable(cfg, g, op, k) && 2 <= g.alerts[g.events[k]].count
    ensures var i := g.events[k];
            (TrackOf(Apply(cfg, g, op).log, i + 1) == Summed(g.alerts[i])) <==> op.EvaluateOp?
  {
    var i := g.events[k];
    match op
    case EvaluateOp(now, samples, order, eventOrder) =>
      if k in Apply(cfg, g, op).events {
        EvaluateKeepsSlots(cfg, g, now, samples, order, eventOrder, k);
      }
      EvaluateSums(cfg, g, now, samples, order, eventOrder, k);
    case RaiseOp(incoming, clock) =>
      assert Life(g, i);
      TrackSnoc(g.log, Notice(NewEvent(Normalize(incoming, clock), |g.alerts| + 1), Raised), i + 1);
  }

  lemma {:induction false} ExpireKeepsSlots(cfg: Config, g: State, order: seq<string>, now: Time, k: string)
    requires Linked(g)
    ensures k in Expire(cfg, g, order, now).events ==>
              k in g.events && Expire(cfg, g, order, now).events[k] == g.events[k]
  {
    if order != [] {
      ExpireKeepsSlots(cfg, g, order[..|order| - 1], now, k);
    }
  }

  lemma EvaluateKeepsSlots(cfg: Config, g: State, now: Time, samples: seq<Sample>, order: seq<string>,
                           eventOrder: seq<string>, k: string)
    requires Linked(g) && k in Evaluate(cfg, g, now, samples, order, eventOrder).events
    ensures k in g.events && Evaluate(cfg, g, now, samples, order, eventOrder).events[k] == g.events[k]
  {
    var g1 := Samples(cfg, g, samples, now);
    SamplesKeepEvents(cfg, g, samples, now);
    SweepKeepsEvents(g1, order, now);
    ExpireKeepsSlots(cfg, Sweep(g1, order, now), eventOrder, now, k);
  }

  // ---------------------------------------------------------------- when an event leaves the table

  /** A walk over the table removes exactly the entries it visits whose window has closed. */
  lemma {:induction false} ExpireRemovesIff(cfg: Config, g: State, order: seq<string>, now: Time, k: string)
    requires Linked(g) && k in g.events
    ensures k in Expire(cfg, g, order, now).events <==>
              !(k in order && now - g.alerts[g.events[k]].last >= cfg.dedup)
  {
    if order != [] {
      var init := order[..|order| - 1];
      ExpireRemovesIff(cfg, g, init, now, k);
      ExpireKeepsAlerts(cfg, g, init, now);
      ExpireKeepsSlots(cfg, g, init, now, k);
      assert order == init + [order[|order| - 1]];
    }
  }

  /** A tick removes an event exactly when its window has closed by then, and summarizes it if it
      repeated. */
  lemma TickClosesIff(cfg: Config, g: State, op: Op, k: string)
    requires Inv(g) && op.EvaluateOp? && WalksAll(cfg, g, op) && k in g.events
    ensures var a := g.alerts[g.events[k]];
            var g' := Apply(cfg, g, op);
            && (k in g'.events <==> op.now - a.last < cfg.dedup)
            && (k in g'.events ==> g'.events[k] == g.events[k])
            && (k !in g'.events && 2 <= a.count ==> TrackOf(g'.log, g.events[k] + 1) == Summed(a))
  {
    var i := g.events[k];
    var g1 := Samples(cfg, g, op.samples, op.now);
    var g2 := Sweep(g1, op.order, op.now);
    SamplesKeepEvent(cfg, g, op.samples, op.now, i);
    SamplesKeepInv(cfg, g, op.samples, op.now);
    SweepKeepsEvent(g1, op.order, op.now, i);
    SamplesKeepEvents(cfg, g, op.samples, op.now);
    SweepKeepsEvents(g1, op.order, op.now);
    ExpireRemovesIff(cfg, g2, op.eventOrder, op.now, k);
    ExpireKeepsSlots(cfg, g2, op.eventOrder, op.now, k);
    if 2 <= g.alerts[i].count {
      EvaluateSums(cfg, g, op.now, op.samples, op.order, op.eventOrder, k);
    }
  }

  /** The occurrence opens a new window for key k: it is not muted, has that key, and comes when the
      window of the entry has closed. */
  ghost predicate Reopens(cfg: Config, g: State, op: Op, k: string)
    requires Linked(g) && k in g.events
  {
    && op.RaiseOp? && op.alert.rule !in cfg.mute
    && var a := Normalize(op.alert, op.clock);
       a.key == k && a.last - g.alerts[g.events[k]].last >= cfg.dedup
  }

  /** Such an occurrence, and no other, replaces the entry, and adds no notice of the old alert. */
  lemma RaiseReplacesIff(cfg: Config, g: State, op: Op, k: string)
    requires Inv(g) && op.RaiseOp? && k in g.events
    ensures LeavesTable(cfg, g, op, k) <==> Reopens(cfg, g, op, k)
    ensures LeavesTable(cfg, g, op, k) ==>
              TrackOf(Apply(cfg, g, op).log, g.events[k] + 1) == OpenEvent(g.alerts[g.events[k]])
  {
    var i := g.events[k];
    var a := Normalize(op.alert, op.clock);
    assert Life(g, i);
    if Reopens(cfg, g, op, k) {
      assert Apply(cfg, g, op) == RaiseNew(g, a);
      TrackSnoc(g.log, Notice(NewEvent(a, |g.alerts| + 1), Raised), i + 1);
    }
  }

  /** A repeated event gets its summary from an operation exactly when that is a tick at or after the
      end of its window. */
  lemma SummaryIff(cfg: Config, g: State, op: Op, k: string)
    requires Inv(g) && WalksAll(cfg, g, op) && k in g.events && 2 <= g.alerts[g.events[k]].count
    ensures var a := g.alerts[g.events[k]];
            (exists b :: TrackOf(Apply(cfg, g, op).log, g.events[k] + 1) == Summed(b))
              <==> op.EvaluateOp? && op.now - a.last >= cfg.dedup
  {
    var i := g.events[k];
    var g' := Apply(cfg, g, op);
    ApplyKeepsInv(cfg, g, op);
    if op.EvaluateOp? {
      TickClosesIff(cfg, g, op, k);
      if k in g'.events {
        assert Life(g', i) && g'.alerts[i].key == k;
      }
    } else {
      RaiseReplacesIff(cfg, g, op, k);
      if !LeavesTable(cfg, g, op, k) {
        assert Life(g', i) && g'.alerts[i].key == k;
      }
    }
  }

  /** It loses its summary, leaving the table without one, exactly when an occurrence reopens its key. */
  lemma SummaryLostIff(cfg: Config, g: State, op: Op, k: string)
    requires Inv(g) && WalksAll(cfg, g, op) && k in g.events && 2 <= g.alerts[g.events[k]].count
    ensures var i := g.events[k];
            (LeavesTable(cfg, g, op, k) && TrackOf(Apply(cfg, g, op).log, i + 1) != Summed(g.alerts[i]))
              <==> Reopens(cfg, g, op, k)
  {
    if op.EvaluateOp? {
      TickClosesIff(cfg, g, op, k);
    } else {
      RaiseReplacesIff(cfg, g, op, k);
    }
  }

  // ---------------------------------------------------------------- a run that loses a summary

  /** The alert of a first occurrence, and after a second one like it. */
  ghost function AfterOne(a: Alert): State {
    RaiseNew(EMPTY, a)
  }

  ghost function AfterTwo(a: Alert): State {
    var first := NewEvent(a, 1);
    var merged := Repeat(first, a);
    State([merged], map[], map[a.key := 0], [0], [Notice(first, Raised), Notice(merged, Repeated)])
  }

  lemma FirstRaise(cfg: Config, a: Alert)
    requires a.rule !in cfg.mute && a.last != ZERO_TIME && a.key != ""
    ensures Raise(cfg, EMPTY, a, 1) == AfterOne(a)
  {
    assert Normalize(a, 1) == a;
  }

  lemma SecondRaise(cfg: Config, a: Alert)
    requires 0 < cfg.dedup && a.rule !in cfg.mute && a.last != ZERO_TIME && a.key != ""
    ensures Raise(cfg, AfterOne(a), a, 1) == AfterTwo(a)
  {
    var g := AfterOne(a);
    assert Normalize(a, 1) == a && g.alerts == [NewEvent(a, 1)] && g.events == map[a.key := 0];
    assert InWindow(cfg, g, a);
    assert RaiseRepeat(g, a) == AfterTwo(a);
  }

  lemma ThirdRaise(cfg: Config, a: Alert, late: Alert)
    requires a.rule !in cfg.mute && late == a.(last := a.last + cfg.dedup) && late.last != ZERO_TIME && a.key != ""
    ensures Raise(cfg, AfterTwo(a), late, 1) == RaiseNew(AfterTwo(a), late)
  {
    assert Normalize(late, 1) == late;
    assert !InWindow(cfg, AfterTwo(a), late);
  }

  /** A run in which a repeated event loses its summary: two occurrences inside one window, then one
      just after it, with no tick between. */
  lemma SummaryLost(cfg: Config, a: Alert)
    requires 0 < cfg.dedup && a.rule !in cfg.mute && a.last == 1 && a.key != ""
    ensures var late := a.(last := 1 + cfg.dedup);
            var g := Run(cfg, [RaiseOp(a, 1), RaiseOp(a, 1), RaiseOp(late, 1)]);
            && |g.alerts| == 2 && g.alerts[0].key == a.key && g.alerts[0].count == 2
            && a.key in g.events && g.events[a.key] == 1
            && forall n :: n in g.log ==> n.t != Summarized
  {
    var late := a.(last := 1 + cfg.dedup);
    var r, l := RaiseOp(a, 1), RaiseOp(late, 1);
    ThreeRaises(cfg, r, l);
    FirstRaise(cfg, a);
    SecondRaise(cfg, a);
    ThirdRaise(cfg, a, late);
  }

  lemma ThreeRaises(cfg: Config, r: Op, l: Op)
    ensures Run(cfg, [r, r, l]) == Apply(cfg, Apply(cfg, Apply(cfg, EMPTY, r), r), l)
  {
    assert [] + [r] == [r] && [r] + [r] == [r, r] && [r, r] + [l] == [r, r, l];
    RunSnoc(cfg, [], r);
    RunSnoc(cfg, [r], r);
    RunSnoc(cfg, [r, r], l);
  }
}
