/** What event alerts say: which occurrences each of them stands for, over whole runs. */
module AlertOccurrences {
  import opened Units
  import opened AlertRules
  import opened AlertState
  import opened AlertInvariants
  import opened AlertSummaries
  import AlertTheorems

  // ---------------------------------------------------------------- occurrences of an event

  /** An incoming event keeps its key and time if it has them, and else gets the key of its rule,
      domain and subject and the time of the clock; nothing else of it changes. */
  lemma DefaultsOnly(a: Alert, clock: Time)
    ensures var n := Normalize(a, clock);
            && (a.key != "" ==> n.key == a.key) && (a.last != ZERO_TIME ==> n.last == a.last)
            && (a.key == "" ==> n.key == a.rule + "|" + a.domainID + "|" + a.subject)
            && (a.last == ZERO_TIME ==> n.last == clock)
            && n.(key := a.key, last := a.last) == a
  {
  }

  ghost predicate Hits(cfg: Config, op: Op, k: string) {
    op.RaiseOp? && op.alert.rule !in cfg.mute && Normalize(op.alert, op.clock).key == k
  }

  /** The unmuted occurrences of a key, in order. */
  ghost function Occurred(cfg: Config, ops: seq<Op>, k: string): seq<Alert> {
    if ops == [] then []
    else
      var op := ops[|ops| - 1];
      Occurred(cfg, ops[..|ops| - 1], k) + if Hits(cfg, op, k) then [Normalize(op.alert, op.clock)] else []
  }

  /** The severity is that of an occurrence in the range, and none there is more severe. */
  ghost predicate Greatest(sev: Severity, occ: seq<Alert>, lo: nat, hi: nat)
    requires hi <= |occ|
  {
    && (exists j :: lo <= j < hi && occ[j].severity == sev)
    && forall j :: lo <= j < hi ==> Rank(occ[j].severity) <= Rank(sev)
  }

  /** The alert stands for occurrences lo up to hi: it began with the first, shows the latest, counts
      them all and is as severe as the worst; each came within the window of the one before. */
  ghost predicate Told(cfg: Config, a: Alert, occ: seq<Alert>, lo: nat, hi: nat) {
    && lo < hi <= |occ| && a.count == hi - lo
    && a.first == occ[lo].last && a.rule == occ[lo].rule && a.category == occ[lo].category
    && a.domainID == occ[lo].domainID && a.domainName == occ[lo].domainName && a.subject == occ[lo].subject
    && a.source == occ[lo].source
    && a.last == occ[hi - 1].last && a.message == occ[hi - 1].message && a.value == occ[hi - 1].value
    && Greatest(a.severity, occ, lo, hi)
    && forall i, j :: lo <= i && j == i + 1 < hi ==> occ[j].last - occ[i].last < cfg.dedup
  }

  ghost predicate Live(g: State, k: string, i: nat) {
    k in g.events && g.events[k] == i
  }

  /** Every event alert of the key stands for some of its occurrences, a live one up to the latest. */
  ghost predicate AllTold(cfg: Config, g: State, occ: seq<Alert>, k: string) {
    forall i :: 0 <= i < |g.alerts| && g.alerts[i].kind == Event && g.alerts[i].key == k ==> ToldAt(cfg, g, occ, k, i)
  }

  ghost predicate ToldAt(cfg: Config, g: State, occ: seq<Alert>, k: string, i: nat)
    requires i < |g.alerts|
  {
    exists lo, hi: nat :: Told(cfg, g.alerts[i], occ, lo, hi) && (Live(g, k, i) ==> hi == |occ|)
  }

  lemma ToldLater(cfg: Config, a: Alert, occ: seq<Alert>, lo: nat, hi: nat, more: Alert)
    requires Told(cfg, a, occ, lo, hi)
    ensures Told(cfg, a, occ + [more], lo, hi)
  {
    var all := occ + [more];
    assert forall j :: 0 <= j < |occ| ==> all[j] == occ[j];
    var j :| lo <= j < hi && occ[j].severity == a.severity;
    assert all[j].severity == a.severity;
  }

  lemma ToldRepeat(cfg: Config, a: Alert, occ: seq<Alert>, lo: nat, more: Alert)
    requires Told(cfg, a, occ, lo, |occ|) && more.last - a.last < cfg.dedup
    ensures Told(cfg, Repeat(a, more), occ + [more], lo, |occ| + 1)
  {
    var all := occ + [more];
    assert forall j :: 0 <= j < |occ| ==> all[j] == occ[j];
    assert all[|occ|] == more;
    var j :| lo <= j < |occ| && occ[j].severity == a.severity;
    assert all[j].severity == a.severity;
    assert Greatest(Repeat(a, more).severity, all, lo, |occ| + 1);
  }

  lemma ToldNew(cfg: Config, occ: seq<Alert>, more: Alert, id: nat)
    ensures Told(cfg, NewEvent(more, id), occ + [more], |occ|, |occ| + 1)
  {
    var all := occ + [more];
    assert all[|occ|] == more;
  }

  /** A merged occurrence. */
  lemma RepeatTells(cfg: Config, g: State, a: Alert, occ: seq<Alert>, k: string)
    requires Inv(g) && AllTold(cfg, g, occ, k) && a.key == k && InWindow(cfg, g, a)
    ensures AllTold(cfg, RaiseRepeat(g, a), occ + [a], k)
  {
    var g' := RaiseRepeat(g, a);
    forall i | 0 <= i < |g'.alerts| && g'.alerts[i].kind == Event && g'.alerts[i].key == k
      ensures ToldAt(cfg, g', occ + [a], k, i)
    {
      assert ToldAt(cfg, g, occ, k, i);
      var lo, hi: nat :| Told(cfg, g.alerts[i], occ, lo, hi) && (Live(g, k, i) ==> hi == |occ|);
      if i == g.events[k] {
        ToldRepeat(cfg, g.alerts[i], occ, lo, a);
      } else {
        ToldLater(cfg, g.alerts[i], occ, lo, hi, a);
      }
    }
  }

  /** An occurrence that opens a new alert. */
  lemma NewTells(cfg: Config, g: State, a: Alert, occ: seq<Alert>, k: string)
    requires Inv(g) && AllTold(cfg, g, occ, k) && a.key == k
    ensures AllTold(cfg, RaiseNew(g, a), occ + [a], k)
  {
    var g' := RaiseNew(g, a);
    forall i | 0 <= i < |g'.alerts| && g'.alerts[i].kind == Event && g'.alerts[i].key == k
      ensures ToldAt(cfg, g', occ + [a], k, i)
    {
      if i == |g.alerts| {
        ToldNew(cfg, occ, a, |g.alerts| + 1);
      } else {
        assert ToldAt(cfg, g, occ, k, i);
        var lo, hi: nat :| Told(cfg, g.alerts[i], occ, lo, hi);
        ToldLater(cfg, g.alerts[i], occ, lo, hi, a);
      }
    }
  }

  /** The event alerts of key k are the same, and those still live were live. */
  ghost predicate SameTelling(g: State, g': State, k: string) {
    && (forall i :: 0 <= i < |g'.alerts| && g'.alerts[i].kind == Event && g'.alerts[i].key == k ==>
          i < |g.alerts| && g.alerts[i] == g'.alerts[i])
    && (k in g'.events ==> k in g.events && g'.events[k] == g.events[k])
  }

  lemma SameTells(cfg: Config, g: State, g': State, occ: seq<Alert>, k: string)
    requires AllTold(cfg, g, occ, k) && SameTelling(g, g', k)
    ensures AllTold(cfg, g', occ, k)
  {
    forall i | 0 <= i < |g'.alerts| && g'.alerts[i].kind == Event && g'.alerts[i].key == k
      ensures ToldAt(cfg, g', occ, k, i)
    {
      assert ToldAt(cfg, g, occ, k, i);
      var lo, hi: nat :| Told(cfg, g.alerts[i], occ, lo, hi) && (Live(g, k, i) ==> hi == |occ|);
    }
  }

  lemma RaiseTells(cfg: Config, g: State, op: Op, occ: seq<Alert>, k: string)
    requires Inv(g) && op.RaiseOp? && AllTold(cfg, g, occ, k)
    ensures AllTold(cfg, Apply(cfg, g, op), occ + (if Hits(cfg, op, k) then [Normalize(op.alert, op.clock)] else []), k)
  {
    var a := Normalize(op.alert, op.clock);
    if Hits(cfg, op, k) {
      if InWindow(cfg, g, a) {
        RepeatTells(cfg, g, a, occ, k);
      } else {
        NewTells(cfg, g, a, occ, k);
      }
    } else {
      assert occ + [] == occ;
      SameTells(cfg, g, Apply(cfg, g, op), occ, k);
    }
  }

  // ---------------------------------------------------------------- ticks leave events alone

  /** No event alert was added or changed. */
  ghost predicate SameEvents(g: State, g': State) {
    && |g.alerts| <= |g'.alerts|
    && (forall i :: 0 <= i < |g.alerts| && g.alerts[i].kind == Event ==> g'.alerts[i] == g.alerts[i])
    && (forall i :: 0 <= i < |g'.alerts| && g'.alerts[i].kind == Event ==> i < |g.alerts| && g.alerts[i].kind == Event)
  }

  lemma {:induction false} SamplesSameEvents(cfg: Config, g: State, samples: seq<Sample>, now: Time)
    requires Inv(g)
    ensures SameEvents(g, Samples(cfg, g, samples, now))
  {
    if samples != [] {
      var init := samples[..|samples| - 1];
      SamplesSameEvents(cfg, g, init, now);
      SamplesKeepInv(cfg, g, init, now);
      StepSameEvents(cfg, Samples(cfg, g, init, now), samples[|samples| - 1], now);
    }
  }

  lemma StepSameEvents(cfg: Config, g: State, s: Sample, now: Time)
    requires Inv(g)
    ensures SameEvents(g, Step(cfg, g, s, now))
  {
  }

  lemma {:induction false} SweepSameEvents(g: State, order: seq<string>, now: Time)
    requires Inv(g)
    ensures SameEvents(g, Sweep(g, order, now))
  {
    if order != [] {
      var init := order[..|order| - 1];
      SweepSameEvents(g, init, now);
      SweepKeepsInv(g, init, now);
    }
  }

  lemma EvaluateSameEvents(cfg: Config, g: State, op: Op)
    requires Inv(g) && op.EvaluateOp?
    ensures SameEvents(g, Apply(cfg, g, op))
  {
    var g1 := Samples(cfg, g, op.samples, op.now);
    SamplesSameEvents(cfg, g, op.samples, op.now);
    SamplesKeepInv(cfg, g, op.samples, op.now);
    SweepSameEvents(g1, op.order, op.now);
    AlertTheorems.ExpireKeepsAlerts(cfg, Sweep(g1, op.order, op.now), op.eventOrder, op.now);
  }

  lemma TickTells(cfg: Config, g: State, op: Op, occ: seq<Alert>, k: string)
    requires Inv(g) && op.EvaluateOp? && AllTold(cfg, g, occ, k)
    ensures AllTold(cfg, Apply(cfg, g, op), occ, k)
  {
    EvaluateSameEvents(cfg, g, op);
    if k in Apply(cfg, g, op).events {
      EvaluateKeepsSlots(cfg, g, op.now, op.samples, op.order, op.eventOrder, k);
    }
    SameTells(cfg, g, Apply(cfg, g, op), occ, k);
  }

  /** Over every run, each event alert of a key stands for consecutive occurrences of that key, and a
      live one for all up to the latest. */
  lemma {:induction false} EventsTold(cfg: Config, ops: seq<Op>, k: string)
    ensures AllTold(cfg, Run(cfg, ops), Occurred(cfg, ops, k), k)
  {
    if ops != [] {
      var init, op := ops[..|ops| - 1], ops[|ops| - 1];
      var g := Run(cfg, init);
      EventsTold(cfg, init, k);
      RunKeepsInv(cfg, init);
      if op.RaiseOp? {
        RaiseTells(cfg, g, op, Occurred(cfg, init, k), k);
      } else {
        TickTells(cfg, g, op, Occurred(cfg, init, k), k);
        assert Occurred(cfg, init, k) + [] == Occurred(cfg, init, k);
      }
    }
  }

  /** The alert of a live event shows its first and its latest occurrence, and the worst severity. */
  lemma LiveEventTold(cfg: Config, ops: seq<Op>, k: string) returns (lo: nat)
    requires k in Run(cfg, ops).events
    ensures var g, occ := Run(cfg, ops), Occurred(cfg, ops, k);
            Told(cfg, g.alerts[g.events[k]], occ, lo, |occ|)
  {
    var g, occ := Run(cfg, ops), Occurred(cfg, ops, k);
    EventsTold(cfg, ops, k);
    RunKeepsInv(cfg, ops);
    assert ToldAt(cfg, g, occ, k, g.events[k]);
    var l, h: nat :| Told(cfg, g.alerts[g.events[k]], occ, l, h) && (Live(g, k, g.events[k]) ==> h == |occ|);
    lo := l;
  }

  // ---------------------------------------------------------------- the window slides

  ghost function Latest(cfg: Config, ops: seq<Op>, k: string): Time
    requires Occurred(cfg, ops, k) != []
  {
    var occ := Occurred(cfg, ops, k);
    occ[|occ| - 1].last
  }

  /** After `ops`, the operation does not end the window of k: an occurrence of k, or a tick, comes
      less than dedup after the latest occurrence. */
  ghost predicate Extends(cfg: Config, ops: seq<Op>, op: Op, k: string) {
    && Occurred(cfg, ops, k) != []
    && (Hits(cfg, op, k) ==> Normalize(op.alert, op.clock).last - Latest(cfg, ops, k) < cfg.dedup)
    && (op.EvaluateOp? ==> op.now - Latest(cfg, ops, k) < cfg.dedup)
  }

  /** Operation n is an occurrence of k that finds no open window, and no later one ends its window. */
  ghost predicate Sliding(cfg: Config, ops: seq<Op>, k: string, n: nat) {
    && n < |ops| && Hits(cfg, ops[n], k)
    && !InWindow(cfg, Run(cfg, ops[..n]), Normalize(ops[n].alert, ops[n].clock))
    && forall m :: n < m < |ops| ==> Extends(cfg, ops[..m], ops[m], k)
  }

  /** A tick that comes within the window leaves the entry and its alert alone. */
  lemma TickKeepsEntry(cfg: Config, g: State, op: Op, k: string)
    requires Inv(g) && op.EvaluateOp? && k in g.events && op.now - g.alerts[g.events[k]].last < cfg.dedup
    ensures var g' := Apply(cfg, g, op);
            k in g'.events && g'.events[k] == g.events[k] && g'.alerts[g.events[k]] == g.alerts[g.events[k]]
  {
    var g1 := Samples(cfg, g, op.samples, op.now);
    var g2 := Sweep(g1, op.order, op.now);
    EvaluateSameEvents(cfg, g, op);
    SamplesSameEvents(cfg, g, op.samples, op.now);
    SamplesKeepInv(cfg, g, op.samples, op.now);
    SweepSameEvents(g1, op.order, op.now);
    SamplesKeepEvents(cfg, g, op.samples, op.now);
    SweepKeepsEvents(g1, op.order, op.now);
    ExpireRemovesIff(cfg, g2, op.eventOrder, op.now, k);
    ExpireKeepsSlots(cfg, g2, op.eventOrder, op.now, k);
  }

  /** The entry of k is alert i, with the given count. */
  ghost predicate Entry(g: State, k: string, i: nat, count: int) {
    Live(g, k, i) && i < |g.alerts| && g.alerts[i].count == count
  }

  /** One operation that does not end the window keeps the entry and counts an occurrence of k. */
  lemma ExtendsKeepsEntry(cfg: Config, ops: seq<Op>, op: Op, k: string, i: nat, count: int)
    requires Extends(cfg, ops, op, k) && Entry(Run(cfg, ops), k, i, count)
    ensures Entry(Apply(cfg, Run(cfg, ops), op), k, i, count + if Hits(cfg, op, k) then 1 else 0)
  {
    var g := Run(cfg, ops);
    RunKeepsInv(cfg, ops);
    var lo := LiveEventTold(cfg, ops, k);
    assert g.alerts[i].last == Latest(cfg, ops, k);
    if op.EvaluateOp? {
      TickKeepsEntry(cfg, g, op, k);
    } else {
      RaiseKeepsEntry(cfg, g, op, k);
    }
  }

  /** An occurrence within the window merges into the entry; one of another key leaves it alone. */
  lemma RaiseKeepsEntry(cfg: Config, g: State, op: Op, k: string)
    requires Inv(g) && op.RaiseOp? && k in g.events
    requires Hits(cfg, op, k) ==> Normalize(op.alert, op.clock).last - g.alerts[g.events[k]].last < cfg.dedup
    ensures Entry(Apply(cfg, g, op), k, g.events[k], g.alerts[g.events[k]].count + if Hits(cfg, op, k) then 1 else 0)
  {
  }

  lemma SlidingStarts(cfg: Config, ops: seq<Op>, k: string)
    requires ops != [] && Sliding(cfg, ops, k, |ops| - 1)
    ensures Entry(Run(cfg, ops), k, |Run(cfg, ops[..|ops| - 1]).alerts|, 1)
    ensures |Occurred(cfg, ops, k)| == |Occurred(cfg, ops[..|ops| - 1], k)| + 1
  {
    var init, op := ops[..|ops| - 1], ops[|ops| - 1];
    assert Run(cfg, ops) == RaiseNew(Run(cfg, init), Normalize(op.alert, op.clock));
  }

  lemma SlidingBefore(cfg: Config, ops: seq<Op>, k: string, n: nat)
    requires n < |ops| - 1 && Sliding(cfg, ops, k, n)
    ensures Sliding(cfg, ops[..|ops| - 1], k, n) && Extends(cfg, ops[..|ops| - 1], ops[|ops| - 1], k)
    ensures ops[..|ops| - 1][..n] == ops[..n]
  {
    var m := |ops| - 1;
    var init := ops[..m];
    assert forall j :: 0 <= j <= m ==> init[..j] == ops[..j];
    assert init[n] == ops[n] && init[..n] == ops[..n];
    forall j | n < j < m ensures Extends(cfg, init[..j], init[j], k) {
      assert Extends(cfg, ops[..j], ops[j], k);
    }
  }

  /** The window slides: occurrences of a key that each come within the window of the one before, with
      no tick after a window, are one alert with their number as its count, whatever they span. */
  lemma {:induction false} SlidingIsOneAlert(cfg: Config, ops: seq<Op>, k: string, n: nat)
    requires Sliding(cfg, ops, k, n)
    ensures Entry(Run(cfg, ops), k, |Run(cfg, ops[..n]).alerts|,
                  |Occurred(cfg, ops, k)| - |Occurred(cfg, ops[..n], k)|)
  {
    var m := |ops| - 1;
    if m == n {
      SlidingStarts(cfg, ops, k);
    } else {
      SlidingBefore(cfg, ops, k, n);
      SlidingIsOneAlert(cfg, ops[..m], k, n);
      ExtendsKeepsEntry(cfg, ops[..m], ops[m], k, |Run(cfg, ops[..n]).alerts|,
                        |Occurred(cfg, ops[..m], k)| - |Occurred(cfg, ops[..n], k)|);
    }
  }
}
