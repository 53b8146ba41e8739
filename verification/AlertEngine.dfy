/** The alert engine as the program keeps it: a heap of alerts shared by pointer between the tracked
    conditions, the deduplication table and the history. `Holds(g)` ties that heap to the engine
    state g as a value; an engine always holds the state that its calls so far lead to, so every
    theorem about runs is a theorem about the object. */
module AlertEngine {
  import opened Units
  import opened Options
  import opened Sequences
  import opened AlertRules
  import opened AlertState
  import opened AlertInvariants
  import AlertKey
  import AlertTheorems
  import AlertProjection
  import AlertOccurrences
  import AlertReports

  /** A walk over `all` that has visited `order` and has `left` to go. */
  ghost predicate Walked(order: seq<string>, left: set<string>, all: set<string>) {
    IsWalk(order, all - left) && left <= all
  }

  lemma WalkedNext(order: seq<string>, left: set<string>, all: set<string>, k: string)
    requires Walked(order, left, all) && k in left
    ensures Walked(order + [k], left - {k}, all)
  {
  }

  /** A shared alert: the struct behind a pointer. */
  class AlertRef {
    var a: Alert

    constructor (a: Alert)
      ensures this.a == a
    {
      this.a := a;
    }
  }

  class CondState {
    var timers: Timers
    var alert: AlertRef?
    var lastSampled: Time
    ghost const key: string  // the key it is tracked under

    constructor (ghost key: string)
      ensures this.key == key && timers == FRESH_TIMERS && alert == null && lastSampled == ZERO_TIME
    {
      this.key := key;
      timers, alert, lastSampled := FRESH_TIMERS, null, ZERO_TIME;
    }

    ghost predicate Is(c: Cond, cells: seq<AlertRef>)
      reads this
    {
      && timers == c.timers
      && lastSampled == c.lastSampled
      && (c.alert.Some? ==> c.alert.value < |cells|)
      && alert == if c.alert.Some? then cells[c.alert.value] else null
    }
  }

  class Engine {
    const cfg: Config
    var nextID: nat
    var conds: map<string, CondState>
    var events: map<string, AlertRef>
    var history: seq<AlertRef>
    ghost var cells: seq<AlertRef>   // every alert ever created, by ID
    ghost var pushes: seq<AlertRef>  // every alert ever moved to the history
    ghost var ops: seq<Op>           // the calls so far
    ghost var state: State           // the state they lead to
    ghost var Repr: set<object>

    // -------------------------------------------------------------- the heap invariant

    /** Each alert is its own object, and IDs count them. */
    ghost predicate HoldsAlerts(alerts: seq<Alert>)
      reads this`nextID, this`cells, cells
    {
      && nextID == |cells| == |alerts|
      && (forall i :: 0 <= i < |cells| ==> cells[i].a == alerts[i] && cells[i].a.id == i + 1)
    }

    /** Each key has its own condition state, pointing at its own alert. */
    ghost predicate HoldsConds(tracked: map<string, Cond>)
      reads this`conds, this`cells, conds.Values
    {
      && conds.Keys == tracked.Keys
      && (forall k :: k in conds ==> conds[k].key == k && conds[k].Is(tracked[k], cells))
    }

    /** The deduplication table shares the alerts. */
    ghost predicate HoldsEvents(live: map<string, nat>)
      reads this`events, this`cells
    {
      && events.Keys == live.Keys
      && (forall k :: k in events ==> live[k] < |cells| && events[k] == cells[live[k]])
    }

    /** The history shares them too, and is the last cfg.history pushes, in order. */
    ghost predicate HoldsHistory(pushed: seq<nat>)
      reads this`history, this`cells, this`pushes
    {
      && |pushes| == |pushed|
      && (forall i :: 0 <= i < |pushes| ==> pushed[i] < |cells| && pushes[i] == cells[pushed[i]])
      && history == LastOf(pushes, cfg.history)
    }

    ghost predicate Footprint()
      reads this`cells, this`conds, this`Repr
    {
      && this in Repr
      && (forall c :: c in cells ==> c in Repr)
      && (forall k :: k in conds ==> conds[k] in Repr)
    }

    ghost predicate Holds(g: State)
      reads this`nextID, this`cells, this`conds, this`events, this`history, this`pushes, this`Repr, cells, conds.Values
    {
      && Footprint() && Linked(g)
      && HoldsAlerts(g.alerts) && HoldsConds(g.conds) && HoldsEvents(g.events) && HoldsHistory(g.pushed)
    }

    /** The engine holds the state its calls lead to, and every tick walked its tables completely. */
    ghost predicate Valid()
      reads this, Repr, cells, conds.Values
    {
      Holds(state) && state == Run(cfg, ops) && AllWalked(cfg, ops)
    }

    constructor (cfg: Config)
      ensures Valid() && this.cfg == cfg && ops == [] && fresh(Repr)
    {
      this.cfg := cfg;
      nextID, conds, events, history := 0, map[], map[], [];
      cells, pushes, ops, state := [], [], [], EMPTY;
      Repr := {this};
    }

    // -------------------------------------------------------------- single writes

    /** Allocates an alert under the next ID. */
    method NewAlert(a: Alert, ghost g: State) returns (p: AlertRef)
      requires Holds(g)
      modifies this`nextID, this`cells, this`Repr
      ensures Holds(g.(alerts := g.alerts + [a.(id := |g.alerts| + 1)]))
      ensures fresh(p) && p.a == a.(id := |g.alerts| + 1)
      ensures cells == old(cells) + [p] && Repr == old(Repr) + {p}
    {
      nextID := nextID + 1;
      p := new AlertRef(a.(id := nextID));
      cells, Repr := cells + [p], Repr + {p};
    }

    /** Writes one alert. */
    method SetAlert(p: AlertRef, a: Alert, ghost i: nat, ghost g: State)
      requires Holds(g) && i < |cells| && cells[i] == p && a.id == i + 1
      modifies p
      ensures Holds(g.(alerts := g.alerts[i := a])) && p.a == a
    {
      p.a := a;
    }

    /** Writes the fields of one condition state. */
    method SetFields(st: CondState, t: Timers, now: Time, alert: AlertRef?, ghost k: string, ghost c: Cond,
                     ghost tracked: map<string, Cond>)
      requires HoldsConds(tracked) && k in conds && conds[k] == st
      requires c.timers == t && c.lastSampled == now && (c.alert.Some? ==> c.alert.value < |cells|)
      requires alert == if c.alert.Some? then cells[c.alert.value] else null
      modifies st
      ensures HoldsConds(tracked[k := c]) && st.timers == t && st.alert == alert
    {
      st.timers, st.lastSampled, st.alert := t, now, alert;
    }

    /** Writes the condition state of one key. */
    method SetCond(st: CondState, t: Timers, now: Time, alert: AlertRef?, ghost k: string, ghost c: Cond, ghost g: State)
      requires Holds(g) && k in conds && conds[k] == st
      requires c.timers == t && c.lastSampled == now && (c.alert.Some? ==> c.alert.value < |cells|)
      requires alert == if c.alert.Some? then cells[c.alert.value] else null
      modifies st
      ensures Holds(g.(conds := g.conds[k := c])) && st.timers == t && st.alert == alert
    {
      SetFields(st, t, now, alert, k, c, g.conds);
    }

    /** Enters an alert into the deduplication table. */
    method SetEvent(k: string, p: AlertRef, ghost i: nat, ghost g: State)
      requires Holds(g) && i < |cells| && cells[i] == p
      modifies this`events
      ensures Holds(g.(events := g.events[k := i]))
    {
      events := events[k := p];
    }

    /** Appends to the history and drops what exceeds the limit from its front. */
    method Append(a: AlertRef, ghost i: nat, ghost pushed: seq<nat>)
      requires HoldsHistory(pushed) && i < |cells| && cells[i] == a
      modifies this`history, this`pushes
      ensures HoldsHistory(pushed + [i])
    {
      LastOfSnoc(pushes, a, cfg.history);
      pushes := pushes + [a];
      history := history + [a];
      var over := |history| - cfg.history;
      if over > 0 {
        history := history[over..];
      }
    }

    method PushHistory(a: AlertRef, ghost i: nat, ghost g: State)
      requires Holds(g) && i < |cells| && cells[i] == a
      modifies this`history, this`pushes
      ensures Holds(g.(pushed := g.pushed + [i]))
    {
      Append(a, i, g.pushed);
    }

    // -------------------------------------------------------------- events

    /** The event is already in the table and inside its window: merge into the shared alert. */
    method MergeEvent(a: Alert, ghost g: State) returns (n: Notice)
      requires Holds(g) && a.key in events
      modifies events[a.key]
      ensures Holds(RaiseRepeat(g, a))
      ensures RaiseRepeat(g, a).log == g.log + [n]
    {
      var prior := events[a.key];
      ghost var i := g.events[a.key];
      var merged := prior.a.(count := prior.a.count + 1, last := a.last, message := a.message, value := a.value,
                             severity := if MoreSevere(a.severity, prior.a.severity) then a.severity else prior.a.severity);
      SetAlert(prior, merged, i, g);
      n := Notice(merged, Repeated);
    }

    /** A new event: one object enters both the table and the history. */
    method InsertEvent(a: Alert, ghost g: State) returns (n: Notice)
      requires Holds(g)
      modifies this`nextID, this`events, this`history, this`pushes, this`cells, this`Repr
      ensures Holds(RaiseNew(g, a)) && fresh(Repr - old(Repr))
      ensures RaiseNew(g, a).log == g.log + [n]
    {
      ghost var i := |g.alerts|;
      var p := NewAlert(a.(kind := Event, first := a.last, count := 1, active := false), g);
      ghost var g1 := g.(alerts := g.alerts + [p.a]);
      SetEvent(a.key, p, i, g1);
      PushHistory(p, i, g1.(events := g.events[a.key := i]));
      n := Notice(p.a, Raised);
    }

    method RaiseUnder(incoming: Alert, clock: Time, ghost g: State) returns (ns: seq<Notice>)
      requires Holds(g)
      modifies this`nextID, this`events, this`history, this`pushes, this`cells, this`Repr, cells
      ensures Holds(AlertState.Raise(cfg, g, incoming, clock)) && fresh(Repr - old(Repr))
      ensures AlertState.Raise(cfg, g, incoming, clock).log == g.log + ns
    {
      ns := [];
      if incoming.rule !in cfg.mute {
        var a := Normalize(incoming, clock);
        if a.key in events && a.last - events[a.key].a.last < cfg.dedup {
          assert events[a.key] == cells[g.events[a.key]];
          var n := MergeEvent(a, g);
          ns := [n];
        } else {
          var n := InsertEvent(a, g);
          ns := [n];
        }
      }
    }

    /** Records an event alert. `clock` is the engine's own reading of the time. */
    method Raise(incoming: Alert, clock: Time) returns (ns: seq<Notice>)
      requires Valid()
      modifies Repr
      ensures Valid() && fresh(Repr - old(Repr))
      ensures ops == old(ops) + [RaiseOp(incoming, clock)]
      ensures state.log == old(state).log + ns
    {
      ns := RaiseUnder(incoming, clock, state);
      RunSnoc(cfg, ops, RaiseOp(incoming, clock));
      AllWalkedSnoc(cfg, ops, RaiseOp(incoming, clock));
      state, ops := AlertState.Raise(cfg, state, incoming, clock), ops + [RaiseOp(incoming, clock)];
    }

    // -------------------------------------------------------------- conditions

    /** Closes the alert a condition fires and moves it to the history. */
    method ResolveCond(st: CondState, now: Time, ghost k: string, ghost g: State) returns (n: Notice)
      requires Holds(g) && k in conds && conds[k] == st && st.alert != null
      modifies st, st.alert, this`history, this`pushes
      ensures Holds(ResolvedNow(g, k, now))
      ensures ResolvedNow(g, k, now).log == g.log + [n]
    {
      ghost var c := g.conds[k];
      assert st.Is(c, cells);
      ghost var i := c.alert.value;
      ghost var c' := Cond(c.timers.(belowAt := ZERO_TIME), c.lastSampled, None);
      var a := st.alert;
      SetAlert(a, a.a.(active := false, resolved := now), i, g);
      ghost var g1 := g.(alerts := g.alerts[i := a.a]);
      n := Notice(a.a, Cleared);
      SetCond(st, st.timers.(belowAt := ZERO_TIME), st.lastSampled, null, k, c', g1);
      PushHistory(a, i, g1.(conds := g.conds[k := c']));
    }

    /** Raises the alert of a condition that fires nothing yet. */
    method FireCond(st: CondState, t: Timers, s: Sample, now: Time, ghost g: State) returns (n: Notice)
      requires Holds(g) && SampleKey(s) in conds && conds[SampleKey(s)] == st
      modifies st, this`nextID, this`cells, this`Repr
      ensures var g' := Fired(g, SampleKey(s), Cond(t, now, None), NewCondition(s, |g.alerts| + 1, now));
              Holds(g') && g'.log == g.log + [n]
      ensures fresh(Repr - old(Repr))
    {
      ghost var k := SampleKey(s);
      ghost var c := Cond(t, now, Some(|g.alerts|));
      var p := NewAlert(NewCondition(s, 0, now), g);
      n := Notice(p.a, Raised);
      SetCond(st, t, now, p, k, c, g.(alerts := g.alerts + [p.a]));
    }

    /** Rewrites the alert a condition fires, and the condition's own timers. */
    method TouchCond(st: CondState, t: Timers, a: Alert, now: Time, ghost k: string, ghost g: State)
      requires Holds(g) && k in conds && conds[k] == st && st.alert != null && a.id == st.alert.a.id
      modifies st, st.alert
      ensures Holds(Put(g, k, Cond(t, now, g.conds[k].alert), a)) 
      ensures st.alert == old(st.alert) && st.alert.a == a && st.timers == t
    {
      ghost var i := g.conds[k].alert.value;
      assert st.Is(g.conds[k], cells);
      SetAlert(st.alert, a, i, g);
      SetCond(st, t, now, st.alert, k, Cond(t, now, Some(i)), g.(alerts := g.alerts[i := a]));
    }

    /** One sample of a condition that fires: clear it, escalate it or refresh it. */
    method StepFiring(st: CondState, t: Timers, held: bool, s: Sample, now: Time, ghost g: State)
      returns (n: Option<Notice>)
      requires Holds(g) && SampleKey(s) in conds && conds[SampleKey(s)] == st && st.alert != null
      requires t == Pend(st.timers, SampleSeverity(s), now) && held == (now - t.pendingAt >= cfg.raiseAfter)
      modifies st, st.alert, this`history, this`pushes
      ensures Holds(AlertState.Step(cfg, g, s, now))
      ensures AlertState.Step(cfg, g, s, now).log == g.log + Seq(n)
    {
      ghost var k := SampleKey(s);
      ghost var c := g.conds[k];
      assert st.Is(c, cells) && st.alert.a == g.alerts[c.alert.value];
      StepWhileFiring(cfg, g, s, now);
      var sev := SampleSeverity(s);
      var a := Refresh(st.alert.a, s, now);
      n := None;
      if SampleClear(cfg, s) {
        TouchCond(st, Below(t, now), a, now, k, g);
        if now - st.timers.belowAt >= cfg.clearAfter {
          var cleared := ResolveCond(st, now, k, Put(g, k, Cond(Below(t, now), now, c.alert), a));
          n := Some(cleared);
        }
      } else if sev != Info && sev != a.severity && held {
        a := a.(severity := sev, message := s.message);
        TouchCond(st, t.(belowAt := ZERO_TIME), a, now, k, g);
        n := Some(Notice(a, Escalated));
      } else {
        TouchCond(st, t.(belowAt := ZERO_TIME), a.(message := s.message), now, k, g);
      }
    }

    /** One sample of a tracked condition. */
    method StepCond(st: CondState, s: Sample, now: Time, ghost g: State) returns (n: Option<Notice>)
      requires Holds(g) && SampleKey(s) in conds && conds[SampleKey(s)] == st
      modifies st, st.alert, this`nextID, this`cells, this`Repr, this`history, this`pushes
      ensures Holds(AlertState.Step(cfg, g, s, now)) && fresh(Repr - old(Repr))
      ensures AlertState.Step(cfg, g, s, now).log == g.log + Seq(n)
    {
      assert st.Is(g.conds[SampleKey(s)], cells);
      var sev := SampleSeverity(s);
      var t := Pend(st.timers, sev, now);
      var held := now - t.pendingAt >= cfg.raiseAfter;
      if st.alert == null {
        if sev == Info || !held {
          SetCond(st, t, now, null, SampleKey(s), Cond(t, now, None), g);
          n := None;
        } else {
          var fired := FireCond(st, t.(belowAt := ZERO_TIME), s, now, g);
          n := Some(fired);
        }
      } else {
        n := StepFiring(st, t, held, s, now, g);
      }
    }

    /** The condition state of a key, created on first sight. */
    method TrackKey(k: string, ghost g: State) returns (st: CondState)
      requires Holds(g)
      modifies this`conds, this`Repr
      ensures Holds(Tracking(g, k)) && k in conds && conds[k] == st
      ensures k in old(conds) ==> conds == old(conds) && Repr == old(Repr)
      ensures k !in old(conds) ==> fresh(st) && st.alert == null && Repr == old(Repr) + {st}
      ensures st in Repr && (st.alert != null ==> st.alert in old(Repr))
    {
      if k in conds {
        st := conds[k];
        assert st.Is(g.conds[k], cells);
      } else {
        st := new CondState(k);
        conds, Repr := conds[k := st], Repr + {st};
      }
    }

    method FeedSample(s: Sample, now: Time, ghost g: State) returns (n: Option<Notice>)
      requires Holds(g)
      modifies this`nextID, this`cells, this`conds, this`Repr, this`history, this`pushes, Repr - {this}
      ensures Holds(AlertState.Step(cfg, g, s, now)) && fresh(Repr - old(Repr))
      ensures AlertState.Step(cfg, g, s, now).log == g.log + Seq(n)
    {
      var st := TrackKey(SampleKey(s), g);
      StepAfterTrack(cfg, g, s, now);
      n := StepCond(st, s, now, Tracking(g, SampleKey(s)));
    }

    /** The first loop of a tick: every unmuted sample in turn. */
    method FeedSamples(samples: seq<Sample>, now: Time, ghost g: State) returns (ns: seq<Notice>)
      requires Holds(g)
      modifies this`nextID, this`cells, this`conds, this`Repr, this`history, this`pushes, Repr - {this}
      ensures Holds(Samples(cfg, g, samples, now)) && fresh(Repr - old(Repr))
      ensures Samples(cfg, g, samples, now).log == g.log + ns
    {
      ns := [];
      ghost var cur := g;
      for i := 0 to |samples|
        invariant Holds(cur) && fresh(Repr - old(Repr))
        invariant cur == Samples(cfg, g, samples[..i], now) && cur.log == g.log + ns
      {
        var s := samples[i];
        assert samples[..i + 1] == samples[..i] + [s];
        SamplesSnoc(cfg, g, samples[..i], s, now);
        if s.rule !in cfg.mute {
          var n := FeedSample(s, now, cur);
          Associative(g.log, ns, Seq(n));
          ns := ns + Seq(n);
          cur := AlertState.Step(cfg, cur, s, now);
        }
      }
      assert samples[..|samples|] == samples;
    }

    /** Forgets one key that was not sampled this tick. */
    method SweepOne(k: string, now: Time, ghost g: State) returns (n: Option<Notice>)
      requires Holds(g) && k in conds
      modifies this`conds, this`history, this`pushes, Repr - {this}
      ensures Holds(SweepKey(g, k, now))
      ensures SweepKey(g, k, now).log == g.log + Seq(n)
      ensures old(conds).Keys - {k} <= conds.Keys
    {
      var st := conds[k];
      n := None;
      assert st.Is(g.conds[k], cells);
      if st.lastSampled != now {
        ghost var closed := g;
        if st.alert != null {
          var cleared := ResolveCond(st, now, k, g);
          n := Some(cleared);
          closed := ResolvedNow(g, k, now);
        }
        SweepKeyWhenStale(g, k, now);
        DropKey(k, closed);
      }
    }

    method DropKey(k: string, ghost g: State)
      requires Holds(g)
      modifies this`conds
      ensures Holds(Dropped(g, k)) && conds == old(conds) - {k}
    {
      conds := conds - {k};
    }

    /** The second loop of a tick: a walk over the tracked keys, in some order. */
    method SweepStale(now: Time, ghost g: State) returns (ns: seq<Notice>, ghost order: seq<string>)
      requires Holds(g)
      modifies this`conds, this`history, this`pushes, Repr - {this}
      ensures IsWalk(order, g.conds.Keys) && Holds(Sweep(g, order, now))
      ensures Sweep(g, order, now).log == g.log + ns
    {
      ns, order := [], [];
      var left := conds.Keys;
      ghost var cur := g;
      while left != {}
        invariant Holds(cur) && left <= conds.Keys
        invariant cur == Sweep(g, order, now) && cur.log == g.log + ns
        invariant Walked(order, left, g.conds.Keys)
        decreases left
      {
        var k :| k in left;
        WalkedNext(order, left, g.conds.Keys, k);
        SweepSnoc(g, order, k, now);
        var n := SweepOne(k, now, cur);
        Associative(g.log, ns, Seq(n));
        left, ns, order := left - {k}, ns + Seq(n), order + [k];
        cur := SweepKey(cur, k, now);
      }
    }

    /** Drops one event whose window has closed. */
    method ExpireOne(k: string, now: Time, ghost g: State) returns (n: Option<Notice>)
      requires Holds(g) && k in events
      modifies this`events
      ensures Holds(ExpireKey(cfg, g, k, now))
      ensures ExpireKey(cfg, g, k, now).log == g.log + Seq(n)
      ensures old(events).Keys - {k} <= events.Keys
    {
      var a := events[k].a;
      assert a == g.alerts[g.events[k]];
      n := None;
      if now - a.last >= cfg.dedup {
        if a.count > 1 {
          n := Some(Notice(a, Summarized));
        }
        events := events - {k};
      }
    }

    /** The last loop of a tick: a walk over the deduplication table, in some order. */
    method ExpireEvents(now: Time, ghost g: State) returns (ns: seq<Notice>, ghost order: seq<string>)
      requires Holds(g)
      modifies this`events
      ensures IsWalk(order, g.events.Keys) && Holds(Expire(cfg, g, order, now))
      ensures Expire(cfg, g, order, now).log == g.log + ns
    {
      ns, order := [], [];
      var left := events.Keys;
      ghost var cur := g;
      while left != {}
        invariant Holds(cur) && left <= events.Keys
        invariant cur == Expire(cfg, g, order, now) && cur.log == g.log + ns
        invariant Walked(order, left, g.events.Keys)
        decreases left
      {
        var k :| k in left;
        WalkedNext(order, left, g.events.Keys, k);
        ExpireSnoc(cfg, g, order, k, now);
        var n := ExpireOne(k, now, cur);
        Associative(g.log, ns, Seq(n));
        left, ns, order := left - {k}, ns + Seq(n), order + [k];
        cur := ExpireKey(cfg, cur, k, now);
      }
    }

    method EvaluateUnder(now: Time, samples: seq<Sample>, ghost g: State)
      returns (ns: seq<Notice>, ghost order: seq<string>, ghost eventOrder: seq<string>)
      requires Holds(g)
      modifies this`nextID, this`cells, this`conds, this`events, this`Repr, this`history, this`pushes, Repr - {this}
      ensures Holds(AlertState.Evaluate(cfg, g, now, samples, order, eventOrder)) && fresh(Repr - old(Repr))
      ensures IsWalk(order, Samples(cfg, g, samples, now).conds.Keys) && IsWalk(eventOrder, g.events.Keys)
      ensures AlertState.Evaluate(cfg, g, now, samples, order, eventOrder).log == g.log + ns
    {
      ghost var g1 := Samples(cfg, g, samples, now);
      var n1 := FeedSamples(samples, now, g);
      var n2, n3;
      n2, order := SweepStale(now, g1);
      ghost var g2 := Sweep(g1, order, now);
      SamplesKeepEvents(cfg, g, samples, now);
      SweepKeepsEvents(g1, order, now);
      n3, eventOrder := ExpireEvents(now, g2);
      ns := n1 + n2 + n3;
      Associative(g.log, n1, n2);
      Associative(g.log, n1 + n2, n3);
    }

    /** Feeds one tick of condition samples. */
    method Evaluate(now: Time, samples: seq<Sample>) returns (ns: seq<Notice>)
      requires Valid()
      modifies Repr
      ensures Valid() && fresh(Repr - old(Repr))
      ensures |ops| == |old(ops)| + 1 && ops[..|old(ops)|] == old(ops)
      ensures var op := ops[|old(ops)|];
              && op.EvaluateOp? && op.now == now && op.samples == samples
              && WalksAll(cfg, old(state), op)
      ensures state.log == old(state).log + ns
    {
      ghost var order, eventOrder;
      ns, order, eventOrder := EvaluateUnder(now, samples, state);
      ghost var op := EvaluateOp(now, samples, order, eventOrder);
      RunSnoc(cfg, ops, op);
      AllWalkedSnoc(cfg, ops, op);
      state, ops := AlertState.Evaluate(cfg, state, now, samples, order, eventOrder), ops + [op];
    }

    // -------------------------------------------------------------- what the heap looks like

    /** IDs are distinct, positive and bounded by nextID: two live alerts with one ID are one object. */
    lemma IdsIdentify(p: AlertRef, q: AlertRef)
      requires Valid() && p in cells && q in cells
      ensures 1 <= p.a.id <= nextID
      ensures p.a.id == q.a.id <==> p == q
    {
      var i :| 0 <= i < |cells| && cells[i] == p;
      var j :| 0 <= j < |cells| && cells[j] == q;
    }

    /** A firing condition owns an active alert that is not in the history. */
    lemma FiringNotInHistory(k: string)
      requires Valid() && k in conds && conds[k].alert != null
      ensures conds[k].alert in cells && conds[k].alert.a.active && conds[k].alert.a.key == k
      ensures conds[k].alert !in history
    {
      RunKeepsInv(cfg, ops);
      assert conds[k].Is(state.conds[k], cells);
      var i := state.conds[k].alert.value;
      assert state.alerts[i].active && cells[i].a == state.alerts[i];
      if conds[k].alert in history {
        var j := HistoryIndex(conds[k].alert);
        assert false;
      }
    }

    /** A history entry is one of the pushes; it is inactive. */
    lemma HistoryIndex(p: AlertRef) returns (j: nat)
      requires Valid() && p in history
      ensures j < |pushes| && pushes[j] == p && p in cells && !p.a.active
    {
      var h :| 0 <= h < |history| && history[h] == p;
      j := |pushes| - |history| + h;
      PushIsInactive(j);
    }

    lemma PushIsInactive(j: nat)
      requires Valid() && j < |pushes|
      ensures pushes[j] in cells && !pushes[j].a.active
    {
      RunKeepsInv(cfg, ops);
      var i := state.pushed[j];
      assert pushes[j] == cells[i] && i in state.pushed;
      assert cells[i].a == state.alerts[i];
    }

    /** No object was ever pushed twice, so the entries of the history are pairwise distinct. */
    lemma PushedOnceEach(i: nat, j: nat)
      requires Valid() && i < j < |pushes|
      ensures pushes[i] != pushes[j]
    {
      RunKeepsInv(cfg, ops);
      assert pushes[i] == cells[state.pushed[i]] && pushes[j] == cells[state.pushed[j]];
      assert cells[state.pushed[i]].a.id == state.pushed[i] + 1;
    }

    lemma HistoryIsDistinct(i: nat, j: nat)
      requires Valid() && i < j < |history|
      ensures history[i] != history[j]
    {
      var d := |pushes| - |history|;
      PushedOnceEach(d + i, d + j);
    }

    /** An event in the deduplication table was pushed when it was created, and a history entry with
        its ID is the very same object, so a repeat shows in the history. */
    lemma LiveEventIsShared(k: string, p: AlertRef)
      requires Valid() && k in events && p in history && p.a.id == events[k].a.id
      ensures p == events[k] && events[k] in pushes && events[k].a.kind == Event && events[k].a.key == k
    {
      RunKeepsInv(cfg, ops);
      var j := HistoryIndex(p);
      assert events[k] == cells[state.events[k]];
      IdsIdentify(p, events[k]);
    }

    // -------------------------------------------------------------- what the runs guarantee of it

    /** The engine tracks exactly the unmuted keys sampled in the last tick. */
    lemma TracksSampled(k: string)
      requires Valid() && AlertProjection.RegularRun(cfg, ops) && ops != [] && ops[|ops| - 1].EvaluateOp?
      ensures k in conds <==> AlertProjection.TickSample(cfg, ops[|ops| - 1].samples, k).Some?
    {
      AlertProjection.TrackedAreSampled(cfg, ops, k);
    }

    /** The severity at which the engine fires a key, if it does. */
    ghost function Firing(k: string): Option<Severity>
      reads this`conds, conds.Values, (set x | x in conds.Values && x.alert != null :: x.alert)
    {
      if k in conds && conds[k].alert != null then Some(conds[k].alert.a.severity) else None
    }

    lemma FiringIsState(k: string)
      requires Valid()
      ensures Firing(k) == if k in state.conds then FiringOf(state, state.conds[k]) else None
    {
      if k in conds {
        assert conds[k].Is(state.conds[k], cells);
      }
    }

    /** The engine fires a key, at the severity, exactly when the whole sample history of the key says
        so, and the notices it generated for the key are exactly those due. */
    lemma RefinesHistory(k: string)
      requires Valid() && AlertProjection.RegularRun(cfg, ops)
      ensures var obs := AlertProjection.Stream(cfg, ops, k);
              && AlertProjection.Emissions(state.log, k) == AlertKey.AllDue(cfg, obs)
              && Firing(k) == (match AlertKey.Expected(cfg, obs) case Quiet => None case Firing(_, sev) => Some(sev))
    {
      AlertProjection.EngineRefinesHistory(cfg, ops, k);
      FiringIsState(k);
    }

    /** Among the notices it generated, a Raised comes at least raiseAfter after every earlier Cleared
        of its key. */
    lemma NeverFlaps(k: string, p: nat, q: nat)
      requires Valid() && AlertProjection.RegularRun(cfg, ops) && AlertProjection.WellPlacedRun(cfg, ops, k)
      requires p < q < |AlertProjection.Emissions(state.log, k)|
      requires AlertProjection.Emissions(state.log, k)[p].t == Cleared
      requires AlertProjection.Emissions(state.log, k)[q].t == Raised
      ensures AlertProjection.Emissions(state.log, k)[q].at - AlertProjection.Emissions(state.log, k)[p].at >= cfg.raiseAfter
    {
      AlertProjection.EngineNeverFlaps(cfg, ops, k, p, q);
    }

    /** Among them, a Cleared of a sampled key comes at least clearAfter after the Raised it answers. */
    lemma ClearsSlowly(k: string, q: nat)
      requires Valid() && AlertProjection.RegularRun(cfg, ops)
      requires q < |AlertProjection.Emissions(state.log, k)| && AlertProjection.Emissions(state.log, k)[q].t == Cleared
      requires AlertKey.SampledAt(AlertProjection.Stream(cfg, ops, k), AlertProjection.Emissions(state.log, k)[q].at)
      ensures AlertKey.AnsweredSlowly(cfg, AlertProjection.Emissions(state.log, k), q)
    {
      AlertProjection.EngineClearsSlowly(cfg, ops, k, q);
    }

    /** The notices of every alert object follow the lifecycle of its kind and end where it stands. */
    lemma ConditionLifecycleOf(p: AlertRef)
      requires Valid() && p in cells && p.a.kind == Condition
      ensures AlertTheorems.ConditionNotices(AlertTheorems.Notices(state.log, p.a.id), p.a)
    {
      var i := IndexOf(p);
      AlertTheorems.ConditionLifecycle(cfg, ops, i);
    }

    lemma EventLifecycleOf(p: AlertRef)
      requires Valid() && p in cells && p.a.kind == Event
      ensures AlertTheorems.EventNotices(AlertTheorems.Notices(state.log, p.a.id), p.a,
                                         p.a.key in events && events[p.a.key] == p)
    {
      var i := IndexOf(p);
      AlertTheorems.EventLifecycle(cfg, ops, i);
      SameEvent(p, i);
    }

    lemma IndexOf(p: AlertRef) returns (i: nat)
      requires Valid() && p in cells
      ensures i < |cells| && cells[i] == p && i < |state.alerts| && p.a == state.alerts[i] && p.a.id == i + 1
    {
      i :| 0 <= i < |cells| && cells[i] == p;
    }

    lemma SameEvent(p: AlertRef, i: nat)
      requires Valid() && i < |cells| && cells[i] == p
      ensures (p.a.key in events && events[p.a.key] == p) <==> (p.a.key in state.events && state.events[p.a.key] == i)
    {
      if p.a.key in events {
        assert events[p.a.key] == cells[state.events[p.a.key]];
      }
    }

    /** Whatever happened before, values beyond critical held for raiseAfter leave the key firing at
        Critical, and values beyond warning only at Warning. */
    lemma ThresholdsFire(k: string, j: nat)
      requires Valid() && AlertProjection.RegularRun(cfg, ops) && AlertProjection.WellPlacedRun(cfg, ops, k)
      requires var obs := AlertProjection.Stream(cfg, ops, k);
               j < |obs| && obs[|obs| - 1].now - obs[j].now >= cfg.raiseAfter
      ensures AlertKey.CriticalFrom(AlertProjection.Stream(cfg, ops, k), j) ==> Firing(k) == Some(Critical)
      ensures AlertKey.WarningFrom(AlertProjection.Stream(cfg, ops, k), j) ==> Firing(k) == Some(Warning)
    {
      AlertProjection.StreamWellPlaced(cfg, ops, k);
      AlertKey.ThresholdsFire(cfg, AlertProjection.Stream(cfg, ops, k), j);
      RefinesHistory(k);
    }

    /** The alert of a live event began with one of its occurrences, shows the latest, counts all from
        the one to the other and is as severe as the worst of them. */
    lemma EventShows(k: string) returns (lo: nat)
      requires Valid() && k in events
      ensures var occ := AlertOccurrences.Occurred(cfg, ops, k);
              AlertOccurrences.Told(cfg, events[k].a, occ, lo, |occ|)
    {
      lo := AlertOccurrences.LiveEventTold(cfg, ops, k);
      assert events[k] == cells[state.events[k]];
    }

    /** The alert of a firing condition shows the latest sample, since the tick that raised it. */
    lemma ConditionShows(k: string)
      requires Valid() && AlertProjection.RegularRun(cfg, ops) && k in conds && conds[k].alert != null
      ensures var obs := AlertProjection.Stream(cfg, ops, k);
              && AlertKey.LastSampled(obs)
              && AlertReports.Shows(conds[k].alert.a, AlertKey.LastSample(obs), obs[|obs| - 1].now)
              && AlertReports.ReportsSome(cfg, conds[k].alert.a, obs)
    {
      assert conds[k].Is(state.conds[k], cells);
      AlertReports.FiringReports(cfg, ops, k);
    }
  }
}
