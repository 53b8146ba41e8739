/** One condition key over its whole life. `KeyRun` is the incremental machine the engine runs for
    a key; `Expected` says what should be firing after a stream of observations, looking only at
    the observations themselves. The two agree, and the no-flapping guarantees follow. */
module AlertKey {
  import opened Units
  import opened Options
  import opened AlertRules

  /** What one tick shows of a key: a sample, or nothing when its subject was not sampled. */
  datatype Obs = Obs(now: Time, sample: Option<Sample>)

  datatype KeyState = Untracked | Tracked(timers: Timers, firing: Option<Severity>)

  /** A transition of a condition, with its severity and the tick it happened at. */
  datatype Emission = Emission(t: Transition, severity: Severity, at: Time)

  datatype KeyResult = KeyResult(state: KeyState, out: Option<Emission>)

  // ---------------------------------------------------------------- the incremental machine

  function KeySample(cfg: Config, ks: KeyState, s: Sample, now: Time): KeyResult {
    var timers := if ks.Tracked? then ks.timers else FRESH_TIMERS;
    var firing := if ks.Tracked? then ks.firing else None;
    var (t, act) := Decide(cfg, timers, firing, s, now);
    match act
    case Stay => KeyResult(Tracked(t, firing), None)
    case Fire => KeyResult(Tracked(t, Some(SampleSeverity(s))), Some(Emission(Raised, SampleSeverity(s), now)))
    case Escalate => KeyResult(Tracked(t, Some(SampleSeverity(s))), Some(Emission(Escalated, SampleSeverity(s), now)))
    case Resolve => KeyResult(Tracked(t, None), Some(Emission(Cleared, if firing.Some? then firing.value else Info, now)))
  }

  function KeyVanish(ks: KeyState, now: Time): KeyResult {
    KeyResult(Untracked, if ks.Tracked? && ks.firing.Some? then Some(Emission(Cleared, ks.firing.value, now)) else None)
  }

  function KeyStep(cfg: Config, ks: KeyState, o: Obs): KeyResult {
    if o.sample.Some? then KeySample(cfg, ks, o.sample.value, o.now) else KeyVanish(ks, o.now)
  }

  function KeyRun(cfg: Config, obs: seq<Obs>): KeyState {
    if obs == [] then Untracked
    else KeyStep(cfg, KeyRun(cfg, obs[..|obs| - 1]), obs[|obs| - 1]).state
  }

  /** All transitions emitted along a stream, in order. */
  function KeyOutputs(cfg: Config, obs: seq<Obs>): seq<Emission> {
    if obs == [] then []
    else
      var init := obs[..|obs| - 1];
      var r := KeyStep(cfg, KeyRun(cfg, init), obs[|obs| - 1]);
      KeyOutputs(cfg, init) + Seq(r.out)
  }

  // ---------------------------------------------------------------- the declarative reading

  /** Ticks come at strictly increasing, set instants. */
  ghost predicate Timely(obs: seq<Obs>) {
    && (forall i :: 0 <= i < |obs| ==> ZERO_TIME < obs[i].now)
    && (forall i, j :: 0 <= i < j < |obs| ==> obs[i].now < obs[j].now)
  }

  ghost predicate LastSampled(obs: seq<Obs>) {
    obs != [] && obs[|obs| - 1].sample.Some?
  }

  ghost function LastSample(obs: seq<Obs>): Sample
    requires LastSampled(obs)
  {
    obs[|obs| - 1].sample.value
  }

  ghost function LastSeverity(obs: seq<Obs>): Severity
    requires LastSampled(obs)
  {
    SampleSeverity(LastSample(obs))
  }

  /** Observations j.. were all sampled at severity `sev`. */
  ghost predicate HeldFrom(obs: seq<Obs>, j: int, sev: Severity)
    requires 0 <= j
  {
    forall i :: j <= i < |obs| ==> obs[i].sample.Some? && SampleSeverity(obs[i].sample.value) == sev
  }

  /** Observations j.. were all sampled under the clear level. */
  ghost predicate ClearFrom(cfg: Config, obs: seq<Obs>, j: int)
    requires 0 <= j
  {
    forall i :: j <= i < |obs| ==> obs[i].sample.Some? && SampleClear(cfg, obs[i].sample.value)
  }

  /** An uninterrupted run of samples of severity `sev` reaches the last tick and spans raiseAfter. */
  ghost predicate HeldLongEnough(cfg: Config, obs: seq<Obs>, sev: Severity)
    requires obs != []
  {
    exists j :: 0 <= j < |obs| && HeldFrom(obs, j, sev) && obs[|obs| - 1].now - obs[j].now >= cfg.raiseAfter
  }

  /** A run of samples under the clear level, all later than tick `since`, reaches the last tick
      and spans clearAfter. */
  ghost predicate ClearLongEnough(cfg: Config, obs: seq<Obs>, since: int)
    requires obs != [] && 0 <= since
  {
    exists j :: since < j < |obs| && ClearFrom(cfg, obs, j) && obs[|obs| - 1].now - obs[j].now >= cfg.clearAfter
  }

  /** Quiet, or firing since the given tick at the given severity. */
  datatype Phase = Quiet | Firing(since: nat, severity: Severity)

  /** The phase after the last observation, from the phase before it. */
  ghost function NextPhase(cfg: Config, obs: seq<Obs>, before: Phase): Phase
    requires obs != []
  {
    if !LastSampled(obs) then Quiet
    else
      var sev := LastSeverity(obs);
      var holds := sev != Info && HeldLongEnough(cfg, obs, sev);
      match before
      case Quiet => if holds then Firing(|obs| - 1, sev) else Quiet
      case Firing(since, severity) =>
        if ClearLongEnough(cfg, obs, since) then Quiet
        else if holds && !SampleClear(cfg, LastSample(obs)) then Firing(since, sev)
        else Firing(since, severity)
  }

  /** The phase a whole stream implies. */
  ghost function Expected(cfg: Config, obs: seq<Obs>): Phase {
    if obs == [] then Quiet else NextPhase(cfg, obs, Expected(cfg, obs[..|obs| - 1]))
  }

  /** The transition that a change of phase calls for. */
  ghost function Change(before: Phase, after: Phase, now: Time): Option<Emission> {
    if before.Quiet? && after.Firing? then Some(Emission(Raised, after.severity, now))
    else if before.Firing? && after.Quiet? then Some(Emission(Cleared, before.severity, now))
    else if before.Firing? && after.Firing? && before.severity != after.severity then
      Some(Emission(Escalated, after.severity, now))
    else None
  }

  /** The transition due at tick n. */
  ghost function Due(cfg: Config, obs: seq<Obs>, n: nat): Option<Emission>
    requires n < |obs|
  {
    Change(Expected(cfg, obs[..n]), Expected(cfg, obs[..n + 1]), obs[n].now)
  }

  /** What is due at each tick of a stream. */
  ghost function Dues(cfg: Config, obs: seq<Obs>): seq<Option<Emission>> {
    seq(|obs|, n requires 0 <= n < |obs| => Due(cfg, obs, n))
  }

  /** All transitions due along a stream, in order. */
  ghost function AllDue(cfg: Config, obs: seq<Obs>): seq<Emission> {
    Somes(Dues(cfg, obs))
  }

  // ---------------------------------------------------------------- starts of runs

  /** Start of the maximal run of the last observation's severity. */
  ghost function HoldStart(obs: seq<Obs>): (j: nat)
    requires LastSampled(obs)
    ensures j < |obs| && HeldFrom(obs, j, LastSeverity(obs))
    ensures forall i :: 0 <= i < |obs| && HeldFrom(obs, i, LastSeverity(obs)) ==> j <= i
  {
    var n := |obs| - 1;
    var init := obs[..n];
    if LastSampled(init) && LastSeverity(init) == LastSeverity(obs) then
      assert forall i :: 0 <= i < n && HeldFrom(obs, i, LastSeverity(obs)) ==> HeldFrom(init, i, LastSeverity(obs));
      HoldStart(init)
    else n
  }

  /** Start of the maximal run of clear samples later than tick `since`. */
  ghost function ClearStart(cfg: Config, obs: seq<Obs>, since: nat): (j: nat)
    requires since < |obs| - 1 && LastSampled(obs) && SampleClear(cfg, LastSample(obs))
    ensures since < j < |obs| && ClearFrom(cfg, obs, j)
    ensures forall i :: since < i < |obs| && ClearFrom(cfg, obs, i) ==> j <= i
  {
    var n := |obs| - 1;
    var init := obs[..n];
    if since < n - 1 && LastSampled(init) && SampleClear(cfg, LastSample(init)) then
      assert forall i :: since < i < n && ClearFrom(cfg, obs, i) ==> ClearFrom(cfg, init, i);
      ClearStart(cfg, init, since)
    else n
  }

  lemma HeldLongEnoughIff(cfg: Config, obs: seq<Obs>)
    requires Timely(obs) && LastSampled(obs)
    ensures HeldLongEnough(cfg, obs, LastSeverity(obs))
       <==> obs[|obs| - 1].now - obs[HoldStart(obs)].now >= cfg.raiseAfter
  {
    if HeldLongEnough(cfg, obs, LastSeverity(obs)) {
      var j :| 0 <= j < |obs| && HeldFrom(obs, j, LastSeverity(obs))
               && obs[|obs| - 1].now - obs[j].now >= cfg.raiseAfter;
      assert HoldStart(obs) <= j;
    }
  }

  lemma ClearLongEnoughIff(cfg: Config, obs: seq<Obs>, since: nat)
    requires Timely(obs) && since < |obs| - 1 && LastSampled(obs)
    ensures ClearLongEnough(cfg, obs, since)
       <==> SampleClear(cfg, LastSample(obs))
            && obs[|obs| - 1].now - obs[ClearStart(cfg, obs, since)].now >= cfg.clearAfter
  {
    if ClearLongEnough(cfg, obs, since) {
      var j :| since < j < |obs| && ClearFrom(cfg, obs, j) && obs[|obs| - 1].now - obs[j].now >= cfg.clearAfter;
      assert SampleClear(cfg, LastSample(obs));
      assert ClearStart(cfg, obs, since) <= j;
    }
  }

  // ---------------------------------------------------------------- refinement

  /** The pending timer holds the start of the current severity run. */
  ghost predicate PendingRecords(t: Timers, obs: seq<Obs>)
    requires LastSampled(obs)
  {
    && t.pending == LastSeverity(obs)
    && (t.pending != Info ==> t.pendingAt == obs[HoldStart(obs)].now)
  }

  /** While firing, the clear timer holds the start of the current clear run, if there is one. */
  ghost function BelowRecord(cfg: Config, obs: seq<Obs>, since: nat): Time
    requires LastSampled(obs) && since < |obs|
  {
    if since < |obs| - 1 && SampleClear(cfg, LastSample(obs)) then obs[ClearStart(cfg, obs, since)].now
    else ZERO_TIME
  }

  /** What the incremental state records of the stream, given the phase the stream implies. */
  ghost predicate RecordsPhase(cfg: Config, ks: KeyState, obs: seq<Obs>, phase: Phase) {
    if !LastSampled(obs) then ks == Untracked && phase == Quiet
    else
      && ks.Tracked?
      && PendingRecords(ks.timers, obs)
      && match phase
         case Quiet => ks.firing == None && ks.timers.belowAt == ZERO_TIME
         case Firing(since, severity) =>
           && since < |obs|
           && ks.firing == Some(severity)
           && ks.timers.belowAt == BelowRecord(cfg, obs, since)
  }

  ghost predicate Records(cfg: Config, ks: KeyState, obs: seq<Obs>) {
    RecordsPhase(cfg, ks, obs, Expected(cfg, obs))
  }

  /** Advancing the pending timer keeps it at the start of the run, so `held` is the declarative
      condition. */
  lemma PendingStep(cfg: Config, t: Timers, obs: seq<Obs>)
    requires Timely(obs) && LastSampled(obs)
    requires var init := obs[..|obs| - 1]; if LastSampled(init) then PendingRecords(t, init) else t.pending == Info
    ensures var now := obs[|obs| - 1].now;
            var sev := LastSeverity(obs);
            var t1 := Pend(t, sev, now);
            && PendingRecords(t1, obs)
            && (sev != Info ==> (now - t1.pendingAt >= cfg.raiseAfter <==> HeldLongEnough(cfg, obs, sev)))
  {
    HeldLongEnoughIff(cfg, obs);
  }

  /** Advancing the clear timer of a firing condition, likewise. */
  lemma BelowStep(cfg: Config, obs: seq<Obs>, since: nat, below: Time)
    requires Timely(obs) && LastSampled(obs) && since < |obs| - 1
    requires var init := obs[..|obs| - 1]; LastSampled(init) && below == BelowRecord(cfg, init, since)
    ensures var now := obs[|obs| - 1].now;
            var b := if below == ZERO_TIME then now else below;
            SampleClear(cfg, LastSample(obs)) ==>
              && BelowRecord(cfg, obs, since) == b
              && (now - b >= cfg.clearAfter <==> ClearLongEnough(cfg, obs, since))
    ensures !SampleClear(cfg, LastSample(obs)) ==> !ClearLongEnough(cfg, obs, since)
  {
    ClearLongEnoughIff(cfg, obs, since);
  }

  lemma QuietStep(cfg: Config, ks: KeyState, obs: seq<Obs>)
    requires Timely(obs) && LastSampled(obs)
    requires RecordsPhase(cfg, ks, obs[..|obs| - 1], Quiet)
    ensures var r := KeyStep(cfg, ks, obs[|obs| - 1]);
            && RecordsPhase(cfg, r.state, obs, NextPhase(cfg, obs, Quiet))
            && r.out == Change(Quiet, NextPhase(cfg, obs, Quiet), obs[|obs| - 1].now)
  {
    PendingStep(cfg, if ks.Tracked? then ks.timers else FRESH_TIMERS, obs);
  }

  lemma FiringStep(cfg: Config, ks: KeyState, obs: seq<Obs>, before: Phase)
    requires Timely(obs) && LastSampled(obs) && before.Firing?
    requires RecordsPhase(cfg, ks, obs[..|obs| - 1], before)
    ensures var r := KeyStep(cfg, ks, obs[|obs| - 1]);
            && RecordsPhase(cfg, r.state, obs, NextPhase(cfg, obs, before))
            && r.out == Change(before, NextPhase(cfg, obs, before), obs[|obs| - 1].now)
  {
    PendingStep(cfg, ks.timers, obs);
    BelowStep(cfg, obs, before.since, ks.timers.belowAt);
  }

  lemma StepRecords(cfg: Config, ks: KeyState, obs: seq<Obs>)
    requires Timely(obs) && obs != []
    requires Records(cfg, ks, obs[..|obs| - 1])
    ensures Records(cfg, KeyStep(cfg, ks, obs[|obs| - 1]).state, obs)
    ensures KeyStep(cfg, ks, obs[|obs| - 1]).out == Due(cfg, obs, |obs| - 1)
  {
    var n := |obs| - 1;
    assert obs[..n + 1] == obs;
    var before := Expected(cfg, obs[..n]);
    if LastSampled(obs) {
      if before.Quiet? {
        QuietStep(cfg, ks, obs);
      } else {
        FiringStep(cfg, ks, obs, before);
      }
    }
  }

  /** The incremental machine agrees with the declarative reading on every stream: same phase and
      severity after the stream, same transitions along it. */
  lemma {:induction false} MachineRefinesHistory(cfg: Config, obs: seq<Obs>)
    requires Timely(obs)
    ensures Records(cfg, KeyRun(cfg, obs), obs)
    ensures KeyOutputs(cfg, obs) == AllDue(cfg, obs)
  {
    if obs != [] {
      var n := |obs| - 1;
      var init := obs[..n];
      MachineRefinesHistory(cfg, init);
      StepRecords(cfg, KeyRun(cfg, init), obs);
      DuesPrefix(cfg, obs);
    }
  }

  lemma DuesPrefix(cfg: Config, obs: seq<Obs>)
    requires obs != []
    ensures Dues(cfg, obs)[..|obs| - 1] == Dues(cfg, obs[..|obs| - 1])
  {
    var init := obs[..|obs| - 1];
    forall n | 0 <= n < |init| ensures Due(cfg, obs, n) == Due(cfg, init, n) {
      assert obs[..n] == init[..n] && obs[..n + 1] == init[..n + 1];
    }
  }

  // ---------------------------------------------------------------- no flapping

  ghost predicate DueIs(cfg: Config, obs: seq<Obs>, n: nat, t: Transition)
    requires n < |obs|
  {
    Due(cfg, obs, n).Some? && Due(cfg, obs, n).value.t == t
  }

  /** Every sample's thresholds keep the clear level outside the alert bands. */
  ghost predicate WellPlaced(cfg: Config, obs: seq<Obs>) {
    forall i :: 0 <= i < |obs| && obs[i].sample.Some? ==>
      ClearLevelOutside(obs[i].sample.value.level, obs[i].sample.value.lowerWorse, cfg.clearRatio)
  }

  /** A firing phase goes on from the tick before, or begins with a Raised. */
  lemma FiringGoesOn(cfg: Config, obs: seq<Obs>, n: nat)
    requires n <= |obs| && Expected(cfg, obs[..n]).Firing?
    ensures 0 < n
    ensures var before, after := Expected(cfg, obs[..n - 1]), Expected(cfg, obs[..n]);
            if before.Firing? then after.since == before.since
            else after.since == n - 1 && DueIs(cfg, obs, n - 1, Raised)
  {
    assert n > 0 && obs[..n][..n - 1] == obs[..n - 1];
  }

  /** Phases in which firing goes on or begins at the tick before. */
  ghost predicate Unbroken(phases: seq<Phase>) {
    && phases != [] && phases[0].Quiet?
    && forall n :: 0 < n < |phases| && phases[n].Firing? ==>
         phases[n].since == if phases[n - 1].Firing? then phases[n - 1].since else n - 1
  }

  lemma {:induction false} UnbrokenSince(phases: seq<Phase>, n: nat)
    requires Unbroken(phases) && n < |phases| && phases[n].Firing?
    ensures var since := phases[n].since;
            && since < n && phases[since].Quiet?
            && forall m :: since < m <= n ==> phases[m].Firing? && phases[m].since == since
  {
    if phases[n - 1].Firing? {
      UnbrokenSince(phases, n - 1);
    }
  }

  /** The phase after each prefix of a stream. */
  ghost function Phases(cfg: Config, obs: seq<Obs>): (r: seq<Phase>)
    ensures |r| == |obs| + 1 && forall n :: 0 <= n <= |obs| ==> r[n] == Expected(cfg, obs[..n])
  {
    seq(|obs| + 1, n requires 0 <= n <= |obs| => Expected(cfg, obs[..n]))
  }

  lemma PhasesUnbroken(cfg: Config, obs: seq<Obs>)
    ensures Unbroken(Phases(cfg, obs))
  {
    var phases := Phases(cfg, obs);
    assert phases[0] == Expected(cfg, obs[..0]);
    forall n | 0 < n < |phases| && phases[n].Firing?
      ensures phases[n].since == if phases[n - 1].Firing? then phases[n - 1].since else n - 1
    {
      FiringGoesOn(cfg, obs, n);
    }
  }

  /** A firing phase began with a Raised at its `since` tick and has lasted from there. */
  lemma FiringBeganRaised(cfg: Config, obs: seq<Obs>, n: nat)
    requires n <= |obs| && Expected(cfg, obs[..n]).Firing?
    ensures var since := Expected(cfg, obs[..n]).since;
            && since < n && DueIs(cfg, obs, since, Raised)
            && forall m :: since < m <= n ==> FiringSince(cfg, obs, m, since)
  {
    var phases := Phases(cfg, obs);
    PhasesUnbroken(cfg, obs);
    UnbrokenSince(phases, n);
    var since := phases[n].since;
    forall m | since < m <= n ensures FiringSince(cfg, obs, m, since) {
      assert phases[m].Firing? && phases[m].since == since;
    }
    assert phases[since].Quiet? && phases[since + 1].Firing?;
    FiringGoesOn(cfg, obs, since + 1);
  }

  /** After m observations the key fires, since the given tick. */
  ghost predicate FiringSince(cfg: Config, obs: seq<Obs>, m: nat, since: nat)
    requires m <= |obs|
  {
    Expected(cfg, obs[..m]).Firing? && Expected(cfg, obs[..m]).since == since
  }

  /** Nothing but escalations is due strictly between two ticks. */
  ghost predicate OnlyEscalations(cfg: Config, obs: seq<Obs>, a: nat, b: nat)
    requires b <= |obs|
  {
    forall m :: a < m < b && Due(cfg, obs, m).Some? ==> Due(cfg, obs, m).value.t == Escalated
  }

  /** A Cleared caused by a value comes at least clearAfter after the Raised it ends. */
  lemma {:induction false} RaisedThenCleared(cfg: Config, obs: seq<Obs>, b: nat) returns (a: nat)
    requires Timely(obs) && b < |obs| && obs[b].sample.Some? && DueIs(cfg, obs, b, Cleared)
    ensures a < b && DueIs(cfg, obs, a, Raised) && obs[b].now - obs[a].now >= cfg.clearAfter
    ensures OnlyEscalations(cfg, obs, a, b)
  {
    FiringBeganRaised(cfg, obs, b);
    a := Expected(cfg, obs[..b]).since;
    assert obs[..b + 1][..b] == obs[..b];
    assert ClearLongEnough(cfg, obs[..b + 1], a);
    assert obs[b].now - obs[a].now >= cfg.clearAfter;
    forall m | a < m < b && Due(cfg, obs, m).Some? ensures Due(cfg, obs, m).value.t == Escalated {
      assert FiringSince(cfg, obs, m, a) && FiringSince(cfg, obs, m + 1, a);
    }
  }

  /** A Raised is due only after an uninterrupted run of one severity, which is not Info. */
  lemma RaisedAfterRun(cfg: Config, obs: seq<Obs>, b: nat) returns (j: nat)
    requires b < |obs| && DueIs(cfg, obs, b, Raised)
    ensures j <= b && obs[b].now - obs[j].now >= cfg.raiseAfter
    ensures forall i :: j <= i <= b ==> obs[i].sample.Some? && SampleSeverity(obs[i].sample.value) != Info
  {
    var upto := obs[..b + 1];
    assert upto[..b] == obs[..b];
    var sev := LastSeverity(upto);
    assert HeldLongEnough(cfg, upto, sev) && sev != Info;
    j :| 0 <= j < |upto| && HeldFrom(upto, j, sev) && upto[b].now - upto[j].now >= cfg.raiseAfter;
    assert forall i :: j <= i <= b ==> upto[i] == obs[i];
  }

  /** A Cleared is due only when the subject vanished or its value is under the clear level. */
  lemma ClearedUnderLevel(cfg: Config, obs: seq<Obs>, a: nat)
    requires a < |obs| && DueIs(cfg, obs, a, Cleared)
    ensures obs[a].sample.Some? ==> SampleClear(cfg, obs[a].sample.value)
  {
    var upto := obs[..a + 1];
    assert upto[..a] == obs[..a] && upto[a] == obs[a];
    if obs[a].sample.Some? {
      var since := Expected(cfg, obs[..a]).since;
      assert ClearLongEnough(cfg, upto, since);
      var j :| since < j < |upto| && ClearFrom(cfg, upto, j);
      assert upto[a].sample.Some?;
    }
  }

  /** A Raised comes at least raiseAfter after every earlier Cleared, whether that one was caused
      by a value or by the subject vanishing. */
  lemma ClearedThenRaised(cfg: Config, obs: seq<Obs>, a: nat, b: nat)
    requires Timely(obs) && WellPlaced(cfg, obs) && a < b < |obs|
    requires DueIs(cfg, obs, a, Cleared) && DueIs(cfg, obs, b, Raised)
    ensures obs[b].now - obs[a].now >= cfg.raiseAfter
  {
    var j := RaisedAfterRun(cfg, obs, b);
    ClearedUnderLevel(cfg, obs, a);
    if j <= a {
      var s := obs[a].sample.value;
      BandsDisjointIff(s.level, s.lowerWorse, cfg.clearRatio);
      assert false;
    }
  }

  /** The tick at which the p-th transition is due. */
  lemma DueTick(cfg: Config, obs: seq<Obs>, p: nat) returns (a: nat)
    requires p < |AllDue(cfg, obs)|
    ensures a < |obs| && |Somes(Dues(cfg, obs)[..a])| == p && Dues(cfg, obs)[a].Some?
    ensures Due(cfg, obs, a) == Some(AllDue(cfg, obs)[p]) && AllDue(cfg, obs)[p].at == obs[a].now
  {
    a := IndexOfSome(Dues(cfg, obs), p);
  }

  /** A Raised comes at least raiseAfter after any earlier Cleared. */
  lemma DueNeverFlaps(cfg: Config, obs: seq<Obs>, p: nat, q: nat)
    requires Timely(obs) && WellPlaced(cfg, obs) && p < q < |AllDue(cfg, obs)|
    requires AllDue(cfg, obs)[p].t == Cleared && AllDue(cfg, obs)[q].t == Raised
    ensures AllDue(cfg, obs)[q].at - AllDue(cfg, obs)[p].at >= cfg.raiseAfter
  {
    var a := DueTick(cfg, obs, p);
    var b := DueTick(cfg, obs, q);
    IndexesInOrder(Dues(cfg, obs), a, b);
    ClearedThenRaised(cfg, obs, a, b);
  }

  /** The key was sampled, and not merely missing, at the given time. */
  ghost predicate SampledAt(obs: seq<Obs>, at: Time) {
    exists i :: 0 <= i < |obs| && obs[i].sample.Some? && obs[i].now == at
  }

  /** The q-th transition answers a Raised at least clearAfter earlier, with only escalations between. */
  ghost predicate AnsweredSlowly(cfg: Config, e: seq<Emission>, q: nat)
    requires q < |e|
  {
    exists p :: 0 <= p < q && e[p].t == Raised && e[q].at - e[p].at >= cfg.clearAfter
                && forall m :: p < m < q ==> e[m].t == Escalated
  }

  /** Between a tick's transition and a later one's, the flattened sequence holds what is due between. */
  lemma EscalatedBetween(d: seq<Option<Emission>>, a: nat, b: nat, p: nat, q: nat)
    requires a < b < |d| && d[a].Some? && d[b].Some?
    requires p == |Somes(d[..a])| && q == |Somes(d[..b])|
    requires forall m :: a < m < b && d[m].Some? ==> d[m].value.t == Escalated
    ensures p < q < |Somes(d)| && Somes(d)[p] == d[a].value && Somes(d)[q] == d[b].value
    ensures forall m :: p < m < q ==> Somes(d)[m].t == Escalated
  {
    SomeAt(d, a);
    SomeAt(d, b);
    SomeAt(d[..b], a);
    assert d[..b][..a] == d[..a];
    forall m | p < m < q ensures Somes(d)[m].t == Escalated {
      var c := IndexOfSome(d, m);
      IndexesInOrder(d, a, c);
      IndexesInOrder(d, c, b);
    }
  }

  /** A Cleared of a sampled key comes at least clearAfter after the Raised it answers. */
  lemma DueClearsSlowly(cfg: Config, obs: seq<Obs>, q: nat)
    requires Timely(obs) && q < |AllDue(cfg, obs)| && AllDue(cfg, obs)[q].t == Cleared
    requires SampledAt(obs, AllDue(cfg, obs)[q].at)
    ensures AnsweredSlowly(cfg, AllDue(cfg, obs), q)
  {
    var d := Dues(cfg, obs);
    var b := IndexOfSome(d, q);
    assert obs[b].sample.Some?;
    var a := RaisedThenCleared(cfg, obs, b);
    EscalatedBetween(d, a, b, |Somes(d[..a])|, q);
  }

  // ---------------------------------------------------------------- the severity it fires at

  /** Observations j.. reach an enabled critical threshold. */
  ghost predicate CriticalFrom(obs: seq<Obs>, j: nat) {
    forall i :: j <= i < |obs| ==>
      && obs[i].sample.Some?
      && var s := obs[i].sample.value;
         s.level.crit != 0.0 && AsBad(s.lowerWorse, s.value, s.level.crit)
  }

  /** Observations j.. reach an enabled warning threshold, but no critical one. */
  ghost predicate WarningFrom(obs: seq<Obs>, j: nat) {
    forall i :: j <= i < |obs| ==>
      && obs[i].sample.Some?
      && var s := obs[i].sample.value;
         && s.level.warn != 0.0 && AsBad(s.lowerWorse, s.value, s.level.warn)
         && (s.level.crit == 0.0 || !AsBad(s.lowerWorse, s.value, s.level.crit))
  }

  /** Whatever happened before, one severity held for raiseAfter is what the key then fires at. */
  lemma HeldFires(cfg: Config, obs: seq<Obs>, j: nat, sev: Severity)
    requires WellPlaced(cfg, obs) && j < |obs| && sev != Info && HeldFrom(obs, j, sev)
    requires obs[|obs| - 1].now - obs[j].now >= cfg.raiseAfter
    ensures Expected(cfg, obs).Firing? && Expected(cfg, obs).severity == sev
  {
    var s := obs[|obs| - 1].sample.value;
    BandsDisjointIff(s.level, s.lowerWorse, cfg.clearRatio);
    assert !SampleClear(cfg, LastSample(obs));
    assert HeldLongEnough(cfg, obs, sev);
  }

  /** Values beyond critical held for raiseAfter fire at Critical, and values beyond warning only at
      Warning. */
  lemma ThresholdsFire(cfg: Config, obs: seq<Obs>, j: nat)
    requires WellPlaced(cfg, obs) && j < |obs| && obs[|obs| - 1].now - obs[j].now >= cfg.raiseAfter
    ensures CriticalFrom(obs, j) ==> Expected(cfg, obs).Firing? && Expected(cfg, obs).severity == Critical
    ensures WarningFrom(obs, j) ==> Expected(cfg, obs).Firing? && Expected(cfg, obs).severity == Warning
  {
    if CriticalFrom(obs, j) {
      forall i | j <= i < |obs| ensures obs[i].sample.Some? && SampleSeverity(obs[i].sample.value) == Critical {
        SeverityIff(obs[i].sample.value.level, obs[i].sample.value.lowerWorse, obs[i].sample.value.value);
      }
      HeldFires(cfg, obs, j, Critical);
    }
    if WarningFrom(obs, j) {
      forall i | j <= i < |obs| ensures obs[i].sample.Some? && SampleSeverity(obs[i].sample.value) == Warning {
        SeverityIff(obs[i].sample.value.level, obs[i].sample.value.lowerWorse, obs[i].sample.value.value);
      }
      HeldFires(cfg, obs, j, Warning);
    }
  }

  // ---------------------------------------------------------------- exactly when no stream flaps

  ghost predicate AllAt(obs: seq<Obs>, level: Level, lowerWorse: bool) {
    forall i :: 0 <= i < |obs| && obs[i].sample.Some? ==>
      obs[i].sample.value.level == level && obs[i].sample.value.lowerWorse == lowerWorse
  }

  ghost predicate Flaps(cfg: Config, obs: seq<Obs>, a: int, b: int) {
    && 0 <= a < b < |obs| && DueIs(cfg, obs, a, Cleared) && DueIs(cfg, obs, b, Raised)
    && obs[b].now - obs[a].now < cfg.raiseAfter
  }

  /** A threshold pair flaps on no stream at all exactly when no enabled threshold lies beyond its
      clear level, or the raise delay is too short for two ticks to fall below it. */
  lemma NeverFlapsIff(cfg: Config, level: Level, lowerWorse: bool)
    ensures (forall obs, a, b :: Timely(obs) && AllAt(obs, level, lowerWorse) ==> !Flaps(cfg, obs, a, b))
       <==> ClearLevelOutside(level, lowerWorse, cfg.clearRatio) || cfg.raiseAfter <= 1
  {
    if ClearLevelOutside(level, lowerWorse, cfg.clearRatio) || cfg.raiseAfter <= 1 {
      forall obs, a, b | Timely(obs) && AllAt(obs, level, lowerWorse) ensures !Flaps(cfg, obs, a, b) {
        if Flaps(cfg, obs, a, b) && 1 < cfg.raiseAfter {
          ClearedThenRaised(cfg, obs, a, b);
        }
      }
    } else {
      var v := OverlapValue(level, lowerWorse, cfg.clearRatio);
      var s := Sample("", "", "", "", "", v, level, lowerWorse, "");
      var obs, a := FlapStreamFlaps(cfg, s);
      assert AllAt(obs, level, lowerWorse);
    }
  }

  /** A constant value, sampled just late enough to raise, clear and raise again. */
  lemma FlapStreamFlaps(cfg: Config, s: Sample) returns (obs: seq<Obs>, a: nat)
    requires 1 < cfg.raiseAfter && SampleClear(cfg, s) && SampleSeverity(s) != Info
    ensures Timely(obs) && (forall i :: 0 <= i < |obs| ==> obs[i].sample == Some(s)) && Flaps(cfg, obs, a, a + 1)
  {
    if 0 < cfg.clearAfter {
      obs, a := SlowFlapStream(cfg, s), 3;
      SlowFlapStreamFlaps(cfg, s);
    } else {
      obs, a := QuickFlapStream(cfg, s), 2;
      QuickFlapStreamFlaps(cfg, s);
    }
  }

  /** With a clear delay: raised at the second tick, clear from the third, cleared at the fourth. */
  ghost function SlowFlapStream(cfg: Config, s: Sample): seq<Obs> {
    var t1 := 1 + cfg.raiseAfter;
    var t3 := t1 + 1 + cfg.clearAfter;
    [Obs(1, Some(s)), Obs(t1, Some(s)), Obs(t1 + 1, Some(s)), Obs(t3, Some(s)), Obs(t3 + 1, Some(s))]
  }

  lemma SlowFlapStreamFlaps(cfg: Config, s: Sample)
    requires 1 < cfg.raiseAfter && 0 < cfg.clearAfter && SampleClear(cfg, s) && SampleSeverity(s) != Info
    ensures Timely(SlowFlapStream(cfg, s)) && Flaps(cfg, SlowFlapStream(cfg, s), 3, 4)
  {
    var obs := SlowFlapStream(cfg, s);
    SlowFlapStreamFires(cfg, s);
    ConstantPhase(cfg, obs, s, 4);
    ConstantPhase(cfg, obs, s, 5);
  }

  lemma SlowFlapStreamFires(cfg: Config, s: Sample)
    requires 1 < cfg.raiseAfter && 0 < cfg.clearAfter && SampleClear(cfg, s) && SampleSeverity(s) != Info
    ensures Timely(SlowFlapStream(cfg, s)) && Expected(cfg, SlowFlapStream(cfg, s)[..3]) == Firing(1, SampleSeverity(s))
  {
    var obs := SlowFlapStream(cfg, s);
    ConstantPhase(cfg, obs, s, 1);
    ConstantPhase(cfg, obs, s, 2);
    ConstantPhase(cfg, obs, s, 3);
  }

  /** Without one: raised at the second tick, cleared at the third. */
  ghost function QuickFlapStream(cfg: Config, s: Sample): seq<Obs> {
    var t1 := 1 + cfg.raiseAfter;
    [Obs(1, Some(s)), Obs(t1, Some(s)), Obs(t1 + 1, Some(s)), Obs(t1 + 2, Some(s))]
  }

  lemma QuickFlapStreamFlaps(cfg: Config, s: Sample)
    requires 1 < cfg.raiseAfter && cfg.clearAfter <= 0 && SampleClear(cfg, s) && SampleSeverity(s) != Info
    ensures Timely(QuickFlapStream(cfg, s)) && Flaps(cfg, QuickFlapStream(cfg, s), 2, 3)
  {
    var obs := QuickFlapStream(cfg, s);
    ConstantPhase(cfg, obs, s, 1);
    ConstantPhase(cfg, obs, s, 2);
    ConstantPhase(cfg, obs, s, 3);
    ConstantPhase(cfg, obs, s, 4);
    assert Expected(cfg, obs[..2]) == Firing(1, SampleSeverity(s));
  }

  /** On a stream repeating one sample that is both severe and clear, only time decides. */
  lemma ConstantPhase(cfg: Config, obs: seq<Obs>, s: Sample, n: nat)
    requires Timely(obs) && 0 < n <= |obs| && (forall i :: 0 <= i < |obs| ==> obs[i].sample == Some(s))
    requires SampleClear(cfg, s) && SampleSeverity(s) != Info
    ensures Expected(cfg, obs[..n]) ==
            match Expected(cfg, obs[..n - 1])
            case Quiet =>
              if obs[n - 1].now - obs[0].now >= cfg.raiseAfter then Firing(n - 1, SampleSeverity(s)) else Quiet
            case Firing(since, severity) =>
              if since + 1 < n && obs[n - 1].now - obs[since + 1].now >= cfg.clearAfter then Quiet
              else Firing(since, severity)
  {
    var pre := obs[..n];
    assert pre[..n - 1] == obs[..n - 1];
    assert HeldFrom(pre, 0, SampleSeverity(s));
    assert forall i :: 0 <= i ==> ClearFrom(cfg, pre, i);
  }
}
