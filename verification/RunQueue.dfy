/** The run-queue probe: scheduler events in, one latency per completed wait out. */
module RunQueue {
  import opened Units
  import opened Options
  import opened Histogram
  import opened Percentiles

  type Nanos = n: nat | n < U64

  /** A scheduler event. A switch reads the clock once for the thread going out and once for the
      thread coming in. */
  datatype Event =
    | Wakeup(tgid: nat, pid: nat, ts: Nanos)
    | Switch(prevTgid: nat, prevPid: nat, prevRunnable: bool, outAt: Nanos, nextTgid: nat, nextPid: nat, inAt: Nanos)
    | Exit(tgid: nat, pid: nat)

  /** The probe's maps, with the latencies of a thread in the order they were recorded. */
  datatype Probe = Probe(start: map<nat, Nanos>, recorded: map<nat, seq<nat>>)

  const EMPTY := Probe(map[], map[])

  function Recorded(s: Probe, pid: nat): seq<nat> {
    if pid in s.recorded then s.recorded[pid] else []
  }

  function Enqueue(targets: set<nat>, s: Probe, tgid: nat, pid: nat, ts: Nanos): Probe {
    if tgid in targets then s.(start := s.start[pid := ts]) else s
  }

  /** The wait in microseconds, from 64-bit clock readings. */
  function Waited(from: Nanos, to: Nanos): nat {
    Minus(to, from) / 1000
  }

  function Dequeue(targets: set<nat>, s: Probe, tgid: nat, pid: nat, ts: Nanos): Probe {
    if tgid in targets && pid in s.start then
      Probe(s.start - {pid}, s.recorded[pid := Recorded(s, pid) + [Waited(s.start[pid], ts)]])
    else s
  }

  function Step(targets: set<nat>, s: Probe, e: Event): Probe {
    match e
    case Wakeup(tgid, pid, ts) => Enqueue(targets, s, tgid, pid, ts)
    case Switch(prevTgid, prevPid, prevRunnable, outAt, nextTgid, nextPid, inAt) =>
      Dequeue(targets, if prevRunnable then Enqueue(targets, s, prevTgid, prevPid, outAt) else s, nextTgid, nextPid, inAt)
    case Exit(tgid, pid) => if tgid in targets then Probe(s.start - {pid}, s.recorded - {pid}) else s
  }

  function Run(targets: set<nat>, events: seq<Event>): Probe {
    if events == [] then EMPTY else Step(targets, Run(targets, events[..|events| - 1]), events[|events| - 1])
  }

  // ---------------------------------------------------------------- what the thread really waited

  /** A thread seen from the scheduler: on the queue since some time, or not, and when it was last
      put there; its completed waits in nanoseconds, and how much of each had passed when the thread
      was last put on the queue, although it was there already. */
  datatype Thread = Thread(since: Option<Nanos>, latest: Nanos, waits: seq<nat>, lost: seq<nat>)

  function Queue(t: Thread, ts: Nanos): Thread {
    t.(since := if t.since.Some? then t.since else Some(ts), latest := ts)
  }

  function Pick(t: Thread, ts: Nanos): Thread {
    if t.since.Some? && t.since.value <= t.latest <= ts then
      Thread(None, t.latest, t.waits + [ts - t.since.value], t.lost + [t.latest - t.since.value])
    else t.(since := None)
  }

  function Live(t: Thread, p: nat, e: Event): Thread {
    match e
    case Wakeup(_, pid, ts) => if pid == p then Queue(t, ts) else t
    case Switch(_, prevPid, prevRunnable, outAt, _, nextPid, inAt) =>
      var u := if prevPid == p && prevRunnable then Queue(t, outAt) else t;
      if nextPid == p then Pick(u, inAt) else u
    case Exit(_, _) => t
  }

  function Life(events: seq<Event>, p: nat): Thread {
    if events == [] then Thread(None, 0, [], []) else Live(Life(events[..|events| - 1], p), p, events[|events| - 1])
  }

  // ---------------------------------------------------------------- schedules

  /** The event is about a targeted process wherever it names thread p, and does not end p. */
  ghost predicate Follows(targets: set<nat>, p: nat, e: Event) {
    match e
    case Wakeup(tgid, pid, _) => pid == p ==> tgid in targets
    case Switch(prevTgid, prevPid, _, _, nextTgid, nextPid, _) =>
      (prevPid == p ==> prevTgid in targets) && (nextPid == p ==> nextTgid in targets)
    case Exit(_, pid) => pid != p
  }

  /** The clock at the end of an event. */
  ghost function Clock(last: Nanos, e: Event): Nanos {
    match e
    case Wakeup(_, _, ts) => ts
    case Switch(_, _, _, _, _, _, inAt) => inAt
    case Exit(_, _) => last
  }

  ghost predicate InTime(last: Nanos, e: Event) {
    match e
    case Wakeup(_, _, ts) => last <= ts
    case Switch(_, _, _, outAt, _, _, inAt) => last <= outAt <= inAt
    case Exit(_, _) => true
  }

  ghost function Now(events: seq<Event>): Nanos {
    if events == [] then 0 else Clock(Now(events[..|events| - 1]), events[|events| - 1])
  }

  /** A schedule in which the clock does not run backwards and thread p stays targeted and alive. */
  ghost predicate Schedule(targets: set<nat>, p: nat, events: seq<Event>) {
    events == [] ||
    var init := events[..|events| - 1];
    var e := events[|events| - 1];
    Schedule(targets, p, init) && Follows(targets, p, e) && InTime(Now(init), e)
  }

  /** The event enqueues thread p although it is queued already. */
  ghost predicate Requeues(t: Thread, p: nat, e: Event) {
    t.since.Some? &&
    match e
    case Wakeup(_, pid, _) => pid == p
    case Switch(_, prevPid, prevRunnable, _, _, _, _) => prevPid == p && prevRunnable
    case Exit(_, _) => false
  }

  /** Thread p is never enqueued while it is queued already. */
  ghost predicate NeverRequeued(p: nat, events: seq<Event>) {
    events == [] ||
    var init := events[..|events| - 1];
    NeverRequeued(p, init) && !Requeues(Life(init, p), p, events[|events| - 1])
  }

  // ---------------------------------------------------------------- accounting

  /** Each recorded latency is the wait without its lost part, in whole microseconds. */
  ghost predicate Accounts(rec: seq<nat>, waits: seq<nat>, lost: seq<nat>) {
    && |rec| == |waits| == |lost|
    && forall i :: 0 <= i < |rec| ==> lost[i] <= waits[i] && rec[i] == (waits[i] - lost[i]) / 1000
  }

  /** The probe's timer of p runs exactly while p is queued, since it was last put there. */
  ghost predicate Tracks(s: Probe, t: Thread, p: nat, now: Nanos) {
    && (p in s.start <==> t.since.Some?)
    && (p in s.start ==> t.since.value <= t.latest == s.start[p] <= now)
    && Accounts(Recorded(s, p), t.waits, t.lost)
  }

  lemma EnqueueTracks(targets: set<nat>, s: Probe, t: Thread, p: nat, now: Nanos, tgid: nat, ts: Nanos)
    requires Tracks(s, t, p, now) && tgid in targets && now <= ts
    ensures Tracks(Enqueue(targets, s, tgid, p, ts), Queue(t, ts), p, ts)
  {
  }

  lemma DequeueTracks(targets: set<nat>, s: Probe, t: Thread, p: nat, now: Nanos, tgid: nat, ts: Nanos)
    requires Tracks(s, t, p, now) && tgid in targets && now <= ts
    ensures Tracks(Dequeue(targets, s, tgid, p, ts), Pick(t, ts), p, ts)
  {
  }

  lemma StepTracks(targets: set<nat>, s: Probe, t: Thread, p: nat, now: Nanos, e: Event)
    requires Tracks(s, t, p, now) && Follows(targets, p, e) && InTime(now, e)
    ensures Tracks(Step(targets, s, e), Live(t, p, e), p, Clock(now, e))
  {
    match e
    case Wakeup(tgid, pid, ts) =>
      if pid == p {
        EnqueueTracks(targets, s, t, p, now, tgid, ts);
      }
    case Switch(prevTgid, prevPid, prevRunnable, outAt, nextTgid, nextPid, inAt) =>
      if prevRunnable && prevPid == p {
        EnqueueTracks(targets, s, t, p, now, prevTgid, outAt);
      }
      var s1 := if prevRunnable then Enqueue(targets, s, prevTgid, prevPid, outAt) else s;
      var u := if prevPid == p && prevRunnable then Queue(t, outAt) else t;
      assert Tracks(s1, u, p, outAt);
      if nextPid == p {
        DequeueTracks(targets, s1, u, p, outAt, nextTgid, inAt);
      }
    case Exit(_, _) =>
  }

  /** Over every schedule, each recorded latency is its wait since the thread was last enqueued. */
  lemma {:induction false} RunTracks(targets: set<nat>, p: nat, events: seq<Event>)
    requires Schedule(targets, p, events)
    ensures Tracks(Run(targets, events), Life(events, p), p, Now(events))
  {
    if events != [] {
      var init := events[..|events| - 1];
      RunTracks(targets, p, init);
      StepTracks(targets, Run(targets, init), Life(init, p), p, Now(init), events[|events| - 1]);
    }
  }

  /** What rounding down to microseconds cuts off each wait, after its lost part. */
  ghost function Rests(waits: seq<nat>, lost: seq<nat>): (r: seq<nat>)
    requires |waits| == |lost| && forall i :: 0 <= i < |waits| ==> lost[i] <= waits[i]
    ensures |r| == |waits| && forall i :: 0 <= i < |r| ==> r[i] == (waits[i] - lost[i]) % 1000
  {
    if waits == [] then []
    else
      var n := |waits| - 1;
      Rests(waits[..n], lost[..n]) + [(waits[n] - lost[n]) % 1000]
  }

  lemma {:induction false} AccountsSum(rec: seq<nat>, waits: seq<nat>, lost: seq<nat>)
    requires Accounts(rec, waits, lost)
    ensures Sum(waits) == 1000 * Sum(rec) + Sum(lost) + Sum(Rests(waits, lost))
    ensures Sum(Rests(waits, lost)) <= 999 * |rec|
  {
    if rec != [] {
      var n := |rec| - 1;
      AccountsSum(rec[..n], waits[..n], lost[..n]);
      assert Rests(waits, lost)[..n] == Rests(waits[..n], lost[..n]);
    }
  }

  /** Run-queue accounting. In every schedule of a targeted thread there is one latency per completed
      wait, and the waiting time is the recorded microseconds, plus what was lost to enqueuing the
      thread again, plus less than a microsecond per wait. */
  lemma RunQueueAccounting(targets: set<nat>, p: nat, events: seq<Event>)
    requires Schedule(targets, p, events)
    ensures var rec := Recorded(Run(targets, events), p);
            var t := Life(events, p);
            && Accounts(rec, t.waits, t.lost)
            && Sum(t.waits) == 1000 * Sum(rec) + Sum(t.lost) + Sum(Rests(t.waits, t.lost))
            && Sum(Rests(t.waits, t.lost)) <= 999 * |rec|
  {
    RunTracks(targets, p, events);
    AccountsSum(Recorded(Run(targets, events), p), Life(events, p).waits, Life(events, p).lost);
  }

  /** The recorded microseconds fall short by less than one per wait exactly when the lost time and
      the rounding together stay below that. */
  lemma ShortByLittleIff(targets: set<nat>, p: nat, events: seq<Event>)
    requires Schedule(targets, p, events)
    ensures var rec := Recorded(Run(targets, events), p);
            var t := Life(events, p);
            && Accounts(rec, t.waits, t.lost) && 1000 * Sum(rec) <= Sum(t.waits)
            && (Sum(t.waits) <= 1000 * Sum(rec) + 999 * |rec| <==>
                  Sum(t.lost) + Sum(Rests(t.waits, t.lost)) <= 999 * |t.waits|)
            && forall i :: 0 <= i < |rec| ==>
                 1000 * rec[i] <= t.waits[i]
                 && (t.waits[i] < 1000 * rec[i] + 1000 <==> t.lost[i] + Rests(t.waits, t.lost)[i] < 1000)
  {
    RunQueueAccounting(targets, p, events);
  }

  /** A thread that was never enqueued while queued has lost nothing. */
  lemma {:induction false} NeverRequeuedLosesNothing(p: nat, events: seq<Event>)
    requires NeverRequeued(p, events)
    ensures var t := Life(events, p);
            && (t.since.Some? ==> t.latest == t.since.value)
            && forall i :: 0 <= i < |t.lost| ==> t.lost[i] == 0
  {
    if events != [] {
      NeverRequeuedLosesNothing(p, events[..|events| - 1]);
    }
  }

  lemma {:induction false} SumOfZeros(s: seq<nat>)
    requires forall i :: 0 <= i < |s| ==> s[i] == 0
    ensures Sum(s) == 0
  {
    if s != [] {
      SumOfZeros(s[..|s| - 1]);
    }
  }

  /** So for such a thread the recorded microseconds fall short by less than one per wait. */
  lemma NeverRequeuedIsExact(targets: set<nat>, p: nat, events: seq<Event>)
    requires Schedule(targets, p, events) && NeverRequeued(p, events)
    ensures var rec := Recorded(Run(targets, events), p);
            var waits := Life(events, p).waits;
            |rec| == |waits| && 1000 * Sum(rec) <= Sum(waits) <= 1000 * Sum(rec) + 999 * |rec|
  {
    RunQueueAccounting(targets, p, events);
    NeverRequeuedLosesNothing(p, events);
    SumOfZeros(Life(events, p).lost);
  }

  /** The same accounts, read off the thread's histogram. */
  lemma RunQueueHistogram(targets: set<nat>, p: nat, events: seq<Event>)
    requires Schedule(targets, p, events) && |Life(events, p).waits| < U64 && Sum(Life(events, p).waits) < U64
    ensures var h := HistOf(Recorded(Run(targets, events), p));
            var t := Life(events, p);
            && |t.waits| == |t.lost| == h.count && (forall i :: 0 <= i < |t.waits| ==> t.lost[i] <= t.waits[i])
            && Sum(t.waits) == 1000 * h.sumUs + Sum(t.lost) + Sum(Rests(t.waits, t.lost))
            && Sum(Rests(t.waits, t.lost)) <= 999 * h.count
  {
    var rec := Recorded(Run(targets, events), p);
    RunQueueAccounting(targets, p, events);
    CountTotal(rec);
    SumTotal(rec);
  }

  // ---------------------------------------------------------------- exits

  /** What the maps hold of thread p. */
  function View(s: Probe, p: nat): (Option<Nanos>, Option<seq<nat>>) {
    (if p in s.start then Some(s.start[p]) else None, if p in s.recorded then Some(s.recorded[p]) else None)
  }

  /** The exit of a targeted thread removes it from both maps, and no other thread. */
  lemma ExitForgets(targets: set<nat>, s: Probe, tgid: nat, p: nat, x: nat)
    ensures View(Step(targets, s, Exit(tgid, p)), x) == if tgid in targets && x == p then (None, None) else View(s, x)
  {
  }

  /** What happens to a thread depends on nothing but what the maps hold of it. */
  lemma ViewStep(targets: set<nat>, s: Probe, u: Probe, p: nat, e: Event)
    requires View(s, p) == View(u, p)
    ensures View(Step(targets, s, e), p) == View(Step(targets, u, e), p)
  {
    match e
    case Wakeup(tgid, pid, ts) => ViewEnqueue(targets, s, u, p, tgid, pid, ts);
    case Switch(prevTgid, prevPid, prevRunnable, outAt, nextTgid, nextPid, inAt) =>
      if prevRunnable {
        ViewEnqueue(targets, s, u, p, prevTgid, prevPid, outAt);
        ViewDequeue(targets, Enqueue(targets, s, prevTgid, prevPid, outAt), Enqueue(targets, u, prevTgid, prevPid, outAt),
                    p, nextTgid, nextPid, inAt);
      } else {
        ViewDequeue(targets, s, u, p, nextTgid, nextPid, inAt);
      }
    case Exit(tgid, pid) =>
      ExitForgets(targets, s, tgid, pid, p);
      ExitForgets(targets, u, tgid, pid, p);
  }

  lemma ViewEnqueue(targets: set<nat>, s: Probe, u: Probe, p: nat, tgid: nat, pid: nat, ts: Nanos)
    requires View(s, p) == View(u, p)
    ensures View(Enqueue(targets, s, tgid, pid, ts), p) == View(Enqueue(targets, u, tgid, pid, ts), p)
  {
  }

  lemma ViewDequeue(targets: set<nat>, s: Probe, u: Probe, p: nat, tgid: nat, pid: nat, ts: Nanos)
    requires View(s, p) == View(u, p)
    ensures View(Dequeue(targets, s, tgid, pid, ts), p) == View(Dequeue(targets, u, tgid, pid, ts), p)
  {
    assert (p in s.start <==> p in u.start) && Recorded(s, p) == Recorded(u, p);
  }

  /** A thread that gets the number of one that exited starts afresh: the maps hold of it what the
      events since the exit alone give. */
  lemma {:induction false} ReusedPidStartsAfresh(targets: set<nat>, before: seq<Event>, tgid: nat, p: nat, after: seq<Event>)
    requires tgid in targets
    ensures View(Run(targets, before + [Exit(tgid, p)] + after), p) == View(Run(targets, after), p)
  {
    var dead := before + [Exit(tgid, p)];
    if after == [] {
      assert dead + after == dead;
      Snoc(targets, p, before, Exit(tgid, p));
      ExitForgets(targets, Run(targets, before), tgid, p, p);
    } else {
      var init, e := after[..|after| - 1], after[|after| - 1];
      ReusedPidStartsAfresh(targets, before, tgid, p, init);
      assert dead + after == dead + init + [e] && after == init + [e];
      Snoc(targets, p, dead + init, e);
      Snoc(targets, p, init, e);
      ViewStep(targets, Run(targets, dead + init), Run(targets, init), p, e);
    }
  }

  /** So the accounts of a thread hold from the last exit under its number on. */
  lemma AccountingAfterExit(targets: set<nat>, before: seq<Event>, tgid: nat, p: nat, after: seq<Event>)
    requires tgid in targets && Schedule(targets, p, after)
    ensures var t := Life(after, p);
            Accounts(Recorded(Run(targets, before + [Exit(tgid, p)] + after), p), t.waits, t.lost)
  {
    ReusedPidStartsAfresh(targets, before, tgid, p, after);
    RunQueueAccounting(targets, p, after);
    var s, u := Run(targets, before + [Exit(tgid, p)] + after), Run(targets, after);
    assert View(s, p).1 == View(u, p).1;
  }

  /** A second wakeup of a queued thread restarts its timer, and the wait before it is lost. */
  lemma RequeueLosesTime(tgid: nat, p: nat, lost: Nanos)
    requires p != 0
    ensures var events := [Wakeup(tgid, p, 0), Wakeup(tgid, p, lost), Switch(0, 0, false, lost, tgid, p, lost)];
            && Schedule({tgid}, p, events)
            && Recorded(Run({tgid}, events), p) == [0]
            && Life(events, p).waits == [lost as nat] && Life(events, p).lost == [lost as nat]
  {
    var a, b := Wakeup(tgid, p, 0), Wakeup(tgid, p, lost);
    var c := Switch(0, 0, false, lost, tgid, p, lost);
    assert [] + [a] == [a] && [a] + [b] == [a, b] && [a, b] + [c] == [a, b, c];
    Snoc({tgid}, p, [], a);
    Snoc({tgid}, p, [a], b);
    Snoc({tgid}, p, [a, b], c);
    assert Run({tgid}, [a, b]) == Probe(map[p := lost], map[]);
    assert Life([a, b], p) == Thread(Some(0), lost, [], []);
  }

  lemma Snoc(targets: set<nat>, p: nat, events: seq<Event>, e: Event)
    ensures Run(targets, events + [e]) == Step(targets, Run(targets, events), e)
    ensures Life(events + [e], p) == Live(Life(events, p), p, e)
    ensures Now(events + [e]) == Clock(Now(events), e)
    ensures Schedule(targets, p, events + [e]) <==>
              Schedule(targets, p, events) && Follows(targets, p, e) && InTime(Now(events), e)
  {
    assert (events + [e])[..|events|] == events;
  }

  // ---------------------------------------------------------------- the probe's own maps

  /** The probe as it runs: a start-time map and the kernel's histogram map, which hold what the
      events so far lead to. */
  class RunqProbe {
    const targets: set<nat>
    var start: map<nat, Nanos>
    const hists: HistMap
    ghost var events: seq<Event>
    ghost var probe: Probe

    ghost predicate Holds(s: Probe)
      reads this`start, hists
    {
      && start == s.start && hists.Valid() && hists.hists.Keys == s.recorded.Keys
      && forall k :: k in s.recorded ==> hists.hists[k] == HistOf(s.recorded[k])
    }

    ghost predicate Valid()
      reads this, hists
    {
      Holds(probe) && probe == Run(targets, events)
    }

    constructor (targets: set<nat>)
      ensures Valid() && this.targets == targets && events == [] && fresh(hists)
    {
      this.targets := targets;
      start := map[];
      hists := new HistMap();
      events, probe := [], EMPTY;
    }

    method RunqEnqueue(tgid: nat, pid: nat, ts: Nanos, ghost s: Probe)
      requires Holds(s)
      modifies this`start
      ensures Holds(Enqueue(targets, s, tgid, pid, ts))
    {
      if tgid in targets {
        start := start[pid := ts];
      }
    }

    method RunqDequeue(tgid: nat, pid: nat, ts: Nanos, ghost s: Probe)
      requires Holds(s)
      modifies this`start, hists
      ensures Holds(Dequeue(targets, s, tgid, pid, ts))
    {
      if tgid in targets && pid in start {
        var us := Waited(start[pid], ts);
        start := start - {pid};
        ghost var rec := Recorded(s, pid);
        assert (rec + [us])[..|rec|] == rec;
        hists.Add(pid, us);
      }
    }

    method SchedWakeup(tgid: nat, pid: nat, ts: Nanos)
      requires Valid()
      modifies this, hists
      ensures Valid() && events == old(events) + [Wakeup(tgid, pid, ts)]
    {
      RunqEnqueue(tgid, pid, ts, probe);
      Record(Wakeup(tgid, pid, ts));
    }

    method SchedSwitch(prevTgid: nat, prevPid: nat, prevRunnable: bool, outAt: Nanos,
                       nextTgid: nat, nextPid: nat, inAt: Nanos)
      requires Valid()
      modifies this, hists
      ensures Valid()
      ensures events == old(events) + [Switch(prevTgid, prevPid, prevRunnable, outAt, nextTgid, nextPid, inAt)]
    {
      ghost var s := probe;
      if prevRunnable {
        RunqEnqueue(prevTgid, prevPid, outAt, s);
        s := Enqueue(targets, s, prevTgid, prevPid, outAt);
      }
      RunqDequeue(nextTgid, nextPid, inAt, s);
      Record(Switch(prevTgid, prevPid, prevRunnable, outAt, nextTgid, nextPid, inAt));
    }

    method SchedProcessExit(tgid: nat, pid: nat)
      requires Valid()
      modifies this, hists
      ensures Valid() && events == old(events) + [Exit(tgid, pid)]
    {
      if tgid in targets {
        start := start - {pid};
        hists.Delete(pid);
      }
      Record(Exit(tgid, pid));
    }

    ghost method Record(e: Event)
      requires Holds(Step(targets, probe, e)) && probe == Run(targets, events)
      modifies this`events, this`probe
      ensures Valid() && events == old(events) + [e]
    {
      assert (events + [e])[..|events|] == events;
      events, probe := events + [e], Step(targets, probe, e);
    }
  }
}
