/** Background polling of QMP monitors: pollers and a two-phase collector share their tables under one
    lock. Each critical section is one step; the steps interleave freely. */
module Qmp {
  import opened Units
  import opened Options

  type Id = string

  // ---------------------------------------------------------------- results and disk rates

  /** The counters of one block device. */
  datatype Block = Block(name: string, rdBytes: nat, wrBytes: nat, rdOps: nat, wrOps: nat,
                         failedRd: int, failedWr: int, failedFlush: int)

  datatype Disk = Disk(dev: string, rdBps: real, wrBps: real, rdIOPS: real, wrIOPS: real, errsTotal: int)

  /** What one poll brings back. */
  datatype Result = Result(at: Time, state: string, reason: string, blk: seq<Block>, disks: seq<Disk>, migration: string)

  /** The increase of a counter per second; 0 after a reset or without elapsed time. */
  function RateOf(cur: nat, prev: nat, dt: int): (r: real)
    ensures 0.0 <= r
  {
    if cur < prev || dt <= 0 then 0.0 else (cur - prev) as real / Seconds(dt)
  }

  /** The last block of that name. */
  function LastNamed(blk: seq<Block>, name: string): Option<Block> {
    if blk == [] then None
    else if blk[|blk| - 1].name == name then Some(blk[|blk| - 1])
    else LastNamed(blk[..|blk| - 1], name)
  }

  function DiskOf(prev: Option<Result>, at: Time, b: Block): Disk {
    var errs := b.failedRd + b.failedWr + b.failedFlush;
    var before := if prev.Some? then LastNamed(prev.value.blk, b.name) else None;
    if before.None? then Disk(b.name, 0.0, 0.0, 0.0, 0.0, errs)
    else
      var o, dt := before.value, at - prev.value.at;
      Disk(b.name, RateOf(b.rdBytes, o.rdBytes, dt), RateOf(b.wrBytes, o.wrBytes, dt),
           RateOf(b.rdOps, o.rdOps, dt), RateOf(b.wrOps, o.wrOps, dt), errs)
  }

  function DisksOf(prev: Option<Result>, at: Time, blk: seq<Block>): seq<Disk> {
    if blk == [] then []
    else
      var b := blk[|blk| - 1];
      DisksOf(prev, at, blk[..|blk| - 1]) + if b.name == "" then [] else [DiskOf(prev, at, b)]
  }

  /** Per-disk rates between two polls. The previous result is read only where it exists. */
  method BlockRates(prev: Option<Result>, cur: Result) returns (out: seq<Disk>)
    ensures out == DisksOf(prev, cur.at, cur.blk)
  {
    var known: map<string, Block> := map[];
    if prev.Some? {
      var blk := prev.value.blk;
      for i := 0 to |blk|
        invariant forall n :: n in known <==> LastNamed(blk[..i], n).Some?
        invariant forall n :: n in known ==> LastNamed(blk[..i], n) == Some(known[n])
      {
        assert blk[..i + 1][..i] == blk[..i];
        known := known[blk[i].name := blk[i]];
      }
      assert blk[..|blk|] == blk;
    }
    out := [];
    for i := 0 to |cur.blk|
      invariant out == DisksOf(prev, cur.at, cur.blk[..i])
    {
      assert cur.blk[..i + 1][..i] == cur.blk[..i];
      var b := cur.blk[i];
      if b.name != "" {
        var d := Disk(b.name, 0.0, 0.0, 0.0, 0.0, b.failedRd + b.failedWr + b.failedFlush);
        if b.name in known {
          var o := known[b.name];
          var dt := cur.at - prev.value.at;
          d := d.(rdBps := RateOf(b.rdBytes, o.rdBytes, dt), wrBps := RateOf(b.wrBytes, o.wrBytes, dt),
                  rdIOPS := RateOf(b.rdOps, o.rdOps, dt), wrIOPS := RateOf(b.wrOps, o.wrOps, dt));
        }
        out := out + [d];
      }
    }
    assert cur.blk[..|cur.blk|] == cur.blk;
  }

  /** Block j is the last of that name. */
  ghost predicate IsLastNamed(blk: seq<Block>, name: string, j: nat) {
    j < |blk| && blk[j].name == name && forall i :: j < i < |blk| ==> blk[i].name != name
  }

  /** A block is found under its name unless a later one has the same. */
  lemma {:induction false} LastNamedIff(blk: seq<Block>, name: string)
    ensures forall j: nat :: IsLastNamed(blk, name, j) ==> LastNamed(blk, name) == Some(blk[j])
    ensures LastNamed(blk, name).None? ==> forall j :: 0 <= j < |blk| ==> blk[j].name != name
  {
    if blk != [] {
      var n := |blk| - 1;
      LastNamedIff(blk[..n], name);
      forall j: nat | IsLastNamed(blk, name, j) ensures LastNamed(blk, name) == Some(blk[j]) {
        if j < n {
          assert IsLastNamed(blk[..n], name, j);
        }
      }
    }
  }

  /** The rate times the elapsed seconds is the increase of its own counter. */
  ghost predicate Accounts(rate: real, cur: nat, prev: nat, dt: int) {
    if cur < prev || dt <= 0 then rate == 0.0 else rate * Seconds(dt) == (cur - prev) as real
  }

  lemma RateAccounts(cur: nat, prev: nat, dt: int)
    ensures Accounts(RateOf(cur, prev, dt), cur, prev, dt)
  {
    if prev <= cur && 0 < dt {
      var a, b := (cur - prev) as real, Seconds(dt);
      assert b > 0.0;
      assert a / b * b == a;
    }
  }

  /** Each of the four rates of a disk accounts for the counter it is named after, and all are 0 for
      a device that the previous result does not have. */
  lemma DiskAccounts(prev: Option<Result>, at: Time, b: Block)
    ensures var d := DiskOf(prev, at, b);
            d.dev == b.name && d.errsTotal == b.failedRd + b.failedWr + b.failedFlush
    ensures var d := DiskOf(prev, at, b);
            prev.Some? && LastNamed(prev.value.blk, b.name).Some? ==>
              var o, dt := LastNamed(prev.value.blk, b.name).value, at - prev.value.at;
              && Accounts(d.rdBps, b.rdBytes, o.rdBytes, dt) && Accounts(d.wrBps, b.wrBytes, o.wrBytes, dt)
              && Accounts(d.rdIOPS, b.rdOps, o.rdOps, dt) && Accounts(d.wrIOPS, b.wrOps, o.wrOps, dt)
    ensures var d := DiskOf(prev, at, b);
            prev.None? || LastNamed(prev.value.blk, b.name).None? ==>
              d.rdBps == 0.0 && d.wrBps == 0.0 && d.rdIOPS == 0.0 && d.wrIOPS == 0.0
  {
    if prev.Some? && LastNamed(prev.value.blk, b.name).Some? {
      var o, dt := LastNamed(prev.value.blk, b.name).value, at - prev.value.at;
      RateAccounts(b.rdBytes, o.rdBytes, dt);
      RateAccounts(b.wrBytes, o.wrBytes, dt);
      RateAccounts(b.rdOps, o.rdOps, dt);
      RateAccounts(b.wrOps, o.wrOps, dt);
    }
  }

  /** The devices that have a name. */
  function Named(blk: seq<Block>): seq<Block> {
    if blk == [] then [] else Named(blk[..|blk| - 1]) + if blk[|blk| - 1].name == "" then [] else [blk[|blk| - 1]]
  }

  /** There is one disk per named device, in their order. */
  lemma {:induction false} DisksOfNamed(prev: Option<Result>, at: Time, blk: seq<Block>)
    ensures |DisksOf(prev, at, blk)| == |Named(blk)|
    ensures forall i :: 0 <= i < |Named(blk)| ==> DisksOf(prev, at, blk)[i] == DiskOf(prev, at, Named(blk)[i])
  {
    if blk != [] {
      DisksOfNamed(prev, at, blk[..|blk| - 1]);
    }
  }

  // ---------------------------------------------------------------- the shared state

  /** A poll on its way: whose, over which socket, and since when. */
  datatype Poll = Poll(id: Id, sock: string, since: Time)

  datatype Target = Target(id: Id, sock: string)

  /** The collector: between calls, or waiting for the polls of VMs it saw for the first time. */
  datatype Phase = Idle | Waiting(now: Time, targets: seq<Target>, first: seq<Id>)

  /** A result as it was stored. */
  datatype Store = Store(id: Id, at: Time)

  /** The four shared tables, and around them the polls in flight, the clock, where the collector
      stands, and every store so far. */
  datatype State = State(results: map<Id, Result>, polling: set<Id>, tried: set<Id>, warned: set<string>,
                         flight: seq<Poll>, clock: Time, phase: Phase, stores: seq<Store>)

  const INITIAL := State(map[], {}, {}, {}, [], 0, Idle, [])

  /** Marks a VM as being polled and sends the poll off. */
  function Launch(s: State, t: Target): State {
    s.(polling := s.polling + {t.id}, flight := s.flight + [Poll(t.id, t.sock, s.clock)])
  }

  function FirstPoll(s: State, t: Target): State {
    if t.id in s.tried || t.id in s.polling then s else Launch(s.(tried := s.tried + {t.id}), t)
  }

  function FirstPolls(s: State, targets: seq<Target>): State {
    if targets == [] then s else FirstPoll(FirstPolls(s, targets[..|targets| - 1]), targets[|targets| - 1])
  }

  /** The VMs polled for the first time, in order. */
  function FirstIds(s: State, targets: seq<Target>): seq<Id> {
    if targets == [] then []
    else
      var init := targets[..|targets| - 1];
      var t := targets[|targets| - 1];
      var before := FirstPolls(s, init);
      FirstIds(s, init) + if t.id in before.tried || t.id in before.polling then [] else [t.id]
  }

  /** First phase of a collection: poll every VM not tried before, then wait. */
  function Begin(s: State, now: Time, targets: seq<Target>): State {
    FirstPolls(s, targets).(phase := Waiting(now, targets, FirstIds(s, targets)))
  }

  function Due(s: State, id: Id, now: Time, interval: int): bool {
    (id !in s.results || now - s.results[id].at >= interval) && id !in s.polling
  }

  function DuePoll(s: State, t: Target, now: Time, interval: int): State {
    if Due(s, t.id, now, interval) then Launch(s, t) else s
  }

  function DuePolls(s: State, targets: seq<Target>, now: Time, interval: int): State {
    if targets == [] then s
    else DuePoll(DuePolls(s, targets[..|targets| - 1], now, interval), targets[|targets| - 1], now, interval)
  }

  function Ids(targets: seq<Target>): set<Id> {
    set t | t in targets :: t.id
  }

  /** Drops the VMs that are gone and not being polled. */
  function Forget(s: State, keep: set<Id>): State {
    var gone := s.tried - keep - s.polling;
    s.(results := s.results - gone, tried := s.tried - gone)
  }

  /** Second phase of a collection: poll what is due in the background, then forget what is gone. */
  function End(s: State, interval: int): State
    requires s.phase.Waiting?
  {
    Forget(DuePolls(s, s.phase.targets, s.phase.now, interval), Ids(s.phase.targets)).(phase := Idle)
  }

  function Land(s: State, i: nat): State
    requires i < |s.flight|
  {
    s.(polling := s.polling - {s.flight[i].id}, flight := s.flight[..i] + s.flight[i + 1..])
  }

  /** A poll comes back, with a result or an error. */
  function Finish(s: State, i: nat, r: Option<Result>): State
    requires i < |s.flight|
  {
    var p := s.flight[i];
    var s1 := Land(s, i);
    if r.None? then s1.(warned := s.warned + {p.sock})
    else
      var prev := if p.id in s.results then Some(s.results[p.id]) else None;
      var stored := r.value.(disks := DisksOf(prev, r.value.at, r.value.blk));
      s1.(warned := s.warned - {p.sock}, results := s.results[p.id := stored],
          stores := s.stores + [Store(p.id, r.value.at)])
  }

  // ---------------------------------------------------------------- steps and runs

  datatype Step =
    | TickStep(d: nat)
    | BeginStep(now: Time, targets: seq<Target>)
    | EndStep
    | FinishStep(i: nat, r: Option<Result>)

  /** The polls a waiting collector waits for are all back. */
  ghost predicate FirstDone(s: State)
    requires s.phase.Waiting?
  {
    forall p :: p in s.flight ==> p.id !in s.phase.first
  }

  /** A step can happen. A collection read the clock before its first step. A result carries a time between the start and the end of its poll. */
  ghost predicate Enabled(s: State, step: Step) {
    match step
    case TickStep(_) => true
    case BeginStep(now, _) => s.phase.Idle? && now <= s.clock
    case EndStep => s.phase.Waiting? && FirstDone(s)
    case FinishStep(i, r) => i < |s.flight| && (r.Some? ==> s.flight[i].since <= r.value.at <= s.clock)
  }

  /** One step; nothing happens where it cannot. */
  ghost function Next(s: State, step: Step, interval: int): State {
    if !Enabled(s, step) then s
    else
      match step
      case TickStep(d) => s.(clock := s.clock + d)
      case BeginStep(now, targets) => Begin(s, now, targets)
      case EndStep => End(s, interval)
      case FinishStep(i, r) => Finish(s, i, r)
  }

  /** Any interleaving of steps. */
  ghost function Run(steps: seq<Step>, interval: int): State {
    if steps == [] then INITIAL else Next(Run(steps[..|steps| - 1], interval), steps[|steps| - 1], interval)
  }

  // ---------------------------------------------------------------- invariants

  /** A VM is marked as polled exactly while one poll of it is in flight, and it never has two. */
  ghost predicate OneFlight(s: State) {
    && s.polling == (set p | p in s.flight :: p.id)
    && (forall i, j :: 0 <= i < j < |s.flight| ==> s.flight[i].id != s.flight[j].id)
  }

  /** Every VM polled, stored or awaited was tried. */
  ghost predicate AllTried(s: State) {
    && s.polling <= s.tried && s.results.Keys <= s.tried
    && (s.phase.Waiting? ==> Ids(s.phase.targets) <= s.tried)
  }

  /** Stored results are in the past, and older than any poll of the same VM in flight. */
  ghost predicate Timely(s: State) {
    && (forall p :: p in s.flight ==> p.since <= s.clock)
    && (forall x :: x in s.stores ==> x.at <= s.clock)
    && (forall p, x :: p in s.flight && x in s.stores && p.id == x.id ==> x.at <= p.since)
    && (forall id :: id in s.results ==> Store(id, s.results[id].at) in s.stores)
  }

  /** Successive stores of a VM have nondecreasing times. */
  ghost predicate StoresInOrder(s: State) {
    forall i, j :: 0 <= i < j < |s.stores| && s.stores[i].id == s.stores[j].id ==> s.stores[i].at <= s.stores[j].at
  }

  ghost predicate Inv(s: State) {
    OneFlight(s) && AllTried(s) && Timely(s) && StoresInOrder(s)
  }

  lemma LaunchKeeps(s: State, t: Target)
    requires OneFlight(s) && Timely(s) && t.id !in s.polling
    ensures OneFlight(Launch(s, t)) && Timely(Launch(s, t))
  {
    var s' := Launch(s, t);
    assert s'.flight[|s.flight|].id == t.id;
  }

  lemma {:induction false} FirstPollsKeep(s: State, targets: seq<Target>)
    requires Inv(s)
    ensures Inv(FirstPolls(s, targets).(phase := Idle))
    ensures s.tried <= FirstPolls(s, targets).tried && Ids(targets) <= FirstPolls(s, targets).tried
  {
    if targets != [] {
      var init := targets[..|targets| - 1];
      var t := targets[|targets| - 1];
      FirstPollsKeep(s, init);
      var s1 := FirstPolls(s, init);
      if t.id !in s1.tried && t.id !in s1.polling {
        LaunchKeeps(s1.(tried := s1.tried + {t.id}), t);
      }
      assert targets == init + [t];
    }
  }

  lemma {:induction false} DuePollsKeep(s: State, targets: seq<Target>, now: Time, interval: int)
    requires Inv(s) && Ids(targets) <= s.tried
    ensures var s' := DuePolls(s, targets, now, interval);
            Inv(s') && s'.tried == s.tried && s'.results == s.results && s'.phase == s.phase
  {
    if targets != [] {
      var init := targets[..|targets| - 1];
      var t := targets[|targets| - 1];
      assert targets == init + [t];
      assert t.id in Ids(targets) && Ids(init) <= Ids(targets);
      DuePollsKeep(s, init, now, interval);
      var s1 := DuePolls(s, init, now, interval);
      if Due(s1, t.id, now, interval) {
        LaunchKeeps(s1, t);
      }
    }
  }

  lemma FinishKeeps(s: State, i: nat, r: Option<Result>)
    requires Inv(s) && Enabled(s, FinishStep(i, r))
    ensures Inv(Finish(s, i, r))
  {
    var s1 := Land(s, i);
    assert forall p :: p in s1.flight ==> p in s.flight;
    LandKeeps(s, i);
  }

  lemma LandKeeps(s: State, i: nat)
    requires OneFlight(s) && i < |s.flight|
    ensures OneFlight(Land(s, i))
    ensures forall p :: p in Land(s, i).flight ==> p.id != s.flight[i].id
  {
    forall p ensures p in Land(s, i).flight <==> p in s.flight && p.id != s.flight[i].id {
      RemovedMember(s.flight, i, p);
    }
  }

  lemma RemovedMember(flight: seq<Poll>, i: nat, p: Poll)
    requires i < |flight| && forall a, b :: 0 <= a < b < |flight| ==> flight[a].id != flight[b].id
    ensures p in flight[..i] + flight[i + 1..] <==> p in flight && p.id != flight[i].id
  {
    var rest := flight[..i] + flight[i + 1..];
    if p in flight && p.id != flight[i].id {
      var j :| 0 <= j < |flight| && flight[j] == p;
      assert rest[if j < i then j else j - 1] == p;
    }
  }

  lemma BeginKeeps(s: State, now: Time, targets: seq<Target>)
    requires Inv(s) && s.phase.Idle?
    ensures Inv(Begin(s, now, targets))
  {
    FirstPollsKeep(s, targets);
  }

  lemma EndKeeps(s: State, interval: int)
    requires Inv(s) && s.phase.Waiting?
    ensures Inv(End(s, interval))
  {
    DuePollsKeep(s, s.phase.targets, s.phase.now, interval);
  }

  /** Over every interleaving: one poll in flight per marked VM and none otherwise, everything polled
      or stored was tried, and successive results of a VM have nondecreasing times. */
  lemma {:induction false} RunKeepsInv(steps: seq<Step>, interval: int)
    ensures Inv(Run(steps, interval))
  {
    if steps != [] {
      RunKeepsInv(steps[..|steps| - 1], interval);
      NextKeeps(Run(steps[..|steps| - 1], interval), steps[|steps| - 1], interval);
    }
  }

  lemma NextKeeps(s: State, step: Step, interval: int)
    requires Inv(s)
    ensures Inv(Next(s, step, interval))
  {
    if Enabled(s, step) {
      match step
      case TickStep(_) =>
      case BeginStep(now, targets) => BeginKeeps(s, now, targets);
      case EndStep => EndKeeps(s, interval);
      case FinishStep(i, r) => FinishKeeps(s, i, r);
    }
  }

  // ---------------------------------------------------------------- what is stored

  /** A stored result is what a poll brought back, with the disk rates filled in. */
  ghost predicate Carries(stored: Result, r: Result) {
    stored.at == r.at && stored.state == r.state && stored.reason == r.reason && stored.blk == r.blk
    && stored.migration == r.migration
  }

  function ResultOf(s: State, id: Id): Option<Result> {
    if id in s.results then Some(s.results[id]) else None
  }

  /** A successful poll stores its result and touches no other; a failed one touches none. */
  lemma FinishStores(s: State, i: nat, r: Option<Result>)
    requires i < |s.flight|
    ensures var s', id := Finish(s, i, r), s.flight[i].id;
            && (r.None? ==> s'.results == s.results)
            && (r.Some? ==>
                  && id in s'.results && Carries(s'.results[id], r.value)
                  && s'.results[id].disks == DisksOf(ResultOf(s, id), r.value.at, r.value.blk))
            && forall x :: x != id ==> ResultOf(s', x) == ResultOf(s, x)
  {
  }

  /** Step j brings a result of id. */
  ghost predicate Brings(steps: seq<Step>, interval: int, id: Id, j: nat) {
    && j < |steps| && steps[j].FinishStep? && steps[j].r.Some?
    && var s := Run(steps[..j], interval);
       Enabled(s, steps[j]) && s.flight[steps[j].i].id == id
  }

  /** Step j ends a collection without id as a target and while it is not being polled. */
  ghost predicate Forgets(steps: seq<Step>, interval: int, id: Id, j: nat) {
    && j < |steps| && steps[j].EndStep?
    && var s := Run(steps[..j], interval);
       Enabled(s, steps[j]) && id !in Ids(s.phase.targets) && id !in s.polling
  }

  /** Step j is the last that brought a result of id, and id was not forgotten since. */
  ghost predicate LastBrought(steps: seq<Step>, interval: int, id: Id, j: nat) {
    && Brings(steps, interval, id, j)
    && forall m :: j < m < |steps| ==> !Brings(steps, interval, id, m) && !Forgets(steps, interval, id, m)
  }

  lemma {:induction false} DuePollsOnlyTargets(s: State, targets: seq<Target>, now: Time, interval: int, id: Id)
    ensures var s' := DuePolls(s, targets, now, interval);
            && s'.results == s.results && s'.tried == s.tried
            && (id in s'.polling <==> id in s.polling || (id in Ids(targets) && Due(s, id, now, interval)))
  {
    if targets != [] {
      var init, t := targets[..|targets| - 1], targets[|targets| - 1];
      DuePollsOnlyTargets(s, init, now, interval, id);
      DuePollsOnlyTargets(s, init, now, interval, t.id);
      assert targets == init + [t];
    }
  }

  /** The end of a collection polls exactly the targets that have no result younger than the interval
      and are not being polled, and forgets exactly what is neither a target nor being polled. */
  lemma EndPollsIff(s: State, interval: int, id: Id)
    requires Inv(s) && s.phase.Waiting?
    ensures var s', targets := End(s, interval), s.phase.targets;
            && (id in s'.polling <==>
                  id in s.polling
                  || (id in Ids(targets) && (id !in s.results || s.phase.now - s.results[id].at >= interval)))
            && ResultOf(s', id) == (if id in Ids(targets) || id in s.polling then ResultOf(s, id) else None)
            && (id in s'.tried <==> id in s.tried && (id in Ids(targets) || id in s.polling))
  {
    DuePollsOnlyTargets(s, s.phase.targets, s.phase.now, interval, id);
  }

  lemma {:induction false} FirstPollsIff(s: State, targets: seq<Target>, id: Id)
    requires Inv(s)
    ensures var s' := FirstPolls(s, targets);
            && s'.results == s.results
            && (id in s'.polling <==> id in s.polling || (id in Ids(targets) && id !in s.tried))
            && (id in s'.tried <==> id in s.tried || id in Ids(targets))
            && (id in FirstIds(s, targets) <==> id in Ids(targets) && id !in s.tried)
  {
    if targets != [] {
      var init, t := targets[..|targets| - 1], targets[|targets| - 1];
      FirstPollsIff(s, init, id);
      FirstPollsIff(s, init, t.id);
      assert targets == init + [t];
    }
  }

  /** The start of a collection polls exactly the targets that were never tried, and waits for them. */
  lemma BeginPollsIff(s: State, now: Time, targets: seq<Target>, id: Id)
    requires Inv(s)
    ensures var s' := Begin(s, now, targets);
            && s'.results == s.results && s'.phase.targets == targets && s'.phase.now == now
            && (id in s'.polling <==> id in s.polling || (id in Ids(targets) && id !in s.tried))
            && (id in s'.tried <==> id in s.tried || id in Ids(targets))
            && (id in s'.phase.first <==> id in Ids(targets) && id !in s.tried)
  {
    FirstPollsIff(s, targets, id);
  }

  /** What one step does to the result of id. */
  lemma StepStores(steps: seq<Step>, interval: int, id: Id)
    requires steps != []
    ensures var n := |steps| - 1;
            var s, s' := Run(steps[..n], interval), Run(steps, interval);
            if Brings(steps, interval, id, n) then
              && id in s'.results && Carries(s'.results[id], steps[n].r.value)
              && s'.results[id].disks == DisksOf(ResultOf(s, id), steps[n].r.value.at, steps[n].r.value.blk)
            else if Forgets(steps, interval, id, n) then id !in s'.results
            else ResultOf(s', id) == ResultOf(s, id)
  {
    var n := |steps| - 1;
    var s, step := Run(steps[..n], interval), steps[n];
    RunKeepsInv(steps[..n], interval);
    if Enabled(s, step) {
      match step
      case TickStep(_) =>
      case BeginStep(now, targets) => BeginPollsIff(s, now, targets, id);
      case EndStep => EndPollsIff(s, interval, id);
      case FinishStep(i, r) => FinishStores(s, i, r);
    }
  }

  lemma BringsEarlier(steps: seq<Step>, interval: int, id: Id, j: nat)
    requires j < |steps| - 1
    ensures Brings(steps[..|steps| - 1], interval, id, j) <==> Brings(steps, interval, id, j)
    ensures Forgets(steps[..|steps| - 1], interval, id, j) <==> Forgets(steps, interval, id, j)
  {
    assert steps[..|steps| - 1][..j] == steps[..j];
  }

  lemma LastBroughtNext(steps: seq<Step>, interval: int, id: Id, j: nat)
    requires steps != []
    ensures var n := |steps| - 1;
            LastBrought(steps, interval, id, j) <==>
              if j == n then Brings(steps, interval, id, n)
              else LastBrought(steps[..n], interval, id, j)
                   && !Brings(steps, interval, id, n) && !Forgets(steps, interval, id, n)
  {
    var n := |steps| - 1;
    forall m: nat | m < n
      ensures Brings(steps[..n], interval, id, m) <==> Brings(steps, interval, id, m)
      ensures Forgets(steps[..n], interval, id, m) <==> Forgets(steps, interval, id, m)
    {
      BringsEarlier(steps, interval, id, m);
    }
  }

  /** Over every interleaving, the last result that a poll brought of a VM, since it was last
      forgotten, is stored ... */
  lemma {:induction false} LastBroughtIsStored(steps: seq<Step>, interval: int, id: Id, j: nat)
    requires LastBrought(steps, interval, id, j)
    ensures var s, r := Run(steps, interval), steps[j].r.value;
            && id in s.results && Carries(s.results[id], r)
            && s.results[id].disks == DisksOf(ResultOf(Run(steps[..j], interval), id), r.at, r.blk)
  {
    var n := |steps| - 1;
    LastBroughtNext(steps, interval, id, j);
    StepStores(steps, interval, id);
    if j < n {
      LastBroughtIsStored(steps[..n], interval, id, j);
      assert steps[..n][..j] == steps[..j];
    }
  }

  /** ... and nothing else is. */
  lemma {:induction false} StoredWasBrought(steps: seq<Step>, interval: int, id: Id) returns (j: nat)
    requires id in Run(steps, interval).results
    ensures LastBrought(steps, interval, id, j)
  {
    var n := |steps| - 1;
    StepStores(steps, interval, id);
    if Brings(steps, interval, id, n) {
      j := n;
    } else {
      j := StoredWasBrought(steps[..n], interval, id);
    }
    LastBroughtNext(steps, interval, id, j);
  }

  // ---------------------------------------------------------------- whom a warning is about

  /** Step j is the end of a poll over the socket. */
  ghost predicate Ends(steps: seq<Step>, interval: int, sock: string, j: nat) {
    && j < |steps| && steps[j].FinishStep?
    && var s := Run(steps[..j], interval);
       Enabled(s, steps[j]) && s.flight[steps[j].i].sock == sock
  }

  /** Step j is the last end of a poll over the socket, and a failure. */
  ghost predicate FailedAt(steps: seq<Step>, interval: int, sock: string, j: nat) {
    Ends(steps, interval, sock, j) && steps[j].r.None? && forall m :: j < m < |steps| ==> !Ends(steps, interval, sock, m)
  }

  /** The last poll over the socket to end failed. */
  ghost predicate FailedLast(steps: seq<Step>, interval: int, sock: string) {
    exists j: nat :: FailedAt(steps, interval, sock, j)
  }

  lemma FailedAtNext(steps: seq<Step>, interval: int, sock: string, j: nat)
    requires steps != []
    ensures var n := |steps| - 1;
            FailedAt(steps, interval, sock, j) <==>
              if j == n then Ends(steps, interval, sock, n) && steps[n].r.None?
              else FailedAt(steps[..n], interval, sock, j) && !Ends(steps, interval, sock, n)
  {
    var n := |steps| - 1;
    forall m: nat | m < n ensures Ends(steps[..n], interval, sock, m) <==> Ends(steps, interval, sock, m) {
      assert steps[..n][..m] == steps[..m];
    }
  }

  lemma FailedLastNext(steps: seq<Step>, interval: int, sock: string)
    requires steps != []
    ensures var n := |steps| - 1;
            FailedLast(steps, interval, sock) <==>
              if Ends(steps, interval, sock, n) then steps[n].r.None? else FailedLast(steps[..n], interval, sock)
  {
    var n := |steps| - 1;
    FailedAtNext(steps, interval, sock, n);
    if FailedLast(steps, interval, sock) {
      var j: nat :| FailedAt(steps, interval, sock, j);
      FailedAtNext(steps, interval, sock, j);
    }
    if FailedLast(steps[..n], interval, sock) {
      var j: nat :| FailedAt(steps[..n], interval, sock, j);
      FailedAtNext(steps, interval, sock, j);
    }
  }

  lemma {:induction false} PollsLeaveWarnings(s: State, targets: seq<Target>, now: Time, interval: int)
    ensures FirstPolls(s, targets).warned == s.warned && DuePolls(s, targets, now, interval).warned == s.warned
  {
    if targets != [] {
      PollsLeaveWarnings(s, targets[..|targets| - 1], now, interval);
    }
  }

  /** Over every interleaving, a socket is marked as warned about exactly when the last poll over it
      to end failed. */
  lemma {:induction false} WarnedIff(steps: seq<Step>, interval: int, sock: string)
    ensures sock in Run(steps, interval).warned <==> FailedLast(steps, interval, sock)
  {
    if steps != [] {
      var n := |steps| - 1;
      WarnedIff(steps[..n], interval, sock);
      FailedLastNext(steps, interval, sock);
      var s := Run(steps[..n], interval);
      if steps[n].BeginStep? {
        PollsLeaveWarnings(s, steps[n].targets, 0, interval);
      } else if steps[n].EndStep? && s.phase.Waiting? {
        PollsLeaveWarnings(s, s.phase.targets, s.phase.now, interval);
      }
    }
  }

  // ---------------------------------------------------------------- what is polled

  /** A collection named this target. */
  ghost predicate Targeted(steps: seq<Step>, t: Target) {
    exists j :: 0 <= j < |steps| && steps[j].BeginStep? && t in steps[j].targets
  }

  ghost predicate AllTargeted(s: State, steps: seq<Step>) {
    && (forall p :: p in s.flight ==> Targeted(steps, Target(p.id, p.sock)))
    && (s.phase.Waiting? ==> forall t :: t in s.phase.targets ==> Targeted(steps, t))
  }

  lemma {:induction false} LaunchedAreTargets(s: State, targets: seq<Target>, now: Time, interval: int, p: Poll)
    ensures p in FirstPolls(s, targets).flight ==> p in s.flight || Target(p.id, p.sock) in targets
    ensures p in DuePolls(s, targets, now, interval).flight ==> p in s.flight || Target(p.id, p.sock) in targets
  {
    if targets != [] {
      LaunchedAreTargets(s, targets[..|targets| - 1], now, interval, p);
    }
  }

  lemma TargetedLater(steps: seq<Step>, t: Target)
    requires steps != []
    ensures Targeted(steps[..|steps| - 1], t) ==> Targeted(steps, t)
    ensures steps[|steps| - 1].BeginStep? && t in steps[|steps| - 1].targets ==> Targeted(steps, t)
  {
    var init := steps[..|steps| - 1];
    if Targeted(init, t) {
      var j :| 0 <= j < |init| && init[j].BeginStep? && t in init[j].targets;
      assert steps[j].BeginStep? && t in steps[j].targets;
    }
  }

  /** Over every interleaving, a poll in flight is over the socket that a collection named for its VM. */
  lemma {:induction false} PollsAreTargeted(steps: seq<Step>, interval: int)
    ensures AllTargeted(Run(steps, interval), steps)
  {
    if steps != [] {
      var n := |steps| - 1;
      var s, s', step := Run(steps[..n], interval), Run(steps, interval), steps[n];
      PollsAreTargeted(steps[..n], interval);
      forall t: Target ensures Targeted(steps[..n], t) ==> Targeted(steps, t) {
        TargetedLater(steps, t);
      }
      forall t: Target ensures step.BeginStep? && t in step.targets ==> Targeted(steps, t) {
        TargetedLater(steps, t);
      }
      forall p | p in s'.flight ensures Targeted(steps, Target(p.id, p.sock)) {
        if step.BeginStep? {
          LaunchedAreTargets(s, step.targets, 0, interval, p);
        } else if step.EndStep? && s.phase.Waiting? {
          LaunchedAreTargets(s, s.phase.targets, s.phase.now, interval, p);
        }
      }
    }
  }

  // ---------------------------------------------------------------- what a collection achieves

  lemma {:induction false} DuePollsCover(s: State, targets: seq<Target>, now: Time, interval: int, t: Target)
    requires t in targets
    ensures var s' := DuePolls(s, targets, now, interval);
            t.id in s'.polling || (t.id in s.results && now - s.results[t.id].at < interval)
  {
    var init := targets[..|targets| - 1];
    DuePollsGrow(s, targets, now, interval);
    DuePollsGrow(s, init, now, interval);
    if t in init {
      DuePollsCover(s, init, now, interval, t);
    } else {
      assert t == targets[|targets| - 1];
    }
  }

  lemma {:induction false} DuePollsGrow(s: State, targets: seq<Target>, now: Time, interval: int)
    ensures DuePolls(s, targets, now, interval).results == s.results
    ensures s.polling <= DuePolls(s, targets, now, interval).polling
  {
    if targets != [] {
      DuePollsGrow(s, targets[..|targets| - 1], now, interval);
    }
  }

  /** When a collection ends, each of its VMs is being polled or has a result younger than the
      interval, and the tables know no VM that is neither among them nor being polled. */
  lemma EndCovers(s: State, interval: int)
    requires Inv(s) && s.phase.Waiting?
    ensures var s' := End(s, interval);
            && (forall t :: t in s.phase.targets ==>
                  t.id in s'.polling || (t.id in s'.results && s.phase.now - s'.results[t.id].at < interval))
            && s'.results.Keys <= s'.tried <= Ids(s.phase.targets) + s'.polling
  {
    DuePollsKeep(s, s.phase.targets, s.phase.now, interval);
    forall t | t in s.phase.targets
      ensures t.id in End(s, interval).polling
              || (t.id in End(s, interval).results && s.phase.now - End(s, interval).results[t.id].at < interval)
    {
      DuePollsCover(s, s.phase.targets, s.phase.now, interval, t);
    }
  }

  /** The results handed to the store: those of the targets that are at most three intervals old. */
  function Applied(results: map<Id, Result>, targets: seq<Target>, now: Time, interval: int): seq<(Id, Result)> {
    if targets == [] then []
    else
      var id := targets[|targets| - 1].id;
      Applied(results, targets[..|targets| - 1], now, interval) +
      if id in results && now - results[id].at <= 3 * interval then [(id, results[id])] else []
  }

  lemma {:induction false} AppliedAreFresh(results: map<Id, Result>, targets: seq<Target>, now: Time, interval: int, id: Id, r: Result)
    ensures (id, r) in Applied(results, targets, now, interval) <==>
            id in Ids(targets) && id in results && r == results[id] && now - r.at <= 3 * interval
  {
    if targets != [] {
      var init := targets[..|targets| - 1];
      AppliedAreFresh(results, init, now, interval, id, r);
      assert targets == init + [targets[|targets| - 1]];
    }
  }

  lemma WalkSnoc(s: State, targets: seq<Target>, t: Target, now: Time, interval: int)
    ensures DuePolls(s, targets + [t], now, interval) == DuePoll(DuePolls(s, targets, now, interval), t, now, interval)
    ensures Ids(targets + [t]) == Ids(targets) + {t.id}
    ensures Applied(s.results, targets + [t], now, interval) == Applied(s.results, targets, now, interval) +
              if t.id in s.results && now - s.results[t.id].at <= 3 * interval then [(t.id, s.results[t.id])] else []
  {
    var all := targets + [t];
    assert all[..|targets|] == targets;
    assert forall u :: u in all <==> u in targets || u == t;
  }

  // ---------------------------------------------------------------- the collector's own tables

  /** The collector object. Its methods are the critical sections; `steps` records them. */
  class QMPCollector {
    const interval: int
    var results: map<Id, Result>
    var polling: set<Id>
    var tried: set<Id>
    var warned: set<string>
    ghost var steps: seq<Step>
    ghost var state: State

    ghost predicate Holds(s: State)
      reads this`results, this`polling, this`tried, this`warned
    {
      results == s.results && polling == s.polling && tried == s.tried && warned == s.warned
    }

    ghost predicate Valid()
      reads this
    {
      Holds(state) && state == Run(steps, interval)
    }

    constructor (interval: int)
      ensures Valid() && this.interval == interval && steps == []
    {
      this.interval := interval;
      results, polling, tried, warned := map[], {}, {}, {};
      steps, state := [], INITIAL;
    }

    ghost method Record(step: Step)
      requires Enabled(state, step) && Holds(Next(state, step, interval)) && state == Run(steps, interval)
      modifies this`steps, this`state
      ensures Valid() && steps == old(steps) + [step] && state == Next(old(state), step, interval)
    {
      assert (steps + [step])[..|steps|] == steps;
      steps, state := steps + [step], Next(state, step, interval);
    }

    ghost method Elapse(d: nat)
      requires Valid()
      modifies this`steps, this`state
      ensures Valid() && steps == old(steps) + [TickStep(d)]
    {
      Record(TickStep(d));
    }

    /** First critical section of Collect. */
    method BeginCollect(now: Time, targets: seq<Target>) returns (first: seq<Id>)
      requires Valid() && state.phase.Idle? && now <= state.clock
      modifies this
      ensures Valid() && steps == old(steps) + [BeginStep(now, targets)]
      ensures state.phase == Waiting(now, targets, first)
    {
      first := [];
      for n := 0 to |targets|
        invariant Holds(FirstPolls(state, targets[..n])) && first == FirstIds(state, targets[..n])
        invariant state == old(state) && steps == old(steps)
      {
        var t := targets[n];
        assert targets[..n + 1][..n] == targets[..n];
        if t.id !in tried && t.id !in polling {
          tried := tried + {t.id};
          polling := polling + {t.id};
          first := first + [t.id];
        }
      }
      assert targets[..|targets|] == targets;
      Record(BeginStep(now, targets));
    }

    /** Polls what is due and picks the results that are young enough. */
    method WalkTargets(now: Time, targets: seq<Target>, ghost s: State)
      returns (seen: set<Id>, applied: seq<(Id, Result)>)
      requires Holds(s)
      modifies this`polling
      ensures Holds(DuePolls(s, targets, now, interval)) && seen == Ids(targets)
      ensures applied == Applied(results, targets, now, interval)
    {
      applied, seen := [], {};
      ghost var cur := s;
      for n := 0 to |targets|
        invariant Holds(cur) && cur == DuePolls(s, targets[..n], now, interval)
        invariant seen == Ids(targets[..n]) && applied == Applied(s.results, targets[..n], now, interval)
      {
        var t := targets[n];
        assert targets[..n + 1] == targets[..n] + [t];
        WalkSnoc(s, targets[..n], t, now, interval);
        seen := seen + {t.id};
        PollIfDue(t, now, cur);
        cur := DuePoll(cur, t, now, interval);
        if t.id in results && now - results[t.id].at <= 3 * interval {
          applied := applied + [(t.id, results[t.id])];
        }
      }
      assert targets[..|targets|] == targets;
    }

    method PollIfDue(t: Target, now: Time, ghost s: State)
      requires Holds(s)
      modifies this`polling
      ensures Holds(DuePoll(s, t, now, interval))
    {
      if (t.id !in results || now - results[t.id].at >= interval) && t.id !in polling {
        polling := polling + {t.id};
      }
    }

    /** Second critical section of Collect. */
    method EndCollect(now: Time, targets: seq<Target>) returns (applied: seq<(Id, Result)>)
      requires Valid() && state.phase.Waiting? && state.phase.now == now && state.phase.targets == targets
      requires FirstDone(state)
      modifies this
      ensures Valid() && steps == old(steps) + [EndStep]
      ensures applied == Applied(old(results), targets, now, interval)
    {
      var seen;
      seen, applied := WalkTargets(now, targets, state);
      ForgetGone(seen);
      Record(EndStep);
    }

    /** Drops the VMs that are gone and not being polled, one by one. */
    method ForgetGone(seen: set<Id>)
      modifies this`results, this`tried
      ensures results == old(results) - (old(tried) - seen - polling)
      ensures tried == old(tried) - (old(tried) - seen - polling)
    {
      var left, gone := tried, {};
      while left != {}
        invariant gone <= old(tried) - seen - polling && left <= old(tried)
        invariant old(tried) - seen - polling <= left + gone
        invariant results == old(results) - gone && tried == old(tried) - gone
        decreases left
      {
        var id :| id in left;
        left := left - {id};
        if id !in seen && id !in polling {
          results, tried, gone := results - {id}, tried - {id}, gone + {id};
        }
      }
      assert gone == old(tried) - seen - polling;
    }

    /** The critical section at the end of a poll; i is its place among the polls in flight. */
    method FinishPoll(id: Id, sock: string, r: Option<Result>, ghost i: nat)
      requires Valid() && Enabled(state, FinishStep(i, r))
      requires state.flight[i].id == id && state.flight[i].sock == sock
      modifies this
      ensures Valid() && steps == old(steps) + [FinishStep(i, r)]
    {
      polling := polling - {id};
      if r.None? {
        warned := warned + {sock};
      } else {
        warned := warned - {sock};
        var disks := BlockRates(if id in results then Some(results[id]) else None, r.value);
        results := results[id := r.value.(disks := disks)];
      }
      Record(FinishStep(i, r));
    }
  }
}
