/** The poller: discovery with a grace period for failing discoverers, then retention, then the
    other collectors and the commit. */
module Poller {
  import opened Units
  import opened Options
  import opened Store

  type Name = string

  /** Nanoseconds. */
  const DISCOVERY_GRACE: int := 10_000_000_000

  datatype AliveSet = AliveSet(ids: seq<Id>, at: Time)

  type LastAlive = map<Name, AliveSet>

  /** What one discoverer did in a tick: its calls into the store and, unless it failed, the
      domains it then reported. */
  datatype Outcome = Outcome(name: Name, acts: seq<Op>, alive: Option<seq<Id>>)

  datatype Tick = Tick(start: Time, outcomes: seq<Outcome>, mutations: seq<Op>, now: Time)

  // ---------------------------------------------------------------- one tick on values

  function Elements(ids: seq<Id>): set<Id> {
    set id | id in ids
  }

  function Note(last: LastAlive, o: Outcome, start: Time): LastAlive {
    if o.alive.Some? then last[o.name := AliveSet(o.alive.value, start)] else last
  }

  function Noted(last: LastAlive, outcomes: seq<Outcome>, start: Time): LastAlive {
    if outcomes == [] then last
    else Note(Noted(last, outcomes[..|outcomes| - 1], start), outcomes[|outcomes| - 1], start)
  }

  /** A discoverer's last good result, while it is young enough. */
  function Young(last: LastAlive, name: Name, start: Time): set<Id> {
    if name in last && start - last[name].at <= DISCOVERY_GRACE then Elements(last[name].ids) else {}
  }

  function Alive(last: LastAlive, outcomes: seq<Outcome>, start: Time): set<Id> {
    if outcomes == [] then {}
    else
      var init, o := outcomes[..|outcomes| - 1], outcomes[|outcomes| - 1];
      Alive(last, init, start) + Young(Noted(last, outcomes, start), o.name, start)
  }

  function Acts(outcomes: seq<Outcome>): seq<Op> {
    if outcomes == [] then [] else Acts(outcomes[..|outcomes| - 1]) + outcomes[|outcomes| - 1].acts
  }

  function TickOps(last: LastAlive, t: Tick): seq<Op> {
    Acts(t.outcomes) + [Op.Retain(Alive(last, t.outcomes, t.start))] + t.mutations + [Op.Commit(t.now)]
  }

  datatype State = State(ops: seq<Op>, last: LastAlive)

  /** The store operations and the remembered results of a whole run. */
  function Polled(ticks: seq<Tick>): State {
    if ticks == [] then State([], map[])
    else
      var s, t := Polled(ticks[..|ticks| - 1]), ticks[|ticks| - 1];
      State(s.ops + TickOps(s.last, t), Noted(s.last, t.outcomes, t.start))
  }

  // ---------------------------------------------------------------- what a run may contain

  ghost predicate UpsertsAndMutates(ops: seq<Op>) {
    forall i :: 0 <= i < |ops| ==> ops[i].Upsert? || ops[i].Mutate?
  }

  ghost predicate OnlyMutates(ops: seq<Op>) {
    forall i :: 0 <= i < |ops| ==> ops[i].Mutate?
  }

  /** A discoverer that succeeds upserts what it reports. */
  ghost predicate Honest(o: Outcome) {
    UpsertsAndMutates(o.acts) && (o.alive.Some? ==> Elements(o.alive.value) <= Upserted(o.acts))
  }

  function Upserted(ops: seq<Op>): set<Id> {
    set i | 0 <= i < |ops| && ops[i].Upsert? :: ops[i].id
  }

  ghost predicate Distinct(outcomes: seq<Outcome>) {
    forall i, j :: 0 <= i < j < |outcomes| ==> outcomes[i].name != outcomes[j].name
  }

  ghost predicate Registered(outcomes: seq<Outcome>, name: Name) {
    exists i :: 0 <= i < |outcomes| && outcomes[i].name == name
  }

  ghost predicate ProperTick(t: Tick) {
    Distinct(t.outcomes) && OnlyMutates(t.mutations) && forall i :: 0 <= i < |t.outcomes| ==> Honest(t.outcomes[i])
  }

  /** Discoverers are not unregistered, and time does not run backwards. */
  ghost predicate Proper(ticks: seq<Tick>) {
    && (forall i :: 0 <= i < |ticks| ==> ProperTick(ticks[i]))
    && forall i :: 0 < i < |ticks| ==> Succeeds(ticks[i - 1], ticks[i])
  }

  ghost predicate Succeeds(t: Tick, u: Tick) {
    t.start <= u.start && forall name :: Registered(t.outcomes, name) ==> Registered(u.outcomes, name)
  }

  /** The discoverer's result in a tick, if it has one. */
  ghost predicate Reports(t: Tick, name: Name, ids: seq<Id>) {
    exists i :: 0 <= i < |t.outcomes| && t.outcomes[i].name == name && t.outcomes[i].alive == Some(ids)
  }

  ghost predicate Silent(t: Tick, name: Name) {
    forall i :: 0 <= i < |t.outcomes| && t.outcomes[i].name == name ==> t.outcomes[i].alive.None?
  }

  /** Tick k holds the discoverer's last successful result. */
  ghost predicate LastReport(ticks: seq<Tick>, k: nat, name: Name, ids: seq<Id>) {
    k < |ticks| && Reports(ticks[k], name, ids) && forall j :: k < j < |ticks| ==> Silent(ticks[j], name)
  }

  /** The domain is in some discoverer's last successful result, which is not older than the grace
      period. */
  ghost predicate Vouched(ticks: seq<Tick>, id: Id) {
    exists k: nat, name, ids ::
      && LastReport(ticks, k, name, ids) && id in ids
      && ticks[|ticks| - 1].start - ticks[k].start <= DISCOVERY_GRACE
  }

  // ---------------------------------------------------------------- the keys of the store

  lemma {:induction false} KeysAfterActs(ops: seq<Op>, acts: seq<Op>)
    requires UpsertsAndMutates(acts)
    ensures Store.Run(ops + acts).Keys == Store.Run(ops).Keys + Upserted(acts)
  {
    if acts == [] {
      assert ops + acts == ops;
    } else {
      var n := |acts| - 1;
      KeysAfterActs(ops, acts[..n]);
      assert ops + acts == ops + acts[..n] + [acts[n]];
      RunSnoc(ops + acts[..n], acts[n]);
      UpsertedSnoc(acts);
    }
  }

  lemma UpsertedSnoc(acts: seq<Op>)
    requires acts != []
    ensures var n := |acts| - 1;
            Upserted(acts) == Upserted(acts[..n]) + if acts[n].Upsert? then {acts[n].id} else {}
  {
    var n := |acts| - 1;
    var init := acts[..n];
    assert forall i :: 0 <= i < n ==> init[i] == acts[i];
    forall id | id in Upserted(acts) ensures id in Upserted(init) || (acts[n].Upsert? && id == acts[n].id) {
      var i :| 0 <= i < |acts| && acts[i].Upsert? && acts[i].id == id;
      if i < n {
        assert init[i].Upsert? && init[i].id == id;
      }
    }
  }

  lemma UpsertedAppend(a: seq<Op>, b: seq<Op>)
    ensures Upserted(a + b) == Upserted(a) + Upserted(b)
  {
    forall id | id in Upserted(a) ensures id in Upserted(a + b) {
      var i :| 0 <= i < |a| && a[i].Upsert? && a[i].id == id;
      assert (a + b)[i] == a[i];
    }
    forall id | id in Upserted(b) ensures id in Upserted(a + b) {
      var i :| 0 <= i < |b| && b[i].Upsert? && b[i].id == id;
      assert (a + b)[|a| + i] == b[i];
    }
  }

  lemma {:induction false} ActsUpsert(outcomes: seq<Outcome>)
    requires forall i :: 0 <= i < |outcomes| ==> Honest(outcomes[i])
    ensures UpsertsAndMutates(Acts(outcomes))
    ensures forall i :: 0 <= i < |outcomes| ==> Upserted(outcomes[i].acts) <= Upserted(Acts(outcomes))
  {
    if outcomes != [] {
      var n := |outcomes| - 1;
      ActsUpsert(outcomes[..n]);
      UpsertedAppend(Acts(outcomes[..n]), outcomes[n].acts);
    }
  }

  lemma KeysAfterRetain(ops: seq<Op>, keep: set<Id>)
    ensures Store.Run(ops + [Op.Retain(keep)]).Keys == Store.Run(ops).Keys * keep
  {
    RunSnoc(ops, Op.Retain(keep));
  }

  lemma KeysAfterCommit(ops: seq<Op>, now: Time)
    ensures Store.Run(ops + [Op.Commit(now)]).Keys == Store.Run(ops).Keys
  {
    RunSnoc(ops, Op.Commit(now));
  }

  lemma TickOpsGrouped(ops: seq<Op>, a: seq<Op>, r: Op, m: seq<Op>, c: Op)
    ensures ops + (a + [r] + m + [c]) == ops + a + [r] + m + [c]
  {
  }

  lemma MutatesUpsertNothing(ops: seq<Op>)
    requires OnlyMutates(ops)
    ensures UpsertsAndMutates(ops) && Upserted(ops) == {}
  {
  }

  /** A tick adds what the discoverers upsert, then keeps only what is alive. */
  lemma KeysAfterTick(ops: seq<Op>, last: LastAlive, t: Tick)
    requires ProperTick(t)
    ensures Store.Run(ops + TickOps(last, t)).Keys
         == (Store.Run(ops).Keys + Upserted(Acts(t.outcomes))) * Alive(last, t.outcomes, t.start)
  {
    ActsUpsert(t.outcomes);
    var acts, alive := Acts(t.outcomes), Alive(last, t.outcomes, t.start);
    TickOpsGrouped(ops, acts, Op.Retain(alive), t.mutations, Op.Commit(t.now));
    KeysAfterActs(ops, acts);
    KeysAfterRetain(ops + acts, alive);
    MutatesUpsertNothing(t.mutations);
    KeysAfterActs(ops + acts + [Op.Retain(alive)], t.mutations);
    KeysAfterCommit(ops + acts + [Op.Retain(alive)] + t.mutations, t.now);
  }

  // ---------------------------------------------------------------- the remembered results

  /** With distinct names, what a tick remembers for a name is that discoverer's result, if any. */
  lemma {:induction false} NotedAt(last: LastAlive, outcomes: seq<Outcome>, start: Time, name: Name)
    requires Distinct(outcomes)
    ensures var r := Noted(last, outcomes, start);
            && (forall i :: 0 <= i < |outcomes| && outcomes[i].name == name && outcomes[i].alive.Some? ==>
                  name in r && r[name] == AliveSet(outcomes[i].alive.value, start))
            && ((forall i :: 0 <= i < |outcomes| && outcomes[i].name == name ==> outcomes[i].alive.None?) ==>
                  (name in r <==> name in last) && (name in r ==> r[name] == last[name]))
  {
    if outcomes != [] {
      NotedAt(last, outcomes[..|outcomes| - 1], start, name);
    }
  }

  lemma {:induction false} AliveIsYoung(last: LastAlive, outcomes: seq<Outcome>, start: Time, id: Id)
    requires Distinct(outcomes)
    ensures id in Alive(last, outcomes, start) <==>
              exists i :: 0 <= i < |outcomes| && id in Young(Noted(last, outcomes, start), outcomes[i].name, start)
  {
    if outcomes != [] {
      var n := |outcomes| - 1;
      var init := outcomes[..n];
      AliveIsYoung(last, init, start, id);
      forall i | 0 <= i < n
        ensures Young(Noted(last, outcomes, start), outcomes[i].name, start)
             == Young(Noted(last, init, start), init[i].name, start)
      {
        assert outcomes[i].name != outcomes[n].name;
      }
      assert forall i :: 0 <= i < n ==> init[i] == outcomes[i];
    }
  }

  lemma ProperInit(ticks: seq<Tick>)
    requires Proper(ticks) && ticks != []
    ensures Proper(ticks[..|ticks| - 1]) && ProperTick(ticks[|ticks| - 1])
    ensures 1 < |ticks| ==> Succeeds(ticks[|ticks| - 2], ticks[|ticks| - 1])
  {
    var init := ticks[..|ticks| - 1];
    assert forall i :: 0 <= i < |init| ==> init[i] == ticks[i];
    if 1 < |ticks| {
      var i := |ticks| - 1;
      assert Succeeds(ticks[i - 1], ticks[i]);
    }
  }

  lemma LastReportNext(ticks: seq<Tick>, k: nat, name: Name, ids: seq<Id>)
    requires ticks != []
    ensures var n := |ticks| - 1;
            LastReport(ticks, k, name, ids) <==>
              if k == n then Reports(ticks[n], name, ids)
              else LastReport(ticks[..n], k, name, ids) && Silent(ticks[n], name)
  {
    var n := |ticks| - 1;
    assert forall j :: 0 <= j < n ==> ticks[..n][j] == ticks[j];
    if LastReport(ticks, k, name, ids) && k < n {
      assert Silent(ticks[n], name);
    }
  }

  /** A discoverer's last report is what the poller remembers of it ... */
  lemma {:induction false} LastReportIsRemembered(ticks: seq<Tick>, k: nat, name: Name, ids: seq<Id>)
    requires Proper(ticks) && LastReport(ticks, k, name, ids)
    ensures var last := Polled(ticks).last;
            name in last && last[name] == AliveSet(ids, ticks[k].start)
  {
    var n := |ticks| - 1;
    var s, t := Polled(ticks[..n]), ticks[n];
    ProperInit(ticks);
    LastReportNext(ticks, k, name, ids);
    NotedAt(s.last, t.outcomes, t.start, name);
    if k < n {
      LastReportIsRemembered(ticks[..n], k, name, ids);
    }
  }

  /** ... and all that it remembers. */
  lemma {:induction false} RememberedIsLastReport(ticks: seq<Tick>, name: Name) returns (k: nat)
    requires Proper(ticks) && name in Polled(ticks).last
    ensures ticks != [] && Registered(ticks[|ticks| - 1].outcomes, name)
    ensures var a := Polled(ticks).last[name];
            LastReport(ticks, k, name, a.ids) && a.at == ticks[k].start
  {
    var n := |ticks| - 1;
    var s, t := Polled(ticks[..n]), ticks[n];
    ProperInit(ticks);
    NotedAt(s.last, t.outcomes, t.start, name);
    if Silent(t, name) {
      k := RememberedIsLastReport(ticks[..n], name);
      assert Succeeds(ticks[n - 1], ticks[n]);
    } else {
      k := n;
      var i :| 0 <= i < |t.outcomes| && t.outcomes[i].name == name && t.outcomes[i].alive.Some?;
      assert Reports(t, name, t.outcomes[i].alive.value);
    }
    LastReportNext(ticks, k, name, Polled(ticks).last[name].ids);
  }

  // ---------------------------------------------------------------- the grace period

  ghost predicate InYoung(last: LastAlive, id: Id, start: Time) {
    exists name :: id in Young(last, name, start)
  }

  /** If every remembered name is registered, what is alive is what is in a young result. */
  lemma AliveIffYoung(last: LastAlive, t: Tick, id: Id)
    requires Distinct(t.outcomes)
    requires forall name :: name in Noted(last, t.outcomes, t.start) ==> Registered(t.outcomes, name)
    ensures id in Alive(last, t.outcomes, t.start) <==> InYoung(Noted(last, t.outcomes, t.start), id, t.start)
  {
    AliveIsYoung(last, t.outcomes, t.start, id);
    var next := Noted(last, t.outcomes, t.start);
    if name :| id in Young(next, name, t.start) {
      assert Registered(t.outcomes, name);
    }
  }

  /** The store holds the young results and nothing else. */
  lemma {:induction false} StoreHoldsYoung(ticks: seq<Tick>, id: Id)
    requires Proper(ticks) && ticks != []
    ensures id in Store.Run(Polled(ticks).ops) <==>
              InYoung(Polled(ticks).last, id, ticks[|ticks| - 1].start)
    decreases |ticks|, 1
  {
    var n := |ticks| - 1;
    var s, t := Polled(ticks[..n]), ticks[n];
    ProperInit(ticks);
    KeysAfterTick(s.ops, s.last, t);
    forall name | name in Polled(ticks).last ensures Registered(t.outcomes, name) {
      var k := RememberedIsLastReport(ticks, name);
    }
    AliveIffYoung(s.last, t, id);
    if name :| id in Young(Polled(ticks).last, name, t.start) {
      YoungIsStored(ticks, id, name);
    }
  }

  /** A domain in a young result was upserted just now, or is still there from the tick before. */
  lemma {:induction false} YoungIsStored(ticks: seq<Tick>, id: Id, name: Name)
    requires Proper(ticks) && ticks != [] && id in Young(Polled(ticks).last, name, ticks[|ticks| - 1].start)
    ensures var n := |ticks| - 1;
            id in Store.Run(Polled(ticks[..n]).ops) || id in Upserted(Acts(ticks[n].outcomes))
    decreases |ticks|, 0
  {
    var n := |ticks| - 1;
    var s, t := Polled(ticks[..n]), ticks[n];
    ProperInit(ticks);
    NotedAt(s.last, t.outcomes, t.start, name);
    if Silent(t, name) {
      var k := RememberedIsLastReport(ticks[..n], name);
      assert Succeeds(ticks[n - 1], t);
      StoreHoldsYoung(ticks[..n], id);
      assert id in Young(s.last, name, ticks[..n][n - 1].start);
    } else {
      var i :| 0 <= i < |t.outcomes| && t.outcomes[i].name == name && t.outcomes[i].alive.Some?;
      ActsUpsert(t.outcomes);
      assert Honest(t.outcomes[i]);
    }
  }

  /** Discovery with grace: after every tick the store holds exactly the union of the discoverers'
      last successful results that are not older than the grace period. */
  lemma DiscoveryGrace(ticks: seq<Tick>, id: Id)
    requires Proper(ticks) && ticks != []
    ensures id in Store.Run(Polled(ticks).ops) <==> Vouched(ticks, id)
  {
    var last, start := Polled(ticks).last, ticks[|ticks| - 1].start;
    StoreHoldsYoung(ticks, id);
    if name :| id in Young(last, name, start) {
      var k := RememberedIsLastReport(ticks, name);
      assert LastReport(ticks, k, name, last[name].ids);
    }
    if Vouched(ticks, id) {
      var k: nat, name, ids :| LastReport(ticks, k, name, ids) && id in ids && start - ticks[k].start <= DISCOVERY_GRACE;
      LastReportIsRemembered(ticks, k, name, ids);
      assert id in Young(last, name, start);
    }
  }

  /** A tick ends with its commit: the last sample of every VM in the store is that of its snapshot as
      the tick's collectors left it, which carries the time of the commit. */
  lemma TickEndsCommitted(ticks: seq<Tick>, id: Id)
    requires ticks != [] && id in Store.Run(Polled(ticks).ops)
    ensures var d := Store.Run(Polled(ticks).ops)[id];
            && d.points != [] && Samples(d.points[|d.points| - 1], d.latest)
            && d.latest.collectedAt == ticks[|ticks| - 1].now
  {
    var s, t := Polled(ticks[..|ticks| - 1]), ticks[|ticks| - 1];
    var alive := Alive(s.last, t.outcomes, t.start);
    TickOpsGrouped(s.ops, Acts(t.outcomes), Op.Retain(alive), t.mutations, Op.Commit(t.now));
    CommittedNow(s.ops + Acts(t.outcomes) + [Op.Retain(alive)] + t.mutations, t.now, id);
  }

  /** The grace period is ten seconds. */
  lemma GraceInSeconds()
    ensures Seconds(DISCOVERY_GRACE) == 10.0
  {
  }

  /** No VM blinks: after a report of the VM, it is in the store at the end of every tick until its
      discoverer reports again or the grace period is over. */
  lemma NoBlink(ticks: seq<Tick>, k: nat, name: Name, ids: seq<Id>, id: Id, m: nat)
    requires Proper(ticks) && k < m <= |ticks| && Reports(ticks[k], name, ids) && id in ids
    requires forall j :: k < j < m ==> Silent(ticks[j], name)
    requires ticks[m - 1].start - ticks[k].start <= DISCOVERY_GRACE
    ensures id in Store.Run(Polled(ticks[..m]).ops)
  {
    var run := ticks[..m];
    assert forall i :: 0 <= i < m ==> run[i] == ticks[i];
    assert Proper(run);
    assert LastReport(run, k, name, ids);
    DiscoveryGrace(run, id);
  }

  /** No VM outlives a longer outage: one in the store was reported within the grace period. */
  lemma NoneOutlives(ticks: seq<Tick>, id: Id)
    requires Proper(ticks) && ticks != [] && id in Store.Run(Polled(ticks).ops)
    ensures exists k: nat, name, ids :: k < |ticks| && Reports(ticks[k], name, ids) && id in ids
              && ticks[|ticks| - 1].start - ticks[k].start <= DISCOVERY_GRACE
  {
    DiscoveryGrace(ticks, id);
  }

  // ---------------------------------------------------------------- the poller itself

  /** The poller, whose store and memory are those of the ticks so far. The calls that a collector
      makes into the store are its actions. */
  class Poller {
    const store: DomainStore
    var lastAlive: LastAlive
    ghost var ticks: seq<Tick>

    ghost predicate Valid()
      reads this, store, store.repr
    {
      && this !in store.repr && store.Valid()
      && store.ops == Polled(ticks).ops && lastAlive == Polled(ticks).last
    }

    constructor (store: DomainStore)
      requires store.Valid() && store.ops == []
      ensures Valid() && this.store == store && ticks == []
    {
      this.store := store;
      lastAlive, ticks := map[], [];
    }

    /** Makes a collector's calls. */
    method Collect(acts: seq<Op>)
      requires store.Valid() && this !in store.repr && UpsertsAndMutates(acts)
      modifies store, store.repr
      ensures store.Valid() && this !in store.repr && fresh(store.repr - old(store.repr))
      ensures store.ops == old(store.ops) + acts
    {
      ghost var ops := store.ops;
      for i := 0 to |acts|
        invariant store.Valid() && this !in store.repr && fresh(store.repr - old(store.repr))
        invariant store.ops == ops + acts[..i]
      {
        assert acts[..i + 1] == acts[..i] + [acts[i]];
        match acts[i] {
          case Upsert(id, fn) => store.Upsert(id, fn);
          case Mutate(id, fn) => var _ := store.Mutate(id, fn);
        }
      }
      assert acts[..|acts|] == acts;
    }

    /** Runs a discoverer and adds its last good result to what is alive, if that is young. */
    method Discover(o: Outcome, start: Time, before: set<Id>) returns (alive: set<Id>)
      requires store.Valid() && this !in store.repr && UpsertsAndMutates(o.acts)
      modifies this`lastAlive, store, store.repr
      ensures store.Valid() && this !in store.repr && fresh(store.repr - old(store.repr))
      ensures store.ops == old(store.ops) + o.acts && lastAlive == Note(old(lastAlive), o, start)
      ensures alive == before + Young(lastAlive, o.name, start)
    {
      Collect(o.acts);
      if o.alive.Some? {
        lastAlive := lastAlive[o.name := AliveSet(o.alive.value, start)];
      }
      alive := before;
      if o.name in lastAlive && start - lastAlive[o.name].at <= DISCOVERY_GRACE {
        var ids := lastAlive[o.name].ids;
        for i := 0 to |ids|
          invariant alive == before + Elements(ids[..i])
        {
          assert Elements(ids[..i + 1]) == Elements(ids[..i]) + {ids[i]};
          alive := alive + {ids[i]};
        }
        assert ids[..|ids|] == ids;
      }
    }

    method DiscoverAll(outcomes: seq<Outcome>, start: Time) returns (alive: set<Id>)
      requires store.Valid() && this !in store.repr
      requires forall i :: 0 <= i < |outcomes| ==> UpsertsAndMutates(outcomes[i].acts)
      modifies this`lastAlive, store, store.repr
      ensures store.Valid() && this !in store.repr && fresh(store.repr - old(store.repr))
      ensures store.ops == old(store.ops) + Acts(outcomes) && lastAlive == Noted(old(lastAlive), outcomes, start)
      ensures alive == Alive(old(lastAlive), outcomes, start)
    {
      ghost var ops, last := store.ops, lastAlive;
      alive := {};
      for i := 0 to |outcomes|
        invariant store.Valid() && this !in store.repr && fresh(store.repr - old(store.repr))
        invariant store.ops == ops + Acts(outcomes[..i]) && lastAlive == Noted(last, outcomes[..i], start)
        invariant alive == Alive(last, outcomes[..i], start)
      {
        assert outcomes[..i + 1][..i] == outcomes[..i];
        alive := Discover(outcomes[i], start, alive);
      }
      assert outcomes[..|outcomes|] == outcomes;
    }

    /** One tick: discoverers, retention, the other collectors, commit. */
    method Tick(t: Tick)
      requires Valid() && OnlyMutates(t.mutations)
      requires forall i :: 0 <= i < |t.outcomes| ==> UpsertsAndMutates(t.outcomes[i].acts)
      modifies this, store, store.repr
      ensures Valid() && ticks == old(ticks) + [t] && fresh(store.repr - old(store.repr))
    {
      ghost var ops, last := store.ops, lastAlive;
      DiscoverAndRetain(t);
      CollectAndCommit(t);
      RecordTick(t, ops, last);
    }

    method DiscoverAndRetain(t: Tick)
      requires store.Valid() && this !in store.repr
      requires forall i :: 0 <= i < |t.outcomes| ==> UpsertsAndMutates(t.outcomes[i].acts)
      modifies this`lastAlive, store, store.repr
      ensures store.Valid() && this !in store.repr && fresh(store.repr - old(store.repr))
      ensures lastAlive == Noted(old(lastAlive), t.outcomes, t.start)
      ensures store.ops == old(store.ops) + Acts(t.outcomes) + [Op.Retain(Alive(old(lastAlive), t.outcomes, t.start))]
    {
      var alive := DiscoverAll(t.outcomes, t.start);
      var _ := store.Retain(alive);
    }

    method CollectAndCommit(t: Tick)
      requires store.Valid() && this !in store.repr && OnlyMutates(t.mutations)
      modifies store, store.repr
      ensures store.Valid() && this !in store.repr && fresh(store.repr - old(store.repr))
      ensures store.ops == old(store.ops) + t.mutations + [Op.Commit(t.now)]
    {
      Collect(t.mutations);
      store.Commit(t.now);
    }

    ghost method RecordTick(t: Tick, ops: seq<Op>, last: LastAlive)
      requires this !in store.repr && store.Valid() && ops == Polled(ticks).ops && last == Polled(ticks).last
      requires lastAlive == Noted(last, t.outcomes, t.start)
      requires store.ops == ops + Acts(t.outcomes) + [Op.Retain(Alive(last, t.outcomes, t.start))] + t.mutations + [Op.Commit(t.now)]
      modifies this`ticks
      ensures Valid() && ticks == old(ticks) + [t]
    {
      TickOpsGrouped(ops, Acts(t.outcomes), Op.Retain(Alive(last, t.outcomes, t.start)), t.mutations, Op.Commit(t.now));
      assert (ticks + [t])[..|ticks|] == ticks;
      ticks := ticks + [t];
    }

    /** After every tick of a proper run, the map of the store itself has exactly the vouched keys. */
    lemma StoreIsVouched()
      requires Valid() && Proper(ticks) && ticks != []
      ensures forall id :: id in store.domains <==> Vouched(ticks, id)
    {
      forall id ensures id in store.domains <==> Vouched(ticks, id) {
        DiscoveryGrace(ticks, id);
      }
    }
  }
}
