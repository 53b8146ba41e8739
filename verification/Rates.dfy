/** Counters turned into rates: the previous value of every key, forgotten by a sweep unless it was
    refreshed since the sweep before. */
module Rates {
  import opened Units
  import opened Options

  type Key = string

  datatype Sample = Sample(v: real, t: Time, tick: nat)

  datatype Tracker = Tracker(prev: map<Key, Sample>, tick: nat)

  datatype Op =
    | Observe(key: Key, v: real, now: Time)
    | Sweep

  // ---------------------------------------------------------------- runs

  function Step(s: Tracker, op: Op): Tracker {
    match op
    case Observe(key, v, now) => s.(prev := s.prev[key := Sample(v, now, s.tick)])
    case Sweep => Tracker(map k | k in s.prev && s.prev[k].tick == s.tick :: s.prev[k], s.tick + 1)
  }

  function Run(ops: seq<Op>): Tracker {
    if ops == [] then Tracker(map[], 0) else Step(Run(ops[..|ops| - 1]), ops[|ops| - 1])
  }

  function RateOf(p: Option<Sample>, v: real, now: Time): (r: real) {
    if p.None? || v < p.value.v then 0.0
    else if Seconds(now - p.value.t) <= 0.0 then 0.0
    else (v - p.value.v) / Seconds(now - p.value.t)
  }

  function DeltaOf(p: Option<Sample>, v: real): real {
    if p.None? || v < p.value.v then 0.0 else v - p.value.v
  }

  function Prev(s: Tracker, key: Key): Option<Sample> {
    if key in s.prev then Some(s.prev[key]) else None
  }

  // ---------------------------------------------------------------- what is remembered

  predicate Sees(op: Op, key: Key) {
    op.Observe? && op.key == key
  }

  /** The last observation of a key. */
  function LastSeen(ops: seq<Op>, key: Key): (r: Option<nat>)
    ensures r.Some? ==> r.value < |ops| && Sees(ops[r.value], key)
    ensures forall j :: (if r.Some? then r.value + 1 else 0) <= j < |ops| ==> !Sees(ops[j], key)
  {
    if ops == [] then None
    else if Sees(ops[|ops| - 1], key) then Some(|ops| - 1)
    else LastSeen(ops[..|ops| - 1], key)
  }

  function Sweeps(ops: seq<Op>): nat {
    if ops == [] then 0 else Sweeps(ops[..|ops| - 1]) + if ops[|ops| - 1].Sweep? then 1 else 0
  }

  /** The sweeps since the i-th operation. */
  function SweepsSince(ops: seq<Op>, i: nat): int
    requires i <= |ops|
  {
    Sweeps(ops) - Sweeps(ops[..i])
  }

  /** A key is remembered exactly while at most one sweep has followed its last observation, and
      what is remembered is that observation. */
  lemma {:induction false} RemembersLastSeen(ops: seq<Op>, key: Key)
    ensures var p, i := Prev(Run(ops), key), LastSeen(ops, key);
            && Run(ops).tick == Sweeps(ops)
            && (p.Some? <==> i.Some? && SweepsSince(ops, i.value) <= 1)
            && (p.Some? ==> p.value == Sample(ops[i.value].v, ops[i.value].now, Sweeps(ops[..i.value])))
  {
    if ops != [] {
      var n := |ops| - 1;
      var init := ops[..n];
      RemembersLastSeen(init, key);
      var i := LastSeen(init, key);
      if i.Some? {
        assert init[..i.value] == ops[..i.value];
        SweepsGrow(init, i.value);
      }
    }
  }

  lemma {:induction false} SweepsGrow(ops: seq<Op>, i: nat)
    requires i <= |ops|
    ensures SweepsSince(ops, i) >= 0
    ensures SweepsSince(ops, i) == 0 <==> forall j :: i <= j < |ops| ==> !ops[j].Sweep?
  {
    if i == |ops| {
      assert ops[..i] == ops;
    } else {
      var n := |ops| - 1;
      SweepsGrow(ops[..n], i);
      assert ops[..n][..i] == ops[..i];
      assert forall j :: i <= j < n ==> ops[..n][j] == ops[j];
    }
  }

  ghost predicate NoSweepAfter(ops: seq<Op>, i: nat) {
    forall j :: i < j < |ops| ==> !ops[j].Sweep?
  }

  ghost predicate UpdatedSinceSweep(ops: seq<Op>, key: Key) {
    exists i: nat :: i < |ops| && Sees(ops[i], key) && NoSweepAfter(ops, i)
  }

  lemma UpdatedIffLastSeen(ops: seq<Op>, key: Key)
    ensures var i := LastSeen(ops, key);
            UpdatedSinceSweep(ops, key) <==> i.Some? && SweepsSince(ops, i.value) == 0
  {
    var i := LastSeen(ops, key);
    if i.Some? {
      SweepsGrow(ops, i.value);
      assert NoSweepAfter(ops, i.value) <==> SweepsSince(ops, i.value) == 0;
    }
    if UpdatedSinceSweep(ops, key) {
      var w: nat :| w < |ops| && Sees(ops[w], key) && NoSweepAfter(ops, w);
      assert w <= i.value;
      assert NoSweepAfter(ops, i.value);
    }
  }

  /** A key survives a sweep exactly when it was updated since the previous sweep. */
  lemma SurvivesSweepIff(ops: seq<Op>, key: Key)
    ensures key in Run(ops + [Sweep]).prev <==> UpdatedSinceSweep(ops, key)
  {
    assert (ops + [Sweep])[..|ops|] == ops;
    RemembersLastSeen(ops, key);
    UpdatedIffLastSeen(ops, key);
  }

  // ---------------------------------------------------------------- telescoping

  lemma Divided(a: real, b: real)
    requires b != 0.0
    ensures a / b * b == a
  {
  }

  lemma RateIsNonNegative(p: Option<Sample>, v: real, now: Time)
    ensures RateOf(p, v, now) >= 0.0
    ensures RateOf(p, v, now) > 0.0 <==> p.Some? && p.value.v < v && p.value.t < now
  {
    if p.Some? && p.value.v <= v && p.value.t < now {
      var d := Seconds(now - p.value.t);
      assert d > 0.0;
      Divided(v - p.value.v, d);
    }
  }

  /** Whenever the clock advanced, the delta is the rate times the elapsed time. */
  lemma DeltaIsRateTimesElapsed(p: Sample, v: real, now: Time)
    requires p.t < now
    ensures DeltaOf(Some(p), v) == RateOf(Some(p), v, now) * Seconds(now - p.t)
  {
    Divided(v - p.v, Seconds(now - p.t));
  }

  /** The sum of rate times elapsed time over all observations of a key but its first. */
  function Accrued(ops: seq<Op>, key: Key): real {
    if ops == [] then 0.0
    else
      var init, op := ops[..|ops| - 1], ops[|ops| - 1];
      var i := LastSeen(init, key);
      Accrued(init, key)
        + if Sees(op, key) && i.Some? then RateOf(Prev(Run(init), key), op.v, op.now) * Seconds(op.now - init[i.value].now)
          else 0.0
  }

  /** The increase that no rate shows: where the counter fell, where the key had been swept away, or
      where the clock did not advance. */
  function Missed(ops: seq<Op>, key: Key): real {
    if ops == [] then 0.0
    else
      var init, op := ops[..|ops| - 1], ops[|ops| - 1];
      var i := LastSeen(init, key);
      Missed(init, key)
        + if Sees(op, key) && i.Some? && !Shown(init, i.value, op) then op.v - init[i.value].v else 0.0
  }

  /** The new observation follows the i-th operation, an observation of the same key, in a way
      that the rate shows: not lower, later, and with at most one sweep between. */
  predicate Shown(ops: seq<Op>, i: nat, op: Op)
    requires i < |ops| && ops[i].Observe? && op.Observe?
  {
    ops[i].v <= op.v && ops[i].now < op.now && SweepsSince(ops, i) <= 1
  }

  function FirstValue(ops: seq<Op>, key: Key): real
    requires LastSeen(ops, key).Some?
  {
    var init := ops[..|ops| - 1];
    if LastSeen(init, key).Some? then FirstValue(init, key) else ops[|ops| - 1].v
  }

  function LastValue(ops: seq<Op>, key: Key): real
    requires LastSeen(ops, key).Some?
  {
    ops[LastSeen(ops, key).value].v
  }

  lemma StepAccrues(ops: seq<Op>, key: Key, i: nat, op: Op)
    requires LastSeen(ops, key) == Some(i) && Sees(op, key)
    ensures RateOf(Prev(Run(ops), key), op.v, op.now) * Seconds(op.now - ops[i].now)
         == if Shown(ops, i, op) then op.v - ops[i].v else 0.0
  {
    RemembersLastSeen(ops, key);
    if Shown(ops, i, op) {
      Divided(op.v - ops[i].v, Seconds(op.now - ops[i].now));
    }
  }

  /** The increases that the rates show. */
  function Increases(ops: seq<Op>, key: Key): real {
    if ops == [] then 0.0
    else
      var init, op := ops[..|ops| - 1], ops[|ops| - 1];
      var i := LastSeen(init, key);
      Increases(init, key)
        + if Sees(op, key) && i.Some? && Shown(init, i.value, op) then op.v - init[i.value].v else 0.0
  }

  lemma {:induction false} AccruedAreIncreases(ops: seq<Op>, key: Key)
    ensures Accrued(ops, key) == Increases(ops, key)
  {
    if ops != [] {
      var init, op := ops[..|ops| - 1], ops[|ops| - 1];
      AccruedAreIncreases(init, key);
      var i := LastSeen(init, key);
      if Sees(op, key) && i.Some? {
        StepAccrues(init, key, i.value, op);
      }
    }
  }

  lemma {:induction false} IncreasesConserve(ops: seq<Op>, key: Key)
    requires LastSeen(ops, key).Some?
    ensures LastValue(ops, key) - FirstValue(ops, key) == Increases(ops, key) + Missed(ops, key)
  {
    var init, op := ops[..|ops| - 1], ops[|ops| - 1];
    var i := LastSeen(init, key);
    if i.Some? {
      IncreasesConserve(init, key);
      if Sees(op, key) {
        assert LastValue(ops, key) == op.v && FirstValue(ops, key) == FirstValue(init, key);
      } else {
        assert LastSeen(ops, key) == i && ops[i.value] == init[i.value];
      }
    } else {
      NothingYet(init, key);
      assert LastSeen(ops, key) == Some(|ops| - 1);
    }
  }

  /** In every run, what the counter gained from the first to the last observation is what the rates
      account for plus what they miss. */
  lemma RatesConserve(ops: seq<Op>, key: Key)
    requires LastSeen(ops, key).Some?
    ensures LastValue(ops, key) - FirstValue(ops, key) == Accrued(ops, key) + Missed(ops, key)
  {
    AccruedAreIncreases(ops, key);
    IncreasesConserve(ops, key);
  }

  lemma NothingYet(ops: seq<Op>, key: Key)
    requires LastSeen(ops, key).None?
    ensures Increases(ops, key) == 0.0 && Missed(ops, key) == 0.0
  {
  }

  /** The sum of the deltas over all observations of a key, the first included. */
  function Gained(ops: seq<Op>, key: Key): real {
    if ops == [] then 0.0
    else
      var init, op := ops[..|ops| - 1], ops[|ops| - 1];
      Gained(init, key) + if Sees(op, key) then DeltaOf(Prev(Run(init), key), op.v) else 0.0
  }

  /** The increase that no delta shows: where the counter fell or the key had been swept away. */
  function Dropped(ops: seq<Op>, key: Key): real {
    if ops == [] then 0.0
    else
      var init, op := ops[..|ops| - 1], ops[|ops| - 1];
      var i := LastSeen(init, key);
      Dropped(init, key)
        + if Sees(op, key) && i.Some? && (op.v < init[i.value].v || SweepsSince(init, i.value) > 1)
          then op.v - init[i.value].v else 0.0
  }

  /** Before the first observation nothing is gained, and the first adds nothing. */
  lemma {:induction false} NothingGained(ops: seq<Op>, key: Key)
    requires LastSeen(ops, key).None?
    ensures Gained(ops, key) == 0.0 && Dropped(ops, key) == 0.0 && Prev(Run(ops), key) == None
  {
    RemembersLastSeen(ops, key);
    if ops != [] {
      NothingGained(ops[..|ops| - 1], key);
    }
  }

  /** In every run, what the counter gained from its first to its last observation is the sum of all
      deltas plus what they miss. */
  lemma {:induction false} DeltasConserve(ops: seq<Op>, key: Key)
    requires LastSeen(ops, key).Some?
    ensures LastValue(ops, key) - FirstValue(ops, key) == Gained(ops, key) + Dropped(ops, key)
  {
    var init, op := ops[..|ops| - 1], ops[|ops| - 1];
    var i := LastSeen(init, key);
    if i.Some? {
      DeltasConserve(init, key);
      RemembersLastSeen(init, key);
      if Sees(op, key) {
        assert LastValue(ops, key) == op.v && FirstValue(ops, key) == FirstValue(init, key);
      } else {
        assert LastSeen(ops, key) == i && ops[i.value] == init[i.value];
      }
    } else {
      NothingGained(init, key);
      assert LastSeen(ops, key) == Some(|ops| - 1);
    }
  }

  /** A nondecreasing counter, observed at increasing times and refreshed between any two sweeps. */
  ghost predicate Regular(ops: seq<Op>, key: Key) {
    forall n :: 0 <= n < |ops| && Sees(ops[n], key) && LastSeen(ops[..n], key).Some? ==>
      Shown(ops[..n], LastSeen(ops[..n], key).value, ops[n])
  }

  lemma {:induction false} RegularMissesNothing(ops: seq<Op>, key: Key)
    requires Regular(ops, key)
    ensures Missed(ops, key) == 0.0
  {
    if ops != [] {
      var m := |ops| - 1;
      var init := ops[..m];
      assert forall n :: 0 <= n < m ==> init[..n] == ops[..n] && init[n] == ops[n];
      RegularMissesNothing(init, key);
    }
  }

  /** Telescoping: the rates of a regular counter add up to its whole increase. */
  lemma RatesTelescope(ops: seq<Op>, key: Key)
    requires LastSeen(ops, key).Some? && Regular(ops, key)
    ensures Accrued(ops, key) == LastValue(ops, key) - FirstValue(ops, key)
  {
    RatesConserve(ops, key);
    RegularMissesNothing(ops, key);
  }

  // ---------------------------------------------------------------- the tracker itself

  class RateTracker {
    var prev: map<Key, Sample>
    var tick: nat
    ghost var ops: seq<Op>

    ghost predicate Valid()
      reads this
    {
      Tracker(prev, tick) == Run(ops)
    }

    constructor ()
      ensures Valid() && ops == []
    {
      prev, tick, ops := map[], 0, [];
    }

    ghost method Record(op: Op)
      requires Tracker(prev, tick) == Step(Run(ops), op)
      modifies this`ops
      ensures Valid() && ops == old(ops) + [op]
    {
      assert (ops + [op])[..|ops|] == ops;
      ops := ops + [op];
    }

    method Rate(key: Key, v: real, now: Time) returns (r: real)
      requires Valid()
      modifies this
      ensures Valid() && ops == old(ops) + [Observe(key, v, now)]
      ensures r == RateOf(Prev(Run(old(ops)), key), v, now)
    {
      var p := if key in prev then Some(prev[key]) else None;
      prev := prev[key := Sample(v, now, tick)];
      Record(Observe(key, v, now));
      if p.None? || v < p.value.v {
        return 0.0;
      }
      var dt := Seconds(now - p.value.t);
      if dt <= 0.0 {
        return 0.0;
      }
      return (v - p.value.v) / dt;
    }

    method Delta(key: Key, v: real, now: Time) returns (r: real)
      requires Valid()
      modifies this
      ensures Valid() && ops == old(ops) + [Observe(key, v, now)]
      ensures r == DeltaOf(Prev(Run(old(ops)), key), v)
    {
      var p := if key in prev then Some(prev[key]) else None;
      prev := prev[key := Sample(v, now, tick)];
      Record(Observe(key, v, now));
      if p.None? || v < p.value.v {
        return 0.0;
      }
      return v - p.value.v;
    }

    method Sweep()
      requires Valid()
      modifies this
      ensures Valid() && ops == old(ops) + [Op.Sweep]
    {
      var todo := prev.Keys;
      ghost var was := prev;
      while todo != {}
        invariant todo <= was.Keys && tick == old(tick) && ops == old(ops)
        invariant forall k :: k in prev <==> k in was && (k in todo || was[k].tick == tick)
        invariant forall k :: k in prev ==> prev[k] == was[k]
        decreases |todo|
      {
        var k :| k in todo;
        todo := todo - {k};
        if prev[k].tick != tick {
          prev := prev - {k};
        }
      }
      tick := tick + 1;
      Record(Op.Sweep);
    }
  }
}
