/** Sliding windows over cumulative histograms: which snapshot a window starts from, and why the
    snapshots that were dropped never matter. */
module HistWindows {
  import opened Units
  import opened Options
  import opened Histogram
  import opened Percentiles

  datatype Snap = Snap(at: Time, h: Hist)

  ghost predicate Nondecreasing(s: seq<Snap>) {
    forall i, j :: 0 <= i < j < |s| ==> s[i].at <= s[j].at
  }

  /** The window starts from snapshot b: the newest one at least minAge old, or the oldest of all if
      none is. */
  ghost predicate IsBase(all: seq<Snap>, now: Time, minAge: int, b: nat) {
    && b < |all|
    && (forall i :: b < i < |all| ==> now - all[i].at < minAge)
    && (now - all[b].at >= minAge || b == 0)
  }

  lemma BaseUnique(all: seq<Snap>, now: Time, minAge: int, b: nat, c: nat)
    requires IsBase(all, now, minAge, b) && IsBase(all, now, minAge, c)
    ensures b == c
  {
  }

  /** What was kept of all snapshots of a key: those from index d on, where anything was dropped
      only because snapshot d was already old enough at the last one. */
  ghost predicate Kept(kept: seq<Snap>, all: seq<Snap>, minAge: int, d: nat) {
    && d < |all| && kept == all[d..]
    && (0 < d && Nondecreasing(all) ==> all[|all| - 1].at - all[d].at >= minAge)
    && (forall s :: s in all ==> |s.h.slots| == SLOTS)
  }

  /** Drops snapshots from the front, but only while the next one is old enough. */
  method Prune(samples: seq<Snap>, now: Time, minAge: int) returns (rest: seq<Snap>)
    requires samples != []
    ensures 1 <= |rest| <= |samples| && rest == samples[|samples| - |rest|..]
    ensures |rest| > 1 ==> now - rest[1].at < minAge
    ensures |rest| < |samples| ==> now - rest[0].at >= minAge
  {
    rest := samples;
    while |rest| > 1 && now - rest[1].at >= minAge
      invariant 1 <= |rest| <= |samples| && rest == samples[|samples| - |rest|..]
      invariant |rest| < |samples| ==> now - rest[0].at >= minAge
    {
      rest := rest[1..];
    }
  }

  /** The base found among the kept snapshots is the base among all of them. */
  lemma PrunedBase(samples: seq<Snap>, rest: seq<Snap>, now: Time, minAge: int, all: seq<Snap>, d: nat) returns (b: nat)
    requires Kept(samples, all, minAge, d) && 1 <= |rest| <= |samples| && rest == samples[|samples| - |rest|..]
    requires |rest| > 1 ==> now - rest[1].at < minAge
    requires |rest| < |samples| ==> now - rest[0].at >= minAge
    ensures b < |all| && rest == all[b..]
    ensures 0 < b && Before(all, now) ==> now - all[b].at >= minAge
    ensures Before(all, now) ==> IsBase(all, now, minAge, b)
  {
    b := |all| - |rest|;
    SuffixTwice(all, d, |samples| - |rest|);
    if Before(all, now) {
      if b == d && 0 < d {
        assert all[|all| - 1].at - all[d].at >= minAge;
      }
      BaseFromNext(all, now, minAge, b);
    }
  }

  lemma SuffixTwice<T>(s: seq<T>, i: nat, j: nat)
    requires i + j <= |s|
    ensures s[i..][j..] == s[i + j..]
  {
  }

  /** With nondecreasing times, looking at one more snapshot is enough. */
  lemma BaseFromNext(all: seq<Snap>, now: Time, minAge: int, b: nat)
    requires Nondecreasing(all) && b < |all| && (0 < b ==> now - all[b].at >= minAge)
    requires b + 1 < |all| ==> now - all[b + 1].at < minAge
    ensures IsBase(all, now, minAge, b)
  {
    forall i | b < i < |all| ensures now - all[i].at < minAge {
      assert i == b + 1 || all[b + 1].at <= all[i].at;
    }
  }

  /** Times never went back, and do not with `now`. */
  ghost predicate Before(all: seq<Snap>, now: Time) {
    Nondecreasing(all) && (all != [] ==> all[|all| - 1].at <= now)
  }

  lemma KeptNext(all: seq<Snap>, snap: Snap, minAge: int, b: nat)
    requires b < |all| && (0 < b && Before(all, snap.at) ==> snap.at - all[b].at >= minAge)
    requires |snap.h.slots| == SLOTS && forall s :: s in all ==> |s.h.slots| == SLOTS
    ensures Kept(all[b..] + [snap], all + [snap], minAge, b)
    ensures Nondecreasing(all + [snap]) ==> Before(all, snap.at)
    ensures IsBase(all, snap.at, minAge, b) && 0 < minAge ==>
              forall j :: 1 <= j < |all[b..] + [snap]| ==> snap.at - (all[b..] + [snap])[j].at < minAge
  {
    var next := all + [snap];
    if Nondecreasing(next) {
      assert next[|all|] == snap;
      forall i, j | 0 <= i < j < |all| ensures all[i].at <= all[j].at {
        assert next[i] == all[i] && next[j] == all[j];
      }
      assert next[|all| - 1] == all[|all| - 1];
    }
  }

  /** Everything a key has shown since it was first seen or last swept, and how much of it was
      dropped. */
  datatype Past = Past(all: seq<Snap>, drop: nat)

  ghost predicate AllKept(keys: map<nat, seq<Snap>>, past: map<nat, Past>, minAge: int) {
    keys.Keys == past.Keys && forall k :: k in keys ==> Kept(keys[k], past[k].all, minAge, past[k].drop)
  }

  /** The outcome of a window over everything a key has shown. */
  ghost predicate IsWindow(r: Hist, cur: Hist, now: Time, minAge: int, all: seq<Snap>, kept: seq<Snap>, b: nat) {
    && IsBase(all, now, minAge, b) && |cur.slots| == SLOTS == |all[b].h.slots|
    && IsDifference(r, cur, all[b].h)
    && (0 < minAge ==> forall j :: 1 <= j < |kept| ==> now - kept[j].at < minAge)
  }

  /** Cumulative snapshots of one growing record, of which the i-th saw the first lens[i] latencies. */
  ghost predicate Snapshots(all: seq<Snap>, trace: seq<nat>, lens: seq<nat>) {
    |lens| == |all| && forall i :: 0 <= i < |all| ==> lens[i] <= |trace| && all[i].h == HistOf(trace[..lens[i]])
  }

  /** The whole pipeline: latencies bucketed in the kernel, snapshotted, pruned, subtracted and
      interpolated. The printed percentile lies in the power-of-two bucket of the true order
      statistic of the latencies recorded since the newest snapshot at least minAge old. */
  lemma WindowedPercentile(trace: seq<nat>, lens: seq<nat>, all: seq<Snap>, kept: seq<Snap>, now: Time, minAge: int,
                           r: Hist, b: nat, q: real, p: real, slot: Option<nat>, sorted: seq<nat>, k: nat)
    requires |trace| < U64 && Snapshots(all, trace, lens)
    requires IsWindow(r, HistOf(trace), now, minAge, all, kept, b) && lens[b] < |trace|
    requires IsPercentile(r, q, p, slot) && 0.0 < q
    requires Sorted(sorted) && multiset(sorted) == multiset(trace[lens[b]..]) && |sorted| == |trace| - lens[b]
    requires IsRank(q, |sorted|, k)
    ensures slot == Some(Slot(sorted[k - 1]))
    ensures Lo(Slot(sorted[k - 1])) < p <= Hi(Slot(sorted[k - 1]))
  {
    PercentileOfWindow(trace, lens[b], r, q, p, slot, sorted, k);
  }

  /** One window over a key that has been seen before. */
  method WindowOver(kept: seq<Snap>, snap: Snap, minAge: int, ghost past: Past)
    returns (r: Hist, samples: seq<Snap>, ghost b: nat)
    requires Kept(kept, past.all, minAge, past.drop) && |snap.h.slots| == SLOTS
    ensures Kept(samples, past.all + [snap], minAge, b)
    ensures Nondecreasing(past.all + [snap]) ==> IsWindow(r, snap.h, snap.at, minAge, past.all, samples, b)
  {
    var rest := Prune(kept, snap.at, minAge);
    b := PrunedBase(kept, rest, snap.at, minAge, past.all, past.drop);
    KeptNext(past.all, snap, minAge, b);
    assert rest[0] == past.all[b] && rest[0] in past.all;
    r := Sub(snap.h, rest[0].h);
    samples := rest + [snap];
  }

  class HistWindow {
    const minAge: int
    var keys: map<nat, seq<Snap>>
    var seen: set<nat>
    ghost var past: map<nat, Past>

    ghost predicate Valid()
      reads this
    {
      AllKept(keys, past, minAge) && seen <= keys.Keys
    }

    constructor (minAge: int)
      ensures Valid() && this.minAge == minAge && past == map[] && seen == {}
    {
      this.minAge := minAge;
      keys, seen, past := map[], {}, map[];
    }

    /** The samples recorded since the base snapshot. Where times do not go back, the base is the one
        that keeping every snapshot would give, and only one kept snapshot is that old. */
    method Window(key: nat, now: Time, cur: Hist) returns (r: Hist, ghost b: nat)
      requires Valid() && |cur.slots| == SLOTS
      modifies this
      ensures Valid() && seen == old(seen) + {key}
      ensures key in past && past == old(past)[key := past[key]]
      ensures past[key].all == (if key in old(past) then old(past)[key].all else []) + [Snap(now, cur)]
      ensures key !in old(past) ==> r == Empty()
      ensures key in old(past) && Nondecreasing(past[key].all) ==>
                IsWindow(r, cur, now, minAge, old(past)[key].all, keys[key], b)
    {
      seen := seen + {key};
      var snap := Snap(now, cur);
      if key !in keys {
        assert [] + [snap] == [snap];
        keys, past := keys[key := [snap]], past[key := Past([snap], 0)];
        return Empty(), 0;
      }
      var samples;
      r, samples, b := WindowOver(keys[key], snap, minAge, past[key]);
      keys, past := keys[key := samples], past[key := Past(past[key].all + [snap], b)];
    }

    /** Forgets the keys not seen since the previous sweep. */
    method Sweep()
      requires Valid()
      modifies this
      ensures Valid() && seen == {}
      ensures past.Keys == old(seen) && forall k :: k in past ==> past[k] == old(past)[k] && keys[k] == old(keys)[k]
    {
      var rest, left := keys, keys.Keys;
      while left != {}
        invariant left <= rest.Keys <= keys.Keys
        invariant forall k :: k in rest ==> rest[k] == keys[k] && (k in left || k in seen)
        invariant seen <= rest.Keys
        decreases left
      {
        var k :| k in left;
        left := left - {k};
        if k !in seen {
          rest := rest - {k};
        }
      }
      keys, past := rest, map k | k in past && k in seen :: past[k];
      seen := {};
    }
  }
}
