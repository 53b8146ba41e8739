/** Windowed subtraction and interpolated percentiles, and what they say of the raw latencies. */
module Percentiles {
  import opened Units
  import opened Powers
  import opened Options
  import opened Histogram

  // ---------------------------------------------------------------- subtraction

  /** Subtraction of 64-bit counters. */
  function Minus(a: nat, b: nat): nat {
    if b <= a then a - b else (a - b) % U64
  }

  /** The highest slot that is not empty, or -1. */
  function Top(slots: seq<nat>): (t: int)
    ensures -1 <= t < |slots|
    ensures 0 <= t ==> slots[t] > 0
    ensures forall i :: t < i < |slots| ==> slots[i] == 0
  {
    if slots == [] then -1
    else if slots[|slots| - 1] > 0 then |slots| - 1
    else Top(slots[..|slots| - 1])
  }

  /** The upper end of the given slot, or the overall maximum where that is lower. */
  function Estimate(top: nat, maxUs: nat): nat {
    var cap := Pow2(top + 1);
    var seen := if maxUs < 1 then 1 else maxUs;
    if cap < seen then cap else seen
  }

  /** The maximum of a window, estimated from its highest slot. */
  function MaxEstimate(slots: seq<nat>, maxUs: nat): nat {
    if Top(slots) < 0 then 0 else Estimate(Top(slots), maxUs)
  }

  /** The samples recorded between two snapshots: slot by slot, unless the counters were reset. */
  ghost predicate IsDifference(d: Hist, h: Hist, base: Hist)
    requires |h.slots| == SLOTS && |base.slots| == SLOTS
  {
    if h.count < base.count then d == h
    else
      && |d.slots| == SLOTS
      && (forall i :: 0 <= i < SLOTS ==> d.slots[i] == Minus(h.slots[i], base.slots[i]))
      && d.count == Minus(h.count, base.count)
      && d.sumUs == Minus(h.sumUs, base.sumUs)
      && d.maxUs == MaxEstimate(d.slots, h.maxUs)
  }

  method Sub(h: Hist, base: Hist) returns (d: Hist)
    requires |h.slots| == SLOTS && |base.slots| == SLOTS
    ensures IsDifference(d, h, base)
  {
    if h.count < base.count {
      return h;
    }
    var slots: seq<nat> := [];
    var top := -1;
    for i := 0 to SLOTS
      invariant |slots| == i
      invariant forall j :: 0 <= j < i ==> slots[j] == Minus(h.slots[j], base.slots[j])
      invariant top == Top(slots)
    {
      var n := Minus(h.slots[i], base.slots[i]);
      assert (slots + [n])[..i] == slots;
      slots := slots + [n];
      if n > 0 {
        top := i;
      }
    }
    d := Hist(slots, Minus(h.count, base.count), Minus(h.sumUs, base.sumUs), 0);
    if top >= 0 {
      d := d.(maxUs := Estimate(top, h.maxUs));
    }
  }

  // ---------------------------------------------------------------- subtraction is exact

  lemma {:induction false} BelowSplit(samples: seq<nat>, n: nat, i: nat)
    requires n <= |samples|
    ensures Below(samples, i) == Below(samples[..n], i) + Below(samples[n..], i)
  {
    var last := |samples| - 1;
    if n == |samples| {
      assert samples[..n] == samples;
    } else {
      BelowSplit(samples[..last], n, i);
      assert samples[..last][..n] == samples[..n] && samples[..last][n..] == samples[n..][..last - n];
    }
  }

  lemma {:induction false} SumSplit(samples: seq<nat>, n: nat)
    requires n <= |samples|
    ensures Sum(samples) == Sum(samples[..n]) + Sum(samples[n..])
  {
    var last := |samples| - 1;
    if n == |samples| {
      assert samples[..n] == samples;
    } else {
      SumSplit(samples[..last], n);
      assert samples[..last][..n] == samples[..n] && samples[..last][n..] == samples[n..][..last - n];
    }
  }

  /** Wrapped subtraction recovers a difference up to wrapping, even of counters that have wrapped. */
  lemma MinusWrap(s: nat, a: nat, b: nat)
    requires s == a + b
    ensures Minus(Wrap(s), Wrap(a)) == Wrap(b)
  {
    WrapIsMod(s);
    WrapIsMod(a);
    WrapIsMod(b);
    var k := b / U64 - s / U64 + a / U64;
    assert s % U64 - a % U64 == k * U64 + b % U64;
    assert k == 0 || k == -1;
  }

  lemma WrapIsMod(x: nat)
    ensures Wrap(x) == x % U64 && x == x / U64 * U64 + x % U64
  {
  }

  /** How many latencies fall into slot i. */
  ghost function InSlot(samples: seq<nat>, i: nat): int {
    Below(samples, i + 1) - Below(samples, i)
  }

  lemma InSlotSplit(samples: seq<nat>, n: nat, i: nat)
    requires n <= |samples|
    ensures InSlot(samples, i) == InSlot(samples[..n], i) + InSlot(samples[n..], i)
    ensures 0 <= InSlot(samples[..n], i) && 0 <= InSlot(samples[n..], i) && InSlot(samples, i) <= |samples|
  {
    BelowSplit(samples, n, i);
    BelowSplit(samples, n, i + 1);
    BelowBounds(samples[..n], i, i + 1);
    BelowBounds(samples[n..], i, i + 1);
    BelowBounds(samples, i, i + 1);
  }

  lemma SlotDifference(all: seq<nat>, n: nat, i: nat)
    requires n <= |all| < U64 && i < SLOTS
    ensures Minus(HistOf(all).slots[i], HistOf(all[..n]).slots[i]) == HistOf(all[n..]).slots[i]
  {
    InSlotSplit(all, n, i);
    SlotCounts(all, i);
    SlotCounts(all[..n], i);
    SlotCounts(all[n..], i);
  }

  lemma SumDifference(all: seq<nat>, n: nat)
    requires n <= |all|
    ensures Minus(HistOf(all).sumUs, HistOf(all[..n]).sumUs) == Wrap(Sum(all[n..]))
  {
    SumTotal(all);
    SumTotal(all[..n]);
    SumSplit(all, n);
    MinusWrap(Sum(all), Sum(all[..n]), Sum(all[n..]));
  }

  /** The difference of two snapshots of one growing record is, slot by slot, the histogram of
      precisely the samples recorded in between. */
  lemma DifferenceExact(all: seq<nat>, n: nat, d: Hist)
    requires n <= |all| < U64
    requires IsDifference(d, HistOf(all), HistOf(all[..n]))
    ensures d.slots == HistOf(all[n..]).slots
    ensures d.count == |all[n..]| && d.sumUs == Wrap(Sum(all[n..]))
    ensures d.maxUs == MaxEstimate(d.slots, Max(all))
  {
    CountTotal(all);
    CountTotal(all[..n]);
    SumDifference(all, n);
    MaxTotal(all);
    forall i | 0 <= i < SLOTS ensures d.slots[i] == HistOf(all[n..]).slots[i] {
      SlotDifference(all, n, i);
    }
  }

  /** After a reset the window is the whole new record. */
  lemma DifferenceAfterReset(before: seq<nat>, after: seq<nat>, d: Hist)
    requires |after| < |before| < U64 && IsDifference(d, HistOf(after), HistOf(before))
    ensures d.slots == HistOf(after).slots && d.count == |after|
    ensures d.sumUs == Wrap(Sum(after)) && d.maxUs == Max(after)
  {
    CountTotal(before);
    CountTotal(after);
    SumTotal(after);
    MaxTotal(after);
  }

  // ---------------------------------------------------------------- the estimated maximum

  lemma SlotMonotone(a: nat, b: nat)
    requires a <= b
    ensures Slot(a) <= Slot(b)
  {
    Log2Monotone(a, b);
  }

  /** A slot is nonempty exactly when some sample falls into it. */
  lemma {:induction false} SlotHit(samples: seq<nat>, i: nat)
    requires i < SLOTS
    ensures Below(samples, i + 1) > Below(samples, i) <==> exists s :: s in samples && Slot(s) == i
  {
    if samples != [] {
      var init := samples[..|samples| - 1];
      var last := samples[|samples| - 1];
      SlotHit(init, i);
      BelowBounds(init, i, i + 1);
      assert samples == init + [last];
      assert last in samples;
    }
  }

  lemma MaxSlotHit(w: seq<nat>)
    requires w != [] && |w| < U64
    ensures 0 < HistOf(w).slots[Slot(Max(w))]
  {
    MaxBounds(w);
    SampleHitsSlot(w, Max(w), Slot(Max(w)));
  }

  lemma SampleHitsSlot(w: seq<nat>, x: nat, i: nat)
    requires |w| < U64 && x in w && Slot(x) == i
    ensures 0 < HistOf(w).slots[i]
  {
    SlotCounts(w, i);
    SlotHit(w, i);
  }

  lemma EmptyAbove(w: seq<nat>, i: nat)
    requires |w| < U64 && Slot(Max(w)) < i < SLOTS
    ensures HistOf(w).slots[i] == 0
  {
    MaxBounds(w);
    forall s | s in w ensures Slot(s) < i {
      SlotMonotone(s, Max(w));
    }
    BelowAll(w, i);
    BelowBounds(w, i, i + 1);
    SlotCounts(w, i);
  }

  lemma TopIsMaxSlot(w: seq<nat>)
    requires w != [] && |w| < U64
    ensures Top(HistOf(w).slots) == Slot(Max(w))
  {
    MaxSlotHit(w);
    if Slot(Max(w)) < Top(HistOf(w).slots) {
      EmptyAbove(w, Top(HistOf(w).slots));
    }
  }

  lemma {:induction false} MaxOfSuffix(all: seq<nat>, n: nat)
    requires n <= |all|
    ensures Max(all[n..]) <= Max(all)
  {
    MaxBounds(all);
    MaxBounds(all[n..]);
    assert forall s :: s in all[n..] ==> s in all;
  }

  lemma EstimateBounds(m: nat, maxUs: nat)
    requires m <= maxUs
    ensures m <= Estimate(Slot(m), maxUs) <==> m <= Pow2(SLOTS)
    ensures 1 <= m ==> Estimate(Slot(m), maxUs) <= 2 * m
  {
    Log2Bounds(m);
    if Log2(m) < SLOTS {
      Pow2Monotone(Log2(m) + 1, SLOTS);
    } else {
      Pow2Monotone(SLOTS, Log2(m));
    }
  }

  /** The windowed maximum is never below the true one exactly when that fits the slots, and is at
      most twice it. */
  lemma MaxEstimateBounds(all: seq<nat>, n: nat, d: Hist)
    requires n < |all| < U64 && IsDifference(d, HistOf(all), HistOf(all[..n]))
    ensures Max(all[n..]) <= d.maxUs <==> Max(all[n..]) <= Pow2(SLOTS)
    ensures 1 <= Max(all[n..]) ==> d.maxUs <= 2 * Max(all[n..])
  {
    DifferenceExact(all, n, d);
    TopIsMaxSlot(all[n..]);
    MaxOfSuffix(all, n);
    EstimateBounds(Max(all[n..]), Max(all));
  }

  // ---------------------------------------------------------------- percentiles

  /** The total of the slots below i. */
  ghost function Cum(slots: seq<nat>, i: nat): nat
    requires i <= |slots|
  {
    if i == 0 then 0 else Cum(slots, i - 1) + slots[i - 1]
  }

  function Lo(i: nat): real {
    if i == 0 then 0.0 else Pow2(i) as real
  }

  function Hi(i: nat): real {
    Pow2(i + 1) as real
  }

  /** Linear interpolation inside slot i, which holds n samples after `cum` earlier ones. */
  function Interpolate(i: nat, n: nat, cum: nat, rank: real): real
    requires n > 0
  {
    Lo(i) + (Hi(i) - Lo(i)) * (rank - cum as real) / n as real
  }

  /** The rank q·n, as n steps of q. */
  ghost function Rank(q: real, n: nat): real {
    if n == 0 then 0.0 else Rank(q, n - 1) + q
  }

  lemma {:induction false} RankIsProduct(q: real, n: nat)
    ensures Rank(q, n) == q * n as real
  {
    if n > 0 {
      RankIsProduct(q, n - 1);
      assert q * n as real == q * (n - 1) as real + q;
    }
  }

  /** Slot i is the first nonempty one at which the running total reaches the rank. */
  ghost predicate LandsAt(slots: seq<nat>, i: nat, rank: real) {
    && i < |slots| && slots[i] > 0 && rank <= Cum(slots, i + 1) as real
    && forall j :: 0 <= j < i && slots[j] > 0 ==> (Cum(slots, j + 1) as real) < rank
  }

  ghost predicate Lands(slots: seq<nat>, rank: real) {
    exists i: nat :: LandsAt(slots, i, rank)
  }

  /** What the q-th percentile of a histogram is: 0 without samples, else interpolated in the slot
      where its rank lands, else the end of the last slot. */
  ghost predicate IsPercentile(h: Hist, q: real, p: real, slot: Option<nat>) {
    if h.count == 0 then p == 0.0
    else IsAtRank(h.slots, Rank(q, h.count), p, slot)
  }

  ghost predicate IsAtRank(slots: seq<nat>, rank: real, p: real, slot: Option<nat>) {
    match slot
    case Some(i) => LandsAt(slots, i, rank) && p == Interpolate(i, slots[i], Cum(slots, i), rank)
    case None => !Lands(slots, rank) && p == Pow2(SLOTS) as real
  }

  /** What the printed number is, without naming the slot. */
  ghost predicate Prints(h: Hist, q: real, p: real) {
    exists slot :: IsPercentile(h, q, p, slot)
  }

  lemma LandsOnce(slots: seq<nat>, i: nat, j: nat, rank: real)
    requires LandsAt(slots, i, rank) && LandsAt(slots, j, rank)
    ensures i == j
  {
  }

  /** No slot below i reaches the rank. */
  ghost predicate Passed(slots: seq<nat>, i: nat, rank: real) {
    i <= |slots| && forall j :: 0 <= j < i && slots[j] > 0 ==> (Cum(slots, j + 1) as real) < rank
  }

  method Percentile(h: Hist, q: real) returns (p: real, ghost slot: Option<nat>)
    requires |h.slots| == SLOTS
    ensures Prints(h, q, p) && IsPercentile(h, q, p, slot)
  {
    if h.count == 0 {
      assert IsPercentile(h, q, 0.0, None);
      return 0.0, None;
    }
    var rank := ComputeRank(q, h.count);
    p, slot := AtRank(h.slots, rank);
    assert IsPercentile(h, q, p, slot);
  }

  /** A histogram and a quantile decide the number. */
  lemma PrintsOnce(h: Hist, q: real, p: real, p': real)
    requires Prints(h, q, p) && Prints(h, q, p')
    ensures p == p'
  {
    var slot, slot' :| IsPercentile(h, q, p, slot) && IsPercentile(h, q, p', slot');
    if h.count != 0 && slot.Some? && slot'.Some? {
      LandsOnce(h.slots, slot.value, slot'.value, Rank(q, h.count));
    }
  }

  method ComputeRank(q: real, n: nat) returns (rank: real)
    ensures rank == Rank(q, n)
  {
    RankIsProduct(q, n);
    rank := q * n as real;
  }

  /** The walk over the slots, for a given rank. */
  method AtRank(slots: seq<nat>, rank: real) returns (p: real, ghost slot: Option<nat>)
    requires |slots| == SLOTS
    ensures IsAtRank(slots, rank, p, slot)
  {
    var cum: nat := 0;
    for i := 0 to SLOTS
      invariant cum == Cum(slots, i) && Passed(slots, i, rank)
    {
      var n := slots[i];
      if n != 0 {
        if (cum + n) as real >= rank {
          return Interpolate(i, n, cum, rank), Some(i);
        }
        cum := cum + n;
      }
    }
    return Pow2(SLOTS) as real, None;
  }

  // ---------------------------------------------------------------- where a rank lands

  lemma {:induction false} CumMonotone(slots: seq<nat>, i: nat, j: nat)
    requires i <= j <= |slots|
    ensures Cum(slots, i) <= Cum(slots, j)
  {
    if i < j {
      CumMonotone(slots, i, j - 1);
    }
  }

  /** A rank lands in slot i exactly when it lies in that slot's share of the total. */
  lemma LandsInShare(slots: seq<nat>, i: nat, rank: real)
    requires 0.0 < rank && i < |slots|
    ensures LandsAt(slots, i, rank) <==> Cum(slots, i) as real < rank <= Cum(slots, i + 1) as real
  {
    if LandsAt(slots, i, rank) {
      ShareBelow(slots, i, rank);
    } else if Cum(slots, i) as real < rank <= Cum(slots, i + 1) as real {
      forall j | 0 <= j < i && slots[j] > 0 ensures (Cum(slots, j + 1) as real) < rank {
        CumMonotone(slots, j + 1, i);
      }
    }
  }

  lemma {:induction false} ShareBelow(slots: seq<nat>, i: nat, rank: real)
    requires 0.0 < rank && i <= |slots|
    requires forall j :: 0 <= j < i && slots[j] > 0 ==> (Cum(slots, j + 1) as real) < rank
    ensures Cum(slots, i) as real < rank
  {
    if i > 0 {
      ShareBelow(slots, i - 1, rank);
    }
  }

  lemma {:induction false} FindShare(slots: seq<nat>, n: nat, rank: real) returns (i: nat)
    requires 0.0 < rank && n <= |slots| && rank <= Cum(slots, n) as real
    ensures i < n && Cum(slots, i) as real < rank <= Cum(slots, i + 1) as real
  {
    if Cum(slots, n - 1) as real < rank {
      i := n - 1;
    } else {
      i := FindShare(slots, n - 1, rank);
    }
  }

  /** The count of a histogram is the total of its slots. */
  ghost predicate Consistent(h: Hist) {
    |h.slots| == SLOTS && h.count == Cum(h.slots, SLOTS)
  }

  lemma {:induction false} RankPositive(q: real, n: nat)
    requires 0.0 < q && 0 < n
    ensures 0.0 < Rank(q, n)
    ensures Rank(q, n) <= n as real <==> q <= 1.0
  {
    if n > 1 {
      RankPositive(q, n - 1);
    }
  }

  lemma {:induction false} RankMonotone(q: real, q': real, n: nat)
    requires q <= q'
    ensures Rank(q, n) <= Rank(q', n)
  {
    if n > 0 {
      RankMonotone(q, q', n - 1);
    }
  }

  /** The fall-through return is taken exactly for quantiles above 1. */
  lemma FallsThroughIff(h: Hist, q: real)
    requires Consistent(h) && 0 < h.count && 0.0 < q
    ensures Lands(h.slots, Rank(q, h.count)) <==> q <= 1.0
  {
    var rank := Rank(q, h.count);
    RankPositive(q, h.count);
    if q <= 1.0 {
      var i := FindShare(h.slots, SLOTS, rank);
      LandsInShare(h.slots, i, rank);
    } else {
      forall i: nat ensures !LandsAt(h.slots, i, rank) {
        if i < SLOTS {
          CumMonotone(h.slots, i + 1, SLOTS);
        }
      }
    }
  }

  // ---------------------------------------------------------------- bounds of the interpolation

  lemma Fraction(width: real, x: real, n: real)
    requires 0.0 < width && 0.0 < x <= n
    ensures 0.0 < width * x / n <= width
  {
    var y := x / n;
    assert y * n == x;
    assert 0.0 < y <= 1.0;
    assert width * x / n == width * y;
    assert width * y <= width * 1.0;
  }

  lemma InterpolateBounds(i: nat, n: nat, cum: nat, rank: real)
    requires n > 0 && cum as real < rank <= (cum + n) as real
    ensures Lo(i) < Interpolate(i, n, cum, rank) <= Hi(i)
  {
    Pow2Positive(i);
    Fraction(Hi(i) - Lo(i), rank - cum as real, n as real);
  }

  /** A step of dp for a step of dr in rank: n samples share a width evenly. */
  ghost predicate Evenly(dp: real, dr: real, n: real, width: real) {
    dp * n == width * dr
  }

  lemma InterpolateEvenly(i: nat, n: nat, cum: nat, r: real, s: real)
    requires n > 0
    ensures Evenly(Interpolate(i, n, cum, s) - Interpolate(i, n, cum, r), s - r, n as real, Hi(i) - Lo(i))
  {
    Quotients(Hi(i) - Lo(i), r - cum as real, s - cum as real, n as real);
  }

  lemma Quotients(width: real, x: real, y: real, n: real)
    requires n != 0.0
    ensures (width * y / n - width * x / n) * n == width * (y - x)
  {
    var a, b := width * x / n, width * y / n;
    assert a * n == width * x && b * n == width * y;
    assert (b - a) * n == b * n - a * n;
    assert width * (y - x) == width * y - width * x;
  }

  /** Inside a slot the percentile grows evenly with the rank: each sample of the slot takes the same
      part of its range. */
  lemma EvenInSlot(slots: seq<nat>, i: nat, r: real, s: real, p: real, p': real)
    requires IsAtRank(slots, r, p, Some(i)) && IsAtRank(slots, s, p', Some(i))
    ensures Evenly(p' - p, s - r, slots[i] as real, Hi(i) - Lo(i))
  {
    InterpolateEvenly(i, slots[i], Cum(slots, i), r, s);
  }

  lemma LandsAtSlotEnd(slots: seq<nat>, i: nat, p: real, slot: Option<nat>)
    requires i < |slots| && slots[i] > 0 && IsAtRank(slots, Cum(slots, i + 1) as real, p, slot)
    ensures slot == Some(i)
  {
    var rank := Cum(slots, i + 1) as real;
    LandsInShare(slots, i, rank);
    assert LandsAt(slots, i, rank);
    if slot.Some? {
      LandsOnce(slots, slot.value, i, rank);
    }
  }

  lemma InterpolateEnd(i: nat, n: nat, cum: nat)
    requires n > 0
    ensures Interpolate(i, n, cum, (cum + n) as real) == Hi(i)
  {
    assert (cum + n) as real - cum as real == n as real;
    WholeQuotient(Hi(i) - Lo(i), n as real);
  }

  lemma WholeQuotient(width: real, n: real)
    requires n != 0.0
    ensures width * n / n == width
  {
    var a := width * n / n;
    assert a * n == width * n;
  }

  /** At the last sample of a slot the percentile is the end of the slot's range. */
  lemma SlotEnds(slots: seq<nat>, i: nat, p: real, slot: Option<nat>)
    requires i < |slots| && slots[i] > 0 && IsAtRank(slots, Cum(slots, i + 1) as real, p, slot)
    ensures p == Hi(i)
  {
    LandsAtSlotEnd(slots, i, p, slot);
    InterpolateEnd(i, slots[i], Cum(slots, i));
  }

  /** The same of what is printed: two quantiles in one slot, and a quantile at its end. */
  lemma PrintedEvenly(h: Hist, q: real, q': real, p: real, p': real, i: nat)
    requires 0 < h.count && IsPercentile(h, q, p, Some(i)) && IsPercentile(h, q', p', Some(i))
    ensures Evenly(p' - p, Rank(q', h.count) - Rank(q, h.count), h.slots[i] as real, Hi(i) - Lo(i))
  {
    EvenInSlot(h.slots, i, Rank(q, h.count), Rank(q', h.count), p, p');
  }

  lemma PrintedAtSlotEnd(h: Hist, q: real, p: real, i: nat)
    requires 0 < h.count && i < |h.slots| && h.slots[i] > 0 && Prints(h, q, p) && Rank(q, h.count) == Cum(h.slots, i + 1) as real
    ensures p == Hi(i)
  {
    var slot :| IsPercentile(h, q, p, slot);
    SlotEnds(h.slots, i, p, slot);
  }

  /** Without samples nothing but 0 is printed, and a quantile above 1 prints the end of all slots. */
  lemma PrintedAtTheEnds(h: Hist, q: real, p: real)
    requires Prints(h, q, p) && |h.slots| == SLOTS
    ensures h.count == 0 ==> p == 0.0
    ensures Consistent(h) && 0 < h.count && 1.0 < q ==> p == Pow2(27) as real
  {
    if Consistent(h) && 0 < h.count && 1.0 < q {
      FallsThroughIff(h, q);
    }
  }

  // ---------------------------------------------------------------- order statistics

  ghost predicate Sorted(s: seq<nat>) {
    forall i, j :: 0 <= i < j < |s| ==> s[i] <= s[j]
  }

  lemma {:induction false} CumIsBelow(w: seq<nat>, i: nat)
    requires |w| < U64 && i <= SLOTS
    ensures Cum(HistOf(w).slots, i) == Below(w, i)
  {
    if i == 0 {
      BelowBounds(w, 0, 0);
    } else {
      CumIsBelow(w, i - 1);
      SlotCounts(w, i - 1);
    }
  }

  /** The count of a recorded histogram is its slot total. */
  lemma RecordedIsConsistent(w: seq<nat>)
    requires |w| < U64
    ensures Consistent(HistOf(w)) && HistOf(w).count == |w|
  {
    CountTotal(w);
    CumIsBelow(w, SLOTS);
    BelowBounds(w, SLOTS, SLOTS);
  }

  lemma {:induction false} BelowAll(s: seq<nat>, i: nat)
    requires forall x :: x in s ==> Slot(x) < i
    ensures Below(s, i) == |s|
  {
    if s != [] {
      BelowAll(s[..|s| - 1], i);
    }
  }

  lemma {:induction false} BelowNone(s: seq<nat>, i: nat)
    requires forall x :: x in s ==> i <= Slot(x)
    ensures Below(s, i) == 0
  {
    if s != [] {
      BelowNone(s[..|s| - 1], i);
    }
  }

  /** In a sorted record, element k is preceded by exactly the right number of lower slots. */
  lemma SortedShare(s: seq<nat>, k: nat)
    requires Sorted(s) && k < |s|
    ensures Below(s, Slot(s[k])) <= k < Below(s, Slot(s[k]) + 1)
  {
    var i := Slot(s[k]);
    forall x | x in s[k..] ensures i <= Slot(x) {
      SlotMonotone(s[k], x);
    }
    BelowNone(s[k..], i);
    BelowSplit(s, k, i);
    BelowBounds(s[..k], i, i);
    forall x | x in s[..k + 1] ensures Slot(x) < i + 1 {
      SlotMonotone(x, s[k]);
    }
    BelowAll(s[..k + 1], i + 1);
    BelowSplit(s, k + 1, i + 1);
  }

  lemma BelowOne(x: nat, i: nat)
    ensures Below([x], i) == if Slot(x) < i then 1 else 0
  {
    assert [x][..0] == [];
  }

  /** A sequence without its element j. */
  ghost function Without(b: seq<nat>, j: nat): seq<nat>
    requires j < |b|
  {
    b[..j] + b[j + 1..]
  }

  lemma BelowWithout(b: seq<nat>, j: nat, i: nat)
    requires j < |b|
    ensures Below(b, i) == Below(Without(b, j), i) + if Slot(b[j]) < i then 1 else 0
  {
    var rest := Without(b, j);
    BelowSplit(b, j, i);
    BelowSplit(b[j..], 1, i);
    BelowSplit(rest, j, i);
    assert b[j..][..1] == [b[j]] && b[j..][1..] == b[j + 1..];
    assert rest[..j] == b[..j] && rest[j..] == b[j + 1..];
    BelowOne(b[j], i);
  }

  lemma MultisetWithout(b: seq<nat>, j: nat)
    requires j < |b|
    ensures multiset(Without(b, j)) == multiset(b) - multiset{b[j]}
  {
    assert b == b[..j] + [b[j]] + b[j + 1..];
  }

  /** Counting below a slot does not depend on the order. */
  lemma {:induction false} BelowPermutes(a: seq<nat>, b: seq<nat>, i: nat)
    requires multiset(a) == multiset(b)
    ensures Below(a, i) == Below(b, i)
  {
    if a == [] {
      assert |multiset(b)| == 0;
    } else {
      var n := |a| - 1;
      assert a[n] in multiset(b);
      var j :| 0 <= j < |b| && b[j] == a[n];
      MultisetWithout(a, n);
      MultisetWithout(b, j);
      assert Without(a, n) == a[..n];
      BelowPermutes(a[..n], Without(b, j), i);
      BelowWithout(b, j, i);
    }
  }

  /** k is the rank q·n rounded up. */
  ghost predicate IsRank(q: real, n: nat, k: nat) {
    1 <= k <= n && (k - 1) as real < Rank(q, n) <= k as real
  }

  /** Every quantile in (0, 1] of a record has such a k. */
  lemma RankExists(q: real, n: nat) returns (k: nat)
    requires 0.0 < q <= 1.0 && 1 <= n
    ensures IsRank(q, n, k)
  {
    RankPositive(q, n);
    var rank := Rank(q, n);
    k := if rank.Floor as real == rank then rank.Floor else rank.Floor + 1;
  }

  /** The rank of a quantile lands in the slot of the true order statistic. */
  lemma RankLandsAtOrderStatistic(w: seq<nat>, sorted: seq<nat>, q: real, k: nat)
    requires |w| < U64 && Sorted(sorted) && multiset(sorted) == multiset(w)
    requires 0.0 < q && |sorted| == |w| && IsRank(q, |w|, k)
    ensures LandsAt(HistOf(w).slots, Slot(sorted[k - 1]), Rank(q, |w|))
  {
    var i := Slot(sorted[k - 1]);
    RankPositive(q, |w|);
    SortedShare(sorted, k - 1);
    BelowPermutes(sorted, w, i);
    BelowPermutes(sorted, w, i + 1);
    CumIsBelow(w, i);
    CumIsBelow(w, i + 1);
    LandsInShare(HistOf(w).slots, i, Rank(q, |w|));
  }

  // ---------------------------------------------------------------- end to end

  /** A value interpolated in slot i lies in that slot's range. */
  lemma AtRankBounds(slots: seq<nat>, rank: real, i: nat)
    requires 0.0 < rank && LandsAt(slots, i, rank)
    ensures Lo(i) < Interpolate(i, slots[i], Cum(slots, i), rank) <= Hi(i)
  {
    LandsInShare(slots, i, rank);
    InterpolateBounds(i, slots[i], Cum(slots, i), rank);
  }

  /** A histogram that has the slots and the count of a record. */
  ghost predicate IsOf(h: Hist, w: seq<nat>) {
    h.slots == HistOf(w).slots && h.count == |w|
  }

  /** The percentile of a histogram of w lies in the bucket of the true order statistic of w. */
  lemma PercentileOfRecord(h: Hist, w: seq<nat>, q: real, p: real, slot: Option<nat>, sorted: seq<nat>, k: nat)
    requires |w| < U64 && IsOf(h, w) && IsPercentile(h, q, p, slot)
    requires 0.0 < q && Sorted(sorted) && multiset(sorted) == multiset(w)
    requires |sorted| == |w| && IsRank(q, |w|, k)
    ensures slot == Some(Slot(sorted[k - 1]))
    ensures Lo(Slot(sorted[k - 1])) < p <= Hi(Slot(sorted[k - 1]))
  {
    var rank := Rank(q, h.count);
    RankLandsAtOrderStatistic(w, sorted, q, k);
    assert Lands(h.slots, rank);
    RankPositive(q, |w|);
    LandsOnce(h.slots, slot.value, Slot(sorted[k - 1]), rank);
    AtRankBounds(h.slots, rank, slot.value);
  }

  /** End to end: whatever was recorded before, the percentile of the window since snapshot n lies
      in the power-of-two bucket of the true order statistic of the samples recorded since, and the
      fall-through return is never taken. */
  lemma PercentileOfWindow(all: seq<nat>, n: nat, d: Hist, q: real, p: real, slot: Option<nat>, sorted: seq<nat>, k: nat)
    requires n < |all| < U64 && IsDifference(d, HistOf(all), HistOf(all[..n])) && IsPercentile(d, q, p, slot)
    requires 0.0 < q && Sorted(sorted) && multiset(sorted) == multiset(all[n..])
    requires |sorted| == |all[n..]| && IsRank(q, |sorted|, k)
    ensures slot == Some(Slot(sorted[k - 1]))
    ensures Lo(Slot(sorted[k - 1])) < p <= Hi(Slot(sorted[k - 1]))
  {
    DifferenceExact(all, n, d);
    PercentileOfRecord(d, all[n..], q, p, slot, sorted, k);
  }

  /** Hence it is within a factor of two of an order statistic that fits the slots. */
  lemma PercentileWithinTwo(all: seq<nat>, n: nat, d: Hist, q: real, p: real, slot: Option<nat>, sorted: seq<nat>, k: nat)
    requires n < |all| < U64 && IsDifference(d, HistOf(all), HistOf(all[..n])) && IsPercentile(d, q, p, slot)
    requires 0.0 < q && Sorted(sorted) && multiset(sorted) == multiset(all[n..])
    requires |sorted| == |all[n..]| && IsRank(q, |sorted|, k) && 2 <= sorted[k - 1] <= Pow2(SLOTS)
    ensures sorted[k - 1] as real < 2.0 * p && p <= 2.0 * sorted[k - 1] as real
  {
    var x := sorted[k - 1];
    PercentileOfWindow(all, n, d, q, p, slot, sorted, k);
    Log2Bounds(x);
    if SLOTS <= Log2(x) {
      Pow2Monotone(SLOTS, Log2(x));
      assert Pow2(SLOTS) == 2 * Pow2(SLOTS - 1);
    } else {
      assert Pow2(Log2(x) + 1) == 2 * Pow2(Log2(x));
    }
  }

  /** The window `all[n..]` with quantile q prints p, and x is the true order statistic. */
  ghost predicate PrintsFor(all: seq<nat>, n: nat, q: real, p: real, x: nat) {
    && n < |all| < U64 && 0.0 < q <= 1.0
    && (exists d :: IsDifference(d, HistOf(all), HistOf(all[..n])) && Prints(d, q, p))
    && (exists sorted, k :: IsOrderStatistic(all[n..], q, sorted, k) && sorted[k - 1] == x)
  }

  /** The k-th of the sorted record is its q-th order statistic. */
  ghost predicate IsOrderStatistic(w: seq<nat>, q: real, sorted: seq<nat>, k: nat) {
    Sorted(sorted) && multiset(sorted) == multiset(w) && |sorted| == |w| && IsRank(q, |sorted|, k)
  }

  ghost predicate WithinTwo(p: real, x: nat) {
    x as real < 2.0 * p && p <= 2.0 * x as real
  }

  lemma PrintsWithinTwo(all: seq<nat>, n: nat, q: real, p: real, x: nat)
    requires PrintsFor(all, n, q, p, x) && 2 <= x <= Pow2(SLOTS)
    ensures WithinTwo(p, x)
  {
    var d :| IsDifference(d, HistOf(all), HistOf(all[..n])) && Prints(d, q, p);
    var slot :| IsPercentile(d, q, p, slot);
    var sorted, k :| IsOrderStatistic(all[n..], q, sorted, k) && sorted[k - 1] == x;
    PercentileWithinTwo(all, n, d, q, p, slot, sorted, k);
  }

  /** The window of one latency prints a value interpolated by the quantile alone. */
  lemma OneSamplePrints(x: nat, q: real)
    requires 0.0 < q <= 1.0
    ensures PrintsFor([x], 0, q, Interpolate(Slot(x), 1, 0, q), x)
  {
    var w, i := [x], Slot(x);
    OneSampleHist(x);
    var d := OneSampleDifference(x);
    assert Rank(q, 1) == Rank(q, 0) + q;
    assert w[0..] == w;
    assert IsOrderStatistic(w, q, w, 1) && w[1 - 1] == x;
    RankLandsAtOrderStatistic(w, w, q, 1);
    assert IsPercentile(d, q, Interpolate(i, 1, 0, q), Some(i));
  }

  lemma OneSampleHist(x: nat)
    ensures HistOf([x]).slots[Slot(x)] == 1 && Cum(HistOf([x]).slots, Slot(x)) == 0 && HistOf([x]).count == 1
  {
    CountTotal([x]);
    SlotCounts([x], Slot(x));
    BelowOne(x, Slot(x));
    BelowOne(x, Slot(x) + 1);
    CumIsBelow([x], Slot(x));
  }

  lemma OneSampleDifference(x: nat) returns (d: Hist)
    ensures IsDifference(d, HistOf([x]), HistOf([x][..0]))
    ensures d.slots == HistOf([x]).slots && d.count == HistOf([x]).count
  {
    assert [x][..0] == [];
    var h := HistOf([x]);
    d := h.(maxUs := MaxEstimate(h.slots, h.maxUs));
  }

  /** Below 2 µs the largest or the smallest quantile prints a value that is off by more. */
  lemma SmallNotWithinTwo(x: nat) returns (q: real, p: real)
    requires x < 2
    ensures PrintsFor([x], 0, q, p, x) && !WithinTwo(p, x)
  {
    q := if x == 0 then 1.0 else 0.25;
    p := Interpolate(0, 1, 0, q);
    assert Slot(x) == 0 && Hi(0) == 2.0;
    assert p == 2.0 * q;
    OneSamplePrints(x, q);
  }

  /** Above 2^27 µs a small enough quantile prints a value that is too low. */
  lemma LargeNotWithinTwo(x: nat) returns (q: real, p: real)
    requires Pow2(SLOTS) < x
    ensures PrintsFor([x], 0, q, p, x) && !WithinTwo(p, x)
  {
    q, p := TooLow(x);
    LastSlot(x);
    OneSamplePrints(x, q);
  }

  lemma TooLow(x: nat) returns (q: real, p: real)
    requires Pow2(SLOTS) < x
    ensures 0.0 < q <= 1.0 && p == Interpolate(SLOTS - 1, 1, 0, q) && !WithinTwo(p, x)
  {
    Pow2Positive(SLOTS - 1);
    assert Pow2(SLOTS) == 2 * Pow2(SLOTS - 1);
    q := SmallQuantile(Pow2(SLOTS - 1) as real, x as real);
    LastSlotPrints(q);
    p := Interpolate(SLOTS - 1, 1, 0, q);
  }

  lemma SmallQuantile(top: real, x: real) returns (q: real)
    requires 0.0 < top && 2.0 * top < x
    ensures 0.0 < q <= 1.0 && 2.0 * (top + top * q) <= x
  {
    var over := x / (2.0 * top) - 1.0;
    assert over * (2.0 * top) == x - 2.0 * top;
    assert 0.0 < over;
    q := if over < 1.0 then over else 1.0;
    assert top * q <= top * over;
  }

  lemma LastSlotPrints(q: real)
    ensures var top := Pow2(SLOTS - 1) as real;
            Interpolate(SLOTS - 1, 1, 0, q) == top + top * q
  {
    assert Pow2(SLOTS) == 2 * Pow2(SLOTS - 1);
  }

  lemma LastSlot(x: nat)
    requires Pow2(SLOTS) <= x
    ensures Slot(x) == SLOTS - 1
  {
    Log2Bounds(x);
    if Log2(x) < SLOTS {
      Pow2Monotone(Log2(x) + 1, SLOTS);
    }
  }

  /** The printed percentile is within a factor of two of an order statistic x, for every window and
      every quantile that has it, exactly when 2 <= x <= 2^27. */
  lemma WithinTwoIff(x: nat)
    ensures (forall all, n, q, p :: PrintsFor(all, n, q, p, x) ==> WithinTwo(p, x)) <==> 2 <= x <= Pow2(SLOTS)
  {
    if 2 <= x <= Pow2(SLOTS) {
      forall all, n, q, p | PrintsFor(all, n, q, p, x) ensures WithinTwo(p, x) {
        PrintsWithinTwo(all, n, q, p, x);
      }
    } else if x < 2 {
      var q, p := SmallNotWithinTwo(x);
    } else {
      var q, p := LargeNotWithinTwo(x);
    }
  }

  /** Above that the printed percentile is stuck at the end of the last slot. */
  lemma PercentileSaturates(all: seq<nat>, n: nat, d: Hist, q: real, p: real, slot: Option<nat>, sorted: seq<nat>, k: nat)
    requires n < |all| < U64 && IsDifference(d, HistOf(all), HistOf(all[..n])) && IsPercentile(d, q, p, slot)
    requires 0.0 < q && Sorted(sorted) && multiset(sorted) == multiset(all[n..])
    requires |sorted| == |all[n..]| && IsRank(q, |sorted|, k) && Pow2(SLOTS) <= sorted[k - 1]
    ensures p <= Pow2(SLOTS) as real <= sorted[k - 1] as real
    ensures 2 * Pow2(SLOTS) < sorted[k - 1] ==> 2.0 * p < sorted[k - 1] as real
  {
    PercentileOfWindow(all, n, d, q, p, slot, sorted, k);
    Log2Bounds(sorted[k - 1]);
    if Log2(sorted[k - 1]) < SLOTS {
      Pow2Monotone(Log2(sorted[k - 1]) + 1, SLOTS);
    }
  }

  // ---------------------------------------------------------------- monotone in the quantile

  lemma LandingsInOrder(slots: seq<nat>, i: nat, j: nat, r: real, s: real)
    requires 0.0 < r <= s && LandsAt(slots, i, r) && LandsAt(slots, j, s)
    ensures i <= j
  {
  }

  lemma InterpolateMonotone(i: nat, n: nat, cum: nat, r: real, s: real)
    requires n > 0 && r <= s
    ensures Interpolate(i, n, cum, r) <= Interpolate(i, n, cum, s)
  {
    Pow2Positive(i);
    var width := Hi(i) - Lo(i);
    var x, y, m := r - cum as real, s - cum as real, n as real;
    assert width * x <= width * y;
    DivideMonotone(width * x, width * y, m);
  }

  lemma DivideMonotone(a: real, b: real, m: real)
    requires a <= b && 0.0 < m
    ensures a / m <= b / m
  {
    var x, y := a / m, b / m;
    assert x * m == a && y * m == b;
  }

  lemma AtRankMonotone(slots: seq<nat>, r: real, s: real, i: nat, j: nat)
    requires 0.0 < r <= s && LandsAt(slots, i, r) && LandsAt(slots, j, s)
    ensures Interpolate(i, slots[i], Cum(slots, i), r) <= Interpolate(j, slots[j], Cum(slots, j), s)
  {
    LandingsInOrder(slots, i, j, r, s);
    if i == j {
      InterpolateMonotone(i, slots[i], Cum(slots, i), r, s);
    } else {
      AtRankBounds(slots, r, i);
      AtRankBounds(slots, s, j);
      Pow2Monotone(i + 1, j);
    }
  }

  /** A higher quantile never prints a lower percentile. */
  lemma PercentileMonotone(h: Hist, q: real, q': real, p: real, p': real, slot: Option<nat>, slot': Option<nat>)
    requires Consistent(h) && 0 < h.count && 0.0 < q <= q' <= 1.0
    requires IsPercentile(h, q, p, slot) && IsPercentile(h, q', p', slot')
    ensures p <= p'
  {
    FallsThroughIff(h, q);
    FallsThroughIff(h, q');
    RankPositive(q, h.count);
    RankMonotone(q, q', h.count);
    AtRankMonotone(h.slots, Rank(q, h.count), Rank(q', h.count), slot.value, slot'.value);
  }
}
