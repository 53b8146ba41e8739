/** Log2 latency histograms: filled in the kernel, subtracted and summarized in user space. */
module Histogram {
  import opened Units
  import opened Powers
  import opened Options

  const SLOTS := 27

  /** A cumulative histogram in microseconds. Counters are 64-bit and wrap. */
  datatype Hist = Hist(slots: seq<nat>, count: nat, sumUs: nat, maxUs: nat)

  function Zeros(n: nat): (s: seq<nat>)
    ensures |s| == n && forall i :: 0 <= i < n ==> s[i] == 0
  {
    if n == 0 then [] else Zeros(n - 1) + [0]
  }

  function Empty(): (h: Hist)
    ensures |h.slots| == SLOTS
  {
    Hist(Zeros(SLOTS), 0, 0, 0)
  }

  // ---------------------------------------------------------------- the kernel side

  /** The logarithm by five conditional shifts of a 64-bit value and one more. */
  method Log2l(us: nat) returns (r: nat)
    requires us < U64
    ensures r == Log2(us)
  {
    r := 0;
    var v: nat, i: nat := us, 32;
    Pow2At64();
    while i > 0
      invariant i in {0, 1, 2, 4, 8, 16, 32}
      invariant if i == 0 then v < 2 else v < Pow2(2 * i)
      invariant Log2(us) == r + Log2(v)
    {
      if v >= Pow2(i) {
        Log2Shift(v, i);
        Pow2Double(i);
        DivBelow(v, Pow2(i));
        v := v / Pow2(i);
        r := r + i;
      }
      i := i / 2;
    }
  }

  /** The slot a latency falls into; the last one takes everything above it, too. */
  function Slot(us: nat): (s: nat)
    ensures s < SLOTS
  {
    if Log2(us) < SLOTS then Log2(us) else SLOTS - 1
  }

  /** What a 64-bit counter holds after reaching x. */
  function Wrap(x: nat): nat {
    if x < U64 then x else x % U64
  }

  function Added(h: Hist, us: nat): Hist
    requires |h.slots| == SLOTS
  {
    Hist(h.slots[Slot(us) := Wrap(h.slots[Slot(us)] + 1)], Wrap(h.count + 1), Wrap(h.sumUs + us),
         if us > h.maxUs then us else h.maxUs)
  }

  /** The histogram of a sequence of latencies. */
  function HistOf(samples: seq<nat>): (h: Hist)
    ensures |h.slots| == SLOTS
  {
    if samples == [] then Empty() else Added(HistOf(samples[..|samples| - 1]), samples[|samples| - 1])
  }

  /** A histogram map of the kernel. */
  class HistMap {
    var hists: map<nat, Hist>

    ghost predicate Valid()
      reads this
    {
      forall k :: k in hists ==> |hists[k].slots| == SLOTS
    }

    ghost function At(key: nat): (h: Hist)
      reads this
      requires Valid()
      ensures |h.slots| == SLOTS
    {
      if key in hists then hists[key] else Empty()
    }

    constructor ()
      ensures Valid() && hists == map[]
    {
      hists := map[];
    }

    method Add(key: nat, us: nat)
      requires Valid() && us < U64
      modifies this
      ensures Valid() && hists == old(hists)[key := Added(old(At(key)), us)]
    {
      if key !in hists {
        hists := hists[key := Empty()];
      }
      var h := hists[key];
      var slot := Log2l(us);
      if slot >= SLOTS {
        slot := SLOTS - 1;
      }
      h := h.(slots := h.slots[slot := Wrap(h.slots[slot] + 1)]);
      h := h.(count := Wrap(h.count + 1));
      h := h.(sumUs := Wrap(h.sumUs + us));
      if us > h.maxUs {
        h := h.(maxUs := us);
      }
      hists := hists[key := h];
    }

    method Delete(key: nat)
      requires Valid()
      modifies this
      ensures Valid() && hists == old(hists) - {key}
    {
      hists := hists - {key};
    }
  }

  // ---------------------------------------------------------------- what a histogram records

  /** How many latencies fall below slot i. */
  ghost function Below(samples: seq<nat>, i: nat): nat {
    if samples == [] then 0
    else Below(samples[..|samples| - 1], i) + if Slot(samples[|samples| - 1]) < i then 1 else 0
  }

  ghost function Sum(samples: seq<nat>): nat {
    if samples == [] then 0 else Sum(samples[..|samples| - 1]) + samples[|samples| - 1]
  }

  ghost function Max(samples: seq<nat>): nat {
    if samples == [] then 0
    else
      var m := Max(samples[..|samples| - 1]);
      if samples[|samples| - 1] > m then samples[|samples| - 1] else m
  }

  lemma {:induction false} BelowBounds(samples: seq<nat>, i: nat, j: nat)
    requires i <= j
    ensures Below(samples, i) <= Below(samples, j) <= |samples|
    ensures Below(samples, 0) == 0 && (SLOTS <= i ==> Below(samples, i) == |samples|)
  {
    if samples != [] {
      BelowBounds(samples[..|samples| - 1], i, j);
    }
  }

  lemma {:induction false} MaxBounds(samples: seq<nat>)
    ensures forall s :: s in samples ==> s <= Max(samples)
    ensures samples != [] ==> Max(samples) in samples
  {
    if samples != [] {
      var init := samples[..|samples| - 1];
      MaxBounds(init);
      assert samples == init + [samples[|samples| - 1]];
    }
  }

  lemma {:induction false} SlotCounts(samples: seq<nat>, i: nat)
    requires |samples| < U64 && i < SLOTS
    ensures HistOf(samples).slots[i] == Below(samples, i + 1) - Below(samples, i)
  {
    if samples != [] {
      var init := samples[..|samples| - 1];
      SlotCounts(init, i);
      BelowBounds(init, i, i + 1);
    }
  }

  lemma {:induction false} CountTotal(samples: seq<nat>)
    requires |samples| < U64
    ensures HistOf(samples).count == |samples|
  {
    if samples != [] {
      CountTotal(samples[..|samples| - 1]);
    }
  }

  lemma {:induction false} SumTotal(samples: seq<nat>)
    ensures HistOf(samples).sumUs == Wrap(Sum(samples))
  {
    if samples != [] {
      var init := samples[..|samples| - 1];
      SumTotal(init);
      WrapAdd(Sum(init), samples[|samples| - 1]);
    }
  }

  lemma {:induction false} MaxTotal(samples: seq<nat>)
    ensures HistOf(samples).maxUs == Max(samples)
  {
    if samples != [] {
      MaxTotal(samples[..|samples| - 1]);
    }
  }

  lemma WrapAdd(a: nat, b: nat)
    ensures Wrap(Wrap(a) + b) == Wrap(a + b)
  {
    var q := a / U64;
    assert a == q * U64 + a % U64;
  }
}
