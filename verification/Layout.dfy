/** Column widths of a table: hide the least important columns until the rest fits, then share out the
    spare cells by weight. */
module Layout {

  /** A column. Fixed ones have a width; flexible ones (flex > 0) share the remaining space between
      min and max cells (max 0: no limit). Columns with prio 0 are never hidden. */
  datatype Column = Column(title: string, width: int, right: bool, prio: int, flex: int, min: int, max: int)

  /** Weights and limits are not negative. */
  ghost predicate Limited(cols: seq<Column>) {
    forall c :: c in cols ==> 0 <= c.flex && 0 <= c.max
  }

  /** Nor are the minimums of flexible columns, as in every table of the program. */
  ghost predicate WellFormed(cols: seq<Column>) {
    Limited(cols) && forall c :: c in cols && 0 < c.flex ==> 0 <= c.min
  }

  // ---------------------------------------------------------------- space needed

  function Cost(c: Column): int {
    if c.flex > 0 && c.min >= 0 then c.min + 1
    else if c.width > 0 then c.width + 1
    else 0
  }

  /** The cells needed at the least, with one separator per column. */
  function NeedOf(cols: seq<Column>): int {
    if cols == [] then 0 else NeedOf(cols[..|cols| - 1]) + Cost(cols[|cols| - 1])
  }

  predicate Visible(c: Column) {
    c.width > 0 || (c.flex > 0 && c.min >= 0)
  }

  predicate Hideable(c: Column) {
    Visible(c) && c.prio > 0
  }

  function Hide(c: Column): Column {
    c.(width := 0, min := -1, flex := if c.flex > 0 then 0 else c.flex)
  }

  /** The table with the columns of h hidden. */
  ghost function HideAll(cols: seq<Column>, h: set<nat>): seq<Column> {
    seq(|cols|, i requires 0 <= i < |cols| => if i in h then Hide(cols[i]) else cols[i])
  }

  /** Column i is hidden before column j: lower priority first, then further left. */
  ghost predicate Earlier(cols: seq<Column>, i: nat, j: nat)
    requires i < |cols| && j < |cols|
  {
    cols[i].prio < cols[j].prio || (cols[i].prio == cols[j].prio && i < j)
  }

  /** h holds only hideable columns, and the first ones in the hiding order. */
  ghost predicate IsInitial(cols: seq<Column>, h: set<nat>) {
    && (forall i :: i in h ==> i < |cols| && Hideable(cols[i]))
    && (forall i, j :: i in h && 0 <= j < |cols| && j !in h && Hideable(cols[j]) ==> Earlier(cols, i, j))
  }

  /** d is the last of h in the hiding order. */
  ghost predicate IsLast(cols: seq<Column>, h: set<nat>, d: nat) {
    d in h && forall i :: i in h && i != d ==> i < |cols| && d < |cols| && Earlier(cols, i, d)
  }

  /** Without hiding d the table would not fit. */
  ghost predicate Needed(cols: seq<Column>, w: int, h: set<nat>, d: nat) {
    IsLast(cols, h, d) && NeedOf(HideAll(cols, h - {d})) > w
  }

  /** h is what gets hidden: an initial part of the hiding order, no longer than needed, and enough
      unless everything hideable is in it. */
  ghost predicate IsHidden(cols: seq<Column>, w: int, h: set<nat>) {
    && IsInitial(cols, h)
    && (h != {} ==> exists d :: Needed(cols, w, h, d))
    && (NeedOf(HideAll(cols, h)) <= w || forall i :: 0 <= i < |cols| && Hideable(cols[i]) ==> i in h)
  }

  lemma {:induction false} NeedAntitone(cols: seq<Column>, h: set<nat>, k: set<nat>)
    requires h <= k
    ensures NeedOf(HideAll(cols, k)) <= NeedOf(HideAll(cols, h))
  {
    if cols != [] {
      var n := |cols| - 1;
      NeedAntitone(cols[..n], h, k);
      assert HideAll(cols, h)[..n] == HideAll(cols[..n], h);
      assert HideAll(cols, k)[..n] == HideAll(cols[..n], k);
    }
  }

  /** Two initial parts of the hiding order contain one another. */
  lemma InitialChain(cols: seq<Column>, h: set<nat>, k: set<nat>)
    requires IsInitial(cols, h) && IsInitial(cols, k)
    ensures h <= k || k <= h
  {
    if !(h <= k) {
      var i :| i in h && i !in k;
      assert forall j :: j in k && j !in h ==> Earlier(cols, j, i) && Earlier(cols, i, j);
    }
  }

  lemma LastIsOutside(cols: seq<Column>, h: set<nat>, k: set<nat>, d: nat)
    requires IsInitial(cols, h) && IsInitial(cols, k) && h < k && IsLast(cols, k, d)
    ensures d !in h
  {
    var x :| x in k && x !in h;
    if x != d {
      assert Earlier(cols, x, d) && !Earlier(cols, d, x);
    }
  }

  /** A shorter initial part leaves the table too wide, and something hideable. */
  lemma TooShort(cols: seq<Column>, w: int, h: set<nat>, k: set<nat>, d: nat)
    requires IsInitial(cols, h) && IsInitial(cols, k) && h < k && Needed(cols, w, k, d)
    ensures NeedOf(HideAll(cols, h)) > w && d < |cols| && d !in h && Hideable(cols[d])
  {
    LastIsOutside(cols, h, k, d);
    NeedAntitone(cols, h, k - {d});
  }

  /** What is hidden was visible and has a priority; of what stays visible none has a lower one, and
      none with the same is further left. */
  lemma HiddenRankLowest(cols: seq<Column>, h: set<nat>, i: nat, j: nat)
    requires IsInitial(cols, h) && i in h
    ensures i < |cols| && 0 < cols[i].prio && (0 < cols[i].width || (0 < cols[i].flex && 0 <= cols[i].min))
    ensures j < |cols| && j !in h && 0 < cols[j].prio && (0 < cols[j].width || (0 < cols[j].flex && 0 <= cols[j].min)) ==>
              cols[i].prio < cols[j].prio || (cols[i].prio == cols[j].prio && i < j)
  {
  }

  /** The table and the width decide what is hidden. */
  lemma HiddenUnique(cols: seq<Column>, w: int, h: set<nat>, k: set<nat>)
    requires IsHidden(cols, w, h) && IsHidden(cols, w, k)
    ensures h == k
  {
    InitialChain(cols, h, k);
    if h < k {
      var d :| Needed(cols, w, k, d);
      TooShort(cols, w, h, k, d);
    } else if k < h {
      var d :| Needed(cols, w, h, d);
      TooShort(cols, w, k, h, d);
    }
  }

  // ---------------------------------------------------------------- hiding

  method Need(a: array<Column>) returns (n: int)
    ensures n == NeedOf(a[..])
  {
    n := 0;
    for i := 0 to a.Length
      invariant n == NeedOf(a[..i])
    {
      assert a[..i + 1][..i] == a[..i];
      var c := a[i];
      if c.flex > 0 && c.min >= 0 {
        n := n + c.min + 1;
      } else if c.width > 0 {
        n := n + c.width + 1;
      }
    }
    assert a[..a.Length] == a[..];
  }

  /** The column to hide next, or -1. */
  method FindDrop(a: array<Column>) returns (drop: int)
    ensures -1 <= drop < a.Length
    ensures drop == -1 <==> forall i :: 0 <= i < a.Length ==> !Hideable(a[i])
    ensures 0 <= drop ==> Hideable(a[drop])
    ensures 0 <= drop ==> forall i :: 0 <= i < a.Length && Hideable(a[i]) && i != drop ==> Earlier(a[..], drop, i)
  {
    drop := -1;
    for i := 0 to a.Length
      invariant -1 <= drop < i
      invariant drop == -1 <==> forall j :: 0 <= j < i ==> !Hideable(a[j])
      invariant 0 <= drop ==> Hideable(a[drop])
      invariant 0 <= drop ==> forall j :: 0 <= j < i && Hideable(a[j]) && j != drop ==> Earlier(a[..], drop, j)
    {
      var c := a[i];
      var visible := c.width > 0 || (c.flex > 0 && c.min >= 0);
      if visible && c.prio > 0 && (drop < 0 || c.prio < a[drop].prio) {
        drop := i;
      }
    }
  }

  /** Hides columns until the rest fits or nothing hideable is left. */
  method HideColumns(a: array<Column>, w: int, ghost cols: seq<Column>) returns (ghost h: set<nat>)
    requires a[..] == cols
    modifies a
    ensures IsHidden(cols, w, h) && a[..] == HideAll(cols, h)
  {
    h := {};
    var n := Need(a);
    ghost var last, left := 0, Indexes(|cols|);
    while n > w
      invariant a[..] == HideAll(cols, h) && n == NeedOf(a[..])
      invariant IsInitial(cols, h) && (h != {} ==> Needed(cols, w, h, last))
      invariant left == Indexes(|cols|) - h
      decreases left
    {
      var drop := FindDrop(a);
      if drop < 0 {
        NothingLeft(cols, h, a[..]);
        return;
      }
      InitialNext(cols, h, drop, a[..]);
      NeededNext(cols, w, h, drop);
      HideAllNext(cols, h, drop);
      DropColumn(a, drop);
      h, last, left := h + {drop}, drop, left - {drop};
      n := Need(a);
    }
  }

  ghost function Indexes(n: nat): (s: set<nat>)
    ensures forall i: nat :: i in s <==> i < n
  {
    if n == 0 then {} else Indexes(n - 1) + {n - 1}
  }

  method DropColumn(a: array<Column>, drop: int)
    requires 0 <= drop < a.Length
    modifies a
    ensures a[..] == old(a[..])[drop := Hide(old(a[drop]))]
  {
    a[drop] := a[drop].(width := 0, min := -1);
    if a[drop].flex > 0 {
      a[drop] := a[drop].(flex := 0);
    }
  }

  lemma NothingLeft(cols: seq<Column>, h: set<nat>, s: seq<Column>)
    requires s == HideAll(cols, h) && forall i :: 0 <= i < |s| ==> !Hideable(s[i])
    ensures forall i :: 0 <= i < |cols| && Hideable(cols[i]) ==> i in h
  {
    forall i | 0 <= i < |cols| && Hideable(cols[i]) ensures i in h {
      assert !Hideable(s[i]);
    }
  }

  lemma InitialNext(cols: seq<Column>, h: set<nat>, d: nat, s: seq<Column>)
    requires IsInitial(cols, h) && s == HideAll(cols, h) && d < |s| && Hideable(s[d])
    requires forall i :: 0 <= i < |s| && Hideable(s[i]) && i != d ==> Earlier(s, d, i)
    ensures d !in h && Hideable(cols[d]) && IsInitial(cols, h + {d})
  {
    forall j | 0 <= j < |cols| && j !in h + {d} && Hideable(cols[j]) ensures Earlier(cols, d, j) {
      assert Hideable(s[j]);
    }
  }

  lemma HideAllNext(cols: seq<Column>, h: set<nat>, d: nat)
    requires d < |cols| && d !in h
    ensures HideAll(cols, h)[d := Hide(cols[d])] == HideAll(cols, h + {d}) && HideAll(cols, h)[d] == cols[d]
  {
  }

  lemma NeededNext(cols: seq<Column>, w: int, h: set<nat>, d: nat)
    requires IsInitial(cols, h) && d !in h && d < |cols| && Hideable(cols[d]) && NeedOf(HideAll(cols, h)) > w
    ensures Needed(cols, w, h + {d}, d)
  {
    assert (h + {d}) - {d} == h;
  }

  // ---------------------------------------------------------------- sharing out the spare cells

  /** Gets a share: it has a weight and is below its limit. */
  predicate Growing(c: Column) {
    c.flex != 0 && !(c.max > 0 && c.width >= c.max)
  }

  /** The weight a column keeps for the next pass. */
  function Kept(c: Column): int {
    if c.max == 0 || c.width < c.max then c.flex else 0
  }

  function Weight(cols: seq<Column>): int {
    if cols == [] then 0 else Weight(cols[..|cols| - 1]) + Kept(cols[|cols| - 1])
  }

  /** Division that truncates toward zero. */
  function Quotient(a: int, b: int): int
    requires 0 < b
  {
    if 0 <= a then a / b else -(-a / b)
  }

  /** The cells a column takes once its width is set. */
  function Cells(c: Column): int {
    if c.flex > 0 || c.width > 0 then c.width + 1 else 0
  }

  function CellsOf(cols: seq<Column>): int {
    if cols == [] then 0 else CellsOf(cols[..|cols| - 1]) + Cells(cols[|cols| - 1])
  }

  /** At most the width of a flexible column changed: it did not shrink, nor pass its limit. */
  ghost predicate Wider(before: Column, after: Column) {
    && after == before.(width := after.width)
    && before.width <= after.width
    && (after.width != before.width ==> before.flex > 0)
    && (after.width != before.width && before.max > 0 ==> after.width <= before.max)
  }

  ghost predicate Grown(before: seq<Column>, after: seq<Column>) {
    |after| == |before| && forall i :: 0 <= i < |before| ==> Wider(before[i], after[i])
  }

  /** The cells a growing column gets in one pass. */
  function Share(c: Column, spare: int, weights: int): int
    requires 0 < weights
  {
    var add := Quotient(spare * c.flex, weights);
    if c.max > 0 && add > c.max - c.width then c.max - c.width else add
  }

  function Widen(c: Column, spare: int, weights: int): Column
    requires 0 < weights
  {
    if Growing(c) then c.(width := c.width + Share(c, spare, weights)) else c
  }

  function WidenAll(cols: seq<Column>, spare: int, weights: int): (r: seq<Column>)
    requires 0 < weights
    ensures |r| == |cols|
  {
    if cols == [] then []
    else WidenAll(cols[..|cols| - 1], spare, weights) + [Widen(cols[|cols| - 1], spare, weights)]
  }

  /** The cells handed out in one pass. */
  function Shared(cols: seq<Column>, spare: int, weights: int): int
    requires 0 < weights
  {
    if cols == [] then 0
    else
      var c := cols[|cols| - 1];
      Shared(cols[..|cols| - 1], spare, weights) + if Growing(c) then Share(c, spare, weights) else 0
  }

  lemma PassSnoc(cols: seq<Column>, c: Column, spare: int, weights: int)
    requires 0 < weights
    ensures WidenAll(cols + [c], spare, weights) == WidenAll(cols, spare, weights) + [Widen(c, spare, weights)]
    ensures Shared(cols + [c], spare, weights) ==
            Shared(cols, spare, weights) + if Growing(c) then Share(c, spare, weights) else 0
  {
    assert (cols + [c])[..|cols|] == cols;
  }

  lemma Splice<T>(p: seq<T>, rest: seq<T>, x: T)
    requires rest != []
    ensures (p + rest)[|p| := x] == (p + [x]) + rest[1..]
  {
  }

  lemma WeightSnoc(cols: seq<Column>, c: Column)
    ensures Weight(cols + [c]) == Weight(cols) + Kept(c)
  {
    assert (cols + [c])[..|cols|] == cols;
  }

  /** Widens one column; tells what it got and what weight it keeps. */
  method WidenColumn(a: array<Column>, i: nat, spare: int, weights: int) returns (add: int, keeps: int)
    requires i < a.Length && 0 < weights
    modifies a
    ensures a[..] == old(a[..])[i := Widen(old(a[i]), spare, weights)]
    ensures add == if Growing(old(a[i])) then Share(old(a[i]), spare, weights) else 0
    ensures keeps == Kept(a[i])
  {
    add, keeps := 0, 0;
    var c := a[i];
    if !(c.flex == 0 || (c.max > 0 && c.width >= c.max)) {
      add := Share(c, spare, weights);
      a[i] := c.(width := c.width + add);
      if c.max == 0 || a[i].width < c.max {
        keeps := c.flex;
      }
    }
  }

  /** One pass over the columns: each growing one gets its share of the spare cells, up to its limit. */
  method SharePass(a: array<Column>, spare: int, weights: int, ghost was: seq<Column>)
    returns (given: int, nextWeights: int)
    requires a[..] == was && 0 < weights
    modifies a
    ensures a[..] == WidenAll(was, spare, weights)
    ensures given == Shared(was, spare, weights) && nextWeights == Weight(a[..])
  {
    given, nextWeights := 0, 0;
    assert was[..0] == [] && was[0..] == was;
    for i := 0 to a.Length
      invariant Partly(a[..], was, i, spare, weights, given, nextWeights)
    {
      PartlyNext(a[..], was, i, spare, weights, given, nextWeights);
      var add, keeps := WidenColumn(a, i, spare, weights);
      given, nextWeights := given + add, nextWeights + keeps;
    }
    assert was[..a.Length] == was && was[a.Length..] == [];
  }

  /** The first i columns have had their share. */
  ghost predicate Partly(s: seq<Column>, was: seq<Column>, i: nat, spare: int, weights: int, given: int, nextWeights: int)
    requires 0 < weights
  {
    && i <= |was| == |s| && s == WidenAll(was[..i], spare, weights) + was[i..]
    && given == Shared(was[..i], spare, weights) && nextWeights == Weight(WidenAll(was[..i], spare, weights))
  }

  lemma PartlyNext(s: seq<Column>, was: seq<Column>, i: nat, spare: int, weights: int, given: int, nextWeights: int)
    requires 0 < weights && Partly(s, was, i, spare, weights, given, nextWeights) && i < |was|
    ensures s[i] == was[i]
    ensures var d := Widen(s[i], spare, weights);
            Partly(s[i := d], was, i + 1, spare, weights,
                   given + (if Growing(s[i]) then Share(s[i], spare, weights) else 0),
                   nextWeights + Kept(d))
  {
    var d := Widen(was[i], spare, weights);
    assert was[..i + 1] == was[..i] + [was[i]] && was[i..][1..] == was[i + 1..];
    PassSnoc(was[..i], was[i], spare, weights);
    WeightSnoc(WidenAll(was[..i], spare, weights), d);
    Splice(WidenAll(was[..i], spare, weights), was[i..], d);
  }

  lemma ShareBounds(c: Column, spare: int, weights: int)
    requires Growing(c) && 0 <= c.flex && 0 <= spare && 0 < weights
    ensures 0 <= Share(c, spare, weights) && Share(c, spare, weights) * weights <= spare * c.flex
    ensures c.max > 0 ==> c.width + Share(c, spare, weights) <= c.max
  {
    var q := spare * c.flex / weights;
    assert 0 <= spare * c.flex;
    assert q * weights <= spare * c.flex;
    MulLe(Share(c, spare, weights), q, weights);
  }

  lemma MulLe(a: int, b: int, k: int)
    requires a <= b && 0 <= k
    ensures a * k <= b * k
  {
  }

  /** A pass changes nothing but widths, and those within the limits. */
  lemma {:induction false} WidenAllGrows(cols: seq<Column>, spare: int, weights: int)
    requires Limited(cols) && 0 <= spare && 0 < weights
    ensures Grown(cols, WidenAll(cols, spare, weights))
  {
    if cols != [] {
      var c := cols[|cols| - 1];
      assert c in cols;
      WidenAllGrows(cols[..|cols| - 1], spare, weights);
      WidenIsWider(c, spare, weights);
    }
  }

  lemma WidenIsWider(c: Column, spare: int, weights: int)
    requires 0 <= c.flex && 0 <= spare && 0 < weights
    ensures Wider(c, Widen(c, spare, weights))
  {
    if Growing(c) {
      ShareBounds(c, spare, weights);
    }
  }

  /** The cells handed out are the cells the columns grew by. */
  lemma {:induction false} SharedCells(cols: seq<Column>, spare: int, weights: int)
    requires Limited(cols) && 0 <= spare && 0 < weights
    ensures CellsOf(WidenAll(cols, spare, weights)) == CellsOf(cols) + Shared(cols, spare, weights)
    ensures 0 <= Shared(cols, spare, weights)
  {
    if cols != [] {
      var init, c := cols[..|cols| - 1], cols[|cols| - 1];
      SharedCells(init, spare, weights);
      assert WidenAll(cols, spare, weights)[..|init|] == WidenAll(init, spare, weights);
      if Growing(c) {
        ShareBounds(c, spare, weights);
      }
    }
  }

  lemma TogetherFit(given: int, share: int, weight: int, flex: int, spare: int, k: int)
    requires given * k <= spare * weight && share * k <= spare * flex
    ensures (given + share) * k <= spare * (weight + flex)
  {
    Distribute(given, share, k);
    Distribute(weight, flex, spare);
  }

  /** Rounding down, the shares together stay within what their weights entitle them to. */
  lemma {:induction false} SharedFits(cols: seq<Column>, spare: int, weights: int)
    requires Limited(cols) && 0 <= spare && 0 < weights
    ensures Shared(cols, spare, weights) * weights <= spare * Weight(cols)
  {
    if cols != [] {
      var init, c := cols[..|cols| - 1], cols[|cols| - 1];
      SharedFits(init, spare, weights);
      if Growing(c) {
        ShareBounds(c, spare, weights);
        TogetherFit(Shared(init, spare, weights), Share(c, spare, weights), Weight(init), c.flex, spare, weights);
      }
    }
  }

  lemma Distribute(a: int, b: int, k: int)
    ensures (a + b) * k == a * k + b * k
  {
  }

  /** So a pass never hands out more than there is. */
  lemma SharedAtMostSpare(cols: seq<Column>, spare: int, weights: int)
    requires Limited(cols) && 0 <= spare && 0 < weights && Weight(cols) <= weights
    ensures Shared(cols, spare, weights) <= spare
  {
    var given := Shared(cols, spare, weights);
    SharedFits(cols, spare, weights);
    MulLe(Weight(cols), weights, spare);
    if spare < given {
      MulLe(spare + 1, given, weights);
      Distribute(spare, 1, weights);
    }
  }

  function GrowingCount(cols: seq<Column>): nat {
    if cols == [] then 0 else GrowingCount(cols[..|cols| - 1]) + if Growing(cols[|cols| - 1]) then 1 else 0
  }

  /** No limit cuts a share short in this pass. */
  predicate Uncut(c: Column, spare: int, weights: int)
    requires 0 < weights
  {
    Growing(c) ==> Share(c, spare, weights) == Quotient(spare * c.flex, weights)
  }

  lemma ShareRoundsDown(c: Column, spare: int, weights: int)
    requires Growing(c) && 0 <= c.flex && 0 <= spare && 0 < weights && Uncut(c, spare, weights)
    ensures Share(c, spare, weights) * weights + (weights - 1) >= spare * c.flex
  {
    var x := spare * c.flex;
    assert x == x / weights * weights + x % weights;
  }

  lemma AddUp(given: int, share: int, n: int, weight: int, flex: int, spare: int, k: int)
    requires given * k + n * (k - 1) >= spare * weight && share * k + (k - 1) >= spare * flex
    ensures (given + share) * k + (n + 1) * (k - 1) >= spare * (weight + flex)
  {
    Distribute(given, share, k);
    Distribute(n, 1, k - 1);
    Distribute(weight, flex, spare);
  }

  lemma {:induction false} UncutShares(cols: seq<Column>, spare: int, weights: int)
    requires Limited(cols) && 0 <= spare && 0 < weights && forall c :: c in cols ==> Uncut(c, spare, weights)
    ensures Shared(cols, spare, weights) * weights + GrowingCount(cols) * (weights - 1) >= spare * Weight(cols)
  {
    if cols != [] {
      var init, c := cols[..|cols| - 1], cols[|cols| - 1];
      UncutShares(init, spare, weights);
      if Growing(c) {
        assert c in cols;
        ShareRoundsDown(c, spare, weights);
        AddUp(Shared(init, spare, weights), Share(c, spare, weights), GrowingCount(init), Weight(init), c.flex, spare, weights);
      }
    }
  }

  /** The sharing is tight: where no limit cuts a share short, a pass by exact weights leaves fewer
      cells than there are columns that can grow. */
  lemma PassLeavesLittle(cols: seq<Column>, spare: int, weights: int)
    requires Limited(cols) && 0 <= spare && 0 < weights && Weight(cols) == weights && forall c :: c in cols ==> Uncut(c, spare, weights)
    ensures spare - Shared(cols, spare, weights) < GrowingCount(cols)
  {
    var given, n := Shared(cols, spare, weights), GrowingCount(cols);
    UncutShares(cols, spare, weights);
    SomeGrow(cols);
    if given <= spare - n {
      MulLe(given, spare - n, weights);
      Distribute(spare - n, n, weights);
      Distribute(weights - 1, 1, n);
    }
  }

  lemma {:induction false} SomeGrow(cols: seq<Column>)
    requires Limited(cols)
    ensures GrowingCount(cols) == 0 ==> Weight(cols) == 0
  {
    if cols != [] {
      SomeGrow(cols[..|cols| - 1]);
    }
  }

  /** A share is the largest whole number of cells within the column's weighted part of the spare cells
      and its limit. */
  lemma ShareIsLargest(c: Column, spare: int, weights: int)
    requires Growing(c) && 0 <= c.flex && 0 <= spare && 0 < weights
    ensures var k := Share(c, spare, weights);
            && 0 <= k && k * weights <= spare * c.flex && (c.max > 0 ==> c.width + k <= c.max)
            && (spare * c.flex < k * weights + weights || (c.max > 0 && c.width + k == c.max))
  {
    ShareBounds(c, spare, weights);
    if Uncut(c, spare, weights) {
      ShareRoundsDown(c, spare, weights);
    }
  }

  /** A column whose part of the spare cells reaches the room below its limit ends at the limit. */
  lemma ReachesLimit(c: Column, spare: int, weights: int)
    requires Growing(c) && 0 <= c.flex && 0 <= spare && 0 < weights && c.max > 0
    requires (c.max - c.width) * weights <= spare * c.flex
    ensures Widen(c, spare, weights).width == c.max
  {
    ShareIsLargest(c, spare, weights);
    var k, room := Share(c, spare, weights), c.max - c.width;
    if k < room {
      MulLe(k + 1, room, weights);
      Distribute(k, 1, weights);
    }
  }

  /** The columns between two passes, the cells and weights left, and whether to stop. */
  datatype Sharing = Sharing(cols: seq<Column>, spare: int, weights: int, stop: bool)

  predicate Stuck(s: Sharing) {
    s.stop || s.spare <= 0 || s.weights <= 0
  }

  /** One more pass, unless there is nothing left to do. What it leaves over goes to the columns that
      still grow; one that hands out nothing is the last. */
  function Pass(s: Sharing): Sharing {
    if Stuck(s) then s
    else
      var next, given := WidenAll(s.cols, s.spare, s.weights), Shared(s.cols, s.spare, s.weights);
      Sharing(next, s.spare - given, Weight(next), given == 0)
  }

  function Passes(s: Sharing, n: nat): Sharing {
    if n == 0 then s else Pass(Passes(s, n - 1))
  }

  lemma {:induction false} StuckStays(s: Sharing, n: nat, m: nat)
    requires n <= m && (n < m ==> Stuck(Passes(s, n)))
    ensures Passes(s, m) == Passes(s, n)
  {
    if n < m {
      StuckStays(s, n, m - 1);
    }
  }

  // ---------------------------------------------------------------- how much is left over

  /** Fewer cells are left than there are columns below their limit, or there is no such column. */
  ghost predicate LeavesLittle(s: Sharing) {
    s.spare < GrowingCount(s.cols) || GrowingCount(s.cols) == 0
  }

  /** There are cells enough for all columns below their limit, but no weight is large enough for one:
      the weights of columns at their limit are still in the sum. */
  ghost predicate Starved(s: Sharing) {
    && 0 < s.weights && 0 < GrowingCount(s.cols) <= s.spare
    && forall c :: c in s.cols && Growing(c) ==> s.spare * c.flex < s.weights
  }

  lemma ZeroShare(c: Column, spare: int, weights: int)
    requires Growing(c) && 0 <= c.flex && 0 <= c.max && 0 <= spare && 0 < weights
    ensures Share(c, spare, weights) == 0 <==> spare * c.flex < weights
    ensures Share(c, spare, weights) == 0 ==> Uncut(c, spare, weights)
  {
    ShareIsLargest(c, spare, weights);
    if Share(c, spare, weights) != 0 {
      MulLe(1, Share(c, spare, weights), weights);
    }
  }

  /** Nothing is handed out exactly when no share is a whole cell; nothing changes then. */
  lemma {:induction false} NothingGiven(cols: seq<Column>, spare: int, weights: int)
    requires Limited(cols) && 0 <= spare && 0 < weights
    ensures 0 <= Shared(cols, spare, weights)
    ensures Shared(cols, spare, weights) == 0 <==> forall c :: c in cols && Growing(c) ==> spare * c.flex < weights
    ensures Shared(cols, spare, weights) == 0 ==> WidenAll(cols, spare, weights) == cols
    ensures Shared(cols, spare, weights) == 0 ==> forall c :: c in cols ==> Uncut(c, spare, weights)
  {
    if cols != [] {
      var init, c := cols[..|cols| - 1], cols[|cols| - 1];
      NothingGiven(init, spare, weights);
      assert cols == init + [c];
      assert c in cols;
      if Growing(c) {
        ShareBounds(c, spare, weights);
        ZeroShare(c, spare, weights);
      }
    }
  }

  lemma {:induction false} NoWeightNoGrowth(cols: seq<Column>)
    requires Limited(cols)
    ensures 0 <= Weight(cols) && (Weight(cols) == 0 ==> GrowingCount(cols) == 0)
  {
    if cols != [] {
      NoWeightNoGrowth(cols[..|cols| - 1]);
      assert cols[|cols| - 1] in cols;
    }
  }

  /** A pass after which there is nothing left to do leaves little, unless it handed out nothing. */
  lemma StopLeavesLittle(s: Sharing)
    requires Limited(s.cols) && Weight(s.cols) <= s.weights && !Stuck(s) && Stuck(Pass(s)) && !Pass(s).stop
    ensures LeavesLittle(Pass(s))
  {
    PassIsSafe(s);
    NoWeightNoGrowth(Pass(s).cols);
  }

  /** With exact weights, even one that handed out nothing. */
  lemma ExactStopLeavesLittle(s: Sharing)
    requires Limited(s.cols) && Weight(s.cols) == s.weights && !Stuck(s) && Stuck(Pass(s))
    ensures LeavesLittle(Pass(s))
  {
    if Pass(s).stop {
      NothingGiven(s.cols, s.spare, s.weights);
      PassLeavesLittle(s.cols, s.spare, s.weights);
    } else {
      StopLeavesLittle(s);
    }
  }

  /** The first pass goes by the weights of all columns. */
  lemma FirstStop(s: Sharing)
    requires Limited(s.cols) && Weight(s.cols) <= s.weights && !Stuck(s)
    ensures Starved(s) ==> Pass(s).stop
    ensures Stuck(Pass(s)) ==> (LeavesLittle(Pass(s)) <==> !Starved(s))
  {
    NothingGiven(s.cols, s.spare, s.weights);
    if Stuck(Pass(s)) && !Pass(s).stop {
      StopLeavesLittle(s);
    }
  }

  lemma PassIsExact(s: Sharing)
    requires Limited(s.cols) && Weight(s.cols) <= s.weights && !Stuck(s)
    ensures Limited(Pass(s).cols) && Pass(s).weights == Weight(Pass(s).cols)
  {
    WidenAllLimited(s.cols, s.spare, s.weights);
  }

  /** Unless the three passes are used up, they leave fewer cells than columns below their limit, or
      no such column, exactly when the start is not starved. */
  lemma PassesLeaveLittleIff(s: Sharing)
    requires Limited(s.cols) && Weight(s.cols) <= s.weights && !s.stop && (s.weights <= 0 ==> GrowingCount(s.cols) == 0)
    ensures Stuck(Passes(s, 3)) ==> (LeavesLittle(Passes(s, 3)) <==> !Starved(s))
  {
    ThreePasses(s);
    if Stuck(s) {
      StuckStays(s, 0, 3);
    } else {
      FirstStop(s);
      PassIsExact(s);
      if Stuck(Pass(s)) {
        StuckStays(s, 1, 3);
      } else {
        LaterStop(s);
      }
    }
  }

  lemma ThreePasses(s: Sharing)
    ensures Passes(s, 0) == s && Passes(s, 1) == Pass(s)
    ensures Passes(s, 2) == Pass(Pass(s)) && Passes(s, 3) == Pass(Pass(Pass(s)))
  {
    PassesStep(s, 0);
    PassesStep(s, 1);
    PassesStep(s, 2);
  }

  lemma PassesStep(s: Sharing, n: nat)
    ensures Passes(s, 0) == s && Passes(s, n + 1) == Pass(Passes(s, n))
  {
  }

  lemma LaterStop(s: Sharing)
    requires var t := Pass(s); Limited(t.cols) && t.weights == Weight(t.cols) && !Stuck(t)
    ensures Stuck(Passes(s, 3)) ==> LeavesLittle(Passes(s, 3))
  {
    var t := Pass(s);
    ThreePasses(s);
    PassIsExact(t);
    if Stuck(Pass(t)) {
      ExactStopLeavesLittle(t);
      StuckStays(s, 2, 3);
    } else if Stuck(Pass(Pass(t))) {
      ExactStopLeavesLittle(Pass(t));
    }
  }

  /** From s to t only widths grew, within their limits, and by exactly the spare cells used up. */
  ghost predicate Safe(s: Sharing, t: Sharing) {
    && Grown(s.cols, t.cols) && Limited(t.cols) && Weight(t.cols) <= t.weights
    && CellsOf(t.cols) + t.spare == CellsOf(s.cols) + s.spare
    && (if 0 <= s.spare then 0 <= t.spare else t.cols == s.cols)
  }

  lemma {:induction false} WidenAllLimited(cols: seq<Column>, spare: int, weights: int)
    requires 0 < weights && Limited(cols)
    ensures Limited(WidenAll(cols, spare, weights))
  {
    if cols != [] {
      WidenAllLimited(cols[..|cols| - 1], spare, weights);
      assert cols[|cols| - 1] in cols;
    }
  }

  lemma PassIsSafe(s: Sharing)
    requires Limited(s.cols) && Weight(s.cols) <= s.weights
    ensures Safe(s, Pass(s))
  {
    if !Stuck(s) {
      WidenAllLimited(s.cols, s.spare, s.weights);
      WidenAllGrows(s.cols, s.spare, s.weights);
      SharedCells(s.cols, s.spare, s.weights);
      SharedAtMostSpare(s.cols, s.spare, s.weights);
    }
  }

  lemma SafeTwice(s: Sharing, t: Sharing, u: Sharing)
    requires Safe(s, t) && Safe(t, u)
    ensures Safe(s, u)
  {
    GrownTwice(s.cols, t.cols, u.cols);
  }

  /** However many passes: only widths grow, within their limits, and by no more than the spare cells. */
  lemma {:induction false} PassesAreSafe(s: Sharing, n: nat)
    requires Limited(s.cols) && Weight(s.cols) <= s.weights
    ensures Safe(s, Passes(s, n))
  {
    if n > 0 {
      PassesAreSafe(s, n - 1);
      PassIsSafe(Passes(s, n - 1));
      SafeTwice(s, Passes(s, n - 1), Passes(s, n));
    }
  }

  // ---------------------------------------------------------------- the whole layout

  function FlexSum(cols: seq<Column>): int {
    if cols == [] then 0 else FlexSum(cols[..|cols| - 1]) + cols[|cols| - 1].flex
  }

  lemma {:induction false} WeightAtMostFlex(cols: seq<Column>)
    requires forall c :: c in cols ==> 0 <= c.flex
    ensures Weight(cols) <= FlexSum(cols)
  {
    if cols != [] {
      WeightAtMostFlex(cols[..|cols| - 1]);
    }
  }

  lemma GrownTwice(a: seq<Column>, b: seq<Column>, c: seq<Column>)
    requires Grown(a, b) && Grown(b, c)
    ensures Grown(a, c)
  {
  }

  /** A flexible column starts at its minimum. */
  function Start(c: Column): Column {
    if c.flex > 0 then c.(width := c.min) else c
  }

  ghost function StartAll(cols: seq<Column>): seq<Column> {
    seq(|cols|, i requires 0 <= i < |cols| => Start(cols[i]))
  }

  lemma {:induction false} StartCells(cols: seq<Column>)
    requires WellFormed(cols)
    ensures CellsOf(StartAll(cols)) == NeedOf(cols)
  {
    if cols != [] {
      var n := |cols| - 1;
      StartCells(cols[..n]);
      assert StartAll(cols)[..n] == StartAll(cols[..n]);
    }
  }

  method StartFlexible(a: array<Column>) returns (weights: int)
    modifies a
    ensures a[..] == StartAll(old(a[..])) && weights == FlexSum(old(a[..]))
  {
    weights := 0;
    ghost var was := a[..];
    for i := 0 to a.Length
      invariant a[..] == was && weights == FlexSum(was[..i])
    {
      assert was[..i + 1][..i] == was[..i];
      weights := weights + a[i].flex;
    }
    assert was[..a.Length] == was;
    for i := 0 to a.Length
      invariant forall j :: 0 <= j < i ==> a[j] == Start(was[j])
      invariant forall j :: i <= j < a.Length ==> a[j] == was[j]
    {
      if a[i].flex > 0 {
        a[i] := a[i].(width := a[i].min);
      }
    }
  }

  /** The next pass, on the array. */
  method PassOver(a: array<Column>, spare: int, weights: int, ghost start: Sharing, ghost n: nat)
    returns (given: int, nextWeights: int)
    requires Passes(start, n) == Sharing(a[..], spare, weights, false) && 0 < spare && 0 < weights
    modifies a
    ensures Passes(start, n + 1) == Sharing(a[..], spare - given, nextWeights, given == 0)
  {
    ghost var cols := a[..];
    given, nextWeights := SharePass(a, spare, weights, cols);
  }

  /** At most three passes. */
  method ShareSpare(a: array<Column>, spare0: int, weights0: int, ghost start: Sharing)
    requires start == Sharing(a[..], spare0, weights0, false)
    modifies a
    ensures a[..] == Passes(start, 3).cols
  {
    var spare, weights, pass: nat := spare0, weights0, 0;
    while pass < 3 && spare > 0 && weights > 0
      invariant pass <= 3 && Passes(start, pass) == Sharing(a[..], spare, weights, false)
    {
      var given, nextWeights := PassOver(a, spare, weights, start, pass);
      spare := spare - given;
      weights := nextWeights;
      pass := pass + 1;
      if given == 0 {
        break;
      }
    }
    StuckStays(start, pass, 3);
  }

  /** The cells the rendered table takes: hidden columns are skipped. */
  function Span(cols: seq<Column>): int {
    if cols == [] then 0
    else Span(cols[..|cols| - 1]) + if cols[|cols| - 1].width > 0 then cols[|cols| - 1].width + 1 else 0
  }

  lemma {:induction false} SpanAtMostCells(cols: seq<Column>)
    requires forall c :: c in cols && 0 < c.flex ==> 0 <= c.width
    ensures Span(cols) <= CellsOf(cols)
  {
    if cols != [] {
      SpanAtMostCells(cols[..|cols| - 1]);
    }
  }

  /** A column that stays: a fixed one as it was, a flexible one between its minimum and, where that
      is possible, its limit. */
  ghost predicate Settled(c: Column, out: Column) {
    && out == c.(width := out.width)
    && (c.flex == 0 ==> out == c)
    && (c.flex > 0 ==> c.min <= out.width && (c.max > 0 && c.min <= c.max ==> out.width <= c.max))
  }

  lemma HideAllWellFormed(cols: seq<Column>, h: set<nat>)
    requires WellFormed(cols)
    ensures WellFormed(HideAll(cols, h))
  {
    forall c | c in HideAll(cols, h) ensures 0 <= c.flex && 0 <= c.max && (0 < c.flex ==> 0 <= c.min) {
      var i :| 0 <= i < |cols| && HideAll(cols, h)[i] == c;
      assert cols[i] in cols;
    }
  }

  /** The widths of the columns that stay. */
  ghost function Widths(kept: seq<Column>, w: int): seq<Column> {
    Passes(Sharing(StartAll(kept), w - NeedOf(kept), FlexSum(kept), false), 3).cols
  }

  /** The columns that stay, before the first pass. */
  ghost function StartOf(kept: seq<Column>, w: int): Sharing {
    Sharing(StartAll(kept), w - NeedOf(kept), FlexSum(kept), false)
  }

  /** On the finished table: unless the three passes are used up, the cells left over are fewer than the
      columns still below their limit, or none of them is, exactly when the start is not starved. */
  lemma LayoutFillsIff(kept: seq<Column>, w: int)
    requires WellFormed(kept)
    ensures var out, last := Widths(kept, w), Passes(StartOf(kept, w), 3);
            && last.cols == out && last.spare == w - CellsOf(out)
            && (Stuck(last) ==>
                  (w - CellsOf(out) < GrowingCount(out) || GrowingCount(out) == 0 <==> !Starved(StartOf(kept, w))))
  {
    BaseReady(kept);
    NoFlexNoGrowth(StartAll(kept));
    FlexStart(kept);
    PassesAreSafe(StartOf(kept, w), 3);
    PassesLeaveLittleIff(StartOf(kept, w));
  }

  lemma {:induction false} NoFlexNoGrowth(cols: seq<Column>)
    requires Limited(cols)
    ensures 0 <= FlexSum(cols) && (FlexSum(cols) == 0 ==> GrowingCount(cols) == 0)
  {
    if cols != [] {
      NoFlexNoGrowth(cols[..|cols| - 1]);
      assert cols[|cols| - 1] in cols;
    }
  }

  /** Where every flexible column has room between its minimum and its limit, nothing starves. */
  lemma RoomNeverStarves(kept: seq<Column>, w: int)
    requires WellFormed(kept) && forall c :: c in kept && 0 < c.flex ==> c.max == 0 || c.min < c.max
    ensures !Starved(StartOf(kept, w))
  {
    var s := StartOf(kept, w);
    BaseReady(kept);
    AllWeigh(kept);
    FlexStart(kept);
    if Starved(s) {
      NothingGiven(s.cols, s.spare, s.weights);
      PassLeavesLittle(s.cols, s.spare, s.weights);
    }
  }

  lemma {:induction false} AllWeigh(kept: seq<Column>)
    requires WellFormed(kept) && forall c :: c in kept && 0 < c.flex ==> c.max == 0 || c.min < c.max
    ensures Weight(StartAll(kept)) == FlexSum(kept)
  {
    if kept != [] {
      var n := |kept| - 1;
      AllWeigh(kept[..n]);
      assert StartAll(kept)[..n] == StartAll(kept[..n]);
      assert kept[n] in kept;
    }
  }

  /** A table that starves: a heavy column at its limit keeps a light one from growing into 50 cells. */
  lemma StarvedTable()
    ensures var heavy, light := Column("", 0, false, 0, 100, 10, 10), Column("", 0, false, 0, 1, 10, 0);
            WellFormed([heavy, light]) && NeedOf([heavy, light]) == 22 && Starved(StartOf([heavy, light], 72))
  {
    var heavy, light := Column("", 0, false, 0, 100, 10, 10), Column("", 0, false, 0, 1, 10, 0);
    var kept := [heavy, light];
    assert kept[..1] == [heavy] && [heavy][..0] == [];
    assert NeedOf([heavy]) == NeedOf([heavy][..0]) + 11 && FlexSum([heavy]) == FlexSum([heavy][..0]) + 100;
    assert NeedOf(kept) == NeedOf(kept[..1]) + 11 && FlexSum(kept) == FlexSum(kept[..1]) + 1;
    var a, b := heavy.(width := 10), light.(width := 10);
    var start := StartAll(kept);
    assert start == [a, b] && [a, b][..1] == [a] && [a][..0] == [];
    assert !Growing(a) && Growing(b);
    assert GrowingCount([a]) == 0;
    assert GrowingCount([a, b]) == GrowingCount([a, b][..1]) + 1;
  }

  /** Computes the widths of a table w cells wide. */
  method Layout(cols: seq<Column>, w: int) returns (out: seq<Column>, ghost h: set<nat>)
    ensures IsHidden(cols, w, h) && out == Widths(HideAll(cols, h), w)
    ensures WellFormed(cols) ==> Arranged(cols, w, h, out)
  {
    var a := new Column[|cols|](i requires 0 <= i < |cols| => cols[i]);
    assert a[..] == cols;
    h := HideColumns(a, w, cols);
    out := SetWidths(a, w, HideAll(cols, h));
    if WellFormed(cols) {
      WidthsFit(cols, w, h);
    }
  }

  /** Hidden columns are gone and the others settled, within w cells if what must stay needs no more. */
  ghost predicate Arranged(cols: seq<Column>, w: int, h: set<nat>, out: seq<Column>) {
    && |out| == |cols|
    && (forall i :: 0 <= i < |cols| ==> if i in h then out[i] == Hide(cols[i]) else Settled(cols[i], out[i]))
    && (forall i :: i in h && i < |out| ==> out[i].width == 0)
    && (NeedOf(HideAll(cols, h)) <= w ==> Span(out) <= w)
  }

  method SetWidths(a: array<Column>, w: int, ghost kept: seq<Column>) returns (out: seq<Column>)
    requires a[..] == kept
    modifies a
    ensures out == Widths(kept, w)
  {
    var need := Need(a);
    var weights := StartFlexible(a);
    ghost var base := StartAll(kept);
    ShareSpare(a, w - need, weights, Sharing(base, w - need, weights, false));
    out := a[..];
  }

  lemma WidthsFit(cols: seq<Column>, w: int, h: set<nat>)
    requires WellFormed(cols)
    ensures Arranged(cols, w, h, Widths(HideAll(cols, h), w))
  {
    var kept := HideAll(cols, h);
    HideAllWellFormed(cols, h);
    BaseReady(kept);
    PassesAreSafe(Sharing(StartAll(kept), w - NeedOf(kept), FlexSum(kept), false), 3);
    AllSettled(cols, h, Widths(kept, w));
    SpanFits(kept, Widths(kept, w));
  }

  lemma BaseReady(kept: seq<Column>)
    requires WellFormed(kept)
    ensures WellFormed(StartAll(kept)) && Weight(StartAll(kept)) <= FlexSum(kept)
    ensures CellsOf(StartAll(kept)) == NeedOf(kept)
  {
    StartCells(kept);
    SoundStart(kept);
    WeightAtMostFlex(StartAll(kept));
    FlexStart(kept);
  }

  lemma SoundStart(kept: seq<Column>)
    requires WellFormed(kept)
    ensures WellFormed(StartAll(kept))
  {
    forall c | c in StartAll(kept) ensures 0 <= c.flex && 0 <= c.max && (0 < c.flex ==> 0 <= c.min) {
      var i :| 0 <= i < |kept| && StartAll(kept)[i] == c;
      assert kept[i] in kept;
    }
  }

  lemma {:induction false} FlexStart(kept: seq<Column>)
    ensures FlexSum(StartAll(kept)) == FlexSum(kept)
  {
    if kept != [] {
      var n := |kept| - 1;
      FlexStart(kept[..n]);
      assert StartAll(kept)[..n] == StartAll(kept[..n]);
    }
  }

  lemma AllSettled(cols: seq<Column>, h: set<nat>, out: seq<Column>)
    requires WellFormed(cols) && Grown(StartAll(HideAll(cols, h)), out)
    ensures forall i :: 0 <= i < |cols| ==> if i in h then out[i] == Hide(cols[i]) else Settled(cols[i], out[i])
  {
    forall i | 0 <= i < |cols| ensures if i in h then out[i] == Hide(cols[i]) else Settled(cols[i], out[i]) {
      assert StartAll(HideAll(cols, h))[i] == if i in h then Hide(cols[i]) else Start(cols[i]);
      assert cols[i] in cols;
    }
  }

  lemma SpanFits(kept: seq<Column>, out: seq<Column>)
    requires WellFormed(kept) && Grown(StartAll(kept), out)
    ensures Span(out) <= CellsOf(out)
  {
    forall c | c in out && 0 < c.flex ensures 0 <= c.width {
      var i :| 0 <= i < |out| && out[i] == c;
      assert StartAll(kept)[i] == Start(kept[i]) && kept[i] in kept;
    }
    SpanAtMostCells(out);
  }

  /** If the columns that are never hidden fit at all, the table fits. */
  lemma FitsIfPossible(cols: seq<Column>, w: int, h: set<nat>, all: set<nat>)
    requires IsHidden(cols, w, h)
    requires forall i: nat :: i in all <==> i < |cols| && Hideable(cols[i])
    ensures NeedOf(HideAll(cols, h)) <= w <==> NeedOf(HideAll(cols, all)) <= w
  {
    assert h <= all;
    NeedAntitone(cols, h, all);
    if NeedOf(HideAll(cols, h)) > w {
      assert h == all;
    }
  }
}
