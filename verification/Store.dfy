/** The domain store: the latest snapshot of every VM and seven histories of equal length, kept in
    ring buffers. */
module Store {
  import opened Units
  import opened Sequences

  type Id = string

  const HISTORY_LEN: nat := 120

  // ---------------------------------------------------------------- ring buffers

  /** A buffer read from `pos` round to `pos` again. */
  function Rotated(buf: seq<real>, pos: nat): seq<real>
    requires pos <= |buf|
  {
    buf[pos..] + buf[..pos]
  }

  lemma WrapOnce(x: nat, size: nat)
    requires x < 2 * size
    ensures x % size == if x < size then x else x - size
  {
    if size <= x {
      assert x == size + (x - size);
    }
  }

  /** Overwriting the oldest value and moving on drops it and appends the new one. */
  lemma RotatedPush(buf: seq<real>, pos: nat, v: real)
    requires pos < |buf|
    ensures Rotated(buf[pos := v], (pos + 1) % |buf|) == Rotated(buf, pos)[1..] + [v]
  {
    WrapOnce(pos + 1, |buf|);
    if pos + 1 == |buf| {
      assert buf[pos := v] == buf[..pos] + [v];
    } else {
      assert buf[pos := v][pos + 1..] == buf[pos..][1..];
      assert buf[pos := v][..pos + 1] == buf[..pos] + [v];
    }
  }

  lemma RotatedAt(buf: seq<real>, pos: nat, i: nat)
    requires pos < |buf| && i < |buf|
    ensures (pos + i) % |buf| < |buf| && buf[(pos + i) % |buf|] == Rotated(buf, pos)[i]
  {
    WrapOnce(pos + i, |buf|);
  }

  /** A buffer of at most `size` values, the oldest at `pos`, that holds the last of those pushed. */
  ghost predicate IsRing(buf: seq<real>, pos: nat, size: nat, pushed: seq<real>) {
    && pos < size && |buf| <= size && pos <= |buf| && (|buf| < size ==> pos == 0)
    && Rotated(buf, pos) == LastOf(pushed, size)
  }

  /** A ring buffer that keeps the last `size` values. `home` names the domain and the series it
      belongs to; what was pushed so far is known to its owner. */
  class RingBuffer {
    var buf: seq<real>
    var pos: nat
    const size: nat
    ghost const home: (Id, nat)

    constructor (size: nat, ghost home: (Id, nat))
      requires 0 < size
      ensures IsRing(buf, pos, size, []) && this.size == size && this.home == home
    {
      buf, pos, this.size := [], 0, size;
      this.home := home;
    }

    /** Fills the buffer, then overwrites its oldest value. */
    method Push(v: real, ghost pushed: seq<real>)
      requires IsRing(buf, pos, size, pushed)
      modifies this
      ensures IsRing(buf, pos, size, pushed + [v])
    {
      LastOfSnoc(pushed, v, size);
      if |buf| < size {
        buf := buf + [v];
      } else {
        RotatedPush(buf, pos, v);
        buf := buf[pos := v];
        pos := (pos + 1) % size;
      }
    }

    /** The contents, oldest first. */
    method Slice(ghost pushed: seq<real>) returns (ret: seq<real>)
      requires IsRing(buf, pos, size, pushed)
      ensures ret == LastOf(pushed, size)
    {
      if |buf| < size {
        return buf;
      }
      ret := [];
      for i := 0 to size
        invariant |ret| == i && forall j :: 0 <= j < i ==> ret[j] == Rotated(buf, pos)[j]
      {
        RotatedAt(buf, pos, i);
        ret := ret + [buf[(pos + i) % size]];
      }
    }
  }

  // ---------------------------------------------------------------- snapshots

  datatype Iface = Iface(rxBps: real, txBps: real)

  datatype Disk = Disk(rdBps: real, wrBps: real)

  /** What the histories read of a VM. */
  datatype Snapshot = Snapshot(id: Id, vcpus: seq<real>, ifaces: seq<Iface>, disks: seq<Disk>,
                               exitRate: real, runqP99Us: real, collectedAt: Time)

  function NewSnapshot(id: Id): Snapshot {
    Snapshot(id, [], [], [], 0.0, 0.0, 0)
  }

  function Sum(s: seq<real>): real {
    if s == [] then 0.0 else Sum(s[..|s| - 1]) + s[|s| - 1]
  }

  /** A sum over nothing is 0, over one value that value, and over two parts the sum of both. */
  lemma {:induction false} SumAppend(a: seq<real>, b: seq<real>, x: real)
    ensures Sum([]) == 0.0 && Sum([x]) == x && Sum(a + b) == Sum(a) + Sum(b)
  {
    assert [x][..0] == [];
    if b == [] {
      assert a + b == a;
    } else {
      SumAppend(a, b[..|b| - 1], x);
      assert (a + b)[..|a + b| - 1] == a + b[..|b| - 1];
    }
  }

  function Received(ifaces: seq<Iface>): seq<real> {
    if ifaces == [] then [] else Received(ifaces[..|ifaces| - 1]) + [ifaces[|ifaces| - 1].rxBps]
  }

  function Sent(ifaces: seq<Iface>): seq<real> {
    if ifaces == [] then [] else Sent(ifaces[..|ifaces| - 1]) + [ifaces[|ifaces| - 1].txBps]
  }

  function Reads(disks: seq<Disk>): seq<real> {
    if disks == [] then [] else Reads(disks[..|disks| - 1]) + [disks[|disks| - 1].rdBps]
  }

  function Writes(disks: seq<Disk>): seq<real> {
    if disks == [] then [] else Writes(disks[..|disks| - 1]) + [disks[|disks| - 1].wrBps]
  }

  method Total(s: seq<real>) returns (t: real)
    ensures t == Sum(s)
  {
    t := 0.0;
    for i := 0 to |s|
      invariant t == Sum(s[..i])
    {
      assert s[..i + 1][..i] == s[..i];
      t := t + s[i];
    }
    assert s[..|s|] == s;
  }

  method NetRates(s: seq<Iface>) returns (rx: real, tx: real)
    ensures rx == Sum(Received(s)) && tx == Sum(Sent(s))
  {
    rx, tx := 0.0, 0.0;
    for i := 0 to |s|
      invariant rx == Sum(Received(s[..i])) && tx == Sum(Sent(s[..i]))
    {
      assert s[..i + 1][..i] == s[..i];
      assert (Received(s[..i]) + [s[i].rxBps])[..|Received(s[..i])|] == Received(s[..i]);
      assert (Sent(s[..i]) + [s[i].txBps])[..|Sent(s[..i])|] == Sent(s[..i]);
      rx, tx := rx + s[i].rxBps, tx + s[i].txBps;
    }
    assert s[..|s|] == s;
  }

  method DiskRates(s: seq<Disk>) returns (rd: real, wr: real)
    ensures rd == Sum(Reads(s)) && wr == Sum(Writes(s))
  {
    rd, wr := 0.0, 0.0;
    for i := 0 to |s|
      invariant rd == Sum(Reads(s[..i])) && wr == Sum(Writes(s[..i]))
    {
      assert s[..i + 1][..i] == s[..i];
      assert (Reads(s[..i]) + [s[i].rdBps])[..|Reads(s[..i])|] == Reads(s[..i]);
      assert (Writes(s[..i]) + [s[i].wrBps])[..|Writes(s[..i])|] == Writes(s[..i]);
      rd, wr := rd + s[i].rdBps, wr + s[i].wrBps;
    }
    assert s[..|s|] == s;
  }

  /** One sample of all seven series. */
  datatype Point = Point(cpu: real, rx: real, tx: real, diskRd: real, diskWr: real, exitRate: real, runqP99: real)

  function PointOf(d: Snapshot): Point {
    Point(Sum(d.vcpus), Sum(Received(d.ifaces)), Sum(Sent(d.ifaces)), Sum(Reads(d.disks)), Sum(Writes(d.disks)),
          d.exitRate, d.runqP99Us)
  }

  const CPU := 0
  const RX := 1
  const TX := 2
  const DISK_RD := 3
  const DISK_WR := 4
  const EXIT_RATE := 5
  const RUNQ_P99 := 6

  function Field(p: Point, k: nat): real {
    if k == CPU then p.cpu
    else if k == RX then p.rx
    else if k == TX then p.tx
    else if k == DISK_RD then p.diskRd
    else if k == DISK_WR then p.diskWr
    else if k == EXIT_RATE then p.exitRate
    else p.runqP99
  }

  /** The k-th series of a sequence of points. */
  function Series(points: seq<Point>, k: nat): (s: seq<real>)
    ensures |s| == |points| && forall i :: 0 <= i < |s| ==> s[i] == Field(points[i], k)
  {
    if points == [] then [] else Series(points[..|points| - 1], k) + [Field(points[|points| - 1], k)]
  }

  lemma SeriesSnoc(points: seq<Point>, p: Point, k: nat)
    ensures Series(points + [p], k) == Series(points, k) + [Field(p, k)]
  {
    assert (points + [p])[..|points|] == points;
  }

  lemma SeriesLast(points: seq<Point>, k: nat)
    ensures LastOf(Series(points, k), HISTORY_LEN) == Series(LastOf(points, HISTORY_LEN), k)
  {
  }

  // ---------------------------------------------------------------- runs of the store

  /** A VM of the store: its latest snapshot and every sample committed since it was created. */
  datatype Domain = Domain(latest: Snapshot, points: seq<Point>)

  type Domains = map<Id, Domain>

  datatype Op =
    | Upsert(id: Id, fn: Snapshot -> Snapshot)
    | Mutate(id: Id, fn: Snapshot -> Snapshot)
    | Retain(keep: set<Id>)
    | Commit(now: Time)

  function Changed(d: Domain, fn: Snapshot -> Snapshot): Domain {
    d.(latest := fn(d.latest))
  }

  function Committed(d: Domain, now: Time): Domain {
    Domain(d.latest.(collectedAt := now), d.points + [PointOf(d.latest)])
  }

  function Kept(s: Domains, keep: set<Id>): (r: Domains)
    ensures r.Keys == s.Keys * keep
  {
    map id | id in s && id in keep :: s[id]
  }

  function Apply(s: Domains, op: Op): Domains {
    match op
    case Upsert(id, fn) => s[id := Changed(if id in s then s[id] else Domain(NewSnapshot(id), []), fn)]
    case Mutate(id, fn) => if id in s then s[id := Changed(s[id], fn)] else s
    case Retain(keep) => Kept(s, keep)
    case Commit(now) => map id | id in s :: Committed(s[id], now)
  }

  function Run(ops: seq<Op>): Domains {
    if ops == [] then map[] else Apply(Run(ops[..|ops| - 1]), ops[|ops| - 1])
  }

  lemma RunSnoc(ops: seq<Op>, op: Op)
    ensures Run(ops + [op]) == Apply(Run(ops), op)
  {
    assert (ops + [op])[..|ops|] == ops;
  }

  ghost predicate Present(ops: seq<Op>, id: Id, j: nat) {
    j <= |ops| && id in Run(ops[..j])
  }

  /** The commits that a VM has seen: those with the VM in the store from then to the end. */
  ghost predicate Seen(ops: seq<Op>, id: Id, c: nat) {
    c < |ops| && ops[c].Commit? && forall j :: c <= j <= |ops| ==> Present(ops, id, j)
  }

  /** The same commits by their index, oldest first. */
  function Commits(ops: seq<Op>, id: Id): seq<nat> {
    if ops == [] || id !in Run(ops) then []
    else Commits(ops[..|ops| - 1], id) + if ops[|ops| - 1].Commit? then [|ops| - 1] else []
  }

  lemma {:induction false} CommitsAreSeen(ops: seq<Op>, id: Id)
    ensures var cs := Commits(ops, id);
            forall c: nat :: c in cs <==> Seen(ops, id, c)
  {
    assert ops[..|ops|] == ops;
    if ops != [] {
      CommitsAreSeen(ops[..|ops| - 1], id);
      if id in Run(ops) {
        forall c: nat ensures c in Commits(ops, id) <==> Seen(ops, id, c) {
          SeenSnoc(ops, id, c);
        }
      } else {
        assert !Present(ops, id, |ops|);
      }
    }
  }

  lemma SeenSnoc(ops: seq<Op>, id: Id, c: nat)
    requires ops != [] && id in Run(ops)
    ensures Seen(ops, id, c) <==> Seen(ops[..|ops| - 1], id, c) || (c == |ops| - 1 && ops[|ops| - 1].Commit?)
  {
    var n := |ops| - 1;
    if Seen(ops, id, c) && c < n {
      SeenEarlier(ops, id, c);
    }
    if Seen(ops[..n], id, c) {
      SeenStill(ops, id, c);
    }
    if c == n && ops[n].Commit? {
      SeenNow(ops, id);
    }
  }

  lemma SeenNow(ops: seq<Op>, id: Id)
    requires ops != [] && id in Run(ops) && ops[|ops| - 1].Commit?
    ensures Seen(ops, id, |ops| - 1)
  {
    var n := |ops| - 1;
    PresentBeforeCommit(ops, id);
    forall j | n <= j <= |ops| ensures Present(ops, id, j) {
      assert j == n || j == |ops|;
    }
  }

  lemma PresentBeforeCommit(ops: seq<Op>, id: Id)
    requires ops != [] && id in Run(ops) && ops[|ops| - 1].Commit?
    ensures Present(ops, id, |ops| - 1) && Present(ops, id, |ops|)
  {
    var n := |ops| - 1;
    assert ops[..n + 1] == ops;
    assert Run(ops) == Apply(Run(ops[..n]), ops[n]);
    CommitKeepsDomains(Run(ops[..n]), ops[n].now);
  }

  lemma CommitKeepsDomains(s: Domains, now: Time)
    ensures Apply(s, Op.Commit(now)).Keys == s.Keys
  {
  }

  lemma SeenEarlier(ops: seq<Op>, id: Id, c: nat)
    requires c < |ops| - 1 && Seen(ops, id, c)
    ensures Seen(ops[..|ops| - 1], id, c)
  {
    var n := |ops| - 1;
    forall j | c <= j <= n ensures Present(ops[..n], id, j) {
      PresentEarlier(ops, id, n, j);
    }
  }

  lemma SeenStill(ops: seq<Op>, id: Id, c: nat)
    requires ops != [] && id in Run(ops) && Seen(ops[..|ops| - 1], id, c)
    ensures Seen(ops, id, c)
  {
    var n := |ops| - 1;
    assert ops[..n + 1] == ops;
    forall j | c <= j <= n + 1 ensures Present(ops, id, j) {
      if j <= n {
        PresentEarlier(ops, id, n, j);
      }
    }
  }

  lemma PresentEarlier(ops: seq<Op>, id: Id, n: nat, j: nat)
    requires j <= n <= |ops|
    ensures Present(ops, id, j) <==> Present(ops[..n], id, j)
  {
    assert ops[..n][..j] == ops[..j];
  }

  lemma {:induction false} CommitsInOrder(ops: seq<Op>, id: Id)
    ensures var cs := Commits(ops, id);
            && (forall i :: 0 <= i < |cs| ==> cs[i] < |ops|)
            && forall i, j :: 0 <= i < j < |cs| ==> cs[i] < cs[j]
  {
    if ops != [] {
      var init := ops[..|ops| - 1];
      CommitsInOrder(init, id);
      assert id in Run(ops) ==> Commits(ops, id) == Commits(init, id) + if ops[|ops| - 1].Commit? then [|ops| - 1] else [];
    }
  }

  /** Aligned histories: the samples of a VM are those of the commits it has seen, one from each and
      in their order, taken from its snapshot as it stood at that commit. */
  lemma {:induction false} PointsAreCommits(ops: seq<Op>, id: Id)
    requires id in Run(ops)
    ensures var cs, points := Commits(ops, id), Run(ops)[id].points;
            && |points| == |cs|
            && forall i :: 0 <= i < |cs| ==>
                 && cs[i] < |ops| && id in Run(ops[..cs[i]])
                 && points[i] == PointOf(Run(ops[..cs[i]])[id].latest)
  {
    var n := |ops| - 1;
    var init := ops[..n];
    assert ops[..n] == init;
    if id in Run(init) {
      PointsAreCommits(init, id);
      assert forall j :: 0 <= j <= n ==> init[..j] == ops[..j];
    } else {
      NoCommitWhileAbsent(init, id);
    }
  }

  /** Each value of the point is the total it is named after. */
  ghost predicate Samples(p: Point, d: Snapshot) {
    && p.cpu == Sum(d.vcpus) && p.rx == Sum(Received(d.ifaces)) && p.tx == Sum(Sent(d.ifaces))
    && p.diskRd == Sum(Reads(d.disks)) && p.diskWr == Sum(Writes(d.disks))
    && p.exitRate == d.exitRate && p.runqP99 == d.runqP99Us
  }

  /** The VM has seen commit c, and p is its sample at that commit. */
  ghost predicate SampledAt(ops: seq<Op>, id: Id, c: nat, p: Point) {
    Seen(ops, id, c) && id in Run(ops[..c]) && Samples(p, Run(ops[..c])[id].latest)
  }

  lemma LastOfAt<S, T>(a: seq<S>, b: seq<T>, n: nat, i: nat)
    requires |a| == |b| && i < |LastOf(a, n)|
    ensures |LastOf(b, n)| == |LastOf(a, n)|
    ensures exists j :: 0 <= j < |a| && LastOf(a, n)[i] == a[j] && LastOf(b, n)[i] == b[j]
  {
    assert LastOf(a, n)[i] == a[|a| - |LastOf(a, n)| + i];
  }

  lemma NoCommitWhileAbsent(ops: seq<Op>, id: Id)
    requires id !in Run(ops)
    ensures Commits(ops, id) == []
  {
  }

  // ---------------------------------------------------------------- the latest snapshot

  /** Right after a commit, the last sample of a VM is that of its latest snapshot. */
  lemma CommittedNow(ops: seq<Op>, now: Time, id: Id)
    requires id in Run(ops + [Op.Commit(now)])
    ensures var d := Run(ops + [Op.Commit(now)])[id];
            d.points != [] && Samples(d.points[|d.points| - 1], d.latest) && d.latest.collectedAt == now
  {
    RunSnoc(ops, Op.Commit(now));
    assert id in Run(ops);
    assert Run(ops + [Op.Commit(now)])[id] == Committed(Run(ops)[id], now);
  }

  /** A snapshot after the calls about the VM, and the stamps of all commits. */
  function Folded(d: Snapshot, ops: seq<Op>, id: Id): Snapshot {
    if ops == [] then d
    else
      var e := Folded(d, ops[..|ops| - 1], id);
      match ops[|ops| - 1]
      case Upsert(i, fn) => if i == id then fn(e) else e
      case Mutate(i, fn) => if i == id then fn(e) else e
      case Retain(_) => e
      case Commit(now) => e.(collectedAt := now)
  }

  /** The VM was created by call b and has been there since. */
  ghost predicate BornAt(ops: seq<Op>, id: Id, b: nat) {
    && b < |ops| && ops[b].Upsert? && ops[b].id == id && !Present(ops, id, b)
    && forall j :: b < j <= |ops| ==> Present(ops, id, j)
  }

  lemma BornLater(ops: seq<Op>, id: Id, b: nat)
    requires ops != [] && id in Run(ops) && BornAt(ops[..|ops| - 1], id, b)
    ensures BornAt(ops, id, b)
  {
    var n := |ops| - 1;
    PresentEarlier(ops, id, n, b);
    forall j | b < j <= |ops| ensures Present(ops, id, j) {
      if j <= n {
        PresentEarlier(ops, id, n, j);
      } else {
        assert ops[..|ops|] == ops;
      }
    }
  }

  lemma BornNow(ops: seq<Op>, id: Id)
    requires ops != [] && id in Run(ops) && id !in Run(ops[..|ops| - 1])
    ensures BornAt(ops, id, |ops| - 1)
    ensures Run(ops)[id].latest == Folded(NewSnapshot(id), ops[|ops| - 1..], id)
  {
    var n := |ops| - 1;
    assert ops[..|ops|] == ops && ops[n..] == [ops[n]] && [ops[n]][..0] == [];
    assert Run(ops) == Apply(Run(ops[..n]), ops[n]);
  }

  lemma LatestNext(s: Domains, op: Op, id: Id, d: Snapshot, since: seq<Op>)
    requires id in s && id in Apply(s, op) && s[id].latest == Folded(d, since, id)
    ensures Apply(s, op)[id].latest == Folded(d, since + [op], id)
  {
    assert (since + [op])[..|since|] == since;
  }

  /** The latest snapshot of a VM is what the functions of all Upserts and Mutates since its creation
      make of an empty one, in their order, with the stamp of the last commit. */
  lemma {:induction false} LatestIsFolded(ops: seq<Op>, id: Id) returns (b: nat)
    requires id in Run(ops)
    ensures BornAt(ops, id, b) && Run(ops)[id].latest == Folded(NewSnapshot(id), ops[b..], id)
  {
    var n := |ops| - 1;
    if id in Run(ops[..n]) {
      b := LatestIsFolded(ops[..n], id);
      BornLater(ops, id, b);
      LatestNext(Run(ops[..n]), ops[n], id, NewSnapshot(id), ops[..n][b..]);
      assert ops[b..] == ops[..n][b..] + [ops[n]];
    } else {
      b := n;
      BornNow(ops, id);
    }
  }

  // ---------------------------------------------------------------- the store itself

  /** A VM's entry: its snapshot and its seven ring buffers. */
  class Entry {
    var latest: Snapshot
    const cpu: RingBuffer
    const rx: RingBuffer
    const tx: RingBuffer
    const diskRd: RingBuffer
    const diskWr: RingBuffer
    const exitRate: RingBuffer
    const runqP99: RingBuffer
    ghost const id: Id
    ghost const rings: set<RingBuffer>
    ghost var points: seq<Point>

    function Ring(k: nat): RingBuffer {
      if k == CPU then cpu
      else if k == RX then rx
      else if k == TX then tx
      else if k == DISK_RD then diskRd
      else if k == DISK_WR then diskWr
      else if k == EXIT_RATE then exitRate
      else runqP99
    }

    ghost predicate Owns(k: nat) {
      Ring(k) in rings && Ring(k).home == (id, k) && Ring(k).size == HISTORY_LEN
    }

    ghost predicate Keeps(k: nat)
      reads this`points, Ring(k)
    {
      IsRing(Ring(k).buf, Ring(k).pos, HISTORY_LEN, Series(points, k))
    }

    /** Each ring is the entry's own and holds its series of the points. */
    ghost predicate Valid()
      reads this`points, rings
    {
      && (forall r :: r in rings ==> r.home.0 == id)
      && forall k :: 0 <= k <= RUNQ_P99 ==> Owns(k) && Keeps(k)
    }

    constructor (ghost id: Id)
      ensures latest == NewSnapshot("") && this.id == id && points == []
      ensures fresh(rings) && rings == {cpu, rx, tx, diskRd, diskWr, exitRate, runqP99}
      ensures IsNew(cpu, id, CPU) && IsNew(rx, id, RX) && IsNew(tx, id, TX)
      ensures IsNew(diskRd, id, DISK_RD) && IsNew(diskWr, id, DISK_WR)
      ensures IsNew(exitRate, id, EXIT_RATE) && IsNew(runqP99, id, RUNQ_P99)
    {
      latest := NewSnapshot("");
      var a := NewRing(id, CPU);
      var b := NewRing(id, RX);
      var c := NewRing(id, TX);
      var d := NewRing(id, DISK_RD);
      var e := NewRing(id, DISK_WR);
      var f := NewRing(id, EXIT_RATE);
      var g := NewRing(id, RUNQ_P99);
      cpu, rx, tx, diskRd, diskWr, exitRate, runqP99 := a, b, c, d, e, f, g;
      this.id := id;
      points := [];
      rings := {a, b, c, d, e, f, g};
    }

    /** The first n series have a value of the new point, the others not yet. */
    ghost predicate Pushed(n: nat, p: Point)
      reads this`points, rings
    {
      && (forall r :: r in rings ==> r.home.0 == id)
      && forall k :: 0 <= k <= RUNQ_P99 ==>
           Owns(k) && IsRing(Ring(k).buf, Ring(k).pos, HISTORY_LEN, Series(if k < n then points + [p] else points, k))
    }

    method PushOn(k: nat, v: real, ghost p: Point)
      requires Pushed(k, p) && k <= RUNQ_P99 && v == Field(p, k)
      modifies rings
      ensures Pushed(k + 1, p)
    {
      assert Owns(k);
      SeriesSnoc(points, p, k);
      Ring(k).Push(v, Series(points, k));
      forall j | 0 <= j <= RUNQ_P99 && j != k ensures Owns(j) && Ring(j) != Ring(k) {
        assert Owns(j);
      }
    }

    lemma NonePushed(p: Point)
      requires Valid()
      ensures Pushed(0, p)
    {
      forall k | 0 <= k <= RUNQ_P99
        ensures Owns(k) && IsRing(Ring(k).buf, Ring(k).pos, HISTORY_LEN, Series(if k < 0 then points + [p] else points, k))
      {
        assert Owns(k) && Keeps(k);
      }
    }

    ghost method AllPushed(p: Point)
      requires Pushed(RUNQ_P99 + 1, p)
      modifies this`points
      ensures Valid() && points == old(points) + [p]
    {
      points := points + [p];
    }

    method PushCpuAndNet(ghost p: Point)
      requires Pushed(CPU, p) && p == PointOf(latest)
      modifies rings
      ensures Pushed(DISK_RD, p)
    {
      var v := Total(latest.vcpus);
      PushOn(CPU, v, p);
      var r, t := NetRates(latest.ifaces);
      PushOn(RX, r, p);
      PushOn(TX, t, p);
    }

    method PushDiskAndKvm(ghost p: Point)
      requires Pushed(DISK_RD, p) && p == PointOf(latest)
      modifies rings
      ensures Pushed(RUNQ_P99 + 1, p)
    {
      var rd, wr := DiskRates(latest.disks);
      PushOn(DISK_RD, rd, p);
      PushOn(DISK_WR, wr, p);
      PushOn(EXIT_RATE, latest.exitRate, p);
      PushOn(RUNQ_P99, latest.runqP99Us, p);
    }

    /** Stamps the snapshot and pushes one value on every series. */
    method Commit(now: Time)
      requires Valid()
      modifies this`latest, this`points, rings
      ensures Valid()
      ensures Domain(latest, points) == Committed(Domain(old(latest), old(points)), now)
    {
      ghost var p := PointOf(latest);
      latest := latest.(collectedAt := now);
      NonePushed(p);
      PushCpuAndNet(p);
      PushDiskAndKvm(p);
      AllPushed(p);
    }

    method SliceOf(k: nat) returns (ret: seq<real>)
      requires Owns(k) && Keeps(k)
      ensures ret == Series(LastOf(points, HISTORY_LEN), k)
    {
      SeriesLast(points, k);
      ret := Ring(k).Slice(Series(points, k));
    }

    method History() returns (h: DomainHistory)
      requires Valid()
      ensures h == HistoryOf(LastOf(points, HISTORY_LEN))
    {
      var a := SliceOf(CPU);
      var b := SliceOf(RX);
      var c := SliceOf(TX);
      var d := SliceOf(DISK_RD);
      var e := SliceOf(DISK_WR);
      var f := SliceOf(EXIT_RATE);
      var g := SliceOf(RUNQ_P99);
      h := DomainHistory(a, b, c, d, e, f, g);
    }
  }

  ghost predicate IsNew(r: RingBuffer, id: Id, k: nat)
    reads r
  {
    IsRing(r.buf, r.pos, HISTORY_LEN, []) && r.size == HISTORY_LEN && r.home == (id, k)
  }

  method NewRing(ghost id: Id, ghost k: nat) returns (r: RingBuffer)
    ensures fresh(r) && IsNew(r, id, k)
  {
    r := new RingBuffer(HISTORY_LEN, (id, k));
  }

  method NewEntry(ghost id: Id) returns (e: Entry)
    ensures fresh(e) && fresh(e.rings) && e.Valid()
    ensures e.id == id && e.latest == NewSnapshot("") && e.points == []
  {
    e := new Entry(id);
    forall k | 0 <= k <= RUNQ_P99 ensures e.Owns(k) && e.Keeps(k) {
      assert IsNew(e.Ring(k), id, k);
    }
  }

  datatype DomainHistory = DomainHistory(cpu: seq<real>, rx: seq<real>, tx: seq<real>, diskRd: seq<real>, diskWr: seq<real>,
                             exitRate: seq<real>, runqP99: seq<real>)

  /** The seven series of a sequence of points. */
  function HistoryOf(points: seq<Point>): DomainHistory {
    DomainHistory(Series(points, CPU), Series(points, RX), Series(points, TX), Series(points, DISK_RD),
            Series(points, DISK_WR), Series(points, EXIT_RATE), Series(points, RUNQ_P99))
  }

  /** What the store returns for a VM: all seven series come from the same, most recent commits
      that the VM has seen, at most 120 of them and as many as there are, oldest first. */
  lemma AlignedHistories(ops: seq<Op>, id: Id)
    requires id in Run(ops)
    ensures var h := HistoryOf(LastOf(Run(ops)[id].points, HISTORY_LEN));
            var cs := LastOf(Commits(ops, id), HISTORY_LEN);
            && Even(h, |cs|) && |cs| <= 120 && (|cs| < 120 ==> cs == Commits(ops, id))
            && forall i :: 0 <= i < |cs| ==> SampledAt(ops, id, cs[i], PointAt(h, |cs|, i))
  {
    PointsAreCommits(ops, id);
    CommitsAreSeen(ops, id);
    var points, cs := Run(ops)[id].points, Commits(ops, id);
    var last, seen := LastOf(points, HISTORY_LEN), LastOf(cs, HISTORY_LEN);
    HistoryIsEven(last);
    forall i | 0 <= i < |seen| ensures SampledAt(ops, id, seen[i], PointAt(HistoryOf(last), |seen|, i)) {
      HistoryAt(last, i);
      LastOfAt(points, cs, HISTORY_LEN, i);
    }
  }

  /** All seven series have n values. */
  predicate Even(h: DomainHistory, n: nat) {
    |h.cpu| == |h.rx| == |h.tx| == |h.diskRd| == |h.diskWr| == |h.exitRate| == |h.runqP99| == n
  }

  /** The values at one position of all seven series. */
  function PointAt(h: DomainHistory, n: nat, i: nat): Point
    requires Even(h, n) && i < n
  {
    Point(h.cpu[i], h.rx[i], h.tx[i], h.diskRd[i], h.diskWr[i], h.exitRate[i], h.runqP99[i])
  }

  lemma HistoryIsEven(points: seq<Point>)
    ensures Even(HistoryOf(points), |points|)
  {
  }

  lemma HistoryAt(points: seq<Point>, i: nat)
    requires i < |points|
    ensures Even(HistoryOf(points), |points|) && PointAt(HistoryOf(points), |points|, i) == points[i]
  {
  }

  /** The store: a map of entries that agrees with the run of all operations so far. */
  class DomainStore {
    var domains: map<Id, Entry>
    ghost var ops: seq<Op>
    ghost var repr: set<object>

    ghost predicate Holds(s: Domains)
      reads this`domains, this`repr, repr
    {
      && domains.Keys == s.Keys
      && forall id :: id in domains ==> HoldsAt(id, s[id])
    }

    ghost predicate HoldsAt(id: Id, d: Domain)
      requires id in domains
      reads this`domains, this`repr, repr
    {
      var e := domains[id];
      && e in repr && e.rings <= repr
      && e.id == id && e.Valid() && Domain(e.latest, e.points) == d
    }

    ghost predicate Valid()
      reads this, repr
    {
      this !in repr && Holds(Run(ops))
    }

    constructor ()
      ensures Valid() && ops == [] && repr == {}
    {
      domains, ops, repr := map[], [], {};
    }

    ghost method Record(op: Op)
      requires this !in repr && Holds(Apply(Run(ops), op))
      modifies this`ops
      ensures Valid() && ops == old(ops) + [op]
    {
      RunSnoc(ops, op);
      ops := ops + [op];
    }

    /** Applies fn to an entry's snapshot. */
    method Change(id: Id, e: Entry, fn: Snapshot -> Snapshot, ghost s: Domains)
      requires this !in repr && Holds(s) && id in domains && e == domains[id]
      modifies e`latest
      ensures Holds(s[id := Changed(s[id], fn)])
    {
      e.latest := fn(e.latest);
    }

    method Create(id: Id, ghost s: Domains)
      requires this !in repr && Holds(s) && id !in domains
      modifies this`domains, this`repr
      ensures this !in repr && fresh(repr - old(repr)) && id in domains
      ensures Holds(s[id := Domain(NewSnapshot(id), [])])
    {
      var e := NewEntry(id);
      e.latest := e.latest.(id := id);
      repr := repr + {e} + e.rings;
      domains := domains[id := e];
    }

    method Upsert(id: Id, fn: Snapshot -> Snapshot)
      requires Valid()
      modifies this, repr
      ensures Valid() && ops == old(ops) + [Op.Upsert(id, fn)] && fresh(repr - old(repr))
    {
      ghost var s := Run(ops);
      if id !in domains {
        Create(id, s);
        s := s[id := Domain(NewSnapshot(id), [])];
      }
      Change(id, domains[id], fn, s);
      Record(Op.Upsert(id, fn));
    }

    method Mutate(id: Id, fn: Snapshot -> Snapshot) returns (found: bool)
      requires Valid()
      modifies this`ops, repr
      ensures Valid() && ops == old(ops) + [Op.Mutate(id, fn)]
      ensures found == (id in old(domains))
    {
      found := id in domains;
      if found {
        Change(id, domains[id], fn, Run(ops));
      }
      Record(Op.Mutate(id, fn));
    }

    /** Drops every domain not in keep; the order in which they are listed is open. */
    method Drop(keep: set<Id>) returns (removed: seq<Id>)
      modifies this`domains
      ensures domains.Keys == old(domains).Keys * keep
      ensures forall id :: id in domains ==> domains[id] == old(domains)[id]
      ensures forall id :: id in removed <==> id in old(domains) && id !in keep
      ensures |removed| == |old(domains).Keys - keep|
    {
      removed := [];
      var todo := domains.Keys;
      ghost var was, gone: set<Id> := domains, {};
      while todo != {}
        invariant todo <= was.Keys && |removed| == |gone|
        invariant forall id :: id in domains <==> id in was && id !in gone
        invariant forall id :: id in domains ==> domains[id] == was[id]
        invariant forall id :: id in removed <==> id in gone
        invariant forall id :: id in gone <==> id in was && id !in keep && id !in todo
        decreases |todo|
      {
        var id :| id in todo;
        todo := todo - {id};
        if id !in keep {
          domains := domains - {id};
          removed := removed + [id];
          gone := gone + {id};
        }
      }
      assert gone == was.Keys - keep;
    }

    method RetainUnder(keep: set<Id>, ghost s: Domains) returns (removed: seq<Id>)
      requires this !in repr && Holds(s)
      modifies this`domains
      ensures Holds(Kept(s, keep))
      ensures forall id :: id in removed <==> id in old(domains) && id !in keep
      ensures |removed| == |old(domains).Keys - keep|
    {
      removed := Drop(keep);
      ghost var next := Kept(s, keep);
      forall id | id in domains ensures HoldsAt(id, next[id]) {
        assert old(HoldsAt(id, s[id]));
        assert next[id] == s[id];
      }
      assert domains.Keys == next.Keys;
    }

    /** Keeps only what is in keep and lists every other domain once. */
    method Retain(keep: set<Id>) returns (removed: seq<Id>)
      requires Valid()
      modifies this`domains, this`ops
      ensures Valid() && ops == old(ops) + [Op.Retain(keep)]
      ensures forall id :: id in removed <==> id in old(domains) && id !in keep
      ensures |removed| == |old(domains).Keys - keep|
    {
      removed := RetainUnder(keep, Run(ops));
      Record(Op.Retain(keep));
    }

    /** Commits one entry. */
    method CommitOne(id: Id, e: Entry, now: Time, ghost s: Domains)
      requires this !in repr && Holds(s) && id in domains && e == domains[id]
      modifies e`latest, e`points, e.rings
      ensures Holds(s[id := Committed(s[id], now)])
    {
      e.Commit(now);
      forall k | k in domains && k != id ensures HoldsAt(k, s[k]) {
        assert old(HoldsAt(k, s[k]));
        Apart(domains[k], e);
      }
    }

    /** Commits the entries one by one, in some order. */
    method CommitAll(now: Time, ghost s: Domains)
      requires this !in repr && Holds(s)
      modifies repr
      ensures Holds(Apply(s, Op.Commit(now)))
    {
      var todo := domains.Keys;
      PartlyCommittedEnds(s, now);
      while todo != {}
        invariant todo <= domains.Keys && Holds(PartlyCommitted(s, todo, now))
        decreases |todo|
      {
        var id :| id in todo;
        ghost var cur := PartlyCommitted(s, todo, now);
        PartlyCommittedNext(s, todo, now, id);
        todo := todo - {id};
        assert HoldsAt(id, cur[id]);
        CommitOne(id, domains[id], now, cur);
      }
    }

    /** Records one sample of every domain. */
    method Commit(now: Time)
      requires Valid()
      modifies this`ops, repr
      ensures Valid() && ops == old(ops) + [Op.Commit(now)]
    {
      CommitAll(now, Run(ops));
      Record(Op.Commit(now));
    }

    /** All seven series are the last samples of the same commits; an unknown id has none. */
    method History(id: Id) returns (h: DomainHistory)
      requires Valid()
      ensures h == HistoryOf(if id in Run(ops) then LastOf(Run(ops)[id].points, HISTORY_LEN) else [])
    {
      if id !in domains {
        return HistoryOf([]);
      }
      var e := domains[id];
      assert HoldsAt(id, Run(ops)[id]);
      h := e.History();
    }
  }

  function PartlyCommitted(s: Domains, todo: set<Id>, now: Time): Domains {
    map id | id in s :: if id in todo then s[id] else Committed(s[id], now)
  }

  lemma PartlyCommittedEnds(s: Domains, now: Time)
    ensures PartlyCommitted(s, s.Keys, now) == s
    ensures PartlyCommitted(s, {}, now) == Apply(s, Op.Commit(now))
  {
  }

  lemma PartlyCommittedNext(s: Domains, todo: set<Id>, now: Time, id: Id)
    requires id in s && id in todo
    ensures PartlyCommitted(s, todo - {id}, now)
         == PartlyCommitted(s, todo, now)[id := Committed(PartlyCommitted(s, todo, now)[id], now)]
  {
  }

  /** Entries of different ids share no ring. */
  lemma Apart(a: Entry, b: Entry)
    requires a.Valid() && b.Valid() && a.id != b.id
    ensures a.rings !! b.rings
  {
  }
}
