/**
 The streaming merges over PID-sorted process snapshots: the two-pointer join of two snapshots and
 the three-pointer accumulation over a whole window, each against a per-PID specification.
 */
module ProcessMerge {
  import opened Options

  const CAPACITY: nat := 2048
  const WORD32: nat := 0x1_0000_0000
  const WORD64: nat := 0x1_0000_0000_0000_0000

  // ------------------------------------------------------------------ samples

  /** Positions of the cumulative counters in a sample. */
  const UTIME := 0
  const STIME := 1
  const VOLUNTARY := 2
  const NONVOLUNTARY := 3
  const READ_BYTES := 4
  const WRITE_BYTES := 5
  const IO_SYSCALLS := 6
  const MINFLT := 7
  const MAJFLT := 8
  const GFX_NS := 9
  const COMPUTE_NS := 10
  const DEC_NS := 11
  const ENC_NS := 12
  const COUNTERS := 13

  type Counters = c: seq<nat> | |c| == COUNTERS witness [0, 0, 0, 0, 0, 0, 0, 0, 0, 0, 0, 0, 0]

  const NO_COUNTS: Counters := [0, 0, 0, 0, 0, 0, 0, 0, 0, 0, 0, 0, 0]

  datatype Identity = Identity(ppid: int, comm: string, uid: nat)

  datatype Gauges = Gauges(cpuCore: int, threads: nat, nice: int, priority: nat)

  datatype Sample = Sample(
    pid: int, who: Identity, gauges: Gauges, timerslack: nat,
    pss: nat, rss: nat, sockets: nat, vram: nat, counts: Counters)

  type Snapshot = seq<Sample>

  /** The fault counters are 32-bit words, the others 64-bit. */
  function Width(c: nat): nat {
    if c == MINFLT || c == MAJFLT then WORD32 else WORD64
  }

  ghost predicate StrictlySorted(s: Snapshot) {
    forall i, j :: 0 <= i < j < |s| ==> s[i].pid < s[j].pid
  }

  /** The sample of a PID, if the snapshot has one. */
  function Find(s: Snapshot, pid: int): Option<Sample> {
    if s == [] then None
    else if s[0].pid == pid then Some(s[0])
    else Find(s[1..], pid)
  }

  ghost function Pids(s: Snapshot): set<int> {
    set i | 0 <= i < |s| :: s[i].pid
  }

  lemma PidsOfTail(s: Snapshot)
    requires s != []
    ensures Pids(s) == {s[0].pid} + Pids(s[1..])
  {
  }

  lemma {:induction false} FindFinds(s: Snapshot, pid: int)
    ensures Find(s, pid).Some? <==> pid in Pids(s)
    ensures Find(s, pid).Some? ==> Find(s, pid).value.pid == pid
    decreases |s|
  {
    if s != [] {
      PidsOfTail(s);
      FindFinds(s[1..], pid);
    }
  }

  /** A sorted snapshot is as long as its set of PIDs is large. */
  lemma {:induction false} PidsCount(s: Snapshot)
    requires StrictlySorted(s)
    ensures |Pids(s)| == |s|
    decreases |s|
  {
    if s != [] {
      PidsOfTail(s);
      PidsCount(s[1..]);
      FindNothing(s[1..], s[0].pid);
      FindFinds(s[1..], s[0].pid);
    }
  }

  lemma {:induction false} FindAt(s: Snapshot, i: nat)
    requires StrictlySorted(s) && i < |s|
    ensures Find(s, s[i].pid) == Some(s[i])
    decreases i
  {
    if i > 0 {
      FindAt(s[1..], i - 1);
    }
  }

  lemma {:induction false} FindNothing(s: Snapshot, pid: int)
    requires forall i :: 0 <= i < |s| ==> s[i].pid != pid
    ensures Find(s, pid) == None
    decreases |s|
  {
    if s != [] {
      FindNothing(s[1..], pid);
    }
  }

  // ------------------------------------------------------------------ join of two snapshots

  datatype Delta = Delta(
    pid: int, ticks: nat, gpuNs: nat, wakeups: nat, ioBytes: nat, ioSyscalls: nat, minflt: nat, majflt: nat,
    rss: nat, pss: nat, sockets: nat, crossCcx: bool)
  {
    /** The tick delta is stored in 32 bits. */
    function CpuTicks(): nat {
      ticks % WORD32
    }
  }

  function Sum64(s: Sample, fields: seq<nat>): nat
    requires forall i :: 0 <= i < |fields| ==> fields[i] < COUNTERS
  {
    if fields == [] then 0 else (Sum64(s, fields[..|fields| - 1]) + s.counts[fields[|fields| - 1]]) % WORD64
  }

  function Saturating(before: nat, after: nat): nat {
    if after >= before then after - before else 0
  }

  function Max(a: nat, b: nat): nat {
    if a >= b then a else b
  }

  /** C++ division truncates toward zero; a negative core never reaches it. */
  function CrossCcx(before: int, after: int, ticks: nat): bool {
    before >= 0 && after >= 0 && before / 8 != after / 8 && ticks > 0
  }

  const TICK_FIELDS: seq<nat> := [UTIME, STIME]
  const GPU_FIELDS: seq<nat> := [GFX_NS, COMPUTE_NS, DEC_NS, ENC_NS]

  function DeltaOf(p1: Sample, p2: Sample): Delta {
    var ticks := Saturating(Sum64(p1, TICK_FIELDS), Sum64(p2, TICK_FIELDS));
    Delta(p2.pid,
          ticks,
          Saturating(Sum64(p1, GPU_FIELDS), Sum64(p2, GPU_FIELDS)),
          Saturating(Sum64(p1, [VOLUNTARY, NONVOLUNTARY]), Sum64(p2, [VOLUNTARY, NONVOLUNTARY])),
          Saturating(Sum64(p1, [READ_BYTES, WRITE_BYTES]), Sum64(p2, [READ_BYTES, WRITE_BYTES])),
          Saturating(p1.counts[IO_SYSCALLS], p2.counts[IO_SYSCALLS]),
          Saturating(p1.counts[MINFLT], p2.counts[MINFLT]),
          Saturating(p1.counts[MAJFLT], p2.counts[MAJFLT]),
          if p2.rss > 0 then p2.rss else p1.rss,
          if p2.pss > 0 then p2.pss else p1.pss,
          Max(p1.sockets, p2.sockets),
          CrossCcx(p1.gauges.cpuCore, p2.gauges.cpuCore, ticks))
  }

  /** What the two advancing indexes visit. */
  function Join(p1: Snapshot, p2: Snapshot): seq<Delta>
    decreases |p1| + |p2|
  {
    if p1 == [] || p2 == [] then []
    else if p1[0].pid < p2[0].pid then Join(p1[1..], p2)
    else if p1[0].pid > p2[0].pid then Join(p1, p2[1..])
    else [DeltaOf(p1[0], p2[0])] + Join(p1[1..], p2[1..])
  }

  ghost predicate DeltasSorted(ds: seq<Delta>) {
    forall i, j :: 0 <= i < j < |ds| ==> ds[i].pid < ds[j].pid
  }

  function FindDelta(ds: seq<Delta>, pid: int): Option<Delta> {
    if ds == [] then None
    else if ds[0].pid == pid then Some(ds[0])
    else FindDelta(ds[1..], pid)
  }

  /** A PID has a delta exactly when both snapshots hold it, and it is that of its two samples. */
  function DeltaAt(p1: Option<Sample>, p2: Option<Sample>): Option<Delta> {
    if p1.Some? && p2.Some? then Some(DeltaOf(p1.value, p2.value)) else None
  }

  lemma {:induction false} JoinIsIntersection(p1: Snapshot, p2: Snapshot, pid: int)
    requires StrictlySorted(p1) && StrictlySorted(p2)
    ensures FindDelta(Join(p1, p2), pid) == DeltaAt(Find(p1, pid), Find(p2, pid))
    decreases |p1| + |p2|
  {
    if p1 == [] || p2 == [] {
    } else if p1[0].pid < p2[0].pid {
      JoinIsIntersection(p1[1..], p2, pid);
      if p1[0].pid == pid {
        FindNothing(p1[1..], pid);
        FindNothing(p2, pid);
      }
    } else if p1[0].pid > p2[0].pid {
      JoinIsIntersection(p1, p2[1..], pid);
      if p2[0].pid == pid {
        FindNothing(p1, pid);
        FindNothing(p2[1..], pid);
      }
    } else {
      JoinIsIntersection(p1[1..], p2[1..], pid);
    }
  }

  lemma {:induction false} JoinAbove(p1: Snapshot, p2: Snapshot, low: int)
    requires forall i :: 0 <= i < |p1| ==> low < p1[i].pid
    ensures forall i :: 0 <= i < |Join(p1, p2)| ==> low < Join(p1, p2)[i].pid
    decreases |p1| + |p2|
  {
    if p1 == [] || p2 == [] {
    } else if p1[0].pid < p2[0].pid {
      JoinAbove(p1[1..], p2, low);
    } else if p1[0].pid > p2[0].pid {
      JoinAbove(p1, p2[1..], low);
    } else {
      JoinAbove(p1[1..], p2[1..], low);
    }
  }

  lemma {:induction false} JoinIsSorted(p1: Snapshot, p2: Snapshot)
    requires StrictlySorted(p1) && StrictlySorted(p2)
    ensures DeltasSorted(Join(p1, p2)) && |Join(p1, p2)| <= |p1| && |Join(p1, p2)| <= |p2|
    decreases |p1| + |p2|
  {
    if p1 == [] || p2 == [] {
    } else if p1[0].pid < p2[0].pid {
      JoinIsSorted(p1[1..], p2);
    } else if p1[0].pid > p2[0].pid {
      JoinIsSorted(p1, p2[1..]);
    } else {
      JoinIsSorted(p1[1..], p2[1..]);
      JoinAbove(p1[1..], p2[1..], p1[0].pid);
    }
  }

  /** FixedVector::push_back: a full vector drops the item. */
  function PushBack<T>(s: seq<T>, x: T): seq<T> {
    if |s| >= CAPACITY then s else s + [x]
  }

  function Kept<T>(s: seq<T>): seq<T> {
    if |s| <= CAPACITY then s else s[..CAPACITY]
  }

  lemma PushKept<T>(s: seq<T>, x: T)
    ensures PushBack(Kept(s), x) == Kept(s + [x])
  {
  }

  function TotalTicks(ds: seq<Delta>): nat {
    if ds == [] then 0 else TotalTicks(ds[..|ds| - 1]) + ds[|ds| - 1].ticks
  }

  function TotalGpu(ds: seq<Delta>): nat {
    if ds == [] then 0 else TotalGpu(ds[..|ds| - 1]) + ds[|ds| - 1].gpuNs
  }

  function TotalWakeups(ds: seq<Delta>): nat {
    if ds == [] then 0 else TotalWakeups(ds[..|ds| - 1]) + ds[|ds| - 1].wakeups
  }

  /** What the join loop has counted of the deltas it produced. */
  datatype Totals = Totals(ticks: nat, gpuNs: nat, wakeups: nat)

  function TotalsOf(ds: seq<Delta>): Totals {
    Totals(TotalTicks(ds) % WORD64, TotalGpu(ds) % WORD64, TotalWakeups(ds) % WORD64)
  }

  function Count(t: Totals, d: Delta): Totals {
    Totals((t.ticks + d.ticks) % WORD64, (t.gpuNs + d.gpuNs) % WORD64, (t.wakeups + d.wakeups) % WORD64)
  }

  lemma WrapAdd(x: nat, d: nat)
    ensures (x % WORD64 + d) % WORD64 == (x + d) % WORD64
  {
  }

  lemma CountOne(ds: seq<Delta>, d: Delta)
    ensures Count(TotalsOf(ds), d) == TotalsOf(ds + [d])
  {
    assert (ds + [d])[..|ds|] == ds;
    WrapAdd(TotalTicks(ds), d.ticks);
    WrapAdd(TotalGpu(ds), d.gpuNs);
    WrapAdd(TotalWakeups(ds), d.wakeups);
  }

  lemma JoinUnfolds(p1: Snapshot, p2: Snapshot, i: nat, j: nat)
    requires i < |p1| && j < |p2|
    ensures Join(p1[i..], p2[j..]) ==
            if p1[i].pid < p2[j].pid then Join(p1[i + 1..], p2[j..])
            else if p1[i].pid > p2[j].pid then Join(p1[i..], p2[j + 1..])
            else [DeltaOf(p1[i], p2[j])] + Join(p1[i + 1..], p2[j + 1..])
  {
  }

  /** The totals run over every matched process, also over one the full vector drops. */
  method TwoPointerDelta(p1: Snapshot, p2: Snapshot) returns (deltas: seq<Delta>, totals: Totals)
    ensures deltas == Kept(Join(p1, p2)) && totals == TotalsOf(Join(p1, p2))
  {
    deltas, totals := [], Totals(0, 0, 0);
    var i, j := 0, 0;
    ghost var done: seq<Delta> := [];
    assert p1[0..] == p1 && p2[0..] == p2;
    while i < |p1| && j < |p2|
      invariant 0 <= i <= |p1| && 0 <= j <= |p2|
      invariant done + Join(p1[i..], p2[j..]) == Join(p1, p2)
      invariant deltas == Kept(done) && totals == TotalsOf(done)
      decreases |p1| - i + |p2| - j
    {
      JoinUnfolds(p1, p2, i, j);
      if p1[i].pid < p2[j].pid {
        i := i + 1;
      } else if p1[i].pid > p2[j].pid {
        j := j + 1;
      } else {
        var d := DeltaOf(p1[i], p2[j]);
        CountOne(done, d);
        PushKept(done, d);
        Regroup(done, d, Join(p1[i + 1..], p2[j + 1..]));
        totals := Count(totals, d);
        deltas := PushBack(deltas, d);
        done := done + [d];
        i := i + 1;
        j := j + 1;
      }
    }
    assert done == Join(p1, p2);
  }

  // ------------------------------------------------------------------ accumulation over a window

  /** What one interval adds to counter c: the growth, nothing on a reset, everything if newly seen. */
  function Gain(prev: Option<Sample>, cur: Sample, c: nat): nat
    requires c < COUNTERS
  {
    match prev
    case Some(p) => Saturating(p.counts[c], cur.counts[c])
    case None => cur.counts[c]
  }

  function Min(a: nat, b: nat): nat {
    if a <= b then a else b
  }

  /** A default-constructed sample under the identity of its first appearance. */
  function Blank(cur: Sample): Sample {
    Sample(cur.pid, cur.who, Gauges(-1, 1, 0, 0), 50000, 0, 0, 0, 0, NO_COUNTS)
  }

  /** All counters grow by their gains, wrapping at their own width. */
  function AddGains(counts: Counters, prev: Option<Sample>, cur: Sample): Counters {
    seq(COUNTERS, c requires 0 <= c < COUNTERS => (counts[c] + Gain(prev, cur, c)) % Width(c))
  }

  function Fold(acc: Option<Sample>, prev: Option<Sample>, cur: Sample): Sample {
    var base := if acc.Some? then acc.value else Blank(cur);
    base.(gauges := cur.gauges,
          timerslack := Min(base.timerslack, cur.timerslack),
          pss := Max(base.pss, cur.pss),
          rss := Max(base.rss, cur.rss),
          sockets := Max(base.sockets, cur.sockets),
          vram := Max(base.vram, cur.vram),
          counts := AddGains(base.counts, prev, cur))
  }

  /** One interval for one PID. */
  function StepAt(acc: Option<Sample>, prev: Option<Sample>, cur: Option<Sample>): Option<Sample> {
    match cur
    case Some(c) => Some(Fold(acc, prev, c))
    case None => acc
  }

  /** The merge of an interval before the vector's capacity cuts it. */
  function Merge(acc: Snapshot, prev: Snapshot, cur: Snapshot): Snapshot
    decreases |acc| + |cur|
  {
    if cur == [] then acc
    else if acc != [] && acc[0].pid < cur[0].pid then [acc[0]] + Merge(acc[1..], prev, cur)
    else if acc != [] && acc[0].pid == cur[0].pid then
      [Fold(Some(acc[0]), Find(prev, cur[0].pid), cur[0])] + Merge(acc[1..], prev, cur[1..])
    else [Fold(None, Find(prev, cur[0].pid), cur[0])] + Merge(acc, prev, cur[1..])
  }

  /** Each PID is accumulated on its own, whatever the others do. */
  lemma {:induction false} MergeIsPerPid(acc: Snapshot, prev: Snapshot, cur: Snapshot, pid: int)
    requires StrictlySorted(acc) && StrictlySorted(cur)
    ensures Find(Merge(acc, prev, cur), pid) == StepAt(Find(acc, pid), Find(prev, pid), Find(cur, pid))
    decreases |acc| + |cur|
  {
    if cur == [] {
    } else if acc != [] && acc[0].pid < cur[0].pid {
      MergeIsPerPid(acc[1..], prev, cur, pid);
      if acc[0].pid == pid {
        FindNothing(cur, pid);
      }
    } else if acc != [] && acc[0].pid == cur[0].pid {
      MergeIsPerPid(acc[1..], prev, cur[1..], pid);
    } else {
      MergeIsPerPid(acc, prev, cur[1..], pid);
      if cur[0].pid == pid {
        FindNothing(acc, pid);
      }
    }
  }

  lemma {:induction false} MergeAbove(acc: Snapshot, prev: Snapshot, cur: Snapshot, low: int)
    requires forall i :: 0 <= i < |acc| ==> low < acc[i].pid
    requires forall i :: 0 <= i < |cur| ==> low < cur[i].pid
    ensures forall i :: 0 <= i < |Merge(acc, prev, cur)| ==> low < Merge(acc, prev, cur)[i].pid
    decreases |acc| + |cur|
  {
    if cur == [] {
    } else if acc != [] && acc[0].pid < cur[0].pid {
      MergeAbove(acc[1..], prev, cur, low);
    } else if acc != [] && acc[0].pid == cur[0].pid {
      MergeAbove(acc[1..], prev, cur[1..], low);
    } else {
      MergeAbove(acc, prev, cur[1..], low);
    }
  }

  lemma {:induction false} MergeIsSorted(acc: Snapshot, prev: Snapshot, cur: Snapshot)
    requires StrictlySorted(acc) && StrictlySorted(cur)
    ensures StrictlySorted(Merge(acc, prev, cur))
    decreases |acc| + |cur|
  {
    if cur == [] {
    } else if acc != [] && acc[0].pid < cur[0].pid {
      MergeIsSorted(acc[1..], prev, cur);
      MergeAbove(acc[1..], prev, cur, acc[0].pid);
    } else if acc != [] && acc[0].pid == cur[0].pid {
      MergeIsSorted(acc[1..], prev, cur[1..]);
      MergeAbove(acc[1..], prev, cur[1..], acc[0].pid);
    } else {
      MergeIsSorted(acc, prev, cur[1..]);
      MergeAbove(acc, prev, cur[1..], cur[0].pid);
    }
  }

  /** The advancing index finds the previous sample of a PID exactly when there is one. */
  lemma {:induction false} IndexFinds(prev: Snapshot, pid: int, i: nat)
    requires StrictlySorted(prev) && i <= |prev|
    requires forall a :: 0 <= a < i ==> prev[a].pid < pid
    requires i < |prev| ==> prev[i].pid >= pid
    ensures Find(prev, pid) == if i < |prev| && prev[i].pid == pid then Some(prev[i]) else None
  {
    if i < |prev| && prev[i].pid == pid {
      FindAt(prev, i);
    } else {
      forall a | 0 <= a < |prev|
        ensures prev[a].pid != pid
      {
        assert a > i ==> prev[a].pid > prev[i].pid;
      }
      FindNothing(prev, pid);
    }
  }

  /** The merge is done up to acc[k] and cur[j]; the vector holds what fits of it. */
  ghost predicate Merged(acc: Snapshot, prev: Snapshot, cur: Snapshot, k: nat, j: nat, done: Snapshot, next: Snapshot) {
    && k <= |acc| && j <= |cur| && next == Kept(done)
    && done + Merge(acc[k..], prev, cur[j..]) == Merge(acc, prev, cur)
  }

  lemma Carry(acc: Snapshot, prev: Snapshot, cur: Snapshot, k: nat, j: nat, done: Snapshot, next: Snapshot)
    requires Merged(acc, prev, cur, k, j, done, next) && k < |acc|
    requires j < |cur| ==> acc[k].pid < cur[j].pid
    ensures Merged(acc, prev, cur, k + 1, j, done + [acc[k]], PushBack(next, acc[k]))
  {
    PushKept(done, acc[k]);
    assert acc[k..] == [acc[k]] + acc[k + 1..] && acc[k..][1..] == acc[k + 1..];
    assert Merge(acc[k..], prev, cur[j..]) == [acc[k]] + Merge(acc[k + 1..], prev, cur[j..]);
    assert done + ([acc[k]] + Merge(acc[k + 1..], prev, cur[j..]))
        == done + [acc[k]] + Merge(acc[k + 1..], prev, cur[j..]);
  }

  /** Where the accumulation continues after folding cur[j] in. */
  function Sofar(acc: Snapshot, k: nat, pid: int): (Option<Sample>, nat)
    requires k <= |acc|
  {
    if k < |acc| && acc[k].pid == pid then (Some(acc[k]), k + 1) else (None, k)
  }

  lemma MergeUnfolds(acc: Snapshot, prev: Snapshot, cur: Snapshot, k: nat, j: nat)
    requires k <= |acc| && j < |cur| && (k < |acc| ==> acc[k].pid >= cur[j].pid)
    ensures var (sofar, after) := Sofar(acc, k, cur[j].pid);
            Merge(acc[k..], prev, cur[j..])
            == [Fold(sofar, Find(prev, cur[j].pid), cur[j])] + Merge(acc[after..], prev, cur[j + 1..])
  {
  }

  lemma Absorb(acc: Snapshot, prev: Snapshot, cur: Snapshot, k: nat, j: nat, done: Snapshot, next: Snapshot,
      item: Sample)
    requires Merged(acc, prev, cur, k, j, done, next) && j < |cur|
    requires k < |acc| ==> acc[k].pid >= cur[j].pid
    requires item == Fold(Sofar(acc, k, cur[j].pid).0, Find(prev, cur[j].pid), cur[j])
    ensures Merged(acc, prev, cur, Sofar(acc, k, cur[j].pid).1, j + 1, done + [item], PushBack(next, item))
  {
    PushKept(done, item);
    MergeUnfolds(acc, prev, cur, k, j);
    Regroup(done, item, Merge(acc[Sofar(acc, k, cur[j].pid).1..], prev, cur[j + 1..]));
  }

  lemma Regroup<T>(done: seq<T>, item: T, rest: seq<T>)
    ensures done + ([item] + rest) == done + [item] + rest
  {
  }

  /** The first inner loop: advance to the PID in the previous snapshot. */
  method AdvancePrevious(prev: Snapshot, start: nat, pid: int) returns (i: nat, found: Option<Sample>)
    requires StrictlySorted(prev) && start <= |prev|
    requires forall a :: 0 <= a < start ==> prev[a].pid < pid
    ensures i <= |prev| && forall a :: 0 <= a < i ==> prev[a].pid < pid
    ensures found == Find(prev, pid)
  {
    i := start;
    while i < |prev| && prev[i].pid < pid
      invariant i <= |prev|
      invariant forall a :: 0 <= a < i ==> prev[a].pid < pid
    {
      i := i + 1;
    }
    IndexFinds(prev, pid, i);
    found := if i < |prev| && prev[i].pid == pid then Some(prev[i]) else None;
  }

  /** The second inner loop and the final one: pass on accumulated samples below cur[j], or all of them. */
  method CarryBelow(acc: Snapshot, ghost prev: Snapshot, cur: Snapshot, start: nat, j: nat, ghost was: Snapshot,
      sofar: Snapshot)
    returns (k: nat, ghost done: Snapshot, next: Snapshot)
    requires Merged(acc, prev, cur, start, j, was, sofar)
    ensures Merged(acc, prev, cur, k, j, done, next)
    ensures k < |acc| ==> j < |cur| && acc[k].pid >= cur[j].pid
  {
    k, done, next := start, was, sofar;
    while k < |acc| && (j < |cur| ==> acc[k].pid < cur[j].pid)
      invariant Merged(acc, prev, cur, k, j, done, next)
      decreases |acc| - k
    {
      Carry(acc, prev, cur, k, j, done, next);
      done := done + [acc[k]];
      next := PushBack(next, acc[k]);
      k := k + 1;
    }
  }

  /** One interval of the accumulation; a full vector drops the highest PIDs. */
  method AccumulateStep(acc: Snapshot, prev: Snapshot, cur: Snapshot) returns (next: Snapshot)
    requires StrictlySorted(prev) && StrictlySorted(cur)
    ensures next == Kept(Merge(acc, prev, cur))
  {
    next := [];
    var i: nat, j: nat, k: nat := 0, 0, 0;
    ghost var done: Snapshot := [];
    MergedAtStart(acc, prev, cur);
    while j < |cur|
      invariant i <= |prev| && Merged(acc, prev, cur, k, j, done, next)
      invariant j < |cur| ==> forall a :: 0 <= a < i ==> prev[a].pid < cur[j].pid
      decreases |cur| - j
    {
      var before;
      i, before := AdvancePrevious(prev, i, cur[j].pid);
      k, done, next := CarryBelow(acc, prev, cur, k, j, done, next);
      var (sofar, after) := Sofar(acc, k, cur[j].pid);
      var item := Fold(sofar, before, cur[j]);
      Absorb(acc, prev, cur, k, j, done, next, item);
      done := done + [item];
      next := PushBack(next, item);
      k := after;
      j := j + 1;
    }
    k, done, next := CarryBelow(acc, prev, cur, k, j, done, next);
    MergedAtEnd(acc, prev, cur, done, next);
  }

  lemma MergedAtStart(acc: Snapshot, prev: Snapshot, cur: Snapshot)
    ensures Merged(acc, prev, cur, 0, 0, [], [])
  {
  }

  lemma MergedAtEnd(acc: Snapshot, prev: Snapshot, cur: Snapshot, done: Snapshot, next: Snapshot)
    requires Merged(acc, prev, cur, |acc|, |cur|, done, next)
    ensures next == Kept(Merge(acc, prev, cur))
  {
  }

  ghost predicate AllSorted(samples: seq<Snapshot>) {
    forall k :: 0 <= k < |samples| ==> StrictlySorted(samples[k])
  }

  /** The accumulation after the first k intervals. */
  function Window(samples: seq<Snapshot>, k: nat): Snapshot
    requires k < |samples|
  {
    if k == 0 then [] else Kept(Merge(Window(samples, k - 1), samples[k - 1], samples[k]))
  }

  /** The same for one PID on its own. */
  function WindowAt(samples: seq<Snapshot>, k: nat, pid: int): Option<Sample>
    requires k < |samples|
  {
    if k == 0 then None
    else StepAt(WindowAt(samples, k - 1, pid), Find(samples[k - 1], pid), Find(samples[k], pid))
  }

  ghost function Seen(samples: seq<Snapshot>, k: nat): set<int>
    requires k < |samples|
  {
    if k == 0 then {} else Seen(samples, k - 1) + Pids(samples[k])
  }

  method AccumulateWindow(samples: seq<Snapshot>) returns (acc: Snapshot)
    requires samples != [] && AllSorted(samples)
    ensures acc == Window(samples, |samples| - 1)
  {
    acc := [];
    for k := 1 to |samples|
      invariant acc == Window(samples, k - 1)
    {
      acc := AccumulateStep(acc, samples[k - 1], samples[k]);
    }
  }

  /** The accumulated sample of every PID is the fold over that PID's samples alone. */
  ghost predicate PerPid(samples: seq<Snapshot>, k: nat)
    requires k < |samples|
  {
    forall pid :: Find(Window(samples, k), pid) == WindowAt(samples, k, pid)
  }

  /**
   While the PIDs seen fit the vector, the streaming merge is the per-PID fold: sorted, holding
   exactly the PIDs of the samples after the first, each accumulated independently of the others.
   */
  lemma {:induction false} WindowIsPerPidFold(samples: seq<Snapshot>, k: nat)
    requires k < |samples| && AllSorted(samples) && |Seen(samples, k)| <= CAPACITY
    ensures StrictlySorted(Window(samples, k))
    ensures Pids(Window(samples, k)) == Seen(samples, k)
    ensures PerPid(samples, k)
  {
    if k > 0 {
      SubsetIsSmaller(Seen(samples, k - 1), Seen(samples, k));
      WindowIsPerPidFold(samples, k - 1);
      OneInterval(samples, k);
    }
  }

  lemma OneInterval(samples: seq<Snapshot>, k: nat)
    requires 0 < k < |samples| && AllSorted(samples) && |Seen(samples, k)| <= CAPACITY
    requires StrictlySorted(Window(samples, k - 1)) && Pids(Window(samples, k - 1)) == Seen(samples, k - 1)
    requires PerPid(samples, k - 1)
    ensures StrictlySorted(Window(samples, k)) && Pids(Window(samples, k)) == Seen(samples, k)
    ensures PerPid(samples, k)
  {
    var acc := Window(samples, k - 1);
    var merged := Merge(acc, samples[k - 1], samples[k]);
    MergeIsSorted(acc, samples[k - 1], samples[k]);
    MergedPids(acc, samples[k - 1], samples[k]);
    PidsCount(merged);
    forall pid
      ensures Find(merged, pid) == WindowAt(samples, k, pid)
    {
      MergeIsPerPid(acc, samples[k - 1], samples[k], pid);
    }
  }

  lemma MergedPids(acc: Snapshot, prev: Snapshot, cur: Snapshot)
    requires StrictlySorted(acc) && StrictlySorted(cur)
    ensures Pids(Merge(acc, prev, cur)) == Pids(acc) + Pids(cur)
  {
    forall pid
      ensures pid in Pids(Merge(acc, prev, cur)) <==> pid in Pids(acc) + Pids(cur)
    {
      MergeIsPerPid(acc, prev, cur, pid);
      FindFinds(Merge(acc, prev, cur), pid);
      FindFinds(acc, pid);
      FindFinds(cur, pid);
    }
  }

  lemma SubsetIsSmaller(a: set<int>, b: set<int>)
    requires a <= b
    ensures |a| <= |b|
  {
    assert b == a + (b - a);
  }

  // ------------------------------------------------------------------ what a window charges

  /** What interval k adds to a PID's counter. */
  function GainAt(samples: seq<Snapshot>, k: nat, pid: int, c: nat): nat
    requires 0 < k < |samples| && c < COUNTERS
  {
    match Find(samples[k], pid)
    case Some(cur) => Gain(Find(samples[k - 1], pid), cur, c)
    case None => 0
  }

  /** The gains of the intervals up to k, as they would be without wrap-around. */
  function Charged(samples: seq<Snapshot>, k: nat, pid: int, c: nat): nat
    requires k < |samples| && c < COUNTERS
  {
    if k == 0 then 0 else Charged(samples, k - 1, pid, c) + GainAt(samples, k, pid, c)
  }

  /** The count at the latest appearance up to k, zero before the first one. */
  function LastSeen(samples: seq<Snapshot>, k: nat, pid: int, c: nat): nat
    requires k < |samples| && c < COUNTERS
  {
    match Find(samples[k], pid)
    case Some(cur) => cur.counts[c]
    case None => if k == 0 then 0 else LastSeen(samples, k - 1, pid, c)
  }

  /** What interval k charges beyond the growth: the depth of a fall, or all that was counted before an absence. */
  function ExcessAt(samples: seq<Snapshot>, k: nat, pid: int, c: nat): nat
    requires 0 < k < |samples| && c < COUNTERS
  {
    match Find(samples[k], pid)
    case Some(cur) =>
      if Find(samples[k - 1], pid).Some? then Saturating(cur.counts[c], LastSeen(samples, k - 1, pid, c))
      else LastSeen(samples, k - 1, pid, c)
    case None => 0
  }

  function Excess(samples: seq<Snapshot>, k: nat, pid: int, c: nat): nat
    requires k < |samples| && c < COUNTERS
  {
    if k == 0 then 0 else Excess(samples, k - 1, pid, c) + ExcessAt(samples, k, pid, c)
  }

  /** The counter never falls between two samples that hold the PID, and restarts from nothing after an absence. */
  ghost predicate Unbroken(samples: seq<Snapshot>, k: nat, pid: int, c: nat)
    requires k < |samples| && c < COUNTERS
  {
    forall j :: 0 < j <= k && Find(samples[j], pid).Some? ==>
      if Find(samples[j - 1], pid).Some?
      then Find(samples[j - 1], pid).value.counts[c] <= Find(samples[j], pid).value.counts[c]
      else LastSeen(samples, j - 1, pid, c) == 0
  }

  /** Charges and excess in balance: over any window the charge is the net growth plus the excess. */
  lemma {:induction false} ChargeIsGrowthPlusExcess(samples: seq<Snapshot>, k: nat, pid: int, c: nat)
    requires k < |samples| && c < COUNTERS
    ensures LastSeen(samples, 0, pid, c) + Charged(samples, k, pid, c)
            == LastSeen(samples, k, pid, c) + Excess(samples, k, pid, c)
  {
    if k > 0 {
      ChargeIsGrowthPlusExcess(samples, k - 1, pid, c);
    }
  }

  lemma {:induction false} NoExcessExactlyWhen(samples: seq<Snapshot>, k: nat, pid: int, c: nat)
    requires k < |samples| && c < COUNTERS
    ensures Excess(samples, k, pid, c) == 0 <==> Unbroken(samples, k, pid, c)
  {
    if k > 0 {
      NoExcessExactlyWhen(samples, k - 1, pid, c);
      assert Unbroken(samples, k, pid, c) <==> Unbroken(samples, k - 1, pid, c) && ExcessAt(samples, k, pid, c) == 0;
    }
  }

  lemma WrapAddAt(x: nat, d: nat, c: nat)
    ensures (x % Width(c) + d) % Width(c) == (x + d) % Width(c)
  {
    if Width(c) == WORD32 {
      assert (x % WORD32 + d) % WORD32 == (x + d) % WORD32;
    } else {
      WrapAdd(x, d);
    }
  }

  lemma FoldCounts(acc: Option<Sample>, prev: Option<Sample>, cur: Sample, c: nat)
    requires c < COUNTERS
    ensures Fold(acc, prev, cur).counts[c]
            == ((if acc.Some? then acc.value.counts[c] else 0) + Gain(prev, cur, c)) % Width(c)
  {
  }

  /** The accumulated counter is the unwrapped charge at the counter's own width. */
  lemma {:induction false} AccumulatedIsCharged(samples: seq<Snapshot>, k: nat, pid: int, c: nat)
    requires k < |samples| && c < COUNTERS
    ensures match WindowAt(samples, k, pid)
            case Some(acc) => acc.counts[c] == Charged(samples, k, pid, c) % Width(c)
            case None => Charged(samples, k, pid, c) == 0
  {
    if k > 0 {
      AccumulatedIsCharged(samples, k - 1, pid, c);
      if Find(samples[k], pid).Some? {
        FoldCounts(WindowAt(samples, k - 1, pid), Find(samples[k - 1], pid), Find(samples[k], pid).value, c);
        WrapAddAt(Charged(samples, k - 1, pid, c), GainAt(samples, k, pid, c), c);
      }
    }
  }

  /** At its appearances up to k the counter fits its word. */
  ghost predicate Fits(samples: seq<Snapshot>, k: nat, pid: int, c: nat)
    requires k < |samples| && c < COUNTERS
  {
    forall j :: 0 <= j <= k && Find(samples[j], pid).Some? ==> Find(samples[j], pid).value.counts[c] < Width(c)
  }

  lemma {:induction false} LastSeenFits(samples: seq<Snapshot>, k: nat, pid: int, c: nat)
    requires k < |samples| && c < COUNTERS && Fits(samples, k, pid, c)
    ensures LastSeen(samples, k, pid, c) < Width(c)
  {
    if Find(samples[k], pid).None? && k > 0 {
      LastSeenFits(samples, k - 1, pid, c);
    }
  }

  lemma WrapsToGrowth(first: nat, last: nat, charged: nat, excess: nat, c: nat)
    requires first < Width(c) && last < Width(c) && first + charged == last + excess
    ensures charged % Width(c) == last - first <==> first <= last && excess % Width(c) == 0
  {
    if Width(c) == WORD32 {
      assert charged % WORD32 == last - first <==> first <= last && excess % WORD32 == 0;
    } else {
      assert charged % WORD64 == last - first <==> first <= last && excess % WORD64 == 0;
    }
  }

  lemma BelowWidth(x: nat, c: nat)
    requires x < Width(c)
    ensures x % Width(c) == x
  {
  }

  /**
   What the streamed window charges a PID against the net growth of its counter, over every window
   the vector can hold: equal when the counter is unbroken, and otherwise only if the excess of its
   falls and returns cancels against the word's width.
   */
  lemma ChargedNetGrowthExactlyWhen(samples: seq<Snapshot>, k: nat, pid: int, c: nat)
    requires k < |samples| && AllSorted(samples) && |Seen(samples, k)| <= CAPACITY
    requires pid in Seen(samples, k) && c < COUNTERS && Fits(samples, k, pid, c)
    ensures Find(Window(samples, k), pid).Some?
    ensures var first, last := LastSeen(samples, 0, pid, c), LastSeen(samples, k, pid, c);
            var counted, excess := Find(Window(samples, k), pid).value.counts[c], Excess(samples, k, pid, c);
            && (Unbroken(samples, k, pid, c) ==> counted == last - first)
            && (counted == last - first <==> first <= last && excess % Width(c) == 0)
            && (excess < Width(c) ==> (counted == last - first <==> Unbroken(samples, k, pid, c)))
  {
    WindowIsPerPidFold(samples, k);
    FindFinds(Window(samples, k), pid);
    AccumulatedIsCharged(samples, k, pid, c);
    ChargeIsGrowthPlusExcess(samples, k, pid, c);
    NoExcessExactlyWhen(samples, k, pid, c);
    LastSeenFits(samples, 0, pid, c);
    LastSeenFits(samples, k, pid, c);
    var first, last := LastSeen(samples, 0, pid, c), LastSeen(samples, k, pid, c);
    WrapsToGrowth(first, last, Charged(samples, k, pid, c), Excess(samples, k, pid, c), c);
    if Excess(samples, k, pid, c) < Width(c) {
      BelowWidth(Excess(samples, k, pid, c), c);
    }
  }

  /** A PID in every sample up to k whose counter c never falls. */
  ghost predicate Steady(samples: seq<Snapshot>, k: nat, pid: int, c: nat)
    requires k < |samples| && c < COUNTERS
  {
    && (forall j :: 0 <= j <= k ==> Find(samples[j], pid).Some?)
    && (forall j :: 0 <= j <= k ==> Find(samples[j], pid).value.counts[c] < Width(c))
    && (forall j :: 0 < j <= k ==> Find(samples[j - 1], pid).value.counts[c] <= Find(samples[j], pid).value.counts[c])
  }

  /** Interval gains telescope: the window charges last minus first. */
  lemma GainsTelescope(samples: seq<Snapshot>, k: nat, pid: int, c: nat)
    requires 0 < k < |samples| && c < COUNTERS && Steady(samples, k, pid, c)
    ensures Find(samples[0], pid).value.counts[c] <= Find(samples[k], pid).value.counts[c]
    ensures WindowAt(samples, k, pid).Some?
    ensures WindowAt(samples, k, pid).value.counts[c] ==
            Find(samples[k], pid).value.counts[c] - Find(samples[0], pid).value.counts[c]
  {
    AccumulatedIsCharged(samples, k, pid, c);
    ChargeIsGrowthPlusExcess(samples, k, pid, c);
    NoExcessExactlyWhen(samples, k, pid, c);
    assert Find(samples[0], pid).Some? && Find(samples[k], pid).Some?;
    assert StepAt(WindowAt(samples, k - 1, pid), Find(samples[k - 1], pid), Find(samples[k], pid)).Some?;
    BelowWidth(Charged(samples, k, pid, c), c);
  }

  /** A process missing from one sample in between is charged its whole counter again on return. */
  lemma ReturningProcessIsOvercharged(first: Sample, last: Sample, c: nat)
    requires first.pid == last.pid && c < COUNTERS && first.counts[c] <= last.counts[c] < Width(c)
    ensures var w := WindowAt([[first], [], [last]], 2, last.pid);
            w.Some? && (w.value.counts[c] == last.counts[c] - first.counts[c] <==> first.counts[c] == 0)
  {
    var samples := [[first], [], [last]];
    assert WindowAt(samples, 1, last.pid) == None;
  }

  /** The synthetic first snapshot handed to the attribution pass: same processes, no counts. */
  function ZeroBase(acc: Snapshot): Snapshot {
    if acc == [] then []
    else ZeroBase(acc[..|acc| - 1]) + [acc[|acc| - 1].(counts := NO_COUNTS, vram := 0)]
  }

  lemma {:induction false} ZeroBaseIsAligned(acc: Snapshot)
    requires StrictlySorted(acc)
    ensures StrictlySorted(ZeroBase(acc)) && |ZeroBase(acc)| == |acc|
    ensures forall i :: 0 <= i < |acc| ==> ZeroBase(acc)[i] == acc[i].(counts := NO_COUNTS, vram := 0)
    decreases |acc|
  {
    if acc != [] {
      ZeroBaseIsAligned(acc[..|acc| - 1]);
    }
  }

  /** A sum of counters as it would be without wrap-around. */
  function PlainSum(s: Sample, fields: seq<nat>): nat
    requires forall i :: 0 <= i < |fields| ==> fields[i] < COUNTERS
  {
    if fields == [] then 0 else PlainSum(s, fields[..|fields| - 1]) + s.counts[fields[|fields| - 1]]
  }

  lemma {:induction false} NoWrap(s: Sample, fields: seq<nat>)
    requires forall i :: 0 <= i < |fields| ==> fields[i] < COUNTERS
    requires PlainSum(s, fields) < WORD64
    ensures Sum64(s, fields) == PlainSum(s, fields)
    decreases |fields|
  {
    if fields != [] {
      NoWrap(s, fields[..|fields| - 1]);
    }
  }

  lemma {:induction false} SumsTelescope(samples: seq<Snapshot>, k: nat, pid: int, fields: seq<nat>)
    requires 0 < k < |samples|
    requires forall i :: 0 <= i < |fields| ==> fields[i] < COUNTERS && Steady(samples, k, pid, fields[i])
    requires Find(samples[0], pid).Some? && Find(samples[k], pid).Some? && WindowAt(samples, k, pid).Some?
    ensures PlainSum(WindowAt(samples, k, pid).value, fields) + PlainSum(Find(samples[0], pid).value, fields)
            == PlainSum(Find(samples[k], pid).value, fields)
    decreases |fields|
  {
    if fields != [] {
      var n := |fields| - 1;
      SumsTelescope(samples, k, pid, fields[..n]);
      GainsTelescope(samples, k, pid, fields[n]);
    }
  }

  /**
   For a process that lives through the window with counters that never fall and never wrap, the
   synthetic pair of snapshots yields, for every sum of counters, the very delta that the two
   end-point samples yield.
   */
  lemma WindowAgreesWithEndpoints(samples: seq<Snapshot>, k: nat, pid: int, fields: seq<nat>)
    requires 0 < k < |samples| && AllSorted(samples) && |Seen(samples, k)| <= CAPACITY
    requires fields != []
    requires forall i :: 0 <= i < |fields| ==> fields[i] < COUNTERS && Steady(samples, k, pid, fields[i])
    requires Find(samples[k], pid).Some? && PlainSum(Find(samples[k], pid).value, fields) < WORD64
    ensures var w := Window(samples, k);
            && Find(samples[0], pid).Some? && Find(w, pid).Some? && Find(ZeroBase(w), pid).Some?
            && Saturating(Sum64(Find(ZeroBase(w), pid).value, fields), Sum64(Find(w, pid).value, fields))
               == Saturating(Sum64(Find(samples[0], pid).value, fields), Sum64(Find(samples[k], pid).value, fields))
  {
    WindowIsPerPidFold(samples, k);
    ZeroBaseFinds(Window(samples, k), pid);
    ChargeIsEndpointDelta(samples, k, pid, fields);
    ZeroSum(Find(ZeroBase(Window(samples, k)), pid).value, fields);
  }

  lemma ChargeIsEndpointDelta(samples: seq<Snapshot>, k: nat, pid: int, fields: seq<nat>)
    requires 0 < k < |samples| && fields != []
    requires forall i :: 0 <= i < |fields| ==> fields[i] < COUNTERS && Steady(samples, k, pid, fields[i])
    requires Find(samples[k], pid).Some? && PlainSum(Find(samples[k], pid).value, fields) < WORD64
    ensures WindowAt(samples, k, pid).Some? && Find(samples[0], pid).Some?
    ensures Sum64(WindowAt(samples, k, pid).value, fields)
            == Saturating(Sum64(Find(samples[0], pid).value, fields), Sum64(Find(samples[k], pid).value, fields))
  {
    assert Steady(samples, k, pid, fields[0]);
    GainsTelescope(samples, k, pid, fields[0]);
    SumsTelescope(samples, k, pid, fields);
    NoWrap(WindowAt(samples, k, pid).value, fields);
    NoWrap(Find(samples[0], pid).value, fields);
    NoWrap(Find(samples[k], pid).value, fields);
  }

  lemma ZeroBaseFinds(acc: Snapshot, pid: int)
    requires StrictlySorted(acc) && Find(acc, pid).Some?
    ensures Find(ZeroBase(acc), pid).Some? && Find(ZeroBase(acc), pid).value.counts == NO_COUNTS
  {
    ZeroBaseIsAligned(acc);
    FindFinds(acc, pid);
    var i :| 0 <= i < |acc| && acc[i].pid == pid;
    FindAt(ZeroBase(acc), i);
  }

  lemma {:induction false} ZeroSum(s: Sample, fields: seq<nat>)
    requires forall i :: 0 <= i < |fields| ==> fields[i] < COUNTERS
    requires s.counts == NO_COUNTS
    ensures Sum64(s, fields) == 0
    decreases |fields|
  {
    if fields != [] {
      ZeroSum(s, fields[..|fields| - 1]);
      assert forall c :: 0 <= c < COUNTERS ==> NO_COUNTS[c] == 0;
    }
  }

  // ------------------------------------------------------------------ a whole window against its end points

  /** The same process, with the same CPU ticks and the same engine time. */
  predicate SameUse(d: Delta, e: Delta) {
    d.pid == e.pid && d.ticks == e.ticks && d.gpuNs == e.gpuNs
  }

  ghost predicate Alike(ds: seq<Delta>, es: seq<Delta>) {
    |ds| == |es| && forall i :: 0 <= i < |ds| ==> SameUse(ds[i], es[i])
  }

  ghost predicate SameAnswer(ds: seq<Delta>, es: seq<Delta>, pid: int) {
    match FindDelta(ds, pid)
    case Some(d) => FindDelta(es, pid).Some? && SameUse(d, FindDelta(es, pid).value)
    case None => FindDelta(es, pid).None?
  }

  lemma {:induction false} DeltaFoundAt(ds: seq<Delta>, pid: int)
    requires FindDelta(ds, pid).Some?
    ensures exists i :: 0 <= i < |ds| && ds[i].pid == pid
    decreases |ds|
  {
    if ds[0].pid != pid {
      DeltaFoundAt(ds[1..], pid);
      var i :| 0 <= i < |ds[1..]| && ds[1..][i].pid == pid;
      assert ds[i + 1].pid == pid;
    }
  }

  lemma TailAnswers(ds: seq<Delta>, pid: int)
    requires ds != [] && DeltasSorted(ds)
    ensures FindDelta(ds[1..], pid) == if pid == ds[0].pid then None else FindDelta(ds, pid)
  {
    if pid == ds[0].pid && FindDelta(ds[1..], pid).Some? {
      DeltaFoundAt(ds[1..], pid);
    }
  }

  lemma HeadIsLowest(ds: seq<Delta>, es: seq<Delta>)
    requires ds != [] && DeltasSorted(es) && SameAnswer(ds, es, ds[0].pid)
    ensures es != [] && es[0].pid <= ds[0].pid
  {
    DeltaFoundAt(es, ds[0].pid);
  }

  lemma NoAnswers(es: seq<Delta>, first: int)
    requires es != [] ==> first == es[0].pid
    requires SameAnswer([], es, first)
    ensures es == []
  {
  }

  /** Sorted deltas are determined by what looking up every PID answers. */
  lemma {:induction false} AnswersDetermine(ds: seq<Delta>, es: seq<Delta>)
    requires DeltasSorted(ds) && DeltasSorted(es) && forall pid :: SameAnswer(ds, es, pid)
    ensures Alike(ds, es)
    decreases |ds|
  {
    if ds == [] {
      NoAnswers(es, if es == [] then 0 else es[0].pid);
    } else {
      HeadIsLowest(ds, es);
      assert SameAnswer(ds, es, es[0].pid);
      DeltaFoundAt(ds, es[0].pid);
      assert SameAnswer(ds, es, ds[0].pid);
      forall pid
        ensures SameAnswer(ds[1..], es[1..], pid)
      {
        assert SameAnswer(ds, es, pid);
        TailAnswers(ds, pid);
        TailAnswers(es, pid);
      }
      AnswersDetermine(ds[1..], es[1..]);
      assert forall i :: 0 < i < |ds| ==> ds[i] == ds[1..][i - 1] && es[i] == es[1..][i - 1];
    }
  }

  ghost predicate SteadySum(samples: seq<Snapshot>, k: nat, pid: int, fields: seq<nat>)
    requires k < |samples| && forall i :: 0 <= i < |fields| ==> fields[i] < COUNTERS
  {
    && (forall i :: 0 <= i < |fields| ==> Steady(samples, k, pid, fields[i]))
    && Find(samples[k], pid).Some? && PlainSum(Find(samples[k], pid).value, fields) < WORD64
  }

  /** Every sample holds the same PIDs, and the times of each never fall, vanish or wrap. */
  ghost predicate SteadyWindow(samples: seq<Snapshot>, k: nat)
    requires k < |samples|
  {
    && (forall j :: 0 <= j <= k ==> Pids(samples[j]) == Pids(samples[0]))
    && forall pid :: pid in Pids(samples[0]) ==>
         SteadySum(samples, k, pid, TICK_FIELDS) && SteadySum(samples, k, pid, GPU_FIELDS)
  }

  lemma {:induction false} SteadySeen(samples: seq<Snapshot>, k: nat)
    requires 0 < k < |samples| && forall j :: 0 <= j <= k ==> Pids(samples[j]) == Pids(samples[0])
    ensures Seen(samples, k) == Pids(samples[0])
  {
    if k > 1 {
      SteadySeen(samples, k - 1);
    } else {
      assert Seen(samples, 0) == {};
    }
  }

  /**
   For a fixed set of processes with steady times, the accumulated window against its synthetic
   zero base yields the deltas of the two end-point samples: same processes, ticks and engine time.
   */
  lemma WindowDeltasAreEndpointDeltas(samples: seq<Snapshot>, k: nat)
    requires 0 < k < |samples| && AllSorted(samples) && SteadyWindow(samples, k)
    requires |Pids(samples[0])| <= CAPACITY
    ensures var w := Window(samples, k);
            Alike(Join(ZeroBase(w), w), Join(samples[0], samples[k]))
  {
    var w := Window(samples, k);
    SteadySeen(samples, k);
    WindowIsPerPidFold(samples, k);
    ZeroBaseIsAligned(w);
    forall pid
      ensures SameAnswer(Join(ZeroBase(w), w), Join(samples[0], samples[k]), pid)
    {
      SameAnswerFor(samples, k, pid);
    }
    JoinIsSorted(ZeroBase(w), w);
    JoinIsSorted(samples[0], samples[k]);
    AnswersDetermine(Join(ZeroBase(w), w), Join(samples[0], samples[k]));
  }

  lemma SameAnswerFor(samples: seq<Snapshot>, k: nat, pid: int)
    requires 0 < k < |samples| && AllSorted(samples) && SteadyWindow(samples, k)
    requires |Seen(samples, k)| <= CAPACITY && Seen(samples, k) == Pids(samples[0])
    requires StrictlySorted(Window(samples, k)) && Pids(Window(samples, k)) == Pids(samples[0])
    requires StrictlySorted(ZeroBase(Window(samples, k)))
    ensures var w := Window(samples, k);
            SameAnswer(Join(ZeroBase(w), w), Join(samples[0], samples[k]), pid)
  {
    var w := Window(samples, k);
    JoinIsIntersection(ZeroBase(w), w, pid);
    JoinIsIntersection(samples[0], samples[k], pid);
    FindFinds(w, pid);
    FindFinds(samples[0], pid);
    FindFinds(samples[k], pid);
    if pid in Pids(samples[0]) {
      UseAgrees(samples, k, pid);
    }
  }

  lemma UseAgrees(samples: seq<Snapshot>, k: nat, pid: int)
    requires 0 < k < |samples| && AllSorted(samples) && |Seen(samples, k)| <= CAPACITY
    requires SteadySum(samples, k, pid, TICK_FIELDS) && SteadySum(samples, k, pid, GPU_FIELDS)
    ensures var w := Window(samples, k);
            var zero, acc := Find(ZeroBase(w), pid), Find(w, pid);
            var first, last := Find(samples[0], pid), Find(samples[k], pid);
            && zero.Some? && acc.Some? && first.Some? && last.Some?
            && SameUse(DeltaOf(zero.value, acc.value), DeltaOf(first.value, last.value))
  {
    WindowAgreesWithEndpoints(samples, k, pid, TICK_FIELDS);
    WindowAgreesWithEndpoints(samples, k, pid, GPU_FIELDS);
    var w := Window(samples, k);
    FindFinds(w, pid);
    FindFinds(samples[k], pid);
    SumsDecide(Find(ZeroBase(w), pid).value, Find(w, pid).value, Find(samples[0], pid).value,
        Find(samples[k], pid).value);
  }

  lemma SumsDecide(zero: Sample, acc: Sample, first: Sample, last: Sample)
    requires acc.pid == last.pid
    requires Saturating(Sum64(zero, TICK_FIELDS), Sum64(acc, TICK_FIELDS))
             == Saturating(Sum64(first, TICK_FIELDS), Sum64(last, TICK_FIELDS))
    requires Saturating(Sum64(zero, GPU_FIELDS), Sum64(acc, GPU_FIELDS))
             == Saturating(Sum64(first, GPU_FIELDS), Sum64(last, GPU_FIELDS))
    ensures SameUse(DeltaOf(zero, acc), DeltaOf(first, last))
  {
  }
}
