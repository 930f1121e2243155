/**
 The memory-pressure ladder: immediate escalation, one-step release inside a wide band, and a CPU
 brake at the top tier whose quotas and idle demotions are all undone when the tier is left.
 */
module MemoryGuard {
  import opened Options
  import Latch = ProfileLatch

  datatype Tier = Normal | Advisory | Throttle

  function Level(t: Tier): nat {
    match t
    case Normal => 0
    case Advisory => 1
    case Throttle => 2
  }

  function MaxTier(a: Tier, b: Tier): Tier {
    if Level(a) >= Level(b) then a else b
  }

  datatype Sample = Sample(memTotal: nat, memAvailable: nat, swapTotal: nat, swapFree: nat, psiFull: real)

  const MIN_TARGET_KIB: nat := 256 * 1024
  const MAX_THROTTLED: nat := 16

  // ------------------------------------------------------------------ classification

  function Pct(part: nat, whole: nat): real {
    if whole == 0 then 100.0 else part as real * 100.0 / whole as real
  }

  function SwapFreePct(s: Sample): real {
    if s.swapTotal > 0 then Pct(s.swapFree, s.swapTotal) else 100.0
  }

  function MemAvailablePct(s: Sample): real {
    Pct(s.memAvailable, s.memTotal)
  }

  function Raw(s: Sample): Tier {
    if (s.swapTotal > 0 && SwapFreePct(s) < 12.0) || MemAvailablePct(s) < 8.0 || s.psiFull > 25.0 then Throttle
    else if (s.swapTotal > 0 && SwapFreePct(s) < 30.0) || MemAvailablePct(s) < 15.0 || s.psiFull > 10.0 then Advisory
    else Normal
  }

  predicate InReleaseBand(s: Sample) {
    (s.swapTotal == 0 || SwapFreePct(s) > 45.0) && MemAvailablePct(s) > 25.0 && s.psiFull < 5.0
  }

  function Classify(s: Sample, previous: Tier): Tier {
    if Level(Raw(s)) >= Level(previous) then Raw(s)
    else if !InReleaseBand(s) then previous
    else if previous == Throttle then Advisory
    else Normal
  }

  /** Never below the raw tier; up at once; down one step at most and only inside the release band. */
  lemma ClassifyIsHysteretic(s: Sample, previous: Tier)
    ensures Level(Classify(s, previous)) >= Level(Raw(s))
    ensures Level(Raw(s)) >= Level(previous) ==> Classify(s, previous) == Raw(s)
    ensures Level(Classify(s, previous)) < Level(previous) ==>
              InReleaseBand(s) && Level(Classify(s, previous)) == Level(previous) - 1
    ensures Level(Classify(s, previous)) < Level(previous) <== InReleaseBand(s) && previous != Normal
  {
  }

  function Repeated(s: Sample, previous: Tier, n: nat): Tier {
    if n == 0 then previous else Classify(s, Repeated(s, previous, n - 1))
  }

  /** A constant input settles within two steps, and where it settles is known. */
  lemma {:induction false} ConstantInputSettles(s: Sample, previous: Tier, n: nat)
    requires n >= 2
    ensures Repeated(s, previous, n) == if InReleaseBand(s) then Normal else MaxTier(Raw(s), previous)
    decreases n
  {
    if n > 2 {
      ConstantInputSettles(s, previous, n - 1);
    } else {
      assert Repeated(s, previous, 0) == previous;
      assert Repeated(s, previous, 1) == Classify(s, previous);
    }
  }

  // ------------------------------------------------------------------ the brake

  /** safety tiers 0, 1 and 2 run the session itself */
  datatype Proc = Proc(pid: int, pss: nat, safety: nat)

  datatype Throttled = Throttled(pid: int, quota: bool, idle: bool)

  predicate Candidate(p: Proc, protectedPid: int) {
    && p.pid > 1
    && !(protectedPid != 0 && p.pid == protectedPid)
    && p.pss >= MIN_TARGET_KIB
    && p.safety > 2
  }

  /** Which quota, policy and I/O priority calls the kernel accepts this cycle. */
  datatype Kernel = Kernel(quotaOk: int -> bool, policyOk: int -> bool, ioOk: int -> bool)

  /** The idle demotion counts as applied when either of its calls is accepted. */
  predicate IdleOk(k: Kernel, pid: int) {
    k.policyOk(pid) || k.ioOk(pid)
  }

  predicate HasPid(list: seq<Throttled>, pid: int) {
    exists i :: 0 <= i < |list| && list[i].pid == pid
  }

  function Consider(list: seq<Throttled>, p: Proc, protectedPid: int, k: Kernel): seq<Throttled> {
    if |list| >= MAX_THROTTLED || !Candidate(p, protectedPid) || HasPid(list, p.pid) then list
    else if !k.quotaOk(p.pid) && !IdleOk(k, p.pid) then list
    else list + [Throttled(p.pid, k.quotaOk(p.pid), IdleOk(k, p.pid))]
  }

  function Brake(list: seq<Throttled>, procs: seq<Proc>, protectedPid: int, k: Kernel): seq<Throttled> {
    if procs == [] then list
    else Consider(Brake(list, procs[..|procs| - 1], protectedPid, k), procs[|procs| - 1], protectedPid, k)
  }

  lemma {:induction false} BrakeWhenFull(list: seq<Throttled>, procs: seq<Proc>, protectedPid: int, k: Kernel, n: nat)
    requires n <= |procs| && |Brake(list, procs[..n], protectedPid, k)| >= MAX_THROTTLED
    ensures Brake(list, procs, protectedPid, k) == Brake(list, procs[..n], protectedPid, k)
    decreases |procs|
  {
    if n == |procs| {
      assert procs[..n] == procs;
    } else {
      assert procs[..|procs| - 1][..n] == procs[..n];
      BrakeWhenFull(list, procs[..|procs| - 1], protectedPid, k, n);
    }
  }

  // ------------------------------------------------------------------ what the brake does to scheduling

  const SCHED_OTHER := 0
  const SCHED_IDLE := 5

  datatype IoPrio = IoPrio(kind: nat, level: nat)

  const IDLE_IO := IoPrio(3, 7)
  const BEST_EFFORT_IO := IoPrio(2, 4)

  /** How the kernel schedules a process. */
  datatype Sched = Sched(policy: int, nice: int, io: IoPrio)

  /** What a release writes, whatever the process had before. */
  const NORMAL_SCHED := Sched(SCHED_OTHER, 0, BEST_EFFORT_IO)

  function Demoted(was: Sched, pid: int, k: Kernel): Sched {
    Sched(if k.policyOk(pid) then SCHED_IDLE else was.policy, was.nice, if k.ioOk(pid) then IDLE_IO else was.io)
  }

  function Demote(table: map<int, Sched>, pid: int, k: Kernel): map<int, Sched> {
    if pid in table then table[pid := Demoted(table[pid], pid, k)] else table
  }

  function Normalise(table: map<int, Sched>, t: Throttled): map<int, Sched> {
    if t.idle && t.pid in table then table[t.pid := NORMAL_SCHED] else table
  }

  function ConsiderSched(list: seq<Throttled>, p: Proc, protectedPid: int, k: Kernel,
                         table: map<int, Sched>): map<int, Sched>
  {
    if |list| >= MAX_THROTTLED || !Candidate(p, protectedPid) || HasPid(list, p.pid) then table
    else Demote(table, p.pid, k)
  }

  /** The scheduling table after a brake pass over the processes. */
  function BrakeSched(list: seq<Throttled>, procs: seq<Proc>, protectedPid: int, k: Kernel,
                      table: map<int, Sched>): map<int, Sched>
  {
    if procs == [] then table
    else
      var n := |procs| - 1;
      ConsiderSched(Brake(list, procs[..n], protectedPid, k), procs[n], protectedPid, k,
                    BrakeSched(list, procs[..n], protectedPid, k, table))
  }

  /** The table after every listed process was released. */
  function Released(list: seq<Throttled>, table: map<int, Sched>): map<int, Sched> {
    if list == [] then table else Normalise(Released(list[..|list| - 1], table), list[|list| - 1])
  }

  lemma {:induction false} BrakeExtends(list: seq<Throttled>, procs: seq<Proc>, protectedPid: int, k: Kernel)
    ensures var r := Brake(list, procs, protectedPid, k);
            && |list| <= |r| && (forall i :: 0 <= i < |list| ==> r[i] == list[i])
            && (forall i :: |list| <= i < |r| ==> r[i].idle == IdleOk(k, r[i].pid))
    decreases |procs|
  {
    if procs != [] {
      BrakeExtends(list, procs[..|procs| - 1], protectedPid, k);
    }
  }

  lemma HasPidGrows(list: seq<Throttled>, procs: seq<Proc>, protectedPid: int, k: Kernel, pid: int)
    requires HasPid(list, pid)
    ensures HasPid(Brake(list, procs, protectedPid, k), pid)
  {
    BrakeExtends(list, procs, protectedPid, k);
    var i :| 0 <= i < |list| && list[i].pid == pid;
    assert Brake(list, procs, protectedPid, k)[i] == list[i];
  }

  /** A pass demotes exactly the processes it adds. */
  lemma {:induction false} BrakeSchedAt(list: seq<Throttled>, procs: seq<Proc>, protectedPid: int, k: Kernel,
                                        table: map<int, Sched>, pid: int)
    requires pid in table
    ensures var t := BrakeSched(list, procs, protectedPid, k, table);
            && pid in t
            && t[pid] == if HasPid(Brake(list, procs, protectedPid, k), pid) && !HasPid(list, pid)
                         then Demoted(table[pid], pid, k) else table[pid]
    decreases |procs|
  {
    if procs != [] {
      var n := |procs| - 1;
      var before := Brake(list, procs[..n], protectedPid, k);
      BrakeSchedAt(list, procs[..n], protectedPid, k, table, pid);
      ConsideredAt(before, procs[n], protectedPid, k, pid);
      if HasPid(list, pid) {
        HasPidGrows(list, procs[..n], protectedPid, k, pid);
      }
    }
  }

  lemma ConsideredAt(list: seq<Throttled>, p: Proc, protectedPid: int, k: Kernel, pid: int)
    ensures HasPid(Consider(list, p, protectedPid, k), pid) <==>
              HasPid(list, pid)
              || (pid == p.pid && |list| < MAX_THROTTLED && Candidate(p, protectedPid)
                  && (k.quotaOk(pid) || IdleOk(k, pid)))
  {
    var r := Consider(list, p, protectedPid, k);
    if HasPid(list, pid) {
      var i :| 0 <= i < |list| && list[i].pid == pid;
      assert r[i] == list[i];
    } else if pid == p.pid && |r| > |list| {
      assert r[|list|].pid == pid;
    }
  }

  lemma {:induction false} ReleasedAt(list: seq<Throttled>, table: map<int, Sched>, pid: int)
    requires pid in table
    ensures var t := Released(list, table);
            pid in t && t[pid] == if pid in IdlePids(list) then NORMAL_SCHED else table[pid]
    decreases |list|
  {
    if list != [] {
      var n := |list| - 1;
      ReleasedAt(list[..n], table, pid);
      PidsOfAppended(list[..n], list[n]);
      assert list == list[..n] + [list[n]];
    }
  }

  /**
   A process that is braked and later released has its scheduling back exactly when it was not
   demoted or had the normal policy, nice value and I/O priority in the first place.
   */
  lemma ReleaseRestoresExactlyWhen(list: seq<Throttled>, procs: seq<Proc>, protectedPid: int, k: Kernel,
                                   table: map<int, Sched>, pid: int)
    requires pid in table && !HasPid(list, pid)
    ensures var braked := Brake(list, procs, protectedPid, k);
            var t := Released(braked, BrakeSched(list, procs, protectedPid, k, table));
            && pid in t
            && (t[pid] == table[pid] <==>
                !HasPid(braked, pid) || !IdleOk(k, pid) || table[pid] == NORMAL_SCHED)
  {
    var braked := Brake(list, procs, protectedPid, k);
    var t := BrakeSched(list, procs, protectedPid, k, table);
    BrakeSchedAt(list, procs, protectedPid, k, table, pid);
    ReleasedAt(braked, t, pid);
    BrakeExtends(list, procs, protectedPid, k);
    assert forall i :: 0 <= i < |braked| && braked[i].pid == pid ==> braked[i].idle == IdleOk(k, pid);
    if HasPid(braked, pid) && IdleOk(k, pid) {
      var i :| 0 <= i < |braked| && braked[i].pid == pid;
      assert braked[i].idle;
    }
  }

  /** A full list takes nobody in, so nobody is demoted either. */
  lemma {:induction false} BrakeSchedWhenFull(list: seq<Throttled>, procs: seq<Proc>, protectedPid: int, k: Kernel,
                                              table: map<int, Sched>, n: nat)
    requires n <= |procs| && |Brake(list, procs[..n], protectedPid, k)| >= MAX_THROTTLED
    ensures BrakeSched(list, procs, protectedPid, k, table) == BrakeSched(list, procs[..n], protectedPid, k, table)
    decreases |procs|
  {
    if n == |procs| {
      assert procs[..n] == procs;
    } else {
      var last := |procs| - 1;
      assert procs[..last][..n] == procs[..n];
      BrakeWhenFull(list, procs[..last], protectedPid, k, n);
      BrakeSchedWhenFull(list, procs[..last], protectedPid, k, table, n);
    }
  }

  // ------------------------------------------------------------------ one cycle

  /** growing and exhausted are the swap expander's answers. */
  datatype Input = Input(sample: Option<Sample>, procs: seq<Proc>, protectedPid: int, profile: Latch.Profile,
                         growing: bool, exhausted: bool, kernel: Kernel)

  datatype State = State(tier: Tier, throttled: seq<Throttled>)

  predicate ThrottlePermitted(profile: Latch.Profile, growing: bool, exhausted: bool) {
    profile != Latch.Performance || (!growing && exhausted)
  }

  /** What a cycle does to the brake list. */
  datatype Action = Tighten | ReleaseEvery | Keep

  function Decide(previous: Tier, next: Tier, i: Input): Action {
    if next == Throttle && ThrottlePermitted(i.profile, i.growing, i.exhausted) then Tighten
    else if i.profile == Latch.Performance then
      if next == Normal && previous == Normal then Keep else ReleaseEvery
    else if (next == Normal && previous != Normal) || (next == Advisory && previous == Throttle) then ReleaseEvery
    else Keep
  }

  function Next(s: State, i: Input): State {
    if i.sample.None? then s
    else
      var next := Classify(i.sample.value, s.tier);
      match Decide(s.tier, next, i)
      case Tighten => State(next, Brake(s.throttled, i.procs, i.protectedPid, i.kernel))
      case ReleaseEvery => State(next, [])
      case Keep => State(next, s.throttled)
  }

  /** The scheduling table after the same cycle. */
  function NextSched(s: State, table: map<int, Sched>, i: Input): map<int, Sched> {
    if i.sample.None? then table
    else
      match Decide(s.tier, Classify(i.sample.value, s.tier), i)
      case Tighten => BrakeSched(s.throttled, i.procs, i.protectedPid, i.kernel, table)
      case ReleaseEvery => Released(s.throttled, table)
      case Keep => table
  }

  function QuotaPids(list: seq<Throttled>): set<int> {
    set i | 0 <= i < |list| && list[i].quota :: list[i].pid
  }

  function IdlePids(list: seq<Throttled>): set<int> {
    set i | 0 <= i < |list| && list[i].idle :: list[i].pid
  }

  predicate Distinct(list: seq<Throttled>) {
    forall i, j :: 0 <= i < j < |list| ==> list[i].pid != list[j].pid
  }

  /** At most 16 entries with distinct PIDs, each with something applied. */
  ghost predicate Bounded(list: seq<Throttled>) {
    && |list| <= MAX_THROTTLED && Distinct(list)
    && (forall i :: 0 <= i < |list| ==> list[i].pid > 1 && (list[i].quota || list[i].idle))
  }

  ghost predicate Inv(s: State) {
    (s.throttled != [] ==> s.tier == Throttle) && Bounded(s.throttled)
  }

  class MemoryPressureGuard {
    var tier: Tier
    var throttled: seq<Throttled>
    /** What the kernel holds on behalf of the guard. */
    ghost var quotas: set<int>
    ghost var idles: set<int>
    /** How the kernel schedules each process. */
    ghost var sched: map<int, Sched>

    ghost function Now(): State
      reads this
    {
      State(tier, throttled)
    }

    ghost predicate Valid()
      reads this
    {
      Inv(Now()) && quotas == QuotaPids(throttled) && idles == IdlePids(throttled)
    }

    constructor (ghost sched: map<int, Sched>)
      ensures Valid() && Now() == State(Normal, []) && this.sched == sched
    {
      this.sched := sched;
      tier := Normal;
      throttled := [];
      quotas := {};
      idles := {};
    }

    method ReleaseAll()
      requires quotas == QuotaPids(throttled) && idles == IdlePids(throttled)
      modifies this
      ensures tier == old(tier) && throttled == [] && quotas == {} && idles == {}
      ensures sched == Released(old(throttled), old(sched))
    {
      for i := 0 to |throttled|
        invariant throttled == old(throttled) && tier == old(tier)
        invariant forall pid :: pid in quotas ==> pid in QuotaPids(throttled[i..])
        invariant forall pid :: pid in idles ==> pid in IdlePids(throttled[i..])
        invariant sched == Released(throttled[..i], old(sched))
      {
        var t := throttled[i];
        assert throttled[..i + 1][..i] == throttled[..i];
        if t.quota {
          quotas := quotas - {t.pid};
        }
        if t.idle {
          idles := idles - {t.pid};
        }
        sched := Normalise(sched, t);
        PidsOfTail(throttled[i..]);
        assert throttled[i..][1..] == throttled[i + 1..];
      }
      assert throttled[|throttled|..] == [] && throttled[..|throttled|] == throttled;
      assert forall pid :: pid !in quotas && pid !in idles;
      throttled := [];
    }

    method ActuateThrottle(procs: seq<Proc>, protectedPid: int, k: Kernel)
      requires quotas == QuotaPids(throttled) && idles == IdlePids(throttled)
      modifies this
      ensures tier == old(tier) && throttled == Brake(old(throttled), procs, protectedPid, k)
      ensures sched == BrakeSched(old(throttled), procs, protectedPid, k, old(sched))
      ensures quotas == QuotaPids(throttled) && idles == IdlePids(throttled)
    {
      ghost var before := throttled;
      for n := 0 to |procs|
        invariant tier == old(tier) && throttled == Brake(before, procs[..n], protectedPid, k)
        invariant sched == BrakeSched(before, procs[..n], protectedPid, k, old(sched))
        invariant quotas == QuotaPids(throttled) && idles == IdlePids(throttled)
      {
        if |throttled| >= MAX_THROTTLED {
          BrakeWhenFull(before, procs, protectedPid, k, n);
          BrakeSchedWhenFull(before, procs, protectedPid, k, old(sched), n);
          return;
        }
        var p := procs[n];
        assert procs[..n + 1][..n] == procs[..n];
        if !Candidate(p, protectedPid) || HasPid(throttled, p.pid) {
          continue;
        }
        var t := Throttled(p.pid, k.quotaOk(p.pid), IdleOk(k, p.pid));
        if t.quota {
          quotas := quotas + {p.pid};
        }
        if t.idle {
          idles := idles + {p.pid};
        }
        sched := Demote(sched, p.pid, k);
        if !t.quota && !t.idle {
          continue;
        }
        PidsOfAppended(throttled, t);
        throttled := throttled + [t];
      }
      assert procs[..|procs|] == procs;
    }

    /** Whatever the input, the brake list, the kernel's quotas and the idle demotions stay in step. */
    method EvaluateAndActuate(i: Input) returns (next: Tier)
      requires Valid()
      modifies this
      ensures Valid() && Now() == Next(old(Now()), i) && next == tier
      ensures sched == NextSched(old(Now()), old(sched), i)
    {
      NextKeepsInv(Now(), i);
      if i.sample.None? {
        return tier;
      }
      var previous := tier;
      next := Classify(i.sample.value, previous);
      tier := next;
      if i.profile == Latch.Performance {
        if next == Normal {
          if previous != Normal {
            ReleaseAll();
          }
          return;
        }
        if next == Throttle && ThrottlePermitted(i.profile, i.growing, i.exhausted) {
          ActuateThrottle(i.procs, i.protectedPid, i.kernel);
        } else {
          ReleaseAll();
        }
        return;
      }
      match next {
        case Normal =>
          if previous != Normal {
            ReleaseAll();
          }
        case Advisory =>
          if previous == Throttle {
            ReleaseAll();
          }
        case Throttle =>
          ActuateThrottle(i.procs, i.protectedPid, i.kernel);
      }
    }
  }

  lemma PidsOfTail(list: seq<Throttled>)
    requires list != []
    ensures forall pid :: pid in QuotaPids(list) && !(list[0].quota && list[0].pid == pid) ==>
        pid in QuotaPids(list[1..])
    ensures forall pid :: pid in IdlePids(list) && !(list[0].idle && list[0].pid == pid) ==> pid in IdlePids(list[1..])
  {
  }

  lemma PidsOfAppended(list: seq<Throttled>, t: Throttled)
    ensures QuotaPids(list + [t]) == QuotaPids(list) + if t.quota then {t.pid} else {}
    ensures IdlePids(list + [t]) == IdlePids(list) + if t.idle then {t.pid} else {}
  {
    var both := list + [t];
    assert both[|list|] == t;
    forall pid | pid in QuotaPids(list)
      ensures pid in QuotaPids(both)
    {
      var i :| 0 <= i < |list| && list[i].quota && list[i].pid == pid;
      assert both[i] == list[i];
    }
    forall pid | pid in IdlePids(list)
      ensures pid in IdlePids(both)
    {
      var i :| 0 <= i < |list| && list[i].idle && list[i].pid == pid;
      assert both[i] == list[i];
    }
  }

  // ------------------------------------------------------------------ safety over every run

  lemma ConsiderKeeps(list: seq<Throttled>, p: Proc, protectedPid: int, k: Kernel)
    requires Bounded(list)
    ensures Bounded(Consider(list, p, protectedPid, k))
  {
    var r := Consider(list, p, protectedPid, k);
    forall i, j | 0 <= i < j < |r|
      ensures r[i].pid != r[j].pid
    {
      assert r[i] == list[i];
    }
  }

  ghost predicate HasCandidate(procs: seq<Proc>, protectedPid: int, pid: int) {
    exists n :: 0 <= n < |procs| && procs[n].pid == pid && Candidate(procs[n], protectedPid)
  }

  lemma {:induction false} BrakeKeeps(list: seq<Throttled>, procs: seq<Proc>, protectedPid: int, k: Kernel)
    requires Bounded(list)
    ensures var r := Brake(list, procs, protectedPid, k);
            && Bounded(r) && |list| <= |r| && r[..|list|] == list
            && (forall i :: |list| <= i < |r| ==> HasCandidate(procs, protectedPid, r[i].pid))
    decreases |procs|
  {
    BrakeExtends(list, procs, protectedPid, k);
    if procs != [] {
      var n := |procs| - 1;
      BrakeKeeps(list, procs[..n], protectedPid, k);
      var before := Brake(list, procs[..n], protectedPid, k);
      ConsiderKeeps(before, procs[n], protectedPid, k);
      var r := Brake(list, procs, protectedPid, k);
      forall i | |list| <= i < |r|
        ensures HasCandidate(procs, protectedPid, r[i].pid)
      {
        CandidateAmongMore(procs, protectedPid, r[i].pid);
        assert i < |before| ==> r[i] == before[i];
      }
    }
    assert Brake(list, procs, protectedPid, k)[..|list|] == list;
  }

  lemma CandidateAmongMore(procs: seq<Proc>, protectedPid: int, pid: int)
    requires procs != []
    ensures HasCandidate(procs[..|procs| - 1], protectedPid, pid) ==> HasCandidate(procs, protectedPid, pid)
    ensures procs[|procs| - 1].pid == pid && Candidate(procs[|procs| - 1], protectedPid)
            ==> HasCandidate(procs, protectedPid, pid)
  {
    if HasCandidate(procs[..|procs| - 1], protectedPid, pid) {
      var n :| 0 <= n < |procs| - 1 && procs[..|procs| - 1][n].pid == pid && Candidate(procs[n], protectedPid);
      assert procs[n].pid == pid;
    }
  }

  lemma NextKeepsInv(s: State, i: Input)
    requires Inv(s)
    ensures Inv(Next(s, i))
  {
    BrakeKeeps(s.throttled, i.procs, i.protectedPid, i.kernel);
  }

  function Run(s: State, inputs: seq<Input>): State
    decreases |inputs|
  {
    if inputs == [] then s else Run(Next(s, inputs[0]), inputs[1..])
  }

  /** Over every run of samples, profile switches and kernel answers. */
  lemma {:induction false} RunKeepsInv(inputs: seq<Input>, s: State)
    requires Inv(s)
    ensures Inv(Run(s, inputs))
    decreases |inputs|
  {
    if inputs != [] {
      NextKeepsInv(s, inputs[0]);
      RunKeepsInv(inputs[1..], Next(s, inputs[0]));
    }
  }

  function RunSched(s: State, table: map<int, Sched>, inputs: seq<Input>): map<int, Sched>
    decreases |inputs|
  {
    if inputs == [] then table else RunSched(Next(s, inputs[0]), NextSched(s, table, inputs[0]), inputs[1..])
  }

  /** Off the idle list a process is scheduled as at the start, or as a release leaves it. */
  ghost predicate Settled(s: State, start: map<int, Sched>, table: map<int, Sched>) {
    forall pid :: pid in start && pid !in IdlePids(s.throttled) ==>
      pid in table && (table[pid] == start[pid] || table[pid] == NORMAL_SCHED)
  }

  lemma NextKeepsSettled(s: State, start: map<int, Sched>, table: map<int, Sched>, i: Input)
    requires start.Keys <= table.Keys && Settled(s, start, table)
    ensures start.Keys <= NextSched(s, table, i).Keys && Settled(Next(s, i), start, NextSched(s, table, i))
  {
    forall pid | pid in start
      ensures pid in NextSched(s, table, i)
      ensures pid !in IdlePids(Next(s, i).throttled) ==>
                NextSched(s, table, i)[pid] == start[pid] || NextSched(s, table, i)[pid] == NORMAL_SCHED
    {
      BrakeSchedAt(s.throttled, i.procs, i.protectedPid, i.kernel, table, pid);
      ReleasedAt(s.throttled, table, pid);
      DemotedAreListed(s.throttled, i.procs, i.protectedPid, i.kernel, table[pid], pid);
    }
  }

  /** Off the idle list after a pass means off it before, and not demoted by the pass. */
  lemma DemotedAreListed(list: seq<Throttled>, procs: seq<Proc>, protectedPid: int, k: Kernel, was: Sched, pid: int)
    ensures var r := Brake(list, procs, protectedPid, k);
            pid !in IdlePids(r) ==>
              pid !in IdlePids(list) && (HasPid(r, pid) && !HasPid(list, pid) ==> Demoted(was, pid, k) == was)
  {
    var r := Brake(list, procs, protectedPid, k);
    BrakeExtends(list, procs, protectedPid, k);
    if pid in IdlePids(list) {
      var j :| 0 <= j < |list| && list[j].idle && list[j].pid == pid;
      assert r[j] == list[j];
    }
  }

  /**
   Over every run: whoever is not demoted at its end is scheduled as at its start or normally, so
   only a process that started with the normal scheduling is sure to have its own back.
   */
  lemma {:induction false} RunSettles(inputs: seq<Input>, s: State, start: map<int, Sched>, table: map<int, Sched>)
    requires start.Keys <= table.Keys && Settled(s, start, table)
    ensures Settled(Run(s, inputs), start, RunSched(s, table, inputs))
    decreases |inputs|
  {
    if inputs != [] {
      NextKeepsSettled(s, start, table, inputs[0]);
      RunSettles(inputs[1..], Next(s, inputs[0]), start, NextSched(s, table, inputs[0]));
    }
  }

  /** While no sample enters the release band, no run lowers the tier: the guard cannot oscillate. */
  lemma {:induction false} TierHoldsOutsideBand(inputs: seq<Input>, s: State)
    requires forall i :: 0 <= i < |inputs| && inputs[i].sample.Some? ==> !InReleaseBand(inputs[i].sample.value)
    ensures Level(Run(s, inputs).tier) >= Level(s.tier)
    decreases |inputs|
  {
    if inputs != [] {
      if inputs[0].sample.Some? {
        ClassifyIsHysteretic(inputs[0].sample.value, s.tier);
      }
      TierHoldsOutsideBand(inputs[1..], Next(s, inputs[0]));
    }
  }

  /** No process joins the brake list while it is protected. */
  lemma NobodyProtectedJoins(s: State, i: Input, t: Throttled)
    requires Inv(s) && t in Next(s, i).throttled && t !in s.throttled
    ensures HasCandidate(i.procs, i.protectedPid, t.pid)
  {
    BrakeKeeps(s.throttled, i.procs, i.protectedPid, i.kernel);
    BrakeExtends(s.throttled, i.procs, i.protectedPid, i.kernel);
    var r := Next(s, i).throttled;
    var j :| 0 <= j < |r| && r[j] == t;
  }

  /** Whether this cycle lifts every brake. */
  predicate Releases(s: State, i: Input) {
    i.sample.Some? && s.tier == Throttle
    && !(Classify(i.sample.value, s.tier) == Throttle && ThrottlePermitted(i.profile, i.growing, i.exhausted))
  }

  /** A process that gains protection stays braked exactly when it was braked and nothing is released. */
  lemma ProtectedStaysBrakedExactlyWhen(s: State, i: Input)
    requires Inv(s) && i.protectedPid != 0
    ensures HasPid(Next(s, i).throttled, i.protectedPid) <==> HasPid(s.throttled, i.protectedPid) && !Releases(s, i)
  {
    BrakeKeeps(s.throttled, i.procs, i.protectedPid, i.kernel);
    var r := Next(s, i).throttled;
    if HasPid(r, i.protectedPid) {
      var j :| 0 <= j < |r| && r[j].pid == i.protectedPid;
      if j < |s.throttled| && r != s.throttled {
        assert r[j] == r[..|s.throttled|][j];
      }
    }
    if HasPid(s.throttled, i.protectedPid) && !Releases(s, i) {
      var j :| 0 <= j < |s.throttled| && s.throttled[j].pid == i.protectedPid;
      if r != s.throttled {
        assert r[j] == r[..|s.throttled|][j];
      }
    }
  }

  /**
   From a fresh guard: pressure brakes process 7, then lasts while the user moves to its window. The
   process stays braked although it is protected now and would not be taken in any more.
   */
  lemma FocusedProcessStaysBraked(k: Kernel)
    requires k.quotaOk(7)
    ensures var pressed, seven := Some(Sample(100, 1, 0, 0, 0.0)), Proc(7, MIN_TARGET_KIB, 3);
            var unfocused := Input(pressed, [seven], 0, Latch.Balanced, false, false, k);
            var focused := Input(pressed, [seven], 7, Latch.Balanced, false, false, k);
            && !Candidate(seven, 7)
            && HasPid(Run(State(Normal, []), [unfocused]).throttled, 7)
            && HasPid(Run(State(Normal, []), [unfocused, focused]).throttled, 7)
  {
    var pressed, seven := Some(Sample(100, 1, 0, 0, 0.0)), Proc(7, MIN_TARGET_KIB, 3);
    var unfocused := Input(pressed, [seven], 0, Latch.Balanced, false, false, k);
    var focused := Input(pressed, [seven], 7, Latch.Balanced, false, false, k);
    var s := State(Normal, []);
    BrakesOne(seven, 0, k);
    var t := Next(s, unfocused);
    assert t == State(Throttle, Brake([], [seven], 0, k));
    NextKeepsInv(s, unfocused);
    ProtectedStaysBrakedExactlyWhen(t, focused);
    assert [unfocused, focused][1..] == [focused] && [focused][1..] == [] && [unfocused][1..] == [];
    assert Run(s, [unfocused]) == Run(t, []) == t;
    assert Run(s, [unfocused, focused]) == Run(t, [focused]) == Run(Next(t, focused), []) == Next(t, focused);
  }

  lemma BrakesOne(p: Proc, protectedPid: int, k: Kernel)
    requires Candidate(p, protectedPid) && k.quotaOk(p.pid)
    ensures HasPid(Brake([], [p], protectedPid, k), p.pid)
  {
    assert [p][..0] == [];
    assert Brake([], [p], protectedPid, k) == Consider([], p, protectedPid, k);
    assert Consider([], p, protectedPid, k)[0].pid == p.pid;
  }

  /**
   The guard does not check who holds a PID. Between two cycles a process exits and another takes its
   PID with a scheduling of its own: in the cycle that releases the list the newcomer keeps that
   scheduling exactly when the PID was not demoted, or the newcomer was scheduled normally anyway.
   */
  lemma RecycledPidKeepsItsOwnExactlyWhen(s: State, table: map<int, Sched>, pid: int, newcomer: Sched, i: Input)
    requires i.sample.Some? && Decide(s.tier, Classify(i.sample.value, s.tier), i) == ReleaseEvery
    ensures var after := NextSched(s, table[pid := newcomer], i);
            pid in after && (after[pid] == newcomer <==> pid !in IdlePids(s.throttled) || newcomer == NORMAL_SCHED)
  {
    ReleasedAt(s.throttled, table[pid := newcomer], pid);
  }
}
