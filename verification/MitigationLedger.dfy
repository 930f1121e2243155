/**
 The anti-starvation ledger: a process is capped (core mask, SCHED_BATCH, nice) only while the
 ledger can record how it was, and a record is written back only to the very process it was taken
 from, told apart from a later holder of the PID by its start time.
 */
module MitigationLedger {
  import opened Options
  import Latch = ProfileLatch

  const MAX_TRACKED: nat := 128
  const HOLD_SECONDS: nat := 15
  const SCHED_BATCH := 3

  datatype Saved = Saved(policy: int, nice: int, affinity: set<nat>)

  /**
   As the kernel holds it, followed by bookkeeping of this model: what a capped process was before,
   the nice value last set from outside, the last unrecorded renice since then, and whether that
   setting came while the process was capped, so that a restore overrules it.
   */
  datatype Proc = Proc(start: nat, policy: int, nice: int, affinity: set<nat>, quota: bool, baseline: Option<Saved>,
                       own: int, reniced: Option<int>, overruled: bool)

  datatype Entry = Entry(pid: int, start: nat, since: nat, saved: Saved)

  /** newest bounds every start time handed out so far. */
  datatype State = State(procs: map<int, Proc>, tracked: seq<Entry>, lastProfile: Option<Latch.Profile>, newest: nat)

  // ------------------------------------------------------------------ capping

  /** How many of n CPUs a profile leaves to greedy work. */
  function Allowed(mode: Latch.Profile, n: nat): (r: nat)
    ensures n > 0 ==> 0 < r <= n
  {
    if n >= 8 then
      match mode
      case UltraEndurance => n / 2
      case PowerSaver => n * 3 / 4
      case _ => n - 2
    else if n >= 4 then
      match mode
      case UltraEndurance => n / 2
      case _ => n - 1
    else n
  }

  function FirstCpus(count: nat): (r: set<nat>)
    ensures forall c: nat :: c in r <==> c < count
  {
    if count == 0 then {} else FirstCpus(count - 1) + {count - 1}
  }

  /** Which system calls succeed for a process this cycle. */
  datatype Kernel = Kernel(affinityOk: int -> bool, batchOk: int -> bool, niceOk: int -> bool, quotaOk: int -> bool)

  function CapNice(mode: Latch.Profile): int {
    if mode == Latch.UltraEndurance then 15 else 10
  }

  predicate Applied(pid: int, k: Kernel) {
    k.affinityOk(pid) || k.batchOk(pid)
  }

  function Capped(p: Proc, pid: int, mode: Latch.Profile, cpus: nat, k: Kernel): Proc {
    p.(policy := if k.batchOk(pid) then SCHED_BATCH else p.policy,
       nice := if k.niceOk(pid) then CapNice(mode) else p.nice,
       affinity := if k.affinityOk(pid) then FirstCpus(Allowed(mode, cpus)) else p.affinity,
       quota := p.quota || (mode == Latch.UltraEndurance && k.quotaOk(pid)),
       baseline := if Applied(pid, k) then Some(Saved(p.policy, p.nice, p.affinity)) else p.baseline,
       reniced := if !Applied(pid, k) && k.niceOk(pid) && p.nice != CapNice(mode) then Some(CapNice(mode))
                  else p.reniced)
  }

  predicate IsTracked(tracked: seq<Entry>, pid: int) {
    exists i :: 0 <= i < |tracked| && tracked[i].pid == pid
  }

  /** Capacity is checked before acting; Performance and a vanished process act on nothing. */
  predicate MayCap(s: State, pid: int, mode: Latch.Profile) {
    && !IsTracked(s.tracked, pid) && |s.tracked| < MAX_TRACKED
    && mode != Latch.Performance && pid > 1 && pid in s.procs
  }

  function Cap(s: State, pid: int, mode: Latch.Profile, cpus: nat, now: nat, k: Kernel): State {
    if !MayCap(s, pid, mode) then s
    else
      var p := s.procs[pid];
      var entry := Entry(pid, p.start, now, Saved(p.policy, p.nice, p.affinity));
      s.(procs := s.procs[pid := Capped(p, pid, mode, cpus, k)],
         tracked := if Applied(pid, k) then s.tracked + [entry] else s.tracked)
  }

  function CapAll(s: State, greedy: seq<int>, mode: Latch.Profile, cpus: nat, now: nat, k: Kernel): State {
    if greedy == [] then s
    else Cap(CapAll(s, greedy[..|greedy| - 1], mode, cpus, now, k), greedy[|greedy| - 1], mode, cpus, now, k)
  }

  // ------------------------------------------------------------------ restoring

  /** The PID still names the process the entry was taken from; a zero start time is never trusted. */
  predicate SameProcess(procs: map<int, Proc>, e: Entry) {
    e.pid > 1 && e.start != 0 && e.pid in procs && procs[e.pid].start == e.start
  }

  /** An empty saved mask falls back to every CPU. */
  function RestoredMask(affinity: set<nat>, cpus: nat): set<nat> {
    if affinity == {} then FirstCpus(cpus) else affinity
  }

  /** The bulk rollback leaves the cgroup quota in place; the de-escalation path lifts it. */
  function Restore(procs: map<int, Proc>, e: Entry, cpus: nat, liftQuota: bool): map<int, Proc> {
    if !SameProcess(procs, e) then procs
    else
      var p := procs[e.pid];
      procs[e.pid := p.(policy := e.saved.policy, nice := e.saved.nice,
                        affinity := RestoredMask(e.saved.affinity, cpus),
                        quota := p.quota && !liftQuota, baseline := None)]
  }

  function RestoreAll(procs: map<int, Proc>, tracked: seq<Entry>, cpus: nat): map<int, Proc> {
    if tracked == [] then procs
    else Restore(RestoreAll(procs, tracked[..|tracked| - 1], cpus), tracked[|tracked| - 1], cpus, false)
  }

  function Rollback(s: State, cpus: nat): State {
    s.(procs := RestoreAll(s.procs, s.tracked, cpus), tracked := [])
  }

  /** The fifteen-second hold, or a report that still shows the PID greedy. */
  predicate Holds(e: Entry, now: nat, stillGreedy: int -> bool) {
    (now >= e.since && now - e.since < HOLD_SECONDS) || stillGreedy(e.pid)
  }

  function SwapRemove(tracked: seq<Entry>, i: nat): seq<Entry>
    requires i < |tracked|
  {
    tracked[i := tracked[|tracked| - 1]][..|tracked| - 1]
  }

  /** One entry of the de-escalation loop: kept, or restored if it is still the same process and dropped. */
  function Deescalate(s: State, i: nat, now: nat, stillGreedy: int -> bool, cpus: nat): State
    decreases |s.tracked| - i
  {
    if i >= |s.tracked| then s
    else if Holds(s.tracked[i], now, stillGreedy) then Deescalate(s, i + 1, now, stillGreedy, cpus)
    else Deescalate(DropEntry(s, i, cpus), i, now, stillGreedy, cpus)
  }

  function DropEntry(s: State, i: nat, cpus: nat): State
    requires i < |s.tracked|
  {
    s.(procs := Restore(s.procs, s.tracked[i], cpus, true), tracked := SwapRemove(s.tracked, i))
  }

  // ------------------------------------------------------------------ runs

  datatype Event =
    | Cycle(profile: Latch.Profile, greedy: seq<int>, stillGreedy: int -> bool, now: nat, kernel: Kernel)
    | Exit(pid: int)
    | Spawn(pid: int, start: nat, policy: int, nice: int, affinity: set<nat>)
    | Tune(pid: int, policy: int, nice: int, affinity: set<nat>)

  function ProfileChange(s: State, profile: Latch.Profile, cpus: nat): State {
    var r := if s.lastProfile.Some? && s.lastProfile.value != profile then Rollback(s, cpus) else s;
    r.(lastProfile := Some(profile))
  }

  function Evaluate(s: State, e: Event, cpus: nat): State
    requires e.Cycle?
  {
    var capped := CapAll(ProfileChange(s, e.profile, cpus), e.greedy, e.profile, cpus, e.now, e.kernel);
    Deescalate(capped, 0, e.now, e.stillGreedy, cpus)
  }

  /** Start times only grow, so a recycled PID never repeats one; anyone may retune a process. */
  predicate Possible(s: State, e: Event) {
    && (e.Spawn? ==> e.pid > 1 && e.pid !in s.procs && e.start > s.newest && e.affinity != {})
    && (e.Tune? ==> e.affinity != {})
  }

  function Tuned(p: Proc, policy: int, nice: int, affinity: set<nat>): Proc {
    p.(policy := policy, nice := nice, affinity := affinity,
       own := nice, reniced := None, overruled := p.baseline.Some?)
  }

  function Step(s: State, e: Event, cpus: nat): State
    requires Possible(s, e)
  {
    match e
    case Cycle(_, _, _, _, _) => Evaluate(s, e, cpus)
    case Exit(pid) => s.(procs := s.procs - {pid})
    case Spawn(pid, start, policy, nice, affinity) =>
      s.(procs := s.procs[pid := Proc(start, policy, nice, affinity, false, None, nice, None, false)], newest := start)
    case Tune(pid, policy, nice, affinity) =>
      if pid in s.procs then
        s.(procs := s.procs[pid := Tuned(s.procs[pid], policy, nice, affinity)])
      else s
  }

  ghost predicate IsRun(run: seq<State>, events: seq<Event>, cpus: nat) {
    && |run| == |events| + 1 && cpus > 0
    && run[0].tracked == [] && run[0].lastProfile == None
    && (forall pid :: pid in run[0].procs ==> Untouched(run[0].procs[pid], run[0].newest))
    && forall i :: 0 <= i < |events| ==> Possible(run[i], events[i]) && run[i + 1] == Step(run[i], events[i], cpus)
  }

  predicate Untouched(p: Proc, newest: nat) {
    0 < p.start <= newest && p.affinity != {} && p.baseline == None && p.own == p.nice && p.reniced == None
    && !p.overruled
  }

  // ------------------------------------------------------------------ invariant

  predicate DistinctPids(tracked: seq<Entry>) {
    forall i, j :: 0 <= i < j < |tracked| ==> tracked[i].pid != tracked[j].pid
  }

  predicate EntryOk(e: Entry, procs: map<int, Proc>, newest: nat) {
    && e.pid > 1 && 0 < e.start <= newest && e.saved.affinity != {}
    && (e.pid in procs && procs[e.pid].start == e.start ==> procs[e.pid].baseline == Some(e.saved))
  }

  /** A capped living process has an entry that holds what it was before. */
  ghost predicate ProcOk(pid: int, p: Proc, tracked: seq<Entry>, newest: nat) {
    && 0 < p.start <= newest && p.affinity != {}
    && (p.baseline.Some? ==>
          exists i :: 0 <= i < |tracked| && tracked[i].pid == pid && tracked[i].start == p.start
              && tracked[i].saved == p.baseline.value)
  }

  ghost predicate Inv(s: State) {
    && |s.tracked| <= MAX_TRACKED && DistinctPids(s.tracked)
    && (forall i :: 0 <= i < |s.tracked| ==> EntryOk(s.tracked[i], s.procs, s.newest))
    && (forall pid :: pid in s.procs ==> ProcOk(pid, s.procs[pid], s.tracked, s.newest))
  }

  lemma AllowedIsEnough(mode: Latch.Profile, cpus: nat)
    requires cpus > 0
    ensures FirstCpus(Allowed(mode, cpus)) != {} && FirstCpus(Allowed(mode, cpus)) <= FirstCpus(cpus)
  {
  }

  lemma CapKeepsInv(s: State, pid: int, mode: Latch.Profile, cpus: nat, now: nat, k: Kernel)
    requires Inv(s) && cpus > 0
    ensures Inv(Cap(s, pid, mode, cpus, now, k))
  {
    if MayCap(s, pid, mode) {
      AllowedIsEnough(mode, cpus);
      var t := Cap(s, pid, mode, cpus, now, k);
      assert ProcOk(pid, s.procs[pid], s.tracked, s.newest);
      forall i | 0 <= i < |t.tracked|
        ensures EntryOk(t.tracked[i], t.procs, t.newest)
      {
        if i < |s.tracked| {
          assert EntryOk(s.tracked[i], s.procs, s.newest) && t.tracked[i].pid != pid;
        }
      }
      forall q | q in t.procs
        ensures ProcOk(q, t.procs[q], t.tracked, t.newest)
      {
        assert ProcOk(q, s.procs[q], s.tracked, s.newest);
        if q == pid && Applied(pid, k) {
          assert t.tracked[|s.tracked|].pid == q;
        } else if q != pid && t.procs[q].baseline.Some? {
          var i :| 0 <= i < |s.tracked| && s.tracked[i].pid == q && s.tracked[i].start == s.procs[q].start
              && s.tracked[i].saved == s.procs[q].baseline.value;
          assert t.tracked[i] == s.tracked[i];
        }
      }
    }
  }

  lemma {:induction false} CapAllKeepsInv(s: State, greedy: seq<int>, mode: Latch.Profile, cpus: nat, now: nat,
      k: Kernel)
    requires Inv(s) && cpus > 0
    ensures Inv(CapAll(s, greedy, mode, cpus, now, k))
    decreases |greedy|
  {
    if greedy != [] {
      CapAllKeepsInv(s, greedy[..|greedy| - 1], mode, cpus, now, k);
      CapKeepsInv(CapAll(s, greedy[..|greedy| - 1], mode, cpus, now, k), greedy[|greedy| - 1], mode, cpus, now, k);
    }
  }

  // ------------------------------------------------------------------ what a rollback does

  /** A capped process as it was, its quota aside; any other as it is. */
  function Undone(p: Proc, liftQuota: bool): Proc {
    match p.baseline
    case Some(b) => p.(policy := b.policy, nice := b.nice, affinity := b.affinity,
                       quota := p.quota && !liftQuota, baseline := None)
    case None => p
  }

  lemma RestoreUndoes(s: State, e: Entry, cpus: nat, liftQuota: bool)
    requires EntryOk(e, s.procs, s.newest) && SameProcess(s.procs, e)
    ensures Restore(s.procs, e, cpus, liftQuota) == s.procs[e.pid := Undone(s.procs[e.pid], liftQuota)]
  {
  }

  lemma {:induction false} RestoreAllAt(procs: map<int, Proc>, tracked: seq<Entry>, cpus: nat, pid: int)
    requires DistinctPids(tracked)
    ensures RestoreAll(procs, tracked, cpus).Keys == procs.Keys
    ensures pid in procs ==> forall i :: 0 <= i < |tracked| && tracked[i].pid == pid ==>
              RestoreAll(procs, tracked, cpus)[pid] == Restore(procs, tracked[i], cpus, false)[pid]
    ensures pid in procs && !IsTracked(tracked, pid) ==> RestoreAll(procs, tracked, cpus)[pid] == procs[pid]
    decreases |tracked|
  {
    if tracked != [] {
      var n := |tracked| - 1;
      RestoreAllAt(procs, tracked[..n], cpus, pid);
      if tracked[n].pid == pid {
        assert !IsTracked(tracked[..n], pid);
      } else if !IsTracked(tracked, pid) {
        assert !IsTracked(tracked[..n], pid);
      } else {
        forall i | 0 <= i < |tracked| && tracked[i].pid == pid
          ensures pid in procs ==> RestoreAll(procs, tracked, cpus)[pid] == Restore(procs, tracked[i], cpus, false)[pid]
        {
          assert tracked[..n][i] == tracked[i];
        }
      }
    }
  }

  /**
   A rollback empties the ledger, gives every living capped process its own recorded policy, nice
   and affinity back and changes no other process, in particular none that reuses a tracked PID.
   */
  lemma RollbackUndoesExactlyTheCapped(s: State, cpus: nat)
    requires Inv(s)
    ensures Rollback(s, cpus) == s.(procs := map pid | pid in s.procs :: Undone(s.procs[pid], false), tracked := [])
  {
    var r := RestoreAll(s.procs, s.tracked, cpus);
    RestoreAllAt(s.procs, s.tracked, cpus, 0);
    forall pid | pid in s.procs
      ensures r[pid] == Undone(s.procs[pid], false)
    {
      RestoreAllAt(s.procs, s.tracked, cpus, pid);
      RestoredOrLeft(s, cpus, pid);
    }
  }

  lemma RestoredOrLeft(s: State, cpus: nat, pid: int)
    requires Inv(s) && pid in s.procs
    ensures IsTracked(s.tracked, pid) ==>
              exists i :: 0 <= i < |s.tracked| && s.tracked[i].pid == pid
                          && Restore(s.procs, s.tracked[i], cpus, false)[pid] == Undone(s.procs[pid], false)
    ensures !IsTracked(s.tracked, pid) ==> s.procs[pid].baseline == None
  {
  }

  lemma RollbackKeepsInv(s: State, cpus: nat)
    requires Inv(s)
    ensures Inv(Rollback(s, cpus))
  {
    RollbackUndoesExactlyTheCapped(s, cpus);
    forall pid | pid in s.procs
      ensures ProcOk(pid, Undone(s.procs[pid], false), [], s.newest)
    {
      assert ProcOk(pid, s.procs[pid], s.tracked, s.newest);
      if s.procs[pid].baseline.Some? {
        var j :| 0 <= j < |s.tracked| && s.tracked[j].pid == pid && s.tracked[j].saved == s.procs[pid].baseline.value;
        assert EntryOk(s.tracked[j], s.procs, s.newest);
      }
    }
  }

  // ------------------------------------------------------------------ what de-escalation does

  lemma SwapRemoveIs(tracked: seq<Entry>, i: nat)
    requires DistinctPids(tracked) && i < |tracked|
    ensures var r := SwapRemove(tracked, i);
            && |r| == |tracked| - 1 && DistinctPids(r) && r[..i] == tracked[..i]
            && (forall e :: e in r <==> e in tracked && e.pid != tracked[i].pid)
  {
    var r := SwapRemove(tracked, i);
    var last := |tracked| - 1;
    forall j | 0 <= j < |r|
      ensures r[j] == if j == i then tracked[last] else tracked[j]
    {
    }
    forall e | e in tracked && e.pid != tracked[i].pid
      ensures e in r
    {
      var j :| 0 <= j < |tracked| && tracked[j] == e;
      assert if j == last then r[i] == e else r[j] == e;
    }
    forall e | e in r
      ensures e in tracked && e.pid != tracked[i].pid
    {
      var j :| 0 <= j < |r| && r[j] == e;
      assert e == if j == i then tracked[last] else tracked[j];
    }
  }

  /** Dropping an entry undoes its process if that still lives, and touches nobody else. */
  lemma DropEntryKeepsInv(s: State, i: nat, cpus: nat)
    requires Inv(s) && i < |s.tracked|
    ensures var t := DropEntry(s, i, cpus);
            && Inv(t) && t.procs.Keys == s.procs.Keys
            && (forall pid :: pid in s.procs ==>
                  t.procs[pid] == if pid == s.tracked[i].pid then Undone(s.procs[pid], true) else s.procs[pid])
  {
    var e := s.tracked[i];
    var t := DropEntry(s, i, cpus);
    assert EntryOk(e, s.procs, s.newest);
    SwapRemoveIs(s.tracked, i);
    if SameProcess(s.procs, e) {
      RestoreUndoes(s, e, cpus, true);
    } else if e.pid in s.procs {
      assert ProcOk(e.pid, s.procs[e.pid], s.tracked, s.newest);
      assert s.procs[e.pid].baseline == None;
    }
    forall pid | pid in t.procs
      ensures ProcOk(pid, t.procs[pid], t.tracked, t.newest)
    {
      assert ProcOk(pid, s.procs[pid], s.tracked, s.newest);
      if pid != e.pid && s.procs[pid].baseline.Some? {
        var j :| 0 <= j < |s.tracked| && s.tracked[j].pid == pid && s.tracked[j].start == s.procs[pid].start
            && s.tracked[j].saved == s.procs[pid].baseline.value;
        assert s.tracked[j] in t.tracked;
      }
    }
    forall j | 0 <= j < |t.tracked|
      ensures EntryOk(t.tracked[j], t.procs, t.newest)
    {
      assert t.tracked[j] in s.tracked;
      var k :| 0 <= k < |s.tracked| && s.tracked[k] == t.tracked[j];
      assert EntryOk(s.tracked[k], s.procs, s.newest);
    }
  }

  /** Whether the process's own PID is held by an entry. */
  ghost predicate HeldPid(tracked: seq<Entry>, pid: int, now: nat, stillGreedy: int -> bool) {
    exists e :: e in tracked && e.pid == pid && Holds(e, now, stillGreedy)
  }

  /**
   The swap-with-last loop keeps exactly the entries that hold, undoes exactly the capped processes
   whose entry does not, lifts their quota and leaves every other process alone.
   */
  lemma {:induction false} DeescalateReleasesExactlyTheCalm(s: State, i: nat, now: nat, stillGreedy: int -> bool,
      cpus: nat)
    requires Inv(s) && forall j :: 0 <= j < i && j < |s.tracked| ==> Holds(s.tracked[j], now, stillGreedy)
    ensures var r := Deescalate(s, i, now, stillGreedy, cpus);
            && Inv(r) && r.procs.Keys == s.procs.Keys
            && (forall e :: e in r.tracked <==> e in s.tracked && Holds(e, now, stillGreedy))
            && (forall pid :: pid in s.procs ==>
                  r.procs[pid] == if HeldPid(s.tracked, pid, now, stillGreedy) then s.procs[pid]
                                  else Undone(s.procs[pid], true))
    decreases |s.tracked| - i
  {
    if i >= |s.tracked| {
      NothingToUndo(s, now, stillGreedy);
    } else if Holds(s.tracked[i], now, stillGreedy) {
      DeescalateReleasesExactlyTheCalm(s, i + 1, now, stillGreedy, cpus);
    } else {
      var t := DropEntry(s, i, cpus);
      DropEntryKeepsInv(s, i, cpus);
      SwapRemoveIs(s.tracked, i);
      forall j | 0 <= j < i && j < |t.tracked|
        ensures Holds(t.tracked[j], now, stillGreedy)
      {
        assert t.tracked[j] == t.tracked[..i][j] == s.tracked[j];
      }
      DeescalateReleasesExactlyTheCalm(t, i, now, stillGreedy, cpus);
      forall e
        ensures e in t.tracked && Holds(e, now, stillGreedy) <==> e in s.tracked && Holds(e, now, stillGreedy)
      {
        RemovingTheCalm(s.tracked, i, e, now, stillGreedy);
      }
      forall pid | pid in s.procs
        ensures Deescalate(s, i, now, stillGreedy, cpus).procs[pid]
                == if HeldPid(s.tracked, pid, now, stillGreedy) then s.procs[pid] else Undone(s.procs[pid], true)
      {
        assert HeldPid(t.tracked, pid, now, stillGreedy) <==> HeldPid(s.tracked, pid, now, stillGreedy);
      }
    }
  }

  lemma RemovingTheCalm(tracked: seq<Entry>, i: nat, e: Entry, now: nat, stillGreedy: int -> bool)
    requires DistinctPids(tracked) && i < |tracked| && !Holds(tracked[i], now, stillGreedy)
    ensures Holds(e, now, stillGreedy) ==> (e in SwapRemove(tracked, i) <==> e in tracked)
    ensures Holds(e, now, stillGreedy) && e in tracked ==> e.pid != tracked[i].pid
  {
    SwapRemoveIs(tracked, i);
  }

  lemma NothingToUndo(s: State, now: nat, stillGreedy: int -> bool)
    requires Inv(s) && forall j :: 0 <= j < |s.tracked| ==> Holds(s.tracked[j], now, stillGreedy)
    ensures forall pid :: pid in s.procs && !HeldPid(s.tracked, pid, now, stillGreedy) ==> s.procs[pid].baseline == None
  {
  }

  // ------------------------------------------------------------------ safety over every run

  lemma EnvironmentKeepsInv(s: State, e: Event, cpus: nat)
    requires Inv(s) && Possible(s, e) && !e.Cycle?
    ensures Inv(Step(s, e, cpus))
  {
  }

  lemma EvaluateKeepsInv(s: State, e: Event, cpus: nat)
    requires Inv(s) && e.Cycle? && cpus > 0
    ensures Inv(Evaluate(s, e, cpus))
  {
    RollbackKeepsInv(s, cpus);
    var a := ProfileChange(s, e.profile, cpus);
    assert Inv(a);
    CapAllKeepsInv(a, e.greedy, e.profile, cpus, e.now, e.kernel);
    var b := CapAll(a, e.greedy, e.profile, cpus, e.now, e.kernel);
    DeescalateReleasesExactlyTheCalm(b, 0, e.now, e.stillGreedy, cpus);
  }

  /**
   Over every run of cycles, exits, outside tuning and PID reuse, with any system calls failing: at most 128
   entries, distinct PIDs, and every living capped process recorded as it was before its cap.
   */
  lemma {:induction false} RunKeepsInv(run: seq<State>, events: seq<Event>, cpus: nat)
    requires IsRun(run, events, cpus)
    ensures forall i :: 0 <= i < |run| ==> Inv(run[i])
    decreases |events|
  {
    if events == [] {
      assert Inv(run[0]);
    } else {
      var n := |events| - 1;
      RunKeepsInv(run[..n + 1], events[..n], cpus);
      assert Inv(run[..n + 1][n]);
      if events[n].Cycle? {
        EvaluateKeepsInv(run[n], events[n], cpus);
      } else {
        EnvironmentKeepsInv(run[n], events[n], cpus);
      }
      forall i | 0 <= i < |run|
        ensures Inv(run[i])
      {
        assert i <= n ==> Inv(run[..n + 1][i]);
      }
    }
  }

  lemma {:induction false} CapAllExtends(s: State, greedy: seq<int>, mode: Latch.Profile, cpus: nat, now: nat,
      k: Kernel)
    ensures var t := CapAll(s, greedy, mode, cpus, now, k);
            |s.tracked| <= |t.tracked| && t.tracked[..|s.tracked|] == s.tracked
    decreases |greedy|
  {
    if greedy != [] {
      CapAllExtends(s, greedy[..|greedy| - 1], mode, cpus, now, k);
    }
  }

  /** Within fifteen seconds of its cap no entry leaves the ledger unless the profile changes. */
  lemma EntryHeldFifteenSeconds(s: State, e: Event, entry: Entry, cpus: nat)
    requires Inv(s) && e.Cycle? && cpus > 0 && entry in s.tracked
    requires s.lastProfile == Some(e.profile) && entry.since <= e.now < entry.since + HOLD_SECONDS
    ensures entry in Evaluate(s, e, cpus).tracked
  {
    var a := ProfileChange(s, e.profile, cpus);
    CapAllKeepsInv(a, e.greedy, e.profile, cpus, e.now, e.kernel);
    CapAllExtends(a, e.greedy, e.profile, cpus, e.now, e.kernel);
    var b := CapAll(a, e.greedy, e.profile, cpus, e.now, e.kernel);
    assert entry in b.tracked[..|s.tracked|];
    DeescalateReleasesExactlyTheCalm(b, 0, e.now, e.stillGreedy, cpus);
  }

  /**
   Recording is decided by the mask and the scheduler call alone. An attempt that leaves no entry
   leaves no trace exactly when the nice call did not change the value and no new quota was set.
   */
  lemma UnrecordedCapLeavesNoTraceExactlyWhen(s: State, pid: int, mode: Latch.Profile, cpus: nat, now: nat, k: Kernel)
    requires Inv(s) && MayCap(s, pid, mode) && !Applied(pid, k)
    ensures Cap(s, pid, mode, cpus, now, k).tracked == s.tracked
    ensures Cap(s, pid, mode, cpus, now, k).procs == s.procs <==>
            (!k.niceOk(pid) || s.procs[pid].nice == CapNice(mode))
            && !(mode == Latch.UltraEndurance && k.quotaOk(pid) && !s.procs[pid].quota)
  {
  }

  /** Only the nice call succeeds: the process is reniced and no record of it exists. */
  lemma UnrecordedRenice(now: nat)
    ensures var p := Proc(1, 0, 0, {0}, false, None, 0, None, false);
            var s := State(map[2 := p], [], None, 1);
            var k := Kernel(pid => false, pid => false, pid => true, pid => false);
            var t := Cap(s, 2, Latch.Balanced, 1, now, k);
            Inv(s) && t.tracked == [] && t.procs[2].nice == 10
  {
  }

  /**
   The trace then becomes the record. An attempt that recorded nothing, followed by a cap that is
   recorded, has every restore write back the original nice value exactly when the first attempt
   had not changed it; otherwise the daemon's own value passes for the original from then on.
   */
  lemma RestoresOriginalNiceExactlyWhen(s: State, pid: int, mode: Latch.Profile, later: Latch.Profile,
      cpus: nat, now: nat, after: nat, k: Kernel, k': Kernel)
    requires Inv(s) && cpus > 0 && MayCap(s, pid, mode) && !Applied(pid, k)
    requires later != Latch.Performance && Applied(pid, k')
    ensures var t := Cap(Cap(s, pid, mode, cpus, now, k), pid, later, cpus, after, k');
            && IsTracked(t.tracked, pid) && pid in t.procs && pid in Rollback(t, cpus).procs
            && (Rollback(t, cpus).procs[pid].nice == s.procs[pid].nice
                <==> !k.niceOk(pid) || s.procs[pid].nice == CapNice(mode))
            && (Undone(t.procs[pid], true).nice == s.procs[pid].nice
                <==> !k.niceOk(pid) || s.procs[pid].nice == CapNice(mode))
  {
    var first := Cap(s, pid, mode, cpus, now, k);
    var t := Cap(first, pid, later, cpus, after, k');
    CapKeepsInv(s, pid, mode, cpus, now, k);
    CapKeepsInv(first, pid, later, cpus, after, k');
    assert t.tracked[|s.tracked|].pid == pid;
    RollbackUndoesExactlyTheCapped(t, cpus);
  }

  /** A cap under UltraEndurance sets a quota that the rollback of the next profile change leaves. */
  lemma QuotaOutlivesRollback(s: State, pid: int, cpus: nat, now: nat, k: Kernel)
    requires Inv(s) && cpus > 0 && MayCap(s, pid, Latch.UltraEndurance) && Applied(pid, k) && k.quotaOk(pid)
    ensures var t := Rollback(Cap(s, pid, Latch.UltraEndurance, cpus, now, k), cpus);
            t.tracked == [] && pid in t.procs && t.procs[pid].baseline == None && t.procs[pid].quota
  {
    CapKeepsInv(s, pid, Latch.UltraEndurance, cpus, now, k);
    RollbackUndoesExactlyTheCapped(Cap(s, pid, Latch.UltraEndurance, cpus, now, k), cpus);
  }

  /** A rollback restores a capped process wholly exactly when no quota was set on it. */
  lemma RollbackIsCompleteExactlyWithoutQuota(s: State, cpus: nat, pid: int)
    requires Inv(s) && pid in s.procs && s.procs[pid].baseline.Some?
    ensures pid in Rollback(s, cpus).procs
    ensures Rollback(s, cpus).procs[pid] == Undone(s.procs[pid], true) <==> !s.procs[pid].quota
  {
    RollbackUndoesExactlyTheCapped(s, cpus);
  }

  // ------------------------------------------------------------------ whose nice value a restore writes

  /** The nice value a process has while uncapped, or gets back from any restore. */
  function AtRest(p: Proc): int {
    if p.baseline.Some? then p.baseline.value.nice else p.nice
  }

  /** It is the last unrecorded renice since the process was set from outside, or else that setting. */
  predicate Explained(p: Proc) {
    !p.overruled ==> AtRest(p) == if p.reniced.Some? then p.reniced.value else p.own
  }

  ghost predicate AllExplained(procs: map<int, Proc>) {
    forall pid :: pid in procs ==> Explained(procs[pid])
  }

  lemma CapExplains(s: State, pid: int, mode: Latch.Profile, cpus: nat, now: nat, k: Kernel)
    requires Inv(s) && AllExplained(s.procs)
    ensures AllExplained(Cap(s, pid, mode, cpus, now, k).procs)
  {
    if MayCap(s, pid, mode) {
      assert ProcOk(pid, s.procs[pid], s.tracked, s.newest);
      assert Explained(s.procs[pid]);
    }
  }

  lemma {:induction false} CapAllExplains(s: State, greedy: seq<int>, mode: Latch.Profile,
      cpus: nat, now: nat, k: Kernel)
    requires Inv(s) && cpus > 0 && AllExplained(s.procs)
    ensures AllExplained(CapAll(s, greedy, mode, cpus, now, k).procs)
    decreases |greedy|
  {
    if greedy != [] {
      var before := CapAll(s, greedy[..|greedy| - 1], mode, cpus, now, k);
      CapAllExplains(s, greedy[..|greedy| - 1], mode, cpus, now, k);
      CapAllKeepsInv(s, greedy[..|greedy| - 1], mode, cpus, now, k);
      CapExplains(before, greedy[|greedy| - 1], mode, cpus, now, k);
    }
  }

  lemma UndoneExplained(p: Proc, liftQuota: bool)
    requires Explained(p)
    ensures Explained(Undone(p, liftQuota)) && Undone(p, liftQuota).nice == AtRest(p)
  {
  }

  lemma EvaluateExplains(s: State, e: Event, cpus: nat)
    requires Inv(s) && e.Cycle? && cpus > 0 && AllExplained(s.procs)
    ensures AllExplained(Evaluate(s, e, cpus).procs)
  {
    RollbackUndoesExactlyTheCapped(s, cpus);
    RollbackKeepsInv(s, cpus);
    var a := ProfileChange(s, e.profile, cpus);
    forall pid | pid in a.procs
      ensures Explained(a.procs[pid])
    {
      UndoneExplained(s.procs[pid], false);
    }
    var b := CapAll(a, e.greedy, e.profile, cpus, e.now, e.kernel);
    CapAllExplains(a, e.greedy, e.profile, cpus, e.now, e.kernel);
    CapAllKeepsInv(a, e.greedy, e.profile, cpus, e.now, e.kernel);
    DeescalateReleasesExactlyTheCalm(b, 0, e.now, e.stillGreedy, cpus);
    forall pid | pid in b.procs
      ensures Explained(Evaluate(s, e, cpus).procs[pid])
    {
      UndoneExplained(b.procs[pid], true);
    }
  }

  lemma EnvironmentExplains(s: State, e: Event, cpus: nat)
    requires Possible(s, e) && !e.Cycle? && AllExplained(s.procs)
    ensures AllExplained(Step(s, e, cpus).procs)
  {
  }

  lemma {:induction false} RunExplains(run: seq<State>, events: seq<Event>, cpus: nat)
    requires IsRun(run, events, cpus)
    ensures forall i :: 0 <= i < |run| ==> AllExplained(run[i].procs)
    decreases |events|
  {
    if events == [] {
      assert AllExplained(run[0].procs);
    } else {
      var n := |events| - 1;
      RunExplains(run[..n + 1], events[..n], cpus);
      RunKeepsInv(run, events, cpus);
      assert AllExplained(run[..n + 1][n].procs);
      if events[n].Cycle? {
        EvaluateExplains(run[n], events[n], cpus);
      } else {
        EnvironmentExplains(run[n], events[n], cpus);
      }
      forall i | 0 <= i < |run|
        ensures AllExplained(run[i].procs)
      {
        assert i <= n ==> AllExplained(run[..n + 1][i].procs);
      }
    }
  }

  /**
   At every point of every run, for a process whose nice value was last set from outside while it
   was not capped: the value saved for it, and written by every restore, is that one exactly when no
   unrecorded renice has happened since, or the last of them set the same value.
   */
  lemma SavedNiceIsOwnExactlyWhen(run: seq<State>, events: seq<Event>, cpus: nat, i: nat, pid: int)
    requires IsRun(run, events, cpus) && i < |run| && pid in run[i].procs && !run[i].procs[pid].overruled
    ensures pid in Rollback(run[i], cpus).procs
    ensures var p := run[i].procs[pid];
            var intact := p.reniced.None? || p.reniced.value == p.own;
            && (Rollback(run[i], cpus).procs[pid].nice == p.own <==> intact)
            && (forall e :: e in run[i].tracked && e.pid == pid && e.start == p.start ==>
                (e.saved.nice == p.own <==> intact))
  {
    var s := run[i];
    RunKeepsInv(run, events, cpus);
    RunExplains(run, events, cpus);
    RollbackUndoesExactlyTheCapped(s, cpus);
    UndoneExplained(s.procs[pid], false);
    forall e | e in s.tracked && e.pid == pid && e.start == s.procs[pid].start
      ensures e.saved.nice == AtRest(s.procs[pid])
    {
      var j :| 0 <= j < |s.tracked| && s.tracked[j] == e;
      assert EntryOk(s.tracked[j], s.procs, s.newest);
    }
  }

  /** A setting made from outside while the process is capped survives a rollback only if it is the recorded one. */
  lemma TuningWhileCappedSurvivesExactlyWhen(s: State, pid: int, policy: int, nice: int, affinity: set<nat>, cpus: nat)
    requires Inv(s) && pid in s.procs && s.procs[pid].baseline.Some? && affinity != {}
    ensures pid in Rollback(Step(s, Tune(pid, policy, nice, affinity), cpus), cpus).procs
    ensures var t := Step(s, Tune(pid, policy, nice, affinity), cpus);
            var p := Rollback(t, cpus).procs[pid];
            && t.procs[pid].nice == nice
            && (p.policy == policy && p.nice == nice && p.affinity == affinity
                <==> s.procs[pid].baseline.value == Saved(policy, nice, affinity))
  {
    var e := Tune(pid, policy, nice, affinity);
    EnvironmentKeepsInv(s, e, cpus);
    RollbackUndoesExactlyTheCapped(Step(s, e, cpus), cpus);
  }

  // ------------------------------------------------------------------ the feature manager

  /** The ledger's owner; procs is the kernel's process table as its system calls see it. */
  class FeatureManager {
    var procs: map<int, Proc>
    var tracked: seq<Entry>
    var lastProfile: Option<Latch.Profile>
    ghost var newest: nat
    const cpus: nat

    ghost function Now(): State
      reads this
    {
      State(procs, tracked, lastProfile, newest)
    }

    constructor (procs: map<int, Proc>, ghost newest: nat, cpus: nat)
      requires forall pid :: pid in procs ==> Untouched(procs[pid], newest)
      ensures Inv(Now()) && Now() == State(procs, [], None, newest) && this.cpus == cpus
    {
      this.procs := procs;
      this.newest := newest;
      this.cpus := cpus;
      tracked := [];
      lastProfile := None;
    }

    method RollbackAllTracked()
      modifies this
      ensures Now() == Rollback(old(Now()), cpus)
    {
      for i := 0 to |tracked|
        invariant tracked == old(tracked) && lastProfile == old(lastProfile) && newest == old(newest)
        invariant procs == RestoreAll(old(procs), tracked[..i], cpus)
      {
        assert tracked[..i + 1][..i] == tracked[..i];
        procs := Restore(procs, tracked[i], cpus, false);
      }
      assert tracked[..|tracked|] == tracked;
      tracked := [];
    }

    method CapProcess(pid: int, mode: Latch.Profile, now: nat, k: Kernel)
      modifies this
      ensures Now() == Cap(old(Now()), pid, mode, cpus, now, k)
    {
      var alreadyTracked := false;
      for i := 0 to |tracked|
        invariant alreadyTracked <==> exists j :: 0 <= j < i && tracked[j].pid == pid
      {
        if tracked[i].pid == pid {
          alreadyTracked := true;
          break;
        }
      }
      if !alreadyTracked && |tracked| >= MAX_TRACKED {
        alreadyTracked := true;
      }
      if alreadyTracked || mode == Latch.Performance || pid <= 1 || pid !in procs {
        return;
      }
      var p := procs[pid];
      procs := procs[pid := Capped(p, pid, mode, cpus, k)];
      if Applied(pid, k) {
        tracked := tracked + [Entry(pid, p.start, now, Saved(p.policy, p.nice, p.affinity))];
      }
    }

    method DeescalateCalm(now: nat, stillGreedy: int -> bool)
      modifies this
      ensures Now() == Deescalate(old(Now()), 0, now, stillGreedy, cpus)
    {
      var i: nat := 0;
      while i < |tracked|
        invariant Deescalate(Now(), i, now, stillGreedy, cpus) == Deescalate(old(Now()), 0, now, stillGreedy, cpus)
        decreases |tracked| - i
      {
        if Holds(tracked[i], now, stillGreedy) {
          i := i + 1;
        } else {
          procs := Restore(procs, tracked[i], cpus, true);
          tracked := SwapRemove(tracked, i);
        }
      }
    }

    method EvaluateAndActuate(profile: Latch.Profile, greedy: seq<int>, stillGreedy: int -> bool, now: nat, k: Kernel)
      requires Inv(Now()) && cpus > 0
      modifies this
      ensures Now() == Evaluate(old(Now()), Cycle(profile, greedy, stillGreedy, now, k), cpus)
      ensures Inv(Now())
    {
      EvaluateKeepsInv(Now(), Cycle(profile, greedy, stillGreedy, now, k), cpus);
      if lastProfile.Some? && lastProfile.value != profile {
        RollbackAllTracked();
      }
      lastProfile := Some(profile);
      ghost var start := Now();
      for i := 0 to |greedy|
        invariant Now() == CapAll(start, greedy[..i], profile, cpus, now, k)
      {
        assert greedy[..i + 1][..i] == greedy[..i];
        CapProcess(greedy[i], profile, now, k);
      }
      assert greedy[..|greedy|] == greedy;
      DeescalateCalm(now, stillGreedy);
    }
  }
}
