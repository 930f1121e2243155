/** The tray's shared state: which words each update writes, and what an atomic read copies. */
module TrayState {
  import opened Options
  import opened Seqlock

  datatype CulpritPart = Comm(at: nat) | Pid | Drain | Tier | Domain | Rss | Pss | MajFlt

  datatype Field =
    | SystemDrain | BatteryPercent | BatteryState | TimeToEmpty | ActiveMitigations
    | CpuDrain | GpuDrain | Wakeups | CpuTemp | CpuFreq | FanRpm | CStateC3 | BatteryHealth | ProfileMode
    | Culprit(slot: nat, part: CulpritPart)

  /** A full report with up to two culprits, or a bare profile switch. */
  datatype Op = Report(values: Field -> int, culprits: nat) | Mode(mode: int)

  const HEAD_FIELDS: seq<Field> := [
    SystemDrain, BatteryPercent, BatteryState, TimeToEmpty, ActiveMitigations,
    CpuDrain, GpuDrain, Wakeups, CpuTemp, CpuFreq, FanRpm, CStateC3, BatteryHealth, ProfileMode]

  function CulpritFields(slot: nat): seq<Field> {
    seq(16, j requires 0 <= j < 16 => Culprit(slot, Comm(j)))
    + [Culprit(slot, Pid), Culprit(slot, Drain), Culprit(slot, Tier), Culprit(slot, Domain),
       Culprit(slot, Rss), Culprit(slot, Pss), Culprit(slot, MajFlt)]
  }

  /** The words a report overwrites, in order; slots beyond the listed processes keep their content. */
  function ReportFields(culprits: nat): seq<Field> {
    HEAD_FIELDS + (if culprits >= 1 then CulpritFields(0) else []) + (if culprits >= 2 then CulpritFields(1) else [])
  }

  function Plan(mem: Memory<Field, int>, op: Op): seq<Write<Field, int>> {
    match op
    case Report(values, n) =>
      var fields := ReportFields(n);
      seq(|fields|, i requires 0 <= i < |fields| => Write(fields[i], values(fields[i])))
    case Mode(mode) => [Write(ProfileMode, mode)]
  }

  /** The copy loop visits the words in some fixed order. */
  function CopyInOrder(order: seq<Field>): seq<Write<Field, int>> -> Option<Field> {
    log => if |log| < |order| then Some(order[|log|]) else None
  }

  function TrayConfig(order: seq<Field>, base: nat): Config<Field, int, Op> {
    Config((mem, op) => Plan(mem, op), CopyInOrder(order), 100, base)
  }

  /** What the caller's copy holds for a word, the last one copied if it were copied twice. */
  function Out(log: seq<Write<Field, int>>, f: Field): Option<int> {
    if log == [] then None
    else if log[|log| - 1].addr == f then Some(log[|log| - 1].value)
    else Out(log[..|log| - 1], f)
  }

  lemma {:induction false} OutAgrees(log: seq<Write<Field, int>>, mem: Memory<Field, int>, f: Field)
    requires Agrees(log, mem)
    ensures Out(log, f).Some? ==> f in mem && Out(log, f).value == mem[f]
    ensures (exists j :: 0 <= j < |log| && log[j].addr == f) ==> Out(log, f).Some?
  {
    if log != [] {
      var front := log[..|log| - 1];
      assert Agrees(front, mem) by {
        forall j | 0 <= j < |front| ensures front[j].addr in mem && mem[front[j].addr] == front[j].value {
          assert front[j] == log[j];
        }
      }
      OutAgrees(front, mem, f);
      forall j | 0 <= j < |log| && log[j].addr == f ensures Out(log, f).Some? {
        if j < |front| { assert front[j].addr == f; }
      }
    }
  }

  /**
   Under every interleaving, a read that returns true hands back exactly one committed state,
   whatever order the words were copied in, and never a mix of two.
   */
  lemma ReadAtomicIsOneCommit(order: seq<Field>, base: nat, run: seq<State<Field, int, Op>>, i: nat, r: nat)
      returns (k: nat)
    requires IsRun(TrayConfig(order, base), run) && i < |run| && r < |run[i].readers| && run[i].readers[r].Succeeded?
    ensures var c := run[i].readers[r];
            && c.since <= k <= c.until && k < |run[i].committed|
            && forall f :: f in order ==> f in run[i].committed[k] && Out(c.log, f) == Some(run[i].committed[k][f])
  {
    var cfg := TrayConfig(order, base);
    k := SuccessfulReadIsOneCommit(cfg, run, i, r);
    var log := run[i].readers[r].log;
    assert |log| >= |order|;
    forall f | f in order
      ensures f in run[i].committed[k] && Out(log, f) == Some(run[i].committed[k][f])
    {
      var j :| 0 <= j < |order| && order[j] == f;
      assert cfg.next(log[..j]) == Some(log[j].addr) && |log[..j]| == j;
      OutAgrees(log, run[i].committed[k], f);
    }
  }

  /** Between two commits a profile switch changes the mode word and nothing else. */
  lemma ModeCommit(order: seq<Field>, base: nat, run: seq<State<Field, int, Op>>, i: nat, k: nat)
    requires IsRun(TrayConfig(order, base), run) && i < |run| && k < |run[i].ops| && run[i].ops[k].Mode?
    ensures k + 1 < |run[i].committed|
    ensures run[i].committed[k + 1] == run[i].committed[k][ProfileMode := run[i].ops[k].mode]
  {
    var cfg, s := TrayConfig(order, base), run[i];
    RunKeepsInv(cfg, run, i);
    var writes := Plan(s.committed[k], s.ops[k]);
    assert writes == [Write(ProfileMode, s.ops[k].mode)] && writes[..0] == [];
    assert Apply(s.committed[k], writes) == Apply(s.committed[k], [])[ProfileMode := s.ops[k].mode];
  }

  lemma {:induction false} ApplyDistinct<A, W>(mem: Memory<A, W>, writes: seq<Write<A, W>>, j: nat)
    requires j < |writes| && forall x, y :: 0 <= x < y < |writes| ==> writes[x].addr != writes[y].addr
    ensures writes[j].addr in Apply(mem, writes) && Apply(mem, writes)[writes[j].addr] == writes[j].value
  {
    var front := writes[..|writes| - 1];
    if j < |front| {
      assert front[j] == writes[j];
      ApplyDistinct(mem, front, j);
    }
  }

  lemma {:induction false} ApplyElsewhere<A, W>(mem: Memory<A, W>, writes: seq<Write<A, W>>, a: A)
    requires forall x :: 0 <= x < |writes| ==> writes[x].addr != a
    ensures a in Apply(mem, writes) <==> a in mem
    ensures a in mem ==> Apply(mem, writes)[a] == mem[a]
  {
    if writes != [] { ApplyElsewhere(mem, writes[..|writes| - 1], a); }
  }

  /** The position of a word among the words a report writes. */
  function Rank(f: Field): nat {
    match f
    case SystemDrain => 0 case BatteryPercent => 1 case BatteryState => 2 case TimeToEmpty => 3
    case ActiveMitigations => 4 case CpuDrain => 5 case GpuDrain => 6 case Wakeups => 7
    case CpuTemp => 8 case CpuFreq => 9 case FanRpm => 10 case CStateC3 => 11
    case BatteryHealth => 12 case ProfileMode => 13
    case Culprit(slot, part) => 14 + 23 * slot + PartRank(part)
  }

  function PartRank(part: CulpritPart): nat {
    match part
    case Comm(at) => at
    case Pid => 16 case Drain => 17 case Tier => 18 case Domain => 19 case Rss => 20 case Pss => 21 case MajFlt => 22
  }

  lemma HeadRanks(x: nat)
    requires x < |HEAD_FIELDS|
    ensures Rank(HEAD_FIELDS[x]) == x
  {
  }

  lemma CulpritRanks(slot: nat, x: nat)
    requires x < |CulpritFields(slot)|
    ensures Rank(CulpritFields(slot)[x]) == 14 + 23 * slot + x
  {
  }

  lemma ReportRanks(n: nat, x: nat)
    requires x < |ReportFields(n)|
    ensures Rank(ReportFields(n)[x]) == x
  {
    if x < 14 {
      HeadRanks(x);
    } else if x < 37 {
      assert ReportFields(n)[x] == CulpritFields(0)[x - 14];
      CulpritRanks(0, x - 14);
    } else {
      assert ReportFields(n)[x] == CulpritFields(1)[x - 37];
      CulpritRanks(1, x - 37);
    }
  }

  lemma ReportFieldsDistinct(n: nat)
    ensures forall x, y :: 0 <= x < y < |ReportFields(n)| ==> ReportFields(n)[x] != ReportFields(n)[y]
  {
    forall x, y | 0 <= x < y < |ReportFields(n)| ensures ReportFields(n)[x] != ReportFields(n)[y] {
      ReportRanks(n, x);
      ReportRanks(n, y);
    }
  }

  /** A committed report shows its own value in every word it names and the previous commit's elsewhere. */
  lemma ReportCommit(order: seq<Field>, base: nat, run: seq<State<Field, int, Op>>, i: nat, k: nat, f: Field)
    requires IsRun(TrayConfig(order, base), run) && i < |run| && k < |run[i].ops| && run[i].ops[k].Report?
    ensures k + 1 < |run[i].committed|
    ensures var op, before, after := run[i].ops[k], run[i].committed[k], run[i].committed[k + 1];
            && (f in ReportFields(op.culprits) ==> f in after && after[f] == op.values(f))
            && (f !in ReportFields(op.culprits) ==>
                (f in after <==> f in before) && (f in before ==> after[f] == before[f]))
  {
    var cfg, s := TrayConfig(order, base), run[i];
    RunKeepsInv(cfg, run, i);
    var op := s.ops[k];
    var fields, writes := ReportFields(op.culprits), Plan(s.committed[k], op);
    ReportFieldsDistinct(op.culprits);
    if f in fields {
      var j :| 0 <= j < |fields| && fields[j] == f;
      ApplyDistinct(s.committed[k], writes, j);
    } else {
      ApplyElsewhere(s.committed[k], writes, f);
    }
  }
}
