/**
 The lock-free profiler entry: any number of calls of record_fast run concurrently as interleaved
 atomic steps. Minimum and maximum are kept by compare-exchange loops whose exchange may also fail
 spuriously, the two counters by fetch-and-add on 64-bit words.
 */
module Profiler {
  const WORD: nat := 0x1_0000_0000_0000_0000
  const UINT64_MAX: nat := WORD - 1

  /** The next atomic step of a call; HasMin and HasMax hold the local copy the loop compares. */
  datatype Pc =
    | AtInvocations
    | AtTotal
    | AtLoadMin
    | HasMin(cur: nat)
    | AtLoadMax
    | HasMax(cur: nat)
    | Finished

  datatype Entry = Entry(invocations: nat, total: nat, min: nat, max: nat)

  datatype State = State(entry: Entry, pcs: seq<Pc>)

  const FRESH := Entry(0, 0, UINT64_MAX, 0)

  /** What one call with the given delta does next; a compare-exchange may fail spuriously. */
  ghost predicate CallStep(delta: nat, e: Entry, pc: Pc, e': Entry, pc': Pc) {
    match pc
    case AtInvocations =>
      e' == e.(invocations := (e.invocations + 1) % WORD) && pc' == AtTotal
    case AtTotal =>
      e' == e.(total := (e.total + delta) % WORD) && pc' == AtLoadMin
    case AtLoadMin =>
      e' == e && pc' == HasMin(e.min)
    case HasMin(cur) =>
      if delta < cur then
        || (e.min == cur && e' == e.(min := delta) && pc' == AtLoadMax)
        || (e' == e && pc' == HasMin(e.min))
      else
        e' == e && pc' == AtLoadMax
    case AtLoadMax =>
      e' == e && pc' == HasMax(e.max)
    case HasMax(cur) =>
      if delta > cur then
        || (e.max == cur && e' == e.(max := delta) && pc' == Finished)
        || (e' == e && pc' == HasMax(e.max))
      else
        e' == e && pc' == Finished
    case Finished => false
  }

  ghost predicate StepOf(deltas: seq<nat>, s: State, s': State, i: nat) {
    && i < |deltas| == |s.pcs| == |s'.pcs|
    && CallStep(deltas[i], s.entry, s.pcs[i], s'.entry, s'.pcs[i])
    && s'.pcs == s.pcs[i := s'.pcs[i]]
  }

  ghost predicate Next(deltas: seq<nat>, s: State, s': State) {
    exists i: nat :: StepOf(deltas, s, s', i)
  }

  ghost predicate IsRun(deltas: seq<nat>, run: seq<State>) {
    && (forall i :: 0 <= i < |deltas| ==> deltas[i] < WORD)
    && run != [] && run[0].entry == FRESH
    && |run[0].pcs| == |deltas| && (forall i :: 0 <= i < |deltas| ==> run[0].pcs[i] == AtInvocations)
    && forall k :: 0 < k < |run| ==> Next(deltas, run[k - 1], run[k])
  }

  // ------------------------------------------------------------------ invariant

  /** Calls past the first fetch-and-add, and the sum of the deltas past the second. */
  function Counted(pcs: seq<Pc>): nat {
    if pcs == [] then 0
    else (if pcs[0].AtInvocations? then 0 else 1) + Counted(pcs[1..])
  }

  function Summed(deltas: seq<nat>, pcs: seq<Pc>): nat
    requires |deltas| == |pcs|
    decreases |pcs|
  {
    if pcs == [] then 0
    else (if pcs[0].AtInvocations? || pcs[0].AtTotal? then 0 else deltas[0]) + Summed(deltas[1..], pcs[1..])
  }

  predicate MinSettled(pc: Pc) {
    pc.AtLoadMax? || pc.HasMax? || pc.Finished?
  }

  /** Wrap-around included, no increment is ever lost. */
  ghost predicate CountersOk(deltas: seq<nat>, s: State) {
    && |s.pcs| == |deltas|
    && s.entry.invocations == Counted(s.pcs) % WORD
    && s.entry.total == Summed(deltas, s.pcs) % WORD
  }

  /** What one call knows about the shared extremes. */
  predicate KnowsExtremes(delta: nat, e: Entry, pc: Pc) {
    && (MinSettled(pc) ==> e.min <= delta)
    && (pc.Finished? ==> e.max >= delta)
    && (pc.HasMin? ==> e.min <= pc.cur)
    && (pc.HasMax? ==> e.max >= pc.cur)
  }

  ghost predicate ExtremesOk(deltas: seq<nat>, s: State) {
    && |s.pcs| == |deltas|
    && (s.entry.min == UINT64_MAX || s.entry.min in deltas)
    && (s.entry.max == 0 || s.entry.max in deltas)
    && (forall i :: 0 <= i < |deltas| ==> KnowsExtremes(deltas[i], s.entry, s.pcs[i]))
  }

  ghost predicate Inv(deltas: seq<nat>, s: State) {
    CountersOk(deltas, s) && ExtremesOk(deltas, s)
  }

  lemma {:induction false} CountedUpdate(pcs: seq<Pc>, i: nat, pc: Pc)
    requires i < |pcs|
    ensures Counted(pcs[i := pc])
        == Counted(pcs) + (if pcs[i].AtInvocations? then 1 else 0) - (if pc.AtInvocations? then 1 else 0)
  {
    if i == 0 {
      assert pcs[0 := pc][1..] == pcs[1..];
    } else {
      assert pcs[i := pc][1..] == pcs[1..][i - 1 := pc];
      CountedUpdate(pcs[1..], i - 1, pc);
    }
  }

  function Share(delta: nat, pc: Pc): nat {
    if pc.AtInvocations? || pc.AtTotal? then 0 else delta
  }

  lemma {:induction false} SummedUpdate(deltas: seq<nat>, pcs: seq<Pc>, i: nat, pc: Pc)
    requires |deltas| == |pcs| && i < |pcs|
    ensures Summed(deltas, pcs[i := pc]) == Summed(deltas, pcs) + Share(deltas[i], pc) - Share(deltas[i], pcs[i])
    decreases i
  {
    if i == 0 {
      assert pcs[0 := pc][1..] == pcs[1..];
    } else {
      assert pcs[i := pc][1..] == pcs[1..][i - 1 := pc];
      SummedUpdate(deltas[1..], pcs[1..], i - 1, pc);
    }
  }

  lemma AddModulo(x: nat, d: nat)
    ensures (x % WORD + d) % WORD == (x + d) % WORD
  {
  }

  lemma StepKeepsCounters(deltas: seq<nat>, s: State, s': State, i: nat)
    requires CountersOk(deltas, s) && StepOf(deltas, s, s', i)
    ensures CountersOk(deltas, s')
  {
    CountedUpdate(s.pcs, i, s'.pcs[i]);
    SummedUpdate(deltas, s.pcs, i, s'.pcs[i]);
    AddModulo(Counted(s.pcs), 1);
    AddModulo(Summed(deltas, s.pcs), deltas[i]);
  }

  lemma StepKeepsExtremes(deltas: seq<nat>, s: State, s': State, i: nat)
    requires ExtremesOk(deltas, s) && StepOf(deltas, s, s', i)
    ensures ExtremesOk(deltas, s')
    ensures s'.entry.min <= s.entry.min && s'.entry.max >= s.entry.max
  {
  }

  lemma StepKeepsInv(deltas: seq<nat>, s: State, s': State)
    requires Inv(deltas, s) && Next(deltas, s, s')
    ensures Inv(deltas, s')
    ensures s'.entry.min <= s.entry.min && s'.entry.max >= s.entry.max
  {
    var i: nat :| StepOf(deltas, s, s', i);
    StepKeepsCounters(deltas, s, s', i);
    StepKeepsExtremes(deltas, s, s', i);
  }

  lemma {:induction false} NothingCounted(deltas: seq<nat>, pcs: seq<Pc>)
    requires |deltas| == |pcs| && forall i :: 0 <= i < |pcs| ==> pcs[i] == AtInvocations
    ensures Counted(pcs) == 0 && Summed(deltas, pcs) == 0
    decreases |pcs|
  {
    if pcs != [] {
      NothingCounted(deltas[1..], pcs[1..]);
    }
  }

  lemma {:induction false} RunKeepsInv(deltas: seq<nat>, run: seq<State>)
    requires IsRun(deltas, run)
    ensures forall k :: 0 <= k < |run| ==> Inv(deltas, run[k])
    decreases |run|
  {
    if |run| == 1 {
      NothingCounted(deltas, run[0].pcs);
    } else {
      var n := |run| - 1;
      RunKeepsInv(deltas, run[..n]);
      assert Inv(deltas, run[..n][n - 1]);
      StepKeepsInv(deltas, run[n - 1], run[n]);
      forall k | 0 <= k < |run|
        ensures Inv(deltas, run[k])
      {
        assert k < n ==> Inv(deltas, run[..n][k]);
      }
    }
  }

  // ------------------------------------------------------------------ what a run promises

  /** Under every interleaving the minimum never rises and the maximum never falls. */
  lemma {:induction false} ExtremesAreMonotone(deltas: seq<nat>, run: seq<State>, i: nat, j: nat)
    requires IsRun(deltas, run) && i <= j < |run|
    ensures run[j].entry.min <= run[i].entry.min
    ensures run[j].entry.max >= run[i].entry.max
    decreases j
  {
    if i < j {
      ExtremesAreMonotone(deltas, run, i, j - 1);
      RunKeepsInv(deltas, run);
      StepKeepsInv(deltas, run[j - 1], run[j]);
    }
  }

  predicate AllFinished(pcs: seq<Pc>) {
    forall i :: 0 <= i < |pcs| ==> pcs[i].Finished?
  }

  function Sum(deltas: seq<nat>): nat {
    if deltas == [] then 0 else deltas[0] + Sum(deltas[1..])
  }

  lemma {:induction false} AllCounted(deltas: seq<nat>, pcs: seq<Pc>)
    requires |deltas| == |pcs| && AllFinished(pcs)
    ensures Counted(pcs) == |deltas| && Summed(deltas, pcs) == Sum(deltas)
    decreases |pcs|
  {
    if pcs != [] {
      AllCounted(deltas[1..], pcs[1..]);
    }
  }

  lemma FinishedStateIsExact(deltas: seq<nat>, s: State)
    requires Inv(deltas, s) && AllFinished(s.pcs) && forall i :: 0 <= i < |deltas| ==> deltas[i] < WORD
    ensures s.entry.invocations == |deltas| % WORD && s.entry.total == Sum(deltas) % WORD
    ensures deltas == [] ==> s.entry.min == UINT64_MAX && s.entry.max == 0
    ensures deltas != [] ==> s.entry.min in deltas && s.entry.max in deltas
    ensures forall d :: d in deltas ==> s.entry.min <= d <= s.entry.max
  {
    AllCounted(deltas, s.pcs);
    forall d | d in deltas
      ensures s.entry.min <= d <= s.entry.max
    {
      var i :| 0 <= i < |deltas| && deltas[i] == d;
      assert KnowsExtremes(deltas[i], s.entry, s.pcs[i]);
    }
    if deltas != [] {
      assert deltas[0] in deltas && deltas[0] < WORD;
    }
  }

  /** Once every call is done, no update was lost: the entry holds the exact count, sum and extremes. */
  lemma FinishedEntryIsExact(deltas: seq<nat>, run: seq<State>)
    requires IsRun(deltas, run)
    requires AllFinished(run[|run| - 1].pcs)
    ensures var e := run[|run| - 1].entry;
            && e.invocations == |deltas| % WORD
            && e.total == Sum(deltas) % WORD
            && (deltas == [] ==> e.min == UINT64_MAX && e.max == 0)
            && (deltas != [] ==> e.min in deltas && e.max in deltas)
            && (forall d :: d in deltas ==> e.min <= d <= e.max)
  {
    RunKeepsInv(deltas, run);
    FinishedStateIsExact(deltas, run[|run| - 1]);
  }
}
