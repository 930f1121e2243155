/**
 Splitting measured power among the processes of an interval: a quarter of the package evenly, the
 rest by CPU ticks; GPU power by engine time under a duty-cycle cap; fan power by thermal share.
 Watts are exact reals.
 */
module PowerShares {
  import opened ProcessMerge

  datatype Hardware = Hardware(packageWatts: real, gpuWatts: real, fanWatts: real, gpuBusyPercent: int)

  datatype Power = Power(pid: int, cpu: real, gpu: real, fan: real)

  function MinReal(a: real, b: real): real {
    if a <= b then a else b
  }

  /** The sampling interval in seconds, never below a millisecond. */
  function DeltaSeconds(durationNs: int): (r: real)
    ensures r >= 0.001
  {
    var sec := durationNs as real / 1000000000.0;
    if sec <= 0.001 then 0.001 else sec
  }

  function IntervalNs(seconds: real): (r: int)
    requires seconds >= 0.0
    ensures r > 0
  {
    var ns := (seconds * 1000000000.0).Floor;
    if ns == 0 then 1000000000 else ns
  }

  function StaticEach(hw: Hardware, count: nat): real {
    if count == 0 then 0.0 else hw.packageWatts * 0.25 / count as real
  }

  function CpuWatts(hw: Hardware, count: nat, totalTicks: nat, ticks: nat): real {
    if totalTicks > 0 && ticks > 0 then
      StaticEach(hw, count) + hw.packageWatts * 0.75 * (ticks as real / totalTicks as real)
    else StaticEach(hw, count)
  }

  /** Capped into [0, 1]. */
  function Clamp01(x: real): real {
    if x < 0.0 then 0.0 else if x > 1.0 then 1.0 else x
  }

  /** The reported busy fraction, or the active time fraction when none is reported. */
  function ActiveRatio(hw: Hardware, intervalNs: int, totalNs: nat): real
    requires intervalNs > 0
  {
    if hw.gpuBusyPercent > 0 then Clamp01(hw.gpuBusyPercent as real / 100.0)
    else MinReal(1.0, totalNs as real / intervalNs as real)
  }

  function DynamicGpu(hw: Hardware, intervalNs: int, totalNs: nat): real
    requires intervalNs > 0
  {
    hw.gpuWatts * ActiveRatio(hw, intervalNs, totalNs)
  }

  function Duty(intervalNs: int, ns: nat): real
    requires intervalNs > 0
  {
    MinReal(1.0, ns as real / intervalNs as real)
  }

  function Proportional(watts: real, ns: nat, totalNs: nat): real
    requires totalNs > 0
  {
    watts * (ns as real / totalNs as real)
  }

  function GpuWatts(hw: Hardware, intervalNs: int, totalNs: nat, ns: nat): real
    requires intervalNs > 0
  {
    if totalNs > 0 && ns > 0 then
      MinReal(Proportional(DynamicGpu(hw, intervalNs, totalNs), ns, totalNs), hw.gpuWatts * Duty(intervalNs, ns))
    else 0.0
  }

  // ------------------------------------------------------------------ pass 1 and pass 2

  /** What the first pass charges a process, before fans. */
  function Charge(hw: Hardware, intervalNs: int, count: nat, totalTicks: nat, totalNs: nat): Delta -> Power
    requires intervalNs > 0
  {
    (d: Delta) =>
      Power(d.pid, CpuWatts(hw, count, totalTicks, d.CpuTicks()), GpuWatts(hw, intervalNs, totalNs, d.gpuNs), 0.0)
  }

  function FirstPass(charge: Delta -> Power, ds: seq<Delta>, n: nat): (ps: seq<Power>)
    requires n <= |ds|
    ensures |ps| == n && forall i :: 0 <= i < n ==> ps[i] == charge(ds[i])
  {
    if n == 0 then [] else FirstPass(charge, ds, n - 1) + [charge(ds[n - 1])]
  }

  function Thermal(ps: seq<Power>): real {
    if ps == [] then 0.0 else Thermal(ps[..|ps| - 1]) + (ps[|ps| - 1].cpu + ps[|ps| - 1].gpu)
  }

  function FanShare(hw: Hardware, thermal: real, p: Power): real {
    if hw.fanWatts > 0.0 && thermal > 0.0 then hw.fanWatts * ((p.cpu + p.gpu) / thermal) else p.fan
  }

  function FanOf(hw: Hardware, thermal: real): Power -> real {
    (p: Power) => FanShare(hw, thermal, p)
  }

  function SecondPass(fan: Power -> real, ps: seq<Power>): (qs: seq<Power>)
    ensures |qs| == |ps| && forall i :: 0 <= i < |ps| ==> qs[i] == ps[i].(fan := fan(ps[i]))
  {
    if ps == [] then []
    else
      var p := ps[|ps| - 1];
      SecondPass(fan, ps[..|ps| - 1]) + [p.(fan := fan(p))]
  }

  function ChargeFor(hw: Hardware, durationNs: int, all: seq<Delta>): Delta -> Power {
    Charge(hw, IntervalNs(DeltaSeconds(durationNs)), |Kept(all)|, TotalTicks(all) % WORD64, TotalGpu(all) % WORD64)
  }

  function Attribution(hw: Hardware, durationNs: int, p1: Snapshot, p2: Snapshot): seq<Power> {
    var all := Join(p1, p2);
    var first := FirstPass(ChargeFor(hw, durationNs, all), Kept(all), |Kept(all)|);
    SecondPass(FanOf(hw, Thermal(first)), first)
  }

  method ComputeAttribution(hw: Hardware, durationNs: int, p1: Snapshot, p2: Snapshot) returns (attributed: seq<Power>)
    ensures attributed == Attribution(hw, durationNs, p1, p2)
  {
    var deltas, totals := TwoPointerDelta(p1, p2);
    var charge := Charge(hw, IntervalNs(DeltaSeconds(durationNs)), |deltas|, totals.ticks, totals.gpuNs);
    var thermal := 0.0;
    attributed := [];
    for i := 0 to |deltas|
      invariant attributed == FirstPass(charge, deltas, i)
      invariant thermal == Thermal(attributed)
    {
      var p := charge(deltas[i]);
      assert (attributed + [p])[..i] == attributed;
      thermal := thermal + (p.cpu + p.gpu);
      attributed := attributed + [p];
    }
    attributed := AddFanShares(hw, thermal, attributed);
  }

  /** The second pass overwrites the fan share of each entry in turn. */
  method AddFanShares(hw: Hardware, thermal: real, first: seq<Power>) returns (attributed: seq<Power>)
    ensures attributed == SecondPass(FanOf(hw, thermal), first)
  {
    attributed := first;
    for i := 0 to |attributed|
      invariant |attributed| == |first|
      invariant attributed[..i] == SecondPass(FanOf(hw, thermal), first[..i])
      invariant attributed[i..] == first[i..]
    {
      assert first[..i + 1][..i] == first[..i];
      assert attributed[i] == attributed[i..][0] == first[i];
      attributed := attributed[i := attributed[i].(fan := FanShare(hw, thermal, attributed[i]))];
      assert attributed[..i + 1] == attributed[..i] + [attributed[i]];
    }
    assert attributed[..|attributed|] == attributed && first[..|first|] == first;
  }

  // ------------------------------------------------------------------ sums

  function SumCpu(ps: seq<Power>): real {
    if ps == [] then 0.0 else SumCpu(ps[..|ps| - 1]) + ps[|ps| - 1].cpu
  }

  function SumGpu(ps: seq<Power>): real {
    if ps == [] then 0.0 else SumGpu(ps[..|ps| - 1]) + ps[|ps| - 1].gpu
  }

  function SumFan(ps: seq<Power>): real {
    if ps == [] then 0.0 else SumFan(ps[..|ps| - 1]) + ps[|ps| - 1].fan
  }

  /** The 32-bit tick deltas of the processes that were kept. */
  function KeptTicks(ds: seq<Delta>): nat {
    if ds == [] then 0 else KeptTicks(ds[..|ds| - 1]) + ds[|ds| - 1].CpuTicks()
  }

  /** No tick delta is cut to 32 bits and no dropped process had run. */
  ghost predicate Lossless(all: seq<Delta>) {
    forall i :: 0 <= i < |all| ==> all[i].ticks < if i < CAPACITY then WORD32 else 1
  }

  lemma {:induction false} TicksAccountedFor(all: seq<Delta>)
    ensures KeptTicks(Kept(all)) <= TotalTicks(all)
    ensures KeptTicks(Kept(all)) == TotalTicks(all) <==> Lossless(all)
    decreases |all|
  {
    if all != [] {
      var n := |all| - 1;
      TicksAccountedFor(all[..n]);
      if n < CAPACITY {
        assert Kept(all) == all && Kept(all[..n]) == all[..n];
      } else {
        assert Kept(all) == Kept(all[..n]);
      }
      assert Lossless(all) <==> Lossless(all[..n]) && all[n].ticks < (if n < CAPACITY then WORD32 else 1);
    }
  }

  lemma {:induction false} LosslessTotal(all: seq<Delta>)
    requires Lossless(all)
    ensures TotalTicks(all) <= (if |all| <= CAPACITY then |all| else CAPACITY) * WORD32
    decreases |all|
  {
    if all != [] {
      LosslessTotal(all[..|all| - 1]);
    }
  }

  /** What n processes with k ticks between them are charged. */
  function CpuTotal(hw: Hardware, count: nat, totalTicks: nat): (nat, nat) -> real {
    (n: nat, k: nat) => n as real * StaticEach(hw, count)
                        + if totalTicks > 0 then hw.packageWatts * 0.75 * (k as real / totalTicks as real) else 0.0
  }

  lemma CpuTotalStep(hw: Hardware, count: nat, totalTicks: nat, n: nat, k: nat, t: nat)
    ensures CpuTotal(hw, count, totalTicks)(n, k) + CpuWatts(hw, count, totalTicks, t)
            == CpuTotal(hw, count, totalTicks)(n + 1, k + t)
  {
  }

  /** The i-th charge takes the total one process further. */
  ghost predicate CpuAdds(charge: Delta -> Power, total: (nat, nat) -> real, ds: seq<Delta>, i: nat)
    requires i < |ds|
  {
    total(i, KeptTicks(ds[..i])) + charge(ds[i]).cpu == total(i + 1, KeptTicks(ds[..i]) + ds[i].CpuTicks())
  }

  lemma CpuUnfolds(charge: Delta -> Power, ds: seq<Delta>, n: nat)
    requires 0 < n <= |ds|
    ensures SumCpu(FirstPass(charge, ds, n)) == SumCpu(FirstPass(charge, ds, n - 1)) + charge(ds[n - 1]).cpu
    ensures KeptTicks(ds[..n]) == KeptTicks(ds[..n - 1]) + ds[n - 1].CpuTicks()
  {
    assert ds[..n][..n - 1] == ds[..n - 1];
    assert FirstPass(charge, ds, n)[..n - 1] == FirstPass(charge, ds, n - 1);
  }

  lemma {:induction false} CpuSum(charge: Delta -> Power, total: (nat, nat) -> real, ds: seq<Delta>, n: nat)
    requires n <= |ds| && total(0, 0) == 0.0
    requires forall i :: 0 <= i < |ds| ==> CpuAdds(charge, total, ds, i)
    ensures SumCpu(FirstPass(charge, ds, n)) == total(n, KeptTicks(ds[..n]))
    decreases n
  {
    if n > 0 {
      CpuSum(charge, total, ds, n - 1);
      CpuStep(charge, total, ds, n);
    }
  }

  lemma CpuStep(charge: Delta -> Power, total: (nat, nat) -> real, ds: seq<Delta>, n: nat)
    requires 0 < n <= |ds| && CpuAdds(charge, total, ds, n - 1)
    requires SumCpu(FirstPass(charge, ds, n - 1)) == total(n - 1, KeptTicks(ds[..n - 1]))
    ensures SumCpu(FirstPass(charge, ds, n)) == total(n, KeptTicks(ds[..n]))
  {
    CpuUnfolds(charge, ds, n);
  }

  lemma {:induction false} SecondPassKeeps(fan: Power -> real, ps: seq<Power>)
    ensures var qs := SecondPass(fan, ps);
            |qs| == |ps| && SumCpu(qs) == SumCpu(ps) && SumGpu(qs) == SumGpu(ps)
    decreases |ps|
  {
    if ps != [] {
      SecondPassKeeps(fan, ps[..|ps| - 1]);
      assert SecondPass(fan, ps)[..|ps| - 1] == SecondPass(fan, ps[..|ps| - 1]);
    }
  }

  lemma RatioAtMostOne(k: real, total: real)
    requires total > 0.0 && k <= total
    ensures k / total <= 1.0
  {
  }

  lemma ScaleAtMost(w: real, share: real)
    requires w >= 0.0 && share <= 1.0
    ensures w * share <= w
  {
  }

  /**
   CPU shares add up to the package exactly when nothing was truncated or dropped (or the package
   draws nothing); with no ticks elapsed only the static quarter is handed out.
   */
  lemma CpuSharesSumToPackage(hw: Hardware, durationNs: int, p1: Snapshot, p2: Snapshot)
    requires Join(p1, p2) != []
    ensures var all := Join(p1, p2);
            var sum := SumCpu(Attribution(hw, durationNs, p1, p2));
            && (TotalTicks(all) == 0 ==> sum == hw.packageWatts * 0.25)
            && (TotalTicks(all) > 0 && Lossless(all) ==> sum == hw.packageWatts)
            && (0 < TotalTicks(all) < WORD64 ==> (sum == hw.packageWatts <==> hw.packageWatts == 0.0 || Lossless(all)))
            && (TotalTicks(all) < WORD64 && hw.packageWatts >= 0.0 ==> sum <= hw.packageWatts)
  {
    CpuSumSplits(hw, durationNs, p1, p2);
    StoredTotal(Join(p1, p2));
  }

  /** The wrapped total against the ticks of the kept processes. */
  lemma StoredTotal(all: seq<Delta>)
    ensures Lossless(all) ==> TotalTicks(all) % WORD64 == TotalTicks(all) == KeptTicks(Kept(all))
    ensures TotalTicks(all) < WORD64 ==> TotalTicks(all) % WORD64 == TotalTicks(all)
    ensures KeptTicks(Kept(all)) <= TotalTicks(all)
    ensures KeptTicks(Kept(all)) == TotalTicks(all) <==> Lossless(all)
  {
    TicksAccountedFor(all);
    if Lossless(all) {
      LosslessTotal(all);
    }
  }

  /** In terms of the total as stored and the ticks of the kept processes. */
  lemma CpuSumSplits(hw: Hardware, durationNs: int, p1: Snapshot, p2: Snapshot)
    requires Join(p1, p2) != []
    ensures var all := Join(p1, p2);
            var sum := SumCpu(Attribution(hw, durationNs, p1, p2));
            var total, k := TotalTicks(all) % WORD64, KeptTicks(Kept(all));
            && (total == 0 ==> sum == hw.packageWatts * 0.25)
            && (total > 0 ==> (sum == hw.packageWatts <==> hw.packageWatts == 0.0 || k == total))
            && (hw.packageWatts >= 0.0 && k <= total ==> sum <= hw.packageWatts)
  {
    var all := Join(p1, p2);
    CpuSumIs(hw, durationNs, p1, p2);
    PackageSplit(hw, |Kept(all)|, TotalTicks(all) % WORD64, KeptTicks(Kept(all)));
  }

  lemma CpuSumIs(hw: Hardware, durationNs: int, p1: Snapshot, p2: Snapshot)
    ensures var all := Join(p1, p2);
            SumCpu(Attribution(hw, durationNs, p1, p2))
            == CpuTotal(hw, |Kept(all)|, TotalTicks(all) % WORD64)(|Kept(all)|, KeptTicks(Kept(all)))
  {
    var all := Join(p1, p2);
    var ds := Kept(all);
    var charge := ChargeFor(hw, durationNs, all);
    var total := CpuTotal(hw, |ds|, TotalTicks(all) % WORD64);
    forall i | 0 <= i < |ds|
      ensures CpuAdds(charge, total, ds, i)
    {
      CpuTotalStep(hw, |ds|, TotalTicks(all) % WORD64, i, KeptTicks(ds[..i]), ds[i].CpuTicks());
    }
    CpuSum(charge, total, ds, |ds|);
    assert ds[..|ds|] == ds;
    var first := FirstPass(charge, ds, |ds|);
    SecondPassKeeps(FanOf(hw, Thermal(first)), first);
  }

  lemma PackageSplit(hw: Hardware, count: nat, total: nat, k: nat)
    requires count > 0
    ensures var sum := CpuTotal(hw, count, total)(count, k);
            && (total == 0 ==> sum == hw.packageWatts * 0.25)
            && (total > 0 ==> (sum == hw.packageWatts <==> hw.packageWatts == 0.0 || k == total))
            && (hw.packageWatts >= 0.0 && k <= total ==> sum <= hw.packageWatts)
  {
  }

  // ------------------------------------------------------------------ GPU

  lemma ScaleWithin(watts: real, ratio: real, product: real)
    requires watts >= 0.0 && 0.0 <= ratio <= 1.0 && product == watts * ratio
    ensures 0.0 <= product <= watts
  {
  }

  lemma ActiveRatioBounded(hw: Hardware, intervalNs: int, totalNs: nat)
    requires intervalNs > 0
    ensures 0.0 <= ActiveRatio(hw, intervalNs, totalNs) <= 1.0
  {
  }

  lemma DynamicGpuBounded(hw: Hardware, intervalNs: int, totalNs: nat)
    requires intervalNs > 0 && hw.gpuWatts >= 0.0
    ensures 0.0 <= DynamicGpu(hw, intervalNs, totalNs) <= hw.gpuWatts
  {
    ActiveRatioBounded(hw, intervalNs, totalNs);
    ScaleWithin(hw.gpuWatts, ActiveRatio(hw, intervalNs, totalNs), DynamicGpu(hw, intervalNs, totalNs));
  }

  /** No process is charged more than its own duty cycle allows. */
  lemma GpuWithinDuty(hw: Hardware, intervalNs: int, totalNs: nat, ns: nat)
    requires intervalNs > 0 && hw.gpuWatts >= 0.0
    ensures 0.0 <= GpuWatts(hw, intervalNs, totalNs, ns) <= hw.gpuWatts * Duty(intervalNs, ns)
    ensures totalNs > 0 ==>
        GpuWatts(hw, intervalNs, totalNs, ns) <= Proportional(DynamicGpu(hw, intervalNs, totalNs), ns, totalNs)
  {
    ProductNonNegative(hw.gpuWatts, Duty(intervalNs, ns));
    if totalNs > 0 {
      DynamicGpuBounded(hw, intervalNs, totalNs);
      ProductNonNegative(DynamicGpu(hw, intervalNs, totalNs), ns as real / totalNs as real);
    }
  }

  lemma ProductNonNegative(a: real, b: real)
    requires a >= 0.0 && b >= 0.0
    ensures a * b >= 0.0
  {
  }

  lemma GpuStep(dyn: real, k: real, t: real, total: real)
    requires total > 0.0
    ensures dyn * (k / total) + dyn * (t / total) == dyn * ((k + t) / total)
  {
  }

  /** The proportional share of k nanoseconds of engine time. */
  function GpuBound(hw: Hardware, intervalNs: int, totalNs: nat): nat -> real
    requires intervalNs > 0
  {
    (k: nat) => if totalNs > 0 then Proportional(DynamicGpu(hw, intervalNs, totalNs), k, totalNs) else 0.0
  }

  /** What a process would be charged for the GPU without its duty cap. */
  function Uncapped(hw: Hardware, intervalNs: int, totalNs: nat): Delta -> real
    requires intervalNs > 0
  {
    (d: Delta) => if totalNs > 0 then Proportional(DynamicGpu(hw, intervalNs, totalNs), d.gpuNs, totalNs) else 0.0
  }

  /** The watts a process's duty cycle allows. */
  function DutyCap(hw: Hardware, intervalNs: int): Delta -> real
    requires intervalNs > 0
  {
    (d: Delta) => hw.gpuWatts * Duty(intervalNs, d.gpuNs)
  }

  ghost predicate WithinCaps(share: Delta -> real, cap: Delta -> real, ds: seq<Delta>, n: nat)
    requires n <= |ds|
  {
    forall i :: 0 <= i < n ==> share(ds[i]) <= cap(ds[i])
  }

  /** The charge for the GPU, whatever else is charged. */
  ghost predicate ChargesGpu(charge: Delta -> Power, hw: Hardware, intervalNs: int, totalNs: nat)
    requires intervalNs > 0
  {
    forall d :: charge(d).gpu == GpuWatts(hw, intervalNs, totalNs, d.gpuNs)
  }

  lemma ChargeChargesGpu(hw: Hardware, intervalNs: int, count: nat, totalTicks: nat, totalNs: nat)
    requires intervalNs > 0
    ensures ChargesGpu(Charge(hw, intervalNs, count, totalTicks, totalNs), hw, intervalNs, totalNs)
  {
  }

  lemma ChargeForChargesGpu(hw: Hardware, durationNs: int, all: seq<Delta>)
    requires TotalGpu(all) < WORD64
    ensures ChargesGpu(ChargeFor(hw, durationNs, all), hw, IntervalNs(DeltaSeconds(durationNs)), TotalGpu(all))
  {
    var ns := TotalGpu(all) % WORD64;
    assert ns == TotalGpu(all);
    ChargeChargesGpu(hw, IntervalNs(DeltaSeconds(durationNs)), |Kept(all)|, TotalTicks(all) % WORD64, ns);
  }

  /** The shares add up along the bound. */
  ghost predicate ShareAdds(share: Delta -> real, bound: nat -> real, ds: seq<Delta>, i: nat)
    requires i < |ds|
  {
    bound(TotalGpu(ds[..i])) + share(ds[i]) == bound(TotalGpu(ds[..i]) + ds[i].gpuNs)
  }

  /** The charge is its share, unless the cap is below it. */
  ghost predicate ShareCapped(charge: Delta -> Power, share: Delta -> real, cap: Delta -> real, d: Delta) {
    && charge(d).gpu <= share(d)
    && (charge(d).gpu == share(d) <==> share(d) <= cap(d))
  }

  /** What the caps withhold from the first n processes. */
  function Shortfall(charge: Delta -> Power, share: Delta -> real, ds: seq<Delta>, n: nat): real
    requires n <= |ds|
  {
    if n == 0 then 0.0 else Shortfall(charge, share, ds, n - 1) + (share(ds[n - 1]) - charge(ds[n - 1]).gpu)
  }

  lemma GpuUnfolds(charge: Delta -> Power, ds: seq<Delta>, n: nat)
    requires 0 < n <= |ds|
    ensures SumGpu(FirstPass(charge, ds, n)) == SumGpu(FirstPass(charge, ds, n - 1)) + charge(ds[n - 1]).gpu
    ensures TotalGpu(ds[..n]) == TotalGpu(ds[..n - 1]) + ds[n - 1].gpuNs
  {
    assert ds[..n][..n - 1] == ds[..n - 1];
    assert FirstPass(charge, ds, n)[..n - 1] == FirstPass(charge, ds, n - 1);
  }

  lemma {:induction false} ChargedPlusWithheld(charge: Delta -> Power, share: Delta -> real, bound: nat -> real,
      ds: seq<Delta>, n: nat)
    requires n <= |ds| && bound(0) == 0.0
    requires forall i :: 0 <= i < |ds| ==> ShareAdds(share, bound, ds, i)
    ensures SumGpu(FirstPass(charge, ds, n)) + Shortfall(charge, share, ds, n) == bound(TotalGpu(ds[..n]))
    decreases n
  {
    if n > 0 {
      ChargedPlusWithheld(charge, share, bound, ds, n - 1);
      WithheldStep(charge, share, bound, ds, n);
    }
  }

  lemma WithheldStep(charge: Delta -> Power, share: Delta -> real, bound: nat -> real, ds: seq<Delta>, n: nat)
    requires 0 < n <= |ds| && ShareAdds(share, bound, ds, n - 1)
    requires SumGpu(FirstPass(charge, ds, n - 1)) + Shortfall(charge, share, ds, n - 1) == bound(TotalGpu(ds[..n - 1]))
    ensures SumGpu(FirstPass(charge, ds, n)) + Shortfall(charge, share, ds, n) == bound(TotalGpu(ds[..n]))
  {
    GpuUnfolds(charge, ds, n);
  }

  lemma {:induction false} NothingWithheldExactlyWhen(charge: Delta -> Power, share: Delta -> real, cap: Delta -> real,
      ds: seq<Delta>, n: nat)
    requires n <= |ds|
    requires forall i :: 0 <= i < |ds| ==> ShareCapped(charge, share, cap, ds[i])
    ensures Shortfall(charge, share, ds, n) >= 0.0
    ensures Shortfall(charge, share, ds, n) == 0.0 <==> WithinCaps(share, cap, ds, n)
    decreases n
  {
    if n > 0 {
      NothingWithheldExactlyWhen(charge, share, cap, ds, n - 1);
      assert ShareCapped(charge, share, cap, ds[n - 1]);
      assert WithinCaps(share, cap, ds, n) <==> WithinCaps(share, cap, ds, n - 1) && share(ds[n - 1]) <= cap(ds[n - 1]);
    }
  }

  lemma GpuBoundWithin(hw: Hardware, intervalNs: int, totalNs: nat, k: nat)
    requires intervalNs > 0 && hw.gpuWatts >= 0.0 && k <= totalNs
    ensures GpuBound(hw, intervalNs, totalNs)(k) <= hw.gpuWatts
  {
    if totalNs > 0 {
      RatioAtMostOne(k as real, totalNs as real);
      DynamicGpuBounded(hw, intervalNs, totalNs);
      ScaleAtMost(DynamicGpu(hw, intervalNs, totalNs), k as real / totalNs as real);
      assert GpuBound(hw, intervalNs, totalNs)(k) == Proportional(DynamicGpu(hw, intervalNs, totalNs), k, totalNs);
    }
  }

  lemma GpuBoundAtZero(hw: Hardware, intervalNs: int, totalNs: nat)
    requires intervalNs > 0
    ensures GpuBound(hw, intervalNs, totalNs)(0) == 0.0
  {
  }

  lemma WholeShare(hw: Hardware, intervalNs: int, totalNs: nat)
    requires intervalNs > 0 && totalNs > 0
    ensures GpuBound(hw, intervalNs, totalNs)(totalNs) == DynamicGpu(hw, intervalNs, totalNs)
  {
    assert totalNs as real / totalNs as real == 1.0;
  }

  lemma ProportionalAdds(watts: real, k: nat, n: nat, totalNs: nat)
    requires totalNs > 0
    ensures Proportional(watts, k, totalNs) + Proportional(watts, n, totalNs) == Proportional(watts, k + n, totalNs)
  {
    GpuStep(watts, k as real, n as real, totalNs as real);
  }

  lemma IdleShare(hw: Hardware, intervalNs: int, totalNs: nat)
    requires intervalNs > 0 && totalNs > 0
    ensures Proportional(DynamicGpu(hw, intervalNs, totalNs), 0, totalNs) == 0.0
    ensures hw.gpuWatts * Duty(intervalNs, 0) == 0.0
  {
    assert 0 as real / totalNs as real == 0.0 && Duty(intervalNs, 0) == 0.0;
  }

  lemma CappedOrProportional(hw: Hardware, intervalNs: int, totalNs: nat, ns: nat)
    requires intervalNs > 0 && totalNs > 0
    ensures var share := Proportional(DynamicGpu(hw, intervalNs, totalNs), ns, totalNs);
            && GpuWatts(hw, intervalNs, totalNs, ns) <= share
            && (GpuWatts(hw, intervalNs, totalNs, ns) == share <==> share <= hw.gpuWatts * Duty(intervalNs, ns))
  {
    if ns == 0 {
      IdleShare(hw, intervalNs, totalNs);
    }
  }

  lemma BoundAdds(hw: Hardware, intervalNs: int, totalNs: nat, d: Delta, k: nat)
    requires intervalNs > 0 && totalNs > 0
    ensures GpuBound(hw, intervalNs, totalNs)(k) + Uncapped(hw, intervalNs, totalNs)(d)
        == GpuBound(hw, intervalNs, totalNs)(k + d.gpuNs)
  {
    ProportionalAdds(DynamicGpu(hw, intervalNs, totalNs), k, d.gpuNs, totalNs);
  }

  lemma UncappedOrCapped(hw: Hardware, intervalNs: int, totalNs: nat, d: Delta, watts: real)
    requires intervalNs > 0 && totalNs > 0 && watts == GpuWatts(hw, intervalNs, totalNs, d.gpuNs)
    ensures watts <= Uncapped(hw, intervalNs, totalNs)(d)
    ensures watts == Uncapped(hw, intervalNs, totalNs)(d) <==>
        Uncapped(hw, intervalNs, totalNs)(d) <= DutyCap(hw, intervalNs)(d)
  {
    CappedOrProportional(hw, intervalNs, totalNs, d.gpuNs);
  }

  ghost predicate AllSharesAdd(share: Delta -> real, bound: nat -> real, ds: seq<Delta>) {
    bound(0) == 0.0 && forall i :: 0 <= i < |ds| ==> ShareAdds(share, bound, ds, i)
  }

  ghost predicate AllSharesCapped(charge: Delta -> Power, share: Delta -> real, cap: Delta -> real, ds: seq<Delta>) {
    forall i :: 0 <= i < |ds| ==> ShareCapped(charge, share, cap, ds[i])
  }

  lemma UncappedSharesAdd(hw: Hardware, intervalNs: int, totalNs: nat, ds: seq<Delta>)
    requires intervalNs > 0 && totalNs > 0
    ensures AllSharesAdd(Uncapped(hw, intervalNs, totalNs), GpuBound(hw, intervalNs, totalNs), ds)
  {
    GpuBoundAtZero(hw, intervalNs, totalNs);
    forall i | 0 <= i < |ds|
      ensures ShareAdds(Uncapped(hw, intervalNs, totalNs), GpuBound(hw, intervalNs, totalNs), ds, i)
    {
      BoundAdds(hw, intervalNs, totalNs, ds[i], TotalGpu(ds[..i]));
    }
  }

  lemma UncappedSharesCapped(charge: Delta -> Power, hw: Hardware, intervalNs: int, totalNs: nat, ds: seq<Delta>)
    requires intervalNs > 0 && totalNs > 0 && ChargesGpu(charge, hw, intervalNs, totalNs)
    ensures AllSharesCapped(charge, Uncapped(hw, intervalNs, totalNs), DutyCap(hw, intervalNs), ds)
  {
    forall i | 0 <= i < |ds|
      ensures ShareCapped(charge, Uncapped(hw, intervalNs, totalNs), DutyCap(hw, intervalNs), ds[i])
    {
      UncappedOrCapped(hw, intervalNs, totalNs, ds[i], charge(ds[i]).gpu);
    }
  }

  lemma FullExactlyWithinCaps(charge: Delta -> Power, share: Delta -> real, bound: nat -> real, cap: Delta -> real,
      ds: seq<Delta>)
    requires AllSharesAdd(share, bound, ds) && AllSharesCapped(charge, share, cap, ds)
    ensures SumGpu(FirstPass(charge, ds, |ds|)) <= bound(TotalGpu(ds))
    ensures SumGpu(FirstPass(charge, ds, |ds|)) == bound(TotalGpu(ds)) <==> WithinCaps(share, cap, ds, |ds|)
  {
    ChargedPlusWithheld(charge, share, bound, ds, |ds|);
    NothingWithheldExactlyWhen(charge, share, cap, ds, |ds|);
    assert ds[..|ds|] == ds;
  }

  /** The sum of all charges against the share of the engine time they cover. */
  lemma GpuSumIs(charge: Delta -> Power, hw: Hardware, intervalNs: int, totalNs: nat, ds: seq<Delta>)
    requires intervalNs > 0 && totalNs > 0 && ChargesGpu(charge, hw, intervalNs, totalNs)
    ensures var sum, whole := SumGpu(FirstPass(charge, ds, |ds|)), GpuBound(hw, intervalNs, totalNs)(TotalGpu(ds));
            && sum <= whole
            && (sum == whole <==> WithinCaps(Uncapped(hw, intervalNs, totalNs), DutyCap(hw, intervalNs), ds, |ds|))
  {
    UncappedSharesAdd(hw, intervalNs, totalNs, ds);
    UncappedSharesCapped(charge, hw, intervalNs, totalNs, ds);
    FullExactlyWithinCaps(charge, Uncapped(hw, intervalNs, totalNs), GpuBound(hw, intervalNs, totalNs),
        DutyCap(hw, intervalNs), ds);
  }

  lemma {:induction false} SumGpuNonNegative(ps: seq<Power>)
    requires forall i :: 0 <= i < |ps| ==> ps[i].gpu >= 0.0
    ensures SumGpu(ps) >= 0.0
    ensures (forall i :: 0 <= i < |ps| ==> ps[i].gpu == 0.0) ==> SumGpu(ps) == 0.0
    decreases |ps|
  {
    if ps != [] {
      SumGpuNonNegative(ps[..|ps| - 1]);
    }
  }

  lemma GpuSumWithin(charge: Delta -> Power, hw: Hardware, intervalNs: int, totalNs: nat, ds: seq<Delta>)
    requires intervalNs > 0 && hw.gpuWatts >= 0.0 && ChargesGpu(charge, hw, intervalNs, totalNs)
        && TotalGpu(ds) <= totalNs
    ensures 0.0 <= SumGpu(FirstPass(charge, ds, |ds|)) <= hw.gpuWatts
  {
    var first := FirstPass(charge, ds, |ds|);
    forall i | 0 <= i < |first|
      ensures first[i].gpu >= 0.0 && (totalNs == 0 ==> first[i].gpu == 0.0)
    {
      GpuWithinDuty(hw, intervalNs, totalNs, ds[i].gpuNs);
    }
    SumGpuNonNegative(first);
    if totalNs > 0 {
      GpuSumIs(charge, hw, intervalNs, totalNs, ds);
      GpuBoundWithin(hw, intervalNs, totalNs, TotalGpu(ds));
    }
  }

  lemma {:induction false} KeptGpuAtMostAll(all: seq<Delta>)
    ensures TotalGpu(Kept(all)) <= TotalGpu(all)
    decreases |all|
  {
    if all != [] {
      KeptGpuAtMostAll(all[..|all| - 1]);
      if |all| <= CAPACITY {
        assert Kept(all) == all;
      } else {
        assert Kept(all) == Kept(all[..|all| - 1]);
      }
    }
  }

  lemma AttributionSums(hw: Hardware, durationNs: int, p1: Snapshot, p2: Snapshot)
    ensures var ds := Kept(Join(p1, p2));
            var first := FirstPass(ChargeFor(hw, durationNs, Join(p1, p2)), ds, |ds|);
            && SumGpu(Attribution(hw, durationNs, p1, p2)) == SumGpu(first)
            && SumCpu(Attribution(hw, durationNs, p1, p2)) + SumGpu(Attribution(hw, durationNs, p1, p2))
                == Thermal(first)
  {
    var ds := Kept(Join(p1, p2));
    var first := FirstPass(ChargeFor(hw, durationNs, Join(p1, p2)), ds, |ds|);
    SecondPassKeeps(FanOf(hw, Thermal(first)), first);
    ThermalIsCpuPlusGpu(first);
  }

  /** All GPU charges together stay within the measured GPU power. */
  lemma GpuSharesWithinGpu(hw: Hardware, durationNs: int, p1: Snapshot, p2: Snapshot)
    requires hw.gpuWatts >= 0.0 && TotalGpu(Join(p1, p2)) < WORD64
    ensures 0.0 <= SumGpu(Attribution(hw, durationNs, p1, p2)) <= hw.gpuWatts
  {
    var all := Join(p1, p2);
    ChargeForChargesGpu(hw, durationNs, all);
    KeptGpuAtMostAll(all);
    GpuSumWithin(ChargeFor(hw, durationNs, all), hw, IntervalNs(DeltaSeconds(durationNs)), TotalGpu(all), Kept(all));
    AttributionSums(hw, durationNs, p1, p2);
  }

  /** The active GPU power is handed out in full exactly when no process runs into its duty cap. */
  lemma GpuFullyChargedExactlyWhen(hw: Hardware, durationNs: int, p1: Snapshot, p2: Snapshot)
    requires 0 < TotalGpu(Join(p1, p2)) < WORD64 && |Join(p1, p2)| <= CAPACITY
    ensures var all, interval := Join(p1, p2), IntervalNs(DeltaSeconds(durationNs));
            SumGpu(Attribution(hw, durationNs, p1, p2)) == DynamicGpu(hw, interval, TotalGpu(all))
            <==> WithinCaps(Uncapped(hw, interval, TotalGpu(all)), DutyCap(hw, interval), all, |all|)
  {
    var all, interval := Join(p1, p2), IntervalNs(DeltaSeconds(durationNs));
    ChargeForChargesGpu(hw, durationNs, all);
    GpuSumIs(ChargeFor(hw, durationNs, all), hw, interval, TotalGpu(all), all);
    WholeShare(hw, interval, TotalGpu(all));
    AttributionSums(hw, durationNs, p1, p2);
  }

  lemma ScaleIff(k: real, a: real, b: real)
    requires k > 0.0
    ensures k * a <= k * b <==> a <= b
  {
    assert k * (b - a) == k * b - k * a;
  }

  /** A share r*n/total against a duty n/interval, for a process active for part of the interval. */
  lemma ShareAgainstDuty(r: real, n: real, total: real, interval: real)
    requires n > 0.0 && total > 0.0 && interval > 0.0
    ensures r * (n / total) <= n / interval <==> r * interval <= total
  {
    var q, d := n / total, n / interval;
    assert q * total == n && d * interval == n;
    ScaleIff(total * interval, r * q, d);
    CrossMultiplied(r, q, d, n, total, interval);
    ScaleIff(n, r * interval, total);
  }

  lemma CrossMultiplied(r: real, q: real, d: real, n: real, total: real, interval: real)
    requires q * total == n && d * interval == n
    ensures total * interval * (r * q) == n * (r * interval) && total * interval * d == n * total
  {
    assert total * interval * (r * q) == (q * total) * (r * interval);
    assert total * interval * d == (d * interval) * total;
  }

  lemma FullShare(r: real, n: real, total: real)
    requires 0.0 <= r <= 1.0 && 0.0 <= n <= total && total > 0.0
    ensures r * (n / total) <= 1.0
  {
    RatioAtMostOne(n, total);
    assert n / total >= 0.0;
    ScaleWithin(n / total, r, r * (n / total));
  }

  lemma Regrouped(w: real, r: real, q: real)
    ensures w * r * q == w * (r * q)
  {
  }

  /** Whether a process stays within its duty cap, in terms of the hardware values. */
  predicate NotCapped(hw: Hardware, intervalNs: int, totalNs: nat, ns: nat)
    requires intervalNs > 0
  {
    || hw.gpuWatts == 0.0 || ns == 0 || ns >= intervalNs
    || ActiveRatio(hw, intervalNs, totalNs) * intervalNs as real <= totalNs as real
  }

  lemma CapBindsNot(w: real, r: real, q: real, duty: real, share: real, cap: real)
    requires w > 0.0 && share == w * r * q && cap == w * duty
    ensures share <= cap <==> r * q <= duty
  {
    Regrouped(w, r, q);
    ScaleIff(w, r * q, duty);
  }

  lemma ShareWithinDuty(r: real, intervalNs: int, totalNs: nat, ns: nat)
    requires intervalNs > 0 && 0.0 <= r <= 1.0 && 0 < ns <= totalNs
    ensures r * (ns as real / totalNs as real) <= Duty(intervalNs, ns)
            <==> ns >= intervalNs || r * intervalNs as real <= totalNs as real
  {
    if ns >= intervalNs {
      FullShare(r, ns as real, totalNs as real);
      DutyIsFull(intervalNs, ns);
    } else {
      ShareAgainstDuty(r, ns as real, totalNs as real, intervalNs as real);
      DutyIsPartial(intervalNs, ns);
    }
  }

  lemma NotCappedWhileDrawing(hw: Hardware, intervalNs: int, totalNs: nat, ns: nat, share: real, cap: real)
    requires intervalNs > 0 && hw.gpuWatts > 0.0 && 0 < ns <= totalNs
    requires share == hw.gpuWatts * ActiveRatio(hw, intervalNs, totalNs) * (ns as real / totalNs as real)
    requires cap == hw.gpuWatts * Duty(intervalNs, ns)
    ensures share <= cap
            <==> ns >= intervalNs || ActiveRatio(hw, intervalNs, totalNs) * intervalNs as real <= totalNs as real
  {
    var r, q := ActiveRatio(hw, intervalNs, totalNs), ns as real / totalNs as real;
    CapBindsNot(hw.gpuWatts, r, q, Duty(intervalNs, ns), share, cap);
    ActiveRatioBounded(hw, intervalNs, totalNs);
    ShareWithinDuty(r, intervalNs, totalNs, ns);
  }

  lemma NotCappedExactlyWhen(hw: Hardware, intervalNs: int, totalNs: nat, ns: nat, share: real, cap: real)
    requires intervalNs > 0 && hw.gpuWatts >= 0.0 && ns <= totalNs && totalNs > 0
    requires share == Proportional(DynamicGpu(hw, intervalNs, totalNs), ns, totalNs)
    requires cap == hw.gpuWatts * Duty(intervalNs, ns)
    ensures share <= cap <==> NotCapped(hw, intervalNs, totalNs, ns)
  {
    if ns == 0 {
      IdleShare(hw, intervalNs, totalNs);
    } else if hw.gpuWatts > 0.0 {
      NotCappedWhileDrawing(hw, intervalNs, totalNs, ns, share, cap);
    } else {
      IdleGpu(hw, intervalNs, totalNs, ns);
    }
  }

  lemma IdleGpu(hw: Hardware, intervalNs: int, totalNs: nat, ns: nat)
    requires intervalNs > 0 && totalNs > 0 && hw.gpuWatts == 0.0
    ensures Proportional(DynamicGpu(hw, intervalNs, totalNs), ns, totalNs) == 0.0
    ensures hw.gpuWatts * Duty(intervalNs, ns) == 0.0
  {
    assert DynamicGpu(hw, intervalNs, totalNs) == 0.0;
  }

  lemma DutyIsFull(intervalNs: int, ns: nat)
    requires 0 < intervalNs <= ns
    ensures Duty(intervalNs, ns) == 1.0
  {
    var d := ns as real / intervalNs as real;
    assert d * intervalNs as real == ns as real;
    if d < 1.0 {
      ScaleIff(intervalNs as real, 1.0, d);
    }
  }

  lemma DutyIsPartial(intervalNs: int, ns: nat)
    requires 0 < ns < intervalNs
    ensures Duty(intervalNs, ns) == ns as real / intervalNs as real
  {
    RatioAtMostOne(ns as real, intervalNs as real);
  }

  /** Without a busy reading the active time is the engine time itself, and nothing is capped. */
  lemma UnreportedIsNotCapped(hw: Hardware, intervalNs: int, totalNs: nat, ns: nat)
    requires intervalNs > 0 && hw.gpuBusyPercent <= 0
    ensures NotCapped(hw, intervalNs, totalNs, ns)
  {
    var q, i := totalNs as real / intervalNs as real, intervalNs as real;
    assert q * i == totalNs as real;
    ScaleIff(i, ActiveRatio(hw, intervalNs, totalNs), q);
  }

  lemma {:induction false} PartOfTotalGpu(ds: seq<Delta>, i: nat)
    requires i < |ds|
    ensures ds[i].gpuNs <= TotalGpu(ds)
    decreases |ds|
  {
    if i < |ds| - 1 {
      PartOfTotalGpu(ds[..|ds| - 1], i);
    }
  }

  /**
   In terms of the readings alone: the active GPU power is handed out in full exactly when every
   process with engine time was active for the whole interval, or the reported busy time does not
   exceed the engine time of all processes together, or the GPU draws nothing.
   */
  lemma GpuFullyChargedInReadings(hw: Hardware, durationNs: int, p1: Snapshot, p2: Snapshot)
    requires 0 < TotalGpu(Join(p1, p2)) < WORD64 && |Join(p1, p2)| <= CAPACITY && hw.gpuWatts >= 0.0
    ensures var all, interval := Join(p1, p2), IntervalNs(DeltaSeconds(durationNs));
            && (SumGpu(Attribution(hw, durationNs, p1, p2)) == DynamicGpu(hw, interval, TotalGpu(all))
                <==> forall i :: 0 <= i < |all| ==> NotCapped(hw, interval, TotalGpu(all), all[i].gpuNs))
            && (hw.gpuBusyPercent <= 0 ==>
                  SumGpu(Attribution(hw, durationNs, p1, p2)) == DynamicGpu(hw, interval, TotalGpu(all)))
  {
    var all, interval := Join(p1, p2), IntervalNs(DeltaSeconds(durationNs));
    GpuFullyChargedExactlyWhen(hw, durationNs, p1, p2);
    WithinCapsInReadings(hw, interval, all);
    if hw.gpuBusyPercent <= 0 {
      forall i | 0 <= i < |all|
        ensures NotCapped(hw, interval, TotalGpu(all), all[i].gpuNs)
      {
        UnreportedIsNotCapped(hw, interval, TotalGpu(all), all[i].gpuNs);
      }
    }
  }

  lemma WithinCapsInReadings(hw: Hardware, intervalNs: int, all: seq<Delta>)
    requires intervalNs > 0 && TotalGpu(all) > 0 && hw.gpuWatts >= 0.0
    ensures WithinCaps(Uncapped(hw, intervalNs, TotalGpu(all)), DutyCap(hw, intervalNs), all, |all|)
            <==> forall i :: 0 <= i < |all| ==> NotCapped(hw, intervalNs, TotalGpu(all), all[i].gpuNs)
  {
    var share, cap := Uncapped(hw, intervalNs, TotalGpu(all)), DutyCap(hw, intervalNs);
    forall i | 0 <= i < |all|
      ensures share(all[i]) <= cap(all[i]) <==> NotCapped(hw, intervalNs, TotalGpu(all), all[i].gpuNs)
    {
      PartOfTotalGpu(all, i);
      NotCappedExactlyWhen(hw, intervalNs, TotalGpu(all), all[i].gpuNs, share(all[i]), cap(all[i]));
    }
  }

  // ------------------------------------------------------------------ fan

  /** The fan's share of some heat. */
  function FanTotal(hw: Hardware, thermal: real): real -> real {
    (heat: real) => if hw.fanWatts > 0.0 && thermal > 0.0 then hw.fanWatts * (heat / thermal) else 0.0
  }

  ghost predicate FanAdds(fan: Power -> real, total: real -> real, ps: seq<Power>, i: nat)
    requires i < |ps|
  {
    total(Thermal(ps[..i])) + fan(ps[i]) == total(Thermal(ps[..i]) + (ps[i].cpu + ps[i].gpu))
  }

  lemma FanAddsUp(hw: Hardware, thermal: real, ps: seq<Power>, i: nat)
    requires i < |ps| && ps[i].fan == 0.0
    ensures FanAdds(FanOf(hw, thermal), FanTotal(hw, thermal), ps, i)
  {
    if thermal > 0.0 {
      GpuStep(hw.fanWatts, Thermal(ps[..i]), ps[i].cpu + ps[i].gpu, thermal);
    }
  }

  lemma {:induction false} FanSum(fan: Power -> real, total: real -> real, ps: seq<Power>, n: nat)
    requires n <= |ps| && total(0.0) == 0.0
    requires forall i :: 0 <= i < |ps| ==> FanAdds(fan, total, ps, i)
    ensures SumFan(SecondPass(fan, ps[..n])) == total(Thermal(ps[..n]))
    decreases n
  {
    if n > 0 {
      FanSum(fan, total, ps, n - 1);
      assert FanAdds(fan, total, ps, n - 1);
      assert ps[..n][..n - 1] == ps[..n - 1];
      assert SecondPass(fan, ps[..n])[..n - 1] == SecondPass(fan, ps[..n - 1]);
    }
  }

  lemma FanTotalEnds(hw: Hardware, thermal: real)
    ensures FanTotal(hw, thermal)(0.0) == 0.0
    ensures FanTotal(hw, thermal)(thermal) == if hw.fanWatts > 0.0 && thermal > 0.0 then hw.fanWatts else 0.0
  {
    if thermal > 0.0 {
      assert thermal / thermal == 1.0 && 0.0 / thermal == 0.0;
    }
  }

  lemma {:induction false} ThermalIsCpuPlusGpu(ps: seq<Power>)
    ensures Thermal(ps) == SumCpu(ps) + SumGpu(ps)
    decreases |ps|
  {
    if ps != [] {
      ThermalIsCpuPlusGpu(ps[..|ps| - 1]);
    }
  }

  lemma FanSumOf(hw: Hardware, ps: seq<Power>)
    requires forall i :: 0 <= i < |ps| ==> ps[i].fan == 0.0
    ensures SumFan(SecondPass(FanOf(hw, Thermal(ps)), ps))
            == if hw.fanWatts > 0.0 && Thermal(ps) > 0.0 then hw.fanWatts else 0.0
  {
    var fan, total := FanOf(hw, Thermal(ps)), FanTotal(hw, Thermal(ps));
    forall i | 0 <= i < |ps|
      ensures FanAdds(fan, total, ps, i)
    {
      FanAddsUp(hw, Thermal(ps), ps, i);
    }
    FanTotalEnds(hw, Thermal(ps));
    FanSum(fan, total, ps, |ps|);
    assert ps[..|ps|] == ps;
  }

  /** Fan shares add up to the fan's power as soon as any process is charged heat, and to nothing otherwise. */
  lemma FanSharesSumToFan(hw: Hardware, durationNs: int, p1: Snapshot, p2: Snapshot)
    ensures var ps := Attribution(hw, durationNs, p1, p2);
            SumFan(ps) == if hw.fanWatts > 0.0 && SumCpu(ps) + SumGpu(ps) > 0.0 then hw.fanWatts else 0.0
  {
    var all := Join(p1, p2);
    FanSumOf(hw, FirstPass(ChargeFor(hw, durationNs, all), Kept(all), |Kept(all)|));
    AttributionSums(hw, durationNs, p1, p2);
  }

  /** Attribution never charges the processes more than was measured. */
  lemma NoEnergyIsInvented(hw: Hardware, durationNs: int, p1: Snapshot, p2: Snapshot)
    requires hw.packageWatts >= 0.0 && hw.gpuWatts >= 0.0 && hw.fanWatts >= 0.0
    requires TotalTicks(Join(p1, p2)) < WORD64 && TotalGpu(Join(p1, p2)) < WORD64
    ensures var ps := Attribution(hw, durationNs, p1, p2);
            SumCpu(ps) + SumGpu(ps) + SumFan(ps) <= hw.packageWatts + hw.gpuWatts + hw.fanWatts
  {
    GpuSharesWithinGpu(hw, durationNs, p1, p2);
    FanSharesSumToFan(hw, durationNs, p1, p2);
    if Join(p1, p2) != [] {
      CpuSharesSumToPackage(hw, durationNs, p1, p2);
    }
  }

  lemma ShareOfTotal(whole: real, part: real, total: real)
    requires total != 0.0
    ensures whole * (part / total) * total == whole * part
  {
    var share := part / total;
    assert share * total == part;
  }

  /** The charge above the even static share is to the dynamic power as the process's ticks to the total. */
  ghost predicate CpuByTicks(hw: Hardware, count: nat, totalTicks: nat, ticks: nat, cpu: real) {
    (cpu - StaticEach(hw, count)) * totalTicks as real
    == if totalTicks > 0 then hw.packageWatts * 0.75 * ticks as real else 0.0
  }

  lemma CpuAboveStatic(hw: Hardware, count: nat, totalTicks: nat, ticks: nat)
    ensures CpuByTicks(hw, count, totalTicks, ticks, CpuWatts(hw, count, totalTicks, ticks))
  {
    if totalTicks > 0 {
      ShareOfTotal(hw.packageWatts * 0.75, ticks as real, totalTicks as real);
    }
  }

  /** The fan charge is to the fan's watts as the process's heat to all heat, and nothing without either. */
  ghost predicate FanByHeat(hw: Hardware, allHeat: real, heat: real, fan: real) {
    if hw.fanWatts > 0.0 && allHeat > 0.0 then fan * allHeat == hw.fanWatts * heat else fan == 0.0
  }

  lemma FanShareByHeat(hw: Hardware, allHeat: real, heat: real, p: Power, fan: real)
    requires heat == p.cpu + p.gpu && p.fan == 0.0 && fan == FanShare(hw, allHeat, p)
    ensures FanByHeat(hw, allHeat, heat, fan)
  {
    if hw.fanWatts > 0.0 && allHeat > 0.0 {
      ShareOfTotal(hw.fanWatts, heat, allHeat);
    }
  }

  /** The second pass shares the fan's watts by heat, whatever the first one charged. */
  lemma FanChargeAt(hw: Hardware, first: seq<Power>, i: nat, fan: real)
    requires i < |first| && first[i].fan == 0.0
    requires fan == SecondPass(FanOf(hw, Thermal(first)), first)[i].fan
    ensures FanByHeat(hw, Thermal(first), first[i].cpu + first[i].gpu, fan)
  {
    FanShareByHeat(hw, Thermal(first), first[i].cpu + first[i].gpu, first[i], fan);
  }

  /** Each charge stands at the place of its matched PID and follows from that process's own counts and heat. */
  lemma ChargeAt(hw: Hardware, durationNs: int, p1: Snapshot, p2: Snapshot, i: nat)
    requires i < |Kept(Join(p1, p2))|
    ensures var all, ps := Join(p1, p2), Attribution(hw, durationNs, p1, p2);
            && |ps| == |Kept(all)| && ps[i].pid == all[i].pid
            && ps[i].cpu == CpuWatts(hw, |ps|, TotalTicks(all) % WORD64, all[i].CpuTicks())
            && ps[i].gpu == GpuWatts(hw, IntervalNs(DeltaSeconds(durationNs)), TotalGpu(all) % WORD64, all[i].gpuNs)
            && ps[i].fan == FanShare(hw, SumCpu(ps) + SumGpu(ps), ps[i].(fan := 0.0))
  {
    AttributionSums(hw, durationNs, p1, p2);
  }

  /** Above its even part of the static quarter a process is charged by its own ticks. */
  lemma CpuChargeAt(hw: Hardware, durationNs: int, p1: Snapshot, p2: Snapshot, i: nat)
    requires i < |Kept(Join(p1, p2))|
    ensures var all, ps := Join(p1, p2), Attribution(hw, durationNs, p1, p2);
            && |ps| == |Kept(all)|
            && CpuByTicks(hw, |ps|, TotalTicks(all) % WORD64, all[i].CpuTicks(), ps[i].cpu)
  {
    var all := Join(p1, p2);
    ChargeAt(hw, durationNs, p1, p2, i);
    CpuAboveStatic(hw, |Kept(all)|, TotalTicks(all) % WORD64, all[i].CpuTicks());
  }

  /** 2^32 ticks of a lone process are stored as none, and three quarters of the package vanish. */
  lemma TruncatedTicksLoseEnergy(hw: Hardware, durationNs: int, p: Sample)
    requires hw.packageWatts > 0.0 && p.counts == NO_COUNTS
    ensures var after := p.(counts := NO_COUNTS[UTIME := WORD32]);
            SumCpu(Attribution(hw, durationNs, [p], [after])) != hw.packageWatts
  {
    var after := p.(counts := NO_COUNTS[UTIME := WORD32]);
    var all := Join([p], [after]);
    LoneJoin(p, after);
    LoneTicks(p, after);
    assert all[0].ticks == WORD32 && all[..|all| - 1] == [];
    CpuSharesSumToPackage(hw, durationNs, [p], [after]);
  }

  lemma LoneJoin(p: Sample, after: Sample)
    requires p.pid == after.pid
    ensures Join([p], [after]) == [DeltaOf(p, after)]
  {
    assert Join([p], [after]) == [DeltaOf(p, after)] + Join([p][1..], [after][1..]);
  }

  lemma LoneTicks(p: Sample, after: Sample)
    requires p.counts == NO_COUNTS && after.counts == NO_COUNTS[UTIME := WORD32]
    ensures DeltaOf(p, after).ticks == WORD32
  {
    TwoCounters(p, UTIME, STIME);
    TwoCounters(after, UTIME, STIME);
  }

  lemma TwoCounters(s: Sample, a: nat, b: nat)
    requires a < COUNTERS && b < COUNTERS
    ensures Sum64(s, [a, b]) == (s.counts[a] % WORD64 + s.counts[b]) % WORD64
  {
    assert [a, b][..1] == [a] && [a][..0] == [];
    assert Sum64(s, [a]) == s.counts[a] % WORD64;
  }

  // ------------------------------------------------------------------ windows

  lemma {:induction false} AlikeTotals(ds: seq<Delta>, es: seq<Delta>)
    requires Alike(ds, es)
    ensures TotalTicks(ds) == TotalTicks(es) && TotalGpu(ds) == TotalGpu(es)
    decreases |ds|
  {
    if ds != [] {
      var n := |ds| - 1;
      assert SameUse(ds[n], es[n]);
      assert forall i :: 0 <= i < n ==> SameUse(ds[i], es[i]);
      AlikeTotals(ds[..n], es[..n]);
    }
  }

  lemma {:induction false} AlikeFirstPass(charge: Delta -> Power, ds: seq<Delta>, es: seq<Delta>, n: nat)
    requires Alike(ds, es) && n <= |ds|
    requires forall i :: 0 <= i < |ds| ==> charge(ds[i]) == charge(es[i])
    ensures FirstPass(charge, ds, n) == FirstPass(charge, es, n)
    decreases n
  {
    if n > 0 {
      AlikeFirstPass(charge, ds, es, n - 1);
      assert charge(ds[n - 1]) == charge(es[n - 1]);
    }
  }

  /** A charge depends on a process's PID, ticks and engine time only. */
  lemma SameUseSameCharge(hw: Hardware, intervalNs: int, count: nat, totalTicks: nat, totalNs: nat, d: Delta, e: Delta)
    requires intervalNs > 0 && SameUse(d, e)
    ensures var charge := Charge(hw, intervalNs, count, totalTicks, totalNs); charge(d) == charge(e)
  {
    assert d.CpuTicks() == e.CpuTicks();
  }

  /**
   A window over a fixed set of processes with steady times charges every process, for CPU, GPU and
   fan alike, what the two end-point samples alone would have charged it.
   */
  lemma WindowChargesAsEndpoints(hw: Hardware, durationNs: int, samples: seq<Snapshot>, k: nat)
    requires 0 < k < |samples| && AllSorted(samples) && SteadyWindow(samples, k)
    requires |Pids(samples[0])| <= CAPACITY
    ensures var w := Window(samples, k);
            Attribution(hw, durationNs, ZeroBase(w), w) == Attribution(hw, durationNs, samples[0], samples[k])
  {
    var w := Window(samples, k);
    WindowDeltasAreEndpointDeltas(samples, k);
    AlikeChargesAlike(hw, durationNs, Join(ZeroBase(w), w), Join(samples[0], samples[k]));
  }

  lemma AlikeChargesAlike(hw: Hardware, durationNs: int, ds: seq<Delta>, es: seq<Delta>)
    requires Alike(ds, es)
    ensures |Kept(ds)| == |Kept(es)|
    ensures FirstPass(ChargeFor(hw, durationNs, ds), Kept(ds), |Kept(ds)|)
            == FirstPass(ChargeFor(hw, durationNs, es), Kept(es), |Kept(es)|)
  {
    AlikeTotals(ds, es);
    var charge := ChargeFor(hw, durationNs, ds);
    assert charge == ChargeFor(hw, durationNs, es);
    forall i | 0 <= i < |Kept(ds)|
      ensures SameUse(Kept(ds)[i], Kept(es)[i]) && charge(Kept(ds)[i]) == charge(Kept(es)[i])
    {
      assert SameUse(ds[i], es[i]);
      SameUseSameCharge(hw, IntervalNs(DeltaSeconds(durationNs)), |Kept(ds)|,
                        TotalTicks(ds) % WORD64, TotalGpu(ds) % WORD64, ds[i], es[i]);
    }
    AlikeFirstPass(charge, Kept(ds), Kept(es), |Kept(ds)|);
  }
}
