/**
 Profile actuation on the knobs that remember being modified: GPU power profile, NVMe latency and
 runtime control, scheduler migration cost, SMU limits, VM writeback and the HDA codec. A restore
 writes the value captured at start-up, and only where one was captured.
 */
module PowerActuation {
  import Latch = ProfileLatch

  const CONTROLLERS: nat := 4

  datatype Smu = Smu(tctl: nat, stapm: nat, fast: nat, slow: nat, apuSlow: nat)

  datatype Vm = Vm(writeback: nat, expire: nat, laptop: nat)

  datatype Audio = Audio(powerSave: int, controller: string)

  type Controls = c: seq<string> | |c| == CONTROLLERS witness ["", "", "", ""]

  type Slots = p: seq<bool> | |p| == CONTROLLERS witness [false, false, false, false]

  datatype Knobs = Knobs(gpuMode: int, apst: nat, nvme: Controls, migration: nat, smu: Smu, vm: Vm, audio: Audio)

  datatype Flags = Flags(gpu: bool, apst: bool, nvme: bool, migration: bool, smu: bool, vm: bool, audio: bool)

  const CLEAR := Flags(false, false, false, false, false, false, false)

  /**
   initial is what the hardware held; captured is what start-up read of it: gpuMode -1, a zero SMU
   row, a negative power save and an empty string stand for a value that could not be read.
   */
  datatype Machine = Machine(initial: Knobs, captured: Knobs, present: Slots)

  datatype State = State(knobs: Knobs, flags: Flags)

  const RAISED := Smu(85, 28000, 35000, 30000, 30000)
  const ULTRA_VM := Vm(1500, 3000, 2)
  const ULTRA_AUDIO := Audio(10, "Y")

  // ------------------------------------------------------------------ set and restore pairs

  /** Every controller that is there is written; the others keep what they hold. */
  function NvmeWritten(present: Slots, nvme: Controls, value: string): Controls {
    seq(CONTROLLERS, i requires 0 <= i < CONTROLLERS => if present[i] then value else nvme[i])
  }

  function NvmeRestored(present: Slots, nvme: Controls, captured: Controls): Controls {
    seq(CONTROLLERS, i requires 0 <= i < CONTROLLERS =>
      if present[i] && captured[i] != "" then captured[i] else nvme[i])
  }

  function GpuRestored(captured: int): int {
    if captured >= 0 then captured else 0
  }

  function Row(captured: nat, now: nat): nat {
    if captured != 0 then captured else now
  }

  /** Only captured rows are written back; the APU slow limit falls back to the slow limit's. */
  function SmuRestored(captured: Smu, now: Smu): Smu {
    Smu(captured.tctl,
        Row(captured.stapm, now.stapm),
        Row(captured.fast, now.fast),
        Row(captured.slow, now.slow),
        Row(if captured.apuSlow != 0 then captured.apuSlow else captured.slow, now.apuSlow))
  }

  function AudioRestored(captured: Audio, now: Audio): Audio {
    Audio(if captured.powerSave >= 0 then captured.powerSave else now.powerSave,
          if captured.controller != "" then captured.controller else now.controller)
  }

  /** The limits are raised only if they could be put back. */
  predicate CanRaise(m: Machine, tool: bool) {
    tool && m.captured.smu.stapm != 0 && m.captured.smu.tctl != 0
  }

  function Raise(m: Machine, s: State, tool: bool): State {
    if CanRaise(m, tool) then State(s.knobs.(smu := RAISED), s.flags.(smu := true)) else s
  }

  /** Without the tool the flag stays set, so that a later cycle can still restore. */
  function RestoreSmu(m: Machine, s: State, tool: bool): State {
    if !s.flags.smu || !tool then s
    else if m.captured.smu.stapm == 0 || m.captured.smu.tctl == 0 then s.(flags := s.flags.(smu := false))
    else State(s.knobs.(smu := SmuRestored(m.captured.smu, s.knobs.smu)), s.flags.(smu := false))
  }

  function RestoreGpu(m: Machine, s: State): State {
    if !s.flags.gpu then s
    else State(s.knobs.(gpuMode := GpuRestored(m.captured.gpuMode)), s.flags.(gpu := false))
  }

  function RestoreNvme(m: Machine, s: State): State {
    if !s.flags.nvme then s
    else State(s.knobs.(nvme := NvmeRestored(m.present, s.knobs.nvme, m.captured.nvme)), s.flags.(nvme := false))
  }

  function RestoreApst(m: Machine, s: State): State {
    if !s.flags.apst then s
    else State(s.knobs.(apst := m.captured.apst), s.flags.(apst := false))
  }

  function RestoreMigration(m: Machine, s: State): State {
    if !s.flags.migration then s
    else State(s.knobs.(migration := m.captured.migration), s.flags.(migration := false))
  }

  function RestoreVm(m: Machine, s: State): State {
    if !s.flags.vm then s
    else State(s.knobs.(vm := m.captured.vm), s.flags.(vm := false))
  }

  function RestoreAudio(m: Machine, s: State): State {
    if !s.flags.audio then s
    else State(s.knobs.(audio := AudioRestored(m.captured.audio, s.knobs.audio)), s.flags.(audio := false))
  }

  /** release_performance_unleash */
  function Release(m: Machine, s: State, tool: bool): State {
    RestoreSmu(m, RestoreMigration(m, RestoreApst(m, RestoreNvme(m, RestoreGpu(m, s)))), tool)
  }

  predicate AnyPresent(m: Machine) {
    exists i :: 0 <= i < |m.present| && m.present[i]
  }

  function Unleash(m: Machine, s: State, tool: bool): State {
    var knobs := s.knobs.(gpuMode := 1, apst := 0, nvme := NvmeWritten(m.present, s.knobs.nvme, "on"),
                          migration := 5000000);
    var flags := s.flags.(gpu := true, apst := true, nvme := s.flags.nvme || AnyPresent(m), migration := true);
    Raise(m, State(knobs, flags), tool)
  }

  function Apply(m: Machine, s: State, mode: Latch.Profile, tool: bool): State {
    match mode
    case Performance => RestoreAudio(m, RestoreVm(m, Unleash(m, s, tool)))
    case Balanced => RestoreAudio(m, RestoreVm(m, Raise(m, Release(m, s, tool), tool)))
    case PowerSaver => RestoreAudio(m, RestoreVm(m, Release(m, s, tool)))
    case UltraEndurance =>
      var r := Release(m, s, tool);
      State(r.knobs.(vm := ULTRA_VM, audio := ULTRA_AUDIO), r.flags.(vm := true, audio := true))
  }

  /** restore_hardware_baseline */
  function RestoreBaseline(m: Machine, s: State, tool: bool): State {
    Release(m, RestoreAudio(m, RestoreVm(m, s)), tool)
  }

  // ------------------------------------------------------------------ histories

  /** A profile applied while the SMU tool was or was not there. */
  datatype Applied = Applied(mode: Latch.Profile, tool: bool)

  function Start(m: Machine): State {
    State(m.initial, CLEAR)
  }

  function After(m: Machine, history: seq<Applied>): State {
    if history == [] then Start(m)
    else
      var last := history[|history| - 1];
      Apply(m, After(m, history[..|history| - 1]), last.mode, last.tool)
  }

  /** Whatever a profile writes to a knob, its restore brings the initial value back. */
  ghost predicate WritesBack(m: Machine) {
    && m.captured.apst == m.initial.apst && m.captured.migration == m.initial.migration && m.captured.vm == m.initial.vm
    && GpuRestored(m.captured.gpuMode) == m.initial.gpuMode
    && NvmeRestored(m.present, NvmeWritten(m.present, m.initial.nvme, "on"), m.captured.nvme) == m.initial.nvme
    && (CanRaise(m, true) ==> SmuRestored(m.captured.smu, RAISED) == m.initial.smu)
    && AudioRestored(m.captured.audio, ULTRA_AUDIO) == m.initial.audio
  }

  /** A value is captured as it was or, if it could not be read, was already what is left in its place. */
  predicate Captured<T(==)>(read: bool, captured: T, initial: T, left: T) {
    if read then captured == initial else initial == left
  }

  /** Start-up captured every value a profile overwrites, or lost nothing by not reading it. */
  predicate Complete(m: Machine) {
    var c, i := m.captured, m.initial;
    var apuSlow := if c.smu.apuSlow != 0 then c.smu.apuSlow else c.smu.slow;
    && c.apst == i.apst && c.migration == i.migration && c.vm == i.vm
    && Captured(c.gpuMode >= 0, c.gpuMode, i.gpuMode, 0)
    && (forall n :: 0 <= n < CONTROLLERS && m.present[n] ==> Captured(c.nvme[n] != "", c.nvme[n], i.nvme[n], "on"))
    && (c.smu.stapm != 0 && c.smu.tctl != 0 ==>
          && c.smu.tctl == i.smu.tctl && c.smu.stapm == i.smu.stapm
          && Captured(c.smu.fast != 0, c.smu.fast, i.smu.fast, RAISED.fast)
          && Captured(c.smu.slow != 0, c.smu.slow, i.smu.slow, RAISED.slow)
          && Captured(apuSlow != 0, apuSlow, i.smu.apuSlow, RAISED.apuSlow))
    && Captured(c.audio.powerSave >= 0, c.audio.powerSave, i.audio.powerSave, ULTRA_AUDIO.powerSave)
    && Captured(c.audio.controller != "", c.audio.controller, i.audio.controller, ULTRA_AUDIO.controller)
  }

  lemma NvmeWritesBack(m: Machine)
    ensures NvmeRestored(m.present, NvmeWritten(m.present, m.initial.nvme, "on"), m.captured.nvme) == m.initial.nvme
            <==> forall n :: 0 <= n < CONTROLLERS && m.present[n] ==>
                   Captured(m.captured.nvme[n] != "", m.captured.nvme[n], m.initial.nvme[n], "on")
  {
    var r := NvmeRestored(m.present, NvmeWritten(m.present, m.initial.nvme, "on"), m.captured.nvme);
    forall n | 0 <= n < CONTROLLERS
      ensures r[n] == m.initial.nvme[n] <==>
              (m.present[n] ==> Captured(m.captured.nvme[n] != "", m.captured.nvme[n], m.initial.nvme[n], "on"))
    {
    }
    assert r == m.initial.nvme <==> forall n :: 0 <= n < CONTROLLERS ==> r[n] == m.initial.nvme[n];
  }

  lemma CompleteWritesBack(m: Machine)
    ensures Complete(m) <==> WritesBack(m)
  {
    NvmeWritesBack(m);
  }

  /** What each knob holds under a profile, from the baseline alone. */
  function Target(m: Machine, mode: Latch.Profile): Knobs {
    var i := m.initial;
    var unleashed := mode == Latch.Performance;
    Knobs(if unleashed then 1 else i.gpuMode,
          if unleashed then 0 else i.apst,
          if unleashed then NvmeWritten(m.present, i.nvme, "on") else i.nvme,
          if unleashed then 5000000 else i.migration,
          if (unleashed || mode == Latch.Balanced) && CanRaise(m, true) then RAISED else i.smu,
          if mode == Latch.UltraEndurance then ULTRA_VM else i.vm,
          if mode == Latch.UltraEndurance then ULTRA_AUDIO else i.audio)
  }

  /** A clear flag means the knob is at its baseline, a set one that it holds what the daemon wrote. */
  ghost predicate Inv(m: Machine, s: State) {
    var k, f, i := s.knobs, s.flags, m.initial;
    && k.gpuMode == (if f.gpu then 1 else i.gpuMode)
    && k.apst == (if f.apst then 0 else i.apst)
    && k.nvme == (if f.nvme then NvmeWritten(m.present, i.nvme, "on") else i.nvme)
    && k.migration == (if f.migration then 5000000 else i.migration)
    && k.smu == (if f.smu then RAISED else i.smu)
    && (f.smu ==> CanRaise(m, true))
    && k.vm == (if f.vm then ULTRA_VM else i.vm)
    && k.audio == (if f.audio then ULTRA_AUDIO else i.audio)
  }

  lemma ReleaseKeepsInv(m: Machine, s: State, tool: bool)
    requires WritesBack(m) && Inv(m, s)
    ensures var r := Release(m, s, tool);
            && Inv(m, r)
            && !r.flags.gpu && !r.flags.apst && !r.flags.nvme && !r.flags.migration
            && (tool ==> !r.flags.smu) && r.flags.vm == s.flags.vm && r.flags.audio == s.flags.audio
  {
  }

  lemma UnleashKeepsInv(m: Machine, s: State, tool: bool)
    requires WritesBack(m) && Inv(m, s)
    ensures var u := Unleash(m, s, tool);
            && Inv(m, u) && u.flags.vm == s.flags.vm && u.flags.audio == s.flags.audio
            && u.flags.gpu && u.flags.apst && u.flags.nvme == (s.flags.nvme || AnyPresent(m)) && u.flags.migration
            && (CanRaise(m, tool) ==> u.flags.smu)
  {
  }

  lemma RaiseKeepsInv(m: Machine, s: State, tool: bool)
    requires Inv(m, s)
    ensures var r := Raise(m, s, tool);
            Inv(m, r) && r.flags == s.flags.(smu := s.flags.smu || CanRaise(m, tool))
  {
  }

  lemma TidyKeepsInv(m: Machine, s: State)
    requires WritesBack(m) && Inv(m, s)
    ensures var r := RestoreAudio(m, RestoreVm(m, s));
            Inv(m, r) && r.flags == s.flags.(vm := false, audio := false)
  {
  }

  /** The flags a profile leaves behind. */
  ghost predicate FlagsOf(m: Machine, mode: Latch.Profile, f: Flags) {
    var unleashed, ultra := mode == Latch.Performance, mode == Latch.UltraEndurance;
    && f.gpu == unleashed && f.apst == unleashed && f.migration == unleashed
    && (unleashed && AnyPresent(m) ==> f.nvme) && (!unleashed ==> !f.nvme)
    && f.smu == ((unleashed || mode == Latch.Balanced) && CanRaise(m, true))
    && f.vm == ultra && f.audio == ultra
  }

  lemma FlagsDecide(m: Machine, s: State, mode: Latch.Profile)
    requires Inv(m, s) && FlagsOf(m, mode, s.flags)
    ensures s.knobs == Target(m, mode)
  {
  }

  lemma ApplyKeepsInv(m: Machine, s: State, mode: Latch.Profile, tool: bool)
    requires Complete(m) && Inv(m, s)
    ensures Inv(m, Apply(m, s, mode, tool))
    ensures tool ==> Apply(m, s, mode, tool).knobs == Target(m, mode)
  {
    CompleteWritesBack(m);
    ApplyFlags(m, s, mode, tool);
    if tool {
      FlagsDecide(m, Apply(m, s, mode, tool), mode);
    }
  }

  lemma ApplyFlags(m: Machine, s: State, mode: Latch.Profile, tool: bool)
    requires WritesBack(m) && Inv(m, s)
    ensures Inv(m, Apply(m, s, mode, tool))
    ensures tool ==> FlagsOf(m, mode, Apply(m, s, mode, tool).flags)
  {
    match mode {
      case Performance =>
        UnleashKeepsInv(m, s, tool);
        TidyKeepsInv(m, Unleash(m, s, tool));
      case Balanced =>
        ReleaseKeepsInv(m, s, tool);
        RaiseKeepsInv(m, Release(m, s, tool), tool);
        TidyKeepsInv(m, Raise(m, Release(m, s, tool), tool));
      case PowerSaver =>
        ReleaseKeepsInv(m, s, tool);
        TidyKeepsInv(m, Release(m, s, tool));
      case UltraEndurance =>
        ReleaseKeepsInv(m, s, tool);
    }
  }

  /** Over every history, with the tool coming and going. */
  lemma {:induction false} HistoryKeepsInv(m: Machine, history: seq<Applied>)
    requires Complete(m)
    ensures Inv(m, After(m, history))
    decreases |history|
  {
    if history != [] {
      var last := history[|history| - 1];
      HistoryKeepsInv(m, history[..|history| - 1]);
      ApplyKeepsInv(m, After(m, history[..|history| - 1]), last.mode, last.tool);
    }
  }

  ghost predicate DependsOnLastOnly(m: Machine) {
    forall history: seq<Applied> :: history != [] && history[|history| - 1].tool ==>
      After(m, history).knobs == Target(m, history[|history| - 1].mode)
  }

  lemma AfterTwo(m: Machine, first: Latch.Profile, second: Latch.Profile)
    ensures After(m, [Applied(first, true), Applied(second, true)])
            == Apply(m, Apply(m, Start(m), first, true), second, true)
  {
    var history := [Applied(first, true), Applied(second, true)];
    var once := [Applied(first, true)];
    assert history[..|history| - 1] == once;
    assert once[..|once| - 1] == [];
    assert After(m, once) == Apply(m, Start(m), first, true);
    assert history[|history| - 1] == Applied(second, true);
    assert After(m, history) == Apply(m, After(m, once), second, true);
  }

  /**
   Every knob depends only on the profile last applied and the baseline, whatever came before,
   exactly when each value a profile overwrites was captured well enough to be written back.
   */
  lemma LastProfileDecidesExactlyWhen(m: Machine)
    ensures DependsOnLastOnly(m) <==> Complete(m)
  {
    if Complete(m) {
      forall history: seq<Applied> | history != [] && history[|history| - 1].tool
        ensures After(m, history).knobs == Target(m, history[|history| - 1].mode)
      {
        var before := After(m, history[..|history| - 1]);
        HistoryKeepsInv(m, history[..|history| - 1]);
        ApplyKeepsInv(m, before, history[|history| - 1].mode, true);
      }
    }
    if DependsOnLastOnly(m) {
      RestoresWitnessed(m);
      CompleteWritesBack(m);
    }
  }

  /** Unleashing once and saving again leaves each knob at what its restore writes. */
  lemma UnleashThenSave(m: Machine)
    ensures var k := Apply(m, Apply(m, Start(m), Latch.Performance, true), Latch.PowerSaver, true).knobs;
            && k.gpuMode == GpuRestored(m.captured.gpuMode)
            && k.apst == m.captured.apst && k.migration == m.captured.migration
            && k.nvme == NvmeRestored(m.present, NvmeWritten(m.present, m.initial.nvme, "on"), m.captured.nvme)
            && (CanRaise(m, true) ==> k.smu == SmuRestored(m.captured.smu, RAISED))
  {
  }

  lemma UltraThenSave(m: Machine)
    ensures var k := Apply(m, Apply(m, Start(m), Latch.UltraEndurance, true), Latch.PowerSaver, true).knobs;
            k.vm == m.captured.vm && k.audio == AudioRestored(m.captured.audio, ULTRA_AUDIO)
  {
  }

  lemma RestoresWitnessed(m: Machine)
    requires DependsOnLastOnly(m)
    ensures WritesBack(m)
  {
    var unleashed := [Applied(Latch.Performance, true), Applied(Latch.PowerSaver, true)];
    AfterTwo(m, Latch.Performance, Latch.PowerSaver);
    UnleashThenSave(m);
    assert After(m, unleashed).knobs == Target(m, Latch.PowerSaver);
    var ultra := [Applied(Latch.UltraEndurance, true), Applied(Latch.PowerSaver, true)];
    AfterTwo(m, Latch.UltraEndurance, Latch.PowerSaver);
    UltraThenSave(m);
    assert After(m, ultra).knobs == Target(m, Latch.PowerSaver);
  }

  /** Restoring the baseline undoes every history and leaves no flag behind. */
  lemma BaselineRestoresEverything(m: Machine, history: seq<Applied>)
    requires Complete(m)
    ensures RestoreBaseline(m, After(m, history), true) == Start(m)
  {
    var s := After(m, history);
    CompleteWritesBack(m);
    HistoryKeepsInv(m, history);
    var t := RestoreAudio(m, RestoreVm(m, s));
    TidyKeepsInv(m, s);
    ReleaseKeepsInv(m, t, true);
    AllClear(m, Release(m, t, true));
  }

  lemma AllClear(m: Machine, s: State)
    requires Inv(m, s) && s.flags == CLEAR
    ensures s == Start(m)
  {
  }

  ghost predicate AlwaysRestored(m: Machine) {
    forall history: seq<Applied> :: RestoreBaseline(m, After(m, history), true) == Start(m)
  }

  lemma AfterOne(m: Machine, mode: Latch.Profile)
    ensures After(m, [Applied(mode, true)]) == Apply(m, Start(m), mode, true)
  {
    assert [Applied(mode, true)][..0] == [];
  }

  /** What the restore makes of a single unleash, and of a single endurance profile. */
  lemma UnleashThenRestore(m: Machine)
    ensures var k := RestoreBaseline(m, Apply(m, Start(m), Latch.Performance, true), true).knobs;
            && k.gpuMode == GpuRestored(m.captured.gpuMode)
            && k.apst == m.captured.apst && k.migration == m.captured.migration
            && (AnyPresent(m) ==>
                  k.nvme == NvmeRestored(m.present, NvmeWritten(m.present, m.initial.nvme, "on"), m.captured.nvme))
            && (CanRaise(m, true) ==> k.smu == SmuRestored(m.captured.smu, RAISED))
  {
  }

  lemma UltraThenRestore(m: Machine)
    ensures var k := RestoreBaseline(m, Apply(m, Start(m), Latch.UltraEndurance, true), true).knobs;
            k.vm == m.captured.vm && k.audio == AudioRestored(m.captured.audio, ULTRA_AUDIO)
  {
  }

  lemma NothingPresent(m: Machine)
    requires !AnyPresent(m)
    ensures NvmeRestored(m.present, NvmeWritten(m.present, m.initial.nvme, "on"), m.captured.nvme) == m.initial.nvme
  {
  }

  /** The baseline comes back after every history exactly when every overwritten value was captured. */
  lemma BaselineRestoresExactlyWhen(m: Machine)
    ensures AlwaysRestored(m) <==> Complete(m)
  {
    if Complete(m) {
      forall history: seq<Applied>
        ensures RestoreBaseline(m, After(m, history), true) == Start(m)
      {
        BaselineRestoresEverything(m, history);
      }
    }
    if AlwaysRestored(m) {
      CompleteWritesBack(m);
      AfterOne(m, Latch.Performance);
      AfterOne(m, Latch.UltraEndurance);
      assert RestoreBaseline(m, After(m, [Applied(Latch.Performance, true)]), true) == Start(m);
      assert RestoreBaseline(m, After(m, [Applied(Latch.UltraEndurance, true)]), true) == Start(m);
      UnleashThenRestore(m);
      UltraThenRestore(m);
      if !AnyPresent(m) {
        NothingPresent(m);
      }
    }
  }

  /** An SMU row that was not read stays raised after the first unleash. */
  lemma UncapturedRowStaysRaised(m: Machine)
    requires CanRaise(m, true) && m.captured.smu.fast == 0
    ensures After(m, [Applied(Latch.Performance, true), Applied(Latch.PowerSaver, true)]).knobs.smu.fast == RAISED.fast
  {
  }

  // ------------------------------------------------------------------ the engine

  class MitigationEngine {
    const machine: Machine
    var knobs: Knobs
    var flags: Flags

    ghost function Now(): State
      reads this
    {
      State(knobs, flags)
    }

    constructor (machine: Machine)
      ensures this.machine == machine && Now() == Start(machine)
    {
      this.machine := machine;
      knobs := machine.initial;
      flags := CLEAR;
    }

    /** An empty value is refused; any other is written to every controller that is there. */
    method SetNvmePowerControl(value: string) returns (actuated: bool)
      modifies this
      ensures actuated <==> value != "" && AnyPresent(machine)
      ensures value == "" ==> Now() == old(Now())
      ensures value != "" ==> knobs == old(knobs).(nvme := NvmeWritten(machine.present, old(knobs).nvme, value))
      ensures flags == old(flags).(nvme := old(flags).nvme || actuated)
    {
      actuated := false;
      if value == "" {
        return;
      }
      var nvme: Controls := knobs.nvme;
      for i := 0 to CONTROLLERS
        invariant knobs == old(knobs) && flags == old(flags)
        invariant forall j :: 0 <= j < i ==> nvme[j] == NvmeWritten(machine.present, knobs.nvme, value)[j]
        invariant forall j :: i <= j < CONTROLLERS ==> nvme[j] == knobs.nvme[j]
        invariant actuated <==> exists j :: 0 <= j < i && machine.present[j]
      {
        if machine.present[i] {
          nvme := nvme[i := value];
          actuated := true;
        }
      }
      assert nvme == NvmeWritten(machine.present, knobs.nvme, value);
      knobs := knobs.(nvme := nvme);
      if actuated {
        flags := flags.(nvme := true);
      }
    }

    method RestoreNvmePowerControl()
      modifies this
      ensures Now() == RestoreNvme(machine, old(Now()))
    {
      if !flags.nvme {
        return;
      }
      var nvme: Controls := knobs.nvme;
      for i := 0 to CONTROLLERS
        invariant knobs == old(knobs) && flags == old(flags)
        invariant forall j :: 0 <= j < i ==>
            nvme[j] == NvmeRestored(machine.present, knobs.nvme, machine.captured.nvme)[j]
        invariant forall j :: i <= j < CONTROLLERS ==> nvme[j] == knobs.nvme[j]
      {
        if machine.captured.nvme[i] != "" && machine.present[i] {
          nvme := nvme[i := machine.captured.nvme[i]];
        }
      }
      assert nvme == NvmeRestored(machine.present, knobs.nvme, machine.captured.nvme);
      knobs := knobs.(nvme := nvme);
      flags := flags.(nvme := false);
    }

    method ApplySmuPerformanceLimits(tool: bool)
      modifies this
      ensures Now() == Raise(machine, old(Now()), tool)
    {
      if !tool || machine.captured.smu.stapm == 0 || machine.captured.smu.tctl == 0 {
        return;
      }
      knobs := knobs.(smu := RAISED);
      flags := flags.(smu := true);
    }

    method RestoreSmuLimits(tool: bool)
      modifies this
      ensures Now() == RestoreSmu(machine, old(Now()), tool)
    {
      if !flags.smu || !tool {
        return;
      }
      var c := machine.captured.smu;
      if c.stapm == 0 || c.tctl == 0 {
        flags := flags.(smu := false);
        return;
      }
      var apuSlow := if c.apuSlow != 0 then c.apuSlow else c.slow;
      var smu := knobs.smu.(tctl := c.tctl);
      if c.stapm != 0 { smu := smu.(stapm := c.stapm); }
      if c.fast != 0 { smu := smu.(fast := c.fast); }
      if c.slow != 0 { smu := smu.(slow := c.slow); }
      if apuSlow != 0 { smu := smu.(apuSlow := apuSlow); }
      knobs := knobs.(smu := smu);
      flags := flags.(smu := false);
    }

    method RestoreGpuPowerProfileMode()
      modifies this
      ensures Now() == RestoreGpu(machine, old(Now()))
    {
      if flags.gpu {
        knobs := knobs.(gpuMode := if machine.captured.gpuMode >= 0 then machine.captured.gpuMode else 0);
        flags := flags.(gpu := false);
      }
    }

    method RestoreNvmeApst()
      modifies this
      ensures Now() == RestoreApst(machine, RestoreNvme(machine, old(Now())))
    {
      RestoreNvmePowerControl();
      if flags.apst {
        knobs := knobs.(apst := machine.captured.apst);
        flags := flags.(apst := false);
      }
    }

    method RestoreSchedMigrationCost()
      modifies this
      ensures Now() == RestoreMigration(machine, old(Now()))
    {
      if flags.migration {
        knobs := knobs.(migration := machine.captured.migration);
        flags := flags.(migration := false);
      }
    }

    method ReleasePerformanceUnleash(tool: bool)
      modifies this
      ensures Now() == Release(machine, old(Now()), tool)
    {
      RestoreGpuPowerProfileMode();
      RestoreNvmeApst();
      RestoreSchedMigrationCost();
      RestoreSmuLimits(tool);
    }

    method RestoreEndurance()
      modifies this
      ensures Now() == RestoreAudio(machine, RestoreVm(machine, old(Now())))
    {
      if flags.vm {
        knobs := knobs.(vm := machine.captured.vm);
        flags := flags.(vm := false);
      }
      if flags.audio {
        var c := machine.captured.audio;
        if c.powerSave >= 0 {
          knobs := knobs.(audio := knobs.audio.(powerSave := c.powerSave));
        }
        if c.controller != "" {
          knobs := knobs.(audio := knobs.audio.(controller := c.controller));
        }
        flags := flags.(audio := false);
      }
    }

    method ApplyPowerProfile(mode: Latch.Profile, tool: bool)
      modifies this
      ensures Now() == Apply(machine, old(Now()), mode, tool)
    {
      match mode {
        case Performance =>
          knobs := knobs.(gpuMode := 1, apst := 0);
          flags := flags.(gpu := true, apst := true);
          var actuated := SetNvmePowerControl("on");
          knobs := knobs.(migration := 5000000);
          flags := flags.(migration := true);
          ApplySmuPerformanceLimits(tool);
          RestoreEndurance();
        case Balanced =>
          ReleasePerformanceUnleash(tool);
          ApplySmuPerformanceLimits(tool);
          RestoreEndurance();
        case PowerSaver =>
          ReleasePerformanceUnleash(tool);
          RestoreEndurance();
        case UltraEndurance =>
          ReleasePerformanceUnleash(tool);
          knobs := knobs.(vm := Vm(1500, 3000, 2), audio := Audio(10, "Y"));
          flags := flags.(vm := true, audio := true);
      }
    }

    method RestoreHardwareBaseline(tool: bool)
      modifies this
      ensures Now() == RestoreBaseline(machine, old(Now()), tool)
    {
      RestoreEndurance();
      ReleasePerformanceUnleash(tool);
    }
  }
}
