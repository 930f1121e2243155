/**
 The battery ladder over the user's power profile: each threshold demotes at most once per
 discharge, re-arming five percent above itself or on AC; at five percent the floor is absolute.
 */
module ProfileLatch {
  import opened Options

  datatype Profile = Performance | Balanced | PowerSaver | UltraEndurance

  datatype Latch = Latch(crossed30: bool, crossed20: bool)

  /** Position towards saving. */
  function Rank(p: Profile): nat {
    match p
    case Performance => 0
    case Balanced => 1
    case PowerSaver => 2
    case UltraEndurance => 3
  }

  function Rearm(latch: Latch, onBattery: bool, pct: real): Latch {
    Latch(if !onBattery || pct > 35.0 then false else latch.crossed30,
          if !onBattery || pct > 25.0 then false else latch.crossed20)
  }

  function Resolve(current: Profile, onBattery: bool, pct: real, latch: Latch): (Profile, Latch) {
    var l := Rearm(latch, onBattery, pct);
    if !onBattery then (current, l)
    else if pct <= 5.0 then (UltraEndurance, l)
    else
      var l20 := if pct <= 20.0 && !l.crossed20 then Latch(true, true) else l;
      if l20 != l && Rank(current) < Rank(PowerSaver) then (PowerSaver, l20)
      else if pct <= 30.0 && !l20.crossed30 then
        (if current == Performance then Balanced else current, l20.(crossed30 := true))
      else (current, l20)
  }

  method ResolveProfile(current: Profile, onBattery: bool, pct: real, latch: Latch) returns (p: Profile, l: Latch)
    ensures (p, l) == Resolve(current, onBattery, pct, latch)
  {
    l := latch;
    if !onBattery || pct > 35.0 { l := l.(crossed30 := false); }
    if !onBattery || pct > 25.0 { l := l.(crossed20 := false); }
    if !onBattery {
      return current, l;
    }
    if pct <= 5.0 {
      return UltraEndurance, l;
    }
    if pct <= 20.0 && !l.crossed20 {
      l := Latch(true, true);
      if Rank(current) < Rank(PowerSaver) {
        return PowerSaver, l;
      }
    }
    if pct <= 30.0 && !l.crossed30 {
      l := l.(crossed30 := true);
      if current == Performance {
        return Balanced, l;
      }
    }
    return current, l;
  }

  // ------------------------------------------------------------------ the policy owner over a run

  /** The user's selection, if any; without one every cycle starts from Balanced. */
  datatype State = State(selected: Option<Profile>, latch: Latch)

  datatype Event =
    | Select(choice: Option<Profile>)
    | Cycle(onBattery: bool, pct: real)

  function Baseline(s: State): Profile {
    if s.selected.Some? then s.selected.value else Balanced
  }

  function Effective(s: State, e: Event): Profile
    requires e.Cycle?
  {
    Resolve(Baseline(s), e.onBattery, e.pct, s.latch).0
  }

  function Step(s: State, e: Event): State {
    match e
    case Select(choice) => s.(selected := choice)
    case Cycle(onBattery, pct) =>
      State(if s.selected.Some? then Some(Effective(s, e)) else None,
            Resolve(Baseline(s), onBattery, pct, s.latch).1)
  }

  function Run(s: State, events: seq<Event>): State
    decreases |events|
  {
    if events == [] then s else Run(Step(s, events[0]), events[1..])
  }

  class ProfileOwner {
    var selected: Option<Profile>
    var latch: Latch

    ghost function Now(): State
      reads this
    {
      State(selected, latch)
    }

    constructor ()
      ensures Now() == State(None, Latch(false, false))
    {
      selected := None;
      latch := Latch(false, false);
    }

    method SetOverride(choice: Option<Profile>)
      modifies this
      ensures Now() == Step(old(Now()), Select(choice))
    {
      selected := choice;
    }

    method Evaluate(onBattery: bool, pct: real) returns (effective: Profile)
      modifies this
      ensures effective == Effective(old(Now()), Cycle(onBattery, pct))
      ensures Now() == Step(old(Now()), Cycle(onBattery, pct))
    {
      var current := match selected case Some(p) => p case None => Balanced;
      effective, latch := ResolveProfile(current, onBattery, pct, latch);
      if selected.Some? && effective != selected.value {
        selected := Some(effective);
      }
    }
  }

  // ------------------------------------------------------------------ safety over every run

  ghost predicate Ordered(l: Latch) {
    l.crossed20 ==> l.crossed30
  }

  /** Whatever the user and the battery do, the 20% crossing implies the 30% one. */
  lemma {:induction false} CrossingsStayOrdered(s: State, events: seq<Event>)
    requires Ordered(s.latch)
    ensures Ordered(Run(s, events).latch)
    decreases |events|
  {
    if events != [] {
      CrossingsStayOrdered(Step(s, events[0]), events[1..]);
    }
  }

  /** A cycle only ever moves towards saving, stays put on AC and pins the floor. */
  lemma CycleMovesTowardsSaving(s: State, onBattery: bool, pct: real)
    ensures var e := Cycle(onBattery, pct);
            && Rank(Effective(s, e)) >= Rank(Baseline(s))
            && (!onBattery ==> Effective(s, e) == Baseline(s) && Step(s, e).latch == Latch(false, false))
            && (onBattery && pct <= 5.0 ==> Effective(s, e) == UltraEndurance)
            && (s.selected.Some? ==> Step(s, e).selected == Some(Effective(s, e)))
  {
  }

  /** The automatic changes of a run: cycles whose outcome is not the profile they started from. */
  function Changes(s: State, events: seq<Event>): nat
    decreases |events|
  {
    if events == [] then 0
    else
      (if events[0].Cycle? && Effective(s, events[0]) != Baseline(s) then 1 else 0)
          + Changes(Step(s, events[0]), events[1..])
  }

  ghost predicate Discharging(events: seq<Event>) {
    forall i :: 0 <= i < |events| && events[i].Cycle? ==> events[i].onBattery && 5.0 < events[i].pct <= 25.0
  }

  /** Thresholds still armed. */
  function Armed(l: Latch): nat {
    (if l.crossed30 then 0 else 1) + (if l.crossed20 then 0 else 1)
  }

  lemma ChangeDisarms(s: State, e: Event)
    requires e.Cycle? && e.onBattery && 5.0 < e.pct <= 25.0
    ensures Armed(Step(s, e).latch) <= Armed(s.latch)
    ensures Effective(s, e) != Baseline(s) ==> Armed(Step(s, e).latch) < Armed(s.latch)
  {
  }

  /** On battery between 5 and 25 percent, however often the user reselects: one change per armed threshold. */
  lemma {:induction false} AtMostTwoChanges(s: State, events: seq<Event>)
    requires Discharging(events)
    ensures Changes(s, events) <= Armed(s.latch) <= 2
    decreases |events|
  {
    if events != [] {
      if events[0].Cycle? {
        ChangeDisarms(s, events[0]);
      }
      AtMostTwoChanges(Step(s, events[0]), events[1..]);
    }
  }

  /** Monotone over a whole stretch of cycles without user action, once a profile is selected. */
  lemma {:induction false} SelectedProfileOnlySaves(s: State, events: seq<Event>)
    requires s.selected.Some? && forall i :: 0 <= i < |events| ==> events[i].Cycle?
    ensures Run(s, events).selected.Some?
    ensures Rank(Run(s, events).selected.value) >= Rank(s.selected.value)
    decreases |events|
  {
    if events != [] {
      CycleMovesTowardsSaving(s, events[0].onBattery, events[0].pct);
      SelectedProfileOnlySaves(Step(s, events[0]), events[1..]);
    }
  }

  /**
   The outcome of a cycle survives the next one, whatever that reads, exactly when the user has a
   selection or the cycle demotes nothing: on AC, or above the floor and either above 20 percent or
   with that threshold already crossed.
   */
  lemma DemotionPersistsExactlyWhen(s: State, e: Event)
    requires e.Cycle?
    ensures (forall f: Event :: f.Cycle? ==> Rank(Effective(Step(s, e), f)) >= Rank(Effective(s, e)))
            <==> s.selected.Some? || !e.onBattery || (e.pct > 5.0 && (e.pct > 20.0 || s.latch.crossed20))
  {
    assert s.selected.None? ==>
        (Effective(s, e) == Balanced <==> !e.onBattery || (e.pct > 5.0 && (e.pct > 20.0 || s.latch.crossed20)));
    if s.selected.Some? || Effective(s, e) == Balanced {
      forall f: Event | f.Cycle?
        ensures Rank(Effective(Step(s, e), f)) >= Rank(Effective(s, e))
      {
        CycleMovesTowardsSaving(Step(s, e), f.onBattery, f.pct);
      }
    } else {
      CycleMovesTowardsSaving(s, e.onBattery, e.pct);
      var f := Cycle(false, 100.0);
      assert Effective(Step(s, e), f) == Balanced;
      assert Rank(Effective(s, e)) > Rank(Balanced);
    }
  }

  /** The undone demotion on battery: 20% moves to PowerSaver, the very same reading moves back. */
  lemma UnselectedDemotionIsUndone()
    ensures var s := State(None, Latch(false, false));
            var e := Cycle(true, 20.0);
            Effective(s, e) == PowerSaver && Effective(Step(s, e), e) == Balanced
  {
  }
}
