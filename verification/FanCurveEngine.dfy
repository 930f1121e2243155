/**
 The engine that owns the four profile curves, their lookup mirrors and their text form.
 */
module FanCurves {
  import opened FanDips
  import opened FanSpline
  import opened FanText

  datatype ProfileFanCurve = ProfileFanCurve(points: seq<Point>, levels: seq<nat>, pcts: seq<real>, isCustom: bool)

  /** A curve whose tables are the ones computed from its points; only profile 3 may stop the fan. */
  function MakeCurve(p: nat, points: seq<Point>, tau: real -> real, isCustom: bool): ProfileFanCurve
    requires |points| >= 2
  {
    ProfileFanCurve(points, LevelTable(points, tau, p == 3), PctTable(points, tau), isCustom)
  }

  ghost predicate Normalised(points: seq<Point>) {
    && MIN_POINTS <= |points| <= MAX_POINTS
    && TempsSorted(points)
    && (forall i :: 0 <= i < |points| ==> MIN_TEMP <= points[i].temp <= MAX_TEMP && 0.0 <= points[i].speed <= 100.0)
    && points[0].temp == MIN_TEMP && points[|points| - 1] == Point(MAX_TEMP, 100.0)
  }

  predicate StrictTemps(points: seq<Point>) {
    forall i :: 0 < i < |points| ==> points[i - 1].temp < points[i].temp
  }

  function ClampPoint(pt: Point): Point {
    Point(Clamp(pt.temp, MIN_TEMP, MAX_TEMP), Clamp(pt.speed, 0.0, 100.0))
  }

  /** Clamped into range, then pinned to span the whole range and end at full speed. */
  function Normalise(points: seq<Point>): (r: seq<Point>)
    requires |points| >= 2
    ensures |r| == |points|
  {
    var n := |points|;
    seq(n, i requires 0 <= i < n =>
      if i == n - 1 then Point(MAX_TEMP, 100.0)
      else Point(if i == 0 then MIN_TEMP else ClampPoint(points[i]).temp, ClampPoint(points[i]).speed))
  }

  lemma {:induction false} StrictTempsOrdered(points: seq<Point>, i: nat, j: nat)
    requires StrictTemps(points) && i < j < |points|
    ensures points[i].temp < points[j].temp
    decreases j - i
  {
    if i + 1 < j { StrictTempsOrdered(points, i, j - 1); }
  }

  /** Accepted points are normalised to a curve that spans the range, even when clamping merges temperatures. */
  lemma NormaliseNormalises(points: seq<Point>)
    requires StrictTemps(points) && MIN_POINTS <= |points| <= MAX_POINTS
    ensures Normalised(Normalise(points))
  {
    forall i, j | 0 <= i < j < |points| ensures Normalise(points)[i].temp <= Normalise(points)[j].temp {
      StrictTempsOrdered(points, i, j);
    }
  }

  /** Non-decreasing speeds survive normalisation, so accepted curves get the spline guarantees. */
  lemma NormaliseKeepsRise(points: seq<Point>)
    requires |points| >= 2 && SpeedsRise(points)
    ensures SpeedsRise(Normalise(points))
  {
  }

  lemma NormaliseFixes(points: seq<Point>)
    requires Normalised(points)
    ensures Normalise(points) == points
  {
  }

  // ------------------------------------------------------------------ queries

  /** The level a running daemon reads for a temperature. */
  function LevelFor(levels: seq<nat>, temp: real): nat
    requires |levels| == TABLE_SIZE
  {
    if temp <= 0.0 then 0
    else if temp >= MAX_TEMP then FULL_SPEED
    else if temp <= MIN_TEMP then levels[0]
    else levels[temp.Floor - 30]
  }

  function PctFor(pcts: seq<real>, temp: real): real
    requires |pcts| == TABLE_SIZE
  {
    if temp <= 0.0 then 0.0
    else if temp >= MAX_TEMP then 100.0
    else if temp <= MIN_TEMP then pcts[0]
    else pcts[temp.Floor - 30]
  }

  function Cellwise(temp: real): (t: nat)
    requires temp > 0.0
    ensures t < TABLE_SIZE
  {
    if temp >= MAX_TEMP then TABLE_SIZE - 1 else if temp <= MIN_TEMP then 0 else temp.Floor - 30
  }

  /** The runtime queries never fall as the temperature rises, and saturate at 70 degrees. */
  lemma RuntimeMonotone(p: nat, points: seq<Point>, tau: real -> real, custom: bool, t1: real, t2: real)
    requires LimiterScale(tau) && SpeedsRise(points) && |points| >= 2 && t1 <= t2
    ensures var c := MakeCurve(p, points, tau, custom);
            && LevelFor(c.levels, t1) <= LevelFor(c.levels, t2) <= FULL_SPEED
            && 0.0 <= PctFor(c.pcts, t1) <= PctFor(c.pcts, t2) <= 100.0
            && (t2 >= MAX_TEMP ==> LevelFor(c.levels, t2) == FULL_SPEED && PctFor(c.pcts, t2) == 100.0)
            && (p != 3 && t1 > 0.0 ==> LevelFor(c.levels, t1) >= 1)
  {
    var c := MakeCurve(p, points, tau, custom);
    if t2 > 0.0 {
      QueriesAreCells(c, t2);
      LevelTableMonotone(points, tau, p == 3, Cellwise(t2), TABLE_SIZE - 1);
      PctTableMonotone(points, tau, Cellwise(t2), TABLE_SIZE - 1);
    }
    if t1 > 0.0 {
      QueriesAreCells(c, t1);
      LevelTableMonotone(points, tau, p == 3, Cellwise(t1), Cellwise(t2));
      PctTableMonotone(points, tau, Cellwise(t1), Cellwise(t2));
    }
  }

  lemma QueriesAreCells(c: ProfileFanCurve, temp: real)
    requires |c.levels| == |c.pcts| == TABLE_SIZE && temp > 0.0
    requires c.levels[TABLE_SIZE - 1] == FULL_SPEED && c.pcts[TABLE_SIZE - 1] == 100.0
    ensures LevelFor(c.levels, temp) == c.levels[Cellwise(temp)] && PctFor(c.pcts, temp) == c.pcts[Cellwise(temp)]
  {
  }

  /** The runtime queries inside one interval that is not spoiled. */
  lemma QueriesFollow(p: nat, points: seq<Point>, tau: real -> real, custom: bool, t1: real, t2: real)
    requires LimiterScale(tau) && Normalised(points) && 0.0 < t1 <= t2 < MAX_TEMP
    requires IntervalOf(points, Cellwise(t1)) == IntervalOf(points, Cellwise(t2))
    requires Unspoiled(points, tau, IntervalOf(points, Cellwise(t1)))
    ensures var c, up := MakeCurve(p, points, tau, custom), Secant(points, IntervalOf(points, Cellwise(t1))) >= 0.0;
            && (up ==> LevelFor(c.levels, t1) <= LevelFor(c.levels, t2) && PctFor(c.pcts, t1) <= PctFor(c.pcts, t2))
            && (!up ==> LevelFor(c.levels, t1) >= LevelFor(c.levels, t2) && PctFor(c.pcts, t1) >= PctFor(c.pcts, t2))
  {
    var c := MakeCurve(p, points, tau, custom);
    var k1, k2 := Cellwise(t1), Cellwise(t2);
    QueriesAreCells(c, t1);
    QueriesAreCells(c, t2);
    CellsFollow(points, tau, k1, k2);
    if Secant(points, IntervalOf(points, k1)) >= 0.0 {
      LevelOfMonotone(TablePct(points, tau, k1), TablePct(points, tau, k2), p == 3);
    } else {
      LevelOfMonotone(TablePct(points, tau, k2), TablePct(points, tau, k1), p == 3);
    }
  }

  // ------------------------------------------------------------------ text

  function ApplyUpdate(curves: seq<ProfileFanCurve>, u: Update, tau: real -> real): (r: seq<ProfileFanCurve>)
    requires |curves| == 4 && u.prof <= 3 && |u.points| >= 2
    ensures |r| == 4
  {
    if StrictTemps(u.points) then curves[u.prof := MakeCurve(u.prof, Normalise(u.points), tau, u.custom)] else curves
  }

  ghost predicate Applicable(us: seq<Update>) {
    forall i :: 0 <= i < |us| ==> us[i].prof <= 3 && MIN_POINTS <= |us[i].points| <= MAX_POINTS
  }

  function ApplyAll(curves: seq<ProfileFanCurve>, us: seq<Update>, tau: real -> real): (r: seq<ProfileFanCurve>)
    requires |curves| == 4 && Applicable(us)
    ensures |r| == 4
    decreases |us|
  {
    if us == [] then curves else ApplyAll(ApplyUpdate(curves, us[0], tau), us[1..], tau)
  }

  function AcceptedCount(us: seq<Update>): nat {
    if us == [] then 0 else (if StrictTemps(us[0].points) then 1 else 0) + AcceptedCount(us[1..])
  }

  function ReadViews(s: string): seq<LineView> {
    Views(SplitLines(s))
  }

  lemma MapLinesStep(view: string -> LineView, lines: seq<string>)
    requires lines != []
    ensures MapLines(view, lines)[1..] == MapLines(view, lines[1..])
  {
  }

  lemma MapLinesConcat(view: string -> LineView, a: seq<string>, b: seq<string>)
    ensures MapLines(view, a + b) == MapLines(view, a) + MapLines(view, b)
  {
  }

  ghost predicate CurvesNormalised(curves: seq<ProfileFanCurve>, tau: real -> real) {
    && |curves| == 4
    && forall p :: 0 <= p < 4 ==>
        Normalised(curves[p].points) && curves[p] == MakeCurve(p, curves[p].points, tau, curves[p].isCustom)
  }

  /** Whatever updates a text asks for, every profile ends unchanged or with a normalised curve. */
  lemma {:induction false} ApplyAllKeepsNormalised(curves: seq<ProfileFanCurve>, us: seq<Update>, tau: real -> real)
    requires CurvesNormalised(curves, tau) && Applicable(us)
    ensures CurvesNormalised(ApplyAll(curves, us, tau), tau)
    ensures AcceptedCount(us) == 0 ==> ApplyAll(curves, us, tau) == curves
    ensures forall p :: 0 <= p < 4 && (forall i :: 0 <= i < |us| ==> us[i].prof != p) ==>
        ApplyAll(curves, us, tau)[p] == curves[p]
    decreases |us|
  {
    if us != [] {
      if StrictTemps(us[0].points) { NormaliseNormalises(us[0].points); }
      ApplyAllKeepsNormalised(ApplyUpdate(curves, us[0], tau), us[1..], tau);
      forall p | 0 <= p < 4 && (forall i :: 0 <= i < |us| ==> us[i].prof != p)
        ensures ApplyAll(curves, us, tau)[p] == curves[p]
      {
        assert us[0].prof != p;
        assert forall i :: 0 <= i < |us[1..]| ==> us[1..][i] == us[i + 1];
      }
    }
  }

  // ------------------------------------------------------------------ printing and reading back

  predicate AllNonNegative(curves: seq<ProfileFanCurve>) {
    forall q :: 0 <= q < |curves| ==> NonNegative(curves[q].points)
  }

  function EngineLines(curves: seq<ProfileFanCurve>, p: nat): seq<string>
    requires p <= |curves| && AllNonNegative(curves)
    decreases |curves| - p
  {
    if p == |curves| then [] else CurveLines(p, curves[p].points, curves[p].isCustom) + EngineLines(curves, p + 1)
  }

  function EngineUpdates(curves: seq<ProfileFanCurve>, p: nat): seq<Update>
    requires p <= |curves| && AllNonNegative(curves)
    decreases |curves| - p
  {
    if p == |curves| then []
    else [Update(p, RoundedPoints(curves[p].points), curves[p].isCustom)] + EngineUpdates(curves, p + 1)
  }

  lemma {:induction false} JoinConcat(a: seq<string>, b: seq<string>)
    ensures JoinLines(a + b) == JoinLines(a) + JoinLines(b)
  {
    if a == [] {
      assert a + b == b;
    } else {
      assert (a + b)[1..] == a[1..] + b;
      JoinConcat(a[1..], b);
    }
  }

  lemma JoinOneMore(lines: seq<string>, l: string)
    ensures JoinLines(lines + [l]) == JoinLines(lines) + (l + "\n")
  {
    JoinConcat(lines, [l]);
    assert JoinLines([l]) == l + "\n" + JoinLines([]);
  }

  lemma JoinTwo(a: string, b: string)
    ensures JoinLines([a, b]) == a + "\n" + (b + "\n")
    ensures [a, b] + [] == [a, b]
  {
    JoinOneMore([], a);
    JoinOneMore([a], b);
    assert [] + [a] == [a] && [a] + [b] == [a, b];
  }

  /** One printed curve in front of other lines. */
  lemma CurveLinesParse(p: nat, points: seq<Point>, custom: bool, rest: seq<string>)
    requires p <= 3 && Normalised(points) && NonNegative(points) && forall l :: l in rest ==> '\n' !in l
    ensures ParseLines(Views(CurveLines(p, points, custom) + rest))
            == [Update(p, RoundedPoints(points), custom)] + ParseLines(Views(rest))
    ensures forall l :: l in CurveLines(p, points, custom) + rest ==> '\n' !in l
  {
    var here := CurveLines(p, points, custom);
    CurveLinesSplit(p, points, custom);
    PrintedCurveViews(p, points, custom);
    MapLinesConcat(ViewOf, here, rest);
    CurveViewsParse(Views(here), Views(rest), p, RoundedPoints(points), custom);
  }

  /** The printed lines parse to one update for each profile, in order. */
  lemma {:induction false} EngineLinesParse(curves: seq<ProfileFanCurve>, tau: real -> real, p: nat)
    requires CurvesNormalised(curves, tau) && p <= 4
    ensures AllNonNegative(curves)
    ensures ParseLines(Views(EngineLines(curves, p))) == EngineUpdates(curves, p)
    ensures forall l :: l in EngineLines(curves, p) ==> '\n' !in l
    decreases 4 - p
  {
    if p < 4 {
      EngineLinesParse(curves, tau, p + 1);
      CurveLinesParse(p, curves[p].points, curves[p].isCustom, EngineLines(curves, p + 1));
    }
  }

  lemma RoundedNormalised(points: seq<Point>)
    requires Normalised(points)
    ensures NonNegative(points) && Normalised(RoundedPoints(points))
        && Normalise(RoundedPoints(points)) == RoundedPoints(points)
  {
    RoundedTenth(300);
    RoundedTenth(700);
    RoundedTenth(1000);
    RoundedTenth(0);
    var r := RoundedPoints(points);
    forall i | 0 <= i < |r| ensures MIN_TEMP <= r[i].temp <= MAX_TEMP && 0.0 <= r[i].speed <= 100.0 {
      RoundedMonotone(MIN_TEMP, points[i].temp); RoundedMonotone(points[i].temp, MAX_TEMP);
      RoundedMonotone(0.0, points[i].speed); RoundedMonotone(points[i].speed, 100.0);
    }
    forall i, j | 0 <= i < j < |r| ensures r[i].temp <= r[j].temp {
      RoundedMonotone(points[i].temp, points[j].temp);
    }
    NormaliseFixes(r);
  }

  /** What reading the printed form of one engine into another leaves in a profile. */
  function Restored(source: ProfileFanCurve, target: ProfileFanCurve, p: nat, tau: real -> real): ProfileFanCurve
    requires NonNegative(source.points) && |source.points| >= 2
  {
    var r := RoundedPoints(source.points);
    if StrictTemps(r) then MakeCurve(p, r, tau, source.isCustom) else target
  }

  lemma ApplyPrinted(source: ProfileFanCurve, target: seq<ProfileFanCurve>, tau: real -> real, p: nat)
    requires Normalised(source.points) && |target| == 4 && p < 4
    ensures NonNegative(source.points)
    ensures ApplyUpdate(target, Update(p, RoundedPoints(source.points), source.isCustom), tau)
         == target[p := Restored(source, target[p], p, tau)]
  {
    RoundedNormalised(source.points);
  }

  lemma EngineUpdatesStep(source: seq<ProfileFanCurve>, p: nat)
    requires p < |source| && forall q :: 0 <= q < |source| ==> NonNegative(source[q].points)
    ensures var us := EngineUpdates(source, p);
            us != [] && us[0] == Update(p, RoundedPoints(source[p].points), source[p].isCustom)
                && us[1..] == EngineUpdates(source, p + 1)
  {
  }

  lemma {:induction false} ApplyEngineUpdates(source: seq<ProfileFanCurve>, target: seq<ProfileFanCurve>,
      tau: real -> real, p: nat)
    requires |source| == |target| == 4 && p <= 4
    requires forall q :: 0 <= q < 4 ==> Normalised(source[q].points) && |source[q].points| >= 2
    ensures forall q :: 0 <= q < 4 ==> NonNegative(source[q].points)
    ensures Applicable(EngineUpdates(source, p))
    ensures var r := ApplyAll(target, EngineUpdates(source, p), tau);
            forall q :: 0 <= q < 4 ==> r[q] == if q < p then target[q] else Restored(source[q], target[q], q, tau)
    decreases 4 - p
  {
    if p < 4 {
      ApplyPrinted(source[p], target, tau, p);
      EngineUpdatesStep(source, p);
      ApplyEngineUpdates(source, target[p := Restored(source[p], target[p], p, tau)], tau, p + 1);
    }
  }

  /** Reading back a printed engine, from the text to the four curves. */
  lemma PrintThenRead(source: seq<ProfileFanCurve>, target: seq<ProfileFanCurve>, tau: real -> real)
    requires CurvesNormalised(source, tau) && |target| == 4
    ensures forall q :: 0 <= q < 4 ==> NonNegative(source[q].points)
    ensures var us := ParseLines(ReadViews(JoinLines(EngineLines(source, 0))));
            forall q :: 0 <= q < 4 ==> ApplyAll(target, us, tau)[q] == Restored(source[q], target[q], q, tau)
  {
    EngineLinesParse(source, tau, 0);
    SplitJoined(EngineLines(source, 0));
    ApplyEngineUpdates(source, target, tau, 0);
  }

  predicate InTenths(points: seq<Point>)
    requires NonNegative(points)
  {
    RoundedPoints(points) == points
  }

  /** The curves a target holds after reading the printed form of a source. */
  function ReadBack(source: seq<ProfileFanCurve>, target: seq<ProfileFanCurve>,
      tau: real -> real): (r: seq<ProfileFanCurve>)
    requires AllNonNegative(source) && |target| == 4
    ensures |r| == 4
  {
    ApplyAll(target, ParseLines(ReadViews(JoinLines(EngineLines(source, 0)))), tau)
  }

  /**
   A profile comes back exactly when its coordinates are whole tenths and its temperatures strictly
   increase. When rounding (or an earlier clamp) has merged two temperatures, the reader rejects the
   curve and the target keeps whatever it held.
   */
  lemma RoundTripExactlyWhen(source: seq<ProfileFanCurve>, target: seq<ProfileFanCurve>, tau: real -> real, q: nat)
    requires CurvesNormalised(source, tau) && |target| == 4 && q < 4
    ensures AllNonNegative(source)
    ensures ReadBack(source, target, tau)[q] == source[q] <==>
              (InTenths(source[q].points) && StrictTemps(source[q].points))
              || (!StrictTemps(RoundedPoints(source[q].points)) && target[q] == source[q])
  {
    EngineLinesParse(source, tau, 0);
    PrintThenRead(source, target, tau);
  }

  /** Two points above 70 degrees are accepted and clamp onto each other. */
  const HOT: seq<Point> := [Point(30.0, 20.0), Point(75.0, 50.0), Point(80.0, 100.0)]

  lemma HotPointsMerge()
    ensures StrictTemps(HOT) && Normalised(Normalise(HOT)) && NonNegative(Normalise(HOT))
    ensures !StrictTemps(Normalise(HOT)) && !StrictTemps(RoundedPoints(Normalise(HOT)))
  {
    var r := Normalise(HOT);
    NormaliseNormalises(HOT);
    assert r[1].temp == 70.0 && r[2].temp == 70.0;
    assert RoundedPoints(r)[1].temp == RoundedPoints(r)[2].temp;
  }

  /** An engine holding such a curve prints it, but no other engine takes it over from the text. */
  lemma ClampedPointsAreNotReadBack(source: seq<ProfileFanCurve>, target: seq<ProfileFanCurve>,
      tau: real -> real, q: nat)
    requires CurvesNormalised(source, tau) && |target| == 4 && q < 4
    requires source[q] == MakeCurve(q, Normalise(HOT), tau, true) && target[q] != source[q]
    ensures StrictTemps(HOT) && AllNonNegative(source)
    ensures ReadBack(source, target, tau)[q] != source[q]
  {
    HotPointsMerge();
    RoundTripExactlyWhen(source, target, tau, q);
  }

  /** An accepted curve that falls and then rises, whose installed table slows the fan inside the rising interval. */
  lemma StaleRatioExample(p: nat, tau: real -> real)
    requires ExactScale(tau) && p < 4
    ensures StrictTemps(DIPPING) && Normalised(DIPPING) && Normalise(DIPPING) == DIPPING
    ensures var c := MakeCurve(p, Normalise(DIPPING), tau, true);
            && DIPPING[1].temp == 34.0 && DIPPING[1].speed < DIPPING[2].speed
            && PctFor(c.pcts, 35.0) < PctFor(c.pcts, 34.0) == DIPPING[1].speed
            && LevelFor(c.levels, 35.0) < LevelFor(c.levels, 34.0)
  {
    NormaliseFixes(DIPPING);
    StaleRatioSlowsFan(tau, p == 3);
    assert (34.0).Floor - 30 == 4 && (35.0).Floor - 30 == 5;
  }

  // ------------------------------------------------------------------ the engine

  /** The inner loop stands before line used of the block, having read points and custom so far. */
  ghost predicate InBlock(views: seq<LineView>, used: nat, prof: int, want: nat, points: seq<Point>, custom: bool) {
    && used <= |views| && |points| <= want
    && var b := ParseBlock(views[used..], prof, want, points, custom);
       ParseBlock(views, prof, want, [], true) == b.(used := b.used + used)
  }

  lemma BlockLine(views: seq<LineView>, used: nat, prof: int, want: nat, points: seq<Point>, custom: bool)
    requires InBlock(views, used, prof, want, points, custom) && used < |views| && |points| < want
    ensures var line := views[used];
            if line.flag.Some? && line.flag.value.0 == prof then
              InBlock(views, used + 1, prof, want, points, line.flag.value.1 != 0)
            else if line.point.Some? then InBlock(views, used + 1, prof, want, points + [line.point.value], custom)
            else if line.profile then ParseBlock(views, prof, want, [], true) == Block(points, custom, used)
            else InBlock(views, used + 1, prof, want, points, custom)
  {
  }

  /** The updates the rest of the text asks for. */
  function Pending(data: string, pos: nat): (us: seq<Update>)
    requires pos <= |data|
    ensures Applicable(us)
  {
    ParseLines(ReadViews(data[pos..]))
  }

  lemma ParseLinesUnfolds(all: seq<LineView>)
    requires all != []
    ensures !HeaderAccepted(all[0].header) ==> ParseLines(all) == ParseLines(all[1..])
    ensures HeaderAccepted(all[0].header) ==>
              var (prof, want) := all[0].header.value;
              var b := ParseBlock(all[1..], prof, want, [], true);
              ParseLines(all)
                  == (if |b.points| == want then [Update(prof, b.points, b.custom)] else [])
                  + ParseLines(all[1..][b.used..])
  {
    if HeaderAccepted(all[0].header) {
      var b := ParseBlock(all[1..], all[0].header.value.0, all[0].header.value.1, [], true);
      assert all[1..][b.used..] == all[1 + b.used..];
    }
  }

  lemma ApplyFirst(curves: seq<ProfileFanCurve>, u: Update, rest: seq<Update>, tau: real -> real)
    requires |curves| == 4 && u.prof <= 3 && MIN_POINTS <= |u.points| <= MAX_POINTS && Applicable(rest)
    ensures Applicable([u] + rest)
    ensures ApplyAll(curves, [u] + rest, tau) == ApplyAll(ApplyUpdate(curves, u, tau), rest, tau)
    ensures AcceptedCount([u] + rest) == (if StrictTemps(u.points) then 1 else 0) + AcceptedCount(rest)
  {
    assert ([u] + rest)[1..] == rest;
  }

  function DefaultPoints(p: nat): (points: seq<Point>)
    requires p < 4
    ensures |points| == 5
  {
    if p == 0 then [Point(30.0, 20.0), Point(40.0, 40.0), Point(50.0, 65.0), Point(60.0, 85.0), Point(70.0, 100.0)]
    else if p == 1 then [Point(30.0, 15.0), Point(40.0, 25.0), Point(50.0, 45.0), Point(60.0, 70.0), Point(70.0, 100.0)]
    else if p == 2 then [Point(30.0, 10.0), Point(40.0, 20.0), Point(50.0, 35.0), Point(60.0, 55.0), Point(70.0, 100.0)]
    else [Point(30.0, 0.0), Point(40.0, 0.0), Point(50.0, 25.0), Point(60.0, 50.0), Point(70.0, 100.0)]
  }

  lemma DefaultsNormalised(p: nat)
    requires p < 4
    ensures Normalised(DefaultPoints(p)) && SpeedsRise(DefaultPoints(p))
  {
  }

  lemma Reassociate(a: string, b: string, c: string)
    ensures (a + b) + c == a + (b + c)
  {
  }

  class FanCurveEngine {
    const tau: real -> real
    const vectorised: bool
    var curves: seq<ProfileFanCurve>
    var fastLevels: seq<seq<nat>>
    var fastPcts: seq<seq<real>>

    ghost predicate Sized()
      reads this
    {
      |curves| == |fastLevels| == |fastPcts| == 4
    }

    /** The profile holds a normalised curve with its own tables, mirrored in the fast lookup. */
    ghost predicate ProfileValid(p: nat)
      requires Sized() && p < 4
      reads this
    {
      && Normalised(curves[p].points)
      && curves[p] == MakeCurve(p, curves[p].points, tau, curves[p].isCustom)
      && fastLevels[p] == curves[p].levels && fastPcts[p] == curves[p].pcts
    }

    ghost predicate Valid()
      reads this
    {
      Sized() && forall p :: 0 <= p < 4 ==> ProfileValid(p)
    }

    constructor (tau: real -> real, vectorised: bool)
      ensures Valid() && this.tau == tau && this.vectorised == vectorised
      ensures forall p :: 0 <= p < 4 ==> curves[p] == MakeCurve(p, DefaultPoints(p), tau, false)
      ensures forall p :: 0 <= p < 4 ==> SpeedsRise(curves[p].points)
    {
      this.tau, this.vectorised := tau, vectorised;
      var blank := ProfileFanCurve([], [], [], false);
      curves := [blank, blank, blank, blank];
      fastLevels, fastPcts := [[], [], [], []], [[], [], [], []];
      new;
      ResetToDefaults(-1);
      forall p | 0 <= p < 4 ensures SpeedsRise(curves[p].points) { DefaultsNormalised(p); }
    }

    method SyncFastLookup(p: int)
      requires Sized()
      modifies this`fastLevels, this`fastPcts
      ensures fastLevels == if 0 <= p <= 3 then old(fastLevels)[p := curves[p].levels] else old(fastLevels)
      ensures fastPcts == if 0 <= p <= 3 then old(fastPcts)[p := curves[p].pcts] else old(fastPcts)
    {
      if p < 0 || p > 3 { return; }
      fastLevels := fastLevels[p := curves[p].levels];
      fastPcts := fastPcts[p := curves[p].pcts];
    }

    /** Stores a curve with freshly computed tables and mirrors it; the other profiles keep theirs. */
    method InstallCurve(p: nat, points: seq<Point>, isCustom: bool)
      requires p < 4 && Normalised(points) && Sized()
      modifies this
      ensures Sized() && ProfileValid(p)
      ensures curves == old(curves)[p := MakeCurve(p, points, tau, isCustom)]
      ensures forall q :: 0 <= q < 4 && q != p ==>
          fastLevels[q] == old(fastLevels)[q] && fastPcts[q] == old(fastPcts)[q]
      ensures forall q :: 0 <= q < 4 && q != p ==> ProfileValid(q) == old(ProfileValid(q))
    {
      var levels, pcts := new nat[48], new real[48];
      var ok := ComputeSplineLookup(points, levels, pcts, p == 3, vectorised, tau);
      curves := curves[p := ProfileFanCurve(points, levels[..TABLE_SIZE], pcts[..TABLE_SIZE], isCustom)];
      SyncFastLookup(p);
    }

    /** Resets one profile, or all four when the index names none. */
    method ResetToDefaults(p: int)
      requires Sized()
      modifies this
      ensures Sized()
      ensures forall q :: 0 <= q < 4 && (p == q || p < 0 || p > 3) ==>
          ProfileValid(q) && curves[q] == MakeCurve(q, DefaultPoints(q), tau, false)
      ensures forall q :: 0 <= q < 4 && q != p && 0 <= p <= 3 ==>
          curves[q] == old(curves)[q] && ProfileValid(q) == old(ProfileValid(q))
    {
      if 0 <= p <= 3 {
        InstallDefault(p);
      } else {
        InstallDefault(0);
        InstallDefault(1);
        InstallDefault(2);
        InstallDefault(3);
      }
    }

    method InstallDefault(p: nat)
      requires Sized() && p < 4
      modifies this
      ensures Sized() && ProfileValid(p) && curves[p] == MakeCurve(p, DefaultPoints(p), tau, false)
      ensures forall q :: 0 <= q < 4 && q != p ==>
          curves[q] == old(curves)[q] && ProfileValid(q) == old(ProfileValid(q))
    {
      DefaultsNormalised(p);
      InstallCurve(p, DefaultPoints(p), false);
    }

    /** Accepts between 2 and 10 points with strictly increasing temperatures; anything else changes nothing. */
    method SetProfileCurve(p: int, points: seq<Point>) returns (ok: bool)
      requires Valid()
      modifies this
      ensures Valid()
      ensures ok <==> 0 <= p <= 3 && MIN_POINTS <= |points| <= MAX_POINTS && StrictTemps(points)
      ensures ok ==> curves == old(curves)[p := MakeCurve(p, Normalise(points), tau, true)]
      ensures ok && SpeedsRise(points) ==> SpeedsRise(curves[p].points)
      ensures !ok ==> unchanged(this)
    {
      if p < 0 || p > 3 { return false; }
      if |points| < MIN_POINTS || |points| > MAX_POINTS { return false; }
      for i := 1 to |points|
        invariant forall k :: 0 < k < i ==> points[k - 1].temp < points[k].temp
      {
        if points[i].temp <= points[i - 1].temp { return false; }
      }
      var pts := points;
      for i := 0 to |points|
        invariant |pts| == |points|
        invariant forall k :: 0 <= k < |points| ==> pts[k] == if k < i then ClampPoint(points[k]) else points[k]
      {
        pts := pts[i := Point(Clamp(points[i].temp, MIN_TEMP, MAX_TEMP), Clamp(points[i].speed, 0.0, 100.0))];
      }
      pts := pts[0 := pts[0].(temp := MIN_TEMP)];
      pts := pts[|pts| - 1 := pts[|pts| - 1].(temp := MAX_TEMP)];
      pts := pts[|pts| - 1 := pts[|pts| - 1].(speed := 100.0)];
      assert pts == Normalise(points);
      NormaliseNormalises(points);
      if SpeedsRise(points) { NormaliseKeepsRise(points); }
      InstallCurve(p, pts, true);
      return true;
    }

    function GetFanLevelForTemp(p: int, temp: real): nat
      requires Valid()
      reads this
    {
      var i := if p < 0 || p > 3 then 1 else p;
      assert ProfileValid(i);
      LevelFor(fastLevels[i], temp)
    }

    function GetFanPctForTemp(p: int, temp: real): real
      requires Valid()
      reads this
    {
      var i := if p < 0 || p > 3 then 1 else p;
      assert ProfileValid(i);
      PctFor(fastPcts[i], temp)
    }

    /** A profile with non-decreasing speeds never slows the fan as the temperature rises. */
    lemma FanNeverSlowsWithHeat(p: nat, t1: real, t2: real)
      requires Valid() && LimiterScale(tau) && p < 4 && SpeedsRise(curves[p].points) && t1 <= t2
      ensures GetFanLevelForTemp(p, t1) <= GetFanLevelForTemp(p, t2)
      ensures GetFanPctForTemp(p, t1) <= GetFanPctForTemp(p, t2)
      ensures t2 >= MAX_TEMP ==> GetFanLevelForTemp(p, t2) == FULL_SPEED
    {
      assert ProfileValid(p);
      RuntimeMonotone(p, curves[p].points, tau, curves[p].isCustom, t1, t2);
    }

    /** Inside an interval that is not spoiled the fan follows the curve, whatever the curve does elsewhere. */
    lemma FanFollowsCurve(p: nat, t1: real, t2: real)
      requires Valid() && LimiterScale(tau) && p < 4 && ProfileValid(p) && 0.0 < t1 <= t2 < MAX_TEMP
      requires IntervalOf(curves[p].points, Cellwise(t1)) == IntervalOf(curves[p].points, Cellwise(t2))
      requires Unspoiled(curves[p].points, tau, IntervalOf(curves[p].points, Cellwise(t1)))
      ensures Secant(curves[p].points, IntervalOf(curves[p].points, Cellwise(t1))) >= 0.0 ==>
                GetFanLevelForTemp(p, t1) <= GetFanLevelForTemp(p, t2)
                && GetFanPctForTemp(p, t1) <= GetFanPctForTemp(p, t2)
      ensures Secant(curves[p].points, IntervalOf(curves[p].points, Cellwise(t1))) < 0.0 ==>
                GetFanLevelForTemp(p, t1) >= GetFanLevelForTemp(p, t2)
                && GetFanPctForTemp(p, t1) >= GetFanPctForTemp(p, t2)
    {
      assert ProfileValid(p);
      QueriesFollow(p, curves[p].points, tau, curves[p].isCustom, t1, t2);
    }

    method SerializeCurve(p: nat) returns (out: string)
      requires p < |curves| && NonNegative(curves[p].points)
      ensures out == JoinLines(CurveLines(p, curves[p].points, curves[p].isCustom))
    {
      var c := curves[p];
      ghost var head := [HeaderLine(p, |c.points|), CustomLine(p, c.isCustom)];
      out := "PROFILE_" + (Digits(p) + ("_POINTS=" + Digits(|c.points|))) + "\n";
      out := out + ("PROFILE_" + (Digits(p) + ("_CUSTOM=" + Digits(if c.isCustom then 1 else 0))) + "\n");
      JoinTwo(HeaderLine(p, |c.points|), CustomLine(p, c.isCustom));
      ghost var lines := PointLines(c.points);
      for i := 0 to |c.points|
        invariant out == JoinLines(head + lines[..i])
      {
        out := out + (PointLine(i, c.points[i]) + "\n");
        assert head + lines[..i + 1] == (head + lines[..i]) + [lines[i]];
        JoinOneMore(head + lines[..i], lines[i]);
      }
      assert lines[..|c.points|] == lines;
    }

    lemma CurvesNonNegative()
      requires Valid()
      ensures AllNonNegative(curves)
    {
      forall q | 0 <= q < |curves|
        ensures NonNegative(curves[q].points)
      {
        assert ProfileValid(q);
      }
    }

    method AppendCurve(out: string, p: nat) returns (more: string)
      requires p < |curves| && AllNonNegative(curves)
      ensures more + JoinLines(EngineLines(curves, p + 1)) == out + JoinLines(EngineLines(curves, p))
    {
      var block := SerializeCurve(p);
      JoinConcat(CurveLines(p, curves[p].points, curves[p].isCustom), EngineLines(curves, p + 1));
      more := out + block;
      Reassociate(out, block, JoinLines(EngineLines(curves, p + 1)));
    }

    /** Prints every curve, one line at a time. */
    method SerializeCurves() returns (out: string)
      requires Valid()
      ensures AllNonNegative(curves) && out == JoinLines(EngineLines(curves, 0))
    {
      CurvesNonNegative();
      out := "";
      for p := 0 to 4
        invariant out + JoinLines(EngineLines(curves, p)) == JoinLines(EngineLines(curves, 0))
      {
        out := AppendCurve(out, p);
      }
      assert EngineLines(curves, 4) == [];
    }

    /** One line from a cursor, as what the scans make of it, and the cursor behind it. */
    static method NextLine(view: string -> LineView, data: string, pos: nat) returns (line: LineView, next: nat)
      requires pos < |data|
      ensures pos < next <= |data|
      ensures var views := MapLines(view, SplitLines(data[pos..]));
              views != [] && line == views[0] && MapLines(view, SplitLines(data[next..])) == views[1..]
    {
      var rest := data[pos..];
      var e := LineEnd(rest);
      next := if e < |rest| then pos + e + 1 else |data|;
      assert data[next..] == AfterLine(rest);
      line := view(rest[..e]);
      MapLinesStep(view, SplitLines(rest));
      assert SplitLines(rest)[1..] == SplitLines(AfterLine(rest));
    }

    /** One turn of the inner loop: a line of the block is used, one of another profile stops it and is left unread. */
    static method ReadBlockLine(data: string, start: nat, prof: int, ghost want: nat,
                                sofar: seq<Point>, flag: bool, ghost views: seq<LineView>, ghost used: nat)
      returns (points: seq<Point>, custom: bool, pos: nat, stop: bool)
      requires start < |data| && |sofar| < want && InBlock(views, used, prof, want, sofar, flag)
      requires ReadViews(data[start..]) == views[used..]
      ensures start <= pos <= |data|
      ensures stop ==> pos == start && ParseBlock(views, prof, want, [], true) == Block(points, custom, used)
      ensures !stop ==> pos > start && InBlock(views, used + 1, prof, want, points, custom)
      ensures !stop ==> ReadViews(data[pos..]) == views[used + 1..]
    {
      points, custom, stop := sofar, flag, false;
      var line;
      line, pos := NextLine(ViewOf, data, start);
      var adv := pos - start;
      assert views[used..][1..] == views[used + 1..];
      BlockLine(views, used, prof, want, sofar, flag);
      if line.flag.Some? && line.flag.value.0 == prof {
        custom := line.flag.value.1 != 0;
      } else if line.point.Some? {
        points := points + [line.point.value];
      } else if line.profile {
        pos := pos - adv;
        stop := true;
      }
    }

    /** The inner loop: reads one block from a cursor, stepping back over a line of another profile. */
    static method ReadBlock(data: string, start: nat, prof: int, want: nat)
      returns (points: seq<Point>, custom: bool, pos: nat)
      requires start <= |data|
      ensures start <= pos <= |data|
      ensures var views := ReadViews(data[start..]);
              var b := ParseBlock(views, prof, want, [], true);
              points == b.points && custom == b.custom && ReadViews(data[pos..]) == views[b.used..]
    {
      points, custom, pos := [], true, start;
      ghost var views, used: nat := ReadViews(data[start..]), 0;
      assert views[0..] == views;
      while pos < |data| && |points| < want
        invariant start <= pos <= |data| && InBlock(views, used, prof, want, points, custom)
        invariant ReadViews(data[pos..]) == views[used..]
        decreases |data| - pos
      {
        var stop;
        points, custom, pos, stop := ReadBlockLine(data, pos, prof, want, points, custom, views, used);
        if stop { return; }
        used := used + 1;
      }
      if pos == |data| { assert data[pos..] == ""; }
    }

    /** Installs a block read from text and gives it the flag that came with it. */
    method AcceptBlock(prof: nat, points: seq<Point>, custom: bool) returns (accepted: bool)
      requires Valid() && prof <= 3 && MIN_POINTS <= |points| <= MAX_POINTS
      modifies this
      ensures Valid() && accepted == StrictTemps(points)
      ensures curves == ApplyUpdate(old(curves), Update(prof, points, custom), tau)
    {
      accepted := SetProfileCurve(prof, points);
      if accepted {
        label installed:
        curves := curves[prof := curves[prof].(isCustom := custom)];
        forall q | 0 <= q < 4 ensures ProfileValid(q) { assert old@installed(ProfileValid(q)); }
      }
    }

    /** One turn of the outer loop: a line, and the block behind it if the line is an accepted header. */
    method ReadOne(data: string, pos: nat) returns (next: nat, accepted: bool)
      requires Valid() && pos < |data|
      modifies this
      ensures Valid() && pos < next <= |data|
      ensures ApplyAll(curves, Pending(data, next), tau) == ApplyAll(old(curves), Pending(data, pos), tau)
      ensures (if accepted then 1 else 0) + AcceptedCount(Pending(data, next)) == AcceptedCount(Pending(data, pos))
    {
      ghost var all := ReadViews(data[pos..]);
      ParseLinesUnfolds(all);
      var line;
      line, next := NextLine(ViewOf, data, pos);
      accepted := false;
      if HeaderAccepted(line.header) {
        var (prof, want) := line.header.value;
        var pts, custom;
        pts, custom, next := ReadBlock(data, next, prof, want);
        if |pts| == want {
          ApplyFirst(curves, Update(prof, pts, custom), Pending(data, next), tau);
          accepted := AcceptBlock(prof, pts, custom);
        }
      }
    }

    /**
     Reads curves from any text. The result is the fold of the updates the text asks for, so every
     profile ends unchanged or with a normalised curve and the mirrors always agree.
     */
    method DeserializeCurves(data: string) returns (ok: bool)
      requires Valid()
      modifies this
      ensures Valid()
      ensures curves == ApplyAll(old(curves), ParseLines(ReadViews(data)), tau)
      ensures ok <==> AcceptedCount(ParseLines(ReadViews(data))) > 0
    {
      var parsed, pos: nat := 0, 0;
      assert data[0..] == data;
      while pos < |data|
        invariant Valid() && pos <= |data| && parsed >= 0
        invariant ApplyAll(curves, Pending(data, pos), tau) == ApplyAll(old(curves), Pending(data, 0), tau)
        invariant parsed + AcceptedCount(Pending(data, pos)) == AcceptedCount(Pending(data, 0))
        decreases |data| - pos
      {
        var accepted;
        pos, accepted := ReadOne(data, pos);
        if accepted { parsed := parsed + 1; }
      }
      assert data[pos..] == "";
      return parsed > 0;
    }
  }
}
