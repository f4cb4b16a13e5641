/**
 * The inverse solver of the goal calculator: a calorie goal (a total over a
 * time window, or a rate per minute; counted as active or as gross calories)
 * becomes a target VO2, and for each incline of a fixed ladder the running
 * equation is solved for the speed that reaches it. Speeds outside [1, 20]
 * km/h are dropped; the rest are recomputed forward, classified by
 * intensity and ordered by incline.
 */
module CalorieGoal {
  import opened Wrappers
  import opened Calculations
  import Sorting

  // ---------------------------------------------------------------------
  // Intensity
  // ---------------------------------------------------------------------

  datatype Intensity = Light | Moderate | Vigorous | VeryVigorous {
    function Label(): string {
      match this
      case Light => "Light"
      case Moderate => "Moderate"
      case Vigorous => "Vigorous"
      case VeryVigorous => "Very Vigorous"
    }

    /** Position on the intensity scale, lightest first. */
    function Rank(): nat {
      match this
      case Light => 0
      case Moderate => 1
      case Vigorous => 2
      case VeryVigorous => 3
    }
  }

  /** getIntensity: strict thresholds, so a boundary value belongs to the higher band. */
  function GetIntensity(mets: real): (i: Intensity)
    ensures i == Light <==> mets < 3.0
    ensures i == Moderate <==> 3.0 <= mets < 6.0
    ensures i == Vigorous <==> 6.0 <= mets < 9.0
    ensures i == VeryVigorous <==> 9.0 <= mets
  {
    if mets < 3.0 then Light
    else if mets < 6.0 then Moderate
    else if mets < 9.0 then Vigorous
    else VeryVigorous
  }

  /** More METs never give a lighter band. */
  lemma IntensityMonotonic(m1: real, m2: real)
    requires m1 <= m2
    ensures GetIntensity(m1).Rank() <= GetIntensity(m2).Rank()
  {
  }

  // ---------------------------------------------------------------------
  // Goals and candidate workouts
  // ---------------------------------------------------------------------

  datatype Tab = ByTotalTab | ByRateTab
  datatype CalorieType = Active | Gross

  /** A goal as the two tabs of the form state it. */
  datatype Goal =
    | ByTotal(targetCalories: real, timeMinutes: real, totalType: CalorieType)
    | ByRate(targetCalPerMin: real, rateType: CalorieType)
  {
    function CalorieKind(): CalorieType {
      match this
      case ByTotal(_, _, t) => t
      case ByRate(_, t) => t
    }

    /** The calories the goal asks for in its window. */
    function Target(): real {
      match this
      case ByTotal(c, _, _) => c
      case ByRate(c, _) => c
    }

    /** The window in hours: the given time, or one minute for a rate. */
    function WindowHours(): real {
      match this
      case ByTotal(_, t, _) => t / 60.0
      case ByRate(_, _) => 1.0 / 60.0
    }
  }

  /** Goals the solver can divide by: the only caller checks a weight of at
      least 30 kg and, for a total, at least one minute. */
  predicate Solvable(goal: Goal, weight: real)
  {
    weight > 0.0 && (goal.ByTotal? ==> goal.timeMinutes > 0.0)
  }

  /** One option shown to the user; `calories` is absent for a rate goal. */
  datatype Variation = Variation(
    speed: real,
    incline: real,
    calories: Option<real>,
    caloriesActive: real,
    caloriesGross: real,
    caloriesPerMinute: real,
    caloriesPerMinuteGross: real,
    mets: real,
    intensity: Intensity,
    timeMinutes: real
  )

  const InclineOptions: seq<real> := [0.0, 2.0, 4.0, 6.0, 8.0, 10.0, 12.0, 15.0]

  /** METs that produce `targetCalories` over `timeHours` at `weight`:
      active calories count the METs above rest, gross calories all of them.
      Put back into the forward calorie equation they give the target exactly. */
  function TargetMets(targetCalories: real, weight: real, timeHours: real, useActive: bool): (m: real)
    requires weight * timeHours != 0.0
    ensures (if useActive then m - 1.0 else m) * weight * timeHours == targetCalories
  {
    if useActive then targetCalories / (weight * timeHours) + 1.0
    else targetCalories / (weight * timeHours)
  }

  function GoalVo2(goal: Goal, weight: real): real
    requires Solvable(goal, weight)
  {
    TargetMets(goal.Target(), weight, goal.WindowHours(), goal.CalorieKind() == Active) * 3.5
  }

  /** The running equation solved for speed (m/s) at a given incline: run
      forward through the equation, the speed gives back the target VO2. */
  function SolvedSpeed(targetVo2: real, incline: real): (s: real)
    requires incline >= 0.0
    ensures Vo2(s * 3.6, incline) == targetVo2
  {
    var gradeFraction := incline / 100.0;
    var denominator := 12.0 + 54.0 * gradeFraction;
    var s := (targetVo2 - 3.5) / denominator;
    assert s * denominator == targetVo2 - 3.5;
    assert 12.0 * s + 54.0 * s * gradeFraction == s * denominator;
    assert s * 3.6 / 3.6 == s;
    s
  }

  /** The forward figures of a by-total option, recomputed at the solved speed (m/s). */
  function TotalVariation(incline: real, speedMPerS: real, weight: real, timeMinutes: real, useActive: bool): (v: Variation)
    ensures v.incline == incline && v.speed == speedMPerS * 3.6 && v.timeMinutes == timeMinutes
    ensures v.mets * 3.5 == Vo2(v.speed, incline) && v.intensity == GetIntensity(v.mets)
    ensures v.caloriesActive == (v.mets - 1.0) * weight * (timeMinutes / 60.0)
    ensures v.caloriesGross - v.caloriesActive == weight * (timeMinutes / 60.0)
    ensures v.calories == Some(if useActive then v.caloriesActive else v.caloriesGross)
  {
    var gradeFraction := incline / 100.0;
    var actualVo2 := 3.5 + 12.0 * speedMPerS + 54.0 * speedMPerS * gradeFraction;
    var actualMets := actualVo2 / 3.5;
    var timeHours := timeMinutes / 60.0;
    var activeCal := (actualMets - 1.0) * weight * timeHours;
    var grossCal := actualMets * weight * timeHours;
    var activeCalMin := if timeMinutes > 0.0 then activeCal / timeMinutes else 0.0;
    var grossCalMin := if timeMinutes > 0.0 then grossCal / timeMinutes else 0.0;
    Variation(speedMPerS * 3.6, incline, Some(if useActive then activeCal else grossCal),
              activeCal, grossCal, activeCalMin, grossCalMin,
              actualMets, GetIntensity(actualMets), timeMinutes)
  }

  /** The forward figures of a by-rate option: one minute, and the same pace over 60 minutes. */
  function RateVariation(incline: real, speedMPerS: real, weight: real): (v: Variation)
    ensures v.incline == incline && v.speed == speedMPerS * 3.6 && v.timeMinutes == 60.0 && v.calories == None
    ensures v.mets * 3.5 == Vo2(v.speed, incline) && v.intensity == GetIntensity(v.mets)
    ensures v.caloriesPerMinute == (v.mets - 1.0) * weight / 60.0
    ensures v.caloriesPerMinuteGross - v.caloriesPerMinute == weight / 60.0
    ensures v.caloriesActive == 60.0 * v.caloriesPerMinute && v.caloriesGross == 60.0 * v.caloriesPerMinuteGross
  {
    var gradeFraction := incline / 100.0;
    var actualVo2 := 3.5 + 12.0 * speedMPerS + 54.0 * speedMPerS * gradeFraction;
    var actualMets := actualVo2 / 3.5;
    var activeCalMin := (actualMets - 1.0) * weight * (1.0 / 60.0);
    var grossCalMin := actualMets * weight * (1.0 / 60.0);
    var activeCal60 := activeCalMin * 60.0;
    var grossCal60 := grossCalMin * 60.0;
    Variation(speedMPerS * 3.6, incline, None,
              activeCal60, grossCal60, activeCalMin, grossCalMin,
              actualMets, GetIntensity(actualMets), 60.0)
  }

  /** The option at one incline, or None when its speed is outside [1, 20] km/h. */
  function VariationAt(goal: Goal, weight: real, incline: real): Option<Variation>
    requires Solvable(goal, weight) && incline >= 0.0
  {
    var speedMPerS := SolvedSpeed(GoalVo2(goal, weight), incline);
    var speedKmh := speedMPerS * 3.6;
    if !(speedKmh >= 1.0 && speedKmh <= 20.0) then None
    else match goal
      case ByTotal(_, timeMinutes, t) => Some(TotalVariation(incline, speedMPerS, weight, timeMinutes, t == Active))
      case ByRate(_, _) => Some(RateVariation(incline, speedMPerS, weight))
  }

  /** The options pushed while going through `inclines` in order. */
  function Candidates(goal: Goal, weight: real, inclines: seq<real>): (r: seq<Variation>)
    requires Solvable(goal, weight)
    requires forall i :: 0 <= i < |inclines| ==> inclines[i] >= 0.0
    ensures |r| <= |inclines|
  {
    if inclines == [] then []
    else
      var rest := Candidates(goal, weight, inclines[..|inclines| - 1]);
      match VariationAt(goal, weight, inclines[|inclines| - 1])
      case Some(v) => rest + [v]
      case None => rest
  }

  /** The comparator `(a, b) => a.incline - b.incline`. */
  predicate InclineLeq(a: Variation, b: Variation)
  {
    a.incline <= b.incline
  }

  /** What either solver returns: the candidates over the ladder, sorted by incline. */
  function Options(goal: Goal, weight: real): (r: seq<Variation>)
    requires Solvable(goal, weight)
    ensures |r| <= |InclineOptions|
  {
    Sorting.SortBy(Candidates(goal, weight, InclineOptions), InclineLeq)
  }

  // ---------------------------------------------------------------------
  // The two solvers and the input guard
  // ---------------------------------------------------------------------

  /** calculateVariationsByTotal. */
  method CalculateVariationsByTotal(weight: real, timeMinutes: real, targetCalories: real, calorieType: CalorieType)
    returns (variations: seq<Variation>)
    requires weight > 0.0 && timeMinutes > 0.0
    ensures variations == Options(ByTotal(targetCalories, timeMinutes, calorieType), weight)
  {
    ghost var goal := ByTotal(targetCalories, timeMinutes, calorieType);
    var results: seq<Variation> := [];
    var timeHours := timeMinutes / 60.0;
    var useActive := calorieType == Active;
    var targetMets := TargetMets(targetCalories, weight, timeHours, useActive);
    var targetVo2 := targetMets * 3.5;
    for i := 0 to |InclineOptions|
      invariant results == Candidates(goal, weight, InclineOptions[..i])
    {
      var incline := InclineOptions[i];
      var gradeFraction := incline / 100.0;
      var denominator := 12.0 + 54.0 * gradeFraction;
      var speedMPerS := (targetVo2 - 3.5) / denominator;
      var speedKmh := speedMPerS * 3.6;
      assert InclineOptions[..i + 1][..i] == InclineOptions[..i];
      if speedKmh >= 1.0 && speedKmh <= 20.0 {
        results := results + [TotalVariation(incline, speedMPerS, weight, timeMinutes, useActive)];
      }
    }
    assert InclineOptions[..|InclineOptions|] == InclineOptions;
    results := Sorting.SortBy(results, InclineLeq);
    variations := results;
  }

  /** calculateVariationsByRate: the goal is the calories of one minute. */
  method CalculateVariationsByRate(weight: real, targetCalPerMin: real, calPerMinType: CalorieType)
    returns (variations: seq<Variation>)
    requires weight > 0.0
    ensures variations == Options(ByRate(targetCalPerMin, calPerMinType), weight)
  {
    ghost var goal := ByRate(targetCalPerMin, calPerMinType);
    var results: seq<Variation> := [];
    var timeHoursOne := 1.0 / 60.0;
    var useActive := calPerMinType == Active;
    var targetMets := TargetMets(targetCalPerMin, weight, timeHoursOne, useActive);
    var targetVo2 := targetMets * 3.5;
    for i := 0 to |InclineOptions|
      invariant results == Candidates(goal, weight, InclineOptions[..i])
    {
      var incline := InclineOptions[i];
      var gradeFraction := incline / 100.0;
      var denominator := 12.0 + 54.0 * gradeFraction;
      var speedMPerS := (targetVo2 - 3.5) / denominator;
      var speedKmh := speedMPerS * 3.6;
      assert InclineOptions[..i + 1][..i] == InclineOptions[..i];
      if speedKmh >= 1.0 && speedKmh <= 20.0 {
        results := results + [RateVariation(incline, speedMPerS, weight)];
      }
    }
    assert InclineOptions[..|InclineOptions|] == InclineOptions;
    results := Sorting.SortBy(results, InclineLeq);
    variations := results;
  }

  // ---------------------------------------------------------------------
  // What the options are
  // ---------------------------------------------------------------------

  lemma LadderAscending()
    ensures forall i :: 0 <= i < |InclineOptions| ==> InclineOptions[i] >= 0.0
    ensures forall i, j :: 0 <= i < j < |InclineOptions| ==> InclineOptions[i] < InclineOptions[j]
  {
  }

  /** Each option reports the incline it was solved at, and the speed that passed the filter. */
  lemma VariationAtBasics(goal: Goal, weight: real, incline: real)
    requires Solvable(goal, weight) && incline >= 0.0
    requires VariationAt(goal, weight, incline).Some?
    ensures var v := VariationAt(goal, weight, incline).value;
            && v.incline == incline
            && 1.0 <= v.speed <= 20.0
            && v.speed == SolvedSpeed(GoalVo2(goal, weight), incline) * 3.6
            && v.intensity == GetIntensity(v.mets)
  {
  }

  predicate NonNegative(inclines: seq<real>)
  {
    forall i :: 0 <= i < |inclines| ==> inclines[i] >= 0.0
  }

  predicate StrictlyAscending(inclines: seq<real>)
  {
    forall i, j :: 0 <= i < j < |inclines| ==> inclines[i] < inclines[j]
  }

  /** Every option is the solution at its own incline, which is one of the inclines gone through. */
  lemma {:induction false} CandidatesSolved(goal: Goal, weight: real, inclines: seq<real>)
    requires Solvable(goal, weight) && NonNegative(inclines)
    ensures forall i :: 0 <= i < |Candidates(goal, weight, inclines)| ==>
              && Candidates(goal, weight, inclines)[i].incline in inclines
              && Candidates(goal, weight, inclines)[i].incline >= 0.0
    ensures forall i :: 0 <= i < |Candidates(goal, weight, inclines)| ==>
              VariationAt(goal, weight, Candidates(goal, weight, inclines)[i].incline)
              == Some(Candidates(goal, weight, inclines)[i])
  {
    if inclines != [] {
      var n := |inclines|;
      var init := inclines[..n - 1];
      CandidatesSolved(goal, weight, init);
      forall i | 0 <= i < |Candidates(goal, weight, init)|
        ensures Candidates(goal, weight, init)[i].incline in inclines
      {
        var k :| 0 <= k < |init| && init[k] == Candidates(goal, weight, init)[i].incline;
        assert inclines[k] == init[k];
      }
      if VariationAt(goal, weight, inclines[n - 1]).Some? {
        VariationAtBasics(goal, weight, inclines[n - 1]);
      }
    }
  }

  /** Strictly ascending inclines give options in strictly ascending incline order. */
  lemma {:induction false} CandidatesAscending(goal: Goal, weight: real, inclines: seq<real>)
    requires Solvable(goal, weight) && NonNegative(inclines) && StrictlyAscending(inclines)
    ensures forall i, j :: 0 <= i < j < |Candidates(goal, weight, inclines)| ==>
              Candidates(goal, weight, inclines)[i].incline < Candidates(goal, weight, inclines)[j].incline
  {
    if inclines != [] {
      var n := |inclines|;
      var init := inclines[..n - 1];
      var last := inclines[n - 1];
      CandidatesAscending(goal, weight, init);
      CandidatesSolved(goal, weight, init);
      forall i | 0 <= i < |Candidates(goal, weight, init)|
        ensures Candidates(goal, weight, init)[i].incline < last
      {
        var k :| 0 <= k < |init| && init[k] == Candidates(goal, weight, init)[i].incline;
        assert inclines[k] == init[k];
      }
      if VariationAt(goal, weight, last).Some? {
        VariationAtBasics(goal, weight, last);
        var rest := Candidates(goal, weight, init);
        var r := rest + [VariationAt(goal, weight, last).value];
        assert r == Candidates(goal, weight, inclines);
        forall i, j | 0 <= i < j < |r| ensures r[i].incline < r[j].incline {
          if j < |rest| {
            assert r[i] == rest[i] && r[j] == rest[j];
          } else {
            assert r[i] == rest[i];
          }
        }
      }
    }
  }

  /** Every incline whose solved speed is feasible is present. */
  lemma {:induction false} CandidatesComplete(goal: Goal, weight: real, inclines: seq<real>)
    requires Solvable(goal, weight) && NonNegative(inclines)
    ensures forall k :: 0 <= k < |inclines| && VariationAt(goal, weight, inclines[k]).Some? ==>
              VariationAt(goal, weight, inclines[k]).value in Candidates(goal, weight, inclines)
  {
    if inclines != [] {
      var n := |inclines|;
      var init := inclines[..n - 1];
      CandidatesComplete(goal, weight, init);
      forall k | 0 <= k < n && VariationAt(goal, weight, inclines[k]).Some?
        ensures VariationAt(goal, weight, inclines[k]).value in Candidates(goal, weight, inclines)
      {
        if k < n - 1 { assert inclines[k] == init[k]; }
      }
    }
  }

  /** The sort in both solvers finds the options already in order and changes nothing. */
  lemma OptionsAreCandidates(goal: Goal, weight: real)
    requires Solvable(goal, weight)
    ensures Options(goal, weight) == Candidates(goal, weight, InclineOptions)
  {
    LadderAscending();
    CandidatesAscending(goal, weight, InclineOptions);
    Sorting.SortOfSortedIsIdentity(Candidates(goal, weight, InclineOptions), InclineLeq);
  }

  /** At most eight options, each at a ladder incline with a speed in [1, 20] km/h and the
      intensity its METs fall in, in strictly ascending incline order. */
  lemma OptionsWellFormed(goal: Goal, weight: real)
    requires Solvable(goal, weight)
    ensures var r := Options(goal, weight);
            && |r| <= 8
            && (forall i :: 0 <= i < |r| ==>
                  && r[i].incline in InclineOptions
                  && 1.0 <= r[i].speed <= 20.0
                  && r[i].intensity == GetIntensity(r[i].mets))
            && (forall i, j :: 0 <= i < j < |r| ==> r[i].incline < r[j].incline)
  {
    LadderAscending();
    OptionsAreCandidates(goal, weight);
    CandidatesSolved(goal, weight, InclineOptions);
    CandidatesAscending(goal, weight, InclineOptions);
    var r := Options(goal, weight);
    forall i | 0 <= i < |r|
      ensures 1.0 <= r[i].speed <= 20.0 && r[i].intensity == GetIntensity(r[i].mets)
    {
      VariationAtBasics(goal, weight, r[i].incline);
    }
  }

  /** A ladder incline has an option exactly when its solved speed lies in [1, 20] km/h. */
  lemma OptionsComplete(goal: Goal, weight: real)
    requires Solvable(goal, weight)
    ensures var r := Options(goal, weight);
            forall k :: 0 <= k < |InclineOptions| ==>
              (VariationAt(goal, weight, InclineOptions[k]).Some? <==>
               exists i :: 0 <= i < |r| && r[i].incline == InclineOptions[k])
  {
    LadderAscending();
    OptionsAreCandidates(goal, weight);
    CandidatesSolved(goal, weight, InclineOptions);
    CandidatesComplete(goal, weight, InclineOptions);
    var r := Options(goal, weight);
    forall k | 0 <= k < |InclineOptions|
      ensures VariationAt(goal, weight, InclineOptions[k]).Some? <==>
              exists i :: 0 <= i < |r| && r[i].incline == InclineOptions[k]
    {
      var g := InclineOptions[k];
      if VariationAt(goal, weight, g).Some? {
        VariationAtBasics(goal, weight, g);
        var i :| 0 <= i < |r| && r[i] == VariationAt(goal, weight, g).value;
        assert r[i].incline == g;
      }
      if exists i :: 0 <= i < |r| && r[i].incline == g {
        var i :| 0 <= i < |r| && r[i].incline == g;
        assert VariationAt(goal, weight, g) == Some(r[i]);
      }
    }
  }

  /** Recomputing VO2 at the solved speed gives back the target exactly. */
  lemma RecomputedMetsHitTarget(goal: Goal, weight: real, incline: real)
    requires Solvable(goal, weight) && incline >= 0.0
    requires VariationAt(goal, weight, incline).Some?
    ensures VariationAt(goal, weight, incline).value.mets * 3.5 == GoalVo2(goal, weight)
  {
    var sp := SolvedSpeed(GoalVo2(goal, weight), incline);
    assert sp * 3.6 / 3.6 == sp;
  }

  /** The option meets the goal exactly in the calories the goal counts, and gross
      exceeds active by the resting calories of the window. */
  lemma VariationMeetsGoal(goal: Goal, weight: real, incline: real)
    requires Solvable(goal, weight) && incline >= 0.0
    requires VariationAt(goal, weight, incline).Some?
    ensures var v := VariationAt(goal, weight, incline).value;
            match goal
            case ByTotal(target, timeMinutes, t) =>
              && (if t == Active then v.caloriesActive else v.caloriesGross) == target
              && v.calories == Some(target)
              && v.caloriesGross - v.caloriesActive == weight * (timeMinutes / 60.0)
              && v.timeMinutes == timeMinutes
            case ByRate(target, t) =>
              && (if t == Active then v.caloriesPerMinute else v.caloriesPerMinuteGross) == target
              && v.caloriesPerMinuteGross - v.caloriesPerMinute == weight / 60.0
              && v.caloriesActive == 60.0 * v.caloriesPerMinute
              && v.caloriesGross == 60.0 * v.caloriesPerMinuteGross
              && v.timeMinutes == 60.0
              && v.calories == None
  {
    var v := VariationAt(goal, weight, incline).value;
    var m := TargetMets(goal.Target(), weight, goal.WindowHours(), goal.CalorieKind() == Active);
    RecomputedMetsHitTarget(goal, weight, incline);
    assert v.mets == m;
  }

  /** Round trip over the whole answer: every option of a goal meets it exactly. */
  lemma OptionsMeetGoal(goal: Goal, weight: real)
    requires Solvable(goal, weight)
    ensures forall v :: v in Options(goal, weight) ==>
              match goal
              case ByTotal(target, timeMinutes, t) =>
                && (if t == Active then v.caloriesActive else v.caloriesGross) == target
                && v.caloriesGross - v.caloriesActive == weight * (timeMinutes / 60.0)
              case ByRate(target, t) =>
                && (if t == Active then v.caloriesPerMinute else v.caloriesPerMinuteGross) == target
                && v.caloriesActive == 60.0 * v.caloriesPerMinute
                && v.caloriesGross == 60.0 * v.caloriesPerMinuteGross
                && v.timeMinutes == 60.0
  {
    LadderAscending();
    OptionsAreCandidates(goal, weight);
    CandidatesSolved(goal, weight, InclineOptions);
    forall v | v in Options(goal, weight)
      ensures match goal
              case ByTotal(target, timeMinutes, t) =>
                && (if t == Active then v.caloriesActive else v.caloriesGross) == target
                && v.caloriesGross - v.caloriesActive == weight * (timeMinutes / 60.0)
              case ByRate(target, t) =>
                && (if t == Active then v.caloriesPerMinute else v.caloriesPerMinuteGross) == target
                && v.caloriesActive == 60.0 * v.caloriesPerMinute
                && v.caloriesGross == 60.0 * v.caloriesPerMinuteGross
                && v.timeMinutes == 60.0
    {
      var i :| 0 <= i < |Options(goal, weight)| && Options(goal, weight)[i] == v;
      VariationMeetsGoal(goal, weight, v.incline);
    }
  }

  /** A by-total option agrees with the forward engine run at its speed and incline. */
  lemma TotalVariationAgreesWithEngine(goal: Goal, weight: real, incline: real)
    requires goal.ByTotal? && Solvable(goal, weight) && incline >= 0.0
    requires VariationAt(goal, weight, incline).Some?
    ensures var v := VariationAt(goal, weight, incline).value;
            var m := TreadmillMetrics(v.speed, v.incline, goal.timeMinutes, weight);
            && m.mets == v.mets
            && m.calories == v.caloriesActive
            && m.caloriesPerMinute == v.caloriesPerMinute
  {
    var v := VariationAt(goal, weight, incline).value;
    var sp := SolvedSpeed(GoalVo2(goal, weight), incline);
    assert v.speed / 3.6 == sp;
  }

  /** Above resting VO2 the solved speed falls strictly as the incline rises. */
  lemma SpeedFallsWithIncline(targetVo2: real, g1: real, g2: real)
    requires targetVo2 > 3.5 && 0.0 <= g1 < g2
    ensures SolvedSpeed(targetVo2, g2) < SolvedSpeed(targetVo2, g1)
  {
    var d1 := 12.0 + 54.0 * (g1 / 100.0);
    var d2 := 12.0 + 54.0 * (g2 / 100.0);
    var n := targetVo2 - 3.5;
    assert 0.0 < d1 < d2;
    assert SolvedSpeed(targetVo2, g1) * d1 == n;
    assert SolvedSpeed(targetVo2, g2) * d2 == n;
    assert SolvedSpeed(targetVo2, g2) * d1 < n;
  }

  /** So, above resting VO2, the options run from fastest to slowest. */
  lemma OptionSpeedsFall(goal: Goal, weight: real)
    requires Solvable(goal, weight) && GoalVo2(goal, weight) > 3.5
    ensures var r := Options(goal, weight);
            forall i, j :: 0 <= i < j < |r| ==> r[j].speed < r[i].speed
  {
    LadderAscending();
    OptionsAreCandidates(goal, weight);
    CandidatesSolved(goal, weight, InclineOptions);
    CandidatesAscending(goal, weight, InclineOptions);
    var r := Options(goal, weight);
    forall i, j | 0 <= i < j < |r| ensures r[j].speed < r[i].speed {
      VariationAtBasics(goal, weight, r[i].incline);
      VariationAtBasics(goal, weight, r[j].incline);
      SpeedFallsWithIncline(GoalVo2(goal, weight), r[i].incline, r[j].incline);
    }
  }

  /** No incline feasible, no option pushed. */
  lemma {:induction false} CandidatesNone(goal: Goal, weight: real, inclines: seq<real>)
    requires Solvable(goal, weight)
    requires forall i :: 0 <= i < |inclines| ==> inclines[i] >= 0.0
    requires forall i :: 0 <= i < |inclines| ==> VariationAt(goal, weight, inclines[i]).None?
    ensures Candidates(goal, weight, inclines) == []
  {
    if inclines != [] {
      CandidatesNone(goal, weight, inclines[..|inclines| - 1]);
    }
  }

  /** A goal that needs more than 20 km/h even at the steepest incline (15%) has no options. */
  lemma NoOptionsBeyondTopSpeed(goal: Goal, weight: real)
    requires Solvable(goal, weight)
    requires GoalVo2(goal, weight) - 3.5 > (20.0 / 3.6) * (12.0 + 54.0 * 0.15)
    ensures Options(goal, weight) == []
  {
    LadderAscending();
    var v := GoalVo2(goal, weight);
    forall k | 0 <= k < |InclineOptions| ensures VariationAt(goal, weight, InclineOptions[k]).None? {
      var g := InclineOptions[k];
      var d := 12.0 + 54.0 * (g / 100.0);
      assert d <= 12.0 + 54.0 * 0.15;
      assert SolvedSpeed(v, g) * d == v - 3.5;
      assert SolvedSpeed(v, g) * 3.6 > 20.0;
    }
    OptionsAreCandidates(goal, weight);
    CandidatesNone(goal, weight, InclineOptions);
  }

  /** A goal that needs under 1 km/h even on the flat has no options. */
  lemma NoOptionsBelowWalkingSpeed(goal: Goal, weight: real)
    requires Solvable(goal, weight)
    requires GoalVo2(goal, weight) - 3.5 < 12.0 / 3.6
    ensures Options(goal, weight) == []
  {
    LadderAscending();
    var v := GoalVo2(goal, weight);
    forall k | 0 <= k < |InclineOptions| ensures VariationAt(goal, weight, InclineOptions[k]).None? {
      var g := InclineOptions[k];
      var d := 12.0 + 54.0 * (g / 100.0);
      assert d >= 12.0;
      assert SolvedSpeed(v, g) * d == v - 3.5;
      assert SolvedSpeed(v, g) * 3.6 < 1.0;
    }
    OptionsAreCandidates(goal, weight);
    CandidatesNone(goal, weight, InclineOptions);
  }

  /** 60 active kcal per minute at 70 kg is out of reach: no options at all. */
  lemma ExtremeRateHasNoOptions()
    ensures Options(ByRate(60.0, Active), 70.0) == []
  {
    var goal := ByRate(60.0, Active);
    assert GoalVo2(goal, 70.0) == (60.0 / (70.0 * (1.0 / 60.0)) + 1.0) * 3.5;
    NoOptionsBeyondTopSpeed(goal, 70.0);
  }

  /** The values of the goal form that handleCalculate reads. */
  datatype GoalForm = GoalForm(
    activeTab: Tab,
    weight: real,
    timeMinutes: real,
    targetCalories: real,
    calorieType: CalorieType,
    targetCalPerMin: real,
    calPerMinType: CalorieType
  )

  function FormGoal(f: GoalForm): Goal
  {
    if f.activeTab == ByTotalTab then ByTotal(f.targetCalories, f.timeMinutes, f.calorieType)
    else ByRate(f.targetCalPerMin, f.calPerMinType)
  }

  /** handleCalculate: None leaves the results as they were; Some(v) shows the options v. */
  method HandleCalculate(f: GoalForm) returns (outcome: Option<seq<Variation>>)
    ensures outcome.Some? <==>
              && 30.0 <= f.weight <= 200.0
              && (if f.activeTab == ByTotalTab then f.timeMinutes >= 1.0 && f.targetCalories > 0.0
                  else f.targetCalPerMin > 0.0)
    ensures outcome.Some? ==> Solvable(FormGoal(f), f.weight)
                              && outcome.value == Options(FormGoal(f), f.weight)
  {
    if f.weight < 30.0 || f.weight > 200.0 {
      return None;
    }
    if f.activeTab == ByTotalTab {
      if f.timeMinutes >= 1.0 && f.targetCalories > 0.0 {
        var v := CalculateVariationsByTotal(f.weight, f.timeMinutes, f.targetCalories, f.calorieType);
        return Some(v);
      }
    } else {
      if f.targetCalPerMin > 0.0 {
        var v := CalculateVariationsByRate(f.weight, f.targetCalPerMin, f.calPerMinType);
        return Some(v);
      }
    }
    return None;
  }
}
