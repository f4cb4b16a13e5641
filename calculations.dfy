/**
 * The forward metrics engine: the ACSM running equation that turns one
 * treadmill workout (speed, incline, duration, body weight) into oxygen
 * uptake, METs, net calories, calories per minute and distance, together
 * with the range clamps and range predicates that sit beside it.
 *
 * The formulas work on exact reals; the figures the engine returns are
 * those values rounded by `toFixed`, read back as numbers.
 */
module Calculations {

  /** The unrounded figures of one workout. `calories` are NET calories:
      the resting metabolism (1 MET) is subtracted. */
  datatype Metrics = Metrics(
    vo2: real,               // ml O2 per kg per minute
    mets: real,
    calories: real,          // kcal, resting metabolism excluded
    caloriesPerMinute: real,
    distance: real           // km
  )

  /** Oxygen uptake for a speed in km/h and an incline in percent,
      with the speed converted to m/s and the incline to a grade fraction. */
  function Vo2(speedKmh: real, inclinePercent: real): (vo2: real)
    ensures speedKmh >= 0.0 && inclinePercent >= 0.0 ==> vo2 >= 3.5
    ensures speedKmh == 0.0 ==> vo2 == 3.5
  {
    var speedMPerS := speedKmh / 3.6;
    var gradeFraction := inclinePercent / 100.0;
    3.5 + 12.0 * speedMPerS + 54.0 * speedMPerS * gradeFraction
  }

  /** The ACSM running equation as it is usually published:
      VO2 = 3.5 + 0.2 S + 0.9 S G, with S in m/min and G a grade fraction. */
  function AcsmRunningVo2(metersPerMinute: real, grade: real): real
  {
    3.5 + 0.2 * metersPerMinute + 0.9 * metersPerMinute * grade
  }

  /** The engine's m/s form is the published m/min equation. */
  lemma Vo2IsAcsmRunning(speedKmh: real, inclinePercent: real)
    ensures Vo2(speedKmh, inclinePercent)
         == AcsmRunningVo2(speedKmh * 1000.0 / 60.0, inclinePercent / 100.0)
  {
    var s := speedKmh / 3.6;
    var g := inclinePercent / 100.0;
    assert speedKmh * 1000.0 / 60.0 == s * 60.0;
    assert 0.9 * (s * 60.0) * g == 54.0 * s * g;
  }

  /** calculateTreadmillMetrics, before the display rounding. */
  function TreadmillMetrics(speedKmh: real, inclinePercent: real, timeMinutes: real, bodyWeightKg: real): (m: Metrics)
    ensures m.vo2 == Vo2(speedKmh, inclinePercent) && m.mets * 3.5 == m.vo2
    ensures speedKmh >= 0.0 && inclinePercent >= 0.0 ==> m.mets >= 1.0
    ensures timeMinutes > 0.0 ==> m.caloriesPerMinute * timeMinutes == m.calories
    ensures timeMinutes <= 0.0 ==> m.caloriesPerMinute == 0.0
    ensures timeMinutes == 0.0 ==> m.calories == 0.0 && m.distance == 0.0
    ensures m.distance * 60.0 == speedKmh * timeMinutes
  {
    var timeHours := timeMinutes / 60.0;
    var vo2 := Vo2(speedKmh, inclinePercent);
    var mets := vo2 / 3.5;
    var netMets := mets - 1.0;
    var calories := netMets * bodyWeightKg * timeHours;
    var distance := speedKmh * timeHours;
    var caloriesPerMinute := if timeMinutes > 0.0 then calories / timeMinutes else 0.0;
    Metrics(vo2, mets, calories, caloriesPerMinute, distance)
  }

  /** 10 to the power `digits`. */
  function Pow10(digits: nat): (p: real)
    ensures p >= 1.0
  {
    if digits == 0 then 1.0 else 10.0 * Pow10(digits - 1)
  }

  /** `parseFloat(x.toFixed(digits))`: the multiple of 10^-digits nearest to x,
      a tie going away from zero. */
  function ToFixed(x: real, digits: nat): (r: real)
    ensures -0.5 / Pow10(digits) <= r - x <= 0.5 / Pow10(digits)
    ensures x >= 0.0 ==> r >= 0.0
    ensures x <= 0.0 ==> r <= 0.0
  {
    var p := Pow10(digits);
    var n := if x < 0.0 then -(((-x) * p + 0.5).Floor) else (x * p + 0.5).Floor;
    ScaleBack(n as real, x, p);
    n as real / p
  }

  /** A count of units within half a unit of x * p, scaled back by p, is within half a unit of x. */
  lemma ScaleBack(n: real, x: real, p: real)
    requires p >= 1.0 && -0.5 <= n - x * p <= 0.5
    ensures -0.5 / p <= n / p - x <= 0.5 / p
    ensures x >= 0.0 && n >= 0.0 ==> n / p >= 0.0
    ensures x <= 0.0 && n <= 0.0 ==> n / p <= 0.0
  {
    assert n / p - x == (n - x * p) / p;
  }

  /** The figures calculateTreadmillMetrics returns: VO2, METs and distance to
      two decimals, calories and calories per minute to one. */
  function RoundFigures(e: Metrics): (m: Metrics)
    ensures -0.005 <= m.vo2 - e.vo2 <= 0.005
    ensures -0.005 <= m.mets - e.mets <= 0.005
    ensures -0.05 <= m.calories - e.calories <= 0.05
    ensures -0.05 <= m.caloriesPerMinute - e.caloriesPerMinute <= 0.05
    ensures -0.005 <= m.distance - e.distance <= 0.005
    ensures e.calories >= 0.0 ==> m.calories >= 0.0
  {
    assert Pow10(1) == 10.0 && Pow10(2) == 100.0;
    Metrics(ToFixed(e.vo2, 2), ToFixed(e.mets, 2), ToFixed(e.calories, 1),
            ToFixed(e.caloriesPerMinute, 1), ToFixed(e.distance, 2))
  }

  /** calculateTreadmillMetrics: the exact figures, rounded as returned. */
  function RoundedMetrics(speedKmh: real, inclinePercent: real, timeMinutes: real, bodyWeightKg: real): (m: Metrics)
    ensures -0.05 <= m.calories - TreadmillMetrics(speedKmh, inclinePercent, timeMinutes, bodyWeightKg).calories <= 0.05
    ensures -0.005 <= m.mets - TreadmillMetrics(speedKmh, inclinePercent, timeMinutes, bodyWeightKg).mets <= 0.005
    ensures -0.005 <= m.distance - TreadmillMetrics(speedKmh, inclinePercent, timeMinutes, bodyWeightKg).distance <= 0.005
  {
    RoundFigures(TreadmillMetrics(speedKmh, inclinePercent, timeMinutes, bodyWeightKg))
  }

  /** Net calories are the METs above rest times body weight times hours. */
  lemma NetCaloriesAboveRest(speedKmh: real, inclinePercent: real, timeMinutes: real, bodyWeightKg: real)
    ensures var m := TreadmillMetrics(speedKmh, inclinePercent, timeMinutes, bodyWeightKg);
            m.calories * 60.0 == (m.mets - 1.0) * bodyWeightKg * timeMinutes
  {
  }

  /** With positive speed, weight and time, a steeper incline burns strictly more. */
  lemma CaloriesIncreaseWithIncline(speedKmh: real, g1: real, g2: real, timeMinutes: real, bodyWeightKg: real)
    requires speedKmh > 0.0 && timeMinutes > 0.0 && bodyWeightKg > 0.0 && g1 < g2
    ensures TreadmillMetrics(speedKmh, g1, timeMinutes, bodyWeightKg).calories
          < TreadmillMetrics(speedKmh, g2, timeMinutes, bodyWeightKg).calories
  {
    var s := speedKmh / 3.6;
    var k := bodyWeightKg * (timeMinutes / 60.0) / 3.5;
    assert k > 0.0;
    var m1 := TreadmillMetrics(speedKmh, g1, timeMinutes, bodyWeightKg);
    var m2 := TreadmillMetrics(speedKmh, g2, timeMinutes, bodyWeightKg);
    assert m2.vo2 - m1.vo2 == 54.0 * s * ((g2 - g1) / 100.0);
    assert m2.vo2 - m1.vo2 > 0.0;
    assert m1.calories == (m1.vo2 - 3.5) * k;
    assert m2.calories == (m2.vo2 - 3.5) * k;
    assert m2.calories - m1.calories == (m2.vo2 - m1.vo2) * k;
  }

  /** Above rest (mets > 1) and with positive weight, a longer workout burns strictly more. */
  lemma CaloriesIncreaseWithTime(speedKmh: real, inclinePercent: real, t1: real, t2: real, bodyWeightKg: real)
    requires bodyWeightKg > 0.0 && t1 < t2
    requires TreadmillMetrics(speedKmh, inclinePercent, t1, bodyWeightKg).mets > 1.0
    ensures TreadmillMetrics(speedKmh, inclinePercent, t1, bodyWeightKg).calories
          < TreadmillMetrics(speedKmh, inclinePercent, t2, bodyWeightKg).calories
  {
    var m1 := TreadmillMetrics(speedKmh, inclinePercent, t1, bodyWeightKg);
    var m2 := TreadmillMetrics(speedKmh, inclinePercent, t2, bodyWeightKg);
    var k := (m1.mets - 1.0) * bodyWeightKg;
    assert k > 0.0;
    assert m2.mets == m1.mets;
    assert m1.calories == k * (t1 / 60.0);
    assert m2.calories == k * (t2 / 60.0);
    assert m2.calories - m1.calories == k * ((t2 - t1) / 60.0);
  }

  // ---------------------------------------------------------------------
  // Range clamps and range predicates
  // ---------------------------------------------------------------------

  function Min(a: real, b: real): real { if a <= b then a else b }
  function Max(a: real, b: real): real { if a >= b then a else b }

  /** Math.max(lo, Math.min(hi, v)): the nearest point of [lo, hi] to v. */
  function Clamp(v: real, lo: real, hi: real): (r: real)
    requires lo <= hi
    ensures lo <= r <= hi
    ensures lo <= v <= hi ==> r == v
    ensures v < lo ==> r == lo
    ensures v > hi ==> r == hi
  {
    Max(lo, Min(hi, v))
  }

  const MinWeight: real := 30.0
  const MaxWeight: real := 200.0
  const MinSpeed: real := 1.0
  const MaxSpeed: real := 20.0
  const MinIncline: real := 0.0
  const MaxIncline: real := 25.0
  const MinTime: real := 1.0
  const MaxTime: real := 120.0

  function ValidateWeight(weight: real): (r: real)
    ensures MinWeight <= r <= MaxWeight
    ensures MinWeight <= weight <= MaxWeight ==> r == weight
    ensures weight < MinWeight ==> r == MinWeight
    ensures weight > MaxWeight ==> r == MaxWeight
  {
    Clamp(weight, MinWeight, MaxWeight)
  }

  function ValidateSpeed(speed: real): (r: real)
    ensures MinSpeed <= r <= MaxSpeed
    ensures MinSpeed <= speed <= MaxSpeed ==> r == speed
    ensures speed < MinSpeed ==> r == MinSpeed
    ensures speed > MaxSpeed ==> r == MaxSpeed
  {
    Clamp(speed, MinSpeed, MaxSpeed)
  }

  function ValidateIncline(incline: real): (r: real)
    ensures MinIncline <= r <= MaxIncline
    ensures MinIncline <= incline <= MaxIncline ==> r == incline
    ensures incline < MinIncline ==> r == MinIncline
    ensures incline > MaxIncline ==> r == MaxIncline
  {
    Clamp(incline, MinIncline, MaxIncline)
  }

  function ValidateTime(time: real): (r: real)
    ensures MinTime <= r <= MaxTime
    ensures MinTime <= time <= MaxTime ==> r == time
    ensures time < MinTime ==> r == MinTime
    ensures time > MaxTime ==> r == MaxTime
  {
    Clamp(time, MinTime, MaxTime)
  }

  /** In range exactly when the clamp leaves the value alone. */
  predicate IsValidWeight(weight: real)
    ensures IsValidWeight(weight) <==> ValidateWeight(weight) == weight
  {
    weight >= MinWeight && weight <= MaxWeight
  }

  predicate IsValidSpeed(speed: real)
    ensures IsValidSpeed(speed) <==> ValidateSpeed(speed) == speed
  {
    speed >= MinSpeed && speed <= MaxSpeed
  }

  predicate IsValidIncline(incline: real)
    ensures IsValidIncline(incline) <==> ValidateIncline(incline) == incline
  {
    incline >= MinIncline && incline <= MaxIncline
  }

  predicate IsValidTime(time: real)
    ensures IsValidTime(time) <==> ValidateTime(time) == time
  {
    time >= MinTime && time <= MaxTime
  }
}
