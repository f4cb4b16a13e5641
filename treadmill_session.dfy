/**
 * The treadmill session: one body weight shared by an ordered list of one to
 * ten workout sets, the operations that edit them, the migration of sets
 * stored in the older single-`time` format, and the per-set metrics and the
 * session totals derived from them.
 */
module TreadmillSession {
  import opened Wrappers
  import opened Calculations

  const DefaultWeight: real := 85.0
  const MaxSets: nat := 10

  // ---------------------------------------------------------------------
  // JavaScript number helpers
  // ---------------------------------------------------------------------

  /** Math.round: the nearest integer, a half rounded up. */
  function Round(x: real): (r: int)
    ensures r as real - 0.5 <= x < r as real + 0.5
  {
    (x + 0.5).Floor
  }

  /** Math.trunc: the integer part, rounded toward zero. */
  function Trunc(x: real): (r: int)
    ensures x >= 0.0 ==> r as real <= x < r as real + 1.0
    ensures x < 0.0 ==> r as real - 1.0 < x <= r as real
  {
    if x >= 0.0 then x.Floor else -((-x).Floor)
  }

  /** `x % 1`: the fractional part, with the sign of `x`. */
  function Frac(x: real): (r: real)
    ensures Trunc(x) as real + r == x
    ensures x >= 0.0 ==> 0.0 <= r < 1.0
    ensures x < 0.0 ==> -1.0 < r <= 0.0
  {
    x - Trunc(x) as real
  }

  // ---------------------------------------------------------------------
  // Sets
  // ---------------------------------------------------------------------

  /** A workout set as the session holds it. `extra` holds any other field
      that `UpdateSet` was asked to write. */
  datatype WorkoutSet = WorkoutSet(
    id: string,
    incline: real,
    speed: real,
    timeMinutes: real,
    timeSeconds: real,
    extra: map<string, real>
  )

  /** createSet(): the defaults 10 % incline, 3.5 km/h, 90 min 0 s, under a fresh id. */
  function CreateSet(newId: string): (s: WorkoutSet)
    ensures s.id == newId && s.extra == map[]
    ensures IsValidIncline(s.incline) && IsValidSpeed(s.speed)
    ensures TotalMinutes(s) == 90.0
  {
    WorkoutSet(newId, 10.0, 3.5, 90.0, 0.0, map[])
  }

  /** A set as decoded from storage: any field may be missing; `time` is the
      old single duration in minutes. */
  datatype StoredSet = StoredSet(
    id: Option<string>,
    incline: Option<real>,
    speed: Option<real>,
    timeMinutes: Option<real>,
    timeSeconds: Option<real>,
    time: Option<real>
  )

  /** JavaScript truthiness of an optional number (NaN is not modelled). */
  predicate Truthy(n: Option<real>)
  {
    n.Some? && n.value != 0.0
  }

  /** The migration of one stored set into the current shape. */
  function MigrateSet(s: StoredSet, newId: string): (w: WorkoutSet)
    ensures w.id == if s.id.Some? && s.id.value != "" then s.id.value else newId
    ensures w.incline == s.incline.GetOr(10.0) && w.speed == s.speed.GetOr(3.5)
    ensures s.timeMinutes.Some? ==> w.timeMinutes == s.timeMinutes.value
    ensures s.timeSeconds.Some? ==> w.timeSeconds == s.timeSeconds.value
    ensures s.timeMinutes.None? && Truthy(s.time) ==>
              IsInteger(w.timeMinutes) && w.timeMinutes <= s.time.value < w.timeMinutes + 1.0
    ensures s.timeSeconds.None? && Truthy(s.time) ==>
              IsInteger(w.timeSeconds) && -0.5 < w.timeSeconds - 60.0 * Frac(s.time.value) <= 0.5
    ensures s.timeMinutes.None? && !Truthy(s.time) ==> w.timeMinutes == 90.0
    ensures s.timeSeconds.None? && !Truthy(s.time) ==> w.timeSeconds == 0.0
    ensures w.extra == map[]
  {
    var id := if s.id.Some? && s.id.value != "" then s.id.value else newId;
    var timeMinutes :=
      if s.timeMinutes.Some? then s.timeMinutes.value
      else if Truthy(s.time) then s.time.value.Floor as real
      else 90.0;
    var timeSeconds :=
      if s.timeSeconds.Some? then s.timeSeconds.value
      else if Truthy(s.time) then Round(Frac(s.time.value) * 60.0) as real
      else 0.0;
    WorkoutSet(id, s.incline.GetOr(10.0), s.speed.GetOr(3.5), timeMinutes, timeSeconds, map[])
  }

  /** A set written out by the current version. */
  function Stored(w: WorkoutSet): StoredSet
  {
    StoredSet(Some(w.id), Some(w.incline), Some(w.speed), Some(w.timeMinutes), Some(w.timeSeconds), None)
  }

  /** A set stored in the current shape comes back unchanged. */
  lemma MigrateCurrentIsIdentity(w: WorkoutSet, newId: string)
    requires w.id != "" && w.extra == map[]
    ensures MigrateSet(Stored(w), newId) == w
  {
  }

  /** A positive legacy `time` becomes its whole minutes plus the rest of it in
      seconds, rounded to a whole second (so possibly 60): the duration is kept
      to within half a second. */
  lemma MigrateLegacyKeepsDuration(s: StoredSet, newId: string)
    requires s.timeMinutes.None? && s.timeSeconds.None?
    requires s.time.Some? && s.time.value > 0.0
    ensures var w := MigrateSet(s, newId);
            && IsInteger(w.timeMinutes) && IsInteger(w.timeSeconds)
            && w.timeMinutes <= s.time.value < w.timeMinutes + 1.0
            && -0.5 < w.timeSeconds - 60.0 * (s.time.value - w.timeMinutes) <= 0.5
            && 0.0 <= w.timeSeconds <= 60.0
            && -1.0 / 120.0 <= TotalMinutes(w) - s.time.value <= 1.0 / 120.0
  {
    var t := s.time.value;
    var w := MigrateSet(s, newId);
    assert Trunc(t) == t.Floor;
    var frac := Frac(t);
    assert w.timeMinutes + frac == t;
    assert -0.5 <= w.timeSeconds - frac * 60.0 <= 0.5;
  }

  /** A legacy `time` just under a whole minute keeps the minute below it and
      rounds the remainder up to 60 seconds: 5.999 becomes 5 min 60 s. */
  lemma LegacyTimeMayGiveSixtySeconds(newId: string)
    ensures var w := MigrateSet(StoredSet(None, None, None, None, None, Some(5.999)), newId);
            w.timeMinutes == 5.0 && w.timeSeconds == 60.0
  {
    var t := 5.999;
    assert t.Floor == 5;
    assert Trunc(t) == 5;
    assert Frac(t) * 60.0 == 59.94;
    assert (59.94 + 0.5).Floor == 60;
  }

  /** All stored sets migrated, in order. */
  function MigrateAll(stored: seq<StoredSet>, newId: string): (r: seq<WorkoutSet>)
    ensures |r| == |stored|
    ensures forall i :: 0 <= i < |r| ==> r[i] == MigrateSet(stored[i], newId)
  {
    seq(|stored|, i requires 0 <= i < |stored| => MigrateSet(stored[i], newId))
  }

  // ---------------------------------------------------------------------
  // Field updates
  // ---------------------------------------------------------------------

  datatype Field = Incline | Speed | TimeMinutes | TimeSeconds | Other(name: string)

  /** The field that a field name passed to updateSet designates. */
  function FieldOf(name: string): Field
  {
    if name == "incline" then Incline
    else if name == "speed" then Speed
    else if name == "timeMinutes" then TimeMinutes
    else if name == "timeSeconds" then TimeSeconds
    else Other(name)
  }

  function FieldValue(s: WorkoutSet, f: Field): Option<real>
  {
    match f
    case Incline => Some(s.incline)
    case Speed => Some(s.speed)
    case TimeMinutes => Some(s.timeMinutes)
    case TimeSeconds => Some(s.timeSeconds)
    case Other(n) => if n in s.extra then Some(s.extra[n]) else None
  }

  /** `{ ...s, [field]: v }`: field `f` holds `v` afterwards, and nothing else changed. */
  function WithField(s: WorkoutSet, f: Field, v: real): (r: WorkoutSet)
    ensures FieldValue(r, f) == Some(v)
    ensures forall g :: g != f ==> FieldValue(r, g) == FieldValue(s, g)
    ensures r.id == s.id
  {
    match f
    case Incline => s.(incline := v)
    case Speed => s.(speed := v)
    case TimeMinutes => s.(timeMinutes := v)
    case TimeSeconds => s.(timeSeconds := v)
    case Other(n) => s.(extra := s.extra[n := v])
  }

  predicate IsInteger(x: real)
  {
    x.Floor as real == x
  }

  /** The value updateSet stores for a field, given the number it was passed. */
  function StoredValue(f: Field, v: real): (r: real)
    ensures f == Incline ==> IsInteger(r) && 0.0 <= r <= 25.0
                             && (0.0 <= v <= 25.0 ==> -0.5 < r - v <= 0.5)
                             && (v < 0.0 ==> r == 0.0) && (v > 25.0 ==> r == 25.0)
    ensures f == Speed ==> 1.0 <= r <= 20.0 && (1.0 <= v <= 20.0 ==> r == v)
                           && (v < 1.0 ==> r == 1.0) && (v > 20.0 ==> r == 20.0)
    ensures f == TimeMinutes ==> IsInteger(r) && 0.0 <= r <= 120.0
                                 && (0.0 <= v <= 120.0 ==> -0.5 < r - v <= 0.5)
                                 && (v < 0.0 ==> r == 0.0) && (v > 120.0 ==> r == 120.0)
    ensures f == TimeSeconds ==> IsInteger(r) && 0.0 <= r <= 59.0
                                 && (0.0 <= v <= 59.0 ==> -0.5 < r - v <= 0.5)
                                 && (v < 0.0 ==> r == 0.0) && (v > 59.0 ==> r == 59.0)
    ensures f.Other? ==> r == v
  {
    match f
    case Incline => Round(ValidateIncline(v)) as real
    case Speed => ValidateSpeed(v)
    case TimeMinutes => Max(0.0, Min(120.0, Round(v) as real))
    case TimeSeconds => Max(0.0, Min(59.0, Round(v) as real))
    case Other(_) => v
  }

  /** `prev.filter((_, i) => i !== index)`. */
  function WithoutIndex(s: seq<WorkoutSet>, index: int): (r: seq<WorkoutSet>)
    ensures !(0 <= index < |s|) ==> r == s
    ensures 0 <= index < |s| ==> |r| == |s| - 1
                                 && (forall j :: 0 <= j < index ==> r[j] == s[j])
                                 && (forall j :: index <= j < |r| ==> r[j] == s[j + 1])
  {
    if 0 <= index < |s| then s[..index] + s[index + 1..] else s
  }

  // ---------------------------------------------------------------------
  // Weight
  // ---------------------------------------------------------------------

  /** The weight state: a number, or the raw text being typed ('' while empty). */
  datatype WeightValue = Num(n: real) | Text(s: string)

  /** What updateWeight may be handed: empty, null or undefined; something
      `Number()` converts; or something it does not. */
  datatype WeightInput = Blank | Numeric(v: real) | NonNumeric(raw: string)

  /** Math.round(v * 10) / 10. */
  function RoundToTenth(v: real): (r: real)
    ensures IsInteger(r * 10.0)
    ensures -0.05 < r - v <= 0.05
  {
    var k := Round(v * 10.0) as real;
    assert -0.5 < k - v * 10.0 <= 0.5;
    assert k / 10.0 * 10.0 == k;
    k / 10.0
  }

  /** The weight the formulas use: the stored weight when it is a number in
      [30, 200], the default 85 kg otherwise. */
  function WeightForCalc(w: WeightValue): (r: real)
    ensures IsValidWeight(r)
    ensures w.Num? && IsValidWeight(w.n) ==> r == w.n
    ensures !(w.Num? && IsValidWeight(w.n)) ==> r == DefaultWeight
  {
    if w.Num? && w.n != 0.0 && w.n >= 30.0 && w.n <= 200.0 then w.n else DefaultWeight
  }

  // ---------------------------------------------------------------------
  // Per-set metrics and totals
  // ---------------------------------------------------------------------

  /** A set's duration in minutes: its minutes plus its seconds over 60. */
  function TotalMinutes(s: WorkoutSet): (t: real)
    ensures t * 60.0 == s.timeMinutes * 60.0 + s.timeSeconds
    ensures 0.0 <= s.timeSeconds < 60.0 ==> s.timeMinutes <= t < s.timeMinutes + 1.0
  {
    s.timeMinutes + s.timeSeconds / 60.0
  }

  /** What calculateTreadmillMetrics returns for one set. */
  function SetMetrics(s: WorkoutSet, weight: real): Metrics
  {
    RoundFigures(ExactSetMetrics(s, weight))
  }

  /** The results list: one metrics record per set, all at the same weight. */
  function ResultsOf(sets: seq<WorkoutSet>, weight: WeightValue): (r: seq<Metrics>)
    ensures |r| == |sets|
    ensures forall i :: 0 <= i < |r| ==> r[i] == SetMetrics(sets[i], WeightForCalc(weight))
  {
    seq(|sets|, i requires 0 <= i < |sets| => SetMetrics(sets[i], WeightForCalc(weight)))
  }

  /** `results.reduce((sum, r) => sum + r.calories, 0)`. */
  function SumCalories(results: seq<Metrics>): (r: real)
    ensures (forall i :: 0 <= i < |results| ==> results[i].calories >= 0.0) ==> r >= 0.0
  {
    if results == [] then 0.0
    else SumCalories(results[..|results| - 1]) + results[|results| - 1].calories
  }

  /** The total splits over a concatenation: adding or removing sets adds or removes their calories. */
  lemma {:induction false} SumCaloriesAppend(a: seq<Metrics>, b: seq<Metrics>)
    ensures SumCalories(a + b) == SumCalories(a) + SumCalories(b)
  {
    if b == [] {
      assert a + b == a;
    } else {
      SumCaloriesAppend(a, b[..|b| - 1]);
      assert (a + b)[..|a + b| - 1] == a + b[..|b| - 1];
    }
  }

  /** With no set burning negative calories, no set's calories exceed the total. */
  lemma {:induction false} SumCaloriesEachSet(results: seq<Metrics>)
    requires forall i :: 0 <= i < |results| ==> results[i].calories >= 0.0
    ensures forall i :: 0 <= i < |results| ==> results[i].calories <= SumCalories(results)
  {
    if results != [] {
      var init := results[..|results| - 1];
      SumCaloriesEachSet(init);
      assert forall i :: 0 <= i < |init| ==> init[i] == results[i];
    }
  }

  /** The gross calories of one result, which calculateTreadmillMetrics never
      returns: every result lacks the field. */
  function GrossField(m: Metrics): Option<real>
  {
    None
  }

  /** totalCaloriesGross as written: `results.reduce((sum, r) => sum + (r.caloriesGross || 0), 0)`.
      Every term is the fallback 0, so the total is 0 for every list of results. */
  function SumGrossAsWritten(results: seq<Metrics>): (r: real)
    ensures r == 0.0
  {
    if results == [] then 0.0
    else SumGrossAsWritten(results[..|results| - 1]) + GrossField(results[|results| - 1]).GetOr(0.0)
  }

  /** The exact figures of one set, before rounding. */
  function ExactSetMetrics(s: WorkoutSet, weight: real): Metrics
  {
    TreadmillMetrics(s.speed, s.incline, TotalMinutes(s), weight)
  }

  /** The gross calories the engine evidently meant to return beside `calories`:
      all the METs, rest included, times weight and hours, rounded to one
      decimal like `calories`. */
  function GrossFigure(e: Metrics, kg: real, minutes: real): real
  {
    ToFixed(ExactGross(e, kg, minutes), 1)
  }

  /** Gross calories before rounding: all the METs times weight and hours. */
  function ExactGross(e: Metrics, kg: real, minutes: real): real
  {
    e.mets * kg * (minutes / 60.0)
  }

  /** Resting calories: one MET times weight and hours. */
  function RestCalories(kg: real, minutes: real): real
  {
    kg * (minutes / 60.0)
  }

  function SetGross(s: WorkoutSet, kg: real): real
  {
    GrossFigure(ExactSetMetrics(s, kg), kg, TotalMinutes(s))
  }

  function GrossOf(sets: seq<WorkoutSet>, weight: WeightValue): (r: seq<real>)
    ensures |r| == |sets|
    ensures forall i :: 0 <= i < |r| ==> r[i] == SetGross(sets[i], WeightForCalc(weight))
  {
    seq(|sets|, i requires 0 <= i < |sets| => SetGross(sets[i], WeightForCalc(weight)))
  }

  /** Each set's resting calories: one MET over the set's duration. */
  function RestingOf(sets: seq<WorkoutSet>, weight: WeightValue): (r: seq<real>)
    ensures |r| == |sets|
    ensures forall i :: 0 <= i < |r| ==> r[i] == RestCalories(WeightForCalc(weight), TotalMinutes(sets[i]))
  {
    seq(|sets|, i requires 0 <= i < |sets| => RestCalories(WeightForCalc(weight), TotalMinutes(sets[i])))
  }

  function SumReal(xs: seq<real>): real
  {
    if xs == [] then 0.0 else SumReal(xs[..|xs| - 1]) + xs[|xs| - 1]
  }

  /** The gross total the sum was evidently meant to give: the sum of every set's gross calories. */
  function IntendedGrossTotal(sets: seq<WorkoutSet>, weight: WeightValue): real
  {
    SumReal(GrossOf(sets, weight))
  }

  /** Exact gross calories are exact net calories plus the resting calories. */
  lemma ExactGrossIsNetPlusRest(e: Metrics, kg: real, minutes: real)
    requires e.calories * 60.0 == (e.mets - 1.0) * kg * minutes
    ensures ExactGross(e, kg, minutes) == e.calories + RestCalories(kg, minutes)
  {
    assert e.mets * kg * minutes == e.calories * 60.0 + kg * minutes;
  }

  /** Each rounding moves a figure by at most 0.05 kcal, so the rounded gross
      and net figures of one set agree with net plus rest to within 0.1 kcal. */
  lemma FiguresNearNetPlusRest(e: Metrics, exactGross: real, rest: real)
    requires exactGross == e.calories + rest
    ensures -0.1 <= ToFixed(exactGross, 1) - RoundFigures(e).calories - rest <= 0.1
  {
    assert Pow10(1) == 10.0;
  }

  /** One set's rounded gross calories are its reported net calories plus its
      resting calories, to within 0.1 kcal. */
  lemma SetGrossNearNetPlusRest(s: WorkoutSet, kg: real)
    ensures -0.1 <= SetGross(s, kg) - SetMetrics(s, kg).calories - RestCalories(kg, TotalMinutes(s)) <= 0.1
  {
    var t := TotalMinutes(s);
    var e := ExactSetMetrics(s, kg);
    NetCaloriesAboveRest(s.speed, s.incline, t, kg);
    ExactGrossIsNetPlusRest(e, kg, t);
    FiguresNearNetPlusRest(e, ExactGross(e, kg, t), RestCalories(kg, t));
  }

  /** Summed over the sets, the per-set error bounds add up. */
  lemma {:induction false} SumGrossWithin(gross: seq<real>, results: seq<Metrics>, rest: seq<real>)
    requires |gross| == |results| == |rest|
    requires forall i :: 0 <= i < |gross| ==> -0.1 <= gross[i] - results[i].calories - rest[i] <= 0.1
    ensures -0.1 * (|gross| as real) <= SumReal(gross) - SumCalories(results) - SumReal(rest) <= 0.1 * (|gross| as real)
  {
    if gross != [] {
      var n := |gross|;
      var gi := gross[..n - 1];
      var ri := results[..n - 1];
      var si := rest[..n - 1];
      assert forall i :: 0 <= i < |gi| ==> gi[i] == gross[i] && ri[i] == results[i] && si[i] == rest[i];
      SumGrossWithin(gi, ri, si);
    }
  }

  /** The intended gross total is the net total plus the resting calories of the
      whole session, to within 0.1 kcal per set. */
  lemma IntendedGrossIsNetPlusRest(sets: seq<WorkoutSet>, weight: WeightValue)
    ensures -0.1 * (|sets| as real)
            <= IntendedGrossTotal(sets, weight) - SumCalories(ResultsOf(sets, weight)) - SumReal(RestingOf(sets, weight))
            <= 0.1 * (|sets| as real)
  {
    forall i | 0 <= i < |sets|
      ensures -0.1 <= GrossOf(sets, weight)[i] - ResultsOf(sets, weight)[i].calories
                      - RestingOf(sets, weight)[i] <= 0.1
    {
      SetGrossNearNetPlusRest(sets[i], WeightForCalc(weight));
    }
    SumGrossWithin(GrossOf(sets, weight), ResultsOf(sets, weight), RestingOf(sets, weight));
  }

  /** The default session at 85 kg burns gross calories, yet the as-written total reports 0. */
  lemma GrossTotalMissesDefaultSet(newId: string)
    ensures SumGrossAsWritten(ResultsOf([CreateSet(newId)], Num(DefaultWeight))) == 0.0
    ensures IntendedGrossTotal([CreateSet(newId)], Num(DefaultWeight)) > 0.0
  {
    var s := CreateSet(newId);
    var gross := GrossOf([s], Num(DefaultWeight));
    assert gross[..0] == [];
    assert WeightForCalc(Num(DefaultWeight)) == DefaultWeight;
    assert gross[0] == SetGross(s, DefaultWeight);
    var e := ExactSetMetrics(s, DefaultWeight);
    assert e.mets >= 1.0 && TotalMinutes(s) == 90.0;
    assert Pow10(1) == 10.0;
    assert ExactGross(e, DefaultWeight, 90.0) == e.mets * 127.5;
    assert SetGross(s, DefaultWeight) == ToFixed(ExactGross(e, DefaultWeight, 90.0), 1);
    assert SumReal(gross) == SumReal(gross[..0]) + gross[0];
  }

  // ---------------------------------------------------------------------
  // The session
  // ---------------------------------------------------------------------

  /** What storage held: the decoded object, whose fields may be missing. */
  datatype StoredSession = StoredSession(weight: Option<WeightValue>, sets: Option<seq<StoredSet>>)

  class Session {
    var weight: WeightValue
    var sets: seq<WorkoutSet>

    /** The set list is never empty. */
    ghost predicate Valid()
      reads this
    {
      |sets| >= 1
    }

    /** The one-to-ten range that adding and removing sets keep. */
    predicate WithinLimits()
      reads this
    {
      1 <= |sets| <= MaxSets
    }

    /** The initial state: restored from storage when it held a session, the
        defaults otherwise. `newId` stands for every freshly generated id. */
    constructor (stored: Option<StoredSession>, newId: string)
      ensures Valid()
      ensures stored.None? ==> weight == Num(DefaultWeight)
      ensures stored.Some? ==> weight == stored.value.weight.GetOr(Num(DefaultWeight))
      ensures (stored.Some? && stored.value.sets.Some? && |stored.value.sets.value| > 0) ==>
                sets == MigrateAll(stored.value.sets.value, newId)
      ensures !(stored.Some? && stored.value.sets.Some? && |stored.value.sets.value| > 0) ==>
                sets == [CreateSet(newId)]
    {
      if stored.Some? {
        weight := stored.value.weight.GetOr(Num(DefaultWeight));
        if stored.value.sets.Some? && |stored.value.sets.value| > 0 {
          sets := MigrateAll(stored.value.sets.value, newId);
        } else {
          sets := [CreateSet(newId)];
        }
      } else {
        weight := Num(DefaultWeight);
        sets := [CreateSet(newId)];
      }
    }

    /** updateWeight. */
    method UpdateWeight(input: WeightInput)
      requires Valid()
      modifies this
      ensures Valid() && sets == old(sets)
      ensures input.Blank? ==> weight == Text("")
      ensures input.Numeric? ==> weight == Num(ValidateWeight(RoundToTenth(input.v)))
      ensures input.NonNumeric? ==> weight == Text(input.raw)
    {
      if input.Blank? {
        weight := Text("");
        return;
      }
      if input.Numeric? {
        var rounded := RoundToTenth(input.v);
        var clamped := Max(30.0, Min(200.0, rounded));
        weight := Num(clamped);
      } else {
        weight := Text(input.raw);
      }
    }

    /** updateSet: an index outside the list changes nothing; otherwise only the
        named field of that one set changes, to the clamped value. */
    method UpdateSet(index: int, fieldName: string, value: real)
      requires Valid()
      modifies this
      ensures Valid() && weight == old(weight) && |sets| == old(|sets|)
      ensures !(0 <= index < old(|sets|)) ==> sets == old(sets)
      ensures 0 <= index < old(|sets|) ==>
                sets == old(sets)[index := WithField(old(sets)[index], FieldOf(fieldName),
                                                     StoredValue(FieldOf(fieldName), value))]
      ensures old(WithinLimits()) ==> WithinLimits()
    {
      if index < 0 || index >= |sets| {
        return;
      }
      var newSets := sets;
      var field := FieldOf(fieldName);
      var validValue := value;
      match field {
        case Incline => validValue := Round(ValidateIncline(validValue)) as real;
        case Speed => validValue := ValidateSpeed(validValue);
        case TimeMinutes => validValue := Max(0.0, Min(120.0, Round(validValue) as real));
        case TimeSeconds => validValue := Max(0.0, Min(59.0, Round(validValue) as real));
        case Other(_) =>
      }
      newSets := newSets[index := WithField(newSets[index], field, validValue)];
      sets := newSets;
    }

    /** addSet: one default set more, unless there are ten already. */
    method AddSet(newId: string)
      requires Valid()
      modifies this
      ensures Valid() && weight == old(weight)
      ensures old(|sets|) < MaxSets ==> sets == old(sets) + [CreateSet(newId)]
      ensures old(|sets|) >= MaxSets ==> sets == old(sets)
      ensures old(WithinLimits()) ==> WithinLimits()
    {
      if |sets| < MaxSets {
        sets := sets + [CreateSet(newId)];
      }
    }

    /** removeSet: drop the set at `index`, unless it is the only one. */
    method RemoveSet(index: int)
      requires Valid()
      modifies this
      ensures Valid() && weight == old(weight)
      ensures old(|sets|) > 1 ==> sets == WithoutIndex(old(sets), index)
      ensures old(|sets|) <= 1 ==> sets == old(sets)
      ensures old(WithinLimits()) ==> WithinLimits()
    {
      if |sets| > 1 {
        sets := WithoutIndex(sets, index);
      }
    }

    /** resetAll: back to 85 kg and one default set. */
    method ResetAll(newId: string)
      requires Valid()
      modifies this
      ensures Valid() && WithinLimits()
      ensures weight == Num(DefaultWeight) && sets == [CreateSet(newId)]
    {
      weight := Num(DefaultWeight);
      sets := [CreateSet(newId)];
    }

    /** The per-set results, all at the weight the formulas use. */
    function Results(): (r: seq<Metrics>)
      reads this
      ensures |r| == |sets|
      ensures forall i :: 0 <= i < |r| ==>
                r[i] == RoundedMetrics(sets[i].speed, sets[i].incline,
                                       sets[i].timeMinutes + sets[i].timeSeconds / 60.0,
                                       WeightForCalc(weight))
    {
      ResultsOf(sets, weight)
    }

    /** totalCalories: the sum of the per-set net calories. */
    function TotalCalories(): real
      reads this
    {
      SumCalories(Results())
    }

    /** totalCaloriesGross, as written: always 0. */
    function TotalCaloriesGross(): (r: real)
      reads this
      ensures r == 0.0
    {
      SumGrossAsWritten(Results())
    }
  }

  /** Adding a set adds exactly that set's calories to the session total. */
  lemma TotalGrowsByAddedSet(sets: seq<WorkoutSet>, weight: WeightValue, added: WorkoutSet)
    ensures SumCalories(ResultsOf(sets + [added], weight))
         == SumCalories(ResultsOf(sets, weight)) + SetMetrics(added, WeightForCalc(weight)).calories
  {
    var r := ResultsOf(sets + [added], weight);
    assert r[..|sets|] == ResultsOf(sets, weight);
  }
}
