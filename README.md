# Treadmill calorie calculator — a Dafny model

The application estimates the energy cost of treadmill workouts. It has four parts.

- **The forward engine** uses the ACSM running equation. VO2 = 3.5 + 12·S + 54·S·G, with S in m/s and G the grade as a fraction. METs = VO2 / 3.5. The engine turns speed, incline, duration and body weight into VO2, METs, net calories (resting metabolism excluded), calories per minute and distance. Each figure is rounded with `toFixed`. Beside it sit four range clamps and four range predicates (weight 30–200 kg, speed 1–20 km/h, incline 0–25 %, time 1–120 min).
- **The treadmill session** is one body weight shared by an ordered list of one to ten workout sets. It has edits to the weight and to single set fields, and adding, removing and resetting sets. When it is restored, sets stored in the older single-`time` format are migrated. It produces per-set results and the session totals.
- **The goal calculator** inverts the engine. A calorie goal — a total over a given time, or a rate per minute, counted as active or as gross calories — becomes a target VO2. For each incline of the ladder 0, 2, 4, 6, 8, 10, 12, 15 % the equation is solved for speed. Speeds outside 1–20 km/h are dropped. The rest are recomputed forward, classified by intensity and sorted by incline.
- **The weight and deficit log** holds one record per day (date, weight, calorie deficit), in date order. It adds or replaces the record of a day, removes a day, looks a day up, and gives a chart copy. Its view formats dates as DD/MM/YYYY, thins long series to about 500 chart points, lists the table newest first, and guards form submission.

Files and modules:

| file | module | models |
|---|---|---|
| `wrappers.dfy` | `Wrappers` | `Option`, used for missing fields and for NaN |
| `calculations.dfy` | `Calculations` | `src/utils/calculations.js` |
| `treadmill_session.dfy` | `TreadmillSession` | `src/hooks/useTreadmillCalc.js` (class `Session`) |
| `calorie_goal.dfy` | `CalorieGoal` | the solver and the input guard of `src/components/AICalorieCalculator.jsx` |
| `sorting.dfy` | `Sorting` | the `filter` and the stable comparator `sort` that both hooks and the solver use |
| `deficit_log.dfy` | `DeficitLog` | `src/hooks/useWeightDeficitLog.js` (class `Log`) |
| `deficit_log_view.dfy` | `DeficitLogView` | the pure helpers of `src/components/WeightDeficitLog.jsx` |

Numbers are Dafny `real`s, so the formulas are exact. `toFixed(d)` is `Calculations.ToFixed`: the nearest multiple of 10^-d, with a tie going away from zero. `Math.round` is `floor(x + 0.5)`. `Math.trunc` and the fractional part `x % 1` keep the sign of `x`. State that the hooks keep in React state becomes the fields of a class, and each setter becomes a method with a `modifies` clause. Sorting is an insertion sort that takes the elements in their original order and inserts each one behind every element it does not precede, the way a stable sort such as JavaScript's `sort` treats equal elements.

Two behaviours of the code may be unexpected; the model follows the code.
- `getIntensity` uses strict `<` thresholds, so METs of exactly 3, 6 or 9 fall into the higher band, not the lower one.
- `calculateTreadmillMetrics` returns no gross calories, although the session sums them (see Findings).

## Model

| member | source | states |
|---|---|---|
| Calculations.Vo2IsAcsmRunning | src/utils/calculations.js:16-21 | The engine's m/s form of VO2 equals the published ACSM running equation 3.5 + 0.2·S + 0.9·S·G, with S in m/min. |
| Calculations.Vo2 | src/utils/calculations.js:16-21 | Oxygen uptake is never below the resting 3.5 ml/kg/min for non-negative speed and incline, and is exactly 3.5 at zero speed; `Vo2IsAcsmRunning` ties it to the published equation. |
| Calculations.TreadmillMetrics | src/utils/calculations.js:14-36 | VO2 is the running equation and METs are VO2 / 3.5. METs are at least 1 for non-negative speed and incline. Calories per minute times the time gives the calories, or is 0 when the time is not positive. Distance is speed times hours. |
| Calculations.NetCaloriesAboveRest | src/utils/calculations.js:26-29 | Calories are the METs above rest (METs − 1) times weight times hours: net, resting metabolism excluded. |
| Calculations.CaloriesIncreaseWithIncline | src/utils/calculations.js:21-29 | At positive speed, time and weight, a steeper incline gives strictly more calories. |
| Calculations.CaloriesIncreaseWithTime | src/utils/calculations.js:18-29 | Above rest and at positive weight, a longer workout gives strictly more calories. |
| Calculations.Pow10 | src/utils/calculations.js:38-42 | The scale of a `toFixed` is at least 1. |
| Calculations.ToFixed | src/utils/calculations.js:38-42 | `parseFloat(x.toFixed(d))` is within half a unit of the last place of `x`, and keeps the sign of `x`. |
| Calculations.ScaleBack | src/utils/calculations.js:38-42 | A count within half a unit of x·p, divided by p, is within half a unit of the p-th place of x. |
| Calculations.RoundFigures | src/utils/calculations.js:37-43 | The returned VO2, METs and distance are within 0.005 of the exact values. Calories and calories per minute are within 0.05. Non-negative calories stay non-negative. |
| Calculations.RoundedMetrics | src/utils/calculations.js:14-43 | What `calculateTreadmillMetrics` returns: its calories are within 0.05 kcal, and its METs and distance within 0.005, of the exact figures of `TreadmillMetrics`. |
| Calculations.Clamp | src/utils/calculations.js:49-63 | `Math.max(lo, Math.min(hi, v))` lies in [lo, hi]. It is `v` inside the range, `lo` below it and `hi` above it. |
| Calculations.ValidateWeight | src/utils/calculations.js:49-51 | The result lies in [30, 200], and a weight already there is unchanged. Below the range it gives 30, above it 200. |
| Calculations.ValidateSpeed | src/utils/calculations.js:53-55 | The result lies in [1, 20], and a speed already there is unchanged. Below the range it gives 1, above it 20. |
| Calculations.ValidateIncline | src/utils/calculations.js:57-59 | The result lies in [0, 25], and an incline already there is unchanged. Below the range it gives 0, above it 25. |
| Calculations.ValidateTime | src/utils/calculations.js:61-63 | The result lies in [1, 120], and a time already there is unchanged. Below the range it gives 1, above it 120. |
| Calculations.IsValidWeight | src/utils/calculations.js:68-70 | A weight is valid exactly when `validateWeight` leaves it unchanged. |
| Calculations.IsValidSpeed | src/utils/calculations.js:72-74 | A speed is valid exactly when `validateSpeed` leaves it unchanged. |
| Calculations.IsValidIncline | src/utils/calculations.js:76-78 | An incline is valid exactly when `validateIncline` leaves it unchanged. |
| Calculations.IsValidTime | src/utils/calculations.js:80-82 | A time is valid exactly when `validateTime` leaves it unchanged. |
| TreadmillSession.Round | src/hooks/useTreadmillCalc.js:143 | `Math.round` gives the integer within half of x, a half rounding up. |
| TreadmillSession.Trunc | src/hooks/useTreadmillCalc.js:48 | The integer part rounds toward zero and is less than 1 away. |
| TreadmillSession.Frac | src/hooks/useTreadmillCalc.js:48 | `x % 1` plus the integer part gives x back. It lies in [0, 1) for non-negative x and in (−1, 0] otherwise. |
| TreadmillSession.CreateSet | src/hooks/useTreadmillCalc.js:27-33 | A new set has the given id, an incline and a speed within range, and lasts 90 minutes. |
| TreadmillSession.MigrateSet | src/hooks/useTreadmillCalc.js:43-49 | The stored id is kept when it is non-empty; otherwise a fresh one is used. Missing incline and speed default to 10 and 3.5. Stored minutes and seconds are kept. Without them, a truthy legacy `time` gives its whole minutes (the integer at or below it) and the rest of it in seconds rounded to an integer; without a truthy `time`, the set lasts 90 min 0 s. |
| TreadmillSession.MigrateCurrentIsIdentity | src/hooks/useTreadmillCalc.js:41-51 | A set stored in the current shape comes back unchanged. |
| TreadmillSession.MigrateLegacyKeepsDuration | src/hooks/useTreadmillCalc.js:47-48 | A positive legacy `time` becomes its integer part in minutes and its fractional part times 60, rounded to an integer in [0, 60], in seconds; the duration is kept to within half a second. |
| TreadmillSession.LegacyTimeMayGiveSixtySeconds | src/hooks/useTreadmillCalc.js:47-48 | A legacy `time` of 5.999 is stored as 5 min 60 s: the rounded seconds can reach 60. |
| TreadmillSession.MigrateAll | src/hooks/useTreadmillCalc.js:41-51 | Every stored set is migrated, in order, and none is added or dropped. |
| TreadmillSession.WithField | src/hooks/useTreadmillCalc.js:153-155 | The named field holds the new value afterwards, and every other field and the id are unchanged. |
| TreadmillSession.StoredValue | src/hooks/useTreadmillCalc.js:135-150 | Incline becomes an integer in [0, 25], speed a value in [1, 20], minutes an integer in [0, 120] and seconds an integer in [0, 59]. An in-range value moves by at most half, and speed not at all. A value below the range gives its lower end and one above gives its upper end. Any other field is stored as given. |
| TreadmillSession.WithoutIndex | src/hooks/useTreadmillCalc.js:168 | An index outside the list changes nothing. Otherwise exactly that set is dropped, and the others keep their order. |
| TreadmillSession.RoundToTenth | src/hooks/useTreadmillCalc.js:112 | The weight rounded to one decimal is a multiple of 0.1 within 0.05 of the input. |
| TreadmillSession.WeightForCalc | src/hooks/useTreadmillCalc.js:71 | The weight the formulas use is always valid. It is the stored weight when that is a number in [30, 200], and 85 kg otherwise. |
| TreadmillSession.ResultsOf | src/hooks/useTreadmillCalc.js:79-97 | There is one result per set, in order. Each is `calculateTreadmillMetrics` of that set's speed, incline and total minutes at the weight the formulas use. |
| TreadmillSession.TotalMinutes | src/hooks/useTreadmillCalc.js:89 | A set's duration in minutes is its minutes plus its seconds over 60; with seconds in [0, 60) it lies between the whole minutes and the next minute. |
| TreadmillSession.SumCalories | src/hooks/useTreadmillCalc.js:178-180 | The `reduce` over the results is non-negative when every set's calories are; `SumCaloriesAppend` shows how it splits over the sets. |
| TreadmillSession.SumCaloriesAppend | src/hooks/useTreadmillCalc.js:178-180 | The calorie total over two lists of results is the sum of their totals. |
| TreadmillSession.SumCaloriesEachSet | src/hooks/useTreadmillCalc.js:178-180 | With non-negative per-set calories, each set's calories are at most the total. |
| TreadmillSession.TotalGrowsByAddedSet | src/hooks/useTreadmillCalc.js:160-164 | Appending a set adds exactly that set's calories to `totalCalories`. |
| TreadmillSession.SumGrossAsWritten | src/hooks/useTreadmillCalc.js:181-183 | As written, `totalCaloriesGross` is 0 for every list of results, because every result lacks `caloriesGross`. |
| TreadmillSession.GrossTotalMissesDefaultSet | src/hooks/useTreadmillCalc.js:181-183 | For the default session (one default set at 85 kg), the as-written total is 0 while the intended gross total is positive. |
| TreadmillSession.GrossOf | src/hooks/useTreadmillCalc.js:181-183 | There is one gross figure per set. Each is all the METs times weight times hours, rounded to one decimal. |
| TreadmillSession.RestingOf | src/hooks/useTreadmillCalc.js:181-183 | There is one resting figure per set: one MET times weight times the set's hours. |
| TreadmillSession.ExactGrossIsNetPlusRest | src/utils/calculations.js:26-29 | Exact gross calories are exact net calories plus resting calories. |
| TreadmillSession.FiguresNearNetPlusRest | src/utils/calculations.js:37-43 | After rounding, gross calories minus net calories minus rest is within 0.1 kcal. |
| TreadmillSession.SetGrossNearNetPlusRest | src/hooks/useTreadmillCalc.js:89-96 | A set's rounded gross calories are its reported net calories plus its resting calories, to within 0.1 kcal. |
| TreadmillSession.SumGrossWithin | src/hooks/useTreadmillCalc.js:178-183 | Per-set bounds of 0.1 kcal add up to 0.1 kcal per set over the sums. |
| TreadmillSession.IntendedGrossIsNetPlusRest | src/hooks/useTreadmillCalc.js:181-183 | The corrected gross total is the net total plus the session's resting calories, to within 0.1 kcal per set. |
| TreadmillSession.Session.constructor | src/hooks/useTreadmillCalc.js:13-59 | The stored weight is restored, or 85 kg. Stored sets are migrated when there are any; otherwise the session has one default set. There is always at least one set. |
| TreadmillSession.Session.UpdateWeight | src/hooks/useTreadmillCalc.js:102-120 | Blank input gives ''. A number is rounded to a tenth (a multiple of 0.1 within 0.05) and clamped to [30, 200]. Other text is kept as typed. The sets are untouched. |
| TreadmillSession.Session.UpdateSet | src/hooks/useTreadmillCalc.js:123-158 | An index outside the list changes nothing. Otherwise only the named field of that set changes, to its clamped value. The weight and the number of sets are kept, and so is the one-to-ten range. |
| TreadmillSession.Session.AddSet | src/hooks/useTreadmillCalc.js:160-164 | Below ten sets, one default set is appended; at ten, nothing changes. The weight is kept, and so is the one-to-ten range. |
| TreadmillSession.Session.RemoveSet | src/hooks/useTreadmillCalc.js:166-170 | With more than one set, the set at the index is dropped; with one, nothing changes. The list never becomes empty. |
| TreadmillSession.Session.ResetAll | src/hooks/useTreadmillCalc.js:172-175 | The session goes back to 85 kg and one default set. |
| TreadmillSession.Session.Results | src/hooks/useTreadmillCalc.js:79-97 | There is one result per set: the rounded engine figures at the set's speed, incline and minutes plus seconds/60, at the weight the formulas use. |
| TreadmillSession.Session.TotalCaloriesGross | src/hooks/useTreadmillCalc.js:181-183 | As written, the gross total of the session is 0. |
| CalorieGoal.GetIntensity | src/components/AICalorieCalculator.jsx:26-31 | Light is below 3 METs, Moderate is [3, 6), Vigorous is [6, 9) and Very Vigorous is 9 and above, each as an if-and-only-if. |
| CalorieGoal.IntensityMonotonic | src/components/AICalorieCalculator.jsx:26-31 | More METs never give a lighter band. |
| CalorieGoal.TargetMets | src/components/AICalorieCalculator.jsx:39-43 | The target METs, put back into the calorie equation (METs − 1 for active, METs for gross), give the target calories exactly. |
| CalorieGoal.SolvedSpeed | src/components/AICalorieCalculator.jsx:48-50 | The solved speed, run through the forward VO2 equation, gives the target VO2 exactly. |
| CalorieGoal.TotalVariation | src/components/AICalorieCalculator.jsx:54-72 | A by-total option carries its incline, its speed in km/h and the time. Its METs are the forward VO2 at that speed and incline over 3.5, with their intensity. Active calories are the METs above rest times weight and hours, and gross exceeds active by weight × hours. `calories` is the kind the goal counts. |
| CalorieGoal.RateVariation | src/components/AICalorieCalculator.jsx:101-118 | A by-rate option carries its incline and speed, a 60-minute time and no `calories`. Its METs are the forward VO2 over 3.5, with their intensity. Gross per minute exceeds active per minute by weight / 60, and the 60-minute figures are 60 times the per-minute ones. |
| CalorieGoal.Candidates | src/components/AICalorieCalculator.jsx:47-74 | Going through the inclines pushes at most one option per incline; `CandidatesSolved`, `CandidatesAscending` and `CandidatesComplete` say which. |
| CalorieGoal.Options | src/components/AICalorieCalculator.jsx:46-75 | The answer has at most as many options as the ladder has inclines; `OptionsWellFormed`, `OptionsComplete` and `OptionsMeetGoal` characterise it. |
| CalorieGoal.CalculateVariationsByTotal | src/components/AICalorieCalculator.jsx:34-79 | The loop over the ladder returns exactly `Options` of the by-total goal. |
| CalorieGoal.CalculateVariationsByRate | src/components/AICalorieCalculator.jsx:82-125 | The loop over the ladder returns exactly `Options` of the by-rate goal. |
| CalorieGoal.LadderAscending | src/components/AICalorieCalculator.jsx:46 | The incline ladder is non-negative and strictly ascending. |
| CalorieGoal.VariationAtBasics | src/components/AICalorieCalculator.jsx:53-72 | An option reports the incline it was solved at and its solved speed in km/h, which lies in [1, 20], and the intensity of its METs. |
| CalorieGoal.CandidatesSolved | src/components/AICalorieCalculator.jsx:47-74 | Every option lies at one of the inclines gone through, and it is the solution at that incline. |
| CalorieGoal.CandidatesAscending | src/components/AICalorieCalculator.jsx:47-74 | Strictly ascending inclines give options in strictly ascending incline order. |
| CalorieGoal.CandidatesComplete | src/components/AICalorieCalculator.jsx:47-74 | Every incline with a feasible solved speed has its option in the result. |
| CalorieGoal.OptionsAreCandidates | src/components/AICalorieCalculator.jsx:75 | The sort by incline finds the options already in order and changes nothing. |
| CalorieGoal.OptionsWellFormed | src/components/AICalorieCalculator.jsx:46-75 | There are at most eight options. Each is at a ladder incline, has a speed in [1, 20] km/h and carries the intensity of its METs. They are in strictly ascending incline order. |
| CalorieGoal.OptionsComplete | src/components/AICalorieCalculator.jsx:47-74 | A ladder incline has an option exactly when its solved speed lies in [1, 20] km/h. |
| CalorieGoal.RecomputedMetsHitTarget | src/components/AICalorieCalculator.jsx:54-55 | The recomputed METs of an option are exactly the target VO2 / 3.5. |
| CalorieGoal.VariationMeetsGoal | src/components/AICalorieCalculator.jsx:54-72 | For a total goal, the option's counted calories equal the target, and gross minus active is weight × hours. For a rate goal, the counted calories per minute equal the target, and the 60-minute figures are 60 times the per-minute ones. `calories` is present only for a total goal. |
| CalorieGoal.OptionsMeetGoal | src/components/AICalorieCalculator.jsx:34-125 | Round trip over the whole answer: every returned option meets its goal exactly in the calories the goal counts. |
| CalorieGoal.TotalVariationAgreesWithEngine | src/components/AICalorieCalculator.jsx:54-59 | A by-total option's METs, active calories and active calories per minute are what the forward engine (unrounded) gives at the option's speed and incline. |
| CalorieGoal.SpeedFallsWithIncline | src/components/AICalorieCalculator.jsx:48-50 | Above resting VO2, the solved speed falls strictly as the incline rises. |
| CalorieGoal.OptionSpeedsFall | src/components/AICalorieCalculator.jsx:46-75 | Above resting VO2 the options run from fastest to slowest. |
| CalorieGoal.CandidatesNone | src/components/AICalorieCalculator.jsx:53 | When no incline is feasible, no option is pushed. |
| CalorieGoal.NoOptionsBeyondTopSpeed | src/components/AICalorieCalculator.jsx:53 | A goal needing more than 20 km/h even at 15 % has no options. |
| CalorieGoal.NoOptionsBelowWalkingSpeed | src/components/AICalorieCalculator.jsx:53 | A goal needing less than 1 km/h even on the flat has no options. |
| CalorieGoal.ExtremeRateHasNoOptions | src/components/AICalorieCalculator.jsx:82-125 | 60 active kcal per minute at 70 kg gives an empty answer. |
| CalorieGoal.HandleCalculate | src/components/AICalorieCalculator.jsx:127-134 | It computes exactly when the weight is in [30, 200] and, on the total tab, time ≥ 1 and target > 0, or on the rate tab, rate > 0. The result is then `Options` of the goal the form states. |
| Sorting.Filter | src/hooks/useWeightDeficitLog.js:33 | `filter` keeps exactly the elements that pass, and no more of them than there were. |
| Sorting.FilterAppend | src/hooks/useWeightDeficitLog.js:33 | Filtering a concatenation is the concatenation of the filtered parts, so the kept elements keep their original order. |
| Sorting.SortBy | src/hooks/useWeightDeficitLog.js:34-36 | The comparator sort returns a permutation of its input; `SortSorts` shows it is sorted under a consistent comparator. |
| Sorting.InsertPermutes | src/hooks/useWeightDeficitLog.js:34-36 | An insertion adds exactly one element. |
| Sorting.InsertKeepsSorted | src/hooks/useWeightDeficitLog.js:34-36 | Under a consistent comparator, inserting into a sorted list keeps it sorted. |
| Sorting.SortSorts | src/hooks/useWeightDeficitLog.js:34-36 | Under a consistent comparator, the sort returns a sorted list. |
| Sorting.InsertBehindAll | src/hooks/useWeightDeficitLog.js:34-36 | An element that every element of the list may precede is inserted at the back, behind the elements equal to it. |
| Sorting.SortOfSortedIsIdentity | src/components/AICalorieCalculator.jsx:75 | Sorting an already ordered list changes nothing. |
| Sorting.FilterInsertDropped | src/hooks/useWeightDeficitLog.js:33-36 | Inserting an element the filter drops does not change what it keeps. |
| Sorting.FilterKeepsAll | src/hooks/useWeightDeficitLog.js:33 | A filter that every element passes is the identity. |
| Sorting.FilterKeepsNone | src/hooks/useWeightDeficitLog.js:33 | A filter that no element passes gives the empty list. |
| Sorting.FilterInsertOnlyKept | src/hooks/useWeightDeficitLog.js:33-36 | Inserting the only element the filter keeps leaves that element alone. |
| Sorting.FilterKeepsSorted | src/hooks/useWeightDeficitLog.js:46 | Filtering a sorted list keeps it sorted. |
| DeficitLog.StrLeqTotal | src/hooks/useWeightDeficitLog.js:35 | Any two date strings compare one way or the other. |
| DeficitLog.StrLeqTrans | src/hooks/useWeightDeficitLog.js:35 | The string order is transitive. |
| DeficitLog.StrLeqAntisymmetric | src/hooks/useWeightDeficitLog.js:35 | Two strings that each compare at most the other are equal. |
| DeficitLog.DateLeqIsTotalPreorder | src/hooks/useWeightDeficitLog.js:34-36 | The comparator by date is total and transitive. |
| DeficitLog.Upsert | src/hooks/useWeightDeficitLog.js:32-37 | The new list has one more record than the records of other days, and so at most one more than the old list; `UpsertResult` says which records they are. |
| DeficitLog.UpsertIsInsert | src/hooks/useWeightDeficitLog.js:32-37 | The new list is the new record inserted into the sorted records of the other days. Those are a permutation of the filtered list, and all come from the old list. |
| DeficitLog.UpsertContents | src/hooks/useWeightDeficitLog.js:32-37 | The new list is, as a multiset, the records of other days plus the new record. |
| DeficitLog.UpsertDayHoldsNew | src/hooks/useWeightDeficitLog.js:28-38 | Afterwards the day has exactly one record, the new one. |
| DeficitLog.UpsertKeepsOthers | src/hooks/useWeightDeficitLog.js:33 | Every record of another day is still in the list. |
| DeficitLog.UpsertAddsNothingElse | src/hooks/useWeightDeficitLog.js:33-34 | Every record in the new list is the new record or an old record of another day. |
| DeficitLog.UpsertResult | src/hooks/useWeightDeficitLog.js:28-38 | Afterwards the day has exactly one record, the new one. Every record of another day is kept, nothing else is added, and the list is in date order. |
| DeficitLog.UpsertIdempotent | src/hooks/useWeightDeficitLog.js:28-38 | Adding the same record twice is the same as adding it once. |
| DeficitLog.RemoveDate | src/hooks/useWeightDeficitLog.js:45-47 | Exactly the records of other days remain. |
| DeficitLog.RemoveKeepsSorted | src/hooks/useWeightDeficitLog.js:45-47 | Removing a day keeps a date-ordered list in date order. |
| DeficitLog.FindByDate | src/hooks/useWeightDeficitLog.js:40-43 | The result is None exactly when no record has the date. Otherwise it is the first record with that date. |
| DeficitLog.FindIsFirstOfDay | src/hooks/useWeightDeficitLog.js:40-43 | The record found is the first of that day's records, in list order. |
| DeficitLog.FindAfterUpdates | src/hooks/useWeightDeficitLog.js:28-47 | After adding a day, looking it up gives the new record; after removing it, nothing. |
| DeficitLog.ChartDataOf | src/hooks/useWeightDeficitLog.js:49-52 | The chart data is a sorted permutation of the records, oldest first. |
| DeficitLog.Log.constructor | src/hooks/useWeightDeficitLog.js:9-18 | The log starts with the stored array, or empty. |
| DeficitLog.Log.AddOrUpdate | src/hooks/useWeightDeficitLog.js:28-38 | An empty date or a NaN weight or deficit leaves the log unchanged. Otherwise the log becomes the upsert of the old records. |
| DeficitLog.Log.Remove | src/hooks/useWeightDeficitLog.js:45-47 | The log becomes the old records without that day. |
| DeficitLog.Log.GetByDate | src/hooks/useWeightDeficitLog.js:40-43 | The result is None exactly when no record has the date. Otherwise it is the first record of the log with that date. |
| DeficitLog.Log.ChartData | src/hooks/useWeightDeficitLog.js:49-52 | The result is a date-sorted permutation of the log. |
| DeficitLogView.Split | src/components/WeightDeficitLog.jsx:28 | `split` always gives at least one piece. |
| DeficitLogView.JoinSplit | src/components/WeightDeficitLog.jsx:28 | Joining the pieces with the separator gives the string back. |
| DeficitLogView.SplitPiece | src/components/WeightDeficitLog.jsx:28 | A separator-free piece followed by a separator splits off whole. |
| DeficitLogView.SplitWhole | src/components/WeightDeficitLog.jsx:28 | A separator-free string is a single piece. |
| DeficitLogView.FormatDateTable | src/components/WeightDeficitLog.jsx:26-30 | The rendering is empty exactly when the date is; `FormatDateTableSwaps` shows YYYY-MM-DD becomes DD/MM/YYYY. |
| DeficitLogView.FormatDateTableSwaps | src/components/WeightDeficitLog.jsx:26-30 | YYYY-MM-DD becomes DD/MM/YYYY. |
| DeficitLogView.FormatDateTableWithoutDashes | src/components/WeightDeficitLog.jsx:26-30 | A non-empty date without dashes becomes "undefined/undefined/" followed by the date. |
| DeficitLogView.Step | src/components/WeightDeficitLog.jsx:79 | `Math.ceil(n / 500)` is the least step with n ≤ step·500. |
| DeficitLogView.DisplayData | src/components/WeightDeficitLog.jsx:76-81 | Up to 500 points are charted unchanged; the chart never gets more than 501 points, and the first and last points are always among them. `DisplayDataShape` gives the exact sample. |
| DeficitLogView.MulMonotonic | src/components/WeightDeficitLog.jsx:79-80 | Multiplying by a non-negative number keeps the order. |
| DeficitLogView.DivModInStride | src/components/WeightDeficitLog.jsx:80 | An index in stride j has quotient j and remainder its offset in the stride. |
| DeficitLogView.SampleSkipsGap | src/components/WeightDeficitLog.jsx:80 | Indices the filter does not keep contribute nothing. |
| DeficitLogView.StridePosIsProduct | src/components/WeightDeficitLog.jsx:80 | Stride k starts at k·step. |
| DeficitLogView.StridePosMonotonic | src/components/WeightDeficitLog.jsx:80 | Later strides start later. |
| DeficitLogView.StrideInterior | src/components/WeightDeficitLog.jsx:80 | Within a stride, only its first index is a multiple of step. |
| DeficitLogView.OneStride | src/components/WeightDeficitLog.jsx:80 | A stride before the last contributes its first point only. |
| DeficitLogView.SampleFromKept | src/components/WeightDeficitLog.jsx:80 | A kept index puts its point in front of the rest of the sample. |
| DeficitLogView.LastStrideGap | src/components/WeightDeficitLog.jsx:80 | No index after the start of the last stride is kept, except the last index. |
| DeficitLogView.SampleFromLast | src/components/WeightDeficitLog.jsx:80 | The last index is always kept. |
| DeficitLogView.LastStrideTwoPoints | src/components/WeightDeficitLog.jsx:80 | A last stride that starts before the last index contributes its first point and the last point. |
| DeficitLogView.LastStride | src/components/WeightDeficitLog.jsx:80 | The last stride contributes its first point, then the last point unless it is the same point. |
| DeficitLogView.SampleStrides | src/components/WeightDeficitLog.jsx:80 | From stride j on, the sample is the first point of every remaining stride, then the last point. |
| DeficitLogView.SampleStridesStep | src/components/WeightDeficitLog.jsx:80 | The step of that induction, from stride j + 1 back to stride j. |
| DeficitLogView.LastStrideByDivision | src/components/WeightDeficitLog.jsx:80 | The last stride is (n − 1) / step, and it starts at the last index exactly when step divides n − 1. |
| DeficitLogView.SampleByStrides | src/components/WeightDeficitLog.jsx:80 | The whole sample is the first point of every stride up to the last, then the last point unless that stride starts at it. |
| DeficitLogView.SampleWhole | src/components/WeightDeficitLog.jsx:80 | The sample has (n − 1) / step + 1 points, plus one unless step divides n − 1. Point k is index k·step. The first and the last point are included. |
| DeficitLogView.FewStrides | src/components/WeightDeficitLog.jsx:79 | With step = ceil(n / 500) there are at most 500 strides. |
| DeficitLogView.DisplayDataShape | src/components/WeightDeficitLog.jsx:76-81 | Up to 500 points are kept as they are. Beyond that, the chart gets every step-th point and then the last point, in order: at most 501 points, with the first and the last included. |
| DeficitLogView.DateGeqIsTotalPreorder | src/components/WeightDeficitLog.jsx:87 | The newest-first comparator is total and transitive. |
| DeficitLogView.TableRows | src/components/WeightDeficitLog.jsx:86-89 | The table rows are a permutation of the records, newest first. |
| DeficitLogView.HandleSubmit | src/components/WeightDeficitLog.jsx:55-62 | A record is submitted exactly when the date is non-empty and the weight parses to a number in [30, 200]. It carries that date and weight, and the parsed deficit, or 0 when that is NaN. |
| DeficitLogView.SubmittedEntryIsLogged | src/components/WeightDeficitLog.jsx:55-62 | A submitted record passes the add guard, and it is what the log then holds for that day. |

## Left out

- Storage: `localStorage` reads and writes, `JSON.parse` and its failure paths, and the save effects are I/O. The already-decoded stored value is a constructor parameter (`Option`), with None for missing, unreadable or non-array data.
- Ids: the `Date.now()`/`Math.random()` ids of new sets are one `newId` parameter. Distinct sets may therefore share an id in the model.
- Binary floating point: numbers are exact reals, so results near a binary rounding step (for example a `toFixed` halfway case such as 1.005) can differ from the program's. NaN appears only as `Option` None where the code tests `isNaN`. Infinity, `-0` and overflow are not modelled.
- `Number()` and `parseFloat()` over strings are inputs already converted (`WeightInput`, `Option<real>`), not string parsers.
- `weightForCalc` treats a weight held as text as invalid. A numeric string in the range, which the JavaScript comparison would coerce, is not modelled: `updateWeight` never stores one.
- `updateSet` with the field name `id` is taken as an extra field, so the set's own id is never replaced.
- Data given by `updateSet` to a field not among incline, speed, timeMinutes and timeSeconds is kept in `extra` but is not read by the results.
- `null` and `undefined` are the same missing value (`Option` None). `??`, `!== undefined` and `||` are modelled on that one missing value.
- `localeCompare` on dates is code-point lexicographic order. That is how same-length ISO date strings compare in any locale; other strings may compare differently.
- The results effect's guard against an empty set list (useTreadmillCalc.js:74-77) is not separately modelled, because the session keeps at least one set (`Session.Valid`).
- `console.warn` on an invalid set index is left out (logging).
- UI-only code is left out: rendering, `resultContext`, `setShowResults`, `resetForm`, `formatChartDate`, `getTodayStr`, the effect that loads the form on a date change, deleting through `window.confirm`, the clipboard table text, the scrolling, and the wheel pickers.
- Goal options keep their unrounded figures, as the solver does. The intensity label's colour strings are not modelled; `Intensity.Label` keeps only the labels.
- Session.TotalCalories: carries no contract of its own. The calorie total is described by `SumCaloriesAppend`, `SumCaloriesEachSet` and `TotalGrowsByAddedSet`.
- Calculations.RoundFigures: states the rounding only as a bound, half a unit of the last place. That `toFixed` hits a multiple of that unit exactly is not stated.

## Findings

| source | as written | input that shows it | evidently intended | confidence | as-written member | corrected member |
|---|---|---|---|---|---|---|
| src/hooks/useTreadmillCalc.js:181-183 | `totalCaloriesGross` sums `result.caloriesGross \|\| 0`, but `calculateTreadmillMetrics` (src/utils/calculations.js:37-43) returns no `caloriesGross`, so the total is always 0 | the default session: one set of 10 % incline at 3.5 km/h for 90 min, at 85 kg | the sum of each set's gross calories, i.e. net calories plus resting calories (1 MET × weight × hours) | not executed | TreadmillSession.SumGrossAsWritten, TreadmillSession.GrossTotalMissesDefaultSet | TreadmillSession.IntendedGrossIsNetPlusRest |
