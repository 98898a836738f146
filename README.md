# Grade calculator engine, modelled in Dafny

This project models the calculation engine of a grade calculator app. The engine has two parts:

- The **grade evaluator** takes a midterm and a final-exam grade. It computes the weighted semester grade and applies two independent pass floors: one on the final exam and one on the semester grade. It explains the verdict with a list of reasons and can look up a letter grade in an ordered table of ranges (first match wins).
- The **goal solver** takes a midterm grade and a target: pass, a semester score, or a letter. It checks its inputs in a fixed order and maps the target to a semester grade. It then inverts the weighting formula to find the final-exam grade the target needs. It rejects answers outside 0-100, and for a pass target it substitutes the exam floor when that floor is the binding constraint. It also flags infeasibility.

Both parts read a plain settings record: the weights, the two floors, a letter-grade switch and the letter table. The engine reads only the settings it is passed. The project also models the default settings of `types/index.ts`, which the settings screen resets to.

Files:

- `types.dfy` (module `Types`): the records of `types/index.ts` as datatypes, and `DEFAULT_SETTINGS`.
  - Nullable numbers are `Option<real>`.
  - The loosely typed target value is `TargetValue = NoValue | Num | Str`. It is kept separate from `TargetType`, as in the source.
  - Messages and reasons are tags that carry the values their text would show.
  - `ValidSettings` is the invariant the settings editor keeps: weights are percentages that sum to 100, and floors lie in 0-100.
- `calculations.dfy` (module `Calculations`): the operations of `helpers/calculations.ts`.
  - Pure expressions are functions: `ValidateGrade`, `SemesterGrade`, `Contribution`.
  - The step-by-step code is methods: `CheckPassFail` accumulates reasons; `GetLetterGrade` is a loop with an early return; `PerformCalculation` and `CalculateGoal` assign across branches with early returns.
  - Each method is tied to reference definitions, and lemmas are proved about those: `Passes`, `ReasonsExplain`, `LetterFor`, `FindRange`, `InverseFinal`. The ensures of `CalculateGoal` and `SolveThenEvaluate` are also stated in terms of `TargetSemesterGrade`, the semester grade a target asks for.
- `defaults.dfy` (module `DefaultTable`): properties of the default weights, floors and letter table, and the letter round trip under the defaults.
- `scenarios.dfy` (module `Scenarios`): the engine on concrete inputs, and the counterexample of the finding below.

Grades and weights are exact `real`s, so every equation the source relies on holds exactly.

Two behaviours of the code worth noting:

- A score target is rejected when it is falsy, so a target of 0 is refused as an invalid target score. It never reaches the feasibility checks (`Scenarios.SolveScoreZero`).
- A negative required final is reported with the "target too high" message, whatever the target type.

## Model

| member | source | states |
|---|---|---|
| `Calculations.ValidateGrade` | helpers/calculations.ts:10-13 | A grade is valid iff it is present and 0 <= g <= 100. |
| `Calculations.SemesterGradeIsWeightedAverage` | helpers/calculations.ts:19-27 | With non-negative weights summing to 100, the semester grade lies between the two exam grades. |
| `Calculations.SemesterGradeBounds` | helpers/calculations.ts:19-27 | Under the same weights, two grades in 0-100 give a semester grade in 0-100. |
| `Calculations.InverseFinalReachesTarget` | helpers/calculations.ts:180-184 | The solver's inverse formula is a right inverse of the weighting: the semester grade at the inverse is exactly the target (finalWeight non-zero). |
| `Calculations.InverseFinalUnique` | helpers/calculations.ts:180-184 | The inverse is the only final grade that gives exactly the target. |
| `Calculations.SemesterGradeMonotone` | helpers/calculations.ts:180-184 | With a positive final weight, the semester grade reaches the target iff the final is at least the inverse. |
| `Calculations.ReasonsShape` | helpers/calculations.ts:38-64 | Reasons are never empty (one or two). They are a single congratulation iff both floors are met. A fail lists no congratulation. |
| `Calculations.ReasonsDetermined` | helpers/calculations.ts:38-64 | The reason-list description is complete: two lists that both explain the same grades are equal. |
| `Calculations.CheckPassFail` | helpers/calculations.ts:32-65 | passed iff final >= minimumFinalGrade and semester >= minimumSemesterGrade. Reasons are one per missed floor, exam floor first (each carrying its values), or the single congratulation on a pass. |
| `Calculations.LetterForFirstMatch` | helpers/calculations.ts:74-79 | If range i is the first in list order with min <= g <= max, the looked-up letter is range i's. |
| `Calculations.LetterForNone` | helpers/calculations.ts:74-79 | No letter iff no range covers the grade. |
| `Calculations.LetterForSome` | helpers/calculations.ts:74-79 | A letter found is the letter of a first covering range, and that index is returned. |
| `Calculations.GetLetterGrade` | helpers/calculations.ts:70-80 | The in-order scan returns the letter of the first covering range, and none exactly when no range covers the grade. |
| `Calculations.PerformCalculation` | helpers/calculations.ts:85-124 | Returns none iff either grade is invalid. Otherwise: semester grade is the weighted formula; breakdown sums to it; verdict and reasons as in CheckPassFail; letter is the first-match letter when enabled and absent when disabled; with valid settings the semester grade is in 0-100. |
| `Calculations.FindRange` | helpers/calculations.ts:168 | The search by letter returns a range of the table carrying that letter, and none iff no range carries it. |
| `Calculations.FindRangeFirst` | helpers/calculations.ts:168 | The search returns the first range in list order carrying the letter. |
| `Calculations.CalculateGoal` | helpers/calculations.ts:129-247 | Summarised in the list below this table. |
| `Calculations.PassingFinals` | helpers/calculations.ts:42-55 | With a positive final weight, a final passes iff it meets the exam floor and is at least the inverse for the semester floor. |
| `Calculations.MinimumPassingFinal` | helpers/calculations.ts:203-222 | Corrected pass solver. Some(f): f is in 0-100, passes, and no smaller final in 0-100 passes. None iff no final in 0-100 passes. |
| `Calculations.SolveThenEvaluate` | helpers/calculations.ts:182-246 | Solve then evaluate. The answer is possible iff the evaluation with the returned final exists. Then: a pass target yields passed; a score target yields exactly that semester grade; a letter target yields its range's min, and the letter is the first-match letter of that grade. |
| `DefaultTable.DefaultSettingsValid` | types/index.ts:49-54 | The default weights sum to 100, the final weight is positive, and both default floors lie in 0-100. |
| `DefaultTable.DefaultRangesOrdered` | types/index.ts:55-64 | Every default range has min <= max. Each range lies strictly above all later ones: descending, pairwise disjoint, and no grade in two ranges. |
| `DefaultTable.DefaultLettersUnique` | types/index.ts:55-64 | No two default ranges carry the same letter. |
| `DefaultTable.DefaultWholeGradesCovered` | types/index.ts:55-64 | Every whole grade 0..100 lies in exactly one default range. |
| `DefaultTable.DefaultLetterMissingExactlyInGaps` | types/index.ts:55-64 | On 0-100 the default lookup gives no letter exactly for grades in the open gaps (59,60), (64,65), ..., (89,90), e.g. 59.5 or 89.5. |
| `DefaultTable.DefaultLetterMinRoundTrip` | types/index.ts:55-64 | For every default range, the search by its letter finds that range, and a semester grade equal to its min maps back to its letter. |
| `DefaultTable.DefaultLetterGoalRoundTrip` | helpers/calculations.ts:176-177 | Under the defaults, a possible letter goal, evaluated with the returned final, yields exactly the target letter. |
| `Scenarios.EvaluateBelowSemesterFloor` | helpers/calculations.ts:85-124 | Midterm 70, final 50, defaults: semester 58, breakdown 28 + 30, failed with the single semester-floor reason, letter FF. |
| `Scenarios.SolvePassAtExamFloor` | helpers/calculations.ts:203-221 | Midterm 80, pass, defaults: the inverse 46.67 is below the exam floor, so the answer is 50 with the exam-floor message. |
| `Scenarios.SolveLetterAA` | helpers/calculations.ts:158-178 | Midterm 95, letter AA, defaults: target 90, required final 260/3 (86.67). |
| `Scenarios.SolveScoreZero` | helpers/calculations.ts:149-156 | A score target of 0 is falsy and is rejected as an invalid target score. |
| `Scenarios.PassTargetRejectedThoughPassable` | helpers/calculations.ts:186-193 | The counterexample of the finding below. |

`Calculations.CalculateGoal` (finalWeight non-zero):

- `requiredFinal` is present iff `possible`.
- Inputs are checked in order: an invalid midterm first; then, for score, a missing, non-number or zero target; then, for letter, a missing, non-string or empty target, then an unknown letter.
- The target semester grade is minimumSemesterGrade (pass), the number (score) or the letter range's min (letter).
- An inverse below 0 or above 100 is rejected.
- For a pass target, the exam floor is substituted when the inverse is below it. For other targets, an inverse below the floor is rejected.
- Otherwise the inverse is returned, with a message naming the purpose.
- When possible, the required final is >= 0 and >= minimumFinalGrade, and it is <= 100 unless it is the substituted floor.
- Round trip:
  - a pass answer passes;
  - a score answer gives exactly the target;
  - a letter answer gives exactly the range's min;
  - with a positive final weight, a pass answer is the least passing final, and, when also minimumFinalGrade <= 100, it equals `MinimumPassingFinal`.
- A rejected score or letter target is met exactly by no final in 0-100 that is at or above the floor.
- With a positive final weight, the "cannot pass even with the minimum final" outcome never happens.

## Left out

- Screens, components, navigation, styling, settings persistence and the build scripts are not part of this model. The settings editor's invariant is the `ValidSettings` predicate, used as a hypothesis where a property needs it. The UI-side `!goalInput.midterm` guard is not part of the engine and is not modelled.
- The `timestamp` of a calculation result is a wall-clock read that no decision uses. It is not modelled.
- Message texts built with `toFixed` are not modelled. The model produces the message or reason tag and the values it would substitute.
- IEEE-754 floating point (rounding, NaN, Infinity) is not modelled; grades are exact reals. In particular, a NaN target score (falsy in the source) is not represented, and `undefined` is treated like `null`.
- A `finalWeight` of 0 is excluded by a precondition of `CalculateGoal` and `SolveThenEvaluate`: the division in the solver is unguarded.
- `SolveThenEvaluate`: requires minimumFinalGrade <= 100 (as the settings editor keeps it), because the substituted exam floor must itself be a valid final grade to be evaluated.

## Findings

| source | as written | input that shows it | evidently intended | confidence | as-written member | corrected member |
|---|---|---|---|---|---|---|
| helpers/calculations.ts:187-193 | For a pass target, a negative inverse (the midterm alone already exceeds the semester floor) is reported as impossible with "target too high" | weights 70/30, floors 50 (final) and 60 (semester), midterm 100, target pass: the inverse is -33.3, yet a final of 50 gives a semester grade of 85 and passes | the least passing final, max(inverse, minimumFinalGrade, 0), possible when at most 100 | not executed; high | `Scenarios.PassTargetRejectedThoughPassable` | `Calculations.MinimumPassingFinal` |
