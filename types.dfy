/**
 * Data model of the grade calculator: the settings record, the inputs of
 * the two engine operations, their results, and the default settings
 * (types/index.ts).
 *
 * Grades and weights are exact `real`s. Nullable numbers are `Option<real>`.
 * User-facing texts are modelled as tags carrying the values the text
 * would substitute, not as formatted strings.
 */
module Types {

  datatype Option<+T> = None | Some(value: T)

  /** One row of the letter-grade table; both bounds are inclusive. */
  datatype LetterGradeRange = LetterGradeRange(letter: string, min: real, max: real)

  /** The calculation rules the user can configure. */
  datatype Settings = Settings(
    midtermWeight: real,          // percentage
    finalWeight: real,            // percentage
    minimumFinalGrade: real,      // exam floor needed to pass
    minimumSemesterGrade: real,   // semester floor needed to pass
    letterGradesEnabled: bool,
    letterGradeRanges: seq<LetterGradeRange>)

  datatype GradeInput = GradeInput(midterm: Option<real>, final: Option<real>)

  /** Why a calculation passed or failed, with the values its text shows. */
  datatype Reason =
    | FinalBelowMinimum(final: real, minimum: real)
    | SemesterBelowMinimum(semesterGrade: real, minimum: real)
    | Congratulations(semesterGrade: real)

  datatype Breakdown = Breakdown(midtermContribution: real, finalContribution: real)

  /** The wall-clock `timestamp` of a calculation result is not modelled. */
  datatype CalculationResult = CalculationResult(
    semesterGrade: real,
    passed: bool,
    reasons: seq<Reason>,
    letterGrade: Option<string>,
    breakdown: Breakdown)

  datatype TargetType = Pass | Score | Letter

  /** The loosely typed target value: absent, a number or a string. */
  datatype TargetValue = NoValue | Num(n: real) | Str(s: string)

  datatype GoalInput = GoalInput(midterm: Option<real>, targetType: TargetType, targetValue: TargetValue)

  /** The tail of the "You need at least ... in the final exam" message. */
  datatype Purpose = ToPass | ToReachScore(target: real) | ToReachLetter(letter: string)

  /** The message of a goal result, one tag per distinct text. */
  datatype GoalMessage =
    | InvalidMidterm
    | InvalidTargetScore
    | InvalidLetterSelection
    | UnknownLetter
    | TargetTooHigh
    | CannotPassWithMinimumFinal(minimumFinal: real, minimumSemester: real)
    | PassWithMinimumFinal(requiredFinal: real, minimumFinal: real)
    | BelowMinimumFinal(requiredFinal: real, minimumFinal: real)
    | NeedAtLeast(requiredFinal: real, purpose: Purpose)

  datatype GoalResult = GoalResult(requiredFinal: Option<real>, possible: bool, message: GoalMessage)

  /** An infeasible or rejected goal: no required final, not possible. */
  function Rejected(message: GoalMessage): GoalResult {
    GoalResult(None, false, message)
  }

  /**
   * What the settings editor keeps true: the two weights are percentages
   * coupled to sum to 100, and the two floors lie on the 0-100 scale.
   * The engine itself does not check this.
   */
  predicate ValidSettings(s: Settings) {
    0.0 <= s.midtermWeight && 0.0 <= s.finalWeight
    && s.midtermWeight + s.finalWeight == 100.0
    && 0.0 <= s.minimumFinalGrade <= 100.0
    && 0.0 <= s.minimumSemesterGrade <= 100.0
  }

  const DefaultRanges: seq<LetterGradeRange> := [
    LetterGradeRange("AA", 90.0, 100.0),
    LetterGradeRange("BA", 85.0, 89.0),
    LetterGradeRange("BB", 80.0, 84.0),
    LetterGradeRange("CB", 75.0, 79.0),
    LetterGradeRange("CC", 70.0, 74.0),
    LetterGradeRange("DC", 65.0, 69.0),
    LetterGradeRange("DD", 60.0, 64.0),
    LetterGradeRange("FF", 0.0, 59.0)
  ]

  const DefaultSettings: Settings := Settings(
    midtermWeight := 40.0,
    finalWeight := 60.0,
    minimumFinalGrade := 50.0,
    minimumSemesterGrade := 60.0,
    letterGradesEnabled := true,
    letterGradeRanges := DefaultRanges)
}
