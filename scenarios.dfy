/**
 * Worked calls of the engine on concrete inputs: three with the default
 * settings, one showing the falsy-target rule, and one showing the
 * pass-target defect of the goal solver.
 */
module Scenarios {
  import opened Types
  import opened Calculations

  /**
   * Midterm 70, final 50 under the defaults: semester grade 58, the exam
   * floor is met but the semester floor is not, so a single reason is given.
   */
  method EvaluateBelowSemesterFloor() returns (r: Option<CalculationResult>)
    ensures r == Some(CalculationResult(58.0, false, [SemesterBelowMinimum(58.0, 60.0)], Some("FF"),
                                        Breakdown(28.0, 30.0)))
  {
    r := PerformCalculation(GradeInput(Some(70.0), Some(50.0)), DefaultSettings);
    ReasonsDetermined(r.value.reasons, [SemesterBelowMinimum(58.0, 60.0)], 50.0, 58.0, DefaultSettings);
    LetterForFirstMatch(58.0, DefaultRanges, 7);
  }

  /**
   * Midterm 80, pass target, defaults: the inverse (46.67) is below the
   * exam floor, so the floor of 50 is the answer.
   */
  method SolvePassAtExamFloor() returns (r: GoalResult)
    ensures r == GoalResult(Some(50.0), true, PassWithMinimumFinal(50.0, 50.0))
  {
    r := CalculateGoal(GoalInput(Some(80.0), Pass, NoValue), DefaultSettings);
  }

  /** Midterm 95, letter AA (range 90-100), defaults: a final of 86.67 is needed. */
  method SolveLetterAA() returns (r: GoalResult)
    ensures r == GoalResult(Some(260.0 / 3.0), true, NeedAtLeast(260.0 / 3.0, ToReachLetter("AA")))
  {
    r := CalculateGoal(GoalInput(Some(95.0), Letter, Str("AA")), DefaultSettings);
    FindRangeFirst(DefaultRanges, "AA", 0);
  }

  /** A score target of 0 is falsy and is rejected as an invalid target score. */
  method SolveScoreZero() returns (r: GoalResult)
    ensures r == Rejected(InvalidTargetScore)
  {
    r := CalculateGoal(GoalInput(Some(100.0), Score, Num(0.0)), DefaultSettings);
  }

  /** Valid settings that weight the midterm at 70 and the final at 30. */
  const MidtermHeavySettings: Settings := Settings(70.0, 30.0, 50.0, 60.0, true, DefaultRanges)

  /**
   * Midterm 100, pass target, weights 70/30: the midterm alone already
   * exceeds the semester floor, so the inverse is negative and the solver
   * reports the goal as impossible, although a final of 50 passes (semester
   * grade 85) and the least passing final is 50.
   */
  method PassTargetRejectedThoughPassable() returns (r: GoalResult)
    ensures ValidSettings(MidtermHeavySettings)
    ensures r == Rejected(TargetTooHigh)
    ensures SemesterGrade(100.0, 50.0, MidtermHeavySettings) == 85.0
    ensures Passes(50.0, SemesterGrade(100.0, 50.0, MidtermHeavySettings), MidtermHeavySettings)
    ensures MinimumPassingFinal(100.0, MidtermHeavySettings) == Some(50.0)
  {
    r := CalculateGoal(GoalInput(Some(100.0), Pass, NoValue), MidtermHeavySettings);
  }
}
