/**
 * The calculation engine (helpers/calculations.ts): the grade evaluator
 * (validation, weighted semester grade, pass/fail policy, letter lookup)
 * and the goal solver that inverts the weighting to find the final-exam
 * grade a target needs.
 */
module Calculations {
  import opened Types

  // ---------------------------------------------------------------------
  // Validation and weighting
  // ---------------------------------------------------------------------

  /** A grade is valid when it is present and on the 0-100 scale. */
  function ValidateGrade(grade: Option<real>): (ok: bool)
    ensures ok <==> grade.Some? && 0.0 <= grade.value <= 100.0
  {
    match grade
    case None => false
    case Some(g) => g >= 0.0 && g <= 100.0
  }

  /** The share of the semester grade one exam carries. */
  function Contribution(grade: real, weight: real): real {
    grade * weight / 100.0
  }

  /** The weighted semester grade: the sum of the two contributions. */
  function SemesterGrade(midterm: real, final: real, s: Settings): real {
    Contribution(midterm, s.midtermWeight) + Contribution(final, s.finalWeight)
  }

  function Min(a: real, b: real): real { if a <= b then a else b }
  function Max(a: real, b: real): real { if a <= b then b else a }

  lemma MulMonotone(a: real, b: real, w: real)
    requires a <= b && 0.0 <= w
    ensures a * w <= b * w
  {
  }

  /** A bound below both grades bounds their weighted combination from below. */
  lemma WeightedAtLeast(midterm: real, final: real, w1: real, w2: real, lo: real)
    requires 0.0 <= w1 && 0.0 <= w2 && w1 + w2 == 100.0
    requires lo <= midterm && lo <= final
    ensures lo <= Contribution(midterm, w1) + Contribution(final, w2)
  {
    var a, b := midterm - lo, final - lo;
    MulMonotone(0.0, a, w1);
    MulMonotone(0.0, b, w2);
    calc {
      Contribution(midterm, w1) + Contribution(final, w2);
      == (midterm * w1 + final * w2) / 100.0;
      == ((lo + a) * w1 + (lo + b) * w2) / 100.0;
      == (lo * (w1 + w2) + a * w1 + b * w2) / 100.0;
      == lo + (a * w1 + b * w2) / 100.0;
      >= lo;
    }
  }

  /** A bound above both grades bounds their weighted combination from above. */
  lemma WeightedAtMost(midterm: real, final: real, w1: real, w2: real, hi: real)
    requires 0.0 <= w1 && 0.0 <= w2 && w1 + w2 == 100.0
    requires midterm <= hi && final <= hi
    ensures Contribution(midterm, w1) + Contribution(final, w2) <= hi
  {
    WeightedAtLeast(-midterm, -final, w1, w2, -hi);
    assert Contribution(-midterm, w1) == -Contribution(midterm, w1);
    assert Contribution(-final, w2) == -Contribution(final, w2);
  }

  /**
   * With non-negative weights summing to 100 the semester grade is a
   * weighted average: it lies between the two exam grades.
   */
  lemma SemesterGradeIsWeightedAverage(midterm: real, final: real, s: Settings)
    requires 0.0 <= s.midtermWeight && 0.0 <= s.finalWeight
    requires s.midtermWeight + s.finalWeight == 100.0
    ensures Min(midterm, final) <= SemesterGrade(midterm, final, s) <= Max(midterm, final)
  {
    WeightedAtLeast(midterm, final, s.midtermWeight, s.finalWeight, Min(midterm, final));
    WeightedAtMost(midterm, final, s.midtermWeight, s.finalWeight, Max(midterm, final));
  }

  /** Valid grades and valid weights give a semester grade on the 0-100 scale. */
  lemma SemesterGradeBounds(midterm: real, final: real, s: Settings)
    requires 0.0 <= s.midtermWeight && 0.0 <= s.finalWeight
    requires s.midtermWeight + s.finalWeight == 100.0
    requires 0.0 <= midterm <= 100.0 && 0.0 <= final <= 100.0
    ensures 0.0 <= SemesterGrade(midterm, final, s) <= 100.0
  {
    SemesterGradeIsWeightedAverage(midterm, final, s);
  }

  /**
   * The final-exam grade that makes the semester grade exactly `target`:
   * the weighting formula solved for the final.
   */
  function InverseFinal(target: real, midterm: real, s: Settings): real
    requires s.finalWeight != 0.0
  {
    (target - Contribution(midterm, s.midtermWeight)) * 100.0 / s.finalWeight
  }

  lemma ScaleInverse(x: real, w: real)
    requires w != 0.0
    ensures (x * 100.0 / w) * w / 100.0 == x
  {
    calc {
      (x * 100.0 / w) * w / 100.0;
      == (x * 100.0) * (w / w) / 100.0;
      == { assert w / w == 1.0; }
      x;
    }
  }

  /** The inverse is a right inverse: weighting it back yields the target. */
  lemma InverseFinalReachesTarget(target: real, midterm: real, s: Settings)
    requires s.finalWeight != 0.0
    ensures SemesterGrade(midterm, InverseFinal(target, midterm, s), s) == target
  {
    ScaleInverse(target - Contribution(midterm, s.midtermWeight), s.finalWeight);
  }

  /** The semester grade differs from `target` by the weighted distance to the inverse. */
  lemma SemesterGradeOffset(target: real, midterm: real, final: real, s: Settings)
    requires s.finalWeight != 0.0
    ensures SemesterGrade(midterm, final, s) - target
         == (final - InverseFinal(target, midterm, s)) * s.finalWeight / 100.0
  {
    InverseFinalReachesTarget(target, midterm, s);
    var inv := InverseFinal(target, midterm, s);
    assert (final - inv) * s.finalWeight / 100.0
        == Contribution(final, s.finalWeight) - Contribution(inv, s.finalWeight);
  }

  /** The inverse is the only final-exam grade giving exactly `target`. */
  lemma InverseFinalUnique(target: real, midterm: real, final: real, s: Settings)
    requires s.finalWeight != 0.0
    ensures SemesterGrade(midterm, final, s) == target <==> final == InverseFinal(target, midterm, s)
  {
  }

  /** With a positive final weight, reaching `target` means reaching the inverse. */
  lemma SemesterGradeMonotone(target: real, midterm: real, final: real, s: Settings)
    requires s.finalWeight > 0.0
    ensures SemesterGrade(midterm, final, s) >= target <==> final >= InverseFinal(target, midterm, s)
  {
  }

  // ---------------------------------------------------------------------
  // Pass/fail policy
  // ---------------------------------------------------------------------

  /** The two independent floors: the final exam and the semester grade. */
  predicate Passes(final: real, semesterGrade: real, s: Settings) {
    final >= s.minimumFinalGrade && semesterGrade >= s.minimumSemesterGrade
  }

  /**
   * `reasons` explains the verdict: a pass gives the single congratulation;
   * a fail gives one reason per floor that was missed, the exam floor first.
   */
  predicate ReasonsExplain(reasons: seq<Reason>, final: real, semesterGrade: real, s: Settings) {
    var finalFires := final < s.minimumFinalGrade;
    var semesterFires := semesterGrade < s.minimumSemesterGrade;
    if !finalFires && !semesterFires then
      reasons == [Congratulations(semesterGrade)]
    else
      |reasons| == (if finalFires then 1 else 0) + (if semesterFires then 1 else 0)
      && (finalFires ==> reasons[0] == FinalBelowMinimum(final, s.minimumFinalGrade))
      && (semesterFires ==> reasons[|reasons| - 1] == SemesterBelowMinimum(semesterGrade, s.minimumSemesterGrade))
  }

  /**
   * The explanation is never empty, it is a single congratulation exactly
   * when the floors are met, and a fail lists no congratulation.
   */
  lemma ReasonsShape(reasons: seq<Reason>, final: real, semesterGrade: real, s: Settings)
    requires ReasonsExplain(reasons, final, semesterGrade, s)
    ensures 1 <= |reasons| <= 2
    ensures Passes(final, semesterGrade, s) <==> reasons == [Congratulations(semesterGrade)]
    ensures !Passes(final, semesterGrade, s) ==>
      forall k :: 0 <= k < |reasons| ==> !reasons[k].Congratulations?
  {
  }

  /** The explanation is fully determined by the grades and the settings. */
  lemma ReasonsDetermined(a: seq<Reason>, b: seq<Reason>, final: real, semesterGrade: real, s: Settings)
    requires ReasonsExplain(a, final, semesterGrade, s)
    requires ReasonsExplain(b, final, semesterGrade, s)
    ensures a == b
  {
  }

  /** Applies both floors, collecting a reason for each one missed. */
  method CheckPassFail(midterm: real, final: real, semesterGrade: real, s: Settings)
    returns (passed: bool, reasons: seq<Reason>)
    ensures passed == Passes(final, semesterGrade, s)
    ensures ReasonsExplain(reasons, final, semesterGrade, s)
  {
    reasons := [];
    passed := true;
    if final < s.minimumFinalGrade {
      passed := false;
      reasons := reasons + [FinalBelowMinimum(final, s.minimumFinalGrade)];
    }
    if semesterGrade < s.minimumSemesterGrade {
      passed := false;
      reasons := reasons + [SemesterBelowMinimum(semesterGrade, s.minimumSemesterGrade)];
    }
    if passed {
      reasons := reasons + [Congratulations(semesterGrade)];
    }
  }

  // ---------------------------------------------------------------------
  // Letter grades
  // ---------------------------------------------------------------------

  /** A range covers a grade, both bounds inclusive. */
  predicate Contains(range: LetterGradeRange, grade: real) {
    grade >= range.min && grade <= range.max
  }

  /** Range `i` is the first one in list order that covers `grade`. */
  ghost predicate IsFirstMatch(grade: real, ranges: seq<LetterGradeRange>, i: int) {
    0 <= i < |ranges| && Contains(ranges[i], grade)
    && forall j :: 0 <= j < i ==> !Contains(ranges[j], grade)
  }

  /** The letter of the first range covering `grade`, if any. */
  function LetterFor(grade: real, ranges: seq<LetterGradeRange>): Option<string> {
    if ranges == [] then None
    else if Contains(ranges[0], grade) then Some(ranges[0].letter)
    else LetterFor(grade, ranges[1..])
  }

  /** First match wins: the letter of the first covering range is the answer. */
  lemma {:induction false} LetterForFirstMatch(grade: real, ranges: seq<LetterGradeRange>, i: int)
    requires IsFirstMatch(grade, ranges, i)
    ensures LetterFor(grade, ranges) == Some(ranges[i].letter)
  {
    if i > 0 {
      assert !Contains(ranges[0], grade);
      assert IsFirstMatch(grade, ranges[1..], i - 1) by {
        forall j | 0 <= j < i - 1 ensures !Contains(ranges[1..][j], grade) {
          assert ranges[1..][j] == ranges[j + 1];
        }
      }
      LetterForFirstMatch(grade, ranges[1..], i - 1);
    }
  }

  /** No letter exactly when no range covers the grade. */
  lemma {:induction false} LetterForNone(grade: real, ranges: seq<LetterGradeRange>)
    ensures LetterFor(grade, ranges).None? <==> forall i :: 0 <= i < |ranges| ==> !Contains(ranges[i], grade)
  {
    if ranges != [] {
      LetterForNone(grade, ranges[1..]);
      assert forall i :: 1 <= i < |ranges| ==> ranges[i] == ranges[1..][i - 1];
    }
  }

  /** A letter found is the letter of the first covering range. */
  lemma {:induction false} LetterForSome(grade: real, ranges: seq<LetterGradeRange>) returns (i: int)
    requires LetterFor(grade, ranges).Some?
    ensures IsFirstMatch(grade, ranges, i) && LetterFor(grade, ranges) == Some(ranges[i].letter)
  {
    if Contains(ranges[0], grade) {
      i := 0;
    } else {
      var k := LetterForSome(grade, ranges[1..]);
      i := k + 1;
      assert ranges[1..][k] == ranges[i];
      forall j | 0 <= j < i ensures !Contains(ranges[j], grade) {
        if j > 0 {
          assert ranges[1..][j - 1] == ranges[j];
        }
      }
    }
  }

  /** Scans the table in order and returns the letter of the first covering range. */
  method GetLetterGrade(semesterGrade: real, ranges: seq<LetterGradeRange>) returns (letter: Option<string>)
    ensures letter == LetterFor(semesterGrade, ranges)
    ensures forall i :: IsFirstMatch(semesterGrade, ranges, i) ==> letter == Some(ranges[i].letter)
    ensures letter.None? <==> forall i :: 0 <= i < |ranges| ==> !Contains(ranges[i], semesterGrade)
  {
    LetterForNone(semesterGrade, ranges);
    forall i | IsFirstMatch(semesterGrade, ranges, i)
      ensures LetterFor(semesterGrade, ranges) == Some(ranges[i].letter)
    {
      LetterForFirstMatch(semesterGrade, ranges, i);
    }
    for i := 0 to |ranges|
      invariant forall j :: 0 <= j < i ==> !Contains(ranges[j], semesterGrade)
    {
      if semesterGrade >= ranges[i].min && semesterGrade <= ranges[i].max {
        assert IsFirstMatch(semesterGrade, ranges, i);
        return Some(ranges[i].letter);
      }
    }
    return None;
  }

  // ---------------------------------------------------------------------
  // The grade evaluator
  // ---------------------------------------------------------------------

  /**
   * Validates both grades, then computes the semester grade, the verdict,
   * the letter (only when letter grades are enabled) and the breakdown.
   */
  method PerformCalculation(input: GradeInput, s: Settings) returns (r: Option<CalculationResult>)
    ensures r.None? <==> !ValidateGrade(input.midterm) || !ValidateGrade(input.final)
    ensures r.Some? ==>
      var midterm, final, c := input.midterm.value, input.final.value, r.value;
      c.semesterGrade == SemesterGrade(midterm, final, s)
      && c.breakdown.midtermContribution == Contribution(midterm, s.midtermWeight)
      && c.breakdown.finalContribution == Contribution(final, s.finalWeight)
      && c.breakdown.midtermContribution + c.breakdown.finalContribution == c.semesterGrade
      && c.passed == Passes(final, c.semesterGrade, s)
      && ReasonsExplain(c.reasons, final, c.semesterGrade, s)
      && c.letterGrade == (if s.letterGradesEnabled then LetterFor(c.semesterGrade, s.letterGradeRanges) else None)
    ensures r.Some? && ValidSettings(s) ==> 0.0 <= r.value.semesterGrade <= 100.0
  {
    if !ValidateGrade(input.midterm) || !ValidateGrade(input.final) {
      return None;
    }
    var midterm := input.midterm.value;
    var final := input.final.value;

    var semesterGrade := SemesterGrade(midterm, final, s);
    var passed, reasons := CheckPassFail(midterm, final, semesterGrade, s);

    var letterGrade: Option<string> := None;
    if s.letterGradesEnabled {
      letterGrade := GetLetterGrade(semesterGrade, s.letterGradeRanges);
    }

    var midtermContribution := Contribution(midterm, s.midtermWeight);
    var finalContribution := Contribution(final, s.finalWeight);

    if ValidSettings(s) {
      SemesterGradeBounds(midterm, final, s);
    }
    return Some(CalculationResult(semesterGrade, passed, reasons, letterGrade,
                                  Breakdown(midtermContribution, finalContribution)));
  }

  // ---------------------------------------------------------------------
  // The goal solver
  // ---------------------------------------------------------------------

  /** A score target must be a number and not zero (a falsy number is rejected). */
  predicate IsScoreValue(v: TargetValue) {
    v.Num? && v.n != 0.0
  }

  /** A letter target must be a non-empty string. */
  predicate IsLetterValue(v: TargetValue) {
    v.Str? && v.s != ""
  }

  /** The first range of the table carrying `letter`, if any. */
  function FindRange(ranges: seq<LetterGradeRange>, letter: string): (r: Option<LetterGradeRange>)
    ensures r.Some? ==> r.value in ranges && r.value.letter == letter
    ensures r.None? <==> forall i :: 0 <= i < |ranges| ==> ranges[i].letter != letter
  {
    if ranges == [] then None
    else if ranges[0].letter == letter then Some(ranges[0])
    else
      var rest := FindRange(ranges[1..], letter);
      assert forall i :: 1 <= i < |ranges| ==> ranges[i] == ranges[1..][i - 1];
      rest
  }

  /** The search by letter returns the first range carrying it. */
  lemma {:induction false} FindRangeFirst(ranges: seq<LetterGradeRange>, letter: string, i: int)
    requires 0 <= i < |ranges| && ranges[i].letter == letter
    requires forall j :: 0 <= j < i ==> ranges[j].letter != letter
    ensures FindRange(ranges, letter) == Some(ranges[i])
  {
    if i > 0 {
      assert ranges[1..][i - 1] == ranges[i];
      forall j | 0 <= j < i - 1 ensures ranges[1..][j].letter != letter {
        assert ranges[1..][j] == ranges[j + 1];
      }
      FindRangeFirst(ranges[1..], letter, i - 1);
    }
  }

  /**
   * The semester grade a target stands for: the semester floor for a pass,
   * the number itself for a score, the lower bound of the named letter's
   * range for a letter; none when the target value is rejected.
   */
  function TargetSemesterGrade(goal: GoalInput, s: Settings): Option<real> {
    match goal.targetType
    case Pass => Some(s.minimumSemesterGrade)
    case Score => if IsScoreValue(goal.targetValue) then Some(goal.targetValue.n) else None
    case Letter =>
      if !IsLetterValue(goal.targetValue) then None
      else match FindRange(s.letterGradeRanges, goal.targetValue.s)
        case None => None
        case Some(range) => Some(range.min)
  }

  /** What a feasible answer says the final grade is for. */
  function PurposeOf(goal: GoalInput, target: real): Purpose {
    match goal.targetType
    case Pass => ToPass
    case Score => ToReachScore(target)
    case Letter => ToReachLetter(if goal.targetValue.Str? then goal.targetValue.s else "")
  }

  /**
   * The least final-exam grade on the 0-100 scale that passes, or none when
   * no such grade passes. This is what the solver evidently means for a
   * pass target (see CalculateGoal and the pass-target counterexample).
   */
  function MinimumPassingFinal(midterm: real, s: Settings): (r: Option<real>)
    requires s.finalWeight > 0.0
    ensures r.Some? ==> 0.0 <= r.value <= 100.0 && Passes(r.value, SemesterGrade(midterm, r.value, s), s)
    ensures r.Some? ==> forall f :: 0.0 <= f <= 100.0 && Passes(f, SemesterGrade(midterm, f, s), s) ==> r.value <= f
    ensures r.None? <==> forall f :: 0.0 <= f <= 100.0 ==> !Passes(f, SemesterGrade(midterm, f, s), s)
  {
    var inv := InverseFinal(s.minimumSemesterGrade, midterm, s);
    var need := Max(Max(inv, s.minimumFinalGrade), 0.0);
    PassingFinals(midterm, s);
    if need <= 100.0 then Some(need) else None
  }

  /** With a positive final weight, a final passes iff it meets both the exam floor and the inverse. */
  lemma PassingFinals(midterm: real, s: Settings)
    requires s.finalWeight > 0.0
    ensures forall f :: (Passes(f, SemesterGrade(midterm, f, s), s)
      <==> f >= s.minimumFinalGrade && f >= InverseFinal(s.minimumSemesterGrade, midterm, s))
  {
  }

  /**
   * Checks the inputs in order (midterm, then the target value), maps the
   * target to a semester grade, inverts the weighting, rejects a required
   * final outside 0-100, and for a pass target substitutes the exam floor
   * when that floor binds.
   */
  method CalculateGoal(goal: GoalInput, s: Settings) returns (r: GoalResult)
    requires s.finalWeight != 0.0
    // a required final is reported exactly when the goal is possible
    ensures r.requiredFinal.Some? <==> r.possible
    // input checks, in order
    ensures !ValidateGrade(goal.midterm) ==> r == Rejected(InvalidMidterm)
    ensures ValidateGrade(goal.midterm) && goal.targetType == Score && !IsScoreValue(goal.targetValue)
      ==> r == Rejected(InvalidTargetScore)
    ensures ValidateGrade(goal.midterm) && goal.targetType == Letter && !IsLetterValue(goal.targetValue)
      ==> r == Rejected(InvalidLetterSelection)
    ensures ValidateGrade(goal.midterm) && goal.targetType == Letter && IsLetterValue(goal.targetValue)
      && FindRange(s.letterGradeRanges, goal.targetValue.s).None?
      ==> r == Rejected(UnknownLetter)
    // outcome once the inputs are accepted
    ensures ValidateGrade(goal.midterm) && TargetSemesterGrade(goal, s).Some? ==>
      var midterm, target := goal.midterm.value, TargetSemesterGrade(goal, s).value;
      var inv := InverseFinal(target, midterm, s);
      var minFinal := s.minimumFinalGrade;
      (inv < 0.0 || inv > 100.0 ==> r == Rejected(TargetTooHigh))
      && (0.0 <= inv <= 100.0 && inv < minFinal && goal.targetType == Pass ==>
            r == if SemesterGrade(midterm, minFinal, s) < s.minimumSemesterGrade
                 then Rejected(CannotPassWithMinimumFinal(minFinal, s.minimumSemesterGrade))
                 else GoalResult(Some(minFinal), true, PassWithMinimumFinal(minFinal, minFinal)))
      && (0.0 <= inv <= 100.0 && inv < minFinal && goal.targetType != Pass ==>
            r == Rejected(BelowMinimumFinal(inv, minFinal)))
      && (0.0 <= inv <= 100.0 && inv >= minFinal ==>
            r == GoalResult(Some(inv), true, NeedAtLeast(inv, PurposeOf(goal, target))))
    // a possible answer is a grade the exam floor allows
    ensures r.possible ==>
      ValidateGrade(goal.midterm) && TargetSemesterGrade(goal, s).Some?
      && 0.0 <= r.requiredFinal.value
      && s.minimumFinalGrade <= r.requiredFinal.value
      && (r.requiredFinal.value <= 100.0 || r.requiredFinal.value == s.minimumFinalGrade)
    // round trip: evaluating with the answer meets the target
    ensures r.possible && goal.targetType == Pass ==>
      var f := r.requiredFinal.value;
      Passes(f, SemesterGrade(goal.midterm.value, f, s), s)
    ensures r.possible && goal.targetType == Score ==>
      SemesterGrade(goal.midterm.value, r.requiredFinal.value, s) == goal.targetValue.n
    ensures r.possible && goal.targetType == Letter ==>
      SemesterGrade(goal.midterm.value, r.requiredFinal.value, s)
        == FindRange(s.letterGradeRanges, goal.targetValue.s).value.min
    // a pass answer is the least passing final
    ensures r.possible && goal.targetType == Pass && s.finalWeight > 0.0 ==>
      forall f :: 0.0 <= f <= 100.0 && Passes(f, SemesterGrade(goal.midterm.value, f, s), s)
        ==> r.requiredFinal.value <= f
    ensures r.possible && goal.targetType == Pass && s.finalWeight > 0.0 && s.minimumFinalGrade <= 100.0 ==>
      r.requiredFinal == MinimumPassingFinal(goal.midterm.value, s)
    // a rejected score or letter target cannot be met exactly by any allowed final
    ensures (!r.possible && goal.targetType != Pass
             && ValidateGrade(goal.midterm) && TargetSemesterGrade(goal, s).Some?) ==>
      forall f :: 0.0 <= f <= 100.0 && s.minimumFinalGrade <= f
        ==> SemesterGrade(goal.midterm.value, f, s) != TargetSemesterGrade(goal, s).value
    // with a positive final weight the exam floor always lets a pass through
    ensures s.finalWeight > 0.0 ==> !r.message.CannotPassWithMinimumFinal?
  {
    if !ValidateGrade(goal.midterm) {
      return Rejected(InvalidMidterm);
    }
    var midterm := goal.midterm.value;

    var targetSemesterGrade: real;
    if goal.targetType == Pass {
      targetSemesterGrade := s.minimumSemesterGrade;
    } else if goal.targetType == Score {
      if !IsScoreValue(goal.targetValue) {
        return Rejected(InvalidTargetScore);
      }
      targetSemesterGrade := goal.targetValue.n;
    } else {
      if !IsLetterValue(goal.targetValue) {
        return Rejected(InvalidLetterSelection);
      }
      var letterRange := FindRange(s.letterGradeRanges, goal.targetValue.s);
      if letterRange.None? {
        return Rejected(UnknownLetter);
      }
      targetSemesterGrade := letterRange.value.min;
    }
    assert TargetSemesterGrade(goal, s) == Some(targetSemesterGrade);

    var midtermContribution := Contribution(midterm, s.midtermWeight);
    var requiredFinalContribution := targetSemesterGrade - midtermContribution;
    var requiredFinal := requiredFinalContribution * 100.0 / s.finalWeight;
    assert requiredFinal == InverseFinal(targetSemesterGrade, midterm, s);
    InverseFinalReachesTarget(targetSemesterGrade, midterm, s);
    forall f ensures SemesterGrade(midterm, f, s) == targetSemesterGrade <==> f == requiredFinal {
      InverseFinalUnique(targetSemesterGrade, midterm, f, s);
    }
    if s.finalWeight > 0.0 {
      PassingFinals(midterm, s);
    }

    if requiredFinal < 0.0 {
      return Rejected(TargetTooHigh);
    }
    if requiredFinal > 100.0 {
      return Rejected(TargetTooHigh);
    }

    if goal.targetType == Pass && requiredFinal < s.minimumFinalGrade {
      var adjustedRequiredFinal := s.minimumFinalGrade;
      var adjustedSemesterGrade := SemesterGrade(midterm, adjustedRequiredFinal, s);
      if adjustedSemesterGrade < s.minimumSemesterGrade {
        return Rejected(CannotPassWithMinimumFinal(s.minimumFinalGrade, s.minimumSemesterGrade));
      }
      return GoalResult(Some(adjustedRequiredFinal), true,
                        PassWithMinimumFinal(adjustedRequiredFinal, s.minimumFinalGrade));
    }

    if requiredFinal < s.minimumFinalGrade {
      return Rejected(BelowMinimumFinal(requiredFinal, s.minimumFinalGrade));
    }

    var purpose: Purpose;
    if goal.targetType == Pass {
      purpose := ToPass;
    } else if goal.targetType == Score {
      purpose := ToReachScore(targetSemesterGrade);
    } else {
      purpose := ToReachLetter(goal.targetValue.s);
    }
    return GoalResult(Some(requiredFinal), true, NeedAtLeast(requiredFinal, purpose));
  }

  /**
   * Solve, then evaluate with the answer: a possible goal gives a valid
   * grade input whose evaluation meets the target.
   */
  method SolveThenEvaluate(goal: GoalInput, s: Settings)
    returns (answer: GoalResult, evaluation: Option<CalculationResult>)
    requires s.finalWeight != 0.0 && s.minimumFinalGrade <= 100.0
    ensures answer.possible <==> evaluation.Some?
    ensures answer.possible ==> TargetSemesterGrade(goal, s).Some?
    ensures answer.possible && goal.targetType == Pass ==> evaluation.value.passed
    ensures answer.possible && goal.targetType == Score ==>
      evaluation.value.semesterGrade == goal.targetValue.n
    ensures answer.possible && goal.targetType == Letter ==>
      evaluation.value.semesterGrade == FindRange(s.letterGradeRanges, goal.targetValue.s).value.min
    ensures answer.possible ==>
      evaluation.value.letterGrade
        == if s.letterGradesEnabled then LetterFor(evaluation.value.semesterGrade, s.letterGradeRanges) else None
  {
    answer := CalculateGoal(goal, s);
    if answer.possible {
      evaluation := PerformCalculation(GradeInput(goal.midterm, answer.requiredFinal), s);
    } else {
      evaluation := None;
    }
  }
}
