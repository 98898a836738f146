/**
 * Properties of the default settings (types/index.ts): the weights, the
 * floors and the letter-grade table, and what the letter lookup and the
 * letter search of the goal solver make of that table.
 */
module DefaultTable {
  import opened Types
  import opened Calculations

  /** The default weights sum to 100 and the default floors are on the 0-100 scale. */
  lemma DefaultSettingsValid()
    ensures ValidSettings(DefaultSettings)
    ensures DefaultSettings.midtermWeight + DefaultSettings.finalWeight == 100.0
    ensures DefaultSettings.finalWeight > 0.0
  {
  }

  /**
   * Every default range is non-empty, and every range lies strictly above
   * all ranges after it: the table is ordered by descending bounds and its
   * ranges are pairwise disjoint.
   */
  lemma DefaultRangesOrdered()
    ensures forall i :: 0 <= i < |DefaultRanges| ==> DefaultRanges[i].min <= DefaultRanges[i].max
    ensures forall i, j :: 0 <= i < j < |DefaultRanges| ==> DefaultRanges[j].max < DefaultRanges[i].min
    ensures forall i, j, g :: (0 <= i < |DefaultRanges| && 0 <= j < |DefaultRanges|
      && Contains(DefaultRanges[i], g) && Contains(DefaultRanges[j], g)) ==> i == j
  {
  }

  /** No two default ranges carry the same letter, so a search by letter is unambiguous. */
  lemma DefaultLettersUnique()
    ensures forall i, j :: (0 <= i < |DefaultRanges| && 0 <= j < |DefaultRanges|
      && DefaultRanges[i].letter == DefaultRanges[j].letter) ==> i == j
  {
  }

  /** Every whole grade from 0 to 100 lies in exactly one default range. */
  lemma DefaultWholeGradesCovered(n: int)
    requires 0 <= n <= 100
    ensures exists i :: 0 <= i < |DefaultRanges| && Contains(DefaultRanges[i], n as real)
    ensures forall i, j :: (0 <= i < |DefaultRanges| && 0 <= j < |DefaultRanges|
      && Contains(DefaultRanges[i], n as real) && Contains(DefaultRanges[j], n as real)) ==> i == j
  {
    DefaultRangesOrdered();
    var g := n as real;
    var i :=
      if n >= 90 then 0 else if n >= 85 then 1 else if n >= 80 then 2
      else if n >= 75 then 3 else if n >= 70 then 4 else if n >= 65 then 5
      else if n >= 60 then 6 else 7;
    assert Contains(DefaultRanges[i], g);
  }

  /** The open gaps between consecutive default ranges. */
  predicate InDefaultGap(g: real) {
    (59.0 < g < 60.0) || (64.0 < g < 65.0) || (69.0 < g < 70.0) || (74.0 < g < 75.0)
    || (79.0 < g < 80.0) || (84.0 < g < 85.0) || (89.0 < g < 90.0)
  }

  /**
   * On the 0-100 scale the default table gives no letter exactly for the
   * grades in the gaps between its ranges (59.5 and 89.5, for instance).
   */
  lemma DefaultLetterMissingExactlyInGaps(g: real)
    requires 0.0 <= g <= 100.0
    ensures LetterFor(g, DefaultRanges).None? <==> InDefaultGap(g)
  {
    LetterForNone(g, DefaultRanges);
    if !InDefaultGap(g) {
      var i :=
        if g >= 90.0 then 0 else if g >= 85.0 then 1 else if g >= 80.0 then 2
        else if g >= 75.0 then 3 else if g >= 70.0 then 4 else if g >= 65.0 then 5
        else if g >= 60.0 then 6 else 7;
      assert Contains(DefaultRanges[i], g);
    }
  }

  /**
   * For every default letter, the search by letter finds its range, and
   * the lower bound of that range maps back to the letter: a semester grade
   * equal to the target the goal solver uses for a letter earns that letter.
   */
  lemma DefaultLetterMinRoundTrip(k: int)
    requires 0 <= k < |DefaultRanges|
    ensures FindRange(DefaultRanges, DefaultRanges[k].letter) == Some(DefaultRanges[k])
    ensures LetterFor(DefaultRanges[k].min, DefaultRanges) == Some(DefaultRanges[k].letter)
  {
    DefaultLettersUnique();
    FindRangeFirst(DefaultRanges, DefaultRanges[k].letter, k);
    DefaultRangesOrdered();
    assert IsFirstMatch(DefaultRanges[k].min, DefaultRanges, k);
    LetterForFirstMatch(DefaultRanges[k].min, DefaultRanges, k);
  }

  /**
   * With the default settings, a possible letter goal, evaluated with the
   * final grade the solver asks for, yields that letter.
   */
  method DefaultLetterGoalRoundTrip(midterm: Option<real>, letter: string)
    returns (answer: GoalResult, evaluation: Option<CalculationResult>)
    ensures answer.possible ==> evaluation.Some? && evaluation.value.letterGrade == Some(letter)
  {
    var s := DefaultSettings;
    answer, evaluation := SolveThenEvaluate(GoalInput(midterm, Letter, Str(letter)), s);
    if answer.possible {
      var range := FindRange(DefaultRanges, letter).value;
      var k :| 0 <= k < |DefaultRanges| && DefaultRanges[k] == range;
      DefaultLetterMinRoundTrip(k);
    }
  }
}
