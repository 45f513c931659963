/** The grade ladder of lib/utils.ts: `scoreToGrade` and `autoSuggestGrade`.
    A JavaScript number is an `Option<real>`: `None` is NaN. */
module Grading {
  import opened Wrappers

  datatype GradeResult = GradeResult(letter: string, gpa: real, isPassing: bool)

  /** The sentinel for a score that is not a number or lies outside [0, 100]. */
  const InvalidGrade := GradeResult("Invalid", 0.0, false)

  /** The thirteen letters a valid score can receive. */
  const Letters: set<string> := {"A+", "A", "A-", "B+", "B", "B-", "C+", "C", "C-", "D+", "D", "D-", "F"}

  function ScoreToGrade(score: Option<real>): (r: GradeResult)
    ensures r == InvalidGrade <==> score.None? || score.value < 0.0 || score.value > 100.0
    ensures r != InvalidGrade ==> r.letter in Letters
    ensures r.isPassing <==> score.Some? && 52.0 <= score.value <= 100.0
    ensures 0.0 <= r.gpa <= 4.0
  {
    if score.None? || score.value < 0.0 || score.value > 100.0 then InvalidGrade
    else
      var s := score.value;
      if s >= 90.0 then GradeResult("A+", 4.0, true)
      else if s >= 85.0 then GradeResult("A", 4.0, true)
      else if s >= 83.0 then GradeResult("A-", 3.7, true)
      else if s >= 80.0 then GradeResult("B+", 3.3, true)
      else if s >= 77.0 then GradeResult("B", 3.0, true)
      else if s >= 72.0 then GradeResult("B-", 2.7, true)
      else if s >= 60.0 then GradeResult("C+", 2.3, true)
      else if s >= 57.0 then GradeResult("C", 2.0, true)
      else if s >= 52.0 then GradeResult("C-", 1.7, true)
      else if s >= 50.0 then GradeResult("D+", 1.3, false)
      else if s >= 47.0 then GradeResult("D", 1.0, false)
      else if s >= 42.0 then GradeResult("D-", 0.7, false)
      else GradeResult("F", 0.0, false)
  }

  /** The ladder as a table of breakpoints, highest first; a score below every breakpoint fails. */
  datatype Rung = Rung(atLeast: real, result: GradeResult)

  const Ladder: seq<Rung> := [
    Rung(90.0, GradeResult("A+", 4.0, true)),
    Rung(85.0, GradeResult("A", 4.0, true)),
    Rung(83.0, GradeResult("A-", 3.7, true)),
    Rung(80.0, GradeResult("B+", 3.3, true)),
    Rung(77.0, GradeResult("B", 3.0, true)),
    Rung(72.0, GradeResult("B-", 2.7, true)),
    Rung(60.0, GradeResult("C+", 2.3, true)),
    Rung(57.0, GradeResult("C", 2.0, true)),
    Rung(52.0, GradeResult("C-", 1.7, true)),
    Rung(50.0, GradeResult("D+", 1.3, false)),
    Rung(47.0, GradeResult("D", 1.0, false)),
    Rung(42.0, GradeResult("D-", 0.7, false))
  ]

  const Failing := GradeResult("F", 0.0, false)

  /** First-match evaluation of a table of rungs. */
  function FirstMatch(rungs: seq<Rung>, s: real): GradeResult
  {
    if |rungs| == 0 then Failing
    else if s >= rungs[0].atLeast then rungs[0].result
    else FirstMatch(rungs[1..], s)
  }

  /** Breakpoints that descend strictly, so the first rung a score reaches is the highest it reaches. */
  ghost predicate Descending(rungs: seq<Rung>)
  {
    forall i, j :: 0 <= i < j < |rungs| ==> rungs[i].atLeast > rungs[j].atLeast
  }

  lemma LadderDescending()
    ensures Descending(Ladder)
  {
  }

  /** In a descending table, a score that reaches rung k but not rung k - 1 gets rung k. */
  lemma {:induction false} FirstMatchAt(rungs: seq<Rung>, s: real, k: nat)
    requires Descending(rungs)
    requires k < |rungs| && s >= rungs[k].atLeast
    requires k == 0 || s < rungs[k - 1].atLeast
    ensures FirstMatch(rungs, s) == rungs[k].result
    decreases k
  {
    if k > 0 {
      assert s < rungs[0].atLeast;
      FirstMatchAt(rungs[1..], s, k - 1);
    }
  }

  /** In a descending table, a score below the last breakpoint fails. */
  lemma {:induction false} FirstMatchBelowAll(rungs: seq<Rung>, s: real)
    requires Descending(rungs)
    requires |rungs| == 0 || s < rungs[|rungs| - 1].atLeast
    ensures FirstMatch(rungs, s) == Failing
    decreases |rungs|
  {
    if |rungs| > 0 {
      assert s < rungs[0].atLeast;
      FirstMatchBelowAll(rungs[1..], s);
    }
  }

  /** For a score in [0, 100] the result is the first rung of the table the score reaches. */
  lemma ScoreToGradeIsFirstMatch(s: real)
    requires 0.0 <= s <= 100.0
    ensures ScoreToGrade(Some(s)) == FirstMatch(Ladder, s)
  {
    if s >= 72.0 { UpperBands(s); } else { LowerBands(s); }
  }

  lemma UpperBands(s: real)
    requires 72.0 <= s <= 100.0
    ensures ScoreToGrade(Some(s)) == FirstMatch(Ladder, s)
  {
    LadderDescending();
    if s >= 90.0 { FirstMatchAt(Ladder, s, 0); }
    else if s >= 85.0 { FirstMatchAt(Ladder, s, 1); }
    else if s >= 83.0 { FirstMatchAt(Ladder, s, 2); }
    else if s >= 80.0 { FirstMatchAt(Ladder, s, 3); }
    else if s >= 77.0 { FirstMatchAt(Ladder, s, 4); }
    else { FirstMatchAt(Ladder, s, 5); }
  }

  lemma LowerBands(s: real)
    requires 0.0 <= s < 72.0
    ensures ScoreToGrade(Some(s)) == FirstMatch(Ladder, s)
  {
    LadderDescending();
    if s >= 60.0 { FirstMatchAt(Ladder, s, 6); }
    else if s >= 57.0 { FirstMatchAt(Ladder, s, 7); }
    else if s >= 52.0 { FirstMatchAt(Ladder, s, 8); }
    else if s >= 50.0 { FirstMatchAt(Ladder, s, 9); }
    else if s >= 47.0 { FirstMatchAt(Ladder, s, 10); }
    else if s >= 42.0 { FirstMatchAt(Ladder, s, 11); }
    else { FirstMatchBelowAll(Ladder, s); }
  }

  /** Grade points never decrease as the score rises within [0, 100]. */
  lemma GpaMonotone(a: real, b: real)
    requires 0.0 <= a <= b <= 100.0
    ensures ScoreToGrade(Some(a)).gpa <= ScoreToGrade(Some(b)).gpa
  {
  }

  /** The boundary cases of the D- band: 42 is D- and not passing, anything below 42 is F. */
  lemma FailingBand(s: real)
    requires 0.0 <= s <= 100.0
    ensures 42.0 <= s < 47.0 <==> ScoreToGrade(Some(s)) == GradeResult("D-", 0.7, false)
    ensures s < 42.0 <==> ScoreToGrade(Some(s)) == GradeResult("F", 0.0, false)
    ensures s >= 90.0 <==> ScoreToGrade(Some(s)) == GradeResult("A+", 4.0, true)
  {
  }

  /** `autoSuggestGrade`: `parsed` is `parseFloat(String(input))`. The empty string stands for
      "cannot suggest"; any number, in range or not, yields the ladder's letter. */
  function AutoSuggestGrade(parsed: Option<real>): (r: string)
    ensures r == "" <==> parsed.None?
    ensures parsed.Some? ==> r == ScoreToGrade(parsed).letter
    ensures r == "Invalid" <==> parsed.Some? && (parsed.value < 0.0 || parsed.value > 100.0)
  {
    if parsed.None? then "" else ScoreToGrade(parsed).letter
  }
}
