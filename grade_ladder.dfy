/**
 The relative grade ladder: a score is compared, top rung first, with the
 class mean shifted by a multiple of the standard deviation, and the first
 rung it reaches gives the label.
 */
module GradeLadder {

  /** The six labels in ladder order, best first. */
  const Labels: seq<string> := ["O", "A+", "A", "B+", "B", "Fail"]

  /** How many standard deviations above the mean each of the five rungs sits. */
  const Coefficients: seq<real> := [2.0, 1.2, 0.5, -0.2, -1.5]

  /** The lowest score that still reaches rung `k`. */
  function Threshold(mean: real, stdDev: real, k: nat): real
    requires k < |Coefficients|
  {
    mean + Coefficients[k] * stdDev
  }

  /**
   `getGrade`: the first rung, in ladder order, whose threshold `marks` reaches.
   That the result is always one of the six labels, and the right one, is
   `GetGradeIsFirstMatch` below.
   */
  function GetGrade(marks: real, mean: real, stdDev: real): string
  {
    if marks >= mean + 2.0 * stdDev then "O"
    else if marks >= mean + 1.2 * stdDev then "A+"
    else if marks >= mean + 0.5 * stdDev then "A"
    else if marks >= mean - 0.2 * stdDev then "B+"
    else if marks >= mean - 1.5 * stdDev then "B"
    else "Fail"
  }

  /** Position of a label in the ladder: 0 for "O" down to 5 for "Fail". */
  function Rank(grade: string): (r: nat)
    requires grade in Labels
    ensures r < |Labels| && Labels[r] == grade
  {
    if grade == "O" then 0
    else if grade == "A+" then 1
    else if grade == "A" then 2
    else if grade == "B+" then 3
    else if grade == "B" then 4
    else 5
  }

  /** The labels are pairwise different, so a rank names exactly one label. */
  lemma RankOfLabel(k: nat)
    requires k < |Labels|
    ensures Rank(Labels[k]) == k
  {
    assert Labels[k] == ["O", "A+", "A", "B+", "B", "Fail"][k];
  }

  /**
   A table-driven reading of the ladder: the index of the first rung at or
   after `k` whose threshold `marks` reaches, or 5 when none does.
   */
  function FirstRung(marks: real, mean: real, stdDev: real, k: nat): (r: nat)
    requires k <= |Coefficients|
    ensures k <= r <= |Coefficients|
    ensures r < |Coefficients| ==> marks >= Threshold(mean, stdDev, r)
    ensures forall j :: k <= j < r ==> marks < Threshold(mean, stdDev, j)
    decreases |Coefficients| - k
  {
    if k == |Coefficients| then k
    else if marks >= Threshold(mean, stdDev, k) then k
    else FirstRung(marks, mean, stdDev, k + 1)
  }

  /** The if-chain agrees with the table of coefficients: it picks the first rung that holds. */
  lemma {:induction false} GetGradeIsFirstMatch(marks: real, mean: real, stdDev: real)
    ensures GetGrade(marks, mean, stdDev) == Labels[FirstRung(marks, mean, stdDev, 0)]
    ensures GetGrade(marks, mean, stdDev) in Labels
    ensures var k := Rank(GetGrade(marks, mean, stdDev));
            (k < |Coefficients| ==> marks >= Threshold(mean, stdDev, k))
            && forall j :: 0 <= j < k ==> marks < Threshold(mean, stdDev, j)
  {
    var r := FirstRung(marks, mean, stdDev, 0);
    RankOfLabel(r);
    assert Threshold(mean, stdDev, 0) == mean + 2.0 * stdDev;
    assert Threshold(mean, stdDev, 1) == mean + 1.2 * stdDev;
    assert Threshold(mean, stdDev, 2) == mean + 0.5 * stdDev;
    assert Threshold(mean, stdDev, 3) == mean - 0.2 * stdDev;
    assert Threshold(mean, stdDev, 4) == mean - 1.5 * stdDev;
  }

  /** A higher score never gets a lower grade, whatever the mean and spread. */
  lemma Monotone(marks1: real, marks2: real, mean: real, stdDev: real)
    requires marks1 <= marks2
    ensures GetGrade(marks1, mean, stdDev) in Labels && GetGrade(marks2, mean, stdDev) in Labels
    ensures Rank(GetGrade(marks2, mean, stdDev)) <= Rank(GetGrade(marks1, mean, stdDev))
  {
    GetGradeIsFirstMatch(marks1, mean, stdDev);
    GetGradeIsFirstMatch(marks2, mean, stdDev);
  }

  /** With a non-negative spread the rung thresholds do not increase down the ladder. */
  lemma ThresholdsNonIncreasing(mean: real, stdDev: real, i: nat, j: nat)
    requires stdDev >= 0.0
    requires i <= j < |Coefficients|
    ensures Threshold(mean, stdDev, j) <= Threshold(mean, stdDev, i)
  {
    assert Coefficients[j] <= Coefficients[i];
  }

  /**
   With a non-negative spread each label is exactly one band of scores:
   at least its own threshold and below the threshold of the label above.
   */
  lemma Band(marks: real, mean: real, stdDev: real, k: nat)
    requires stdDev >= 0.0
    requires k < |Labels|
    ensures GetGrade(marks, mean, stdDev) == Labels[k]
        <==> (k == 0 || marks < Threshold(mean, stdDev, k - 1))
             && (k == |Labels| - 1 || marks >= Threshold(mean, stdDev, k))
  {
    GetGradeIsFirstMatch(marks, mean, stdDev);
    var r := Rank(GetGrade(marks, mean, stdDev));
    RankOfLabel(k);
    if k < r {
      ThresholdsNonIncreasing(mean, stdDev, k, r - 1);
    } else if r < k {
      ThresholdsNonIncreasing(mean, stdDev, r, k - 1);
    }
  }

  /**
   With no spread every rung collapses onto the mean: a score at or above the
   mean (in particular one equal to it) gets "O", any other "Fail".
   */
  lemma ZeroSpread(marks: real, mean: real)
    ensures GetGrade(marks, mean, 0.0) == if marks >= mean then "O" else "Fail"
  {
  }

  /**
   Scores 90, 70 and 50: the mean is 70 and the population standard deviation
   is the square root of 800/3 (about 16.33), which gives "A+", "B+" and "B".
   */
  lemma ThreeStudentExample(stdDev: real)
    requires stdDev >= 0.0 && stdDev * stdDev == 800.0 / 3.0
    ensures GetGrade(90.0, 70.0, stdDev) == "A+"
    ensures GetGrade(70.0, 70.0, stdDev) == "B+"
    ensures GetGrade(50.0, 70.0, stdDev) == "B"
  {
    SquaresOrdered(16.3, stdDev);
    SquaresOrdered(stdDev, 16.4);
  }

  /** For non-negative numbers, a smaller square means a smaller number. */
  lemma SquaresOrdered(a: real, b: real)
    requires a >= 0.0 && b >= 0.0
    ensures a * a < b * b ==> a < b
  {
    if a >= b {
      assert a * a >= b * a >= b * b;
    }
  }
}
