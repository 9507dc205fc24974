/** GradeScreen.kt: the message band for a grade and the grade shown as a whole percentage. */
module GradeScreen {
  import opened Formatting
  import opened QuestionScreen

  const RetakeMessage := "Oh No! You might want to retake the quiz"
  const GoodEffortMessage := "Good effort!"
  const GreatJobMessage := "Great job! You did well"

  /** Below 40, 40 to 70 inclusive, above 70. */
  function GradeMessage(grade: real): (m: string)
    ensures m == RetakeMessage <==> grade < 40.0
    ensures m == GoodEffortMessage <==> 40.0 <= grade <= 70.0
    ensures m == GreatJobMessage <==> grade > 70.0
  {
    if grade < 40.0 then RetakeMessage
    else if 40.0 <= grade <= 70.0 then GoodEffortMessage
    else GreatJobMessage
  }

  /** The rank of a message: 0 retake, 1 good effort, 2 great job. */
  function Rank(m: string): nat {
    if m == RetakeMessage then 0 else if m == GoodEffortMessage then 1 else 2
  }

  /** A higher grade never gets a lower message. */
  lemma MessageMonotone(g1: real, g2: real)
    requires g1 <= g2
    ensures Rank(GradeMessage(g1)) <= Rank(GradeMessage(g2))
  {
  }

  /** `Double.toInt()`: rounds toward zero. */
  function Truncate(x: real): (n: int)
    ensures x >= 0.0 ==> n as real <= x < n as real + 1.0
    ensures x < 0.0 ==> n as real - 1.0 < x <= n as real
  {
    if x >= 0.0 then x.Floor else -((-x).Floor)
  }

  const AchievedPrefix := "Achieved "

  /** "Achieved N%", N the grade rounded toward zero. */
  function AchievedText(grade: real): (text: string)
    ensures |text| > |AchievedPrefix| + 1 && text[..|AchievedPrefix|] == AchievedPrefix && text[|text| - 1] == '%'
    ensures grade >= 0.0 ==> var n := text[|AchievedPrefix|..|text| - 1]; AllDigits(n) && Value(n) == grade.Floor
  {
    var n := IntString(Truncate(grade));
    assert (AchievedPrefix + n + "%")[|AchievedPrefix|..|AchievedPrefix + n + "%"| - 1] == n;
    AchievedPrefix + n + "%"
  }

  /**
   * The grade a session navigates with reads back from its route, and the grade screen
   * shows exactly that whole number with the message of its band.
   */
  lemma SessionGradeShown(grade: nat)
    ensures var arg := GradeRoute(grade)[|GradeRoutePrefix|..];
            && AllDigits(arg) && Value(arg) == grade
            && AchievedText(Value(arg) as real) == "Achieved " + Digits(grade) + "%"
            && (grade < 40 <==> GradeMessage(Value(arg) as real) == RetakeMessage)
            && (grade > 70 <==> GradeMessage(Value(arg) as real) == GreatJobMessage)
  {
    var arg := GradeRoute(grade)[|GradeRoutePrefix|..];
    assert arg == Digits(grade);
    ValueOfDigits(grade);
  }
}
