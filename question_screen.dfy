/**
 * QuestionScreen.kt: one quiz-taking session. The composable's remembered state
 * (`score`, `timeLeft`, `currentQuestionIndex`, `selectedOption`) becomes the fields of
 * `QuizSession`; the option `onClick`, the Next button and one pass of the countdown
 * `LaunchedEffect` become `Select`, `Next` and `Tick`. `route` is the navigation the
 * session issued: once set, the screen has left and nothing of it runs again.
 */
module QuestionScreen {
  import opened Wrappers
  import opened Formatting
  import opened Records
  import opened QuizVM

  /** The countdown seed when no quiz of the catalog has the requested id. */
  const DefaultDuration := 300

  /** `k` is the first position of the catalog whose quiz has id `quizId`. */
  ghost predicate FirstWithId(quizzes: seq<Quiz>, quizId: Option<string>, k: int) {
    && 0 <= k < |quizzes|
    && Some(quizzes[k].id) == quizId
    && forall j :: 0 <= j < k ==> Some(quizzes[j].id) != quizId
  }

  /** A first match in the tail is a first match one position later in the whole catalog. */
  lemma FirstWithIdShift(quizzes: seq<Quiz>, quizId: Option<string>, x: Quiz)
    requires quizzes != [] && Some(quizzes[0].id) != quizId
    requires exists k :: FirstWithId(quizzes[1..], quizId, k) && quizzes[1..][k] == x
    ensures exists k :: FirstWithId(quizzes, quizId, k) && quizzes[k] == x
  {
    var k :| FirstWithId(quizzes[1..], quizId, k) && quizzes[1..][k] == x;
    assert forall j :: 1 <= j <= k ==> quizzes[j] == quizzes[1..][j - 1];
    assert FirstWithId(quizzes, quizId, k + 1);
  }

  /** No match in the head nor in the tail is no match at all. */
  lemma NoIdShift(quizzes: seq<Quiz>, quizId: Option<string>)
    requires quizzes != [] && Some(quizzes[0].id) != quizId
    requires forall k :: 0 <= k < |quizzes[1..]| ==> Some(quizzes[1..][k].id) != quizId
    ensures forall k :: 0 <= k < |quizzes| ==> Some(quizzes[k].id) != quizId
  {
    assert forall k :: 1 <= k < |quizzes| ==> quizzes[k] == quizzes[1..][k - 1];
  }

  /** `quizzes.find { it.id == quizId }`; a null id matches no quiz. */
  function FindQuiz(quizzes: seq<Quiz>, quizId: Option<string>): (r: Option<Quiz>)
    ensures r.None? <==> forall k :: 0 <= k < |quizzes| ==> Some(quizzes[k].id) != quizId
    ensures r.Some? ==> exists k :: FirstWithId(quizzes, quizId, k) && quizzes[k] == r.value
  {
    if quizzes == [] then None
    else if Some(quizzes[0].id) == quizId then
      assert FirstWithId(quizzes, quizId, 0);
      Some(quizzes[0])
    else
      var r := FindQuiz(quizzes[1..], quizId);
      if r.Some? then
        FirstWithIdShift(quizzes, quizId, r.value);
        r
      else
        NoIdShift(quizzes, quizId);
        r
  }

  /** `quiz?.duration ?: 300`: the duration of the first quiz with that id, else the default. */
  function TimerSeed(quizzes: seq<Quiz>, quizId: Option<string>): (seed: int)
    ensures (forall k :: 0 <= k < |quizzes| ==> Some(quizzes[k].id) != quizId) ==> seed == DefaultDuration
    ensures forall k :: FirstWithId(quizzes, quizId, k) ==> seed == quizzes[k].duration
  {
    match FindQuiz(quizzes, quizId)
    case None => DefaultDuration
    case Some(q) =>
      assert forall k, k' :: FirstWithId(quizzes, quizId, k) && FirstWithId(quizzes, quizId, k') ==> k == k';
      q.duration
  }

  /** The percentage grade: correct answers over all questions, truncated; 0 without questions. */
  function Grade(correct: nat, total: nat): (r: nat)
    ensures total > 0 ==> r * total <= correct * 100 < (r + 1) * total
    ensures total == 0 ==> r == 0
  {
    if total == 0 then 0 else correct * 100 / total
  }

  /** A grade is never above 100 while no more answers are correct than there are questions. */
  lemma GradeAtMost100(correct: nat, total: nat)
    requires correct <= total
    ensures Grade(correct, total) <= 100
  {
    if total > 0 {
      var g := Grade(correct, total);
      assert g * total <= correct * 100 <= total * 100 < 101 * total;
      CancelFactor(g, 101, total);
    }
  }

  /** Every answer correct gives 100; none correct gives 0. */
  lemma GradeExtremes(total: nat)
    ensures total > 0 ==> Grade(total, total) == 100
    ensures Grade(0, total) == 0
  {
    if total > 0 {
      var all, none := Grade(total, total), Grade(0, total);
      assert all * total <= total * 100 < 101 * total;
      CancelFactor(all, 101, total);
      assert 100 * total == total * 100 < (all + 1) * total;
      CancelFactor(100, all + 1, total);
      assert none * total <= 0 < 1 * total;
      CancelFactor(none, 1, total);
    }
  }

  /** More correct answers never lower the grade. */
  lemma GradeMonotone(c1: nat, c2: nat, total: nat)
    requires c1 <= c2
    ensures Grade(c1, total) <= Grade(c2, total)
  {
    if total > 0 {
      var g1, g2 := Grade(c1, total), Grade(c2, total);
      assert g1 * total <= c1 * 100 <= c2 * 100 < (g2 + 1) * total;
      CancelFactor(g1, g2 + 1, total);
    }
  }

  /** A positive factor can be cancelled from a strict inequality. */
  lemma CancelFactor(a: int, b: int, t: int)
    requires t > 0 && a * t < b * t
    ensures a < b
  {
    assert (b - a) * t == b * t - a * t;
  }

  /** Truncation, not rounding: two correct of three is 66. */
  lemma GradeTwoOfThree()
    ensures Grade(2, 3) == 66
  {
  }

  /** How many of the picked option indices are the correct answer of their question. */
  function Correct(questions: seq<Question>, picks: seq<nat>): (r: nat)
    requires |picks| <= |questions|
    ensures r <= |picks|
  {
    if picks == [] then 0
    else Correct(questions, picks[..|picks| - 1])
         + (if picks[|picks| - 1] == questions[|picks| - 1].correctAnswer then 1 else 0)
  }

  lemma {:induction false} CorrectAll(questions: seq<Question>, picks: seq<nat>)
    requires |picks| <= |questions|
    requires forall k :: 0 <= k < |picks| ==> picks[k] == questions[k].correctAnswer
    ensures Correct(questions, picks) == |picks|
  {
    if picks != [] {
      CorrectAll(questions, picks[..|picks| - 1]);
    }
  }

  lemma {:induction false} CorrectNone(questions: seq<Question>, picks: seq<nat>)
    requires |picks| <= |questions|
    requires forall k :: 0 <= k < |picks| ==> picks[k] != questions[k].correctAnswer
    ensures Correct(questions, picks) == 0
  {
    if picks != [] {
      CorrectNone(questions, picks[..|picks| - 1]);
    }
  }

  /** Every question answered with its correct option grades 100. */
  lemma PerfectGrade(questions: seq<Question>, picks: seq<nat>)
    requires |picks| == |questions| > 0
    requires forall k :: 0 <= k < |picks| ==> picks[k] == questions[k].correctAnswer
    ensures Grade(Correct(questions, picks), |questions|) == 100
  {
    CorrectAll(questions, picks);
    GradeExtremes(|questions|);
  }

  /** Stands in for a quiz that was not found: its title is "". */
  const NoQuiz := Quiz("", "", "", 0, map[])

  const GradeRoutePrefix := "grades_screen/"

  /** The route to the grade screen, carrying the grade as its argument. */
  function GradeRoute(grade: int): (route: string)
    ensures |route| > |GradeRoutePrefix| && route[..|GradeRoutePrefix|] == GradeRoutePrefix
    ensures grade >= 0 ==> var arg := route[|GradeRoutePrefix|..]; AllDigits(arg) && Value(arg) == grade
  {
    assert (GradeRoutePrefix + IntString(grade))[|GradeRoutePrefix|..] == IntString(grade);
    GradeRoutePrefix + IntString(grade)
  }

  /** The timer text: minutes and seconds of `timeLeft`, each `%02d`. */
  function TimerText(timeLeft: int): (s: string)
    ensures timeLeft >= 0 ==> ParseClock(s) == Some((timeLeft / 60, timeLeft % 60))
  {
    Clock(Div60(timeLeft), Rem60(timeLeft))
  }

  class QuizSession {
    const quizId: Option<string>
    const quiz: Option<Quiz>
    const questions: seq<Question>
    const seed: int
    var score: nat
    var timeLeft: int
    var currentQuestionIndex: nat
    var selectedOption: Option<string>
    var route: Option<string>
    /** The option index picked for each question answered so far. */
    ghost var picks: seq<nat>

    /** The session invariant: `Consistent` and a timer that never rests at zero while the screen is open. */
    ghost predicate Valid()
      reads this
    {
      && Consistent()
      && (route.None? && timeLeft != seed ==> timeLeft > 0)
    }

    ghost predicate Consistent()
      reads this
    {
      && (questions == [] ==> currentQuestionIndex == 0 && selectedOption.None?)
      && (questions != [] ==> currentQuestionIndex < |questions|)
      && |picks| == currentQuestionIndex + (if selectedOption.Some? then 1 else 0)
      && |picks| <= |questions|
      && (forall k :: 0 <= k < |picks| ==> picks[k] < |questions[k].options|)
      && (selectedOption.Some? ==>
            selectedOption.value == questions[currentQuestionIndex].options[picks[currentQuestionIndex]])
      && score == Correct(questions, picks)
      && timeLeft <= seed
      && (seed >= 0 ==> timeLeft >= 0)
      && (route.Some? ==> route.value == GradeRoute(Grade(score, |questions|)))
    }

    /** `quiz?.title ?: ""`, the title handed to the attempt log. */
    function LoggedTitle(): string {
      if quiz.Some? then quiz.value.title else ""
    }

    /** The session has set the attempt data on `vm`, issued write `w` and navigated with the grade. */
    ghost predicate HandedOff(vm: QuizViewModel, pushKey: Option<string>, timestamp: string, w: Option<AttemptWrite>)
      reads this, vm
    {
      var grade := Grade(score, |questions|);
      && route == Some(GradeRoute(grade))
      && vm.quizId == Some(quizId.GetOr(""))
      && vm.quizTitle == Some(LoggedTitle())
      && vm.gradePercentage == Some(grade)
      && w == AttemptWriteFor(vm.userId, vm.quizId, vm.quizTitle, vm.gradePercentage, pushKey, timestamp)
    }

    constructor (catalog: seq<Quiz>, quizId: Option<string>, questions: seq<Question>)
      ensures Valid()
      ensures this.quizId == quizId && quiz == FindQuiz(catalog, quizId) && this.questions == questions
      ensures seed == TimerSeed(catalog, quizId) && timeLeft == seed
      ensures score == 0 && currentQuestionIndex == 0 && selectedOption == None && route == None
      ensures picks == []
    {
      this.quizId := quizId;
      quiz := FindQuiz(catalog, quizId);
      this.questions := questions;
      seed := TimerSeed(catalog, quizId);
      timeLeft := TimerSeed(catalog, quizId);
      score := 0;
      currentQuestionIndex := 0;
      selectedOption := None;
      route := None;
      picks := [];
    }

    /**
     * A click on option `option` of the current question: the first pick locks the question
     * and scores 1 when it is the correct answer; later picks change nothing.
     */
    method Select(option: nat)
      requires Valid()
      requires questions != [] && option < |questions[currentQuestionIndex].options|
      modifies this`selectedOption, this`score, this`picks
      ensures Valid()
      ensures old(selectedOption).None? && route.None? ==>
                && selectedOption == Some(questions[currentQuestionIndex].options[option])
                && score == old(score) + (if option == questions[currentQuestionIndex].correctAnswer then 1 else 0)
                && picks == old(picks) + [option]
      ensures old(selectedOption).Some? || route.Some? ==>
                selectedOption == old(selectedOption) && score == old(score) && picks == old(picks)
    {
      if selectedOption.None? && route.None? {
        var q := questions[currentQuestionIndex];
        selectedOption := Some(q.options[option]);
        picks := picks + [option];
        assert picks[..|picks| - 1] == old(picks);
        if option == q.correctAnswer {
          score := score + 1;
        }
      }
    }

    /** The attempt handoff shared by the last Next and the timer's expiry. */
    method Complete(vm: QuizViewModel, pushKey: Option<string>, timestamp: string) returns (w: Option<AttemptWrite>)
      requires Consistent() && route.None?
      modifies this`route, vm`quizId, vm`quizTitle, vm`gradePercentage
      ensures Valid() && HandedOff(vm, pushKey, timestamp, w)
    {
      var grade := Grade(score, |questions|);
      vm.SetQuizData(quizId.GetOr(""), LoggedTitle(), grade);
      w := vm.LogQuizCompletion(pushKey, timestamp);
      route := Some(GradeRoute(grade));
    }

    /**
     * The Next button, shown once an option is picked: moves to the next question with the
     * selection cleared, or on the last question hands the attempt off and navigates.
     */
    method Next(vm: QuizViewModel, pushKey: Option<string>, timestamp: string) returns (w: Option<AttemptWrite>)
      requires Valid() && selectedOption.Some?
      modifies this`currentQuestionIndex, this`selectedOption, this`route
      modifies vm`quizId, vm`quizTitle, vm`gradePercentage
      ensures Valid()
      ensures old(route).Some? ==>
                currentQuestionIndex == old(currentQuestionIndex) && selectedOption == old(selectedOption)
                && route == old(route) && w == None && unchanged(vm)
      ensures old(route).None? && old(currentQuestionIndex) < |questions| - 1 ==>
                && currentQuestionIndex == old(currentQuestionIndex) + 1
                && selectedOption == None && route == None && w == None && unchanged(vm)
      ensures old(route).None? && old(currentQuestionIndex) == |questions| - 1 ==>
                && currentQuestionIndex == old(currentQuestionIndex)
                && |picks| == |questions|
                && HandedOff(vm, pushKey, timestamp, w)
    {
      w := None;
      if route.Some? {
        return;
      }
      if currentQuestionIndex < |questions| - 1 {
        currentQuestionIndex := currentQuestionIndex + 1;
        selectedOption := None;
      } else {
        w := Complete(vm, pushKey, timestamp);
      }
    }

    /**
     * The usual step of a session: a click on option `option` of the current question, then
     * Next. The pick is recorded, and either the next question is shown or the attempt is
     * handed off.
     */
    method Answer(option: nat, vm: QuizViewModel, pushKey: Option<string>, timestamp: string)
      returns (w: Option<AttemptWrite>)
      requires Valid() && route.None? && selectedOption.None?
      requires questions != [] && option < |questions[currentQuestionIndex].options|
      modifies this`currentQuestionIndex, this`selectedOption, this`score, this`picks, this`route
      modifies vm`quizId, vm`quizTitle, vm`gradePercentage
      ensures Valid() && picks == old(picks) + [option]
      ensures route.None? ==> selectedOption.None? && currentQuestionIndex == old(currentQuestionIndex) + 1
      ensures route.Some? ==> |picks| == |questions| && HandedOff(vm, pushKey, timestamp, w)
      ensures vm.userId == old(vm.userId)
    {
      Select(option);
      w := Next(vm, pushKey, timestamp);
    }

    /**
     * The user answers every question, from the first, with its correct option: the last
     * Next hands the attempt off.
     */
    method AnswerAllCorrectly(vm: QuizViewModel, pushKey: Option<string>, timestamp: string)
      returns (w: Option<AttemptWrite>)
      requires Valid() && route.None? && picks == [] && questions != []
      requires forall k :: 0 <= k < |questions| ==> 0 <= questions[k].correctAnswer < |questions[k].options|
      modifies this`currentQuestionIndex, this`selectedOption, this`score, this`picks, this`route
      modifies vm`quizId, vm`quizTitle, vm`gradePercentage
      ensures Valid() && |picks| == |questions| && HandedOff(vm, pushKey, timestamp, w)
      ensures forall k :: 0 <= k < |picks| ==> picks[k] == questions[k].correctAnswer
      ensures vm.userId == old(vm.userId)
    {
      w := None;
      while route.None?
        invariant Valid()
        invariant vm.userId == old(vm.userId)
        invariant route.None? ==> selectedOption.None?
        invariant forall k :: 0 <= k < |picks| ==> picks[k] == questions[k].correctAnswer
        invariant route.Some? ==> |picks| == |questions| && HandedOff(vm, pushKey, timestamp, w)
        decreases |questions| - currentQuestionIndex, if route.None? then 1 else 0
      {
        w := Answer(questions[currentQuestionIndex].correctAnswer, vm, pushKey, timestamp);
      }
    }

    /**
     * One pass of the countdown loop: one second off a positive timer; once the timer is
     * at or below zero the session hands off the attempt with the score so far.
     */
    method Tick(vm: QuizViewModel, pushKey: Option<string>, timestamp: string) returns (w: Option<AttemptWrite>)
      requires Valid()
      modifies this`timeLeft, this`route, vm`quizId, vm`quizTitle, vm`gradePercentage
      ensures Valid()
      ensures old(route).Some? ==> timeLeft == old(timeLeft) && route == old(route) && w == None && unchanged(vm)
      ensures old(route).None? ==> timeLeft == if old(timeLeft) > 0 then old(timeLeft) - 1 else old(timeLeft)
      ensures old(route).None? && timeLeft > 0 ==> route == None && w == None && unchanged(vm)
      ensures old(route).None? && timeLeft <= 0 ==> HandedOff(vm, pushKey, timestamp, w)
    {
      w := None;
      if route.Some? {
        return;
      }
      if timeLeft > 0 {
        timeLeft := timeLeft - 1;
      }
      if timeLeft <= 0 {
        w := Complete(vm, pushKey, timestamp);
      }
    }

    /**
     * The countdown `LaunchedEffect` run to its end with no click in between: the timer
     * stops at zero (a non-positive seed is left as it is) and the attempt is handed off.
     */
    method RunCountdown(vm: QuizViewModel, pushKey: Option<string>, timestamp: string) returns (w: Option<AttemptWrite>)
      requires Valid() && route.None?
      modifies this`timeLeft, this`route, vm`quizId, vm`quizTitle, vm`gradePercentage
      ensures Valid() && HandedOff(vm, pushKey, timestamp, w)
      ensures timeLeft == if old(timeLeft) > 0 then 0 else old(timeLeft)
    {
      w := None;
      while route.None?
        invariant Valid()
        invariant vm.userId == old(vm.userId)
        invariant route.Some? ==> HandedOff(vm, pushKey, timestamp, w)
        invariant old(timeLeft) > 0 ==> 0 <= timeLeft <= old(timeLeft)
        invariant old(timeLeft) <= 0 ==> timeLeft == old(timeLeft)
        invariant route.Some? && old(timeLeft) > 0 ==> timeLeft == 0
        decreases if timeLeft > 0 then timeLeft else 0, if route.None? then 1 else 0
      {
        w := Tick(vm, pushKey, timestamp);
      }
    }
  }

  /**
   * A whole session in which every question is answered correctly before the timer runs
   * out: it ends on the last Next with grade 100 and logs an attempt of 100.
   */
  method AllCorrectRun(catalog: seq<Quiz>, quizId: Option<string>, questions: seq<Question>,
                       userId: string, pushKey: Option<string>, timestamp: string)
    returns (route: Option<string>, w: Option<AttemptWrite>)
    requires questions != []
    requires forall k :: 0 <= k < |questions| ==> 0 <= questions[k].correctAnswer < |questions[k].options|
    ensures route == Some(GradeRoute(100))
    ensures w.Some? <==> pushKey.Some?
    ensures w.Some? ==>
              && w.value.userId == userId
              && DecodeAttempt(w.value.fields)
                 == Some(QuizAttempt(quizId.GetOr(""), FindQuiz(catalog, quizId).GetOr(NoQuiz).title, 100, timestamp))
  {
    var vm := new QuizViewModel(Some(userId));
    var s := new QuizSession(catalog, quizId, questions);
    w := s.AnswerAllCorrectly(vm, pushKey, timestamp);
    PerfectGrade(questions, s.picks);
    route := s.route;
    assert vm.quizTitle == Some(FindQuiz(catalog, quizId).GetOr(NoQuiz).title);
  }

  /**
   * A session whose timer runs out before any option is picked: grade 0, and the attempt
   * logged carries 0 — also when the quiz has no questions at all.
   */
  method UnansweredTimeout(catalog: seq<Quiz>, quizId: Option<string>, questions: seq<Question>,
                           userId: string, pushKey: Option<string>, timestamp: string)
    returns (route: Option<string>, w: Option<AttemptWrite>)
    ensures route == Some(GradeRoute(0))
    ensures w.Some? <==> pushKey.Some?
    ensures w.Some? ==>
              && w.value.userId == userId
              && DecodeAttempt(w.value.fields)
                 == Some(QuizAttempt(quizId.GetOr(""), FindQuiz(catalog, quizId).GetOr(NoQuiz).title, 0, timestamp))
  {
    var vm := new QuizViewModel(Some(userId));
    var s := new QuizSession(catalog, quizId, questions);
    w := s.RunCountdown(vm, pushKey, timestamp);
    route := s.route;
    GradeExtremes(|questions|);
    assert s.score == 0;
    assert vm.userId == Some(userId);
    assert vm.quizTitle == Some(FindQuiz(catalog, quizId).GetOr(NoQuiz).title);
  }
}
