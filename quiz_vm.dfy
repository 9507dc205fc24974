/**
 * QuizViewModel.kt: the quiz catalog cache, the current user's attempt list and
 * distinct-quiz count, and the data of the attempt about to be logged. Each backend
 * callback is a method that receives the read's outcome.
 */
module QuizVM {
  import opened Wrappers
  import opened Records

  class QuizViewModel {
    var quizzes: seq<Quiz>
    var questions: seq<Question>
    var quizAttempts: seq<QuizAttempt>
    var userId: Option<string>
    var quizId: Option<string>
    var quizTitle: Option<string>
    var gradePercentage: Option<int>
    var isLoading: bool
    var completedUniqueQuizCount: Option<int>

    /** `init`: `fetchUserId()` for the signed-in user, then `fetchQuizzes()` raises the loading flag. */
    constructor (currentUser: Option<string>)
      ensures userId == currentUser && isLoading
      ensures quizzes == [] && questions == [] && quizAttempts == []
      ensures quizId == None && quizTitle == None && gradePercentage == None
      ensures completedUniqueQuizCount == None
    {
      quizzes, questions, quizAttempts := [], [], [];
      userId := currentUser;
      quizId, quizTitle, gradePercentage := None, None, None;
      isLoading := true;
      completedUniqueQuizCount := None;
    }

    /** Resets the attempt data and the values to log; the ids become "" rather than unset. */
    method ResetData()
      modifies this
      ensures quizAttempts == [] && userId == Some("") && quizId == Some("") && quizTitle == Some("")
      ensures gradePercentage == Some(0) && completedUniqueQuizCount == Some(0)
      ensures quizzes == old(quizzes) && questions == old(questions) && isLoading == old(isLoading)
    {
      quizAttempts := [];
      userId := Some("");
      quizId := Some("");
      quizTitle := Some("");
      gradePercentage := Some(0);
      completedUniqueQuizCount := Some(0);
    }

    /** Takes the signed-in user's id; with nobody signed in the id keeps its value. */
    method FetchUserId(currentUser: Option<string>)
      modifies this`userId
      ensures userId == if currentUser.Some? then currentUser else old(userId)
    {
      if currentUser.Some? {
        userId := currentUser;
      }
    }

    /** The callback of the one-shot read of users/<uid>/quizAttempts. */
    method FetchQuizAttempts(read: Read<AttemptChild>)
      modifies this`quizAttempts
      ensures read.Absent? ==> quizAttempts == []
      ensures read.Present? ==> quizAttempts == Attempts(read.children)
      ensures read.Cancelled? ==> quizAttempts == old(quizAttempts)
    {
      match read
      case Absent =>
        quizAttempts := [];
      case Cancelled =>
      case Present(children) =>
        var attempts := [];
        var i := 0;
        while i < |children|
          invariant 0 <= i <= |children|
          invariant attempts == Attempts(children[..i])
        {
          var f := children[i].fields;
          if f.quizId.Some? && f.quizTitle.Some? && f.gradePercentage.Some? && f.timestamp.Some? {
            attempts := attempts + [QuizAttempt(f.quizId.value, f.quizTitle.value, f.gradePercentage.value,
                                                f.timestamp.value)];
          }
          AttemptsSnoc(children[..i], children[i]);
          assert children[..i + 1] == children[..i] + [children[i]];
          i := i + 1;
        }
        assert children[..i] == children;
        quizAttempts := attempts;
    }

    /** Records what the finished session will log. */
    method SetQuizData(quizId: string, quizTitle: string, gradePercentage: int)
      modifies this`quizId, this`quizTitle, this`gradePercentage
      ensures this.quizId == Some(quizId) && this.quizTitle == Some(quizTitle)
      ensures this.gradePercentage == Some(gradePercentage)
    {
      this.quizId := Some(quizId);
      this.quizTitle := Some(quizTitle);
      this.gradePercentage := Some(gradePercentage);
    }

    /**
     * The write `logQuizCompletion` issues under a key from `push()` (`pushKey`, None when push
     * gave no key). Nothing is written while any of the four values is unset; "" is accepted.
     * The outcome of the write is only logged, so the view model itself does not change.
     */
    method LogQuizCompletion(pushKey: Option<string>, timestamp: string) returns (w: Option<AttemptWrite>)
      ensures w.Some? <==> userId.Some? && quizId.Some? && quizTitle.Some? && gradePercentage.Some? && pushKey.Some?
      ensures w == AttemptWriteFor(userId, quizId, quizTitle, gradePercentage, pushKey, timestamp)
    {
      if userId.None? || quizId.None? || quizTitle.None? || gradePercentage.None? {
        return None;
      }
      var completion := AttemptFields(quizId, quizTitle, gradePercentage, Some(timestamp));
      if pushKey.Some? {
        w := Some(AttemptWrite(userId.value, pushKey.value, completion));
      } else {
        w := None;
      }
    }

    /** The callback of the one-shot read of quizzes/<quizId>/questions; a missing snapshot has no children. */
    method FetchQuestionsForQuiz(read: Read<Option<Question>>)
      modifies this`questions
      ensures read.Absent? ==> questions == []
      ensures read.Present? ==> questions == Decodable(read.children)
      ensures read.Cancelled? ==> questions == old(questions)
    {
      if read.Cancelled? {
        return;
      }
      var children := if read.Present? then read.children else [];
      var list := [];
      var i := 0;
      while i < |children|
        invariant 0 <= i <= |children|
        invariant list == Decodable(children[..i])
      {
        assert children[..i + 1][..i] == children[..i];
        if children[i].Some? {
          list := list + [children[i].value];
        }
        i := i + 1;
      }
      assert children[..i] == children;
      questions := list;
    }

    /** `fetchQuizzes`: raises the loading flag, then the listener's first callback arrives. */
    method FetchQuizzes(first: Read<Option<Quiz>>)
      modifies this`quizzes, this`isLoading
      ensures first.Present? ==> quizzes == Decodable(first.children) && !isLoading
      ensures first.Absent? ==> quizzes == old(quizzes) && isLoading
      ensures first.Cancelled? ==> quizzes == old(quizzes) && !isLoading
    {
      isLoading := true;
      OnQuizzesChange(first);
    }

    /**
     * A callback of the catalog listener: an existing snapshot replaces the whole list with
     * the quizzes that decode; a missing one changes nothing; a cancel only drops the flag.
     */
    method OnQuizzesChange(read: Read<Option<Quiz>>)
      modifies this`quizzes, this`isLoading
      ensures read.Present? ==> quizzes == Decodable(read.children) && !isLoading
      ensures read.Absent? ==> quizzes == old(quizzes) && isLoading == old(isLoading)
      ensures read.Cancelled? ==> quizzes == old(quizzes) && !isLoading
    {
      match read
      case Absent =>
      case Cancelled =>
        isLoading := false;
      case Present(children) =>
        var quizList := [];
        var i := 0;
        while i < |children|
          invariant 0 <= i <= |children|
          invariant quizList == Decodable(children[..i])
        {
          assert children[..i + 1][..i] == children[..i];
          if children[i].Some? {
            quizList := quizList + [children[i].value];
          }
          i := i + 1;
        }
        assert children[..i] == children;
        quizzes := quizList;
        isLoading := false;
    }

    /**
     * A callback of the listener on users/<uid>/quizAttempts: an existing snapshot sets the
     * count of distinct non-null quiz ids; a missing one or a cancel leaves the count as it was.
     */
    method FetchUniqueCompletedQuizCount(read: Read<AttemptChild>)
      modifies this`completedUniqueQuizCount
      ensures read.Present? ==> completedUniqueQuizCount == Some(|QuizIds(read.children)|)
      ensures !read.Present? ==> completedUniqueQuizCount == old(completedUniqueQuizCount)
    {
      if read.Present? {
        var children := read.children;
        var uniqueQuizzes: set<string> := {};
        var i := 0;
        while i < |children|
          invariant 0 <= i <= |children|
          invariant uniqueQuizzes == QuizIds(children[..i])
        {
          QuizIdsSnoc(children[..i], children[i]);
          assert children[..i + 1] == children[..i] + [children[i]];
          if children[i].fields.quizId.Some? {
            uniqueQuizzes := uniqueQuizzes + {children[i].fields.quizId.value};
          }
          i := i + 1;
        }
        assert children[..i] == children;
        completedUniqueQuizCount := Some(|uniqueQuizzes|);
      }
    }
  }
}
