# QuizApp core in Dafny

A model of the logic of the Android quiz app: the quiz catalog and attempt history kept by
`QuizViewModel`, the quiz-taking session of `QuestionScreen` (answer locking, scoring,
countdown, grade, attempt logging), the authentication state machine of `AuthViewModel`,
the registration form, the catalog and duration display of `MainScreen`, and the message
band of `GradeScreen`. The Firebase backend is not modelled as code: every read or write
the app issues is a value (`Read`, `Reply`, `AttemptWrite`) passed in or returned, and
the backend's attempt log is a pure store (`Records.AttemptStore`) with a `Commit` step.

Modules, one per source file or concern:

- `Wrappers` — `Option`.
- `Formatting` — decimal text of integers, `%02d`, the `MM:SS` clock and its parser,
  and the JVM's truncating division and remainder by 60.
- `Records` — `Question`, `Quiz`, `QuizAttempt`, the decoding of snapshot children, the
  attempt-log write and the store it lands in.
- `QuizVM` — class `QuizViewModel`: each LiveData is a field, each listener callback a method.
- `QuestionScreen` — class `QuizSession`: the composable's remembered state as fields, the
  option click, Next button and countdown as methods; whole-session scenarios.
- `Auth` — class `AuthViewModel` and the login and sign-up flows.
- `RegisterScreen` — class `RegisterForm` and the registration flow.
- `MainScreen`, `GradeScreen` — the pure display logic of those screens.

`logQuizCompletion` only refuses unset (null) values; an empty string passes, so an
attempt with user id "" and quiz id "" would still be written
(`QuizVM.QuizViewModel.LogQuizCompletion`).

## Model

| member | source | states |
|---|---|---|
| Formatting.Digits | app/src/main/java/com/example/quizapp/pages/QuestionScreen.kt:95 | the decimal text of a grade: non-empty, digits only, no leading zero, one digit exactly below 10 |
| Formatting.IntString | app/src/main/java/com/example/quizapp/pages/QuestionScreen.kt:95 | `"$n"`: the digits of n, after a minus sign when negative, reading back as n |
| Formatting.ValueOfDigits | app/src/main/java/com/example/quizapp/pages/QuestionScreen.kt:95 | reading back the decimal text of n gives n |
| Formatting.Pad2Value | app/src/main/java/com/example/quizapp/pages/QuestionScreen.kt:100 | `%02d` of n is at least two digits, exactly two iff n < 100, and reads back as n |
| Formatting.Format02 | app/src/main/java/com/example/quizapp/pages/QuestionScreen.kt:100 | `%02d`: at least two characters; a non-negative value is zero-padded (exactly two iff below 100) and reads back; a negative one keeps its sign |
| Formatting.Clock | app/src/main/java/com/example/quizapp/pages/MainScreen.kt:236 | `%02d:%02d` of two non-negative parts reads back as that pair |
| Formatting.Div60 | app/src/main/java/com/example/quizapp/pages/QuestionScreen.kt:98 | `TimeUnit.SECONDS.toMinutes`: rounds toward zero, so the quotient has the sign of t and the leftover lies in [0, 60) or (-60, 0] |
| Formatting.Rem60 | app/src/main/java/com/example/quizapp/pages/QuestionScreen.kt:99 | Kotlin `% 60`: `t == 60*q + r`, remainder within (-60, 60) with the sign of t |
| Formatting.ClockRoundTrip | app/src/main/java/com/example/quizapp/pages/QuestionScreen.kt:100 | two zero-padded parts around a colon parse back to the same pair |
| Records.Decodable | app/src/main/java/com/example/quizapp/QuizViewModel.kt:188-195 | the kept records are never more than the children |
| Records.DecodableMembers | app/src/main/java/com/example/quizapp/QuizViewModel.kt:213-221 | a record is kept exactly when some child decoded to it |
| Records.DecodeAttempt | app/src/main/java/com/example/quizapp/QuizViewModel.kt:113-125 | a child becomes an attempt iff all four fields are present, and that attempt re-encodes to the child's fields |
| Records.EncodeAttempt | app/src/main/java/com/example/quizapp/QuizViewModel.kt:161-166 | the logged map carries the attempt's quiz id and grade |
| Records.AttemptRoundTrip | app/src/main/java/com/example/quizapp/QuizViewModel.kt:113-125 | decoding the map the app writes gives back the attempt |
| Records.Attempts | app/src/main/java/com/example/quizapp/QuizViewModel.kt:110-131 | the listed attempts are never more than the children, and each one is held verbatim by some child |
| Records.AttemptsMembers | app/src/main/java/com/example/quizapp/QuizViewModel.kt:112-129 | an attempt is listed iff some child's fields encode it |
| Records.AttemptsOfWritten | app/src/main/java/com/example/quizapp/QuizViewModel.kt:112-131 | children written by the app are all listed back, in order |
| Records.QuizIds | app/src/main/java/com/example/quizapp/QuizViewModel.kt:242-257 | every non-null quiz id of a child is counted, and every counted id comes from some child |
| Records.QuizIdsMembers | app/src/main/java/com/example/quizapp/QuizViewModel.kt:245-254 | a quiz id is counted iff some child carries it |
| Records.QuizIdsBound | app/src/main/java/com/example/quizapp/QuizViewModel.kt:242-257 | the distinct-quiz count never exceeds the number of children |
| Records.QuizIdsAppendOne | app/src/main/java/com/example/quizapp/QuizViewModel.kt:245-254 | one more child adds at most one quiz, and none iff its id is null or already counted |
| Records.AttemptQuizzesCounted | app/src/main/java/com/example/quizapp/QuizViewModel.kt:245-254 | every listed attempt's quiz is among the counted quizzes |
| Records.CountedButNotListed | app/src/main/java/com/example/quizapp/QuizViewModel.kt:118 | a child missing only its title is counted but not listed |
| Records.AppendWrittenChild | app/src/main/java/com/example/quizapp/QuizViewModel.kt:112-131 | a log gaining the child written for an attempt lists that attempt last and counts at most one more quiz, none if its quiz was already counted |
| Records.AttemptWriteFor | app/src/main/java/com/example/quizapp/QuizViewModel.kt:148-174 | a write is issued iff user, quiz id, title, grade and push key are all set; it goes under the user and key and decodes to the attempt |
| Records.SetChild | app/src/main/java/com/example/quizapp/QuizViewModel.kt:174 | `setValue` at a key: the new child is present; when the key exists the length is kept and the first child with that key is replaced, all others unchanged |
| Records.SetFreshChild | app/src/main/java/com/example/quizapp/QuizViewModel.kt:169-174 | a fresh push key appends exactly one child after all others |
| Records.Commit | app/src/main/java/com/example/quizapp/QuizViewModel.kt:174-180 | a failed or absent write leaves the store unchanged; a successful write sets that user's log to `SetChild` of the old log; other users' logs never change |
| Records.CommitFreshAttempt | app/src/main/java/com/example/quizapp/QuizViewModel.kt:169-174 | a committed completion adds exactly its attempt to the user's list and at most one quiz to the count, none if the quiz was done before |
| QuizVM.QuizViewModel.constructor | app/src/main/java/com/example/quizapp/QuizViewModel.kt:66-68 | the signed-in user's id is taken and the catalog starts loading |
| QuizVM.QuizViewModel.ResetData | app/src/main/java/com/example/quizapp/QuizViewModel.kt:78-88 | attempts cleared, ids set to "", grade and count to 0; catalog, questions and loading flag untouched |
| QuizVM.QuizViewModel.FetchUserId | app/src/main/java/com/example/quizapp/QuizViewModel.kt:90-98 | the id follows the signed-in user; with nobody signed in it is left as it was |
| QuizVM.QuizViewModel.FetchQuizAttempts | app/src/main/java/com/example/quizapp/QuizViewModel.kt:101-137 | a missing snapshot empties the list, an existing one lists exactly the complete children in order, a cancel changes nothing |
| QuizVM.QuizViewModel.SetQuizData | app/src/main/java/com/example/quizapp/QuizViewModel.kt:141-145 | the three values to log are set |
| QuizVM.QuizViewModel.LogQuizCompletion | app/src/main/java/com/example/quizapp/QuizViewModel.kt:148-182 | the write is issued iff all four values and the push key are set, and it is the one that decodes to the attempt |
| QuizVM.QuizViewModel.FetchQuestionsForQuiz | app/src/main/java/com/example/quizapp/QuizViewModel.kt:184-202 | the question list becomes exactly the decodable children in order; a cancel changes nothing |
| QuizVM.QuizViewModel.FetchQuizzes | app/src/main/java/com/example/quizapp/QuizViewModel.kt:204-233 | loading is raised and stays raised until a snapshot or a cancel arrives |
| QuizVM.QuizViewModel.OnQuizzesChange | app/src/main/java/com/example/quizapp/QuizViewModel.kt:208-231 | an existing snapshot replaces the catalog with its decodable quizzes and ends loading; a missing one changes nothing; a cancel only ends loading |
| QuizVM.QuizViewModel.FetchUniqueCompletedQuizCount | app/src/main/java/com/example/quizapp/QuizViewModel.kt:235-268 | an existing snapshot sets the count to the number of distinct non-null quiz ids; otherwise the count stays |
| QuestionScreen.FindQuiz | app/src/main/java/com/example/quizapp/pages/QuestionScreen.kt:55 | none iff no quiz has the id; otherwise the first quiz with it |
| QuestionScreen.TimerSeed | app/src/main/java/com/example/quizapp/pages/QuestionScreen.kt:61 | the first matching quiz's duration, 300 when none matches |
| QuestionScreen.Grade | app/src/main/java/com/example/quizapp/pages/QuestionScreen.kt:81-83 | the grade is correct*100/total rounded down, 0 without questions |
| QuestionScreen.GradeAtMost100 | app/src/main/java/com/example/quizapp/pages/QuestionScreen.kt:82 | a grade never exceeds 100 |
| QuestionScreen.GradeExtremes | app/src/main/java/com/example/quizapp/pages/QuestionScreen.kt:82 | all correct gives 100, none correct gives 0 |
| QuestionScreen.GradeMonotone | app/src/main/java/com/example/quizapp/pages/QuestionScreen.kt:82 | more correct answers never lower the grade |
| QuestionScreen.GradeTwoOfThree | app/src/main/java/com/example/quizapp/pages/QuestionScreen.kt:82 | the grade truncates: two of three is 66 |
| QuestionScreen.Correct | app/src/main/java/com/example/quizapp/pages/QuestionScreen.kt:68-72 | the score never exceeds the number of answered questions |
| QuestionScreen.CorrectAll | app/src/main/java/com/example/quizapp/pages/QuestionScreen.kt:185-191 | every pick correct scores every answered question |
| QuestionScreen.CorrectNone | app/src/main/java/com/example/quizapp/pages/QuestionScreen.kt:185-191 | no pick correct scores 0 |
| QuestionScreen.PerfectGrade | app/src/main/java/com/example/quizapp/pages/QuestionScreen.kt:81-83 | every question answered correctly grades 100 |
| QuestionScreen.GradeRoute | app/src/main/java/com/example/quizapp/pages/QuestionScreen.kt:95 | the grade-screen route: its prefix followed by the grade, which reads back for a non-negative grade |
| QuestionScreen.TimerText | app/src/main/java/com/example/quizapp/pages/QuestionScreen.kt:98-100 | for a non-negative timer the text reads back as its minutes and seconds |
| QuestionScreen.QuizSession.constructor | app/src/main/java/com/example/quizapp/pages/QuestionScreen.kt:55-66 | the session starts on question 0 with score 0, no selection, and the timer at the quiz's duration (300 if not found) |
| QuestionScreen.QuizSession.Select | app/src/main/java/com/example/quizapp/pages/QuestionScreen.kt:183-192 | the first pick locks the question and adds 1 iff it is the correct index; later picks change nothing; the score stays the count of correct picks |
| QuestionScreen.QuizSession.Complete | app/src/main/java/com/example/quizapp/pages/QuestionScreen.kt:81-95 | quiz id, title and grade are handed to the view model, the attempt write is the view model's, and the route carries the grade |
| QuestionScreen.QuizSession.Next | app/src/main/java/com/example/quizapp/pages/QuestionScreen.kt:207-220 | before the last question: advance and clear the selection; on the last: hand the attempt off with the grade of all answers |
| QuestionScreen.QuizSession.Answer | app/src/main/java/com/example/quizapp/pages/QuestionScreen.kt:183-220 | an option click followed by Next records the pick, then shows the next question with no selection or hands the attempt off after the last one |
| QuestionScreen.QuizSession.AnswerAllCorrectly | app/src/main/java/com/example/quizapp/pages/QuestionScreen.kt:183-220 | answering every question from the first with its correct option records only correct picks, one per question, and ends with the attempt handed off |
| QuestionScreen.QuizSession.Tick | app/src/main/java/com/example/quizapp/pages/QuestionScreen.kt:77-80 | a positive timer loses one second; at zero the attempt is handed off |
| QuestionScreen.QuizSession.RunCountdown | app/src/main/java/com/example/quizapp/pages/QuestionScreen.kt:76-96 | left alone, the timer stops at 0 and the attempt is handed off with the score so far |
| QuestionScreen.AllCorrectRun | app/src/main/java/com/example/quizapp/pages/QuestionScreen.kt:183-220 | answering every question correctly ends with grade 100 and logs an attempt of 100 under the user |
| QuestionScreen.UnansweredTimeout | app/src/main/java/com/example/quizapp/pages/QuestionScreen.kt:76-96 | a timeout with nothing picked ends with grade 0 and logs an attempt of 0, also for a quiz without questions |
| Auth.AfterClearError | app/src/main/java/com/example/quizapp/AuthViewModel.kt:209-214 | an error becomes Unauthenticated; every other state is kept |
| Auth.ClearErrorIdempotent | app/src/main/java/com/example/quizapp/AuthViewModel.kt:209-214 | clearing twice is clearing once |
| Auth.AuthViewModel.constructor | app/src/main/java/com/example/quizapp/AuthViewModel.kt:25-27 | starts Authenticated iff someone is signed in |
| Auth.AuthViewModel.CheckAuthStatus | app/src/main/java/com/example/quizapp/AuthViewModel.kt:96-105 | Authenticated iff someone is signed in |
| Auth.AuthViewModel.FetchUsername | app/src/main/java/com/example/quizapp/AuthViewModel.kt:107-117 | the stored name, or "Unknown User" when missing or on failure |
| Auth.AuthViewModel.FetchProfilePictureUrl | app/src/main/java/com/example/quizapp/AuthViewModel.kt:70-81 | the stored URL, or "" when missing or on failure |
| Auth.AuthViewModel.UpdateUsername | app/src/main/java/com/example/quizapp/AuthViewModel.kt:83-94 | the local name follows the remote write only when it succeeded |
| Auth.AuthViewModel.Login | app/src/main/java/com/example/quizapp/AuthViewModel.kt:119-125 | sign-in starts iff both credentials are non-empty; otherwise the empty-credentials error |
| Auth.AuthViewModel.OnSignInComplete | app/src/main/java/com/example/quizapp/AuthViewModel.kt:127-151 | success is Authenticated; failure is an error with the exception's message or "Login failed" |
| Auth.AuthViewModel.Signup | app/src/main/java/com/example/quizapp/AuthViewModel.kt:155-160 | account creation starts iff all three fields are non-empty; otherwise the empty-fields error |
| Auth.AuthViewModel.OnAccountCreated | app/src/main/java/com/example/quizapp/AuthViewModel.kt:164-196 | with a signed-in user, the record to store has the email, username, uid and default picture URL; failure is an error with the message or "Sign up failed" |
| Auth.AuthViewModel.OnUserRecordSaved | app/src/main/java/com/example/quizapp/AuthViewModel.kt:178-192 | a saved record is Authenticated; a failed save is an error with the message or the save-failed text |
| Auth.AuthViewModel.Signout | app/src/main/java/com/example/quizapp/AuthViewModel.kt:201-207 | Unauthenticated, with name and picture URL cleared to "" |
| Auth.AuthViewModel.ClearError | app/src/main/java/com/example/quizapp/AuthViewModel.kt:209-214 | the new state is the old one with an error dismissed |
| Auth.LoginFlow | app/src/main/java/com/example/quizapp/AuthViewModel.kt:119-152 | a login ends Authenticated iff both credentials are given and sign-in succeeds, otherwise in an error |
| Auth.SignupFlow | app/src/main/java/com/example/quizapp/AuthViewModel.kt:155-198 | a sign-up ends Authenticated iff all fields are given, a user is created and the record saved; Loading iff creation gave no user; otherwise an error |
| Auth.IsWhitespace | app/src/main/java/com/example/quizapp/pages/ProfileScreen.kt:388 | space, tab, newline and carriage return are whitespace; ASCII letters and digits are not |
| Auth.IsBlank | app/src/main/java/com/example/quizapp/pages/ProfileScreen.kt:388 | the empty text is blank; a text is blank iff every character is whitespace |
| Auth.BlankConcat | app/src/main/java/com/example/quizapp/pages/ProfileScreen.kt:388 | a concatenation is blank iff both parts are |
| Auth.ConfirmUsernameChange | app/src/main/java/com/example/quizapp/pages/ProfileScreen.kt:386-395 | a blank name is refused; otherwise it is saved, and shown once the write succeeds |
| RegisterScreen.RegisterForm.constructor | app/src/main/java/com/example/quizapp/pages/RegisterScreen.kt:60-71 | the form starts empty with no errors and no spinner |
| RegisterScreen.RegisterForm.EditEmail | app/src/main/java/com/example/quizapp/pages/RegisterScreen.kt:136-139 | editing the email clears only the email error |
| RegisterScreen.RegisterForm.EditUsername | app/src/main/java/com/example/quizapp/pages/RegisterScreen.kt:167-170 | editing the username clears only the username error |
| RegisterScreen.RegisterForm.EditPassword | app/src/main/java/com/example/quizapp/pages/RegisterScreen.kt:198-201 | editing the password clears only the password error |
| RegisterScreen.RegisterForm.CreateAccount | app/src/main/java/com/example/quizapp/pages/RegisterScreen.kt:227-240 | each empty field gets its error; sign-up is called iff email and password are filled |
| RegisterScreen.RegisterForm.OnAuthState | app/src/main/java/com/example/quizapp/pages/RegisterScreen.kt:73-87 | Authenticated goes to login; an error is shown and dismissed; other states change nothing |
| RegisterScreen.Register | app/src/main/java/com/example/quizapp/pages/RegisterScreen.kt:73-240 | the screen goes to login iff every field is filled and both backend steps succeed; a missing username shows the view model's refusal |
| MainScreen.Pane | app/src/main/java/com/example/quizapp/pages/MainScreen.kt:148-175 | spinner iff loading; "no quizzes" iff loaded and empty; otherwise the cards of the list |
| MainScreen.DurationLabelOf | app/src/main/java/com/example/quizapp/pages/MainScreen.kt:219-249 | "Invalid Duration" iff negative; otherwise MM:SS that reads back to the duration with seconds below 60 |
| MainScreen.LabelMatchesTimer | app/src/main/java/com/example/quizapp/pages/MainScreen.kt:219-236 | a card's label is the session's first timer text |
| MainScreen.OnQuizClick | app/src/main/java/com/example/quizapp/pages/MainScreen.kt:168-171 | clicking a card selects that quiz and shows the dialog |
| MainScreen.QuestionRoute | app/src/main/java/com/example/quizapp/pages/MainScreen.kt:181 | the route is the question-screen prefix followed by the quiz id |
| MainScreen.ConfirmStart | app/src/main/java/com/example/quizapp/pages/MainScreen.kt:176-183 | Start closes the dialog and navigates to the clicked quiz's session |
| MainScreen.Dismiss | app/src/main/java/com/example/quizapp/pages/MainScreen.kt:184 | dismissing only closes the dialog |
| MainScreen.StartedQuizSeedsTimer | app/src/main/java/com/example/quizapp/pages/MainScreen.kt:181 | starting a quiz gives a session whose timer starts at that quiz's duration |
| GradeScreen.GradeMessage | app/src/main/java/com/example/quizapp/pages/GradeScreen.kt:49-53 | below 40 retake, 40 to 70 inclusive good effort, above 70 great job |
| GradeScreen.MessageMonotone | app/src/main/java/com/example/quizapp/pages/GradeScreen.kt:49-53 | a higher grade never gets a lower message |
| GradeScreen.Truncate | app/src/main/java/com/example/quizapp/pages/GradeScreen.kt:112 | `toInt()` rounds toward zero |
| GradeScreen.AchievedText | app/src/main/java/com/example/quizapp/pages/GradeScreen.kt:112 | "Achieved " then the grade rounded toward zero then "%"; for a non-negative grade the number reads back as its floor |
| GradeScreen.SessionGradeShown | app/src/main/java/com/example/quizapp/pages/GradeScreen.kt:112 | a session's grade reads back from its route, is shown as that whole number, and gets the message of its band |

## Left out

- Firebase Auth, Realtime Database and Storage are not code here. Each read or write is an outcome parameter or a returned write value. Listener registration, snapshot ordering and `getValue` reflection are left out: a child's decoded form is an input. A field of the wrong type makes `getValue` throw and aborts the whole callback; the model treats every field as either present with its type or missing.
- `uploadProfilePicture` (AuthViewModel.kt:29-68) is left out. It chains Storage and database calls whose only local effect is to set the picture URL.
- The timestamp from `System.currentTimeMillis` and `SimpleDateFormat` is an opaque string parameter. The push key from `push().key` is an optional parameter.
- The one-second `delay` and the coroutine are left out. `Tick` is one pass of the loop; time and interleaving with clicks are the caller's order of calls.
- QuestionScreen.QuizSession.Next: the last question's grade uses integer truncation. The source computes `score.toDouble() / totalQuestions.toFloat() * 100` and truncates the double, so some scores can come out one lower (for instance 29 of 100 would give 28.999… and then 28). Floating point is not modelled.
- QuestionScreen.QuizSession.Tick: once `route` is set, the session does nothing more. This stands for the screen leaving composition after `navigate`. The source has no such flag: until the screen is disposed, a timer expiry after the last Next (or the reverse) can call `logQuizCompletion` a second time. The model therefore has at most one attempt per session by construction.
- QuestionScreen.QuizSession.Next: the same `route` guard stands for disposal. A second tap on Next before the screen is gone would log the attempt again in the app.
- The "Question i/10" header label, colours, layout, toasts and log messages are left out.
- QuestionScreen.QuizSession.constructor: the question list and the quiz found in the catalog are fixed when the session starts. In the app the countdown keeps the quiz of the first composition, but the Next handler reads the catalog of the current one, so a catalog refresh during a session can change the title logged on the Next path. The asynchronous arrival of questions, and the repeated `fetchQuestionsForQuiz` on every recomposition, are left out (`FetchQuestionsForQuiz` models one read).
- The `userId` observer in `QuizViewModel.init` (QuizViewModel.kt:70-75) and the follow-up fetches after login and sign-up (AuthViewModel.kt:136-144, 182-188) are left out as wiring. Each fetched value is its own method.
- Auth.AuthViewModel.CheckAuthStatus: the username and picture fetches it starts are the separate methods `FetchUsername` and `FetchProfilePictureUrl`.
- Kotlin `Int` is unbounded here: the grade, the score and durations are far below 2^31 in this app. Locale-specific digits in `String.format` are not modelled.
- RegisterScreen.RegisterForm.OnAuthState: the navigation target `Routes.loginScreen` is not part of this model. Navigation is the flag `wentToLogin`.
- GradeScreen.GradeMessage: the navigation graph parses the route's grade argument as a Float (`NavType.FloatType`, `getFloat`) and converts it with `toDouble()` before the screen sees it. The graph is not part of this model, nor is the Float rounding of the argument, and NaN and infinities are not modelled (reals only).
- MainActivity, QuizAppNavigation, UserViewModel, AnswerScreen and the rest of ProfileScreen are not part of this model.
