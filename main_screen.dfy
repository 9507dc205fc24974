/**
 * MainScreen.kt: which pane the catalog shows, the duration label of a quiz card, and the
 * start-quiz dialog that opens a session.
 */
module MainScreen {
  import opened Wrappers
  import opened Formatting
  import opened Records
  import opened QuestionScreen

  datatype CatalogPane = Spinner | NoQuizzes | QuizCards(quizzes: seq<Quiz>)

  /** The spinner while loading; otherwise the cards, or the empty-catalog message. */
  function Pane(isLoading: bool, quizzes: seq<Quiz>): (p: CatalogPane)
    ensures p == Spinner <==> isLoading
    ensures p == NoQuizzes <==> !isLoading && quizzes == []
    ensures p.QuizCards? ==> p.quizzes == quizzes && quizzes != []
  {
    if isLoading then Spinner else if quizzes == [] then NoQuizzes else QuizCards(quizzes)
  }

  datatype DurationLabel = Time(text: string) | InvalidDuration

  /** A card's duration: `MM:SS` for a non-negative number of seconds, else "Invalid Duration". */
  function DurationLabelOf(duration: int): (l: DurationLabel)
    ensures l == InvalidDuration <==> duration < 0
    ensures l.Time? ==> |l.text| >= 5 && ParseClock(l.text).Some?
    ensures l.Time? ==> var (minutes, seconds) := ParseClock(l.text).value;
                        seconds < 60 && minutes * 60 + seconds == duration
  {
    if duration >= 0 then
      var minutes, seconds := duration / 60, duration % 60;
      Pad2Value(minutes);
      Pad2Value(seconds);
      Time(Clock(minutes, seconds))
    else InvalidDuration
  }

  /** A card's label and the session's first timer text agree for the same duration. */
  lemma LabelMatchesTimer(duration: int)
    requires duration >= 0
    ensures DurationLabelOf(duration) == Time(TimerText(duration))
  {
  }

  /** The dialog state: whether it is shown and which card was clicked. */
  datatype StartDialog = StartDialog(shown: bool, selected: Option<Quiz>)

  /** A click on a quiz card selects that quiz and shows the dialog. */
  function OnQuizClick(q: Quiz): (d: StartDialog)
    ensures d.shown && d.selected == Some(q)
  {
    StartDialog(true, Some(q))
  }

  const QuestionRoutePrefix := "question_screen/"

  function QuestionRoute(quizId: string): (route: string)
    ensures |route| == |QuestionRoutePrefix| + |quizId|
    ensures route[..|QuestionRoutePrefix|] == QuestionRoutePrefix && route[|QuestionRoutePrefix|..] == quizId
  {
    QuestionRoutePrefix + quizId
  }

  /** Start: closes the dialog and opens the session of the clicked quiz. */
  function ConfirmStart(d: StartDialog): (r: (StartDialog, Option<string>))
    requires d.shown && d.selected.Some?
    ensures !r.0.shown && r.0.selected == d.selected
    ensures r.1 == Some(QuestionRoute(d.selected.value.id))
  {
    (StartDialog(false, d.selected), Some(QuestionRoute(d.selected.value.id)))
  }

  /** Cancel or a tap outside: only closes the dialog. */
  function Dismiss(d: StartDialog): (r: StartDialog)
    ensures !r.shown && r.selected == d.selected
  {
    StartDialog(false, d.selected)
  }

  /**
   * Starting the first quiz of the catalog with a given id opens a session whose
   * countdown starts at that quiz's duration.
   */
  lemma StartedQuizSeedsTimer(catalog: seq<Quiz>, k: nat)
    requires k < |catalog|
    requires forall j :: 0 <= j < k ==> catalog[j].id != catalog[k].id
    ensures var route := ConfirmStart(OnQuizClick(catalog[k])).1.value;
            TimerSeed(catalog, Some(route[|QuestionRoutePrefix|..])) == catalog[k].duration
  {
    assert FirstWithId(catalog, Some(catalog[k].id), k);
  }
}
