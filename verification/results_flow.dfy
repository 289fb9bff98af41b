/** The hand-over from the quiz runner to the results page: the address the runner pushes on
    submit, the query parameters the page reads back, and the figures the results card shows. */
module ResultsFlow {
  import opened Wrappers
  import opened Types
  import opened Decimal
  import QuizSession
  import QuizResults

  /** The query parameters of the results address; `None` for one that is absent. */
  datatype ResultsParams = ResultsParams(
    score: Option<string>,
    total: Option<string>,
    time: Option<string>,
    answers: Option<string>)

  /** What the results page renders: the loading placeholder, or the results card with the
      numbers `parseInt` read from the address (`None` standing for NaN). */
  datatype ResultsView =
    | Placeholder
    | Card(score: Option<int>, total: Option<int>, timeTaken: Option<int>)

  /** The results page: all four parameters must be present, otherwise only the placeholder is
      shown. The answers are parsed but the card never uses them, and a parse failure is caught,
      so their text does not affect what is shown. */
  function ResultsPage(p: ResultsParams): (v: ResultsView)
    ensures v.Placeholder? <==> p.score.None? || p.total.None? || p.time.None? || p.answers.None?
    ensures v.Card? ==> v.score == ParseInt(p.score.value) && v.total == ParseInt(p.total.value)
                        && v.timeTaken == ParseInt(p.time.value)
  {
    match (p.score, p.total, p.time, p.answers)
    case (Some(score), Some(total), Some(time), Some(_)) =>
      Card(ParseInt(score), ParseInt(total), ParseInt(time))
    case _ => Placeholder
  }

  /** The address the runner pushes after a submit, as written: score, total and time, and no
      answers. */
  function RunnerParams(q: QuizSession.ResultsQuery): (p: ResultsParams)
    ensures p.answers.None?
    ensures p.score.Some? && ParseInt(p.score.value) == Some(q.score)
    ensures p.total.Some? && ParseInt(p.total.value) == Some(q.total)
    ensures p.time.Some? && ParseInt(p.time.value) == Some(q.time)
  {
    ParseIntRoundTrip(q.score);
    ParseIntRoundTrip(q.total);
    ParseIntRoundTrip(q.time);
    ResultsParams(Some(IntToString(q.score)), Some(IntToString(q.total)), Some(IntToString(q.time)), None)
  }

  /** The address with the `answers` parameter the results page also expects; `answersJson`
      stands for the encoded answer list. */
  function RunnerParamsWithAnswers(q: QuizSession.ResultsQuery, answersJson: string): (p: ResultsParams)
    ensures p.answers == Some(answersJson)
    ensures p.score.Some? && ParseInt(p.score.value) == Some(q.score)
    ensures p.total.Some? && ParseInt(p.total.value) == Some(q.total)
    ensures p.time.Some? && ParseInt(p.time.value) == Some(q.time)
  {
    RunnerParams(q).(answers := Some(answersJson))
  }

  /** As written, the redirect straight after a submit never reaches the results card: the
      address the runner pushes lacks `answers`, so the page shows only its placeholder. */
  lemma SubmittedRunShowsPlaceholder(s: QuizSession.Session, quizSet: QuizSet, u: UserData, timeTaken: int, now: int)
    requires |s.answers| == |quizSet.questions| > 0
    ensures ResultsPage(RunnerParams(QuizSession.Submit(s, quizSet, u, timeTaken, now).results)) == Placeholder
  {
  }

  /** With the answers passed along, the page shows the card with the submitted figures: the
      Incorrect count lies in [0, total] and is 0 iff every answer was correct, and the rounded
      accuracy is defined and within [0, 100]. */
  lemma SubmittedResultsShown(s: QuizSession.Session, quizSet: QuizSet, u: UserData, timeTaken: int, now: int,
                              answersJson: string)
    requires |s.answers| == |quizSet.questions| > 0
    ensures var q := QuizSession.Submit(s, quizSet, u, timeTaken, now).results;
            && ResultsPage(RunnerParamsWithAnswers(q, answersJson)) == Card(Some(q.score), Some(q.total), Some(q.time))
            && 0 <= QuizResults.Incorrect(q.score, q.total) <= q.total
            && QuizResults.RoundedAccuracy(q.score, q.total).Some?
            && 0 <= QuizResults.RoundedAccuracy(q.score, q.total).value <= 100
            && (QuizResults.Incorrect(q.score, q.total) == 0 <==>
                forall i :: 0 <= i < q.total ==> QuizSession.IsCorrect(s.answers, quizSet.questions, i))
  {
    var q := QuizSession.Submit(s, quizSet, u, timeTaken, now).results;
    assert q.score == QuizSession.Score(s.answers, quizSet.questions);
    assert q.total == |quizSet.questions|;
  }

  /** The chapter page's "View Solutions" address for a stored attempt: its score and time, the
      set's question count, and always an `answers` parameter. That text is `JSON.stringify` of
      the attempt's answers, which gives "undefined" for an attempt stored without them;
      `answersJson` stands for the encoding of a stored list. */
  function SolutionsLinkParams(a: Attempt, total: int, answersJson: string): (p: ResultsParams)
    ensures p.answers.Some?
    ensures a.userAnswers.None? ==> p.answers == Some("undefined")
    ensures p.score.Some? && ParseInt(p.score.value) == Some(a.score)
    ensures p.total.Some? && ParseInt(p.total.value) == Some(total)
    ensures p.time.Some? && ParseInt(p.time.value) == Some(a.timeTaken)
  {
    ParseIntRoundTrip(a.score);
    ParseIntRoundTrip(total);
    ParseIntRoundTrip(a.timeTaken);
    var answers := if a.userAnswers.None? then "undefined" else answersJson;
    ResultsParams(Some(IntToString(a.score)), Some(IntToString(total)), Some(IntToString(a.timeTaken)), Some(answers))
  }

  /** The card is reachable afterwards: the "View Solutions" link for the attempt a submit
      recorded shows the card with that run's score, total and time, although the attempt
      carries no answers. */
  lemma SolutionsLinkShowsCard(s: QuizSession.Session, quizSet: QuizSet, u: UserData, timeTaken: int, now: int,
                               answersJson: string)
    requires |s.answers| == |quizSet.questions| > 0
    ensures var r := QuizSession.Submit(s, quizSet, u, timeTaken, now);
            && r.attempt.userAnswers.None?
            && ResultsPage(SolutionsLinkParams(r.attempt, |quizSet.questions|, answersJson))
               == Card(Some(r.results.score), Some(r.results.total), Some(r.results.time))
  {
  }
}
