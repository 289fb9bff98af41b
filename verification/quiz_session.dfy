/** One run through a quiz set: the question cursor, the answer held for each question,
    and what submitting the run does to the user's progress. */
module QuizSession {
  import opened Wrappers
  import opened Types
  import opened Constants
  import opened Levels
  import opened Fractions
  import Progress

  datatype Session = Session(index: nat, answers: seq<Answer>, submitting: bool)

  /** A fresh run over `n` questions: at the first question, nothing answered. */
  function Start(n: nat): (s: Session)
    ensures s.index == 0 && !s.submitting
    ensures |s.answers| == n
    ensures forall i :: 0 <= i < n ==> s.answers[i].None?
  {
    Session(0, seq(n, i => None), false)
  }

  /** The states a run can reach: one slot per question, the cursor on a question, and every
      question before the cursor answered. */
  predicate Valid(s: Session, n: nat) {
    && |s.answers| == n
    && s.index < n
    && forall j :: 0 <= j < s.index ==> s.answers[j].Some?
  }

  /** Records `option` as the answer to the current question. */
  function SelectOption(s: Session, option: int): (r: Session)
    requires s.index < |s.answers|
    ensures |r.answers| == |s.answers|
    ensures r.answers[s.index] == Some(option)
    ensures forall j :: 0 <= j < |s.answers| && j != s.index ==> r.answers[j] == s.answers[j]
    ensures r.index == s.index && r.submitting == s.submitting
  {
    s.(answers := s.answers[s.index := Some(option)])
  }

  /** Moves to the next question unless the current one is the last. */
  function Next(s: Session, n: nat): (r: Session)
    ensures s.index < n ==> r.index < n
    ensures r.index == s.index + 1 <==> s.index + 1 < n
    ensures r.index != s.index + 1 ==> r.index == s.index
    ensures r.answers == s.answers && r.submitting == s.submitting
  {
    if s.index < n - 1 then s.(index := s.index + 1) else s
  }

  /** The footer shows Next before the last question and Submit on it. */
  datatype Footer = NextButton(enabled: bool) | SubmitButton(enabled: bool)

  function FooterFor(s: Session, n: nat): (f: Footer)
    requires s.index < |s.answers|
    ensures f.NextButton? <==> s.index + 1 < n
    ensures f.NextButton? ==> (f.enabled <==> s.answers[s.index].Some?)
    ensures f.SubmitButton? ==> (f.enabled <==> s.answers[s.index].Some? && !s.submitting)
  {
    var answered := s.answers[s.index].Some?;
    if s.index < n - 1 then NextButton(answered) else SubmitButton(answered && !s.submitting)
  }

  lemma StartIsValid(n: nat)
    requires 0 < n
    ensures Valid(Start(n), n)
  {
  }

  lemma SelectKeepsValid(s: Session, n: nat, option: int)
    requires Valid(s, n)
    ensures Valid(SelectOption(s, option), n)
  {
  }

  /** Pressing an enabled Next button keeps the run valid. */
  lemma NextKeepsValid(s: Session, n: nat)
    requires Valid(s, n)
    requires FooterFor(s, n) == NextButton(true)
    ensures Valid(Next(s, n), n)
  {
  }

  /** Submit is only ever enabled on the last question with every question answered. */
  lemma SubmitEnabledMeansAllAnswered(s: Session, n: nat)
    requires Valid(s, n)
    requires FooterFor(s, n) == SubmitButton(true)
    ensures s.index == n - 1
    ensures forall j :: 0 <= j < n ==> s.answers[j].Some?
  {
  }

  /** Whether the answer in slot i is the question's correct option. */
  predicate IsCorrect(answers: seq<Answer>, questions: seq<Question>, i: int)
    requires 0 <= i < |answers| == |questions|
  {
    answers[i] == Some(questions[i].correctOptionIndex)
  }

  function Unanswered(answers: seq<Answer>): (k: nat)
    ensures k <= |answers|
  {
    if |answers| == 0 then 0
    else (if answers[0].None? then 1 else 0) + Unanswered(answers[1..])
  }

  /** The number of questions answered with their correct option. */
  function Score(answers: seq<Answer>, questions: seq<Question>): (score: nat)
    requires |answers| == |questions|
    ensures score <= |questions| - Unanswered(answers)
    ensures score == |questions| <==> forall i :: 0 <= i < |questions| ==> IsCorrect(answers, questions, i)
    ensures score == 0 <==> forall i :: 0 <= i < |questions| ==> !IsCorrect(answers, questions, i)
  {
    if |answers| == 0 then 0
    else
      var rest := Score(answers[1..], questions[1..]);
      assert forall i :: 1 <= i < |questions| ==>
        IsCorrect(answers, questions, i) == IsCorrect(answers[1..], questions[1..], i - 1);
      assert forall j :: 0 <= j < |questions| - 1 ==>
        IsCorrect(answers[1..], questions[1..], j) == IsCorrect(answers, questions, j + 1);
      assert (forall i :: 0 <= i < |questions| ==> IsCorrect(answers, questions, i))
             <==> IsCorrect(answers, questions, 0)
                  && forall i :: 0 <= i < |questions| - 1 ==> IsCorrect(answers[1..], questions[1..], i);
      assert (forall i :: 0 <= i < |questions| ==> !IsCorrect(answers, questions, i))
             <==> !IsCorrect(answers, questions, 0)
                  && forall i :: 0 <= i < |questions| - 1 ==> !IsCorrect(answers[1..], questions[1..], i);
      (if IsCorrect(answers, questions, 0) then 1 else 0) + rest
  }

  /** Scoring one more question adds one exactly when it is answered correctly. */
  lemma {:induction false} ScoreAppend(answers: seq<Answer>, questions: seq<Question>, i: nat)
    requires |answers| == |questions| && i < |answers|
    ensures Score(answers[..i + 1], questions[..i + 1])
            == Score(answers[..i], questions[..i]) + (if IsCorrect(answers, questions, i) then 1 else 0)
  {
    if i > 0 {
      ScoreAppend(answers[1..], questions[1..], i - 1);
      assert answers[..i + 1][1..] == answers[1..][..i];
      assert questions[..i + 1][1..] == questions[1..][..i];
      assert answers[..i][1..] == answers[1..][..i - 1];
      assert questions[..i][1..] == questions[1..][..i - 1];
      assert IsCorrect(answers[1..], questions[1..], i - 1) == IsCorrect(answers, questions, i);
      assert IsCorrect(answers[..i + 1], questions[..i + 1], 0) == IsCorrect(answers[..i], questions[..i], 0);
    } else {
      assert answers[..1][1..] == [] && questions[..1][1..] == [];
      assert IsCorrect(answers[..1], questions[..1], 0) == IsCorrect(answers, questions, 0);
    }
  }

  /** The scoring loop of the submit handler: one pass over the answers in order, counting
      those equal to their question's correct option. */
  method CountCorrect(answers: seq<Answer>, questions: seq<Question>) returns (score: int)
    requires |answers| == |questions|
    ensures score == Score(answers, questions)
  {
    score := 0;
    var i := 0;
    while i < |answers|
      invariant i <= |answers|
      invariant score == Score(answers[..i], questions[..i])
    {
      ScoreAppend(answers, questions, i);
      if answers[i] == Some(questions[i].correctOptionIndex) {
        score := score + 1;
      }
      i := i + 1;
    }
    assert answers[..i] == answers && questions[..i] == questions;
  }

  /** `(score / n) * 100`, exactly. */
  function Accuracy(score: nat, n: nat): (accuracy: real)
    requires 0 < n
    ensures 0.0 <= accuracy
    ensures score <= n ==> accuracy <= 100.0
    ensures accuracy == 100.0 <==> score == n
    ensures accuracy * n as real == 100.0 * score as real
  {
    PercentBounds(score, n);
    (score as real / n as real) * 100.0
  }

  /** The numbers the results page receives from the address bar. */
  datatype ResultsQuery = ResultsQuery(score: int, total: int, time: int)

  datatype Submission = Submission(
    session: Session,
    user: UserData,
    attempt: Attempt,
    levelUp: bool,
    results: ResultsQuery)

  /** Submitting a run: score it, record the attempt (without the answers), grant 10 points
      and 2 coins per correct answer and no XP, and mark the set completed at 100% accuracy.
      `timeTaken` and `now` stand for the clock readings the handler takes. */
  function Submit(s: Session, quizSet: QuizSet, u: UserData, timeTaken: int, now: int): (r: Submission)
    requires |s.answers| == |quizSet.questions| > 0
    ensures var n := |quizSet.questions|;
            var score := Score(s.answers, quizSet.questions);
            && r.attempt == Attempt(quizSet.id, score, timeTaken, Accuracy(score, n), now, None)
            && r.results == ResultsQuery(score, n, timeTaken)
            && r.user.stats.points == u.stats.points + PointsPerCorrectAnswer * score
            && r.user.stats.coins == u.stats.coins + CoinsPerCorrectAnswer * score
            && (quizSet.id in r.user.completedSets <==> quizSet.id in u.completedSets || score == n)
    ensures r.user.stats.xp == u.stats.xp
    ensures LevelInSync(u.stats) ==> r.user.stats.level == u.stats.level && !r.levelUp
    ensures Progress.AttemptsOf(r.user, quizSet.id) == Progress.AttemptsOf(u, quizSet.id) + [r.attempt]
    ensures forall k :: k != quizSet.id ==> Progress.AttemptsOf(r.user, k) == Progress.AttemptsOf(u, k)
    ensures r.user.id == u.id && r.user.username == u.username && r.user.bookmarks == u.bookmarks
    ensures r.session == s.(submitting := true)
    ensures r.user == u.(attempts := r.user.attempts, stats := r.user.stats, completedSets := r.user.completedSets)
    ensures r.user.attempts == Progress.AddAttempt(u, r.attempt).attempts
    ensures r.user.completedSets ==
              if Score(s.answers, quizSet.questions) == |quizSet.questions| && quizSet.id !in u.completedSets
              then u.completedSets + [quizSet.id] else u.completedSets
    ensures r.levelUp <==> LevelFor(LevelThresholds, u.stats.xp) > u.stats.level
    ensures r.user.stats.level == if r.levelUp then LevelFor(LevelThresholds, u.stats.xp) else u.stats.level
    ensures r.user.stats.dailyPoints.None? && r.user.stats.weeklyPoints.None? && r.user.stats.monthlyPoints.None?
  {
    var n := |quizSet.questions|;
    var score := Score(s.answers, quizSet.questions);
    var accuracy := Accuracy(score, n);
    var attempt := Attempt(quizSet.id, score, timeTaken, accuracy, now, None);
    var u1 := Progress.AddAttempt(u, attempt);
    var granted := Progress.UpdateStats(u1, Progress.StatsUpdate(
      Some(score * PointsPerCorrectAnswer), Some(score * CoinsPerCorrectAnswer), None));
    var u3 := if accuracy == 100.0 then Progress.MarkSetAsCompleted(granted.user, quizSet.id) else granted.user;
    Submission(s.(submitting := true), u3, attempt, granted.levelUp, ResultsQuery(score, n, timeTaken))
  }
}
