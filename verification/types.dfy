/** The records of the application: quiz content and the per-user progress document. */
module Types {
  import opened Wrappers

  datatype Difficulty = Easy | Medium | Hard

  /** The icon component a subject is drawn with. */
  datatype Icon = Globe | Landmark

  /** A question before it is given an id (`Omit<Question, 'id'>`). */
  datatype BaseQuestion = BaseQuestion(
    questionText: string,
    options: seq<string>,
    correctOptionIndex: int,
    explanation: string)

  datatype Question = Question(
    id: string,
    questionText: string,
    options: seq<string>,
    correctOptionIndex: int,
    explanation: string)

  datatype QuizSet = QuizSet(
    id: string,
    title: string,
    chapterId: string,
    questions: seq<Question>,
    difficulty: Difficulty)

  datatype Chapter = Chapter(
    id: string,
    title: string,
    subjectId: string,
    slug: string,
    quizSetIds: seq<string>)

  datatype Subject = Subject(
    id: string,
    title: string,
    slug: string,
    chapterIds: seq<string>,
    icon: Icon)

  /** The answer held for one question: the chosen option index, or `None` for `null`. */
  type Answer = Option<int>

  /** `UserStats`; the three rolling counters are optional fields. */
  datatype Stats = Stats(
    points: int,
    dailyPoints: Option<int>,
    weeklyPoints: Option<int>,
    monthlyPoints: Option<int>,
    coins: int,
    xp: int,
    level: int)

  /** One recorded run of a quiz set. `accuracy` is a percentage; `timestamp` is in milliseconds. */
  datatype Attempt = Attempt(
    quizSetId: string,
    score: int,
    timeTaken: int,
    accuracy: real,
    timestamp: int,
    userAnswers: Option<seq<Answer>>)

  datatype UserData = UserData(
    id: string,
    username: string,
    email: Option<string>,
    stats: Stats,
    attempts: map<string, seq<Attempt>>,
    bookmarks: seq<string>,
    completedSets: seq<string>)
}
