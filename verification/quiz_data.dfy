/** The static catalogue: two banks of base questions, eight quiz sets built from them,
    four chapters and two subjects. */
module QuizData {
  import opened Seqs
  import opened Decimal
  import opened Types

  const GeographyQuestions: seq<BaseQuestion> := [
    BaseQuestion(
      "Which continent has the most countries?",
      ["Africa", "Asia", "Europe", "South America"],
      0,
      "Africa has 54 recognized countries, making it the continent with the most nations."),
    BaseQuestion(
      "Which is the largest desert in the world (by area)?",
      ["Sahara", "Arabian", "Gobi", "Antarctic"],
      3,
      "The Antarctic Polar Desert is the largest desert in the world, covering an area of around 14 million square kilometers."),
    BaseQuestion(
      "Which river is the longest in the world?",
      ["Amazon", "Nile", "Yangtze", "Mississippi"],
      1,
      "The Nile River is traditionally considered the longest river in the world, flowing for about 6,650 kilometers."),
    BaseQuestion(
      "The tectonic plates meet at the _______.",
      ["Mantle", "Lithosphere", "Asthenosphere", "Crust"],
      1,
      "Tectonic plates are massive pieces of Earth's lithosphere that move and interact with each other."),
    BaseQuestion(
      "What is the term for the area where freshwater from a river mixes with seawater?",
      ["Estuary", "Delta", "Gulf", "Basin"],
      0,
      "An estuary is a partially enclosed coastal body of brackish water with one or more rivers or streams flowing into it, and with a free connection to the open sea.")
  ]

  const PolityQuestions: seq<BaseQuestion> := [
    BaseQuestion(
      "What is considered the supreme law of the land in India?",
      ["The President", "The Constitution", "The Parliament", "The Supreme Court"],
      1,
      "The Constitution of India is the supreme law of India, laying down the framework of the government and fundamental rights and duties of citizens."),
    BaseQuestion(
      "Which article of the Indian Constitution deals with equality before the law?",
      ["Article 12", "Article 14", "Article 21", "Article 19"],
      1,
      "Article 14 of the Constitution of India guarantees to every person the right to equality before the law or the equal protection of the laws within the territory of India."),
    BaseQuestion(
      "Under which Article can the President proclaim a Financial Emergency?",
      ["Article 352", "Article 356", "Article 360", "Article 368"],
      2,
      "Article 360 empowers the President to proclaim a Financial Emergency if a situation threatens India's financial stability."),
    BaseQuestion(
      "The \"Doctrine of Basic Structure\" was propounded in which landmark case?",
      ["Golak Nath vs. State of Punjab", "Kesavananda Bharati vs. State of Kerala", "Minerva Mills vs. Union of India", "S.R. Bommai vs. Union of India"],
      1,
      "The Supreme Court introduced the \"Doctrine of Basic Structure\" in the Kesavananda Bharati case (1973), stating that Parliament cannot alter the fundamental framework of the Constitution."),
    BaseQuestion(
      "The creation of a new state in India requires:",
      ["Parliament simple majority after President's recommendation.", "Parliament two-thirds majority.", "State Legislature resolution, then Parliament simple majority.", "Parliament simple majority after referral to State Legislature."],
      3,
      "A new state is created by a bill in Parliament passed by a simple majority, but it must first be referred to the concerned state legislature for its views.")
  ]

  /** The id given to the `number`-th question (counting from 1) of a set. */
  function QuestionId(prefix: string, number: nat): string {
    prefix + "-q" + NatToString(number)
  }

  /** Different question numbers under one prefix give different ids. */
  lemma QuestionIdInjective(prefix: string, m: nat, n: nat)
    requires QuestionId(prefix, m) == QuestionId(prefix, n)
    ensures m == n
  {
    var k := |prefix| + 2;
    assert QuestionId(prefix, m)[k..] == NatToString(m);
    assert QuestionId(prefix, n)[k..] == NatToString(n);
    NatToStringInjective(m, n);
  }

  /** Gives the i-th base question the id `prefix-q{i+1}`, copying every other field. */
  function GenerateQuestions(base: seq<BaseQuestion>, prefix: string): (qs: seq<Question>)
    ensures |qs| == |base|
    ensures forall i :: 0 <= i < |qs| ==> qs[i].id == QuestionId(prefix, i + 1)
    ensures forall i :: 0 <= i < |qs| ==>
              && qs[i].questionText == base[i].questionText
              && qs[i].options == base[i].options
              && qs[i].correctOptionIndex == base[i].correctOptionIndex
              && qs[i].explanation == base[i].explanation
  {
    seq(|base|, i requires 0 <= i < |base| =>
      Question(QuestionId(prefix, i + 1), base[i].questionText, base[i].options,
               base[i].correctOptionIndex, base[i].explanation))
  }

  /** The ids within one generated set are pairwise distinct. */
  lemma GeneratedIdsDistinct(base: seq<BaseQuestion>, prefix: string)
    ensures NoDuplicates(Ids(GenerateQuestions(base, prefix)))
  {
    var qs := GenerateQuestions(base, prefix);
    forall i, j | 0 <= i < j < |qs|
      ensures qs[i].id != qs[j].id
    {
      if qs[i].id == qs[j].id {
        QuestionIdInjective(prefix, i + 1, j + 1);
      }
    }
  }

  function Ids(qs: seq<Question>): (ids: seq<string>)
    ensures |ids| == |qs| && forall i :: 0 <= i < |qs| ==> ids[i] == qs[i].id
  {
    seq(|qs|, i requires 0 <= i < |qs| => qs[i].id)
  }

  /** The two banks the quiz sets draw from. */
  datatype Bank = GeographyBank | PolityBank

  function BankQuestions(bank: Bank): seq<BaseQuestion> {
    match bank
    case GeographyBank => GeographyQuestions
    case PolityBank => PolityQuestions
  }

  /** One catalogue entry as written: its id, title and chapter, the bank its questions come
      from (reversed for every second set) and its difficulty. */
  datatype SetEntry = SetEntry(
    id: string, title: string, chapterId: string, bank: Bank, reversed: bool, difficulty: Difficulty)

  const SetEntries: seq<SetEntry> := [
    SetEntry("geo-c1-s1", "Set 1", "geo-c1", GeographyBank, false, Easy),
    SetEntry("geo-c1-s2", "Set 2", "geo-c1", GeographyBank, true, Easy),
    SetEntry("geo-c2-s1", "Set 1", "geo-c2", GeographyBank, false, Medium),
    SetEntry("geo-c2-s2", "Set 2", "geo-c2", GeographyBank, true, Medium),
    SetEntry("pol-c1-s1", "Set 1", "pol-c1", PolityBank, false, Easy),
    SetEntry("pol-c1-s2", "Set 2", "pol-c1", PolityBank, true, Easy),
    SetEntry("pol-c2-s1", "Set 1", "pol-c2", PolityBank, false, Medium),
    SetEntry("pol-c2-s2", "Set 2", "pol-c2", PolityBank, true, Medium)
  ]

  /** The base questions of an entry, in the order its set asks them. */
  function EntryBase(e: SetEntry): seq<BaseQuestion> {
    if e.reversed then Reverse(BankQuestions(e.bank)) else BankQuestions(e.bank)
  }

  /** The quiz set an entry describes, its questions generated under the set's own id. */
  function BuildSet(e: SetEntry): QuizSet {
    QuizSet(e.id, e.title, e.chapterId, GenerateQuestions(EntryBase(e), e.id), e.difficulty)
  }

  /** The catalogue built entry by entry, in order. */
  function BuildAll(entries: seq<SetEntry>): (sets: seq<QuizSet>)
    ensures |sets| == |entries|
    ensures forall k :: 0 <= k < |entries| ==> sets[k] == BuildSet(entries[k])
  {
    seq(|entries|, k requires 0 <= k < |entries| => BuildSet(entries[k]))
  }

  const QuizSets: seq<QuizSet> := BuildAll(SetEntries)

  const Chapters: seq<Chapter> := [
    Chapter("geo-c1", "Fundamentals of Physical Geography", "geography", "fundamentals-of-physical-geography", ["geo-c1-s1", "geo-c1-s2"]),
    Chapter("geo-c2", "World Climatic Regions", "geography", "world-climatic-regions", ["geo-c2-s1", "geo-c2-s2"]),
    Chapter("pol-c1", "The Indian Constitution", "polity", "the-indian-constitution", ["pol-c1-s1", "pol-c1-s2"]),
    Chapter("pol-c2", "Union & State Executive", "polity", "union-state-executive", ["pol-c2-s1", "pol-c2-s2"])
  ]

  const Subjects: seq<Subject> := [
    Subject("geography", "GEOGRAPHY", "geography", ["geo-c1", "geo-c2"], Globe),
    Subject("polity", "POLITY", "polity", ["pol-c1", "pol-c2"], Landmark)
  ]

  /** Every base question's answer key indexes one of its options. */
  predicate AnswerKeysValid(base: seq<BaseQuestion>) {
    forall i :: 0 <= i < |base| ==> 0 <= base[i].correctOptionIndex < |base[i].options|
  }

  /** The j-th quiz-set id chapter c lists names a set that belongs to chapter c. */
  predicate ChapterListsOwnSet(chapters: seq<Chapter>, sets: seq<QuizSet>, c: int, j: int)
    requires 0 <= c < |chapters| && 0 <= j < |chapters[c].quizSetIds|
  {
    exists k :: 0 <= k < |sets| && sets[k].id == chapters[c].quizSetIds[j] && sets[k].chapterId == chapters[c].id
  }

  predicate ChaptersListOwnSets(chapters: seq<Chapter>, sets: seq<QuizSet>) {
    forall c, j :: 0 <= c < |chapters| && 0 <= j < |chapters[c].quizSetIds| ==> ChapterListsOwnSet(chapters, sets, c, j)
  }

  /** The j-th chapter id subject s lists names a chapter that belongs to subject s. */
  predicate SubjectListsOwnChapter(subjects: seq<Subject>, chapters: seq<Chapter>, s: int, j: int)
    requires 0 <= s < |subjects| && 0 <= j < |subjects[s].chapterIds|
  {
    exists k :: 0 <= k < |chapters| && chapters[k].id == subjects[s].chapterIds[j] && chapters[k].subjectId == subjects[s].id
  }

  predicate SubjectsListOwnChapters(subjects: seq<Subject>, chapters: seq<Chapter>) {
    forall s, j :: 0 <= s < |subjects| && 0 <= j < |subjects[s].chapterIds| ==> SubjectListsOwnChapter(subjects, chapters, s, j)
  }

  /** Each set's questions carry ids stamped with that set's own id. */
  predicate QuestionsStampedWithSetId(sets: seq<QuizSet>) {
    forall k, i :: 0 <= k < |sets| && 0 <= i < |sets[k].questions| ==>
      sets[k].questions[i].id == QuestionId(sets[k].id, i + 1)
  }

  lemma BaseAnswerKeysValid()
    ensures AnswerKeysValid(GeographyQuestions)
    ensures AnswerKeysValid(PolityQuestions)
  {
    forall i | 0 <= i < |GeographyQuestions|
      ensures 0 <= GeographyQuestions[i].correctOptionIndex < |GeographyQuestions[i].options|
    {
      assert i in {0, 1, 2, 3, 4};
    }
    forall i | 0 <= i < |PolityQuestions|
      ensures 0 <= PolityQuestions[i].correctOptionIndex < |PolityQuestions[i].options|
    {
      assert i in {0, 1, 2, 3, 4};
    }
  }

  /** Reversing a bank keeps every answer key valid, so all eight sets ask answerable questions. */
  lemma ReverseKeepsAnswerKeys(base: seq<BaseQuestion>)
    requires AnswerKeysValid(base)
    ensures AnswerKeysValid(Reverse(base))
  {
  }

  /** Reads a catalogue position back from a set id of the form `sss-cC-sS`: geography sets
      come first, then two chapters per subject, then two sets per chapter. */
  function PositionOf(id: string): int {
    if |id| < 9 then -1
    else (if id[0] == 'g' then 0 else 4) + (if id[5] == '1' then 0 else 2) + (if id[8] == '1' then 0 else 1)
  }

  /** Every entry's id names its own position in the table. */
  lemma PositionOfEntryId(k: nat)
    requires k < |SetEntries|
    ensures PositionOf(SetEntries[k].id) == k
  {
    if k == 0 { assert SetEntries[0].id == "geo-c1-s1"; }
    else if k == 1 { assert SetEntries[1].id == "geo-c1-s2"; }
    else if k == 2 { assert SetEntries[2].id == "geo-c2-s1"; }
    else if k == 3 { assert SetEntries[3].id == "geo-c2-s2"; }
    else if k == 4 { assert SetEntries[4].id == "pol-c1-s1"; }
    else if k == 5 { assert SetEntries[5].id == "pol-c1-s2"; }
    else if k == 6 { assert SetEntries[6].id == "pol-c2-s1"; }
    else { assert SetEntries[7].id == "pol-c2-s2"; }
  }

  /** The k-th quiz set carries the k-th entry's id and chapter. */
  lemma SetFromEntry(k: nat)
    requires k < |SetEntries|
    ensures k < |QuizSets|
    ensures QuizSets[k].id == SetEntries[k].id && QuizSets[k].chapterId == SetEntries[k].chapterId
  {
  }

  /** No two quiz sets share an id. */
  lemma QuizSetIdsUnique()
    ensures forall i, j :: 0 <= i < j < |QuizSets| ==> QuizSets[i].id != QuizSets[j].id
  {
    forall i, j | 0 <= i < j < |QuizSets|
      ensures QuizSets[i].id != QuizSets[j].id
    {
      SetFromEntry(i);
      SetFromEntry(j);
      PositionOfEntryId(i);
      PositionOfEntryId(j);
    }
  }

  lemma ChaptersConsistent()
    ensures ChaptersListOwnSets(Chapters, QuizSets)
  {
    forall c, j | 0 <= c < |Chapters| && 0 <= j < |Chapters[c].quizSetIds|
      ensures ChapterListsOwnSet(Chapters, QuizSets, c, j)
    {
      ChapterListsEntry(c, j);
      var k := 2 * c + j;
      SetFromEntry(k);
      assert 0 <= k < |QuizSets| && QuizSets[k].id == Chapters[c].quizSetIds[j]
             && QuizSets[k].chapterId == Chapters[c].id;
    }
  }

  /** The j-th set listed by chapter c is the entry at position 2c + j of the table. */
  lemma ChapterListsEntry(c: nat, j: nat)
    requires c < |Chapters| && j < |Chapters[c].quizSetIds|
    ensures 2 * c + j < |SetEntries|
    ensures SetEntries[2 * c + j].id == Chapters[c].quizSetIds[j]
    ensures SetEntries[2 * c + j].chapterId == Chapters[c].id
  {
    var k := 2 * c + j;
    assert k == if c == 0 then j else if c == 1 then 2 + j else if c == 2 then 4 + j else 6 + j;
    if c == 0 {
      assert Chapters[0].quizSetIds == ["geo-c1-s1", "geo-c1-s2"];
    } else if c == 1 {
      assert Chapters[1].quizSetIds == ["geo-c2-s1", "geo-c2-s2"];
    } else if c == 2 {
      assert Chapters[2].quizSetIds == ["pol-c1-s1", "pol-c1-s2"];
    } else {
      assert Chapters[3].quizSetIds == ["pol-c2-s1", "pol-c2-s2"];
    }
  }

  /** The k-th entry belongs to the chapter at position k / 2 of the catalogue. */
  lemma EntryChapter(k: nat)
    requires k < |SetEntries|
    ensures k / 2 < |Chapters| && SetEntries[k].chapterId == Chapters[k / 2].id
  {
    assert |Chapters[k / 2].quizSetIds| == 2;
    ChapterListsEntry(k / 2, k % 2);
  }

  /** The built quiz sets line up with the entry table, position by position. */
  lemma QuizSetsMatchEntries()
    ensures |QuizSets| == |SetEntries|
    ensures forall k :: 0 <= k < |QuizSets| ==>
              QuizSets[k].id == SetEntries[k].id && QuizSets[k].chapterId == SetEntries[k].chapterId
  {
  }

  /** The first two chapters belong to geography and the last two to polity. */
  lemma ChapterSubjects()
    ensures |Chapters| == 4
    ensures forall k :: 0 <= k < |Chapters| ==>
              Chapters[k].subjectId == if k < 2 then "geography" else "polity"
  {
  }

  /** No two chapters share an id. */
  lemma ChapterIdsUnique()
    ensures forall i, j :: 0 <= i < j < |Chapters| ==> Chapters[i].id != Chapters[j].id
  {
  }

  lemma SubjectsConsistent()
    ensures SubjectsListOwnChapters(Subjects, Chapters)
  {
    forall s, j | 0 <= s < |Subjects| && 0 <= j < |Subjects[s].chapterIds|
      ensures SubjectListsOwnChapter(Subjects, Chapters, s, j)
    {
      SubjectListsChapter(s, j);
      var k := 2 * s + j;
      assert 0 <= k < |Chapters| && Chapters[k].id == Subjects[s].chapterIds[j]
             && Chapters[k].subjectId == Subjects[s].id;
    }
  }

  /** The j-th chapter listed by subject s is the chapter at position 2s + j of the catalogue. */
  lemma SubjectListsChapter(s: nat, j: nat)
    requires s < |Subjects| && j < |Subjects[s].chapterIds|
    ensures 2 * s + j < |Chapters|
    ensures Chapters[2 * s + j].id == Subjects[s].chapterIds[j]
    ensures Chapters[2 * s + j].subjectId == Subjects[s].id
  {
    if s == 0 {
      assert Subjects[0].chapterIds == ["geo-c1", "geo-c2"];
    } else {
      assert Subjects[1].chapterIds == ["pol-c1", "pol-c2"];
    }
  }

  lemma QuizSetsStamped()
    ensures QuestionsStampedWithSetId(QuizSets)
  {
  }
}
