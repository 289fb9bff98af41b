/** Lookups over the static catalogue. */
module QuizHelpers {
  import opened Wrappers
  import opened Seqs
  import opened Types
  import opened QuizData

  /** The first subject with the given slug. */
  function SubjectBySlug(slug: string): (r: Option<Subject>)
    ensures r.Some? ==> r.value in Subjects && r.value.slug == slug
    ensures r.Some? ==> exists i :: 0 <= i < |Subjects| && Subjects[i] == r.value
                                    && forall j :: 0 <= j < i ==> Subjects[j].slug != slug
    ensures r.None? <==> forall j :: 0 <= j < |Subjects| ==> Subjects[j].slug != slug
  {
    Find(Subjects, (s: Subject) => s.slug == slug)
  }

  /** The chapters of `cs` that belong to the subject, in their order. */
  function ChaptersOfSubject(cs: seq<Chapter>, subjectId: string): seq<Chapter> {
    Filter(cs, (c: Chapter) => c.subjectId == subjectId)
  }

  /** The chapters of a subject, in catalogue order. */
  function ChaptersBySubjectId(subjectId: string): (r: seq<Chapter>)
    ensures forall c :: c in r <==> c in Chapters && c.subjectId == subjectId
  {
    ChaptersOfSubject(Chapters, subjectId)
  }

  /** The first chapter matching both the subject and the chapter slug. */
  function ChapterBySlug(subjectId: string, chapterSlug: string): (r: Option<Chapter>)
    ensures r.Some? ==> r.value in Chapters && r.value.subjectId == subjectId && r.value.slug == chapterSlug
    ensures r.None? <==> forall j :: 0 <= j < |Chapters| ==>
                           !(Chapters[j].subjectId == subjectId && Chapters[j].slug == chapterSlug)
  {
    Find(Chapters, (c: Chapter) => c.subjectId == subjectId && c.slug == chapterSlug)
  }

  /** The sets of `sets` that belong to the chapter, in their order. */
  function SetsOfChapter(sets: seq<QuizSet>, chapterId: string): seq<QuizSet> {
    Filter(sets, (s: QuizSet) => s.chapterId == chapterId)
  }

  /** The quiz sets of a chapter, in catalogue order. */
  function QuizSetsByChapterId(chapterId: string): (r: seq<QuizSet>)
    ensures forall s :: s in r <==> s in QuizSets && s.chapterId == chapterId
    ensures IsSubsequence(r, QuizSets)
    ensures forall s: QuizSet :: s.chapterId == chapterId ==> multiset(r)[s] == multiset(QuizSets)[s]
  {
    SetsOfChapter(QuizSets, chapterId)
  }

  /** The first quiz set with the given id. */
  function QuizSetById(id: string): (r: Option<QuizSet>)
    ensures r.Some? ==> r.value in QuizSets && r.value.id == id
    ensures r.None? <==> forall j :: 0 <= j < |QuizSets| ==> QuizSets[j].id != id
  {
    Find(QuizSets, (s: QuizSet) => s.id == id)
  }

  /** A question found together with the set it was found in. */
  datatype Located = Located(question: Question, quizSet: QuizSet)

  /** Whether any question of the set has the given id. */
  predicate HasQuestion(s: QuizSet, questionId: string) {
    exists i :: 0 <= i < |s.questions| && s.questions[i].id == questionId
  }

  /** Scans the sets in order and returns the first question with the given id. */
  function FindQuestion(sets: seq<QuizSet>, questionId: string): (r: Option<Located>)
    ensures r.Some? ==> r.value.question.id == questionId
    ensures r.Some? ==> r.value.question in r.value.quizSet.questions
    ensures r.Some? ==> exists k :: 0 <= k < |sets| && sets[k] == r.value.quizSet
                                    && forall j :: 0 <= j < k ==> !HasQuestion(sets[j], questionId)
    ensures r.None? <==> forall j :: 0 <= j < |sets| ==> !HasQuestion(sets[j], questionId)
  {
    if |sets| == 0 then None
    else
      match Find(sets[0].questions, (q: Question) => q.id == questionId)
      case Some(q) => Some(Located(q, sets[0]))
      case None =>
        var rest := FindQuestion(sets[1..], questionId);
        assert forall j :: 1 <= j < |sets| ==> sets[j] == sets[1..][j - 1];
        rest
  }

  /** `getQuestionById` over the whole catalogue. */
  function QuestionById(questionId: string): (r: Option<Located>)
    ensures r.Some? ==> r.value.question.id == questionId && r.value.question in r.value.quizSet.questions
    ensures r.Some? ==> r.value.quizSet in QuizSets
    ensures r.Some? ==> exists k :: 0 <= k < |QuizSets| && QuizSets[k] == r.value.quizSet
                                    && forall j :: 0 <= j < k ==> !HasQuestion(QuizSets[j], questionId)
    ensures r.None? <==> forall j :: 0 <= j < |QuizSets| ==> !HasQuestion(QuizSets[j], questionId)
  {
    FindQuestion(QuizSets, questionId)
  }

  /** 'daily' titles the daily challenge; every other value, the weekly one. */
  function ChallengeTitle(challengeType: string): (title: string)
    ensures title == "Daily Challenge" <==> challengeType == "daily"
    ensures title == "Daily Challenge" || title == "Weekly Challenge"
  {
    if challengeType == "daily" then "Daily Challenge" else "Weekly Challenge"
  }

  lemma SubjectLookups()
    ensures SubjectBySlug("geography") == Some(Subjects[0])
    ensures SubjectBySlug("polity") == Some(Subjects[1])
    ensures SubjectBySlug("history").None?
  {
  }

  lemma ChapterLookups()
    ensures ChapterBySlug("polity", "the-indian-constitution") == Some(Chapters[2])
    ensures ChapterBySlug("geography", "the-indian-constitution").None?
  {
  }

  lemma ChapterListings()
    ensures ChaptersBySubjectId("geography") == Chapters[..2]
    ensures ChaptersBySubjectId("polity") == Chapters[2..]
  {
    ChapterSubjects();
    SubjectBlock(Chapters, "geography", 0, 2);
    SubjectBlock(Chapters, "polity", 2, 4);
  }

  /** When exactly the chapters at positions `lo` up to `hi` belong to the subject, its
      listing is that slice. */
  lemma SubjectBlock(cs: seq<Chapter>, subjectId: string, lo: nat, hi: nat)
    requires lo <= hi <= |cs|
    requires forall k :: 0 <= k < |cs| ==> (cs[k].subjectId == subjectId <==> lo <= k < hi)
    ensures ChaptersOfSubject(cs, subjectId) == cs[lo..hi]
  {
    var p := (c: Chapter) => c.subjectId == subjectId;
    FilterBlock(cs, p, lo, hi);
  }

  /** Each chapter's quiz sets are the two built from its entries, in catalogue order, and
      their ids are the ones the chapter lists, in the same order. */
  lemma QuizSetListings(c: nat)
    requires c < |Chapters|
    ensures QuizSetsByChapterId(Chapters[c].id) == QuizSets[2 * c..2 * c + 2]
    ensures forall j :: 0 <= j < |Chapters[c].quizSetIds| ==>
              j < |QuizSetsByChapterId(Chapters[c].id)|
              && QuizSetsByChapterId(Chapters[c].id)[j].id == Chapters[c].quizSetIds[j]
  {
    QuizSetsMatchEntries();
    BlockListing(QuizSets, c);
  }

  /** Over any list of sets that matches the entry table in ids and chapters, chapter c's
      listing is the block at positions 2c and 2c + 1. */
  lemma BlockListing(sets: seq<QuizSet>, c: nat)
    requires c < |Chapters| && |sets| == |SetEntries|
    requires forall k :: 0 <= k < |sets| ==>
               sets[k].id == SetEntries[k].id && sets[k].chapterId == SetEntries[k].chapterId
    ensures SetsOfChapter(sets, Chapters[c].id) == sets[2 * c..2 * c + 2]
    ensures |Chapters[c].quizSetIds| == 2
    ensures forall j :: 0 <= j < |Chapters[c].quizSetIds| ==>
              2 * c + j < |sets| && sets[2 * c + j].id == Chapters[c].quizSetIds[j]
  {
    var id := Chapters[c].id;
    var p := (s: QuizSet) => s.chapterId == id;
    ChapterIdsUnique();
    forall k | 0 <= k < |sets|
      ensures p(sets[k]) <==> 2 * c <= k < 2 * c + 2
    {
      EntryChapter(k);
    }
    FilterBlock(sets, p, 2 * c, 2 * c + 2);
    assert |Chapters[c].quizSetIds| == 2;
    forall j | 0 <= j < 2
      ensures 2 * c + j < |sets| && sets[2 * c + j].id == Chapters[c].quizSetIds[j]
    {
      ChapterListsEntry(c, j);
    }
  }

  /** Among sets with distinct ids, searching for a set's id finds that set. */
  lemma FindByUniqueId(sets: seq<QuizSet>, k: nat)
    requires k < |sets|
    requires forall i, j :: 0 <= i < j < |sets| ==> sets[i].id != sets[j].id
    ensures Find(sets, (s: QuizSet) => s.id == sets[k].id) == Some(sets[k])
  {
    var r := Find(sets, (s: QuizSet) => s.id == sets[k].id);
    var i :| 0 <= i < |sets| && sets[i] == r.value;
  }

  /** Quiz-set ids are unique, so looking one up finds exactly the set stored under it. */
  lemma QuizSetLookup(k: nat)
    requires k < |QuizSets|
    ensures QuizSetById(QuizSets[k].id) == Some(QuizSets[k])
  {
    QuizSetIdsUnique();
    FindByUniqueId(QuizSets, k);
  }
}
