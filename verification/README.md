# Quizo progress model

A Dafny model of the deterministic core of Quizo, a quiz app for general-knowledge exam
preparation. The model covers six parts:

- **The user-progress store.** This is the app provider's `updateStats`, `addAttempt`,
  `toggleBookmark`, `isBookmarked`, `markSetAsCompleted`, `getBestScore`, `getAttemptsCount` and
  `getLastAttempt`. Each is a pure step over an immutable `UserData` value. A toast notification
  becomes a returned flag (`levelUp`, `added`).
- **The quiz runner.** This covers the question cursor, the answer slots, the Next and Submit
  buttons, and scoring. On submit it records the attempt, grants points and coins, and marks the
  set completed on a perfect run.
- **The static catalogue.** This is question generation with stamped ids, the eight quiz sets, four
  chapters and two subjects, and the lookup helpers over them. The consistency of the tables is
  proved over the literal data. Each quiz set is written as a row of `SetEntries`: its id, title,
  chapter, difficulty, and which question bank it draws from, in order or reversed. `BuildSet`
  expands a row exactly as the source's literal does, calling `generateQuestions` under the set's
  own id.
- **The level table and the initial user record.**
- **The small conversions on the pages.** These are the `mm:ss` time display, the rounded accuracy
  and the Incorrect count on the results card, the level-progress card on the profile page, and the
  leaderboard's rank numbering and avatar initials.
- **The hand-over to the results page.** This covers the address the runner pushes on submit and
  the query parameters the results page reads back. As written, the redirect straight after a submit
  never reaches the results card; "## Findings" gives the input and the corrected hand-over. The
  card is reached later through the chapter page's "View Solutions" link (line 71 of
  `chapter-client-page.tsx`), which always sends an `answers` parameter. The page's own logic
  sits at lines 16-41 of `results-client-page.tsx`, with its `parseInt` calls at lines 36-38. The
  table below cites the two sides of the hand-over: the address the runner writes
  (`quiz-view.tsx`) and the props the card takes (`quiz-results.tsx`).

Modules follow the source files:

| module | file | models |
|---|---|---|
| `Types` | `types.dfy` | the records of `src/lib/types.ts` |
| `Levels` | `levels.dfy` | the threshold-count level |
| `Constants` | `constants.dfy` | `src/lib/constants.ts` |
| `Progress` | `progress.dfy` | `src/contexts/app-provider.tsx` |
| `QuizSession` | `quiz_session.dfy` | `src/components/quiz-view.tsx` |
| `QuizData` | `quiz_data.dfy` | `src/data/quiz-data.ts` |
| `QuizHelpers` | `quiz_helpers.dfy` | `src/lib/quiz-helpers.ts` |
| `QuizResults` | `quiz_results.dfy` | `src/components/quiz-results.tsx` |
| `ResultsFlow` | `results_flow.dfy` | the results page (`src/app/quiz/[quizSetId]/results/results-client-page.tsx`), the address the quiz runner pushes to it, and the chapter page's "View Solutions" address |
| `Profile` | `profile.dfy` | `src/app/profile/page.tsx` |
| `Leaderboard` | `leaderboard.dfy` | `src/app/leaderboard/page.tsx` |

Shared helpers sit in their own modules:

- `Wrappers`: `Option`.
- `Seqs`: JavaScript `find`, `findIndex`, `filter` and `reverse` on sequences, and the subsequence order that `filter` keeps.
- `Decimal`: `toString`, `padStart` and base-10 `parseInt` for integers.
- `Fractions`: two facts about exact percentages.

Some source values are represented differently in the model:

- **Numbers.** JavaScript numbers become unbounded `int`s where the source only ever holds whole
  numbers. The accuracy and progress percentages become exact `real`s.
- **Rounding and remainders.** `Math.round` becomes "floor of x + 1/2". JavaScript's `%`, which
  truncates toward zero, is written out for negative operands.
- **Missing values.** An absent optional field or an `undefined` lookup is `None`.
- **The clock.** `Date.now()` readings are parameters.

Two behaviours of the code are worth stating up front:

- **Rolling counters.** `updateStats` rebuilds the stats record from four fields, so the rolling
  daily, weekly and monthly point counters are dropped rather than incremented. The model shows
  them becoming `None`.
- **Quiz rewards.** The quiz runner grants points and coins but no XP.

## Model

| member | source | states |
|---|---|---|
| Levels.LevelFor | src/contexts/app-provider.tsx:73-80 | the level is the index of the first threshold above xp, or the table length when none is; every threshold below that index has been reached |
| Levels.LevelIsFindIndex | src/contexts/app-provider.tsx:73-80 | the level is the index `findIndex(x => xp < x)` reports on the table, or the table length when it reports none |
| Levels.LevelUnique | src/contexts/app-provider.tsx:73-80 | any k that is the first-threshold-above position for xp is the computed level, so the level is uniquely determined |
| Levels.LevelIsCountReached | src/contexts/app-provider.tsx:73-80 | on an ascending table the level equals the number of thresholds at or below xp |
| Levels.LevelMonotone | src/contexts/app-provider.tsx:73-80 | more xp never yields a lower computed level |
| Levels.LevelAtLeastOne | src/lib/constants.ts:9-11 | with a table starting at 0, any non-negative xp is at least level 1 |
| Constants.ThresholdsWellFormed | src/lib/constants.ts:9-11 | the table has ten entries, starts at 0 and is strictly ascending |
| Constants.InitialUserDataIsEmpty | src/lib/constants.ts:13-28 | the initial record is at level 1, in agreement with xp 0; all counters are 0; attempts, bookmarks and completed sets are empty |
| Constants.LevelExamples | src/lib/constants.ts:9-11 | xp 0, 100, 249 and 250 give levels 1, 2, 2 and 3 |
| Constants.TopLevelExamples | src/contexts/app-provider.tsx:76-77 | xp at or far past the last threshold gives level 10, the table length |
| Progress.UpdateStats | src/contexts/app-provider.tsx:63-92 | xp, points and coins each gain their delta, with a missing delta counting as 0; the level never drops; the level-up flag is set exactly when the recomputed level exceeds the stored one, and then the level agrees with xp; rolling counters are dropped; no other field changes |
| Progress.UpdatesCompose | src/contexts/app-provider.tsx:63-70 | two updates give the same xp, points and coins as one update with summed deltas; when neither lowers xp the resulting records are identical |
| Progress.ComposedLevel | src/contexts/app-provider.tsx:72-88 | when neither update lowers xp, two updates reach the same level as one update with the summed deltas |
| Progress.UpdateKeepsLevelInSync | src/contexts/app-provider.tsx:72-88 | a level that agrees with xp still agrees after an update that does not lower xp |
| Progress.AddAttempt | src/contexts/app-provider.tsx:94-105 | the attempt is appended to its set's list, which is created if absent; every other set's list is unchanged; nothing else changes |
| Progress.IsBookmarked | src/contexts/app-provider.tsx:131-133 | a question is bookmarked iff its id occurs at some position of the bookmark list |
| Progress.WithoutBookmark | src/contexts/app-provider.tsx:111 | every occurrence of the id is removed; the remaining ids keep their order (a subsequence of the old list) and each other id keeps its number of occurrences |
| Progress.ToggleBookmark | src/contexts/app-provider.tsx:107-128 | membership of the id flips and all other ids keep their membership; the "added" notice fires iff the id was absent; an add appends at the end, and a removal keeps the other bookmarks in their order and number |
| Progress.ToggleTwiceRestores | src/contexts/app-provider.tsx:107-128 | toggling an absent id twice restores exactly the original record |
| Progress.ToggleTwiceFromPresent | src/contexts/app-provider.tsx:107-128 | toggling a present id twice keeps the same set of bookmarks, with the id moved to the end once |
| Progress.MarkSetAsCompleted | src/contexts/app-provider.tsx:135-145 | the set is afterwards completed; an already-completed set leaves the record unchanged, otherwise the id is appended; the membership of other ids is unchanged; no duplicates are introduced |
| Progress.MarkSetAsCompletedIdempotent | src/contexts/app-provider.tsx:135-145 | marking twice equals marking once |
| Progress.MaxScore | src/contexts/app-provider.tsx:150 | the result is some attempt's score and no attempt's score exceeds it |
| Progress.BestScore | src/contexts/app-provider.tsx:147-151 | none iff the set has no attempts; otherwise the maximum score, which some attempt attains |
| Progress.AttemptsCount | src/contexts/app-provider.tsx:153-155 | the length of the set's attempt list, and 0 when the set has no list |
| Progress.Latest | src/contexts/app-provider.tsx:160 | an element of the list whose timestamp is not below any other's, and the first such, which is what a stable sort by descending timestamp puts at the head |
| Progress.LastAttempt | src/contexts/app-provider.tsx:157-161 | none iff the list is empty; otherwise one of its attempts with the maximal timestamp |
| Progress.AddAttemptQueries | src/contexts/app-provider.tsx:94-155 | after recording an attempt, its set's count is one higher and its best score is the maximum of the old best and the new score; other sets' count, best and last are unaffected |
| Progress.AddAttemptBestScore | src/contexts/app-provider.tsx:94-105 | after recording an attempt, the set's best score is the new score if there was none, else the larger of the old best and the new score |
| Progress.LastAttemptExample | src/contexts/app-provider.tsx:157-161 | attempts stamped 10, 30 and 20 give the one at 30 as the last |
| QuizSession.Start | src/components/quiz-view.tsx:32-35 | a run starts at question 0, not submitting, with n unanswered slots |
| QuizSession.SelectOption | src/components/quiz-view.tsx:46-52 | only the current slot changes, to the chosen option; length and cursor are kept |
| QuizSession.Next | src/components/quiz-view.tsx:54-58 | the cursor advances by one exactly when it is before the last question and otherwise stays put, so it stays in range |
| QuizSession.FooterFor | src/components/quiz-view.tsx:136-142 | Next is shown exactly before the last question and Submit on it; each is enabled iff the current slot is answered, and Submit also only while not submitting |
| QuizSession.StartIsValid | src/components/quiz-view.tsx:32-35 | a fresh run over a non-empty set is a valid state |
| QuizSession.SelectKeepsValid | src/components/quiz-view.tsx:46-52 | selecting keeps a run valid |
| QuizSession.NextKeepsValid | src/components/quiz-view.tsx:54-58 | pressing an enabled Next keeps a run valid: every question before the cursor is answered |
| QuizSession.SubmitEnabledMeansAllAnswered | src/components/quiz-view.tsx:136-142 | an enabled Submit in a valid run means the cursor is on the last question and every question is answered |
| QuizSession.Score | src/components/quiz-view.tsx:63-68 | the score never counts an unanswered slot; it is n iff every answer is correct and 0 iff none is |
| QuizSession.ScoreAppend | src/components/quiz-view.tsx:64-68 | scoring one more question in order adds one exactly when that answer equals its correct option |
| QuizSession.CountCorrect | src/components/quiz-view.tsx:63-68 | the forward counting loop returns the score of the whole run |
| QuizSession.Accuracy | src/components/quiz-view.tsx:70 | the exact percentage, accuracy · n = 100 · score, so in [0, 100] for score ≤ n and equal to 100 iff score = n |
| QuizSession.Submit | src/components/quiz-view.tsx:60-93 | the attempt holds the set id, score, time, accuracy and timestamp, and is appended to that set's attempts only; points grow by 10 and coins by 2 per correct answer; xp is unchanged; the level-up notice fires iff the level recomputed from the unchanged xp exceeds the stored one, which then becomes the new level, so an in-sync level never rises; the rolling counters are dropped; the set id is appended to the completed sets iff the score is perfect and it is not there yet; every other field, including the email, the bookmarks and the other sets' attempts, is unchanged; the results page receives score, total and time |
| ResultsFlow.ResultsPage | src/components/quiz-results.tsx:9-21 | the placeholder iff any of score, total, time or answers is absent; otherwise the card with score, total and time as `parseInt` reads them |
| ResultsFlow.RunnerParams | src/components/quiz-view.tsx:89-92 | the pushed address carries score, total and time, each reading back as the submitted number, and no answers |
| ResultsFlow.SubmittedRunShowsPlaceholder | src/components/quiz-view.tsx:89-92 | straight after any submit the results page shows only its placeholder, not the card |
| ResultsFlow.RunnerParamsWithAnswers | src/components/quiz-view.tsx:89-92 | the corrected address also carries the answers, and score, total and time still read back as the submitted numbers |
| ResultsFlow.SubmittedResultsShown | src/components/quiz-view.tsx:89-92 | with the answers passed, a submitted run reaches the card showing its own score, total and time; the Incorrect count lies in [0, total] and is 0 iff every answer was correct, and the rounded accuracy is defined and in [0, 100] |
| ResultsFlow.SolutionsLinkParams | src/lib/types.ts:45-52 | the "View Solutions" address (line 71 of `chapter-client-page.tsx`) always carries answers, the text "undefined" for an attempt without them, and its score, total and time read back as the attempt's score, the question count and the attempt's time |
| ResultsFlow.SolutionsLinkShowsCard | src/components/quiz-view.tsx:72-78 | the attempt a submit records carries no answers, yet its "View Solutions" link shows the card with that run's score, total and time |
| QuizData.QuestionIdInjective | src/data/quiz-data.ts:71 | distinct question numbers give distinct ids under one prefix |
| QuizData.GenerateQuestions | src/data/quiz-data.ts:70-71 | length and order are kept; the i-th question gets id `prefix-q(i+1)` and every other field is copied |
| QuizData.GeneratedIdsDistinct | src/data/quiz-data.ts:70-71 | the ids within a generated set are pairwise distinct |
| QuizData.BaseAnswerKeysValid | src/data/quiz-data.ts:4-68 | every base question's correct index points into its options |
| QuizData.ReverseKeepsAnswerKeys | src/data/quiz-data.ts:85 | the reversed question lists keep valid answer keys |
| QuizData.QuizSetIdsUnique | src/data/quiz-data.ts:73-130 | quiz-set ids are unique across the catalogue |
| QuizData.QuizSetsStamped | src/data/quiz-data.ts:73-130 | each set's question ids are stamped with that set's own id as prefix |
| QuizData.ChapterListsEntry | src/data/quiz-data.ts:73-137 | the j-th id listed by chapter c is that of catalogue entry 2c+j, which belongs to chapter c |
| QuizData.EntryChapter | src/data/quiz-data.ts:73-137 | the k-th catalogue entry belongs to the chapter at position k div 2 |
| QuizData.ChapterIdsUnique | src/data/quiz-data.ts:133-137 | no two chapters share an id |
| QuizData.ChapterSubjects | src/data/quiz-data.ts:133-137 | there are four chapters; the first two belong to geography and the last two to polity |
| QuizData.SetFromEntry | src/data/quiz-data.ts:73-130 | the k-th quiz set carries the id and chapter of the k-th catalogue entry |
| QuizData.QuizSetsMatchEntries | src/data/quiz-data.ts:73-130 | there is one quiz set per entry, and each carries its entry's id and chapter |
| QuizData.PositionOfEntryId | src/data/quiz-data.ts:73-130 | every set id spells out its own catalogue position (subject, chapter digit, set digit), so it is read back as that position |
| QuizData.ChaptersConsistent | src/data/quiz-data.ts:73-137 | every id a chapter lists names a quiz set whose chapter is that chapter |
| QuizData.SubjectListsChapter | src/data/quiz-data.ts:132-142 | the j-th id listed by subject s names chapter 2s+j, which belongs to subject s |
| QuizData.SubjectsConsistent | src/data/quiz-data.ts:132-142 | every id a subject lists names a chapter whose subject is that subject |
| Seqs.FindIndex | src/contexts/app-provider.tsx:73 | the first index satisfying the test, or none iff no element does |
| Seqs.Find | src/lib/quiz-helpers.ts:9 | the first element satisfying the test, or none iff no element does |
| Seqs.Filter | src/lib/quiz-helpers.ts:13 | exactly the elements passing the test are kept, as a subsequence of the input (original order), each as often as the input holds it; the list is unchanged when all pass |
| Seqs.FilterUnique | src/lib/quiz-helpers.ts:13 | any subsequence of the input made of passing elements that keeps every passing element as often as the input does is the filter's result, so the filter's contract pins it exactly |
| Seqs.SubsequenceMultiset | src/lib/quiz-helpers.ts:13 | a subsequence holds no element more often than the sequence it comes from |
| Seqs.FilterBlock | src/lib/quiz-helpers.ts:13 | when exactly the elements at positions lo up to hi pass, the filter returns that slice |
| Seqs.FilterNone | src/lib/quiz-helpers.ts:13 | a filter that no element passes returns the empty list |
| Seqs.FilterHead | src/lib/quiz-helpers.ts:13 | the filter keeps the head exactly when it passes, followed by the filter of the rest |
| Seqs.FilterConcat | src/contexts/app-provider.tsx:111 | filtering distributes over concatenation |
| Seqs.Reverse | src/data/quiz-data.ts:85 | the i-th element of the reversal is the (n-1-i)-th of the input |
| QuizHelpers.SubjectBySlug | src/lib/quiz-helpers.ts:8-10 | the first subject with the slug, or none iff no subject has it |
| QuizHelpers.ChaptersBySubjectId | src/lib/quiz-helpers.ts:12-14 | exactly the chapters of that subject |
| QuizHelpers.ChapterBySlug | src/lib/quiz-helpers.ts:16-18 | a chapter matching both subject and slug, or none iff there is none |
| QuizHelpers.QuizSetsByChapterId | src/lib/quiz-helpers.ts:21-23 | exactly the sets of that chapter, in catalogue order, each as often as the catalogue holds it |
| QuizHelpers.QuizSetById | src/lib/quiz-helpers.ts:25-27 | a catalogue set with that id, or none iff there is none |
| QuizHelpers.FindQuestion | src/lib/quiz-helpers.ts:29-37 | the question has the id and belongs to the returned set, the first set in order that contains it; none iff no set contains it |
| QuizHelpers.QuestionById | src/lib/quiz-helpers.ts:29-37 | as FindQuestion, over the catalogue: the question with that id in the first set, in catalogue order, that holds it; none iff no set holds it |
| QuizHelpers.ChallengeTitle | src/lib/quiz-helpers.ts:39-41 | "Daily Challenge" iff the type is "daily", "Weekly Challenge" for every other value |
| QuizHelpers.SubjectLookups | src/lib/quiz-helpers.ts:8-10 | "geography" and "polity" find their subjects and "history" finds none |
| QuizHelpers.ChapterLookups | src/lib/quiz-helpers.ts:16-18 | a chapter slug is found under its own subject and not under another |
| QuizHelpers.ChapterListings | src/lib/quiz-helpers.ts:12-14 | each subject's chapters are its two catalogue chapters, in order |
| QuizHelpers.SubjectBlock | src/lib/quiz-helpers.ts:12-14 | when exactly the chapters at positions lo up to hi belong to a subject, its listing is that slice |
| QuizHelpers.QuizSetListings | src/lib/quiz-helpers.ts:21-23 | each chapter's listing is the two sets built from its entries, in catalogue order, and their ids are the ones the chapter lists, in the same order |
| QuizHelpers.BlockListing | src/lib/quiz-helpers.ts:21-23 | over any list that matches the entry table in ids and chapters, chapter c's listing is positions 2c and 2c+1, whose ids are the two the chapter lists, in order |
| QuizHelpers.FindByUniqueId | src/lib/quiz-helpers.ts:25-27 | among sets with unique ids, looking up a set's id finds that set |
| QuizHelpers.QuizSetLookup | src/lib/quiz-helpers.ts:25-27 | every catalogue set is found by its own id |
| Decimal.NatToString | src/components/quiz-results.tsx:53 | a non-negative number prints as digits without leading zeros, one digit exactly below 10 |
| Decimal.IntToString | src/components/quiz-results.tsx:53 | a non-negative number prints as digits that read back as the number; a negative one as a minus sign followed by the digits of its magnitude; the digits are the canonical ones, without leading zeros and "0" for zero |
| Decimal.NatToStringRoundTrip | src/components/quiz-results.tsx:53 | reading back the printed digits gives the number |
| Decimal.NatToStringInjective | src/data/quiz-data.ts:71 | different numbers print differently |
| Decimal.LeadingZeros | src/components/quiz-results.tsx:53 | leading zeros do not change a digit string's value |
| Decimal.PadStart | src/components/quiz-results.tsx:53 | the result has length max(width, length of s), ends with s and is filled in front |
| Decimal.LeadingDigits | src/components/quiz-view.tsx:91 | the result is a prefix of the text, all digits, and the next character, if any, is not a digit |
| Decimal.LeadingDigitsOfDigits | src/components/quiz-view.tsx:91 | a digit string is entirely its own leading run of digits |
| Decimal.ParseInt | src/components/quiz-view.tsx:91 | NaN for the empty text or one starting with neither digit nor sign; otherwise the value of the leading run of digits after an optional sign, negated after a minus sign, and NaN when no digit follows the sign; text after the digits is ignored |
| Decimal.ParseIntRoundTrip | src/components/quiz-view.tsx:91 | parsing the printed form of any integer gives back the integer |
| QuizResults.Seconds | src/components/quiz-results.tsx:24 | the remainder lies in [0, 60) for non-negative times and in (-60, 0] for negative ones, and differs from the time by a multiple of 60 |
| QuizResults.Minutes | src/components/quiz-results.tsx:23 | the floor of t/60: minutes·60 ≤ t < minutes·60 + 60, and non-negative for t ≥ 0 |
| QuizResults.SplitRecombines | src/components/quiz-results.tsx:23-24 | for t ≥ 0, minutes·60 + seconds = t with seconds in [0, 60) |
| QuizResults.ClockFieldDigits | src/components/quiz-results.tsx:53 | a padded field is at least two digits, has the field's value, and is unpadded from 10 up |
| QuizResults.ClockField | src/components/quiz-results.tsx:53 | a non-negative figure renders as at least two digits that read back as the figure; a negative one is printed unpadded |
| QuizResults.Clock | src/components/quiz-results.tsx:53 | for t ≥ 0 the text is digits, a colon and two digits; the parts are the zero-padded minutes and seconds of t and read back as them; for t < 0 the text is still the two fields around a colon, each printed with its sign |
| QuizResults.TwoDigitsBelowHundred | src/components/quiz-results.tsx:53 | numbers from 10 to 99 print as two digits |
| QuizResults.JoinedFields | src/components/quiz-results.tsx:53 | joining two digit fields with a colon can be split back into them |
| QuizResults.ClockRoundTrip | src/components/quiz-results.tsx:53 | the `mm:ss` text splits at its colon into fields whose values recombine to the elapsed seconds |
| QuizResults.Incorrect | src/components/quiz-results.tsx:42 | correct plus incorrect is the total, and incorrect is non-negative when score ≤ total |
| QuizResults.RoundedAccuracy | src/components/quiz-results.tsx:22 | undefined iff the total is 0; in [0, 100] for a valid score; 100 for a perfect non-empty run |
| QuizResults.RoundedAccuracyInIntegers | src/components/quiz-results.tsx:22 | the rounded percentage is (200·score + total) div (2·total) |
| QuizResults.HalfUpAsFraction | src/components/quiz-results.tsx:22 | the percentage plus one half is (200·score + total)/(2·total) |
| QuizResults.FloorOfFraction | src/components/quiz-results.tsx:22 | the floor of an exact quotient is integer division |
| Fractions.PercentBounds | src/app/profile/page.tsx:19 | a part of a positive whole is between 0 and 100 percent: 100 iff the part is the whole, below 100 otherwise |
| Profile.ThresholdOr | src/app/profile/page.tsx:15-16 | the threshold at the index, or the fallback outside the table |
| Profile.Progress | src/app/profile/page.tsx:19 | for a positive span the bar is (current / span)·100, which lies in [0, 100) when the xp is inside the span; a full bar when the span is not positive |
| Profile.ProfileProgress | src/app/profile/page.tsx:15-19 | the current threshold is `LEVEL_THRESHOLDS[level - 1]` or 0, the next is `LEVEL_THRESHOLDS[level]` or the xp itself, and the bar is the progress of xp through that span; the maximum-level message appears iff the span to the next threshold is not positive; for an in-sync level below the top the xp lies in [current, next), the remaining XP is positive and the bar is below 100; at the top level any "to next level" figure is 0 |
| Profile.TopLevelShowsZeroToNext | src/app/profile/page.tsx:16-19 | a level-10 user with 40000 XP is shown "0 XP to next level" under a full bar |
| Profile.ProfileProgressCorrected | src/app/profile/page.tsx:15-19 | the same threshold lookups; the page's bar below the top level, and the maximum-level message with a full bar past it; for an in-sync level, the maximum-level message appears iff the level is the top one, and otherwise the remaining XP is positive and the bar is below 100 |
| Profile.CorrectedAgreesBelowTop | src/app/profile/page.tsx:15-19 | below the top level the corrected card equals the page's card |
| Leaderboard.Split | src/app/leaderboard/page.tsx:17 | there is at least one piece, and no piece contains the separator |
| Leaderboard.JoinSplit | src/app/leaderboard/page.tsx:17 | joining the pieces of a split restores the string |
| Leaderboard.SplitAfterWord | src/app/leaderboard/page.tsx:17 | a separator-free word in front lands in the first piece |
| Leaderboard.SplitJoin | src/app/leaderboard/page.tsx:17 | splitting the join of separator-free words gives back the words |
| Leaderboard.UpperChar | src/app/leaderboard/page.tsx:17 | a to z map to A to Z and every other character is kept |
| Leaderboard.Upper | src/app/leaderboard/page.tsx:17 | upper-casing works character by character and keeps the length |
| Leaderboard.FirstCharsOfNonEmpty | src/app/leaderboard/page.tsx:17 | mapping words to first characters and joining gives one character per non-empty word, its first |
| Leaderboard.Initials | src/app/leaderboard/page.tsx:16-18 | one character per non-empty space-separated word: that word's upper-cased first character |
| Leaderboard.AvatarInitials | src/app/leaderboard/page.tsx:71 | a non-empty username gives its own initials |
| Leaderboard.EmptyUsernameInitials | src/app/leaderboard/page.tsx:71 | an empty username falls back to "..", whose initials are "." |
| Leaderboard.DisplayName | src/app/leaderboard/page.tsx:73 | the shown name is never empty, is the username iff the username is not empty, and is "Anonymous User" for an empty username |
| Leaderboard.RankUsers | src/app/leaderboard/page.tsx:30-32 | the users keep their order and count, the i-th gets rank i+1, and ranks increase strictly within 1..n; no result gives no rows |

## Left out

- Browser storage and theme handling in the app provider (`src/contexts/app-provider.tsx:18-61`) are left out. They are I/O and DOM manipulation; the model starts from a given `UserData`.
- Toast rendering is left out. Only the condition under which each toast fires is modelled, as a returned flag.
- Progress.LastAttempt: the in-place `.sort` that reorders the stored list is not modelled. Among attempts with equal timestamps the model returns the first, while the engine's stable sort returns the same one; the contract promises only "an attempt with the maximal timestamp".
- Progress.UpdateStats: fields of the partial update other than points, coins and xp are ignored, as the code ignores them. The rolling counters are dropped, not summed.
- QuizSession.Submit: requires a non-empty question list. The view reads the current question's id and text while rendering, so an empty set fails before Submit can be pressed.
- QuizSession.Submit: the recorded attempt has no `userAnswers`, because the handler omits them although the type requires them.
- QuizSession.Accuracy: floating-point rounding is not modelled. The percentage is exact, so "accuracy is 100" is exactly "score = n".
- `Date.now()` readings and the rounding of elapsed milliseconds to seconds are parameters of `Submit`.
- Firebase authentication, Firestore and the leaderboard query (ordered by points, limit 50) are left out as network clients. `RankUsers` takes the fetched list as given.
- The sign-up page and the auth redirect on the home page are left out as UI and routing.
- ResultsFlow.RunnerParamsWithAnswers: the `answers` text is a parameter. The JSON encoding and decoding of the answer list are not modelled, because the results card never uses the decoded answers and the page catches a decoding failure.
- Decimal.ParseInt: leading white space, which `parseInt` skips, and a `0x` prefix, which it reads as hexadecimal, are not modelled. The texts the runner writes contain neither.
- The AI difficulty flow is left out. It is a single call to a hosted model, and its rule lives in prompt text only.
- The click sound is left out as a Web Audio API call.
- Leaderboard.UpperChar: upper-cases ASCII letters only. Full Unicode case mapping is not modelled.
- Leaderboard.Initials: a Dafny `char` is a Unicode scalar value, while `n[0]` takes a UTF-16 code unit. For a name starting with a character outside the Basic Multilingual Plane the page shows half of a surrogate pair, and the model shows the whole character.
- QuizResults.RoundedAccuracy: a total of 0 gives `None`. The page would show `NaN%` (or `Infinity%` for a non-zero score), and that text is not modelled.
- Presentational components (layout, header, logo, watermark, stats strip, bookmarks list markup) are left out. They contain no logic beyond the lookups modelled here.
- The subject records carry an `icon` component in the data while the type names the field `iconName`. The model keeps one `icon` field as an enumeration.
- There is no anonymous-to-account merge and no rolling-window accounting in the code, so neither is modelled.

## Findings

| source | as written | input that shows it | evidently intended | confidence | as-written member | corrected member |
|---|---|---|---|---|---|---|
| src/components/quiz-view.tsx:89-92 | the runner pushes `/quiz/<id>/results?score=…&total=…&time=…` without `answers`, and the results page shows only its loading placeholder unless all four parameters are present (results-client-page.tsx:19-23) | any submitted run, for example 3 of 5 correct in 42 seconds: the redirect after submit shows the placeholder, and the card appears only by way of the chapter page's "View Solutions" link (ResultsFlow.SolutionsLinkShowsCard) | the address also carries the answers, so the card shows the run's score, total and time | not executed | ResultsFlow.SubmittedRunShowsPlaceholder | ResultsFlow.SubmittedResultsShown |
| src/app/profile/page.tsx:16-19 | at the top level `nextLevelXP` falls back to the current xp, so for xp past the last threshold the span is positive and the card says "0 XP to next level" | level 10 with 40000 XP, which only stored data can hold, since no code here grants XP: span 8000, note "0 XP to next level", bar at 100 | the maximum-level message whenever there is no next level | not executed | Profile.TopLevelShowsZeroToNext | Profile.ProfileProgressCorrected |
