/** The user-progress store: each operation is a pure step from one `UserData` to the next,
    and the notification the store would show is returned as a flag. */
module Progress {
  import opened Wrappers
  import opened Seqs
  import opened Types
  import opened Levels
  import opened Constants

  /** The fields of a partial stats update that the store reads; a missing field is `None`. */
  datatype StatsUpdate = StatsUpdate(points: Option<int>, coins: Option<int>, xp: Option<int>)

  /** `updates.field || 0`. */
  function OrZero(o: Option<int>): int {
    o.GetOr(0)
  }

  /** One update carrying the sums of two updates' deltas. */
  function SumUpdates(d1: StatsUpdate, d2: StatsUpdate): StatsUpdate {
    StatsUpdate(
      Some(OrZero(d1.points) + OrZero(d2.points)),
      Some(OrZero(d1.coins) + OrZero(d2.coins)),
      Some(OrZero(d1.xp) + OrZero(d2.xp)))
  }

  /** The result of `updateStats`: the new state and whether a level-up notice fired. */
  datatype StatsResult = StatsResult(user: UserData, levelUp: bool)

  /** Adds the deltas, recomputes the level from the threshold table and raises the stored level
      only when the recomputed one is higher. The new stats record keeps no rolling counters. */
  function UpdateStats(u: UserData, d: StatsUpdate): (r: StatsResult)
    ensures r.user.stats.xp == u.stats.xp + OrZero(d.xp)
    ensures r.user.stats.points == u.stats.points + OrZero(d.points)
    ensures r.user.stats.coins == u.stats.coins + OrZero(d.coins)
    ensures r.user.stats.level >= u.stats.level
    ensures r.levelUp <==> r.user.stats.level > u.stats.level
    ensures r.levelUp <==> LevelFor(LevelThresholds, r.user.stats.xp) > u.stats.level
    ensures r.levelUp ==> LevelInSync(r.user.stats)
    ensures !r.levelUp ==> r.user.stats.level == u.stats.level
    ensures r.user.stats.dailyPoints.None? && r.user.stats.weeklyPoints.None? && r.user.stats.monthlyPoints.None?
    ensures r.user == u.(stats := r.user.stats)
  {
    var xp := u.stats.xp + OrZero(d.xp);
    var newLevel := LevelFor(LevelThresholds, xp);
    var raised := newLevel > u.stats.level;
    var stats := Stats(
      points := u.stats.points + OrZero(d.points),
      dailyPoints := None,
      weeklyPoints := None,
      monthlyPoints := None,
      coins := u.stats.coins + OrZero(d.coins),
      xp := xp,
      level := if raised then newLevel else u.stats.level);
    StatsResult(u.(stats := stats), raised)
  }

  /** Two updates add up like one update with the summed deltas; when neither lowers XP the
      resulting states are identical (only the notices may differ). */
  lemma UpdatesCompose(u: UserData, d1: StatsUpdate, d2: StatsUpdate)
    ensures var twice := UpdateStats(UpdateStats(u, d1).user, d2).user;
            var once := UpdateStats(u, SumUpdates(d1, d2)).user;
            twice.stats.xp == once.stats.xp
            && twice.stats.points == once.stats.points
            && twice.stats.coins == once.stats.coins
    ensures OrZero(d1.xp) >= 0 && OrZero(d2.xp) >= 0 ==>
            UpdateStats(UpdateStats(u, d1).user, d2).user == UpdateStats(u, SumUpdates(d1, d2)).user
  {
    if OrZero(d1.xp) >= 0 && OrZero(d2.xp) >= 0 {
      ComposedLevel(u, d1, d2);
      var twice := UpdateStats(UpdateStats(u, d1).user, d2).user;
      var once := UpdateStats(u, SumUpdates(d1, d2)).user;
      assert twice.stats == once.stats;
    }
  }

  /** When neither update lowers XP, two updates reach the same level as one summed update. */
  lemma ComposedLevel(u: UserData, d1: StatsUpdate, d2: StatsUpdate)
    requires OrZero(d1.xp) >= 0 && OrZero(d2.xp) >= 0
    ensures UpdateStats(UpdateStats(u, d1).user, d2).user.stats.level
            == UpdateStats(u, SumUpdates(d1, d2)).user.stats.level
  {
    var x1 := u.stats.xp + OrZero(d1.xp);
    var x2 := x1 + OrZero(d2.xp);
    LevelMonotone(LevelThresholds, x1, x2);
  }

  /** A level that agrees with XP keeps agreeing after any update that does not lower XP. */
  lemma UpdateKeepsLevelInSync(u: UserData, d: StatsUpdate)
    requires LevelInSync(u.stats)
    requires OrZero(d.xp) >= 0
    ensures LevelInSync(UpdateStats(u, d).user.stats)
  {
    LevelMonotone(LevelThresholds, u.stats.xp, u.stats.xp + OrZero(d.xp));
  }

  /** The attempts recorded for a quiz set (`attempts[id] || []`). */
  function AttemptsOf(u: UserData, quizSetId: string): seq<Attempt> {
    if quizSetId in u.attempts then u.attempts[quizSetId] else []
  }

  /** Appends the attempt to its quiz set's list, creating the list when absent. */
  function AddAttempt(u: UserData, a: Attempt): (r: UserData)
    ensures a.quizSetId in r.attempts
    ensures AttemptsOf(r, a.quizSetId) == AttemptsOf(u, a.quizSetId) + [a]
    ensures r.attempts.Keys == u.attempts.Keys + {a.quizSetId}
    ensures forall k :: k in u.attempts && k != a.quizSetId ==> r.attempts[k] == u.attempts[k]
    ensures r == u.(attempts := r.attempts)
  {
    u.(attempts := u.attempts[a.quizSetId := AttemptsOf(u, a.quizSetId) + [a]])
  }

  /** The result of `toggleBookmark`: the new state and whether the "added" notice fired. */
  datatype BookmarkResult = BookmarkResult(user: UserData, added: bool)

  /** `bookmarks.includes(questionId)`. */
  predicate IsBookmarked(u: UserData, questionId: string): (b: bool)
    ensures b <==> exists i :: 0 <= i < |u.bookmarks| && u.bookmarks[i] == questionId
  {
    questionId in u.bookmarks
  }

  /** Every bookmark except `questionId`, in order. */
  function WithoutBookmark(bookmarks: seq<string>, questionId: string): (r: seq<string>)
    ensures questionId !in r
    ensures forall x :: x != questionId ==> (x in r <==> x in bookmarks)
    ensures questionId !in bookmarks ==> r == bookmarks
    ensures IsSubsequence(r, bookmarks)
    ensures forall x :: x != questionId ==> multiset(r)[x] == multiset(bookmarks)[x]
  {
    Filter(bookmarks, id => id != questionId)
  }

  /** Removes every occurrence of a bookmarked id, or appends an absent one. */
  function ToggleBookmark(u: UserData, questionId: string): (r: BookmarkResult)
    ensures r.added <==> !IsBookmarked(u, questionId)
    ensures IsBookmarked(r.user, questionId) <==> !IsBookmarked(u, questionId)
    ensures forall x :: x != questionId ==> (IsBookmarked(r.user, x) <==> IsBookmarked(u, x))
    ensures r.added ==> r.user.bookmarks == u.bookmarks + [questionId]
    ensures !r.added ==> r.user.bookmarks == WithoutBookmark(u.bookmarks, questionId)
    ensures r.user == u.(bookmarks := r.user.bookmarks)
  {
    if IsBookmarked(u, questionId) then
      BookmarkResult(u.(bookmarks := WithoutBookmark(u.bookmarks, questionId)), false)
    else
      BookmarkResult(u.(bookmarks := u.bookmarks + [questionId]), true)
  }

  /** Bookmarking an absent question and then toggling it again restores the exact list. */
  lemma ToggleTwiceRestores(u: UserData, questionId: string)
    requires !IsBookmarked(u, questionId)
    ensures ToggleBookmark(ToggleBookmark(u, questionId).user, questionId).user == u
  {
    var p := (id: string) => id != questionId;
    FilterConcat(u.bookmarks, [questionId], p);
    assert Filter([questionId], p) == [];
  }

  /** Toggling a present question twice keeps the same set of bookmarks; the id moves to the end
      and any duplicates of it collapse to one. */
  lemma ToggleTwiceFromPresent(u: UserData, questionId: string)
    requires IsBookmarked(u, questionId)
    ensures var r := ToggleBookmark(ToggleBookmark(u, questionId).user, questionId).user;
            (forall x :: IsBookmarked(r, x) <==> IsBookmarked(u, x))
            && r.bookmarks == WithoutBookmark(u.bookmarks, questionId) + [questionId]
  {
  }

  /** Adds a quiz set to the completed list unless it is already there. */
  function MarkSetAsCompleted(u: UserData, quizSetId: string): (r: UserData)
    ensures quizSetId in r.completedSets
    ensures quizSetId in u.completedSets ==> r == u
    ensures quizSetId !in u.completedSets ==> r.completedSets == u.completedSets + [quizSetId]
    ensures forall x :: x in r.completedSets <==> x in u.completedSets || x == quizSetId
    ensures NoDuplicates(u.completedSets) ==> NoDuplicates(r.completedSets)
    ensures r == u.(completedSets := r.completedSets)
  {
    if quizSetId in u.completedSets then u
    else u.(completedSets := u.completedSets + [quizSetId])
  }

  lemma MarkSetAsCompletedIdempotent(u: UserData, quizSetId: string)
    ensures MarkSetAsCompleted(MarkSetAsCompleted(u, quizSetId), quizSetId) == MarkSetAsCompleted(u, quizSetId)
  {
  }

  /** The largest score in a non-empty list of attempts (`Math.max(...scores)`). */
  function MaxScore(attempts: seq<Attempt>): (m: int)
    requires |attempts| > 0
    ensures exists i :: 0 <= i < |attempts| && attempts[i].score == m
    ensures forall i :: 0 <= i < |attempts| ==> attempts[i].score <= m
  {
    if |attempts| == 1 then attempts[0].score
    else
      var rest := MaxScore(attempts[1..]);
      if attempts[0].score >= rest then attempts[0].score else rest
  }

  /** The best score on a quiz set, or `None` when it has no attempts. */
  function BestScore(u: UserData, quizSetId: string): (r: Option<int>)
    ensures r.None? <==> |AttemptsOf(u, quizSetId)| == 0
    ensures r.Some? ==> exists a :: a in AttemptsOf(u, quizSetId) && a.score == r.value
    ensures r.Some? ==> forall a :: a in AttemptsOf(u, quizSetId) ==> a.score <= r.value
  {
    var attempts := AttemptsOf(u, quizSetId);
    if |attempts| == 0 then None else Some(MaxScore(attempts))
  }

  /** `attempts[id]?.length || 0`. */
  function AttemptsCount(u: UserData, quizSetId: string): (n: nat)
    ensures quizSetId in u.attempts ==> n == |u.attempts[quizSetId]|
    ensures quizSetId !in u.attempts ==> n == 0
    ensures n == 0 <==> quizSetId !in u.attempts || u.attempts[quizSetId] == []
  {
    |AttemptsOf(u, quizSetId)|
  }

  /** The first attempt holding the greatest timestamp: the head of a stable sort by
      descending timestamp. */
  function Latest(attempts: seq<Attempt>): (r: Attempt)
    requires |attempts| > 0
    ensures r in attempts
    ensures forall i :: 0 <= i < |attempts| ==> attempts[i].timestamp <= r.timestamp
    ensures exists k :: 0 <= k < |attempts| && attempts[k] == r
                        && forall j :: 0 <= j < k ==> attempts[j].timestamp < r.timestamp
  {
    if |attempts| == 1 then attempts[0]
    else
      var rest := Latest(attempts[1..]);
      if attempts[0].timestamp >= rest.timestamp then attempts[0]
      else
        assert forall j :: 1 <= j < |attempts| ==> attempts[j] == attempts[1..][j - 1];
        rest
  }

  /** The most recent attempt on a quiz set, or `None` when it has none. */
  function LastAttempt(u: UserData, quizSetId: string): (r: Option<Attempt>)
    ensures r.None? <==> |AttemptsOf(u, quizSetId)| == 0
    ensures r.Some? ==> r.value in AttemptsOf(u, quizSetId)
    ensures r.Some? ==> forall a :: a in AttemptsOf(u, quizSetId) ==> a.timestamp <= r.value.timestamp
  {
    var attempts := AttemptsOf(u, quizSetId);
    if |attempts| == 0 then None else Some(Latest(attempts))
  }

  /** Recording an attempt adds one to its count, folds its score into the best score and
      leaves every other quiz set's queries alone. */
  lemma AddAttemptQueries(u: UserData, a: Attempt, other: string)
    requires other != a.quizSetId
    ensures AttemptsCount(AddAttempt(u, a), a.quizSetId) == AttemptsCount(u, a.quizSetId) + 1
    ensures BestScore(AddAttempt(u, a), a.quizSetId)
            == Some(match BestScore(u, a.quizSetId)
                    case None => a.score
                    case Some(b) => if b >= a.score then b else a.score)
    ensures AttemptsCount(AddAttempt(u, a), other) == AttemptsCount(u, other)
    ensures BestScore(AddAttempt(u, a), other) == BestScore(u, other)
    ensures LastAttempt(AddAttempt(u, a), other) == LastAttempt(u, other)
  {
    AddAttemptBestScore(u, a);
    assert AttemptsOf(AddAttempt(u, a), other) == AttemptsOf(u, other);
  }

  /** The best score after recording an attempt is the larger of the old best and the new score. */
  lemma AddAttemptBestScore(u: UserData, a: Attempt)
    ensures BestScore(AddAttempt(u, a), a.quizSetId)
            == Some(match BestScore(u, a.quizSetId)
                    case None => a.score
                    case Some(b) => if b >= a.score then b else a.score)
  {
    var before := AttemptsOf(u, a.quizSetId);
    var after := AttemptsOf(AddAttempt(u, a), a.quizSetId);
    assert after == before + [a];
    if |before| > 0 {
      var m := MaxScore(after);
      assert after[|after| - 1] == a;
      forall i | 0 <= i < |before|
        ensures before[i].score <= m
      {
        assert after[i] == before[i];
      }
      var k :| 0 <= k < |after| && after[k].score == m;
      if k < |before| {
        assert after[k] == before[k];
      }
    } else {
      assert after == [a];
    }
  }

  /** The worked example: attempts stamped 10, 30, 20 on one set; the latest is the one at 30. */
  lemma LastAttemptExample(u: UserData, a: Attempt)
    requires u.attempts == map[]
    ensures var u3 := AddAttempt(AddAttempt(AddAttempt(u, a.(timestamp := 10)), a.(timestamp := 30)), a.(timestamp := 20));
            LastAttempt(u3, a.quizSetId) == Some(a.(timestamp := 30))
  {
    var u3 := AddAttempt(AddAttempt(AddAttempt(u, a.(timestamp := 10)), a.(timestamp := 30)), a.(timestamp := 20));
    var l := AttemptsOf(u3, a.quizSetId);
    assert l == [a.(timestamp := 10), a.(timestamp := 30), a.(timestamp := 20)];
    assert l[1..][1..] == [a.(timestamp := 20)];
  }
}
