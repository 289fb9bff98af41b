/** Reward constants, the level threshold table and the template for a new user. */
module Constants {
  import opened Wrappers
  import opened Types
  import opened Levels

  const PointsPerCorrectAnswer: int := 10
  const CoinsPerCorrectAnswer: int := 2
  const BonusCoinsForTimelyCompletion: int := 5
  const XpPerCompletedSet: int := 15
  const XpBonusForPerfectScore: int := 10

  /** XP needed to reach levels 1 through 10. */
  const LevelThresholds: seq<int> := [0, 100, 250, 500, 1000, 2000, 4000, 8000, 16000, 32000]

  const InitialUserData: UserData := UserData(
    id := "",
    username := "Anonymous",
    email := None,
    stats := Stats(
      points := 0,
      dailyPoints := Some(0),
      weeklyPoints := Some(0),
      monthlyPoints := Some(0),
      coins := 0,
      xp := 0,
      level := 1),
    attempts := map[],
    bookmarks := [],
    completedSets := [])

  /** The level stored in `stats` is the one its XP earns. */
  predicate LevelInSync(stats: Stats) {
    stats.level == LevelFor(LevelThresholds, stats.xp)
  }

  /** The table is strictly ascending and starts at 0, so the level function counts thresholds. */
  lemma ThresholdsWellFormed()
    ensures |LevelThresholds| == 10 && LevelThresholds[0] == 0
    ensures StrictlyAscending(LevelThresholds)
  {
  }

  /** A new user holds nothing, and its level 1 is the level XP 0 earns. */
  lemma InitialUserDataIsEmpty()
    ensures LevelInSync(InitialUserData.stats)
    ensures InitialUserData.stats.level == 1
    ensures InitialUserData.stats.points == 0 && InitialUserData.stats.coins == 0 && InitialUserData.stats.xp == 0
    ensures InitialUserData.stats.dailyPoints == Some(0)
    ensures InitialUserData.stats.weeklyPoints == Some(0)
    ensures InitialUserData.stats.monthlyPoints == Some(0)
    ensures InitialUserData.attempts == map[]
    ensures InitialUserData.bookmarks == [] && InitialUserData.completedSets == []
  {
    LevelUnique(LevelThresholds, 0, 1);
  }

  /** Worked examples of the level rule on the shipped table. */
  lemma LevelExamples()
    ensures LevelFor(LevelThresholds, 0) == 1
    ensures LevelFor(LevelThresholds, 100) == 2
    ensures LevelFor(LevelThresholds, 249) == 2
    ensures LevelFor(LevelThresholds, 250) == 3
  {
    LevelUnique(LevelThresholds, 0, 1);
    LevelUnique(LevelThresholds, 100, 2);
    LevelUnique(LevelThresholds, 249, 2);
    LevelUnique(LevelThresholds, 250, 3);
  }

  /** XP at or beyond the last threshold earns the top level, the table length. */
  lemma TopLevelExamples()
    ensures LevelFor(LevelThresholds, 32000) == 10
    ensures LevelFor(LevelThresholds, 1000000) == 10
  {
    LevelUnique(LevelThresholds, 32000, 10);
    LevelUnique(LevelThresholds, 1000000, 10);
  }
}
