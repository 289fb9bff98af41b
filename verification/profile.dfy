/** The level-progress card of the profile page. */
module Profile {
  import opened Wrappers
  import opened Types
  import opened Levels
  import opened Constants
  import opened Fractions

  /** The line under the progress bar. */
  datatype LevelNote = ToNextLevel(remaining: int) | MaxLevel

  datatype LevelProgress = LevelProgress(
    currentLevelXP: int,
    nextLevelXP: int,
    progress: real,
    note: LevelNote)

  /** `LEVEL_THRESHOLDS[i] ?? fallback`: the threshold at `i`, or `fallback` outside the table. */
  function ThresholdOr(i: int, fallback: int): (t: int)
    ensures 0 <= i < |LevelThresholds| ==> t == LevelThresholds[i]
    ensures !(0 <= i < |LevelThresholds|) ==> t == fallback
  {
    if 0 <= i < |LevelThresholds| then LevelThresholds[i] else fallback
  }

  /** The percentage of the way from the current level's threshold to the next one's; a full
      bar when the span is not positive. */
  function Progress(xpForCurrentLevel: int, xpForNextLevel: int): (p: real)
    ensures 0 < xpForNextLevel && 0 <= xpForCurrentLevel < xpForNextLevel ==> 0.0 <= p < 100.0
    ensures xpForNextLevel <= 0 ==> p == 100.0
    ensures 0 < xpForNextLevel && xpForCurrentLevel == xpForNextLevel ==> p == 100.0
    ensures 0 < xpForNextLevel ==> p * xpForNextLevel as real == 100.0 * xpForCurrentLevel as real
  {
    if xpForNextLevel > 0 then
      if 0 <= xpForCurrentLevel <= xpForNextLevel then
        PercentBounds(xpForCurrentLevel, xpForNextLevel);
        (xpForCurrentLevel as real / xpForNextLevel as real) * 100.0
      else
        (xpForCurrentLevel as real / xpForNextLevel as real) * 100.0
    else 100.0
  }

  /** The card as the page computes it: the note reads "N XP to next level" whenever the span
      to the next threshold is positive, and the maximum-level message otherwise. */
  function ProfileProgress(stats: Stats): (p: LevelProgress)
    ensures p.currentLevelXP == ThresholdOr(stats.level - 1, 0)
    ensures p.nextLevelXP == ThresholdOr(stats.level, stats.xp)
    ensures p.progress == Progress(stats.xp - p.currentLevelXP, p.nextLevelXP - p.currentLevelXP)
    ensures p.note.MaxLevel? <==> p.nextLevelXP - p.currentLevelXP <= 0
    ensures p.note.MaxLevel? ==> p.progress == 100.0
    ensures p.note.ToNextLevel? ==> p.note.remaining == p.nextLevelXP - stats.xp
    ensures LevelInSync(stats) && 0 <= stats.xp && stats.level < |LevelThresholds| ==>
              && p.currentLevelXP <= stats.xp < p.nextLevelXP
              && p.note.ToNextLevel? && p.note.remaining > 0
              && 0.0 <= p.progress < 100.0
    ensures stats.level >= |LevelThresholds| && p.note.ToNextLevel? ==> p.note.remaining == 0
  {
    var currentLevelXP := ThresholdOr(stats.level - 1, 0);
    var nextLevelXP := ThresholdOr(stats.level, stats.xp);
    var xpForCurrentLevel := stats.xp - currentLevelXP;
    var xpForNextLevel := nextLevelXP - currentLevelXP;
    var note := if xpForNextLevel > 0 then ToNextLevel(nextLevelXP - stats.xp) else MaxLevel;
    LevelProgress(currentLevelXP, nextLevelXP, Progress(xpForCurrentLevel, xpForNextLevel), note)
  }

  /** A top-level user with XP past the last threshold is told "0 XP to next level" under a full
      bar, instead of the maximum-level message. */
  lemma TopLevelShowsZeroToNext()
    ensures var stats := Stats(0, None, None, None, 0, 40000, 10);
            && LevelInSync(stats)
            && ProfileProgress(stats).note == ToNextLevel(0)
            && ProfileProgress(stats).progress == 100.0
  {
    LevelUnique(LevelThresholds, 40000, 10);
  }

  /** The card with the maximum-level message shown whenever there is no next threshold. */
  function ProfileProgressCorrected(stats: Stats): (p: LevelProgress)
    ensures p.currentLevelXP == ThresholdOr(stats.level - 1, 0)
    ensures p.nextLevelXP == ThresholdOr(stats.level, stats.xp)
    ensures 0 <= stats.level < |LevelThresholds| ==>
              p.progress == Progress(stats.xp - p.currentLevelXP, p.nextLevelXP - p.currentLevelXP)
    ensures !(0 <= stats.level < |LevelThresholds|) ==> p.note.MaxLevel? && p.progress == 100.0
    ensures p.note.ToNextLevel? ==> 0 <= stats.level < |LevelThresholds|
    ensures p.note.ToNextLevel? ==> p.note.remaining == p.nextLevelXP - stats.xp
    ensures LevelInSync(stats) && 0 <= stats.xp ==>
              && (p.note.MaxLevel? <==> stats.level == |LevelThresholds|)
              && (p.note.ToNextLevel? ==> p.note.remaining > 0 && 0.0 <= p.progress < 100.0)
              && (p.note.MaxLevel? ==> p.progress == 100.0)
  {
    var currentLevelXP := ThresholdOr(stats.level - 1, 0);
    var nextLevelXP := ThresholdOr(stats.level, stats.xp);
    var xpForCurrentLevel := stats.xp - currentLevelXP;
    var xpForNextLevel := nextLevelXP - currentLevelXP;
    var hasNext := 0 <= stats.level < |LevelThresholds|;
    var note := if hasNext && xpForNextLevel > 0 then ToNextLevel(nextLevelXP - stats.xp) else MaxLevel;
    var progress := if hasNext then Progress(xpForCurrentLevel, xpForNextLevel) else 100.0;
    LevelProgress(currentLevelXP, nextLevelXP, progress, note)
  }

  /** The corrected card agrees with the page everywhere below the top level. */
  lemma CorrectedAgreesBelowTop(stats: Stats)
    requires 0 <= stats.level < |LevelThresholds|
    ensures ProfileProgressCorrected(stats) == ProfileProgress(stats)
  {
  }
}
