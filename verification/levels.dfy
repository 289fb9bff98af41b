/** The level a cumulative XP total earns against an ascending threshold table. */
module Levels {
  import opened Wrappers
  import opened Seqs

  predicate StrictlyAscending(t: seq<int>) {
    forall i, j :: 0 <= i < j < |t| ==> t[i] < t[j]
  }

  /** `t.findIndex(x => xp < x)`, with "not found" read as the table length: the
      number of leading thresholds that `xp` has reached. */
  function LevelFor(t: seq<int>, xp: int): (level: nat)
    ensures level <= |t|
    ensures forall i :: 0 <= i < level ==> t[i] <= xp
    ensures level < |t| ==> xp < t[level]
  {
    if |t| == 0 then 0
    else if xp < t[0] then 0
    else 1 + LevelFor(t[1..], xp)
  }

  /** The level is the only index that every earlier threshold has reached and whose own
      threshold (if any) lies above the XP. */
  lemma LevelUnique(t: seq<int>, xp: int, k: nat)
    requires k <= |t|
    requires forall i :: 0 <= i < k ==> t[i] <= xp
    requires k < |t| ==> xp < t[k]
    ensures LevelFor(t, xp) == k
  {
  }

  /** The level is what `findIndex(x => xp < x)` reports on the table, with "not found" read as
      the table length. */
  lemma LevelIsFindIndex(t: seq<int>, xp: int)
    ensures LevelFor(t, xp) == match FindIndex(t, x => xp < x)
                               case None => |t|
                               case Some(i) => i
  {
    match FindIndex(t, x => xp < x)
    case None => LevelUnique(t, xp, |t|);
    case Some(i) => LevelUnique(t, xp, i);
  }

  /** How many thresholds in `t` are at most `xp`. */
  function CountReached(t: seq<int>, xp: int): nat {
    if |t| == 0 then 0
    else (if t[0] <= xp then 1 else 0) + CountReached(t[1..], xp)
  }

  /** On an ascending table the level is the number of thresholds reached. */
  lemma {:induction false} LevelIsCountReached(t: seq<int>, xp: int)
    requires StrictlyAscending(t)
    ensures LevelFor(t, xp) == CountReached(t, xp)
  {
    if |t| > 0 {
      if xp < t[0] {
        NoneReached(t, xp);
      } else {
        LevelIsCountReached(t[1..], xp);
      }
    }
  }

  lemma {:induction false} NoneReached(t: seq<int>, xp: int)
    requires forall i :: 0 <= i < |t| ==> xp < t[i]
    ensures CountReached(t, xp) == 0
  {
    if |t| > 0 {
      NoneReached(t[1..], xp);
    }
  }

  /** More XP never means a lower level. */
  lemma {:induction false} LevelMonotone(t: seq<int>, x: int, y: int)
    requires x <= y
    ensures LevelFor(t, x) <= LevelFor(t, y)
  {
    if |t| > 0 && t[0] <= x {
      LevelMonotone(t[1..], x, y);
    }
  }

  /** With a first threshold of 0, every non-negative XP total is at least level 1. */
  lemma LevelAtLeastOne(t: seq<int>, xp: int)
    requires |t| > 0 && t[0] == 0 && 0 <= xp
    ensures 1 <= LevelFor(t, xp)
  {
  }
}
