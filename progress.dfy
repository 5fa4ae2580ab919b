/**
 * Stage progress kept by the application: the highest stage the player may
 * open, raised when a stage is cleared and put back to the first stage on
 * reset. Every change is written to the save file; the model records each
 * written value, in order, in savedStages.
 */
module Progress {
  import opened Common

  /** The number of stages unlock_stage assumes when its caller gives none. */
  const DefaultTotalStages: int := 37

  /**
   * The highest unlocked stage after the player clears stage cleared, when
   * current stages were unlocked before and the game has total stages.
   */
  function UnlockedAfter(current: int, cleared: int, total: int): (next: int)
    ensures current <= next
    ensures next == current || (1 <= cleared && current <= cleared && (next == cleared || next == cleared + 1))
    ensures 1 <= cleared && current <= cleared && cleared < total ==> next == cleared + 1
    ensures 1 <= cleared && current <= cleared && total <= cleared ==> next == cleared
  {
    if cleared < 1 then current
    else if cleared < current then current
    else if cleared >= total then Max(current, cleared)
    else Max(current, cleared + 1)
  }

  /**
   * Clearing a stage that exists never unlocks past the last stage, nor past
   * the stage after the one cleared.
   */
  lemma UnlockedAfterBounded(current: int, cleared: int, total: int)
    requires current <= total && cleared <= total
    ensures UnlockedAfter(current, cleared, total) <= total
    ensures UnlockedAfter(current, cleared, total) <= Max(current, cleared + 1)
  {
  }

  /** Clearing the same stage twice unlocks nothing more the second time. */
  lemma UnlockedAfterIdempotent(current: int, cleared: int, total: int)
    ensures UnlockedAfter(UnlockedAfter(current, cleared, total), cleared, total) == UnlockedAfter(current, cleared, total)
  {
  }

  /** Unlocking is monotone in what was unlocked before. */
  lemma UnlockedAfterMonotone(current: int, current': int, cleared: int, total: int)
    requires current <= current'
    ensures UnlockedAfter(current, cleared, total) <= UnlockedAfter(current', cleared, total)
  {
  }

  /** Clearing stages 1, 2, ..., k in order unlocks stage k + 1 (or the last stage). */
  function UnlockedAfterAll(current: int, cleared: seq<int>, total: int): (next: int)
    ensures current <= next
    decreases |cleared|
  {
    if cleared == [] then current
    else UnlockedAfterAll(UnlockedAfter(current, cleared[0], total), cleared[1..], total)
  }

  function Upto(k: nat): (s: seq<int>)
    ensures |s| == k && forall i :: 0 <= i < k ==> s[i] == i + 1
  {
    if k == 0 then [] else Upto(k - 1) + [k]
  }

  lemma {:induction false} UnlockedAfterAllSnoc(current: int, cleared: seq<int>, x: int, total: int)
    ensures UnlockedAfterAll(current, cleared + [x], total) == UnlockedAfter(UnlockedAfterAll(current, cleared, total), x, total)
    decreases |cleared|
  {
    if cleared != [] {
      assert (cleared + [x])[1..] == cleared[1..] + [x];
      UnlockedAfterAllSnoc(UnlockedAfter(current, cleared[0], total), cleared[1..], x, total);
    }
  }

  /** From a fresh start, clearing the stages in order unlocks them one after another, up to the last. */
  lemma {:induction false} ClearingInOrder(k: nat, total: int)
    requires 1 <= total && k <= total
    ensures UnlockedAfterAll(1, Upto(k), total) == if k < total then k + 1 else total
  {
    if k > 0 {
      ClearingInOrder(k - 1, total);
      UnlockedAfterAllSnoc(1, Upto(k - 1), k, total);
    }
  }

  /** Clearing every stage of the default game in order leaves all of them, and no more, unlocked. */
  lemma ClearingAllStages()
    ensures UnlockedAfterAll(1, Upto(DefaultTotalStages), DefaultTotalStages) == DefaultTotalStages
  {
    ClearingInOrder(DefaultTotalStages, DefaultTotalStages);
  }

  class App {
    /** The highest stage the player may open. */
    var maxUnlockedStage: int
    /** The values written to the save file, oldest first. */
    var savedStages: seq<int>

    /**
     * A new application starts at stage 1, then takes the stored value when
     * the save file could be read (loaded), and keeps 1 otherwise.
     */
    constructor (loaded: Option<int>)
      ensures maxUnlockedStage == (if loaded.Some? then loaded.value else 1)
      ensures savedStages == []
    {
      maxUnlockedStage := 1;
      savedStages := [];
      if loaded.Some? {
        maxUnlockedStage := loaded.value;
      }
    }

    /**
     * Records that stage cleared was cleared. The unlocked stage rises to
     * UnlockedAfter, and the new value is saved unless the call changed
     * nothing because the stage number is below 1 or below the unlocked stage.
     */
    method UnlockStage(cleared: int, total: int)
      modifies this
      ensures maxUnlockedStage == UnlockedAfter(old(maxUnlockedStage), cleared, total)
      ensures cleared < 1 || cleared < old(maxUnlockedStage) ==> savedStages == old(savedStages)
      ensures 1 <= cleared && old(maxUnlockedStage) <= cleared ==> savedStages == old(savedStages) + [maxUnlockedStage]
    {
      if cleared < 1 {
        return;
      }
      if cleared < maxUnlockedStage {
        return;
      }
      if cleared >= total {
        maxUnlockedStage := Max(maxUnlockedStage, cleared);
      } else {
        maxUnlockedStage := Max(maxUnlockedStage, cleared + 1);
      }
      savedStages := savedStages + [maxUnlockedStage];
    }

    /** Puts the progress back to stage 1 and saves it. */
    method ResetProgress()
      modifies this
      ensures maxUnlockedStage == 1
      ensures savedStages == old(savedStages) + [1]
    {
      maxUnlockedStage := 1;
      savedStages := savedStages + [maxUnlockedStage];
    }
  }
}
