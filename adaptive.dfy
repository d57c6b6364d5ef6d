/**
 * The difficulty adapter: a streak counter and a clamped, tiered difficulty
 * step. Difficulty is counted in tenths (10 stands for 1.0, 50 for 5.0), so
 * every value is a one-decimal value by construction and the rounding to
 * one decimal that follows the clamp changes nothing.
 */
module Adaptive {

  /** A difficulty in tenths of a level. */
  type Tenths = int

  const MinDifficulty: Tenths := 10
  const MaxDifficulty: Tenths := 50

  predicate InRange(d: Tenths) { MinDifficulty <= d <= MaxDifficulty }

  /** The step a correct answer earns at a given (already updated) streak, in tenths. */
  function Increase(streak: int): (r: Tenths)
    ensures 1 <= r <= 3
    ensures r == 1 <==> streak < 2
    ensures r == 2 <==> streak == 2
    ensures r == 3 <==> streak >= 3
  {
    if streak >= 3 then 3 else if streak >= 2 then 2 else 1
  }

  /** The step an incorrect answer costs, in tenths. */
  const Decrease: Tenths := 2

  /** `max(MIN_DIFFICULTY, min(MAX_DIFFICULTY, x))`. */
  function Clamp(x: Tenths): (r: Tenths)
    ensures InRange(r)
    ensures InRange(x) ==> r == x
    ensures x < MinDifficulty ==> r == MinDifficulty
    ensures x > MaxDifficulty ==> r == MaxDifficulty
  {
    if x > MaxDifficulty then MaxDifficulty
    else if x < MinDifficulty then MinDifficulty
    else x
  }

  /** `AdaptiveDifficulty.adjust_difficulty`: the next difficulty after an answer. */
  function AdjustDifficulty(current: Tenths, isCorrect: bool, streak: int): (r: Tenths)
    ensures InRange(r)
  {
    var next := if isCorrect then current + Increase(streak) else current - Decrease;
    Clamp(next)
  }

  /** `AdaptiveDifficulty.update_streak`. */
  function UpdateStreak(streak: int, isCorrect: bool): (r: int)
    ensures isCorrect ==> r == streak + 1
    ensures !isCorrect ==> r == 0
  {
    if isCorrect then streak + 1 else 0
  }

  /** A correct answer moves an in-range difficulty up by its tier's step, capped at 5.0. */
  lemma CorrectStep(current: Tenths, streak: int)
    requires InRange(current)
    ensures AdjustDifficulty(current, true, streak) ==
            if current + Increase(streak) <= MaxDifficulty then current + Increase(streak) else MaxDifficulty
    ensures streak < 2 ==> AdjustDifficulty(current, true, streak) == Clamp(current + 1)
    ensures streak == 2 ==> AdjustDifficulty(current, true, streak) == Clamp(current + 2)
    ensures streak >= 3 ==> AdjustDifficulty(current, true, streak) == Clamp(current + 3)
  {
  }

  /** An incorrect answer moves difficulty down by exactly 0.2, floored at 1.0; from 1.2 or below it lands on 1.0. */
  lemma IncorrectStep(current: Tenths, streak: int)
    requires current <= MaxDifficulty + Decrease
    ensures AdjustDifficulty(current, false, streak) ==
            if current - Decrease >= MinDifficulty then current - Decrease else MinDifficulty
    ensures current <= 12 ==> AdjustDifficulty(current, false, streak) == MinDifficulty
  {
  }

  /** On in-range input a correct answer never lowers difficulty and an incorrect one never raises it. */
  lemma DirectionOfChange(current: Tenths, streak: int)
    requires InRange(current)
    ensures current <= AdjustDifficulty(current, true, streak) <= current + 3
    ensures current - Decrease <= AdjustDifficulty(current, false, streak) <= current
  {
  }

  /** A harder starting point never gives an easier next difficulty. */
  lemma MonotoneInCurrent(c1: Tenths, c2: Tenths, isCorrect: bool, streak: int)
    requires c1 <= c2
    ensures AdjustDifficulty(c1, isCorrect, streak) <= AdjustDifficulty(c2, isCorrect, streak)
  {
  }

  /** A longer streak never earns a smaller step. */
  lemma MonotoneInStreak(current: Tenths, s1: int, s2: int)
    requires s1 <= s2
    ensures AdjustDifficulty(current, true, s1) <= AdjustDifficulty(current, true, s2)
  {
  }

  /** The streak after a sequence of answers, starting from `start`. */
  function StreakAfter(start: int, answers: seq<bool>): int
  {
    if answers == [] then start
    else UpdateStreak(StreakAfter(start, answers[..|answers| - 1]), answers[|answers| - 1])
  }

  /** The number of correct answers at the end of `answers` since its last incorrect one. */
  function TrailingCorrect(answers: seq<bool>): (r: nat)
    ensures r <= |answers|
    ensures forall i :: |answers| - r <= i < |answers| ==> answers[i]
    ensures r < |answers| ==> !answers[|answers| - 1 - r]
  {
    if answers == [] || !answers[|answers| - 1] then 0
    else TrailingCorrect(answers[..|answers| - 1]) + 1
  }

  /**
   * The streak counts the correct answers since the last incorrect one; an
   * incorrect answer anywhere resets it, whatever came before.
   */
  lemma {:induction false} StreakCountsTrailingCorrect(start: int, answers: seq<bool>)
    ensures (exists i :: 0 <= i < |answers| && !answers[i]) ==>
              StreakAfter(start, answers) == TrailingCorrect(answers)
    ensures (forall i :: 0 <= i < |answers| ==> answers[i]) ==>
              StreakAfter(start, answers) == start + |answers|
  {
    if answers != [] {
      var init := answers[..|answers| - 1];
      StreakCountsTrailingCorrect(start, init);
      if answers[|answers| - 1] {
        if exists i :: 0 <= i < |answers| && !answers[i] {
          var i :| 0 <= i < |answers| && !answers[i];
          assert init[i] == answers[i];
        }
        if forall i :: 0 <= i < |answers| ==> answers[i] {
          assert forall i :: 0 <= i < |init| ==> init[i] == answers[i];
        }
      }
    }
  }
}
