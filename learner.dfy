/**
 * The learner state both answer handlers update: the streak is updated
 * first, the difficulty is then adjusted with the NEW streak, and then the
 * counters move.
 */
module Learner {
  import opened Adaptive

  datatype LearnerState = LearnerState(correctStreak: int, currentDifficulty: Tenths, totalQuestions: int, correctAnswers: int)

  /** The reachable learner states: difficulty in range, counters consistent, streak no longer than the correct answers. */
  predicate Consistent(s: LearnerState)
  {
    InRange(s.currentDifficulty) && 0 <= s.correctStreak <= s.correctAnswers <= s.totalQuestions
  }

  /** The state after one answer. */
  function Transition(s: LearnerState, isCorrect: bool): (t: LearnerState)
    ensures t.correctStreak == UpdateStreak(s.correctStreak, isCorrect)
    ensures t.currentDifficulty == AdjustDifficulty(s.currentDifficulty, isCorrect, t.correctStreak)
    ensures t.totalQuestions == s.totalQuestions + 1
    ensures t.correctAnswers == s.correctAnswers + (if isCorrect then 1 else 0)
  {
    var streak := UpdateStreak(s.correctStreak, isCorrect);
    LearnerState(streak, AdjustDifficulty(s.currentDifficulty, isCorrect, streak), s.totalQuestions + 1,
                 s.correctAnswers + (if isCorrect then 1 else 0))
  }

  /** One answer keeps a consistent state consistent. */
  lemma TransitionConsistent(s: LearnerState, isCorrect: bool)
    requires Consistent(s)
    ensures Consistent(Transition(s, isCorrect))
  {
  }

  /** The adjustment really sees the updated streak: after one correct answer a second one earns 0.2, not 0.1. */
  lemma NewStreakDrivesDifficulty()
    ensures Transition(LearnerState(1, 20, 1, 1), true).currentDifficulty == 22
    ensures AdjustDifficulty(20, true, 1) == 21
  {
  }

  /** A run of answers, one transition each. */
  function Replay(s: LearnerState, answers: seq<bool>): LearnerState
  {
    if answers == [] then s else Transition(Replay(s, answers[..|answers| - 1]), answers[|answers| - 1])
  }

  function CountTrue(answers: seq<bool>): (n: nat)
    ensures n <= |answers|
  {
    if answers == [] then 0 else CountTrue(answers[..|answers| - 1]) + (if answers[|answers| - 1] then 1 else 0)
  }

  /**
   * After a run of answers, the counters grew by the number of answers and of
   * correct answers, the streak is the streak counter's, and the state stays
   * consistent.
   */
  lemma {:induction false} ReplayCounts(s: LearnerState, answers: seq<bool>)
    requires Consistent(s)
    ensures var t := Replay(s, answers);
      Consistent(t)
      && t.totalQuestions == s.totalQuestions + |answers|
      && t.correctAnswers == s.correctAnswers + CountTrue(answers)
      && t.correctStreak == StreakAfter(s.correctStreak, answers)
  {
    if answers != [] {
      var init := answers[..|answers| - 1];
      ReplayCounts(s, init);
      TransitionConsistent(Replay(s, init), answers[|answers| - 1]);
    }
  }

  /** Three correct answers from 2.0 with no streak give 2.1, 2.3 and 2.6. */
  lemma ThreeCorrectFromTwo()
    ensures var s0 := LearnerState(0, 20, 0, 0);
      var s1 := Transition(s0, true); var s2 := Transition(s1, true); var s3 := Transition(s2, true);
      s1.currentDifficulty == 21 && s2.currentDifficulty == 23 && s3.currentDifficulty == 26
      && s3.correctStreak == 3
  {
  }

  /** The user row: the learner state fields of `User` that the handlers assign. */
  class User {
    const id: int
    var correctStreak: int
    var currentDifficulty: Tenths
    var totalQuestions: int
    var correctAnswers: int

    function State(): LearnerState
      reads this
    {
      LearnerState(correctStreak, currentDifficulty, totalQuestions, correctAnswers)
    }

    constructor (id: int, s: LearnerState)
      ensures this.id == id && State() == s
    {
      this.id := id;
      correctStreak := s.correctStreak;
      currentDifficulty := s.currentDifficulty;
      totalQuestions := s.totalQuestions;
      correctAnswers := s.correctAnswers;
    }

    /** The field assignments after an answer: new streak and difficulty, one more question, one more correct if it was. */
    method Record(newStreak: int, newDifficulty: Tenths, isCorrect: bool)
      modifies this
      ensures State() == LearnerState(newStreak, newDifficulty, old(totalQuestions) + 1,
                                      old(correctAnswers) + (if isCorrect then 1 else 0))
    {
      correctStreak := newStreak;
      currentDifficulty := newDifficulty;
      totalQuestions := totalQuestions + 1;
      if isCorrect {
        correctAnswers := correctAnswers + 1;
      }
    }
  }

  /**
   * The shared answer step of both handlers, as they write it: new streak,
   * then new difficulty from it, then the assignments.
   */
  method ApplyAnswer(user: User, isCorrect: bool) returns (newStreak: int, newDifficulty: Tenths)
    modifies user
    ensures user.State() == Transition(old(user.State()), isCorrect)
    ensures newStreak == user.correctStreak && newDifficulty == user.currentDifficulty
  {
    newStreak := UpdateStreak(user.correctStreak, isCorrect);
    newDifficulty := AdjustDifficulty(user.currentDifficulty, isCorrect, newStreak);
    user.Record(newStreak, newDifficulty, isCorrect);
  }
}
