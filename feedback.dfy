/**
 * `FeedbackGenerator`: the message shown after an answer, chosen by
 * correctness and the (already updated) streak, and the progress message,
 * chosen by an accuracy tier.
 */
module Feedback {
  import opened Wrappers
  import opened Text
  import opened Adaptive

  const AmazingLine: string := "\U{1F525} Amazing streak! You're mastering this!"
  const ExcellentLine: string := "\U{2728} Excellent work! Keep it up!"
  const WellDoneLine: string := "\U{2705} Correct! Well done!"
  const Separator: string := "\n\n"
  const WrongPrefix: string := "\U{274C} Not quite right. "
  const WrongSuffix: string := "\n\nDon't worry, learning from mistakes is part of the process!"

  /** The encouragement line of a correct answer: five or more in a row, three or four, or fewer. */
  function Encouragement(streak: int): (e: string)
    ensures streak >= 5 ==> e == AmazingLine
    ensures 3 <= streak < 5 ==> e == ExcellentLine
    ensures streak < 3 ==> e == WellDoneLine
  {
    if streak >= 5 then AmazingLine
    else if streak >= 3 then ExcellentLine
    else WellDoneLine
  }

  /**
   * `generate_feedback`. The difficulty is accepted and ignored; an
   * incorrect answer ignores the streak as well.
   */
  function GenerateFeedback(isCorrect: bool, difficulty: Tenths, streak: int, explanation: string): (r: string)
    ensures isCorrect ==> r == Encouragement(streak) + Separator + explanation
    ensures !isCorrect ==> r == WrongPrefix + explanation + WrongSuffix
  {
    if isCorrect then Encouragement(streak) + Separator + explanation
    else WrongPrefix + explanation + WrongSuffix
  }

  /** Where the explanation sits inside a feedback text of the given kind. */
  function ExplanationOf(isCorrect: bool, streak: int, feedback: string): string
  {
    if isCorrect then
      var n := |Encouragement(streak) + Separator|;
      if n <= |feedback| then feedback[n..] else ""
    else
      var lo, hi := |WrongPrefix|, |feedback| - |WrongSuffix|;
      if lo <= hi then feedback[lo..hi] else ""
  }

  /** The explanation can be read back out of every feedback text: it is embedded unchanged. */
  lemma ExplanationRecovered(isCorrect: bool, difficulty: Tenths, streak: int, explanation: string)
    ensures ExplanationOf(isCorrect, streak, GenerateFeedback(isCorrect, difficulty, streak, explanation)) == explanation
  {
    var r := GenerateFeedback(isCorrect, difficulty, streak, explanation);
    if isCorrect {
      assert r == (Encouragement(streak) + Separator) + explanation;
    } else {
      assert r[|WrongPrefix|..|r| - |WrongSuffix|] == explanation;
    }
  }

  /** The first character tells the outcome: a cross exactly for incorrect answers. */
  lemma OutcomeVisible(isCorrect: bool, difficulty: Tenths, streak: int, explanation: string)
    ensures var r := GenerateFeedback(isCorrect, difficulty, streak, explanation);
      |r| > 0 && (r[0] == '\U{274C}' <==> !isCorrect)
  {
    var r := GenerateFeedback(isCorrect, difficulty, streak, explanation);
    if isCorrect {
      assert r[0] == Encouragement(streak)[0];
    } else {
      assert r[0] == WrongPrefix[0];
    }
  }

  /** The difficulty argument never changes the text. */
  lemma DifficultyIgnored(isCorrect: bool, d1: Tenths, d2: Tenths, streak: int, explanation: string)
    ensures GenerateFeedback(isCorrect, d1, streak, explanation) == GenerateFeedback(isCorrect, d2, streak, explanation)
  {
  }

  /** An incorrect answer's text does not depend on the streak. */
  lemma WrongIgnoresStreak(difficulty: Tenths, s1: int, s2: int, explanation: string)
    ensures GenerateFeedback(false, difficulty, s1, explanation) == GenerateFeedback(false, difficulty, s2, explanation)
  {
  }

  /** Different explanations give different texts, for every outcome and streak. */
  lemma FeedbackInjective(isCorrect: bool, difficulty: Tenths, streak: int, e1: string, e2: string)
    requires e1 != e2
    ensures GenerateFeedback(isCorrect, difficulty, streak, e1) != GenerateFeedback(isCorrect, difficulty, streak, e2)
  {
    ExplanationRecovered(isCorrect, difficulty, streak, e1);
    ExplanationRecovered(isCorrect, difficulty, streak, e2);
  }

  /** The four bands of `get_progress_message`. */
  datatype ProgressTier = Outstanding | Great | Improving | KeepLearning

  /** Every accuracy falls into exactly one band: >= 90, [75, 90), [60, 75), < 60. */
  function ProgressTierOf(accuracy: real): (t: ProgressTier)
    ensures t == Outstanding <==> accuracy >= 90.0
    ensures t == Great <==> 75.0 <= accuracy < 90.0
    ensures t == Improving <==> 60.0 <= accuracy < 75.0
    ensures t == KeepLearning <==> accuracy < 60.0
  {
    if accuracy >= 90.0 then Outstanding
    else if accuracy >= 75.0 then Great
    else if accuracy >= 60.0 then Improving
    else KeepLearning
  }

  /** The bands are ordered: more accuracy never gives a lower band. */
  function TierRank(t: ProgressTier): nat
  {
    match t
    case KeepLearning => 0
    case Improving => 1
    case Great => 2
    case Outstanding => 3
  }

  lemma ProgressTierMonotone(a1: real, a2: real)
    requires a1 <= a2
    ensures TierRank(ProgressTierOf(a1)) <= TierRank(ProgressTierOf(a2))
  {
  }

  /** The leading symbol of each band's message. */
  function TierSymbol(t: ProgressTier): char
  {
    match t
    case Outstanding => '\U{1F31F}'
    case Great => '\U{1F44D}'
    case Improving => '\U{1F4C8}'
    case KeepLearning => '\U{1F4AA}'
  }

  /** The text after a band's symbol, cut where the accuracy goes. */
  function MessageHead(t: ProgressTier, total: string): string
  {
    match t
    case Outstanding => " Outstanding! You've answered " + total + " questions with "
    case Great => " Great job! You're doing well with "
    case Improving => " You're improving! Keep practicing to boost your "
    case KeepLearning => " Keep learning! Practice makes perfect. Current accuracy: "
  }

  function MessageTail(t: ProgressTier, total: string): string
  {
    match t
    case Outstanding => "% accuracy!"
    case Great => "% accuracy across " + total + " questions."
    case Improving => "% accuracy."
    case KeepLearning => "%"
  }

  /**
   * `get_progress_message`. `accuracyText` is Python's rendering of the
   * float `accuracy`, which the model takes as given.
   */
  function ProgressMessage(accuracy: real, accuracyText: string, totalQuestions: int): (m: string)
    ensures |m| > 0 && m[0] == TierSymbol(ProgressTierOf(accuracy))
  {
    var t := ProgressTierOf(accuracy);
    var total := IntToString(totalQuestions);
    [TierSymbol(t)] + MessageHead(t, total) + accuracyText + MessageTail(t, total)
  }

  /** Every message quotes the accuracy text verbatim. */
  lemma ProgressMessageShowsAccuracy(accuracy: real, accuracyText: string, totalQuestions: int)
    ensures exists i :: OccursAt(accuracyText, ProgressMessage(accuracy, accuracyText, totalQuestions), i)
  {
    var t := ProgressTierOf(accuracy);
    var total := IntToString(totalQuestions);
    var pre := [TierSymbol(t)] + MessageHead(t, total);
    var m := ProgressMessage(accuracy, accuracyText, totalQuestions);
    assert m == pre + accuracyText + MessageTail(t, total);
    assert m[|pre|..|pre| + |accuracyText|] == accuracyText;
    assert OccursAt(accuracyText, m, |pre|);
  }

  /** Reading the band back from a message's first symbol. */
  function TierOfMessage(m: string): Option<ProgressTier>
  {
    if |m| == 0 then None
    else if m[0] == '\U{1F31F}' then Some(Outstanding)
    else if m[0] == '\U{1F44D}' then Some(Great)
    else if m[0] == '\U{1F4C8}' then Some(Improving)
    else if m[0] == '\U{1F4AA}' then Some(KeepLearning)
    else None
  }

  /** The message names its band unambiguously. */
  lemma ProgressMessageTellsTier(accuracy: real, accuracyText: string, totalQuestions: int)
    ensures TierOfMessage(ProgressMessage(accuracy, accuracyText, totalQuestions)) == Some(ProgressTierOf(accuracy))
  {
  }
}
