/**
 * Small helpers: the topic list, the display name of a topic slug
 * (`replace("_", " ").title()`), and the accuracy percentage.
 */
module Helpers {
  import opened Text
  import Scoring

  const CybersecurityTopics: seq<string> := [
    "phishing_detection",
    "password_security",
    "malware_awareness",
    "social_engineering",
    "network_security",
    "data_encryption",
    "two_factor_authentication",
    "security_best_practices"
  ]

  /** What Python's `title()` does to one character, given whether the character before it is a letter. */
  function TitleChar(afterLetter: bool, c: char): char
  {
    if !IsLetter(c) then c else if afterLetter then Lower(c) else Upper(c)
  }

  /**
   * Python's `str.title()` on ASCII text: a letter that follows a letter is
   * lowercased, any other letter is uppercased, and everything else is kept.
   * `afterLetter` says whether the text is preceded by a letter.
   */
  function TitleFrom(s: string, afterLetter: bool): (r: string)
    ensures |r| == |s|
    ensures forall i :: 0 <= i < |s| ==> r[i] == TitleChar(if i == 0 then afterLetter else IsLetter(s[i - 1]), s[i])
  {
    if s == [] then []
    else [TitleChar(afterLetter, s[0])] + TitleFrom(s[1..], IsLetter(s[0]))
  }

  function Title(s: string): (r: string)
  {
    TitleFrom(s, false)
  }

  /** `get_topic_display_name`. */
  function TopicDisplayName(topic: string): (r: string)
  {
    Title(ReplaceChar(topic, '_', ' '))
  }

  /**
   * The display name has the slug's length and no underscore; every
   * underscore became a space, the first letter of each run of letters is
   * uppercase and the others lowercase.
   */
  lemma DisplayNameShape(topic: string)
    ensures var r := TopicDisplayName(topic);
      |r| == |topic|
      && (forall i :: 0 <= i < |r| ==> r[i] != '_')
      && (forall i :: 0 <= i < |r| ==> (topic[i] == '_' <==> r[i] == ' ') || topic[i] == ' ')
      && (forall i :: 0 <= i < |r| && IsLetter(topic[i]) ==>
            IsLetter(r[i]) && (IsUpper(r[i]) <==> i == 0 || !IsLetter(topic[i - 1])))
  {
    var s := ReplaceChar(topic, '_', ' ');
    var r := TopicDisplayName(topic);
    forall i | 0 <= i < |r|
      ensures r[i] != '_'
      ensures (topic[i] == '_' <==> r[i] == ' ') || topic[i] == ' '
    {
      assert r[i] == TitleChar(if i == 0 then false else IsLetter(s[i - 1]), s[i]);
    }
    forall i | 0 <= i < |r| && IsLetter(topic[i])
      ensures IsLetter(r[i]) && (IsUpper(r[i]) <==> i == 0 || !IsLetter(topic[i - 1]))
    {
      assert s[i] == topic[i];
      if i > 0 {
        assert IsLetter(s[i - 1]) == IsLetter(topic[i - 1]);
      }
    }
  }

  /**
   * `calculate_accuracy`: 0.0 without questions, otherwise the exact
   * percentage. The source rounds to two decimals; the model keeps the
   * exact value.
   */
  function CalculateAccuracy(correct: int, total: int): (r: real)
    ensures total == 0 ==> r == 0.0
  {
    if total == 0 then 0.0 else (correct as real / total as real) * 100.0
  }

  /** With 0 <= correct <= total the accuracy is a percentage, and it is 100 * correct / total. */
  lemma AccuracyBounds(correct: int, total: int)
    requires 0 <= correct <= total && total > 0
    ensures 0.0 <= CalculateAccuracy(correct, total) <= 100.0
    ensures CalculateAccuracy(correct, total) * total as real == 100.0 * correct as real
  {
    Scoring.PercentMeaning(correct, total);
  }

  /** The dashboard accuracy and the analysis accuracy are the same formula. */
  lemma AccuracyAgreesWithAnalysis(rs: seq<Scoring.AnswerRecord>)
    ensures CalculateAccuracy(Scoring.CountCorrect(rs), |rs|) == Scoring.Analysis(rs).accuracy
  {
  }

  /** `get_random_topic`: any topic of the list; which one is left to the random source. */
  method RandomTopic() returns (t: string)
    ensures t in CybersecurityTopics
  {
    assert CybersecurityTopics[0] in CybersecurityTopics;
    t :| t in CybersecurityTopics;
  }
}
