/**
 * The browser's analytics page: what `loadAnalytics` shows for the
 * performance summary, the chart's correct and incorrect counts, and
 * `formatTopicName`.
 */
module AnalyticsView {
  import opened Wrappers
  import opened Text
  import Scoring
  import Helpers

  /** JavaScript's `s.split(' ')`: always at least one piece, empty pieces kept. */
  function SplitSpaces(s: string): (ws: seq<string>)
    ensures |ws| >= 1
  {
    if s == [] then [[]]
    else
      var rest := SplitSpaces(s[1..]);
      if s[0] == ' ' then [[]] + rest else [[s[0]] + rest[0]] + rest[1..]
  }

  /** `word.charAt(0).toUpperCase() + word.slice(1)`. */
  function Capitalize(w: string): (r: string)
    ensures |r| == |w| && (w != [] ==> r[0] == Upper(w[0]) && r[1..] == w[1..])
  {
    if w == [] then [] else [Upper(w[0])] + w[1..]
  }

  function CapitalizeAll(ws: seq<string>): (rs: seq<string>)
    ensures |rs| == |ws| && forall i :: 0 <= i < |ws| ==> rs[i] == Capitalize(ws[i])
  {
    if ws == [] then [] else [Capitalize(ws[0])] + CapitalizeAll(ws[1..])
  }

  /** `ws.join(' ')`. */
  function JoinSpaces(ws: seq<string>): string
    requires |ws| >= 1
  {
    if |ws| == 1 then ws[0] else ws[0] + " " + JoinSpaces(ws[1..])
  }

  /** `formatTopicName`: underscores to spaces, split on spaces, capitalise each piece, join with spaces. */
  function FormatTopicName(topic: string): string
  {
    JoinSpaces(CapitalizeAll(SplitSpaces(ReplaceChar(topic, '_', ' '))))
  }

  /**
   * A character-by-character reference: a character is uppercased exactly
   * when it starts the text (and `atStart` holds) or follows a space.
   */
  function CapitalizeAfterSpaces(t: string, atStart: bool): (r: string)
    ensures |r| == |t|
    ensures forall i :: 0 <= i < |t| ==>
      r[i] == (if (if i == 0 then atStart else t[i - 1] == ' ') then Upper(t[i]) else t[i])
  {
    if t == [] then [] else [if atStart then Upper(t[0]) else t[0]] + CapitalizeAfterSpaces(t[1..], t[0] == ' ')
  }

  lemma JoinHead(a: string, w: string, ws: seq<string>)
    ensures JoinSpaces([a + w] + ws) == a + JoinSpaces([w] + ws)
  {
    if ws != [] {
      assert ([a + w] + ws)[1..] == ws;
      assert ([w] + ws)[1..] == ws;
    }
  }

  /**
   * Splitting, capitalising and joining again is the character-by-character
   * rule; without the start flag the first piece is left as it is.
   */
  lemma {:induction false} SplitCapitalizeJoin(t: string)
    ensures var ws := SplitSpaces(t);
      CapitalizeAfterSpaces(t, true) == JoinSpaces(CapitalizeAll(ws))
      && CapitalizeAfterSpaces(t, false) == JoinSpaces([ws[0]] + CapitalizeAll(ws[1..]))
  {
    var ws := SplitSpaces(t);
    if t == [] {
    } else {
      var rest := SplitSpaces(t[1..]);
      SplitCapitalizeJoin(t[1..]);
      if t[0] == ' ' {
        assert ws == [[]] + rest;
        assert CapitalizeAll(ws) == [[]] + CapitalizeAll(rest);
        assert ws[1..] == rest;
        assert ([ws[0]] + CapitalizeAll(ws[1..]))[1..] == CapitalizeAll(rest);
      } else {
        var c := t[0];
        assert ws == [[c] + rest[0]] + rest[1..];
        assert ws[1..] == rest[1..];
        assert CapitalizeAll(ws) == [[Upper(c)] + rest[0]] + CapitalizeAll(rest[1..]);
        JoinHead([Upper(c)], rest[0], CapitalizeAll(rest[1..]));
        JoinHead([c], rest[0], CapitalizeAll(rest[1..]));
      }
    }
  }

  /**
   * The formatted name has the slug's length and no underscore; each
   * character is the slug's (an underscore read as a space), uppercased
   * exactly at the start and after a space or underscore.
   */
  lemma FormatTopicNameShape(topic: string)
    ensures var r := FormatTopicName(topic);
      var s := ReplaceChar(topic, '_', ' ');
      |r| == |topic|
      && (forall i :: 0 <= i < |r| ==> r[i] != '_')
      && (forall i :: 0 <= i < |r| ==>
            r[i] == (if i == 0 || topic[i - 1] == ' ' || topic[i - 1] == '_' then Upper(s[i]) else s[i]))
  {
    var s := ReplaceChar(topic, '_', ' ');
    SplitCapitalizeJoin(s);
    var r := FormatTopicName(topic);
    assert r == CapitalizeAfterSpaces(s, true);
    forall i | 0 <= i < |r|
      ensures r[i] != '_'
    {
      assert r[i] == (if i == 0 || s[i - 1] == ' ' then Upper(s[i]) else s[i]);
      assert s[i] != '_' && Upper(s[i]) != '_';
    }
  }

  /** A topic slug: lowercase letters and underscores. */
  predicate IsSlug(topic: string)
  {
    forall i :: 0 <= i < |topic| ==> IsLower(topic[i]) || topic[i] == '_'
  }

  /** On slugs the browser's name and the backend's display name agree. */
  lemma FormatAgreesWithDisplayName(topic: string)
    requires IsSlug(topic)
    ensures FormatTopicName(topic) == Helpers.TopicDisplayName(topic)
  {
    var s := ReplaceChar(topic, '_', ' ');
    var a := FormatTopicName(topic);
    var b := Helpers.TopicDisplayName(topic);
    FormatTopicNameShape(topic);
    assert b == Helpers.TitleFrom(s, false);
    forall i | 0 <= i < |topic|
      ensures a[i] == b[i]
    {
      assert b[i] == Helpers.TitleChar(if i == 0 then false else IsLetter(s[i - 1]), s[i]);
      if i > 0 {
        assert IsLetter(s[i - 1]) <==> !(topic[i - 1] == ' ' || topic[i - 1] == '_');
      }
    }
  }

  /** Off slugs they differ: `title()` restarts a word after a digit, the browser only after a space. */
  lemma FormatDiffersAfterDigit()
    ensures FormatTopicName("a1b") == "A1b"
    ensures Helpers.TopicDisplayName("a1b") == "A1B"
  {
    FormatTopicNameShape("a1b");
    var s := ReplaceChar("a1b", '_', ' ');
    assert s == "a1b";
    var b := Helpers.TopicDisplayName("a1b");
    assert b == Helpers.TitleFrom(s, false);
    assert b[0] == 'A' && b[1] == '1' && b[2] == 'B';
  }

  /** `Math.round`: halves go up. */
  function RoundHalfUp(x: real): (n: int)
    ensures n as real <= x + 0.5 < n as real + 1.0
  {
    (x + 0.5).Floor
  }

  datatype Chart = Chart(totalQuestions: int, accuracy: real, averageDifficulty: real, correctCount: int, incorrectCount: int)

  /** `displayPerformanceChart`: the counts are the accuracy's share of the total, rounded, and the rest. */
  function ChartOf(p: Scoring.Performance): (c: Chart)
    ensures c.correctCount + c.incorrectCount == p.totalQuestions
    ensures c.correctCount as real <= p.totalQuestions as real * p.accuracy / 100.0 + 0.5 < c.correctCount as real + 1.0
  {
    var correct := RoundHalfUp(p.totalQuestions as real * p.accuracy / 100.0);
    Chart(p.totalQuestions, p.accuracy, p.averageDifficulty, correct, p.totalQuestions - correct)
  }

  /** With an exact accuracy the rounded count is the number of correct answers. */
  lemma ChartRecoversCounts(correct: nat, total: nat)
    requires 0 < total && correct <= total
    ensures RoundHalfUp(total as real * Scoring.Percent(correct, total) / 100.0) == correct
  {
    Scoring.PercentMeaning(correct, total);
    assert total as real * Scoring.Percent(correct, total) / 100.0 == correct as real;
  }

  datatype Breakdown = Breakdown(strongest: seq<string>, weakest: seq<string>)

  /** `displayTopicBreakdown`: nothing without strongest topics, else both lists with formatted names. */
  function BreakdownOf(p: Scoring.Performance): (b: Option<Breakdown>)
    ensures b.None? <==> p.strongestTopics == []
    ensures b.Some? ==> |b.value.strongest| == |p.strongestTopics| && |b.value.weakest| == |p.weakestTopics|
  {
    if p.strongestTopics == [] then None
    else Some(Breakdown(FormatAll(p.strongestTopics), FormatAll(p.weakestTopics)))
  }

  function FormatAll(ts: seq<string>): (rs: seq<string>)
    ensures |rs| == |ts| && forall i :: 0 <= i < |ts| ==> rs[i] == FormatTopicName(ts[i])
  {
    if ts == [] then [] else [FormatTopicName(ts[0])] + FormatAll(ts[1..])
  }

  datatype Page = ErrorMessage | NoDataMessage | Rendered(chart: Chart, breakdown: Option<Breakdown>)

  /**
   * `loadAnalytics`: a failed request shows the error message, a summary
   * with no questions the no-data message, anything else the chart and the
   * breakdown.
   */
  function LoadAnalytics(fetched: Result<Scoring.Performance, ()>): (page: Page)
    ensures fetched.Failure? <==> page == ErrorMessage
    ensures page == NoDataMessage <==> fetched.Success? && fetched.value.totalQuestions == 0
    ensures page.Rendered? ==> page.chart.totalQuestions == fetched.value.totalQuestions > 0
  {
    match fetched
    case Failure(_) => ErrorMessage
    case Success(p) =>
      if p.totalQuestions == 0 then NoDataMessage else Rendered(ChartOf(p), BreakdownOf(p))
  }

  /** A summary with questions shows the chart with the exact counts and, given strongest topics, the breakdown. */
  lemma RenderedSummary(p: Scoring.Performance, correct: nat)
    requires 0 < p.totalQuestions && correct <= p.totalQuestions
    requires p.accuracy == Scoring.Percent(correct, p.totalQuestions)
    requires p.strongestTopics != []
    ensures var page := LoadAnalytics(Success(p));
      page.Rendered? && page.chart.correctCount == correct
      && page.chart.incorrectCount == p.totalQuestions - correct
      && page.breakdown == Some(Breakdown(FormatAll(p.strongestTopics), FormatAll(p.weakestTopics)))
  {
    ChartRecoversCounts(correct, p.totalQuestions);
  }

  /**
   * For the backend's own summary: no records show the no-data message;
   * otherwise the chart counts are exactly the correct and incorrect
   * answers and the breakdown is shown.
   */
  lemma AnalyticsOfRecords(rs: seq<Scoring.AnswerRecord>)
    ensures rs == [] <==> LoadAnalytics(Success(Scoring.Analysis(rs))) == NoDataMessage
    ensures rs != [] ==>
      var p := Scoring.Analysis(rs);
      var page := LoadAnalytics(Success(p));
      page.Rendered? && page.chart.correctCount == Scoring.CountCorrect(rs)
      && page.chart.incorrectCount == |rs| - Scoring.CountCorrect(rs)
      && page.breakdown == Some(Breakdown(FormatAll(p.strongestTopics), FormatAll(p.weakestTopics)))
  {
    var p := Scoring.Analysis(rs);
    if rs != [] {
      Scoring.AnalysisTotals(rs);
      Scoring.StrongestWeakestShape(rs);
      RenderedSummary(p, Scoring.CountCorrect(rs));
    } else {
      assert p == Scoring.NoData;
    }
  }
}
