/**
 * The browser's quiz page: the `quizState` object and the answer lock kept
 * by `displayQuestion`, `selectOption` and `submitAnswer`, the marking of
 * the option buttons once the answer is known, and `formatTime`.
 */
module QuizPage {
  import opened Wrappers
  import opened Text
  import opened Adaptive
  import opened QuizSchema

  /** The fields of `quizState` the page reassigns (the start time is left out). */
  datatype PageState = PageState(
    sessionId: Option<string>,
    topic: Option<string>,
    totalQuestions: int,
    currentQuestion: Option<QuizQuestion>,
    selectedOption: Option<int>,
    answered: bool,
    score: int,
    streak: int,
    difficulty: Tenths)

  /** The initial `quizState`: nothing selected, not answered, difficulty 1.0. */
  const Initial := PageState(None, None, 0, None, None, false, 0, 0, 10)

  /** `!quizState.selectedOption || quizState.answered` is false: an option other than 0 is chosen and not yet sent. */
  predicate CanSubmit(s: PageState)
  {
    s.selectedOption.Some? && s.selectedOption.value != 0 && !s.answered
  }

  /** `initializeQuiz` after a successful start: the session's id, topic, size and difficulty. */
  function Started(s: PageState, start: QuizSessionStart): PageState
  {
    s.(sessionId := Some(start.sessionId), topic := Some(start.topic), totalQuestions := start.totalQuestions,
       difficulty := start.difficultyLevel)
  }

  /** `displayQuestion`: the new question, nothing selected, not answered. */
  function Display(s: PageState, q: QuizQuestion): PageState
  {
    s.(currentQuestion := Some(q), selectedOption := None, answered := false)
  }

  /** `selectOption`: ignored once answered, otherwise the choice. */
  function Select(s: PageState, optionId: int): PageState
  {
    if s.answered then s else s.(selectedOption := Some(optionId))
  }

  /** What `submitAnswer` posts, if anything. */
  function Request(s: PageState): (req: Option<QuizAnswerSubmit>)
    ensures req.Some? <==> CanSubmit(s) && s.currentQuestion.Some?
    ensures req.Some? ==> req.value == QuizAnswerSubmit(s.currentQuestion.value.questionId, s.selectedOption.value)
  {
    if !CanSubmit(s) || s.currentQuestion.None? then None
    else Some(QuizAnswerSubmit(s.currentQuestion.value.questionId, s.selectedOption.value))
  }

  /**
   * `submitAnswer` given the server's reply to the request (if one was
   * sent): a reply copies score, streak and difficulty and locks the
   * question; no request or a failed one changes nothing.
   */
  function Submitted(s: PageState, reply: Result<QuizAnswerResult, ()>): PageState
  {
    if Request(s).None? || reply.Failure? then s
    else s.(score := reply.value.currentScore, streak := reply.value.currentStreak,
            difficulty := reply.value.newDifficulty, answered := true)
  }

  /** What the page does two seconds after a reply. */
  datatype FollowUp = CompleteQuiz | ShowNext(question: QuizQuestion) | Stay

  function FollowUpOf(r: QuizAnswerResult): (f: FollowUp)
    ensures f == CompleteQuiz <==> r.quizComplete
    ensures f.ShowNext? <==> !r.quizComplete && r.nextQuestion.Some?
    ensures f.ShowNext? ==> f.question == r.nextQuestion.value
  {
    if r.quizComplete then CompleteQuiz
    else if r.nextQuestion.Some? then ShowNext(r.nextQuestion.value)
    else Stay
  }

  /** Nothing is sent and nothing changes without a fresh choice; a sent and answered request locks the question with the server's figures. */
  lemma SubmitCases(s: PageState, reply: Result<QuizAnswerResult, ()>)
    ensures !CanSubmit(s) ==> Request(s) == None && Submitted(s, reply) == s
    ensures Request(s).Some? && reply.Success? ==>
      var t := Submitted(s, reply);
      t.answered && !CanSubmit(t)
      && t.score == reply.value.currentScore && t.streak == reply.value.currentStreak
      && t.difficulty == reply.value.newDifficulty
      && t.currentQuestion == s.currentQuestion && t.selectedOption == s.selectedOption
      && t.sessionId == s.sessionId && t.totalQuestions == s.totalQuestions
    ensures reply.Failure? ==> Submitted(s, reply) == s
  {
  }

  /**
   * Once answered, choosing and submitting again change nothing until the
   * next question is shown. `answered` is set by the reply, not by the click.
   */
  lemma AnswerLock(s: PageState, optionId: int, reply: Result<QuizAnswerResult, ()>)
    requires s.answered
    ensures Select(s, optionId) == s
    ensures Request(s) == None && Submitted(s, reply) == s
  {
  }

  /** A shown question is unlocked but cannot be submitted until an option is chosen. */
  lemma DisplayUnlocks(s: PageState, q: QuizQuestion, optionId: int)
    ensures var t := Display(s, q);
      !t.answered && !CanSubmit(t) && Request(t) == None
      && Select(t, optionId).selectedOption == Some(optionId)
      && (optionId != 0 ==> Request(Select(t, optionId)) == Some(QuizAnswerSubmit(q.questionId, optionId)))
  {
  }

  /** The page's events: a click on an option, a submission with the server's reply, a new question. */
  datatype Event = Choose(optionId: int) | Submit(reply: Result<QuizAnswerResult, ()>) | Show(question: QuizQuestion)

  function Step(s: PageState, e: Event): PageState
  {
    match e
    case Choose(id) => Select(s, id)
    case Submit(reply) => Submitted(s, reply)
    case Show(q) => Display(s, q)
  }

  /** Whether the event is a submission the server answered. */
  predicate Accepted(s: PageState, e: Event)
  {
    e.Submit? && Request(s).Some? && e.reply.Success?
  }

  function Run(s: PageState, es: seq<Event>): PageState
    decreases es
  {
    if es == [] then s else Run(Step(s, es[0]), es[1..])
  }

  /** The number of answered submissions in a run of events. */
  function AcceptedCount(s: PageState, es: seq<Event>): nat
    decreases es
  {
    if es == [] then 0 else (if Accepted(s, es[0]) then 1 else 0) + AcceptedCount(Step(s, es[0]), es[1..])
  }

  predicate NoShow(es: seq<Event>)
  {
    forall i :: 0 <= i < |es| ==> !es[i].Show?
  }

  /**
   * In the one-step machine, where a submission and its reply are a single
   * event, at most one answer is accepted between two shown questions, and
   * none once the question is answered. The page itself sets `answered`
   * only when the reply arrives; `InFlight` below has the two steps apart.
   */
  lemma {:induction false} OneAnswerPerQuestion(s: PageState, es: seq<Event>)
    requires NoShow(es)
    ensures AcceptedCount(s, es) <= (if s.answered then 0 else 1)
    ensures s.answered ==> Run(s, es) == s
    decreases es
  {
    if es != [] {
      var t := Step(s, es[0]);
      assert NoShow(es[1..]) by {
        forall i | 0 <= i < |es[1..]|
          ensures !es[1..][i].Show?
        {
          assert es[1..][i] == es[i + 1];
        }
      }
      OneAnswerPerQuestion(t, es[1..]);
      if Accepted(s, es[0]) {
        assert t.answered;
      } else {
        assert t.answered == s.answered || t.answered;
      }
      if s.answered {
        assert !es[0].Show?;
        assert t == s;
      }
    }
  }

  // ---------------------------------------------------------------------
  // Submission and reply as two steps: `submitAnswer` posts when the button
  // is clicked, and applies the reply only after `await` returns.

  /**
   * The page's events with the request and its reply apart: a click on the
   * submit button posts what `Request` gives, and a reply, when it arrives,
   * is applied whatever the state is then.
   */
  datatype Action = Pick(optionId: int) | Click | Arrive(reply: Result<QuizAnswerResult, ()>) | Present(question: QuizQuestion)

  /** The state after an action. A click changes nothing: nothing is reassigned before `await` returns. */
  function Act(s: PageState, a: Action): PageState
  {
    match a
    case Pick(id) => Select(s, id)
    case Click => s
    case Arrive(reply) =>
      if reply.Failure? then s
      else s.(score := reply.value.currentScore, streak := reply.value.currentStreak,
              difficulty := reply.value.newDifficulty, answered := true)
    case Present(q) => Display(s, q)
  }

  /** The answers the page posts along a run of actions, in order. */
  function Posts(s: PageState, acts: seq<Action>): seq<QuizAnswerSubmit>
    decreases acts
  {
    if acts == [] then []
    else
      (if acts[0].Click? && Request(s).Some? then [Request(s).value] else [])
      + Posts(Act(s, acts[0]), acts[1..])
  }

  /** A click followed by its reply is the one-step submission. */
  lemma ClickThenArrive(s: PageState, reply: Result<QuizAnswerResult, ()>)
    requires Request(s).Some?
    ensures Act(Act(s, Click), Arrive(reply)) == Submitted(s, reply)
    ensures Posts(s, [Click, Arrive(reply)]) == [Request(s).value]
  {
    var t := Act(s, Arrive(reply));
    assert Posts(s, [Arrive(reply)]) == [] + Posts(t, []);
    assert [Click, Arrive(reply)][1..] == [Arrive(reply)];
    assert Posts(s, [Click, Arrive(reply)]) == [Request(s).value] + Posts(s, [Arrive(reply)]);
  }

  /**
   * Two clicks before the reply post the same answer twice: nothing locks
   * the question while the first request is in flight.
   */
  lemma InFlight(s: PageState, reply: Result<QuizAnswerResult, ()>)
    requires CanSubmit(s) && s.currentQuestion.Some?
    ensures var req := QuizAnswerSubmit(s.currentQuestion.value.questionId, s.selectedOption.value);
      Posts(s, [Click, Click, Arrive(reply)]) == [req, req]
  {
    var acts := [Click, Click, Arrive(reply)];
    ClickThenArrive(s, reply);
    assert acts[1..] == [Click, Arrive(reply)];
    assert Posts(s, acts) == [Request(s).value] + Posts(s, [Click, Arrive(reply)]);
  }

  predicate NoPresent(acts: seq<Action>)
  {
    forall i :: 0 <= i < |acts| ==> !acts[i].Present?
  }

  /**
   * What the page does guarantee: once a reply has been applied, nothing is
   * posted and the question stays answered until the next one is shown.
   */
  lemma {:induction false} NoPostAfterReply(s: PageState, acts: seq<Action>)
    requires s.answered && NoPresent(acts)
    ensures Posts(s, acts) == []
    decreases acts
  {
    if acts != [] {
      var t := Act(s, acts[0]);
      assert !acts[0].Present?;
      assert t.answered;
      assert NoPresent(acts[1..]) by {
        forall i | 0 <= i < |acts[1..]|
          ensures !acts[1..][i].Present?
        {
          assert acts[1..][i] == acts[i + 1];
        }
      }
      NoPostAfterReply(t, acts[1..]);
    }
  }

  /** An option button's classes. */
  datatype Button = Button(selected: bool, correct: bool, incorrect: bool, disabled: bool)

  const FreshButton := Button(false, false, false, false)

  /** `showCorrectAnswer` on the button at `index`: correct if it holds the right option, incorrect if it was chosen and wrong. */
  function Mark(b: Button, index: int, correctOptionId: int): Button
  {
    if index + 1 == correctOptionId then b.(correct := true)
    else if b.selected && index + 1 != correctOptionId then b.(incorrect := true)
    else b
  }

  /**
   * On unmarked buttons of which only the `chosen` one is selected, exactly
   * the button of the right option is marked correct and the chosen one is
   * marked incorrect exactly when it is not that button.
   */
  lemma MarkingRule(bs: seq<Button>, chosen: int, correctOptionId: int)
    requires forall i :: 0 <= i < |bs| ==> !bs[i].correct && !bs[i].incorrect && (bs[i].selected <==> i == chosen)
    ensures forall i :: 0 <= i < |bs| ==>
      (Mark(bs[i], i, correctOptionId).correct <==> i + 1 == correctOptionId)
      && (Mark(bs[i], i, correctOptionId).incorrect <==> i == chosen && chosen + 1 != correctOptionId)
  {
  }

  /** `showCorrectAnswer`: every button marked by the rule. */
  method ShowCorrectAnswer(buttons: array<Button>, correctOptionId: int)
    modifies buttons
    ensures forall i :: 0 <= i < buttons.Length ==> buttons[i] == Mark(old(buttons[i]), i, correctOptionId)
  {
    var i := 0;
    while i < buttons.Length
      invariant 0 <= i <= buttons.Length
      invariant forall j :: 0 <= j < i ==> buttons[j] == Mark(old(buttons[j]), j, correctOptionId)
      invariant forall j :: i <= j < buttons.Length ==> buttons[j] == old(buttons[j])
    {
      buttons[i] := Mark(buttons[i], i, correctOptionId);
      i := i + 1;
    }
  }

  /** Disabling every option button after a reply. */
  method DisableButtons(buttons: array<Button>)
    modifies buttons
    ensures forall i :: 0 <= i < buttons.Length ==> buttons[i] == old(buttons[i]).(disabled := true)
  {
    var i := 0;
    while i < buttons.Length
      invariant 0 <= i <= buttons.Length
      invariant forall j :: 0 <= j < i ==> buttons[j] == old(buttons[j]).(disabled := true)
      invariant forall j :: i <= j < buttons.Length ==> buttons[j] == old(buttons[j])
    {
      buttons[i] := buttons[i].(disabled := true);
      i := i + 1;
    }
  }

  /** Only the button at `index` keeps the `selected` class. */
  method SelectButton(buttons: array<Button>, index: int)
    modifies buttons
    ensures forall i :: 0 <= i < buttons.Length ==> buttons[i] == old(buttons[i]).(selected := i == index)
  {
    var i := 0;
    while i < buttons.Length
      invariant 0 <= i <= buttons.Length
      invariant forall j :: 0 <= j < i ==> buttons[j] == old(buttons[j]).(selected := j == index)
      invariant forall j :: i <= j < buttons.Length ==> buttons[j] == old(buttons[j])
    {
      buttons[i] := buttons[i].(selected := i == index);
      i := i + 1;
    }
  }

  /** The page's `quizState` object; each handler moves it as the matching function says. */
  class QuizState {
    var sessionId: Option<string>
    var topic: Option<string>
    var totalQuestions: int
    var currentQuestion: Option<QuizQuestion>
    var selectedOption: Option<int>
    var answered: bool
    var score: int
    var streak: int
    var difficulty: Tenths

    function Snapshot(): PageState
      reads this
    {
      PageState(sessionId, topic, totalQuestions, currentQuestion, selectedOption, answered, score, streak, difficulty)
    }

    constructor ()
      ensures Snapshot() == Initial
    {
      sessionId := None;
      topic := None;
      totalQuestions := 0;
      currentQuestion := None;
      selectedOption := None;
      answered := false;
      score := 0;
      streak := 0;
      difficulty := 10;
    }

    /** `initializeQuiz` after the start reply: record the session, then show its first question. */
    method Begin(start: QuizSessionStart) returns (buttons: array<Button>)
      modifies this
      ensures Snapshot() == Display(Started(old(Snapshot()), start), start.firstQuestion)
      ensures fresh(buttons) && buttons.Length == |start.firstQuestion.options|
      ensures forall i :: 0 <= i < buttons.Length ==> buttons[i] == FreshButton
    {
      sessionId := Some(start.sessionId);
      topic := Some(start.topic);
      totalQuestions := start.totalQuestions;
      difficulty := start.difficultyLevel;
      buttons := DisplayQuestion(start.firstQuestion);
    }

    /** `displayQuestion`: one unmarked button per option. */
    method DisplayQuestion(q: QuizQuestion) returns (buttons: array<Button>)
      modifies this
      ensures Snapshot() == Display(old(Snapshot()), q)
      ensures fresh(buttons) && buttons.Length == |q.options|
      ensures forall i :: 0 <= i < buttons.Length ==> buttons[i] == FreshButton
    {
      currentQuestion := Some(q);
      selectedOption := None;
      answered := false;
      buttons := new Button[|q.options|](_ => FreshButton);
    }

    /** `selectOption`: once answered nothing changes; otherwise only the clicked button is selected. */
    method SelectOption(optionId: int, index: int, buttons: array<Button>)
      modifies this, buttons
      ensures Snapshot() == Select(old(Snapshot()), optionId)
      ensures old(answered) ==> forall i :: 0 <= i < buttons.Length ==> buttons[i] == old(buttons[i])
      ensures !old(answered) ==>
        forall i :: 0 <= i < buttons.Length ==> buttons[i] == old(buttons[i]).(selected := i == index)
    {
      if answered {
        return;
      }
      SelectButton(buttons, index);
      selectedOption := Some(optionId);
    }

    /**
     * `submitAnswer`. `reply` is the server's answer to the request, if one
     * is sent. After a reply the buttons are disabled and marked, and the
     * follow-up is returned; otherwise nothing changes.
     */
    method SubmitAnswer(buttons: array<Button>, reply: Result<QuizAnswerResult, ()>)
      returns (sent: Option<QuizAnswerSubmit>, follow: FollowUp)
      modifies this, buttons
      ensures sent == Request(old(Snapshot()))
      ensures Snapshot() == Submitted(old(Snapshot()), reply)
      ensures sent.None? || reply.Failure? ==>
        follow == Stay && forall i :: 0 <= i < buttons.Length ==> buttons[i] == old(buttons[i])
      ensures sent.Some? && reply.Success? ==>
        follow == FollowUpOf(reply.value)
        && forall i :: 0 <= i < buttons.Length ==>
             buttons[i] == Mark(old(buttons[i]).(disabled := true), i, reply.value.correctOptionId)
    {
      sent := Request(Snapshot());
      follow := Stay;
      if sent.None? || reply.Failure? {
        return;
      }
      var r := reply.value;
      score := r.currentScore;
      streak := r.currentStreak;
      difficulty := r.newDifficulty;
      answered := true;
      DisableButtons(buttons);
      ShowCorrectAnswer(buttons, r.correctOptionId);
      follow := FollowUpOf(r);
    }
  }

  /** `formatTime`'s parts: minutes by `Math.floor`, seconds by JavaScript's `%`, whose sign follows the dividend. */
  function TimeParts(seconds: int): (p: (int, int))
    ensures seconds >= 0 ==> 60 * p.0 + p.1 == seconds && 0 <= p.1 < 60
  {
    (seconds / 60, if seconds >= 0 then seconds % 60 else -((-seconds) % 60))
  }

  /** `formatTime`: "<minutes>m <seconds>s". */
  function FormatTime(seconds: int): string
  {
    IntToString(TimeParts(seconds).0) + "m " + IntToString(TimeParts(seconds).1) + "s"
  }

  /** For a negative duration the parts do not add up: -30 seconds shows as -1 minute and -30 seconds. */
  lemma NegativeTimeParts()
    ensures TimeParts(-30) == (-1, -30)
    ensures 60 * TimeParts(-30).0 + TimeParts(-30).1 != -30
  {
  }

  /** A non-negative duration can be read back from its parts: different durations show different parts. */
  lemma TimePartsInjective(a: int, b: int)
    requires 0 <= a && 0 <= b && TimeParts(a) == TimeParts(b)
    ensures a == b
  {
  }
}
