/**
 * The quiz session registry (`active_sessions`) and its three handlers:
 * start creates a session, answer validates and then updates one session in
 * place, complete summarises a session and deletes it. The database, the
 * learner row, the clock (seconds as a real), fresh session ids and the
 * language-model replies are parameters.
 */
module Quiz {
  import opened Wrappers
  import opened Adaptive
  import opened Http
  import opened QuizSchema
  import opened AiEngine
  import opened QuestionStore
  import opened Learner
  import opened Text
  import Scoring

  /** One active session. */
  datatype Session = Session(
    userId: int,
    topic: string,
    questions: seq<int>,
    currentIndex: int,
    startTime: real,
    answers: seq<AnswerEntry>,
    scores: int)

  const PointsPerCorrect := 10

  /** Ten points for a correct answer, none otherwise. */
  function Points(isCorrect: bool): (p: int)
    ensures isCorrect ==> p == PointsPerCorrect
    ensures !isCorrect ==> p == 0
  {
    if isCorrect then PointsPerCorrect else 0
  }

  /** The session after one answer: score raised by the points, the answer appended, the cursor advanced. */
  function AfterAnswer(s: Session, questionId: int, selected: int, isCorrect: bool): Session
  {
    s.(scores := s.scores + Points(isCorrect),
       answers := s.answers + [AnswerEntry(questionId, selected, isCorrect, Points(isCorrect))],
       currentIndex := s.currentIndex + 1)
  }

  function CorrectEntries(answers: seq<AnswerEntry>): (n: nat)
    ensures n <= |answers|
  {
    if answers == [] then 0
    else CorrectEntries(answers[..|answers| - 1]) + (if answers[|answers| - 1].isCorrect then 1 else 0)
  }

  /** What every session keeps: the cursor counts the answers and the score is ten per correct answer. */
  predicate SessionInvariant(s: Session)
  {
    s.currentIndex == |s.answers|
    && s.scores == PointsPerCorrect * CorrectEntries(s.answers)
    && (forall i :: 0 <= i < |s.answers| ==> s.answers[i].points == Points(s.answers[i].isCorrect))
  }

  /** A new session satisfies the invariant. */
  lemma NewSessionInvariant(userId: int, topic: string, questions: seq<int>, now: real)
    ensures SessionInvariant(Session(userId, topic, questions, 0, now, [], 0))
  {
  }

  /** Each answer keeps the invariant, and moves the cursor and the score by exactly one answer's worth. */
  lemma AfterAnswerInvariant(s: Session, questionId: int, selected: int, isCorrect: bool)
    requires SessionInvariant(s)
    ensures var t := AfterAnswer(s, questionId, selected, isCorrect);
      SessionInvariant(t)
      && t.currentIndex == s.currentIndex + 1
      && t.scores == s.scores + Points(isCorrect)
      && CorrectEntries(t.answers) == CorrectEntries(s.answers) + (if isCorrect then 1 else 0)
      && t.answers[..|s.answers|] == s.answers
  {
    var t := AfterAnswer(s, questionId, selected, isCorrect);
    assert t.answers[..|t.answers| - 1] == s.answers;
  }

  /** `quiz_complete`: the cursor has reached the end of the question list. */
  predicate IsComplete(s: Session)
  {
    s.currentIndex >= |s.questions|
  }

  /** A complete session stays complete: answers after the end are accepted and change nothing about that. */
  lemma CompleteStaysComplete(s: Session, questionId: int, selected: int, isCorrect: bool)
    requires IsComplete(s)
    ensures IsComplete(AfterAnswer(s, questionId, selected, isCorrect))
  {
  }

  /** Python's `int(x)` on a float: truncation toward zero. */
  function TruncateToInt(x: real): (r: int)
    ensures 0.0 <= x ==> r as real <= x < r as real + 1.0
    ensures x < 0.0 ==> r as real - 1.0 < x <= r as real
  {
    if x >= 0.0 then x.Floor else -((-x).Floor)
  }

  /** The score percentage: 100 * correct / answers, or 0 without answers. */
  function ScorePercentage(answers: seq<AnswerEntry>): real
  {
    if answers == [] then 0.0 else Scoring.Percent(CorrectEntries(answers), |answers|)
  }

  /** The final report, as `complete_quiz` assembles it. */
  function Summary(sessionId: string, s: Session, finalDifficulty: Tenths, now: real): QuizSessionComplete
  {
    var correct := CorrectEntries(s.answers);
    QuizSessionComplete(sessionId, s.topic, |s.answers|, correct, |s.answers| - correct,
                        ScorePercentage(s.answers), TruncateToInt(now - s.startTime), finalDifficulty, s.answers)
  }

  /**
   * The report counts every answer once as correct or incorrect, its
   * percentage is a percentage of the answers, and with the session
   * invariant it is the running score expressed per answer.
   */
  lemma SummaryMeaning(sessionId: string, s: Session, finalDifficulty: Tenths, now: real)
    requires SessionInvariant(s)
    ensures var c := Summary(sessionId, s, finalDifficulty, now);
      c.correctAnswers + c.incorrectAnswers == c.totalQuestions == |s.answers|
      && 0 <= c.incorrectAnswers
      && c.correctAnswers * PointsPerCorrect == s.scores
      && (s.answers == [] ==> c.scorePercentage == 0.0)
      && (s.answers != [] ==> c.scorePercentage == Scoring.Percent(c.correctAnswers, |s.answers|))
      && 0.0 <= c.scorePercentage <= 100.0
      && c.questionsData == s.answers
  {
    if s.answers != [] {
      Scoring.PercentMeaning(CorrectEntries(s.answers), |s.answers|);
    }
  }

  /** The questions the store returns for a start request: at most the requested number. */
  function Fetched(candidates: seq<int>, n: nat): (f: seq<int>)
    ensures |f| <= n && |f| <= |candidates| && f == candidates[..|f|]
    ensures |f| < n ==> f == candidates
  {
    if |candidates| <= n then candidates else candidates[..n]
  }

  /** The question row a generated multiple-choice question is saved as. */
  function McqRow(id: int, userId: int, topic: string, difficulty: Tenths, q: Mcq): Question
  {
    Question(id, userId, topic, difficulty, q.question, q.answer, q.explanation, Some(q.options), Some(q.correctOptionId))
  }

  /** A stored question as sent to the browser; a question without options cannot be formatted (500). */
  function Format(q: Question, topic: string, difficulty: Tenths, number: int, total: int): (r: Result<QuizQuestion, HttpError>)
    ensures r.Failure? <==> q.options.None?
    ensures r.Failure? ==> r.error == InternalError
    ensures r.Success? ==>
      r.value.questionId == q.id && r.value.questionText == q.questionText
      && Some(r.value.options) == q.options && r.value.topic == topic && r.value.difficulty == difficulty
      && r.value.questionNumber == number && r.value.totalQuestions == Some(total)
  {
    match q.options
    case None => Failure(InternalError)
    case Some(opts) => Success(QuizQuestion(q.id, q.questionText, opts, topic, difficulty, number, Some(total)))
  }

  /** The reply to `start_quiz` once the session exists: the first question numbered 1 of n. */
  function StartReply(sessionId: string, topic: string, difficulty: Tenths, first: Question, n: int): Result<QuizSessionStart, HttpError>
  {
    match Format(first, topic, difficulty, 1, n)
    case Failure(e) => Failure(e)
    case Success(qq) => Success(QuizSessionStart(sessionId, topic, difficulty, qq, n))
  }

  /** The start reply reports the topic, the learner's difficulty and n, with the first question numbered 1. */
  lemma StartReplyMeaning(sessionId: string, topic: string, difficulty: Tenths, first: Question, n: int)
    ensures var r := StartReply(sessionId, topic, difficulty, first, n);
      (r.Failure? <==> first.options.None?)
      && (r.Success? ==>
            r.value.sessionId == sessionId && r.value.topic == topic && r.value.difficultyLevel == difficulty
            && r.value.totalQuestions == n && r.value.firstQuestion.questionId == first.id
            && r.value.firstQuestion.questionNumber == 1 && r.value.firstQuestion.totalQuestions == Some(n))
  {
  }

  /** The next question of a session after an answer: none when complete or when the id is gone from the store. */
  function NextQuestion(s: Session, store: map<int, Question>, difficulty: Tenths): Result<Option<QuizQuestion>, HttpError>
    requires 0 <= s.currentIndex
  {
    if IsComplete(s) then Success(None)
    else
      var id := s.questions[s.currentIndex];
      if id !in store then Success(None)
      else match Format(store[id], s.topic, difficulty, s.currentIndex + 1, |s.questions|)
        case Failure(e) => Failure(e)
        case Success(qq) => Success(Some(qq))
  }

  /** The reply to an accepted answer, formatted after the session has taken it. */
  function AnswerReply(q: Question, isCorrect: bool, s: Session, store: map<int, Question>, streak: int, difficulty: Tenths)
    : Result<QuizAnswerResult, HttpError>
    requires 0 <= s.currentIndex
  {
    match NextQuestion(s, store, difficulty)
    case Failure(e) => Failure(e)
    case Success(next) =>
      match q.correctOptionId
      case None => Failure(InternalError)
      case Some(cid) =>
        Success(QuizAnswerResult(q.id, isCorrect, cid, q.explanation, Points(isCorrect), s.scores, streak, difficulty,
                                 next, IsComplete(s)))
  }

  /**
   * The answer reply: complete exactly when the cursor is at or past the end;
   * a next question, numbered cursor + 1 of the total, only when not
   * complete; a 500 exactly for a question without a correct option id or a
   * next question without options.
   */
  lemma AnswerReplyMeaning(q: Question, isCorrect: bool, s: Session, store: map<int, Question>, streak: int,
                           difficulty: Tenths)
    requires 0 <= s.currentIndex
    ensures var r := AnswerReply(q, isCorrect, s, store, streak, difficulty);
      var hasNext := !IsComplete(s) && s.questions[s.currentIndex] in store;
      (r.Failure? <==> q.correctOptionId.None? || (hasNext && store[s.questions[s.currentIndex]].options.None?))
      && (r.Failure? ==> r.error == InternalError)
      && (r.Success? ==>
            r.value.quizComplete == (s.currentIndex >= |s.questions|)
            && Some(r.value.correctOptionId) == q.correctOptionId
            && r.value.pointsEarned == Points(isCorrect) && r.value.currentScore == s.scores
            && r.value.currentStreak == streak && r.value.newDifficulty == difficulty
            && (r.value.nextQuestion.Some? <==> hasNext)
            && (r.value.nextQuestion.Some? ==>
                  r.value.nextQuestion.value.questionId == store[s.questions[s.currentIndex]].id
                  && r.value.nextQuestion.value.questionNumber == s.currentIndex + 1
                  && r.value.nextQuestion.value.totalQuestions == Some(|s.questions|)))
  {
  }

  /**
   * The loop of `start_quiz` that generates the missing questions: each
   * one is generated at the learner's difficulty and saved, and its id is
   * appended.
   */
  method GenerateMissing(db: Database, user: User, topic: string, count: nat, hasClient: bool,
                         replies: nat -> CallOutcome<McqReply>)
    returns (ids: seq<int>)
    requires db.Valid()
    modifies db
    ensures db.Valid() && db.responses == old(db.responses)
    ensures |ids| == count
    ensures db.nextId == old(db.nextId) + |ids|
    ensures forall id :: id in old(db.questions) ==> id in db.questions && db.questions[id] == old(db.questions)[id]
    ensures forall j :: 0 <= j < |ids| ==>
      ids[j] == old(db.nextId) + j && ids[j] in db.questions
      && db.questions[ids[j]]
         == McqRow(ids[j], user.id, topic, user.currentDifficulty,
                   GenerateMcq(topic, user.currentDifficulty, hasClient, replies(j)))
  {
    ids := [];
    var k := 0;
    while k < count
      invariant 0 <= k <= count && |ids| == k
      invariant db.Valid() && db.nextId == old(db.nextId) + k
      invariant db.responses == old(db.responses)
      invariant forall id :: id in old(db.questions) ==> id in db.questions && db.questions[id] == old(db.questions)[id]
      invariant forall j :: 0 <= j < k ==>
        ids[j] == old(db.nextId) + j && ids[j] in db.questions
        && db.questions[ids[j]]
           == McqRow(ids[j], user.id, topic, user.currentDifficulty,
                     GenerateMcq(topic, user.currentDifficulty, hasClient, replies(j)))
    {
      var q := GenerateMcq(topic, user.currentDifficulty, hasClient, replies(k));
      var id := db.AddQuestion(user.id, topic, user.currentDifficulty, q.question, q.answer,
                               q.explanation, Some(q.options), Some(q.correctOptionId));
      ids := ids + [id];
      k := k + 1;
    }
  }

  class Registry {
    var sessions: map<string, Session>

    ghost predicate Valid()
      reads this
    {
      forall id :: id in sessions ==> SessionInvariant(sessions[id])
    }

    constructor ()
      ensures Valid() && sessions == map[]
    {
      sessions := map[];
    }

    /**
     * `start_quiz`. Take up to n stored questions of the topic (the store's
     * random order is `candidates`), generate and save the missing ones,
     * and register a session over exactly n question ids in that order.
     * The session is registered even when the first question cannot be
     * formatted (a chat question without options), which is a 500.
     */
    method Start(db: Database, user: User, request: QuizStartRequest, candidates: seq<int>, sessionId: string,
                 now: real, hasClient: bool, replies: nat -> CallOutcome<McqReply>)
      returns (r: Result<QuizSessionStart, HttpError>)
      requires Valid() && db.Valid()
      requires MinQuestionCount <= request.numberOfQuestions <= MaxQuestionCount
      requires forall id :: id in candidates ==> id in db.questions
      modifies this, db
      ensures Valid() && db.Valid()
      ensures db.responses == old(db.responses)
      ensures forall id :: id in old(db.questions) ==> id in db.questions && db.questions[id] == old(db.questions)[id]
      ensures sessionId in sessions && sessions == old(sessions)[sessionId := sessions[sessionId]]
      ensures var s := sessions[sessionId];
        s.userId == user.id && s.topic == request.topic && s.currentIndex == 0 && s.startTime == now
        && s.answers == [] && s.scores == 0
      ensures var s := sessions[sessionId];
        var f := Fetched(candidates, request.numberOfQuestions);
        |s.questions| == request.numberOfQuestions && s.questions[..|f|] == f
        && (forall j :: 0 <= j < |s.questions| ==> s.questions[j] in db.questions)
      ensures var s := sessions[sessionId];
        var f := Fetched(candidates, request.numberOfQuestions);
        forall j :: |f| <= j < |s.questions| ==>
          s.questions[j] == old(db.nextId) + (j - |f|)
          && db.questions[s.questions[j]]
             == McqRow(s.questions[j], user.id, request.topic, user.currentDifficulty,
                       GenerateMcq(request.topic, user.currentDifficulty, hasClient, replies(j - |f|)))
      ensures var s := sessions[sessionId];
        r == StartReply(sessionId, request.topic, user.currentDifficulty, db.questions[s.questions[0]], |s.questions|)
    {
      var n := request.numberOfQuestions;
      var fetched := Fetched(candidates, n);
      var generated := GenerateMissing(db, user, request.topic, n - |fetched|, hasClient, replies);
      var questions := fetched + generated;
      assert questions[..|fetched|] == fetched;
      forall j | 0 <= j < |questions|
        ensures questions[j] in db.questions
      {
        if j < |fetched| {
          assert questions[j] == candidates[j];
        } else {
          assert questions[j] == generated[j - |fetched|];
        }
      }
      NewSessionInvariant(user.id, request.topic, questions, now);
      sessions := sessions[sessionId := Session(user.id, request.topic, questions, 0, now, [], 0)];
      r := StartReply(sessionId, request.topic, user.currentDifficulty, db.questions[questions[0]], |questions|);
    }

    /**
     * `submit_quiz_answer`. Unknown session: 400; another user's session:
     * 403; unknown question: 404; in that order and with nothing changed.
     * Otherwise the learner moves by one transition, one response is saved,
     * the session takes the answer, and only then the reply is formatted.
     * The question id is not checked against the session, and answers after
     * the end are accepted.
     */
    method Submit(db: Database, user: User, sessionId: string, answer: QuizAnswerSubmit)
      returns (r: Result<QuizAnswerResult, HttpError>)
      requires Valid()
      modifies this, db, user
      ensures Valid()
      ensures db.questions == old(db.questions) && db.nextId == old(db.nextId)
      ensures sessionId !in old(sessions) ==> r == Failure(BadRequest)
      ensures sessionId in old(sessions) && old(sessions)[sessionId].userId != user.id ==> r == Failure(Forbidden)
      ensures sessionId in old(sessions) && old(sessions)[sessionId].userId == user.id && answer.questionId !in db.questions
        ==> r == Failure(NotFound)
      ensures (sessionId !in old(sessions) || old(sessions)[sessionId].userId != user.id || answer.questionId !in db.questions)
        ==> sessions == old(sessions) && db.responses == old(db.responses) && user.State() == old(user.State())
      ensures sessionId in old(sessions) && old(sessions)[sessionId].userId == user.id && answer.questionId in db.questions ==>
        var q := db.questions[answer.questionId];
        var isCorrect := q.correctOptionId == Some(answer.selectedOptionId);
        var s := AfterAnswer(old(sessions)[sessionId], q.id, answer.selectedOptionId, isCorrect);
        sessions == old(sessions)[sessionId := s]
        && user.State() == Transition(old(user.State()), isCorrect)
        && db.responses == old(db.responses)
           + [ResponseRecord(user.id, q.id, IntToString(answer.selectedOptionId), isCorrect, None,
                             if isCorrect then "Correct!" else "Incorrect!", old(user.currentDifficulty))]
        && 0 <= s.currentIndex
        && r == AnswerReply(q, isCorrect, s, db.questions, user.correctStreak, user.currentDifficulty)
    {
      if sessionId !in sessions {
        return Failure(BadRequest);
      }
      var session := sessions[sessionId];
      if session.userId != user.id {
        return Failure(Forbidden);
      }
      if answer.questionId !in db.questions {
        return Failure(NotFound);
      }
      var question := db.questions[answer.questionId];
      var isCorrect := question.correctOptionId == Some(answer.selectedOptionId);
      var newStreak := UpdateStreak(user.correctStreak, isCorrect);
      var newDifficulty := AdjustDifficulty(user.currentDifficulty, isCorrect, newStreak);
      var points := Points(isCorrect);
      db.AddResponse(ResponseRecord(user.id, question.id, IntToString(answer.selectedOptionId), isCorrect, None,
                                    if isCorrect then "Correct!" else "Incorrect!", user.currentDifficulty));
      user.Record(newStreak, newDifficulty, isCorrect);
      var updated := session.(scores := session.scores + points);
      updated := updated.(answers := updated.answers + [AnswerEntry(question.id, answer.selectedOptionId, isCorrect, points)]);
      updated := updated.(currentIndex := updated.currentIndex + 1);
      AfterAnswerInvariant(session, question.id, answer.selectedOptionId, isCorrect);
      sessions := sessions[sessionId := updated];
      r := AnswerReply(question, isCorrect, updated, db.questions, newStreak, newDifficulty);
    }

    /**
     * `complete_quiz`. Unknown session: 400; another user's session: 403;
     * nothing changed. Otherwise the summary is returned and the session is
     * deleted, so the same id is unknown afterwards.
     */
    method Complete(user: User, sessionId: string, now: real) returns (r: Result<QuizSessionComplete, HttpError>)
      requires Valid()
      modifies this
      ensures Valid()
      ensures sessionId !in old(sessions) ==> r == Failure(BadRequest) && sessions == old(sessions)
      ensures sessionId in old(sessions) && old(sessions)[sessionId].userId != user.id ==>
        r == Failure(Forbidden) && sessions == old(sessions)
      ensures sessionId in old(sessions) && old(sessions)[sessionId].userId == user.id ==>
        r == Success(Summary(sessionId, old(sessions)[sessionId], user.currentDifficulty, now))
        && sessions == old(sessions) - {sessionId}
      ensures r.Success? ==> sessionId !in sessions
    {
      if sessionId !in sessions {
        return Failure(BadRequest);
      }
      var session := sessions[sessionId];
      if session.userId != user.id {
        return Failure(Forbidden);
      }
      var summary := Summary(sessionId, session, user.currentDifficulty, now);
      sessions := sessions - {sessionId};
      r := Success(summary);
    }
  }
}
