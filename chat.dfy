/**
 * The chat handlers: `send_message` creates a free-text question at the
 * learner's difficulty, `submit_answer` evaluates an answer and moves the
 * learner state.
 */
module Chat {
  import opened Wrappers
  import opened Adaptive
  import opened Http
  import opened AiEngine
  import opened Feedback
  import opened Helpers
  import opened QuestionStore
  import opened Learner

  datatype ChatResponse = ChatResponse(response: string, questionId: Option<int>, difficulty: Tenths, isQuestion: bool, topic: string)

  datatype AnswerResponse = AnswerResponse(isCorrect: bool, feedback: string, explanation: string, newDifficulty: Tenths, streak: int)

  /**
   * `send_message`: generate a question for the topic at the learner's
   * difficulty, store it without options, and echo it with that difficulty.
   */
  method SendMessage(db: Database, user: User, topic: string, hasClient: bool, call: CallOutcome<OpenQuestion>)
    returns (resp: ChatResponse)
    requires db.Valid()
    modifies db
    ensures db.Valid()
    ensures var q := GenerateQuestion(topic, user.currentDifficulty, hasClient, call);
      var id := old(db.nextId);
      db.questions == old(db.questions)[id := Question(id, user.id, topic, user.currentDifficulty, q.question,
                                                       q.answer, q.explanation, None, None)]
      && resp == ChatResponse(q.question, Some(id), user.currentDifficulty, true, TopicDisplayName(topic))
    ensures db.responses == old(db.responses)
  {
    var q := GenerateQuestion(topic, user.currentDifficulty, hasClient, call);
    var id := db.AddQuestion(user.id, topic, user.currentDifficulty, q.question, q.answer, q.explanation, None, None);
    resp := ChatResponse(q.question, Some(id), user.currentDifficulty, true, TopicDisplayName(topic));
  }

  /**
   * `submit_answer`. An unknown question is a 404 with nothing changed.
   * Otherwise the answer is evaluated, the feedback uses the OLD difficulty
   * and the NEW streak, the saved response records the OLD difficulty, and
   * the learner moves by one transition; the reply repeats the stored values.
   */
  method SubmitAnswer(db: Database, user: User, questionId: int, answer: string, hasClient: bool,
                      call: CallOutcome<Evaluation>)
    returns (r: Result<AnswerResponse, HttpError>)
    modifies db, user
    ensures questionId !in old(db.questions) ==>
      r == Failure(NotFound) && user.State() == old(user.State()) && db.responses == old(db.responses)
    ensures questionId in old(db.questions) ==>
      var q := old(db.questions)[questionId];
      var e := EvaluateAnswer(q.questionText, q.correctAnswer, answer, hasClient, call);
      var s := Transition(old(user.State()), e.isCorrect);
      var fb := GenerateFeedback(e.isCorrect, old(user.currentDifficulty), s.correctStreak, q.explanation);
      user.State() == s
      && db.responses == old(db.responses) + [ResponseRecord(user.id, q.id, answer, e.isCorrect, Some(e.confidence),
                                                             fb, old(user.currentDifficulty))]
      && r == Success(AnswerResponse(e.isCorrect, fb, q.explanation, user.currentDifficulty, user.correctStreak))
    ensures db.questions == old(db.questions) && db.nextId == old(db.nextId)
  {
    if questionId !in db.questions {
      return Failure(NotFound);
    }
    var q := db.questions[questionId];
    var e := EvaluateAnswer(q.questionText, q.correctAnswer, answer, hasClient, call);
    var newStreak := UpdateStreak(user.correctStreak, e.isCorrect);
    var newDifficulty := AdjustDifficulty(user.currentDifficulty, e.isCorrect, newStreak);
    var fb := GenerateFeedback(e.isCorrect, user.currentDifficulty, newStreak, q.explanation);
    db.AddResponse(ResponseRecord(user.id, q.id, answer, e.isCorrect, Some(e.confidence), fb, user.currentDifficulty));
    user.Record(newStreak, newDifficulty, e.isCorrect);
    r := Success(AnswerResponse(e.isCorrect, fb, q.explanation, newDifficulty, newStreak));
  }
}
