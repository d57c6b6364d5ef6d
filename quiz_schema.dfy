/** The request and response records of the quiz endpoints. */
module QuizSchema {
  import opened Wrappers
  import opened Adaptive

  /** One multiple-choice option. */
  datatype QuizOption = QuizOption(id: int, text: string)

  /** A question as sent to the browser; the total is optional. */
  datatype QuizQuestion = QuizQuestion(
    questionId: int,
    questionText: string,
    options: seq<QuizOption>,
    topic: string,
    difficulty: Tenths,
    questionNumber: int,
    totalQuestions: Option<int> := None)

  const DefaultQuestionCount := 10
  const MinQuestionCount := 1
  const MaxQuestionCount := 50

  /** A start request that passed validation. */
  datatype QuizStartRequest = QuizStartRequest(topic: string, numberOfQuestions: int := DefaultQuestionCount)

  datatype ValidationError = CountOutOfRange(given: int)

  /**
   * Validation of a start request: a missing count becomes 10, and a count
   * outside [1, 50] is refused.
   */
  function ValidateStart(topic: string, count: Option<int>): (r: Result<QuizStartRequest, ValidationError>)
    ensures r.Success? <==> (count.None? || MinQuestionCount <= count.value <= MaxQuestionCount)
    ensures r.Success? ==> r.value.topic == topic
    ensures r.Success? && count.None? ==> r.value.numberOfQuestions == DefaultQuestionCount
    ensures r.Success? && count.Some? ==> r.value.numberOfQuestions == count.value
    ensures r.Failure? ==> r.error == CountOutOfRange(count.value)
  {
    match count
    case None => Success(QuizStartRequest(topic))
    case Some(n) =>
      if MinQuestionCount <= n <= MaxQuestionCount then Success(QuizStartRequest(topic, n))
      else Failure(CountOutOfRange(n))
  }

  datatype QuizAnswerSubmit = QuizAnswerSubmit(questionId: int, selectedOptionId: int)

  /** The result of one answer; without a next question and not complete unless said otherwise. */
  datatype QuizAnswerResult = QuizAnswerResult(
    questionId: int,
    isCorrect: bool,
    correctOptionId: int,
    explanation: string,
    pointsEarned: int,
    currentScore: int,
    currentStreak: int,
    newDifficulty: Tenths,
    nextQuestion: Option<QuizQuestion> := None,
    quizComplete: bool := false)

  /** What a new session reports. */
  datatype QuizSessionStart = QuizSessionStart(
    sessionId: string,
    topic: string,
    difficultyLevel: Tenths,
    firstQuestion: QuizQuestion,
    totalQuestions: int)

  /** One answer as the session records it. */
  datatype AnswerEntry = AnswerEntry(questionId: int, selectedOptionId: int, isCorrect: bool, points: int)

  /** The final report of a session. */
  datatype QuizSessionComplete = QuizSessionComplete(
    sessionId: string,
    topic: string,
    totalQuestions: int,
    correctAnswers: int,
    incorrectAnswers: int,
    scorePercentage: real,
    timeTakenSeconds: int,
    finalDifficulty: Tenths,
    questionsData: seq<AnswerEntry>)
}
