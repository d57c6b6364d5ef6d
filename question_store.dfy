/**
 * The stored questions and answer records. The database is a class whose
 * fields the handlers change: a map from question id to question with the
 * next id to hand out, and the list of saved responses.
 */
module QuestionStore {
  import opened Wrappers
  import opened Adaptive
  import opened QuizSchema

  /**
   * A stored question. Questions created by the chat have no options and no
   * correct option id; quiz questions have both.
   */
  datatype Question = Question(
    id: int,
    userId: int,
    topic: string,
    difficulty: Tenths,
    questionText: string,
    correctAnswer: string,
    explanation: string,
    options: Option<seq<QuizOption>>,
    correctOptionId: Option<int>)

  /** A saved answer. */
  datatype ResponseRecord = ResponseRecord(
    userId: int,
    questionId: int,
    userAnswer: string,
    isCorrect: bool,
    confidenceScore: Option<real>,
    feedback: string,
    difficultyAtTime: Tenths)

  class Database {
    var questions: map<int, Question>
    var nextId: int
    var responses: seq<ResponseRecord>

    /** Ids are positive, below the next id, and each question knows its own id. */
    ghost predicate Valid()
      reads this
    {
      0 < nextId && forall id :: id in questions ==> 0 < id < nextId && questions[id].id == id
    }

    constructor ()
      ensures Valid() && questions == map[] && nextId == 1 && responses == []
    {
      questions := map[];
      nextId := 1;
      responses := [];
    }

    /** `db.add(Question(...))` then commit: the question gets the next id, which was unused. */
    method AddQuestion(userId: int, topic: string, difficulty: Tenths, questionText: string, correctAnswer: string,
                       explanation: string, options: Option<seq<QuizOption>>, correctOptionId: Option<int>)
      returns (id: int)
      requires Valid()
      modifies this
      ensures Valid()
      ensures id == old(nextId) && id !in old(questions) && nextId == id + 1
      ensures questions == old(questions)[id := Question(id, userId, topic, difficulty, questionText, correctAnswer,
                                                          explanation, options, correctOptionId)]
      ensures responses == old(responses)
    {
      id := nextId;
      questions := questions[id := Question(id, userId, topic, difficulty, questionText, correctAnswer,
                                            explanation, options, correctOptionId)];
      nextId := nextId + 1;
    }

    /** `db.add(Response(...))`. */
    method AddResponse(r: ResponseRecord)
      modifies this
      ensures responses == old(responses) + [r]
      ensures questions == old(questions) && nextId == old(nextId)
    {
      responses := responses + [r];
    }
  }
}
