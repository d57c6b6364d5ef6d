/**
 * `AIEngine`: question generation and answer evaluation. The language-model
 * call is not modelled; each operation receives whether a client is
 * configured and the outcome of the call (a well-formed reply, or a
 * failure of the call or of parsing its reply), and falls back to fixed
 * content when there is no client or the call fails.
 */
module AiEngine {
  import opened Wrappers
  import opened Text
  import opened Adaptive
  import opened QuizSchema

  /** The four difficulty bands shared by the prompts and the browser label. */
  datatype Level = Beginner | Intermediate | Advanced | Expert

  /** The band of a difficulty: below 1.5, below 2.5, below 3.5, and the rest. */
  function LevelOf(d: Tenths): (l: Level)
    ensures l == Beginner <==> d < 15
    ensures l == Intermediate <==> 15 <= d < 25
    ensures l == Advanced <==> 25 <= d < 35
    ensures l == Expert <==> 35 <= d
  {
    if d < 15 then Beginner
    else if d < 25 then Intermediate
    else if d < 35 then Advanced
    else Expert
  }

  /** `_get_difficulty_description`. */
  function DifficultyDescription(d: Tenths): string
  {
    match LevelOf(d)
    case Beginner => "beginner-level"
    case Intermediate => "intermediate-level"
    case Advanced => "advanced-level"
    case Expert => "expert-level"
  }

  /** The band named by a description. */
  function LevelOfDescription(s: string): Option<Level>
  {
    if s == "beginner-level" then Some(Beginner)
    else if s == "intermediate-level" then Some(Intermediate)
    else if s == "advanced-level" then Some(Advanced)
    else if s == "expert-level" then Some(Expert)
    else None
  }

  /** Each description names exactly the band of its difficulty, so harder bands get other words. */
  lemma DescriptionNamesLevel(d: Tenths)
    ensures LevelOfDescription(DifficultyDescription(d)) == Some(LevelOf(d))
  {
  }

  /** Harder difficulties never get an easier band. */
  function LevelRank(l: Level): nat
  {
    match l
    case Beginner => 0
    case Intermediate => 1
    case Advanced => 2
    case Expert => 3
  }

  lemma LevelMonotone(d1: Tenths, d2: Tenths)
    requires d1 <= d2
    ensures LevelRank(LevelOf(d1)) <= LevelRank(LevelOf(d2))
  {
  }

  /** How a call to the language model ended. */
  datatype CallOutcome<T> = Replied(reply: T) | CallFailed

  /** A free-text question. */
  datatype OpenQuestion = OpenQuestion(question: string, answer: string, explanation: string)

  const PhishingQuestion := OpenQuestion(
    "What are the common signs of a phishing email?",
    "Suspicious sender address, urgent language, requests for personal information, spelling errors, suspicious links",
    "Phishing emails often contain these red flags to trick users into revealing sensitive information.")

  const PasswordQuestion := OpenQuestion(
    "What makes a password strong and secure?",
    "At least 12 characters, mix of uppercase, lowercase, numbers, symbols, no dictionary words, unique for each account",
    "Strong passwords are long, complex, and unique to prevent unauthorized access.")

  const FallbackQuestions: map<string, OpenQuestion> :=
    map["phishing_detection" := PhishingQuestion, "password_security" := PasswordQuestion]

  /** `_fallback_question`: the topic's entry, else the phishing question. The difficulty is ignored. */
  function FallbackQuestion(topic: string, difficulty: Tenths): (q: OpenQuestion)
    ensures topic in FallbackQuestions ==> q == FallbackQuestions[topic]
    ensures topic !in FallbackQuestions ==> q == FallbackQuestions["phishing_detection"]
  {
    if topic in FallbackQuestions then FallbackQuestions[topic] else FallbackQuestions["phishing_detection"]
  }

  /** Only two topics have their own question; every other topic gets the phishing one. */
  lemma FallbackQuestionCases(topic: string, difficulty: Tenths)
    ensures topic == "password_security" ==> FallbackQuestion(topic, difficulty) == PasswordQuestion
    ensures topic != "password_security" ==> FallbackQuestion(topic, difficulty) == PhishingQuestion
  {
  }

  /** `generate_question`: the model's reply when there is a client and the call succeeds, else the fallback. */
  function GenerateQuestion(topic: string, difficulty: Tenths, hasClient: bool, call: CallOutcome<OpenQuestion>): (q: OpenQuestion)
    ensures (!hasClient || call.CallFailed?) ==> q == FallbackQuestion(topic, difficulty)
    ensures (hasClient && call.Replied?) ==> q == call.reply
  {
    if !hasClient then FallbackQuestion(topic, difficulty)
    else match call
      case Replied(reply) => reply
      case CallFailed => FallbackQuestion(topic, difficulty)
  }

  /** A multiple-choice question with its derived answer text. */
  datatype Mcq = Mcq(question: string, options: seq<QuizOption>, correctOptionId: int, explanation: string, answer: string)

  /** Ids 1..4 in order, and the answer is the text of the option the correct id names. */
  predicate WellFormedMcq(q: Mcq)
  {
    |q.options| == 4
    && (forall i :: 0 <= i < 4 ==> q.options[i].id == i + 1)
    && 1 <= q.correctOptionId <= 4
    && q.answer == q.options[q.correctOptionId - 1].text
  }

  function Options4(a: string, b: string, c: string, d: string): seq<QuizOption>
  {
    [QuizOption(1, a), QuizOption(2, b), QuizOption(3, c), QuizOption(4, d)]
  }

  const FallbackMcqs: map<string, Mcq> := map[
    "python_basics" := Mcq(
      "What is the correct way to create a list in Python?",
      Options4("my_list = [1, 2, 3, 4]", "my_list = (1, 2, 3, 4)", "my_list = {1, 2, 3, 4}", "my_list = <1, 2, 3, 4>"),
      1,
      "Lists in Python are created using square brackets []. Parentheses () create tuples, curly braces {} create sets, and angle brackets <> are not used for collections.",
      "my_list = [1, 2, 3, 4]"),
    "web_security" := Mcq(
      "What does CSRF stand for?",
      Options4("Cross-Site Request Forgery", "Cross-Server File Response", "Cryptographic Security Request Format", "Central Site Resource Filter"),
      1,
      "CSRF (Cross-Site Request Forgery) is a security vulnerability where an attacker tricks a user into performing unwanted actions on another website.",
      "Cross-Site Request Forgery"),
    "networking" := Mcq(
      "Which layer of the OSI model is responsible for routing?",
      Options4("Layer 2 - Data Link", "Layer 3 - Network", "Layer 4 - Transport", "Layer 5 - Session"),
      2,
      "The Network layer (Layer 3) is responsible for routing packets between networks using IP addresses.",
      "Layer 3 - Network"),
    "linux_security" := Mcq(
      "What is the chmod value for read, write, execute for owner (7)?",
      Options4("4 + 2 + 1", "2 + 1 + 4", "4 + 1 + 2", "All of the above"),
      4,
      "The chmod value 7 represents read (4) + write (2) + execute (1) permissions. All options show the same permissions in different order.",
      "All of the above"),
    "cryptography" := Mcq(
      "Which algorithm is most commonly used for symmetric encryption?",
      Options4("RSA", "AES", "SHA-256", "ECDSA"),
      2,
      "AES (Advanced Encryption Standard) is the most widely used symmetric encryption algorithm. RSA and ECDSA are asymmetric, and SHA-256 is a hash function.",
      "AES"),
    "incident_response" := Mcq(
      "What is the first step in incident response?",
      Options4("Detection", "Analysis", "Remediation", "Recovery"),
      1,
      "Detection is the first phase of incident response where security tools and monitoring systems identify security incidents.",
      "Detection")
  ]

  /** `_fallback_mcq_question`: the topic's entry, else the Python-basics question. */
  function FallbackMcq(topic: string, difficulty: Tenths): (q: Mcq)
    ensures topic in FallbackMcqs ==> q == FallbackMcqs[topic]
    ensures topic !in FallbackMcqs ==> q == FallbackMcqs["python_basics"]
  {
    if topic in FallbackMcqs then FallbackMcqs[topic] else FallbackMcqs["python_basics"]
  }

  /** Every catalogue entry has four options numbered 1..4 and its answer is the correct option's text. */
  lemma FallbackMcqsWellFormed(topic: string, difficulty: Tenths)
    ensures WellFormedMcq(FallbackMcq(topic, difficulty))
  {
    var q := FallbackMcq(topic, difficulty);
    assert q.options == Options4(q.options[0].text, q.options[1].text, q.options[2].text, q.options[3].text);
  }

  /** The six topics the quiz offers (`get_available_topics`). */
  const QuizTopicIds: seq<string> :=
    ["python_basics", "web_security", "networking", "linux_security", "cryptography", "incident_response"]

  /** Every offered quiz topic has its own fallback question, so none falls through to the default. */
  lemma OfferedTopicsHaveFallbacks(topic: string)
    requires topic in QuizTopicIds
    ensures topic in FallbackMcqs
  {
  }

  /** Python's `xs[i]`: a negative index counts from the end; anything else out of range raises. */
  function PyIndex<T>(xs: seq<T>, i: int): (r: Option<T>)
    ensures 0 <= i < |xs| ==> r == Some(xs[i])
    ensures -|xs| <= i < 0 ==> r == Some(xs[|xs| + i])
    ensures (i < -|xs| || |xs| <= i) ==> r == None
  {
    if 0 <= i < |xs| then Some(xs[i])
    else if -|xs| <= i < 0 then Some(xs[|xs| + i])
    else None
  }

  /** What the model's multiple-choice reply holds before the answer is derived. */
  datatype McqReply = McqReply(question: string, options: seq<QuizOption>, correctOptionId: int, explanation: string)

  /** `result["options"][result["correct_option_id"] - 1]["text"]`, or None when the index raises. */
  function DerivedAnswer(r: McqReply): Option<string>
  {
    match PyIndex(r.options, r.correctOptionId - 1)
    case Some(o) => Some(o.text)
    case None => None
  }

  /**
   * `generate_mcq_question`: the model's reply with its answer derived,
   * or the fallback when there is no client, the call fails or the
   * derivation raises.
   */
  function GenerateMcq(topic: string, difficulty: Tenths, hasClient: bool, call: CallOutcome<McqReply>): (q: Mcq)
    ensures (!hasClient || call.CallFailed?) ==> q == FallbackMcq(topic, difficulty)
    ensures hasClient && call.Replied? && DerivedAnswer(call.reply).None? ==> q == FallbackMcq(topic, difficulty)
    ensures hasClient && call.Replied? && DerivedAnswer(call.reply).Some? ==>
      q == Mcq(call.reply.question, call.reply.options, call.reply.correctOptionId, call.reply.explanation,
               DerivedAnswer(call.reply).value)
  {
    if !hasClient then FallbackMcq(topic, difficulty)
    else match call
      case CallFailed => FallbackMcq(topic, difficulty)
      case Replied(r) =>
        match DerivedAnswer(r)
        case Some(a) => Mcq(r.question, r.options, r.correctOptionId, r.explanation, a)
        case None => FallbackMcq(topic, difficulty)
  }

  /** A reply that follows the requested format (four options numbered 1..4, correct id among them). */
  predicate WellFormedReply(r: McqReply)
  {
    |r.options| == 4 && (forall i :: 0 <= i < 4 ==> r.options[i].id == i + 1) && 1 <= r.correctOptionId <= 4
  }

  /** Whatever happens, a well-formed reply or the fallback gives a well-formed question. */
  lemma GeneratedMcqWellFormed(topic: string, difficulty: Tenths, hasClient: bool, call: CallOutcome<McqReply>)
    requires call.Replied? ==> WellFormedReply(call.reply)
    ensures WellFormedMcq(GenerateMcq(topic, difficulty, hasClient, call))
  {
    FallbackMcqsWellFormed(topic, difficulty);
  }

  /** On every path the answer is the text of one of the question's own options. */
  lemma GeneratedAnswerIsAnOption(topic: string, difficulty: Tenths, hasClient: bool, call: CallOutcome<McqReply>)
    ensures var q := GenerateMcq(topic, difficulty, hasClient, call);
      exists j :: 0 <= j < |q.options| && q.options[j].text == q.answer
  {
    var q := GenerateMcq(topic, difficulty, hasClient, call);
    if hasClient && call.Replied? && DerivedAnswer(call.reply).Some? {
      var r := call.reply;
      var i := r.correctOptionId - 1;
      var j := if 0 <= i then i else |r.options| + i;
      assert q.options[j].text == q.answer;
    } else {
      FallbackMcqsWellFormed(topic, difficulty);
      assert q.options[q.correctOptionId - 1].text == q.answer;
    }
  }

  /** A correct id of 0 wraps around to the last option, as Python's index -1 does. */
  lemma ZeroIdTakesLastOption(reply: McqReply)
    requires reply.correctOptionId == 0 && |reply.options| > 0
    ensures DerivedAnswer(reply) == Some(reply.options[|reply.options| - 1].text)
  {
  }

  /** Verdict, feedback text and confidence of an evaluation. */
  datatype Evaluation = Evaluation(isCorrect: bool, feedback: string, confidence: real)

  /**
   * `_fallback_evaluation`: correct exactly when the lowercased correct
   * answer occurs in the lowercased user answer; feedback and confidence
   * follow the verdict alone.
   */
  function FallbackEvaluation(correctAnswer: string, userAnswer: string): (e: Evaluation)
    ensures e.isCorrect ==> e.feedback == "Good job!" && e.confidence == 0.7
    ensures !e.isCorrect ==> e.feedback == "Not quite right. Review the explanation." && e.confidence == 0.3
  {
    var ok := Contains(LowerString(userAnswer), LowerString(correctAnswer));
    Evaluation(ok, if ok then "Good job!" else "Not quite right. Review the explanation.", if ok then 0.7 else 0.3)
  }

  /** The verdict is a substring test on the lowercased texts. */
  lemma FallbackVerdict(correctAnswer: string, userAnswer: string)
    ensures FallbackEvaluation(correctAnswer, userAnswer).isCorrect <==>
      exists i :: OccursAt(LowerString(correctAnswer), LowerString(userAnswer), i)
  {
    ContainsIffOccurs(LowerString(userAnswer), LowerString(correctAnswer));
  }

  /** Case does not matter, and repeating the correct answer verbatim is always accepted. */
  lemma FallbackAcceptsTheAnswer(correctAnswer: string, extra: string)
    ensures FallbackEvaluation(correctAnswer, correctAnswer + extra).isCorrect
  {
    var c := LowerString(correctAnswer);
    var u := LowerString(correctAnswer + extra);
    assert u[..|c|] == c;
    assert OccursAt(c, u, 0);
    FallbackVerdict(correctAnswer, correctAnswer + extra);
  }

  /** `evaluate_answer`: the model's verdict when there is a client and the call succeeds, else the fallback. */
  function EvaluateAnswer(question: string, correctAnswer: string, userAnswer: string, hasClient: bool,
                          call: CallOutcome<Evaluation>): (e: Evaluation)
    ensures (!hasClient || call.CallFailed?) ==> e == FallbackEvaluation(correctAnswer, userAnswer)
    ensures (hasClient && call.Replied?) ==> e == call.reply
  {
    if !hasClient then FallbackEvaluation(correctAnswer, userAnswer)
    else match call
      case Replied(reply) => reply
      case CallFailed => FallbackEvaluation(correctAnswer, userAnswer)
  }
}
