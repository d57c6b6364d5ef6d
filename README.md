# Adaptive assessment engine — a Dafny model

This project models the core of an adaptive cybersecurity and programming
tutor. A FastAPI backend asks a language model for questions, grades the
learner's answers, and moves the learner's difficulty up or down.
The browser shows quiz and analytics pages. The model covers:

- **Difficulty adaptation** (`Adaptive`): the streak counter, and the
  tiered, clamped difficulty step.
- **Scoring and analytics** (`Scoring`): the per-answer score, and
  `analyze_performance`. That function tallies topics in a loop, then ranks
  them with a stable descending sort and takes the three strongest and the
  three weakest.
- **Feedback texts** (`Feedback`): the answer feedback and the progress
  message bands.
- **Helpers** (`Helpers`): the topic list, and display names via Python's
  `title()`, accuracy and random topic choice.
- **Language-model front** (`AiEngine`):
  - the difficulty bands;
  - the fallback question catalogues;
  - how the answer of a multiple-choice reply is derived, including
    Python's negative indexing;
  - the fallback evaluation, a case-insensitive substring test.

  The model's reply, or a failed call, is a parameter.
- **Stored data** (`QuestionStore`, `Learner`): the question and response
  tables, as a `Database` class, and the learner row, as a `User` class. The
  learner state changes by one `Transition` per answer: the streak is updated
  first, then the difficulty is adjusted using the new streak.
- **Chat handlers** (`Chat`): `send_message` and `submit_answer`.
- **Quiz handlers** (`Quiz`):
  - `start_quiz`, `submit_quiz_answer` and `complete_quiz`, over a
    `Registry` class that holds the active sessions map;
  - the loop that generates the missing questions;
  - the 400, 403, 404 and 500 error paths.
- **Browser logic**:
  - the difficulty label, colour and bar width (`DifficultyView`);
  - `formatTopicName`, the chart counts and the guards of `loadAnalytics`
    (`AnalyticsView`);
  - the `quizState` answer lock, the button marking and `formatTime`
    (`QuizPage`). `quizState` is a class whose methods follow a pure page
    state machine.

**Numbers.**
- Difficulties are whole numbers of tenths, so 10 stands for 1.0. Every
  value the backend produces has one decimal, so `round(x, 1)` is exact here.
- Accuracies and percentages are exact `real`s.

**Where the code was followed over its description:**
- With more than three topics, the strongest and weakest lists each hold
  three topics, not all of them. `Scoring.StrongestWeakestShape` states the
  sizes. `Scoring.StrongestWeakestOverlap` states how the lists overlap for
  up to six topics.
- `complete_quiz` checks that the session belongs to the caller, and returns
  403 otherwise.
- A question created by the chat has no options. A quiz that reaches such a
  question fails with status 500, after the session has been created or the
  answer recorded. The model keeps that order.
- `formatTopicName` in the browser and `title()` in the backend agree only on
  lowercase slugs. `title()` also starts a new word after a digit.
- The application's entry point never mounts the quiz router. The handlers
  are modelled as written.

## Model

| member | source | states |
|---|---|---|
| Adaptive.Increase | backend/app/services/adaptive.py:12-17 | the step of a correct answer is 0.1 exactly below streak 2, 0.2 exactly at streak 2, 0.3 exactly from streak 3 |
| Adaptive.Clamp | backend/app/services/adaptive.py:25-26 | the result lies in [1.0, 5.0]; in-range values are kept, lower ones become 1.0, higher ones 5.0 |
| Adaptive.AdjustDifficulty | backend/app/services/adaptive.py:8-28 | every next difficulty lies in [1.0, 5.0], whatever the input |
| Adaptive.UpdateStreak | backend/app/services/adaptive.py:31-36 | a correct answer adds one to the streak, an incorrect one resets it to 0 |
| Adaptive.CorrectStep | backend/app/services/adaptive.py:10-18 | from an in-range difficulty a correct answer adds its tier's step, capped at 5.0 |
| Adaptive.IncorrectStep | backend/app/services/adaptive.py:19-22 | an incorrect answer subtracts 0.2, floored at 1.0; from 1.2 or less it lands on 1.0 |
| Adaptive.DirectionOfChange | backend/app/services/adaptive.py:8-28 | correct answers never lower an in-range difficulty (by at most 0.3 up), incorrect ones never raise it (by at most 0.2 down) |
| Adaptive.MonotoneInCurrent | backend/app/services/adaptive.py:8-28 | a higher current difficulty never gives a lower next difficulty |
| Adaptive.MonotoneInStreak | backend/app/services/adaptive.py:12-17 | a longer streak never gives a smaller step |
| Adaptive.TrailingCorrect | backend/app/services/adaptive.py:31-36 | reference count of the correct answers since the last incorrect one |
| Adaptive.StreakCountsTrailingCorrect | backend/app/services/adaptive.py:31-36 | after any incorrect answer the streak equals the trailing correct count; with none it is the start plus the number of answers |
| Scoring.TimeBonus | backend/app/services/scoring.py:17-22 | 50 below 30 s, 25 below 60 s, 0 from 60 s |
| Scoring.CalculateScore | backend/app/services/scoring.py:10-25 | an incorrect answer scores 0; a correct one 100 × difficulty (10 × tenths) plus the time bonus |
| Scoring.CorrectScore | backend/app/services/scoring.py:13-25 | a correct answer at 2.0 in 20 s scores 250 |
| Scoring.ScoreMonotone | backend/app/services/scoring.py:13-25 | a slower answer never earns a larger bonus, and a harder, faster answer never scores less |
| Scoring.TallyKeys | backend/app/services/scoring.py:46-50 | the topic dictionary's keys are listed in insertion order, each exactly once |
| Scoring.TallyTopics | backend/app/services/scoring.py:47-50 | the dictionary's keys are exactly the topics of the records (missing topic = "unknown") |
| Scoring.TallyCounts | backend/app/services/scoring.py:51-54 | each entry's total is its topic's record count (at least 1) and its correct count the topic's correct records |
| Scoring.CountsAbsent | backend/app/services/scoring.py:46-54 | a topic that is not a key has no records |
| Scoring.TallyFirstSeenOrder | backend/app/services/scoring.py:49-50 | keys are in the order in which their topics first occur |
| Scoring.TallyTotalsSum | backend/app/services/scoring.py:52 | the per-topic totals add up to the number of records |
| Scoring.ItemsOf | backend/app/services/scoring.py:58 | `items()` lists the keys in dictionary order |
| Scoring.InsertDesc | backend/app/services/scoring.py:57-61 | one insertion step adds exactly the new element (multiset) |
| Scoring.InsertDescSorted | backend/app/services/scoring.py:57-61 | inserting into a descending sequence keeps it descending |
| Scoring.Rank | backend/app/services/scoring.py:57-61 | `sorted(..., reverse=True)` gives a permutation of its input in descending key order |
| Scoring.RankStable | backend/app/services/scoring.py:57-61 | the sort is stable: elements with equal keys keep their input order |
| Scoring.AnalyzePerformance | backend/app/services/scoring.py:28-72 | the loop's result is the analysis of the records |
| Scoring.AnalysisOfNothing | backend/app/services/scoring.py:30-37 | no records: zero totals, zero accuracy and difficulty, two empty lists |
| Scoring.PercentMeaning | backend/app/services/scoring.py:41 | accuracy × total = 100 × correct, and the accuracy lies in [0, 100] |
| Scoring.AnalysisTotals | backend/app/services/scoring.py:39-41 | a non-empty analysis counts every record and its accuracy is the correct share in percent |
| Scoring.RankedEntries | backend/app/services/scoring.py:57-61 | the ranking holds every dictionary entry once, with its own counts |
| Scoring.StrongestDominate | backend/app/services/scoring.py:63 | every strongest topic is at least as accurate as every topic left out of the strongest |
| Scoring.WeakestDominated | backend/app/services/scoring.py:64 | every topic left out of the weakest is at least as accurate as every weakest topic |
| Scoring.StrongestWeakestShape | backend/app/services/scoring.py:63-64 | with k topics both lists have min(k, 3) entries: the first and the last of the ranking |
| Scoring.StrongestWeakestOverlap | backend/app/services/scoring.py:63-64 | up to three topics the two lists are equal; from three to six they share 6 − k topics |
| Scoring.DefaultsChangeNothing | backend/app/services/scoring.py:43-48 | filling in difficulty 1.0 and topic "unknown" explicitly gives the same analysis |
| Scoring.DefaultsPreserveTally | backend/app/services/scoring.py:48 | the defaulted records give the same topic dictionary |
| Scoring.DefaultsPreserveCounts | backend/app/services/scoring.py:40-43 | the defaulted records give the same correct count and difficulty sum |
| Feedback.Encouragement | backend/app/services/feedback.py:10-16 | streak 5 or more, 3 to 4, and below 3 get the three lines in that order |
| Feedback.GenerateFeedback | backend/app/services/feedback.py:8-22 | a correct answer's text is the encouragement, a blank line and the explanation; an incorrect one's is the cross line around the explanation |
| Feedback.ExplanationRecovered | backend/app/services/feedback.py:18-20 | the explanation can be read back out of every feedback text |
| Feedback.OutcomeVisible | backend/app/services/feedback.py:12-20 | the text starts with a cross exactly when the answer was incorrect |
| Feedback.DifficultyIgnored | backend/app/services/feedback.py:8-22 | the difficulty argument never changes the text |
| Feedback.WrongIgnoresStreak | backend/app/services/feedback.py:19-20 | an incorrect answer's text does not depend on the streak |
| Feedback.FeedbackInjective | backend/app/services/feedback.py:18-20 | different explanations give different texts |
| Feedback.ProgressTierOf | backend/app/services/feedback.py:27-34 | each accuracy is in exactly one band: ≥ 90, [75, 90), [60, 75), < 60 |
| Feedback.ProgressTierMonotone | backend/app/services/feedback.py:27-34 | more accuracy never gives a lower band |
| Feedback.ProgressMessage | backend/app/services/feedback.py:25-34 | the message starts with its band's symbol |
| Feedback.ProgressMessageShowsAccuracy | backend/app/services/feedback.py:28-34 | every message quotes the accuracy text |
| Feedback.ProgressMessageTellsTier | backend/app/services/feedback.py:27-34 | the band can be read back from the message |
| Helpers.TitleFrom | backend/app/utils/helpers.py:19 | `title()`: each letter is uppercase after a non-letter and lowercase after a letter; other characters are kept |
| Helpers.DisplayNameShape | backend/app/utils/helpers.py:17-19 | the display name keeps the length and has no underscore; underscores become spaces; each run of letters starts uppercase |
| Helpers.CalculateAccuracy | backend/app/utils/helpers.py:22-26 | no questions give 0.0 |
| Helpers.AccuracyBounds | backend/app/utils/helpers.py:26 | with questions the accuracy lies in [0, 100] and is 100 × correct / total |
| Helpers.AccuracyAgreesWithAnalysis | backend/app/utils/helpers.py:22-26 | the helper and the analysis compute the same accuracy for the same records |
| Helpers.RandomTopic | backend/app/utils/helpers.py:29-31 | the chosen topic is one of the listed topics |
| AiEngine.LevelOf | backend/app/services/ai_engine.py:136-144 | bands below 1.5, below 2.5, below 3.5 and from 3.5, each an if-and-only-if |
| AiEngine.DescriptionNamesLevel | backend/app/services/ai_engine.py:136-144 | each description names exactly its difficulty's band |
| AiEngine.LevelMonotone | backend/app/services/ai_engine.py:136-144 | a harder difficulty never gets an easier band |
| AiEngine.FallbackQuestion | backend/app/services/ai_engine.py:146-160 | a listed topic gets its own question, any other the phishing question |
| AiEngine.FallbackQuestionCases | backend/app/services/ai_engine.py:148-160 | only `password_security` gets the password question; every other topic gets the phishing one |
| AiEngine.GenerateQuestion | backend/app/services/ai_engine.py:16-53 | without a client or after a failed call the fallback, otherwise the model's reply |
| AiEngine.FallbackMcq | backend/app/services/ai_engine.py:162-238 | a listed topic gets its own question, any other the Python basics one |
| AiEngine.FallbackMcqsWellFormed | backend/app/services/ai_engine.py:164-237 | every fallback question has options 1 to 4 in order, and its answer is the correct option's text |
| AiEngine.OfferedTopicsHaveFallbacks | backend/app/services/ai_engine.py:164-237 | each of the six quiz topics has its own fallback question |
| AiEngine.PyIndex | backend/app/services/ai_engine.py:92 | Python indexing: a negative index counts from the end, and anything out of range raises |
| AiEngine.GenerateMcq | backend/app/services/ai_engine.py:55-96 | reply with a derivable answer ⇒ the reply plus that answer; otherwise (no client, failed call, index error) the fallback |
| AiEngine.GeneratedMcqWellFormed | backend/app/services/ai_engine.py:55-96 | a well-formed reply or the fallback always gives a well-formed question |
| AiEngine.GeneratedAnswerIsAnOption | backend/app/services/ai_engine.py:92 | on every path the answer is the text of one of the question's options |
| AiEngine.ZeroIdTakesLastOption | backend/app/services/ai_engine.py:92 | a correct id of 0 takes the last option's text |
| AiEngine.FallbackEvaluation | backend/app/services/ai_engine.py:240-245 | accepted: "Good job!" with confidence 0.7; rejected: the other text with confidence 0.3 |
| AiEngine.FallbackVerdict | backend/app/services/ai_engine.py:242 | accepted exactly when the lowercased correct answer occurs in the lowercased answer |
| AiEngine.FallbackAcceptsTheAnswer | backend/app/services/ai_engine.py:242 | an answer that starts with the correct answer is always accepted |
| AiEngine.EvaluateAnswer | backend/app/services/ai_engine.py:98-134 | without a client or after a failed call the fallback, otherwise the model's verdict |
| QuizSchema.ValidateStart | backend/app/schemas/quiz_schema.py:22-25 | accepted exactly when the count is missing (then 10) or in [1, 50]; the error carries the rejected count |
| QuestionStore.Database.AddQuestion | backend/app/api/chat.py:42-44 | the question is stored under a fresh id, one above the previous; nothing else changes |
| QuestionStore.Database.AddResponse | backend/app/api/chat.py:104 | the response is appended; the questions are unchanged |
| Learner.Transition | backend/app/api/chat.py:75-111 | new streak first, then the difficulty from the new streak, one more question, one more correct if correct |
| Learner.TransitionConsistent | backend/app/api/chat.py:106-111 | an in-range, consistent learner state stays so |
| Learner.NewStreakDrivesDifficulty | backend/app/api/chat.py:75-83 | the adjustment sees the updated streak: a second correct answer from 2.0 gives 2.2, not 2.1 |
| Learner.ReplayCounts | backend/app/api/chat.py:106-111 | after any run of answers the counters grew by the answers and the correct answers, and the streak is the streak counter's |
| Learner.ThreeCorrectFromTwo | backend/app/api/chat.py:75-83 | three correct answers from 2.0 give 2.1, 2.3 and 2.6 with streak 3 |
| Learner.User.Record | backend/app/api/chat.py:107-111 | the user row takes the new streak and difficulty and its counters move |
| Learner.ApplyAnswer | backend/app/api/quiz.py:126-153 | the user row moves by exactly one transition |
| Chat.SendMessage | backend/app/api/chat.py:18-52 | the generated question is stored under a fresh id at the learner's difficulty, without options, and echoed with that id and the display name |
| Chat.SubmitAnswer | backend/app/api/chat.py:55-121 | unknown id: 404, nothing changes; otherwise one transition, a response with the old difficulty and feedback from the new streak, and a reply with the stored values |
| Quiz.Points | backend/app/api/quiz.py:134 | 10 points for a correct answer, 0 otherwise |
| Quiz.NewSessionInvariant | backend/app/api/quiz.py:67-75 | a new session has no answers, score 0 and cursor 0 |
| Quiz.AfterAnswerInvariant | backend/app/api/quiz.py:134-165 | each answer keeps cursor = answers and score = 10 × correct; the old answers are kept |
| Quiz.CompleteStaysComplete | backend/app/api/quiz.py:169 | a complete session stays complete after further answers |
| Quiz.TruncateToInt | backend/app/api/quiz.py:221 | `int()` truncates toward zero |
| Quiz.SummaryMeaning | backend/app/api/quiz.py:216-236 | correct + incorrect = answers, score = 10 × correct, the percentage is 0 without answers and the correct share otherwise, within [0, 100] |
| Quiz.Fetched | backend/app/api/quiz.py:36-38 | at most the requested number of stored questions, a prefix of them; fewer only when the store runs out |
| Quiz.Format | backend/app/api/quiz.py:77-87 | a question without options fails with 500; otherwise its id, text, options, topic, difficulty and numbering |
| Quiz.StartReplyMeaning | backend/app/api/quiz.py:77-95 | the start reply reports the session, topic, difficulty and n, with the first question numbered 1 of n |
| Quiz.AnswerReplyMeaning | backend/app/api/quiz.py:167-198 | the reply carries the points, score, streak and new difficulty; a next question exists exactly when the quiz is not done and its id is stored |
| Quiz.GenerateMissing | backend/app/api/quiz.py:40-63 | exactly `count` new questions under consecutive fresh ids, each the generated question; old questions unchanged |
| Quiz.Registry.Start | backend/app/api/quiz.py:27-95 | a new session of exactly n questions: the fetched ones first, then generated ones; reply as the start reply |
| Quiz.Registry.Submit | backend/app/api/quiz.py:98-198 | 400, 403 and 404 change nothing; otherwise the session, user and responses move by one answer and the reply is the answer reply |
| Quiz.Registry.Complete | backend/app/api/quiz.py:201-236 | 400 and 403 change nothing; otherwise the summary, and the session is removed |
| Text.ReplaceChar | backend/app/utils/helpers.py:19 | `replace`: same length, each matching character replaced and the others kept |
| Text.NatToStringRoundTrip | backend/app/api/quiz.py:141 | the decimal rendering of a count reads back as that count |
| Text.IntToStringInjective | backend/app/api/quiz.py:141 | different option ids are stored as different answer texts |
| Text.ContainsIffOccurs | backend/app/services/ai_engine.py:242 | Python's `in` on strings holds exactly when the text occurs at some position |
| DifficultyView.LabelMatchesDescription | frontend/js/adaptive.js:23-28 | the browser label always names the same band as the backend description |
| DifficultyView.ColourOf | frontend/js/adaptive.js:8-14 | green exactly below 2.0, orange exactly in [2.0, 3.5), red exactly from 3.5 |
| DifficultyView.ColourBoundsDifferFromLabels | frontend/js/adaptive.js:8-14 | the colour changes at 2.0 but the label does not, and the label changes at 1.5 and 2.5 but the colour does not |
| DifficultyView.Visualize | frontend/js/adaptive.js:3-21 | the label is `getDifficultyLabel`'s and the colour the colour rule's |
| DifficultyView.VisualizePercentage | frontend/js/adaptive.js:4-5 | the bar is 2 % per tenth, so between 20 % and 100 % for in-range difficulties |
| DifficultyView.VisualizeMonotone | frontend/js/adaptive.js:4-5 | a harder difficulty never gets a narrower bar |
| AnalyticsView.SplitSpaces | frontend/js/analytics.js:96 | `split(' ')` always gives at least one piece |
| AnalyticsView.SplitCapitalizeJoin | frontend/js/analytics.js:95-98 | split, capitalise and join is the rule "uppercase at the start and after each space" |
| AnalyticsView.FormatTopicNameShape | frontend/js/analytics.js:94-99 | same length, no underscore; a character is uppercased exactly at the start and after a space or underscore, and is otherwise kept |
| AnalyticsView.FormatAgreesWithDisplayName | frontend/js/analytics.js:94-99 | on lowercase slugs the browser name equals the backend display name |
| AnalyticsView.FormatDiffersAfterDigit | frontend/js/analytics.js:96-98 | "a1b" shows as "A1b" in the browser but "A1B" in the backend |
| AnalyticsView.RoundHalfUp | frontend/js/analytics.js:25 | `Math.round`: the nearest integer, halves up |
| AnalyticsView.ChartOf | frontend/js/analytics.js:25-26 | correct + incorrect = total, the correct count being the rounded accuracy share |
| AnalyticsView.ChartRecoversCounts | frontend/js/analytics.js:25 | with an exact accuracy the rounded count is the number of correct answers |
| AnalyticsView.BreakdownOf | frontend/js/analytics.js:56-59 | no breakdown exactly when there are no strongest topics; otherwise both lists, one name each |
| AnalyticsView.FormatAll | frontend/js/analytics.js:71-73 | every listed topic is shown formatted, in order |
| AnalyticsView.LoadAnalytics | frontend/js/analytics.js:3-18 | a failed request shows the error exactly; zero questions show the no-data message exactly; anything else the chart |
| AnalyticsView.RenderedSummary | frontend/js/analytics.js:12-13 | a summary with questions and strongest topics shows the exact counts and both formatted lists |
| AnalyticsView.AnalyticsOfRecords | frontend/js/analytics.js:3-18 | for the backend's summary: no-data exactly without records, otherwise the chart counts are the correct and incorrect answers and the breakdown is shown |
| QuizPage.Request | frontend/js/quiz.js:165-174 | a request is sent exactly when a non-zero option is chosen, unanswered, for a shown question; it carries that question and option |
| QuizPage.FollowUpOf | frontend/js/quiz.js:202-208 | completion exactly when the quiz is complete, else the next question if any, else nothing |
| QuizPage.SubmitCases | frontend/js/quiz.js:164-190 | nothing changes without a submittable choice or after a failed request; a reply copies score, streak and difficulty and locks the question |
| QuizPage.AnswerLock | frontend/js/quiz.js:148-165 | once the reply has set `answered`, choosing and submitting change nothing |
| QuizPage.DisplayUnlocks | frontend/js/quiz.js:107-110 | a shown question is unlocked, cannot be submitted until a choice is made, and then sends that choice |
| QuizPage.OneAnswerPerQuestion | frontend/js/quiz.js:148-190 | with a submission and its reply taken as one step: between two shown questions at most one answer is accepted, and none once answered |
| QuizPage.ClickThenArrive | frontend/js/quiz.js:164-190 | a click that posts, followed by its reply, is exactly the one-step submission, and posts one answer |
| QuizPage.InFlight | frontend/js/quiz.js:165-190 | two clicks before the reply post the same answer twice, because `answered` is set only after `await` returns |
| QuizPage.NoPostAfterReply | frontend/js/quiz.js:149-165 | once a reply has been applied, nothing more is posted until the next question is shown |
| QuizPage.MarkingRule | frontend/js/quiz.js:232-241 | exactly the right option's button is marked correct; the chosen button is marked incorrect exactly when it is wrong |
| QuizPage.ShowCorrectAnswer | frontend/js/quiz.js:232-241 | every button is marked by the rule, in place |
| QuizPage.DisableButtons | frontend/js/quiz.js:193-196 | every button is disabled, in place |
| QuizPage.SelectButton | frontend/js/quiz.js:152-157 | only the clicked button keeps the selected class |
| QuizPage.QuizState.constructor | frontend/js/quiz.js:3-14 | the initial state: nothing selected, not answered, zero score and streak, difficulty 1.0 |
| QuizPage.QuizState.Begin | frontend/js/quiz.js:80-87 | the session's id, topic, size and difficulty are recorded and the first question is shown |
| QuizPage.QuizState.DisplayQuestion | frontend/js/quiz.js:107-110 | the new question, nothing selected, not answered; one fresh button per option |
| QuizPage.QuizState.SelectOption | frontend/js/quiz.js:148-162 | once answered nothing changes; otherwise the choice is recorded and only its button is selected |
| QuizPage.QuizState.SubmitAnswer | frontend/js/quiz.js:164-214 | sends the request, and with its reply moves the state as the one-step page machine says; after a reply it disables and marks the buttons and returns the follow-up |
| QuizPage.TimeParts | frontend/js/quiz.js:272-276 | for durations ≥ 0: 60 × minutes + seconds = duration, with 0 ≤ seconds < 60 |
| QuizPage.NegativeTimeParts | frontend/js/quiz.js:273-274 | a negative duration's parts do not add up: −30 s gives −1 min and −30 s |
| QuizPage.TimePartsInjective | frontend/js/quiz.js:272-276 | different non-negative durations show different parts |

## Left out

- HTTP routing, authentication, FastAPI validation and serialisation. A
  handler's input is its parsed request, and its output is a value or an
  `HttpError`.
- The SQL layer:
  - The database is a class holding the question map, the next id and the
    responses.
  - Stored questions for a topic are a parameter (`candidates`), given in
    the order the random `ORDER BY` returned. The randomness is not modelled.
- The language-model client and JSON parsing:
  - Whether there is a client, and the call's outcome, are parameters.
  - A reply is taken as already parsed. Malformed JSON is treated as a
    failed call.
- The random choice of `get_random_topic`: only membership is stated.
- The uuid, and the clock (`datetime.now()`): both are parameters; the
  start time of the browser's quiz state is not kept.
- Helpers.CalculateAccuracy: returns the exact percentage, without
  `round(…, 2)`.
- Scoring.AnalyzePerformance: accuracy and average difficulty are exact,
  without `round(…, 2)`.
- Scoring.CalculateScore: works on exact tenths, so it does not reproduce
  the binary floating-point truncation of `int(100 * d)`. For example,
  Python gives 229 for 2.3 and the model 230.
- Feedback.ProgressMessage: the accuracy's text (Python's float repr) is a
  parameter.
- AnalyticsView.ChartOf and DifficultyView.Visualize: exact reals. Floating
  point, `toFixed` and the generated HTML are not modelled.
- Adaptive.AdjustDifficulty: input difficulties are whole tenths.
  Difficulties with more decimals are not modelled.
- Unicode case mapping: `lower()`, `title()` and `toUpperCase()` are
  modelled on ASCII letters only.
- The DOM:
  - element lookups that may fail;
  - `showResult`'s text;
  - the progress bar;
  - the two-second timer;
  - `completeQuiz`'s request and results modal.

  The timer's follow-up is returned to the caller instead.
- QuizPage.OneAnswerPerQuestion and QuizPage.AnswerLock: these hold for
  the one-step machine, which takes a submission and its reply as one
  event. So does `QuizState.SubmitAnswer`. On the page, a second click
  before the reply arrives sends a second answer (`QuizPage.InFlight`).
  `submit_quiz_answer` does not check the question id against the
  session's current question, so it records both answers: two
  transitions, two responses, 20 points and the cursor two ahead.
  The split-step lemmas state this on the page side. The backend's double
  recording is not stated as a lemma.
- Concurrency: concurrent requests to the in-memory session map, and
  interleaved browser events.
- seed_questions.py, the progress and analytics routers, authentication
  schemas, auth.js and chat.js. models/user.py is not part of this model;
  its learner fields are the ones the handlers assign.
- Two concrete traces were not stated, because unfolding them was too
  expensive for the verifier. They are a four-topic ranking and a display
  name with several words. The general lemmas above cover both.
- A chat message whose topic is an explicit `null`. An omitted topic becomes
  "general", an ordinary string that the model handles. With `null` and
  no client, `send_message` stores and commits a question with no topic,
  then fails with status 500 when it builds the display name. With a client
  it fails before the call. A topic is always a string here.
