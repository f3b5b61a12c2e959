/**
 * The quiz-generation endpoint's core: generate a quiz for a request,
 * validate it, and open a session for it only when it is valid.
 */
module Api {
  import opened Wrappers
  import opened Python
  import opened Models
  import opened Generator
  import opened Scores

  /** What the endpoint answers. */
  datatype StartResult =
    | QuizStarted(quiz: Quiz, sessionId: string)
      /** The generated quiz failed validation; no session was opened. */
    | QuizRejected(error: string)
      /** No quiz could be constructed at all (a server error). */
    | GenerationFailed

  /** The error text of a rejected quiz: the findings joined by "; ". */
  function RejectionMessage(errors: seq<string>): (r: string)
    ensures |"Quiz validation failed: "| <= |r| && r[..|"Quiz validation failed: "|] == "Quiz validation failed: "
  {
    "Quiz validation failed: " + Join(errors, "; ")
  }

  /**
   * Generate a quiz for `request` from the model's parsed reply `parsed`,
   * validate it and, when it is valid, open a session under `freshId` at
   * time `now`. Only a started quiz changes the store.
   */
  method StartQuiz(manager: ScoreManager, request: QuizRequest, parsed: Option<Quiz>, freshId: string, now: int)
    returns (r: StartResult)
    requires manager.Valid()
    requires freshId !in manager.userSessions
    modifies manager
    ensures manager.Valid()
    ensures GeneratedQuiz(request.topic, request.numQuestions, request.difficulty, parsed).Failure? <==> r.GenerationFailed?
    ensures r.QuizRejected? ==>
      var quiz := GeneratedQuiz(request.topic, request.numQuestions, request.difficulty, parsed).value;
      !Conforms(quiz) && r.error == RejectionMessage(Render(QuizErrors(quiz)))
    ensures r.QuizStarted? ==>
      && Success(r.quiz) == GeneratedQuiz(request.topic, request.numQuestions, request.difficulty, parsed)
      && Conforms(r.quiz)
      && r.sessionId == freshId
      && manager.userSessions == old(manager.userSessions)[freshId := NewSession(r.quiz, now)]
      && manager.keyOrder == old(manager.keyOrder) + [freshId]
    ensures !r.QuizStarted? ==>
      manager.userSessions == old(manager.userSessions) && manager.keyOrder == old(manager.keyOrder)
  {
    var generated := GenerateQuiz(request.topic, request.numQuestions, request.difficulty, parsed);
    if generated.Failure? {
      r := GenerationFailed;
    } else {
      var quiz := generated.value;
      var errors := ValidateQuiz(quiz);
      if errors != [] {
        r := QuizRejected(RejectionMessage(errors));
      } else {
        var sessionId := manager.CreateSession(quiz, freshId, now);
        r := QuizStarted(quiz, sessionId);
      }
    }
  }

  /**
   * A valid request (at least one question) always yields a quiz, and when
   * the model's reply is unusable and the stripped topic has at least three
   * characters, the fallback quiz is started.
   */
  lemma StartQuizOutcome(request: QuizRequest, parsed: Option<Quiz>)
    requires request.WithinBounds()
    ensures GeneratedQuiz(request.topic, request.numQuestions, request.difficulty, parsed).Success?
    ensures (|Strip(request.topic)| >= MinTopicLength
             && (parsed.None? || !AcceptsParsed(parsed.value, request.numQuestions))) ==>
      var quiz := GeneratedQuiz(request.topic, request.numQuestions, request.difficulty, parsed).value;
      && quiz == FallbackQuiz(request.topic, request.numQuestions, request.difficulty).value
      && Conforms(quiz)
  {
    GeneratedQuizWellShaped(request.topic, request.numQuestions, request.difficulty, parsed);
    if |Strip(request.topic)| >= MinTopicLength && (parsed.None? || !AcceptsParsed(parsed.value, request.numQuestions)) {
      FallbackPassesValidation(request.topic, request.numQuestions, request.difficulty);
      NoErrorsIffConforms(FallbackQuiz(request.topic, request.numQuestions, request.difficulty).value);
    }
  }

  /**
   * A three-question MEDIUM fallback quiz on "History": answering its first
   * question correctly scores 2 points, one answer, one correct, 100 percent.
   */
  lemma HistoryScenario(created: int, answered: int)
    ensures FallbackQuiz("History", 3, Medium).Success?
    ensures var quiz := FallbackQuiz("History", 3, Medium).value;
      var s := RecordAnswer(NewSession(quiz, created), 0, 0, answered);
      ScoreOf(s) == ScoreResponse(2, 1, 1, 0, 100.0)
  {
    FallbackShape("History", 3, Medium);
    var quiz := FallbackQuiz("History", 3, Medium).value;
    FirstCorrectMediumAnswer(quiz, created, answered);
  }
}
