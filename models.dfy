/**
 * The data types of the quiz backend: the records the generator, the
 * validator and the score manager exchange, and the construction-time
 * checks the validation library applies to them (field bounds and the
 * post-initialisation hook of Quiz).
 *
 * A datatype value is the RAW record; the `New...` functions are the
 * constructors, which either reject the field values (returning the names
 * of the offending fields) or build the record.
 */
module Models {
  import opened Wrappers

  /** The three difficulty tiers. */
  datatype Difficulty = Easy | Medium | Hard {
    /** The enum's string value. */
    function Value(): string {
      match this
      case Easy => "easy"
      case Medium => "medium"
      case Hard => "hard"
    }
  }

  const OptionsPerQuestion := 4
  const MinTopicLength := 3
  const MinQuestions := 1
  const MaxQuestions := 20
  const DefaultNumQuestions := 5

  /** One multiple-choice question. */
  datatype QuizQuestion = QuizQuestion(
    question: string,
    options: seq<string>,
    correctAnswer: int,
    explanation: string,
    difficulty: Difficulty)
  {
    /** The field bounds checked at construction: four options, an index in [0, 3]. */
    predicate WithinBounds() {
      |options| == OptionsPerQuestion && 0 <= correctAnswer <= 3
    }
  }

  /** A quiz: topic, questions and a separately stored question count. */
  datatype Quiz = Quiz(topic: string, questions: seq<QuizQuestion>, totalQuestions: int)

  /** A request to generate a quiz. */
  datatype QuizRequest = QuizRequest(topic: string, numQuestions: int, difficulty: Difficulty) {
    predicate WithinBounds() {
      |topic| >= MinTopicLength && MinQuestions <= numQuestions <= MaxQuestions
    }
  }

  /** A submitted answer. */
  datatype AnswerRequest = AnswerRequest(questionIndex: int, selectedOption: int) {
    predicate WithinBounds() {
      questionIndex >= 0 && 0 <= selectedOption <= 3
    }
  }

  /** The result of one submitted answer. */
  datatype AnswerResponse = AnswerResponse(correct: bool, correctAnswer: int, explanation: string, scoreChange: int)

  /** The score view of a session; the percentage is kept as an exact rational. */
  datatype ScoreResponse = ScoreResponse(
    currentScore: int,
    totalQuestionsAnswered: int,
    correctAnswers: int,
    incorrectAnswers: int,
    percentage: real)

  /** The names of the fields of a QuizQuestion that violate their bounds, in declaration order. */
  function QuestionFieldErrors(options: seq<string>, correctAnswer: int): seq<string> {
    (if |options| != OptionsPerQuestion then ["options"] else [])
    + (if correctAnswer < 0 || correctAnswer > 3 then ["correct_answer"] else [])
  }

  /** Constructing a QuizQuestion; the difficulty defaults to MEDIUM. */
  function NewQuizQuestion(question: string, options: seq<string>, correctAnswer: int,
                           explanation: string, difficulty: Difficulty := Medium)
    : (r: Result<QuizQuestion, seq<string>>)
    ensures r.Success? <==> |options| == 4 && 0 <= correctAnswer <= 3
    ensures r.Success? ==> r.value.WithinBounds()
    ensures r.Success? ==> r.value == QuizQuestion(question, options, correctAnswer, explanation, difficulty)
    ensures r.Failure? ==> ("options" in r.error <==> |options| != 4)
    ensures r.Failure? ==> ("correct_answer" in r.error <==> !(0 <= correctAnswer <= 3))
  {
    var errors := QuestionFieldErrors(options, correctAnswer);
    if errors == [] then Success(QuizQuestion(question, options, correctAnswer, explanation, difficulty))
    else Failure(errors)
  }

  /** The post-initialisation hook: the stored count is overwritten by the list's length. */
  function PostInit(quiz: Quiz): (r: Quiz)
    ensures r.totalQuestions == |r.questions|
    ensures r.topic == quiz.topic && r.questions == quiz.questions
  {
    quiz.(totalQuestions := |quiz.questions|)
  }

  /**
   * Constructing a Quiz: the question list must not be empty; the count
   * passed in is then replaced by the post-initialisation hook.
   */
  function NewQuiz(topic: string, questions: seq<QuizQuestion>, totalQuestions: int)
    : (r: Result<Quiz, seq<string>>)
    ensures r.Success? <==> |questions| >= MinQuestions
    ensures r.Failure? ==> r.error == ["questions"]
  {
    if |questions| < MinQuestions then Failure(["questions"])
    else Success(PostInit(Quiz(topic, questions, totalQuestions)))
  }

  /** Whatever count is supplied, a constructed quiz stores the true number of questions. */
  lemma NewQuizCountsQuestions(topic: string, questions: seq<QuizQuestion>, supplied: int)
    requires NewQuiz(topic, questions, supplied).Success?
    ensures NewQuiz(topic, questions, supplied).value == Quiz(topic, questions, |questions|)
  {
  }

  /** The supplied count does not influence the constructed quiz at all. */
  lemma NewQuizIgnoresSuppliedCount(topic: string, questions: seq<QuizQuestion>, a: int, b: int)
    ensures NewQuiz(topic, questions, a) == NewQuiz(topic, questions, b)
  {
  }

  /** Constructing a QuizRequest; 5 questions and MEDIUM by default. */
  function NewQuizRequest(topic: string, numQuestions: int := DefaultNumQuestions,
                          difficulty: Difficulty := Medium)
    : (r: Result<QuizRequest, seq<string>>)
    ensures r.Success? <==> |topic| >= 3 && 1 <= numQuestions <= 20
    ensures r.Success? ==> r.value == QuizRequest(topic, numQuestions, difficulty) && r.value.WithinBounds()
    ensures r.Failure? ==> ("topic" in r.error <==> |topic| < 3)
    ensures r.Failure? ==> ("num_questions" in r.error <==> !(1 <= numQuestions <= 20))
  {
    var errors := (if |topic| < MinTopicLength then ["topic"] else [])
      + (if numQuestions < MinQuestions || numQuestions > MaxQuestions then ["num_questions"] else []);
    if errors == [] then Success(QuizRequest(topic, numQuestions, difficulty)) else Failure(errors)
  }

  /** Constructing an AnswerRequest. */
  function NewAnswerRequest(questionIndex: int, selectedOption: int)
    : (r: Result<AnswerRequest, seq<string>>)
    ensures r.Success? <==> questionIndex >= 0 && 0 <= selectedOption <= 3
    ensures r.Success? ==> r.value == AnswerRequest(questionIndex, selectedOption) && r.value.WithinBounds()
    ensures r.Failure? ==> ("question_index" in r.error <==> questionIndex < 0)
    ensures r.Failure? ==> ("selected_option" in r.error <==> !(0 <= selectedOption <= 3))
  {
    var errors := (if questionIndex < 0 then ["question_index"] else [])
      + (if selectedOption < 0 || selectedOption > 3 then ["selected_option"] else []);
    if errors == [] then Success(AnswerRequest(questionIndex, selectedOption)) else Failure(errors)
  }

  /** The enum has exactly three members, and their values are distinct. */
  lemma DifficultyValuesDistinct(a: Difficulty, b: Difficulty)
    ensures a == Easy || a == Medium || a == Hard
    ensures a.Value() == b.Value() <==> a == b
  {
  }
}
