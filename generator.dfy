/**
 * The quiz generator's own logic: the structural validator, the
 * deterministic fallback quiz, and the decision taken after the model's
 * response has been parsed. The call to the language model and the parsing
 * of its text are not modelled: their outcome is the `parsed` argument.
 */
module Generator {
  import opened Wrappers
  import opened Python
  import opened SeqUtil
  import opened Models

  const MinQuestionTextLength := 5
  const MinExplanationLength := 10

  /** One finding of the validator. Per-question findings carry the question's position. */
  datatype QuizError =
    | TopicTooShort
    | NoQuestions
    | CountMismatch
    | QuestionTooShort(index: nat)
    | WrongOptionCount(index: nat)
    | AnswerOutOfRange(index: nat)
    | ExplanationTooShort(index: nat)
  {
    predicate IsPerQuestion() {
      !(TopicTooShort? || NoQuestions? || CountMismatch?)
    }

    /** Where the validator reports this finding: header findings first, then question by question. */
    function Position(): nat {
      match this
      case TopicTooShort => 0
      case NoQuestions => 1
      case CountMismatch => 2
      case QuestionTooShort(i) => 3 + 4 * i
      case WrongOptionCount(i) => 4 + 4 * i
      case AnswerOutOfRange(i) => 5 + 4 * i
      case ExplanationTooShort(i) => 6 + 4 * i
    }
  }

  /** The message the validator reports for a finding; questions are numbered from 1. */
  function Message(e: QuizError): string {
    match e
    case TopicTooShort => "Topic must be at least 3 characters long"
    case NoQuestions => "Quiz must have at least one question"
    case CountMismatch => "Total questions count doesn't match actual questions"
    case QuestionTooShort(i) => "Question " + NatToString(i + 1) + " must be at least 5 characters long"
    case WrongOptionCount(i) => "Question " + NatToString(i + 1) + " must have exactly 4 options"
    case AnswerOutOfRange(i) => "Question " + NatToString(i + 1) + " correct answer must be between 0 and 3"
    case ExplanationTooShort(i) => "Question " + NatToString(i + 1) + " explanation must be at least 10 characters long"
  }

  /** The messages of a list of findings, in the same order. */
  function Render(errors: seq<QuizError>): (r: seq<string>)
    ensures |r| == |errors|
  {
    MapSeq(Message, errors)
  }

  /** A single finding, reported exactly when its condition holds. */
  function Flag(condition: bool, e: QuizError): (r: seq<QuizError>)
    ensures e in r <==> condition
    ensures forall x :: x in r ==> x == e
    ensures |r| <= 1
  {
    if condition then [e] else []
  }

  /** The header findings raised by the three header conditions, in the order they are checked. */
  function HeaderFlags(shortTopic: bool, empty: bool, mismatch: bool): seq<QuizError> {
    [] + Flag(shortTopic, TopicTooShort) + Flag(empty, NoQuestions) + Flag(mismatch, CountMismatch)
  }

  /** The findings about the quiz as a whole. */
  function HeaderErrors(quiz: Quiz): seq<QuizError> {
    HeaderFlags(|Strip(quiz.topic)| < MinTopicLength, quiz.questions == [],
                quiz.totalQuestions != |quiz.questions|)
  }

  /** The findings raised by the four per-question conditions, in the order they are checked. */
  function QuestionFlags(i: nat, shortText: bool, wrongCount: bool, outOfRange: bool, shortExplanation: bool)
    : seq<QuizError>
  {
    []
    + Flag(shortText, QuestionTooShort(i))
    + Flag(wrongCount, WrongOptionCount(i))
    + Flag(outOfRange, AnswerOutOfRange(i))
    + Flag(shortExplanation, ExplanationTooShort(i))
  }

  /** The findings about the question at position i. */
  function QuestionErrors(i: nat, q: QuizQuestion): seq<QuizError> {
    QuestionFlags(i, |Strip(q.question)| < MinQuestionTextLength, |q.options| != OptionsPerQuestion,
                  q.correctAnswer < 0 || q.correctAnswer > 3, |Strip(q.explanation)| < MinExplanationLength)
  }

  /** The findings about one question all concern that question. */
  lemma QuestionErrorsConcern(i: nat, q: QuizQuestion)
    ensures forall e :: e in QuestionErrors(i, q) ==>
      e.IsPerQuestion() && e.index == i && 3 + 4 * i <= e.Position() < 7 + 4 * i
  {
    forall e | e in QuestionErrors(i, q)
      ensures e.IsPerQuestion() && e.index == i && 3 + 4 * i <= e.Position() < 7 + 4 * i
    {
      assert e == QuestionTooShort(i) || e == WrongOptionCount(i)
          || e == AnswerOutOfRange(i) || e == ExplanationTooShort(i);
    }
  }

  /** The findings about every question, question by question. */
  function AllQuestionErrors(qs: seq<QuizQuestion>): (r: seq<QuizError>)
    ensures forall e :: e in r ==> e.IsPerQuestion() && e.index < |qs|
  {
    if qs == [] then []
    else
      QuestionErrorsConcern(|qs| - 1, qs[|qs| - 1]);
      AllQuestionErrors(qs[..|qs| - 1]) + QuestionErrors(|qs| - 1, qs[|qs| - 1])
  }

  /** Everything the validator reports about a quiz, in report order. */
  function QuizErrors(quiz: Quiz): seq<QuizError> {
    HeaderErrors(quiz) + AllQuestionErrors(quiz.questions)
  }

  /** A question that meets every structural rule. */
  predicate QuestionConforms(q: QuizQuestion) {
    && |Strip(q.question)| >= MinQuestionTextLength
    && |q.options| == OptionsPerQuestion
    && 0 <= q.correctAnswer <= 3
    && |Strip(q.explanation)| >= MinExplanationLength
  }

  /** A quiz that meets every structural rule. */
  predicate Conforms(quiz: Quiz) {
    && |Strip(quiz.topic)| >= MinTopicLength
    && quiz.questions != []
    && quiz.totalQuestions == |quiz.questions|
    && forall k :: 0 <= k < |quiz.questions| ==> QuestionConforms(quiz.questions[k])
  }

  /** Findings listed strictly in report order, hence each at most once. */
  predicate InReportOrder(errors: seq<QuizError>) {
    forall a, b :: 0 <= a < b < |errors| ==> errors[a].Position() < errors[b].Position()
  }

  /** Each per-question finding is reported exactly when its condition holds. */
  lemma QuestionErrorsIff(i: nat, q: QuizQuestion)
    ensures QuestionTooShort(i) in QuestionErrors(i, q) <==> |Strip(q.question)| < 5
    ensures WrongOptionCount(i) in QuestionErrors(i, q) <==> |q.options| != 4
    ensures AnswerOutOfRange(i) in QuestionErrors(i, q) <==> !(0 <= q.correctAnswer <= 3)
    ensures ExplanationTooShort(i) in QuestionErrors(i, q) <==> |Strip(q.explanation)| < 10
  {
  }

  /** The findings about one question come in report order. */
  lemma QuestionErrorsInReportOrder(i: nat, q: QuizQuestion)
    ensures InReportOrder(QuestionErrors(i, q))
  {
    QuestionFlagsInReportOrder(i, |Strip(q.question)| < MinQuestionTextLength, |q.options| != OptionsPerQuestion,
                               q.correctAnswer < 0 || q.correctAnswer > 3, |Strip(q.explanation)| < MinExplanationLength);
  }

  lemma QuestionFlagsInReportOrder(i: nat, shortText: bool, wrongCount: bool, outOfRange: bool, shortExplanation: bool)
    ensures InReportOrder(QuestionFlags(i, shortText, wrongCount, outOfRange, shortExplanation))
  {
    var f1 := Flag(shortText, QuestionTooShort(i));
    var f2 := Flag(wrongCount, WrongOptionCount(i));
    var f3 := Flag(outOfRange, AnswerOutOfRange(i));
    var f4 := Flag(shortExplanation, ExplanationTooShort(i));
    assert [] + f1 == f1;
    ConcatInReportOrder([] + f1, f2, 4 + 4 * i);
    ConcatInReportOrder([] + f1 + f2, f3, 5 + 4 * i);
    ConcatInReportOrder([] + f1 + f2 + f3, f4, 6 + 4 * i);
  }

  /** A per-question finding appears in the whole list iff it appears among its own question's findings. */
  lemma {:induction false} PerQuestionMembership(qs: seq<QuizQuestion>, e: QuizError)
    requires e.IsPerQuestion() && e.index < |qs|
    ensures e in AllQuestionErrors(qs) <==> e in QuestionErrors(e.index, qs[e.index])
  {
    var n := |qs|;
    var front := qs[..n - 1];
    assert AllQuestionErrors(qs) == AllQuestionErrors(front) + QuestionErrors(n - 1, qs[n - 1]);
    QuestionErrorsConcern(n - 1, qs[n - 1]);
    if e.index < n - 1 {
      PerQuestionMembership(front, e);
      assert qs[e.index] == front[e.index];
    }
  }

  /**
   * For question i the validator reports each of the four per-question
   * findings exactly when its condition holds.
   */
  lemma QuestionErrorIff(qs: seq<QuizQuestion>, i: nat)
    requires i < |qs|
    ensures QuestionTooShort(i) in AllQuestionErrors(qs) <==> |Strip(qs[i].question)| < 5
    ensures WrongOptionCount(i) in AllQuestionErrors(qs) <==> |qs[i].options| != 4
    ensures AnswerOutOfRange(i) in AllQuestionErrors(qs) <==> !(0 <= qs[i].correctAnswer <= 3)
    ensures ExplanationTooShort(i) in AllQuestionErrors(qs) <==> |Strip(qs[i].explanation)| < 10
  {
    PerQuestionMembership(qs, QuestionTooShort(i));
    PerQuestionMembership(qs, WrongOptionCount(i));
    PerQuestionMembership(qs, AnswerOutOfRange(i));
    PerQuestionMembership(qs, ExplanationTooShort(i));
    QuestionErrorsIff(i, qs[i]);
  }

  /** The header findings are reported exactly when their conditions hold. */
  lemma HeaderErrorIff(quiz: Quiz)
    ensures TopicTooShort in QuizErrors(quiz) <==> |Strip(quiz.topic)| < 3
    ensures NoQuestions in QuizErrors(quiz) <==> quiz.questions == []
    ensures CountMismatch in QuizErrors(quiz) <==> quiz.totalQuestions != |quiz.questions|
  {
    var tail := AllQuestionErrors(quiz.questions);
    assert TopicTooShort !in tail && NoQuestions !in tail && CountMismatch !in tail;
  }

  /** The per-question conditions, stated for the whole report. */
  lemma QuizQuestionErrorIff(quiz: Quiz, i: nat)
    requires i < |quiz.questions|
    ensures QuestionTooShort(i) in QuizErrors(quiz) <==> |Strip(quiz.questions[i].question)| < 5
    ensures WrongOptionCount(i) in QuizErrors(quiz) <==> |quiz.questions[i].options| != 4
    ensures AnswerOutOfRange(i) in QuizErrors(quiz) <==> !(0 <= quiz.questions[i].correctAnswer <= 3)
    ensures ExplanationTooShort(i) in QuizErrors(quiz) <==> |Strip(quiz.questions[i].explanation)| < 10
  {
    QuestionErrorIff(quiz.questions, i);
  }

  /** A quiz drawing no finding meets every rule. */
  lemma NoErrorsConforms(quiz: Quiz)
    requires QuizErrors(quiz) == []
    ensures Conforms(quiz)
  {
    HeaderErrorIff(quiz);
    var qs := quiz.questions;
    forall k | 0 <= k < |qs| ensures QuestionConforms(qs[k]) {
      QuestionErrorIff(qs, k);
    }
  }

  /** A quiz drawing the finding `e` breaks a rule. */
  lemma ErrorBreaksRule(quiz: Quiz, e: QuizError)
    requires e in QuizErrors(quiz)
    ensures !Conforms(quiz)
  {
    HeaderErrorIff(quiz);
    if e.IsPerQuestion() {
      QuestionErrorIff(quiz.questions, e.index);
    }
  }

  /** The validator returns no finding exactly when the quiz meets every rule. */
  lemma NoErrorsIffConforms(quiz: Quiz)
    ensures QuizErrors(quiz) == [] <==> Conforms(quiz)
  {
    var errors := QuizErrors(quiz);
    if errors == [] {
      NoErrorsConforms(quiz);
    } else {
      ErrorBreaksRule(quiz, errors[0]);
    }
  }

  /** Positions of the findings about the first n questions. */
  lemma {:induction false} AllQuestionErrorsPositions(qs: seq<QuizQuestion>)
    ensures InReportOrder(AllQuestionErrors(qs))
    ensures forall e :: e in AllQuestionErrors(qs) ==> 3 <= e.Position() < 3 + 4 * |qs|
  {
    if qs != [] {
      var n := |qs|;
      var front := AllQuestionErrors(qs[..n - 1]);
      var last := QuestionErrors(n - 1, qs[n - 1]);
      AllQuestionErrorsPositions(qs[..n - 1]);
      QuestionErrorsConcern(n - 1, qs[n - 1]);
      QuestionErrorsInReportOrder(n - 1, qs[n - 1]);
      ConcatInReportOrder(front, last, 3 + 4 * (n - 1));
    }
  }

  lemma ConcatInReportOrder(a: seq<QuizError>, b: seq<QuizError>, bound: int)
    requires InReportOrder(a) && InReportOrder(b)
    requires forall e :: e in a ==> e.Position() < bound
    requires forall e :: e in b ==> bound <= e.Position()
    ensures InReportOrder(a + b)
  {
    forall x, y | 0 <= x < y < |a + b| ensures (a + b)[x].Position() < (a + b)[y].Position() {
      if y < |a| {
      } else if x >= |a| {
        assert (a + b)[x] == b[x - |a|] && (a + b)[y] == b[y - |a|];
      } else {
        assert (a + b)[x] in a && (a + b)[y] in b;
      }
    }
  }

  /**
   * The validator reports header findings before question findings, and
   * question findings question by question, in the fixed order: text,
   * options, correct index, explanation.
   */
  lemma QuizErrorsInReportOrder(quiz: Quiz)
    ensures InReportOrder(QuizErrors(quiz))
  {
    HeaderErrorsInReportOrder(quiz);
    AllQuestionErrorsPositions(quiz.questions);
    ConcatInReportOrder(HeaderErrors(quiz), AllQuestionErrors(quiz.questions), 3);
  }

  /** The header findings come in report order, before every question finding. */
  lemma HeaderErrorsInReportOrder(quiz: Quiz)
    ensures InReportOrder(HeaderErrors(quiz))
    ensures forall e :: e in HeaderErrors(quiz) ==> e.Position() < 3
  {
    HeaderFlagsInReportOrder(|Strip(quiz.topic)| < MinTopicLength, quiz.questions == [],
                             quiz.totalQuestions != |quiz.questions|);
  }

  /** The three header findings, whichever of them are raised, come in report order. */
  lemma HeaderFlagsInReportOrder(shortTopic: bool, empty: bool, mismatch: bool)
    ensures InReportOrder(HeaderFlags(shortTopic, empty, mismatch))
    ensures forall e :: e in HeaderFlags(shortTopic, empty, mismatch) ==> e.Position() < 3
  {
    var f1 := Flag(shortTopic, TopicTooShort);
    var f2 := Flag(empty, NoQuestions);
    var f3 := Flag(mismatch, CountMismatch);
    assert [] + f1 == f1;
    ConcatInReportOrder([] + f1, f2, 1);
    ConcatInReportOrder([] + f1 + f2, f3, 2);
  }

  /** A quiz built through the constructor never draws the count-mismatch finding. */
  lemma ConstructedQuizCountConsistent(topic: string, questions: seq<QuizQuestion>, supplied: int)
    requires NewQuiz(topic, questions, supplied).Success?
    ensures CountMismatch !in QuizErrors(NewQuiz(topic, questions, supplied).value)
  {
    var quiz := NewQuiz(topic, questions, supplied).value;
    NewQuizCountsQuestions(topic, questions, supplied);
    HeaderErrorIff(quiz);
  }

  /** Rendering a longer list appends the new finding's message. */
  lemma RenderSnoc(a: seq<QuizError>, e: QuizError)
    ensures Render(a + [e]) == Render(a) + [Message(e)]
  {
    MapSeqSnoc(Message, a, e);
  }

  /** One message per finding, in the same order. */
  lemma RenderPointwise(errors: seq<QuizError>)
    ensures forall k :: 0 <= k < |errors| ==> Render(errors)[k] == Message(errors[k])
  {
    MapSeqPointwise(Message, errors);
  }

  /** Rendering distributes over concatenation. */
  lemma RenderConcat(a: seq<QuizError>, b: seq<QuizError>)
    ensures Render(a + b) == Render(a) + Render(b)
  {
    MapSeqConcat(Message, a, b);
  }

  /** The findings about one more question come after those about the earlier ones. */
  lemma AllQuestionErrorsSnoc(qs: seq<QuizQuestion>, i: nat)
    requires i < |qs|
    ensures AllQuestionErrors(qs[..i + 1]) == AllQuestionErrors(qs[..i]) + QuestionErrors(i, qs[i])
  {
    assert qs[..i + 1][..i] == qs[..i];
  }

  /** One `if ...: errors.append(...)` step of the validator. */
  method Report(errors: seq<string>, ghost found: seq<QuizError>, condition: bool, e: QuizError)
    returns (errors': seq<string>, ghost found': seq<QuizError>)
    requires errors == Render(found)
    ensures found' == found + Flag(condition, e)
    ensures errors' == Render(found + Flag(condition, e))
  {
    errors', found' := errors, found;
    if condition {
      RenderSnoc(found, e);
      errors', found' := errors + [Message(e)], found + [e];
    }
    assert found' == found + Flag(condition, e);
  }

  /** The validator's checks on the quiz as a whole. */
  method ValidateHeader(quiz: Quiz) returns (errors: seq<string>, ghost found: seq<QuizError>)
    ensures found == HeaderErrors(quiz)
    ensures errors == Render(HeaderErrors(quiz))
  {
    errors, found := [], [];
    errors, found := Report(errors, found, |Strip(quiz.topic)| < MinTopicLength, TopicTooShort);
    errors, found := Report(errors, found, quiz.questions == [], NoQuestions);
    errors, found := Report(errors, found, quiz.totalQuestions != |quiz.questions|, CountMismatch);
  }

  /** The body of the validator's loop: the findings about question i, as messages. */
  method ValidateQuestion(i: nat, question: QuizQuestion) returns (errors: seq<string>, ghost found: seq<QuizError>)
    ensures found == QuestionErrors(i, question)
    ensures errors == Render(QuestionErrors(i, question))
  {
    errors, found := [], [];
    errors, found := Report(errors, found, |Strip(question.question)| < MinQuestionTextLength, QuestionTooShort(i));
    errors, found := Report(errors, found, |question.options| != OptionsPerQuestion, WrongOptionCount(i));
    errors, found := Report(errors, found, question.correctAnswer < 0 || question.correctAnswer > 3, AnswerOutOfRange(i));
    errors, found := Report(errors, found, |Strip(question.explanation)| < MinExplanationLength, ExplanationTooShort(i));
  }

  /** The validator's loop over the questions: their findings as messages, question by question. */
  method ValidateQuestions(qs: seq<QuizQuestion>) returns (errors: seq<string>, ghost found: seq<QuizError>)
    ensures found == AllQuestionErrors(qs)
    ensures errors == Render(AllQuestionErrors(qs))
  {
    errors, found := [], [];
    assert AllQuestionErrors(qs[..0]) == [];
    for i := 0 to |qs|
      invariant found == AllQuestionErrors(qs[..i])
      invariant errors == Render(found)
    {
      var more;
      ghost var moreFound;
      more, moreFound := ValidateQuestion(i, qs[i]);
      RenderConcat(found, moreFound);
      AllQuestionErrorsSnoc(qs, i);
      errors, found := errors + more, found + moreFound;
    }
    assert qs[..|qs|] == qs;
  }

  /** `validate_quiz`: the findings about a quiz as messages, in report order. */
  method ValidateQuiz(quiz: Quiz) returns (errors: seq<string>)
    ensures errors == Render(QuizErrors(quiz))
    ensures errors == [] <==> Conforms(quiz)
  {
    var header, more;
    ghost var headerFound, moreFound;
    header, headerFound := ValidateHeader(quiz);
    more, moreFound := ValidateQuestions(quiz.questions);
    RenderConcat(headerFound, moreFound);
    errors := header + more;
    NoErrorsIffConforms(quiz);
  }

  // ---------------------------------------------------------------------
  // The fallback quiz

  function FallbackQuestionText(topic: string, i: nat): string {
    "What is an important concept related to " + topic + "? (Question " + NatToString(i + 1) + ")"
  }

  function FallbackOptions(topic: string): seq<string> {
    ["Option A about " + topic, "Option B about " + topic,
     "Option C about " + topic, "Option D about " + topic]
  }

  function FallbackExplanation(topic: string): string {
    "This is a fallback question about " + topic + ". Please check your API key and try again."
  }

  /** The placeholder question at position i (correct option fixed at 0). */
  function FallbackQuestion(topic: string, i: nat, difficulty: Difficulty): QuizQuestion {
    QuizQuestion(FallbackQuestionText(topic, i), FallbackOptions(topic), 0,
                 FallbackExplanation(topic), difficulty)
  }

  /** The first n placeholder questions. */
  function FallbackQuestions(topic: string, n: nat, difficulty: Difficulty): (r: seq<QuizQuestion>)
    ensures |r| == n
    ensures forall k :: 0 <= k < n ==> r[k] == FallbackQuestion(topic, k, difficulty)
  {
    if n == 0 then []
    else FallbackQuestions(topic, n - 1, difficulty) + [FallbackQuestion(topic, n - 1, difficulty)]
  }

  /**
   * The fallback quiz for a requested count. A count below one leaves the
   * question list empty, which the Quiz constructor rejects.
   */
  function FallbackQuiz(topic: string, numQuestions: int, difficulty: Difficulty)
    : Result<Quiz, seq<string>>
  {
    NewQuiz(topic, FallbackQuestions(topic, if numQuestions < 0 then 0 else numQuestions, difficulty),
            numQuestions)
  }

  /**
   * The fallback quiz exists exactly for a count of at least one, and then
   * has that many questions, each with four options, the first one correct,
   * and the requested difficulty.
   */
  lemma FallbackShape(topic: string, numQuestions: int, difficulty: Difficulty)
    ensures FallbackQuiz(topic, numQuestions, difficulty).Success? <==> numQuestions >= 1
    ensures FallbackQuiz(topic, numQuestions, difficulty).Success? ==>
      var quiz := FallbackQuiz(topic, numQuestions, difficulty).value;
      && quiz.topic == topic
      && |quiz.questions| == numQuestions
      && quiz.totalQuestions == numQuestions
      && forall k :: 0 <= k < |quiz.questions| ==>
           && quiz.questions[k].WithinBounds()
           && quiz.questions[k].correctAnswer == 0
           && quiz.questions[k].difficulty == difficulty
  {
  }

  /** Text that opens and closes with a non-blank character is left alone by `strip`. */
  lemma StripFramed(opening: string, middle: string, closing: string)
    requires opening != [] && closing != []
    requires !IsSpace(opening[0]) && !IsSpace(closing[|closing| - 1])
    ensures Strip(opening + middle + closing) == opening + middle + closing
  {
    var s := opening + middle + closing;
    assert s[0] == opening[0] && s[|s| - 1] == closing[|closing| - 1];
    StripKeeps(s);
  }

  /** Every placeholder question meets the validator's rules, whatever the topic. */
  lemma FallbackQuestionConforms(topic: string, i: nat, difficulty: Difficulty)
    ensures QuestionConforms(FallbackQuestion(topic, i, difficulty))
  {
    var opening := "What is an important concept related to ";
    var middle := topic + "? (Question " + NatToString(i + 1);
    assert FallbackQuestionText(topic, i) == opening + middle + ")";
    StripFramed(opening, middle, ")");
    var lead := "This is a fallback question about ";
    var closing := ". Please check your API key and try again.";
    assert FallbackExplanation(topic) == lead + topic + closing;
    StripFramed(lead, topic, closing);
  }

  /** The fallback quiz passes the validator when the stripped topic has at least 3 characters. */
  lemma FallbackPassesValidation(topic: string, numQuestions: int, difficulty: Difficulty)
    requires |Strip(topic)| >= 3 && numQuestions >= 1
    ensures FallbackQuiz(topic, numQuestions, difficulty).Success?
    ensures QuizErrors(FallbackQuiz(topic, numQuestions, difficulty).value) == []
  {
    FallbackShape(topic, numQuestions, difficulty);
    var quiz := FallbackQuiz(topic, numQuestions, difficulty).value;
    forall k | 0 <= k < |quiz.questions| ensures QuestionConforms(quiz.questions[k]) {
      FallbackQuestionConforms(topic, k, difficulty);
    }
    NoErrorsIffConforms(quiz);
  }

  /** The constructor accepts every placeholder question, and the list grows by it at the back. */
  lemma FallbackQuestionsSnoc(topic: string, i: nat, difficulty: Difficulty)
    ensures NewQuizQuestion(FallbackQuestionText(topic, i), FallbackOptions(topic), 0,
                            FallbackExplanation(topic), difficulty)
         == Success(FallbackQuestion(topic, i, difficulty))
    ensures FallbackQuestions(topic, i + 1, difficulty)
         == FallbackQuestions(topic, i, difficulty) + [FallbackQuestion(topic, i, difficulty)]
  {
  }

  /** `_generate_fallback_quiz`. */
  method GenerateFallbackQuiz(topic: string, numQuestions: int, difficulty: Difficulty)
    returns (r: Result<Quiz, seq<string>>)
    ensures r == FallbackQuiz(topic, numQuestions, difficulty)
  {
    var questions: seq<QuizQuestion> := [];
    var i := 0;
    while i < numQuestions
      invariant 0 <= i && (i <= numQuestions || i == 0)
      invariant questions == FallbackQuestions(topic, i, difficulty)
    {
      var made := NewQuizQuestion(FallbackQuestionText(topic, i), FallbackOptions(topic), 0,
                                  FallbackExplanation(topic), difficulty);
      FallbackQuestionsSnoc(topic, i, difficulty);
      questions := questions + [made.value];
      i := i + 1;
    }
    assert i == if numQuestions < 0 then 0 else numQuestions;
    r := NewQuiz(topic, questions, numQuestions);
  }

  // ---------------------------------------------------------------------
  // The decision after parsing

  /** The post-parse check: the requested count, and four options and an index in [0, 3] everywhere. */
  predicate AcceptsParsed(quiz: Quiz, numQuestions: int) {
    && |quiz.questions| == numQuestions
    && forall k :: 0 <= k < |quiz.questions| ==> quiz.questions[k].WithinBounds()
  }

  /** What `generate_quiz` returns, given what parsing the model's response produced. */
  function GeneratedQuiz(topic: string, numQuestions: int, difficulty: Difficulty, parsed: Option<Quiz>)
    : Result<Quiz, seq<string>>
  {
    if parsed.Some? && AcceptsParsed(parsed.value, numQuestions) then Success(parsed.value)
    else FallbackQuiz(topic, numQuestions, difficulty)
  }

  /**
   * Whatever the model returned, a count of at least one yields a quiz with
   * exactly that many questions, each with four options and an in-range
   * index: the parsed quiz when it passes the check, the fallback otherwise.
   */
  lemma GeneratedQuizWellShaped(topic: string, numQuestions: int, difficulty: Difficulty, parsed: Option<Quiz>)
    requires numQuestions >= 1
    ensures GeneratedQuiz(topic, numQuestions, difficulty, parsed).Success?
    ensures var quiz := GeneratedQuiz(topic, numQuestions, difficulty, parsed).value;
      && |quiz.questions| == numQuestions
      && forall k :: 0 <= k < |quiz.questions| ==> quiz.questions[k].WithinBounds()
  {
    FallbackShape(topic, numQuestions, difficulty);
  }

  /** A parsed quiz whose questions all came through the QuizQuestion constructor only needs the right count. */
  lemma ConstructedQuestionsPassCheck(quiz: Quiz, numQuestions: int)
    requires forall k :: 0 <= k < |quiz.questions| ==> quiz.questions[k].WithinBounds()
    ensures AcceptsParsed(quiz, numQuestions) <==> |quiz.questions| == numQuestions
  {
  }

  /** `generate_quiz` from the parsing step on: check the parsed quiz, fall back on any failure. */
  method GenerateQuiz(topic: string, numQuestions: int, difficulty: Difficulty, parsed: Option<Quiz>)
    returns (r: Result<Quiz, seq<string>>)
    ensures r == GeneratedQuiz(topic, numQuestions, difficulty, parsed)
  {
    if parsed.None? {
      r := GenerateFallbackQuiz(topic, numQuestions, difficulty);
      return;
    }
    var quiz := parsed.value;
    if |quiz.questions| != numQuestions {
      r := GenerateFallbackQuiz(topic, numQuestions, difficulty);
      return;
    }
    for i := 0 to |quiz.questions|
      invariant forall k :: 0 <= k < i ==> quiz.questions[k].WithinBounds()
    {
      var question := quiz.questions[i];
      if |question.options| != OptionsPerQuestion || question.correctAnswer < 0 || question.correctAnswer > 3 {
        assert !quiz.questions[i].WithinBounds();
        r := GenerateFallbackQuiz(topic, numQuestions, difficulty);
        return;
      }
    }
    assert AcceptsParsed(quiz, numQuestions);
    r := Success(quiz);
  }
}
