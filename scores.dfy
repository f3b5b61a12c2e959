/**
 * The score manager: an in-memory store of quiz sessions keyed by session
 * id. Each session holds its quiz, a running score, a log of submitted
 * answers, correct and incorrect counters, and two timestamps.
 *
 * The store is a class whose fields the operations update in place. The
 * session records are values kept in the store's map; `keyOrder` is the
 * insertion order of the map's keys, which the store's dictionary keeps
 * and which the cleanup and leaderboard loops iterate in. Time is a
 * number of whole seconds supplied by the caller.
 */
module Scores {
  import opened Wrappers
  import opened Python
  import opened SeqUtil
  import opened Models
  import opened Leaderboard

  /** One entry of a session's answer log. */
  datatype AnswerRecord = AnswerRecord(
    questionIndex: int,
    selectedOption: int,
    isCorrect: bool,
    scoreChange: int,
    timestamp: int)

  /** The state of one user's attempt at a quiz. */
  datatype Session = Session(
    quiz: Quiz,
    score: int,
    answers: seq<AnswerRecord>,
    correctCount: int,
    incorrectCount: int,
    startedAt: int,
    lastActivity: int)

  /** The two ways a request about a session is refused. */
  datatype SessionError = InvalidSessionId | InvalidQuestionIndex {
    function Message(): string {
      match this
      case InvalidSessionId => "Invalid session ID"
      case InvalidQuestionIndex => "Invalid question index"
    }
  }

  // ---------------------------------------------------------------------
  // Scoring

  /** The scoring rules installed by the constructor. */
  const ScoringTable: map<string, int> := map[
    "correct_easy" := 1,
    "correct_medium" := 2,
    "correct_hard" := 3,
    "incorrect_easy" := -1,
    "incorrect_medium" := -2,
    "incorrect_hard" := -3]

  /** How much an answer at a difficulty is worth, either way. */
  function Weight(d: Difficulty): int {
    match d
    case Easy => 1
    case Medium => 2
    case Hard => 3
  }

  /** The rule name consulted for an answer: `correct_<d>` or `incorrect_<d>`. */
  function ScoringKey(isCorrect: bool, d: Difficulty): string {
    (if isCorrect then "correct_" else "incorrect_") + d.Value()
  }

  /** The lookup is total: every outcome at every difficulty has a rule, worth plus or minus the weight. */
  lemma ScoringLookup(isCorrect: bool, d: Difficulty)
    ensures ScoringKey(isCorrect, d) in ScoringTable
    ensures ScoringTable[ScoringKey(isCorrect, d)] == if isCorrect then Weight(d) else -Weight(d)
  {
    match d
    case Easy =>
      assert ScoringKey(isCorrect, d) == if isCorrect then "correct_easy" else "incorrect_easy";
    case Medium =>
      assert ScoringKey(isCorrect, d) == if isCorrect then "correct_medium" else "incorrect_medium";
    case Hard =>
      assert ScoringKey(isCorrect, d) == if isCorrect then "correct_hard" else "incorrect_hard";
  }

  /** The score change for an answer, as the rules table gives it. */
  function ScoreChange(isCorrect: bool, d: Difficulty): (r: int)
    ensures r == if isCorrect then Weight(d) else -Weight(d)
    ensures isCorrect ==> r > 0
    ensures !isCorrect ==> r < 0
  {
    ScoringLookup(isCorrect, d);
    ScoringTable[ScoringKey(isCorrect, d)]
  }

  // ---------------------------------------------------------------------
  // The answer log and the session invariant

  /** The sum of the logged score changes. */
  function SumScoreChanges(answers: seq<AnswerRecord>): int {
    if answers == [] then 0
    else SumScoreChanges(answers[..|answers| - 1]) + answers[|answers| - 1].scoreChange
  }

  /** The number of logged answers that were correct. */
  function CountCorrect(answers: seq<AnswerRecord>): (r: nat)
    ensures r <= |answers|
  {
    if answers == [] then 0
    else CountCorrect(answers[..|answers| - 1]) + (if answers[|answers| - 1].isCorrect then 1 else 0)
  }

  /**
   * The score is the sum of the logged score changes, and the counters
   * count the correct and the incorrect logged answers.
   */
  predicate Consistent(s: Session) {
    s.score == SumScoreChanges(s.answers)
    && s.correctCount == CountCorrect(s.answers)
    && s.incorrectCount == |s.answers| - CountCorrect(s.answers)
  }

  /** Appending a record adds its change to the sum and its outcome to the count. */
  lemma LogAppend(answers: seq<AnswerRecord>, record: AnswerRecord)
    ensures SumScoreChanges(answers + [record]) == SumScoreChanges(answers) + record.scoreChange
    ensures CountCorrect(answers + [record]) == CountCorrect(answers) + (if record.isCorrect then 1 else 0)
  {
    assert (answers + [record])[..|answers|] == answers;
  }

  // ---------------------------------------------------------------------
  // Sessions

  /** A fresh session for a quiz, created at time `now`. */
  function NewSession(quiz: Quiz, now: int): (r: Session)
    ensures Consistent(r)
  {
    Session(quiz, 0, [], 0, 0, now, now)
  }

  /** The response to answering question `questionIndex` with option `selectedOption`. */
  function Answer(s: Session, questionIndex: int, selectedOption: int): (r: AnswerResponse)
    requires 0 <= questionIndex < |s.quiz.questions|
    ensures r.correct <==> selectedOption == s.quiz.questions[questionIndex].correctAnswer
    ensures r.scoreChange == if r.correct then Weight(s.quiz.questions[questionIndex].difficulty)
                             else -Weight(s.quiz.questions[questionIndex].difficulty)
    ensures r.correctAnswer == s.quiz.questions[questionIndex].correctAnswer
    ensures r.explanation == s.quiz.questions[questionIndex].explanation
  {
    var question := s.quiz.questions[questionIndex];
    var isCorrect := selectedOption == question.correctAnswer;
    AnswerResponse(isCorrect, question.correctAnswer, question.explanation,
                   ScoreChange(isCorrect, question.difficulty))
  }

  /** The session after the answer: scored, counted, logged and touched at `now`. */
  function RecordAnswer(s: Session, questionIndex: int, selectedOption: int, now: int): (r: Session)
    requires 0 <= questionIndex < |s.quiz.questions|
    ensures Consistent(s) ==> Consistent(r)
  {
    var response := Answer(s, questionIndex, selectedOption);
    var record := AnswerRecord(questionIndex, selectedOption, response.correct, response.scoreChange, now);
    LogAppend(s.answers, record);
    s.(score := s.score + response.scoreChange,
       answers := s.answers + [record],
       correctCount := if response.correct then s.correctCount + 1 else s.correctCount,
       incorrectCount := if response.correct then s.incorrectCount else s.incorrectCount + 1,
       lastActivity := now)
  }

  /** A successful answer changes the score by the response's change, counts once and logs once. */
  lemma RecordAnswerEffects(s: Session, questionIndex: int, selectedOption: int, now: int)
    requires 0 <= questionIndex < |s.quiz.questions|
    ensures var r := RecordAnswer(s, questionIndex, selectedOption, now);
      var response := Answer(s, questionIndex, selectedOption);
      && r.score == s.score + response.scoreChange
      && (response.correct ==> r.correctCount == s.correctCount + 1 && r.incorrectCount == s.incorrectCount)
      && (!response.correct ==> r.incorrectCount == s.incorrectCount + 1 && r.correctCount == s.correctCount)
      && |r.answers| == |s.answers| + 1 && r.answers[..|s.answers|] == s.answers
      && r.answers[|s.answers|].isCorrect == response.correct
      && r.answers[|s.answers|].scoreChange == response.scoreChange
      && r.quiz == s.quiz && r.startedAt == s.startedAt && r.lastActivity == now
  {
  }

  /** A selection outside the four options is never correct for a well-formed question. */
  lemma OutOfRangeSelectionIncorrect(s: Session, questionIndex: int, selectedOption: int)
    requires 0 <= questionIndex < |s.quiz.questions|
    requires s.quiz.questions[questionIndex].WithinBounds()
    requires !(0 <= selectedOption <= 3)
    ensures !Answer(s, questionIndex, selectedOption).correct
    ensures Answer(s, questionIndex, selectedOption).scoreChange < 0
  {
  }

  /** The session with its answers cleared, touched at `now`. */
  function ResetState(s: Session, now: int): (r: Session)
    ensures Consistent(r)
    ensures ScoreOf(r) == ScoreResponse(0, 0, 0, 0, 0.0)
    ensures r.quiz == s.quiz && r.startedAt == s.startedAt && r.lastActivity == now
  {
    s.(score := 0, answers := [], correctCount := 0, incorrectCount := 0, lastActivity := now)
  }

  // ---------------------------------------------------------------------
  // Scores

  /** The percentage of correct answers; 0 when nothing was answered. */
  function Percentage(correct: int, answered: int): real {
    if answered > 0 then (correct as real / answered as real) * 100.0 else 0.0
  }

  /** A percentage of correct answers lies in [0, 100] and is exactly correct * 100 / answered. */
  lemma PercentageBounds(correct: int, answered: int)
    ensures 0 <= correct <= answered ==> 0.0 <= Percentage(correct, answered) <= 100.0
    ensures answered > 0 ==> Percentage(correct, answered) * (answered as real) == (correct as real) * 100.0
    ensures 0 <= correct <= answered && answered > 0 ==>
      (Percentage(correct, answered) == 100.0 <==> correct == answered)
    ensures 0 <= correct <= answered ==> (Percentage(correct, answered) == 0.0 <==> correct == 0)
  {
    if 0 <= correct <= answered && answered > 0 {
      var ratio := correct as real / answered as real;
      assert ratio * (answered as real) == correct as real;
      assert ratio <= 1.0 by {
        assert ratio * (answered as real) <= 1.0 * (answered as real);
      }
      assert ratio == 1.0 <==> correct == answered;
    }
  }

  /** The score view of a session. */
  function ScoreOf(s: Session): (r: ScoreResponse)
    ensures r.currentScore == s.score && r.totalQuestionsAnswered == |s.answers|
    ensures r.correctAnswers == s.correctCount && r.incorrectAnswers == s.incorrectCount
    ensures |s.answers| == 0 ==> r.percentage == 0.0
    ensures Consistent(s) ==> r.correctAnswers + r.incorrectAnswers == r.totalQuestionsAnswered
    ensures Consistent(s) ==> 0.0 <= r.percentage <= 100.0
    ensures Consistent(s) && |s.answers| > 0 ==>
      r.percentage * (|s.answers| as real) == (s.correctCount as real) * 100.0
  {
    PercentageBounds(s.correctCount, |s.answers|);
    ScoreResponse(s.score, |s.answers|, s.correctCount, s.incorrectCount,
                  Percentage(s.correctCount, |s.answers|))
  }

  /** A new session scores nothing. */
  lemma NewSessionScore(quiz: Quiz, now: int)
    ensures ScoreOf(NewSession(quiz, now)) == ScoreResponse(0, 0, 0, 0, 0.0)
    ensures NewSession(quiz, now).startedAt == now && NewSession(quiz, now).lastActivity == now
  {
  }

  /** Answering the first question of a new session correctly at MEDIUM scores 2 at 100 percent. */
  lemma FirstCorrectMediumAnswer(quiz: Quiz, created: int, answered: int)
    requires |quiz.questions| >= 1 && quiz.questions[0].difficulty == Medium
    ensures var s := RecordAnswer(NewSession(quiz, created), 0, quiz.questions[0].correctAnswer, answered);
      ScoreOf(s) == ScoreResponse(2, 1, 1, 0, 100.0)
  {
    var s := RecordAnswer(NewSession(quiz, created), 0, quiz.questions[0].correctAnswer, answered);
    PercentageBounds(1, 1);
    assert |s.answers| == 1;
  }

  /** Everything a session summary reports. */
  datatype Summary = Summary(
    sessionId: string,
    quizTopic: string,
    totalQuestions: int,
    score: int,
    questionsAnswered: int,
    correctAnswers: int,
    incorrectAnswers: int,
    percentage: real,
    startedAt: int,
    lastActivity: int,
    answers: seq<AnswerRecord>)

  // ---------------------------------------------------------------------
  // Cleanup and leaderboard specifications

  /** Inactive for strictly longer than `maxAgeHours` hours at time `now`. */
  predicate IsExpired(s: Session, now: int, maxAgeHours: int) {
    now - s.lastActivity > maxAgeHours * 3600
  }

  /** The ids of the sessions inactive for too long. */
  function ExpiredSet(sessions: map<string, Session>, now: int, maxAgeHours: int): set<string> {
    set id | id in sessions && IsExpired(sessions[id], now, maxAgeHours)
  }

  /** With a 24-hour limit, a session idle for 30 hours expires and one idle for 1 hour does not. */
  lemma ExpiryExample(quiz: Quiz, now: int)
    ensures var sessions := map["recent" := NewSession(quiz, now - 3600), "stale" := NewSession(quiz, now - 30 * 3600)];
      ExpiredSet(sessions, now, 24) == {"stale"} && |ExpiredSet(sessions, now, 24)| == 1
  {
    var sessions := map["recent" := NewSession(quiz, now - 3600), "stale" := NewSession(quiz, now - 30 * 3600)];
    assert "recent" != "stale";
    assert "stale" in ExpiredSet(sessions, now, 24);
    assert "recent" !in ExpiredSet(sessions, now, 24);
    assert forall id :: id in ExpiredSet(sessions, now, 24) ==> id == "recent" || id == "stale";
  }

  /** The row a session contributes to the leaderboard; only the first 8 characters of its id are shown. */
  function EntryOf(id: string, s: Session): (e: Entry)
    ensures |e.sessionId| <= 8 && |e.sessionId| <= |id| && e.sessionId == id[..|e.sessionId|]
    ensures |id| >= 8 ==> |e.sessionId| == 8
    ensures e.score == s.score && e.percentage == ScoreOf(s).percentage
    ensures e.questionsAnswered == |s.answers| && e.topic == s.quiz.topic
  {
    Entry(Take(id, 8), s.quiz.topic, s.score, ScoreOf(s).percentage, |s.answers|)
  }

  /** Whether a session appears on the leaderboard. */
  predicate Listed(id: string, sessions: map<string, Session>) {
    id in sessions && |sessions[id].answers| > 0
  }

  /** The unsorted leaderboard rows, one per listed session, in the order of `ids`. */
  function Rows(ids: seq<string>, sessions: map<string, Session>): (r: seq<Entry>)
    ensures |r| <= |ids|
  {
    if ids == [] then []
    else
      var id := ids[|ids| - 1];
      Rows(ids[..|ids| - 1], sessions)
      + (if Listed(id, sessions) then [EntryOf(id, sessions[id])] else [])
  }

  /** Every row belongs to a listed session. */
  lemma {:induction false} RowsFromListed(ids: seq<string>, sessions: map<string, Session>, e: Entry)
    requires e in Rows(ids, sessions)
    ensures exists id :: id in ids && Listed(id, sessions) && e == EntryOf(id, sessions[id])
  {
    assert ids != [];
    var init := ids[..|ids| - 1];
    var id := ids[|ids| - 1];
    if e in Rows(init, sessions) {
      RowsFromListed(init, sessions, e);
      var other :| other in init && Listed(other, sessions) && e == EntryOf(other, sessions[other]);
      assert other in ids;
    } else {
      assert id in ids;
    }
  }

  /** Every listed session has its row. */
  lemma {:induction false} ListedHaveRows(ids: seq<string>, sessions: map<string, Session>, id: string)
    requires id in ids && Listed(id, sessions)
    ensures EntryOf(id, sessions[id]) in Rows(ids, sessions)
  {
    var init := ids[..|ids| - 1];
    if ids[|ids| - 1] != id {
      assert id in init by {
        var k :| 0 <= k < |ids| && ids[k] == id;
        assert k < |ids| - 1 && init[k] == id;
      }
      ListedHaveRows(init, sessions, id);
    }
  }

  /** The ids of the stored sessions that have at least one answer. */
  function ListedIds(sessions: map<string, Session>): set<string> {
    set id | id in sessions && Listed(id, sessions)
  }

  /** There is one row for each occurrence of a listed id and none for any other id. */
  lemma {:induction false} RowsOnePerListed(ids: seq<string>, sessions: map<string, Session>)
    ensures |Rows(ids, sessions)| == |Select(ids, ListedIds(sessions))|
  {
    if ids != [] {
      RowsOnePerListed(ids[..|ids| - 1], sessions);
      var id := ids[|ids| - 1];
      assert Listed(id, sessions) <==> id in ListedIds(sessions);
    }
  }

  /** A leaderboard row of a consistent session has answers and a percentage in [0, 100]. */
  lemma RowBounds(ids: seq<string>, sessions: map<string, Session>, e: Entry)
    requires forall id :: id in sessions ==> Consistent(sessions[id])
    requires e in Rows(ids, sessions)
    ensures e.questionsAnswered > 0 && 0.0 <= e.percentage <= 100.0 && |e.sessionId| <= 8
  {
    RowsFromListed(ids, sessions, e);
  }

  /** The keys a sequence of ids holds. */
  function Elements(ids: seq<string>): set<string> {
    set id | id in ids
  }

  lemma ElementsSnoc(ids: seq<string>, j: int)
    requires 0 <= j < |ids|
    ensures Elements(ids[..j + 1]) == Elements(ids[..j]) + {ids[j]}
  {
    assert ids[..j + 1] == ids[..j] + [ids[j]];
  }

  lemma MapMinusTwice(m: map<string, Session>, deleted: set<string>, id: string)
    ensures (m - deleted) - {id} == m - (deleted + {id})
  {
  }

  /** A prefix of a ranked list is ranked. */
  lemma RankedPrefix(s: seq<Entry>, n: nat)
    requires Ranked(s) && n <= |s|
    ensures Ranked(s[..n])
  {
    forall i, j | 0 <= i < j < n ensures !Outranks(s[..n][j], s[..n][i]) {
      assert s[..n][i] == s[i] && s[..n][j] == s[j];
    }
  }

  // ---------------------------------------------------------------------
  // The store

  class ScoreManager {
    /** The sessions by id. */
    var userSessions: map<string, Session>
    /** The ids of `userSessions` in insertion order. */
    var keyOrder: seq<string>
    /** The scoring rules, fixed at construction. */
    const scoringRules: map<string, int>

    ghost predicate Valid()
      reads this
    {
      && scoringRules == ScoringTable
      && Distinct(keyOrder)
      && (forall id :: id in keyOrder <==> id in userSessions)
      && (forall id :: id in userSessions ==> Consistent(userSessions[id]))
    }

    /** An empty store with the standard scoring rules. */
    constructor()
      ensures Valid()
      ensures userSessions == map[] && keyOrder == []
    {
      userSessions := map[];
      keyOrder := [];
      scoringRules := ScoringTable;
    }

    /**
     * Open a session for `quiz` under the fresh id `sessionId` at time
     * `now`; the session is added after all existing ones.
     */
    method CreateSession(quiz: Quiz, sessionId: string, now: int) returns (id: string)
      requires Valid()
      requires sessionId !in userSessions
      modifies this
      ensures Valid()
      ensures id == sessionId
      ensures userSessions == old(userSessions)[id := NewSession(quiz, now)]
      ensures keyOrder == old(keyOrder) + [id]
    {
      id := sessionId;
      userSessions := userSessions[id := Session(quiz, 0, [], 0, 0, now, now)];
      keyOrder := keyOrder + [id];
    }

    /**
     * Answer question `questionIndex` of a session with `selectedOption`
     * at time `now`. An unknown session or an index outside the quiz is
     * refused and changes nothing; otherwise only that session changes.
     */
    method SubmitAnswer(sessionId: string, questionIndex: int, selectedOption: int, now: int)
      returns (r: Result<AnswerResponse, SessionError>)
      requires Valid()
      modifies this
      ensures Valid()
      ensures keyOrder == old(keyOrder)
      ensures sessionId !in old(userSessions) ==>
        r == Failure(InvalidSessionId) && userSessions == old(userSessions)
      ensures (sessionId in old(userSessions)
               && !(0 <= questionIndex < |old(userSessions)[sessionId].quiz.questions|)) ==>
        r == Failure(InvalidQuestionIndex) && userSessions == old(userSessions)
      ensures (sessionId in old(userSessions)
               && 0 <= questionIndex < |old(userSessions)[sessionId].quiz.questions|) ==>
        && r == Success(Answer(old(userSessions)[sessionId], questionIndex, selectedOption))
        && userSessions == old(userSessions)[sessionId :=
             RecordAnswer(old(userSessions)[sessionId], questionIndex, selectedOption, now)]
    {
      if sessionId !in userSessions {
        return Failure(InvalidSessionId);
      }
      var session := userSessions[sessionId];
      var quiz := session.quiz;
      if questionIndex < 0 || questionIndex >= |quiz.questions| {
        return Failure(InvalidQuestionIndex);
      }
      var question := quiz.questions[questionIndex];
      var isCorrect := selectedOption == question.correctAnswer;
      var difficulty := question.difficulty.Value();
      ScoringLookup(isCorrect, question.difficulty);
      assert "correct_" + difficulty == ScoringKey(true, question.difficulty);
      assert "incorrect_" + difficulty == ScoringKey(false, question.difficulty);
      var scoreChange;
      if isCorrect {
        scoreChange := scoringRules["correct_" + difficulty];
        session := session.(correctCount := session.correctCount + 1);
      } else {
        scoreChange := scoringRules["incorrect_" + difficulty];
        session := session.(incorrectCount := session.incorrectCount + 1);
      }
      session := session.(score := session.score + scoreChange);
      session := session.(answers := session.answers
        + [AnswerRecord(questionIndex, selectedOption, isCorrect, scoreChange, now)]);
      session := session.(lastActivity := now);
      assert scoreChange == ScoreChange(isCorrect, question.difficulty);
      assert session == RecordAnswer(old(userSessions)[sessionId], questionIndex, selectedOption, now);
      Store(sessionId, session);
      r := Success(AnswerResponse(isCorrect, question.correctAnswer, question.explanation, scoreChange));
    }

    /** The score view of a session, or a refusal for an unknown id. */
    function GetScore(sessionId: string): (r: Result<ScoreResponse, SessionError>)
      reads this
      ensures r.Failure? <==> sessionId !in userSessions
      ensures r.Failure? ==> r.error == InvalidSessionId
      ensures r.Success? ==> r.value == ScoreOf(userSessions[sessionId])
      ensures r.Success? ==> r.value.currentScore == userSessions[sessionId].score
      ensures r.Success? ==> r.value.totalQuestionsAnswered == |userSessions[sessionId].answers|
      ensures Valid() && r.Success? ==>
        && r.value.correctAnswers + r.value.incorrectAnswers == r.value.totalQuestionsAnswered
        && 0.0 <= r.value.percentage <= 100.0
        && r.value.currentScore == SumScoreChanges(userSessions[sessionId].answers)
    {
      if sessionId !in userSessions then Failure(InvalidSessionId)
      else Success(ScoreOf(userSessions[sessionId]))
    }

    /** A complete summary of a session, agreeing with its score view. */
    function GetSessionSummary(sessionId: string): (r: Result<Summary, SessionError>)
      reads this
      ensures r.Failure? <==> sessionId !in userSessions
      ensures r.Failure? ==> r.error == InvalidSessionId
      ensures r.Success? ==>
        var score := GetScore(sessionId).value;
        var s := userSessions[sessionId];
        && r.value.sessionId == sessionId
        && r.value.quizTopic == s.quiz.topic && r.value.totalQuestions == s.quiz.totalQuestions
        && r.value.score == score.currentScore
        && r.value.questionsAnswered == score.totalQuestionsAnswered
        && r.value.correctAnswers == score.correctAnswers
        && r.value.incorrectAnswers == score.incorrectAnswers
        && r.value.percentage == score.percentage
        && r.value.startedAt == s.startedAt && r.value.lastActivity == s.lastActivity
        && r.value.answers == s.answers
    {
      if sessionId !in userSessions then Failure(InvalidSessionId)
      else
        var s := userSessions[sessionId];
        var score := GetScore(sessionId).value;
        Success(Summary(sessionId, s.quiz.topic, s.quiz.totalQuestions, score.currentScore,
                        score.totalQuestionsAnswered, score.correctAnswers, score.incorrectAnswers,
                        score.percentage, s.startedAt, s.lastActivity, s.answers))
    }

    /** Clear a session's score, log and counters, keeping its quiz; refuse an unknown id. */
    method ResetSession(sessionId: string, now: int) returns (r: Outcome<SessionError>)
      requires Valid()
      modifies this
      ensures Valid()
      ensures keyOrder == old(keyOrder)
      ensures sessionId !in old(userSessions) ==>
        r == Fail(InvalidSessionId) && userSessions == old(userSessions)
      ensures sessionId in old(userSessions) ==>
        r == Pass && userSessions == old(userSessions)[sessionId := ResetState(old(userSessions)[sessionId], now)]
    {
      if sessionId !in userSessions {
        return Fail(InvalidSessionId);
      }
      var session := userSessions[sessionId];
      session := session.(score := 0);
      session := session.(answers := []);
      session := session.(correctCount := 0);
      session := session.(incorrectCount := 0);
      session := session.(lastActivity := now);
      assert session == ResetState(old(userSessions)[sessionId], now);
      Store(sessionId, session);
      r := Pass;
    }

    /** Write back the updated record of a stored session. */
    method Store(sessionId: string, session: Session)
      requires Valid()
      requires sessionId in userSessions && Consistent(session)
      modifies this
      ensures Valid()
      ensures userSessions == old(userSessions)[sessionId := session]
      ensures keyOrder == old(keyOrder)
    {
      userSessions := userSessions[sessionId := session];
    }

    /** Remove a session if present; an absent id is not an error. */
    method DeleteSession(sessionId: string)
      requires Valid()
      modifies this
      ensures Valid()
      ensures userSessions == old(userSessions) - {sessionId}
      ensures keyOrder == Select(old(keyOrder), userSessions.Keys)
      ensures sessionId !in old(userSessions) ==> userSessions == old(userSessions) && keyOrder == old(keyOrder)
    {
      if sessionId in userSessions {
        Remove(sessionId);
      } else {
        SelectAll(keyOrder, userSessions.Keys);
        assert userSessions - {sessionId} == userSessions;
      }
    }

    /** `del` on the dictionary: the key goes, the order of the others stays. */
    method Remove(sessionId: string)
      requires Valid()
      requires sessionId in userSessions
      modifies this
      ensures Valid()
      ensures userSessions == old(userSessions) - {sessionId}
      ensures keyOrder == Select(old(keyOrder), userSessions.Keys)
    {
      userSessions := userSessions - {sessionId};
      keyOrder := Select(keyOrder, userSessions.Keys);
      SelectDistinct(old(keyOrder), userSessions.Keys);
    }

    /** The first pass of the cleanup: the expired ids, in insertion order. */
    method ExpiredIds(maxAgeHours: int, now: int) returns (toDelete: seq<string>)
      requires Valid()
      ensures toDelete == Select(keyOrder, ExpiredSet(userSessions, now, maxAgeHours))
      ensures Distinct(toDelete)
      ensures forall id :: id in toDelete <==> id in ExpiredSet(userSessions, now, maxAgeHours)
    {
      ghost var expired := ExpiredSet(userSessions, now, maxAgeHours);
      toDelete := [];
      for i := 0 to |keyOrder|
        invariant toDelete == Select(keyOrder[..i], expired)
      {
        var id := keyOrder[i];
        assert id in keyOrder;
        var age := now - userSessions[id].lastActivity;
        if age > maxAgeHours * 3600 {
          toDelete := toDelete + [id];
        }
        assert keyOrder[..i + 1][..i] == keyOrder[..i];
      }
      assert keyOrder[..|keyOrder|] == keyOrder;
      SelectDistinct(keyOrder, expired);
    }

    /** The second pass of the cleanup: delete each listed id in turn. */
    method DeleteAll(toDelete: seq<string>)
      requires Valid()
      requires Distinct(toDelete)
      requires forall id :: id in toDelete ==> id in userSessions
      modifies this
      ensures Valid()
      ensures userSessions == old(userSessions) - Elements(toDelete)
      ensures keyOrder == Select(old(keyOrder), userSessions.Keys)
    {
      ghost var deleted: set<string> := {};
      SelectAll(keyOrder, userSessions.Keys);
      for j := 0 to |toDelete|
        invariant Valid()
        invariant deleted == Elements(toDelete[..j])
        invariant userSessions == old(userSessions) - deleted
        invariant keyOrder == Select(old(keyOrder), userSessions.Keys)
      {
        var id := toDelete[j];
        DistinctNotInPrefix(toDelete, j);
        ghost var before := userSessions.Keys;
        Remove(id);
        SelectShrink(old(keyOrder), before, userSessions.Keys);
        MapMinusTwice(old(userSessions), deleted, id);
        ElementsSnoc(toDelete, j);
        deleted := deleted + {id};
      }
      assert toDelete[..|toDelete|] == toDelete;
    }

    /**
     * Remove every session inactive for more than `maxAgeHours` hours at
     * time `now` and report how many were removed. The expired ids are
     * first collected in insertion order, then deleted one by one.
     */
    method CleanupOldSessions(maxAgeHours: int, now: int) returns (removed: int)
      requires Valid()
      modifies this
      ensures Valid()
      ensures userSessions == old(userSessions) - ExpiredSet(old(userSessions), now, maxAgeHours)
      ensures forall id :: id in userSessions <==>
        id in old(userSessions) && !IsExpired(old(userSessions)[id], now, maxAgeHours)
      ensures keyOrder == Select(old(keyOrder), userSessions.Keys)
      ensures removed == |ExpiredSet(old(userSessions), now, maxAgeHours)|
    {
      ghost var expired := ExpiredSet(userSessions, now, maxAgeHours);
      var toDelete := ExpiredIds(maxAgeHours, now);
      DeleteAll(toDelete);
      assert Elements(toDelete) == expired;
      DistinctCardinality(toDelete);
      removed := |toDelete|;
    }

    /** The rows of the listed sessions, in insertion order, before sorting. */
    method CollectRows() returns (leaderboard: seq<Entry>)
      requires Valid()
      ensures leaderboard == Rows(keyOrder, userSessions)
    {
      leaderboard := [];
      for i := 0 to |keyOrder|
        invariant leaderboard == Rows(keyOrder[..i], userSessions)
      {
        var id := keyOrder[i];
        assert id in keyOrder;
        var session := userSessions[id];
        if |session.answers| > 0 {
          leaderboard := leaderboard + [Entry(Take(id, 8), session.quiz.topic, session.score,
                                              GetScore(id).value.percentage, |session.answers|)];
        }
        assert keyOrder[..i + 1][..i] == keyOrder[..i];
      }
      assert keyOrder[..|keyOrder|] == keyOrder;
    }

    /**
     * The leaderboard: one row per session with at least one answer,
     * ordered by score and then percentage, both descending, ties in
     * insertion order, cut to `limit` rows as a slice would cut it.
     */
    method GetLeaderboard(limit: int) returns (board: seq<Entry>)
      requires Valid()
      ensures board == Take(RankSort(Rows(keyOrder, userSessions)), limit)
      ensures Ranked(board)
      ensures forall e :: e in board ==> e.questionsAnswered > 0 && 0.0 <= e.percentage <= 100.0
      ensures forall e :: e in board ==> |e.sessionId| <= 8
      ensures 0 <= limit ==> |board| <= limit
      ensures limit >= |keyOrder| ==> multiset(board) == multiset(Rows(keyOrder, userSessions))
    {
      var leaderboard := CollectRows();
      var sorted := RankSort(leaderboard);
      board := Take(sorted, limit);
      RankSortRanked(leaderboard);
      RankSortPermutation(leaderboard);
      RankedPrefix(sorted, |board|);
      forall e | e in board
        ensures e.questionsAnswered > 0 && 0.0 <= e.percentage <= 100.0 && |e.sessionId| <= 8
      {
        assert e in multiset(sorted);
        RowBounds(keyOrder, userSessions, e);
      }
    }
  }
}
