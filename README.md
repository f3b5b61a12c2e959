# Quiz bot backend, modelled in Dafny

This project models the logic of a quiz bot's backend. A quiz generator asks a
language model for a multiple-choice quiz on a topic. It checks the parsed
reply. If anything is wrong it falls back to a fixed template quiz. A
validator reports every structural problem of a quiz as a list of messages.
A score manager keeps a session per quiz attempt. Each session records
answers, keeps a running score weighted by difficulty, reports scores and
summaries, resets, deletes and expires sessions, and ranks sessions on a
leaderboard.

Modules, one per concern:

- `Wrappers` (`wrappers.dfy`): `Option`, `Result`, `Outcome`.
- `Python` (`python.dfy`): the host-language operations the code relies on. These are `str.strip()` over the host's whitespace set, `str(n)` for naturals, the slice `s[:limit]` (negative limits included), and `sep.join`.
- `SeqUtil` (`sequtil.dfy`): distinct sequences, and `Select`, the insertion order left after deleting keys from a dictionary.
- `Models` (`models.dfy`): the records of `backend/models.py` and their construction-time checks, including the post-initialisation hook of `Quiz`.
- `Generator` (`generator.dfy`): `validate_quiz`, `_generate_fallback_quiz`, and `generate_quiz` from the parsing step on. These are methods with loops, proved against specification functions.
- `Leaderboard` (`leaderboard.dfy`): leaderboard rows and the stable sort by (score, percentage), both descending.
- `Scores` (`scores.dfy`): the `ScoreManager` class. Its fields are the session map, the map's insertion order and the scoring rules.
- `Api` (`api.dfy`): the generate → validate → open-session sequence of the quiz-generation endpoint (`backend/main.py:94-110`).

Abstractions:

- Time is a whole number of seconds passed into each operation as `now`.
- The random session id is a caller-supplied `freshId` that does not yet occur in the store.
- The language model's parsed reply is a parameter `parsed: Option<Quiz>`, where `None` means the call or the parse failed.
- The percentage is an exact `real`.

## Model

| member | source | states |
|---|---|---|
| Python.StripLeadingSpec | backend/quiz_generator.py:149 | leading strip removes only whitespace, and what remains is a suffix that is empty or starts with a non-whitespace character |
| Python.StripTrailingSpec | backend/quiz_generator.py:149 | trailing strip removes only whitespace, and what remains is a prefix that is empty or ends with a non-whitespace character |
| Python.StripSpec | backend/quiz_generator.py:149 | the stripped string is no longer than the input, and it is empty or has no whitespace at either end |
| Python.StripKeeps | backend/quiz_generator.py:159 | a non-empty string with no whitespace at either end is unchanged by strip |
| Python.StripUnchangedIff | backend/quiz_generator.py:149 | strip leaves a string unchanged exactly when it is empty or has no whitespace at either end |
| Python.StripIdempotent | backend/quiz_generator.py:149 | stripping twice is stripping once |
| Python.StripEmptyIff | backend/quiz_generator.py:149 | the stripped string is empty exactly when every character is whitespace (so `not s` and "too short after strip" agree) |
| Python.DigitChar | backend/quiz_generator.py:160 | the character for a digit 0-9 is a decimal digit |
| Python.NatToString | backend/quiz_generator.py:160 | `str(n)` is a non-empty string of decimal digits |
| Python.ParseNatToString | backend/quiz_generator.py:160 | reading the digits of `str(n)` back gives `n` |
| Python.NatToStringInjective | backend/quiz_generator.py:160 | different question numbers give different strings, so each message names one question |
| Python.Take | backend/score_manager.py:216 | `s[:limit]` is a prefix of `s`; its length is `min(limit, len)` for a non-negative limit, and the length less `-limit` (at least 0) for a negative one |
| Python.Join | backend/main.py:106 | joining no parts gives the empty string, and joining one part gives that part |
| Python.JoinSnoc | backend/main.py:106 | joining one more part appends the separator and then that part |
| Python.JoinLength | backend/main.py:106 | the joined text is as long as all parts together plus one separator between each pair of neighbouring parts |
| SeqUtil.Select | backend/score_manager.py:175-176 | the order left after deleting keys holds exactly the kept keys and is no longer than before |
| SeqUtil.SelectDistinct | backend/score_manager.py:196-197 | deleting keys keeps the insertion order free of duplicates |
| SeqUtil.SelectSelect | backend/score_manager.py:196-197 | deleting key sets one after another leaves the remaining keys in their original order |
| SeqUtil.SelectAll | backend/score_manager.py:175-176 | when no key is deleted, the order is unchanged |
| SeqUtil.SelectShrink | backend/score_manager.py:196-197 | cutting the order down to a key set and then to a smaller one is cutting it to the smaller one directly |
| SeqUtil.DistinctNotInPrefix | backend/score_manager.py:196-197 | in a duplicate-free id list, an id does not occur before its own position, so it has not been deleted before its turn |
| SeqUtil.DistinctCardinality | backend/score_manager.py:199 | a duplicate-free list of ids has as many entries as the set of those ids |
| SeqUtil.MapSeq | backend/quiz_generator.py:147-171 | mapping gives one result per element |
| SeqUtil.MapSeqSnoc | backend/quiz_generator.py:149-150 | mapping a list extended by one element extends the result by that element's image |
| SeqUtil.MapSeqPointwise | backend/quiz_generator.py:147-171 | result k is the image of element k |
| SeqUtil.MapSeqConcat | backend/quiz_generator.py:158-169 | mapping distributes over concatenation |
| Models.NewQuizQuestion | backend/models.py:12-18 | construction succeeds exactly when there are 4 options and the index is in [0,3]; it stores the fields given, with difficulty MEDIUM by default; each failing field is named iff its bound is violated |
| Models.PostInit | backend/models.py:27-29 | after the post-initialisation hook, the stored count equals the number of questions, and topic and questions are untouched |
| Models.NewQuiz | backend/models.py:21-29 | construction succeeds exactly when there is at least one question; the failure names the `questions` field |
| Models.NewQuizCountsQuestions | backend/models.py:25-29 | a constructed quiz stores the real question count, whatever count was supplied |
| Models.NewQuizIgnoresSuppliedCount | backend/models.py:25-29 | the supplied count has no influence on the constructed quiz |
| Models.NewQuizRequest | backend/models.py:32-36 | a request is accepted exactly when the topic has at least 3 characters and the count is in [1,20]; the defaults are 5 questions and MEDIUM; each failing field is named iff its bound is violated |
| Models.NewAnswerRequest | backend/models.py:46-49 | an answer request is accepted exactly when the index is at least 0 and the option is in [0,3]; each failing field is named iff its bound is violated |
| Models.DifficultyValuesDistinct | backend/models.py:6-9 | there are exactly three tiers, and their string values determine them |
| Generator.Render | backend/quiz_generator.py:147-171 | the message list has exactly one message per finding |
| Generator.RenderPointwise | backend/quiz_generator.py:147-171 | message k is the message of finding k, so the messages come in the findings' order |
| Generator.RenderSnoc | backend/quiz_generator.py:149-150 | recording one more finding appends exactly its message |
| Generator.Flag | backend/quiz_generator.py:149-150 | a finding is emitted exactly when its condition holds, and it is emitted at most once |
| Generator.QuestionErrorsConcern | backend/quiz_generator.py:158-169 | every finding about question i names question i and falls in that question's slot of the report order |
| Generator.AllQuestionErrors | backend/quiz_generator.py:158-169 | every per-question finding names the index of an existing question |
| Generator.QuestionErrorsIff | backend/quiz_generator.py:159-169 | for one question, each of the four findings is present exactly when its rule is broken (stripped text under 5, options not 4, index outside [0,3], stripped explanation under 10) |
| Generator.QuestionErrorsInReportOrder | backend/quiz_generator.py:158-169 | one question's findings appear in the order the checks run |
| Generator.QuestionFlagsInReportOrder | backend/quiz_generator.py:159-169 | whichever of the four per-question checks fire, their findings come in the order the checks run |
| Generator.PerQuestionMembership | backend/quiz_generator.py:158 | a finding about question i is in the whole list exactly when it is among question i's own findings |
| Generator.QuestionErrorIff | backend/quiz_generator.py:158-169 | over a list of questions, each per-question finding is present exactly when that question breaks the rule |
| Generator.HeaderErrorIff | backend/quiz_generator.py:149-156 | the topic finding appears iff the stripped topic is shorter than 3; the empty-list finding iff there are no questions; the count finding iff the stored count differs from the list length |
| Generator.HeaderErrorsInReportOrder | backend/quiz_generator.py:149-156 | the quiz-level findings come in check order and all occupy positions before any question finding |
| Generator.HeaderFlagsInReportOrder | backend/quiz_generator.py:149-156 | whichever of the three quiz-level checks fire, their findings come in check order, in the first three positions |
| Generator.QuizQuestionErrorIff | backend/quiz_generator.py:158-169 | the whole report holds each per-question finding exactly when that question breaks the rule |
| Generator.NoErrorsIffConforms | backend/quiz_generator.py:147-171 | the report is empty exactly when the quiz meets every structural rule |
| Generator.NoErrorsConforms | backend/quiz_generator.py:147-171 | a quiz with an empty report meets every structural rule |
| Generator.ErrorBreaksRule | backend/quiz_generator.py:147-171 | any finding in the report means the quiz breaks a structural rule |
| Generator.AllQuestionErrorsSnoc | backend/quiz_generator.py:158-169 | one more loop pass appends exactly the next question's findings after the earlier ones |
| Generator.AllQuestionErrorsPositions | backend/quiz_generator.py:158-169 | the per-question findings come in question order and then check order, after the three quiz-level slots |
| Generator.ConcatInReportOrder | backend/quiz_generator.py:147-171 | two ordered finding lists whose positions do not overlap stay ordered when concatenated |
| Generator.QuizErrorsInReportOrder | backend/quiz_generator.py:147-171 | the whole report is in the order the validator appends |
| Generator.ConstructedQuizCountConsistent | backend/quiz_generator.py:155-156 | a quiz that went through the constructor never gets the count finding |
| Generator.RenderConcat | backend/quiz_generator.py:147-171 | rendering distributes over concatenation |
| Generator.Report | backend/quiz_generator.py:149-150 | one conditional append adds the finding's message exactly when the condition holds |
| Generator.ValidateHeader | backend/quiz_generator.py:149-156 | the quiz-level checks append exactly the quiz-level findings' messages |
| Generator.ValidateQuestion | backend/quiz_generator.py:159-169 | the checks on one question append exactly that question's findings' messages |
| Generator.ValidateQuestions | backend/quiz_generator.py:158-169 | the loop over the questions appends exactly the per-question findings' messages, question by question |
| Generator.ValidateQuiz | backend/quiz_generator.py:137-171 | the returned messages are the rendered report, and they are empty exactly when the quiz meets every structural rule |
| Generator.FallbackQuestions | backend/quiz_generator.py:114-129 | the fallback list has n questions, and question k is the template question numbered k+1 |
| Generator.FallbackShape | backend/quiz_generator.py:110-135 | the fallback quiz is constructed exactly when at least one question is asked for; it then has the topic, exactly n questions, n as its count, and 4 options, answer 0 and the requested difficulty in every question |
| Generator.FallbackQuestionConforms | backend/quiz_generator.py:117-128 | each template question passes the per-question rules (its texts are long enough after strip) |
| Generator.StripFramed | backend/quiz_generator.py:159-168 | a text that starts and ends with a non-whitespace character, whatever lies between, is unchanged by strip |
| Generator.FallbackPassesValidation | backend/quiz_generator.py:110-171 | with a stripped topic of at least 3 characters and at least one question, the fallback quiz has an empty report |
| Generator.GenerateFallbackQuiz | backend/quiz_generator.py:110-135 | the loop builds exactly the fallback quiz (or the constructor's failure for n ≤ 0) |
| Generator.FallbackQuestionsSnoc | backend/quiz_generator.py:116-129 | the constructor accepts every template question, and each loop pass appends the next numbered template question |
| Generator.GeneratedQuizWellShaped | backend/quiz_generator.py:93-108 | for a count of at least 1, whatever the model returned, the result is a quiz with exactly that many questions, each with 4 options and an index in [0,3] |
| Generator.ConstructedQuestionsPassCheck | backend/quiz_generator.py:93-101 | for questions built by the constructor, the post-parse check reduces to the count check |
| Generator.GenerateQuiz | backend/quiz_generator.py:85-108 | the result is the parsed quiz when it passes the count and per-question checks, and the fallback otherwise, including when nothing could be parsed |
| Leaderboard.InsertRanked | backend/score_manager.py:224 | inserting adds exactly one row |
| Leaderboard.RankSort | backend/score_manager.py:224 | sorting keeps the number of rows |
| Leaderboard.OutranksOrder | backend/score_manager.py:224 | the sort key is a strict order, and two rows are unordered exactly when score and percentage are equal |
| Leaderboard.InsertRankedMultiset | backend/score_manager.py:224 | inserting adds the row and loses none |
| Leaderboard.InsertRankedMembers | backend/score_manager.py:224 | after inserting, the rows are the old ones and the new one |
| Leaderboard.InsertRankedRanked | backend/score_manager.py:224 | inserting into a ranked list gives a ranked list |
| Leaderboard.TierEmpty | backend/score_manager.py:224 | a key that no row has has an empty tier |
| Leaderboard.TierBelowHead | backend/score_manager.py:224 | in a ranked list, no row shares the key of a row that outranks the head |
| Leaderboard.InsertFrontTier | backend/score_manager.py:224 | a row placed in front of a ranked list it outranks lands at the end of its own tier, and every other tier is unchanged |
| Leaderboard.InsertRankedTier | backend/score_manager.py:224 | inserting appends the row to the end of its own tier and changes no other tier |
| Leaderboard.RankSortRanked | backend/score_manager.py:223-224 | the sorted rows are ordered by score descending, then percentage descending |
| Leaderboard.RankSortPermutation | backend/score_manager.py:224 | the sorted rows are a permutation of the input rows |
| Leaderboard.TierConcat | backend/score_manager.py:224 | the tier of a concatenation is the concatenation of the tiers |
| Leaderboard.RankSortStable | backend/score_manager.py:224 | the sort is stable: rows with equal score and percentage keep their input order |
| Leaderboard.RankSortKeepsRanked | backend/score_manager.py:224 | an already ranked list is left unchanged |
| Leaderboard.InsertAtEnd | backend/score_manager.py:224 | a row that outranks no row goes to the end |
| Scores.ScoringLookup | backend/score_manager.py:11-18 | every outcome at every difficulty has a scoring rule: plus the tier weight (1, 2, 3) when correct, minus it otherwise |
| Scores.ScoreChange | backend/score_manager.py:67-73 | the score change is plus the weight for a correct answer and minus the weight for a wrong one |
| Scores.CountCorrect | backend/score_manager.py:70-73 | the correct answers never outnumber the logged answers |
| Scores.LogAppend | backend/score_manager.py:76-83 | appending a record adds its change to the logged sum and its outcome to the correct count |
| Scores.NewSession | backend/score_manager.py:31-39 | a new session satisfies the session invariant |
| Scores.Answer | backend/score_manager.py:63-91 | the answer is correct exactly when the selected option is the question's correct index; the change is ±weight; the response carries the question's correct index and explanation |
| Scores.RecordAnswer | backend/score_manager.py:70-84 | recording an answer preserves the session invariant (score equals the logged sum; the counters count the log) |
| Scores.RecordAnswerEffects | backend/score_manager.py:68-84 | the score moves by the change; exactly one counter goes up by one; exactly one record is appended, with the outcome and change; quiz and start time stay; the activity time becomes `now` |
| Scores.OutOfRangeSelectionIncorrect | backend/score_manager.py:64 | for a well-formed question, an option outside [0,3] is simply wrong and loses points |
| Scores.ResetState | backend/score_manager.py:161-166 | a reset session satisfies the invariant and scores all zero, keeps its quiz and start time, and is touched at `now` |
| Scores.PercentageBounds | backend/score_manager.py:109-111 | the percentage lies in [0,100], equals correct × 100 / answered, is 100 exactly when all are correct, and is 0 exactly when none are |
| Scores.ScoreOf | backend/score_manager.py:106-119 | the score view reports the session's score, log length and counters; the percentage is 0.0 with no answers; for a consistent session the counters add up to the answered count and the percentage lies in [0,100] and equals correct × 100 / answered |
| Scores.NewSessionScore | backend/score_manager.py:31-39 | a new session scores zero everywhere, with percentage 0.0, and both timestamps are the creation time |
| Scores.FirstCorrectMediumAnswer | backend/score_manager.py:64-84 | a first correct MEDIUM answer gives score 2, one answer, one correct and 100.0 percent |
| Scores.ExpiryExample | backend/score_manager.py:191-194 | with a 24-hour limit, a session idle 30 hours expires and one idle 1 hour does not |
| Scores.EntryOf | backend/score_manager.py:215-221 | a leaderboard row shows at most the first 8 characters of the id (exactly 8 for longer ids), with the session's topic, score, percentage and answer count |
| Scores.Rows | backend/score_manager.py:211-221 | there are no more rows than ids |
| Scores.RowsOnePerListed | backend/score_manager.py:211-221 | the rows are exactly as many as the occurrences of ids of stored sessions with at least one answer, so with a duplicate-free insertion order each such session gives exactly one row and no other id gives any |
| Scores.RowsFromListed | backend/score_manager.py:213-221 | every row comes from a stored session with at least one answer |
| Scores.ListedHaveRows | backend/score_manager.py:213-221 | every stored session with at least one answer has its row |
| Scores.RowBounds | backend/score_manager.py:214-220 | every row of a consistent store has answers and a percentage in [0,100] |
| Scores.ElementsSnoc | backend/score_manager.py:196-197 | the deleted set grows by one id per deletion step |
| Scores.MapMinusTwice | backend/score_manager.py:196-197 | deleting keys one after another is deleting them all at once |
| Scores.RankedPrefix | backend/score_manager.py:226 | a prefix of a ranked leaderboard is ranked |
| Scores.ScoreManager.constructor | backend/score_manager.py:9-18 | the store starts empty with the six scoring rules |
| Scores.ScoreManager.CreateSession | backend/score_manager.py:20-40 | the new session is stored under the fresh id: score 0, empty log, zero counters, both timestamps `now`; it is last in insertion order; no other session changes |
| Scores.ScoreManager.SubmitAnswer | backend/score_manager.py:42-91 | an unknown id, or an index outside the quiz, is refused with its error and changes nothing; otherwise the response is `Answer` and only that session changes, to `RecordAnswer`; the invariant is kept |
| Scores.ScoreManager.GetScore | backend/score_manager.py:93-119 | an unknown id is refused; otherwise the result is the session's score view `ScoreOf` (score, answered count, counters, and a percentage of 0.0 with no answers and correct × 100 / answered otherwise); under the invariant the counters add up to the answered count, the percentage lies in [0,100], and the score equals the logged sum |
| Scores.ScoreManager.GetSessionSummary | backend/score_manager.py:121-149 | an unknown id is refused; otherwise the summary agrees with the score view and carries the quiz topic and count, the timestamps and the answer log |
| Scores.ScoreManager.ResetSession | backend/score_manager.py:151-166 | an unknown id is refused and changes nothing; otherwise only that session is reset |
| Scores.ScoreManager.Store | backend/score_manager.py:69-84 | writing back an updated consistent record changes only that session and keeps the store's invariant |
| Scores.ScoreManager.DeleteSession | backend/score_manager.py:168-176 | the id is removed if present and the others keep their order; an absent id changes nothing |
| Scores.ScoreManager.Remove | backend/score_manager.py:176 | deleting a present key removes exactly that key and keeps the order of the rest |
| Scores.ScoreManager.ExpiredIds | backend/score_manager.py:188-194 | the first pass collects exactly the expired ids, in insertion order, each once |
| Scores.ScoreManager.DeleteAll | backend/score_manager.py:196-197 | the second pass removes exactly the collected ids and keeps the order of the rest |
| Scores.ScoreManager.CleanupOldSessions | backend/score_manager.py:178-199 | exactly the sessions idle for strictly more than the limit are removed; all others stay unchanged and in order; the result is the number removed |
| Scores.ScoreManager.CollectRows | backend/score_manager.py:211-221 | the loop builds exactly the rows of the sessions with answers, in insertion order |
| Scores.ScoreManager.GetLeaderboard | backend/score_manager.py:201-226 | the board is the sliced stable sort of the rows of sessions with answers; it is ranked; every row has answers, a percentage in [0,100] and an id of at most 8 characters; for a non-negative limit it has at most `limit` rows; with a limit of at least the number of sessions, every row appears |
| Api.RejectionMessage | backend/main.py:104-107 | the error text starts with "Quiz validation failed: ", followed by the findings joined by "; " |
| Api.StartQuiz | backend/main.py:94-110 | a quiz that cannot be constructed fails with no change; a quiz with findings is rejected with the joined messages and no change; a conforming quiz is started under the fresh id, with a new session appended to the store |
| Api.StartQuizOutcome | backend/main.py:94-110 | a request within bounds always yields a quiz; when the model's reply is unusable and the stripped topic has at least 3 characters, the fallback quiz is used and it conforms |
| Api.HistoryScenario | backend/main.py:94-110 | a three-question MEDIUM fallback quiz on "History", answered correctly at question 0, scores 2 with one answer, one correct and 100.0 percent |

## Left out

- The language-model call, prompt construction and output parsing (`backend/quiz_generator.py:16-29, 44-90`). These are calls into external libraries. The parsed reply is the parameter `parsed`.
- Generator.GenerateQuiz: the parsed quiz is taken as an arbitrary record. The parser's own construction checks (at least one question, four options, index bounds) are not taken for granted, so a reply that the parser would have turned into an exception is still subject to the model's post-parse check.
- The HTTP layer (routes, status codes, the 503 response when no generator is configured), both front-ends, the launch scripts and the network test scripts.
- Concurrency: the store is modelled as used by one operation at a time.
- Random session ids: `CreateSession` takes a fresh id as a precondition instead of calling `uuid4`.
- Scores.ScoreManager.CreateSession: the source reads the clock twice for the two timestamps; the model uses one `now` for both.
- Scores.ScoreManager.SubmitAnswer: the source reads the clock twice, once for the answer record's timestamp and once for `last_activity` (`backend/score_manager.py:82, 84`); the model uses one `now` for both.
- Generator.GenerateQuiz: the `print` of the error in the fallback branch (`backend/quiz_generator.py:106`) is output only and is not modelled.
- Default arguments (`max_age_hours=24`, `limit=10`, `num_questions=5`, `difficulty=MEDIUM`) are not carried by the Dafny methods: every argument is passed explicitly, as the endpoints do.
- The clock: every operation that reads the current time takes `now` in whole seconds. Sub-second parts of ages are not modelled.
- Floating point: percentages are exact rationals (`real`). The host's rounding of `correct / answered * 100` is not modelled.
- Aliasing: sessions are values in the store's map. The source's summary returns the live answer list, and later changes would show through it. The model returns a copy.
- `QuizResponse` (`backend/models.py:39-43`) is represented by `Api.StartResult`. The JSON shape of the responses is not modelled.
- Pydantic's type coercion, and its lack of re-validation on attribute assignment, are not modelled. Records are built only through the `New...` functions or the source's own updates.
- `list.sort` is specified by an insertion sort, `RankSort`. It is proved ranked, a permutation and stable, which fixes the result of any stable sort. The host's own algorithm is not modelled.
