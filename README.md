# InterviewQi core in Dafny

InterviewQi runs a simulated technical interview. A session starts with a
question retrieved from a question bank. Each answer the candidate submits
is scored by a language model against two retrieved expert exemplars; the
numeric score is read back out of the model's free text. The interview
then either ends or moves on to a follow-up question. The
interview ends once three questions have been asked. Completed sessions are stored, and
analytics endpoints report platform statistics, weak areas, per-user
progress and a leaderboard. Two front-end pages show the interview and the
dashboard.

This project models that core and proves properties of the model:

- `interview_state.dfy`: the interview state, and Python's `dict.update`
  on the state dictionary (every key of the partial update replaces the old value,
  lists included).
- `knowledge_base.dfy`: `ingest` turning the question file into one
  document text and one metadata record per question, in file order, and
  `search` choosing its category filter.
- `interview_graph.dfy`: the graph nodes (first question, evaluation with
  its score-extraction loop, follow-up, continuation rule).
- `interview_router.dfy`: the `/api/interview` endpoints over the
  in-memory session dictionary, as a class.
- `interview_agent.dfy`: the alternative agent's question lookup and
  evaluation.
- `evaluator.dfy`: the structured evaluator (bounded rubric, recomputed
  total, parse fallback) and its text rendering. The rendering's score
  line reads back through the graph's score extractor.
- `db_service.dfy`: session completion (mean score, transcript
  serialization), weak-area aggregation, and per-user progress with its
  improvement window, over the rows the SQL queries return.
- `analytics.dfy`: the `/api/analytics` endpoints, including the 422
  responses for out-of-range query parameters.
- `dashboard.dfy`, `interview_page.dfy`: the pure helpers of the two
  pages, and the interview page's submit handler and timer as a class.
- `text.dfy`, `wrappers.dfy`: string helpers and the `Option`/`Result`
  types.
  - The string helpers are Python's `str.split`, `str.join`, `str.strip`,
    `str.isdigit`, `int()`, `str()` and `.lower()`, and JavaScript's
    `trim`.

The language models, the vector store and the front-end API call are
oracles: they are function-typed parameters or fields (`EvalLlm`,
`FollowupLlm`, `Llm`, `Decode`, `Store`, `SubmitApi`). Every statement about
them holds for every oracle. Timestamps are opaque integers passed in as
`now`. The SQL queries are inputs: each operation receives the rows its
query would return, in the query's order.

Where the code and the design description disagree, the model follows the
code:

- There is no repetition guard and no `repeat_count`. The interview ends
  when `question_count` reaches 3, whether or not an answer repeats.
- The extracted score is not clamped to 0..100. A line `Score: 150/100`
  yields 150, and `Score: 8 5/100` yields 85, because every digit of the
  segment is joined.
- `state.update` replaces `messages` rather than appending to it. After
  every turn the session transcript therefore holds exactly one message,
  the evaluator's or the new interviewer question
  (`InterviewRouter.TranscriptAfterTurn`).
- The fallback question ids are the literal `"fallback"`, and the fallback
  questions are fixed texts.
- The follow-up is generated by the model from the question and the score
  alone; no score bands and no retrieval of the next exemplar.
- The answer endpoint's body has no `question_number`, although the
  page's response type declares one. After the timer the page's session
  therefore has an undefined question number
  (`InterviewPage.BackendAdvanceLosesNumber`).

## Model

| member | source | states |
|---|---|---|
| InterviewState.Initial | backend/app/routers/interview.py:25-34 | a new state has no messages, the requested category and question count 0 |
| InterviewState.Merge | backend/app/services/interview_state.py:7-15 | `state.update`: each of the six keys a node may return (messages, question count, question, question id, evaluation, score) takes the update's value when present and keeps the old one when absent; category and answer are never touched |
| KnowledgeBase.FilterFor | backend/app/services/knowledge_base.py:148 | a filter exists exactly when the category is truthy, and it maps only `category` to it |
| KnowledgeBase.SearchDefaults | backend/app/services/knowledge_base.py:130-150 | without a category, or with an empty one, the store is asked for 3 hits and no filter |
| KnowledgeBase.Tagged | backend/app/services/knowledge_base.py:63-65 | each question of a category is paired with its category key, one for one |
| KnowledgeBase.EntriesOrder | backend/app/services/knowledge_base.py:63-65 | question j of category c sits at position Offset(c)+j of the flattened list: file order, categories in turn |
| KnowledgeBase.EntriesLength | backend/app/services/knowledge_base.py:63-65 | the flattened list holds every question of every category |
| KnowledgeBase.OffsetMonotone | backend/app/services/knowledge_base.py:63-65 | later categories start at later positions |
| KnowledgeBase.Ingest | backend/app/services/knowledge_base.py:57-127 | the nested loops build, for each question in file order, its stripped document text and its metadata, and the returned count is that number of questions |
| KnowledgeBase.DocTextStart | backend/app/services/knowledge_base.py:66-83 | every stored document starts with its question line, its category line and its difficulty line in full, then the blank line and the `Expert Approach:` heading (the leading newline is stripped) |
| InterviewGraph.MarkerIsCaseInsensitive | backend/app/services/interview_graph.py:84 | the marker test is the case-insensitive `score:` test; the case-sensitive `Score:` arm adds nothing |
| InterviewGraph.MarkerHasColon | backend/app/services/interview_graph.py:84-87 | a marker line has a colon, so `split(':')[1]` never raises on it |
| InterviewGraph.ExtractScore | backend/app/services/interview_graph.py:80-91 | the loop returns the contribution of the first line that yields digits, else 70 |
| InterviewGraph.FirstScoreNone | backend/app/services/interview_graph.py:83-91 | no score is found exactly when no line contributes |
| InterviewGraph.FirstScoreWins | backend/app/services/interview_graph.py:83-91 | the `break`: the first contributing line decides, whatever follows |
| InterviewGraph.FirstScoreFrom | backend/app/services/interview_graph.py:83-91 | a found score comes from some line with no contributing line before it |
| InterviewGraph.ScoreWithoutMarker | backend/app/services/interview_graph.py:80-91 | text with no `score:` line, in any case, scores the default 70 |
| InterviewGraph.ScoreCharacterized | backend/app/services/interview_graph.py:80-91 | the score is either the default with no line contributing, or the value of the first contributing line |
| InterviewGraph.MarkedLineScore | backend/app/services/interview_graph.py:84-88 | `Score:<seg>/<rest>` yields the number spelled by all digits of seg, and nothing when seg has none |
| InterviewGraph.EarlyColonLine | backend/app/services/interview_graph.py:87 | the segment is taken after the first colon of the line, even when the marker comes later |
| InterviewGraph.FirstLineDecides | backend/app/services/interview_graph.py:83-89 | a contributing first line decides the score of the whole text |
| InterviewGraph.SecondLineDecides | backend/app/services/interview_graph.py:85-91 | a marked line without digits is skipped (`int('')` raises and is passed) and the next one decides |
| InterviewGraph.ExampleDigitsConcatenate | backend/app/services/interview_graph.py:88 | `Score: 8 5/100` scores 85: digits are joined across the space |
| InterviewGraph.ExampleNoClamp | backend/app/services/interview_graph.py:88 | `Score: 150/100` scores 150: the value is not clamped to 100 |
| InterviewGraph.ExampleSkipNoDigits | backend/app/services/interview_graph.py:83-91 | `Score: N/A` then `Score: 85/100` scores 85 |
| InterviewGraph.ExampleEarlyColon | backend/app/services/interview_graph.py:87 | `Overall: Score: 85` scores the default: the segment ` Score` holds no digits |
| InterviewGraph.StartNode | backend/app/services/interview_graph.py:19-34 | a k=1 search for `<category> interview` in the category gives the first hit's question and id, or the fallbacks; the count is 1 and the messages are the single interviewer question |
| InterviewGraph.EvaluateNode | backend/app/services/interview_graph.py:36-97 | the update holds the model's text as evaluation and sole evaluator message, and the score extracted from it |
| InterviewGraph.FollowupNode | backend/app/services/interview_graph.py:99-127 | the next question is the stripped completion, its id gains `_followup`, the count grows by one, and it is the only message |
| InterviewGraph.ShouldContinue | backend/app/services/interview_graph.py:129-131 | continue exactly when fewer than 3 questions were asked |
| InterviewGraph.EvaluateKeepsQuestion | backend/app/services/interview_graph.py:93-97 | merging an evaluation keeps the question, its id, the count and the continuation decision, and leaves one evaluator message |
| InterviewRouter.SessionIdDistinct | backend/app/routers/interview.py:22 | `session_<n>` ids for different n are different |
| InterviewRouter.EvaluatedSpec | backend/app/routers/interview.py:54-62 | recording the answer and merging the evaluation keeps count, question and category, and leaves only the evaluator message |
| InterviewRouter.FollowedSpec | backend/app/routers/interview.py:74-77 | merging the follow-up advances the count and replaces question, id and messages, keeping the score |
| InterviewRouter.TurnSpec | backend/app/routers/interview.py:48-79 | one answer: evaluation and score from the model; `continue` exactly when the count was below 3, and then the next question is the stripped follow-up and the count grows by one; otherwise the question stays |
| InterviewRouter.TurnCount | backend/app/routers/interview.py:64-76 | a turn continues exactly below 3 questions, and only a continuing turn advances the count |
| InterviewRouter.RunFlags | backend/app/routers/interview.py:48-79 | in a run of answers, the i-th response continues exactly when the starting count plus i is below 3 |
| InterviewRouter.RunCount | backend/app/routers/interview.py:48-79 | over a run of answers the count climbs by one per answer up to 3 and then stays |
| InterviewRouter.NewSessionRun | backend/app/routers/interview.py:19-79 | in a new session the first two answers continue, every later one ends, and the count stops at 3 |
| InterviewRouter.SessionsSameKeys | backend/app/routers/interview.py:54-62 | replacing an existing session changes neither the keys nor their number |
| InterviewRouter.SessionsNewKey | backend/app/routers/interview.py:40 | adding a new session adds exactly its key |
| InterviewRouter.NumberedTableAdd | backend/app/routers/interview.py:22-40 | while the table holds exactly `session_1` to `session_n`, the next id is fresh and adding it keeps that shape |
| InterviewRouter.Router.constructor | backend/app/routers/interview.py:9-10 | the router starts with no sessions |
| InterviewRouter.Router.StartInterview | backend/app/routers/interview.py:12-46 | the category defaults to `coding`; the new id is `session_<len+1>`, fresh while sessions are never removed; the session holds the started state and the response question number is 1 |
| InterviewRouter.Router.AnswerTurn | backend/app/routers/interview.py:56-79 | the method's evaluation and optional follow-up compute exactly the turn described by `TurnSpec` |
| InterviewRouter.Router.SubmitAnswer | backend/app/routers/interview.py:48-79 | unknown id: 404 `Not found` and nothing changes; otherwise the response of the turn, and the session replaced by the turn's state |
| InterviewRouter.Router.GetTranscript | backend/app/routers/interview.py:81-94 | 404 exactly for an unknown id; otherwise the session's messages, question count and score |
| InterviewRouter.TranscriptAfterTurn | backend/app/routers/interview.py:58-62 | after any turn the transcript holds exactly one message: the interviewer's when continuing, the evaluator's when ending |
| InterviewAgent.GetQuestion | backend/app/services/interview_agent.py:24-39 | the category defaults to `coding`; a k=1 search for `<category> interview question` gives the first hit's question and id, else the fixed fallback; the category is echoed |
| InterviewAgent.EvaluateAnswer | backend/app/services/interview_agent.py:42-67 | the evaluation has no white space at either end and stripping it again changes nothing; for any state with the same question, answer and category it is the graph evaluation node's completion, stripped, so both paths hand the model the same k=2 exemplars of the category |
| Evaluator.Parse | backend/app/services/evaluator.py:9-22 | parsing succeeds exactly when the decoded record respects every field bound |
| Evaluator.Evaluate | backend/app/services/evaluator.py:36-113 | the result is within every bound and its total is the sum of its parts; it keeps the parsed fields, or is the fallback when parsing fails |
| Evaluator.FallbackConsistent | backend/app/services/evaluator.py:105-113 | the fallback respects the bounds and its total 65 is the sum of its parts |
| Evaluator.FormatStartsWithScoreLine | backend/app/services/evaluator.py:115-132 | the rendering starts with the score line and a newline |
| Evaluator.PaddedScoreLine | backend/app/services/evaluator.py:117 | a `Score:` line whose padding holds no digit reads back the numeral it carries |
| Evaluator.ScoreLineReadsBack | backend/app/services/evaluator.py:117 | the score line reads back the total's magnitude through the graph's extractor |
| Evaluator.FormatScoreReadsBack | backend/app/services/evaluator.py:115-132 | the whole rendering scores the total's magnitude |
| Evaluator.EvaluationRoundTrip | backend/app/services/evaluator.py:36-132 | rendering an evaluation and extracting the score gives back its total |
| Evaluator.FormatLineStructure | backend/app/services/evaluator.py:117-132 | line by line the rendering is the breakdown, each strength after `✓ `, each weakness after `✗ `, and the improvement after `→ ` |
| DbService.SumWithin | backend/app/services/db_service.py:106 | the sum of scores lies between count times the lower and upper bound |
| DbService.MeanWithin | backend/app/services/db_service.py:106 | the mean of bounded scores respects the bounds |
| DbService.MeanOfOne | backend/app/services/db_service.py:104-108 | a session with one response of 85 averages 85 |
| DbService.SerializeTranscript | backend/app/services/db_service.py:111-120 | one serialized entry per message, in order |
| DbService.SerializedShape | backend/app/services/db_service.py:113-119 | messages keep role and content, dicts pass through, everything else becomes role `unknown` with its text |
| DbService.SerializeIdempotent | backend/app/services/db_service.py:111-120 | serializing an already serialized entry changes nothing |
| DbService.ResponsesOf | backend/app/services/db_service.py:82-89 | every kept response belongs to the session, at most as many as the table holds |
| DbService.ResponsesOfMembers | backend/app/services/db_service.py:82-89 | a response is returned exactly when it is in the table and belongs to the session |
| DbService.ResponsesOfConcat | backend/app/services/db_service.py:82-89 | the filter distributes over concatenation, so the responses keep the table's order |
| DbService.FindSession | backend/app/services/db_service.py:37-43 | the first session with the id, or none exactly when no session has it |
| DbService.Completed | backend/app/services/db_service.py:104-124 | completed at `now` with the serialized transcript; with responses, their mean and number are recorded, otherwise the old values stay; identity fields are kept |
| DbService.CompletedAverageWithin | backend/app/services/db_service.py:104-108 | scores in 0..100 give an average in 0..100 |
| DbService.DatabaseService.constructor | backend/app/services/db_service.py:11-12 | the service starts over the given tables |
| DbService.DatabaseService.CompleteSession | backend/app/services/db_service.py:93-128 | unknown id: `ValueError` `Session <id> not found` and nothing changes; otherwise only that session is replaced by its completed record |
| DbService.WeakResponses | backend/app/services/db_service.py:180 | every kept response scores below the threshold |
| DbService.WeakResponsesMembers | backend/app/services/db_service.py:180 | a response is kept exactly when it is among the responses and scores below the threshold |
| DbService.WeakResponsesConcat | backend/app/services/db_service.py:180 | the filter distributes over concatenation, so the weak responses keep the query's order |
| DbService.OccursHasQuestion | backend/app/services/db_service.py:183-194 | every category that occurs has at least one question, so the average's divisor is never 0 |
| DbService.AbsentCategory | backend/app/services/db_service.py:183-194 | a category that does not occur has no questions and total 0 |
| DbService.CategoriesSnoc | backend/app/services/db_service.py:183-191 | a response adds its category to the keys |
| DbService.AccumulatedSnoc | backend/app/services/db_service.py:183-194 | one response increments its category's count, adds its score and appends its question id; other categories are untouched |
| DbService.AccumulateWeakAreas | backend/app/services/db_service.py:182-194 | the first loop leaves one running entry per category, with the count, total and question ids of its responses |
| DbService.AverageWeakAreas | backend/app/services/db_service.py:196-200 | the second loop gives every entry its mean and deletes its total |
| DbService.IdentifyWeakAreas | backend/app/services/db_service.py:170-201 | the threshold defaults to 60; keys are the categories of the weak responses; each entry counts its questions (at least one), lists them in order, drops the total, and averages total over count |
| DbService.ImprovementShortHistory | backend/app/services/db_service.py:234-237 | with at most five points both windows are the whole history, so the improvement is 0 |
| DbService.SumPointsDefined | backend/app/services/db_service.py:235-236 | the window sums are defined when every point has a score |
| DbService.GetUserProgress | backend/app/services/db_service.py:203-245 | no sessions: 0, no points, improvement 0; otherwise one point per session oldest first, improvement 0 for one point, and otherwise the window difference, or the `TypeError` a missing score raises |
| Analytics.CompletionRate | backend/app/routers/analytics.py:22-24 | 0 without sessions, otherwise the completed share times 100 |
| Analytics.CompletionRateWithin | backend/app/routers/analytics.py:22-24 | the rate lies in 0..100 |
| Analytics.CompletedOf | backend/app/services/db_service.py:136-142 | every kept session is completed |
| Analytics.CompletedOfMembers | backend/app/routers/analytics.py:75 | a session is kept exactly when it is among the sessions and completed |
| Analytics.CompletedOfConcat | backend/app/routers/analytics.py:75 | the filter distributes over concatenation, so the completed sessions keep their order |
| Analytics.GetPlatformStats | backend/app/routers/analytics.py:10-27 | the counts of all and of completed sessions, the rate `CompletionRate` gives for them (0 without sessions, else completed·100/total), which lies in 0..100, and the database's average and per-category counts passed through |
| Analytics.GetWeakAreas | backend/app/routers/analytics.py:30-43 | the threshold defaults to 60; 422 exactly when it is outside 0..100; otherwise one entry per category of a weak response, with its count, its question ids in order, no running total and the mean score, as `identify_weak_areas` computes, and the number of such categories |
| Analytics.GetUserProgress | backend/app/routers/analytics.py:46-61 | the limit defaults to 20; 422 when it is outside 1..100; of the first `limit` sessions: the no-sessions body exactly when none are selected; otherwise one point per selected session, oldest first, improvement 0 for one point, and for more either the improvement of the two windows or exactly its `TypeError` |
| Analytics.OfCategory | backend/app/routers/analytics.py:71-72 | every kept session has the category |
| Analytics.OfCategoryMembers | backend/app/routers/analytics.py:71-72 | a session is kept exactly when it is among the sessions and has the category |
| Analytics.OfCategoryConcat | backend/app/routers/analytics.py:71-72 | the filter distributes over concatenation, so the sessions keep their order |
| Analytics.ScoresOf | backend/app/routers/analytics.py:76 | every listed score is non-zero, at most one per session |
| Analytics.ScoresOfMembers | backend/app/routers/analytics.py:76 | a value is listed exactly when it is non-zero and some session has it as its average, so missing and zero averages are the only ones skipped |
| Analytics.ScoresOfConcat | backend/app/routers/analytics.py:76 | the comprehension distributes over concatenation, so the scores keep the order of their sessions |
| Analytics.MaxMinBound | backend/app/routers/analytics.py:84-85 | max and min are scores and bound every score |
| Analytics.SumBetween | backend/app/routers/analytics.py:83 | the sum of bounded values lies between count times the bounds |
| Analytics.MeanBetweenMinMax | backend/app/routers/analytics.py:83-85 | the average lies between the minimum and the maximum |
| Analytics.GetSessionStats | backend/app/routers/analytics.py:64-87 | without a category all recent sessions count; the no-sessions body exactly when the filtered list is empty; otherwise the counts, the rate `CompletionRate` gives for them, the category filter echoed, and the average, max and min of the scores, 0 when there are none |
| Analytics.SessionStatsSpec | backend/app/routers/analytics.py:64-87 | filtered sessions have the category, at most all are completed, the rate lies in 0..100, and min ≤ average ≤ max |
| Analytics.EligibleOf | backend/app/routers/analytics.py:99-104 | every kept session is completed, scored, and of the category when one is given |
| Analytics.EligibleOfMembers | backend/app/routers/analytics.py:99-104 | a session is kept exactly when it is among the rows and eligible |
| Analytics.EligibleOfConcat | backend/app/routers/analytics.py:99-104 | the filter distributes over concatenation, so the rows keep the query's descending order |
| Analytics.GetLeaderboard | backend/app/routers/analytics.py:90-121 | the limit defaults to 10 and the category to none; 422 exactly when the limit is outside 1..50; otherwise the first `limit` eligible sessions ranked 1, 2, …, each entry carrying its session's id, category, average score, question count and completion date |
| Analytics.EligibleDescending | backend/app/routers/analytics.py:99-106 | filtering keeps the descending score order |
| Analytics.LeaderboardOrdered | backend/app/routers/analytics.py:105-119 | a leaderboard over score-ordered rows lists scores in non-increasing order |
| Dashboard.CategoryIcon | frontend/src/pages/dashboard.tsx:87-94 | each known category has its own icon, exactly |
| Dashboard.CategoryColor | frontend/src/pages/dashboard.tsx:96-103 | each known category has its own colour, exactly |
| Dashboard.UnknownCategoryDefaults | frontend/src/pages/dashboard.tsx:87-103 | any other category gets the target icon and the muted colour |
| Dashboard.ScoreColorBands | frontend/src/pages/dashboard.tsx:105-109 | green exactly from 80, yellow exactly on 60..80, red exactly below 60 |
| Dashboard.Percentage | frontend/src/pages/dashboard.tsx:308 | 0 without a total, otherwise the share times 100 |
| Dashboard.PercentageWithin | frontend/src/pages/dashboard.tsx:308 | a part of the total is in 0..100 |
| Dashboard.ReplaceFirstAt | frontend/src/pages/dashboard.tsx:122 | `replace('_', ' ')` changes only the first underscore |
| Dashboard.Capitalize | frontend/src/pages/dashboard.tsx:123 | the first letter upper-cased, the rest kept |
| Dashboard.FormatCategoryWords | frontend/src/pages/dashboard.tsx:121-125 | the formatted category splits back into the capitalized words |
| Dashboard.FormatCategoryLength | frontend/src/pages/dashboard.tsx:121-125 | formatting keeps the length |
| Dashboard.FormatTwoWords | frontend/src/pages/dashboard.tsx:121-125 | `a_b` formats as the two capitalized words joined by a space |
| Dashboard.FormatSystemDesign | frontend/src/pages/dashboard.tsx:121-125 | `system_design` formats as `System Design` |
| Dashboard.FormatOnlyFirstUnderscore | frontend/src/pages/dashboard.tsx:121-125 | `a_b_c` formats as `A B_c`: later underscores stay |
| InterviewPage.Settled | frontend/src/pages/Interview.tsx:76-113 | after the request settles the page is not submitting; a success shows the evaluation, clears the box and either schedules the next question or completes; a failure only adds a toast |
| InterviewPage.Fired | frontend/src/pages/Interview.tsx:89-98 | the timer installs the scheduled session and resets the evaluation panel |
| InterviewPage.Page.constructor | frontend/src/pages/Interview.tsx:22-28 | the page starts with the loaded session, an empty answer, no evaluation, not submitting and with no toast |
| InterviewPage.Page.HandleSubmitAnswer | frontend/src/pages/Interview.tsx:54-114 | blank answer: one `Empty Answer` toast and nothing else; no session: nothing; otherwise the trimmed answer is sent and the page becomes the settled state |
| InterviewPage.Page.Submit | frontend/src/pages/Interview.tsx:66-113 | the request carries the session id and the trimmed answer, and the page becomes `Settled` of its submitting state and the outcome |
| InterviewPage.Page.ApplyResponse | frontend/src/pages/Interview.tsx:76-113 | the page becomes `Settled` of its previous state and the outcome |
| InterviewPage.Page.TimerFires | frontend/src/pages/Interview.tsx:89-98 | the page becomes `Fired` of its previous state |
| InterviewPage.SubmitThenAdvance | frontend/src/pages/Interview.tsx:87-98 | a continuing submission followed by the timer shows the same session with the non-empty next question and whatever question number the response carried, possibly none |
| InterviewPage.FromBackend | backend/app/routers/interview.py:66-77 | the body the backend sends, read with the page's type, has the evaluation, score, continue flag and next question, and no question number |
| InterviewPage.BackendAdvanceLosesNumber | frontend/src/pages/Interview.tsx:87-98 | with the body the backend sends, after a continuing answer and the timer the session shows the next question with an undefined question number |
| InterviewPage.SettledButton | frontend/src/pages/Interview.tsx:84-113 | after a non-blank submission settles the button is disabled exactly when it succeeded |
| InterviewPage.SentAnswerIsTrimmed | frontend/src/pages/Interview.tsx:55-73 | the sent answer is non-empty and has no white space at either end |
| InterviewPage.ScoreColorsAgree | frontend/src/pages/Interview.tsx:121-131 | text and background colours pick the same band, and the bands are the dashboard's |
| InterviewPage.IndexWhere | frontend/src/pages/Interview.tsx:256 | the first white-space position, with none before it |
| InterviewPage.NonEmpty | frontend/src/pages/Interview.tsx:256 | every kept piece is non-empty |
| InterviewPage.NonEmptyMembers | frontend/src/pages/Interview.tsx:256 | a piece is kept exactly when it is among the pieces and non-empty |
| InterviewPage.NonEmptyConcat | frontend/src/pages/Interview.tsx:256 | the filter distributes over concatenation, so the words keep their order |
| InterviewPage.WordCountZero | frontend/src/pages/Interview.tsx:256-262 | the count is 0 exactly when the answer is blank, which is exactly when an idle page refuses to submit |
| InterviewPage.WordsHaveNoSpace | frontend/src/pages/Interview.tsx:256 | no counted word holds white space |

## Left out

- The prompts and the language models themselves: each completion is an oracle of the text variables the prompt template receives. Temperature, model names and API keys are not modelled.
- The vector store (embedding, similarity ranking, Chroma/pgvector selection and its lazy creation in `search`): `search` is an oracle of query, k and filter.
- Loading and parsing the question file and the `FileNotFoundError` for a missing file: `ingest` receives the parsed categories in file order, and the returned texts and metadata stand for `add_texts`.
- The SQL queries, their filters, ordering and limits as executed: each operation receives the rows its query returns.
  - The analytics `GetUserProgress` takes the first `limit` rows it is given.
  - `get_total_sessions`, `get_completed_sessions`, `get_average_score`, `get_sessions_by_category` and `get_recent_sessions` are these inputs.
  - `create_session`, `save_response` and `get_session_by_db_id` only insert or fetch rows and are not modelled.
- `round(x, 1)` and `toFixed`: averages, rates and the improvement are exact reals.
- Dates: the completion time is the `now` parameter, and dates' `isoformat` rendering is not modelled.
- Database commits and refreshes, and failures in them.
- Concurrency. Each router call runs to completion; concurrent requests on one session are not modelled.
- Exceptions raised by an oracle (a failing model call or store) are not modelled. Neither is the partial state mutation the router leaves behind when `evaluate_node` raises after the answer was recorded.
- `build_graph` and `graph.invoke`: the router calls the nodes directly, and so does the model.
- The Pydantic request and response schemas, FastAPI's own validation beyond the `Query` bounds (422), and JSON encoding.
- Evaluator.Parse: the JSON decoding behind `PydanticOutputParser` is the oracle `Decode`; only the field bounds are checked in the model.
- Unicode: white space and case mapping cover ASCII only (Python `str.strip`/`isdigit`/`lower`, JavaScript `trim` and `\s`).
- Rendering, routing and the local-storage session load of the pages. In the interview page the toasts' descriptions are left out (only the titles are kept), and so is the five-second delay itself (only its callback, `TimerFires`).
- The front-end API client: `submitAnswer` is the oracle `SubmitApi`, whose `None` is a rejected promise.
- DbService.IdentifyWeakAreas: the result is a `map`, so the insertion order of the Python dictionary, which the JSON body exposes, is not modelled; the same holds for `Analytics.GetWeakAreas`.
