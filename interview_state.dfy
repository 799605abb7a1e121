/**
 * The conversation state of one interview session: a message record and
 * the eight-key state dictionary, together with the partial results the
 * graph's nodes return and the `dict.update` that merges them.
 */
module InterviewState {
  import opened Wrappers

  const Interviewer := "interviewer"
  const Candidate := "candidate"
  const Evaluator := "evaluator"

  /** One turn of the transcript; the role is free text. */
  datatype Message = Message(role: string, content: string)

  /** The state dictionary. It has no repetition counter, and nothing accumulates `messages`. */
  datatype State = State(
    messages: seq<Message>,
    category: string,
    questionCount: int,
    currentQuestion: string,
    currentQuestionId: string,
    userAnswer: string,
    evaluation: string,
    score: int)

  /** The keys a node may return; a missing key is `None`. */
  datatype Update = Update(
    messages: Option<seq<Message>>,
    questionCount: Option<int>,
    currentQuestion: Option<string>,
    currentQuestionId: Option<string>,
    evaluation: Option<string>,
    score: Option<int>)

  /** The state a session starts from, before its first node runs. */
  function Initial(category: string): (s: State)
    ensures s.messages == [] && s.category == category && s.questionCount == 0
  {
    State([], category, 0, "", "", "", "", 0)
  }

  /** `state.update(u)`: every key present in `u` replaces the old value, lists included. */
  function Merge(s: State, u: Update): (r: State)
    ensures r.category == s.category && r.userAnswer == s.userAnswer
    ensures u.messages.Some? ==> r.messages == u.messages.value
    ensures u.messages.None? ==> r.messages == s.messages
    ensures u.questionCount.Some? ==> r.questionCount == u.questionCount.value
    ensures u.questionCount.None? ==> r.questionCount == s.questionCount
    ensures u.currentQuestion.Some? ==> r.currentQuestion == u.currentQuestion.value
    ensures u.currentQuestion.None? ==> r.currentQuestion == s.currentQuestion
    ensures u.currentQuestionId.Some? ==> r.currentQuestionId == u.currentQuestionId.value
    ensures u.currentQuestionId.None? ==> r.currentQuestionId == s.currentQuestionId
    ensures u.evaluation.Some? ==> r.evaluation == u.evaluation.value
    ensures u.evaluation.None? ==> r.evaluation == s.evaluation
    ensures u.score.Some? ==> r.score == u.score.value
    ensures u.score.None? ==> r.score == s.score
  {
    State(
      u.messages.GetOr(s.messages),
      s.category,
      u.questionCount.GetOr(s.questionCount),
      u.currentQuestion.GetOr(s.currentQuestion),
      u.currentQuestionId.GetOr(s.currentQuestionId),
      s.userAnswer,
      u.evaluation.GetOr(s.evaluation),
      u.score.GetOr(s.score))
  }
}
