/**
 * The interview HTTP router: a process-wide table of sessions, each
 * holding its state dictionary, and the three endpoints that start a
 * session, submit one answer and read the transcript back.
 */
module InterviewRouter {
  import opened Wrappers
  import opened Text
  import opened InterviewState
  import G = InterviewGraph
  import KB = KnowledgeBase

  const SessionPrefix := "session_"

  /** `f"session_{n}"`. */
  function SessionId(n: nat): string {
    SessionPrefix + NatToString(n)
  }

  /** Different numbers give different session ids. */
  lemma SessionIdDistinct(m: nat, n: nat)
    requires m != n
    ensures SessionId(m) != SessionId(n)
  {
    assert SessionId(m)[|SessionPrefix|..] == NatToString(m);
    assert SessionId(n)[|SessionPrefix|..] == NatToString(n);
    DecimalOfNatToString(m);
    DecimalOfNatToString(n);
  }

  datatype StartResponse = StartResponse(sessionId: string, question: string, questionNumber: int)

  /** The answer endpoint's body; `nextQuestion` is the key that is present only when continuing. */
  datatype AnswerResponse = AnswerResponse(evaluation: string, score: int, cont: bool, nextQuestion: Option<string>)

  datatype TranscriptResponse = TranscriptResponse(messages: seq<Message>, totalQuestions: int, finalScore: int)

  const NotFound := Http(404, "Not found")

  /** The state a new session is stored with: the initial dictionary updated by the start node. */
  function StartState(category: string, store: KB.Store): State {
    Merge(Initial(category), G.StartNode(Initial(category), store))
  }

  /** The answer recorded in the state: `user_answer` set and a candidate message appended. */
  function Answered(s: State, answer: string): State {
    s.(userAnswer := answer, messages := s.messages + [Message(Candidate, answer)])
  }

  /** The state after the evaluation node's result is merged into the answered state. */
  function Evaluated(s: State, answer: string, store: KB.Store, e: G.EvalLlm): State {
    var a := Answered(s, answer);
    Merge(a, G.EvaluateUpdate(a, store, e))
  }

  /** One submitted answer: the new state of the session and the response body. */
  function Turn(s: State, answer: string, store: KB.Store, e: G.EvalLlm, f: G.FollowupLlm): (State, AnswerResponse) {
    var t := Evaluated(s, answer, store, e);
    if G.ShouldContinue(t) == G.Continue then
      var t' := Merge(t, G.FollowupNode(t, f));
      (t', AnswerResponse(t.evaluation, t.score, true, Some(t'.currentQuestion)))
    else
      (t, AnswerResponse(t.evaluation, t.score, false, None))
  }

  /** Evaluating an answer keeps the question and the count, and leaves only the evaluator's message. */
  lemma EvaluatedSpec(s: State, answer: string, store: KB.Store, e: G.EvalLlm)
    ensures var t := Evaluated(s, answer, store, e);
      && t.questionCount == s.questionCount && t.category == s.category && t.userAnswer == answer
      && t.currentQuestion == s.currentQuestion && t.currentQuestionId == s.currentQuestionId
      && t.evaluation == e(s.currentQuestion, G.ExpertContext(KB.Search(store, s.currentQuestion, Some(s.category), 2)), answer)
      && t.score == G.ScoreOf(t.evaluation)
      && t.messages == [Message(Evaluator, t.evaluation)]
  {
    var a := Answered(s, answer);
    assert a.currentQuestion == s.currentQuestion && a.category == s.category && a.userAnswer == answer;
    G.EvaluateKeepsQuestion(a, store, e);
  }

  /** Merging the follow-up result: one more question, the stripped completion, the suffixed id. */
  lemma FollowedSpec(t: State, f: G.FollowupLlm)
    ensures var t' := Merge(t, G.FollowupNode(t, f));
      && t'.questionCount == t.questionCount + 1 && t'.category == t.category && t'.userAnswer == t.userAnswer
      && t'.evaluation == t.evaluation && t'.score == t.score
      && t'.currentQuestion == PyStrip(f(t.currentQuestion, t.score))
      && t'.currentQuestionId == t.currentQuestionId + G.FollowupSuffix
      && t'.messages == [Message(Interviewer, t'.currentQuestion)]
  {
  }

  /**
   * What one answer does to a session: the response continues exactly when
   * fewer than three questions have been asked, carries a next question
   * exactly when it continues, and reports the score read from the
   * evaluation of this very answer; the count then grows by one only when
   * continuing, the answer is kept, and the transcript is replaced by a
   * single message: the follow-up question, or the evaluation at the end.
   */
  lemma TurnSpec(s: State, answer: string, store: KB.Store, e: G.EvalLlm, f: G.FollowupLlm)
    ensures var (t, r) := Turn(s, answer, store, e, f);
      && (r.cont <==> s.questionCount < G.MaxQuestions)
      && (r.nextQuestion.Some? <==> r.cont)
      && r.evaluation == e(s.currentQuestion, G.ExpertContext(KB.Search(store, s.currentQuestion, Some(s.category), 2)), answer)
      && r.score == G.ScoreOf(r.evaluation)
      && t.questionCount == (if r.cont then s.questionCount + 1 else s.questionCount)
      && t.category == s.category && t.userAnswer == answer
      && t.evaluation == r.evaluation && t.score == r.score
      && (r.cont ==> && r.nextQuestion == Some(t.currentQuestion)
                     && t.currentQuestion == PyStrip(f(s.currentQuestion, r.score))
                     && t.currentQuestionId == s.currentQuestionId + G.FollowupSuffix
                     && t.messages == [Message(Interviewer, t.currentQuestion)])
      && (!r.cont ==> && t.currentQuestion == s.currentQuestion
                      && t.currentQuestionId == s.currentQuestionId
                      && t.messages == [Message(Evaluator, r.evaluation)])
  {
    var t := Evaluated(s, answer, store, e);
    EvaluatedSpec(s, answer, store, e);
    FollowedSpec(t, f);
  }

  /** The responses to a sequence of answers submitted one after another to one session. */
  function Responses(s: State, answers: seq<string>, store: KB.Store, e: G.EvalLlm, f: G.FollowupLlm): seq<AnswerResponse>
    decreases |answers|
  {
    if answers == [] then []
    else
      var (t, r) := Turn(s, answers[0], store, e, f);
      [r] + Responses(t, answers[1..], store, e, f)
  }

  /** The state of a session after a sequence of answers. */
  function After(s: State, answers: seq<string>, store: KB.Store, e: G.EvalLlm, f: G.FollowupLlm): State
    decreases |answers|
  {
    if answers == [] then s else After(Turn(s, answers[0], store, e, f).0, answers[1..], store, e, f)
  }

  /** The two facts about one turn that a run depends on. */
  lemma TurnCount(s: State, answer: string, store: KB.Store, e: G.EvalLlm, f: G.FollowupLlm)
    ensures var p := Turn(s, answer, store, e, f);
      && (p.1.cont <==> s.questionCount < G.MaxQuestions)
      && p.0.questionCount == if s.questionCount < G.MaxQuestions then s.questionCount + 1 else s.questionCount
  {
    TurnSpec(s, answer, store, e, f);
  }

  /** Over any run of answers, the i-th response continues exactly when the starting count plus i is below three. */
  lemma {:induction false} RunFlags(s: State, answers: seq<string>, store: KB.Store, e: G.EvalLlm, f: G.FollowupLlm)
    ensures |Responses(s, answers, store, e, f)| == |answers|
    ensures forall i :: 0 <= i < |answers| ==>
      (Responses(s, answers, store, e, f)[i].cont <==> s.questionCount + i < G.MaxQuestions)
    decreases |answers|
  {
    if answers != [] {
      var p := Turn(s, answers[0], store, e, f);
      TurnCount(s, answers[0], store, e, f);
      var tail := Responses(p.0, answers[1..], store, e, f);
      RunFlags(p.0, answers[1..], store, e, f);
      var rs := Responses(s, answers, store, e, f);
      assert rs == [p.1] + tail;
      forall i | 1 <= i < |answers|
        ensures rs[i].cont <==> s.questionCount + i < G.MaxQuestions
      {
        assert rs[i] == tail[i - 1];
      }
    }
  }

  /** The count climbs by one per answer up to three and stays there: nothing stops answers after the end. */
  lemma {:induction false} RunCount(s: State, answers: seq<string>, store: KB.Store, e: G.EvalLlm, f: G.FollowupLlm)
    ensures After(s, answers, store, e, f).questionCount
      == if s.questionCount >= G.MaxQuestions then s.questionCount
         else if s.questionCount + |answers| <= G.MaxQuestions then s.questionCount + |answers|
         else G.MaxQuestions
    decreases |answers|
  {
    if answers != [] {
      var p := Turn(s, answers[0], store, e, f);
      TurnCount(s, answers[0], store, e, f);
      RunCount(p.0, answers[1..], store, e, f);
      assert After(s, answers, store, e, f) == After(p.0, answers[1..], store, e, f);
    }
  }

  /** A new session asks three questions: the first two answers continue, every later one ends. */
  lemma NewSessionRun(category: string, answers: seq<string>, store: KB.Store, e: G.EvalLlm, f: G.FollowupLlm)
    requires |answers| >= 3
    ensures var rs := Responses(StartState(category, store), answers, store, e, f);
      && |rs| == |answers|
      && (forall i :: 0 <= i < |rs| ==> (rs[i].cont <==> i < 2))
      && After(StartState(category, store), answers, store, e, f).questionCount == G.MaxQuestions
  {
    RunFlags(StartState(category, store), answers, store, e, f);
    RunCount(StartState(category, store), answers, store, e, f);
  }

  lemma SessionsSameKeys(m: map<string, State>, k: string, v: State)
    requires k in m
    ensures |m[k := v]| == |m|
    ensures forall j :: j in m[k := v] <==> j in m
  {
    assert m[k := v].Keys == m.Keys;
  }

  lemma SessionsNewKey(m: map<string, State>, k: string, v: State)
    requires k !in m
    ensures |m[k := v]| == |m| + 1
    ensures forall j :: j in m[k := v] <==> j in m || j == k
  {
    assert m[k := v].Keys == m.Keys + {k};
  }

  /** The table's keys are exactly `session_1` to `session_n`, listed in order by `ids`. */
  ghost predicate NumberedTable(ids: seq<string>, sessions: map<string, State>) {
    && |ids| == |sessions|
    && (forall i :: 0 <= i < |ids| ==> ids[i] == SessionId(i + 1))
    && (forall k :: k in sessions <==> k in ids)
  }

  /** The next number gives a fresh id, and adding it keeps the table numbered. */
  lemma NumberedTableAdd(ids: seq<string>, sessions: map<string, State>, state: State)
    requires NumberedTable(ids, sessions)
    ensures SessionId(|sessions| + 1) !in sessions
    ensures NumberedTable(ids + [SessionId(|sessions| + 1)], sessions[SessionId(|sessions| + 1) := state])
  {
    var id := SessionId(|sessions| + 1);
    forall i | 0 <= i < |ids| ensures ids[i] != id {
      SessionIdDistinct(i + 1, |sessions| + 1);
    }
    SessionsNewKey(sessions, id, state);
  }

  class Router {
    /** The process-wide session table. */
    var sessions: map<string, State>
    /** The ids handed out so far, in order. */
    ghost var ids: seq<string>

    const store: KB.Store
    const evalLlm: G.EvalLlm
    const followupLlm: G.FollowupLlm

    /** Sessions are never removed, so the ids in use are `session_1` to `session_n`. */
    ghost predicate Valid()
      reads this
    {
      NumberedTable(ids, sessions)
    }

    constructor (store: KB.Store, evalLlm: G.EvalLlm, followupLlm: G.FollowupLlm)
      ensures Valid() && sessions == map[]
      ensures this.store == store && this.evalLlm == evalLlm && this.followupLlm == followupLlm
    {
      this.store := store;
      this.evalLlm := evalLlm;
      this.followupLlm := followupLlm;
      sessions := map[];
      ids := [];
    }

    /** `POST /start`: a new session under the next id, started on the first question. */
    method StartInterview(category: string := "coding") returns (r: StartResponse)
      requires Valid()
      modifies this
      ensures Valid()
      ensures r.sessionId == SessionId(|old(sessions)| + 1) && r.sessionId !in old(sessions)
      ensures sessions == old(sessions)[r.sessionId := StartState(category, store)]
      ensures r.question == sessions[r.sessionId].currentQuestion && r.questionNumber == 1
    {
      var id := SessionId(|sessions| + 1);
      var state := Initial(category);
      var result := G.StartNode(state, store);
      state := Merge(state, result);
      assert state == StartState(category, store);
      NumberedTableAdd(ids, sessions, state);
      sessions := sessions[id := state];
      ids := ids + [id];
      r := StartResponse(id, state.currentQuestion, state.questionCount);
    }

    /** The body of `submit_answer` once the session's state is found, step by step on that state. */
    method AnswerTurn(s: State, answer: string) returns (state: State, response: AnswerResponse)
      ensures (state, response) == Turn(s, answer, store, evalLlm, followupLlm)
    {
      state := s.(userAnswer := answer);
      state := state.(messages := state.messages + [Message(Candidate, answer)]);
      assert state == Answered(s, answer);
      var evalResult := G.EvaluateNode(state, store, evalLlm);
      state := Merge(state, evalResult);
      assert state == Evaluated(s, answer, store, evalLlm);
      var decision := G.ShouldContinue(state);
      response := AnswerResponse(state.evaluation, state.score, decision == G.Continue, None);
      if decision == G.Continue {
        var followup := G.FollowupNode(state, followupLlm);
        state := Merge(state, followup);
        response := response.(nextQuestion := Some(state.currentQuestion));
      }
    }

    /** `POST /answer`: 404 for an unknown session; otherwise one turn of the interview. */
    method SubmitAnswer(sessionId: string, answer: string) returns (r: Result<AnswerResponse>)
      requires Valid()
      modifies this
      ensures Valid() && ids == old(ids)
      ensures sessionId !in old(sessions) ==> r == Err(NotFound) && sessions == old(sessions)
      ensures sessionId in old(sessions) ==>
        var (t, resp) := Turn(old(sessions)[sessionId], answer, store, evalLlm, followupLlm);
        r == Ok(resp) && sessions == old(sessions)[sessionId := t]
    {
      if sessionId !in sessions {
        return Err(NotFound);
      }
      var state, response := AnswerTurn(sessions[sessionId], answer);
      SessionsSameKeys(sessions, sessionId, state);
      sessions := sessions[sessionId := state];
      r := Ok(response);
    }

    /** `GET /{session_id}/transcript`: 404 for an unknown session, else its messages, count and last score. */
    function GetTranscript(sessionId: string): (r: Result<TranscriptResponse>)
      reads this
      ensures r.Err? <==> sessionId !in sessions
      ensures r.Err? ==> r.error == NotFound
      ensures r.Ok? ==> r.value.messages == sessions[sessionId].messages
                        && r.value.totalQuestions == sessions[sessionId].questionCount
                        && r.value.finalScore == sessions[sessionId].score
    {
      if sessionId !in sessions then Err(NotFound)
      else
        var s := sessions[sessionId];
        Ok(TranscriptResponse(s.messages, s.questionCount, s.score))
    }
  }

  /** Right after an answer, the transcript of that session holds exactly one message, so earlier turns are lost. */
  lemma TranscriptAfterTurn(s: State, answer: string, store: KB.Store, e: G.EvalLlm, f: G.FollowupLlm)
    ensures var (t, r) := Turn(s, answer, store, e, f);
      |t.messages| == 1 && t.messages[0].role == (if r.cont then Interviewer else Evaluator)
  {
    TurnSpec(s, answer, store, e, f);
  }
}
