/**
 * The interview page: its component state, the submit handler (the empty
 * answer guard, the trimmed request, the continue-or-complete branch) and
 * the pure helpers for score colours, the word count and the submit
 * button.
 */
module InterviewPage {
  import opened Wrappers
  import opened Text
  import Dashboard
  import Router = InterviewRouter

  /** The session the page shows; a question number read from an absent key is `undefined`, here `None`. */
  datatype SessionData = SessionData(sessionId: string, category: string, question: string, questionNumber: Option<int>)

  datatype SubmitAnswerRequest = SubmitAnswerRequest(sessionId: string, answer: string)

  /** The answer body as the page's type reads it; a key the body lacks is `None`. */
  datatype SubmitAnswerResponse = SubmitAnswerResponse(
    evaluation: string,
    score: real,
    questionNumber: Option<int>,
    cont: bool,
    nextQuestion: Option<string>)

  /** The body `submit_answer` sends, read by the page: it carries no `question_number`. */
  function FromBackend(a: Router.AnswerResponse): (r: SubmitAnswerResponse)
    ensures r.questionNumber.None?
    ensures r.evaluation == a.evaluation && r.score == a.score as real
    ensures r.cont == a.cont && r.nextQuestion == a.nextQuestion
  {
    SubmitAnswerResponse(a.evaluation, a.score as real, None, a.cont, a.nextQuestion)
  }

  /** The request the page sends; `None` when the promise rejects. */
  type SubmitApi = SubmitAnswerRequest -> Option<SubmitAnswerResponse>

  const EmptyAnswerToast := "Empty Answer"
  const SubmissionFailedToast := "Submission Failed"

  /** `!answer.trim()`: nothing but white space. */
  predicate Blank(answer: string) {
    JsTrim(answer) == []
  }

  /** `response.continue && response.next_question`: the page moves on only with a non-empty next question. */
  predicate Advances(r: SubmitAnswerResponse) {
    r.cont && r.nextQuestion.Some? && r.nextQuestion.value != ""
  }

  /** Everything the page component holds, as one value. */
  datatype PageView = PageView(
    session: Option<SessionData>,
    answer: string,
    submitting: bool,
    showEvaluation: bool,
    evaluation: string,
    score: real,
    isComplete: bool,
    toasts: seq<string>,
    scheduled: Option<SessionData>)

  /**
   * The page once the submit request settles: on success the evaluation is
   * shown, the text box cleared and either the next question scheduled or
   * the interview completed; on failure a toast. Either way it is no longer
   * submitting.
   */
  function Settled(v: PageView, response: Option<SubmitAnswerResponse>): (w: PageView)
    requires v.session.Some?
    ensures !w.submitting && w.session == v.session
    ensures response.None? ==> w == v.(submitting := false, toasts := v.toasts + [SubmissionFailedToast])
    ensures response.Some? ==>
      && w.evaluation == response.value.evaluation && w.score == response.value.score
      && w.showEvaluation && w.answer == "" && w.toasts == v.toasts
    ensures response.Some? && Advances(response.value) ==>
      && w.scheduled == Some(v.session.value.(question := response.value.nextQuestion.value,
                                               questionNumber := response.value.questionNumber))
      && w.isComplete == v.isComplete
    ensures response.Some? && !Advances(response.value) ==>
      w.isComplete && w.scheduled == v.scheduled
  {
    match response
    case None => v.(submitting := false, toasts := v.toasts + [SubmissionFailedToast])
    case Some(resp) =>
      var shown := v.(submitting := false, evaluation := resp.evaluation, score := resp.score,
                      showEvaluation := true, answer := "");
      if Advances(resp) then
        shown.(scheduled := Some(v.session.value.(question := resp.nextQuestion.value,
                                                  questionNumber := resp.questionNumber)))
      else shown.(isComplete := true)
  }

  /**
   * The five-second timer firing: the scheduled question replaces the
   * current one and the evaluation panel is reset.
   */
  function Fired(v: PageView): (w: PageView)
    requires v.scheduled.Some?
    ensures w.session == v.scheduled && w.scheduled.None?
    ensures !w.showEvaluation && w.evaluation == "" && w.score == 0.0
    ensures w.answer == v.answer && w.submitting == v.submitting && w.isComplete == v.isComplete
    ensures w.toasts == v.toasts
  {
    v.(session := v.scheduled, showEvaluation := false, evaluation := "", score := 0.0, scheduled := None)
  }

  class Page {
    var session: Option<SessionData>
    var answer: string
    var submitting: bool
    var showEvaluation: bool
    var evaluation: string
    var score: real
    var isComplete: bool
    /** The titles of the toasts shown, in order. */
    var toasts: seq<string>
    /** The session the five-second timer will install, once scheduled. */
    var scheduled: Option<SessionData>

    function View(): PageView
      reads this
    {
      PageView(session, answer, submitting, showEvaluation, evaluation, score, isComplete, toasts, scheduled)
    }

    constructor (session: Option<SessionData>)
      ensures View() == PageView(session, "", false, false, "", 0.0, false, [], None)
    {
      this.session := session;
      answer := "";
      submitting := false;
      showEvaluation := false;
      evaluation := "";
      score := 0.0;
      isComplete := false;
      toasts := [];
      scheduled := None;
    }

    /**
     * `handleSubmitAnswer`. A blank answer only raises a toast, and with no
     * session nothing happens; otherwise the page is marked submitting, the
     * trimmed answer is sent and the outcome applied.
     */
    method HandleSubmitAnswer(api: SubmitApi) returns (sent: Option<SubmitAnswerRequest>)
      modifies this
      ensures Blank(old(answer)) ==>
        sent.None? && View() == old(View()).(toasts := old(toasts) + [EmptyAnswerToast])
      ensures !Blank(old(answer)) && old(session).None? ==> sent.None? && View() == old(View())
      ensures !Blank(old(answer)) && old(session).Some? ==>
        && sent == Some(SubmitAnswerRequest(old(session).value.sessionId, JsTrim(old(answer))))
        && View() == Settled(old(View()).(submitting := true), api(sent.value))
    {
      var trimmed := JsTrim(answer);
      if trimmed == [] {
        toasts := toasts + [EmptyAnswerToast];
        return None;
      }
      if session.None? {
        return None;
      }
      var request := Submit(api, trimmed);
      sent := Some(request);
    }

    /** The handler past its guards: mark the page submitting, send the answer, apply the outcome. */
    method Submit(api: SubmitApi, trimmed: string) returns (request: SubmitAnswerRequest)
      requires session.Some?
      modifies this
      ensures request == SubmitAnswerRequest(old(session).value.sessionId, trimmed)
      ensures View() == Settled(old(View()).(submitting := true), api(request))
    {
      submitting := true;
      request := SubmitAnswerRequest(session.value.sessionId, trimmed);
      var response := api(request);
      ApplyResponse(response);
    }

    /** The `try`/`finally` part of the handler, once the request settles. */
    method ApplyResponse(response: Option<SubmitAnswerResponse>)
      requires session.Some?
      modifies this
      ensures View() == Settled(old(View()), response)
    {
      if response.Some? {
        var resp := response.value;
        evaluation := resp.evaluation;
        score := resp.score;
        showEvaluation := true;
        answer := "";
        if Advances(resp) {
          scheduled := Some(session.value.(question := resp.nextQuestion.value,
                                           questionNumber := resp.questionNumber));
        } else {
          isComplete := true;
        }
      } else {
        toasts := toasts + [SubmissionFailedToast];
      }
      submitting := false;
    }

    /** The callback of the five-second timer the handler scheduled. */
    method TimerFires()
      requires scheduled.Some?
      modifies this
      ensures View() == Fired(old(View()))
    {
      session := scheduled;
      showEvaluation := false;
      evaluation := "";
      score := 0.0;
      scheduled := None;
    }
  }

  /**
   * A successful submission that continues, followed by the timer: the
   * same session now shows the next question under whatever number the
   * response carried, with the evaluation panel closed and an empty text
   * box.
   */
  lemma SubmitThenAdvance(v: PageView, resp: SubmitAnswerResponse)
    requires v.session.Some? && Advances(resp)
    ensures var w := Fired(Settled(v.(submitting := true), Some(resp)));
      && w.session.Some? && w.session.value.sessionId == v.session.value.sessionId
      && w.session.value.category == v.session.value.category
      && w.session.value.question == resp.nextQuestion.value != ""
      && w.session.value.questionNumber == resp.questionNumber
      && !w.showEvaluation && w.answer == "" && !w.submitting && w.isComplete == v.isComplete
  {
  }

  /**
   * With the body the backend actually sends, the number is lost: after a
   * continuing answer and the timer, the page's session has the next
   * question but an undefined question number.
   */
  lemma BackendAdvanceLosesNumber(v: PageView, a: Router.AnswerResponse)
    requires v.session.Some? && Advances(FromBackend(a))
    ensures var w := Fired(Settled(v.(submitting := true), Some(FromBackend(a))));
      && w.session.Some? && w.session.value.question == a.nextQuestion.value
      && w.session.value.questionNumber.None?
  {
    SubmitThenAdvance(v, FromBackend(a));
  }

  /** Whatever the handler sends is non-blank and already trimmed. */
  lemma SentAnswerIsTrimmed(answer: string)
    requires !Blank(answer)
    ensures var a := JsTrim(answer);
      a != [] && !JsIsSpace(a[0]) && !JsIsSpace(a[|a| - 1]) && JsTrim(a) == a
  {
    StripIdempotent(answer, JsIsSpace);
  }

  // ---------------------------------------------------------------------
  // Pure helpers
  // ---------------------------------------------------------------------

  /**
   * After a submission of a non-blank answer settles, the submit button is
   * disabled exactly when it succeeded: success clears the text box, while
   * a failure leaves the answer in place to be sent again.
   */
  lemma SettledButton(v: PageView, response: Option<SubmitAnswerResponse>)
    requires v.session.Some? && !Blank(v.answer)
    ensures var w := Settled(v, response); SubmitDisabled(w.submitting, w.answer) <==> response.Some?
  {
    if response.Some? {
      assert Settled(v, response).answer == [];
    }
  }

  /** `getScoreColor`. */
  function ScoreColor(score: real): string {
    if score >= 80.0 then "text-green-500"
    else if score >= 60.0 then "text-yellow-500"
    else "text-red-500"
  }

  /** `getScoreBgColor`. */
  function ScoreBgColor(score: real): string {
    if score >= 80.0 then "bg-green-500/10 border-green-500/20"
    else if score >= 60.0 then "bg-yellow-500/10 border-yellow-500/20"
    else "bg-red-500/10 border-red-500/20"
  }

  /** The text colour and the background always pick the same band, and the bands are the dashboard's. */
  lemma ScoreColorsAgree(score: real)
    ensures ScoreColor(score) == "text-green-500" <==> ScoreBgColor(score) == "bg-green-500/10 border-green-500/20"
    ensures ScoreColor(score) == "text-yellow-500" <==> ScoreBgColor(score) == "bg-yellow-500/10 border-yellow-500/20"
    ensures ScoreColor(score) == "text-red-500" <==> ScoreBgColor(score) == "bg-red-500/10 border-red-500/20"
    ensures ScoreColor(score) == Dashboard.ScoreColor(score)
  {
  }

  /** `submitting || !answer.trim()`. */
  predicate SubmitDisabled(submitting: bool, answer: string) {
    submitting || Blank(answer)
  }

  /** The index of the first character `p` accepts, or `|s|`. */
  function IndexWhere(s: string, p: char -> bool): (i: nat)
    ensures i <= |s|
    ensures i < |s| ==> p(s[i])
    ensures forall j :: 0 <= j < i ==> !p(s[j])
  {
    if s == [] then 0 else if p(s[0]) then 0 else 1 + IndexWhere(s[1..], p)
  }

  /** Splitting at every single character `p` accepts. */
  function SplitWhere(s: string, p: char -> bool): (parts: seq<string>)
    ensures |parts| >= 1
    decreases |s|
  {
    var i := IndexWhere(s, p);
    if i == |s| then [s] else [s[..i]] + SplitWhere(s[i + 1..], p)
  }

  /** `.filter(Boolean)` on strings. */
  function NonEmpty(xs: seq<string>): (r: seq<string>)
    ensures |r| <= |xs|
    ensures forall i :: 0 <= i < |r| ==> r[i] != []
  {
    if xs == [] then [] else (if xs[0] != [] then [xs[0]] else []) + NonEmpty(xs[1..])
  }

  /** The non-empty pieces are kept, and nothing else. */
  lemma {:induction false} NonEmptyMembers(xs: seq<string>)
    ensures forall x :: x in NonEmpty(xs) <==> x in xs && x != []
    decreases |xs|
  {
    if xs != [] {
      NonEmptyMembers(xs[1..]);
      assert xs == [xs[0]] + xs[1..];
    }
  }

  /** Filtering a concatenation filters each part in turn, so what is kept stays in its original order. */
  lemma {:induction false} NonEmptyConcat(a: seq<string>, b: seq<string>)
    ensures NonEmpty(a + b) == NonEmpty(a) + NonEmpty(b)
    decreases |a|
  {
    if a == [] {
      assert a + b == b;
    } else {
      assert (a + b)[0] == a[0];
      assert (a + b)[1..] == a[1..] + b;
      NonEmptyConcat(a[1..], b);
    }
  }

  /**
   * `answer.trim().split(/\s+/).filter(Boolean).length`. Splitting at
   * every white-space character instead of at runs only adds empty pieces
   * between adjacent separators, which the filter drops.
   */
  function WordCount(answer: string): nat {
    |NonEmpty(SplitWhere(JsTrim(answer), JsIsSpace))|
  }

  /** The page shows "0 words" exactly when the answer is blank, which is when submitting is refused. */
  lemma WordCountZero(answer: string)
    ensures WordCount(answer) == 0 <==> Blank(answer)
    ensures WordCount(answer) == 0 <==> SubmitDisabled(false, answer)
  {
    var t := JsTrim(answer);
    if t == [] {
      assert SplitWhere(t, JsIsSpace) == [[]];
      assert NonEmpty([[]]) == [] + NonEmpty([]);
    } else {
      StripIdempotent(answer, JsIsSpace);
      var i := IndexWhere(t, JsIsSpace);
      assert i >= 1;
      var first := t[..i];
      assert SplitWhere(t, JsIsSpace)[0] == first && first != [];
    }
  }

  /** Each word counted holds no white space. */
  lemma {:induction false} WordsHaveNoSpace(s: string, p: char -> bool)
    ensures forall k :: 0 <= k < |SplitWhere(s, p)| ==> forall j :: 0 <= j < |SplitWhere(s, p)[k]| ==> !p(SplitWhere(s, p)[k][j])
    decreases |s|
  {
    var i := IndexWhere(s, p);
    if i < |s| {
      WordsHaveNoSpace(s[i + 1..], p);
      assert SplitWhere(s, p) == [s[..i]] + SplitWhere(s[i + 1..], p);
    }
  }
}
