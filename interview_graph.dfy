/**
 * The nodes of the interview graph: the first question, the evaluation of
 * an answer with its score extraction, the follow-up question, and the
 * continuation rule. The language model is an oracle: `EvalLlm` answers
 * the evaluation prompt from its three template variables, `FollowupLlm`
 * the follow-up prompt from its two.
 */
module InterviewGraph {
  import opened Wrappers
  import opened Text
  import opened InterviewState
  import KB = KnowledgeBase

  /** The score when no line of the evaluation yields one. */
  const DefaultScore: nat := 70
  const FallbackQuestion := "Explain your approach."
  const FallbackId := "fallback"
  const FollowupSuffix := "_followup"
  /** `should_continue` ends the interview once this many questions were asked. */
  const MaxQuestions := 3

  /** The evaluation chain: (question, expert_context, user_answer) to the completion text. */
  type EvalLlm = (string, string, string) -> string
  /** The follow-up chain: (question, score) to the completion text. */
  type FollowupLlm = (string, int) -> string

  datatype Decision = Continue | End

  // ---------------------------------------------------------------------
  // Score extraction
  // ---------------------------------------------------------------------

  /** `'Score:' in line or 'score:' in line.lower()`. */
  predicate HasMarker(line: string) {
    Contains(line, "Score:") || Contains(Lower(line), "score:")
  }

  /** The first test adds nothing to the second: the marker is matched case-insensitively. */
  lemma MarkerIsCaseInsensitive(line: string)
    ensures HasMarker(line) <==> Contains(Lower(line), "score:")
  {
    if Contains(line, "Score:") {
      ContainsLower(line, "Score:");
      assert Lower("Score:") == "score:";
    }
  }

  /** A marker line holds a colon, so `line.split(':')[1]` exists. */
  lemma MarkerHasColon(line: string)
    requires HasMarker(line)
    ensures ':' in line
    ensures |Split(line, ':')| >= 2
  {
    MarkerIsCaseInsensitive(line);
    ContainsChar(Lower(line), "score:", 5);
    var k :| 0 <= k < |line| && Lower(line)[k] == ':';
    assert line[k] == ':';
    SplitSome(line, ':');
  }

  /** `line.split(':')[1].split('/')[0]`: after the first colon, up to the next colon, cut at the first slash. */
  function Segment(line: string): string
    requires HasMarker(line)
  {
    MarkerHasColon(line);
    Split(Split(line, ':')[1], '/')[0]
  }

  /**
   * What one line contributes: nothing without a marker, nothing when the
   * segment has no digit (`int('')` raises and the handler passes), and
   * otherwise the number all the segment's digits spell together.
   */
  function LineScore(line: string): Option<nat> {
    if HasMarker(line) then
      var d := Digits(Segment(line));
      if d == [] then None else Some(DecimalValue(d))
    else None
  }

  /** The contribution of the first line that has one. */
  function FirstScore(lines: seq<string>): Option<nat> {
    if lines == [] then None
    else if LineScore(lines[0]).Some? then LineScore(lines[0])
    else FirstScore(lines[1..])
  }

  /** The score `evaluate_node` extracts from the completion text. */
  function ScoreOf(content: string): nat {
    FirstScore(Split(content, '\n')).GetOr(DefaultScore)
  }

  /** The loop of `evaluate_node` over the lines of the completion text. */
  method ExtractScore(content: string) returns (score: int)
    ensures score == ScoreOf(content)
  {
    score := DefaultScore;
    var lines := Split(content, '\n');
    var i := 0;
    while i < |lines|
      invariant 0 <= i <= |lines|
      invariant FirstScore(lines[i..]) == FirstScore(lines)
    {
      var line := lines[i];
      assert lines[i..][0] == line && lines[i..][1..] == lines[i + 1..];
      if Contains(line, "Score:") || Contains(Lower(line), "score:") {
        MarkerHasColon(line);
        var scorePart := Split(Split(line, ':')[1], '/')[0];
        var digits := Digits(scorePart);
        if digits != [] {
          score := DecimalValue(digits);
          break;
        }
      }
      i := i + 1;
    }
  }

  /** No line contributes exactly when the first-line search finds nothing. */
  lemma {:induction false} FirstScoreNone(lines: seq<string>)
    ensures FirstScore(lines).None? <==> forall i :: 0 <= i < |lines| ==> LineScore(lines[i]).None?
    decreases |lines|
  {
    if lines != [] {
      FirstScoreNone(lines[1..]);
      assert forall i :: 1 <= i < |lines| ==> lines[i] == lines[1..][i - 1];
    }
  }

  /** The first contributing line decides; the lines after it are never read. */
  lemma {:induction false} FirstScoreWins(lines: seq<string>, k: nat)
    requires k < |lines| && LineScore(lines[k]).Some?
    requires forall j :: 0 <= j < k ==> LineScore(lines[j]).None?
    ensures FirstScore(lines) == LineScore(lines[k])
    decreases k
  {
    if k > 0 {
      assert forall j :: 0 <= j < k - 1 ==> lines[1..][j] == lines[j + 1];
      FirstScoreWins(lines[1..], k - 1);
    }
  }

  /** Whatever the search finds comes from some line all of whose predecessors contribute nothing. */
  lemma {:induction false} FirstScoreFrom(lines: seq<string>)
    requires FirstScore(lines).Some?
    ensures exists k :: 0 <= k < |lines| && LineScore(lines[k]) == FirstScore(lines)
                        && forall j :: 0 <= j < k ==> LineScore(lines[j]).None?
    decreases |lines|
  {
    if LineScore(lines[0]).None? {
      FirstScoreFrom(lines[1..]);
      var k :| 0 <= k < |lines[1..]| && LineScore(lines[1..][k]) == FirstScore(lines[1..])
                && forall j :: 0 <= j < k ==> LineScore(lines[1..][j]).None?;
      assert lines[k + 1] == lines[1..][k];
      assert forall j :: 1 <= j < k + 1 ==> lines[j] == lines[1..][j - 1];
    }
  }

  /** Without a case-insensitive `score:` on any line the score is the default 70. */
  lemma ScoreWithoutMarker(content: string)
    requires forall i :: 0 <= i < |Split(content, '\n')| ==> !Contains(Lower(Split(content, '\n')[i]), "score:")
    ensures ScoreOf(content) == DefaultScore
  {
    var lines := Split(content, '\n');
    forall i | 0 <= i < |lines| ensures LineScore(lines[i]).None? {
      MarkerIsCaseInsensitive(lines[i]);
    }
    FirstScoreNone(lines);
  }

  /** Line `k` is the first line that contributes a score. */
  predicate FirstContributor(lines: seq<string>, k: int) {
    0 <= k < |lines| && LineScore(lines[k]).Some?
    && forall j :: 0 <= j < k ==> LineScore(lines[j]).None?
  }

  /**
   * The score is either the default, when no line contributes, or the
   * contribution of the first line that does; it is never negative and
   * never clamped.
   */
  lemma ScoreCharacterized(content: string)
    ensures || (ScoreOf(content) == DefaultScore
                && forall i :: 0 <= i < |Split(content, '\n')| ==> LineScore(Split(content, '\n')[i]).None?)
            || exists k :: FirstContributor(Split(content, '\n'), k)
                           && LineScore(Split(content, '\n')[k]) == Some(ScoreOf(content))
  {
    var lines := Split(content, '\n');
    FirstScoreNone(lines);
    if FirstScore(lines).Some? {
      FirstScoreFrom(lines);
      var k :| 0 <= k < |lines| && LineScore(lines[k]) == FirstScore(lines)
               && forall j :: 0 <= j < k ==> LineScore(lines[j]).None?;
      assert FirstContributor(lines, k);
      assert LineScore(lines[k]) == Some(ScoreOf(content));
      assert FirstContributor(Split(content, '\n'), k) && LineScore(Split(content, '\n')[k]) == Some(ScoreOf(content));
    } else {
      assert ScoreOf(content) == FirstScore(lines).GetOr(DefaultScore) == DefaultScore;
      assert forall i :: 0 <= i < |lines| ==> LineScore(lines[i]).None?;
    }
  }

  /** A line `Score:<seg>/<rest>`, with no colon after the marker's, contributes the digits of `seg`. */
  lemma MarkedLineScore(seg: string, rest: string)
    requires ':' !in seg && '/' !in seg && ':' !in rest
    ensures LineScore("Score:" + seg + "/" + rest)
            == if Digits(seg) == [] then None else Some(DecimalValue(Digits(seg)))
  {
    var line := "Score:" + seg + "/" + rest;
    var tail := seg + ['/'] + rest;
    assert IsPrefix("Score:", line);
    assert line == "Score" + [':'] + tail;
    SplitFirst("Score", tail, ':');
    SplitNone(tail, ':');
    SplitFirst(seg, rest, '/');
  }

  /** On a line `<head>:<seg>:<rest>` the segment is the text between the first two colons, wherever the marker is. */
  lemma EarlyColonLine(head: string, seg: string, rest: string)
    requires HasMarker(head + ":" + seg + ":" + rest)
    requires ':' !in head && ':' !in seg && '/' !in seg
    ensures LineScore(head + ":" + seg + ":" + rest)
            == if Digits(seg) == [] then None else Some(DecimalValue(Digits(seg)))
  {
    var line := head + ":" + seg + ":" + rest;
    assert line == head + [':'] + (seg + [':'] + rest);
    SplitFirst(head, seg + [':'] + rest, ':');
    SplitFirst(seg, rest, ':');
    SplitNone(seg, '/');
  }

  /** When the first line contributes, the text after it does not matter. */
  lemma FirstLineDecides(first: string, more: string)
    requires '\n' !in first && LineScore(first).Some?
    ensures ScoreOf(first + "\n" + more) == LineScore(first).value
  {
    SplitFirst(first, more, '\n');
    assert first + "\n" + more == first + ['\n'] + more;
    FirstScoreWins(Split(first + "\n" + more, '\n'), 0);
  }

  lemma ValueEightyFive()
    ensures AllDigits("85") && DecimalValue("85") == 85
  {
    assert "85"[..1] == "8";
  }

  lemma DigitsEightFive()
    ensures Digits(" 8 5") == "85"
  {
    assert " 8 5"[1..] == "8 5" && "8 5"[1..] == " 5" && " 5"[1..] == "5";
  }

  lemma DigitsEightyFive()
    ensures Digits(" 85") == "85"
  {
    assert " 85"[1..] == "85" && "85"[1..] == "5";
  }

  lemma LineEightFive()
    ensures LineScore("Score:" + " 8 5" + "/" + "100") == Some(85)
  {
    MarkedLineScore(" 8 5", "100");
    DigitsEightFive();
    ValueEightyFive();
  }

  lemma LineOneFifty()
    ensures LineScore("Score:" + " 150" + "/" + "100") == Some(150)
  {
    MarkedLineScore(" 150", "100");
    assert Digits(" 150") == "150" && "150"[..2] == "15" && "15"[..1] == "1";
  }

  lemma LineEightyFive()
    ensures LineScore("Score:" + " 85" + "/" + "100") == Some(85)
    ensures '\n' !in "Score:" + " 85" + "/" + "100"
  {
    MarkedLineScore(" 85", "100");
    DigitsEightyFive();
    ValueEightyFive();
  }

  lemma LineNotAvailable()
    ensures LineScore("Score:" + " N" + "/" + "A") == None
    ensures '\n' !in "Score:" + " N" + "/" + "A"
  {
    MarkedLineScore(" N", "A");
    assert Digits(" N") == [];
  }

  /** Every digit of the segment counts: `Score: 8 5/100` scores 85. */
  lemma ExampleDigitsConcatenate(content: string)
    requires content == "Score: 8 5/100"
    ensures ScoreOf(content) == 85
  {
    LineEightFive();
    assert content == "Score:" + " 8 5" + "/" + "100";
    SplitNone(content, '\n');
    FirstScoreWins([content], 0);
  }

  /** Nothing clamps the score: `Score: 150/100` scores 150. */
  lemma ExampleNoClamp(content: string)
    requires content == "Score: 150/100"
    ensures ScoreOf(content) == 150
  {
    LineOneFifty();
    assert content == "Score:" + " 150" + "/" + "100";
    SplitNone(content, '\n');
    FirstScoreWins([content], 0);
  }

  /** Of two lines, a first that contributes nothing leaves the score to the second. */
  lemma SecondLineDecides(first: string, second: string)
    requires '\n' !in first && '\n' !in second
    requires LineScore(first).None? && LineScore(second).Some?
    ensures ScoreOf(first + "\n" + second) == LineScore(second).value
  {
    assert first + "\n" + second == first + ['\n'] + second;
    SplitFirst(first, second, '\n');
    SplitNone(second, '\n');
    FirstScoreWins([first, second], 1);
  }

  lemma SkipNoDigitsShape(content: string)
    requires content == "Score: N/A\nScore: 85/100"
    ensures content == ("Score:" + " N" + "/" + "A") + "\n" + ("Score:" + " 85" + "/" + "100")
  {
  }

  /** A marker line without digits is skipped, and the next marker line counts. */
  lemma ExampleSkipNoDigits(content: string)
    requires content == "Score: N/A\nScore: 85/100"
    ensures ScoreOf(content) == 85
  {
    SkipNoDigitsShape(content);
    LineNotAvailable();
    LineEightyFive();
    SecondLineDecides("Score:" + " N" + "/" + "A", "Score:" + " 85" + "/" + "100");
  }

  lemma LineEarlyColon()
    ensures LineScore("Overall" + ":" + " Score" + ":" + " 85") == None
  {
    var line := "Overall" + ":" + " Score" + ":" + " 85";
    assert IsPrefix("Score:", line[9..]);
    ContainsAt(line, "Score:", 9);
    EarlyColonLine("Overall", " Score", " 85");
    assert Digits(" Score") == [];
  }

  /** A marker after an earlier colon is not read: `Overall: Score: 85` scores the default. */
  lemma ExampleEarlyColon(line: string)
    requires line == "Overall: Score: 85"
    ensures ScoreOf(line) == DefaultScore
  {
    LineEarlyColon();
    assert line == "Overall" + ":" + " Score" + ":" + " 85";
    SplitNone(line, '\n');
    FirstScoreNone([line]);
  }

  // ---------------------------------------------------------------------
  // Nodes
  // ---------------------------------------------------------------------

  /** `start_node`: the first hit of a one-result search for the category, or the fallback question. */
  function StartNode(s: State, store: KB.Store): (u: Update)
    ensures u.questionCount == Some(1) && u.evaluation.None? && u.score.None?
    ensures u.currentQuestion.Some? && u.currentQuestionId.Some?
    ensures u.messages == Some([Message(Interviewer, u.currentQuestion.value)])
    ensures var results := KB.Search(store, s.category + " interview", Some(s.category), 1);
      if |results| > 0 then u.currentQuestion.value == results[0].metadata.question
                            && u.currentQuestionId.value == results[0].metadata.id
      else u.currentQuestion.value == FallbackQuestion && u.currentQuestionId.value == FallbackId
  {
    var results := KB.Search(store, s.category + " interview", Some(s.category), 1);
    var question := if |results| > 0 then results[0].metadata.question else FallbackQuestion;
    var qId := if |results| > 0 then results[0].metadata.id else FallbackId;
    Update(Some([Message(Interviewer, question)]), Some(1), Some(question), Some(qId), None, None)
  }

  /** `"\n\n".join(r.page_content for r in results)`. */
  function ExpertContext(results: seq<KB.Document>): string {
    Join("\n\n", seq(|results|, i requires 0 <= i < |results| => results[i].pageContent))
  }

  /** The completion text `evaluate_node` obtains for the current question and answer. */
  function EvaluationText(s: State, store: KB.Store, llm: EvalLlm): string {
    var expert := KB.Search(store, s.currentQuestion, Some(s.category), 2);
    llm(s.currentQuestion, ExpertContext(expert), s.userAnswer)
  }

  /** The partial result of `evaluate_node`. */
  function EvaluateUpdate(s: State, store: KB.Store, llm: EvalLlm): Update {
    var content := EvaluationText(s, store, llm);
    Update(Some([Message(Evaluator, content)]), None, None, None, Some(content), Some(ScoreOf(content)))
  }

  /** `evaluate_node`: retrieves two exemplars, asks the model, and extracts the score from its text. */
  method EvaluateNode(s: State, store: KB.Store, llm: EvalLlm) returns (u: Update)
    ensures u == EvaluateUpdate(s, store, llm)
  {
    var expert := KB.Search(store, s.currentQuestion, Some(s.category), 2);
    var content := llm(s.currentQuestion, ExpertContext(expert), s.userAnswer);
    var score := ExtractScore(content);
    u := Update(Some([Message(Evaluator, content)]), None, None, None, Some(content), Some(score));
  }

  /** `followup_node`: the stripped completion becomes the question, under the old id plus `_followup`. */
  function FollowupNode(s: State, llm: FollowupLlm): (u: Update)
    ensures u.questionCount == Some(s.questionCount + 1)
    ensures u.currentQuestion == Some(PyStrip(llm(s.currentQuestion, s.score)))
    ensures u.currentQuestionId == Some(s.currentQuestionId + FollowupSuffix)
    ensures u.messages == Some([Message(Interviewer, u.currentQuestion.value)])
    ensures u.evaluation.None? && u.score.None?
  {
    var content := llm(s.currentQuestion, s.score);
    Update(Some([Message(Interviewer, PyStrip(content))]), Some(s.questionCount + 1),
           Some(PyStrip(content)), Some(s.currentQuestionId + FollowupSuffix), None, None)
  }

  /** `should_continue`. */
  function ShouldContinue(s: State): (d: Decision)
    ensures d == Continue <==> s.questionCount < MaxQuestions
  {
    if s.questionCount < MaxQuestions then Continue else End
  }

  /** Evaluation leaves the question, its id and the count alone, and replaces the transcript by the evaluator's message. */
  lemma EvaluateKeepsQuestion(s: State, store: KB.Store, llm: EvalLlm)
    ensures var t := Merge(s, EvaluateUpdate(s, store, llm));
      && t.questionCount == s.questionCount
      && t.currentQuestion == s.currentQuestion && t.currentQuestionId == s.currentQuestionId
      && t.messages == [Message(Evaluator, t.evaluation)]
      && t.score == ScoreOf(t.evaluation)
      && ShouldContinue(t) == ShouldContinue(s)
  {
  }
}
