/**
 * The older single-agent path: a question drawn from the knowledge base
 * and a free-text evaluation of an answer against two exemplars.
 */
module InterviewAgent {
  import opened Wrappers
  import opened Text
  import KB = KnowledgeBase
  import G = InterviewGraph
  import InterviewState

  const FallbackQuestion := "Describe your problem-solving approach."
  const FallbackId := "fallback"

  datatype Question = Question(question: string, id: string, category: string)

  /** The completion model: (question, expert_context, user_answer) to text. */
  type Llm = (string, string, string) -> string

  /** `get_question`: the first hit of a one-result search, or the fallback; the category is echoed back. */
  function GetQuestion(store: KB.Store, category: string := "coding"): (q: Question)
    ensures q.category == category
    ensures var results := KB.Search(store, category + " interview question", Some(category), 1);
      if |results| > 0 then q.question == results[0].metadata.question && q.id == results[0].metadata.id
      else q.question == FallbackQuestion && q.id == FallbackId
  {
    var results := KB.Search(store, category + " interview question", Some(category), 1);
    if |results| > 0 then Question(results[0].metadata.question, results[0].metadata.id, category)
    else Question(FallbackQuestion, FallbackId, category)
  }

  /**
   * `evaluate_answer`: the model's text for the question, two exemplars
   * and the answer, stripped. It neither starts nor ends with white space,
   * stripping it again changes nothing, and it is the graph's evaluation
   * node's completion for any state holding the same question, answer and
   * category, stripped: the two paths consult the knowledge base alike.
   */
  function EvaluateAnswer(store: KB.Store, llm: Llm, question: string, userAnswer: string, category: string): (r: string)
    ensures r != [] ==> !PyIsSpace(r[0]) && !PyIsSpace(r[|r| - 1])
    ensures PyStrip(r) == r
    ensures forall s: InterviewState.State
      | s.currentQuestion == question && s.userAnswer == userAnswer && s.category == category
      :: r == PyStrip(G.EvaluationText(s, store, llm))
  {
    var expert := KB.Search(store, question, Some(category), 2);
    var expertContext := G.ExpertContext(expert);
    var completion := llm(question, expertContext, userAnswer);
    StripIdempotent(completion, PyIsSpace);
    PyStrip(completion)
  }
}
