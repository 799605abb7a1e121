/**
 * The structured evaluator: a rubric of three bounded parts whose sum is
 * the total, a fixed fallback when the model's output does not parse, and
 * the text rendering of an evaluation, whose first line the interview
 * graph's score extractor reads back.
 */
module Evaluator {
  import opened Wrappers
  import opened Text
  import G = InterviewGraph

  /** The evaluation record, before or after validation. */
  datatype EvaluationScore = EvaluationScore(
    correctness: int,
    clarity: int,
    completeness: int,
    total: int,
    strengths: seq<string>,
    weaknesses: seq<string>,
    improvement: string)

  const MaxCorrectness := 40
  const MaxClarity := 30
  const MaxCompleteness := 30
  const MaxTotal := 100

  /** The field constraints the record declares (`ge`/`le`), which parsing enforces. */
  predicate WithinBounds(e: EvaluationScore) {
    && 0 <= e.correctness <= MaxCorrectness
    && 0 <= e.clarity <= MaxClarity
    && 0 <= e.completeness <= MaxCompleteness
    && 0 <= e.total <= MaxTotal
  }

  /** The evaluation used when the model's output cannot be parsed. */
  const Fallback := EvaluationScore(
    25, 20, 20, 65,
    ["Attempted to answer the question"],
    ["Evaluation could not be fully parsed"],
    "Please provide more detailed explanations")

  /** The evaluation chain: (question, expert_context, user_answer) to the completion text. */
  type Llm = (string, string, string) -> string
  /** Decoding the completion text into the record's fields, before validation; `None` when it is not a record. */
  type Decode = string -> Option<EvaluationScore>

  /** `parser.parse`: decoding followed by validation of every field bound. */
  function Parse(decode: Decode, text: string): (r: Option<EvaluationScore>)
    ensures r.Some? <==> decode(text).Some? && WithinBounds(decode(text).value)
    ensures r.Some? ==> r.value == decode(text).value
  {
    var d := decode(text);
    if d.Some? && WithinBounds(d.value) then d else None
  }

  /**
   * `evaluate`: on a successful parse the total is overwritten by the sum
   * of the three parts; otherwise the fallback. Either way the result keeps
   * every bound and its total is the sum of its parts.
   */
  function Evaluate(question: string, userAnswer: string, expertContext: string,
                    llm: Llm, decode: Decode): (r: EvaluationScore)
    ensures WithinBounds(r)
    ensures r.total == r.correctness + r.clarity + r.completeness
    ensures var p := Parse(decode, llm(question, expertContext, userAnswer));
      if p.Some? then
        && r.correctness == p.value.correctness && r.clarity == p.value.clarity
        && r.completeness == p.value.completeness
        && r.strengths == p.value.strengths && r.weaknesses == p.value.weaknesses
        && r.improvement == p.value.improvement
      else r == Fallback
  {
    var parsed := Parse(decode, llm(question, expertContext, userAnswer));
    if parsed.Some? then
      var e := parsed.value;
      e.(total := e.correctness + e.clarity + e.completeness)
    else
      Fallback
  }

  /** The fallback is 25 + 20 + 20 = 65, within bounds, with a strength and a weakness to show. */
  lemma FallbackConsistent()
    ensures WithinBounds(Fallback)
    ensures Fallback.total == Fallback.correctness + Fallback.clarity + Fallback.completeness == 65
    ensures |Fallback.strengths| > 0 && |Fallback.weaknesses| > 0
  {
  }

  // ---------------------------------------------------------------------
  // Rendering
  // ---------------------------------------------------------------------

  const Check := "\U{2713} "
  const Cross := "\U{2717} "
  const Arrow := "\U{2192} "

  /** `Score: {total}/100`, the first line of the rendering. */
  function ScoreLine(e: EvaluationScore): string {
    "Score: " + IntToString(e.total) + "/100"
  }

  /** The lines of the rendering's f-string; the strength and weakness blocks are themselves joined by newlines. */
  function FormatLines(e: EvaluationScore): seq<string> {
    [ ScoreLine(e),
      "",
      "Breakdown:",
      "- Correctness: " + IntToString(e.correctness) + "/40",
      "- Clarity: " + IntToString(e.clarity) + "/30",
      "- Completeness: " + IntToString(e.completeness) + "/30",
      "",
      "Strengths:",
      Join("\n", Prefixed(Check, e.strengths)),
      "",
      "Weaknesses:",
      Join("\n", Prefixed(Cross, e.weaknesses)),
      "",
      "Improvement:",
      Arrow + e.improvement,
      "" ]
  }

  /** `format_evaluation`. */
  function FormatEvaluation(e: EvaluationScore): string {
    Join("\n", FormatLines(e))
  }

  /** The rendering is its first line, a newline, then everything else. */
  lemma FormatStartsWithScoreLine(e: EvaluationScore)
    ensures FormatEvaluation(e) == ScoreLine(e) + "\n" + Join("\n", FormatLines(e)[1..])
    ensures '\n' !in ScoreLine(e)
  {
    var n := if e.total < 0 then -e.total else e.total;
    NoCharInNumeral(n, '\n');
  }

  /** A score line `Score:<pad><n>/100`, with no digit, colon or slash in the padding, reads back as `n`. */
  lemma {:induction false} PaddedScoreLine(pad: string, n: nat)
    requires forall i :: 0 <= i < |pad| ==> !IsDigit(pad[i]) && pad[i] != ':' && pad[i] != '/'
    ensures G.LineScore("Score:" + (pad + NatToString(n)) + "/" + "100") == Some(n)
  {
    var seg := pad + NatToString(n);
    NoCharInNumeral(n, ':');
    NoCharInNumeral(n, '/');
    assert ':' !in seg && '/' !in seg;
    G.MarkedLineScore(seg, "100");
    DigitsOfPaddedNumeral(pad, NatToString(n));
    DecimalOfNatToString(n);
  }

  /** The first line of the rendering gives the number of the total back, sign dropped. */
  lemma ScoreLineReadsBack(e: EvaluationScore)
    ensures G.LineScore(ScoreLine(e)) == Some(if e.total < 0 then -e.total else e.total)
  {
    if e.total < 0 {
      assert ScoreLine(e) == "Score:" + (" -" + NatToString(-e.total)) + "/" + "100";
      PaddedScoreLine(" -", -e.total);
    } else {
      assert ScoreLine(e) == "Score:" + (" " + NatToString(e.total)) + "/" + "100";
      PaddedScoreLine(" ", e.total);
    }
  }

  /** Reading the score back from any rendering gives the magnitude of its total. */
  lemma FormatScoreReadsBack(e: EvaluationScore)
    ensures G.ScoreOf(FormatEvaluation(e)) == if e.total < 0 then -e.total else e.total
  {
    FormatStartsWithScoreLine(e);
    ScoreLineReadsBack(e);
    G.FirstLineDecides(ScoreLine(e), Join("\n", FormatLines(e)[1..]));
  }

  /** Round trip: the score extracted from the rendering of any evaluation `evaluate` returns is its total. */
  lemma EvaluationRoundTrip(question: string, userAnswer: string, expertContext: string,
                            llm: Llm, decode: Decode)
    ensures var e := Evaluate(question, userAnswer, expertContext, llm, decode);
      G.ScoreOf(FormatEvaluation(e)) == e.total
  {
    FormatScoreReadsBack(Evaluate(question, userAnswer, expertContext, llm, decode));
  }

  /** `Join` over a concatenation, when both sides are non-empty. */
  lemma {:induction false} JoinAppend(sep: string, xs: seq<string>, ys: seq<string>)
    requires |xs| >= 1 && |ys| >= 1
    ensures Join(sep, xs + ys) == Join(sep, xs) + sep + Join(sep, ys)
    decreases |xs|
  {
    if |xs| == 1 {
      assert (xs + ys)[1..] == ys;
    } else {
      assert (xs + ys)[1..] == xs[1..] + ys;
      JoinAppend(sep, xs[1..], ys);
    }
  }

  /** Splitting a join of blocks, each of which splits into its own lines, gives all those lines in order. */
  lemma {:induction false} SplitJoinBlocks(blocks: seq<string>, lines: seq<seq<string>>)
    requires |blocks| == |lines| >= 1
    requires forall i :: 0 <= i < |blocks| ==> Split(blocks[i], '\n') == lines[i]
    ensures Split(Join("\n", blocks), '\n') == Flatten(lines)
    decreases |blocks|
  {
    if |blocks| > 1 {
      assert Join("\n", blocks) == blocks[0] + ['\n'] + Join("\n", blocks[1..]);
      SplitConcat(blocks[0], Join("\n", blocks[1..]), '\n');
      SplitJoinBlocks(blocks[1..], lines[1..]);
    } else {
      assert Flatten(lines) == lines[0] + Flatten([]);
    }
  }

  function Flatten(xss: seq<seq<string>>): seq<string> {
    if xss == [] then [] else xss[0] + Flatten(xss[1..])
  }

  /**
   * Line by line, the rendering is: the score line, the three parts over
   * their maxima, each strength on its own line after `✓ `, each weakness
   * after `✗ `, and the improvement after `→ `, provided no item holds a
   * newline and both lists are non-empty.
   */
  lemma FormatLineStructure(e: EvaluationScore)
    requires |e.strengths| >= 1 && |e.weaknesses| >= 1
    requires NoChar(e.strengths, '\n') && NoChar(e.weaknesses, '\n') && '\n' !in e.improvement
    ensures Split(FormatEvaluation(e), '\n')
      == FormatLines(e)[..8] + Prefixed(Check, e.strengths)
         + FormatLines(e)[9..11] + Prefixed(Cross, e.weaknesses)
         + FormatLines(e)[12..]
  {
    var ls := FormatLines(e);
    var pieces: seq<seq<string>> := seq(|ls|, i requires 0 <= i < |ls| =>
      if i == 8 then Prefixed(Check, e.strengths)
      else if i == 11 then Prefixed(Cross, e.weaknesses)
      else [ls[i]]);
    forall i | 0 <= i < |ls| ensures Split(ls[i], '\n') == pieces[i] {
      if i == 8 {
        PrefixedLines(Check, e.strengths);
      } else if i == 11 {
        PrefixedLines(Cross, e.weaknesses);
      } else {
        FormatLineHasNoNewline(e, i);
        SplitNone(ls[i], '\n');
      }
    }
    SplitJoinBlocks(ls, pieces);
    FlattenSingles(ls, pieces);
  }

  lemma IntToStringNoNewline(i: int)
    ensures '\n' !in IntToString(i)
  {
    NoCharInNumeral(if i < 0 then -i else i, '\n');
  }

  lemma FormatLineHasNoNewline(e: EvaluationScore, i: nat)
    requires i < 16 && i != 8 && i != 11 && '\n' !in e.improvement
    ensures '\n' !in FormatLines(e)[i]
  {
    var ls := FormatLines(e);
    if i == 0 {
      IntToStringNoNewline(e.total);
      assert ls[0] == "Score: " + IntToString(e.total) + "/100";
    } else if i == 3 {
      IntToStringNoNewline(e.correctness);
      assert ls[3] == "- Correctness: " + IntToString(e.correctness) + "/40";
    } else if i == 4 {
      IntToStringNoNewline(e.clarity);
      assert ls[4] == "- Clarity: " + IntToString(e.clarity) + "/30";
    } else if i == 5 {
      IntToStringNoNewline(e.completeness);
      assert ls[5] == "- Completeness: " + IntToString(e.completeness) + "/30";
    } else if i == 14 {
      assert ls[14] == Arrow + e.improvement;
    }
  }

  lemma {:induction false} FlattenAppend(a: seq<seq<string>>, b: seq<seq<string>>)
    ensures Flatten(a + b) == Flatten(a) + Flatten(b)
    decreases |a|
  {
    if a == [] {
      assert a + b == b;
    } else {
      assert (a + b)[0] == a[0];
      assert (a + b)[1..] == a[1..] + b;
      FlattenAppend(a[1..], b);
    }
  }

  /** Flattening one-line pieces gives back the lines. */
  lemma {:induction false} FlattenSingletons(ls: seq<string>, pieces: seq<seq<string>>)
    requires |ls| == |pieces|
    requires forall i :: 0 <= i < |ls| ==> pieces[i] == [ls[i]]
    ensures Flatten(pieces) == ls
    decreases |ls|
  {
    if ls != [] {
      FlattenSingletons(ls[1..], pieces[1..]);
    }
  }

  lemma FlattenSingles(ls: seq<string>, pieces: seq<seq<string>>)
    requires |ls| == |pieces| == 16
    requires forall i :: 0 <= i < 16 && i != 8 && i != 11 ==> pieces[i] == [ls[i]]
    ensures Flatten(pieces) == ls[..8] + pieces[8] + ls[9..11] + pieces[11] + ls[12..]
  {
    assert pieces == pieces[..8] + [pieces[8]] + pieces[9..11] + [pieces[11]] + pieces[12..];
    FlattenAppend(pieces[..8] + [pieces[8]] + pieces[9..11] + [pieces[11]], pieces[12..]);
    FlattenAppend(pieces[..8] + [pieces[8]] + pieces[9..11], [pieces[11]]);
    FlattenAppend(pieces[..8] + [pieces[8]], pieces[9..11]);
    FlattenAppend(pieces[..8], [pieces[8]]);
    FlattenSingletons(ls[..8], pieces[..8]);
    FlattenSingletons(ls[9..11], pieces[9..11]);
    FlattenSingletons(ls[12..], pieces[12..]);
    assert Flatten([pieces[8]]) == pieces[8] + Flatten([]);
    assert Flatten([pieces[11]]) == pieces[11] + Flatten([]);
  }
}
