/**
 * The persistence service's aggregations over in-memory tables: completing
 * a session (its average, count and serialized transcript), grouping the
 * weak responses by category, and a user's progress over time. The rows
 * a query would select are given as sequences.
 */
module DbService {
  import opened Wrappers

  /** A `datetime`, kept opaque: only equality is ever used. */
  type Timestamp = int

  /** A row of `question_responses`. */
  datatype ResponseRecord = ResponseRecord(
    sessionDbId: int,
    questionId: string,
    questionText: string,
    questionNumber: int,
    userAnswer: string,
    evaluation: string,
    score: int,
    category: string)

  /** One element of the transcript handed to `complete_session`. */
  datatype TranscriptItem =
    | MessageObject(role: string, content: string)   // an object with `role` and `content` attributes
    | DictItem(entries: map<string, string>)         // already a dictionary
    | OtherItem(text: string)                        // anything else, by its `str()`

  /** A row of `interview_sessions`. */
  datatype SessionRecord = SessionRecord(
    id: int,
    sessionId: string,
    userId: Option<int>,
    category: string,
    difficulty: string,
    startedAt: Timestamp,
    completedAt: Option<Timestamp>,
    totalQuestions: int,
    averageScore: Option<real>,
    transcript: Option<seq<map<string, string>>>,
    isCompleted: bool)

  // ---------------------------------------------------------------------
  // Sums and means
  // ---------------------------------------------------------------------

  function SumScores(rs: seq<ResponseRecord>): int {
    if rs == [] then 0 else SumScores(rs[..|rs| - 1]) + rs[|rs| - 1].score
  }

  /** `sum(r.score for r in rs) / len(rs)`, unrounded. */
  function MeanScore(rs: seq<ResponseRecord>): real
    requires |rs| > 0
  {
    SumScores(rs) as real / |rs| as real
  }

  predicate ScoresWithin(rs: seq<ResponseRecord>, lo: int, hi: int) {
    forall i :: 0 <= i < |rs| ==> lo <= rs[i].score <= hi
  }

  lemma {:induction false} SumWithin(rs: seq<ResponseRecord>, lo: int, hi: int)
    requires ScoresWithin(rs, lo, hi)
    ensures |rs| * lo <= SumScores(rs) <= |rs| * hi
    decreases |rs|
  {
    if rs != [] {
      var init := rs[..|rs| - 1];
      assert ScoresWithin(init, lo, hi) by {
        forall i | 0 <= i < |init| ensures lo <= init[i].score <= hi {
          assert init[i] == rs[i];
        }
      }
      SumWithin(init, lo, hi);
    }
  }

  lemma CastMul(a: int, b: int)
    ensures (a * b) as real == a as real * b as real
  {
  }

  lemma DivBetween(x: real, n: real, lo: real, hi: real)
    requires n > 0.0 && lo * n <= x <= hi * n
    ensures lo <= x / n <= hi
  {
    var m := x / n;
    assert m * n == x;
    assert (m - lo) * n >= 0.0;
    assert (hi - m) * n >= 0.0;
  }

  /** The mean of scores between two bounds lies between them. */
  lemma MeanWithin(rs: seq<ResponseRecord>, lo: int, hi: int)
    requires |rs| > 0 && ScoresWithin(rs, lo, hi)
    ensures lo as real <= MeanScore(rs) <= hi as real
  {
    SumWithin(rs, lo, hi);
    CastMul(|rs|, lo);
    CastMul(|rs|, hi);
    DivBetween(SumScores(rs) as real, |rs| as real, lo as real, hi as real);
  }

  /** One response of 85 averages to 85. */
  lemma MeanOfOne(r: ResponseRecord)
    requires r.score == 85
    ensures MeanScore([r]) == 85.0
  {
    assert [r][..0] == [];
    assert SumScores([r]) == SumScores([]) + r.score == 85;
  }

  // ---------------------------------------------------------------------
  // Transcript serialization
  // ---------------------------------------------------------------------

  /** What one transcript element becomes. */
  function Serialized(m: TranscriptItem): map<string, string> {
    match m
    case MessageObject(role, content) => map["role" := role, "content" := content]
    case DictItem(entries) => entries
    case OtherItem(text) => map["role" := "unknown", "content" := text]
  }

  /** `serialize_transcript`: one dictionary per element, in order. */
  method SerializeTranscript(messages: seq<TranscriptItem>) returns (serialized: seq<map<string, string>>)
    ensures |serialized| == |messages|
    ensures forall i :: 0 <= i < |messages| ==> serialized[i] == Serialized(messages[i])
  {
    serialized := [];
    for k := 0 to |messages|
      invariant |serialized| == k
      invariant forall i :: 0 <= i < k ==> serialized[i] == Serialized(messages[i])
    {
      var m := messages[k];
      if m.MessageObject? {
        serialized := serialized + [map["role" := m.role, "content" := m.content]];
      } else if m.DictItem? {
        serialized := serialized + [m.entries];
      } else {
        serialized := serialized + [map["role" := "unknown", "content" := m.text]];
      }
    }
  }

  /** Every serialized element has both keys unless it was a dictionary already, which passes through unchanged. */
  lemma SerializedShape(m: TranscriptItem)
    ensures m.DictItem? ==> Serialized(m) == m.entries
    ensures !m.DictItem? ==> "role" in Serialized(m) && "content" in Serialized(m)
    ensures m.MessageObject? ==> Serialized(m)["role"] == m.role && Serialized(m)["content"] == m.content
    ensures m.OtherItem? ==> Serialized(m)["role"] == "unknown" && Serialized(m)["content"] == m.text
  {
  }

  /** Serializing is idempotent: a serialized transcript, handed back as dictionaries, comes out unchanged. */
  lemma SerializeIdempotent(m: TranscriptItem)
    ensures Serialized(DictItem(Serialized(m))) == Serialized(m)
  {
  }

  // ---------------------------------------------------------------------
  // Completing a session
  // ---------------------------------------------------------------------

  /** The responses stored for the session with database id `dbId`, in table order. */
  function ResponsesOf(responses: seq<ResponseRecord>, dbId: int): (rs: seq<ResponseRecord>)
    ensures forall i :: 0 <= i < |rs| ==> rs[i].sessionDbId == dbId
    ensures |rs| <= |responses|
  {
    if responses == [] then []
    else ResponsesOf(responses[..|responses| - 1], dbId)
         + (if responses[|responses| - 1].sessionDbId == dbId then [responses[|responses| - 1]] else [])
  }

  /** The responses of the session are kept, and nothing else. */
  lemma {:induction false} ResponsesOfMembers(responses: seq<ResponseRecord>, dbId: int)
    ensures forall x :: x in ResponsesOf(responses, dbId) <==> x in responses && x.sessionDbId == dbId
    decreases |responses|
  {
    if responses != [] {
      ResponsesOfMembers(responses[..|responses| - 1], dbId);
      assert responses == responses[..|responses| - 1] + [responses[|responses| - 1]];
    }
  }

  /** Filtering a concatenation filters each part in turn, so what is kept stays in its original order. */
  lemma {:induction false} ResponsesOfConcat(a: seq<ResponseRecord>, b: seq<ResponseRecord>, dbId: int)
    ensures ResponsesOf(a + b, dbId) == ResponsesOf(a, dbId) + ResponsesOf(b, dbId)
    decreases |b|
  {
    if b == [] {
      assert a + b == a;
    } else {
      var init := b[..|b| - 1];
      assert (a + b)[..|a + b| - 1] == a + init;
      assert (a + b)[|a + b| - 1] == b[|b| - 1];
      ResponsesOfConcat(a, init, dbId);
    }
  }

  /** The row for `sessionId`: the first that carries it. */
  function FindSession(sessions: seq<SessionRecord>, sessionId: string): (r: Option<nat>)
    ensures r.Some? ==> r.value < |sessions| && sessions[r.value].sessionId == sessionId
    ensures r.Some? ==> forall j :: 0 <= j < r.value ==> sessions[j].sessionId != sessionId
    ensures r.None? <==> forall j :: 0 <= j < |sessions| ==> sessions[j].sessionId != sessionId
  {
    if sessions == [] then None
    else if sessions[0].sessionId == sessionId then Some(0)
    else
      var r := FindSession(sessions[1..], sessionId);
      if r.Some? then Some(r.value + 1) else None
  }

  /**
   * The row as `complete_session` leaves it: with responses, the mean
   * score and their number; without, both as they were; always the
   * serialized transcript, the completion time and the completed flag.
   */
  function Completed(s: SessionRecord, rs: seq<ResponseRecord>, transcript: seq<TranscriptItem>, now: Timestamp): (c: SessionRecord)
    ensures c.isCompleted && c.completedAt == Some(now)
    ensures c.transcript.Some? && |c.transcript.value| == |transcript|
    ensures forall i :: 0 <= i < |transcript| ==> c.transcript.value[i] == Serialized(transcript[i])
    ensures |rs| > 0 ==> c.averageScore == Some(MeanScore(rs)) && c.totalQuestions == |rs|
    ensures |rs| == 0 ==> c.averageScore == s.averageScore && c.totalQuestions == s.totalQuestions
    ensures c.id == s.id && c.sessionId == s.sessionId && c.userId == s.userId
    ensures c.category == s.category && c.difficulty == s.difficulty && c.startedAt == s.startedAt
  {
    var s' := if |rs| > 0 then s.(averageScore := Some(MeanScore(rs)), totalQuestions := |rs|) else s;
    s'.(transcript := Some(seq(|transcript|, i requires 0 <= i < |transcript| => Serialized(transcript[i]))),
        completedAt := Some(now), isCompleted := true)
  }

  /** A session whose responses all scored 0..100 gets an average in 0..100. */
  lemma CompletedAverageWithin(s: SessionRecord, rs: seq<ResponseRecord>, transcript: seq<TranscriptItem>, now: Timestamp)
    requires |rs| > 0 && ScoresWithin(rs, 0, 100)
    ensures var c := Completed(s, rs, transcript, now);
      c.averageScore.Some? && 0.0 <= c.averageScore.value <= 100.0
  {
    MeanWithin(rs, 0, 100);
  }

  class DatabaseService {
    /** The `interview_sessions` table. */
    var sessions: seq<SessionRecord>
    /** The `question_responses` table. */
    var responses: seq<ResponseRecord>

    constructor (sessions: seq<SessionRecord>, responses: seq<ResponseRecord>)
      ensures this.sessions == sessions && this.responses == responses
    {
      this.sessions := sessions;
      this.responses := responses;
    }

    /** `complete_session`: a `ValueError` and no change for an unknown id; otherwise the row completed in place. */
    method CompleteSession(sessionId: string, transcript: seq<TranscriptItem>, now: Timestamp)
      returns (r: Result<SessionRecord>)
      modifies this
      ensures responses == old(responses)
      ensures FindSession(old(sessions), sessionId).None? ==>
        && r == Err(ValueError("Session " + sessionId + " not found"))
        && sessions == old(sessions)
      ensures FindSession(old(sessions), sessionId).Some? ==>
        var i := FindSession(old(sessions), sessionId).value;
        var c := Completed(old(sessions)[i], ResponsesOf(old(responses), old(sessions)[i].id), transcript, now);
        r == Ok(c) && sessions == old(sessions)[i := c]
    {
      var found := FindSession(sessions, sessionId);
      if found.None? {
        return Err(ValueError("Session " + sessionId + " not found"));
      }
      var i := found.value;
      var session := sessions[i];
      var rs := ResponsesOf(responses, session.id);
      if |rs| > 0 {
        var avgScore := SumScores(rs) as real / |rs| as real;
        session := session.(averageScore := Some(avgScore));
        session := session.(totalQuestions := |rs|);
      }
      var serialized := SerializeTranscript(transcript);
      session := session.(transcript := Some(serialized));
      session := session.(completedAt := Some(now));
      session := session.(isCompleted := true);
      assert serialized == seq(|transcript|, j requires 0 <= j < |transcript| => Serialized(transcript[j]));
      assert session == Completed(sessions[i], rs, transcript, now);
      sessions := sessions[i := session];
      r := Ok(session);
    }
  }

  // ---------------------------------------------------------------------
  // Weak areas
  // ---------------------------------------------------------------------

  /** One category's entry; `totalScore` is the temporary key, `None` once deleted. */
  datatype WeakEntry = WeakEntry(count: int, totalScore: Option<int>, avgScore: real, questions: seq<string>)

  /** `query.filter(score < threshold)`, in table order. */
  function WeakResponses(rs: seq<ResponseRecord>, threshold: int): (w: seq<ResponseRecord>)
    ensures forall i :: 0 <= i < |w| ==> w[i].score < threshold
    ensures |w| <= |rs|
  {
    if rs == [] then []
    else WeakResponses(rs[..|rs| - 1], threshold)
         + (if rs[|rs| - 1].score < threshold then [rs[|rs| - 1]] else [])
  }

  /** The responses below the threshold are kept, and nothing else. */
  lemma {:induction false} WeakResponsesMembers(rs: seq<ResponseRecord>, threshold: int)
    ensures forall x :: x in WeakResponses(rs, threshold) <==> x in rs && x.score < threshold
    decreases |rs|
  {
    if rs != [] {
      WeakResponsesMembers(rs[..|rs| - 1], threshold);
      assert rs == rs[..|rs| - 1] + [rs[|rs| - 1]];
    }
  }

  /** Filtering a concatenation filters each part in turn, so what is kept stays in its original order. */
  lemma {:induction false} WeakResponsesConcat(a: seq<ResponseRecord>, b: seq<ResponseRecord>, threshold: int)
    ensures WeakResponses(a + b, threshold) == WeakResponses(a, threshold) + WeakResponses(b, threshold)
    decreases |b|
  {
    if b == [] {
      assert a + b == a;
    } else {
      var init := b[..|b| - 1];
      assert (a + b)[..|a + b| - 1] == a + init;
      assert (a + b)[|a + b| - 1] == b[|b| - 1];
      WeakResponsesConcat(a, init, threshold);
    }
  }

  /** The categories that occur among some responses. */
  function Categories(rs: seq<ResponseRecord>): set<string> {
    set i | 0 <= i < |rs| :: rs[i].category
  }

  /** The question ids of a category's responses, in order. */
  function QuestionsIn(rs: seq<ResponseRecord>, category: string): seq<string> {
    if rs == [] then []
    else QuestionsIn(rs[..|rs| - 1], category)
         + (if rs[|rs| - 1].category == category then [rs[|rs| - 1].questionId] else [])
  }

  /** The summed score of a category's responses. */
  function TotalIn(rs: seq<ResponseRecord>, category: string): int {
    if rs == [] then 0
    else TotalIn(rs[..|rs| - 1], category) + (if rs[|rs| - 1].category == category then rs[|rs| - 1].score else 0)
  }

  /** A category that occurs has at least one question. */
  lemma {:induction false} OccursHasQuestion(rs: seq<ResponseRecord>, category: string)
    requires category in Categories(rs)
    ensures |QuestionsIn(rs, category)| >= 1
    decreases |rs|
  {
    var init := rs[..|rs| - 1];
    if rs[|rs| - 1].category != category {
      var i :| 0 <= i < |rs| && rs[i].category == category;
      assert init[i] == rs[i];
      assert category in Categories(init);
      OccursHasQuestion(init, category);
    }
  }

  /** A category that does not occur has no questions and no score. */
  lemma {:induction false} AbsentCategory(rs: seq<ResponseRecord>, category: string)
    requires category !in Categories(rs)
    ensures QuestionsIn(rs, category) == [] && TotalIn(rs, category) == 0
    decreases |rs|
  {
    if rs != [] {
      var init := rs[..|rs| - 1];
      assert rs[|rs| - 1].category != category;
      forall c | c in Categories(init) ensures c in Categories(rs) {
        var i :| 0 <= i < |init| && init[i].category == c;
        assert rs[i] == init[i];
      }
      AbsentCategory(init, category);
    }
  }

  lemma CategoriesSnoc(rs: seq<ResponseRecord>, r: ResponseRecord)
    ensures Categories(rs + [r]) == Categories(rs) + {r.category}
  {
    var s := rs + [r];
    forall c | c in Categories(s) ensures c in Categories(rs) + {r.category} {
      var i :| 0 <= i < |s| && s[i].category == c;
      if i < |rs| {
        assert rs[i] == s[i];
      }
    }
    forall c | c in Categories(rs) ensures c in Categories(s) {
      var i :| 0 <= i < |rs| && rs[i].category == c;
      assert s[i] == rs[i];
    }
    assert s[|rs|] == r;
  }

  /** How one more response changes a category's running entry. */
  lemma AccumulatedSnoc(rs: seq<ResponseRecord>, r: ResponseRecord, category: string)
    ensures var a := Accumulated(rs, category);
      Accumulated(rs + [r], category)
      == if r.category == category
         then a.(count := a.count + 1, totalScore := Some(a.totalScore.GetOr(0) + r.score),
                 questions := a.questions + [r.questionId])
         else a
  {
    assert (rs + [r])[..|rs|] == rs;
  }

  /** The entry the first loop has built for a category after the responses `rs`. */
  function Accumulated(rs: seq<ResponseRecord>, category: string): WeakEntry {
    WeakEntry(|QuestionsIn(rs, category)|, Some(TotalIn(rs, category)), 0.0, QuestionsIn(rs, category))
  }

  /**
   * `identify_weak_areas`, given the responses the query selects: one entry
   * per category of a response scoring below the threshold, counting those
   * responses, listing their question ids in order, and holding their mean
   * score, with the temporary total removed from every entry.
   */
  method IdentifyWeakAreas(responses: seq<ResponseRecord>, threshold: int := 60) returns (weak: map<string, WeakEntry>)
    ensures weak.Keys == Categories(WeakResponses(responses, threshold))
    ensures forall c :: c in weak ==>
      var w := WeakResponses(responses, threshold);
      && weak[c].count == |QuestionsIn(w, c)| >= 1
      && weak[c].questions == QuestionsIn(w, c)
      && weak[c].totalScore.None?
      && weak[c].avgScore == TotalIn(w, c) as real / weak[c].count as real
  {
    var weakResponses := WeakResponses(responses, threshold);
    var running := AccumulateWeakAreas(weakResponses);
    weak := AverageWeakAreas(weakResponses, running);
    forall c | c in weak
      ensures && weak[c].count == |QuestionsIn(weakResponses, c)| >= 1
              && weak[c].questions == QuestionsIn(weakResponses, c)
              && weak[c].totalScore.None?
              && weak[c].avgScore == TotalIn(weakResponses, c) as real / weak[c].count as real
    {
      OccursHasQuestion(weakResponses, c);
    }
  }

  /** The first loop of `identify_weak_areas`: a running entry per category met. */
  method AccumulateWeakAreas(weakResponses: seq<ResponseRecord>) returns (weak: map<string, WeakEntry>)
    ensures weak.Keys == Categories(weakResponses)
    ensures forall c :: c in weak ==> weak[c] == Accumulated(weakResponses, c)
  {
    weak := map[];
    for k := 0 to |weakResponses|
      invariant weak.Keys == Categories(weakResponses[..k])
      invariant forall c :: c in weak ==> weak[c] == Accumulated(weakResponses[..k], c)
    {
      var response := weakResponses[k];
      var category := response.category;
      ghost var done := weakResponses[..k];
      assert weakResponses[..k + 1] == done + [response];
      CategoriesSnoc(done, response);
      if category !in weak {
        AbsentCategory(done, category);
        weak := weak[category := WeakEntry(0, Some(0), 0.0, [])];
      }
      var e := weak[category];
      e := e.(count := e.count + 1);
      e := e.(totalScore := Some(e.totalScore.GetOr(0) + response.score));
      e := e.(questions := e.questions + [response.questionId]);
      forall c | c in weak[category := e]
        ensures weak[category := e][c] == Accumulated(done + [response], c)
      {
        AccumulatedSnoc(done, response, c);
      }
      weak := weak[category := e];
    }
    assert weakResponses[..|weakResponses|] == weakResponses;
  }

  /** The second loop of `identify_weak_areas`: set each average and delete the running total. */
  method AverageWeakAreas(weakResponses: seq<ResponseRecord>, running: map<string, WeakEntry>)
    returns (weak: map<string, WeakEntry>)
    requires running.Keys == Categories(weakResponses)
    requires forall c :: c in running ==> running[c] == Accumulated(weakResponses, c)
    ensures weak.Keys == Categories(weakResponses)
    ensures forall c :: c in weak ==> weak[c] == Finished(weakResponses, c)
  {
    weak := running;
    var pending := weak.Keys;
    while pending != {}
      invariant pending <= weak.Keys == Categories(weakResponses)
      invariant forall c :: c in pending ==> weak[c] == Accumulated(weakResponses, c)
      invariant forall c :: c in weak && c !in pending ==> weak[c] == Finished(weakResponses, c)
      decreases pending
    {
      var category :| category in pending;
      OccursHasQuestion(weakResponses, category);
      var count := weak[category].count;
      var total := weak[category].totalScore.GetOr(0);
      weak := weak[category := weak[category].(avgScore := total as real / count as real)];
      weak := weak[category := weak[category].(totalScore := None)];
      pending := pending - {category};
    }
  }

  /** A category's entry after the second pass. */
  function Finished(rs: seq<ResponseRecord>, category: string): WeakEntry {
    var n := |QuestionsIn(rs, category)|;
    WeakEntry(n, None, if n == 0 then 0.0 else TotalIn(rs, category) as real / n as real, QuestionsIn(rs, category))
  }

  // ---------------------------------------------------------------------
  // Progress
  // ---------------------------------------------------------------------

  datatype ProgressPoint = ProgressPoint(date: Timestamp, category: string, score: Option<real>, questions: int)

  datatype Progress = Progress(totalSessions: int, progress: seq<ProgressPoint>, improvement: real)

  const ProgressWindow := 5

  function PointOf(s: SessionRecord): ProgressPoint {
    ProgressPoint(s.startedAt, s.category, s.averageScore, s.totalQuestions)
  }

  /** The progress points of sessions given newest first, oldest first. */
  function Points(sessions: seq<SessionRecord>): (ps: seq<ProgressPoint>)
    ensures |ps| == |sessions|
  {
    seq(|sessions|, i requires 0 <= i < |sessions| => PointOf(sessions[|sessions| - 1 - i]))
  }

  /** `sum(p["score"] for p in ps)`; `None` when some score is missing, which raises a `TypeError`. */
  function SumPoints(ps: seq<ProgressPoint>): Option<real> {
    if ps == [] then Some(0.0)
    else
      var rest := SumPoints(ps[..|ps| - 1]);
      if rest.Some? && ps[|ps| - 1].score.Some? then Some(rest.value + ps[|ps| - 1].score.value) else None
  }

  function Min(a: int, b: int): int { if a < b then a else b }

  /**
   * The improvement over an oldest-first progress list of at least two
   * points: the mean of the last five minus the mean of the first five,
   * both divided by the window's size.
   */
  function Improvement(ps: seq<ProgressPoint>): Result<real>
    requires |ps| > 1
  {
    var n := Min(ProgressWindow, |ps|);
    var recent := SumPoints(ps[|ps| - n..]);
    var older := SumPoints(ps[..n]);
    if recent.None? || older.None? then Err(TypeError("unsupported operand type(s) for +"))
    else Ok(recent.value / n as real - older.value / n as real)
  }

  /** With five sessions or fewer, both windows are the whole history, so there is no improvement. */
  lemma ImprovementShortHistory(ps: seq<ProgressPoint>)
    requires 1 < |ps| <= ProgressWindow
    ensures Improvement(ps).Ok? ==> Improvement(ps).value == 0.0
  {
    assert ps[|ps| - |ps|..] == ps[..|ps|];
  }

  /** With a score on every point, the improvement is defined. */
  lemma {:induction false} SumPointsDefined(ps: seq<ProgressPoint>)
    requires forall i :: 0 <= i < |ps| ==> ps[i].score.Some?
    ensures SumPoints(ps).Some?
    decreases |ps|
  {
    if ps != [] {
      SumPointsDefined(ps[..|ps| - 1]);
    }
  }

  /**
   * `get_user_progress`, given the user's completed sessions newest first
   * as the query returns them: nothing for no sessions; otherwise every
   * session as a point, oldest first, and the improvement, 0 for one.
   */
  method GetUserProgress(sessions: seq<SessionRecord>) returns (r: Result<Progress>)
    ensures |sessions| == 0 ==> r == Ok(Progress(0, [], 0.0))
    ensures |sessions| > 0 && r.Ok? ==>
      && r.value.totalSessions == |sessions|
      && |r.value.progress| == |sessions|
      && (forall i :: 0 <= i < |sessions| ==> r.value.progress[i] == PointOf(sessions[|sessions| - 1 - i]))
    ensures |sessions| == 1 ==> r.Ok? && r.value.improvement == 0.0
    ensures |sessions| > 1 ==>
      match Improvement(Points(sessions))
      case Ok(v) => r.Ok? && r.value.improvement == v
      case Err(e) => r == Err(e)
  {
    if |sessions| == 0 {
      return Ok(Progress(0, [], 0.0));
    }
    var progress := [];
    var k := |sessions|;
    while k > 0
      invariant 0 <= k <= |sessions|
      invariant |progress| == |sessions| - k
      invariant forall i :: 0 <= i < |progress| ==> progress[i] == PointOf(sessions[|sessions| - 1 - i])
    {
      k := k - 1;
      progress := progress + [PointOf(sessions[k])];
    }
    var improvement := 0.0;
    if |progress| > 1 {
      assert progress == Points(sessions);
      var n := Min(ProgressWindow, |progress|);
      var recent := SumPoints(progress[|progress| - n..]);
      var older := SumPoints(progress[..n]);
      if recent.None? || older.None? {
        return Err(TypeError("unsupported operand type(s) for +"));
      }
      improvement := recent.value / n as real - older.value / n as real;
    }
    r := Ok(Progress(|sessions|, progress, improvement));
  }
}
