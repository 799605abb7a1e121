/**
 * The analytics endpoints: platform totals, weak areas, a user's
 * progress, per-category session statistics and the leaderboard. The
 * rows each query returns are given as sequences in the order the query
 * returns them.
 */
module Analytics {
  import opened Wrappers
  import Db = DbService

  /** FastAPI's answer to a query parameter outside its declared range. */
  const Unprocessable := Http(422, "Unprocessable Entity")

  /** `completed / total * 100 if total > 0 else 0`, unrounded. */
  function CompletionRate(completed: int, total: int): (rate: real)
    ensures total <= 0 ==> rate == 0.0
    ensures total > 0 ==> rate * total as real == completed as real * 100.0
  {
    if total > 0 then completed as real / total as real * 100.0 else 0.0
  }

  /** A rate of a part of a whole lies between 0 and 100. */
  lemma CompletionRateWithin(completed: int, total: int)
    requires 0 <= completed <= total
    ensures 0.0 <= CompletionRate(completed, total) <= 100.0
  {
    if total > 0 {
      Db.DivBetween(completed as real, total as real, 0.0, 1.0);
    }
  }

  /** `filter(is_completed == True)`: every completed session and only those, in table order. */
  function CompletedOf(sessions: seq<Db.SessionRecord>): (c: seq<Db.SessionRecord>)
    ensures |c| <= |sessions|
    ensures forall i :: 0 <= i < |c| ==> c[i].isCompleted
  {
    if sessions == [] then []
    else CompletedOf(sessions[..|sessions| - 1])
         + (if sessions[|sessions| - 1].isCompleted then [sessions[|sessions| - 1]] else [])
  }

  /** The completed sessions are kept, and nothing else. */
  lemma {:induction false} CompletedOfMembers(sessions: seq<Db.SessionRecord>)
    ensures forall x :: x in CompletedOf(sessions) <==> x in sessions && x.isCompleted
    decreases |sessions|
  {
    if sessions != [] {
      CompletedOfMembers(sessions[..|sessions| - 1]);
      assert sessions == sessions[..|sessions| - 1] + [sessions[|sessions| - 1]];
    }
  }

  /** Filtering a concatenation filters each part in turn, so what is kept stays in its original order. */
  lemma {:induction false} CompletedOfConcat(a: seq<Db.SessionRecord>, b: seq<Db.SessionRecord>)
    ensures CompletedOf(a + b) == CompletedOf(a) + CompletedOf(b)
    decreases |b|
  {
    if b == [] {
      assert a + b == a;
    } else {
      var init := b[..|b| - 1];
      assert (a + b)[..|a + b| - 1] == a + init;
      assert (a + b)[|a + b| - 1] == b[|b| - 1];
      CompletedOfConcat(a, init);
    }
  }

  datatype PlatformStats = PlatformStats(
    totalSessions: int,
    completedSessions: int,
    completionRate: real,
    averageScore: real,
    byCategory: map<string, int>)

  /**
   * `GET /stats` over the whole session table; the database's own average
   * and per-category counts are given.
   */
  function GetPlatformStats(table: seq<Db.SessionRecord>, averageScore: real, byCategory: map<string, int>): (r: PlatformStats)
    ensures r.totalSessions == |table| && r.completedSessions == |CompletedOf(table)|
    ensures r.completedSessions <= r.totalSessions
    ensures r.completionRate == CompletionRate(r.completedSessions, r.totalSessions)
    ensures 0.0 <= r.completionRate <= 100.0
    ensures r.averageScore == averageScore && r.byCategory == byCategory
  {
    var total := |table|;
    var completed := |CompletedOf(table)|;
    CompletionRateWithin(completed, total);
    PlatformStats(total, completed, CompletionRate(completed, total), averageScore, byCategory)
  }

  // ---------------------------------------------------------------------
  // Weak areas and progress
  // ---------------------------------------------------------------------

  datatype WeakAreasBody = WeakAreasBody(threshold: int, weakAreas: map<string, Db.WeakEntry>, totalCategories: int)

  /** `GET /weak-areas`: a threshold outside 0..100 is refused; otherwise the weak areas and how many categories they span. */
  method GetWeakAreas(responses: seq<Db.ResponseRecord>, threshold: int := 60) returns (r: Result<WeakAreasBody>)
    ensures !(0 <= threshold <= 100) <==> r == Err(Unprocessable)
    ensures r.Ok? ==>
      && r.value.threshold == threshold
      && r.value.weakAreas.Keys == Db.Categories(Db.WeakResponses(responses, threshold))
      && r.value.totalCategories == |r.value.weakAreas|
      && r.value.totalCategories == |Db.Categories(Db.WeakResponses(responses, threshold))|
      && forall c :: c in r.value.weakAreas ==>
           var w := Db.WeakResponses(responses, threshold);
           && r.value.weakAreas[c].count == |Db.QuestionsIn(w, c)| >= 1
           && r.value.weakAreas[c].questions == Db.QuestionsIn(w, c)
           && r.value.weakAreas[c].totalScore.None?
           && r.value.weakAreas[c].avgScore == Db.TotalIn(w, c) as real / r.value.weakAreas[c].count as real
  {
    if !(0 <= threshold <= 100) {
      return Err(Unprocessable);
    }
    var weakAreas := Db.IdentifyWeakAreas(responses, threshold);
    r := Ok(WeakAreasBody(threshold, weakAreas, |weakAreas|));
  }

  datatype ProgressBody =
    | NoSessions(userId: int)
    | WithProgress(userId: int, progress: Db.Progress)

  /**
   * `GET /progress/{user_id}`, given the user's completed sessions newest
   * first: a limit outside 1..100 is refused; the "no sessions" shape
   * exactly when none are selected; otherwise the first `limit` of them as
   * points, oldest first, with the improvement of `get_user_progress`, 0
   * for a single point, or its `TypeError` when a window lacks a score.
   */
  method GetUserProgress(userId: int, sessions: seq<Db.SessionRecord>, limit: int := 20) returns (r: Result<ProgressBody>)
    ensures !(1 <= limit <= 100) ==> r == Err(Unprocessable)
    ensures 1 <= limit <= 100 ==>
      var sel := sessions[..Db.Min(limit, |sessions|)];
      && (|sel| == 0 <==> r == Ok(NoSessions(userId)))
      && (|sel| > 0 && r.Ok? ==>
            && r.value.WithProgress? && r.value.userId == userId
            && r.value.progress.totalSessions == |sel|
            && |r.value.progress.progress| == |sel|
            && (forall i :: 0 <= i < |sel| ==> r.value.progress.progress[i] == Db.PointOf(sel[|sel| - 1 - i])))
      && (|sel| == 1 ==> r.Ok? && r.value.WithProgress? && r.value.progress.improvement == 0.0)
      && (|sel| > 1 ==>
            match Db.Improvement(Db.Points(sel))
            case Ok(v) => r.Ok? && r.value.WithProgress? && r.value.progress.improvement == v
            case Err(e) => r == Err(e))
  {
    if !(1 <= limit <= 100) {
      return Err(Unprocessable);
    }
    var selected := sessions[..Db.Min(limit, |sessions|)];
    var progressData := Db.GetUserProgress(selected);
    if progressData.Err? {
      return Err(progressData.error);
    }
    if progressData.value.totalSessions == 0 {
      return Ok(NoSessions(userId));
    }
    r := Ok(WithProgress(userId, progressData.value));
  }

  // ---------------------------------------------------------------------
  // Session statistics
  // ---------------------------------------------------------------------

  /** A Python truthiness test on an optional string. */
  predicate Truthy(s: Option<string>) {
    s.Some? && s.value != ""
  }

  /** `[s for s in sessions if s.category == category]`. */
  function OfCategory(sessions: seq<Db.SessionRecord>, category: string): (r: seq<Db.SessionRecord>)
    ensures |r| <= |sessions|
    ensures forall i :: 0 <= i < |r| ==> r[i].category == category
  {
    if sessions == [] then []
    else OfCategory(sessions[..|sessions| - 1], category)
         + (if sessions[|sessions| - 1].category == category then [sessions[|sessions| - 1]] else [])
  }

  /** The sessions of the category are kept, and nothing else. */
  lemma {:induction false} OfCategoryMembers(sessions: seq<Db.SessionRecord>, category: string)
    ensures forall x :: x in OfCategory(sessions, category) <==> x in sessions && x.category == category
    decreases |sessions|
  {
    if sessions != [] {
      OfCategoryMembers(sessions[..|sessions| - 1], category);
      assert sessions == sessions[..|sessions| - 1] + [sessions[|sessions| - 1]];
    }
  }

  /** Filtering a concatenation filters each part in turn, so what is kept stays in its original order. */
  lemma {:induction false} OfCategoryConcat(a: seq<Db.SessionRecord>, b: seq<Db.SessionRecord>, category: string)
    ensures OfCategory(a + b, category) == OfCategory(a, category) + OfCategory(b, category)
    decreases |b|
  {
    if b == [] {
      assert a + b == a;
    } else {
      var init := b[..|b| - 1];
      assert (a + b)[..|a + b| - 1] == a + init;
      assert (a + b)[|a + b| - 1] == b[|b| - 1];
      OfCategoryConcat(a, init, category);
    }
  }

  /** `[s.average_score for s in completed if s.average_score]`: `None` and 0 are both skipped. */
  function ScoresOf(completed: seq<Db.SessionRecord>): (r: seq<real>)
    ensures |r| <= |completed|
    ensures forall i :: 0 <= i < |r| ==> r[i] != 0.0
  {
    if completed == [] then []
    else
      var last := completed[|completed| - 1];
      ScoresOf(completed[..|completed| - 1])
      + (if last.averageScore.Some? && last.averageScore.value != 0.0 then [last.averageScore.value] else [])
  }

  /** The listed scores are exactly the non-zero averages the sessions carry. */
  lemma {:induction false} ScoresOfMembers(completed: seq<Db.SessionRecord>)
    ensures forall x :: x in ScoresOf(completed) <==>
      x != 0.0 && exists j :: 0 <= j < |completed| && completed[j].averageScore == Some(x)
    decreases |completed|
  {
    if completed != [] {
      var init := completed[..|completed| - 1];
      ScoresOfMembers(init);
      forall j | 0 <= j < |init| ensures init[j] == completed[j] { }
      assert completed == init + [completed[|completed| - 1]];
    }
  }

  /** Listing the scores of a concatenation lists each part in turn, so the scores keep the order of their sessions. */
  lemma {:induction false} ScoresOfConcat(a: seq<Db.SessionRecord>, b: seq<Db.SessionRecord>)
    ensures ScoresOf(a + b) == ScoresOf(a) + ScoresOf(b)
    decreases |b|
  {
    if b == [] {
      assert a + b == a;
    } else {
      var init := b[..|b| - 1];
      assert (a + b)[..|a + b| - 1] == a + init;
      assert (a + b)[|a + b| - 1] == b[|b| - 1];
      ScoresOfConcat(a, init);
    }
  }

  /** Some session of `ss` has the average `x`. */
  predicate HasScore(ss: seq<Db.SessionRecord>, x: real) {
    exists j :: 0 <= j < |ss| && ss[j].averageScore == Some(x)
  }

  function SumOf(xs: seq<real>): real {
    if xs == [] then 0.0 else SumOf(xs[..|xs| - 1]) + xs[|xs| - 1]
  }

  function MaxOf(xs: seq<real>): real
    requires |xs| > 0
  {
    if |xs| == 1 then xs[0] else var m := MaxOf(xs[..|xs| - 1]); if xs[|xs| - 1] > m then xs[|xs| - 1] else m
  }

  function MinOf(xs: seq<real>): real
    requires |xs| > 0
  {
    if |xs| == 1 then xs[0] else var m := MinOf(xs[..|xs| - 1]); if xs[|xs| - 1] < m then xs[|xs| - 1] else m
  }

  /** The maximum and minimum are elements, and every element lies between them. */
  lemma {:induction false} MaxMinBound(xs: seq<real>)
    requires |xs| > 0
    ensures forall i :: 0 <= i < |xs| ==> MinOf(xs) <= xs[i] <= MaxOf(xs)
    ensures MaxOf(xs) in xs && MinOf(xs) in xs
    decreases |xs|
  {
    if |xs| > 1 {
      var init := xs[..|xs| - 1];
      MaxMinBound(init);
      forall i | 0 <= i < |init| ensures xs[i] == init[i] { }
    }
  }

  /** Every element lies between the minimum and the maximum, so their sum does too, times the count. */
  lemma {:induction false} SumBetween(xs: seq<real>, lo: real, hi: real)
    requires forall i :: 0 <= i < |xs| ==> lo <= xs[i] <= hi
    ensures |xs| as real * lo <= SumOf(xs) <= |xs| as real * hi
    decreases |xs|
  {
    if xs != [] {
      var init := xs[..|xs| - 1];
      forall i | 0 <= i < |init| ensures lo <= init[i] <= hi {
        assert init[i] == xs[i];
      }
      SumBetween(init, lo, hi);
    }
  }

  /** The mean of non-empty scores lies between their minimum and their maximum. */
  lemma MeanBetweenMinMax(xs: seq<real>)
    requires |xs| > 0
    ensures MinOf(xs) <= SumOf(xs) / |xs| as real <= MaxOf(xs)
  {
    MaxMinBound(xs);
    SumBetween(xs, MinOf(xs), MaxOf(xs));
    Db.DivBetween(SumOf(xs), |xs| as real, MinOf(xs), MaxOf(xs));
  }

  datatype SessionStats =
    | NoneFound                      // `{"message": "No sessions found", "total": 0}`
    | Stats(
        totalSessions: int,
        completedSessions: int,
        completionRate: real,
        averageScore: real,
        maxScore: real,
        minScore: real,
        categoryFilter: Option<string>)

  /** The sessions the statistics are about: all the recent ones, or those of a truthy category. */
  function StatsSessions(recent: seq<Db.SessionRecord>, category: Option<string>): seq<Db.SessionRecord> {
    if Truthy(category) then OfCategory(recent, category.value) else recent
  }

  /** `GET /sessions/stats`, given the recent sessions the service returns. */
  function GetSessionStats(recent: seq<Db.SessionRecord>, category: Option<string> := None): (r: SessionStats)
    ensures r.NoneFound? <==> StatsSessions(recent, category) == []
    ensures r.Stats? ==>
      var sessions := StatsSessions(recent, category);
      var scores := ScoresOf(CompletedOf(sessions));
      && r.totalSessions == |sessions| && r.completedSessions == |CompletedOf(sessions)|
      && r.completionRate == CompletionRate(r.completedSessions, r.totalSessions)
      && r.categoryFilter == category
      && (scores == [] ==> r.averageScore == 0.0 && r.maxScore == 0.0 && r.minScore == 0.0)
      && (scores != [] ==> r.averageScore == SumOf(scores) / |scores| as real
                           && r.maxScore == MaxOf(scores) && r.minScore == MinOf(scores))
  {
    var sessions := StatsSessions(recent, category);
    if sessions == [] then NoneFound
    else
      var completed := CompletedOf(sessions);
      var scores := ScoresOf(completed);
      Stats(
        |sessions|,
        |completed|,
        CompletionRate(|completed|, |sessions|),
        if |scores| > 0 then SumOf(scores) / |scores| as real else 0.0,
        if |scores| > 0 then MaxOf(scores) else 0.0,
        if |scores| > 0 then MinOf(scores) else 0.0,
        category)
  }

  /**
   * What the statistics promise: with a truthy category, every counted
   * session has it; the completion rate is a percentage; and the minimum,
   * average and maximum score are in that order.
   */
  lemma SessionStatsSpec(recent: seq<Db.SessionRecord>, category: Option<string>)
    ensures var r := GetSessionStats(recent, category);
      r.Stats? ==>
        && (Truthy(category) ==> forall s :: s in StatsSessions(recent, category) ==> s.category == category.value)
        && r.completedSessions <= r.totalSessions
        && 0.0 <= r.completionRate <= 100.0
        && r.minScore <= r.averageScore <= r.maxScore
  {
    var sessions := StatsSessions(recent, category);
    if sessions != [] {
      var completed := CompletedOf(sessions);
      var scores := ScoresOf(completed);
      CompletionRateWithin(|completed|, |sessions|);
      if |scores| > 0 {
        MeanBetweenMinMax(scores);
      }
    }
  }

  // ---------------------------------------------------------------------
  // Leaderboard
  // ---------------------------------------------------------------------

  datatype LeaderboardEntry = LeaderboardEntry(
    rank: int,
    sessionId: string,
    category: string,
    score: Option<real>,
    questions: int,
    date: Option<Db.Timestamp>)

  datatype Leaderboard = Leaderboard(leaderboard: seq<LeaderboardEntry>, totalEntries: int)

  /** The query's filter: completed, with an average, and of the category when one is given. */
  predicate Eligible(s: Db.SessionRecord, category: Option<string>) {
    s.isCompleted && s.averageScore.Some? && (Truthy(category) ==> s.category == category.value)
  }

  /** The query's `filter`: every eligible session and only those, in the query's order. */
  function EligibleOf(ordered: seq<Db.SessionRecord>, category: Option<string>): (r: seq<Db.SessionRecord>)
    ensures |r| <= |ordered|
    ensures forall i :: 0 <= i < |r| ==> Eligible(r[i], category)
  {
    if ordered == [] then []
    else EligibleOf(ordered[..|ordered| - 1], category)
         + (if Eligible(ordered[|ordered| - 1], category) then [ordered[|ordered| - 1]] else [])
  }

  /** The eligible sessions are kept, and nothing else. */
  lemma {:induction false} EligibleOfMembers(ordered: seq<Db.SessionRecord>, category: Option<string>)
    ensures forall x :: x in EligibleOf(ordered, category) <==> x in ordered && Eligible(x, category)
    decreases |ordered|
  {
    if ordered != [] {
      EligibleOfMembers(ordered[..|ordered| - 1], category);
      assert ordered == ordered[..|ordered| - 1] + [ordered[|ordered| - 1]];
    }
  }

  /** Filtering a concatenation filters each part in turn, so what is kept stays in its original order. */
  lemma {:induction false} EligibleOfConcat(a: seq<Db.SessionRecord>, b: seq<Db.SessionRecord>, category: Option<string>)
    ensures EligibleOf(a + b, category) == EligibleOf(a, category) + EligibleOf(b, category)
    decreases |b|
  {
    if b == [] {
      assert a + b == a;
    } else {
      var init := b[..|b| - 1];
      assert (a + b)[..|a + b| - 1] == a + init;
      assert (a + b)[|a + b| - 1] == b[|b| - 1];
      EligibleOfConcat(a, init, category);
    }
  }

  function EntryOf(idx: nat, s: Db.SessionRecord): LeaderboardEntry {
    LeaderboardEntry(idx + 1, s.sessionId, s.category, s.averageScore, s.totalQuestions, s.completedAt)
  }

  /**
   * `GET /leaderboard`, given the session table in descending order of
   * average score: a limit outside 1..50 is refused; otherwise the first
   * `limit` eligible sessions, ranked 1, 2, ... in that order.
   */
  function GetLeaderboard(ordered: seq<Db.SessionRecord>, category: Option<string> := None, limit: int := 10): (r: Result<Leaderboard>)
    ensures !(1 <= limit <= 50) <==> r == Err(Unprocessable)
    ensures r.Ok? ==>
      var top := EligibleOf(ordered, category);
      && r.value.totalEntries == |r.value.leaderboard| == Db.Min(limit, |top|) <= 50
      && (forall i :: 0 <= i < |r.value.leaderboard| ==>
            && r.value.leaderboard[i].rank == i + 1
            && r.value.leaderboard[i].sessionId == top[i].sessionId
            && r.value.leaderboard[i].category == top[i].category
            && r.value.leaderboard[i].score == top[i].averageScore
            && r.value.leaderboard[i].questions == top[i].totalQuestions
            && r.value.leaderboard[i].date == top[i].completedAt)
  {
    if !(1 <= limit <= 50) then Err(Unprocessable)
    else
      var eligible := EligibleOf(ordered, category);
      var top := eligible[..Db.Min(limit, |eligible|)];
      Ok(Leaderboard(seq(|top|, i requires 0 <= i < |top| => EntryOf(i, top[i])), |top|))
  }

  predicate Descending(ss: seq<Db.SessionRecord>) {
    forall i, j :: 0 <= i < j < |ss| && ss[i].averageScore.Some? && ss[j].averageScore.Some? ==>
      ss[i].averageScore.value >= ss[j].averageScore.value
  }

  /** Filtering keeps the order of what it keeps. */
  lemma {:induction false} EligibleDescending(ordered: seq<Db.SessionRecord>, category: Option<string>)
    requires Descending(ordered)
    ensures Descending(EligibleOf(ordered, category))
    ensures forall s :: s in EligibleOf(ordered, category) ==> s in ordered
    decreases |ordered|
  {
    if ordered != [] {
      var init := ordered[..|ordered| - 1];
      var last := ordered[|ordered| - 1];
      assert Descending(init) by {
        forall i, j | 0 <= i < j < |init| ensures init[i] == ordered[i] && init[j] == ordered[j] { }
      }
      EligibleDescending(init, category);
      var e := EligibleOf(init, category);
      forall s | s in e ensures s in ordered {
        var k :| 0 <= k < |init| && init[k] == s;
        assert ordered[k] == s;
      }
      if Eligible(last, category) {
        forall i | 0 <= i < |e| ensures e[i].averageScore.value >= last.averageScore.value {
          assert e[i] in e;
          var k :| 0 <= k < |init| && init[k] == e[i];
          assert ordered[k] == e[i];
        }
        assert EligibleOf(ordered, category) == e + [last];
      }
    }
  }

  /** Ranks follow the scores: a better rank never has a lower score. */
  lemma LeaderboardOrdered(ordered: seq<Db.SessionRecord>, category: Option<string>, limit: int)
    requires Descending(ordered) && 1 <= limit <= 50
    ensures var r := GetLeaderboard(ordered, category, limit);
      forall i, j :: 0 <= i < j < |r.value.leaderboard| ==>
        r.value.leaderboard[i].score.Some? && r.value.leaderboard[j].score.Some?
        && r.value.leaderboard[i].score.value >= r.value.leaderboard[j].score.value
  {
    EligibleDescending(ordered, category);
  }
}
