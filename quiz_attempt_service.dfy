/**
 * The quiz-attempt store of `quizAttemptService.js`: an in-memory list of attempts, seeded with the
 * mock records and grown by `createAttempt`, plus the weekly leaderboard, rank, statistics and
 * best-score queries computed from it.
 */
module QuizAttemptService {
  import opened Wrappers
  import opened Text
  import opened DateHelpers

  /**
   * One stored attempt (`Id`, `user_id`, `user_name`, `score`, `time_taken`, `quiz_date`,
   * `week_number`, `total_questions`). `quizDate` is the instant of creation in milliseconds.
   */
  datatype Attempt = Attempt(
    id: int, userId: int, userName: string, score: int, timeTaken: int,
    quizDate: int, weekNumber: int, totalQuestions: int)

  /** What a caller hands to `createAttempt`; `totalQuestions` may be absent. */
  datatype AttemptInput = AttemptInput(
    userId: int, userName: string, score: int, timeTaken: int, totalQuestions: Option<int>)

  // ---------------------------------------------------------------- lookups

  /** `Math.max(...attempts.map(a => a.Id), 0)`. */
  function MaxId(attempts: seq<Attempt>): (m: int)
    ensures m >= 0
    ensures forall i :: 0 <= i < |attempts| ==> attempts[i].id <= m
    ensures m == 0 || exists i :: 0 <= i < |attempts| && attempts[i].id == m
  {
    if attempts == [] then 0
    else
      var rest := MaxId(attempts[1..]);
      if attempts[0].id > rest then attempts[0].id else rest
  }

  /** `this.attempts.find(a => a.Id === parseInt(id))`, and the error when there is none. */
  function GetAttemptById(attempts: seq<Attempt>, id: string): (r: Result<Attempt>)
    ensures r.Ok? <==> ParseInt(id).Some? && exists i :: 0 <= i < |attempts| && attempts[i].id == ParseInt(id).value
    ensures r.Ok? ==> r.value in attempts && r.value.id == ParseInt(id).value
    ensures r.Ok? ==>
      exists i :: 0 <= i < |attempts| && attempts[i] == r.value && forall j :: 0 <= j < i ==> attempts[j].id != r.value.id
    ensures r.Err? ==> r.message == "Quiz attempt not found"
  {
    var key := ParseInt(id);
    if key.None? then Err("Quiz attempt not found")
    else
      var i := FirstWithId(attempts, key.value);
      if i < 0 then Err("Quiz attempt not found") else Ok(attempts[i])
  }

  /** `findIndex` on the Id: the first position holding `id`, or -1. */
  function FirstWithId(attempts: seq<Attempt>, id: int): (i: int)
    ensures -1 <= i < |attempts|
    ensures i >= 0 ==> attempts[i].id == id && forall j :: 0 <= j < i ==> attempts[j].id != id
    ensures i == -1 ==> forall j :: 0 <= j < |attempts| ==> attempts[j].id != id
  {
    if attempts == [] then -1
    else if attempts[0].id == id then 0
    else
      var k := FirstWithId(attempts[1..], id);
      if k < 0 then -1 else k + 1
  }

  // ---------------------------------------------------------------- creation

  /**
   * `weekNumber || getWeekNumber(new Date())`, which every weekly query evaluates first: an absent or
   * zero week means the current one. The queries below take the week this resolves to.
   */
  function EffectiveWeek(requested: Option<int>, now: Instant): (w: int)
    ensures requested.Some? && requested.value != 0 ==> w == requested.value
    ensures requested.None? || requested.value == 0 ==> w == WeekOf(now.today) && 1 <= w <= 53
    ensures w != 0
  {
    if requested.Some? && requested.value != 0 then requested.value else WeekOf(now.today)
  }

  /**
   * `getUserWeeklyRank` hands the week it resolved to `getWeeklyLeaderboard`, which resolves it again:
   * the second resolution changes nothing, so both work on the same week.
   */
  lemma EffectiveWeekIdempotent(requested: Option<int>, now: Instant)
    ensures EffectiveWeek(Some(EffectiveWeek(requested, now)), now) == EffectiveWeek(requested, now)
  {
  }

  /** The record `createAttempt` builds for `input` at instant `now`, given the attempts stored so far. */
  function NewAttempt(existing: seq<Attempt>, input: AttemptInput, now: Instant): (a: Attempt)
    ensures a.id >= 1 && forall i :: 0 <= i < |existing| ==> existing[i].id < a.id
    ensures a.id == 1 <==> forall i :: 0 <= i < |existing| ==> existing[i].id <= 0
    ensures a.userId == input.userId && a.userName == input.userName
    ensures a.score == input.score && a.timeTaken == input.timeTaken
    ensures a.quizDate == now.millis && a.weekNumber == WeekOf(now.today) && 1 <= a.weekNumber <= 53
    ensures a.totalQuestions == (if input.totalQuestions.None? || input.totalQuestions.value == 0 then 10
                                 else input.totalQuestions.value)
  {
    Attempt(
      MaxId(existing) + 1, input.userId, input.userName, input.score, input.timeTaken,
      now.millis, WeekOf(now.today),
      if input.totalQuestions.Some? && input.totalQuestions.value != 0 then input.totalQuestions.value else 10)
  }

  /** Ids handed out by `createAttempt` are fresh: no two records the store creates share an Id. */
  lemma NewIdsAreFresh(existing: seq<Attempt>, first: AttemptInput, second: AttemptInput, t1: Instant, t2: Instant)
    ensures var a := NewAttempt(existing, first, t1);
            var b := NewAttempt(existing + [a], second, t2);
            a.id < b.id && forall i :: 0 <= i < |existing| ==> existing[i].id < a.id
  {
    var a := NewAttempt(existing, first, t1);
    assert (existing + [a])[|existing|] == a;
  }

  /** The attempt list, mutated in place by `createAttempt`. */
  class AttemptStore {
    var attempts: seq<Attempt>

    /** The service starts from a copy of the mock records. */
    constructor (seed: seq<Attempt>)
      ensures attempts == seed
    {
      attempts := seed;
    }

    /** A copy of every stored attempt, in stored order. */
    method GetAllAttempts() returns (r: seq<Attempt>)
      ensures r == attempts
    {
      r := attempts;
    }

    /** Stamps, numbers and appends one attempt, leaving the earlier ones as they were. */
    method CreateAttempt(input: AttemptInput, now: Instant) returns (a: Attempt)
      modifies this
      ensures a == NewAttempt(old(attempts), input, now)
      ensures attempts == old(attempts) + [a]
    {
      a := NewAttempt(attempts, input, now);
      attempts := attempts + [a];
    }
  }

  // ---------------------------------------------------------------- ordering

  /** The comparator of `getWeeklyLeaderboard` is negative: `a` must come before `b`. */
  predicate Before(a: Attempt, b: Attempt) {
    a.score > b.score || (a.score == b.score && a.timeTaken < b.timeTaken)
  }

  /** `a` may stand before `b`: higher score, or equal score and no more time. */
  predicate RanksAtLeast(a: Attempt, b: Attempt) {
    a.score > b.score || (a.score == b.score && a.timeTaken <= b.timeTaken)
  }

  predicate Ranked(s: seq<Attempt>) {
    forall i, j :: 0 <= i < j < |s| ==> RanksAtLeast(s[i], s[j])
  }

  predicate SameKey(a: Attempt, score: int, time: int) {
    a.score == score && a.timeTaken == time
  }

  /** The attempts with the given score and time, in their order in `s`. */
  function WithKey(s: seq<Attempt>, score: int, time: int): (r: seq<Attempt>)
    ensures |r| <= |s|
  {
    if s == [] then []
    else (if SameKey(s[0], score, time) then [s[0]] else []) + WithKey(s[1..], score, time)
  }

  lemma {:induction false} WithKeyAppend(s: seq<Attempt>, x: Attempt, score: int, time: int)
    ensures WithKey(s + [x], score, time) == WithKey(s, score, time) + (if SameKey(x, score, time) then [x] else [])
  {
    if s != [] {
      assert (s + [x])[1..] == s[1..] + [x];
      WithKeyAppend(s[1..], x, score, time);
    }
  }

  lemma {:induction false} WithKeyNone(s: seq<Attempt>, score: int, time: int)
    requires forall i :: 0 <= i < |s| ==> !SameKey(s[i], score, time)
    ensures WithKey(s, score, time) == []
  {
    if s != [] {
      WithKeyNone(s[1..], score, time);
    }
  }

  /** One step of the stable sort: `x` goes after every element it does not strictly beat. */
  function InsertRanked(x: Attempt, s: seq<Attempt>): (r: seq<Attempt>)
    ensures |r| == |s| + 1
  {
    if s == [] then [x]
    else if Before(x, s[0]) then [x] + s
    else [s[0]] + InsertRanked(x, s[1..])
  }

  /** Inserting adds `x` and loses nothing. */
  lemma {:induction false} InsertRankedPermutes(x: Attempt, s: seq<Attempt>)
    ensures multiset(InsertRanked(x, s)) == multiset(s) + multiset{x}
  {
    if s != [] {
      assert s == [s[0]] + s[1..];
      if !Before(x, s[0]) {
        InsertRankedPermutes(x, s[1..]);
      }
    }
  }

  /** A ranked list stays ranked under a head that ranks at least as high as all of it. */
  lemma RankedCons(h: Attempt, t: seq<Attempt>)
    requires Ranked(t) && forall j :: 0 <= j < |t| ==> RanksAtLeast(h, t[j])
    ensures Ranked([h] + t)
  {
    var r := [h] + t;
    forall i, j | 0 <= i < j < |r| ensures RanksAtLeast(r[i], r[j]) {
      assert r[j] == t[j - 1];
      if i > 0 {
        assert r[i] == t[i - 1];
      }
    }
  }

  /** Every element of a multiset-equal list is bounded by what bounds the original. */
  lemma BoundedByHead(h: Attempt, s: seq<Attempt>, r: seq<Attempt>, x: Attempt)
    requires multiset(r) == multiset(s) + multiset{x}
    requires RanksAtLeast(h, x) && forall j :: 0 <= j < |s| ==> RanksAtLeast(h, s[j])
    ensures forall j :: 0 <= j < |r| ==> RanksAtLeast(h, r[j])
  {
    forall j | 0 <= j < |r| ensures RanksAtLeast(h, r[j]) {
      assert r[j] in multiset(r);
      if r[j] != x {
        assert r[j] in multiset(s);
      }
    }
  }

  /** Inserting into a ranked list gives a ranked list. */
  lemma {:induction false} InsertRankedRanked(x: Attempt, s: seq<Attempt>)
    requires Ranked(s)
    ensures Ranked(InsertRanked(x, s))
  {
    if s == [] {
    } else if Before(x, s[0]) {
      RankedCons(x, s);
    } else {
      var t := s[1..];
      var rest := InsertRanked(x, t);
      assert Ranked(t);
      InsertRankedRanked(x, t);
      InsertRankedPermutes(x, t);
      BoundedByHead(s[0], t, rest, x);
      RankedCons(s[0], rest);
    }
  }

  /** An attempt that strictly beats the head of a ranked list shares its key with none of the list. */
  lemma BeatsHeadStable(x: Attempt, s: seq<Attempt>, score: int, time: int)
    requires Ranked(s) && s != [] && Before(x, s[0])
    ensures WithKey([x] + s, score, time) == WithKey(s, score, time) + (if SameKey(x, score, time) then [x] else [])
  {
    assert ([x] + s)[1..] == s;
    if SameKey(x, score, time) {
      forall i | 0 <= i < |s| ensures !SameKey(s[i], score, time) {
        assert i == 0 || RanksAtLeast(s[0], s[i]);
      }
      WithKeyNone(s, score, time);
    }
  }

  /** Putting the head back in front of a list keeps the head first among its key. */
  lemma ConsWithKey(h: Attempt, t: seq<Attempt>, score: int, time: int)
    ensures WithKey([h] + t, score, time) == (if SameKey(h, score, time) then [h] else []) + WithKey(t, score, time)
  {
    assert ([h] + t)[1..] == t;
  }

  /** An attempt that does not beat the head is inserted into the tail. */
  lemma InsertBehindHead(x: Attempt, s: seq<Attempt>)
    requires s != [] && !Before(x, s[0])
    ensures InsertRanked(x, s) == [s[0]] + InsertRanked(x, s[1..])
  {
  }

  /** The step behind the head: if inserting into the tail keeps the runs, so does inserting into the whole. */
  lemma BehindHeadStable(x: Attempt, s: seq<Attempt>, score: int, time: int)
    requires s != [] && !Before(x, s[0])
    requires WithKey(InsertRanked(x, s[1..]), score, time)
          == WithKey(s[1..], score, time) + (if SameKey(x, score, time) then [x] else [])
    ensures WithKey(InsertRanked(x, s), score, time)
         == WithKey(s, score, time) + (if SameKey(x, score, time) then [x] else [])
  {
    var h, t := s[0], s[1..];
    var head := if SameKey(h, score, time) then [h] else [];
    var tail := if SameKey(x, score, time) then [x] else [];
    assert WithKey(s, score, time) == head + WithKey(t, score, time);
    InsertBehindHead(x, s);
    ConsWithKey(h, InsertRanked(x, t), score, time);
    ConcatAssociative(head, WithKey(t, score, time), tail);
  }

  lemma ConcatAssociative(a: seq<Attempt>, b: seq<Attempt>, c: seq<Attempt>)
    ensures a + (b + c) == (a + b) + c
  {
  }

  /** Inserting keeps every run of equal keys in order, with `x` last in its run. */
  lemma {:induction false} InsertRankedStable(x: Attempt, s: seq<Attempt>, score: int, time: int)
    requires Ranked(s)
    ensures WithKey(InsertRanked(x, s), score, time)
         == WithKey(s, score, time) + (if SameKey(x, score, time) then [x] else [])
  {
    if s == [] {
    } else if Before(x, s[0]) {
      BeatsHeadStable(x, s, score, time);
    } else {
      InsertRankedStable(x, s[1..], score, time);
      BehindHeadStable(x, s, score, time);
    }
  }

  /** `Array.prototype.sort` with the leaderboard comparator: a stable sort, as the language requires. */
  function SortByRank(s: seq<Attempt>): (r: seq<Attempt>)
    ensures |r| == |s|
  {
    if s == [] then [] else InsertRanked(s[|s| - 1], SortByRank(s[..|s| - 1]))
  }

  /** The sorted list is a permutation of the input. */
  lemma {:induction false} SortByRankPermutes(s: seq<Attempt>)
    ensures multiset(SortByRank(s)) == multiset(s)
  {
    if s != [] {
      var init, last := s[..|s| - 1], s[|s| - 1];
      assert s == init + [last];
      SortByRankPermutes(init);
      InsertRankedPermutes(last, SortByRank(init));
    }
  }

  /** The sorted list is in leaderboard order. */
  lemma {:induction false} SortByRankRanked(s: seq<Attempt>)
    ensures Ranked(SortByRank(s))
  {
    if s != [] {
      SortByRankRanked(s[..|s| - 1]);
      InsertRankedRanked(s[|s| - 1], SortByRank(s[..|s| - 1]));
    }
  }

  /** The sort is stable: attempts equal in score and time keep their stored order. */
  lemma {:induction false} SortByRankStable(s: seq<Attempt>, score: int, time: int)
    ensures WithKey(SortByRank(s), score, time) == WithKey(s, score, time)
  {
    if s != [] {
      var init, last := s[..|s| - 1], s[|s| - 1];
      var sortedInit := SortByRank(init);
      var tail := if SameKey(last, score, time) then [last] else [];
      assert WithKey(SortByRank(s), score, time) == WithKey(sortedInit, score, time) + tail by {
        assert SortByRank(s) == InsertRanked(last, sortedInit);
        SortByRankRanked(init);
        InsertRankedStable(last, sortedInit, score, time);
      }
      assert WithKey(sortedInit, score, time) == WithKey(init, score, time) by {
        SortByRankStable(init, score, time);
      }
      assert WithKey(s, score, time) == WithKey(init, score, time) + tail by {
        WithKeyAppend(init, last, score, time);
        assert s == init + [last];
      }
    }
  }

  // ---------------------------------------------------------------- weekly queries

  /** `attempts.filter(attempt => attempt.week_number === week)`. */
  function InWeek(attempts: seq<Attempt>, week: int): (r: seq<Attempt>)
    ensures forall i :: 0 <= i < |r| ==> r[i].weekNumber == week
    ensures forall a :: a in attempts && a.weekNumber == week <==> a in r
    ensures multiset(r) <= multiset(attempts)
  {
    if attempts == [] then []
    else
      var rest := InWeek(attempts[1..], week);
      assert attempts == [attempts[0]] + attempts[1..];
      if attempts[0].weekNumber == week then [attempts[0]] + rest else rest
  }

  /** `getWeeklyLeaderboard`: the requested week's attempts, best first, cut to the top ten. */
  function WeeklyLeaderboard(attempts: seq<Attempt>, week: int): (r: seq<Attempt>)
    ensures var sorted := SortByRank(InWeek(attempts, week));
            |r| == (if |sorted| < 10 then |sorted| else 10) && r == sorted[..|r|]
    ensures |r| <= 10
  {
    var sorted := SortByRank(InWeek(attempts, week));
    if |sorted| <= 10 then sorted else sorted[..10]
  }

  /** The leaderboard is in ranking order: higher score first, then less time. */
  lemma LeaderboardRanked(attempts: seq<Attempt>, week: int)
    ensures Ranked(WeeklyLeaderboard(attempts, week))
  {
    var sorted := SortByRank(InWeek(attempts, week));
    var board := WeeklyLeaderboard(attempts, week);
    SortByRankRanked(InWeek(attempts, week));
    assert forall i :: 0 <= i < |board| ==> board[i] == sorted[i];
  }

  /** Every leaderboard entry is a stored attempt of the requested week. */
  lemma LeaderboardFromWeek(attempts: seq<Attempt>, week: int)
    ensures var board := WeeklyLeaderboard(attempts, week);
            forall i :: 0 <= i < |board| ==> board[i].weekNumber == week && board[i] in attempts
  {
    var weekly := InWeek(attempts, week);
    var sorted := SortByRank(weekly);
    var board := WeeklyLeaderboard(attempts, week);
    SortByRankPermutes(weekly);
    forall i | 0 <= i < |board|
      ensures board[i].weekNumber == week && board[i] in attempts
    {
      assert board[i] == sorted[i];
      assert sorted[i] in multiset(sorted);
      assert sorted[i] in weekly;
    }
  }

  /** No attempt of the week that missed the leaderboard beats any entry on it. */
  lemma LeaderboardKeepsBest(attempts: seq<Attempt>, week: int, e: Attempt)
    requires e in attempts && e.weekNumber == week
    requires e !in WeeklyLeaderboard(attempts, week)
    ensures var board := WeeklyLeaderboard(attempts, week);
            forall i :: 0 <= i < |board| ==> RanksAtLeast(board[i], e)
  {
    var weekly := InWeek(attempts, week);
    var sorted := SortByRank(weekly);
    var board := WeeklyLeaderboard(attempts, week);
    SortByRankRanked(weekly);
    SortByRankPermutes(weekly);
    assert e in weekly;
    assert e in multiset(sorted);
    var j :| 0 <= j < |sorted| && sorted[j] == e;
    assert forall i :: 0 <= i < |board| ==> board[i] == sorted[i];
    assert j >= |board|;
    forall i | 0 <= i < |board| ensures RanksAtLeast(board[i], e) {
      assert board[i] == sorted[i];
    }
  }

  /** `findIndex(attempt => attempt.user_id === userId)`. */
  function FirstOfUser(board: seq<Attempt>, userId: int): (i: int)
    ensures -1 <= i < |board|
    ensures i >= 0 ==> board[i].userId == userId && forall j :: 0 <= j < i ==> board[j].userId != userId
    ensures i == -1 ==> forall j :: 0 <= j < |board| ==> board[j].userId != userId
  {
    if board == [] then -1
    else if board[0].userId == userId then 0
    else
      var k := FirstOfUser(board[1..], userId);
      if k < 0 then -1 else k + 1
  }

  /** `getUserWeeklyRank`: one plus the position of the user's best entry in the top ten, else null. */
  function UserWeeklyRank(attempts: seq<Attempt>, userId: int, week: int): (r: Option<int>)
    ensures var board := WeeklyLeaderboard(attempts, week);
            (r.None? <==> forall j :: 0 <= j < |board| ==> board[j].userId != userId)
            && (r.Some? ==>
                  1 <= r.value <= |board| <= 10 && board[r.value - 1].userId == userId
                  && forall j :: 0 <= j < r.value - 1 ==> board[j].userId != userId)
  {
    var board := WeeklyLeaderboard(attempts, week);
    var rank := FirstOfUser(board, userId) + 1;
    if rank == 0 then None else Some(rank)
  }

  // ---------------------------------------------------------------- statistics

  function TotalScore(s: seq<Attempt>): int {
    if s == [] then 0 else s[0].score + TotalScore(s[1..])
  }

  function TotalTime(s: seq<Attempt>): int {
    if s == [] then 0 else s[0].timeTaken + TotalTime(s[1..])
  }

  /** `Math.max(...s.map(a => a.score))` on a non-empty list. */
  function HighestScore(s: seq<Attempt>): (m: int)
    requires s != []
    ensures forall i :: 0 <= i < |s| ==> s[i].score <= m
    ensures exists i :: 0 <= i < |s| && s[i].score == m
  {
    if |s| == 1 then s[0].score
    else
      var rest := HighestScore(s[1..]);
      assert forall i :: 1 <= i < |s| ==> s[i] == s[1..][i - 1];
      if s[0].score > rest then s[0].score else rest
  }

  lemma {:induction false} TotalBelowCount(s: seq<Attempt>, bound: int)
    requires forall i :: 0 <= i < |s| ==> s[i].score <= bound
    ensures TotalScore(s) <= |s| * bound
  {
    if s != [] {
      TotalBelowCount(s[1..], bound);
    }
  }

  /** `Math.round(a / b)` for a positive `b`: the nearest integer, halves going up. */
  function RoundHalfUp(a: int, b: int): (r: int)
    requires b > 0
    ensures 2 * a - b < 2 * b * r <= 2 * a + b
  {
    (2 * a + b) / (2 * b)
  }

  lemma MulLowerBound(n: int, k: int)
    requires n > 0
    ensures k >= 1 ==> n * k >= n
  {
    if k >= 1 {
      assert n * k == n * (k - 1) + n;
    }
  }

  /** A mean of values bounded by `h`, taken in tenths and rounded half up, is at most `10 * h`. */
  lemma RoundedMeanBound(total: int, n: int, h: int, r: int)
    requires n > 0 && total <= n * h && 2 * n * r <= 20 * total + n
    ensures r <= 10 * h
  {
    var k := r - 10 * h;
    assert n * k == n * r - 10 * (n * h);
    assert 2 * n * r == 2 * (n * r);
    MulLowerBound(n, k);
  }

  /**
   * The figures `getWeeklyStats` reports. `averageScoreTenths` is ten times `averageScore`, which the
   * source rounds to one decimal; the other averages are whole.
   */
  datatype WeeklyStats = WeeklyStats(totalAttempts: int, averageScoreTenths: int, highestScore: int, averageTime: int)

  function GetWeeklyStats(attempts: seq<Attempt>, week: int): (r: WeeklyStats)
    ensures var weekly := InWeek(attempts, week);
            (weekly == [] ==> r == WeeklyStats(0, 0, 0, 0))
            && (weekly != [] ==>
                  r.totalAttempts == |weekly|
                  && 2 * 10 * TotalScore(weekly) - |weekly| < 2 * |weekly| * r.averageScoreTenths
                  && 2 * |weekly| * r.averageScoreTenths <= 2 * 10 * TotalScore(weekly) + |weekly|
                  && (forall i :: 0 <= i < |weekly| ==> weekly[i].score <= r.highestScore)
                  && (exists i :: 0 <= i < |weekly| && weekly[i].score == r.highestScore)
                  && 2 * TotalTime(weekly) - |weekly| < 2 * |weekly| * r.averageTime
                  && 2 * |weekly| * r.averageTime <= 2 * TotalTime(weekly) + |weekly|)
  {
    var weekly := InWeek(attempts, week);
    if weekly == [] then WeeklyStats(0, 0, 0, 0)
    else
      var n := |weekly|;
      WeeklyStats(n, RoundHalfUp(10 * TotalScore(weekly), n), HighestScore(weekly), RoundHalfUp(TotalTime(weekly), n))
  }

  /** The rounded average score never exceeds the highest score. */
  lemma AverageAtMostHighest(attempts: seq<Attempt>, week: int)
    ensures var r := GetWeeklyStats(attempts, week);
            r.averageScoreTenths <= 10 * r.highestScore
  {
    var weekly := InWeek(attempts, week);
    var r := GetWeeklyStats(attempts, week);
    if weekly != [] {
      TotalBelowCount(weekly, r.highestScore);
      RoundedMeanBound(TotalScore(weekly), |weekly|, r.highestScore, r.averageScoreTenths);
    }
  }

  // ---------------------------------------------------------------- best score

  /** `attempts.filter(attempt => attempt.user_id === userId)`. */
  function OfUser(attempts: seq<Attempt>, userId: int): (r: seq<Attempt>)
    ensures forall a :: a in attempts && a.userId == userId <==> a in r
  {
    if attempts == [] then []
    else
      var rest := OfUser(attempts[1..], userId);
      assert attempts == [attempts[0]] + attempts[1..];
      if attempts[0].userId == userId then [attempts[0]] + rest else rest
  }

  /** `getUserBestScore`: null for a user with no attempt, else that user's highest score. */
  function UserBestScore(attempts: seq<Attempt>, userId: int): (r: Option<int>)
    ensures r.None? <==> forall a :: a in attempts ==> a.userId != userId
    ensures r.Some? ==> exists a :: a in attempts && a.userId == userId && a.score == r.value
    ensures r.Some? ==> forall a :: a in attempts && a.userId == userId ==> a.score <= r.value
  {
    var mine := OfUser(attempts, userId);
    if mine == [] then None
    else
      var best := HighestScore(mine);
      assert forall a :: a in mine ==> a.score <= best;
      Some(best)
  }

  /**
   * The ordering example of the leaderboard: 10 points in 200 s comes first, then 8 points in 90 s,
   * then 8 points in 120 s.
   */
  lemma SortExample(a: Attempt, b: Attempt, c: Attempt)
    requires a.score == 8 && a.timeTaken == 120
    requires b.score == 8 && b.timeTaken == 90
    requires c.score == 10 && c.timeTaken == 200
    ensures SortByRank([a, b, c]) == [c, b, a]
  {
    SortPairExample(a, b);
    assert [a, b, c][..2] == [a, b];
    assert InsertRanked(c, [b, a]) == [c, b, a];
  }

  /** Of two attempts with equal score, the faster one comes first. */
  lemma SortPairExample(a: Attempt, b: Attempt)
    requires a.score == b.score && b.timeTaken < a.timeTaken
    ensures SortByRank([a, b]) == [b, a]
  {
    assert [a, b][..1] == [a];
    assert [a][..0] == [];
    assert InsertRanked(b, [a]) == [b, a];
  }

  /** A list whose attempts all belong to the week is its own weekly selection. */
  lemma {:induction false} InWeekOfOneWeek(attempts: seq<Attempt>, week: int)
    requires forall i :: 0 <= i < |attempts| ==> attempts[i].weekNumber == week
    ensures InWeek(attempts, week) == attempts
  {
    if attempts != [] {
      InWeekOfOneWeek(attempts[1..], week);
      assert attempts == [attempts[0]] + attempts[1..];
    }
  }

  /** The same three attempts, all of week 40, make up that week's whole leaderboard in that order. */
  lemma LeaderboardExample(a: Attempt, b: Attempt, c: Attempt)
    requires a.score == 8 && a.timeTaken == 120 && a.weekNumber == 40
    requires b.score == 8 && b.timeTaken == 90 && b.weekNumber == 40
    requires c.score == 10 && c.timeTaken == 200 && c.weekNumber == 40
    ensures WeeklyLeaderboard([a, b, c], 40) == [c, b, a]
  {
    InWeekOfOneWeek([a, b, c], 40);
    SortExample(a, b, c);
  }

  /** In that example the author of the slower 8 points, if nobody else shares the user id, ranks third. */
  lemma RankExample(a: Attempt, b: Attempt, c: Attempt)
    requires a.score == 8 && a.timeTaken == 120 && a.weekNumber == 40
    requires b.score == 8 && b.timeTaken == 90 && b.weekNumber == 40
    requires c.score == 10 && c.timeTaken == 200 && c.weekNumber == 40
    requires b.userId != a.userId && c.userId != a.userId
    ensures UserWeeklyRank([a, b, c], a.userId, 40) == Some(3)
  {
    LeaderboardExample(a, b, c);
    assert FirstOfUser([c, b, a], a.userId) == 2 by {
      assert [c, b, a][1..] == [b, a] && [b, a][1..] == [a];
      assert FirstOfUser([a], a.userId) == 0;
      assert FirstOfUser([b, a], a.userId) == 1;
    }
  }
}
