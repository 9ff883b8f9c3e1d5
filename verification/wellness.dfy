/** The wellness score of the dashboard's quick stats (`quick-stats.tsx` lines 71-89): a baseline
    of 50, moved by four points per point of mean mood above or below 5 over the last week's mood
    check-ins, plus two points per habit completion in the last week, rounded and clamped. */
module Wellness {
  import opened Wrappers
  import opened Numeric
  import opened Calendar
  import opened Seqs
  import opened Logs

  /** `log.timestamp && differenceInDays(new Date(), log.timestamp.toDate()) <= 7`. */
  predicate IsRecent(timestamp: Option<int>, now: int) {
    timestamp.Some? && DifferenceInDays(now, timestamp.value) <= 7
  }

  /** The recency window is every instant less than eight whole days before `now`, future
      instants included. */
  lemma IsRecentIff(timestamp: Option<int>, now: int)
    ensures IsRecent(timestamp, now) <==> timestamp.Some? && now - timestamp.value < 8 * MS_PER_DAY
  {
    if timestamp.Some? {
      WithinAWeekIff(now, timestamp.value);
    }
  }

  /** Line 74: the mood logs of the last week. */
  function RecentMoodLogs(logs: seq<MoodLog>, now: int): (r: seq<MoodLog>)
    ensures forall i | 0 <= i < |r| :: IsRecent(r[i].timestamp, now) && r[i] in logs
    ensures forall j | 0 <= j < |logs| && IsRecent(logs[j].timestamp, now) :: logs[j] in r
    ensures forall l: MoodLog :: multiset(r)[l] == if IsRecent(l.timestamp, now) then multiset(logs)[l] else 0
  {
    FilterCounts(logs, (l: MoodLog) => IsRecent(l.timestamp, now));
    Filter(logs, (l: MoodLog) => IsRecent(l.timestamp, now))
  }

  /** Line 81: the habit logs of the last week. */
  function RecentHabitLogs(logs: seq<HabitLog>, now: int): (r: seq<HabitLog>)
    ensures forall i | 0 <= i < |r| :: IsRecent(r[i].timestamp, now) && r[i] in logs
    ensures forall j | 0 <= j < |logs| && IsRecent(logs[j].timestamp, now) :: logs[j] in r
    ensures forall l: HabitLog :: multiset(r)[l] == if IsRecent(l.timestamp, now) then multiset(logs)[l] else 0
  {
    FilterCounts(logs, (l: HabitLog) => IsRecent(l.timestamp, now));
    Filter(logs, (l: HabitLog) => IsRecent(l.timestamp, now))
  }

  /** The unrounded score times k, for k recent ratings summing to `total` and h recent habit
      completions: k * (50 + 4 * (total / k - 5) + 2 * h). */
  function ScaledScore(total: int, k: int, h: int): int {
    30 * k + 4 * total + 2 * h * k
  }

  /** Lines 72-88 once the recent logs are known. */
  function ScoreFrom(ratings: seq<int>, h: nat): (score: int)
    ensures 0 <= score <= 100
  {
    var k := |ratings|;
    var raw := if k > 0 then Round(ScaledScore(Sum(ratings), k, h), k) else 50 + 2 * h;
    Clamp(0, 100, raw)
  }

  /** Lines 42-91: the score from the two collections as loaded (`None` while not loaded). */
  function WellnessScore(moodLogs: Option<seq<MoodLog>>, habitLogs: Option<seq<HabitLog>>, now: int): (score: int)
    ensures 0 <= score <= 100
  {
    var ratings := if moodLogs.Some? then Ratings(RecentMoodLogs(moodLogs.value, now)) else [];
    var h := if habitLogs.Some? then |RecentHabitLogs(habitLogs.value, now)| else 0;
    ScoreFrom(ratings, h)
  }

  /** With nothing logged in the last week the score is the baseline 50. */
  lemma WellnessBaseline(now: int)
    ensures WellnessScore(None, None, now) == 50
    ensures WellnessScore(Some([]), Some([]), now) == 50
  {
  }

  /** Without recent moods, each recent habit completion adds two points, up to 100. */
  lemma ScoreWithoutMoods(h: nat)
    ensures ScoreFrom([], h) == if h >= 25 then 100 else 50 + 2 * h
  {
  }

  /** With recent moods the score is the nearest integer (halves up) to
      50 + 4 * (mean - 5) + 2 * h, pinned to 0 or 100 outside that range. */
  lemma ScoreIsNearestInteger(ratings: seq<int>, h: nat)
    requires |ratings| > 0
    ensures var k, p := |ratings|, ScaledScore(Sum(ratings), |ratings|, h);
      var s := ScoreFrom(ratings, h);
      (0 <= p <= 100 * k ==> 2 * k * s <= 2 * p + k < 2 * k * s + 2 * k)
      && (p < 0 ==> s == 0)
      && (p > 100 * k ==> s == 100)
  {
    var k, p := |ratings|, ScaledScore(Sum(ratings), |ratings|, h);
    assert ScoreFrom(ratings, h) == Clamp(0, 100, Round(p, k));
    if 0 <= p <= 100 * k {
      RoundBetween(p, k, 0, 100);
    } else if p < 0 {
      RoundBelow(p, k, 0);
    } else {
      RoundAbove(p, k, 100);
    }
  }

  /** More habit completions never lower the score. */
  lemma ScoreMonotoneInHabits(ratings: seq<int>, h1: nat, h2: nat)
    requires h1 <= h2
    ensures ScoreFrom(ratings, h1) <= ScoreFrom(ratings, h2)
  {
    var k := |ratings|;
    if k > 0 {
      var p1, p2 := ScaledScore(Sum(ratings), k, h1), ScaledScore(Sum(ratings), k, h2);
      MulMonotone(2 * k, h1, h2);
      assert p1 <= p2;
      MulMonotone(k, p1, p2);
      RoundMonotone(p1, k, p2, k);
    }
  }

  /** A higher mean mood never lowers the score. */
  lemma ScoreMonotoneInMood(a: seq<int>, b: seq<int>, h: nat)
    requires |a| > 0 && |b| > 0
    requires Sum(a) * |b| <= Sum(b) * |a|
    ensures ScoreFrom(a, h) <= ScoreFrom(b, h)
  {
    var c := 30 + 2 * h;
    ScaledScoreShape(Sum(a), |a|, h);
    ScaledScoreShape(Sum(b), |b|, h);
    ShiftedCross(c, |a|, |b|, Sum(a), Sum(b));
    RoundMonotone(ScaledScore(Sum(a), |a|, h), |a|, ScaledScore(Sum(b), |b|, h), |b|);
  }

  lemma ScaledScoreShape(total: int, k: int, h: int)
    ensures ScaledScore(total, k, h) == (30 + 2 * h) * k + 4 * total
  {
  }

  /** Ratings on the 1..10 scale keep the score between 34 and 70 before habit points. */
  lemma ScoreRange(ratings: seq<int>, h: nat)
    requires |ratings| > 0
    requires forall i | 0 <= i < |ratings| :: 1 <= ratings[i] <= 10
    ensures Clamp(0, 100, 34 + 2 * h) <= ScoreFrom(ratings, h) <= Clamp(0, 100, 70 + 2 * h)
  {
    var k := |ratings|;
    SumBetween(ratings, 1, 10);
    var p := ScaledScore(Sum(ratings), k, h);
    assert (34 + 2 * h) * k <= p <= (70 + 2 * h) * k;
    RoundBetween(p, k, 34 + 2 * h, 70 + 2 * h);
  }

  /** A mean mood of exactly 5 leaves the score where the habits alone put it. */
  lemma NeutralMoodIsBaseline(ratings: seq<int>, h: nat)
    requires forall i | 0 <= i < |ratings| :: ratings[i] == 5
    ensures ScoreFrom(ratings, h) == ScoreFrom([], h)
  {
    var k := |ratings|;
    if k > 0 {
      SumBetween(ratings, 5, 5);
      assert ScaledScore(Sum(ratings), k, h) == (50 + 2 * h) * k;
      RoundExact(50 + 2 * h, k);
    }
  }

  /** A week of top moods and at least fifteen completions reaches the maximum. */
  lemma TopScore(ratings: seq<int>, h: nat)
    requires |ratings| > 0 && h >= 15
    requires forall i | 0 <= i < |ratings| :: ratings[i] == 10
    ensures ScoreFrom(ratings, h) == 100
  {
    var k := |ratings|;
    SumBetween(ratings, 10, 10);
    assert ScaledScore(Sum(ratings), k, h) == (70 + 2 * h) * k;
    RoundExact(70 + 2 * h, k);
  }
}
