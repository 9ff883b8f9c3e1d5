/** The stress predictor of the insights page (`ai-stress-predictor.tsx`): the schedule and
    mood history sent to the model, the guards before the call, the normalisation of the model's
    reply, and the schedule-only fallback used when the model fails. The model itself is not
    modelled: its reply is a parameter. */
module Stress {
  import opened Wrappers
  import opened Calendar
  import opened Seqs
  import opened Logs

  datatype ItemKind = Assignment | Exam | Event

  /** A schedule item; `date` is `None` when it does not denote a valid instant. */
  datatype ScheduleItem = ScheduleItem(id: string, title: string, date: Option<int>, kind: ItemKind)

  /** An assignment or exam due at `due` (`{name, dueDate}`), or an event (`{name, date}`). */
  datatype Dated = Dated(name: string, at: int)

  datatype Schedule = Schedule(assignments: seq<Dated>, events: seq<Dated>)

  /** One past low-mood entry: `{date, rating}`. */
  datatype StressPattern = StressPattern(at: int, rating: int)

  datatype Request = Request(schedule: Schedule, pastStressPatterns: seq<StressPattern>)

  /** A displayed prediction. `FromModel` is an element of the model's array, passed through
      as is; the others are built by the client. */
  datatype Prediction =
    | FromModel(raw: string)
    | NothingDetected(at: int)
    | Clustered(day: int, count: nat)
    | Deadline(due: int, name: string)
    | Manageable(at: int)

  /** What `JSON.parse(result.predictedStressPeriods)` produced. */
  datatype Parsed = ParseFailed | NotAnArray | AnArray(items: seq<string>)

  /** The model call: it threw, returned no (or an empty) `predictedStressPeriods`, or returned
      text that parsed as below. */
  datatype Reply = Threw | NoOutput | Output(parsed: Parsed)

  datatype Outcome = SignInRequired | NoScheduleData | Predicted(request: Request, predictions: seq<Prediction>)

  // ---------------------------------------------------------------- the request

  predicate IsDeadlineKind(k: ItemKind) {
    k == Assignment || k == Exam
  }

  /** The items of the given kinds with a valid date, in order, as `{name, date}`. */
  function DatedOf(items: seq<ScheduleItem>, deadlines: bool): (r: seq<Dated>)
    ensures |r| <= |items|
    ensures forall j | 0 <= j < |items| && items[j].date.Some? && IsDeadlineKind(items[j].kind) == deadlines ::
      Dated(items[j].title, items[j].date.value) in r
  {
    if items == [] then []
    else
      var it := items[0];
      var rest := DatedOf(items[1..], deadlines);
      assert forall j | 1 <= j < |items| :: items[j] == items[1..][j - 1];
      (if it.date.Some? && IsDeadlineKind(it.kind) == deadlines then [Dated(it.title, it.date.value)] else []) + rest
  }

  /** Every listed entry comes from an item of the right kind with a valid date. */
  predicate Yields(it: ScheduleItem, deadlines: bool, d: Dated) {
    it.date.Some? && IsDeadlineKind(it.kind) == deadlines && d == Dated(it.title, it.date.value)
  }

  lemma {:induction false} DatedOfSound(items: seq<ScheduleItem>, deadlines: bool)
    ensures forall d | d in DatedOf(items, deadlines) :: exists j | 0 <= j < |items| :: Yields(items[j], deadlines, d)
  {
    if items != [] {
      var it, tail := items[0], items[1..];
      var rest := DatedOf(tail, deadlines);
      DatedOfSound(tail, deadlines);
      var head := if it.date.Some? && IsDeadlineKind(it.kind) == deadlines then [Dated(it.title, it.date.value)] else [];
      var r := DatedOf(items, deadlines);
      assert r == head + rest;
      forall d | d in r
        ensures exists j | 0 <= j < |items| :: Yields(items[j], deadlines, d)
      {
        if d in head {
          assert Yields(items[0], deadlines, d);
        } else {
          assert d in rest;
          var j :| 0 <= j < |tail| && Yields(tail[j], deadlines, d);
          assert items[j + 1] == tail[j];
        }
      }
    }
  }

  /** An item the list for `deadlines` keeps. The source filters by kind, maps an invalid date
      to `null` and drops the nulls; together these keep the items of the kind with a valid date. */
  predicate Selected(it: ScheduleItem, deadlines: bool) {
    it.date.Some? && IsDeadlineKind(it.kind) == deadlines
  }

  /** The `map` to `{name, date}` over items that all carry a valid date. */
  function DatedEntries(xs: seq<ScheduleItem>): (r: seq<Dated>)
    requires forall i | 0 <= i < |xs| :: xs[i].date.Some?
    ensures |r| == |xs| && forall i | 0 <= i < |xs| :: r[i] == Dated(xs[i].title, xs[i].date.value)
  {
    seq(|xs|, i requires 0 <= i < |xs| => Dated(xs[i].title, xs[i].date.value))
  }

  lemma DatedEntriesAppend(a: seq<ScheduleItem>, b: seq<ScheduleItem>)
    requires forall i | 0 <= i < |a| :: a[i].date.Some?
    requires forall i | 0 <= i < |b| :: b[i].date.Some?
    ensures forall i | 0 <= i < |a + b| :: (a + b)[i].date.Some?
    ensures DatedEntries(a + b) == DatedEntries(a) + DatedEntries(b)
  {
    assert forall i | 0 <= i < |a + b| :: (a + b)[i] == if i < |a| then a[i] else b[i - |a|];
    var l, r := DatedEntries(a + b), DatedEntries(a) + DatedEntries(b);
    forall i | 0 <= i < |l|
      ensures l[i] == r[i]
    {
      if i < |a| {
        assert (a + b)[i] == a[i];
      } else {
        assert (a + b)[i] == b[i - |a|];
      }
    }
  }

  /** The one-pass selection is the source's filter followed by its map: one entry per kept
      item, in item order. */
  lemma {:induction false} DatedOfIsFilterMap(items: seq<ScheduleItem>, deadlines: bool)
    ensures DatedOf(items, deadlines) == DatedEntries(Filter(items, (it: ScheduleItem) => Selected(it, deadlines)))
  {
    if items != [] {
      var tail := items[1..];
      var p := (it: ScheduleItem) => Selected(it, deadlines);
      DatedOfIsFilterMap(tail, deadlines);
      var it := items[0];
      var head := if p(it) then [it] else [];
      var headD := if p(it) then [Dated(it.title, it.date.value)] else [];
      assert DatedOf(items, deadlines) == headD + DatedOf(tail, deadlines);
      assert DatedEntries(head) == headD;
      FilterCons(items, p);
      DatedEntriesAppend(head, Filter(tail, p));
    }
  }

  /** `schedule` (lines 38-63): the assignments and exams with a valid date, then the events with
      a valid date, each list in item order; a collection that is not loaded gives two empty lists. */
  function ScheduleOf(items: Option<seq<ScheduleItem>>): (s: Schedule)
    ensures items.None? ==> s == Schedule([], [])
    ensures items.Some? ==> s == Schedule(DatedOf(items.value, true), DatedOf(items.value, false))
    ensures items.Some? ==>
      s.assignments == DatedEntries(Filter(items.value, (it: ScheduleItem) => Selected(it, true))) &&
      s.events == DatedEntries(Filter(items.value, (it: ScheduleItem) => Selected(it, false)))
  {
    if items.None? then Schedule([], [])
    else
      DatedOfIsFilterMap(items.value, true);
      DatedOfIsFilterMap(items.value, false);
      Schedule(DatedOf(items.value, true), DatedOf(items.value, false))
  }

  /** Assignments and events split the validly dated items between them. */
  lemma {:induction false} ScheduleSplitsItems(items: seq<ScheduleItem>)
    ensures |DatedOf(items, true)| + |DatedOf(items, false)| == |ValidlyDated(items)|
  {
    if items != [] {
      ScheduleSplitsItems(items[1..]);
    }
  }

  function ValidlyDated(items: seq<ScheduleItem>): seq<ScheduleItem> {
    if items == [] then [] else (if items[0].date.Some? then [items[0]] else []) + ValidlyDated(items[1..])
  }

  /** The pattern sent for one mood log, dated by its timestamp or, without one, by `now`. */
  function PatternOf(l: MoodLog, now: int): StressPattern {
    StressPattern(l.timestamp.GetOr(now), l.rating)
  }

  predicate IsLow(l: MoodLog) {
    l.rating <= 4
  }

  /** `p` is the pattern of some low log. */
  ghost predicate FromLowLog(p: StressPattern, logs: seq<MoodLog>, now: int) {
    exists j | 0 <= j < |logs| :: IsLow(logs[j]) && p == PatternOf(logs[j], now)
  }

  /** `moodLogs.filter(log => log.rating <= 4).map(...)`: a pattern for every log rated 4 or
      lower, and nothing else. */
  function LowMoods(logs: seq<MoodLog>, now: int): (r: seq<StressPattern>)
    ensures |r| <= |logs|
    ensures forall i | 0 <= i < |r| :: r[i].rating <= 4
    ensures forall j | 0 <= j < |logs| && IsLow(logs[j]) :: PatternOf(logs[j], now) in r
    ensures forall i | 0 <= i < |r| :: FromLowLog(r[i], logs, now)
  {
    if logs == [] then []
    else
      var l := logs[0];
      var rest := LowMoods(logs[1..], now);
      assert forall j | 1 <= j < |logs| :: logs[j] == logs[1..][j - 1];
      (if IsLow(l) then [PatternOf(l, now)] else []) + rest
  }

  function Patterns(logs: seq<MoodLog>, now: int): (r: seq<StressPattern>)
    ensures |r| == |logs| && forall i | 0 <= i < |logs| :: r[i] == PatternOf(logs[i], now)
  {
    seq(|logs|, i requires 0 <= i < |logs| => PatternOf(logs[i], now))
  }

  /** The one-pass selection is the source's filter followed by its map, so the patterns come
      in log order. */
  lemma {:induction false} LowMoodsIsFilterMap(logs: seq<MoodLog>, now: int)
    ensures LowMoods(logs, now) == Patterns(Filter(logs, IsLow), now)
  {
    if logs != [] {
      var tail := logs[1..];
      LowMoodsIsFilterMap(tail, now);
      var head := if IsLow(logs[0]) then [logs[0]] else [];
      var headP := if IsLow(logs[0]) then [PatternOf(logs[0], now)] else [];
      assert LowMoods(logs, now) == headP + LowMoods(tail, now);
      assert Patterns(head, now) == headP;
      FilterCons(logs, IsLow);
      PatternsAppend(head, Filter(tail, IsLow), now);
    }
  }

  lemma PatternsAppend(a: seq<MoodLog>, b: seq<MoodLog>, now: int)
    ensures Patterns(a + b, now) == Patterns(a, now) + Patterns(b, now)
  {
    var l, r := Patterns(a + b, now), Patterns(a, now) + Patterns(b, now);
    forall i | 0 <= i < |l|
      ensures l[i] == r[i]
    {
      if i < |a| {
        assert (a + b)[i] == a[i];
      } else {
        assert (a + b)[i] == b[i - |a|];
      }
    }
  }

  /** `pastStressPatterns` (lines 65-73): the first ten mood logs rated 4 or lower, dated by their
      timestamp or, without one, by `now`. */
  function PastStressPatterns(logs: Option<seq<MoodLog>>, now: int): (r: seq<StressPattern>)
    ensures |r| <= 10
    ensures forall i | 0 <= i < |r| :: r[i].rating <= 4
    ensures logs.None? ==> r == []
    ensures logs.Some? ==>
      |r| == (if |LowMoods(logs.value, now)| < 10 then |LowMoods(logs.value, now)| else 10)
      && r == LowMoods(logs.value, now)[..|r|]
    ensures logs.Some? ==> forall i | 0 <= i < |r| :: FromLowLog(r[i], logs.value, now)
    ensures logs.Some? && |LowMoods(logs.value, now)| <= 10 ==>
      forall j | 0 <= j < |logs.value| && IsLow(logs.value[j]) :: PatternOf(logs.value[j], now) in r
  {
    if logs.None? then []
    else
      var low := LowMoods(logs.value, now);
      var ps := Take(low, 10);
      LowPrefixFromLogs(logs.value, now, ps);
      ps
  }

  lemma LowPrefixFromLogs(logs: seq<MoodLog>, now: int, r: seq<StressPattern>)
    requires |r| <= |LowMoods(logs, now)| && r == LowMoods(logs, now)[..|r|]
    ensures forall i | 0 <= i < |r| :: FromLowLog(r[i], logs, now)
  {
    var low := LowMoods(logs, now);
    forall i | 0 <= i < |r|
      ensures FromLowLog(r[i], logs, now)
    {
      assert r[i] == low[i];
    }
  }

  /** `xs.slice(0, n)`. */
  function Take<T>(xs: seq<T>, n: nat): (r: seq<T>)
    ensures |r| == if |xs| < n then |xs| else n
    ensures r == xs[..|r|]
  {
    if |xs| <= n then xs else xs[..n]
  }

  /** Patterns of a longer log list start with those of its prefix. */
  lemma {:induction false} LowMoodsAppend(a: seq<MoodLog>, b: seq<MoodLog>, now: int)
    ensures LowMoods(a + b, now) == LowMoods(a, now) + LowMoods(b, now)
  {
    if a == [] {
      assert a + b == b;
    } else {
      assert (a + b)[1..] == a[1..] + b;
      LowMoodsAppend(a[1..], b, now);
    }
  }

  // ---------------------------------------------------------------- the fallback

  function DueDays(assignments: seq<Dated>): (ds: seq<int>)
    ensures |ds| == |assignments| && forall i | 0 <= i < |ds| :: ds[i] == DayOf(assignments[i].at)
  {
    seq(|assignments|, i requires 0 <= i < |assignments| => DayOf(assignments[i].at))
  }

  /** The `dateMap` loop (lines 136-143) over the days in `keys`. */
  function ClusterEntries(keys: seq<int>, days: seq<int>): (r: seq<Prediction>)
    ensures |r| <= |keys|
    ensures forall i | 0 <= i < |r| ::
      (r[i].Clustered? && r[i].day in keys && r[i].count == Count(days, r[i].day) && r[i].count > 1)
    ensures forall i | 0 <= i < |keys| && Count(days, keys[i]) > 1 :: Clustered(keys[i], Count(days, keys[i])) in r
  {
    if keys == [] then []
    else
      var rest := ClusterEntries(keys[1..], days);
      assert forall i | 1 <= i < |keys| :: keys[i] == keys[1..][i - 1];
      var c := Count(days, keys[0]);
      (if c > 1 then [Clustered(keys[0], c)] else []) + rest
  }

  /** Lines 130-143: one entry per day with more than one assignment or exam due, in order of
      the first item due that day. */
  function Clusters(assignments: seq<Dated>): seq<Prediction> {
    var days := DueDays(assignments);
    ClusterEntries(Dedupe(days), days)
  }

  ghost predicate DistinctDays(ps: seq<Prediction>)
    requires forall i | 0 <= i < |ps| :: ps[i].Clustered?
  {
    forall i, j | 0 <= i < j < |ps| :: ps[i].day != ps[j].day
  }

  /** Each entry's day carries at least two items; every such day appears once. */
  lemma ClustersSpec(assignments: seq<Dated>)
    ensures forall i | 0 <= i < |Clusters(assignments)| ::
      (Clusters(assignments)[i].Clustered?
       && Clusters(assignments)[i].count == Count(DueDays(assignments), Clusters(assignments)[i].day) > 1)
    ensures DistinctDays(Clusters(assignments))
    ensures forall d | Count(DueDays(assignments), d) > 1 :: Clustered(d, Count(DueDays(assignments), d)) in Clusters(assignments)
  {
    var days := DueDays(assignments);
    var keys := Dedupe(days);
    ClusterEntriesDistinct(keys, days);
    forall d | Count(days, d) > 1
      ensures Clustered(d, Count(days, d)) in Clusters(assignments)
    {
      var j :| 0 <= j < |days| && days[j] == d;
      assert days[j] in keys;
      var i :| 0 <= i < |keys| && keys[i] == d;
      assert Count(days, keys[i]) > 1;
    }
  }

  /** Clustering entries come in the order of their days' first due item, which is the
      insertion order of `dateMap` and so decides which entries `slice(0, 3)` keeps. */
  lemma ClustersOrder(assignments: seq<Dated>)
    ensures forall i | 0 <= i < |Clusters(assignments)| :: Clusters(assignments)[i].day in DueDays(assignments)
    ensures forall i, j | 0 <= i < j < |Clusters(assignments)| ::
      FirstIndex(DueDays(assignments), Clusters(assignments)[i].day)
      < FirstIndex(DueDays(assignments), Clusters(assignments)[j].day)
  {
    var days := DueDays(assignments);
    var keys := Dedupe(days);
    var c := Clusters(assignments);
    DedupeOrder(days);
    var idx := ClusterEntriesPick(keys, days);
    forall i, j | 0 <= i < j < |c|
      ensures FirstIndex(days, c[i].day) < FirstIndex(days, c[j].day)
    {
      assert c[i].day == keys[idx[i]] && c[j].day == keys[idx[j]];
    }
  }

  /** The entries' days are a subsequence of the keys: `idx` picks them out, in increasing
      positions. */
  lemma {:induction false} ClusterEntriesPick(keys: seq<int>, days: seq<int>) returns (idx: seq<nat>)
    ensures |idx| == |ClusterEntries(keys, days)|
    ensures forall k | 0 <= k < |idx| :: idx[k] < |keys| && ClusterEntries(keys, days)[k].day == keys[idx[k]]
    ensures forall k, l | 0 <= k < l < |idx| :: idx[k] < idx[l]
  {
    if keys == [] {
      idx := [];
    } else {
      var idx0 := ClusterEntriesPick(keys[1..], days);
      ClusterEntriesCons(keys, days);
      idx := PickCons(keys, ClusterHead(keys, days), ClusterEntries(keys[1..], days), idx0);
    }
  }

  /** One step of the pick: a head entry for `keys[0]`, if any, then the tail's entries. */
  lemma PickCons(keys: seq<int>, head: seq<Prediction>, rest: seq<Prediction>, idx0: seq<nat>) returns (idx: seq<nat>)
    requires keys != []
    requires |head| <= 1 && forall k | 0 <= k < |head| :: head[k].Clustered? && head[k].day == keys[0]
    requires forall k | 0 <= k < |rest| :: rest[k].Clustered?
    requires |idx0| == |rest|
    requires forall k | 0 <= k < |idx0| :: idx0[k] < |keys[1..]| && rest[k].day == keys[1..][idx0[k]]
    requires forall k, l | 0 <= k < l < |idx0| :: idx0[k] < idx0[l]
    ensures |idx| == |head + rest|
    ensures forall k | 0 <= k < |idx| :: idx[k] < |keys| && (head + rest)[k].Clustered? && (head + rest)[k].day == keys[idx[k]]
    ensures forall k, l | 0 <= k < l < |idx| :: idx[k] < idx[l]
  {
    var pre: seq<nat> := if head == [] then [] else [0];
    idx := pre + Shift(idx0);
    ShiftIncreasing(pre, idx0);
    var r := head + rest;
    forall k | 0 <= k < |idx|
      ensures idx[k] < |keys| && r[k].Clustered? && r[k].day == keys[idx[k]]
    {
      if k >= |pre| {
        var m := k - |pre|;
        assert r[k] == rest[m];
        assert keys[1..][idx0[m]] == keys[idx0[m] + 1];
      } else {
        assert r[k] == head[0];
      }
    }
  }

  function Shift(idx: seq<nat>): (r: seq<nat>)
    ensures |r| == |idx| && forall k | 0 <= k < |idx| :: r[k] == idx[k] + 1
  {
    seq(|idx|, k requires 0 <= k < |idx| => idx[k] + 1)
  }

  lemma ShiftIncreasing(pre: seq<nat>, idx: seq<nat>)
    requires pre == [] || pre == [0]
    requires forall k, l | 0 <= k < l < |idx| :: idx[k] < idx[l]
    ensures forall k | |pre| <= k < |pre + Shift(idx)| :: (pre + Shift(idx))[k] == idx[k - |pre|] + 1
    ensures forall k, l | 0 <= k < l < |pre + Shift(idx)| :: (pre + Shift(idx))[k] < (pre + Shift(idx))[l]
  {
    var s := pre + Shift(idx);
    forall k | |pre| <= k < |s|
      ensures s[k] == idx[k - |pre|] + 1
    {
    }
    forall k, l | 0 <= k < l < |s|
      ensures s[k] < s[l]
    {
      if k < |pre| {
        assert s[k] == 0;
      }
    }
  }

  function ClusterHead(keys: seq<int>, days: seq<int>): (h: seq<Prediction>)
    requires keys != []
    ensures |h| <= 1 && forall k | 0 <= k < |h| :: h[k].Clustered? && h[k].day == keys[0]
  {
    if Count(days, keys[0]) > 1 then [Clustered(keys[0], Count(days, keys[0]))] else []
  }

  lemma ClusterEntriesCons(keys: seq<int>, days: seq<int>)
    requires keys != []
    ensures ClusterEntries(keys, days) == ClusterHead(keys, days) + ClusterEntries(keys[1..], days)
  {
  }

  lemma {:induction false} ClusterEntriesDistinct(keys: seq<int>, days: seq<int>)
    requires NoDuplicates(keys)
    ensures DistinctDays(ClusterEntries(keys, days))
  {
    if keys != [] {
      NoDuplicatesTail(keys);
      NoDuplicatesHead(keys);
      ClusterEntriesDistinct(keys[1..], days);
      var rest := ClusterEntries(keys[1..], days);
      forall i | 0 <= i < |rest|
        ensures rest[i].day != keys[0]
      {
        assert rest[i].day in keys[1..];
      }
      var c := Count(days, keys[0]);
      if c > 1 {
        DistinctCons(Clustered(keys[0], c), rest);
      }
    }
  }

  lemma DistinctCons(p: Prediction, rest: seq<Prediction>)
    requires p.Clustered? && forall i | 0 <= i < |rest| :: rest[i].Clustered?
    requires DistinctDays(rest)
    requires forall i | 0 <= i < |rest| :: rest[i].day != p.day
    ensures forall i | 0 <= i < |[p] + rest| :: ([p] + rest)[i].Clustered?
    ensures DistinctDays([p] + rest)
  {
    var r := [p] + rest;
    forall i, j | 0 <= i < j < |r|
      ensures r[i].day != r[j].day
    {
      assert r[j] == rest[j - 1];
      if i > 0 {
        assert r[i] == rest[i - 1];
      }
    }
  }

  /** `dueDate > now && dueDate <= nextWeek` (lines 150-151). */
  predicate InWindow(a: Dated, now: int) {
    now < a.at <= now + 7 * MS_PER_DAY
  }

  function DeadlineOf(a: Dated): Prediction {
    Deadline(a.at, a.name)
  }

  /** `p` is the entry of some assignment in the window. */
  ghost predicate FromInWindow(p: Prediction, assignments: seq<Dated>, now: int) {
    exists j | 0 <= j < |assignments| :: InWindow(assignments[j], now) && p == DeadlineOf(assignments[j])
  }

  /** Lines 146-157: one entry per assignment due after `now` and at most seven days later. */
  function Deadlines(assignments: seq<Dated>, now: int): (r: seq<Prediction>)
    ensures |r| <= |assignments|
    ensures forall i | 0 <= i < |r| :: r[i].Deadline? && now < r[i].due <= now + 7 * MS_PER_DAY
    ensures forall j | 0 <= j < |assignments| && InWindow(assignments[j], now) :: DeadlineOf(assignments[j]) in r
    ensures forall i | 0 <= i < |r| :: FromInWindow(r[i], assignments, now)
  {
    if assignments == [] then []
    else
      var a := assignments[0];
      var rest := Deadlines(assignments[1..], now);
      assert forall j | 1 <= j < |assignments| :: assignments[j] == assignments[1..][j - 1];
      (if InWindow(a, now) then [DeadlineOf(a)] else []) + rest
  }

  /** The assignments the deadline check keeps, as a plain filter. */
  function DueWithinWeek(assignments: seq<Dated>, now: int): seq<Dated> {
    Filter(assignments, (a: Dated) => InWindow(a, now))
  }

  function DeadlineEntries(due: seq<Dated>): (r: seq<Prediction>)
    ensures |r| == |due| && forall i | 0 <= i < |due| :: r[i] == DeadlineOf(due[i])
  {
    seq(|due|, i requires 0 <= i < |due| => DeadlineOf(due[i]))
  }

  lemma DeadlineEntriesAppend(a: seq<Dated>, b: seq<Dated>)
    ensures DeadlineEntries(a + b) == DeadlineEntries(a) + DeadlineEntries(b)
  {
    var l, r := DeadlineEntries(a + b), DeadlineEntries(a) + DeadlineEntries(b);
    forall i | 0 <= i < |l|
      ensures l[i] == r[i]
    {
      if i < |a| {
        assert (a + b)[i] == a[i];
      } else {
        assert (a + b)[i] == b[i - |a|];
      }
    }
  }

  /** The deadline entries are those of the assignments in the window, one each, in order; so
      there are exactly as many as there are such assignments. */
  lemma {:induction false} DeadlinesIsFilterMap(assignments: seq<Dated>, now: int)
    ensures Deadlines(assignments, now) == DeadlineEntries(DueWithinWeek(assignments, now))
    ensures |Deadlines(assignments, now)| == |DueWithinWeek(assignments, now)|
  {
    if assignments != [] {
      var tail := assignments[1..];
      DeadlinesIsFilterMap(tail, now);
      var a := assignments[0];
      var head := if InWindow(a, now) then [a] else [];
      var headE := if InWindow(a, now) then [DeadlineOf(a)] else [];
      assert Deadlines(assignments, now) == headE + Deadlines(tail, now);
      assert DeadlineEntries(head) == headE;
      FilterCons(assignments, (a: Dated) => InWindow(a, now));
      assert DueWithinWeek(assignments, now) == head + DueWithinWeek(tail, now);
      DeadlineEntriesAppend(head, DueWithinWeek(tail, now));
    }
  }

  /** The fallback (lines 126-166): clustering entries, then deadlines, or else one "manageable"
      entry; at most three are kept. */
  function Fallback(assignments: seq<Dated>, now: int): (r: seq<Prediction>)
    ensures 1 <= |r| <= 3
    ensures DeadlinesLast(r)
    ensures r == [Manageable(now)] <==> Clusters(assignments) == [] && Deadlines(assignments, now) == []
    ensures forall i | 0 <= i < |r| :: r[i].Clustered? || r[i].Deadline? || r[i].Manageable?
    ensures Clusters(assignments) + Deadlines(assignments, now) != [] ==>
      |r| == (if |Clusters(assignments) + Deadlines(assignments, now)| < 3 then |Clusters(assignments) + Deadlines(assignments, now)| else 3)
      && forall i | 0 <= i < |r| :: r[i] == (Clusters(assignments) + Deadlines(assignments, now))[i]
  {
    var found := Clusters(assignments) + Deadlines(assignments, now);
    FoundKinds(assignments, now);
    var all := if found == [] then [Manageable(now)] else found;
    TakeKeepsOrder(all, 3);
    Take(all, 3)
  }

  ghost predicate DeadlinesLast(ps: seq<Prediction>) {
    forall i, j | 0 <= i < j < |ps| :: ps[i].Deadline? ==> ps[j].Deadline?
  }

  lemma TakeKeepsOrder(ps: seq<Prediction>, n: nat)
    requires n > 0 && ps != []
    requires DeadlinesLast(ps)
    requires forall i | 0 <= i < |ps| :: ps[i].Clustered? || ps[i].Deadline? || ps[i].Manageable?
    ensures Take(ps, n) != [] && Take(ps, n)[0] == ps[0] && DeadlinesLast(Take(ps, n))
    ensures forall i | 0 <= i < |Take(ps, n)| ::
      (Take(ps, n)[i].Clustered? || Take(ps, n)[i].Deadline? || Take(ps, n)[i].Manageable?)
  {
  }

  lemma FoundKinds(assignments: seq<Dated>, now: int)
    ensures var f := Clusters(assignments) + Deadlines(assignments, now);
      forall i | 0 <= i < |f| :: f[i].Clustered? || f[i].Deadline?
    ensures DeadlinesLast(Clusters(assignments) + Deadlines(assignments, now))
  {
    ClustersSpec(assignments);
  }

  /** With at most three crowded days, every crowded day is reported. */
  lemma FallbackShowsClusters(assignments: seq<Dated>, now: int, d: int)
    requires |Clusters(assignments)| <= 3
    requires Count(DueDays(assignments), d) > 1
    ensures Clustered(d, Count(DueDays(assignments), d)) in Fallback(assignments, now)
  {
    ClustersSpec(assignments);
    var c := Clusters(assignments);
    var found := c + Deadlines(assignments, now);
    var k :| 0 <= k < |c| && c[k] == Clustered(d, Count(DueDays(assignments), d));
    assert found[k] == c[k];
    assert Fallback(assignments, now)[k] == found[k];
  }

  /** When clusters and deadlines together fit in three entries, every assignment due within
      the week is reported. */
  lemma FallbackShowsDeadlines(assignments: seq<Dated>, now: int, j: int)
    requires |Clusters(assignments)| + |Deadlines(assignments, now)| <= 3
    requires 0 <= j < |assignments| && InWindow(assignments[j], now)
    ensures DeadlineOf(assignments[j]) in Fallback(assignments, now)
  {
    var c, dl := Clusters(assignments), Deadlines(assignments, now);
    var r := Fallback(assignments, now);
    assert DeadlineOf(assignments[j]) in dl;
    ShownWhenAllFit(c, dl, r, DeadlineOf(assignments[j]));
  }

  lemma ShownWhenAllFit(c: seq<Prediction>, dl: seq<Prediction>, r: seq<Prediction>, x: Prediction)
    requires x in dl
    requires |r| == |c + dl| && forall i | 0 <= i < |r| :: r[i] == (c + dl)[i]
    ensures x in r
  {
    var k :| 0 <= k < |dl| && dl[k] == x;
    assert r[|c| + k] == (c + dl)[|c| + k] == x;
  }

  /** Lines 112-122: an empty or non-array reply becomes a single "nothing detected" entry; an
      array is shown as it is. */
  function Normalize(items: Parsed, now: int): (r: seq<Prediction>)
    requires !items.ParseFailed?
    ensures items.NotAnArray? || items.items == [] ==> r == [NothingDetected(now)]
    ensures items.AnArray? && items.items != [] ==>
      |r| == |items.items| && forall i | 0 <= i < |r| :: r[i] == FromModel(items.items[i])
  {
    if items.NotAnArray? || items.items == [] then [NothingDetected(now)]
    else seq(|items.items|, i requires 0 <= i < |items.items| => FromModel(items.items[i]))
  }

  /** `handleGenerate` (lines 75-175). Without a user or without schedule items nothing is
      requested and the shown predictions stay as they were. Otherwise the model is asked with
      the schedule and past patterns; a thrown call, a missing output or unparsable output leads
      to the fallback. */
  function Generate(uid: Option<string>, items: Option<seq<ScheduleItem>>, moodLogs: Option<seq<MoodLog>>,
                    reply: Reply, now: int): (o: Outcome)
    ensures o.SignInRequired? <==> uid.None?
    ensures o.NoScheduleData? <==> uid.Some? && (items.None? || items.value == [])
    ensures o.Predicted? ==>
      (o.request == Request(ScheduleOf(items), PastStressPatterns(moodLogs, now)) && o.predictions != [])
    ensures o.Predicted? && (reply.Threw? || reply.NoOutput? || reply.parsed.ParseFailed?) ==>
      o.predictions == Fallback(ScheduleOf(items).assignments, now)
    ensures o.Predicted? && reply.Output? && !reply.parsed.ParseFailed? ==>
      o.predictions == Normalize(reply.parsed, now)
  {
    if uid.None? then SignInRequired
    else if items.None? || items.value == [] then NoScheduleData
    else
      var request := Request(ScheduleOf(items), PastStressPatterns(moodLogs, now));
      var predictions :=
        if reply.Threw? || reply.NoOutput? || reply.parsed.ParseFailed? then Fallback(request.schedule.assignments, now)
        else Normalize(reply.parsed, now);
      Predicted(request, predictions)
  }

  /** An empty array or a non-array reply shows the single "nothing detected" entry, dated now. */
  lemma GenerateNothingDetected(uid: string, items: seq<ScheduleItem>, moodLogs: Option<seq<MoodLog>>, parsed: Parsed, now: int)
    requires items != []
    requires parsed.NotAnArray? || parsed == AnArray([])
    ensures Generate(Some(uid), Some(items), moodLogs, Output(parsed), now).predictions == [NothingDetected(now)]
  {
  }

  /** Two exams on one day and a deadline tomorrow: the fallback reports the cluster first. */
  lemma FallbackExample()
    ensures var now := 10 * MS_PER_DAY;
      var a := [Dated("essay", now + 3 * MS_PER_DAY), Dated("exam", now + 3 * MS_PER_DAY + 60000)];
      Fallback(a, now) == [Clustered(13, 2), Deadline(now + 3 * MS_PER_DAY, "essay"), Deadline(now + 3 * MS_PER_DAY + 60000, "exam")]
  {
    var now := 10 * MS_PER_DAY;
    var a := [Dated("essay", now + 3 * MS_PER_DAY), Dated("exam", now + 3 * MS_PER_DAY + 60000)];
    ExampleClusters(a);
    ExampleDeadlines(a, now);
    var found := Clusters(a) + Deadlines(a, now);
    assert found == [Clustered(13, 2), Deadline(a[0].at, "essay"), Deadline(a[1].at, "exam")];
    assert Take(found, 3) == found;
  }

  lemma ExampleClusters(a: seq<Dated>)
    requires a == [Dated("essay", 13 * MS_PER_DAY), Dated("exam", 13 * MS_PER_DAY + 60000)]
    ensures Clusters(a) == [Clustered(13, 2)]
  {
    var days := DueDays(a);
    DayOfUnique(a[0].at, 13);
    DayOfUnique(a[1].at, 13);
    assert days == [13, 13];
    assert days[..1] == [13];
    assert Dedupe(days) == [13];
    assert Count(days, 13) == 2;
  }

  lemma ExampleDeadlines(a: seq<Dated>, now: int)
    requires now == 10 * MS_PER_DAY
    requires a == [Dated("essay", 13 * MS_PER_DAY), Dated("exam", 13 * MS_PER_DAY + 60000)]
    ensures Deadlines(a, now) == [Deadline(a[0].at, "essay"), Deadline(a[1].at, "exam")]
  {
    assert a[1..][1..] == [];
  }
}
