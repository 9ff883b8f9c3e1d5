# WellTrack core in Dafny

WellTrack is a wellness web app (Next.js and React over a hosted document store and a hosted
language model). Almost all of it is I/O and UI. This project models the pure logic inside its
pages and components, and proves what that logic promises. That logic covers:

- the habit streak and completion rate;
- the dashboard's wellness score;
- goal progress and the sub-task edits;
- the grouping of goals by category;
- the data behind the mood charts and the heatmaps;
- the stress predictor's schedule split and fallback heuristic;
- the auth gate, the layout choice and the translation lookup;
- the create and edit dialogs;
- the journal, chat and schedule lists;
- the breathing exercise and the welcome header.

Everything is a total function over immutable datatypes.

- **Time.** The current instant (`now`, in milliseconds) and the hour of day are parameters.
  A calendar day is `floor(t / 86400000)`; the local time zone is taken to be UTC.
- **Effects.** A store write is returned as a value: a record to add, a patch, or an action.
  A failing call is a `fails` flag or a `None` result.
- **Foreign calls.** The language-model flows are function parameters.
- **Arithmetic.** `Math.round` of a quotient is modelled exactly on integers, with halves
  rounding up. A mean is kept as a fraction.

Modules, foundations first:

- `Wrappers` (`Option`);
- `Numeric` (rounding, clamping, sums, fractions);
- `Text` (JavaScript `trim`, blank checks, decimal rendering);
- `Seqs` (filter, first-occurrence de-duplication, counting, stable sort);
- `Calendar` (days, `differenceInDays`, the civil calendar);
- `Logs` (the log records).

Then one module per area of the app: `Streak`, `Wellness`, `Goals`, `GoalDialogs`, `GoalList`,
`Stress`, `Heatmaps`, `MoodCharts`, `Habits`, `Navigation`, `Login`, `Community`, `Journal`,
`Chat`, `Safety`, `Schedule`, `Breathing`, `Welcome`.

## Model

| member | source | states |
|---|---|---|
| Numeric.Round | src/app/goals/page.tsx:18 | `Math.round(p/q)`: the result r satisfies 2qr <= 2p+q < 2qr+2q, so it is the nearest integer with halves going up |
| Numeric.RoundMonotone | src/app/goals/page.tsx:18 | p1/q1 <= p2/q2 implies round(p1/q1) <= round(p2/q2) |
| Numeric.RoundBetween | src/app/goals/page.tsx:18 | a quotient between lo and hi rounds into [lo, hi] |
| Numeric.Clamp | src/components/dashboard/quick-stats.tsx:88 | `Math.max(lo, Math.min(hi, x))` lies in [lo, hi]; it is x when x is inside and the nearer end otherwise |
| Numeric.SumBetween | src/components/dashboard/quick-stats.tsx:76 | n terms in [lo, hi] sum to a value in [lo*n, hi*n] |
| Text.TrimStart | src/components/goals/edit-goal-dialog.tsx:56-59 | drops leading whitespace: the result is a suffix, what was cut is all whitespace, and the result does not start with whitespace |
| Text.TrimEnd | src/components/goals/edit-goal-dialog.tsx:56-59 | drops trailing whitespace: the result is a prefix, what was cut is all whitespace, and the result does not end with whitespace |
| Text.Trim | src/components/goals/edit-goal-dialog.tsx:56-59 | `trim()` is a contiguous slice with only whitespace cut on either side, and whitespace at neither end |
| Text.BlankIffAllSpace | src/components/safety/edit-strategy-dialog.tsx:49 | `!s.trim()` holds exactly when every character is whitespace |
| Text.PaddedStaysNonBlank | src/components/safety/edit-strategy-dialog.tsx:49 | surrounding a non-blank string with anything keeps it non-blank |
| Text.TrimIdempotent | src/components/goals/edit-goal-dialog.tsx:56-59 | trimming twice is trimming once |
| Text.NatToStringInjective | src/components/goals/new-goal-dialog.tsx:73 | different numbers render as different decimal strings |
| Seqs.Filter | src/components/insights/ai-stress-predictor.tsx:69 | every kept element passes and comes from the input (a sub-multiset of it), and every passing element is kept |
| Seqs.FilterCounts | src/components/dashboard/quick-stats.tsx:74 | `filter` keeps each passing element exactly as often as it occurs and drops every other element |
| Seqs.Dedupe | src/app/habits/page.tsx:39 | `[...new Set(xs)]` has no duplicates and the same elements as `xs` |
| Seqs.DedupeOrder | src/app/habits/page.tsx:39 | de-duplication keeps the order of first occurrences |
| Seqs.CountsSumToLength | src/components/habits/habit-heatmap.tsx:31-35 | the per-element counts over the distinct elements add up to the length |
| Seqs.SortBy | src/components/counselor/chat-interface.tsx:79-83 | sorting by a numeric key gives a permutation of the input in ascending key order |
| Seqs.SortStable | src/components/counselor/chat-interface.tsx:79-83 | elements sharing a key keep their input order |
| Seqs.StrictlyDecreasingUnique | src/app/habits/page.tsx:38-39 | two strictly decreasing sequences with the same elements are equal |
| Calendar.DayOf | src/app/habits/page.tsx:39 | `startOfDay` as a day number d, with d*86400000 <= t < (d+1)*86400000 |
| Calendar.DifferenceInDays | src/app/habits/page.tsx:55 | date-fns `differenceInDays`: whole 24-hour periods between two instants, truncated toward zero, for either order of the instants |
| Calendar.YesterdayIff | src/app/habits/page.tsx:47 | `differenceInDays(now, startOfDay(x)) === 1` exactly when x's day is the day before today |
| Calendar.DifferenceBetweenDayStarts | src/app/habits/page.tsx:55 | between two day starts the whole-day difference is the difference of the day numbers |
| Calendar.WithinAWeekIff | src/components/dashboard/quick-stats.tsx:74 | `differenceInDays(now, t) <= 7` exactly when t is less than 8 whole days before now, future instants included |
| Calendar.DaysBefore | src/components/dashboard/weekly-mood-chart.tsx:40 | `subDays(now, i)` falls on the day i days before today |
| Calendar.DaysInMonth | src/components/habits/habit-heatmap.tsx:9 | `endOfMonth` gives a month length between 28 and 31 |
| Calendar.PrevMonth | src/components/habits/habit-heatmap.tsx:18 | `subMonths(date, 1)` is a valid month whose next month is the one it started from |
| Calendar.FirstDayOfNextMonth | src/components/habits/habit-heatmap.tsx:7-15 | the next month starts the day after this month's last day |
| Calendar.NextMonthWeekday | src/components/habits/habit-heatmap.tsx:11 | the next month's first weekday is this month's shifted by its length, mod 7 |
| Calendar.CalendarAnchors | src/components/habits/habit-heatmap.tsx:11 | 1970-01-01 is day 0, a Thursday (`getDay` 4); 2024-01-01 is day 19723, a Monday |
| Logs.Timestamps | src/components/dashboard/quick-stats.tsx:46-48 | every present timestamp is listed, and every listed value is the timestamp of some log |
| Streak.UniqueDays | src/app/habits/page.tsx:38-39 | the distinct days of the logs: strictly newest first, exactly the days some log falls on, never more than the logs, and non-empty for non-empty input |
| Streak.UniqueDaysOrderIndependent | src/app/habits/page.tsx:38 | the distinct days depend only on the multiset of timestamps |
| Streak.HabitsPageStats | src/app/habits/page.tsx:33-72 | the streak never exceeds the number of distinct days, and a non-zero rate comes with a streak of at least 1 |
| Streak.HabitsPageNoLogs | src/app/habits/page.tsx:34-36 | no logs gives streak 0 and rate 0 |
| Streak.HabitsPageDeadStreak | src/app/habits/page.tsx:43-52 | a newest day other than today or yesterday gives streak 0 and rate 0 |
| Streak.HabitsPageLiveStreak | src/app/habits/page.tsx:44-62 | a newest day of today or yesterday gives a streak of at least 1. The count of the backward loop (`CountBack`, lines 54-62) equals the length of the run of consecutive active days ending at the newest, and the day before the run is inactive |
| Streak.HabitsPageRate | src/app/habits/page.tsx:65-71 | with a live streak the rate is round(100 * distinct days / (days from the first active day through today)), and it lies in [0, 100] |
| Streak.HabitsPageOrderIndependent | src/app/habits/page.tsx:38 | streak and rate do not depend on the order of the logs |
| Streak.QuickStatsStreak | src/components/dashboard/quick-stats.tsx:44-69 | the dashboard streak is 0 while the logs are not loaded |
| Streak.QuickStatsMatchesHabitsPage | src/components/dashboard/quick-stats.tsx:45-68 | with no log dated after now, the dashboard streak equals the habits page streak over the timestamped logs |
| Streak.QuickStatsDivergesOnFutureLog | src/components/dashboard/quick-stats.tsx:53-67 | a log dated tomorrow with another dated yesterday: the habits page shows streak 0 and the dashboard shows 1 |
| Wellness.IsRecentIff | src/components/dashboard/quick-stats.tsx:74 | a log is recent exactly when it has a timestamp less than eight whole days before now (future ones included) |
| Wellness.RecentMoodLogs | src/components/dashboard/quick-stats.tsx:74 | every recent mood log is kept as often as it occurs, and no other log is kept |
| Wellness.RecentHabitLogs | src/components/dashboard/quick-stats.tsx:81 | every recent habit log is kept as often as it occurs, and no other log is kept, so the count h is the number of recent logs |
| Wellness.WellnessScore | src/components/dashboard/quick-stats.tsx:42-91 | the score lies in [0, 100] |
| Wellness.WellnessBaseline | src/components/dashboard/quick-stats.tsx:72 | with no logs (missing or empty) the score is 50 |
| Wellness.ScoreWithoutMoods | src/components/dashboard/quick-stats.tsx:80-83 | without recent moods each recent habit log adds 2 points to 50, capped at 100 |
| Wellness.ScoreIsNearestInteger | src/components/dashboard/quick-stats.tsx:73-88 | with recent moods the score is the nearest integer (halves up) to 50 + 4*(mean - 5) + 2*h, clamped to [0, 100] |
| Wellness.ScoreMonotoneInHabits | src/components/dashboard/quick-stats.tsx:82 | more recent habit logs never lower the score |
| Wellness.ScoreMonotoneInMood | src/components/dashboard/quick-stats.tsx:77 | a higher mean recent mood never lowers the score |
| Wellness.ScoreRange | src/components/dashboard/quick-stats.tsx:76-77 | ratings on the 1..10 scale put the score between clamp(34 + 2h) and clamp(70 + 2h) |
| Wellness.NeutralMoodIsBaseline | src/components/dashboard/quick-stats.tsx:77 | a mean mood of exactly 5 scores the same as no moods |
| Wellness.TopScore | src/components/dashboard/quick-stats.tsx:77-88 | mean mood 10 with at least 15 recent habit logs gives exactly 100 |
| Goals.CompletedCount | src/app/goals/page.tsx:18 | the number of done sub-tasks: 0 exactly when none is done and the full length exactly when all are |
| Goals.CalculateProgress | src/app/goals/page.tsx:15-19 | 0 for a missing or empty list; otherwise round(100 * done / total), in [0, 100] |
| Goals.ProgressExtremes | src/app/goals/page.tsx:17-18 | all done gives 100 and none done gives 0. Below 200 sub-tasks, 100 means all done |
| Goals.ProgressRoundsUpToFull | src/app/goals/page.tsx:18 | 199 done out of 200 already shows 100 |
| Goals.ProgressMonotone | src/app/goals/page.tsx:17-18 | for a fixed total, more done sub-tasks never lower progress |
| Goals.WithProgress | src/app/goals/page.tsx:32-37 | every goal, in order, carries the progress of its own sub-tasks |
| Goals.ActiveGoals | src/components/dashboard/active-goals.tsx:35-40 | the first min(3, n) goals in collection order, each with its own progress |
| Goals.ActiveGoalsEmptyState | src/components/dashboard/active-goals.tsx:65 | the card is empty exactly when there are no goals |
| Goals.ToggleById | src/app/goals/page.tsx:63-65 | same length, ids and texts; `completed` flips exactly on the sub-tasks with the id |
| Goals.ToggleTwice | src/app/goals/page.tsx:63-65 | toggling the same id twice restores the list |
| Goals.ToggleUnknownId | src/app/goals/page.tsx:63-65 | toggling an id no sub-task carries changes nothing |
| Goals.ToggleCount | src/app/goals/page.tsx:63-65 | toggling a unique id moves the done count by exactly one |
| Goals.FindGoal | src/app/goals/page.tsx:60 | `find` returns nothing exactly when no goal has the id, and otherwise the first goal that has it |
| Goals.ToggleSubTask | src/app/goals/page.tsx:59-69 | a write exactly when signed in and the goal exists; the write holds that goal's sub-tasks with the one toggled |
| Goals.UpdateGoal | src/app/goals/page.tsx:50-57 | a write exactly when signed in, to the goal's own document; the goal can be rebuilt from the written fields |
| Goals.StripRestore | src/app/goals/page.tsx:52-56 | dropping `id` and `progress` and adding them back is lossless in both directions |
| Goals.OverallProgress | src/app/goals/page.tsx:71-75 | 0 with no goals; otherwise the rounded mean of the progresses, in [0, 100] when they are |
| Goals.OverallProgressBounded | src/app/goals/page.tsx:71-75 | over computed progresses the overall figure lies in [0, 100] |
| GoalDialogs.OpenEditForm | src/components/goals/edit-goal-dialog.tsx:45-53 | opening loads every field from the goal (a missing description as ""), with an empty draft |
| GoalDialogs.AddSubTask | src/components/goals/edit-goal-dialog.tsx:55-65 | a blank draft changes nothing. Otherwise exactly one open sub-task with the trimmed draft is appended, the draft is cleared, and no other field changes |
| GoalDialogs.AddedTextIsTrimmed | src/components/goals/edit-goal-dialog.tsx:59 | the appended text is not blank and has no whitespace at either end |
| GoalDialogs.SubTaskIdInjective | src/components/goals/edit-goal-dialog.tsx:58 | ids made at different instants differ |
| GoalDialogs.DropId | src/components/goals/edit-goal-dialog.tsx:68 | removal keeps exactly the sub-tasks with another id |
| GoalDialogs.DropIdAppend | src/components/goals/edit-goal-dialog.tsx:68 | removal distributes over concatenation, so survivors keep their order |
| GoalDialogs.DropIdIdempotent | src/components/goals/edit-goal-dialog.tsx:68 | removing twice is removing once |
| GoalDialogs.DropIdUnknown | src/components/goals/edit-goal-dialog.tsx:68 | removing an absent id changes nothing |
| GoalDialogs.RemoveSubTask | src/components/goals/edit-goal-dialog.tsx:67-69 | only the sub-task list changes, and it becomes `DropId` of the old list: the sub-tasks with another id, in order, each as often as before |
| GoalDialogs.ToggleInForm | src/components/goals/edit-goal-dialog.tsx:71-73 | only `completed` of the matching sub-tasks changes; length and the other fields stay |
| GoalDialogs.SubmitEdit | src/components/goals/edit-goal-dialog.tsx:76-101 | refused exactly when the title or category is empty; otherwise the goal with only title, category, description and sub-tasks replaced |
| GoalDialogs.OpenThenSubmit | src/components/goals/edit-goal-dialog.tsx:45-101 | saving straight after opening writes the goal back unchanged, apart from a missing description becoming "" |
| GoalDialogs.AddDraft | src/components/goals/new-goal-dialog.tsx:41-46 | a blank draft changes nothing; otherwise the trimmed text is appended and the draft cleared |
| GoalDialogs.RemoveAt | src/components/goals/new-goal-dialog.tsx:48-50 | removes exactly the given position and keeps the rest in order; an index out of range changes nothing |
| GoalDialogs.RemoveDraft | src/components/goals/new-goal-dialog.tsx:48-50 | only the draft list changes, losing exactly that position |
| GoalDialogs.Finalize | src/components/goals/new-goal-dialog.tsx:71-75 | each draft becomes an open sub-task with the same text, in order, with id `subtask-<clock reading>-<index>`, the clock read separately for each sub-task |
| GoalDialogs.FinalIdsDistinct | src/components/goals/new-goal-dialog.tsx:71-75 | the finalised ids of one goal are pairwise distinct whatever each clock reading is, because the index follows the last `-` |
| GoalDialogs.SubmitNew | src/components/goals/new-goal-dialog.tsx:60-86 | refused exactly without a title, a category or a user. Otherwise the goal is owned by the user, with the finalised sub-tasks, the form is reset and the dialog closes. A refused submit keeps the form |
| GoalDialogs.OnOpenChange | src/components/goals/new-goal-dialog.tsx:89-92 | closing resets the form; opening keeps it |
| GoalList.GroupKeys | src/components/goals/goal-list.tsx:25-28 | the groups built by the reduce (`GroupByCategory`) are keyed by the distinct categories, in order of first occurrence |
| GoalList.GroupContents | src/components/goals/goal-list.tsx:25-28 | in `GroupByCategory`, each group holds exactly the goals of its category, in input order |
| GoalList.GroupsNonEmpty | src/components/goals/goal-list.tsx:25-28 | no group is empty |
| GoalList.GroupSizesSum | src/components/goals/goal-list.tsx:25-28 | the group sizes add up to the number of goals |
| GoalList.RenderGoalList | src/components/goals/goal-list.tsx:30-43 | the empty state exactly when there are no goals; otherwise non-empty groups in first-occurrence order |
| Stress.DatedOf | src/components/insights/ai-stress-predictor.tsx:38-63 | every validly dated item of the chosen kinds yields its `{name, date}` entry |
| Stress.DatedOfSound | src/components/insights/ai-stress-predictor.tsx:38-63 | every entry comes from a validly dated item of the chosen kinds |
| Stress.ScheduleOf | src/components/insights/ai-stress-predictor.tsx:38-63 | an unloaded collection gives two empty lists. A loaded one gives the validly dated assignments and exams, then the validly dated events, each list the map of a filter in item order |
| Stress.DatedOfIsFilterMap | src/components/insights/ai-stress-predictor.tsx:38-63 | the one-pass list equals the source's filter by kind and valid date followed by the map to `{name, date}`, which fixes order and multiplicity |
| Stress.ScheduleSplitsItems | src/components/insights/ai-stress-predictor.tsx:38-63 | assignments and events together account for every validly dated item exactly once |
| Stress.LowMoods | src/components/insights/ai-stress-predictor.tsx:66-72 | every log rated 4 or lower gives its pattern (its timestamp, or now without one), and every pattern comes from such a log |
| Stress.LowMoodsIsFilterMap | src/components/insights/ai-stress-predictor.tsx:66-72 | the selection is the filter of the low logs followed by the map to patterns, so patterns come in log order |
| Stress.PastStressPatterns | src/components/insights/ai-stress-predictor.tsx:65-73 | none while unloaded; otherwise the first min(10, number of low logs) patterns in order, each from a low log, and all of them when there are at most ten |
| Stress.LowMoodsAppend | src/components/insights/ai-stress-predictor.tsx:65-73 | the low-mood selection distributes over concatenation, so it keeps log order |
| Stress.ClustersSpec | src/components/insights/ai-stress-predictor.tsx:130-143 | each entry of `Clusters` (the `dateMap` count) is a day with at least two assignments, stating its count; each such day appears exactly once |
| Stress.ClustersOrder | src/components/insights/ai-stress-predictor.tsx:130-143 | the clustering entries come in the order of each day's first due item, the insertion order of `dateMap` |
| Stress.Deadlines | src/components/insights/ai-stress-predictor.tsx:146-157 | every assignment due after now and at most seven days later gives its entry, and every entry comes from such an assignment |
| Stress.DeadlinesIsFilterMap | src/components/insights/ai-stress-predictor.tsx:146-157 | the entries are those of the in-window assignments, one each and in order, so their number is the number of such assignments |
| Stress.Fallback | src/components/insights/ai-stress-predictor.tsx:126-166 | the single "manageable" entry exactly when no cluster or deadline was found; otherwise the first min(3, n) of the n cluster entries followed by the deadline entries |
| Stress.FallbackShowsClusters | src/components/insights/ai-stress-predictor.tsx:136-163 | with at most three crowded days, every day with two or more items due shows its cluster entry |
| Stress.FallbackShowsDeadlines | src/components/insights/ai-stress-predictor.tsx:146-163 | when clusters and deadlines fit in three entries, every assignment due within the week shows its deadline |
| Stress.FallbackExample | src/components/insights/ai-stress-predictor.tsx:126-166 | two exams on one day three days ahead give the cluster entry first, then their deadlines |
| Stress.Normalize | src/components/insights/ai-stress-predictor.tsx:112-122 | an empty or non-array reply becomes one "nothing detected" entry; a non-empty array is shown as is |
| Stress.Generate | src/components/insights/ai-stress-predictor.tsx:75-175 | no user or no schedule items means no request. A missing output, a parse failure or a thrown call falls back to the heuristic; a parsed reply is shown normalised |
| Stress.GenerateNothingDetected | src/components/insights/ai-stress-predictor.tsx:112-119 | an empty array or a non-array reply shows the single "nothing detected" entry dated now |
| Heatmaps.MonthGrid | src/components/habits/habit-heatmap.tsx:7-15 | `getDay(first)` blanks, then the month's days; length = blanks + days in month |
| Heatmaps.GridRowIsWeekday | src/components/habits/habit-heatmap.tsx:7-15 | a day's cell index mod 7 is its weekday |
| Heatmaps.GridCoversMonth | src/components/habits/habit-heatmap.tsx:7-15 | every day of the month appears exactly once, in increasing order |
| Heatmaps.ShownMonths | src/components/habits/habit-heatmap.tsx:17-19 | four consecutive months, oldest first, ending with the current one |
| Heatmaps.DailyCounts | src/components/habits/habit-heatmap.tsx:31-35 | an entry exactly for the days with logs, holding the number of logs that day |
| Heatmaps.CountAtIsCount | src/components/habits/habit-heatmap.tsx:31-35 | a cell shows that day's log count, 0 for a day without logs |
| Heatmaps.DailyCountsSum | src/components/habits/habit-heatmap.tsx:31-35 | the counts add up to the number of logs |
| Heatmaps.HabitHeatmap | src/components/habits/habit-heatmap.tsx:21-35 | nothing exactly while the logs are unloaded; otherwise the per-day counts |
| Heatmaps.CountShade | src/components/habits/habit-heatmap.tsx:59-65 | the shade level is min(count, 5): muted at 0, darker up to 4, full from 5 |
| Heatmaps.FirstOnDay | src/components/mood/mood-heatmap.tsx:42 | the first log dated that day, or none exactly when no log is |
| Heatmaps.FirstOnDayStable | src/components/mood/mood-heatmap.tsx:42 | later logs never change a day's cell |
| Heatmaps.RatingShade | src/components/mood/mood-heatmap.tsx:45-51 | the shade level counts the thresholds 2, 4, 6, 8 the rating exceeds |
| Heatmaps.RatingShadeMonotone | src/components/mood/mood-heatmap.tsx:45-51 | a higher rating never gets a lighter shade |
| Heatmaps.MoodCell | src/components/mood/mood-heatmap.tsx:42-51 | muted exactly when no log is dated that day; otherwise the shade of the rating of the first log of that day |
| MoodCharts.Mean | src/components/dashboard/weekly-mood-chart.tsx:44-46 | the mean as a fraction: the sum of the ratings over their number |
| MoodCharts.MeanOfEqualRatings | src/components/dashboard/weekly-mood-chart.tsx:44-46 | ratings that are all x average to exactly x |
| MoodCharts.MeanBetween | src/components/dashboard/weekly-mood-chart.tsx:44-46 | a mean lies between any bounds of its ratings |
| MoodCharts.DayMean | src/components/mood/mood-trend-chart.tsx:20-23 | none exactly when the day has no log; otherwise the mean of the ratings of that day's logs |
| MoodCharts.DayMeanOfEqualRatings | src/components/mood/mood-trend-chart.tsx:20-23 | a day whose logs are all rated x plots exactly x |
| MoodCharts.DayMeanBetween | src/components/dashboard/weekly-mood-chart.tsx:44-46 | a day's mean lies between the bounds of that day's ratings |
| MoodCharts.LastDays | src/components/mood/mood-trend-chart.tsx:18-29 | n points for consecutive days ending today, each with its day's mean |
| MoodCharts.WeeklyMood | src/components/dashboard/weekly-mood-chart.tsx:37-53 | seven points from six days ago to today, each the day's mean or 0 |
| MoodCharts.MoodTrend | src/components/mood/mood-trend-chart.tsx:18-29 | thirty points, point k on the day 29 - k days before today, each that day's mean, and a gap (`null`) exactly when the day has no log |
| MoodCharts.WeeklyZeroIffNoLog | src/components/dashboard/weekly-mood-chart.tsx:44-46 | with ratings on 1..10, a weekly point is 0 exactly when its day has no log |
| MoodCharts.WeeklyAgreesWithTrend | src/components/mood/mood-trend-chart.tsx:18-29 | on the shared seven days the weekly value is the trend value with gaps as 0 |
| MoodCharts.TrendOnScale | src/components/mood/mood-trend-chart.tsx:20-22 | with ratings on 1..10 every plotted mean stays in [1, 10] |
| Habits.FirstDone | src/components/dashboard/todays-habits.tsx:45 | the first of today's logs for the habit, or none exactly when there is none |
| Habits.StatusOf | src/components/dashboard/todays-habits.tsx:45-49 | completed exactly when a log of the habit is dated today, and then carrying the first such log's id |
| Habits.StatusMap | src/components/dashboard/todays-habits.tsx:44-50 | an entry for every habit and only for habits, each its own status |
| Habits.RefreshStatus | src/components/dashboard/todays-habits.tsx:38-53 | the map is rebuilt only once both collections are loaded |
| Habits.CheckChange | src/components/dashboard/todays-habits.tsx:56-73 | no write without store, collection or user. A completed habit with a log id deletes that log; otherwise one log for the habit and user is added |
| Habits.Apply | src/components/dashboard/todays-habits.tsx:61-72 | an add appends exactly one log; a delete removes every log with that id and keeps every other log as often as it occurs |
| Habits.CheckCompletes | src/components/dashboard/todays-habits.tsx:65-72 | checking marks the habit done today |
| Habits.UncheckKeepsOtherLog | src/components/dashboard/todays-habits.tsx:61-64 | unchecking with another of today's logs left keeps the habit completed |
| Habits.UncheckSingleLog | src/components/dashboard/todays-habits.tsx:61-64 | unchecking the only log of today leaves the habit not done |
| Habits.OpenHabitForm | src/components/habits/edit-habit-dialog.tsx:42-48 | opening loads the habit's name, category and goal |
| Habits.SubmitHabitEdit | src/components/habits/edit-habit-dialog.tsx:51-75 | refused exactly on an empty field; otherwise the habit with only name, category and goal replaced |
| Habits.DeleteHabit | src/components/habits/edit-habit-dialog.tsx:77-84 | deletion passes this habit's id |
| Habits.OpenThenSubmitHabit | src/components/habits/edit-habit-dialog.tsx:42-75 | saving as opened gives the habit back unchanged |
| Habits.SubmitNewHabit | src/components/habits/new-habit-dialog.tsx:44-64 | refused exactly on an empty field or no user, keeping the form. Otherwise `{name, category, goal, uid}` is created, the form is reset and the dialog closes |
| Habits.OnHabitDialogOpenChange | src/components/habits/new-habit-dialog.tsx:67-70 | closing resets the form; opening keeps it |
| Navigation.GateRedirect | src/components/layout/auth-gate.tsx:16-30 | no redirect while loading. A signed-in user on login or signup goes to `/dashboard`, and a signed-out user off the public paths goes to `/`. Both directions hold |
| Navigation.GateRenders | src/components/layout/auth-gate.tsx:33-42 | children render exactly when loaded and no redirect condition holds |
| Navigation.RendersIffStays | src/components/layout/auth-gate.tsx:16-42 | once loaded, the gate renders exactly when it does not redirect |
| Navigation.RedirectSettles | src/components/layout/auth-gate.tsx:16-42 | a redirect's target is shown without a further redirect |
| Navigation.AppLayout | src/components/layout/app-content.tsx:10-46 | loading screen exactly when loading off `/login`; `/login` bare; every other path the full layout |
| Navigation.TAsWritten | src/lib/i18n.ts:23-26 | an inherited member name missing from the table yields a non-string |
| Navigation.TAsWrittenReturnsNonString | src/lib/i18n.ts:23-26 | `t("toString")` as written does not return a string |
| Navigation.T | src/lib/i18n.ts:23-26 | a key with a non-empty translation gets it; any other key comes back as itself |
| Navigation.TAgreesOffPrototype | src/lib/i18n.ts:23-26 | off the inherited member names the corrected lookup agrees with the original |
| Navigation.NavigationTitlesTranslated | src/config/navigation.tsx:24-35 | every menu title has a non-empty English text different from its key |
| Login.AuthErrorMessage | src/app/login/page.tsx:30-53 | both credential errors give "Invalid email or password."; the two signup errors give their messages; any other code passes the provider's message through |
| Login.CredentialErrorsIndistinguishable | src/app/login/page.tsx:34-37 | unknown user and wrong password read the same |
| Login.SubmitCredentials | src/app/login/page.tsx:56-80 | loading ends false with nothing else changed; success navigates to `/` and failure shows the mapped message |
| Login.ForgotPassword | src/app/login/page.tsx:82-104 | an empty email sends nothing and shows an error; otherwise a reset is requested and its loading flag ends false |
| Login.TabChange | src/app/login/page.tsx:106-110 | the tab changes and both credentials are cleared; nothing else changes |
| Community.CategorizePost | src/ai/flows/categorize-post-flow.ts:62-77 | the model is skipped exactly with one forum, whose id is then the answer; otherwise the model's answer |
| Community.SingleForumIgnoresModel | src/ai/flows/categorize-post-flow.ts:69-72 | with one forum the answer is the same whatever the model, and is an available forum |
| Community.SubmitPost | src/components/community/new-post-dialog.tsx:42-101 | missing fields, user or store come first, then an empty forum list; categorising happens only after both checks. Submitting ends false, and the form is cleared only on success |
| Community.PostedToOnlyForum | src/components/community/new-post-dialog.tsx:67-82 | with one forum the post is written to that forum |
| Community.OnPostDialogOpenChange | src/components/community/new-post-dialog.tsx:104-107 | closing clears title and content; opening keeps them |
| Community.SubmitPostEdit | src/components/community/edit-post-dialog.tsx:48-74 | no patch exactly on an empty field or no store, leaving the form; otherwise a patch of that post's title and content |
| Community.EditTouchesOnlyTitleAndContent | src/components/community/edit-post-dialog.tsx:60-65 | the patched post differs only in title and content |
| Community.OnEditPostOpenChange | src/components/community/edit-post-dialog.tsx:43-46 | closing restores the stored title and content |
| Journal.Save | src/app/journal/page.tsx:33-60 | rejected exactly when blank or without store or user, leaving the editor. Otherwise the draft as typed goes out with the current sentiment and the uid, and the draft and sentiment are cleared |
| Journal.Analyze | src/app/journal/page.tsx:72-96 | a blank draft is refused without a model call; otherwise the sentiment is the model's result and loading ends |
| Journal.SortedEntries | src/app/journal/page.tsx:98-104 | a permutation of the timestamped entries, newest first |
| Journal.SameInstantKeepsOrder | src/app/journal/page.tsx:98-104 | entries at one instant keep their collection order |
| Journal.ListedIffDated | src/app/journal/page.tsx:98-104 | an entry is listed exactly when it has a timestamp |
| Chat.History | src/components/counselor/chat-interface.tsx:59 | the loaded messages in collection order, as role and content |
| Chat.Submit | src/components/counselor/chat-interface.tsx:48-77 | ignored on blank input, in flight, or missing store, user or messages. Otherwise the user message is written first, the counselor gets the loaded history, and loading ends false |
| Chat.ModelMessages | src/components/counselor/chat-interface.tsx:64-73 | on success exactly one model message with the reply; on failure none |
| Chat.SortedMessages | src/components/counselor/chat-interface.tsx:79-83 | a permutation of the messages in ascending time, a pending one at 0 |
| Chat.SortedMessagesStable | src/components/counselor/chat-interface.tsx:79-83 | messages at one instant keep their collection order |
| Safety.OpenContactForm | src/components/safety/edit-contact-dialog.tsx:43-49 | opening loads the contact's fields, or empty strings |
| Safety.SubmitContact | src/components/safety/edit-contact-dialog.tsx:51-81 | rejected exactly on an empty field. An edit patches exactly the three fields for the contact's id; otherwise `onSave` gets them. The dialog closes unless the save throws, and saving ends |
| Safety.ApplyContactPatch | src/components/safety/edit-contact-dialog.tsx:65-69 | the patch keeps id and owner, and reopening shows the saved fields |
| Safety.ContactOpenThenSave | src/components/safety/edit-contact-dialog.tsx:43-81 | saving a contact as opened leaves it unchanged |
| Safety.EditWithoutStoreClosesUnsaved | src/components/safety/edit-contact-dialog.tsx:62-81 | in edit mode without store and without `onSave` nothing is written, yet the dialog closes |
| Safety.OpenStrategyForm | src/components/safety/edit-strategy-dialog.tsx:41-45 | opening loads the strategy's text, or "" |
| Safety.SubmitStrategy | src/components/safety/edit-strategy-dialog.tsx:47-74 | rejected exactly on whitespace-only text. An edit patches only `text`, with the raw text; otherwise it goes to `onSave`. Same closing rules as the contact dialog |
| Safety.StrategyTextNotTrimmed | src/components/safety/edit-strategy-dialog.tsx:62-65 | padded text is passed on with its padding |
| Schedule.DateString | src/app/schedule/page.tsx:42 | `date` alone without a time; otherwise date, "T", time |
| Schedule.SplitAtT | src/app/schedule/page.tsx:42 | with a "T" the string is the part before it, "T", and the rest, with no "T" in the part before; without one, the whole string and "" |
| Schedule.DateStringRoundTrip | src/app/schedule/page.tsx:42 | date and time are read back from the composed string |
| Schedule.Submit | src/app/schedule/page.tsx:34-67 | nothing without user, store, title or date. Success writes the item, clears every field but the kind and ends loading; a failure keeps the fields and ends loading |
| Schedule.UpcomingItems | src/app/schedule/page.tsx:156-162 | the empty state exactly for no items; otherwise a permutation in ascending date |
| Schedule.UpcomingItemsStable | src/app/schedule/page.tsx:158-162 | items at one instant keep their collection order |
| Schedule.TimestampBeforeDate | src/app/schedule/page.tsx:158-162 | a timestamp of s seconds sorts before a date of ms milliseconds when s*1000 < ms |
| Breathing.Elapsed | src/components/dashboard/BreathingExercise.tsx:32 | JavaScript's `%` by 10000: within [0, 10000) for a non-negative clock, and with the sign of the clock otherwise |
| Breathing.Frame | src/components/dashboard/BreathingExercise.tsx:34-48 | inhale exactly below 4000 ms at elapsed/4000*100; hold exactly in [4000, 6000) at 100; exhale from 6000 at 100 - (elapsed-6000)/4000*100 |
| Breathing.ShownPeriodic | src/components/dashboard/BreathingExercise.tsx:23-32 | the display repeats every 10000 ms |
| Breathing.ProgressInRange | src/components/dashboard/BreathingExercise.tsx:37-47 | progress stays in [0, 100] for a clock that has not gone backwards |
| Breathing.PhasesJoin | src/components/dashboard/BreathingExercise.tsx:34-48 | the phases meet without a jump in progress |
| Breathing.ProgressMonotone | src/components/dashboard/BreathingExercise.tsx:34-48 | progress rises while inhaling and falls while exhaling |
| Breathing.ClockBackwards | src/components/dashboard/BreathingExercise.tsx:32-37 | one millisecond before the start shows inhaling at -1/40 percent |
| Welcome.GreetingFor | src/components/dashboard/welcome-header.tsx:21-27 | morning exactly before 12, afternoon exactly in 12..16, evening exactly from 17 |
| Welcome.GreetingsCoverDay | src/components/dashboard/welcome-header.tsx:21-27 | each greeting is used from its first hour on, within the day, and the three texts differ |
| Welcome.MoodOptionsOrdered | src/lib/data.ts:80-87 | ratings strictly decrease, all lie in 1..10, and the labels are distinct |
| Welcome.SelectMood | src/components/dashboard/welcome-header.tsx:34-51 | the option is selected in every case. A log with exactly its label and rating is written only with a user and the store |
| Welcome.LoggedMoodOnScale | src/components/dashboard/welcome-header.tsx:37-44 | a logged mood has a rating on 1..10 and the option's label |

## Left out

- Floating point: `Math.round` and every mean or percentage are exact rationals, so IEEE rounding of `100 * done / total` is not modelled.
- Time zones and DST: `startOfDay`, `isToday`, `isSameDay` and `format(..., 'yyyy-MM-dd')` are computed on UTC days. The local clock, `Date.now()` and the hour of day are parameters.
- Parsing of date strings (`new Date("YYYY-MM-DD")`, the schedule's composed string): the validity of a date is an `Option` on the item.
- Store timestamps still pending (`serverTimestamp`): the habits page and the habit heatmap call `toDate()` on every log. Those members require timestamps to be present, because in the source a pending one throws.
- `Object.entries` order for integer-like keys: the category groups are kept in insertion order. JavaScript lists integer-like keys first in ascending order, and a category named like an integer would be listed first.
- Document-store and auth calls (`addDoc`, `updateDoc`, `deleteDoc`, `signIn*`, `sendPasswordResetEmail`): a write is returned as a value, and a thrown call is a `fails` flag or an error value.
- Language-model flows (sentiment, counselor, stress prediction, categorisation): function parameters or given results. `JSON.parse` of a reply is a three-way parse result.
- Toasts, emoji, icons and styling class names: UI text that carries no logic.
- The breathing exercise's `requestAnimationFrame` loop and its `isActive` closure: only the frame function of the elapsed time is modelled. The closure keeps the `isActive` of the render that started it, so after Stop the loop keeps scheduling frames, and these overwrite the stopped card.
- Unicode whitespace: `trim` is modelled with the ECMAScript WhiteSpace and LineTerminator code points, with no Unicode tables beyond them.
- `src/lib/image-utils.ts`, the animation components, the async enrichment pages and the static data other than `moodOptions`: canvas, geometry and I/O plumbing.
- Streak.QuickStatsStreak: the contract states only the unloaded case; its relation to the habits page is stated by QuickStatsMatchesHabitsPage and QuickStatsDivergesOnFutureLog.
- Wellness.WellnessScore: the contract states only the bounds; the value is characterised by ScoreIsNearestInteger, ScoreWithoutMoods and WellnessBaseline.
- Streak.HabitsPageStats: the contract states only the bounds; the value is characterised by the HabitsPageDeadStreak, HabitsPageLiveStreak and HabitsPageRate lemmas.

## Findings

| source | as written | input that shows it | evidently intended | confidence | as-written member | corrected member |
|---|---|---|---|---|---|---|
| src/lib/i18n.ts:23-26 | `translations[locale][key] \|\| key` also reaches the properties every object inherits, so an inherited member (a function) is returned in place of a string | `t("toString")` | a key without its own translation comes back as the key itself | not executed | Navigation.TAsWritten | Navigation.T |
