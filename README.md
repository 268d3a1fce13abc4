# Focus timer: a verified model of the session, statistics and achievement core

This project models the core of a Pomodoro-style focus timer written as a
React application. The model covers six parts:

- **The data context** (`src/context/DataContext.tsx`). It keeps at most one
  current session and the user statistics: counters, per-day rollups, the
  history of sessions, the streaks and a catalog of tiered achievements. Its
  operations are starting, pausing, resuming, completing and cancelling a
  session, resetting, and rehydrating a saved session on load. It also
  recomputes the streak, evaluates the achievements and reports progress
  toward them. A developer shortcut synthesizes completed sessions.
- **The phase-aware countdown hook** (`src/hooks/useTimer.ts`).
- **The settings context** (`src/context/SettingsContext.tsx`). It holds the
  theme, the sound and notification switches and the four timer presets.
- **The standalone 25-minute timer display** (`src/components/timer/TimerDisplay.tsx`).
- **The analytics dashboard's logic** (`src/components/analytics/AnalyticsDashboard.tsx`).
  This is the date window, the ten-row table with its efficiency column, the
  duration label and the CSV export.
- **The progress overview's logic** (`src/components/dashboard/ProgressOverview.tsx`).
  These are the in-progress and upcoming achievement lists, the overall tier
  percentage and the hours-and-minutes label.

## Modelling choices

- **Time.** Every instant is an integer number of milliseconds since the Unix
  epoch. The date the source obtains with `toISOString().split('T')[0]` is the
  day number `t / 86400000` (`Model.DayOf`). Each day-stamped value (a
  `DailyStat`'s `date`) holds that day number. It is printed as `YYYY-MM-DD`
  only where the source prints it, in the CSV export (`Calendar.IsoDate`).
- **Parameters instead of clocks.** "Now" is a parameter of every operation
  that reads the clock. So is the start of the local week that the weekly
  achievement counts from.
- **React state.** Each React state updater becomes a function from the old
  state to the new one. Updaters queued by one call run in the order they
  were queued. The two roots, the current session and the statistics, form
  one value, `Sessions.Engine`.
- **Loops stay loops.** Three functions of the data context work with loops:
  `calculateStreak`, `checkAchievements` and `fastForwardSessions`. Each is a
  method with a `while` or `for` loop, proved equal to a specification
  function: `Streak.StreakRecomputed`, `Achievements.Checked` and
  `Sessions.FastForwarded`. The properties are proved about those functions.
- **Hooks with state.** The countdown hook and the timer display are
  classes. Their tick and button handlers are methods that change the
  fields.
- **Sorting.** `sort((a, b) => b.date - a.date)` is a stable sort, newest
  date first. A stable sort has only one result, so the model uses a stable
  insertion sort (`DailyStats.SortNewestFirst`). It is proved to be a
  permutation that is sorted and keeps lookups.
- **Arithmetic.** Percentages are computed exactly on integers.
  - `Math.round(x / t * 100)` becomes `(200x + t) / (2t)`: the nearest whole
    number, ties rounded up (`Rounding.RoundedPercent`).
  - `Math.floor(x / t * 100)` becomes `(100x) / t` with floor division.
  - The display's percentage is a `real`.

Where the code and its written description differ, the model follows the
code. Two cases need stating:

- The streak is recomputed as written. When today has no completed session
  but yesterday has one, the walk does not start, so the current streak
  becomes 0 rather than yesterday's run (`Streak.CurrentStreakMeaning`).
- Outside `dailyDedication`, `getAchievementProgress` uses the requirement of
  tier index `currentTier` as its base. `currentTier` counts the unlocked
  tiers, so that tier is the next locked one. Progress therefore goes
  negative right after a first unlock: 300 s of focus with the seeded
  catalog gives -67 for `focusMaster` (`Achievements.ProgressNegativeAfterFirstUnlock`).

## Model

| member | source | states |
|---|---|---|
| Model.DayOf | src/context/DataContext.tsx:294 | The day of an instant is the whole number of days since the epoch that contains it. |
| Model.CompletedCountAppend | src/context/DataContext.tsx:385-393 | Appending a session to the history raises the completed count by one exactly when that session is completed. |
| Model.DefaultCatalogIds | src/context/DataContext.tsx:56-122 | The seeded catalog has five achievements with distinct ids. |
| Model.DefaultCatalogTiers | src/context/DataContext.tsx:56-135 | Every seeded achievement starts at tier 0 with three locked, unstamped tiers of levels 1-3 and progress 0. Their requirements are positive and strictly increasing. The default statistics satisfy the counter invariant. |
| DailyStats.StatOn | src/context/DataContext.tsx:298-300 | The entry found for a date is in the list and has that date. No entry is found only when no entry has that date. |
| DailyStats.StatOnIsFirst | src/context/DataContext.tsx:298-300 | The entry `find` returns sits at an index before which no entry has the date, so it is the first entry for that date. |
| DailyStats.FirstIndexOn | src/context/DataContext.tsx:298-300 | The index `findIndex` returns holds an entry with the date, and no earlier entry has that date. `find` returns the entry at that index. The list's length stands for "not found", and then `find` finds nothing. |
| DailyStats.AddToDayLookup | src/context/DataContext.tsx:302-321 | After crediting a contribution, the entry for its date is the old entry with the counters added, or the contribution itself when the date had none. Every other date reads as before. |
| DailyStats.AddToDayCount | src/context/DataContext.tsx:302-321 | Crediting creates an entry only for a date that had none. It never duplicates a date. |
| DailyStats.AddToDayOthers | src/context/DataContext.tsx:302-321 | Entries of other dates are kept, and none is added. |
| DailyStats.AddToDayAtIndex | src/context/DataContext.tsx:298-321 | The recursive definition equals the source's index-based update: assign at the found index, or `push`. |
| DailyStats.SortElements | src/context/DataContext.tsx:324-326 | The newest-first sort is a permutation of its input. |
| DailyStats.SortSorted | src/context/DataContext.tsx:324-326 | The sort's result is ordered newest date first. |
| DailyStats.SortLookup | src/context/DataContext.tsx:324-326 | Sorting keeps which entry is found first for each date. |
| DailyStats.SortCount | src/context/DataContext.tsx:324-326 | Sorting keeps the number of entries of each date. |
| DailyStats.UpdateDailyStatsSorted | src/context/DataContext.tsx:293-333 | After `updateDailyStats` the list is sorted newest first. |
| DailyStats.UpdateDailyStatsLookup | src/context/DataContext.tsx:293-333 | The session's start day gains one session, its duration of focus and its whole seconds of pause. A new entry is created when that day had none. Other days read as before. |
| DailyStats.UpdateDailyStatsOthers | src/context/DataContext.tsx:293-333 | Entries of other days are neither dropped nor invented. |
| DailyStats.UpdateDailyStatsUnique | src/context/DataContext.tsx:293-333 | The number of entries per date stays the same, except that a day without an entry gets exactly one. |
| DailyStats.UpdateDailyStatsKeepsUnique | src/context/DataContext.tsx:293-333 | If no date has two entries before the update, none has two after it. |
| Streak.CalculateStreak | src/context/DataContext.tsx:227-291 | The loop computes exactly `StreakRecomputed`: the early return for an empty history, the reset to 0 when neither today nor yesterday has a completed session, then the day-by-day walk capped at 365 days. |
| Streak.RunLengthMeaning | src/context/DataContext.tsx:261-283 | The walk counts consecutive days with a completed session, going back from a day. It stops at the first day without one, or at the cap. |
| Streak.CurrentStreakMeaning | src/context/DataContext.tsx:227-291 | With a history, the current streak is at most 365 days. It is 0 exactly when today has no completed session. Every day of the streak has one, and below the cap the day before the streak has none. |
| Streak.LongestStreakMonotone | src/context/DataContext.tsx:285-290 | The longest streak never decreases. It becomes the larger of its old value and the new current streak. Only the two streak fields change. |
| Streak.EmptyHistoryUnchanged | src/context/DataContext.tsx:228 | An empty history leaves the statistics untouched. |
| Streak.ScenarioThreeDayStreak | src/context/DataContext.tsx:227-291 | Completed sessions on three consecutive days, ending today, give a streak of 3. The next day, with no session, gives 0 and keeps the longest streak. |
| Achievements.CheckAchievements | src/context/DataContext.tsx:481-583 | The nested loop returns exactly the `Checked` statistics, and the list of achievements that unlocked some tier, in catalog order. |
| Achievements.CheckTierRules | src/context/DataContext.tsx:536-571 | Each tier's progress becomes the value capped at its requirement. A tier unlocks when the value reaches its requirement, stamped with `now`. An unlocked tier keeps its stamp. Level, requirement and reward are unchanged. |
| Achievements.RaisedTierMeaning | src/context/DataContext.tsx:536-571 | The running `Math.max(currentTier, i + 1)` never lowers the tier. It reaches at least `i + 1` for every tier `i` that unlocks now, and is either unchanged or such an `i + 1`. |
| Achievements.CurrentTierRule | src/context/DataContext.tsx:536-571 | An achievement's current tier after the check is the largest of its old value and `i + 1` over the tiers `i` that unlock now. |
| Achievements.NewlyUnlockedMeaning | src/context/DataContext.tsx:536-582 | The returned list holds the evaluated achievements that unlocked a tier in this pass, each once, in catalog order. Distinct ids stay distinct. |
| Achievements.NewlyUnlockedNone | src/context/DataContext.tsx:536-571 | When no tier reaches its requirement, nothing is returned. |
| Achievements.EvaluateAchievementTwice | src/context/DataContext.tsx:536-571 | Evaluating an achievement again with the same value unlocks nothing further and changes nothing, whatever the time. |
| Achievements.CheckIdempotent | src/context/DataContext.tsx:481-583 | A second check on the same day leaves the catalog as it is and reports no new unlocks. |
| Achievements.MetricsUnchangedByCheck | src/context/DataContext.tsx:575-579 | The check changes only the catalog and the last-check stamp, so every metric reads the same afterwards. |
| Achievements.CheckedKeepsCatalog | src/context/DataContext.tsx:575-579 | The check keeps the catalog's ids, metrics, tier counts and requirements. So a well-formed catalog stays well-formed, and distinct ids stay distinct. |
| Achievements.GetUnlockedAchievements | src/context/DataContext.tsx:585-589 | An achievement is listed exactly when it is in the catalog and has an unlocked tier. |
| Achievements.FindAchievement | src/context/DataContext.tsx:592 | The achievement found has the id searched for, and no achievement before it in the catalog has that id. Nothing is found only when no achievement has it. |
| Achievements.FirstLockedIndex | src/context/DataContext.tsx:682 | Returns the first locked tier: every tier before it is unlocked. |
| Achievements.GetNextAchievement | src/context/DataContext.tsx:677-684 | Nothing is returned exactly when the id is unknown or every tier is unlocked. Otherwise the first locked tier is returned, and every tier before it is unlocked. |
| Achievements.Share | src/context/DataContext.tsx:646-672 | The capped floor percentage is at most 100. It is 100 once the part reaches the whole, lies in 0-99 below that, and is negative for a negative part. |
| Achievements.DedicationProgress | src/context/DataContext.tsx:637-656 | The `dailyDedication` percentage never exceeds 100. |
| Achievements.StandardProgress | src/context/DataContext.tsx:660-674 | The standard percentage never exceeds 100. |
| Achievements.GetAchievementProgress | src/context/DataContext.tsx:591-675 | Progress is at most 100, and 0 for an unknown id. |
| Achievements.ProgressFullAtLastTier | src/context/DataContext.tsx:660-674 | Outside `dailyDedication`, an achievement whose current tier is at or past its last tier index reports 100. |
| Achievements.ProgressNegativeAfterFirstUnlock | src/context/DataContext.tsx:660-671 | As written, 300 s of focus unlocks the first `focusMaster` tier, and the progress bar then reports -67. |
| Sessions.LoadSpec | src/context/DataContext.tsx:162-206 | A saved session that ran out while unpaused and uncompleted is not restored. It is filed as completed at its target end, counted, and credited to its day. The new statistics are the saved ones (or the defaults) with only those three fields changed: the started count, the streaks, the focus total, the catalog and the last check stay as saved. Any other saved session is restored as it was, with the saved or default statistics. The counter invariant survives. |
| Sessions.LoadFresh | src/context/DataContext.tsx:162-206 | With nothing saved there is no session and the statistics are the defaults. |
| Sessions.StartCreates | src/context/DataContext.tsx:335-363 | Without a current session, a new one starts now with the given kind and duration. It is due `duration` seconds later, unpaused and not completed, with that much time remaining. Only the total session count changes. |
| Sessions.StartKeepsExisting | src/context/DataContext.tsx:337-340 | While a session is current, starting changes nothing. |
| Sessions.PauseNoop | src/context/DataContext.tsx:445-456 | Pausing changes nothing exactly when there is no session or it is already paused. |
| Sessions.ResumeNoop | src/context/DataContext.tsx:459-478 | Resuming changes nothing exactly when there is no session or it is not paused. |
| Sessions.PauseResumeAccounting | src/context/DataContext.tsx:445-478 | After any sequence of pause and resume cycles, the paused total and the target end have both grown by the summed pause lengths. The statistics are untouched. |
| Sessions.RemainingTime | src/context/DataContext.tsx:775-790 | The remaining time is never negative, and 0 without a session. |
| Sessions.RemainingFrozenWhilePaused | src/context/DataContext.tsx:781-785 | While paused, the remaining time does not depend on the clock. It is the whole seconds from the pause to the target end, or 0. |
| Sessions.RemainingTimeDecays | src/context/DataContext.tsx:787-789 | While running, the remaining time never grows as time passes. |
| Sessions.PausePreservesRemaining | src/context/DataContext.tsx:445-790 | Right after a pause and a resume of any length, the remaining time equals the time remaining when the pause began. |
| Sessions.CompleteSpec | src/context/DataContext.tsx:365-416 | Completing appends one completed session, ended now, whose paused total includes an open pause. It raises the completed count by one, rolls the session into its day and stamps the check. The new statistics are exactly these three updates followed by the achievement check at the same time; the started count, the streaks and the focus total stay. It clears the current session and keeps the counter invariant. |
| Sessions.CancelSpec | src/context/DataContext.tsx:418-435 | Cancelling files the session as not completed, ended now, and clears it. The new statistics are the old ones with only that session appended: the counts, the streaks, the focus total, the daily entries, the catalog and the last check are untouched. The counter invariant survives. |
| Sessions.FinishNoop | src/context/DataContext.tsx:365-435 | Without a current session, completing and cancelling change nothing. |
| Sessions.OperationsKeepConsistent | src/context/DataContext.tsx:223-478 | Starting, pausing, resuming, recomputing the streak and resetting all keep the completed counter equal to the number of completed sessions in the history. |
| Sessions.CreditToday | src/context/DataContext.tsx:692-711 | The index-based update of today's entry (appended empty when missing, then credited) equals crediting the day. |
| Sessions.AppendSimulated | src/context/DataContext.tsx:713-735 | The loop appends exactly the synthesized sessions: the i-th ends `i + 1` half hours before now and lasts the given focus time. |
| Sessions.FastForwardSessions | src/context/DataContext.tsx:687-751 | The operation returns exactly `FastForwarded`. That is today's entry credited, the counters raised, the sessions appended, a streak of 1 started if there was none, and the achievements evaluated. |
| Sessions.FastForwardCounters | src/context/DataContext.tsx:687-751 | Completed and total sessions rise by n and focus time by n × f. The history gains n completed sessions of f seconds, and the counter invariant survives. |
| Sessions.FastForwardDaily | src/context/DataContext.tsx:692-711 | Today's entry gains n sessions and n × f seconds of focus, or is created with them. Every other day reads as before. |
| Sessions.FastForwardStreak | src/context/DataContext.tsx:737-743 | An existing streak is kept. A missing one becomes 1, with the longest streak at least 1. |
| Sessions.ScenarioFullSession | src/context/DataContext.tsx:335-416 | A 25-minute session started and completed on a fresh day gives one completed session and a day entry of 1 session, 1500 s of focus and no pause. |
| Sessions.ScenarioPausedSession | src/context/DataContext.tsx:335-478 | A 5-second pause moves the target end by 5 s and leaves 1490 s on resume. Completion records 5000 ms paused, and the day's pause total rises by 5 s. |
| Sessions.ScenarioTenthCompletion | src/context/DataContext.tsx:365-583 | The tenth completed session unlocks the first tier of a 10/20/30 completed-sessions achievement, stamped now, and moves it to tier 1. The later tiers stay locked. |
| Sessions.ScenarioCancelled | src/context/DataContext.tsx:335-435 | A session cancelled midway is filed not completed. The completed count and the day's entry are unchanged. |
| PhaseTimer.Timer.Tick | src/hooks/useTimer.ts:30-53 | A paused or idle timer does not change. Otherwise time counts down and elapsed time counts up. At zero the next phase starts with its full duration and zero elapsed time. After the last phase the timer stops at zero. While time is left, the elapsed and remaining seconds add up to the phase's duration. |
| PhaseTimer.Timer.constructor | src/hooks/useTimer.ts:23-28 | A new timer is at the initial phase with that phase's full duration, no elapsed time, inactive and unpaused. |
| PhaseTimer.Timer.Start | src/hooks/useTimer.ts:55-58 | Start makes the timer active and unpaused. It keeps time, phase and elapsed time. |
| PhaseTimer.Timer.Pause | src/hooks/useTimer.ts:59 | Pause sets the paused flag only. |
| PhaseTimer.Timer.Resume | src/hooks/useTimer.ts:60 | Resume clears the paused flag only. |
| PhaseTimer.Timer.Reset | src/hooks/useTimer.ts:61-67 | Reset returns the timer to the initial phase and its full duration, idle, with no elapsed time. |
| PhaseTimer.ScenarioTwoPhases | src/hooks/useTimer.ts:23-67 | Two 3-second phases, started and ticked four times, are in the second phase with its full 3 s left, zero elapsed, still running. |
| TimerDisplay.Display.constructor | src/components/timer/TimerDisplay.tsx:11-13 | A new display shows an inactive 25:00 at 0 %. |
| TimerDisplay.Display.Tick | src/components/timer/TimerDisplay.tsx:21-37 | While active, a tick takes one second off, never going below zero, and the percentage follows the time. While stopped, nothing changes. |
| TimerDisplay.Display.HandleStart | src/components/timer/TimerDisplay.tsx:59-61 | Start makes the display active and keeps time and percentage. |
| TimerDisplay.Display.HandlePause | src/components/timer/TimerDisplay.tsx:63-65 | Pause makes the display inactive and keeps time and percentage. |
| TimerDisplay.Display.HandleReset | src/components/timer/TimerDisplay.tsx:67-72 | Reset returns to an inactive 25:00 with 0 %. |
| TimerDisplay.PercentageBounds | src/components/timer/TimerDisplay.tsx:27 | The percentage rises from 0 at 25 minutes to 100 at zero, never decreasing as time runs down. |
| TimerDisplay.FormatClockRoundTrip | src/components/timer/TimerDisplay.tsx:53-57 | The `MM:SS` label reads back as the same number of seconds. Its seconds part is two digits below 60. |
| TimerDisplay.FormatClockFullSession | src/components/timer/TimerDisplay.tsx:11-57 | The initial 25 minutes show as `25:00`. |
| Settings.DefaultSettingsValues | src/context/SettingsContext.tsx:24-35 | The defaults are the light theme, sound and notifications on, presets of 25/5/15/30 minutes, and Pomodoro active. |
| Settings.UpdateSettingsMerge | src/context/SettingsContext.tsx:98-100 | The shallow merge takes every field present in the patch and keeps every absent one. |
| Settings.UpdateSettingsExtremes | src/context/SettingsContext.tsx:98-100 | An empty patch changes nothing, and a full patch replaces everything. |
| Settings.UpdateTimerPresetSpec | src/context/SettingsContext.tsx:102-110 | Setting one preset stores the new minutes for it and keeps every other preset and every other field. |
| Settings.PresetRangeKept | src/context/SettingsContext.tsx:28-110 | The defaults lie within 1-120 minutes, and updating with an in-range value keeps all presets in range. |
| Settings.SetActivePresetSpec | src/context/SettingsContext.tsx:112-117 | Only the active preset changes. Setting it twice is the same as once. |
| Settings.ToggleThemeCycle | src/context/SettingsContext.tsx:119-124 | The theme cycles light, dark, system through all three values. It always changes, three toggles restore it, and nothing else changes. |
| Settings.TogglesAreInvolutions | src/context/SettingsContext.tsx:126-138 | Each toggle flips its own switch only. Two toggles restore it, and the two toggles commute. |
| Analytics.EarliestStart | src/components/analytics/AnalyticsDashboard.tsx:31-33 | The earliest start is the start of some session of the history and no later than any of them. |
| Analytics.DateRange | src/components/analytics/AnalyticsDashboard.tsx:14-41 | The window always ends now. |
| Analytics.DateRangeStart | src/components/analytics/AnalyticsDashboard.tsx:14-41 | The window starts 7, 30 or 90 days back. For all time it starts at the earliest session start, or 30 days back without history. The fixed windows are non-empty. |
| Analytics.FilterRange | src/components/analytics/AnalyticsDashboard.tsx:150-153 | The filter keeps exactly the entries inside the window, as a sub-multiset of the list. |
| Analytics.TableShape | src/components/analytics/AnalyticsDashboard.tsx:149-155 | The table has the in-window entries, at most 10 of them, sorted newest first. All of them are shown when there are at most 10. |
| Analytics.TableInRange | src/components/analytics/AnalyticsDashboard.tsx:149-155 | Every row is an entry of the list inside the window. |
| Analytics.TableNewest | src/components/analytics/AnalyticsDashboard.tsx:154-155 | No in-window entry left out of the table is newer than a row. |
| Analytics.EfficiencyNearest | src/components/analytics/AnalyticsDashboard.tsx:158-161 | The efficiency is the nearest whole percentage of focus in focus plus pause, ties rounded up. |
| Analytics.EfficiencyBounds | src/components/analytics/AnalyticsDashboard.tsx:158-161 | Without negative pause time the efficiency lies in 0-100. Focus without pause gives 100. |
| Analytics.Efficiency | src/components/analytics/AnalyticsDashboard.tsx:158-161 | No time at all gives 0. |
| Analytics.DurationParts | src/components/analytics/AnalyticsDashboard.tsx:197-200 | Hours, minutes and seconds add back up to the input, with minutes and seconds below 60. |
| Analytics.FormatDurationSpec | src/components/analytics/AnalyticsDashboard.tsx:197-209 | The label reads back as `Hh Mm Ss`, `Mm Ss` or `Ss`, depending on which leading unit is non-zero, and its units add up to the input. |
| Analytics.CsvRowFields | src/components/analytics/AnalyticsDashboard.tsx:116-118 | A CSV row is one line of four fields: the ISO date, then the session count, focus time and pause time. Each reads back as the entry's value. |
| Analytics.CsvHeaderColumns | src/components/analytics/AnalyticsDashboard.tsx:120 | The header is one line naming the four columns. |
| Analytics.CsvLines | src/components/analytics/AnalyticsDashboard.tsx:116-121 | Split into lines, the file is the header followed by one row per daily entry, in list order. With no entries it is the header followed by an empty line. |
| Calendar.CivilFromDays | src/components/analytics/AnalyticsDashboard.tsx:117 | The month lies in 1-12 and the day within that month's length, with the 29th of February only in leap years. Counting the days of the date back from 1970-01-01 gives the day number again, so distinct days get distinct dates. |
| Calendar.IsoDateEpoch | src/components/analytics/AnalyticsDashboard.tsx:117 | Day 0 prints as 1970-01-01. |
| Calendar.IsoDateBeforeEpoch | src/components/analytics/AnalyticsDashboard.tsx:117 | Day -1 prints as 1969-12-31. |
| Calendar.IsoDateRecent | src/components/analytics/AnalyticsDashboard.tsx:117 | Day 20000 prints as 2024-10-04. |
| Rounding.RoundedPercentBounds | src/components/dashboard/ProgressOverview.tsx:36-38 | The rounded share of a part of a positive whole lies in 0-100. It is 0 for no part and 100 for the whole. |
| Rounding.RoundedPercentSplit | src/components/analytics/AnalyticsDashboard.tsx:159-161 | The rounded percentage is within half a unit of the exact one. |
| ProgressOverview.InProgress | src/components/dashboard/ProgressOverview.tsx:12-16 | An achievement is in progress exactly when it is in the catalog and has both an unlocked and a locked tier. |
| ProgressOverview.UpcomingAmong | src/components/dashboard/ProgressOverview.tsx:19-23 | An achievement is upcoming exactly when it has no unlocked tier and positive progress. |
| ProgressOverview.ListsRelated | src/components/dashboard/ProgressOverview.tsx:9-23 | No achievement is both in progress and upcoming. Every achievement in progress is among the unlocked ones. |
| ProgressOverview.InProgressMeaning | src/components/dashboard/ProgressOverview.tsx:12-16 | In progress means unlocked but with a next tier still to reach, as `getNextAchievement` finds it. |
| ProgressOverview.UnlockedCountFull | src/components/dashboard/ProgressOverview.tsx:31-34 | A tier list's unlocked count equals its length exactly when all its tiers are unlocked, and is 0 exactly when none is. |
| ProgressOverview.UnlockedTiersBound | src/components/dashboard/ProgressOverview.tsx:26-34 | There are never more unlocked tiers than tiers. The two counts are equal exactly when every tier of every achievement is unlocked. |
| ProgressOverview.OverallProgressBounds | src/components/dashboard/ProgressOverview.tsx:36-38 | The overall progress lies in 0-100. It is 0 without tiers and 100 once every tier is unlocked. |
| ProgressOverview.DefaultCatalogOverview | src/context/DataContext.tsx:56-122 | The seeded catalog has 15 tiers, none unlocked, nothing in progress, and 0 % overall. |
| ProgressOverview.TotalFocusAfterSession | src/components/dashboard/ProgressOverview.tsx:108 | Each completed session raises the overview's total focus time by exactly its duration, wherever it lands and however the list is re-sorted. |
| ProgressOverview.TotalFocusAddToDay | src/context/DataContext.tsx:302-321 | Crediting a day raises the summed focus time by the credited amount. |
| ProgressOverview.TotalFocusSort | src/context/DataContext.tsx:324-326 | Sorting keeps the summed focus time. |
| ProgressOverview.FormatHoursMinutesSpec | src/components/dashboard/ProgressOverview.tsx:141-150 | The label reads back as `Hh Mm`, or `Mm` under an hour, with minutes below 60. Its units add up to the input rounded down to the minute. |
| Text.ParseNatToString | src/components/analytics/AnalyticsDashboard.tsx:117 | Decimal printing of a natural number reads back as that number. |
| Text.ParseIntToString | src/components/analytics/AnalyticsDashboard.tsx:117 | Decimal printing of an integer, with its sign, reads back as that integer. |
| Text.Pad2Shape | src/components/timer/TimerDisplay.tsx:56 | `padStart(2, '0')` keeps the value, and gives two digits below 100. |
| Text.SplitJoin | src/components/analytics/AnalyticsDashboard.tsx:118 | Joining lines that do not contain the separator, then splitting at it, gives the lines back. |

## Left out

- Persistence: `localStorage` reads and writes, JSON parsing, and the unused `focusTimerStats` key that fast-forward writes. A loaded state is a parameter of `Sessions.Load`.
- Rehydration runs its side effect in a `setTimeout`. `Sessions.Load` applies it at once.
- React scheduling: effects, batching and re-renders. The streak effect that follows every change of the history is the explicit `Sessions.RecomputeStreak`.
- `checkAchievements` builds its returned list inside a state updater. React may run that updater later, so the list can still be empty when it is returned. The model fills it in order.
- `window.confirm` before a reset: the model is the confirmed branch. The refused branch changes nothing.
- Toasts, console messages, the delayed unlock notifications, the motivational quotes and all rendering.
- The theme's effect on the document and the `prefers-color-scheme` listener.
- The CSV download (Blob, object URL and anchor click). The model stops at the file's text.
- Time zones and daylight saving. `setDate(getDate() - n)` is taken as n × 24 h. The week start and its local midnight are a parameter.
- JavaScript numbers are IEEE doubles. The model uses unbounded integers and exact rationals. Percentages of huge values, `NaN` and rounding slips are not modelled.
- TimerDisplay.Display.Tick: the percentage is an exact `real`, not a double.
- PhaseTimer.Timer.constructor: requires the initial phase index to be within the phases. With any other index `useTimer` reads the duration of an undefined phase and throws, which the model does not capture.
- Calendar.CivilFromDays: proves that it is inverted by `Calendar.DaysFromCivil`, not that every valid date is reached, nor a next-day lemma.
- Calendar.IsoDate: dates beyond ±275760 years, where `toISOString` throws, are not modelled.
- Achievements.GetAchievementProgress: requires ascending positive tier requirements, so that every divisor is positive. A malformed catalog with a zero-width tier would divide by zero in JavaScript, giving `Infinity` or `NaN`.
- Settings.UpdateTimerPreset: any integer is accepted, as the context does. The 1-120 check of the presets form is part of `src/components/settings/TimerPresets.tsx`, which is not part of this model. `Settings.PresetRangeKept` states what happens under that check.
- Each operation reads the clock once. Where the source calls `new Date()` twice within one call, the two readings are taken to be equal.
- Aliasing is not captured. `checkAchievements` mutates the tiers of the previous state's catalog in place. `fastForwardSessions` shallow-copies the statistics, then pushes onto the shared daily-entry and history arrays. The model builds new values for the new state.
- The consumers of the date window outside this core: the statistics summary, the focus chart and the streak chart.
- Streak.RunLength: the walk is bounded by a 365-step fuel, exactly as the source's `daysChecked < 365` guard.
