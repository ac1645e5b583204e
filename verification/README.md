# Verified model of the Aliyun assist client's scheduling core

This project models four parts of the agent and proves what they promise, for all inputs and all runs.

**Cron evaluation** (`Calendar`, `WeekArithmetic`, `SortedInts`, `SetIteration`, `Outcomes`, `CronSchedule`,
`CronFields`, `CronExpression`, `CronExamples`). `CronSchedule` says what a schedule means: when it fires (`Matches`,
with the "either field" day rule of crontab(5)), what the first firing after a time is (`IsFirst`), and when the
evaluation runs into the panic of indexing an empty list (`Panics`). `CronExpression` holds the `Expression` object with
its mutable day-list cache and the cascade `Next`, `NextSecond` ... `NextYear`. Each method reads `list[0]` through
`Head`, which fails on an empty list, and is proved to end in exactly the outcome `Evaluates` names: the panic if
`Panics` holds, otherwise the earliest match after its argument. So the cascade of binary searches is exact, terminates,
leaves the cache right for the returned month, and does not depend on what earlier calls left in the cache. `CronFields`
starts from lexed entries and connects a parsed expression to the entries of its line, and `CronExamples` says in plain
numbers what entries and lines mean. The zero time is the concrete value 0001-01-01 00:00:00 UTC; years run from 1970 to
2099 as in the source's year field.

**Kick limiter** (`KickLimiter`). The ring of call times answers exactly as a full log of calls would, over any
interleaving of kicks and reconfigurations. A kick is two events, its check for a zero count before the lock and its
entry under the lock.

**Task output** (`TaskOutput`, `TaskReports`). `TaskOutput` says which bytes a run posts, keeps and reports, and holds the
`Task` object that is proved to do so, with cancel requests at any point of a run: while the process runs, before the
final report is decided on, while it is being sent, and after the kept output has been cleaned. `TaskReports` proves
what that means. In a run that makes a final report every byte is posted, counted as dropped, or in the final report, in
order, and posted and reported bytes together are the output cut down to the quota. `ToldIff` says for every run,
canceled aloud, quietly or not at all, which bytes reach the server, and `NothingLostIff` when all do.

**Fetching, task pool and self-update** (`TaskRegistry`, `UpdateProtocol`, `UpdateSafety`, `UpdateBehaviour`,
`UpdateRuns`, `UpdateProgress`). The registry is a class; the interleaving of fetchers, timer goroutines, pool workers and the updater
is a step machine over the same registry functions, and `Replay` runs the registry object through any run of it. Reading
the counter and reading the registry are separate steps, as are looking an id up in the registry, looking it up in the
schedules and adding it, and as are testing a timer's running flag and raising it. Any number of goroutines may run for
one timer. Three assumptions are explicit, and each is shown to be needed where it is made:

- *Sleep assumption.* A fetcher that has released the lock but not yet counted itself in is visible nowhere.
  `ScriptRunsAlone` assumes that no fetcher is in that gap when the updater's five-second sleep ends
  (`gapsAtWake == {}`). `WakeUpIsSafeIff` shows that the assumption is exact at every reachable wake-up, and
  `DecisionIsSafeIff` gives the exact condition at the moment the double check decides. `SlowFetcherIsUnsafe` is a run
  that breaks it.
- *Separate ids.* One-off tasks and periodic tasks use different ids (`onceIds !! timerIds`), and a periodic task has a
  non-empty schedule. Since a timer ignores the error of its add, `SharedIdIsUnsafe` gives a run in which a shared id lets
  the update script start beside a running one-off task: a second fetcher schedules the periodic task between the first
  one's look-ups and its add.
- *Exclusive flag tests* (`exclusive`), for periodic tasks only. `runTimer` tests and raises its flag in two separately
  locked steps. If no two goroutines of one timer are between the two steps at once, every live task is registered, one
  per id, and a timer's add succeeds. If they may be, `SecondFiringFails` is a run in which the add fails and one
  invocation is enqueued twice. The safety of the update script does not depend on this assumption: what
  `ReachableInv` says of one-off tasks, and `ScriptRunsAlone` and the exact conditions, hold without it.

There is one updater. `UpdateBehaviour` says what each participant does when nobody interferes, and what holds of it in
every run.

Where the code falls short of a plain promise, the exact condition is proved:

- `Parse` accepts a field such as hour `20-5`, whose list is then empty although the evaluation reads its first
  element. `NeverPanicsIff` and `LineNeverPanicsIff`: no argument makes the evaluation panic if and only if each of the
  second, minute, hour and month fields has an entry that is not a reversed range, or the year field has none.
  `ReversedHourPanics` and `ReversedYearIsSafe` are lines of either kind. (Weekday 7 is stored as 0, so `5-7` is such a
  reversed range too, but the day fields are never read at 0.)
- The dropped count is not reset when a periodic task is run again. `RunAll`: the count after a run is that of the latest
  run that dropped anything. `CountIsOwnIff`: it is the run's own if and only if the run drops something or no earlier
  one did; `DropsIff` says when a run does. `StaleCount` is a pair of runs where it is not.
- A canceled run may report some output twice. `RepeatsIff`: it does if and only if it makes both a cancel report and a
  final one and some byte kept at the cancellation is within the quota of the final one. `RepeatsAtTimeout` is a command
  that is canceled and then times out, `RepeatsAfterFinish` one that ends by itself and is canceled while its final
  report is being sent. `ReportedTwice` says which bytes they are.
- A kick checks for a zero count before it takes the lock. `PanicsIff`: it panics on the empty ring if and only if the
  limit is lifted between its check and its entry and not set again before the entry. `LiftingPanics` is such a run.

Some proofs use `hide` statements to keep definitions out of the solver's way; they do not weaken any contract.

## Model

| member | source | states |
|---|---|---|
| Calendar.BeforeIffEarlier | thirdparty/cronexpr/cronexpr.go:149-150 | the field-by-field order of date-times used throughout is the order of absolute instants, and equal instants are equal date-times |
| Calendar.NormaliseKeepsDay | thirdparty/cronexpr/cronexpr_next.go:193 | normalising an overflowing day keeps the absolute day number |
| Calendar.DaysBeforeYearClosed | thirdparty/cronexpr/cronexpr_next.go:192 | counting year by year agrees with the Gregorian closed form, for every year |
| Calendar.MonthStarts | thirdparty/cronexpr/cronexpr_next.go:192-193 | every month starts where a formula says that knows no month lengths but February's |
| Calendar.MonthsFillYear | thirdparty/cronexpr/cronexpr_next.go:192-193 | the months fill the year, so with their starts all twelve lengths are fixed |
| Calendar.BackFromMonthEnd | thirdparty/cronexpr/cronexpr_next.go:193 | one month on and k days back from a first of month is the k-th day from that month's end |
| Calendar.WeekdaysFollow | thirdparty/cronexpr/cronexpr_next.go:236 | the day after any date has the following weekday, across month and year ends |
| Calendar.EpochWeekday | thirdparty/cronexpr/cronexpr_next.go:236 | 1 January 1970 is a Thursday, which fixes the weekday scale |
| SortedInts.SearchInts | thirdparty/cronexpr/cronexpr_next.go:39 | binary search returns the least index whose element is at least the sought value, also when there is none |
| SortedInts.ToList | thirdparty/cronexpr/cronexpr_parse.go:389-398 | the strictly ascending list of exactly the set's members, whatever the iteration order |
| CronSchedule.FirstUnique | thirdparty/cronexpr/cronexpr.go:173-204 | two results that are earliest matches are equal, so `Next` depends on schedule and argument only, not on the cache |
| CronSchedule.DayListUnique | thirdparty/cronexpr/cronexpr_next.go:190-271 | a month has exactly one day list |
| CronSchedule.OffsetColumn | thirdparty/cronexpr/cronexpr_next.go:234-241 | a day has weekday w exactly if it is congruent to the table row the offset selects |
| CronSchedule.NthWeekdayFormula | thirdparty/cronexpr/cronexpr_next.go:250-258 | the formula for `#` names exactly the day that is the (k+1)-th of its weekday, counted day by day |
| CronSchedule.LastWeekdayFormula | thirdparty/cronexpr/cronexpr_next.go:259-267 | the formula for weekday `L` names exactly the day with that weekday that has no later one in the month |
| CronSchedule.WorkdayForIsNearest | thirdparty/cronexpr/cronexpr_next.go:273-292 | the corrected day is a Monday to Friday of the same month at minimal distance |
| CronSchedule.NearestWorkdayUnique | thirdparty/cronexpr/cronexpr_next.go:223-230 | the nearest workday of a day is unique |
| CronSchedule.NearestToLast | thirdparty/cronexpr/cronexpr_next.go:212-215 | the workday nearest to the last day is exactly the last workday of the month |
| CronExpression.WorkdayOfMonth | thirdparty/cronexpr/cronexpr_next.go:273-292 | returns a nearest workday of the same month |
| CronExpression.TableRow | thirdparty/cronexpr/cronexpr_next.go:24-32 | row c of the offset table is the days c+1, c+8, ... up to 31 |
| CronExpression.AddDaysOfMonth | thirdparty/cronexpr/cronexpr_next.go:216-222 | adds exactly the listed days that the month has |
| CronExpression.AddWorkdays | thirdparty/cronexpr/cronexpr_next.go:223-230 | adds exactly the nearest workdays of the listed days that the month has |
| CronExpression.AddWeekdays | thirdparty/cronexpr/cronexpr_next.go:234-249 | adds exactly the days of the month with a listed weekday |
| CronExpression.AddNthWeekdays | thirdparty/cronexpr/cronexpr_next.go:250-258 | adds exactly the days of the month that are a listed nth weekday |
| CronExpression.AddLastWeekdays | thirdparty/cronexpr/cronexpr_next.go:259-267 | adds exactly the last days of the month with a listed weekday |
| CronExpression.Expression.DaysOfMonthHits | thirdparty/cronexpr/cronexpr_next.go:206-231 | collects exactly the days that the day-of-month field selects: L, LW, plain days and W days |
| CronExpression.Expression.CalculateActualDaysOfMonth | thirdparty/cronexpr/cronexpr_next.go:190-271 | returns exactly the ascending list of the month's days that satisfy the either-field rule |
| CronExpression.Expression.NextYear | thirdparty/cronexpr/cronexpr_next.go:36-65 | for every schedule in range: panics exactly if a later year is listed and a head is missing, else the earliest match in a later year, or the zero time if there is none, skipping empty months and years; terminates with NextMonth; the cache fits the result |
| CronExpression.Expression.NextMonth | thirdparty/cronexpr/cronexpr_next.go:69-99 | panics exactly if a head is missing and a later month or year fits, else the earliest match in a later month, or the zero time; terminates by years, then months, left; the cache fits the result |
| CronExpression.Expression.NextDayOfMonth | thirdparty/cronexpr/cronexpr_next.go:103-120 | the earliest match on a later day, relying on the cache for the current month, or a panic exactly if `Panics` |
| CronExpression.Expression.NextHour | thirdparty/cronexpr/cronexpr_next.go:124-141 | the earliest match in a later hour, or a panic exactly if `Panics` |
| CronExpression.Expression.NextMinute | thirdparty/cronexpr/cronexpr_next.go:145-162 | the earliest match in a later minute, or a panic exactly if `Panics` |
| CronExpression.Expression.NextSecond | thirdparty/cronexpr/cronexpr_next.go:166-186 | the earliest match after a time whose higher fields fit, or a panic exactly if `Panics` |
| CronExpression.Expression.NextOnDay | thirdparty/cronexpr/cronexpr.go:206-234 | the hour, minute and second steps of `Next` find the earliest match after a time on a firing day |
| CronExpression.Expression.NextInMonth | thirdparty/cronexpr/cronexpr.go:197-205 | the day step of `Next` finds the earliest match once year and month fit |
| CronExpression.Expression.Next | thirdparty/cronexpr/cronexpr.go:157-235 | for every schedule in range and every non-zero argument: a panic exactly if a head is missing and the leading fields of some later time fit, else the earliest match strictly later than the argument, or the zero time exactly if there is none; the cache fits the result's month |
| CronExpression.Expression.NextN | thirdparty/cronexpr/cronexpr.go:249-266 | exactly the first n matches after the argument in order, or all of them if fewer; empty for the zero time; panics exactly if its first `Next` does |
| CronSchedule.ConsecutiveEnumerates | thirdparty/cronexpr/cronexpr.go:250-265 | a chain of first matches contains every match up to its last one and nothing else |
| CronSchedule.SkipYearHead | thirdparty/cronexpr/cronexpr_next.go:45-55 | passing over an empty first month of a year loses no match |
| CronSchedule.SkipMonth | thirdparty/cronexpr/cronexpr_next.go:78-88 | passing over an empty month loses no match |
| CronFields.GenericFieldParse | thirdparty/cronexpr/cronexpr_parse.go:402-488 | one directive per entry in order, or an error for an empty field or for the first step outside 1..max |
| CronFields.PopulateMany | thirdparty/cronexpr/cronexpr_parse.go:383-387 | adds exactly the values first + k*step up to last, and ends |
| CronFields.GenericFieldHandler | thirdparty/cronexpr/cronexpr_parse.go:269-288 | the ascending list of exactly what some entry covers; an unreadable entry is an error unless a wildcard came before it |
| CronFields.WildcardCovers | thirdparty/cronexpr/cronexpr_parse.go:283-284 | a wildcard makes the field cover its whole range whatever else it lists, so the early return loses nothing |
| CronFields.SelectsNothing | thirdparty/cronexpr/cronexpr_parse.go:383-387 | a field selects no value exactly if all its entries are reversed ranges or special |
| CronSchedule.NeverPanicsIff | thirdparty/cronexpr/cronexpr_next.go:39-64 | no argument makes the evaluation panic if and only if the four lists whose heads it reads are non-empty or there is no year |
| CronSchedule.MatchIsComplete | thirdparty/cronexpr/cronexpr.go:253-262 | a schedule that matches anywhere has all heads, so `NextN` cannot panic after its first result |
| CronSchedule.Carry | thirdparty/cronexpr/cronexpr.go:173-231 | where nothing fits between two precisions, the outcome at the coarse one is the outcome at the fine one, panic included |
| CronFields.CompleteIff | thirdparty/cronexpr/cronexpr_parse.go:383-387 | an accepted line is in range, and has all heads if and only if its second, minute, hour and month fields each select something |
| CronFields.LineNeverPanicsIff | thirdparty/cronexpr/cronexpr_parse.go:383-387 | no argument makes the evaluation of an accepted line panic if and only if its second, minute, hour and month fields each have an entry that is not a reversed range, or its year field has none |
| CronFields.ReversedHourPanics | thirdparty/cronexpr/cronexpr_parse.go:436-443 | the line `0 20-5 * * *` is accepted, and its evaluation panics from any time before the last year |
| CronFields.ReversedYearIsSafe | thirdparty/cronexpr/cronexpr.go:167-170 | the line `0 0 20-5 * * * 2020-2010` is accepted, and its evaluation yields the zero time from any time |
| CronFields.FiresByEntries | thirdparty/cronexpr/cronexpr.go:69-145 | the parsed schedule fires exactly when the entries of the line say so, day fields included |
| CronFields.FirstByEntries | thirdparty/cronexpr/cronexpr.go:149-157 | an earliest match of the parsed schedule is the first time after the argument at which the line fires |
| CronExamples.EveryWildcard | thirdparty/cronexpr/cronexpr_parse.go:118-174 | a line of seven wildcards fires at exactly every full second of the years 1970 to 2099 |
| CronExamples.StepRanges | thirdparty/cronexpr/cronexpr_parse.go:444-481 | in plain numbers, field by field: which steps are accepted and what a step of one covers, the day fields included |
| CronExamples.CoversByRemainder | thirdparty/cronexpr/cronexpr_parse.go:379-387 | what each kind of entry covers, by remainder instead of by counting up |
| CronExamples.PaddedFires | thirdparty/cronexpr/cronexpr.go:86-142 | which field of a line of five, six, seven or more is which; second 0 and any year where they are missing |
| CronExamples.SpecialPlaces | thirdparty/cronexpr/cronexpr_parse.go:301-373 | which field reads which special entry |
| CronExamples.FirstBadReported | thirdparty/cronexpr/cronexpr_parse.go:444-481 | of several bad steps the first is reported |
| CronExamples.FirstBadField | thirdparty/cronexpr/cronexpr.go:88-142 | a line is accepted exactly if all seven fields are good, and the error is that of the first bad one |
| CronExamples.EitherDay | thirdparty/cronexpr/cronexpr_next.go:195-205 | both day fields restricted, either suffices; one wildcard, the other decides; two wildcards, every day |
| CronExamples.DomDays2024 | thirdparty/cronexpr/cronexpr_next.go:206-231 | `L`, `LW` and `W` entries on dates of 2024, month ends included |
| CronExamples.LastFriday2024 | thirdparty/cronexpr/cronexpr_next.go:259-267 | `5L` is 29 March 2024 |
| CronExamples.NthDays2024 | thirdparty/cronexpr/cronexpr_next.go:250-258 | `5#3` is 15 March 2024, `1#1` is 5 February, and `1#5` is no day of February |
| CronExamples.Sundays2024 | thirdparty/cronexpr/cronexpr_next.go:234-249 | the Sundays of March 2024 |
| CronExpression.Expression.ApplyDomDirective | thirdparty/cronexpr/cronexpr_parse.go:343-373 | one directive changes the stored day-of-month values by exactly what its entry says |
| CronExpression.Expression.DomFieldHandler | thirdparty/cronexpr/cronexpr_parse.go:331-375 | stores exactly the days, W days, L, LW and the restricted flag of the entries; fails exactly on an unreadable entry and names the first |
| CronExpression.Expression.ApplyDowDirective | thirdparty/cronexpr/cronexpr_parse.go:301-327 | one directive changes the stored day-of-week values by exactly what its entry says |
| CronExpression.Expression.DowFieldHandler | thirdparty/cronexpr/cronexpr_parse.go:290-329 | stores exactly the weekdays, last and nth weekdays and the restricted flag of the entries; fails exactly on an unreadable entry and names the first |
| CronExpression.Expression.MandatoryFields | thirdparty/cronexpr/cronexpr.go:99-132 | the five mandatory fields are accepted exactly if each is good, and then stored as described; otherwise the error is that of the first bad one |
| CronExpression.Parse | thirdparty/cronexpr/cronexpr.go:69-145 | a line is accepted exactly if it has five fields or more and each is good; the new expression holds what the line padded with second 0 and any year says; otherwise the error is that of the first bad field and names its first bad entry |
| KickLimiter.CountByOneCall | agent/channel/channel_gshell.go:260-266 | in a chronological log more than n calls are later than a cut exactly if the call n back is |
| KickLimiter.Records | agent/channel/channel_gshell.go:259-268 | one more call keeps the ring the latest min(calls, size) call times, and head meets tail exactly when it is full |
| KickLimiter.GshellChannel.constructor | agent/channel/channel_gshell.go:289-301 | a new channel has an empty ring of the size of the limit in force |
| KickLimiter.GshellChannel.Enter | agent/channel/channel_gshell.go:250-269 | under the lock: panics exactly under a zero count, otherwise true exactly if more than count calls, this one included, lie in the last period seconds; the call is logged; never reads an unset slot |
| KickLimiter.GshellChannel.HasReachFrequencyLimit | agent/channel/channel_gshell.go:246-270 | a kick during which nothing is reconfigured never panics, and answers as the full log does |
| KickLimiter.GshellChannel.UpdateMaxFrequency | agent/channel/channel_gshell.go:272-287 | only a changed count forgets the calls; the period changes alone otherwise; counts below one mean no limit |
| KickLimiter.LoggedCallsAreKicks | agent/channel/channel_gshell.go:246-287 | over a run the log holds kicks of that run only |
| KickLimiter.Drive | agent/channel/channel_gshell.go:246-287 | over any interleaving of checks, entries and reconfigurations with a forward clock the channel panics exactly at an entry under a zero count, and until then every answer is the one the full log gives |
| KickLimiter.PanicsIff | agent/channel/channel_gshell.go:247-254 | a kick panics if and only if the limit is lifted between its check and its entry and not set again before the entry |
| KickLimiter.CheckedBefore | agent/channel/channel_gshell.go:247-250 | every kick that is about to enter has passed its check under a positive count |
| KickLimiter.LiftingPanics | agent/channel/channel_gshell.go:272-283 | a kick, a lifted limit and the kick's entry make a run that panics |
| KickLimiter.LogIsFull | agent/channel/channel_gshell.go:250-269 | while the count stays every kick that enters is logged, refused or not, and none is forgotten |
| KickLimiter.ChangedCountForgets | agent/channel/channel_gshell.go:275-286 | a changed count empties the log and is in force from then on, none if not positive |
| KickLimiter.LogSinceChange | agent/channel/channel_gshell.go:246-287 | at any time of any run the log is exactly the kicks since the count was last changed |
| KickLimiter.CountInForce | agent/channel/channel_gshell.go:275-283 | the count in force is that of the last reconfiguration, none if not positive |
| KickLimiter.LastPeriod | agent/channel/channel_gshell.go:286 | the period in force is that of the last reconfiguration |
| KickLimiter.RefusedIff | agent/channel/channel_gshell.go:260-266 | in nanoseconds: a kick is refused exactly if the call as many calls back as the limit is less than the period ago |
| KickLimiter.RefusedCallsCount | agent/channel/channel_gshell.go:260-266 | with two calls in ten seconds, kicks at 0 s, 1 s and 2 s make one at 10.5 s refused and one at 11 s not |
| TaskOutput.Task.TryReadAll | agent/taskengine/basetask.go:110-119 | moves everything left in the buffer to the kept output, in order |
| TaskOutput.Task.Tick | agent/taskengine/basetask.go:277-293 | one beat moves one block to the posted bytes up to the early quota and to the kept ones after it; posted, kept and unread bytes remain consecutive parts of what was written |
| TaskOutput.Task.GetReportString | agent/taskengine/basetask.go:475-490 | the kept output cut from the front to what the quota leaves; the slice index is always valid |
| TaskOutput.PostedCount | agent/taskengine/basetask.go:279-291 | at most 6000 + 2048 bytes are posted; all that is read is posted unless more than 6000 have been; a periodic task posts nothing |
| TaskReports.CountsGrow | agent/taskengine/basetask.go:277-293 | what is written, read and posted stays so, and past the early quota nothing more is posted |
| TaskOutput.Task.Cancel | agent/taskengine/basetask.go:454-473 | reports the bytes kept so far, once, unless quiet |
| TaskOutput.Task.Run | agent/taskengine/basetask.go:249-355 | the exact bytes of the posts, of the cancel report and of the final report, whether each is made and in which order, and the dropped count, for any mix of output, beats and cancel requests, during the process and after it, and each kind of ending |
| TaskReports.ConcludedRunDelivers | agent/taskengine/basetask.go:330-346 | whenever a final report is made, posts, dropped bytes and report are the output in order, with exactly the excess over the quota dropped |
| TaskReports.DeliveredWithinQuota | agent/taskengine/basetask.go:475-490 | posted and reported bytes together number the smaller of output and quota, and are its beginning and its end |
| TaskReports.StoppedRunDelivers | agent/taskengine/basetask.go:454-472 | the bytes of a canceled run are, in order, the posted ones, those cut from the cancel report, the cancel report and a rest |
| TaskReports.SpansTell | agent/taskengine/basetask.go:475-490 | every report, cancel or final, is exactly the named stretch of the bytes written |
| TaskReports.ReportedTwice | agent/taskengine/basetask.go:341-346 | where a run makes a cancel report and a final one, the end of the one is the beginning of the other, namely what was kept at the cancellation and is not cut later |
| TaskReports.RepeatsIff | agent/taskengine/basetask.go:330-346 | a byte is in two reports if and only if both are made and the final one begins before the end of what the cancellation found; every other run repeats nothing |
| TaskReports.RepeatsAtTimeout | agent/taskengine/basetask.go:341-342 | a command that writes five blocks, is canceled and times out has its last two blocks in both reports |
| TaskReports.RepeatsAfterFinish | agent/taskengine/basetask.go:343-355 | a command that ends by itself and is canceled while its final report is being sent has its whole output in both reports |
| TaskReports.ToldIff | agent/taskengine/basetask.go:343-346 | which bytes reach the server in any run; a quietly canceled command that ends by itself, say, loses all that are not posted |
| TaskReports.NothingLostIff | agent/taskengine/basetask.go:330-346 | every byte reaches the server if and only if all are posted, or a final report within the quota is made, or the cancellation came within the quota and found what posts and final report leave out |
| TaskReports.RunFresh | agent/taskengine/basetask.go:92-99 | one run of a new task that concludes conserves its output and counts the dropped bytes exactly; it makes the final report, the cancel report, both or neither, as stated |
| TaskReports.RunAll | agent/taskengine/basetask.go:475-490 | over any number of runs of one task, the count after each is what the latest run that dropped anything dropped, 0 before any |
| TaskReports.CountIsOwnIff | agent/taskengine/basetask.go:92-99 | the count after a run is the run's own if and only if it drops something or none of the earlier runs did |
| TaskReports.DropsIff | agent/taskengine/basetask.go:482-488 | a run drops something if and only if it makes a final report on an output over the quota, or its cancellation finds more than the quota |
| TaskReports.StaleCount | agent/taskengine/basetask.go:482-488 | after a run over the quota a silent second run still counts the first one's dropped bytes |
| TaskReports.ReportedAs | agent/taskengine/basetask.go:330-347 | a failed report is made exactly if the process fails, a timeout report exactly if it times out, a finished report exactly if it ends by itself and no cancel request came before the decision, a cancel report exactly if the first request is not quiet |
| TaskReports.ReportOrder | agent/taskengine/basetask.go:330-347 | of two reports exactly one is the cancel report, and which comes first depends on when the first request came |
| TaskReports.CancelFinds | agent/taskengine/basetask.go:454-472 | what a cancel report holds, by when the request came: what is kept so far, all of it, or nothing |
| TaskReports.CountTold | agent/taskengine/basetask.go:482-488 | a report tells its own cut, or the count in force if it cuts nothing |
| TaskReports.QuotaIs | agent/taskengine/basetask.go:477-480 | the quota is the log quota, at least 12000 |
| TaskReports.EventCounts | agent/taskengine/basetask.go:277-291 | a beat reads at most 2048 bytes and posts them unless more than 6000 have been posted; nothing else reads or posts |
| TaskReports.SteadyBeats | agent/taskengine/basetask.go:277-291 | of output that is there from the start k beats read 2048 k bytes and the first three post theirs |
| TaskRegistry.TaskFactory.AddTask | agent/taskengine/taskfactory.go:31-44 | adds under the task's own id, or fails and changes nothing if the id is taken |
| TaskRegistry.TaskFactory.IsAnyNonPeriodicTaskRunning | agent/taskengine/taskfactory.go:80-91 | the scan finds a task with an empty schedule exactly if one is registered |
| UpdateProtocol.Perform | agent/taskengine/taskfactory.go:31-67 | every registry access of a machine step is a call of the registry object, which then holds the machine's registry, and whose answer is the one the step acts on |
| UpdateProtocol.Replay | agent/taskengine/taskfactory.go:31-91 | over any run, however interleaved, the registry object holds what the machine's registry holds |
| UpdateBehaviour.EntersSection | agent/taskengine/scheduletask.go:93-107 | a fetcher locks, unlocks and counts itself in |
| UpdateBehaviour.ReceivesAndLeaves | agent/taskengine/scheduletask.go:131-149 | it dispatches all it receives in order, and counts itself out when nothing is left |
| UpdateBehaviour.RegisteredIsIgnored | agent/taskengine/scheduletask.go:160-183 | an entry whose id is registered is ignored |
| UpdateBehaviour.ScheduledIsIgnored | agent/taskengine/scheduletask.go:160-183 | an entry whose id is scheduled is ignored, a one-off task too |
| UpdateBehaviour.OnceIsQueued | agent/taskengine/scheduletask.go:192-213 | a new one-off task is registered and goes to the end of the queue |
| UpdateBehaviour.TakenMeanwhileIsIgnored | agent/taskengine/scheduletask.go:196-199 | a task whose id has been registered since its look-up is not queued |
| UpdateBehaviour.PeriodicIsScheduled | agent/taskengine/scheduletask.go:215-225 | a new periodic task is scheduled, and neither registered nor queued |
| UpdateBehaviour.ElsewhereIsPassedOver | agent/taskengine/scheduletask.go:131-146 | other entries leave registry, schedules and queue alone |
| UpdateBehaviour.OneWayOn | agent/taskengine/scheduletask.go:152-213 | a fetcher with something in hand has at most one way on, so it drops nothing |
| UpdateBehaviour.FiringIsSkipped | agent/taskengine/scheduletask.go:322-327 | a firing that finds its task registered changes nothing |
| UpdateBehaviour.FiringIsQueued | agent/taskengine/scheduletask.go:329-346 | any other undisturbed firing registers the scheduled task, queues it and lowers the flag |
| UpdateBehaviour.RaisedFlagStops | agent/taskengine/timermanager/timer.go:117-124 | with exclusive flag tests no second firing of a timer gets started while one is going on |
| UpdateBehaviour.WorkerCourse | agent/taskengine/taskpool.go:44-48 | a worker takes the first task of the queue, runs it, and its registration is removed |
| UpdateBehaviour.QueueIsFifo | agent/taskengine/taskpool.go:44-52 | over every run tasks begin in the order they were queued, each once, none lost |
| UpdateBehaviour.PoolLimits | agent/taskengine/taskpool.go:28-52 | at most fifty tasks wait, ten workers run, and whoever enqueues waits exactly while the queue is full |
| UpdateBehaviour.WaitsWhileBusy | agent/update/routine.go:455-460 | while fetchers are counted or a non-periodic task is registered the loop turns and changes nothing |
| UpdateBehaviour.BusyLockRetries | agent/update/routine.go:464-469 | a lock held by someone else leads back to the top, with the flag lowered |
| UpdateBehaviour.FreeLockIsTaken | agent/update/routine.go:464-473 | otherwise the lock is taken under the raised flag, and the updater sleeps |
| UpdateBehaviour.FailedRecheckRetries | agent/update/routine.go:475-479 | a failed double check releases the lock, lowers the flag and leads back to the top |
| UpdateBehaviour.PassedRecheckEnds | agent/update/routine.go:484-490 | a passed one starts the script, after which the lock is released, the flag lowered and the function over |
| UpdateBehaviour.EndsAfterScript | agent/update/routine.go:451-490 | in every run the function ends only after the script has run |
| UpdateBehaviour.NoSecondScript | agent/update/routine.go:486-490 | in every run it ends after the script, without starting another |
| UpdateBehaviour.FlagAfterChecks | agent/update/routine.go:455-464 | in every run the critical action begins only after a zero counter and then a registry without non-periodic tasks |
| UpdateBehaviour.ScriptAfterRechecks | agent/update/routine.go:475-486 | in every run the script starts only after both were found again |
| UpdateBehaviour.RetriesFromTop | agent/update/routine.go:451-460 | in every run whatever lets go of the lock starts over with the first check |
| UpdateSafety.FetcherKeepsCounts | agent/taskengine/scheduletask.go:93-107 | every fetcher step keeps the lock with one holder and the counter equal to the number of fetchers in the counted section |
| UpdateSafety.UpdaterKeepsCounts | agent/update/routine.go:451-489 | every updater step keeps the lock and the critical-action flag right |
| UpdateSafety.FetcherKeepsLive | agent/taskengine/scheduletask.go:192-213 | dispatching keeps every live task of a tracked id registered under it, one per id, and nothing else registered there |
| UpdateSafety.TimerKeepsFirings | agent/taskengine/timermanager/timer.go:117-124 | with exclusive flag tests at most one goroutine per timer gets past the test, its flag stays raised, and nothing registers its id before it does |
| UpdateSafety.TimerKeepsLive | agent/taskengine/scheduletask.go:313-346 | so does every step of a timer goroutine, for one-off tasks always and for all tasks with exclusive flag tests; it makes no task without schedule live |
| UpdateSafety.WorkerKeepsLive | agent/taskengine/taskpool.go:44-48 | so do taking a task off the queue, finishing it and removing it |
| UpdateSafety.WakeUpPhase | agent/update/routine.go:466-473 | with no fetcher in the gap at the wake-up, every fetcher left is in the counted section |
| UpdateSafety.CounterCheckPhase | agent/update/routine.go:475 | a zero counter then means there is no fetcher |
| UpdateSafety.RegistryCheckPhase | agent/update/routine.go:476-479 | a registry without non-periodic tasks then means none is added, queued or running |
| UpdateSafety.NonPeriodicIsRegistered | agent/taskengine/taskfactory.go:80-91 | a non-periodic task is registered if and only if one is live |
| UpdateSafety.ReachableInv | agent/taskengine/scheduletask.go:93-107 | in every reachable state of any interleaving all of the above holds together, with at most 50 queued tasks and 10 workers; registration and uniqueness for one-off tasks always, for all tasks with exclusive flag tests |
| UpdateSafety.ScriptRunsAlone | agent/update/routine.go:451-489 | while the update script runs no fetcher is in its counted section and no task with empty schedule is added, queued or running, given the sleep assumption |
| UpdateSafety.TimerAddSucceeds | agent/taskengine/scheduletask.go:324-331 | in every reachable state with exclusive flag tests a timer's add, whose error is ignored, succeeds |
| UpdateSafety.DecisionIsSafeIff | agent/update/routine.go:475-486 | when the double check finds a zero counter and no non-periodic task, starting the script is safe until it ends, under any interleaving, if and only if there is no fetcher at all at that moment |
| UpdateProgress.WakeUpIsSafeIff | agent/update/routine.go:472-486 | at every reachable wake-up everything up to the end of the script is safe, under any interleaving, if and only if no fetcher is in the gap |
| UpdateProgress.AllEnd | agent/taskengine/scheduletask.go:106-124 | from every reachable state some run works off all counted fetchers and all tasks of the pool while the others wait |
| UpdateProgress.ScriptWithinReach | agent/update/routine.go:451-489 | from every reachable state some run leads to a safe start of the script, so the updater is never locked out for good |
| UpdateRuns.SlowFetcherIsUnsafe | agent/taskengine/scheduletask.go:101-106 | without the sleep assumption a reachable state is unsafe |
| UpdateRuns.SharedIdIsUnsafe | agent/taskengine/scheduletask.go:322-346 | without separate ids a reachable state is unsafe although no fetcher was in the gap |
| UpdateRuns.SecondFiringFails | agent/taskengine/timermanager/timer.go:117-124 | without exclusive flag tests some run makes a timer's add fail, and some run enqueues one invocation twice |

## Left out

- Regular expressions, token tables and aliases of the cron parser: lines enter as lexed entries whose numbers are token values, as the value patterns allow them.
- CronFields.GenericFieldParse: starts from entries already matched to a layout, so the pattern matching itself is not in its contract.
- Time zones and daylight saving: all times are UTC, where `time.Date` leaves in-range fields alone.
- CronExpression.Expression.Next: written as three methods (`Next`, `NextInMonth`, `NextOnDay`) for the steps down to the month, the day and the second; the branches are those of the one function in the source.
- CronExpression.Parse: starts from lexed fields, without the aliases; the error texts are not stated.
- The five list-field handlers, each a call of `genericFieldHandler`, are inlined where they are called.
- The library sort behind `toList` is an insertion sort on a value, not in place.
- KickLimiter: one channel per process, and durations without 64-bit overflow; the unlocked read of the count is one step.
- TaskOutput.Task.Run: the retries and the encoding conversion of the posts and the error codes are left out; a cancellation is one step between beats, and one that arrives while the final report is sent is put after it.
- Network failures: a post counts as made when it is handed to the HTTP layer, as in the source.
- UpdateProgress.ScriptWithinReach: says that the updater can get through, not that a fair scheduler lets it.
- UpdateSafety.TimerAddSucceeds: assumes exclusive flag tests, which the code does not guarantee; `SecondFiringFails` shows the assumption is needed.
- `Fetch` asks for tasks at most twice; the machine lets a fetcher ask any number of times.
- Cancelling a task or a schedule, version replacement, schedules whose timer cannot be created, sessions, tests and file sending: a fetcher passes over such entries, and a schedule stays.
- The timed-out lock attempt and a firing that finds its flag raised change nothing and are not steps.
- Downloading, checking and unpacking an update, and everything else that is network, file or service plumbing.
