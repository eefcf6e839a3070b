# Gatus, modelled and proved in Dafny

Gatus checks the health of services, keeps a bounded record of what it saw, and notifies people
when an endpoint goes down, stays down or recovers. This project models the parts of it that hold
state or decide something over time, and proves what they keep over whole runs.

`dafny verify dfyconfig.toml` checks everything.

## How the project is laid out

| file | subject |
|---|---|
| `HourlyUptime.dfy` | the per-hour index of the in-memory store: aggregates, lazy eviction, size bound |
| `MemoryStore.dfy` | endpoint statuses as bounded views of an unbounded history, and the queries over them |
| `Paging.dfy` | newest-first pages, and the request parameters that select them |
| `Alerting.dfy` | one handled result as a function from state to state |
| `AlertRuns.dfy` | runs without restarts: hysteresis, how often an alert can notify, recoveries |
| `AlertTable.dfy` | the table of triggered alerts as a mirror, and restarts |
| `AlertRestarts.dfy` | what a restart loses, and exactly when that shows |
| `AlertRestartRuns.dfy` | runs with restarts: early resolution, early firing, hysteresis |
| `AlertRestartBounds.dfy` | runs with restarts: how often an alert can notify |
| `AlertRestartReminders.dfy` | runs with restarts: spacing of reminders |
| `ExternalRuns.dfy` | runs of external endpoints: simulation of regular ones, and their reminders |
| `AlertReminders.dfy` | when reminders come, their spacing, and independence of the order of alerts |
| `AlertChecksums.dfy` | which alerts share a row of the table |
| `Watchdog.dfy` | the mutable alerts, endpoints and external endpoints |
| `Gontexts.dfy` | the mutable tree of maps that the endpoints of a suite share |
| `Suites.dfy` | execution of a suite, storing of extracted values, positions of results |
| `SuiteAlerting.dfy` | alerting for the endpoints of a suite |
| `JsonPaths.dfy` | the JSON path splitter and walk |
| `Maintenance.dfy` | the maintenance window |
| `Conditions.dfy` | the choice of an operator, the cut into operands, equality |
| `Keys.dfy` | store keys and the check that keeps them apart |
| `GoStrings.dfy`, `Histories.dfy`, `Collections.dfy` | string functions of Go, finite runs, small helpers |

Objects that the program updates in place are classes whose methods are proved against functions
from state to state; the theorems are about those functions. An unbounded reference stands beside
each bounded or optimised form: the full history of insertions beside the store, plain navigation
beside the path walk, the intended window beside the hour comparison.

Times are integers: nanoseconds for instants, seconds for the keys of the hourly index. Providers'
answers, clock readings, the order of map iteration, JSON parsing, placeholder resolution and the
results of health checks are parameters.

## Where the program does something else than it says

- `BadgeReachesEndIff`: the two clock readings behind a badge may fall into different hours; then the
  latest hour is missing from its range. `LastHourReachesEnd` says this for arbitrary ranges.
- `MirrorIffDistinctDefinitions`: two alerts of an endpoint that differ only in their reminder
  interval or provider override share a row of the table, and the mirror then breaks.
- `NoEarlyResolutionIff`: a failure resets the number of successes in a row but not the stored one, so
  after a restart an alert can be resolved by fewer successes in a row than its threshold asks for
  (`EarlyResolution`).
- `NoEarlyFiringIff`: a restart takes the threshold of the last triggered alert for failures in a row, so
  another alert can fire on failures that only that one has seen (`EarlyFiring`).
- `HysteresisAcrossRestartsIff` and `NotificationBoundIff`: hysteresis and the notification bound, which
  `ExactHysteresis` and `NotificationBound` prove for runs without restarts, need conditions with them.
- `RemindersAcrossRestartsAreSpacedIff`: a restart forgets when the last reminder was delivered.
- `ForgottenAlternatesIff`: triggered alerts of suite endpoints are not restored, so their
  notifications can go out twice.
- `ExternalRemindersAreSpacedIff`: the reminder time is lost in the conversion of an external endpoint,
  so its reminders keep their interval only if there are none.
- `HandledWith`: once an endpoint of a suite has been skipped, alerting handles later
  endpoints with the results of others.
- `TimerOnlyReports`: the timeout of a suite adds an error and stops nothing; `LastExecutedDecides`: an
  overrun during the last executed endpoint is not even reported.
- `MeetsIntentIff`: a maintenance window longer than 24 hours less the minutes of its start is cut
  off when its start hour comes round again.
- `ClockRoundTrip`: the separator of `hh:mm` is not looked at, as long as it is one byte.
- `OrderFreeIffConflictFree`: a suite that stores under both `a` and `a.b` leaves a context that
  depends on the iteration order of a map.
- `PanicsIff`: a JSON path whose first key has a name and an index panics on a body that is an array or a
  scalar.
- `FoundIff`: a JSON path that goes on beyond an array, a number or a boolean yields that value
  instead of an error.
- The variable that holds the eviction cutoff is named after seven days; it lies 30 days and one
  hour back.

## Model

| member | source | states |
|---|---|---|
| HourlyUptime.RetainedBucketsAreExact | app/storage/store/memory/uptime.go:16-43 | after any history of insertions, whatever the order of timestamps and clock readings, every bucket from the cutoff of the latest clock reading on equals the aggregate of all results ever inserted in that hour: eviction is invisible there |
| HourlyUptime.BucketsAreSane | app/storage/store/memory/uptime.go:20-30 | every bucket the index holds, evicted and re-created ones included, has at least one execution and no more successes than executions |
| HourlyUptime.WindowCounts | app/storage/store/memory/uptime.go:20-30 | the aggregate of a range of hours is the number of inserted results observed in these hours, the number of successes among them, and the sum of their milliseconds modulo 2 to the 64 |
| HourlyUptime.MillisIs | app/storage/store/memory/uptime.go:30-30 | a duration counts as whole milliseconds rounded down; a negative one is rounded towards zero and wraps |
| HourlyUptime.EvictsLazily | app/storage/store/memory/uptime.go:35-41 | up to 768 buckets an insertion deletes nothing; above, exactly what lies before the cutoff |
| HourlyUptime.WindowSplits | app/storage/store/memory/memory.go:115-128 | the aggregate of a range of hours is the sum of the aggregates of its two parts, response times wrapping as 64-bit integers do |
| HourlyUptime.HourOfNext | app/storage/store/memory/memory.go:118-127 | stepping a query by one hour visits the next bucket: none twice and none left out |
| HourlyUptime.SumHoursIsWindow | app/storage/store/memory/memory.go:115-128 | adding up n consecutive buckets from a retained hour gives exactly the aggregate of the whole history in those hours |
| HourlyUptime.SumHoursIsSane | app/storage/store/memory/memory.go:115-132 | however old the range, the totals of a query never report more successes than executions |
| HourlyUptime.LastHourReachesEnd | app/storage/store/memory/memory.go:117-118 | a query covers the hour of its upper end if and only if the end is at least as far into its hour as the start is into its own; otherwise it stops exactly one hour short |
| HourlyUptime.BadgeReachesEndIff | app/api/badge.go:44-61 | a range from whole hours before one clock reading to a second one less than an hour later covers the latest hour if and only if no hour begins between the two readings |
| HourlyUptime.ChartReachesEnd | app/api/chart.go:38-53 | a range that starts on the hour always covers the latest hour |
| HourlyUptime.RecentStartIsRetained | app/storage/store/memory/uptime.go:35-36 | a query start at most 30 days before the latest insertion lies in a retained hour, thanks to the extra hour of the cutoff |
| HourlyUptime.ChartStartIsRetained | app/api/chart.go:38-41 | the hour-aligned start of the 30-day chart, read at any time after the latest insertion, lies in a retained hour |
| HourlyUptime.ExactSlack | app/storage/store/memory/uptime.go:36-36 | starts that lie further back than 30 days are safe at every clock reading if and only if they do so by at most one second |
| HourlyUptime.EvictedSize | app/storage/store/memory/uptime.go:35-42 | an eviction pass leaves at most 722 buckets, since only so many hours fit between the cutoff and the clock |
| HourlyUptime.IndexSizeBound | app/storage/store/memory/uptime.go:9-42 | with results not timestamped after a clock that never goes back, the index never exceeds 768 buckets after an insertion, and has at most 722 after one that evicted |
| HourlyUptime.HourlyUptimeStatistics.Add | app/storage/store/memory/uptime.go:26-30 | counts one execution in place; response times wrap at 64 bits and negative durations convert as in Go |
| HourlyUptime.Uptime.Process | app/storage/store/memory/uptime.go:16-43 | the mutable index moves from one content to the next exactly as the index function says, and its entries stay unshared |
| HourlyUptime.Uptime.Count | app/storage/store/memory/uptime.go:20-30 | finds or creates the entry of the hour and changes no other |
| HourlyUptime.Uptime.CleanUp | app/storage/store/memory/uptime.go:36-41 | removes exactly the hours before the cutoff and leaves all other entries as they are |
| HourlyUptime.Uptime.EvictBefore | app/storage/store/memory/uptime.go:37-41 | deleting while iterating, in any order of keys, removes exactly the hours before the cutoff |
| MemoryStore.StatusIsBoundedHistory | app/storage/store/memory/util.go:81-108 | after any history a status shows the last results up to the maximum, the retained tail of the complete event log, and the hourly index of the whole history |
| MemoryStore.RetainedIsTail | app/storage/store/memory/util.go:88-94 | with room for two events or more, the retained events are simply the tail of the complete log |
| MemoryStore.ChangeIsLogged | app/storage/store/memory/util.go:85-99 | a result that establishes or changes the health is logged last, with its own time and health; any other leaves the complete log as it was |
| MemoryStore.FullLogAlternates | app/storage/store/memory/util.go:85-99 | the complete log starts with START, its health events alternate, and its last event tells the health of the last result |
| MemoryStore.RetainedEventsAlternate | app/storage/store/memory/util.go:85-99 | the same alternation and last event hold of what the store retains |
| MemoryStore.VisitedIsWindow | app/storage/store/memory/memory.go:115-128 | a recent query sees exactly the history of the whole hours from that of its start to the last one visited |
| MemoryStore.ThirtyDaysAreRecentEnough | app/storage/store/memory/uptime.go:9-12 | every start in the 720 hours before the latest insertion is recent enough for the exact answers below |
| MemoryStore.RatioOfWindow | app/storage/store/memory/memory.go:129-132 | the uptime of a range times the number of its executions is the number of its successes; it is 0 without executions, and 1 if and only if there were executions and none failed |
| MemoryStore.AverageOfWindow | app/storage/store/memory/memory.go:159-162 | the average response time of a range is the milliseconds of its executions, shared out and rounded down |
| MemoryStore.VisitedIsFraction | app/storage/store/memory/memory.go:129-132 | for any range, retained or not, the uptime lies between 0 and 1 |
| MemoryStore.AveragesMembers | app/storage/store/memory/memory.go:176-188 | the hourly averages have an entry for an hour if and only if it was visited and something was executed in it, and the entry is the average of that hour |
| MemoryStore.RetainedResultsDecideNewer | app/storage/store/memory/memory.go:315-320 | with timestamps that never go back, looking for a newer result among the retained ones decides the question for all results ever inserted |
| MemoryStore.Status.Add | app/storage/store/memory/util.go:81-108 | adding a result extends the record of the status by it, and the status stays what its record makes of it |
| MemoryStore.Status.AddToWindow | app/storage/store/memory/util.go:85-106 | the bounded lists after a result, events trimmed only at a change of health |
| MemoryStore.Status.constructor | app/storage/store/memory/memory.go:197-201 | a new status holds the start event and nothing else |
| MemoryStore.Store.constructor | app/storage/store/memory/memory.go:33-41 | a new store knows no key |
| MemoryStore.Store.InsertEndpointResult | app/storage/store/memory/memory.go:192-207 | appends to the record of the key of the endpoint, creating it if need be, and changes the record of no other key |
| MemoryStore.Store.Create | app/storage/store/memory/memory.go:196-202 | adds a status with an empty history and leaves all other records as they are |
| MemoryStore.Store.Append | app/storage/store/memory/memory.go:203-204 | extends the record of one key and leaves all other records as they are |
| MemoryStore.Store.GetEndpointStatusByKey | app/storage/store/memory/memory.go:83-91 | not found if and only if nothing was ever inserted under the key; otherwise pages of the last results and of the tail of the complete event log |
| MemoryStore.Store.AddUp | app/storage/store/memory/memory.go:146-158 | the query loop terminates and adds up each visited hour once |
| MemoryStore.Store.GetUptimeByKey | app/storage/store/memory/memory.go:105-133 | for a recent range the part that succeeded of all results ever inserted and observed in the visited hours; for every range a value between 0 and 1; both errors exactly when they apply |
| MemoryStore.Store.GetAverageResponseTimeByKey | app/storage/store/memory/memory.go:136-163 | for a recent range the milliseconds of all results ever inserted and observed in the visited hours, shared out and rounded down; both errors exactly when they apply |
| MemoryStore.Store.GetHourlyAverageResponseTimeByKey | app/storage/store/memory/memory.go:166-189 | for a recent range an entry for exactly the visited hours in which any inserted result was observed, with their milliseconds shared out and rounded down |
| MemoryStore.Store.AveragePerHour | app/storage/store/memory/memory.go:176-188 | the hourly query loop terminates and yields the averages of the visited hours |
| MemoryStore.Store.HasEndpointStatusNewerThan | app/storage/store/memory/memory.go:303-321 | false for an unknown key; with ordered timestamps true if and only if any result ever inserted is newer |
| MemoryStore.Store.AnyNewer | app/storage/store/memory/memory.go:315-320 | whether some retained result is newer |
| MemoryStore.Store.DeleteAllEndpointStatusesNotInKeys | app/storage/store/memory/memory.go:237-252 | keeps the records of exactly the given keys unchanged, drops all others, and returns how many went |
| MemoryStore.Store.KeysToDelete | app/storage/store/memory/memory.go:238-250 | the existing keys that are not among the given ones, whatever the order of iteration |
| Paging.SliceIsInBounds | app/storage/store/memory/util.go:62-77 | for every page and page size, negative and zero ones included, a slice that is taken lies within the list |
| Paging.PagesAreTail | app/storage/store/memory/util.go:62-77 | pages k down to 1 are, in order, the last k times page size entries |
| Paging.PagesCoverEverything | app/storage/store/memory/util.go:22-36 | read from the last page to the first, the pages are the whole list, each entry once |
| Paging.PageLength | app/storage/store/memory/util.go:62-77 | no page holds more than its size, and pages beyond the last are empty |
| Paging.NoSuchPage | app/storage/store/memory/util.go:62-65 | page 0, negative pages and pages without size show nothing |
| Paging.ExtractPageAndPageSize | app/api/util.go:17-46 | absent, malformed and non-positive parameters fall back to the defaults; both values are at least 1; page 1 is clamped to the maximum number of results |
| Paging.ClampIsInvisible | app/api/util.go:38-44 | on a store within its maximum, the clamp of page 1 never changes what a page shows, so the pages of one page size fit together |
| Alerting.StepPerAlert | app/watchdog/alerting.go:27-118 | what becomes of an alert in a step depends on that alert, the counters, the reminder time read before the loop and its own attempt only, not on the other alerts of the endpoint |
| Alerting.StepCounters | app/watchdog/alerting.go:28-29 | a step adds one to the counter of its kind and resets the other |
| Alerting.StepCounts | app/watchdog/alerting.go:35-78 | a step adds one delivered initial notification of an alert exactly when the alert is enabled, due, not triggered and its provider delivers, and one resolution exactly when it is resolved |
| AlertRuns.CountersAreTrailingRuns | app/watchdog/alerting.go:27-118 | after any run from a clean start the two counters are the lengths of the trailing runs of failures and of successes |
| AlertRuns.ExactHysteresis | app/watchdog/alerting.go:27-118 | in runs without restarts and for arbitrary outcomes of sends, an alert is triggered after a run if and only if at some moment enough failures in a row met a delivering provider and no later prefix ended in enough successes |
| AlertRuns.ReliableHysteresis | app/watchdog/alerting.go:27-118 | for an enabled alert whose sends succeed: triggered if and only if some prefix ends in at least F failures and no longer prefix ends in S successes |
| AlertRuns.NotificationsArePaid | app/watchdog/alerting.go:27-118 | the amortised invariant behind the bound: each notification has been paid for by a full run of failures and each resolution by a full run of successes |
| AlertRuns.NotificationBound | app/watchdog/alerting.go:27-118 | in runs without restarts k delivered initial notifications in n handled results satisfy k F + (k - 1) S <= n, whatever the results and failures of sends |
| AlertRuns.OneRecoveryPerResolution | app/watchdog/alerting.go:96-115 | over any run, an alert that is not to be sent on resolution sends no recovery; one that is, and has a provider, sends exactly one per resolution, whether or not it gets through |
| AlertTable.StepRow | app/watchdog/alerting.go:67-101 | what a step does to the row of an alert depends on that alert alone, if no enabled alert shares a checksum |
| AlertTable.StepOtherRow | app/watchdog/alerting.go:67-101 | a step changes no row but those of enabled alerts |
| AlertTable.StepKeepsMirror | app/watchdog/alerting.go:67-101 | a step keeps the mirror: a row exists if and only if an enabled alert is triggered, it carries the resolve key, and its successes are below the threshold |
| AlertTable.RestartRestoresTriggered | app/main.go:136-159 | a restart with unchanged configuration reproduces every triggered flag and the resolve keys of triggered alerts, prunes nothing, and keeps the mirror |
| AlertTable.RestartPrunes | app/main.go:137-146 | whatever the table held, after a restart it holds exactly the rows of enabled alerts, with their contents |
| AlertTable.ReconfiguredIs | app/main.go:136-159 | after a restart with any other configuration: rows of dropped, edited or disabled definitions are gone and the others as they were, and an alert is triggered if and only if it has such a row, with its resolve key |
| AlertTable.NewDefinitionStartsUntriggered | app/main.go:147-158 | an alert whose definition is new starts untriggered |
| AlertTable.DroppedIsForgotten | app/main.go:143-143 | a definition that is dropped and put back later is not restored, whatever the table held before |
| AlertTable.ReconfiguredKeepsMirror | app/main.go:136-159 | after a restart with another configuration the table mirrors the flags of the new alerts, and exactly the enabled ones that were triggered under the same definition are |
| AlertTable.MirrorAlways | app/main.go:134-159 | after any sequence of handled results and restarts the mirror holds, and the delivered initial notifications and the resolutions of each alert strictly alternate |
| AlertTable.SharedChecksumBreaksMirror | app/alerting/alert/alert.go:112-124 | if an enabled alert shares its checksum, a concrete run after which the mirror is broken |
| AlertTable.MirrorIffDistinctRows | app/alerting/alert/alert.go:112-124 | the mirror holds throughout every run with restarts if and only if no enabled alert shares its checksum with another alert |
| AlertRestarts.IndistinguishableIff | app/watchdog/alerting.go:27-118 | no sequence of results and outcomes tells two states apart by the flag of an alert if and only if equally many results are missing to flip it: successes if it is triggered, failures if it is not |
| AlertRestarts.RestartedCounters | app/main.go:147-158 | a restart takes both counters from the last triggered alert in the list: the failures from its threshold, the successes from its row; without a triggered alert both are zero |
| AlertRestarts.RestartIsInvisibleIff | app/main.go:147-158 | a restart is invisible to the flag of an alert, whatever follows, if and only if: for a triggered alert, the successes in the row of the last triggered alert leave as many missing as the counter did; for another one, the threshold of the last triggered alert (or zero) leaves as many failures missing as the counter did |
| AlertRestarts.SuccessIsPersisted | app/watchdog/alerting.go:86-92 | after every handled success the row of every triggered alert carries the current number of successes |
| AlertRestarts.RestartResumesSuccesses | app/main.go:153-155 | after a handled success, if some alert is triggered, a restart resumes counting successes where it was left, whichever row is loaded last |
| AlertRestarts.RestartAfterSuccess | app/main.go:136-159 | after a handled success a restart is invisible to an alert if and only if the alert is triggered, or disabled, or needs one failure only, or no alert is triggered |
| AlertRestarts.StaleSuccessesShow | app/watchdog/alerting.go:28-48 | after a failure a restart is invisible to a triggered alert if and only if the row of the last triggered alert stores no successes or the alert needs one only, with any number of alerts |
| AlertRestarts.StaleRowIsReachable | app/watchdog/alerting.go:27-92 | for every enabled alert that needs two successes or more, a run from a clean start that ends in a failure and leaves one success in its row |
| AlertRestarts.StaleRowShows | app/main.go:147-158 | the restart after that run is visible to the alert |
| AlertRestarts.LostFailureShows | app/main.go:136-158 | for every enabled alert that needs two failures or more, a run after which a restart is visible |
| AlertRestarts.AllRestartsAreInvisibleIff | app/main.go:136-159 | restarts are invisible to an alert at every moment of every run, earlier restarts included, if and only if it is disabled or both its thresholds are one |
| AlertRestarts.ForgottenAlternatesIff | app/main.go:134-184 | endpoints of suites are not restored: the notifications and resolutions of their alert go on alternating after a restart, whatever follows, if and only if the alert was not triggered or is disabled |
| AlertRestartRuns.EarlyResolution | app/main.go:153-155 | for every enabled alert that needs S >= 2 successes, a run from a clean start that ends by resolving it after S - 1 successes in a row |
| AlertRestartRuns.NoEarlyResolutionIff | app/main.go:136-159 | in no run with restarts is an alert resolved with fewer successes in a row than its threshold if and only if it is disabled or its threshold is one |
| AlertRestartRuns.EarlyFiring | app/main.go:153-155 | for every enabled alert that needs two failures or more, next to an enabled one that needs two successes or more, a run from a clean start that ends by firing it after fewer failures in a row than its threshold |
| AlertRestartRuns.NoEarlyFiringIff | app/main.go:136-159 | in no run with restarts does an alert fire with fewer failures in a row than its threshold if and only if it is disabled, its threshold is one, or every other enabled alert is resolved by the first success |
| AlertRestartRuns.LateFiring | app/main.go:136-159 | for every enabled alert that needs two failures or more, a run that ends in enough failures and a delivering provider without firing it |
| AlertRestartRuns.HysteresisAcrossRestartsIff | app/main.go:136-159 | counting results across restarts, an alert is triggered exactly when its history says so in every run if and only if it is disabled or both its thresholds are one |
| AlertRestartBounds.NotificationBoundAcrossRestarts | app/main.go:136-159 | the notification bound holds in every run with restarts if the alert is disabled, if no other enabled alert needs more successes (in particular if it is the only one), or if both its thresholds are one |
| AlertRestartBounds.BoundIsBroken | app/main.go:153-155 | for every enabled alert that needs two failures or more, next to an enabled one that needs more successes, a run with restarts in which it notifies too often |
| AlertRestartBounds.NotificationBoundIff | app/main.go:136-159 | for an alert that needs two failures or more the bound holds in every run with restarts if and only if it is disabled or no other enabled alert needs more successes |
| AlertRestartBounds.CompanyBreaksBound | app/main.go:153-155 | for every alert that needs one failure and two successes or more, an endpoint and a run in which it notifies too often |
| AlertRestartBounds.BoundInAnyCompanyIff | app/main.go:136-159 | the thresholds of an alert guarantee the bound in every endpoint and every run with restarts if and only if it is disabled or both are one |
| AlertRestartReminders.StepSpacedIff | app/watchdog/alerting.go:34-50 | a step keeps the reminders of an alert spaced if and only if they were and it attempts none, or its interval has passed since every earlier delivery for that alert |
| AlertRestartReminders.RestartBreaksSpacing | app/main.go:136-159 | for every enabled alert with an interval, a run with one restart in which a reminder comes too soon |
| AlertRestartReminders.RemindersAcrossRestartsAreSpacedIff | app/main.go:136-159 | the reminders of an alert keep its interval in every run with restarts on a clock that never goes back if and only if it is disabled or has no interval |
| AlertReminders.ReminderTimeIsLastDelivery | app/watchdog/alerting.go:67-75 | after any run the reminder time is that of the last delivered initial notification or reminder of any alert of the endpoint |
| AlertReminders.RemindersComeWhenDue | app/watchdog/alerting.go:34-50 | after any run the next result brings a reminder of an alert if and only if it is a failure, the alert is enabled, triggered, over its threshold, configured for reminders and has a provider, and its interval has passed since the last delivery for any alert |
| AlertReminders.RemindersAreSpaced | app/watchdog/alerting.go:30-48 | on a clock that never goes back, each reminder of an alert of a regular endpoint is attempted at least its minimum interval after every earlier delivered initial notification or reminder of that alert |
| AlertReminders.TriggerFirstReminderTime | app/watchdog/alerting.go:67-75 | with one clock reading, the reminder time moves exactly if something is delivered for some alert |
| AlertReminders.StepOfAlert | app/watchdog/alerting.go:35-116 | the entries a step logs for an alert do not depend on the other alerts |
| AlertReminders.OrderIsIrrelevant | app/watchdog/alerting.go:30-78 | with one clock reading, rearranging the alerts and their outcomes changes neither what is sent for any alert nor the counters, flags and reminder time, nor the table if no enabled alert shares its row |
| AlertChecksums.RowsEqualIff | app/alerting/alert/alert.go:112-124 | two alerts whose types have equally many underscores, as those of the program have none, share a row if and only if they agree in type, enabled flag, send-on-resolved flag, both thresholds and description |
| AlertChecksums.TextAround | app/alerting/alert/alert.go:114-121 | the hashed text: type, flags, thresholds and description, joined by underscores |
| AlertChecksums.UnderscoresMayCollide | app/alerting/alert/alert.go:112-124 | two alerts of different types, one with underscores, that share a row |
| AlertChecksums.MirrorIffDistinctDefinitions | app/alerting/alert/alert.go:112-124 | the table mirrors the triggered flags in every run with restarts if and only if no two enabled alerts of the endpoint agree in type, send-on-resolved flag, thresholds and description |
| Watchdog.Alert.ValidateAndSetDefaults | app/alerting/alert/alert.go:74-85 | thresholds below one become 3 failures and 2 successes, others are left alone, so both are at least one; descriptions with quotes or backslashes are rejected |
| Watchdog.Alert.IsEnabled | app/alerting/alert/alert.go:97-102 | an alert is enabled unless it is switched off |
| Watchdog.Alert.IsSendingOnResolved | app/alerting/alert/alert.go:105-110 | a resolution is sent only if that is switched on |
| Watchdog.Alert.GetDescription | app/alerting/alert/alert.go:88-93 | an absent description is empty |
| Watchdog.Endpoint.HandleAlerting | app/watchdog/alerting.go:16-25 | the mutable endpoint and its alerts take exactly one step; nothing happens without an alerting configuration |
| Watchdog.Endpoint.HandleAlertsToTrigger | app/watchdog/alerting.go:27-81 | handling a failure in place is the step of a failure |
| Watchdog.Endpoint.TriggerAll | app/watchdog/alerting.go:34-80 | the loop over the alerts is the fold of its body, with the reminder time read once before it |
| Watchdog.Endpoint.TriggerAlert | app/watchdog/alerting.go:35-79 | one iteration changes one alert, the reminder time, its row and the log, as the specification says |
| Watchdog.Endpoint.HandleAlertsToResolve | app/watchdog/alerting.go:83-118 | handling a success in place is the step of a success |
| Watchdog.Endpoint.ResolveAll | app/watchdog/alerting.go:85-116 | the loop over the alerts is the fold of its body |
| Watchdog.Endpoint.ResolveAlert | app/watchdog/alerting.go:85-116 | one iteration: below the threshold the number of successes is persisted, at the threshold the alert is resolved |
| Watchdog.Endpoint.Resolve | app/watchdog/alerting.go:96-115 | an alert stays resolved and its row stays deleted even if the provider fails |
| Watchdog.Endpoint.Settle | app/watchdog/alerting.go:96-115 | flag and row go whatever the provider does; a notification is logged exactly if the alert asks for one and has a provider |
| Watchdog.Endpoint.Restore | app/main.go:136-159 | pruning and restoring a freshly loaded endpoint in place is the specified restart; the table keeps exactly the rows of its enabled alerts, as they were |
| Watchdog.Endpoint.EnabledChecksums | app/main.go:137-142 | collects the checksums of exactly the enabled alerts |
| Watchdog.Endpoint.RestoreAlert | app/main.go:147-158 | one alert is restored from its row if there is one |
| Watchdog.ExternalEndpoint.ToEndpoint | app/config/endpoint/external_endpoint.go:90-100 | a fresh endpoint that shares the alert objects and starts without a reminder time |
| Watchdog.ExternalEndpoint.HandleResult | app/api/external_endpoint.go:62-76 | convert, handle and copy back is one step of the external endpoint; under maintenance nothing changes |
| ExternalRuns.StepSimulates | app/watchdog/external_endpoint.go:74-78 | one step keeps an external endpoint and a regular one in agreement |
| ExternalRuns.ExternalSimulatesRegular | app/watchdog/external_endpoint.go:74-78 | fed the same handled results and outcomes, an external endpoint goes through the same counters, triggered flags, initial notifications and resolutions as one long-lived endpoint |
| ExternalRuns.ExternalRemindsAtEveryFailure | app/config/endpoint/external_endpoint.go:91-98 | after any run of an external endpoint the next result brings a reminder of an alert if and only if it is a failure, the alert is enabled, triggered, over its threshold, configured for reminders and has a provider, and its interval has passed since the zero time: the last delivery does not count |
| ExternalRuns.ExternalStepReminders | app/config/endpoint/external_endpoint.go:91-98 | the same for one step from any state |
| ExternalRuns.ExternalStepSpacedIff | app/config/endpoint/external_endpoint.go:91-98 | a step keeps the reminders of an alert spaced if and only if they were and it attempts none, or its interval has passed since every earlier delivery for that alert |
| ExternalRuns.SpacingIsViolated | app/watchdog/external_endpoint.go:74-78 | for every enabled alert with an interval, a run from a clean start in which a reminder comes too soon |
| ExternalRuns.ExternalRemindersAreSpacedIff | app/config/endpoint/external_endpoint.go:91-98 | the reminders of an alert keep its interval in every run on a clock that never goes back if and only if it is disabled or has no interval |
| Gontexts.DeepCopyValue | app/config/gontext/gontext.go:103-121 | terminates and returns a structurally equal value made of fresh, unshared objects, even if the source shares objects |
| Gontexts.DeepCopyMap | app/config/gontext/gontext.go:105-110 | the copy of a map, filled in any order of keys, is structurally equal, fresh and unshared |
| Gontexts.DeepCopySlice | app/config/gontext/gontext.go:111-116 | the copy of a slice is structurally equal, fresh and unshared |
| Gontexts.CopyEntry | app/config/gontext/gontext.go:107-109 | copying one entry adds that entry and keeps the others |
| Gontexts.Gontext.constructor | app/config/gontext/gontext.go:22-34 | a new context equals the initial values, shares nothing with them, and owns its tree |
| Gontexts.DotsLeadOn | app/config/gontext/gontext.go:40-40 | text without dots is one key; the text before the first dot is the first key, and the rest is the rest of the path |
| Gontexts.Gontext.Get | app/config/gontext/gontext.go:37-55 | returns what the dotted path leads to, and fails if and only if it leads nowhere |
| Gontexts.Gontext.Set | app/config/gontext/gontext.go:58-88 | after storing, the path leads to the value; every path that neither continues nor is continued by it leads where it led before, failures included, even where values were replaced by maps; the tree stays unshared |
| Gontexts.Gontext.Navigate | app/config/gontext/gontext.go:65-85 | the loop reaches the map for the last part; the maps it makes on the way change nothing about what the final store yields |
| Gontexts.Gontext.Child | app/config/gontext/gontext.go:68-84 | one part of the path: an existing map is entered, anything else is replaced by a new map |
| Gontexts.Gontext.PutAt | app/config/gontext/gontext.go:86-86 | an assignment deep in the tree changes exactly one subtree and keeps the tree unshared |
| Gontexts.Gontext.GetAll | app/config/gontext/gontext.go:91-100 | a structurally equal tree that shares no object with the context |
| Gontexts.Gontext.Undisturbed | app/config/gontext/gontext.go:26-30 | whatever happens outside its own objects, a context keeps its contents |
| Gontexts.CopyIsIndependent | app/config/gontext/gontext.go:90-100 | after a copy has been taken, any sequence of Sets on the context and of writes into maps of the copy, in any order, shows in each of them exactly its own part |
| Gontexts.GoTheirOwnWays | app/config/gontext/gontext.go:22-121 | after any sequence of Sets on the context and of arbitrary writes into maps and slices that it does not own, the context shows exactly what was stored in it, and each of those maps and slices exactly what was written into it |
| Gontexts.NewIsIndependent | app/config/gontext/gontext.go:22-34 | the same for a context and the initial values it was made from |
| Gontexts.PutThenLookup | app/config/gontext/gontext.go:58-88 | what is stored under a path, and everything below it, is what is found there |
| Gontexts.PutElsewhere | app/config/gontext/gontext.go:58-88 | storing leaves every independent path alone, failures included |
| Gontexts.PutAbove | app/config/gontext/gontext.go:65-85 | on the way to the stored value there are maps, changed by that value only |
| Gontexts.PutThrough | app/config/gontext/gontext.go:72-83 | making an empty map where there is none does not change what a longer path stores |
| Gontexts.PutsCommuteIff | app/config/gontext/gontext.go:58-88 | storing plain values under two different paths commutes if and only if neither path continues the other |
| Suites.StoreResultValues | app/config/suite/suite.go:174-198 | without conflicting keys, each key leads to the value extracted for it afterwards; every path that no stored key concerns leads where it led before; each mapping is returned with what was extracted; fails if and only if some extraction fails |
| Suites.StoreEach | app/config/suite/suite.go:178-193 | the loop records every mapping and leaves the context as if the values were stored one after the other |
| Suites.StoreResultValue | app/config/suite/suite.go:180-192 | one mapping: its key leads to the value extracted, or the context is unchanged if there is none |
| Suites.StoredValues | app/config/suite/suite.go:180-192 | the same for the result of storing under all keys in any order |
| Suites.LastStoreIsFound | app/config/suite/suite.go:132-166 | after an execution a key leads to the value extracted by the last executed endpoint that stored on its path |
| Suites.LeftAlone | app/config/suite/suite.go:132-166 | a path that no endpoint executed since has stored on leads where it led before |
| Suites.ExecutionLeavesValues | app/config/suite/suite.go:132-167 | both for a whole execution |
| Suites.OrderIsIrrelevant | app/config/suite/suite.go:180-192 | without conflicting keys any two orders of iteration leave the same context |
| Suites.OrderFreeIffConflictFree | app/config/suite/suite.go:180-192 | the context a result leaves is the same for all orders of iteration if and only if no two stored keys lie on one path |
| Suites.DotFreeKeysAreConflictFree | app/config/suite/suite.go:180-192 | store keys without dots never conflict |
| Suites.ExecutionIsOrderFree | app/config/suite/suite.go:132-166 | two executions that differ in the orders of iteration only have the same results and final context if no result has conflicting keys, although results may depend on the context |
| Suites.Execute | app/config/suite/suite.go:116-171 | results, errors, success and final context of an execution on the heap are those of the specification; the final context holds the value of the last executed endpoint to store on each path, and the initial values elsewhere; success if and only if all results passed and there is no error |
| Suites.ExecuteAll | app/config/suite/suite.go:131-166 | the loop with its skip rule and its timer is the fold of its body |
| Suites.Evaluate | app/config/suite/suite.go:145-160 | values are stored even if the endpoint failed, and a storing problem adds an error without failing the result |
| Suites.ExecutedExactly | app/config/suite/suite.go:131-166 | executed are, in order, everything up to and including the first failure and later only what always runs; each result is that of its endpoint |
| Suites.AllPassedIff | app/config/suite/suite.go:161-165 | skipping hides no failure: all results passed if and only if every endpoint, executed or not, would have passed when its turn came |
| Suites.TimerOnlyReports | app/config/suite/suite.go:128-144 | executions that differ only in when the timer fires agree in what is executed, in results and in context: a timeout stops nothing |
| Suites.TimedOutIff | app/config/suite/suite.go:137-144 | a timeout is reported if and only if the timer had fired when some executed endpoint was reached |
| Suites.LastExecutedDecides | app/config/suite/suite.go:137-144 | with a timer that stays fired, a timeout is reported if and only if it had fired when the last executed endpoint was reached; an overrun during that endpoint goes unreported |
| Suites.CalculateSuccess | app/config/suite/result.go:42-55 | success if and only if every result passed and there is no error |
| Suites.InPlaceIff | app/watchdog/suite.go:54-56 | in an increasing list of executed indices, i sits at position i if and only if all indices up to i are in the list |
| Suites.PairedWithOwnResult | app/watchdog/suite.go:54-56 | the i-th result of an execution is that of endpoint i if and only if no endpoint up to and including i was skipped; otherwise it is that of a later one, or there is none |
| SuiteAlerting.HandleResults | app/watchdog/suite.go:53-73 | the loop over the endpoints of a suite steps each endpoint with the result at its position, unless there is none or it is silenced, and leaves no trace on the others |
| SuiteAlerting.HandleOne | app/watchdog/suite.go:55-71 | one endpoint is stepped with the result at its position, if there is one and it is not silenced |
| SuiteAlerting.HandledWith | app/watchdog/suite.go:54-70 | after an execution, an endpoint is stepped with its own outcome if and only if no endpoint up to and including it was skipped, otherwise with that of a later one, or not at all |
| JsonPaths.SplitKeys | app/jsonpath/jsonpath.go:25-41 | the scan with its bracket depth cuts exactly at the dots outside brackets |
| JsonPaths.DottedKeys | app/jsonpath/jsonpath.go:25-41 | cutting a path loses nothing |
| JsonPaths.RewriteDropsFirstKey | app/jsonpath/jsonpath.go:45-53 | replacing the first occurrence of the first key and a dot drops exactly the first key, shortens the path, and changes nothing if and only if there is one key: the text cannot match earlier |
| JsonPaths.ScanIndex | app/jsonpath/jsonpath.go:72-88 | the scan finds the first bracketed index, or none if a second bracket opens first |
| JsonPaths.FirstIndexIff | app/jsonpath/jsonpath.go:75-88 | the first index of a key lies between its first opening bracket and the next closing one, if and only if no other bracket opens in between |
| JsonPaths.MalformedIsNull | app/jsonpath/jsonpath.go:89-92 | an indexed key without a well-formed first index, or with one that is no number, yields null |
| JsonPaths.NegativeIndexPanics | app/jsonpath/jsonpath.go:97-101 | every negative index of an array panics |
| JsonPaths.ExtractValue | app/jsonpath/jsonpath.go:69-131 | recursion over nested indices yields the specified value, null or panic for every key and every tree |
| JsonPaths.Walk | app/jsonpath/jsonpath.go:24-67 | the walk that rewrites its path terminates and is a fold of extraction over the keys |
| JsonPaths.Eval | app/jsonpath/jsonpath.go:11-21 | raw for an empty path unless the body is bracketed, invalid if the body does not parse, otherwise the walk |
| JsonPaths.KeysOfRender | app/jsonpath/jsonpath.go:25-41 | a path written from keys with names and indices is cut back into exactly those keys |
| JsonPaths.ExtractOfRender | app/jsonpath/jsonpath.go:69-131 | the text of a key with any number of nested indices is read back to its name and its indices, on every tree |
| JsonPaths.WalkOfRender | app/jsonpath/jsonpath.go:24-131 | walking the text of a valid path is walking its structure, on every tree, quirks and panics included |
| JsonPaths.FoundIff | app/jsonpath/jsonpath.go:43-66 | walking a valid path finds x if and only if plain navigation of some prefix of it selects x and the walk may end there: at the end of the path, at an array, number or boolean on the way, or at a root that is not an object |
| JsonPaths.PanicsIff | app/jsonpath/jsonpath.go:105-105 | walking a valid path panics if and only if its first key has both a name and an index and the root is neither an object nor null |
| JsonPaths.RoundTrip | app/jsonpath/jsonpath.go:24-131 | whatever plain navigation selects, walking the written path finds exactly that node; a null is reported as not found |
| Maintenance.HhmmToDuration | app/config/maintenance/maintenance.go:141-158 | an accepted start is a whole minute within a day |
| Maintenance.ClockRoundTrip | app/config/maintenance/maintenance.go:141-162 | two digits, a separator of one byte and two digits are read as written if they are a time of day, and refused if they are not or if the separator is any other |
| Maintenance.WeekRuns | app/config/maintenance/maintenance.go:121-121 | 1970-01-01 is a Thursday, and after each named day comes the one with the next name |
| Maintenance.NamedDays | app/config/maintenance/maintenance.go:18-26 | each of the seven names belongs to one day in seven, written out |
| Maintenance.DayLookedAtIff | app/config/maintenance/maintenance.go:113-119 | the day looked at is the one between whose start hour and the next day's start hour the instant lies |
| Maintenance.IsUnderIff | app/config/maintenance/maintenance.go:105-130 | true if and only if the instant is strictly inside the window of some scheduled day and before the start hour comes round again |
| Maintenance.IsUnderOnOneDay | app/config/maintenance/maintenance.go:105-130 | with a schedule of one named day: true if and only if the instant is strictly inside the window of a day that is whole weeks from it, and before the start hour comes round again |
| Maintenance.IsUnderOnSundays | app/config/maintenance/maintenance.go:105-130 | on Sundays these are 1970-01-04 and every seventh day from there |
| Maintenance.UnderIsInSomeWindow | app/config/maintenance/maintenance.go:127-129 | true always means strictly inside the window of some scheduled day |
| Maintenance.MeetsIntentIff | app/config/maintenance/maintenance.go:105-130 | the code agrees with the intended windows at every instant if and only if the duration is at most 24 hours less the minutes of the start, for every schedule |
| Maintenance.MissedInstant | app/config/maintenance/maintenance.go:114-117 | the instant that is missed otherwise: the start hour of the next day |
| Maintenance.Config.ValidateAndSetDefaults | app/config/maintenance/maintenance.go:67-102 | accepts exactly the configurations with known days, a readable start, a duration of at most a day and a loadable zone; then the theorems above apply; a disabled one is left alone |
| Maintenance.Config.IsUnderMaintenance | app/config/maintenance/maintenance.go:105-130 | the method in its zone decides the predicate the theorems are about |
| Maintenance.Config.HasDay | app/config/maintenance/maintenance.go:132-139 | whether a day is listed |
| Maintenance.IsDayName | app/config/maintenance/maintenance.go:73-79 | whether a day has a known name |
| Conditions.ChooseIff | app/config/endpoint/condition.go:41-80 | an operator is chosen if and only if it occurs and none that is tested earlier does |
| Conditions.OperatorsInOrder | app/config/endpoint/condition.go:41-80 | the six operators as they are written, in the order in which they are looked for |
| Conditions.WhereOperatorsOccur | app/config/endpoint/condition.go:41-76 | an operator in a written condition lies within an operand and the space beside it, or is the one that was written: operators cannot overlap |
| Conditions.ReadBackIff | app/config/endpoint/condition.go:41-76 | a condition written from two operands and an operator is read back as exactly these if and only if no operator that is tested earlier occurs in an operand and the written one occurs in neither |
| Conditions.OperatorFreeIsUnambiguous | app/config/endpoint/condition.go:41-76 | operands none of whose words is an operator are always read back |
| Conditions.VerdictOfWritten | app/config/endpoint/condition.go:37-86 | an unambiguous condition compares the values of exactly the operands that were written |
| Conditions.VerdictMeans | app/config/endpoint/condition.go:41-76 | for unambiguous operands: the numbers decide the four comparisons, each in its direction; two texts that are no functions are equal if and only if they are the same integer, or the same text when they are not both integers |
| Conditions.OppositeVerdict | app/config/endpoint/condition.go:41-76 | the opposite operator gives the opposite verdict, functions included |
| Conditions.PatternDecides | app/config/endpoint/condition.go:116-128 | a pattern equals a text that is none if and only if it matches, on either side |
| Conditions.SameFunctions | app/config/endpoint/condition.go:114-164 | two lists, or two patterns that do not hold lists, are equal if and only if their insides are |
| Conditions.FlippedVerdict | app/config/endpoint/condition.go:41-76 | writing a condition the other way round, with the flipped operator, does not change the verdict |
| Conditions.IsEqual | app/config/endpoint/condition.go:111-165 | the imperative comparison with its pattern and any functions is the specified one |
| Conditions.EqualIsSymmetric | app/config/endpoint/condition.go:111-165 | equality does not depend on the order of its operands, functions included |
| Conditions.AnyOfIsMembership | app/config/endpoint/condition.go:129-154 | a list of options equals a plain text if and only if the text is one of the options |
| Conditions.AnyOption | app/config/endpoint/condition.go:140-145 | whether some option, trimmed, is the text |
| Conditions.Result.AddError | app/config/endpoint/result.go:66-76 | an error is kept once |
| Conditions.FailuresAreKept | app/config/endpoint/condition.go:177-181 | after resolving, the earlier errors stay first, and each failure is there exactly once after them |
| Conditions.Result.SanitizeAndResolve | app/config/endpoint/condition.go:168-186 | every element is trimmed and resolved; each failure adds its error, unless it is there already, and a marked text |
| Conditions.Result.Evaluate | app/config/endpoint/condition.go:37-86 | returns and records the verdict; without an operator it adds an error, unless it is there already, and records nothing |
| Keys.KeysEqualIff | app/config/key/key.go:6-19 | two keys are equal if and only if both sanitized parts are |
| Keys.SanitizedHasNoUnderscore | app/config/key/key.go:10-19 | no sanitized part contains the separator |
| Keys.SanitizedCharacters | app/config/key/key.go:10-19 | sanitizing works character by character on the trimmed, lower-cased text; exactly the six special characters become dashes |
| Keys.LoweredCharacters | app/config/key/key.go:11-11 | each capital letter becomes its small one, all else stays |
| Keys.KeyParts | app/config/key/key.go:6-8 | a key is the sanitized group, an underscore and the sanitized name |
| Keys.NamesAre | app/config/config.go:480-511 | keys are owned by exactly the endpoints, the external endpoints, the suites and, in the group of their suite, the endpoints of suites |
| Keys.ValidateUniqueKeys | app/config/config.go:478-513 | a configuration is accepted if and only if no two of its endpoints, external endpoints, suites and suite endpoints have the same sanitized group and name, so all have store rows of their own |
| Keys.AddSuites | app/config/config.go:497-511 | the loop over the suites finds a duplicate if and only if there is one |

## Left out

- Floating point: an uptime is an exact ratio, an average response time an integer quotient; rounding of `float64` is not modelled.
- Overflow of the `uint64` execution counters, of the consecutive counters and of page arithmetic; only response times wrap.
- Concurrency: locks, goroutines, tickers and the semaphore; each handled result is one atomic step.
- The cache behind the in-memory store is a map; `GetAllEndpointStatuses` and its sorting, and the clearing of the store, are left out.
- `InsertSuiteResult`, `GetSuiteStatusByKey` and `DeleteAllSuiteStatusesNotInKeys`: the same bounded list and deletion without events and uptime; they would only add easy members.
- The SQL store is an abstract table of one endpoint's rows, keyed by checksum, that never fails; failing persistence and the table's other columns are not modelled.
- The hash over the checksum text is taken to be injective, so a checksum is its text.
- Providers: a send is an outcome given from outside that may leave a resolve key behind; a failing send is taken to leave the alert alone; the mock variables of the environment are ignored.
- Runs with restarts are about an unchanged configuration; a single restart with another one is `AlertTable.ReconfiguredIs`. The loop for external endpoints does the same to the same fields and is not modelled a second time.
- Stored success counts are claimed to be exact after handled successes only; after failures `RestartIsInvisibleIff` says what follows.
- AlertTable.MirrorAlways: covers endpoints and external endpoints; those of suites are not restored, which is `ForgottenAlternatesIff`.
- AlertRestartBounds.NotificationBoundIff: for an alert that needs one failure and more than one success, next to an enabled one that needs more successes, whether the bound holds depends on the order and all thresholds of the alerts; `NotificationBoundAcrossRestarts` and `CompanyBreaksBound` give each side for some.
- AlertRuns.ExactHysteresis: about runs without restarts, as are `ReliableHysteresis` and `NotificationBound`; `AlertRestartRuns.dfy` and `AlertRestartBounds.dfy` say what remains of them with restarts.
- Watchdog.ExternalEndpoint.HandleResult: inserting the pushed result into the store, authentication and request parsing are not part of it.
- Gontexts.Gontext.Set: requires that a stored value shares no object with the context; the program stores numbers, booleans and texts only.
- Wrapping of errors and the texts of error messages, except where a condition or a storing problem adds one.
- Suites.Evaluate: health checking itself and placeholder resolution are given; results may depend on the context through `Follows`.
- SuiteAlerting.HandleResults: whether an endpoint is under maintenance is given; the windows themselves are in `Maintenance.dfy`.
- The defaults set by the validation of a suite: easy members.
- JsonPaths.Walk: yields the node that is found, not its printed form and length.
- JsonPaths.Eval: likewise yields no text and no length.
- Gontexts.DeepCopyValue: a YAML map with keys that are not strings, which the program returns uncopied, has no counterpart among the values.
- Texts are sequences of characters where Go counts bytes; where the length of a text matters, in `HhmmToDuration`, other than one-byte characters are refused as they are in bytes.
- JsonPaths.RoundTrip: indices are at most the largest 64-bit integer; negative indices are covered by `ExtractValue` only.
- Maintenance.Config.IsUnderMaintenance: zones have a fixed offset; shifts of daylight saving time are not modelled.
- Maintenance.Config.ValidateAndSetDefaults: all ways in which a start is unreadable are one error.
- Conditions.Result.Evaluate: the text displayed for a failed condition is not modelled; `any` lists in `AnyOfIsMembership` are written with a comma and a space.
- Keys.KeysEqualIff: lower-casing affects ASCII letters only.
- Chart rendering, metrics, routing, connectivity checks, announcements, the web front end and the Terraform code around the program.
