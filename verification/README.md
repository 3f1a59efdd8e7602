# Regent verification model

Regent is a personal-assistant server: it syncs mail and calendars, suggests meeting slots, notifies users
over several channels, and bills tenants. This project models the parts of it whose promises are about whole
runs rather than single calls, and proves those promises of the model.

Conventions. A SQL table is a map from key to row, and a transaction is its begin, claim, insert, commit and
rollback steps. Redis is a map whose entries expire. Clock readings, random draws and the success or failure of
every outside call are parameters. Code that changes state step by step is a method or a class, proved against
functions of its inputs or old state; the promises are lemmas about those functions, quantified over all
runs, inputs or interleavings.

| file | what it models |
|---|---|
| `SlidingWindow.dfy` | the per-IP sliding window for sign-in, with the cleanup pass |
| `TokenBucket.dfy` | the per-IP token bucket, with the cleanup pass |
| `HourlyLimiter.dfy` | the hourly notification limiter over Redis |
| `LocalClock.dfy`, `BusinessMinutes.dfy` | local time in a fixed-offset zone, and business time between two instants |
| `Sorting.dfy`, `Conflicts.dfy` | the calendar conflict detector, over any result an unstable sort may give |
| `SlotScoring.dfy`, `SlotEngine.dfy`, `SlotSafety.dfy` | slot suggestion, and how it relates to the detector and the stored calendar |
| `Supervisor.dfy` | the restart supervisor |
| `PromoRedemption.dfy` | promo redemption as a protocol between concurrent sessions |
| `PlanCache.dfy` | the plan cache under interleaved reads, writes and invalidations |
| `TenantBilling.dfy` | the tenant payment record, and the tenants table with the operations on it |
| `BillingSessions.dfy` | the same record under interleaved statements of failures, webhooks and sweeps |
| `WebhookDelivery.dfy` | webhook deduplication |
| `CalendarSync.dfy` | the paged calendar sync, its retry loop and its one allowed resync |
| `SubjectThreading.dfy` | the subject normaliser and thread assignment |

## Where the code does not do what one would expect

The model follows the code. Where a natural promise is false of it, the project holds a witness and the exact
condition under which the promise is kept.

- The dunning documentation (`internal/billing/dunning.go:15-19`) says an account is suspended after three failures
  and seven days. The status becomes `suspended` at the third failure at once (`DocumentedSuspensionExactly`),
  while the plan is taken by the stamp, which a paid invoice does not clear (`StampEmptyExactly`), so a new streak
  of failures can cost the plan within seconds. With failures as single steps that happens exactly where the stamp is
  older than the streak (`PlanTakenEarlyExactly`, `StaleStampTakesPlanEarly`). With their statements interleaved, it
  also happens where a reset falls between a failure and its suspension, and in no other case
  (`EarlySuspensionExactly`, `LateSuspensionEndsNewStreak`).
- The statements of a failure are not one transaction. The payment invariant breaks exactly when a suspension comes after
  the count has been reset and before three more failures (`InvariantBrokenExactly`, `LateSuspensionExactly`), so
  a payment in between leaves a paid-up tenant suspended (`PaymentThenLateSuspension`); a late stamp can end up on a
  row without failures (`LateStampExactly`).
- The grace sweep does not look again before it downgrades, and can take a plan bought since its query
  (`GraceDowngradeExactly`, `GraceSweepTakesNewPurchase`). The trial sweep takes the plan of a tenant that has since bought
  it (`TrialSweepTakesPlanExactly`, `TrialSweepTakesBoughtPlan`).
- `stripe_customer_id` is not unique: a payment failure counts every row of the customer but stamps and suspends one
  (`FailuresTakePlanExactly`, `PlanLostFromCleanRow`, `NeverPickedKeepsPlan`).
- A webhook whose first delivery fails is lost, because its id is recorded before its handler runs
  (`EffectsExactly`, `LostUnlessFirstCompletes`). With the schema of `migrations/041_webhook_events.up.sql`, whose
  column is `stripe_event_id` where the Go code inserts `event_id`, recording would always fail and every
  delivery would run its handler; the model covers both.
- The plan cache can hold an old plan: exactly if the entry's read overlapped a write, or the invalidation of a later
  write has failed or is still to come (`StaleExactly`, `OverlapLeavesStale`, `FailureLeavesStale`).
- A promo code can be redeemed after its deactivation, because the claim does not look at activity again: a committed
  redemption finds its code inactive iff a deactivation took effect after the look-up (`RedeemedExactly`,
  `RedeemedAfterDeactivation`).
- An hourly counter can be gone for a call of its own bucket whose increment arrives an hour or more after the bucket's
  hour has ended, and only for such a call (`StallExactly`): a stall of little over an hour between reading the clock and
  counting can do. Then one send too many gets through (`StalledCallStartsAfresh`).
- The detector overstates the overlap of nested events (`OverlapExact`). It overlooks an event that ends in the first hour past
  the preferred end, or on a later day before that hour is over (`LateEndExact`, `NightEventOverlooked`), and a focus block
  that an event over midnight lies in (`NightFocusOverlooked`). The buffer is stored without a check of its sign; with a negative one the detector
  misses overlaps: exactly when, in terms of the sorted order (`ReportsAllPairs`) and of the events alone
  (`DetectorExactOnInput`).
- The slot engine does not end for an increment that is not positive (`WalkTerminatesExactly`). Its hour filter compares
  hours of day only, so a slot that runs past midnight passes (`HourFilterExact`, `MidnightSlotPasses`). Events that lie
  outside the search range are not loaded, so the buffer to them is not kept (`BufferKeptExactly`,
  `BufferLostAtTheEdge`): only a margin to both ends of the range guarantees it. Outside its filter, a slot can score
  above 1 (`UnfilteredScoreExceedsOne`), because partial credit counts whole hours (`UnfilteredScoreExactly`).
- The stand-alone `calculateBackoff` agrees with the supervisor up to 32 failures only; from 33 on its conversion to a
  64-bit duration overflows (`HelperAgreesExactly`).
- The database strips one subject prefix where the normaliser strips all, so the subject fallback does not find an email
  with nested prefixes (`SqlAgreesExactly`, `FallbackFindsExactly`, `NestedReplyIsNotFound`).
- The migration `migrations/038_tenant_billing_columns.up.sql` has no `first_failure_at` column, and its check constraint does
  not admit the statuses `failing`, `grace_period` and `none` that the Go code writes. The model follows the Go code.
- The scheduled jobs meant to run the two sweeps are stubs (`internal/orchestrator/cron.go:665-685`). The sweeps are modelled as
  they are written.

## Model

| member | source | states |
|---|---|---|
| SlidingWindow.AuthRateLimiter.Handle | internal/middleware/auth_ratelimit.go:49-82 | prune, check and append leave the windows and the verdict the specification gives, with the two clock readings apart |
| SlidingWindow.AuthRateLimiter.Cleanup | internal/middleware/auth_ratelimit.go:84-101 | every list is pruned, empty ones are dropped, no other address is touched |
| SlidingWindow.Prune | internal/middleware/auth_ratelimit.go:62-68 | keeps exactly the attempts strictly after the cutoff, in order |
| SlidingWindow.KeptKept | internal/middleware/auth_ratelimit.go:61-68 | pruning early is absorbed by any later pruning |
| SlidingWindow.RefinesFullHistory | internal/middleware/auth_ratelimit.go:49-101 | over every run with cleanups anywhere, the verdicts are those of a limiter that forgets nothing |
| SlidingWindow.HistoryIsAdmissions | internal/middleware/auth_ratelimit.go:70-77 | what that reference limiter remembers is exactly what the real one admitted |
| SlidingWindow.CleanupIsInvisible | internal/middleware/auth_ratelimit.go:84-101 | removing all cleanup passes from a run changes no verdict |
| SlidingWindow.AtMostLimitPerWindow | internal/middleware/auth_ratelimit.go:49-82 | in every run, at most `limit` requests of an address are admitted in any half-open window of the configured length |
| SlidingWindow.VerdictExactly | internal/middleware/auth_ratelimit.go:60-77 | after any run a request passes iff fewer than `limit` requests of its address have been admitted in the window of that length ending at its clock reading |
| SlidingWindow.StoredListsInvariant | internal/middleware/auth_ratelimit.go:49-101 | stored attempts stay sorted and never exceed the limit |
| TokenBucket.Bucket.Allow | internal/middleware/ratelimit.go:18-32 | refill, cap and spend leave the level and verdict of the specification |
| TokenBucket.RateLimiter.Allow | internal/middleware/ratelimit.go:69-84 | creates a full bucket for a new address, serves the request, leaves all other buckets alone |
| TokenBucket.RateLimiter.Cleanup | internal/middleware/ratelimit.go:58-67 | keeps exactly the buckets filled in the last 600 seconds |
| TokenBucket.IdleIsFull | internal/middleware/ratelimit.go:20-24 | a bucket idle for ten minutes offers its maximum |
| TokenBucket.ApplyBalance | internal/middleware/ratelimit.go:18-84 | a request passes iff the balance of its address is at least one and then costs one; cleanup moves no balance |
| TokenBucket.ApplySound | internal/middleware/ratelimit.go:18-84 | tokens stay between 0 and the configured rate |
| TokenBucket.AdmittedFrom | internal/middleware/ratelimit.go:18-84 | from any sound state, admissions in an interval never exceed balance plus inflow |
| TokenBucket.RateBound | internal/middleware/ratelimit.go:18-84 | in every run an address gets at most rpm + D * rpm / 60 requests through in any D seconds, for the literal rate |
| TokenBucket.RefillExactly | internal/middleware/ratelimit.go:20-25 | after d seconds without a request the balance is min(rpm, balance + d * rpm / 60) |
| TokenBucket.AdmitsExactly | internal/middleware/ratelimit.go:18-32 | a request passes iff the balance at any earlier instant and the inflow since reach one |
| TokenBucket.NewcomerBurst | internal/middleware/ratelimit.go:73-83 | a new address gets exactly rpm requests through at one instant |
| TokenBucket.NothingBelowOne | internal/middleware/ratelimit.go:27-31 | with a rate below one nothing is ever admitted |
| TokenBucket.CleanupIsInvisible | internal/middleware/ratelimit.go:58-67 | removing all cleanup passes from a run changes no verdict |
| HourlyLimiter.RateLimiter.Allow | internal/briefings/ratelimit.go:32-55 | increment, conditional expiry and verdict as specified; open without Redis, without a limit and on an error |
| HourlyLimiter.NeverReset | internal/briefings/ratelimit.go:42-52 | the two-hour expiry, sent late, twice or never, does not reset a counter a prompt call can reach; each operation adds exactly its own increment |
| HourlyLimiter.AllowedExactly | internal/briefings/ratelimit.go:32-55 | however calls overlap, in an hour bucket exactly min(limit, attempts) sends pass, plus one for each attempt that fails open |
| HourlyLimiter.ChannelBudgets | internal/briefings/ratelimit.go:18-23 | in numbers: min(10, 20, 50 or 10, attempts) for text, WhatsApp, push and Signal, no limit on other channels |
| HourlyLimiter.RollingBound | internal/briefings/ratelimit.go:32-55 | without Redis errors at most 2 * limit sends fall in any rolling 3600 seconds |
| HourlyLimiter.StallExactly | internal/briefings/ratelimit.go:42-52 | after some run a call finds its counter gone iff its increment arrives an hour or more after its bucket's hour |
| HourlyLimiter.StalledCallStartsAfresh | internal/briefings/ratelimit.go:50-54 | for every such call a run of prompt calls exists after which it is send number limit + 1 |
| BusinessMinutes.BusinessMinutesBetween | internal/behavior/response_time.go:84-140 | the day-walking loop ends and returns the measure of all business instants in [start, end) |
| BusinessMinutes.Additive | internal/behavior/response_time.go:97-139 | splitting an interval anywhere loses and gains nothing |
| BusinessMinutes.Monotone | internal/behavior/response_time.go:97-139 | a larger interval never has less business time |
| BusinessMinutes.AtMostElapsed | internal/behavior/response_time.go:97-139 | business time is at most elapsed time |
| BusinessMinutes.OneDay | internal/behavior/response_time.go:105-132 | within a day it is the overlap with the 09:00-18:00 window, nothing on weekends |
| BusinessMinutes.BusinessIsNineToSix | internal/behavior/response_time.go:89-109 | an instant is business time iff it is from Monday to Friday between 9 and 18 o'clock, in literal nanoseconds |
| BusinessMinutes.WholeDay | internal/behavior/response_time.go:89-139 | a whole weekday has 540 minutes, a weekend day none |
| BusinessMinutes.DayStep | internal/behavior/response_time.go:97-137 | one loop iteration accounts for everything up to 09:00 on the next day |
| BusinessMinutes.PerDaySum | internal/behavior/response_time.go:84-140 | the total is the sum of every calendar day's window intersected with [start, end) |
| BusinessMinutes.AtMostNineHoursPerWeekday | internal/behavior/response_time.go:89-139 | at most 540 minutes for each weekday touched |
| Sorting.SortSlice | internal/calendar/conflicts.go:14-16 | a permutation in which nothing is less than an earlier element, and no more than that |
| Conflicts.FilterActive | internal/calendar/conflicts.go:82-90 | the events that are not cancelled, in order |
| Conflicts.SortByStart | internal/calendar/conflicts.go:14-16 | a permutation in order of start time |
| Conflicts.ScanRow | internal/calendar/conflicts.go:23-61 | the early stop loses nothing: the row equals the one without it |
| Conflicts.PreferenceConflicts | internal/calendar/conflicts.go:63-75 | one conflict for each violation |
| Conflicts.EventConflicts | internal/calendar/conflicts.go:21-76 | one round yields the pairs of an event, then its violations |
| Conflicts.ScanAll | internal/calendar/conflicts.go:21-76 | the reports of all events in their order |
| Conflicts.RowOutOfReach | internal/calendar/conflicts.go:25-27 | in start order, once one event is out of reach all later ones are |
| Conflicts.DetectConflicts | internal/calendar/conflicts.go:12-79 | for any buffer, every pair is reported as often as the all-pairs definition asks iff no overlap is hidden in the sorted order; for a nonnegative buffer always |
| Conflicts.CheckPreferences | internal/calendar/conflicts.go:93-147 | hour, no-meeting-day and focus-block violations, the day at most once, none for all-day events |
| Conflicts.PermutationInvariant | internal/calendar/conflicts.go:14-16 | the all-pairs definition does not depend on the order of the events |
| Conflicts.PairTestExact | internal/calendar/conflicts.go:25-60 | the scan's test is the definition of hard and soft iff no negative buffer hides an overlap |
| Conflicts.ScanReportsAllPairs | internal/calendar/conflicts.go:21-61 | for every pair, what the scan reports and the hidden overlaps it misses add up to the all-pairs definition |
| Conflicts.ReportsAllPairs | internal/calendar/conflicts.go:12-61 | whatever order the sort leaves and whatever the buffer, sort-and-scan with early stop equals all pairs iff no overlap is hidden |
| Conflicts.DetectorExactOnInput | internal/calendar/conflicts.go:12-61 | the reports equal all pairs for every outcome of the unstable sort iff no two listed events are hidden from each other |
| Conflicts.PairCountedOnce | internal/calendar/conflicts.go:12-61 | a pair counts once as hard iff the intervals meet, once as soft iff the gap is under the buffer, else not at all |
| Conflicts.OnlyPairsCounted | internal/calendar/conflicts.go:12-61 | behind every report stands a pair of listed events of that kind |
| Conflicts.OverlapExact | internal/calendar/conflicts.go:36-46 | the reported minutes are the shared ones iff the earlier event ends before the next full minute of the later one's length |
| Conflicts.EarlyStartExact | internal/calendar/conflicts.go:101-107 | starting early is reported iff it is so, for any preferred start |
| Conflicts.LateEndExact | internal/calendar/conflicts.go:102-110 | against the preferred end of the day it starts on, only late events are reported, and a late one is overlooked iff it ends less than an hour past the preferred hour of the day it ends on |
| Conflicts.NightEventOverlooked | internal/calendar/conflicts.go:102-110 | an event from 17:00 to 01:00 is not reported with a preferred end of 18:00 |
| Conflicts.NoMeetingDayExact | internal/calendar/conflicts.go:112-123 | a no-meeting day is reported iff the event is timed and the weekday it starts on is listed |
| Conflicts.FocusOverlapExact | internal/calendar/conflicts.go:125-144 | within a day, a focus block is reported iff the event starts before it ends and runs a full minute into it |
| Conflicts.NightFocusOverlooked | internal/calendar/conflicts.go:136-141 | an event over midnight misses a block it lies in |
| Conflicts.GapExact | internal/calendar/conflicts.go:47-60 | a soft report gives the gap in whole minutes, and the gap is below the buffer |
| SlotScoring.ScoreBusinessHours | internal/calendar/slot_scoring.go:71-91 | 1 inside the preferred hours; else score times length is the preferred hours touched, so it is at most 1 iff they are no longer than the slot |
| SlotScoring.ScorePreference | internal/calendar/slot_scoring.go:94-122 | 1, a half or 0 for no, one or more focus blocks hit |
| SlotScoring.ScoreAttendeeConfidence | internal/calendar/slot_scoring.go:160-171 | the mean over any number of unknown attendees is 0.49; none gives 1 |
| SlotScoring.ScoreProximity | internal/calendar/slot_scoring.go:174-192 | falls linearly with the distance to the nearest proposed time, to 0 at 24 hours |
| SlotScoring.ScoreSlot | internal/calendar/slot_scoring.go:52-68 | the total is a weighted mean: within any bounds the five components keep, and in [0, 1] under the hour filter |
| SlotScoring.NearestIsMinimum | internal/calendar/slot_scoring.go:179-185 | the nearest distance is attained and no proposed time is nearer |
| SlotScoring.WeightsExact | internal/calendar/slot_scoring.go:11-12 | what each component is worth, and a perfect slot scores 1 |
| SlotScoring.TimeOfDayExact | internal/calendar/slot_scoring.go:125-157 | which hours earn the best and the second-best mark for each kind of meeting |
| SlotScoring.ProximityExact | internal/calendar/slot_scoring.go:174-192 | the best over the proposed times of 1 less the distance in days, at least 0; a half without any |
| SlotScoring.BlocksHitExact | internal/calendar/slot_scoring.go:105-121 | 1 less a half for each focus block the slot overlaps by the detector's own test, at least 0 |
| SlotScoring.FilteredScoreInUnitRange | internal/calendar/slot_scoring.go:52-192 | a slot passing the hour filter has business-hours component 1 and total in [0, 1] |
| SlotScoring.UnfilteredScoreExactly | internal/calendar/slot_scoring.go:82-90 | without the filter the component is in [0, 1] iff the preferred hours touched are no longer than the slot, and then so is the total |
| SlotScoring.UnfilteredScoreExceedsOne | internal/calendar/slot_scoring.go:52-90 | 08:45-09:15 has component 2 and a total above 1 |
| SlotEngine.HasConflict | internal/calendar/slot_engine.go:127-139 | true iff some active timed event blocks the buffered slot |
| SlotEngine.NoMeetingDay | internal/calendar/slot_engine.go:141-153 | true iff the weekday is listed |
| SlotEngine.WalkTerminatesExactly | internal/calendar/slot_engine.go:56 | the candidate loop ends iff the increment is positive or no slot fits at all |
| SlotEngine.GenerateCandidates | internal/calendar/slot_engine.go:54-80 | the loop visits the walk up to the first slot that does not fit and keeps the eligible ones |
| SlotEngine.StepsExactly | internal/calendar/slot_engine.go:56 | a walk that ends visits the first slots that fit, and with a positive increment all that fit |
| SlotEngine.CandidatesExactly | internal/calendar/slot_engine.go:54-80 | candidates are exactly the eligible slots on the grid |
| SlotEngine.ScoreAll | internal/calendar/slot_engine.go:91-94 | each candidate with its own score |
| SlotEngine.TopN | internal/calendar/slot_engine.go:96-115 | a best selection: sorted, min(N, candidates) long, nothing omitted scores above anything kept |
| SlotEngine.SuggestSlots | internal/calendar/slot_engine.go:26-118 | the defaults, range, events, candidates and ranking put together |
| SlotEngine.SuggestionsAreSound | internal/calendar/slot_engine.go:54-117 | each suggestion lies on the grid in the range, passes all filters, and has its own score in [0, 1] |
| SlotEngine.SuggestionsSpan | internal/calendar/slot_engine.go:32-56 | suggestions lie in the requested range, by default seven days from today's preferred hour, on the increment grid, and last as long as asked for, by default an hour |
| SlotEngine.SuggestionsAreMaximal | internal/calendar/slot_engine.go:91-117 | each eligible slot is suggested, or the list is full and no suggestion scores lower |
| SlotSafety.BlocksIsReport | internal/calendar/slot_engine.go:130-136 | against one event the slot test is the definition of a hard or soft pair |
| SlotSafety.AddedSlotReports | internal/calendar/conflicts.go:12-61 | adding the slot as an event adds exactly its own reports |
| SlotSafety.SlotTestAgreesWithDetector | internal/calendar/slot_engine.go:127-139 | a slot is rejected iff adding it makes the detector report more pairs, whatever orders the sorts leave |
| SlotSafety.TestsPartOnlyOnNestedPairs | internal/calendar/slot_engine.go:127-139 | for any buffer, the two tests part exactly where a negative buffer meets a nested pair |
| SlotSafety.NoMeetingDayAgrees | internal/calendar/slot_engine.go:141-153 | the engine skips a day iff the detector would report it, by the literal weekday |
| SlotSafety.BufferKeptExactly | internal/calendar/slot_engine.go:43-77 | for a slot that passes the day and hour filters, being eligible guarantees the buffer to every stored calendar iff the slot keeps it to both ends of the search range |
| SlotSafety.NoStoredOverlap | internal/calendar/slot_engine.go:43-77 | an eligible slot in the range overlaps no stored timed event |
| SlotSafety.BufferLostAtTheEdge | internal/calendar/conflict_realtime.go:55-62 | a meeting ending where the range starts leaves the next slot eligible though the pair is a soft conflict |
| SlotSafety.HourFilterExact | internal/calendar/slot_engine.go:64-72 | for any preferred hours, a passing slot lies inside those of its day iff it ends on that day, or by an end hour of 24 or more |
| SlotSafety.HourFilterOnOneDay | internal/calendar/slot_engine.go:64-72 | on one day the filter is exact to the minute for any preferred hours |
| SlotSafety.MidnightSlotPasses | internal/calendar/slot_engine.go:65-72 | the slot from 23:00 to midnight passes the filter for 09:00 to 18:00 |
| Supervisor.RunWithSupervisor | internal/orchestrator/supervisor.go:27-114 | every restart, wait and dead letter is the one its streak of failures explains; it ends paused iff dead-lettered |
| Supervisor.BackoffDoubles | internal/orchestrator/supervisor.go:123-129 | doubling with a cap is the closed form, for any base and cap |
| Supervisor.CappedFromTheStart | internal/orchestrator/supervisor.go:28-35 | with base <= max every backoff is min(base * 2^(f-1), max) |
| Supervisor.StreakExactly | internal/orchestrator/supervisor.go:54-73 | the streak is the number of failures since the last clean exit or stable run, said without recursion |
| Supervisor.EveryEntryExact | internal/orchestrator/supervisor.go:65-113 | at each wait 1 <= f < maxFailures; dead-lettered exactly when a streak reaches maxFailures |
| Supervisor.JitterBounds | internal/orchestrator/supervisor.go:117-120 | the slept time is within 20 percent of the backoff, truncation included |
| Supervisor.JitterExact | internal/orchestrator/supervisor.go:117-120 | the slept time is d * (0.8 + 0.4 * draw) to within a nanosecond, and d itself for a draw of a half |
| Supervisor.StreakWaitBound | internal/orchestrator/supervisor.go:96-112 | the time slept in a streak is at most 1.2 times the sum of its backoffs |
| Supervisor.DeadLetterWaitBound | internal/orchestrator/supervisor.go:82-112 | so is the whole wait before a dead letter, a bound by the configuration alone |
| Supervisor.HelperAgreesExactly | internal/orchestrator/supervisor.go:133-140 | the stand-alone helper equals the supervisor's backoff iff the count is at most 32 |
| PromoRedemption.PromoService.Apply | internal/billing/promo.go:85-160 | one call, with other sessions' commits before its claim and any of its statements failing: tables and outcome |
| PromoRedemption.PromoService.CheckEligibility | internal/billing/promo.go:250-281 | in plain terms: true iff active, within its dates, below its maximum, not yet redeemed by the user, and the history could be read |
| PromoRedemption.SoloCallIsProtocol | internal/billing/promo.go:85-160 | the call run alone is the protocol's steps in order |
| PromoRedemption.RedeemsExactly | internal/billing/promo.go:85-160 | with every statement going through and no one else about: redeemed iff the code exists, is active, in date, below its maximum, new to the user, and of a known type; and exactly what is then written |
| PromoRedemption.ClaimKeeps | internal/billing/promo.go:101-116 | the conditional update keeps the invariant of locks and private copies |
| PromoRedemption.CommitKeeps | internal/billing/promo.go:126-128 | publishing claim and redemption together keeps uses equal to rows and within the maximum |
| PromoRedemption.NextKeeps | internal/billing/promo.go:85-160 | every step of every session, and every admin step, keeps the invariant |
| PromoRedemption.AlwaysConserved | internal/billing/promo.go:85-160 | under any interleaving, uses equal redemption rows and never exceed the maximum |
| PromoRedemption.RedeemersWereEligible | internal/billing/promo.go:91-93 | whoever gets past the check found the row it looked up active, within its dates at that instant, and below its maximum |
| PromoRedemption.ClaimSucceedsExactly | internal/billing/promo.go:101-116 | a claim that reaches a free row succeeds iff fewer redemptions have been committed than the maximum allows |
| PromoRedemption.ActiveUnlessDeactivated | internal/billing/promo.go:215-227 | over any run a code stays active iff no deactivation took effect; no commit revives it |
| PromoRedemption.RedeemedExactly | internal/billing/promo.go:85-160 | a session committed at the end of a run has its redemption on record, and its code is active iff no deactivation took effect since its look-up |
| PromoRedemption.RedeemedAfterDeactivation | internal/billing/promo.go:85-116 | a code is redeemed after its deactivation if the check came first |
| PlanCache.Store.GetCachedPlan | internal/billing/cache.go:29-61 | a hit answers from the cache, anything else from the table, only the table's failure is an error, and other tenants' entries stay |
| PlanCache.SoloLookupIsProtocol | internal/billing/cache.go:29-61 | the call run alone is the protocol's steps in order: same cache, same answer |
| PlanCache.Store.InvalidatePlanCache | internal/billing/cache.go:65-77 | deletes the tenant's entry, fails only with Redis |
| PlanCache.CachedForFiveMinutes | internal/billing/cache.go:14-16 | a cached plan answers for exactly 300 seconds, an empty one never |
| PlanCache.AnswersAreRecent | internal/billing/cache.go:29-61 | under any interleaving, an answer was the table's plan at an instant no older than the lifetime plus the read's flight time |
| PlanCache.StaleExactly | internal/billing/cache.go:29-77 | over any interleaving, as long as the plans written since its read are new, a cached plan differs from the table's iff its read overlapped a change or the invalidation of a later one has failed or is still to come |
| PlanCache.CacheTracksTable | internal/billing/cache.go:29-77 | when no read overlaps a write and every invalidation succeeds, a cached plan with none pending equals the table's |
| PlanCache.OverlapLeavesStale | internal/billing/cache.go:44-58 | a read that overlaps a write leaves the old plan in the cache after the invalidation |
| PlanCache.FailureLeavesStale | internal/billing/cache.go:65-76 | so does a failed invalidation |
| TenantBilling.StampLostExactly | internal/billing/dunning.go:56-64 | a count without a stamp arises exactly when the first failure of a streak fails to set one |
| TenantBilling.PaymentInvariant | internal/billing/webhook_handlers.go:14-194 | kept by every ordering of checkout, paid, failed, updated, deleted, grace and trial steps |
| TenantBilling.StampTracksStreak | internal/billing/dunning.go:56-64 | in every run the stamp is the start of the present streak if that start set it, and never lies after it |
| TenantBilling.PlanTakenEarlyExactly | internal/billing/dunning.go:15-19 | with failures as single steps, some failure within seven days of the streak's first takes the plan iff the stamp is older than the streak |
| TenantBilling.StaleStampTakesPlanEarly | internal/billing/webhook_handlers.go:84-91 | a paid invoice leaves such a stamp behind, and the third failure of the next streak, two seconds in, takes the plan |
| TenantBilling.GraceLastsSevenDays | internal/billing/lifecycle.go:13-48 | a deletion followed by a check, with the deadline and the plan untouched in between, takes a paid plan iff more than 604800 seconds have passed |
| TenantBilling.SweepTakesPlanAfterSevenDays | internal/billing/lifecycle.go:13-70 | the same for the sweep over the table |
| TenantBilling.TrialSweepExactly | internal/billing/promo_trial.go:57-105 | the sweep over the table takes exactly the plans of which the tenant has redeemed a trial that ended before now |
| TenantBilling.TableInvariant | internal/billing/webhook_handlers.go:14-194 | every ordering of operations on the whole table keeps every row consistent |
| TenantBilling.TableKeepsStamped | internal/billing/dunning.go:56-64 | with one row to a customer and the stamp written, every row stays stamped |
| TenantBilling.FailuresTakePlanExactly | internal/billing/dunning.go:27-78 | over any failures of a customer, whatever row each update returns and whichever statements go through, a row loses its plan iff some failure returns it, as the third or later, seven days after the stamp the run goes by |
| TenantBilling.PlanLostFromCleanRow | internal/billing/dunning.go:27-78 | from a row without failures: iff the update returns it for the first failure, and again for the third or a later one seven days on |
| TenantBilling.NeverPickedKeepsPlan | internal/billing/dunning.go:27-62 | over any number of failures, a row the update never returns is counted and marked suspended but keeps its plan and stamp |
| TenantBilling.Tenants.ProvisionPlan | internal/billing/provision.go:17-61 | a checkout step on one row; fails for an unknown tenant |
| TenantBilling.Tenants.AdjustLimits | internal/billing/provision.go:64-100 | changes the plan of one row only |
| TenantBilling.Tenants.DowngradeToPlan | internal/billing/provision.go:104-143 | free resets the payment record, another plan leaves it |
| TenantBilling.Tenants.HandleInvoicePaid | internal/billing/webhook_handlers.go:73-104 | a paid step on every row of the customer |
| TenantBilling.Tenants.HandlePaymentFailure | internal/billing/dunning.go:20-115 | counts every row, stamps and suspends the returned one; an error exactly for a failed count, an unknown customer or a failed suspension |
| TenantBilling.Tenants.StartGracePeriod | internal/billing/lifecycle.go:15-37 | a deadline 604800 seconds out on every row of the customer, and the status |
| TenantBilling.Tenants.CheckGraceExpiry | internal/billing/lifecycle.go:42-81 | downgrades exactly the expired tenants except those that fail, and leaves none expired but those |
| TenantBilling.Tenants.ProvisionTrial | internal/billing/promo_trial.go:15-31 | sets the plan, nothing else of the payment record |
| TenantBilling.Tenants.CheckTrialExpiry | internal/billing/promo_trial.go:56-134 | downgrades exactly the tenants still on the plan of an expired trial except those that fail, and leaves none but those |
| BillingSessions.SoloFailureIsAtomic | internal/billing/dunning.go:20-115 | count, stamp and suspension uninterrupted are the atomic failure of the record |
| BillingSessions.SoloGraceIsAtomic | internal/billing/lifecycle.go:42-81 | query and downgrade uninterrupted are the atomic grace check |
| BillingSessions.SoloTrialIsAtomic | internal/billing/promo_trial.go:56-127 | and likewise for a trial that is over |
| BillingSessions.CountFallsExactly | internal/billing/dunning.go:27-39 | over any interleaving, a count that stood at a limit is below it iff a reset came in between with fewer failures since |
| BillingSessions.BrokenByStaleSuspension | internal/billing/dunning.go:20-135 | over every interleaving the payment invariant fails iff some suspension found fewer than three failures and nothing has written the status since |
| BillingSessions.SuspensionBegan | internal/billing/dunning.go:73-78 | a session that is to suspend began with a failure that found the account due |
| BillingSessions.InvariantBrokenExactly | internal/billing/dunning.go:20-135 | in steps alone: iff some account was found due, had its count reset with fewer than three failures since, was suspended all the same, and nothing has written its status since |
| BillingSessions.LateSuspensionExactly | internal/billing/dunning.go:73-78 | the suspension of a session breaks the invariant iff a reset came after its count and fewer than three failures since |
| BillingSessions.PaymentThenLateSuspension | internal/billing/dunning.go:118-125 | a payment between count and suspension leaves a paid-up tenant suspended on the free plan |
| BillingSessions.DocumentedSuspensionExactly | internal/billing/dunning.go:15-33 | within a streak the status is suspended from the third failure on, whatever the instants |
| BillingSessions.EarlySuspensionExactly | internal/billing/dunning.go:15-78 | over every interleaving, a suspension takes the plan before the present streak is seven days old iff a reset came after the failure that found it due, or the streak opened on an older stamp less than seven days before that failure |
| BillingSessions.LateSuspensionEndsNewStreak | internal/billing/dunning.go:73-78 | a purchase between a failure and its suspension, then three failures: the plan is gone in seconds, with the streak's own stamp and a consistent record |
| BillingSessions.StampWithinStreak | internal/billing/dunning.go:56-64 | within a streak the stamp is the one it opened on, or one set since |
| BillingSessions.StampEmptyExactly | internal/billing/dunning.go:56-64 | over every interleaving the stamp is empty iff it was, or was cleared by a purchase or a grace downgrade, and no session has stamped since |
| BillingSessions.UnstampedExactly | internal/billing/dunning.go:20-64 | failures lack their stamp iff the streak opened on an empty one and no session has stamped since |
| BillingSessions.LateStampExactly | internal/billing/dunning.go:56-64 | a late stamp lands on a row without failures iff a reset came in between and no failure since |
| BillingSessions.GraceDowngradeExactly | internal/billing/lifecycle.go:42-70 | the downgrade does what a re-checking one would iff the deadline was not written since the query on a paid plan, or another sweep came first and nothing since |
| BillingSessions.GraceSweepTakesNewPurchase | internal/billing/lifecycle.go:42-70 | a purchase between query and downgrade is lost |
| BillingSessions.PlanKeptExactly | internal/billing/webhook_handlers.go:14-194 | until another is given, a plan lasts iff no suspension, grace downgrade or trial downgrade takes it |
| BillingSessions.GivenPlanExactly | internal/billing/webhook_handlers.go:14-171 | a plan given by a purchase, a change of subscription or a trial is the tenant's until another is given or it is taken |
| BillingSessions.TrialSweepTakesPlanExactly | internal/billing/promo_trial.go:57-105 | after any run a sweep takes the plan iff the tenant ever redeemed a trial of it that is over |
| BillingSessions.TrialDowngradeExactly | internal/billing/promo_trial.go:57-105 | with anything between query and downgrade, the plan is taken iff a trial of it was over at the query and the tenant is on it at the downgrade |
| BillingSessions.TrialSweepTakesBoughtPlan | internal/billing/promo_trial.go:57-105 | a tenant that buys its plan during the trial ends active, subscribed and on the free plan |
| WebhookDelivery.WebhookHandler.HandleWebhook | internal/billing/webhooks.go:57-104 | record, skip duplicates, run the handler; go on when recording fails |
| WebhookDelivery.EffectsExactly | internal/billing/webhooks.go:57-119 | over any deliveries, effects are the unrecorded completions plus one if the first recorded delivery completes |
| WebhookDelivery.LostUnlessFirstCompletes | internal/billing/webhooks.go:57-119 | while recording works, an event takes effect at most once, and does iff its first delivery completes |
| CalendarSync.Do | internal/calendar/sync.go:119-138 | at most MaxRetries + 1 calls; the first answer is the result; a retry only after a transient error, with one wait for each call followed up, never above MaxDelay |
| CalendarSync.DelayIsCappedExponential | internal/calendar/sync.go:128-134 | the wait is the capped exponential iff the doubled delay fits in 64 bits or wraps to something at or above the cap |
| CalendarSync.RetryAfterWins | internal/calendar/sync.go:129-134 | a delay asked for by the server is kept, up to the cap |
| CalendarSync.SyncEngine.UpsertEvent | internal/calendar/sync.go:315-356 | stores the event under its id, or changes nothing if the write fails |
| CalendarSync.SyncEngine.DeleteEvent | internal/calendar/sync.go:358-374 | removes the id, or changes nothing if the write fails |
| CalendarSync.SyncEngine.SaveSyncState | internal/calendar/sync.go:275-294 | inserts or replaces the token |
| CalendarSync.SyncEngine.ClearSyncState | internal/calendar/sync.go:296-313 | blanks an existing row only |
| CalendarSync.SyncEngine.ReplayPage | internal/calendar/google.go:116-136 | the store after a page is the fold of its items over the store before |
| CalendarSync.SyncEngine.RequestPage | internal/calendar/google.go:95-114 | one page request with its retries: its items, and when it has failed for good |
| CalendarSync.SyncEngine.DoGoogleSync | internal/calendar/google.go:70-150 | the fold of all items listed, in order, across pages, retries and resync; an error only if the context ended, there is no budget or a request failed for good; a first 410 leads to a second pass unless clearing fails; at most two passes; calls within the budget |
| CalendarSync.SyncEngine.SyncGoogle | internal/calendar/google.go:44-66 | succeeds iff it comes to a last page and can save its token, and stops short only for the causes above; a token is saved only after a last page |
| CalendarSync.FoldConcat | internal/calendar/google.go:76-147 | folding page by page is folding all at once |
| CalendarSync.LastVersionWins | internal/calendar/google.go:116-136 | for each id the last effective version decides what is stored |
| CalendarSync.LastListedWins | internal/calendar/google.go:116-136 | with no failed writes or normalisations the last listed version of each id wins |
| CalendarSync.LastEffectiveExactly | internal/calendar/google.go:116-136 | that version is the one after which no other takes effect |
| CalendarSync.AbortedPassLeavesTraceExactly | internal/calendar/google.go:101-112 | pages read before an expiry leave a trace exactly on the ids the resync does not list with effect |
| SubjectThreading.NormalizeSubject | internal/email/threading.go:101-108 | the loop ends and returns the fixed point of trimming and stripping |
| SubjectThreading.StripShortens | internal/email/threading.go:103-106 | each round removes at least three characters |
| SubjectThreading.NormalizedIsNormal | internal/email/threading.go:101-108 | the result is trimmed and carries no prefix |
| SubjectThreading.NormalizedIdempotent | internal/email/threading.go:101-108 | normalising twice is normalising once, and normal subjects are left alone |
| SubjectThreading.NormalizedIgnoresBlank | internal/email/threading.go:102-105 | white space around a subject is irrelevant |
| SubjectThreading.MarkIsIgnored | internal/email/threading.go:26 | re, fw or fwd in any case, any white space and a colon in front change nothing |
| SubjectThreading.NoPrefixLeft | internal/email/threading.go:99-108 | no result begins with such a word, white space and a colon, or has white space at either end |
| SubjectThreading.UsualPrefixesAreIgnored | internal/email/threading.go:99-108 | "Re: ", "Fwd: " and "FW :" in front of any subject change nothing |
| SubjectThreading.StackIsIgnored | internal/email/threading.go:99-108 | nor does any stack of prefixes and white space |
| SubjectThreading.NormalizedExactly | internal/email/threading.go:99-108 | the result is the one normal subject from which the input is made by adding such a stack and trailing white space |
| SubjectThreading.AssignThread | internal/email/threading.go:34-97 | reply header, then references from the last, then subject, then a new thread; a thread of that account's stored mail or a new one; an email that answers a known one, or has a like subject within 604800 seconds, gets such a thread |
| SubjectThreading.ByMessageIdExactly | internal/email/threading.go:45-57 | the look-up gives the thread of the first email of that account and message id that has one |
| SubjectThreading.LastKnownReferenceDecides | internal/email/threading.go:60-74 | the reference that decides is the last one with a known thread |
| SubjectThreading.MostRecentMatch | internal/email/threading.go:81-89 | the subject fallback picks a match than which none is more recent |
| SubjectThreading.SqlAgreesExactly | internal/email/threading.go:85 | the database's stripping agrees with the normaliser iff the subject is normal, or one prefix and the pattern's white space in front of its normal form |
| SubjectThreading.FallbackFindsExactly | internal/email/threading.go:77-92 | an email is found under its own normalised subject iff its subject has that shape |
| SubjectThreading.NestedReplyIsNotFound | internal/email/threading.go:85 | with two prefixes it is not |

## Left out

- HTTP handlers, JSON, routing, logging, metrics and configuration loading: plumbing around the modelled code.
- Stripe, Google, Microsoft and the notification services: only the success or failure of a call is modelled. The
  discount call, invoice history, the Microsoft sync and the building of the Google client are not.
- Row-level security, connection pooling and SQL text: rows and atomic statements instead.
- Floating point: tokens, scores, minutes and jitter are real numbers, so rounding is not modelled; backoffs are exact
  as long as they are below 2^53 nanoseconds, as any sensible configuration is.
- Daylight saving and time-zone databases: local time has a fixed offset.
- Memory sharing inside the sliding window: pruning reuses the backing array in place, which the model expresses as
  reassigning a sequence. The mutex makes each request one step.
- HourlyLimiter.NeverReset: it assumes that an increment reaches Redis before the hour after its bucket's has ended;
  `StalledCallStartsAfresh` shows why. Calls may overlap in any way.
- SlotEngine.SuggestSlots: a negative number of suggestions, on which the original panics, and a walk that does not end
  are preconditions; the titles, the owner ids and the reasoning text are not modelled.
- Conflict details as text, and the owners of events: a conflict carries its event ids, kind, minutes and violation.
- Slot approval, which compares stored events with each other rather than with the slot, and dispatcher redelivery.
- Supervisor.RunWithSupervisor: runs against finite scripts, so liveness is not stated. Health status updates other than the
  pause are not modelled.
- PromoRedemption.PromoService.Apply: the code lookup by upper-cased, trimmed text is by id here; a trial code without a length stops
  before its insert, where the original dereferences nil; deleting codes does not occur in the source.
- PromoRedemption.AlwaysConserved: read-committed row locking is built into the steps (a claim waits for the row and then sees its
  new version); the database itself is not modelled.
- PlanCache.AnswersAreRecent: for one tenant, since keys of different tenants do not interact, and with cache lifetimes measured
  on the clock the answers are stamped with.
- TenantBilling.Tenants.HandlePaymentFailure: notifications and the user lookup are left out, as are the timestamps of plan start,
  renewal and update; its statements interleaved with other sessions are the subject of `BillingSessions.dfy`.
- BillingSessions.EarlySuspensionExactly: for runs that start on a row without failures, so that every streak has its opening in
  the run, and with a clock that does not go back.
- BillingSessions.GraceDowngradeExactly: for one tenant, and with a clock that does not go back between query and downgrade; a
  session that stops between its statements is one whose next step never comes.
- TenantBilling.Tenants.CheckTrialExpiry: run without interference, which `BillingSessions.dfy` adds for one tenant; a downgrade
  fails for a tenant, not for one of several trials of a tenant.
- CalendarSync.SyncEngine.DoGoogleSync: the server is a script of results, so the request parameters (tokens, window, page size) are
  not modelled; equality of the local and the remote calendar is not claimed, because a resync does not clear old rows.
- The per-account lock around a sync, and the token source that saves refreshed tokens.
- SubjectThreading.AssignThread: ids, threads and accounts are numbers, a failing query reads as no match, and where the query has
  no order the first row in table order is taken. PostgreSQL's and Go's notions of white space in `\s` are taken to be Go's.
- Plan and feature tables, label maps and score thresholds: finite.
