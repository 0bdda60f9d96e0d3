# Verified model of the family planner backend

The backend is a NestJS server over a relational database and Redis. This project models the parts of
it that are state machines, write-back protocols, schedulers, ledgers and folds, in Dafny, and proves
what each of them keeps over every run. The database and Redis are maps, sets, lists and sorted sets
with the semantics the calls rely on.

Two forms recur. A protocol or a service is a pure `Step` (or `Apply`) on a state value, and the main
theorems are about every sequence of steps; a refused or out-of-turn command leaves the state alone.
Beside it stands a class with the fields the source updates in place, whose methods are proved to
perform exactly such steps, loops included, and to keep the invariant. Where commands of different
requests interleave (view counts, read receipts, the notification queue, announcement retries, the
token cache), each awaited Redis command and each database query or transaction is a step of its own, and
each of them can fail; everywhere else a service call is one step. A command that fails has no effect of its own
and ends its caller; one that takes effect but reports an error, and a process that stops, are that command
followed by the failure of the caller's next one. Refresh tokens have a command for each call whose parallel Redis
writes can succeed in part.

| module | models |
|---|---|
| `NotificationQueue` | waiting room, ready queue and workers |
| `ViewCounts`, `ReadReceipts` | write-back of view counts (DECRBY) and read receipts (SPOP) |
| `AnnouncementRetries` | scheduled announcements, retried up to three times |
| `TokenCache` | device tokens and the look-aside cache |
| `RefreshTokens` | refresh tokens, their reverse index, and account deletion |
| `AssetTrend` | totals per period with carry-forward |
| `DailyGoals`, `Streaks`, `RoutineLifecycle` | goals in force, streaks, pauses and checks |
| `RecurringExpenses`, `MonthlyPayouts`, `SavingsGoals` | calendar schedulers |
| `ChildcareLedger`, `SavingsInterest`, `AccountRecords`, `Shopping` | ledgers |
| `Csv` | the export format and a reader for section 2 of RFC 4180 |
| `Calendar`, `Sequences`, `Wrappers` | dates as month index and day; counting; `Option` and `Result` |

## What holds only under a condition

These are places where the obvious claim fails for some input the code can receive. Each has a lemma
that states for all inputs exactly when it holds, and where it helps a run that shows the failure.

- View counts: throughout a run database plus Redis equal the views made, up to the amount in flight, exactly
  when no DECRBY fails after the database update and every DEL finds 0 (`ExactThroughoutIff`). The comment calls
  DECRBY race free, but a view between the DECRBY that empties a count and the DEL after it is dropped
  (`DelFindsGapViews`, `DroppedIff`, `ViewInGapIsLost`), a failed DECRBY counts views twice (`DoubledIff`,
  `FailedDecrbyCountsTwice`), and two overlapping syncs do so without any failure
  (`OverlappingSyncsCountTwice`). A waiting count is left where no sync looks exactly by an SREM that finds one
  registered after the DEL, or by the failure of the last SADD to come (`AlwaysNoticedIff`,
  `ViewBeforeSremIsUnnoticed`, `FailedSaddIsUnnoticed`).
- Read receipts: a marked receipt is gone, neither stored nor on its way, exactly when its only holder failed and it
  has not been marked anew since (`GoneStepIff`, `GoneIff`). After a failed insert marking it again brings it back
  (`FailedInsertLoses`); after a failed SADD, GET or DEL its key stays behind and it is never stored, however often
  it is marked (`FailureStrands`, `StrandedForever`).
- Announcements: the stated policy is that a duplicate is worse than a miss, but an attempt accepted after
  a delivery the database refused to record is a second delivery (`DeliveredAtMostOnceIff`,
  `RefusedUpdateDeliversTwice`). The pop, called atomic, is two commands: an announcement is in one place
  exactly as long as each batch is still in the sorted set when it is removed (`OnePlaceThroughoutIff`,
  `OverlappingPopsDeliverTwice`).
- Token cache: coherence breaks exactly when a lookup carries its tokens past the last DEL of a change, a DEL is
  given up for an entry that is or will be out of date, the marker `__empty__` is cached as a user's only token, or
  a failed token has moved to a user who is cached or being looked up (`CoherentThroughoutIff`). Until the DEL, a hit
  answers the tokens from before the change (`HitBeforeDelIsStale`), and if it fails that stays so
  (`FailedDelIsStale`). "One token per platform" breaks exactly when a user's own token is re-registered on a
  platform that another of the user's tokens has (`RegisterKeepsOnePerPlatformIff`).
- Refresh tokens: every live token is indexed, and so found by a revocation, exactly as long as no call fails half
  way in one of two ways: the SREM of a deletion without its DEL, or the SETEX of a new token without what keeps it
  in the index (`IndexHoldsEveryLiveTokenIff`, `OrphanSurvivesRevocation`). A revoked token stays refused exactly
  when its second is over (`RevokedForeverIff`); rotation does not retire a token issued in the same second from the
  same profile, because the new one is the same string (`RotationRetiresIff`); deleting by a snapshot of the index
  misses a login in between (`SnapshotRevokesIff`); the index is only safe because all tokens share one time to live
  (`PutKeepsIndexedIff`).
- Asset trend: a past year's rows run on to this month but its query stops at the end of the year; the row of a later
  month is right, whatever the amounts, exactly when no record is dated between the end of the year and the end of
  that month (`MonthlyTrend`, `RowIsUpToDateIff`).
- Point balance: it goes below zero exactly when a pay day takes an instalment that balance and allowance do not cover
  (`BalanceStaysNonNegativeIff`, `FirstInstalmentOverdraws`).
- Closing balance: a withdrawal from savings is rewound with the wrong sign and interest is rewound although
  it never touched the balance (`ClosingBalanceIsRightIff`, `ClosingBalanceCanBeWrong`).
- Allowances: the scheduler never pays a month twice (`PayoutsOncePerMonth`), but an allowance posted by
  hand takes the place of the month's payout (`MonthIsPaidOnceIff`, `HandPostedAllowanceBlocksMonth`).
  The month guard compares UTC instants with Seoul months and holds exactly for schedules before 15:00
  UTC, as the two schedulers are (`OncePerMonthIffHourBefore15`).
- Recurring expenses: the tick never checks the start month (`TicksRespectWindowIff`).
- Withdrawals: taking one part out of a position whose other part is negative breaks balance = principal +
  profit, unless that part is used up (`WithdrawalKeepsIdentityIff`, `AutoAndGoldKeepIdentityIff`,
  `LossMakesIdentityFail`).
- Daily goals: mode ALL counts checks of routines that are not active that day (`AllModePassesIff`,
  `AllModeMeansAllIff`, `CheckedThenPausedStandsIn`).
- Streaks: the backward loop skips a failed today wherever it stands, the forward loop does not; the two only
  agree because today is the last day of the range (`CurrentNeverExceedsLongestIff`, `GetDailyStreak`).
- Shopping: an item added to the cart while it is being completed is lost unless it is excluded
  (`CompleteShopping`, `AddedMeanwhileIsLostIff`).
- CSV: headers are written unescaped (`RoundTripIff`), and a reader that forgives a final line break loses
  a last line of one empty cell (`FileRoundTripIff`).

One hypothesis is a matter of format: the read-receipt protocol splits its items at a colon, so its theorems
are about ids without one, as the generated uuids are. `DecodeInvertsItemIff` and `ColonLosesReceipt` say
that any other id would be lost.

## Model

| member | source | states |
|---|---|---|
| NotificationQueue.NothingLostOrInvented | src/redis/redis.service.ts:673-839 | after any run, the times a notification was accepted equal its places in the waiting room, the ready queue, the hands of workers and the cancelled ones together |
| NotificationQueue.HandedOutNoMoreThanAccepted | src/notification/notification.worker.ts:64-90 | nothing is handed out more often than it was accepted |
| NotificationQueue.EveryRunIsInOrder | src/redis/redis.service.ts:673-786 | pushes come out in push order, scores are scheduled seconds, nothing is pushed before its second, one move pushes by second |
| NotificationQueue.NeverBeforeItsSecond | src/notification/notification.worker.ts:98-116 | a moved notification is handed out at a second whose end is after its scheduled millisecond, never earlier |
| NotificationQueue.ScoresAreSeconds | src/redis/redis.service.ts:720-760 | after any run, the score of a waiting member is the second its scheduled millisecond falls in |
| NotificationQueue.FirstInFirstOut | src/redis/redis.service.ts:673-717 | the i-th hand-out is the i-th push, and of two items of one move the one that leaves first is scheduled less than a second after the other, if not before it |
| NotificationQueue.EachDueOnce | src/redis/redis.service.ts:764-786 | what a move takes is exactly what is scheduled before the end of the second of the move, each once and in the order of seconds |
| NotificationQueue.QueueService.EnqueueNow | src/notification/notification-queue.service.ts:39-44 | pushes on the left of the ready queue, leaves the waiting room alone |
| NotificationQueue.QueueService.EnqueueLater | src/notification/notification-queue.service.ts:49-59 | refuses a missing time, otherwise adds the member with the second its millisecond falls in as score, or rescores it so |
| NotificationQueue.QueueService.EnqueueLaterIfAbsent | src/notification/notification-queue.service.ts:65-89 | reports true exactly when the keyed member was absent, and only then adds it, with the second its millisecond falls in as score |
| NotificationQueue.QueueService.DueByScore | src/redis/redis.service.ts:768-768 | returns exactly the due members, each once, by score |
| NotificationQueue.QueueService.MoveReadyNotificationsFromWaiting | src/redis/redis.service.ts:764-786 | moves exactly the members scheduled before the end of this second, the earliest to be popped first, leaves none of them waiting, and returns their number |
| NotificationQueue.QueueService.RemoveRemindersFromWaitingRoom | src/redis/redis.service.ts:806-839 | removes exactly the reminders asked for |
| NotificationQueue.QueueService.BlockingPopFromReadyQueue | src/redis/redis.service.ts:701-717 | takes the oldest item off the right end; none only when the queue is empty |
| ViewCounts.EveryViewIsAccountedFor | src/announcement/announcement.scheduler.ts:105-132 | after every command of any number of syncers, database plus Redis plus what DELs found equal views plus what is in flight plus what was written twice |
| ViewCounts.ExactThroughoutIff | src/redis/redis.service.ts:118-190 | with any number of syncers, database plus Redis equal views plus the amount in flight at every moment if and only if no DECRBY fails after its database update and every DEL finds 0 |
| ViewCounts.DelFindsGapViews | src/redis/redis.service.ts:175-190 | with one sync of an announcement at a time, what a DEL will find is exactly the views made since its DECRBY |
| ViewCounts.NeverMoreThanViews | src/announcement/announcement.scheduler.ts:105-132 | with one sync at a time and no DECRBY that fails after the database update, database plus Redis never exceed views plus the amount in flight |
| ViewCounts.DoubledIff | src/announcement/announcement.scheduler.ts:108-130 | nothing is counted twice if and only if no DECRBY of the announcement fails after its database update |
| ViewCounts.MoreThanViewsIff | src/announcement/announcement.scheduler.ts:105-132 | with one sync at a time and nothing dropped, database plus Redis exceed views plus the amount in flight if and only if such a DECRBY failed |
| ViewCounts.FailedDecrbyCountsTwice | src/announcement/announcement.scheduler.ts:119-124 | a run in which one view is counted in both places |
| ViewCounts.DroppedIff | src/redis/redis.service.ts:175-190 | with one sync at a time, no view is dropped if and only if no DEL follows a view made after its DECRBY |
| ViewCounts.QuietCountIsExactIff | src/redis/redis.service.ts:118-190 | with one sync at a time, all syncers idle and no failed DECRBY, database plus Redis equal views if and only if no DEL followed such a view |
| ViewCounts.AlwaysNoticedIff | src/redis/redis.service.ts:118-190 | throughout a run every waiting count is tracked or about to be, if and only if no SREM finds a count with no SADD to come and no last SADD of an untracked count fails |
| ViewCounts.ViewBeforeSremIsUnnoticed | src/redis/redis.service.ts:183-189 | a run after which a count waits untracked |
| ViewCounts.FailedSaddIsUnnoticed | src/redis/redis.service.ts:124-128 | a view whose SADD fails waits untracked |
| ViewCounts.OverlappingSyncsCountTwice | src/announcement/announcement.scheduler.ts:82-132 | a run without a failure in which two syncs count one view twice |
| ViewCounts.ViewInGapIsLost | src/redis/redis.service.ts:180-189 | a view in the gap is lost by the DEL, and stays counted if the DEL fails |
| ViewCounts.RedisService.IncrementAnnouncementViewCount | src/redis/redis.service.ts:118-131 | adds one view and tracks the announcement |
| ViewCounts.RedisService.DecrementAnnouncementViewCount | src/redis/redis.service.ts:175-190 | subtracts, and forgets the announcement when nothing is left |
| ViewCounts.RedisService.SyncAnnouncementViewCounts | src/announcement/announcement.scheduler.ts:83-149 | an undisturbed sync keeps database plus Redis per announcement and empties every count it could store |
| ReadReceipts.DecodeInvertsItemIff | src/redis/redis.service.ts:292-292 | an item splits back into its two ids if and only if neither has a colon |
| ReadReceipts.GoneStepIff | src/redis/redis.service.ts:286-475 | one command, failures included, makes a marked receipt gone if and only if its only holder fails, and brings it back if and only if it is marked again without a key |
| ReadReceipts.GoneIff | src/announcement/announcement.scheduler.ts:157-207 | in every interleaving with any number of syncers, a receipt is in at most one place before its key is deleted, and gone if and only if the last failure of its only holder was not followed by a new mark |
| ReadReceipts.QuietMeansStored | src/announcement/announcement.scheduler.ts:157-207 | once nothing waits and no syncer is busy, a marked receipt is in the database if and only if it was not dropped that way |
| ReadReceipts.FailedInsertLoses | src/announcement/announcement.scheduler.ts:179-187 | a marked receipt whose batch fails to be inserted is gone, and marking it again brings it back |
| ReadReceipts.FailureStrands | src/redis/redis.service.ts:295-466 | a SADD, a GET or a DEL that fails leaves the key of a receipt that is gone |
| ReadReceipts.StrandedForever | src/redis/redis.service.ts:294-300 | such a receipt is never stored, whatever is marked and synced later |
| ReadReceipts.ColonLosesReceipt | src/redis/redis.service.ts:446-455 | every pair with a colon in an id would be popped, never stored and not markable again |
| ReadReceipts.ReceiptStore.MarkAnnouncementAsRead | src/redis/redis.service.ts:286-304 | tracks the pair once |
| ReadReceipts.ReceiptStore.PopAnnouncementReads | src/redis/redis.service.ts:431-475 | returns exactly the popped pairs, as many as the batch allows, and deletes their keys |
| ReadReceipts.ReceiptStore.SyncAnnouncementReads | src/announcement/announcement.scheduler.ts:157-207 | the batch loop ends and moves every tracked receipt into the database |
| AnnouncementRetries.AlwaysInOnePlace | src/announcement/announcement.scheduler.ts:215-287 | while each batch is still queued at its removal, a created announcement is scheduled, in flight, sent, given up or dropped, in exactly one place, and its retry count is the number of earlier attempts |
| AnnouncementRetries.ZremKeepsOnePlaceIff | src/redis/redis.service.ts:886-901 | a removal leaves every announcement in one place if and only if its whole batch is still in the sorted set |
| AnnouncementRetries.OnePlaceThroughoutIff | src/redis/redis.service.ts:880-911 | throughout a run every announcement is in one place if and only if that holds at every removal |
| AnnouncementRetries.SeparatePopsFindTheirBatches | src/redis/redis.service.ts:880-911 | pops that do not overlap always find their batches |
| AnnouncementRetries.AtMostFourAttempts | src/announcement/announcement.scheduler.ts:257-281 | at most four attempts, and giving up means all four were made |
| AnnouncementRetries.NeverTooEarly | src/redis/redis.service.ts:880-911 | on every run, an attempt was read by a tick at or after the second its announcement was scheduled or rescheduled for |
| AnnouncementRetries.AcceptedOnceIff | src/announcement/announcement.scheduler.ts:236-247 | an accepted attempt is the only delivery of its announcement if and only if no earlier one went unrecorded |
| AnnouncementRetries.DeliveredAtMostOnceIff | src/announcement/announcement.scheduler.ts:233-283 | over a run an announcement is delivered at most once if and only if no attempt is accepted after an unrecorded delivery |
| AnnouncementRetries.RepeatsFollowUnrecordedDeliveries | src/announcement/announcement.scheduler.ts:236-247 | every delivery but one was followed by a failure to record it |
| AnnouncementRetries.RefusedUpdateDeliversTwice | src/announcement/announcement.scheduler.ts:236-274 | a concrete run with one refused update and two deliveries |
| AnnouncementRetries.OverlappingPopsDeliverTwice | src/redis/redis.service.ts:886-901 | a concrete run in which two overlapping pops both deliver |
| AnnouncementRetries.AnnouncementScheduler.PopReadyScheduledNotifications | src/redis/redis.service.ts:880-911 | removes exactly the batch it returns |
| AnnouncementRetries.AnnouncementScheduler.SendOne | src/announcement/announcement.scheduler.ts:233-283 | sends and records; on failure reschedules 300 seconds later with one more retry, or gives up at three |
| AnnouncementRetries.AnnouncementScheduler.SendScheduledNotifications | src/announcement/announcement.scheduler.ts:215-293 | a tick leaves nothing in flight: each popped announcement is sent, rescheduled or given up according to its outcome |
| TokenCache.DecodeInvertsEncodeIff | src/redis/redis.service.ts:540-583 | a cached set reads back as the token set unless that is the marker alone |
| TokenCache.EntriesElsewhereStay | src/redis/redis.service.ts:540-593 | a cache entry is written by the SADDs of its own lookups only, by adding to what is there, and dropped by its own DEL, expiry or an empty answer only |
| TokenCache.RowsAndLookupsElsewhereStay | src/notification/notification-token.service.ts:33-199 | only registrations, deletions and removals write rows, and a lookup moves on by its own commands only |
| TokenCache.StaysCoherentIffHarmless | src/notification/notification-token.service.ts:33-199 | from a coherent state, a Redis command or a transaction leaves a coherent state if and only if it is harmless, as seen from the state before |
| TokenCache.CoherentThroughoutIff | src/redis/redis.service.ts:540-593 | over any interleaving of changes, drops, lookups, failures and expiry, unless a drop is on its way every cache entry reads as the database set, if and only if every command is harmless |
| TokenCache.DelCoherentIff | src/redis/redis.service.ts:590-593 | a DEL restores coherence if and only if its user awaits another one or no lookup carries older tokens |
| TokenCache.RemoveFailedCoherentIff | src/notification/notification-queue.service.ts:242-263 | removing failed tokens stays coherent if and only if none has moved to a user who is cached or being looked up |
| TokenCache.AnswerIsTheQueryIff | src/redis/redis.service.ts:564-583 | a lookup that found the entry answers what the query would, if and only if the entry is still there at the SMEMBERS or the user has no tokens |
| TokenCache.HitBeforeDelIsStale | src/notification/notification-token.service.ts:70-108 | between the commit of a registration and its DEL, a hit answers exactly the tokens from before |
| TokenCache.FailedDelIsStale | src/notification/notification-token.service.ts:104-108 | if that DEL fails the entry lacks the new token and no drop is on its way |
| TokenCache.OvertakenFillIsStale | src/notification/notification-token.service.ts:187-198 | a lookup that carries its tokens past a registration and its DEL leaves a cache entry without the new token |
| TokenCache.RegisterKeepsOnePerPlatformIff | src/notification/notification-token.service.ts:28-32 | one token per platform survives a registration if and only if it is not an own token moving onto an occupied platform |
| TokenCache.RegisterKeepsOthersOnePerPlatform | src/notification/notification-token.service.ts:70-96 | everybody else keeps one token per platform |
| TokenCache.TokenService.RegisterToken | src/notification/notification-token.service.ts:33-136 | undisturbed, the user owns the token on that platform; every other row stays unless the token is new to the user and the row is the user's own on that platform; no row is added; exactly the entries of both owners are dropped and coherence is kept |
| TokenCache.TokenService.DeleteToken | src/notification/notification-token.service.ts:141-170 | refuses an unknown or foreign token, each with its error, otherwise removes that row and the user's cache entry and nothing else |
| TokenCache.TokenService.GetCachedUserTokens | src/redis/redis.service.ts:564-583 | undisturbed, a hit is the database token set of the user, empty set included, and no answer means a miss |
| TokenCache.TokenService.GetUserTokens | src/notification/notification-token.service.ts:178-199 | hit or miss, returns the database set and leaves it cached, to be read back the same if and only if it is not the marker alone |
| TokenCache.TokenService.SendNotification | src/notification/notification-queue.service.ts:188-263 | afterwards exactly the rows of the user that FCM refused are gone, and coherence is kept unless the marker is the accepted only token |
| RefreshTokens.IndexHoldsEveryLiveTokenIff | src/redis/redis.service.ts:1012-1054 | throughout a run each live token is in its user's index, which expires no earlier, if and only if no call fails half way with a token left out |
| RefreshTokens.OrphanSurvivesRevocation | src/redis/redis.service.ts:1030-1038 | a token whose SREM takes effect and whose DEL fails is accepted after delete-all |
| RefreshTokens.PutKeepsIndexedIff | src/redis/redis.service.ts:1012-1025 | storing a token with any time to live keeps that if and only if no other live token of the user outlives it |
| RefreshTokens.SnapshotRevokesIff | src/redis/redis.service.ts:1044-1054 | deleting by a snapshot revokes everything if and only if no live token is missing from it |
| RefreshTokens.DeleteAllLeavesNone | src/redis/redis.service.ts:1044-1054 | after any run without such a failure, delete-all leaves the user no live token |
| RefreshTokens.RevokedForeverIff | src/auth/auth.service.ts:184-211 | after such a run and delete-all, a token is refused on every later run if and only if its second is over |
| RefreshTokens.RotationRetiresIff | src/auth/auth.service.ts:184-211 | the new token works, and the presented one stops working unless both are the same string |
| RefreshTokens.OtherTokensUntouched | src/auth/auth.service.ts:184-211 | login, refresh and logout leave every other token, the user's own on other devices included, exactly as live as it was |
| RefreshTokens.RequestSchedules | src/auth/auth.service.ts:1488-1541 | a request schedules the deletion seven days ahead, once, cancelling restores the account, and only an administrator's request ends the sessions, all of them and no others |
| RefreshTokens.AccountsElsewhereStay | src/auth/auth.service.ts:1488-1776 | an account is changed by its own commands and a purge after its day only; signing up again does not touch it |
| RefreshTokens.AccountSurvivesGrace | src/auth/auth.service.ts:1488-1541 | an account scheduled for deletion is still there throughout its grace period, cancelled and requested at will, unless an administrator forces the deletion |
| RefreshTokens.ScheduledAccountGoesIff | src/auth/auth.service.ts:1724-1776 | a scheduled account that nobody cancels or forces is gone after a run if and only if a purge that Redis answered came on or after its day |
| RefreshTokens.PurgedStaysOut | src/auth/auth.service.ts:1724-1776 | on every later run a purged user has no live token and cannot log in, unless they join again |
| RefreshTokens.AuthService.DeleteRefreshToken | src/redis/redis.service.ts:1030-1038 | the token is dead and out of the index, every other token as live as before |
| RefreshTokens.AuthService.DeleteAllRefreshTokensByUserId | src/redis/redis.service.ts:1044-1054 | exactly the tokens of other users stay live |
| RefreshTokens.AuthService.HandleLoginSuccess | src/auth/auth.service.ts:264-282 | an existing account gets a token of this second and profile that is live for seven days; every other token is as live as before |
| RefreshTokens.AuthService.RefreshTokens | src/auth/auth.service.ts:184-211 | succeeds exactly for a live token of an existing account, uses up a live token even when it fails, and leaves every token but the presented and the new one as live as before |
| RefreshTokens.AuthService.Logout | src/auth/auth.service.ts:409-424 | the presented token is dead afterwards, every other one as live as before |
| RefreshTokens.AuthService.ForceDeleteAccount | src/auth/auth.service.ts:1584-1634 | only a scheduled account is removed, and its tokens with it |
| RefreshTokens.AuthService.PurgeExpiredAccounts | src/auth/auth.service.ts:1724-1776 | removes exactly the accounts past their day whose tokens Redis deleted, kills their tokens and no others, and reports the numbers purged and failed |
| AssetTrend.AggregateTrend | src/assets/assets-statistics.service.ts:300-386 | one row for exactly the periods asked for, each the sum over accounts of the last record in or before the period, else the seed, with balance = principal + profit wherever the records have it |
| AssetTrend.MonthlyTrend | src/assets/assets-statistics.service.ts:188-296 | measured against the whole table, the row of a month of the year is the sum of all last records up to it, and later rows repeat December; there are none without a record before the end of the year |
| AssetTrend.RowIsUpToDateIff | src/assets/assets-statistics.service.ts:288-404 | the row of a month is the sum of all last records up to it, whatever the amounts, if and only if no record is dated between the end of the year and the end of that month |
| AssetTrend.GeneratePeriodKeys | src/assets/assets-statistics.service.ts:388-427 | the keys run from the first to the last period without gap or repeat |
| AssetTrend.KeysCover | src/assets/assets-statistics.service.ts:388-427 | the periods are the months from the start of the range to this one, else those between the first and the last record |
| AssetTrend.CarryForwardStep | src/assets/assets-statistics.service.ts:347-360 | with sorted records, a period's own last record wins and otherwise the period before counts |
| AssetTrend.FilledIsSnapshot | src/assets/assets-statistics.service.ts:347-360 | the filled entry of a period is the snapshot of all accounts, and the running values are those up to the period |
| AssetTrend.TotalPick | src/assets/assets-statistics.service.ts:362-372 | the total does not depend on the order of the accounts |
| AssetTrend.TotalByComponents | src/assets/assets-statistics.service.ts:362-375 | balance, principal and profit of a row are each the sum of that component over the accounts |
| AssetTrend.RowKeepsIdentity | src/assets/assets-statistics.service.ts:362-375 | with balance = principal + profit in every record and seed, every row has it |
| AssetTrend.ValueOfLatest | src/assets/assets-statistics.service.ts:347-360 | an account counts in a row with its latest record dated in or before the month, or the year |
| AssetTrend.ValueOfSeed | src/assets/assets-statistics.service.ts:340-346 | without such a record it counts with its last seed |
| AssetTrend.NoValue | src/assets/assets-statistics.service.ts:347-372 | with neither it does not count |
| RecurringExpenses.OneExpensePerMonth | src/household/household.scheduler.ts:41-111 | back-fill and any ticks, repeated or out of order, leave at most one expense a month, on the clamped day, none after the end |
| RecurringExpenses.DailyTicksFillExactlyTheWindow | src/household/household.scheduler.ts:28-34 | with daily ticks a month has an expense if and only if it is in the window and its day has come |
| RecurringExpenses.DailyTicksCreateTotalMonths | src/household/household.util.ts:24-52 | with daily ticks to the last due day there are totalMonths expenses in all |
| RecurringExpenses.EndDateIsInLastMonth | src/household/household.util.ts:24-50 | a series has an end exactly with a start and a total of at least 1: the first of its last month, and it is over in exactly the months after that |
| RecurringExpenses.TicksRespectWindowIff | src/household/household.scheduler.ts:60-93 | for every active row, with or without start or end, every run stays in the window if and only if no due day falls between registration and the start month |
| RecurringExpenses.BackfillShape | src/household/household.service.ts:680-714 | the back-fill puts one expense on the clamped day of exactly the months of the window |
| RecurringExpenses.CreatedPerSeries | src/household/household.scheduler.ts:73-93 | one tick over all rows is one tick of each row on its own |
| RecurringExpenses.ListMonthsFromStartToNow | src/household/household.util.ts:54-66 | lists the months from start to now, none if start is later |
| RecurringExpenses.Household.CreateRecurringExpense | src/household/household.service.ts:637-677 | refuses a total without a start; otherwise the new row is active and back-filled, with its end date, and each stored expense has its row's amount and is confirmed unless that row is variable |
| RecurringExpenses.Household.BackfillRecurringExpense | src/household/household.service.ts:680-746 | appends exactly the missing dates, with the row's amount and confirmed unless it is variable, and touches no other row's |
| RecurringExpenses.Household.AutoGenerateRecurringExpenses | src/household/household.scheduler.ts:41-130 | every stored row takes one tick: closed once its months are over and otherwise as it was, with an expense today if it had one or is running and this is its clamped day, of its row's amount and confirmed unless that is variable |
| Calendar.ConsecutiveDaysCover | src/household/household.util.ts:1-10 | a daily schedule passes through every clamped day in its span |
| Calendar.NextCountsOne | src/household/household.util.ts:1-10 | every month has its length, leap years included: the next date is one further in the day count |
| Calendar.ClampIsLastUpTo | src/household/household.util.ts:1-10 | the clamped day is the wanted day where the month has it, else the month's last day |
| MonthlyPayouts.AtMostOncePerMonth | src/savings/savings.scheduler.ts:63-95 | any visits before 15:00 UTC, with pay days and eligibility changing at will, pay no Seoul month twice |
| MonthlyPayouts.OncePerMonthIffHourBefore15 | src/savings/savings.scheduler.ts:32-33 | a schedule at a fixed UTC hour keeps that promise if and only if the hour is before 15 |
| MonthlyPayouts.PaysTwiceAfterKstMidnight | src/common/utils/date-kst.util.ts:4-13 | two payouts in one Seoul month for every hour from 15 on |
| MonthlyPayouts.KstIsNineHoursAhead | src/common/utils/date-kst.util.ts:4-13 | the Seoul date is the date nine hours after the UTC instant |
| MonthlyPayouts.DailyVisitsPayExactlyOnce | src/childcare/childcare.scheduler.ts:59-118 | a month of daily visits with a fixed day pays exactly once, on the clamped day |
| SavingsGoals.RunsReconcileAndDepositOncePerMonth | src/savings/savings.service.ts:82-241 | on every run the stored amount is the sum of the transactions, is never negative, and no month has two auto-deposits |
| SavingsGoals.DailyRunsCreditOnce | src/savings/savings.scheduler.ts:41-112 | a month of daily runs credits an active goal exactly one monthly amount, on the clamped day, whatever is deposited and withdrawn meanwhile |
| SavingsGoals.SavingsStore.DepositTo | src/savings/savings.service.ts:180-212 | an unknown goal is not found; otherwise adds the amount to that goal only, with its transaction |
| SavingsGoals.SavingsStore.WithdrawFrom | src/savings/savings.service.ts:217-241 | refuses an overdraft, otherwise takes the amount off that goal only, with its transaction |
| SavingsGoals.SavingsStore.UpdateGoal | src/savings/savings.service.ts:82-110 | refuses auto-deposit without an amount; switching it off clears the amount |
| SavingsGoals.SavingsStore.PauseGoal | src/savings/savings.service.ts:130-150 | pauses an active auto-deposit only |
| SavingsGoals.SavingsStore.ResumeGoal | src/savings/savings.service.ts:155-175 | resumes a paused auto-deposit only |
| SavingsGoals.SavingsStore.RunAutoDeposit | src/savings/savings.scheduler.ts:34-132 | with the lock every active auto-deposit goal that is due and has no auto-deposit this month gets its monthly amount, without it nothing changes |
| SavingsInterest.ExpectedInterest | src/childcare/constants/savings.constant.ts:3-39 | interest is never negative, simple or compound |
| SavingsInterest.ExpectedInterestIsEarned | src/childcare/constants/savings.constant.ts:3-39 | the formulas of both modes are the interest of every instalment earned month by month, rounded down |
| SavingsInterest.PowerAtLeastLinear | src/childcare/constants/savings.constant.ts:26-35 | compound growth is at least simple growth |
| ChildcareLedger.PointsAreConserved | src/childcare/childcare.service.ts:676-918 | over any run balance plus savings change by what comes from outside only, and savings never go negative |
| ChildcareLedger.BalanceStaysNonNegativeIff | src/childcare/childcare.scheduler.ts:117-163 | throughout a run the balance is not negative if and only if balance and allowance cover the instalment of every pay day |
| ChildcareLedger.FirstInstalmentOverdraws | src/childcare/childcare.scheduler.ts:117-163 | a new account whose plan saves more than the allowance is overdrawn by its first pay day |
| ChildcareLedger.ClosingBalanceOffByOverstated | src/childcare/childcare.service.ts:386-395 | the rewound balance is off by exactly twice what later left savings, less the interest |
| ChildcareLedger.ClosingBalanceIsRightIff | src/childcare/childcare.service.ts:386-398 | it never understates, and is right if and only if nothing was taken out of savings afterwards |
| ChildcareLedger.ClosingBalanceCanBeWrong | src/childcare/constants/transaction-type.constant.ts:18-23 | an account that earns, saves and later withdraws 100 points is shown 200 too many |
| ChildcareLedger.PayoutsOncePerMonth | src/childcare/childcare.scheduler.ts:59-116 | on every run, allowances posted by hand and pay days edited at will, the scheduler pays no Seoul month twice |
| ChildcareLedger.MonthIsPaidOnceIff | src/childcare/childcare.scheduler.ts:59-116 | a month whose pay day is visited is paid exactly once if no allowance of the month is in the ledger by then, and otherwise not at all |
| ChildcareLedger.HandPostedAllowanceBlocksMonth | src/childcare/childcare.service.ts:249-330 | an allowance posted by hand, of any amount, makes the month's visit do nothing |
| ChildcareLedger.PointAccount.CreateTransaction | src/childcare/childcare.service.ts:249-336 | a shop item is booked as a PURCHASE and lowers the balance by its points, a rule as a REWARD or a PENALTY with its sign, a direct request as its own kind with the sign of each of the nine kinds; refused, with which error, exactly when incomplete, informational, 0 or overdrawing |
| ChildcareLedger.PointAccount.DepositSavings | src/childcare/childcare.service.ts:676-720 | moves points into savings, never more than the balance |
| ChildcareLedger.PointAccount.WithdrawSavings | src/childcare/childcare.service.ts:725-764 | moves points out of savings, never more than there are |
| ChildcareLedger.PointAccount.CreateSavingsPlan | src/childcare/childcare.service.ts:779-828 | an account gets at most one plan |
| ChildcareLedger.PointAccount.CancelSavingsPlan | src/childcare/childcare.service.ts:851-918 | pays the principal back without interest |
| ChildcareLedger.PointAccount.MatureSavingsPlan | src/childcare/childcare.scheduler.ts:379-440 | pays principal and interest of an active plan, once |
| ChildcareLedger.PointAccount.PayAllowance | src/childcare/childcare.scheduler.ts:84-164 | pays on the day, unless the month has an allowance, and saves the instalment of an active plan |
| ChildcareLedger.PointAccount.FindClosingBalance | src/childcare/childcare.service.ts:386-395 | the loop rewinds every row stored since the end of the period |
| ChildcareLedger.DispatchAllowance | src/childcare/childcare.scheduler.ts:47-228 | with the lock every account takes one allowance step |
| ChildcareLedger.MatureSavingsPlans | src/childcare/childcare.scheduler.ts:350-440 | with the lock every account whose plan ends today matures |
| AccountRecords.WithdrawalKeepsIdentityIff | src/assets/account-record.service.ts:405-426 | a withdrawal keeps balance = principal + profit if and only if the part it does not take from first is not negative or the amount covers the part it does |
| AccountRecords.StepKeepsIdentityIff | src/assets/account-record.service.ts:69-129 | an entry, withdrawal or removal keeps the identity in every record if and only if it is sound, as seen before the call |
| AccountRecords.RunKeepsIdentityIff | src/assets/account-record.service.ts:53-426 | throughout a run, removals included, the identity holds in every record if and only if every step is sound |
| AccountRecords.AutoAndGoldKeepIdentityIff | src/assets/account-record.service.ts:85-118 | with AUTO and GOLD entries of non-negative amounts the identity holds throughout if and only if no withdrawal of principal finds a loss and leaves principal, and no principal goes negative |
| AccountRecords.LossMakesIdentityFail | src/assets/account-record.service.ts:405-426 | a new account entered at any loss loses the identity by any withdrawal of a part of its principal |
| AccountRecords.RecordsStayInDateOrder | src/assets/account-record.service.ts:60-83 | creation order agrees with date order and a date has one snapshot, after any run |
| AccountRecords.Account.FindLatest | src/assets/account-record.service.ts:86-95 | finds the last created record dated at most the limit |
| AccountRecords.Account.CreateRecord | src/assets/account-record.service.ts:53-141 | refuses, in this order, a second snapshot of a date, a later record, gold on another account or without a price; otherwise appends: an AUTO principal is that of the last record dated earlier plus the addition, a GOLD one its cost, else its worth, and profit is the rest |
| AccountRecords.Account.CreateWithdrawal | src/assets/account-record.service.ts:257-327 | refuses without an earlier or with a later record; otherwise appends the withdrawal and a record that takes the amount first off the part it names, then off the other, neither left below zero |
| AccountRecords.Account.RemoveAccountRecord | src/assets/account-record.service.ts:224-255 | removes that record and no other |
| AccountRecords.Account.RemoveAccountWithdrawal | src/assets/account-record.service.ts:369-403 | removes the withdrawal, the record it left and no other |
| Shopping.CartIsPartitioned | src/shopping/shopping.service.ts:178-187 | completed and remaining items are the cart, split by the excluded ids |
| Shopping.AddedMeanwhileIsLostIff | src/shopping/shopping.service.ts:260-265 | an item added after the cart was read is neither completed nor kept if and only if it is not excluded |
| Shopping.DistinctFridgeItems | src/shopping/shopping.service.ts:202-220 | each transferred history item has a new fridge item of its own |
| Shopping.EntryTells | src/shopping/shopping.service.ts:196-240 | a history entry copies the item, prices it by the item, else by its transfer, and points at a fridge item with the transfer's place, quantity, unit and dates, three days' warning by default |
| Shopping.TotalIsTheSum | src/shopping/shopping.service.ts:221-226 | the total is the sum of the prices there are |
| Shopping.ShoppingGroup.MoveItems | src/shopping/shopping.service.ts:196-240 | history one to one with the items, one fridge item per transfer, and the total of the prices |
| Shopping.ShoppingGroup.StoreShopping | src/shopping/shopping.service.ts:189-268 | the transaction: history and fridge by the items read before, the deletion by the cart as it is now |
| Shopping.ShoppingGroup.CompleteShopping | src/shopping/shopping.service.ts:164-276 | fails and changes nothing when nothing is to be completed; otherwise leaves exactly the excluded items, charges the sum of the history prices unless an amount is given, and loses what others added meanwhile and is not excluded |
| RoutineLifecycle.RunKeepsInv | src/routine/routine.service.ts:301-522 | with days in order, paused means an open pause, ended means deleted, pauses are ordered and overlap at most at endpoints, a date has one log and none lies in the future |
| RoutineLifecycle.PausedMeansExactlyOneOpen | src/routine/routine.service.ts:301-361 | at most one pause is open, and then the routine is paused |
| RoutineLifecycle.ExcludedIffPausedAtEndOfDay | src/routine/utils/routine-stats.util.ts:22-42 | a day is left out of the statistics if and only if the routine was paused at the end of it |
| RoutineLifecycle.CheckThenUncheckRestores | src/routine/routine.service.ts:423-522 | taking a check back leaves the routine as it was |
| RoutineLifecycle.RoutineService.PauseNow | src/routine/routine.service.ts:301-321 | succeeds for an active routine only, and opens the only open pause, today |
| RoutineLifecycle.RoutineService.ResumeNow | src/routine/routine.service.ts:326-361 | succeeds for a paused routine only, and closes its last pause, the only open one, today |
| RoutineLifecycle.RoutineService.EndNow | src/routine/routine.service.ts:364-392 | the routine is ended, no pause is open, and only the open pause has changed |
| RoutineLifecycle.RoutineService.CheckDay | src/routine/routine.service.ts:423-457 | succeeds for an active routine and a day not in the future without a log, and logs that day and no other |
| RoutineLifecycle.RoutineService.UncheckDay | src/routine/routine.service.ts:507-522 | removes the log of that day and no other |
| DailyGoals.GetEffectiveSettingsMap | src/routine/routine-settings.service.ts:80-115 | the two-pointer sweep gives each day of the range the last row in force, ALL when there is none |
| DailyGoals.EffectiveIsLatest | src/routine/routine-settings.service.ts:96-112 | the goal of a day is that of the latest row from on or before it |
| DailyGoals.UpsertChangesOnlyFromToday | src/routine/routine-settings.service.ts:62-72 | an update changes the days from today to the next row and no other |
| DailyGoals.EarlierDaysKeepTheirGoal | src/routine/routine-settings.service.ts:30-77 | an update today never changes an earlier day's goal |
| DailyGoals.HistoryTellsEveryDay | src/routine/routine-settings.service.ts:30-115 | after any run each day has the goal last accepted by then, and every stored COUNT has a count of at least 1 |
| DailyGoals.RoutineSettings.UpdateSettings | src/routine/routine-settings.service.ts:30-77 | refuses COUNT without a count of at least 1, given or kept; otherwise mode and count are the given ones, else those kept, and setting and today's history row both say so |
| Streaks.ComputeDailyGoalStatus | src/routine/routine-stats.service.ts:507-562 | counts active and checked routines of every day and compares with the day's goal |
| Streaks.StatusTells | src/routine/routine-stats.service.ts:519-561 | a day shows its checked and active routines; without an active one there is no target and no result, under ALL the target is all of them, under COUNT the count, and it is achieved exactly when that many are checked |
| Streaks.CountModePassesIff | src/routine/routine-stats.service.ts:547-552 | under COUNT a day with active routines is achieved if and only if the number of checked ones is at least the count |
| Streaks.CountsStep | src/routine/routine-stats.service.ts:519-532 | each routine of the daily goal counts once where it is active and once where it is checked, others never |
| Streaks.ActiveUnlessPaused | src/routine/utils/routine-stats.util.ts:22-42 | over any run of pauses, a routine is active on a day of its span if and only if it was not paused at the end of it |
| Streaks.AllModePassesIff | src/routine/routine-stats.service.ts:519-561 | under ALL a day is achieved if and only if no more active routines are missing than inactive ones are checked |
| Streaks.AllModeMeansAllIff | src/routine/routine-stats.service.ts:519-561 | whichever active routines are checked, ALL means all of them if and only if no routine is checked that is not active that day |
| Streaks.CheckedThenPausedStandsIn | src/routine/routine-stats.service.ts:519-561 | a routine checked and then paused that day makes up for another one left unchecked |
| Streaks.CurrentStreak | src/routine/routine-stats.service.ts:656-668 | the backward loop counts the achieved days since the last failed day, empty days and an open today ignored |
| Streaks.LongestStreak | src/routine/routine-stats.service.ts:670-680 | the forward loop finds the most achieved days between failed days |
| Streaks.CurrentNeverExceedsLongestIff | src/routine/routine-stats.service.ts:656-680 | whatever the results of the days, current never exceeds longest, if and only if today is not strictly between other days of the range |
| Streaks.FailedTodayInside | src/routine/routine-stats.service.ts:656-680 | a failed today between two achieved days gives a current streak of 2 and a longest of 1 |
| Streaks.GetDailyStreak | src/routine/routine-stats.service.ts:596-680 | sweep, statuses and both loops together |
| Csv.RoundTripIff | src/auth/auth.service.ts:1470-1486 | reading the text after the BOM gives the header and every row back, for any cells, if and only if the headers need no escaping and no line lacks columns |
| Csv.FileRoundTripIff | src/auth/auth.service.ts:1470-1486 | with a forgiven final line break, if and only if the last line is not one empty cell, which is otherwise the only loss |
| Csv.SameFileIff | src/auth/auth.service.ts:1475-1485 | two exports are the same file if and only if their cells differ at most in null against the empty string |
| Csv.QuotedIff | src/auth/auth.service.ts:1475-1480 | a cell is quoted exactly when it has a comma, a quote or a line feed, and otherwise written as it is |
| Csv.StartsWithBom | src/auth/auth.service.ts:1485-1485 | the file starts with the byte order mark |
| Csv.QuotedReads | src/auth/auth.service.ts:1475-1480 | doubling quotes is undone by the reader, whatever the cell holds |
| Csv.HeadersReadOnlyIfPlain | src/auth/auth.service.ts:1481-1482 | a header line that reads back needed no escaping |

## Left out

- Controllers, validation decorators, permissions, notifications, e-mail, FCM topics, storage and webhooks: I/O without a property of its own.
- Prisma and SQL: every query is its meaning on maps and sequences; ids are unique and stored rows keep creation order.
- Races between a check and a write of one service call on the database (balances, plans, device-token rows, routine logs): the check and the write are one step.
- Other Redis features (announcement caches, locks with their expiry, memo locks, indicator history): the scheduler lock is a flag that tells whether it was acquired.
- Restarts: the reload of unsent announcements at start-up, and Redis losing data.
- `cancelScheduledNotification`: nothing calls it.
- NotificationQueue.QueueService.MoveReadyNotificationsFromWaiting: does not model the limit Lua puts on `unpack`, and the order among equal scores is left open.
- NotificationQueue: what a worker does with an item (settings, history row, FCM) beyond the tokens is not modelled; the failure of a push after a pop is not a return to the queue.
- RefreshTokens: passwords, verification codes and social login before `handleLoginSuccess`, and file deletion before a purge; signing is injective in the payload and the second.
- RefreshTokens.AuthService.PurgeExpiredAccounts: the deletion of the account rows always succeeds; where it fails the tokens are revoked all the same (`RevokeOnly`).
- ViewCounts: a view whose INCR fails is not counted, and is not among the views made.
- Scheduler loops over the database (allowances, savings, recurring expenses, maturities): a row that fails, and those after it where the loop stops there, are visits that did not take place.
- Csv: `String(v)` of a cell is a parameter; which tables the export holds and `maskPhoneNumber` are not modelled.
- AssetTrend: all queries return the records of one day in the same order; a year is always given.
- AssetTrend.AggregateTrend: amounts are integers in minor units; the percentage and the two-decimal strings are not modelled, and years are numbers rather than strings.
- TokenCache: the EXPIRE after an SADD is not a step of its own, since an entry may expire at any time; the read of the existing row before a registration's transaction is part of the transaction.
- SavingsInterest.ExpectedInterest: works over exact reals, so a result within a rounding error of an integer may differ by one from floating point.
- SavingsGoals: amounts are non-negative as the forms demand, and `toGoalDto` and goal-reached messages are not modelled.
- RecurringExpenses: a row whose start or day is edited after registration, budgets from templates, and years before 100 (which `Date.UTC` moves by 1900).
- AccountRecords: the gold price is a parameter, deduplicated dates are day numbers, and formatting is not modelled.
- RoutineLifecycle: frequency combinations, record values, categories and shares, which only inspect values.
- Streaks: weekly and monthly streaks, rates and heat maps.
- Shopping: descriptions, payment method and merchant of the expense, which are copied as they are.
