# Verification of the delivery, membership and publishing logic

A Dafny 4.11 model of the parts of the alumni-association web application whose correctness rests on
more than one function: scheduled push delivery, roles and the last super_admin, RSVP capacity, two
in-memory structures, the signup life cycle and post visibility. `dafny verify dfyconfig.toml` checks
the whole project.

## What is modelled

**Scheduled push delivery.** A log row per (event, type) is granted to one worker, a delivery row per
(log, endpoint) moves through pending, in_progress, completed, failed, unknown and abandoned, and a
claim is committed before every provider call.

* `DeliveryRows` says what each UPDATE or INSERT does to the two tables. `ScheduledStore` has the
  repository's methods, loops over mutable rows proved against those functions.
* `PushRetry` is the retry loop for one endpoint. `DeliveryRun` says what a list of endpoints does to
  the rows, with its accounting, and `RunOutcomes` what the provider's answers alone decide: who is
  called again, who loses the subscription, what every row says afterwards. `DeliveryWorker` holds the
  worker's loops and one whole event.
* `DeliveryProtocol` is the same system as a state machine: any number of workers, each database
  transaction one atomic step, arbitrary provider answers, workers that crash, fail or are overtaken
  by the stale sweep between any two steps and go on afterwards. `ProtocolRuns` has the guarantees
  over every run of it, and `DeliveryRefinement` proves that one whole run of `DeliveryWorker`, from the
  reclaim to the final status, takes only protocol steps and makes the same calls, to the same
  endpoints with the same answers, so that the guarantees cover it.
  `LateWorker` is one concrete run in which a worker is overtaken and comes back.

**Roles.** `CommaText` and `LikePatterns` define splitting, joining and LIKE with its escape character
(section 9.7.1 of the PostgreSQL manual). `Roles` models role strings from input to column and back,
`SuperAdmins` the operations that change roles or member status and the two guards. `AdminRaces` lets
other changes commit between the reading of a member row and the guarded write. `Members` is the table
these and the signup life cycle share.

**RSVPs.** `Rsvps` models both entries to an RSVP, the capacity rule and promotion from the waitlist.

**In-memory structures.** `PostRateLimit` proves the sliding-window deque equal to its full history.
`FilterKeys` and `CountCache` prove the member-count cache to be the newest 64 entries of two
unbounded tables, with lookups and stores of concurrent calls interleaved in any order. `MemberQuery`
has the query behind the count and says which filters with one cache key are one query.

**Signup.** `SignupLifecycle` models requests, members, credentials and the two commits of an
activation, between which a worker may stop and other operations may run.

**Posts.** `PostVisibility` evaluates the SQL clauses in three-valued logic and compares them with the
check on a loaded row and with the admin page's rule.

## Findings

Where the code does less than its names and comments suggest, the model keeps the code and states
exactly when the expected property holds.

* A run without subscribers completes its log without looking at the rows
  (apps/api/services/scheduled_notifications_service.py:331-336). A completed run leaves every row
  settled if and only if it had subscribers or nothing was unresolved before
  (`CompletedRunSettledIff`); `EmptyRunMayCompleteUnsettledLog` is a case.
* A cancel by a member who was not going still promotes a waitlister
  (apps/api/services/events_service.py:154-157), so an event can be overbooked: `OverbooksIff` has the
  exact condition, `CapacityBound` the true bound over a run, `OverbookingExample` a case.
* The role guard does not look at the status of the demoted super_admin
  (apps/api/services/members_service.py:573-589). Its refusal means that no active super_admin would
  remain if and only if that member is active or the number of active super_admins is not one
  (`RoleGuardIsRightIff`); `SuspendedDemotionAlsoRefused` is a case. The status guard is right for
  every member (`StatusGuardIsRight`).
* `record_delivery_results` has no status guard
  (apps/api/repositories/scheduled_notifications.py:156-171), yet settled rows never change again,
  because nobody can hold a claim on one (`SettledIsSealed`, `SealedForever`).
* `update_notification_log` has no guard either
  (apps/api/services/scheduled_notifications_service.py:214-232), and there it matters: a completed
  log is final if and only if no live worker is on it (`CompletedIsFinalIff`). `LateWorkerOverwrites`
  is a run in which a swept worker turns a completed log into a failed one and moves its own delivery
  out of unknown.
* The cache key drops an explicit None (apps/api/services/members_service.py:191-197), while the query
  reads a missing `exclude_private` as true and an explicit None as false
  (apps/api/repositories/members.py:84). Two filters with one key are one query if and only if both or
  neither hold that None (`SameKeySameQueryIff`); with it a hit can count a private member it should
  leave out (`HitMayAnswerAnotherQuery`). The routes that use the cache send False
  (apps/api/routers/admin_members.py:48-85), and then every hit answers its own query
  (`HitAnswersTheQuery`).
* The member row is read before the lock is taken (apps/api/services/members_service.py:558-589). In a
  race the last active super_admin is lost exactly when a change takes the grade or the activity from
  the only one, whose row was read before that member had them (`RolesLoseIff`, `StatusLosesIff`).
  `StaleDemotionLosesTheLast` is such a run; every other race keeps one (`SurvivesUnlessRoseUnseen`).
* The public clause must not be negated: for a post without a category it can be unknown
  (apps/api/post_visibility.py:45-53, `NegationLosesPosts`).
* The admin page compares whole milliseconds (apps/web/lib/admin-post-status.ts:13-15) and the database
  microseconds. For a post that is not on a board they disagree exactly from the start of the millisecond
  in which it falls due until it is due (`PageAgreesIff`).

## Model

| member | source | states |
|---|---|---|
| `DeliveryRows.EnsureMeaning` | apps/api/repositories/scheduled_notifications.py:43-80 | Preparing a log gives every requested endpoint a row, abandons retryable rows of endpoints no longer requested, leaves settled, claimed and foreign rows alone, and keeps (log, endpoint) unique |
| `DeliveryRows.EnsureIdempotent` | apps/api/repositories/scheduled_notifications.py:43-80 | Preparing twice is preparing once |
| `DeliveryRows.EnsureKeepsCount` | apps/api/repositories/scheduled_notifications.py:52-79 | Preparing changes no count that looks only at claimed, completed or unknown rows |
| `DeliveryRows.InsertMeaning` | apps/api/repositories/scheduled_notifications.py:66-79 | The conflict-free insert keeps old rows and appends one pending row exactly for each endpoint without one |
| `DeliveryRows.CleanOrder` | apps/api/repositories/scheduled_notifications.py:39-40 | And they come in the order of their first occurrence |
| `DeliveryRows.CleanMeaning` | apps/api/repositories/scheduled_notifications.py:39-40 | Cleaned hashes are the non-empty ones, each once |
| `DeliveryRows.SettleKeepsCounts` | apps/api/repositories/scheduled_notifications.py:199-206 | Turning orphaned claims into unknown leaves no claim on the log and no log's delivery counts changed |
| `DeliveryRows.CountsAccountForAll` | apps/api/repositories/scheduled_notifications.py:174-191 | accepted + failed + abandoned is the number of the log's rows; failed is zero iff every row is completed or abandoned |
| `DeliveryRows.CountsAreSizes` | apps/api/repositories/scheduled_notifications.py:174-191 | The two counts are the numbers of the log's completed rows and of its rows that are neither completed nor abandoned |
| `DeliveryRows.GrantMeaning` | apps/api/services/scheduled_notifications_service.py:169-211 | A grant is refused iff the pair has a log that is not failed; a granted log is unique and reset to pending with zero counts and no sent_at, and no other log changes |
| `ScheduledStore.Store.CleanHashes` | apps/api/repositories/scheduled_notifications.py:39-40 | The loop computes the cleaned list in order |
| `ScheduledStore.Store.EnsureDeliveries` | apps/api/repositories/scheduled_notifications.py:43-80 | Every requested endpoint has a row, new ones pending; pending and failed rows of endpoints no longer requested are abandoned; nothing else changes; and the unique index holds |
| `ScheduledStore.Store.GetDeliveryStates` | apps/api/repositories/scheduled_notifications.py:83-106 | Exactly the requested endpoints that have a row, each with that row's status |
| `ScheduledStore.Store.ClaimDeliveries` | apps/api/repositories/scheduled_notifications.py:109-147 | Exactly the pending and failed rows of the requested endpoints become in_progress with one more attempt and no code, each with one claim, in order of their ids |
| `ScheduledStore.ClaimOne` | apps/api/repositories/scheduled_notifications.py:121-146 | Claiming one endpoint changes only its row, and only if that is pending or failed |
| `ScheduledStore.Store.RecordDeliveryResults` | apps/api/repositories/scheduled_notifications.py:150-171 | Every row takes the last result given for its id, unknown without an answer, else completed or failed, whatever its status was; no other row changes |
| `ScheduledStore.RecordMeaning` | apps/api/repositories/scheduled_notifications.py:150-171 | The same of the recording function, for any list of results |
| `ScheduledStore.Store.GetDeliveryCounts` | apps/api/repositories/scheduled_notifications.py:174-191 | Counts completed rows as accepted and all but completed and abandoned rows as failed |
| `ScheduledStore.Store.SettleClaims` | apps/api/repositories/scheduled_notifications.py:199-206 | Exactly the log's in_progress rows become unknown |
| `ScheduledStore.Store.FinalizeStaleLog` | apps/api/repositories/scheduled_notifications.py:194-219 | The log fails with the numbers of its completed and of its unresolved rows, and exactly its claims become unknown |
| `ScheduledStore.Store.ReclaimStaleLog` | apps/api/repositories/scheduled_notifications.py:222-252 | Picks exactly a log of this pair that is pending or in progress and was updated before the cutoff; it fails with its counts and its claims become unknown, and nothing else changes |
| `ScheduledStore.Store.SelectStale` | apps/api/repositories/scheduled_notifications.py:255-270 | The ids of exactly the pending and in_progress logs last updated before the cutoff, in ascending order |
| `ScheduledStore.Store.ReclaimStaleLogs` | apps/api/repositories/scheduled_notifications.py:255-279 | Exactly the pending and in_progress logs last updated before the cutoff fail, each with the counts of its rows, and exactly their claims become unknown, so that afterwards none is left; returns their number |
| `ScheduledStore.ReclaimMeaning` | apps/api/repositories/scheduled_notifications.py:194-279 | The same of the sweep as a function of the two tables |
| `ScheduledStore.FinalizeOneMore` | apps/api/repositories/scheduled_notifications.py:268-279 | Finalising one more log extends the finalised set by it |
| `ScheduledStore.Store.MarkLogFailed` | apps/api/repositories/scheduled_notifications.py:282-313 | The log's claims become unknown, it fails with the numbers of its completed and unresolved rows, or with the subscriber count when both are zero |
| `ScheduledStore.Store.CreateNotificationLog` | apps/api/services/scheduled_notifications_service.py:169-211 | Refused iff the pair has a log that is not failed; otherwise the pair's log is pending with zero counts and no sent_at, and no other log changes |
| `ScheduledStore.Store.UpdateNotificationLog` | apps/api/services/scheduled_notifications_service.py:214-232 | Sets status and counts, and sent_at only for completed, on any existing log |
| `ScheduledStore.Store.IsAlreadySent` | apps/api/services/scheduled_notifications_service.py:74-87 | True iff the pair has a completed or running log |
| `PushRetry.SendWithRetry` | apps/api/services/scheduled_delivery_service.py:31-56 | Between 1 and maxRetries+1 calls, all to the one endpoint: a call that was accepted, got no answer or was refused with 400, 404 or 410 is the last, and any other refusal is followed by another call while the budget lasts; reports the last call, and has slept (2^k - 1)/2 seconds after k retries |
| `PushRetry.FinalAnswerIsLast` | apps/api/services/scheduled_delivery_service.py:43-53 | Nothing follows a call that was accepted, got no answer, or was refused with 400, 404 or 410 |
| `PushRetry.OtherRefusalIsRetried` | apps/api/services/scheduled_delivery_service.py:52-56 | Any other refusal is followed by another call while retries are left |
| `PushRetry.BackoffDoubles` | apps/api/services/scheduled_delivery_service.py:54-55 | The first wait is half a second and every further one twice the one before |
| `PushRetry.ShapeDetermines` | apps/api/services/scheduled_delivery_service.py:38-56 | That description admits only one number of calls |
| `PushRetry.OnlyLastCallMayDeliver` | apps/api/services/scheduled_delivery_service.py:40-56 | A call that was accepted or got no answer is the last one, and its answer is what is reported |
| `DeliveryWorker.PrepareScheduledDelivery` | apps/api/services/scheduled_delivery_service.py:67-88 | A pending or failed row is claimed; otherwise nothing changes and the row's status, if any, is returned |
| `DeliveryWorker.CallAndRecord` | apps/api/services/scheduled_delivery_service.py:181-205 | The claimed row gets the retry loop's verdict, unknown without an answer, else completed or failed, or a definite failure without a call when decryption fails |
| `DeliveryWorker.SendBatchChunk` | apps/api/services/scheduled_delivery_service.py:140-233 | Rows, provider calls, totals, send log and expired subscriptions are those of running the endpoints one by one |
| `DeliveryWorker.SendBatchNotifications` | apps/api/services/scheduled_notifications_service.py:115-166 | Rows, calls, send log and removed subscriptions are independent of the batch size; for distinct endpoints the result is the old completed rows plus the accepted of this run, and its failures plus what was unresolved outside the list; and rows, calls and subscriptions are what `RunOutcomes.RunTells` says |
| `DeliveryRun.RunConcat` | apps/api/services/scheduled_notifications_service.py:140-154 | Cutting the subscriber list into batches changes nothing and the totals add up |
| `DeliveryRun.RunAccounted` | apps/api/services/scheduled_delivery_service.py:158-211 | Every prefix of a run touches only its endpoints' retryable rows, once each, and its totals agree with the rows and the send log |
| `DeliveryRun.RunAccounting` | apps/api/services/scheduled_notifications_service.py:134-166 | Run accounting between the tables and the chunk totals, for any table and any provider answers |
| `DeliveryRun.PreparedRows` | apps/api/services/scheduled_notifications_service.py:134-139 | After preparing only listed endpoints have retryable rows, and no claim, completion or loss was added or removed |
| `DeliveryRun.RunCalls` | apps/api/services/scheduled_delivery_service.py:158-190 | The calls of a run are its share of the provider's answers, in order, each to a listed endpoint |
| `DeliveryRun.RetriggerQuiescence` | apps/api/services/scheduled_notifications_service.py:134-155 | At most maxRetries+1 calls per retryable row, all to listed endpoints; with none, no call and no row changed |
| `DeliveryRun.RerunOfSettledLog` | apps/api/services/scheduled_delivery_service.py:67-88 | A rerun over settled endpoints calls nobody and only abandons retryable rows of endpoints no longer listed |
| `RunOutcomes.SubMeaning` | apps/api/services/scheduled_delivery_service.py:163-211 | By the row it finds: a settled or claimed one is left alone, an unknown one counts as failed, and a pending or failed one is called, recorded, counted and listed by the last answer |
| `RunOutcomes.RunTells` | apps/api/services/scheduled_delivery_service.py:158-233 | Exactly the readable endpoints with a pending or failed row are called, each until a final answer or maxRetries+1 times; those refused with 404 or 410 lose their subscription; accepted counts the accepted calls; a row is completed iff a call to it was accepted, unknown iff one got no answer, else failed |
| `RunOutcomes.FullRunTells` | apps/api/services/scheduled_notifications_service.py:134-155 | The same for a run that prepares its rows first |
| `DeliveryWorker.AcquireLog` | apps/api/services/scheduled_notifications_service.py:295-325 | Gives up iff the pair's log is completed, or is pending or in progress and was updated in the last 15 minutes; otherwise holds the pair's log, fresh and in progress, with the claims it was left with unknown, and no other log changed |
| `DeliveryWorker.GrantUnlessOccupied` | apps/api/services/scheduled_notifications_service.py:295-321 | After the reclaim a grant is refused iff the pair was occupied before it |
| `DeliveryWorker.ProcessSingleEvent` | apps/api/services/scheduled_notifications_service.py:283-418 | Logs, rows, result and every provider call with its endpoint and answer are, for an uninterrupted run, those of the run function, and exactly the endpoints refused with 404 or 410 lose their subscription |
| `DeliveryWorker.RunEventMeaning` | apps/api/services/scheduled_notifications_service.py:283-418 | A run is skipped iff the pair's log is completed, or is pending or in progress and was updated in the last 15 minutes, and then changes nothing; otherwise it ends with the pair's log holding the returned counts, failed iff any failed, sent_at set iff completed, and no other log changes |
| `DeliveryWorker.RunEventTells` | apps/api/services/scheduled_notifications_service.py:283-389 | Otherwise it starts from the rows as they were, except that the claims of a log left open are unknown, prepares them, calls exactly the readable pending and failed endpoints, each until a final answer or four times, and returns the numbers of completed and unresolved rows its log then has |
| `DeliveryWorker.CompletedRunSettledIff` | apps/api/services/scheduled_notifications_service.py:331-389 | A completed run leaves every row completed or abandoned iff it had subscribers or nothing was unresolved before |
| `DeliveryWorker.EmptyRunMayCompleteUnsettledLog` | apps/api/services/scheduled_notifications_service.py:331-336 | An empty run completes a log that still has its failed delivery |
| `DeliveryProtocol.InvStep` | apps/api/services/scheduled_delivery_service.py:163-205 | Every step of every worker, sweep or crash keeps the ownership invariant |
| `DeliveryProtocol.InvStartCall` | apps/api/services/scheduled_delivery_service.py:38-41 | A call starts only on a row whose earlier calls were all refused |
| `DeliveryProtocol.InvRecord` | apps/api/repositories/scheduled_notifications.py:156-171 | The unguarded record of a possibly late worker keeps it |
| `DeliveryProtocol.InvSweep` | apps/api/repositories/scheduled_notifications.py:194-279 | Reclaiming logs of workers that are still alive keeps it, and so does failing a run |
| `ProtocolRuns.AtMostOnce` | apps/api/services/scheduled_delivery_service.py:31-88 | In every reachable state at most one call per (log, endpoint) may have been delivered, and no call for the pair follows it |
| `ProtocolRuns.ClaimOwnership` | apps/api/repositories/scheduled_notifications.py:109-147 | Each row has at most one unrecorded claim, and then is in_progress or unknown |
| `ProtocolRuns.SettledIsSealed` | apps/api/repositories/scheduled_notifications.py:156-171 | Nobody holds a claim on a completed or abandoned row |
| `ProtocolRuns.SealedForever` | apps/api/repositories/scheduled_notifications.py:156-171 | Completed, abandoned, and unknown without a holder never change again and are never called again |
| `ProtocolRuns.BoundedLoss` | apps/api/services/scheduled_delivery_service.py:193-205 | Claimed and unknown rows are exactly the results recorded unknown, the interruptions and the open claims; unknown rows are bounded by unanswered calls, interruptions and open claims |
| `ProtocolRuns.TimelyBoundedLoss` | apps/api/services/scheduled_delivery_service.py:193-205 | While no worker is overtaken by a sweep, unknown rows are at most the unanswered calls and the interruptions that hit a claim |
| `ProtocolRuns.FailureHasCause` | apps/api/services/scheduled_notifications_service.py:235-254 | A log that becomes failed was marked so by a sweep, a failed run or a finished run with failures |
| `ProtocolRuns.GrantExclusivity` | apps/api/services/scheduled_notifications_service.py:169-211 | Two grants for one pair are the same log, and it was marked failed between them |
| `ProtocolRuns.ClaimsAreRecoverable` | apps/api/repositories/scheduled_notifications.py:255-279 | While no worker is overtaken a claimed row's log is in progress, so the sweep finds it, and no two workers are on one log |
| `ProtocolRuns.CrashIsRecoverable` | apps/api/repositories/scheduled_notifications.py:222-279 | After any run, when a worker dies on a log that is pending or in progress and older than the cutoff, the log can be swept, its claims become unknown, and the next worker that asks for the pair is granted it |
| `ProtocolRuns.StaleCanBeSwept` | apps/api/repositories/scheduled_notifications.py:255-270 | Every pending or in_progress log last updated before the cutoff can be swept, whoever is on it |
| `ProtocolRuns.CompletedForever` | apps/api/services/scheduled_notifications_service.py:214-232 | In any run a completed log that no live worker is on never changes |
| `ProtocolRuns.CompletedIsFinalIff` | apps/api/services/scheduled_notifications_service.py:214-232 | A completed log stays as it is in every continuation iff no live worker is on it |
| `ProtocolRuns.TimelyCompletedIsFinal` | apps/api/services/scheduled_notifications_service.py:295-321 | While no worker is overtaken a completed log is final |
| `LateWorker.LateWorkerOverwrites` | apps/api/services/scheduled_notifications_service.py:214-232 | A reachable run in which a swept worker turns a completed log into a failed one and its unknown delivery into a failed one |
| `DeliveryRefinement.RetryPath` | apps/api/services/scheduled_delivery_service.py:31-56 | The retry loop is a sequence of call and answer steps with that number of calls and that verdict |
| `DeliveryRefinement.SubPath` | apps/api/services/scheduled_delivery_service.py:163-205 | One endpoint of the chunk loop is a sequence of protocol steps with the same rows and the same calls: log, endpoint and answer |
| `DeliveryRefinement.FullRunPath` | apps/api/services/scheduled_notifications_service.py:115-166 | So is the whole run from preparing to the final status, calls in order |
| `DeliveryRefinement.EventPath` | apps/api/services/scheduled_notifications_service.py:283-389 | One whole uninterrupted run, skipped, empty or not, is a sequence of protocol steps that make its calls |
| `DeliveryRefinement.RunRefinesProtocol` | apps/api/services/scheduled_notifications_service.py:283-389 | After any history and beside any other workers, its logs, rows and calls, each with log, endpoint and answer, continue the protocol run |
| `CommaText.SplitJoin` | apps/api/services/roles_service.py:102-103 | Splitting undoes joining of comma-free tokens |
| `CommaText.JoinSplit` | apps/api/services/roles_service.py:44-47 | Joining undoes splitting, whose parts hold no comma |
| `CommaText.StripMeaning` | apps/api/services/roles_service.py:46 | Strip takes only spaces off both ends and leaves none there |
| `CommaText.LowerMeaning` | apps/api/services/roles_service.py:46 | Lower replaces the 26 capitals one by one and leaves every other character alone |
| `LikePatterns.EscapeLikeIsPerCharacter` | apps/api/repositories/__init__.py:6-12 | The three ordered replaces escape each character exactly once |
| `LikePatterns.EscapedIsLiteral` | apps/api/repositories/__init__.py:6-12 | Escaped text in a pattern matches itself and nothing else |
| `LikePatterns.SearchFindsSubstrings` | apps/api/repositories/__init__.py:6-12 | For all strings, an escaped search matches iff the search text is a substring |
| `LikePatterns.InsensitiveSearch` | apps/api/repositories/posts.py:259-264 | The same for ILIKE, up to case folding |
| `LikePatterns.TokenPatternIsExact` | apps/api/repositories/members.py:155-171 | The counting pattern matches iff the role is one whole comma-separated token |
| `Roles.DedupePreserveOrder` | apps/api/services/roles_service.py:33-41 | Each item once, in the order of the first occurrences |
| `Roles.NormalizeAssignableRoles` | apps/api/services/roles_service.py:81-99 | Member always; super_admin iff asked for; admin iff it or super_admin is; a permission iff super_admin is asked for or it is together with admin; nothing else; what was asked for comes first and in its order, whatever the set order of the rest |
| `Roles.NormalizeMeaning` | apps/api/services/roles_service.py:44-56 | The tokens of a text are those of its comma-separated pieces, of a list those of its strings, stripped and in lower case, blanks left out, each once |
| `Roles.AssignableTokens` | apps/api/services/roles_service.py:81-99 | The rule of `NormalizeAssignableRoles`, for every list the set loop may produce |
| `Roles.GradeMeaning` | apps/api/services/roles_service.py:65-123 | Grade, permissions and permission checks of any value, token by token |
| `Roles.AssignableMeaning` | apps/api/services/roles_service.py:81-99 | Whatever the set order, each token of the closed request, and member, exactly once |
| `Roles.AssignableIsClosed` | apps/api/services/roles_service.py:81-99 | Known tokens with member, everything for super_admin, no permission without admin; super_admin iff it was requested |
| `Roles.AssignableIdempotent` | apps/api/services/roles_service.py:81-99 | Normalising again returns the same sequence |
| `Roles.SerializedReadsBack` | apps/api/services/roles_service.py:44-103 | A serialised list reads back unchanged as tokens, as grade and permissions, and as the query's tokens |
| `Roles.PermissionsOfSerialized` | apps/api/services/roles_service.py:106-123 | A stored list grants exactly its permissions, and with the fallback an admin has all |
| `Roles.ExactTokenGivesGrade` | apps/api/services/roles_service.py:65-78 | Any text with super_admin as a whole token has the super_admin grade |
| `SuperAdmins.CountedIsSuper` | apps/api/repositories/members.py:141-171 | Every row the query counts is an active super_admin by grade, whatever its role text |
| `SuperAdmins.CountedIffActiveSuper` | apps/api/repositories/members.py:141-171 | On serialised role columns query and grade agree |
| `SuperAdmins.OpKeepsSuperAdmin` | apps/api/services/members_service.py:278-318 | No operation, accepted or refused, loses the last active super_admin |
| `SuperAdmins.LastSuperAdminSurvives` | apps/api/services/members_service.py:546-598 | Nor does any serial run of role changes, admin updates, direct creations and approvals |
| `SuperAdmins.CanonicalAlways` | apps/api/services/roles_service.py:102-103 | Role columns stay serialised closed lists over every run |
| `SuperAdmins.GuardIsExact` | apps/api/services/members_service.py:573-589 | The count guard trips iff the active super_admin is the only one |
| `SuperAdmins.RoleGuardRefusesIff` | apps/api/services/members_service.py:573-589 | A role change by somebody else is refused as the last one's iff it takes the grade from any super_admin while at most one active one exists |
| `SuperAdmins.RoleGuardIsRightIff` | apps/api/services/members_service.py:573-589 | That refusal coincides with none remaining iff the demoted member is active or the number of active super_admins is not one |
| `SuperAdmins.StatusGuardIsRight` | apps/api/services/members_service.py:278-301 | For every member a status change is refused iff no active super_admin would remain |
| `SuperAdmins.SuspendedDemotionAlsoRefused` | apps/api/services/members_service.py:573-589 | A suspended super_admin's demotion is refused although an active one stays |
| `AdminRaces.RolesLoseIff` | apps/api/services/members_service.py:558-598 | A role change with a row read earlier loses the last active super_admin iff it takes the grade from the only one, the read row did not have it, and the new roles differ from the read ones |
| `AdminRaces.StatusLosesIff` | apps/api/services/members_service.py:278-318 | The same for a status change |
| `AdminRaces.RolesCommitMeaning` | apps/api/services/members_service.py:558-598 | What the late commit writes: nothing when the guards refuse or the text is the one it read, else roles that read back as the new list |
| `AdminRaces.StatusCommitMeaning` | apps/api/services/members_service.py:278-301 | And for a status change |
| `AdminRaces.SurvivesUnlessRoseUnseen` | apps/api/services/members_service.py:546-598 | Over every run with stale reads an active super_admin survives unless a commit hits the only one, whose grade or status rose after the commit's read |
| `AdminRaces.FreshReadSees` | apps/api/services/members_service.py:558-562 | A row read after the commit before it shows the guard what it needs |
| `AdminRaces.StaleDemotionLosesTheLast` | apps/api/services/members_service.py:558-589 | Two super_admins, three commits with one stale read, and none left |
| `SuperAdmins.MemberTable.CountActiveMembersWithRole` | apps/api/repositories/members.py:141-171 | Counts the active members with the role as a whole token of their role column |
| `SuperAdmins.MemberTable.UpdateMemberRoles` | apps/api/services/members_service.py:546-598 | Refused for an unknown member, and when it takes super_admin from one who is the actor or while at most one active member has the token; otherwise that member's roles, and nothing else, read back as the normalised request, with super_admin iff it was asked for; an active super_admin remains |
| `SuperAdmins.RolesMeaning` | apps/api/services/members_service.py:546-598 | The same of the operation in the run |
| `SuperAdmins.MemberTable.EnsureNotDeactivatingLastSuperAdmin` | apps/api/services/members_service.py:278-301 | Refuses exactly the deactivation of a counted-last active super_admin |
| `SuperAdmins.MemberTable.UpdateMemberProfileAdmin` | apps/api/services/members_service.py:304-364 | Refused for an unknown member, for the deactivation of an active super_admin while at most one active member has the token, on a conflict and for a null status; otherwise that member's status, and nothing else, is the given one; an active super_admin remains |
| `SuperAdmins.StatusTells` | apps/api/services/members_service.py:278-364 | The same of the operation in the run |
| `SuperAdmins.MemberTable.CreateMemberDirect` | apps/api/services/members_service.py:471-543 | Adds an active member with serialised closed roles unless student or e-mail is taken |
| `SuperAdmins.MemberTable.AdmitMember` | apps/api/services/signup_service.py:153-195 | The member half of an approval |
| `Rsvps.CapacityBound` | apps/api/services/events_service.py:86-158 | Over every sequential run, going is at most the seats plus the cancels by members who were not going |
| `Rsvps.NeverOverbooked` | apps/api/services/events_service.py:86-158 | If only going members cancel, going never exceeds the seats |
| `Rsvps.OverbooksIff` | apps/api/services/events_service.py:154-157 | A step overbooks iff the event is full and a member who was not going cancels while somebody else waits |
| `Rsvps.OverbookingExample` | apps/api/services/events_service.py:154-157 | One seat, two going |
| `Rsvps.RepeatKeepsSeat` | apps/api/services/events_service.py:104-112 | Asking again keeps the seat iff the event is not overbooked |
| `Rsvps.CancelHandsOverSeat` | apps/api/services/events_service.py:61-83 | A going member's cancel with somebody waiting keeps the number going and moves exactly one oldest waitlister, not the canceller |
| `Rsvps.RowsPersistOverRun` | apps/api/repositories/rsvps.py:33-53 | Rows never disappear or change their age |
| `Rsvps.RsvpTable.NormalizeStatus` | apps/api/services/events_service.py:86-112 | Who asks to go is going iff fewer others than there are seats are, and else waits; any other status is kept |
| `Rsvps.RsvpTable.PromoteWaitlistCandidate` | apps/api/services/events_service.py:61-83 | Promotes an oldest waitlister of the event if there is one, and changes nothing else |
| `Rsvps.RsvpTable.UpsertRsvpStatus` | apps/api/services/events_service.py:115-158 | Takes exactly one step of the run relation, stopped between the commits or not, with the right error: who asks to go gets a seat iff fewer others than there are seats are going, and else the waitlist; only the cancel of an existing RSVP touches another row, one of the oldest waiting |
| `Rsvps.NextMeaning` | apps/api/services/events_service.py:86-158 | Every step of a run does just that |
| `Rsvps.RsvpTable.CreateRsvp` | apps/api/services/rsvps_service.py:40-60 | The same for the second entry: a seat iff fewer others than there are seats are going, and an existing RSVP is refused |
| `PostRateLimit.LimiterIsExact` | apps/api/routers/posts.py:64-80 | With a clock that never goes back, accepted iff fewer than amount earlier acceptances of the same key lie in the window |
| `PostRateLimit.LimiterIff` | apps/api/routers/posts.py:64-80 | Accepted iff fewer than amount of the earlier requests with the key were accepted at most the window ago |
| `PostRateLimit.IntervalBound` | apps/api/routers/posts.py:64-80 | In no closed interval as long as the window has the table accepted more than amount requests of a key |
| `PostRateLimit.AcceptedIsHistory` | apps/api/routers/posts.py:64-80 | What the table accepts over a run is what the full history accepts |
| `PostRateLimit.StepRefines` | apps/api/routers/posts.py:64-80 | One request decides as the full history does and keeps every key's bucket a suffix of its history |
| `PostRateLimit.MemberRateTable.ResetMemberPostLimitCache` | apps/api/routers/posts.py:83-84 | Afterwards the limiter stands for an empty history |
| `PostRateLimit.MemberRateTable.EnforceMemberPostLimit` | apps/api/routers/posts.py:64-80 | The popleft loop decides and updates as specified |
| `FilterKeys.KeyIsGivenFields` | apps/api/services/members_service.py:182-196 | Two filters have the same key iff they hold the same fields other than None |
| `MemberQuery.BuildMemberConditions` | apps/api/repositories/members.py:18-86 | Appending field by field gives the query's conditions, and they select exactly the rows the filter asks for |
| `MemberQuery.QueryMeaning` | apps/api/repositories/members.py:18-86 | q searches name, e-mail and student number, region both addresses, major, company, industry and job title their own column, cohort selects that cohort, and private members are left out unless exclude_private is given and not true |
| `MemberQuery.CountMeaning` | apps/api/repositories/members.py:18-86 | So the count is the number of those rows |
| `MemberQuery.AnyLikeMeaning` | apps/api/repositories/members.py:24-62 | A text condition selects the rows with the text in one of its columns, ignoring case |
| `MemberQuery.SameKeySameQueryIff` | apps/api/repositories/members.py:84-85 | Filters with one key are one query iff both or neither name exclude_private with an explicit None |
| `MemberQuery.NoneCountsPrivateMembers` | apps/api/repositories/members.py:84-85 | The failing pair: one key, and a private member counted by only one of the queries |
| `MemberQuery.IrrelevantFieldChangesKey` | apps/api/repositories/members.py:24-62 | A sort order or an empty text changes the key and not the query |
| `FilterKeys.IntTextInjective` | apps/api/services/members_service.py:182-185 | Different cohorts have different texts |
| `CountCache.CacheRefines` | apps/api/services/members_service.py:197-209 | The cache is always the newest 64 keys with their last stored entries |
| `CountCache.CacheIsExact` | apps/api/services/members_service.py:197-202 | A lookup hits iff the last stored value is younger than 30 seconds and the key is among the 64 most recently used, and it answers that value |
| `CountCache.HitIff` | apps/api/services/members_service.py:197-209 | A lookup hits iff the last value stored under its key is less than 30 seconds old and fewer than 64 other keys were stored or found since the key last was |
| `CountCache.HitIsRecent` | apps/api/services/members_service.py:197-202 | A hit answers the value last stored for the same given fields, whose query started less than 30 seconds ago, and that is the query asked for iff both or neither filter holds the None |
| `CountCache.HitAnswersTheQuery` | apps/api/services/members_service.py:197-209 | Without such a None a hit is what the query asked for now gave on the table of less than 30 seconds ago |
| `CountCache.HitMayAnswerAnotherQuery` | apps/api/services/members_service.py:191-202 | With it, a hit that counts a private member the query leaves out |
| `CountCache.OrderIsRecency` | apps/api/services/members_service.py:204-208 | At most 64 distinct keys in order of last use; a used key that is missing is older than all held ones |
| `CountCache.EvictsTheLeastRecentlyUsed` | apps/api/services/members_service.py:207-208 | Only storing a new key into a full cache evicts, and it evicts the least recently used key |
| `CountCache.MemberCountCache.CountMembers` | apps/api/services/members_service.py:171-209 | A viewer's call bypasses the cache; any other is one lookup or one store |
| `CountCache.MemberCountCache.Cached` | apps/api/services/members_service.py:197-202 | The half of a call before its query |
| `CountCache.MemberCountCache.Remember` | apps/api/services/members_service.py:204-209 | The half after it |
| `SignupLifecycle.StatusOnlyMovesForward` | apps/api/services/signup_service.py:134-269 | Over every run a request only goes pending, approved, activated or pending, rejected, and keeps its student |
| `SignupLifecycle.LifecycleHolds` | apps/api/services/signup_service.py:84-269 | Over every run: one pending request per student, admitted requests have members, activated ones credentials, and no credentials without admission |
| `SignupLifecycle.LifecycleFromInstallation` | apps/api/services/signup_service.py:84-269 | So over every run of a fresh installation |
| `SignupLifecycle.InvAlways` | apps/api/models.py:299-313 | Also unique students and e-mails, one credential row per student belonging to that student's member, and every activation under way belongs to an admitted request |
| `SignupLifecycle.StepKeepsInv` | apps/api/services/auth_service.py:364-378 | Every operation and each of the two activation commits keeps this, however activations interleave or stop |
| `SignupLifecycle.ActivatedTokenIsSpent` | apps/api/services/activation_service.py:105-107 | A token used to the end is refused ever after |
| `SignupLifecycle.ActivationSpendsToken` | apps/api/services/auth_service.py:354-388 | After an accepted activation that is not interrupted, whatever runs between its commits and later, the request is activated and the token is refused as already used |
| `SignupLifecycle.RejectedTokenNeverWorks` | apps/api/services/activation_service.py:108-112 | A rejected request's token is refused ever after |
| `SignupLifecycle.PasswordsAreSeparate` | apps/api/repositories/auth.py:66-82 | A student's password changes only by an activation for that student or the student's own change |
| `SignupLifecycle.CrashThenRepeat` | apps/api/services/auth_service.py:364-378 | Stopping between the commits leaves a repeatable activation that ends where an uninterrupted one does |
| `SignupLifecycle.SignupService.CreateSignupRequest` | apps/api/services/signup_service.py:84-116 | Refuses active members and second pending requests, else adds a pending request |
| `SignupLifecycle.SignupService.ApproveSignupRequest` | apps/api/services/signup_service.py:134-195 | Creates or reactivates the member and approves, or refuses with the right error and changes nothing |
| `SignupLifecycle.SignupService.RejectSignupRequest` | apps/api/services/signup_service.py:245-269 | Rejects pending requests only |
| `SignupLifecycle.SignupService.ReissueActivationToken` | apps/api/services/signup_service.py:198-223 | Logs a new token for approved requests only |
| `SignupLifecycle.SignupService.CreateMemberDirect` | apps/api/services/members_service.py:471-543 | Adds an active member with an approved request unless student or e-mail is taken |
| `SignupLifecycle.ActivateTells` | apps/api/services/auth_service.py:354-388 | An activation of a run, stopped or not, accepts, refuses and changes what `ActivateMember` does |
| `SignupLifecycle.EditTells` | apps/api/services/members_service.py:304-364 | An administrator's edit needs the member and a free e-mail and changes the two fields of that row |
| `SignupLifecycle.SignupService.ResolveActivationSignupRequest` | apps/api/services/activation_service.py:86-113 | Accepts exactly the approved request of the token's student, with the errors in order |
| `SignupLifecycle.SignupService.ResolveActivationMember` | apps/api/services/activation_service.py:116-130 | Accepts exactly an active member |
| `SignupLifecycle.StoredPassword` | apps/api/repositories/auth.py:37-82 | Storing a password sets it for this student and nobody else and keeps one row per student |
| `SignupLifecycle.SignupService.CreateOrUpdateMemberAuth` | apps/api/repositories/auth.py:66-82 | The looked-up row is overwritten or a new one added: this student's password is set, every other one unchanged, one row per student |
| `SignupLifecycle.SignupService.ChangeMemberPassword` | apps/api/services/auth_service.py:391-411 | Refused without credentials or with the wrong password, else sets the student's password |
| `SignupLifecycle.SignupService.ActivateMember` | apps/api/services/auth_service.py:354-388 | Accepted iff the request is the student's, approved, and the member active, with the first failed check as the error and no change otherwise; the student's password is stored, and unless stopped the request is activated; nothing else changes |
| `PostVisibility.ExactlyOneStatus` | apps/api/repositories/posts.py:36-60 | For every post, NULL category or date included, exactly one of the three clauses is TRUE |
| `PostVisibility.PublishedIsPublic` | apps/api/post_visibility.py:32-53 | The published clause, the public list clause and the check on a row select the same posts |
| `PostVisibility.NegationLosesPosts` | apps/api/post_visibility.py:45-53 | The negated public clause misses hidden posts without a category |
| `PostVisibility.StatusMeaning` | apps/api/repositories/posts.py:44-60 | What each clause selects in plain terms |
| `PostVisibility.WhereMeaning` | apps/api/repositories/posts.py:242-266 | A row is counted iff it has the category, the text as a case-insensitive substring of title or content, and the status: board posts are published, other posts go by their date; each only if asked for |
| `PostVisibility.CountMeaning` | apps/api/repositories/posts.py:242-266 | So the count is the number of those rows |
| `PostVisibility.CountsAddUp` | apps/api/repositories/posts.py:242-266 | For any table, category and text the three counts sum to the count without a status |
| `PostVisibility.PostRepository.CountPosts` | apps/api/repositories/posts.py:242-266 | Adding condition after condition counts the selected rows; no filters count all |
| `PostVisibility.PageAgreesIff` | apps/web/lib/admin-post-status.ts:5-16 | At every instant the admin page shows the database's state except for a post that falls due later in the current millisecond |

## Left out

Behaviour of the repository that the model does not have:

- Event deletion with its cascades and the data reset scripts: rows are never removed here.
- claimed_at, finished_at, created_at and scheduled_at of logs and deliveries, and decided_at and similar columns of requests: no property reads them.
- The untracked batch (`_send_untracked_batch`), which keeps no delivery rows.
- `trigger_scheduled_notifications` and `find_events_due_for_notification`: a loop over the modelled operation; which subscriptions are eligible is a parameter.
- The general send log and the removal of expired subscriptions are reduced to endpoint hashes and outcomes, committed with the chunk.
- Isolation inside a transaction: each committed transaction is one atomic step, and a row skipped because it is locked is one the worker passes over.
- The push provider, decryption, password hashing and token signing: arbitrary answers, a success flag, an opaque hash and an authentic payload.
- Real time: clocks are parameters, and sleeping is a sum.
- HTTP, request validation, sessions, the login rate limiter, logging and the user interface.
- `_parse_rate_limit`: amount and window are parameters of the limiter.
- `repositories/signup_requests.py` search, which does not escape its text: no LIKE property is claimed for it.
- The profile change requests and the members' own profile updates, which touch neither roles nor status.
- Event capacity is fixed during an RSVP run, and concurrent RSVP transactions are not interleaved.

Contracts that say less than the code does:

- SuperAdmins.LastSuperAdminSurvives: serial runs; runs with stale reads are in `AdminRaces`.
- AdminRaces.SurvivesUnlessRoseUnseen: lock, count, write and commit are one step, as the advisory lock makes them for guarded changes.
- SuperAdmins.MemberTable.UpdateMemberProfileAdmin: of the updated fields only the status is kept; a unique-column conflict is a flag.
- SuperAdmins.MemberTable.AdmitMember: the e-mail conflict is a flag here; `SignupLifecycle` computes it.
- Roles.SerializedReadsBack: strip and lower are modelled on ASCII, and case folding beyond it is not.
- LikePatterns.SearchFindsSubstrings: a pattern ending in a lone escape, which PostgreSQL rejects, matches nothing; no escaped text is one.
- LikePatterns.InsensitiveSearch: any character-wise folding that leaves the three special characters apart stands for the database's.
- SignupLifecycle.LifecycleHolds: name, cohort and major of the rows are not kept.
- SignupLifecycle.StepKeepsInv: an administrator may set any status here; the last-super_admin guard on it is in `SuperAdmins`.
- SignupLifecycle.SignupService.ApproveSignupRequest: an e-mail conflict, which the source leaves to the database's exception, is an error value.
- SignupLifecycle.SignupService.CreateSignupRequest: the database's own rejection of a second pending request cannot happen in a serial run.
- DeliveryWorker.ProcessSingleEvent: the run without an exception; failures and crashes are steps of `DeliveryProtocol`.
- CountCache.HitIsRecent: a filter holds values of its declared types or None.
- MemberQuery.BuildMemberConditions: the conditions of a count on behalf of a viewer, which bypasses the cache, are not modelled.
