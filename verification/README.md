# Proofs about the site's hard parts

This project models six independent parts of the site in Dafny 4.11 and proves what they promise.
`dafny verify dfyconfig.toml` checks all of it.

| part | files |
|---|---|
| The fleet's work queue: leases by time and agent id over one table, many agents | `TaskQueue`, `TaskFleet`, `TaskCap`, `TaskLife` |
| The token-bucket limiter: in process, shared through Redis, with a local fallback | `Throttle`, `ThrottleBounds`, `ThrottleExact`, `ThrottleGuard`, `ThrottleRedis`, `ThrottleCluster` |
| The invite ledger and the four recursive walks of the invite chain | `InviteLedger`, `InviteRuns`, `InviteMarks`, `InviteChain`, `InviteDuality`, `InviteOrder` |
| The HTML sanitiser and the plain-text excerpt made from its output | `Markup`, `MarkupRoundTrip`, `Sanitize`, `SanitizeProps`, `SanitizeExact`, `Excerpt`, `ExcerptProps`, `ExcerptWords` |
| Point gifts and seeding credits as interleaved transactions | `Points`, `PointsInterleaved`, `PointsBooks`, `PointsOrder` |
| Histogram and labels; the chain of metadata sources; the link audit's crawl | `MetricLabels`, `Metrics`, `TitleScore`, `CatalogChain`, `LinkShape`, `AuditLinks`, `AuditSampling` |

`Wrappers` and `Ascii` hold what they share.

## How the source is read

* A SQL table is a map from its key to its row, and each SQL statement is one atomic step. A lease poll is
  three steps, because its second statement counts what the agent holds before it takes a row, and SKIP LOCKED
  lets it pass over any row. A transaction on points is one step per statement: an UPDATE takes its row's lock,
  later ones of that row wait, and any transaction may be rolled back between statements, which covers
  failures, lost connections and deadlocks.
* Objects the source updates in place are classes, and loops are loops. Their methods are proved against
  functions on values, and runs, interleavings and round trips are proved about those functions.
* The limiter's tokens are counted as `tokens * Every` in nanoseconds (milliseconds on Redis), where a refill
  adds the time that passed and nothing is rounded. The clock does not run backwards. For Redis, `Every` is a
  positive whole number of milliseconds.
* A call to Redis that errors, or whose reply cannot be read, may or may not have run there.
* WITH RECURSIVE ... UNION ALL keeps duplicates and is cut by the row's own depth. ORDER BY on a path is
  lexicographic with the prefix first.
* The printed form of a tree follows section 13.3 of the WHATWG HTML Standard, and the rule on nested anchors
  is in its section 4.5.1. URL schemes follow sections 3.1 and 4.2 of RFC 3986. Label text follows the Prometheus text
  exposition format.

## Hypotheses

* Codes are distinct once case and dashes are ignored (`DistinctCodes`). The table's key is the raw code
  (`internal/storage/migrate.go:604`); `LookalikeCodesAreBothSpent` shows what happens without it.
* Users named by `used_by` exist (`UsersExist`), which no foreign key enforces, for the printed tree. The other
  results about the walks ask only that the members they speak of exist.
* No member has two invites redeemed at the same instant (`DistinctSiblings`), for the order of the printed tree.
* Trees are what the HTML parser delivers: void elements without children for the results about prose, and
  attribute keys in lower case for the result about links.
* Credits are not negative (`PaysOut`): the payout skips awards of zero or less
  (`web/handlers/seedpoints_web.go:285`).
* Label names are made of letters, digits and underscores (`ValidNames`).

## Where the code differs from what is said of it

* `internal/storage/agenttasks.go:164` speaks of respecting the concurrency cap. The count and the take are in
  one statement but not one instant. An agent stays within its cap in every interleaving exactly when it never has
  two polls open (`CapHoldsExactlyForOnePoll`); with k open it can exceed it by k - 1 leases
  (`OpenPollsReachTheBound`) and never by more (`LeasesStayUnderTheCap`).
* `internal/storage/invites.go:182` speaks of an address that already has a live invite. The code answers no for the
  empty address, so unlocked codes, which are live too, never count (`AddressCheckFindsLiveCodes`,
  `UnlockedCodesBlockNobody`).
* `internal/middleware/throttle.go:321` says the rate headers go out on allowed requests too; the code sets them on
  refusals and on nothing else (`Guard`).
* `internal/middleware/throttle.go:354` tells a refused client that waiting the seconds it names will work. The
  seconds are rounded down, so it holds exactly when the wait is at most a second or whole seconds
  (`ComingBackOnTime` in this process, `ComingBackOnTimeToRedis` on a shared tier).
* `internal/markdown/markdown.go:103` says a script's source is skipped. The loop resumes inside the closing
  tag and writes its tail (`CodeBlockLeaks`); sanitised input never reaches that branch.
* `internal/catalogchain/chain.go:111` says earlier sources win. A title goes to the first readable source that holds
  it exactly when that source's id fits the stride (`EarlierSourceWinsWhenItsIdFits`); otherwise a later one has it
  (`LaterSourceCanWin`).
* `scripts/audit_links.py:102` means to count each sampled path once. Every link to a path refused by the shape cap
  counts, so the count is that of paths exactly when no scanned page links one of them again
  (`SampledIsPathsWhenNoneIsLinkedTwice`), so on every site that links each path at most once
  (`SampledIsPathsWhereLinksAreUnique`); `CrawlItems` is a site on which it is not.

## Model

| member | source | states |
|---|---|---|
| `TaskQueue.WireRequestId` | internal/storage/agenttasks.go:97-110 | the id a task is served under is never zero: the request id when there is one, the row id only when there is none |
| `TaskQueue.CountsCoverTheTable` | internal/storage/agenttasks.go:36-41 | the four states partition the table: the four counts sum to its size, for every table |
| `TaskQueue.OldestExists` | internal/storage/agenttasks.go:188-196 | whenever something is queued, `ORDER BY created_at LIMIT 1` has an answer none of the queued rows is older than |
| `TaskQueue.AgentTaskStore.EnqueueTask` | internal/storage/agenttasks.go:140-162 | accepted exactly when no row in any state has the info hash; then one fresh queued row with this offer, stamped now, is added, otherwise nothing changes and the id is 0 |
| `TaskQueue.AgentTaskStore.ReclaimStale` | internal/storage/agenttasks.go:174-180 | every lease silent for more than the TTL becomes queued and nobody's, every other row is as it was, no row comes or goes |
| `TaskQueue.AgentTaskStore.LeaseNextTask` | internal/storage/agenttasks.go:164-203 | a lone poll answers "no task" exactly when nothing is queued after the reclaim or the agent is at its cap (at least 1); otherwise it leases a queued row of minimal `created_at` and touches no other |
| `TaskQueue.AgentTaskStore.RenewAgentLeases` | internal/storage/agenttasks.go:218-223 | every lease the agent holds is stamped now, nothing changes hands, and no other row changes |
| `TaskQueue.AgentTaskStore.RecordTaskProgress` | internal/storage/agenttasks.go:225-234 | a progress line reaches only a row this agent holds; an empty line is stored as NULL |
| `TaskQueue.AgentTaskStore.CloseTask` | internal/storage/agenttasks.go:236-255 | true exactly when the task is this agent's lease; then that row alone is completed or failed as reported, with the reason (an empty one as NULL) and the time of the report; otherwise nothing changes |
| `TaskQueue.AgentTaskStore.CountTasks` | internal/storage/agenttasks.go:265-276 | the counts by state, summing to the size of the table |
| `TaskQueue.AgentTaskStore.DeleteTask` | internal/storage/agenttasks.go:289-295 | that row is gone and every other one is as it was |
| `TaskFleet.RunConsistent` | internal/storage/agenttasks.go:113-137 | every interleaving of every agent's statements keeps one row per info hash, lease columns set while leased and clear while queued, `completed_at` set exactly when finished |
| `TaskFleet.OnlyTakesLease` | internal/storage/agenttasks.go:170-255 | no step but the row-take of a poll ever gives an agent a lease |
| `TaskFleet.NextKeepsCap` | internal/storage/agenttasks.go:182-198 | each step keeps leases held plus admitted in-flight polls at or below n + k - 1 |
| `TaskFleet.LeasesStayUnderTheCap` | internal/storage/agenttasks.go:164-203 | an agent with at most k polls open and no cap above n holds at most n + k - 1 leases in any interleaving; k = 1 gives the configured cap |
| `TaskCap.OpenPollsReachTheBound` | internal/storage/agenttasks.go:164-203 | the bound is reached: for every cap n, every k, every agent and any offers told apart by hash, a run with at most k open polls that ends with n + k - 1 leases |
| `TaskCap.CapHoldsExactlyForOnePoll` | internal/storage/agenttasks.go:164-203 | all interleavings keep an agent within its cap if and only if it never has two polls open (a cap of 0 stands for an agent that never polls) |
| `TaskLife.AttentiveAgentKeepsItsLease` | internal/storage/agenttasks.go:43-55 | if no reclaim comes more than the TTL after the agent's last renewal, the agent still holds the lease, stamped with that renewal, unless the task was closed or deleted |
| `TaskLife.ReclaimTakesExactlySilentLeases` | internal/storage/agenttasks.go:174-180 | after such a run the next reclaim takes the lease if and only if the agent has been silent for more than 15 minutes |
| `TaskLife.HandoverNeedsSilence` | internal/storage/agenttasks.go:205-223 | a task passes from one agent to another only if some reclaim found the first silent for more than the TTL |
| `TaskLife.ReportsAfterHandoverChangeNothing` | internal/storage/agenttasks.go:225-255 | once a task is not the agent's, its progress and close reports about it change nothing until a poll leases it that task again |
| `TaskLife.LeasesCarryNoEpoch` | internal/storage/agenttasks.go:243-249 | the fence is the agent id alone: after any run in which an agent's lease has gone stale, its next poll can take the task away and lease it again, and the report left over from the first lease closes the second |
| `TaskLife.RowsFollow` | internal/storage/agenttasks.go:170-255 | rows move only queued to leased to queued, completed or failed; offer and creation time never change; a finished row never changes; only a delete removes a row |
| `TaskLife.AcceptedHashBlocksUntilDeleted` | internal/storage/agenttasks.go:140-162 | over any run without its deletion an accepted info hash keeps its one row, and every later offer of it is refused |
| `TaskLife.ClosedOnceForGood` | internal/storage/agenttasks.go:236-255 | over any run a row is closed at most once, and a finished or deleted task stays so |
| `TaskLife.OnlyAClosingFinishes` | internal/storage/agenttasks.go:236-255 | a step finishes an open row if and only if it is a close of it by the agent that holds it |
| `TaskLife.FinishedMeansClosedOnce` | internal/storage/agenttasks.go:236-255 | over any run an open row still in the table at the end is finished if and only if it was closed, by its holder, exactly once |
| `TaskLife.RowsTellOfTheirClosing` | internal/storage/agenttasks.go:236-255 | over any run an open row still in the table at the end is completed if and only if its one closing reported success and failed if and only if it reported failure, and carries that report's reason and time |
| `TaskLife.ColumnsHaveTheirWriters` | internal/storage/agenttasks.go:170-255 | progress is written by the holder's report alone, reason and completion by the holder's close, the lease columns by the reclaim of a stale lease, a take, or the holder's renewal |
| `TaskLife.RowsRememberTheirAcceptance` | internal/storage/agenttasks.go:140-162 | over any run a row carries the offer that was accepted for it and the time it was |
| `TaskLife.FirstAcceptedFirstServed` | internal/storage/agenttasks.go:188-196 | after any run, no queued offer was accepted before the one a lone poll may lease |
| `TaskLife.CountsAddUp` | internal/storage/agenttasks.go:257-276 | over any run the four counts sum to the rows at the start plus offers accepted minus rows deleted |
| `Throttle.MemStore.Take` | internal/middleware/throttle.go:202-231 | the answer and the new table: at `max` the table is dropped, the key's bucket is refilled to now and a token spent if there is one, no other key moves |
| `Throttle.MemStore.Give` | internal/middleware/throttle.go:233-243 | one token back, capped at full, and the bucket's clock left alone; a key not in the table is left out of it and no other key moves |
| `Throttle.MemStore.Sweep` | internal/middleware/throttle.go:245-261 | the loop forgets exactly the buckets idle for longer than twice a full refill and at least a minute |
| `Throttle.TableRefinesBucket` | internal/middleware/throttle.go:202-261 | for every key, a take, refund, sweep or drop moves the credit it could spend now exactly as one abstract bucket says; a sweep moves nothing |
| `ThrottleBounds.CreditAccounts` | internal/middleware/throttle.go:202-243 | over any run, tokens spent on a key are covered by its opening credit, elapsed time, refunds and whole-table drops |
| `ThrottleBounds.WindowBound` | internal/middleware/throttle.go:190-243 | over any window and any run, admissions of one key are at most Burst*(1 + drops) + elapsed/Every + refunds |
| `ThrottleBounds.TableNeverExceedsMax` | internal/middleware/throttle.go:190-210 | the table never holds more than `max` buckets |
| `ThrottleBounds.DropsAreFarApart` | internal/middleware/throttle.go:190-210 | between two whole-table drops at least max - 1 keys were inserted |
| `ThrottleBounds.SweepsAreInvisible` | internal/middleware/throttle.go:245-261 | a run with sweeps anywhere gives every request the same answer and retry time as the run without them, while the unswept table stays below `max` |
| `ThrottleBounds.RefusedAttemptsAreFree` | internal/middleware/throttle.go:216-228 | a key that keeps asking too early is refused each time and its credit grows as if it had not asked |
| `ThrottleBounds.RetryTimeIsExact` | internal/middleware/throttle.go:224-228 | after a refusal, whatever other keys do and however often this one asks too early, with no refund and no whole-table drop in between, an attempt passes if and only if the retry time has gone by |
| `ThrottleExact.LimitIsExact` | internal/middleware/throttle.go:190-231 | in process, after any run without refund or drop, a key's next request is admitted if and only if every window that ends with it holds at most Burst admissions and one for each Every it lasts: nothing the limit allows is refused |
| `ThrottleExact.SharedLimitIsExact` | internal/middleware/throttle_redis.go:37-68 | the same of the take script, expiries included |
| `ThrottleExact.RefundUndoesTheTake` | internal/middleware/throttle.go:163-243 | in process, an admitted take and its later refund leave every later answer and retry time to the key as if neither had happened, whatever other keys did in between |
| `ThrottleExact.SharedRefundUndoesTheTake` | internal/middleware/throttle_redis.go:37-83 | the same of the two scripts |
| `ThrottleExact.RefundBuysARequest` | internal/middleware/throttle.go:163-243 | in process, after a refund to a key the table knows the key's next request at that instant is admitted |
| `ThrottleExact.SharedRefundBuysARequest` | internal/middleware/throttle_redis.go:37-83 | the same of the two scripts |
| `ThrottleExact.RefundedCallersAlwaysPass` | internal/middleware/throttle.go:163-176 | a caller who starts with a token and gets each one back before the next request is admitted throughout any run, in process |
| `ThrottleExact.SharedRefundedCallersAlwaysPass` | internal/middleware/throttle.go:163-176 | and on a shared tier |
| `ThrottleGuard.Throttler.Allow` | internal/middleware/throttle.go:154-161 | an unconfigured tier admits everything and charges nobody; otherwise the store answers and charges the key once, be it the local table or Redis with its fallback |
| `ThrottleGuard.Throttler.Refund` | internal/middleware/throttle.go:163-181 | one token back to the caller's bucket wherever the call reached; nothing on an unconfigured tier or no tier at all |
| `ThrottleGuard.Throttler.Guard` | internal/middleware/throttle.go:318-359 | skipped requests are not charged; the rest are charged once; Exempt is asked if and only if the store refused and there is one; the rate headers are set if and only if the request is refused, with whole seconds, at least 1 |
| `ThrottleGuard.RetryAfterIsShortByUnderASecond` | internal/middleware/throttle.go:338-342 | Retry-After is one second or no more than the true wait; it falls short by less than a second, and not at all exactly when the wait is at most a second or whole seconds |
| `ThrottleGuard.ComingBackOnTime` | internal/middleware/throttle.go:338-356 | on the in-process store a client that obeys Retry-After to the nanosecond is admitted if and only if the wait was at most a second or a whole number of seconds |
| `ThrottleGuard.ComingBackOnTimeToRedis` | internal/middleware/throttle.go:338-356 | on a shared tier, its calls answered, the same holds of the wait the script gave |
| `ThrottleGuard.RetryAfterCanBeShort` | internal/middleware/throttle.go:338-342 | a concrete client on the work tier that obeys Retry-After and is refused again |
| `ThrottleRedis.RedisServer.RunThrottle` | internal/middleware/throttle_redis.go:37-68 | the take script: expired keys count as full, lazy refill on the server's millisecond clock, spend or exact wait, expiry a full refill and a second later |
| `ThrottleRedis.RedisServer.RunRefund` | internal/middleware/throttle_redis.go:76-83 | the refund script: one token back capped at full, clock and expiry untouched, nothing for a key that is gone |
| `ThrottleRedis.RedisStore.Note` | internal/middleware/throttle_redis.go:178-186 | the down flag follows the last call, and the hook hears a change only |
| `ThrottleRedis.RedisStore.Take` | internal/middleware/throttle_redis.go:137-163 | an answered call decides by the server; an errored one, whether or not it ran there, decides by the local table; the other store is untouched |
| `ThrottleRedis.RedisStore.Give` | internal/middleware/throttle_redis.go:165-176 | a refund goes to the server, and on error to the local table too |
| `ThrottleRedis.OnlyTransitionsAreReported` | internal/middleware/throttle_redis.go:102-109 | over any sequence of calls the reports alternate, start with a change from the state before and end in the state after |
| `ThrottleRedis.CallsAreHeardInOrder` | internal/middleware/throttle_redis.go:137-186 | over any sequence of takes and refunds the reports are those of one sequence of notes, each take noting how it went and each failed refund a failure |
| `ThrottleRedis.TiersAreWholeMillis` | internal/middleware/throttle.go:64-75 | every tier of the site meets the condition on Every |
| `ThrottleRedis.RedisRefinesBucket` | internal/middleware/throttle_redis.go:37-83 | the scripts move every key's credit as the same abstract bucket; expiry moves nothing |
| `ThrottleRedis.RedisTimePasses` | internal/middleware/throttle_redis.go:61-66 | between operations every key's credit grows with time up to full, whether it is kept or expires on the way |
| `ThrottleRedis.RedisAndMemoryAgree` | internal/middleware/throttle_redis.go:37-83 | started alike, the shared and the in-process store give every request of the same run the same admission and the same retry time |
| `ThrottleRedis.EmptyStoresAreTwins` | internal/middleware/throttle_redis.go:45-48 | two empty stores are alike, so the agreement starts somewhere |
| `ThrottleRedis.RedisRetryIsSufficient` | internal/middleware/throttle_redis.go:55-60 | waiting the retry time always suffices on Redis's clock; a whole millisecond less never does |
| `ThrottleCluster.CallIsPaidFor` | internal/middleware/throttle_redis.go:137-176 | each call of any replica, delivered or not, is paid for out of the credit of all buckets together |
| `ThrottleCluster.OutagesCostAtMostOneBucketEach` | internal/middleware/throttle_redis.go:85-176 | with n replicas, any outages and errored calls that may have run, admissions of a key are at most n + 1 full buckets and their refills, plus one per bucket a refund reached and a burst per fallback table dropped |
| `ThrottleCluster.ClocksAgree` | internal/middleware/throttle_redis.go:27-41 | the server's millisecond clock measures less than a millisecond more than the elapsed time, and exactly as much between whole milliseconds |
| `InviteLedger.TypedAsStored` | internal/storage/invites.go:280-288 | the typed and the stored normal form of a code agree when it has no blanks around it |
| `InviteLedger.TypingIsForgiving` | internal/storage/invites.go:280-288 | case, dashes anywhere in the code and blanks around it make no difference to what is typed |
| `InviteLedger.PlainCodesReadAsThemselves` | internal/storage/invites.go:280-288 | a code of capitals and digits is its own normal form, so no two of them read alike |
| `InviteLedger.InviteStore.MintInviteCode` | internal/storage/invites.go:365-403 | true exactly when the member had an invite, the code was new and nothing failed; then one invite is spent and one unmarked row added in the member's name, running for the given time, with the address in normal form; otherwise both tables are as before |
| `InviteLedger.InviteStore.MintInviteUncharged` | internal/storage/invites.go:601-624 | adds one such row in the issuer's name and charges nobody; refused for an empty or taken code |
| `InviteLedger.InviteStore.LookupInviteCode` | internal/storage/invites.go:28-67 | found exactly when some code reads as the typed one; then its address, and used, revoked, expired or redeemable as that row stands |
| `InviteLedger.InviteStore.RedeemInviteCode` | internal/storage/invites.go:80-103 | every unused, unrevoked, unexpired row that reads as typed is the user's afterwards, no other row changes, and the answer is true exactly when one row changed |
| `InviteLedger.InviteStore.RevokeInviteCode` | internal/storage/invites.go:203-234 | every unused, unrevoked row that reads as typed and is the caller's own, or anybody's under a staff override, is revoked by the caller; no other row changes, and the answer is true exactly when one row changed |
| `InviteLedger.InviteStore.SoftDeleteInviteCode` | internal/storage/invites.go:236-258 | every visible row of the owner that reads as typed is hidden; no other row or column changes, and the answer is true exactly when one row changed |
| `InviteLedger.InviteStore.MarkInviteSent` | internal/storage/invites.go:260-272 | every row that reads as the typed code is stamped as sent and otherwise unchanged; no other row changes |
| `InviteLedger.InviteStore.RefundInvite` | internal/storage/invites.go:405-421 | one invite back to an existing member |
| `InviteLedger.LivenessTestsAgree` | internal/storage/invites.go:75-201 | for a code in the ledger, the list's Pending, the form's validity, redemption, the owner's cap and the WHERE clause of the address check hold exactly when it is unused, unrevoked and unexpired |
| `InviteLedger.ListAndFormAgree` | internal/storage/invites.go:41-170 | of every sound row the owner's list and the registration form tell the same one story: used, revoked, expired or pending |
| `InviteLedger.NormaliseEmailIsIdempotent` | internal/storage/invites.go:274-278 | an address in normal form is its own normal form |
| `InviteLedger.AddressCheckFindsLiveCodes` | internal/storage/invites.go:182-201 | the address check holds for a typed address if and only if there is something in it and some live code was issued to the same address |
| `InviteLedger.LiveCodesBlockTheirAddress` | internal/storage/invites.go:182-201 | a live code blocks its own address if and only if it has one |
| `InviteLedger.UnlockedCodesBlockNobody` | internal/storage/invites.go:188-192 | a code minted without an address is live and matches the WHERE clause, and the address check still says no |
| `InviteRuns.AddressCheckInEveryRun` | internal/storage/invites.go:182-201 | in every ledger a run can reach, the address check is that condition, however the address was typed then and now |
| `InviteLedger.ValidMeansRedeemable` | internal/storage/invites.go:69-103 | however a code is typed, InviteCodeValid answers what RedeemInviteCode would do |
| `InviteLedger.OneWinnerPerCode` | internal/storage/invites.go:80-103 | after one redemption of a code no second one succeeds, however either visitor typed it |
| `InviteLedger.LookalikeCodesAreBothSpent` | internal/storage/invites.go:93-102 | the hypothesis is needed: two codes that differ in case alone are both spent by one redemption that reports failure |
| `InviteRuns.LedgerIsAppendOnly` | internal/storage/invites.go:80-258 | over any run no code is both used and revoked, `used_by` and `revoked_by` once set never change, no code disappears, no balance is negative |
| `InviteMarks.EveryMarkHasItsStep` | internal/storage/invites.go:80-272 | over any run, whoever newly appears as having used a code redeemed it in time, whoever appears as having revoked it issued it or had a staff override, and who hid it issued it |
| `InviteMarks.LedgerTellsItsHistory` | internal/storage/invites.go:80-403 | in every ledger a run reaches from an empty one, each row has the mint that made it and each mark the entitled step that left it, named and dated as the row says |
| `InviteMarks.StrangersRevokeNothing` | internal/storage/invites.go:203-234 | without an override a revoke aimed at somebody else's code answers false and changes nothing |
| `InviteMarks.RevokeAnswers` | internal/storage/invites.go:203-234 | under distinct codes a revoke answers true if and only if it names an unused, unrevoked code, expired or not, that the caller issued or has an override for |
| `InviteMarks.RedeemAnswers` | internal/storage/invites.go:80-103 | under distinct codes a redemption answers true if and only if it names an unused, unrevoked, unexpired code |
| `InviteMarks.SuccessMarksTheRow` | internal/storage/invites.go:80-234 | what answered true has put the caller's mark on the row it named and changed nothing else |
| `InviteMarks.Perform` | internal/storage/invites.go:80-421 | each step of a run is one call of the store, with the same answer and the same tables after it |
| `InviteRuns.BalancesAccountForCodes` | internal/storage/invites.go:365-421 | over any run a balance falls by one per charged code and rises by one per refund, and the codes in a member's name are those charged or issued to them |
| `InviteRuns.HiddenReadsSame` | internal/storage/invites.go:34-201 | the caps, the address check and the form read the same whatever rows are soft-deleted |
| `InviteRuns.SoftDeletesAreInvisible` | internal/storage/invites.go:236-258 | erasing every soft delete from a run changes no other statement's answer and no column but `deleted_at` |
| `InviteRuns.SoftDeleteHidesOneRow` | internal/storage/invites.go:105-139 | a soft delete removes exactly that code from its owner's list, where it was if nobody had hidden it; it is on no other member's list, and those stay as they were |
| `InviteChain.RecursionStops` | internal/storage/invites.go:301-314 | round n of a depth-capped WITH RECURSIVE yields rows of depth n + 1 only and nothing from the fifth round on, cycles included |
| `InviteChain.QueriesDeepen` | internal/storage/invites.go:357-363 | all four walks have the cap that makes the recursion stop |
| `InviteChain.ProjectRecurse` | internal/storage/invites.go:528-594 | running a recursion and looking through a projection is running the recursion the projection sees |
| `InviteChain.TreeCountsMembers` | internal/storage/invites.go:573-599 | the members a profile counts are, row for row, the members the tree draws |
| `InviteChain.BoardAgreesWithProfiles` | internal/storage/invites.go:514-599 | the one-pass board gives every member the direct and descendant counts of their profile, and leaves out exactly those who recruited nobody |
| `InviteDuality.WalksByFirstStep` | internal/storage/invites.go:452-459 | counting walks by their first step or by their last gives one number |
| `InviteDuality.TreeLevelCountsWalks` | internal/storage/invites.go:301-314 | a generation of the tree holds each member as often as there are walks of that length down to them |
| `InviteDuality.UpLevelCountsWalks` | internal/storage/invites.go:470-479 | a generation of the upline holds each member as often as there are walks of that length up to them |
| `InviteDuality.TreeAndUplineAreDuals` | internal/storage/invites.go:452-497 | on any edge table, cycles included, b is below a at depth d exactly as often as a is above b at distance d, for every depth up to 5 and never beyond |
| `InviteDuality.CountsAreReach` | internal/storage/invites.go:561-599 | a profile's two counts are how many accounts used the member's own codes and how many are reached by one to five used invites, each account once |
| `InviteOrder.OrderByPathSorts` | internal/storage/invites.go:320-323 | ordering by path, lexicographic with the prefix first, has an answer for every bag of rows |
| `InviteOrder.EarlierBranchFirst` | internal/storage/invites.go:290-323 | of two branches under one member the one redeemed first is printed first, whole |
| `InviteOrder.TreePaths` | internal/storage/invites.go:301-314 | if no member had two invites redeemed at one instant, all paths of the tree differ and have the row's depth as length |
| `InviteOrder.EveryRowHasAnInviter` | internal/storage/invites.go:301-314 | every row of the tree comes from an invite by the root or by the row one step up its path, which is in the tree |
| `InviteOrder.DescendantsAreOneBlock` | internal/storage/invites.go:290-294 | in path order everybody below a row follows it in one unbroken block |
| `InviteOrder.IndentDeterminesTheInviter` | internal/storage/invites.go:290-349 | in the printed list the inviter of a row is the nearest earlier row indented one step less, and the root for indent 0 |
| `InviteOrder.ListingIsPreorder` | internal/storage/invites.go:290-334 | in the printed list every member's descendants directly follow them and are indented further |
| `Sanitize.SafeMeansKnownScheme` | internal/sanitize/sanitize.go:141-166 | a URL passes if and only if, squeezed and in lower case, it has no scheme in the sense of RFC 3986 or one of http, https, mailto |
| `Sanitize.HiddenCharactersDecideNothing` | internal/sanitize/sanitize.go:141-153 | inserting a control character or blank anywhere never changes the verdict on a URL |
| `Sanitize.WriteAttrs` | internal/sanitize/sanitize.go:88-97 | the attribute loop writes exactly the kept attributes, escaped, in order |
| `Sanitize.WriteSanitized` | internal/sanitize/sanitize.go:61-114 | the recursive printer appends exactly the printed form of the forest the policy keeps of a node; `SanitizeExact` says which tags and attributes those are |
| `Sanitize.HTML` | internal/sanitize/sanitize.go:32-47 | the whole fragment: the kept forest printed, or the input escaped when it cannot be parsed |
| `SanitizeProps.KeptAllIsClean` | internal/sanitize/sanitize.go:61-139 | for every tree the output has only allowlisted tags and attributes, childless void elements and no anchor inside an anchor |
| `SanitizeProps.FixedPointsAreTheCleanForests` | internal/sanitize/sanitize.go:49-60 | the policy leaves a forest alone if and only if it is clean; applying it twice is applying it once |
| `SanitizeProps.OutputLinksAreSafe` | internal/sanitize/sanitize.go:90-96 | with attribute keys in lower case, every href and src in the output has no scheme or a known safe one |
| `SanitizeProps.UpperCaseKeysGoUntested` | internal/sanitize/sanitize.go:90-95 | the hypothesis is needed: an HREF key would be kept whatever its URL |
| `SanitizeProps.KeptAllKeepsProse` | internal/sanitize/sanitize.go:24-27 | all text outside script and style survives, in document order |
| `SanitizeExact.NothingAllowedIsLost` | internal/sanitize/sanitize.go:61-139 | for every parsed tree the tags and text of the output, in order, are those of the input that are allowlisted, outside script and style and no anchor under an anchor, each tag with exactly those of its attributes that have no namespace, are listed for it and, for href and src, have no scheme or a known one |
| `SanitizeExact.SqueezedIsTheVisible` | internal/sanitize/sanitize.go:141-153 | a URL is judged by its characters other than controls and blanks, each as often as it occurs |
| `SanitizeProps.OutputParsesToWhatWasKept` | internal/sanitize/sanitize.go:49-60 | the string written reads back, in the tag, attribute and escaped-text grammar, as the kept forest with adjacent text merged |
| `SanitizeProps.SanitisingTwiceIsSanitisingOnce` | internal/sanitize/sanitize.go:59-60 | sanitising the parsed output again writes the same string |
| `Markup.UnescapeEscaped` | internal/sanitize/sanitize.go:64-64 | unescaping what was escaped gives the text back |
| `Markup.EscapedIsInert` | internal/sanitize/sanitize.go:64-96 | escaped text holds no character that could end a text or a quoted value |
| `MarkupRoundTrip.PrintParses` | internal/sanitize/sanitize.go:87-107 | every printable forest parses back to itself up to merging adjacent text |
| `Excerpt.StripTags` | internal/markdown/markdown.go:90-123 | the byte loop writes what the structural reading of the remaining input says, script and style branch included |
| `Excerpt.SkipTag` | internal/markdown/markdown.go:101-122 | from a tag's end the loop goes on where, and with the blank, that the reading says |
| `Excerpt.Ellipsis` | internal/markdown/markdown.go:160-178 | the loop cuts at the nearest blank in the last quarter, or at n |
| `Excerpt.Excerpt` | internal/markdown/markdown.go:90-126 | strip, unescape, collapse, cut |
| `Excerpt.ShortenedFits` | internal/markdown/markdown.go:160-178 | the cut keeps a prefix of at most n characters, ends at a blank whenever one is near, and drops all the blanks before it and nothing else |
| `Excerpt.ShortenedIsShort` | internal/markdown/markdown.go:160-178 | the result has at most n + 1 characters and short text is untouched |
| `ExcerptProps.NameOfOpenTag` | internal/markdown/markdown.go:142-150 | whatever its attributes say, an allowlisted start tag is recognised by its name |
| `ExcerptProps.StripPrintedAll` | internal/markdown/markdown.go:90-123 | stripping a printed clean forest, with anything after it, leaves the forest's escaped text and block blanks |
| `ExcerptProps.StrippingReadsTheTree` | internal/markdown/markdown.go:90-124 | on any sanitiser output the loop and unescaping give exactly the tree's text with one space per block tag and none per inline tag |
| `ExcerptProps.CollapseTidies` | internal/markdown/markdown.go:125-125 | collapsing leaves single inner blanks only and loses no other character |
| `ExcerptProps.ExcerptReadsTheTree` | internal/markdown/markdown.go:90-126 | an excerpt of sanitised input is the tree's reading collapsed and cut; it has at most n + 1 characters, and when it fits every word of the prose is there in order |
| `ExcerptWords.BlocksPartWords` | internal/markdown/markdown.go:116-140 | the words around and inside a paragraph, list, table, quotation or heading are those before, those in it and those after it, never welded |
| `ExcerptWords.BreaksPartWords` | internal/markdown/markdown.go:116-140 | the same over a line break or a rule |
| `ExcerptWords.InlineTagsPartNothing` | internal/markdown/markdown.go:116-140 | emphasis, code and links leave the text as it would be without them, and an image says nothing |
| `ExcerptWords.EveryTagIsBlockBreakOrInline` | internal/markdown/markdown.go:128-140 | every tag the sanitiser lets through is of one of these three kinds |
| `ExcerptWords.FieldsPart` | internal/markdown/markdown.go:125-125 | a blank anywhere parts the words before it from those after it |
| `ExcerptWords.FieldsOfJoin` | internal/markdown/markdown.go:125-125 | words joined by single blanks are the words again |
| `ExcerptProps.CodeLeaksItsClosingTag` | internal/markdown/markdown.go:103-115 | from the end of a script or style tag on, the text "/script" or "/style" comes out if and only if a closing tag follows |
| `ExcerptProps.CodeBlockLeaks` | internal/markdown/markdown.go:94-115 | of an input that opens with a script or style tag nothing is left if no closing tag follows; otherwise what is left begins with that tag's slash and name |
| `Points.PointsStore.TransferPoints` | internal/storage/gifts.go:12-91 | success moves the amount, adds one gift and its two ledger rows, the note cut to 200 characters; a refusal or a failure at any statement leaves the database as it was; each refusal is given exactly in its case, and run alone the call succeeds exactly when the amount is allowed, the sender has the points and both accounts exist |
| `Points.PointsStore.CreditSeedPoints` | internal/storage/seedpoints.go:51-81 | success is balance and ledger row together; failure leaves no trace |
| `PointsInterleaved.CommitApplies` | internal/storage/gifts.go:33-91 | committing writes exactly what the whole transaction run at that moment would, although its statements ran earlier |
| `PointsInterleaved.NextSerial` | internal/storage/gifts.go:39-91 | every statement, commit and rollback of every interleaving keeps the committed state equal to a serial replay |
| `PointsInterleaved.CommittedStateIsSerial` | internal/storage/gifts.go:12-91 | under row locks held to commit, whatever the interleaving, the committed state is that of the committed transactions run whole, one after the other, in commit order |
| `PointsBooks.ApplyKeepsBooks` | internal/storage/gifts.go:65-86 | a committed transaction keeps the books: every gift two opposite rows, every account a running sum |
| `PointsBooks.BooksAlwaysAgree` | internal/storage/gifts.go:12-91 | in every committed state of every interleaving: each gift has exactly two ledger rows summing to zero, each account's balance column is the running sum ending at its points, gifts move points and only credits make them, and no balance is negative if credits are not |
| `PointsBooks.CreditsCarryNoGuard` | internal/storage/seedpoints.go:69-71 | the guard is in the gift's debit alone: a negative credit would leave a debt |
| `PointsOrder.NextInOrder` | internal/storage/gifts.go:65-86 | each step keeps every member's ledger ids rising in commit order |
| `PointsOrder.HistoryReadsAsTheAccount` | internal/storage/gifts.go:65-86 | a member's ledger rows in id order are the running account of their balance, in every committed state of every interleaving |
| `MetricLabels.ThreePassesAreOne` | internal/metrics/metrics.go:128-140 | the three replacing passes escape every character exactly once |
| `MetricLabels.OrderOfPassesMatters` | internal/metrics/metrics.go:128-130 | with the quote escaped before the backslash a quote would come out wrong |
| `MetricLabels.ReadValueUndoes` | internal/metrics/metrics.go:128-140 | an escaped value reads back to itself and ends at its own closing quote |
| `MetricLabels.SortedListIsUnique` | internal/metrics/metrics.go:108-112 | sorting makes the text independent of the order a map is walked in |
| `MetricLabels.FirstDifferenceDecides` | internal/metrics/metrics.go:112-112 | the order is that of bytes: the first difference decides, and a prefix comes first |
| `MetricLabels.SortStrings` | internal/metrics/metrics.go:112-112 | the keys come out in the one ascending order |
| `MetricLabels.LabelString` | internal/metrics/metrics.go:103-126 | the two loops and the sort write the label text of the set |
| `MetricLabels.LabelTextReadsBack` | internal/metrics/metrics.go:103-126 | for valid label names the text reads back to the very label set |
| `MetricLabels.LabelTextIsInjective` | internal/metrics/metrics.go:206-219 | distinct label sets with valid names never share a series key |
| `MetricLabels.UncheckedNamesCanCollide` | internal/metrics/metrics.go:115-123 | the hypothesis is needed: a name with quotes in it makes two different sets share a text |
| `Metrics.SortBounds` | internal/metrics/metrics.go:197-204 | the bounds are sorted and none is lost |
| `Metrics.CountIn` | internal/metrics/metrics.go:222-227 | the loop counts a value in the first bucket that holds it and in no other |
| `Metrics.Histogram.constructor` | internal/metrics/metrics.go:197-204 | a new histogram is faithful to no observations, with the given bounds in order |
| `Metrics.Histogram.Observe` | internal/metrics/metrics.go:206-228 | one observation more, and every series still is its observations, counted |
| `Metrics.Histogram.RenderSeries` | internal/metrics/metrics.go:267-286 | a series is written as counts at or below each bound, then the count, sum and count |
| `Metrics.Histogram.Render` | internal/metrics/metrics.go:230-288 | a scrape shows, in key order, what the observations come to: nothing before the first, else one header and then samples only; with valid names every label set ever observed is shown with its counts at or below each bound, its count and its sum |
| `Metrics.RunningCountsAtOrBelow` | internal/metrics/metrics.go:236-270 | with the bounds in order the running total over raw buckets is the number of observations at or below the bound |
| `Metrics.SeriesAreLabelSets` | internal/metrics/metrics.go:206-219 | with valid names a series holds the observations of one label set and of no other |
| `Metrics.BucketsCountObservations` | internal/metrics/metrics.go:267-275 | the bucket line of a label set carries how often that set was observed at or below the bound |
| `Metrics.ScrapeShowsEveryLabelSet` | internal/metrics/metrics.go:230-288 | for every observed label set the whole scrape holds the line of each bucket with how often that set was observed at or below it, and its count and sum |
| `Metrics.ScrapeIsWellFormed` | internal/metrics/metrics.go:255-288 | the help line if there is help, the type, then one line for each bound of each series and three more, none of them a header |
| `Metrics.BucketsNeverDecrease` | internal/metrics/metrics.go:236-240 | the bucket lines of a series never decrease and "+Inf" equals the count |
| `Metrics.LeIsOverwritten` | internal/metrics/metrics.go:271-297 | the bucket lines of two series carry the same labels if and only if the sets differ at most in a label called "le" |
| `CatalogChain.IdsRoundTrip` | internal/catalogchain/chain.go:264-280 | an encoded id decodes to the source and local id it came from |
| `CatalogChain.DecodedIdsRoundTrip` | internal/catalogchain/chain.go:264-280 | an id decodes exactly when it lies in the chain's range, and then encodes back to itself |
| `CatalogChain.IdsAreDistinct` | internal/catalogchain/chain.go:40-51 | no two pairs of source and local id share an id |
| `CatalogChain.IdsFit` | internal/catalogchain/chain.go:47-51 | no id overflows 64 bits until a chain has over nine million sources |
| `CatalogChain.New` | internal/catalogchain/chain.go:72-95 | a chain of the configured sources in order exactly when all serve one domain; otherwise the error names a source that does not; nothing when none is configured |
| `CatalogChain.ConfiguredIs` | internal/catalogchain/chain.go:72-95 | the sources of a chain are those configured under the given names, each in its place |
| `CatalogChain.TitleIndex` | internal/catalogchain/chain.go:111-137 | every title maps to the id of the earliest readable source that holds it under an id that fits, and no other title is there |
| `CatalogChain.EarlierSourceWinsWhenItsIdFits` | internal/catalogchain/chain.go:111-137 | a title's id leads to the first readable source that holds it if and only if that source's id fits the stride; otherwise to a later one, if to any |
| `CatalogChain.LaterSourceCanWin` | internal/catalogchain/chain.go:116-137 | two sources of which the first files the title under an id that does not fit: the title is the second one's |
| `CatalogChain.FindByTitle` | internal/catalogchain/chain.go:148-240 | the earliest source that answers with an id that fits and is confirmed; none exactly when there is none |
| `CatalogChain.WhatItTakesToAnswer` | internal/catalogchain/chain.go:192-240 | a source is accepted if and only if its own matcher, or its index under its normal form of the title when it has none, gives an id below the stride whose entry can be fetched and is at least 0.6, or the chain's own bar, similar |
| `CatalogChain.ResolveExternalID` | internal/catalogchain/chain.go:242-262 | the earliest source that resolves the id to one that fits; none exactly when there is none |
| `CatalogChain.Search` | internal/catalogchain/chain.go:157-190 | the earliest source whose own search finds something or whose candidate is confirmed |
| `CatalogChain.WhatItTakesToBeFound` | internal/catalogchain/chain.go:157-190 | a source that searches is taken at its word; any other must give an id whose entry can be fetched and is close enough |
| `CatalogChain.IndexedIdsFetch` | internal/catalogchain/chain.go:116-146 | every id in the index fetches the entry its source holds under it |
| `CatalogChain.IndexedIdsAreShared` | internal/catalogchain/chain.go:116-137 | two titles share an id exactly when one source files both under one entry |
| `CatalogChain.FoundIdsFetch` | internal/catalogchain/chain.go:139-146 | the id FindByTitle gives fetches an entry close enough to the title |
| `CatalogChain.SearchAgreesWithFind` | internal/catalogchain/chain.go:175-209 | where no source has a search of its own and all ids fit, Search gives what FindByTitle and Fetch give |
| `TitleScore.Hits` | internal/catalogchain/chain.go:297-311 | the loop counts shared distinct words |
| `TitleScore.Uniq` | internal/catalogchain/chain.go:333-343 | the distinct tokens, each once |
| `TitleScore.Similar` | internal/catalogchain/chain.go:282-317 | the score is shared distinct words over the distinct words of the shorter side, 0 for an empty side |
| `TitleScore.OthersPartWords` | internal/catalogchain/chain.go:318-331 | anything that is no ASCII letter or digit parts the words of a title |
| `TitleScore.RunsAreWords` | internal/catalogchain/chain.go:318-331 | a run of letters and digits is one word, whatever its case |
| `TitleScore.SimilarityIsAScore` | internal/catalogchain/chain.go:282-317 | symmetric, within [0,1], 1 exactly when one side's words are all in the other, 0 exactly when none is shared |
| `TitleScore.OnlyWordsMatter` | internal/catalogchain/chain.go:282-317 | order and repetition of words change nothing |
| `TitleScore.PaddingNeverHurts` | internal/catalogchain/chain.go:289-291 | adding words to the side with at least as many distinct words never lowers the score |
| `TitleScore.OneMoreWordCosts` | internal/catalogchain/chain.go:282-317 | one more word lowers the score if and only if the release name has fewer distinct words than the title, shares some, and the word is new to both |
| `TitleScore.PaddingTheShorterSideCanHurt` | internal/catalogchain/chain.go:289-291 | such a release name and title |
| `LinkShape.Shape` | scripts/audit_links.py:68-78 | the loop blanks ids and hashes segment by segment |
| `LinkShape.SameShape` | scripts/audit_links.py:68-78 | two paths share a shape exactly when they agree segment by segment, ids and hashes apart |
| `LinkShape.JoinSplit` | scripts/audit_links.py:68-78 | the segments of a path joined again are the path |
| `LinkShape.ShapeIsIdempotent` | scripts/audit_links.py:68-78 | a shape is its own shape |
| `AuditLinks.ScanLinks` | scripts/audit_links.py:144-160 | the loop over a page's links does to queue, queued, shapes, sampled and came_from what considering them one by one does |
| `AuditLinks.ConsiderAllKeeps` | scripts/audit_links.py:144-160 | after a page's links the counters still count shapes within the cap, and every wanted link is queued or its shape is full and counted as sampled |
| `AuditLinks.WhichLinksAreWanted` | scripts/audit_links.py:145-152 | of a link only the part before the first "?" or "#" counts; it is followed exactly when it is a path under the root, no asset and none of those that act |
| `AuditLinks.TakenAtFirstLink` | scripts/audit_links.py:144-160 | a path is taken up at its first link or never: exactly when fewer than SHAPE_CAP of its shape were taken up before it, and then right after those |
| `AuditLinks.Visit` | scripts/audit_links.py:114-160 | one page: faults are reported by status, links are read only from a 200, everything wanted is put on record in the order of the links, every refusal counted, and the page named as the source of what it links first |
| `AuditLinks.Crawl` | scripts/audit_links.py:98-163 | on any site, endless or changing, the crawl stops; no path twice, at most MAX_PAGES pages, at most SHAPE_CAP non-root paths a shape; visits and `left` together are the root and the paths taken up from the links of the scanned pages, in the order they were read, so nothing that acts and no asset is ever asked for; every wanted link of a scanned page is visited, in `left`, or of a shape at its cap and in `sampled`; `left` is empty unless the page cap was spent; `sampled` is, for each shape, the number of links to paths neither visited nor left; `came_from` names the first scanned page that links a path |
| `AuditLinks.FaultsAreReported` | scripts/audit_links.py:118-123 | the report lists exactly the visits that failed (500 and above, or no answer) and those that answered 404 |
| `AuditLinks.CutsAreReported` | scripts/audit_links.py:129-131 | and exactly the documents cut short on pages that answered 200 |
| `AuditLinks.FormsAreReported` | scripts/audit_links.py:133-142 | and exactly the POST forms without a token there |
| `AuditLinks.SampledGrowsByRefusals` | scripts/audit_links.py:144-160 | over one page a shape's count grows by the number of links to its refused paths |
| `AuditSampling.SampledIsPathsWhenNoneIsLinkedTwice` | scripts/audit_links.py:102-106 | for a crawl's result, a shape's count is the number of its refused paths if and only if scanned pages link none of them twice, and never less |
| `AuditSampling.SampledIsPathsWhereLinksAreUnique` | scripts/audit_links.py:102-106 | on a site whose pages link every wanted path at most once, alone and together, `sampled` is the number of refused paths of each shape, whatever is crawled |
| `AuditSampling.ItemsAreCountedTwice` | scripts/audit_links.py:154-156 | on a site whose pages list four items twice each, any visits and any paths met within the cap leave more items counted than refused |
| `AuditSampling.CrawlItems` | scripts/audit_links.py:98-163 | crawling a site whose pages list four items twice each counts more sampled items than there are |

## Left out

- TaskFleet.LeasesStayUnderTheCap: a take may pick any queued row, because SKIP LOCKED may pass over older ones; oldest first is proved for a poll nobody interleaves with.
- TaskQueue.AgentTaskStore.EnqueueTask: the payload columns besides title and request id (magnet, tracker, category and the like) are carried along unread by the source and are not modelled.
- InviteLedger.InviteStore.RedeemInviteCode: database errors, which the source answers with false, are not modelled; only minting, which has something to roll back, has a fault.
- Points.PointsStore.TransferPoints: the usernames in the ledger's description are not modelled, nor are created_at and kind.
- ThrottleGuard.Throttler.Guard: the keying of callers, the text of the refusal and the Refuse hook are not modelled.
- ThrottleBounds.SweepsAreInvisible: a whole-table drop is excluded by hypothesis, since it does change answers.
- Sanitize.HTML: the parser of the HTML library is not part of this model; its tree, or its failure, is an input.
- Excerpt.Excerpt: characters stand for bytes and for runes alike, so invalid UTF-8 is not modelled.
- Metrics.Histogram.Render: lines are records with their label text and number; the spelling of floating point numbers is a parameter, and write errors are not modelled.
- CatalogChain.Search: what a source answers does not change while a call runs.
- AuditLinks.Crawl: the pattern of links that act is a parameter, and finding links, forms and the end of a document in a body's text is not modelled; a page carries them, without the tabs and line ends inside a link that `urlsplit` drops. The page a dead or failing path is reported as linked from is given by `cameFrom` and not repeated in the report's rows.
- RecentTasks, and the limits and sort order of member lists: single queries with nothing to prove beyond their text.
- TopRecruiters' ranking and limit, and last_invited: only its counts are modelled.
- InviteTree's and InviteUpline's columns besides user, depth and path: joined in by user id.
- LinkShape.Shape: decimal digits are ASCII, while `isdigit` takes other scripts' digits too.
- Escapes and entities other than those for & < > " ' and CR; case folding outside ASCII.
- INTEGER and uint64 overflow of balances and counters; deletion of users and what it cascades to.
- seed_points_carry: a plain upsert.
- Floating point: buckets, tokens, histogram sums and similarity scores are exact.
- Write in the metrics package: grouping and printing of single samples.
- Mutexes and goroutines: each method of the limiter and the histogram runs whole; the ticker behind Sweeper is a sweep at any time.
- HTTP handlers, sessions, templates, settings, registration, the payout's arithmetic, cryptography, and simple stores.
