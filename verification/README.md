# crew.day: verified models of its hard state machines

crew.day is a FastAPI service for running households and small properties. This project models, in Dafny, the
parts of it that are protocols or algorithms in their own right, and proves what they promise over every input,
every run or every interleaving. Objects whose methods update fields are classes with those fields; loops stay
loops; pure code is functions. Each method is tied to a specification function, and the theorems are about that
function, about runs of it, or about a transition system built on it.

| file | models |
|---|---|
| `Intervals`, `WindowStore`, `WindowTheorems`, `WindowLocks` | sliding-window abuse counters: the in-memory deques, the shared table, and the workers that share it |
| `AuthThrottle`, `ThrottleTheorems`, `Budgets`, `Lockouts`, `LockoutRaces`, `BreakGlass` | request budgets, retry hints, and rolling failure windows that flip a timed lockout, for attempts made singly and for attempts that overlap |
| `RootKeys`, `RootKeyTheorems` | root-key rotation: start, re-encrypt, finalize, and the operator's switch of the environment key |
| `CursorCodec`, `Pagination` | signed cursors and keyset pagination over a table that may change between pages |
| `RefExpansion`, `InputRouting`, `AgentGate` | the agent's tool dispatcher: `$ref` expansion, input routing, and the confirmation gate with the schema passes it rests on |
| `MagicLink`, `MagicLinkRuns`, `MagicLinkRaces` | magic links: mint, preview, redeem, runs of the routes with their lockouts, and racing redeemers |
| `Outbox`, `OutboxTheorems` | the deferred-send outbox, with callbacks that may queue or deliver again |
| `BackupRetention` | the daily/monthly keep rule run after every backup |
| `AgentLinks` | link building by sequential replacement |
| `AuditTail` | the follow stream over the audit log |
| `Prelude`, `Text`, `Json` | options and results, Python's string order, decoded JSON with 64-bit floats |
| `Witnesses` | a JSON and HMAC platform, a sort specification and a host that meet the laws the theorems ask for |

## Where the code and its promise differ

Each of these is proved, with the exact condition under which the promise holds.

- **Lock order.** Workers sort buckets but wait on a 32-bit hash of the bucket, and the comment calls a collision
  "never incorrect" (`app/abuse/window_store.py:255-256`). Two workers can deadlock when each one's second bucket has
  the lock number of the other's first (`WindowLocks.CrossedRun`), two ordinary link requests included
  (`ThrottleTheorems.LinkRequestsCanDeadlock`). For the buckets in use, whichever they are, no batches of them ever
  deadlock exactly when every class of colliding buckets is contiguous in their sort order
  (`WindowLocks.DeadlockFreeIffCollisionsAreConvex`).
- **Lockouts.** When failures follow passed checks made one at a time, the failure bound holds on all runs exactly
  when the lockout is longer than the window (`Lockouts.BoundedIffLockoutOutlastsWindow`). Checks that overlap all
  pass before a failure lands: with up to `m` attempts on a key in flight, a window holds `limit + m - 1` failures at
  worst, and no smaller number bounds all runs (`LockoutRaces.TightestBound`); the limit itself is kept exactly when
  `m` is at most one (`LockoutRaces.LimitHoldsIffOneInFlight`).
- **Rotation.** A new key read from standard input is registered under the environment's reference. Rows move to the
  new key, and finalizing completes the rotation, exactly when the registered reference resolves to the new key
  (`RootKeyTheorems.RowsMoveToNewKeyIff`, `RootKeyTheorems.RotationCompletesIff`); while the environment still holds
  the old key, every row ends up under the old key and finalizing is refused. Registering a key again under a
  reference that resolves to another key cuts its rows off (`RootKeyTheorems.StartKeepsSecretsIff`), and setting the
  environment to a key cuts the old key's rows off unless none are left or a slot leads to the old key without the
  environment (`RootKeyTheorems.SwitchKeepsSecretsIff`). A running service, which holds the configured key only, reads
  a row exactly when the row is under that key or under no active slot (`RootKeyTheorems.ServiceReadsIff`), so
  unless a slot leads to the old key without the environment, neither re-encrypting first nor switching first lets it
  read every row throughout (`RootKeyTheorems.NoSeamlessRotation`).
- **Preview.** A nonce both spent and lapsed is reported expired by the preview and already consumed by redemption;
  in every other state the two agree (`MagicLink.PeekAgreesWithConsume`).
- **Outbox.** Registration order is kept exactly when callbacks may not both queue sends and deliver. An exception
  other than a mail error drops the sends behind it for good, because the queue is cleared first, although the
  docstring says the rest is not silently dropped (`app/auth/magic_link.py:465-469`): an entry of any queue fires
  exactly when nothing before it lets an exception escape (`OutboxTheorems.FiresIffNothingEscapedBefore`), and a
  delivery fires everything exactly when no entry but the last crashes (`OutboxTheorems.AllFireIffOnlyTheLastCrashes`).
- **Tail.** A row that commits below the stream's cursor is never sent (`AuditTail.SentIffAboveTheCursor`); two
  transactions that commit in the other order than they stamped their rows do it (`AuditTail.LateCommitIsLost`).
- **Links.** Replacement order is irrelevant exactly when no parameter name is a prefix of another.
- **Input routing.** A body property whose name is also a path variable, path parameter or query parameter, or whose
  operation is a DELETE, is advertised but never delivered in the body (`InputRouting.ReachesBodyIff`); an
  operation with a `dry_run` query parameter and a `dry_run` body property would be one
  (`InputRouting.DryRunNeverArrives`).
- **Shared window rows.** A batch that names a bucket twice makes the store insert one primary key twice when the
  bucket has no row yet, and fails without effect; with a row it is accepted
  (`WindowStore.DbWindowStore.CheckAndRecordAll`).
- **Backups.** The keep rule keeps the newest archive of each of the latest periods exactly when the periods' newest
  archives sort like their periods (`BackupRetention.CalendarReadingIff`). Names as the backup command writes them do
  (`BackupRetention.ArchiveNamesAreInOrder`); short stamps, which the pattern also matches, need not
  (`BackupRetention.ShortStampsOutOfOrder`).

## Model

| member | source | states |
|---|---|---|
| `Intervals.SpacedBoundsEveryInterval` | app/abuse/window_store.py:32-38 | stamps of which any `limit + 1` consecutive ones span more than the window never put more than `limit` in one closed interval of window length |
| `WindowStore.MemoryWindowStore.CheckAndRecordAll` | app/abuse/window_store.py:137-154 | the deques and the answer are those of one step of the in-memory machine: evict every named bucket, refuse at the first full one with its oldest hit, else record all |
| `WindowStore.MemoryWindowStore.EvictExpired` | app/abuse/window_store.py:140-143 | every named deque loses exactly its leading hits older than its cutoff |
| `WindowStore.MemoryWindowStore.FirstRejection` | app/abuse/window_store.py:144-151 | the first check whose deque is at its cap, with that deque's oldest hit; none if there is room everywhere |
| `WindowStore.MemoryWindowStore.Record` | app/abuse/window_store.py:152-153 | one hit is appended per check, in order |
| `WindowStore.DbWindowStore.CheckAndRecordAll` | app/abuse/window_store.py:179-234 | the rows and the answer are those of one step of the table machine; a refusal leaves the rows as they were, and so does a batch that would insert one row twice, which fails |
| `WindowStore.DbWindowStore.ReadLive` | app/abuse/window_store.py:196-208 | the live hits of each distinct named bucket are read once, by the first check that names it |
| `WindowStore.DbWindowStore.Upsert` | app/abuse/window_store.py:216-233 | unless a bucket without a row is named twice, each named row becomes its live hits plus one hit per naming; other rows stay |
| `WindowStore.Store.CheckAndRecordAll` | app/abuse/window_store.py:108-118 | whichever store the deployment runs on, the contents and the answer are those of one step of that store |
| `WindowTheorems.TrimIsLive` | app/abuse/window_store.py:142-143 | on sorted hits the deque's left trim and the table's filter keep the same suffix |
| `WindowTheorems.MemoryTracks` | app/abuse/window_store.py:137-154 | one in-memory step answers as the full history would and keeps the deques in step with it |
| `WindowTheorems.TableTracks` | app/abuse/window_store.py:179-234 | one table step answers as the full history would and keeps the rows in step with it |
| `WindowTheorems.StoresAgree` | app/abuse/window_store.py:32-38 | over every run with non-decreasing time both stores give the same acceptance or the same rejection, index and oldest hit included |
| `WindowTheorems.HistoryIsSpaced` | app/abuse/window_store.py:144-153 | in every reachable history any `limit + 1` consecutive hits of a bucket span more than its window |
| `WindowTheorems.HistoryIsWhatWasAccepted` | app/abuse/window_store.py:35-38 | the history holds one hit per accepted request naming the bucket and nothing else: the verdicts alone determine it |
| `WindowTheorems.CapHoldsOverEveryRun` | app/abuse/window_store.py:32-38 | on either store, any closed interval of window length holds at most `limit` accepted hits of a bucket, over the whole run |
| `WindowTheorems.OneHitPerAcceptedBucket` | app/abuse/window_store.py:35-38 | a refused batch adds a hit to no bucket, an accepted one exactly one to each named bucket, and none elsewhere |
| `WindowTheorems.NamingABucketTwiceBreaksTheCap` | app/abuse/window_store.py:152-153 | a batch naming one bucket twice records two hits past a cap of one, so batches must name distinct buckets |
| `WindowLocks.AdvanceKeepsInv` | app/abuse/window_store.py:185-234 | any worker's step keeps locks exclusive, readers' snapshots current and the table serial |
| `WindowLocks.AbortKeepsInv` | app/abuse/window_store.py:185-186 | a rollback at any point keeps the same invariant |
| `WindowLocks.CommitKeepsCurrent` | app/abuse/window_store.py:191-208 | no commit touches a row another worker has already read |
| `WindowLocks.OutcomeIsTableStep` | app/abuse/window_store.py:210-234 | what a worker decides from its snapshot is one sequential step on the committed table |
| `WindowLocks.RunKeepsInv` | app/abuse/window_store.py:179-234 | the invariant holds in every reachable state, for any number of workers |
| `WindowLocks.EveryRunIsSerial` | app/abuse/window_store.py:22-30 | in every reachable state table and verdicts are those of the committed batches run one at a time in commit order |
| `WindowLocks.WorkersShareOneWindow` | app/abuse/window_store.py:22-38 | interleaved workers answer as one in-memory store would and never exceed `limit` in a window |
| `WindowLocks.BlockerWaitsHigher` | app/abuse/window_store.py:191-194 | if nobody can move and the buckets the workers name collide convexly, a waiting worker's blocker waits for a bucket strictly further up the order |
| `WindowLocks.NoDeadlock` | app/abuse/window_store.py:191-194 | while the buckets the workers name collide convexly, some worker can step in every state with the invariant and an unfinished worker |
| `WindowLocks.CrossedRun` | app/abuse/window_store.py:245-261 | a concrete run of two workers that deadlocks when each one's second bucket has the lock number of the other's first |
| `WindowLocks.DeadlockFreeIffCollisionsAreConvex` | app/abuse/window_store.py:191-194 | for every hash and every set of buckets, no run of workers with batches of these buckets deadlocks exactly when, among them, colliding buckets are contiguous in the sort order |
| `WindowLocks.RunDeadlocksOnlyOnCrossing` | app/abuse/window_store.py:255-256 | a run that deadlocks started with a bucket sorted strictly between two that collide with each other and not with it |
| `WindowLocks.DistinctLocksAreDeadlockFree` | app/abuse/window_store.py:191-194 | buckets that do not collide among themselves never deadlock, whatever the hash does elsewhere |
| `ThrottleTheorems.LinkRequestsCanDeadlock` | app/auth/_throttle.py:281-296 | two link requests deadlock in some run when each one's address has the lock number of the other's e-mail and the e-mails have different ones |
| `AuthThrottle.Throttle.CheckBudget` | app/auth/_throttle.py:270-302 | the call charges whichever window store the throttle was given, cannot fail, and hears the answer whose meaning the `Budgets` lemmas give |
| `AuthThrottle.Throttle.CheckConsumeAllowed` | app/auth/_throttle.py:308-318 | a lapsed lockout is cleared, a running one refuses |
| `AuthThrottle.Throttle.RecordConsumeFailure` | app/auth/_throttle.py:320-336 | the address's window is trimmed and extended; the limit-th failure locks it out and empties the window |
| `AuthThrottle.Throttle.RecordConsumeSuccess` | app/auth/_throttle.py:338-347 | the address's failures and lockout are forgotten, nobody else's |
| `AuthThrottle.Throttle.CheckPasskeyLoginAllowed` | app/auth/_throttle.py:474-503 | both keys are checked in turn and the first one locked out is reported |
| `AuthThrottle.Throttle.RecordPasskeyLoginFailure` | app/auth/_throttle.py:505-538 | one failure is counted against the credential and against the address |
| `AuthThrottle.Throttle.RecordPasskeyLoginSuccess` | app/auth/_throttle.py:540-560 | both keys are forgotten, no others |
| `AuthThrottle.EvictExpired` | app/auth/_throttle.py:574-581 | exactly the leading hits older than the cutoff are dropped |
| `ThrottleTheorems.BatchIsWellFormed` | app/auth/_throttle.py:281-296 | every batch the throttle sends names distinct buckets and always the same quota for each |
| `ThrottleTheorems.BudgetsHoldOverEveryRun` | app/auth/_throttle.py:68-121 | over any mix of link requests, signups and recoveries no bucket exceeds its quota in any closed minute or hour |
| `Budgets.VerdictIsFirstFull` | app/abuse/window_store.py:144-153 | on either store a batch is accepted exactly when no window it names already holds its limit of accepted hits; a refusal names the first that does and the earliest hit in it |
| `Budgets.BudgetsHoldForCallers` | app/auth/_throttle.py:68-121 | accepted calls that share an address, an e-mail or only their kind keep to 5 and 5 a minute, 200, 5 and 3 an hour, or 200, 10 and 3 an hour, whatever else is asked |
| `Budgets.AcceptedIffBudgetsRemain` | app/auth/_throttle.py:384-468 | a call is accepted exactly when none of its budgets is used up by earlier accepted calls, and the error names the first that is: deployment, address, e-mail |
| `Budgets.HintInRange` | app/auth/_throttle.py:212-221 | the hint a caller receives is between 1 and 3600 seconds, and one above 1 says that at least a second remained |
| `Budgets.RefusedUntilHint` | app/auth/_throttle.py:408-413 | if a second remained, the same call is refused up to and including the hinted moment |
| `Budgets.RoomAfterHint` | app/auth/_throttle.py:439-468 | a second later, if no call sharing the budget was accepted meanwhile, that budget is not the reason of a refusal |
| `ThrottleTheorems.RefusalHintInRange` | app/auth/_throttle.py:212-221 | whenever a request of a run is refused, the hint it carries lies between one second and the window |
| `ThrottleTheorems.RefusedUntilTheHint` | app/auth/_throttle.py:384-413 | if a second remained, every retry up to and including the hinted moment is refused, whatever else was asked meanwhile |
| `ThrottleTheorems.RoomAfterTheHint` | app/auth/_throttle.py:439-468 | one second after the hint, if nothing else was accepted there, the violating bucket is not what refuses |
| `Lockouts.FailAt` | app/auth/_throttle.py:505-538 | a failure naming several keys counts against each of them independently |
| `Lockouts.CheckAt` | app/auth/_throttle.py:562-587 | a check drops only lapsed lockouts and, if it passes, leaves none on the keys it names |
| `Lockouts.CheckRefusesIff` | app/auth/_throttle.py:562-587 | a check passes exactly when none of its keys has a lockout that ends later, and reports the first that has |
| `Lockouts.SucceedAt` | app/auth/_throttle.py:540-560 | a success forgets failures and lockout of each key it names, and nothing of any other |
| `Lockouts.LimitthFailureLocks` | app/auth/_throttle.py:320-336 | from a clean record, failures within one window go on record until the limit-th locks the key for the length of the lockout; one fewer locks nothing |
| `Lockouts.CoverOverRun` | app/auth/_throttle.py:320-336 | over every disciplined run a stored window is the tail of all failures, and every dropped one is out of reach now or when the lockout ends |
| `Lockouts.DisciplinedRunsAreBounded` | app/auth/_throttle.py:308-347 | when each failure follows a passed check and no success intervenes, any closed window holds at most the limit of failures per key |
| `Lockouts.BoundedIffLockoutOutlastsWindow` | app/auth/_throttle.py:71-73 | that bound holds on all such runs exactly when the lockout is longer than the window |
| `Lockouts.ShortLockoutsOverflow` | app/auth/_throttle.py:320-336 | a lockout no longer than the window admits a run past the limit |
| `Lockouts.TraceIsDisciplined` | app/auth/_throttle.py:308-336 | attempts that record a failure only after their own passed check are disciplined |
| `Lockouts.SequentialAttemptsAreBounded` | app/auth/_throttle.py:308-336 | attempts made one after the other stay within the limit in any window |
| `LockoutRaces.RacesAreBounded` | app/auth/_throttle.py:308-336 | with at most `m` attempts on a key in flight at any time, any closed window holds at most `limit + m - 1` of its failures |
| `LockoutRaces.RoomIsReached` | app/auth/_throttle.py:308-336 | some run with `m` in flight has `limit + m - 1` failures in one window |
| `LockoutRaces.TightestBound` | app/auth/_throttle.py:308-336 | a number bounds the failures of every such run exactly when it is at least `limit + m - 1` |
| `LockoutRaces.LimitHoldsIffOneInFlight` | app/auth/_throttle.py:308-336 | every run stays within the limit exactly when at most one attempt on the key is in flight |
| `LockoutRaces.OverlappingAttemptsOverflow` | app/auth/_throttle.py:308-336 | whatever the limit, two attempts in flight suffice to exceed it |
| `ThrottleTheorems.ConsumeFailuresAreBounded` | app/auth/_throttle.py:71-73 | at most 3 failed redemptions a minute per address with the shipped constants |
| `ThrottleTheorems.PasskeyFailuresAreBounded` | app/auth/_throttle.py:109-121 | at most 3 failed logins a minute per credential and per address, each on its own |
| `ThrottleTheorems.ThirdPasskeyFailureLocks` | app/auth/_throttle.py:109-121 | three failed logins within a minute lock credential and address for ten minutes, two lock neither |
| `ThrottleTheorems.ConsumeFailuresUnderOverlap` | app/auth/_throttle.py:308-336 | with the shipped limit of 3, `m` overlapping redemptions from an address stay within a bound a minute exactly when it is at least `m + 2` |
| `ThrottleTheorems.PasskeyFailuresUnderOverlap` | app/auth/_throttle.py:474-538 | the same for overlapping logins on a credential or an address |
| `BreakGlass.RedeemLimiter.CheckRedeemAllowed` | app/auth/break_glass.py:181-196 | for every user the record afterwards is that of the shared lockout machine, and the answer is its answer |
| `BreakGlass.RedeemLimiter.RecordRedeemFailure` | app/auth/break_glass.py:199-214 | the failing user's record moves as in the shared machine, every other user's stays |
| `BreakGlass.RedeemLimiter.RecordRedeemSuccess` | app/auth/break_glass.py:217-225 | the user's record is dropped, no other |
| `BreakGlass.RedeemFailuresAreBounded` | app/auth/break_glass.py:99-101 | at most 3 failed redemptions an hour per user |
| `BreakGlass.ThirdRedeemFailureLocks` | app/auth/break_glass.py:99-101 | three failed redemptions within an hour lock the user out for a day, two do not |
| `BreakGlass.RedeemFailuresUnderOverlap` | app/auth/break_glass.py:181-224 | the same for a user's overlapping redemptions |
| `RootKeys.RotationSession.StartRotation` | app/admin/rotate_root_key.py:90-148 | the tables after a start, or the error and nothing changed |
| `RootKeys.RotationSession.ReencryptLegacyRows` | app/admin/rotate_root_key.py:151-199 | every row not under the active key is rewritten under it, or one does not open and nothing changes |
| `RootKeys.RotationSession.RewriteAll` | app/admin/rotate_root_key.py:169-186 | the row loop succeeds exactly when every legacy row opens, and then rewrites exactly those rows |
| `RootKeys.RotationSession.FinalizeRotation` | app/admin/rotate_root_key.py:202-254 | the due retired slots are deleted and as many as went are reported, or an envelope still uses one and nothing changes |
| `RootKeys.RotationSession.PurgeIdle` | app/admin/rotate_root_key.py:217-240 | the slot loop succeeds exactly when no retired slot is used, and then deletes exactly the due ones |
| `RootKeys.RotationSession.StoreSecret` | app/adapters/storage/envelope.py:242-268 | a new secret is sealed and stamped under the service's configured key, other rows stay |
| `RootKeyTheorems.OneActiveKept` | app/admin/rotate_root_key.py:345-379 | no operation leaves two active slots |
| `RootKeyTheorems.StartActivatesOne` | app/admin/rotate_root_key.py:105-140 | after a start exactly the new slot is active, no slot is lost and no envelope moves |
| `RootKeyTheorems.StartWrites` | app/admin/rotate_root_key.py:105-140 | the rows a start writes: the configured key's slot retired under the environment's reference, the new one active, any other active slot retired, each to be purged after 72 hours |
| `RootKeyTheorems.StartRefusedIff` | app/admin/rotate_root_key.py:99-105 | a start is refused exactly without a configured key or when the fingerprints are equal |
| `RootKeyTheorems.FinalizeKeepsUsedSlots` | app/admin/rotate_root_key.py:217-240 | a deleted slot was retired and used by no envelope; the others stay as they were |
| `RootKeyTheorems.RetiredSlotsLast` | app/admin/rotate_root_key.py:235-240 | a slot retired by a start survives every ordinary finalize of the next 72 hours, whatever else is run |
| `RootKeyTheorems.RetiredSlotsGo` | app/admin/rotate_root_key.py:235-240 | a successful finalize after the 72 hours, or at any time with finalize-now, leaves none of the slots that the last start retired |
| `RootKeyTheorems.RetiredSlotGoesIffDue` | app/admin/rotate_root_key.py:235-240 | between the two, an ordinary finalize removes the slot exactly from the 72nd hour on |
| `RootKeyTheorems.FinalizeRefusedIff` | app/admin/rotate_root_key.py:222-234 | finalizing is refused exactly while some secret is under some retired slot, due or not |
| `RootKeyTheorems.GoodIsRecoverable` | app/adapters/storage/envelope.py:397-417 | the invariant of rotation implies that every secret decrypts to its original on the configured or on the active key |
| `RootKeyTheorems.OpensIff` | app/adapters/storage/envelope.py:397-417 | a row opens exactly under the key, purpose and nonce it was sealed with, when that key is the cipher's own or a retired slot resolves to it |
| `RootKeyTheorems.ActiveRootKeyIs` | app/admin/rotate_root_key.py:331-342 | rows are written under the active slot's key if it resolves and under the configured key otherwise |
| `RootKeyTheorems.ServiceReadsIff` | app/adapters/db/secrets/repositories.py:161-173 | under the invariant a service on the configured key reads a secret exactly when its row is under that key or under no active slot |
| `RootKeyTheorems.AllServedIff` | app/adapters/db/secrets/repositories.py:161-173 | it reads every secret exactly when no row is under an active slot other than its own key's |
| `RootKeyTheorems.StartKeepsSecretsIff` | app/admin/rotate_root_key.py:105-140 | a start keeps all secrets recoverable exactly when the new reference resolves to the new key or no row is stamped with it |
| `RootKeyTheorems.ReencryptMovesEveryRow` | app/admin/rotate_root_key.py:151-199 | re-encryption succeeds, keeps every secret and leaves every row under the active key |
| `RootKeyTheorems.RowsEndUnderActiveKey` | app/admin/rotate_root_key.py:151-199 | any successful re-encryption leaves every row under the key the active slot resolves to |
| `RootKeyTheorems.RewrittenRows` | app/admin/rotate_root_key.py:151-199 | re-encryption leaves rows under the active key alone; each other row keeps purpose and text and gets a fresh nonce and date |
| `RootKeyTheorems.StoredRow` | app/adapters/storage/envelope.py:242-268 | a new secret is sealed with its purpose and nonce under the configured key, and no other row changes |
| `RootKeyTheorems.FinalizeKeepsGood` | app/admin/rotate_root_key.py:202-254 | a successful finalize keeps every secret readable |
| `RootKeyTheorems.RotationCompletes` | app/admin/rotate_root_key.py:151-254 | re-encrypt then finalize-now always succeeds, leaves only the active slot and every row under it |
| `RootKeyTheorems.RowsMoveToNewKeyIff` | app/admin/rotate_root_key.py:90-199 | after any successful start, re-encryption succeeds with every row under the new key exactly when the registered reference resolves to the new key |
| `RootKeyTheorems.RotationCompletesIff` | app/admin/rotate_root_key.py:90-254 | start, re-encrypt and finalize-now leave only the new slot and every row under it exactly under that condition |
| `RootKeyTheorems.FinalizeNowIff` | app/admin/rotate_root_key.py:202-254 | finalize-now after a re-encryption is accepted exactly when the key the rows went to is the new key or has no slot |
| `RootKeyTheorems.StdinRotationMovesNothing` | app/admin/rotate_root_key.py:300-313 | after a start from standard input, re-encryption puts every row under the old key and finalize is refused while a secret exists |
| `RootKeyTheorems.OldKeyServiceReadsNothingAfterReencrypt` | app/adapters/db/secrets/repositories.py:161-173 | after re-encryption the old key opens no moved row, the active key opens each to its original |
| `RootKeyTheorems.SwitchKeepsSecretsIff` | app/adapters/db/secrets/repositories.py:51-78 | setting the environment to any key keeps all secrets recoverable exactly when it is the old key, no row is under the old key, or a slot leads to the old key without the environment |
| `RootKeyTheorems.SwitchKeepsGoodIff` | app/adapters/db/secrets/repositories.py:51-78 | such a switch keeps the rotation invariant exactly when, besides, an active slot under the environment's reference is the new environment key's |
| `RootKeyTheorems.StartThenSwitch` | app/admin/rotate_root_key.py:300-313 | switching straight after a start, the service reads a row exactly when it is under the switched-to key, or under neither the old nor the new key |
| `RootKeyTheorems.SwitchBeforeReencryptIff` | app/admin/rotate_root_key.py:300-313 | switching to the new key before re-encrypting leaves every row readable to the service exactly when no row is under the old key |
| `RootKeyTheorems.StepServesIff` | app/adapters/db/secrets/repositories.py:161-173 | an operation keeps a fully reading service fully reading exactly when it starts no key that rows carry, re-encrypts only on the configured key, and switches only to the active key rows carry |
| `RootKeyTheorems.RunServesIff` | app/adapters/db/secrets/repositories.py:161-173 | over a guarded run the service reads every secret at every moment exactly when every step is such a step |
| `RootKeyTheorems.NoSeamlessRotation` | app/admin/rotate_root_key.py:151-199 | with rows under the old key and a new key active, both re-encrypting first and switching first take rows from the running service |
| `RootKeyTheorems.RunKeepsGood` | app/admin/rotate_root_key.py:90-254 | the rotation invariant holds after every guarded run, chained rotations and switches included |
| `Witnesses.SomeHostIsConfigured` | app/adapters/db/secrets/repositories.py:51-78 | so does, for any key, a host configured with it as the rotation theorems ask |
| `RootKeyTheorems.EverySecretSurvives` | app/admin/rotate_root_key.py:90-254 | over every guarded run each stored secret is recoverable, re-encryption cannot fail, and the service itself reads all of them exactly when no row is under an active slot other than its own key's |
| `CursorCodec.PaddingRestored` | app/api/pagination.py:179-188 | the padding stripped from base64url (RFC 4648, sections 3.2 and 5) follows from the stripped length |
| `CursorCodec.B64RoundTrip` | app/api/pagination.py:179-188 | every byte string decodes back, and its encoding holds no dot |
| `CursorCodec.AlphabetIs` | app/api/pagination.py:175-188 | the URL-safe alphabet of RFC 4648 is written, and the standard one read too |
| `CursorCodec.KnownEncodings` | app/api/pagination.py:175-188 | examples of section 10 of RFC 4648 |
| `CursorCodec.ForeignCharactersAreSkipped` | app/api/pagination.py:184-188 | decoding passes over characters foreign to base64 |
| `CursorCodec.WholeGroupsDecode` | app/api/pagination.py:184-188 | symbols alone decode exactly when they come in groups of four |
| `CursorCodec.PartitionAtFirstDot` | app/api/pagination.py:207-210 | splitting at the first dot gives back exactly the two parts |
| `CursorCodec.PayloadRoundTrip` | app/api/pagination.py:202-233 | a signed payload decodes to itself exactly when JSON text carries it, and no token is the empty first-page cursor |
| `CursorCodec.DecodedIffSigned` | app/api/pagination.py:207-233 | any string decodes to an object exactly when what follows its first dot decodes to the digest of what precedes it, and that text loads as this object with version 1 |
| `CursorCodec.PageCursorAcceptedIff` | app/api/pagination.py:253-269 | the page decoder accepts a token as a boundary exactly when it is signed and carries this boundary |
| `CursorCodec.KeyCursorAcceptedIff` | app/api/pagination.py:278-296 | the key decoder accepts a token as a key exactly when it is signed and stands for this key |
| `CursorCodec.FirstPageIff` | app/api/pagination.py:255-256 | only no cursor and the empty cursor ask for the first page |
| `CursorCodec.ForgedSignatureIsRefused` | app/api/pagination.py:216-218 | with any bytes other than the digest as signature, both decoders refuse |
| `CursorCodec.PageCursorRoundTrip` | app/api/pagination.py:242-269 | a page cursor whose payload JSON text carries gives back its boundary, and its id through the key decoder |
| `CursorCodec.KeyCursorRoundTrip` | app/api/pagination.py:272-296 | a key cursor whose payload JSON text carries gives back its key, and through the page decoder the boundary made of that key twice |
| `Witnesses.SomePlatformIsLawful` | app/api/pagination.py:202-233 | a platform with the digest length the cursor theorems ask for, and text that carries every payload, exists |
| `Pagination.SeekAgreesWithOrder` | app/api/pagination.py:343-380 | in SQL's three-valued logic the seek predicate is true of exactly the rows after the boundary in the nulls-last order, both directions |
| `Pagination.OrderByIsOrdered` | app/api/pagination.py:375-380 | the listing is strictly ordered |
| `Pagination.OrderedListingIsUnique` | app/api/pagination.py:375-380 | two ordered listings of the same rows are equal |
| `Witnesses.SomeSortSpecIsLawful` | app/api/pagination.py:157-166 | on it, in either direction, a sort over a nullable column exists that makes a boundary of every row with an ASCII id |
| `Witnesses.NotNullSortSpecIsLawful` | app/api/pagination.py:157-166 | and one whose parser rejects null, which makes a boundary of exactly the rows with a sort value |
| `Pagination.TokenSelectsRowsAfter` | app/api/pagination.py:383-408 | asking with a token is listing exactly the rows after the row the token was made from |
| `Pagination.PageIsGood` | app/api/pagination.py:404-422 | when the rows listed make boundaries, a page is the least `limit` of them, and says there are more, with a token for its last row, exactly when more follow |
| `Pagination.LimitRefusedIff` | app/api/pagination.py:168-172 | exactly limits outside 1 to 500 are refused for their limit |
| `Pagination.RefusedCursorYieldsNoPage` | app/api/pagination.py:343-352 | a token the decoder refuses, or whose sort value the resource's parser refuses, yields no page |
| `Pagination.ForgedCursorYieldsNoPage` | app/api/pagination.py:216-218 | nor does a token with other bytes than the digest as its signature |
| `Pagination.WalkIsGood` | app/api/pagination.py:383-435 | every walk along `next_cursor`, over any sequence of table states, is ordered and misses no steadily present row |
| `Pagination.ChangingTableWalk` | app/api/pagination.py:383-435 | over a changing table no row comes twice, and in a finished walk each row present throughout comes exactly once |
| `Pagination.ChangingTableWalkIds` | app/api/pagination.py:383-435 | if no sort value is edited, no id comes twice |
| `Pagination.FixedTableWalk` | app/api/pagination.py:383-435 | over a fixed table the walk ends and returns the whole table in nulls-last order |
| `RefExpansion.ResolveKeepsMeaning` | app/agent/dispatcher.py:420-458 | on every component graph, a reader who follows references sees the same before and after expansion at every path |
| `RefExpansion.NamedSchemaIsExpanded` | app/agent/dispatcher.py:425-440 | a reference is expanded into the schema named by the part behind its last slash, whatever stands beside it, unless it is being expanded already |
| `RefExpansion.UnnamedRefStays` | app/agent/dispatcher.py:425-440 | a reference to no schema that is there stays |
| `RefExpansion.PlainSchemaIsInlined` | app/agent/dispatcher.py:420-458 | a reference to a schema without references becomes that schema |
| `RefExpansion.OnlyRecursiveRefsRemain` | app/agent/dispatcher.py:420-458 | every resolvable reference left in the result is one whose component leads back to it |
| `RefExpansion.LeftRefsAreBeingExpanded` | app/agent/dispatcher.py:420-458 | at every path of the result, a resolvable reference is left only if its component is already being expanded on that path |
| `RefExpansion.NamedRefsLeftAreBeingExpanded` | app/agent/dispatcher.py:420-458 | a reference left to a schema that is there is one being expanded on that path |
| `RefExpansion.AcyclicLeavesNoNamedRef` | app/agent/dispatcher.py:420-458 | when no recursive component can be met, no visited position of the result refers to a schema that is there |
| `RefExpansion.CompleteMeansAcyclic` | app/agent/dispatcher.py:420-458 | a complete expansion met no recursive component |
| `RefExpansion.NothingLeftNothingChanges` | app/agent/dispatcher.py:420-458 | expanding a schema with nothing left to expand changes nothing |
| `RefExpansion.ExpansionIsCompleteIffAcyclic` | app/agent/dispatcher.py:420-458 | the expansion is complete exactly when no recursive component can be met, and then expanding again changes nothing |
| `InputRouting.PathTemplateVars` | app/agent/dispatcher.py:461-474 | the cursor loop collects exactly the template's variables |
| `InputRouting.VariablesAreTheNames` | app/agent/dispatcher.py:461-474 | in a template written from text and names, the variables found are exactly the names |
| `InputRouting.ToolInputSchema` | app/agent/dispatcher.py:313-384 | the advertised properties with their schemas, and the required names, parameter loop included |
| `InputRouting.PropertyIsItsParameters` | app/agent/dispatcher.py:329-346 | a name the body does not override is advertised with the expanded schema and description of the last parameter that declares it |
| `InputRouting.PropertySays` | app/agent/dispatcher.py:387-406 | a parameter's property is its expanded schema, with the parameter's description where the schema has none |
| `InputRouting.UndeclaredVariableIsAString` | app/agent/dispatcher.py:352-356 | a template variable no parameter declares is advertised as a string |
| `InputRouting.BodyPropertyIsAdvertised` | app/agent/dispatcher.py:358-370 | a property of an object body is advertised with its own schema, or an empty one if it is none |
| `InputRouting.RawBodyIsAdvertised` | app/agent/dispatcher.py:374-376 | a body that is not an object is advertised and required as `body` |
| `InputRouting.RequiredIff` | app/agent/dispatcher.py:346-376 | a name is required exactly when a parameter says so, the path needs it undeclared, or the body's schema does |
| `InputRouting.SplitInputs` | app/agent/dispatcher.py:477-570 | the split into path, query and body, or the missing template variables |
| `InputRouting.EachInputGoesToOnePlace` | app/agent/dispatcher.py:528-570 | each input goes to exactly one place with its value, nothing is lost or invented, and every template variable is bound |
| `InputRouting.MissingAreNamed` | app/agent/dispatcher.py:534-541 | a call fails exactly when template variables are not given, and is told which |
| `InputRouting.WorkspaceIsInjected` | app/agent/dispatcher.py:819-829 | a call on a path with `slug` goes to the workspace it names or else the dispatcher's own, and on other paths nothing is added |
| `InputRouting.RequiredInputsBindIff` | app/agent/dispatcher.py:534-541 | every call with the required inputs binds its path exactly when each template variable is required or injected |
| `InputRouting.RequiredPathParamsBind` | app/agent/dispatcher.py:344-356 | operations that mark their path parameters required never see a missing variable on such calls |
| `InputRouting.ReachesBodyIff` | app/agent/dispatcher.py:528-555 | a body name is delivered in the body exactly when the method carries one and no path or query name claims it |
| `InputRouting.ClaimedPropertyNeverArrives` | app/agent/dispatcher.py:528-555 | a body property whose name a query parameter claims is advertised, goes to the query string, and leaves the body empty |
| `InputRouting.DryRunNeverArrives` | app/agent/dispatcher.py:528-555 | a concrete operation where it happens to `dry_run` |
| `InputRouting.RawBodyIsSentAsIs` | app/agent/dispatcher.py:555-561 | a non-object body is sent as given by every call that meets the schema, unless another place claims the name |
| `AgentGate.Schema.Declare` | app/api/factory.py:1376-1438 | one pass stamps every operation of every path item and touches nothing else |
| `AgentGate.MutatingEitherCase` | app/agent/dispatcher.py:92-92 | the dispatcher's upper-case and the factory's lower-case writing methods are the same four |
| `AgentGate.WritesAreGatedIff` | app/agent/dispatcher.py:761-817 | after both passes a writing operation the dispatcher would invoke is gated exactly when it is always gated or its annotation is absent, true or an object |
| `AgentGate.DispatchedIff` | app/agent/dispatcher.py:254-264 | reading or writing, after both passes the dispatcher refuses exactly operations outside the workspace surface, forbidden to agents, interactive only, or without a visible command of their own or a derived one |
| `AgentGate.RefusedIsNotGated` | app/agent/dispatcher.py:761-772 | what is refused is never gated |
| `AgentGate.CardSays` | app/agent/dispatcher.py:609-644 | a card says what policy or annotation say: summary, else message, else a generic text, and one of three risks |
| `AgentGate.FalsyIff` | app/agent/dispatcher.py:635-635 | which decoded values are false |
| `AgentGate.PassesAreIdempotent` | app/api/factory.py:1342-1343 | running the passes again changes nothing |
| `AgentGate.PassesOnlyAdd` | app/api/factory.py:1376-1438 | the passes add exactly this CLI metadata and this confirmation, to exactly these operations, and change nothing else |
| `AgentGate.ConfirmationsFirstLeavesAWriteUngated` | app/api/factory.py:1342-1343 | in the other order a write is dispatched without a gate |
| `MagicLink.ExpiresAt` | app/auth/magic_link.py:835-839 | a link expires after its purpose's ceiling or the life asked for, whichever is shorter |
| `MagicLink.LongestLives` | app/auth/magic_link.py:835-839 | the six purposes and their ceilings in seconds |
| `MagicLink.MintAnswers` | app/auth/magic_link.py:807-870 | which answer a request within its budget gets, and that it adds its nonce or nothing |
| `MagicLink.MintedRow` | app/auth/magic_link.py:848-866 | the row a request leaves |
| `MagicLink.LinkService.RequestLink` | app/auth/magic_link.py:807-870 | unknown purposes touch nothing; otherwise the budget is charged and, if it allows and a subject exists, one pending nonce is added |
| `MagicLink.LinkService.PeekLink` | app/auth/magic_link.py:954-1053 | the preview's answer, with no nonce changed |
| `MagicLink.LinkService.ClaimNonce` | app/auth/magic_link.py:690-726 | claims exactly a pending nonce, stamping it consumed now |
| `MagicLink.LinkService.ConsumeLink` | app/auth/magic_link.py:1094-1182 | redemption's answer; on success exactly the redeemed nonce is flipped, nothing is committed yet |
| `MagicLink.LinkService.PostConsume` | app/api/v1/auth/magic.py:318-376 | the route: success commits and resets the counter, failure rolls every nonce back and counts, a lockout does not count |
| `MagicLink.PeekAgreesWithConsume` | app/auth/magic_link.py:954-1182 | preview succeeds exactly when redemption would, with the same outcome, and the answers differ exactly on a nonce spent and lapsed |
| `MagicLink.RedeemsIff` | app/auth/magic_link.py:1094-1182 | a link redeems, for what it was minted for, exactly when the purpose is known and the one asked for, the address is not locked out, the token verifies in time, and its nonce is there, unspent, unlapsed and agrees |
| `MagicLink.WhyRefused` | app/auth/magic_link.py:1094-1182 | which refusal a readable token gets: mismatch, already consumed, expired or invalid |
| `MagicLink.WhyUnreadable` | app/auth/magic_link.py:658-687 | which refusal a token gets that does not verify, lacks a claim or has lapsed |
| `MagicLink.RedemptionStampsOneRow` | app/auth/magic_link.py:690-726 | a redemption stamps its one row with its time and changes no other |
| `MagicLinkRuns.LockedOutIff` | app/auth/magic_link.py:1135-1135 | with a known purpose, preview and redemption answer with a lockout exactly when the address has one that ends later |
| `MagicLinkRuns.ThreeFailuresLockOut` | app/api/v1/auth/magic.py:318-376 | over every run of redemptions, previews and requests, after three failures of an address within a minute with no success between, its calls are answered with a lockout for ten minutes and change no nonce |
| `MagicLinkRuns.LockoutIsEarned` | app/api/v1/auth/magic.py:318-376 | and nobody is answered with a lockout otherwise |
| `MagicLink.ConsumedStaysConsumed` | app/auth/magic_link.py:690-726 | after one redemption every later redemption or preview of that nonce fails |
| `MagicLink.MintedLinkRedeems` | app/auth/magic_link.py:835-870 | a fresh link redeems for what was requested until a deadline less than a second before its expiry, and never after |
| `MagicLinkRaces.MintKeepsInv` | app/auth/magic_link.py:857-870 | a commit of a new nonce keeps the race invariant |
| `MagicLinkRaces.AdvanceKeepsInv` | app/auth/magic_link.py:1150-1161 | any redeemer's claim, inspection or commit keeps the race invariant |
| `MagicLinkRaces.AtMostOneRedemption` | app/auth/magic_link.py:690-726 | over every interleaving at most one redemption of a nonce commits |
| `MagicLinkRaces.RedeemedAsRequested` | app/auth/magic_link.py:835-870 | what commits was requested earlier for that purpose and subject and is redeemed strictly before request time plus the ceiling |
| `MagicLinkRaces.EveryOutcomeIsConsume` | app/auth/magic_link.py:1094-1182 | win or lose, each redeemer hears what redemption run alone would say against the committed table, and the table changes accordingly |
| `MagicLinkRaces.SomeoneCanStep` | app/auth/magic_link.py:690-726 | a redeemer waits only for one that can move |
| `Outbox.PendingDispatch.AddCallback` | app/auth/magic_link.py:423-431 | the callback goes to the end of the queue |
| `Outbox.PendingDispatch.AddPending` | app/auth/magic_link.py:433-454 | a handle goes to the end of the queue, no handle is a no-op |
| `Outbox.PendingDispatch.DeliverHandle` | app/auth/magic_link.py:343-381 | an armed link is disarmed and sent once, an unarmed one does nothing, and only a crash escapes |
| `Outbox.PendingDispatch.DeliverAll` | app/auth/magic_link.py:456-484 | the loop, with callbacks that queue and deliver again, does what the small-step machine does, and terminates |
| `Outbox.StepShrinks` | app/auth/magic_link.py:470-484 | each step uses up queued work, so re-entrant deliveries cannot go on for ever |
| `Outbox.EachFiresAtMostOnce` | app/auth/magic_link.py:414-417 | over every program of adds and re-entrant deliveries no registration fires twice and no link is sent twice |
| `OutboxTheorems.RestrictedCallbacksKeepOrder` | app/auth/magic_link.py:406-409 | sends fire in registration order when callbacks may not both queue and deliver |
| `OutboxTheorems.ReentryBreaksOrder` | app/auth/magic_link.py:470-477 | a callback that queues and delivers puts its send ahead of the callback registered next |
| `OutboxTheorems.OrderHoldsIffNotBoth` | app/auth/magic_link.py:406-409 | order holds for all programs of such callbacks exactly when they may not do both |
| `OutboxTheorems.MailErrorsStopNothing` | app/auth/magic_link.py:465-469 | when nothing worse than a mail error happens, one delivery fires every queued entry |
| `OutboxTheorems.FiresIffNothingEscapedBefore` | app/auth/magic_link.py:456-484 | in a delivery of any queue, an entry fires exactly when the entries before it let no exception escape |
| `OutboxTheorems.FiresIffNoneBeforeCrashes` | app/auth/magic_link.py:456-484 | when callbacks do not deliver, that is exactly when no earlier callback crashes and no earlier armed link ends in a crash |
| `OutboxTheorems.AllFireIffOnlyTheLastCrashes` | app/auth/magic_link.py:465-469 | such a delivery fires every entry exactly when no entry but the last crashes |
| `OutboxTheorems.ProgramsLeaveItNumbered` | app/auth/magic_link.py:423-454 | every program of adds and deliveries leaves a queue of the kind these lemmas are about |
| `OutboxTheorems.CrashDropsTheRest` | app/auth/magic_link.py:470-484 | a crash at any position escapes, and no entry behind it ever fires, whatever is delivered later |
| `OutboxTheorems.DroppedForGood` | app/auth/magic_link.py:470-484 | what a delivery leaves unfired never fires, whatever is delivered later |
| `OutboxTheorems.TokensAreBacked` | app/api/v1/auth/magic.py:283-307 | when deliveries follow commits, no token is sent without its committed nonce |
| `OutboxTheorems.DeliveryIsSafeIffCommitted` | app/auth/magic_link.py:346-348 | a delivery point is safe for every delivery exactly when each armed link's nonce is committed |
| `BackupRetention.BackupDirectory.SortedNewestFirst` | app/admin/backup.py:268-276 | the archives, newest first, none twice |
| `BackupRetention.BackupDirectory.RotateBackups` | app/admin/backup.py:258-297 | negative settings are refused; otherwise exactly the archives outside the keep rule are pruned and reported |
| `BackupRetention.Choose` | app/admin/backup.py:277-289 | the scan with its capped memory of days and months keeps exactly what the keep rule keeps |
| `BackupRetention.PruneIsIncremental` | app/admin/backup.py:258-297 | pruning, adding a newer archive and pruning again is pruning everything once |
| `BackupRetention.PruningAsYouGoIsPruningOnce` | app/admin/backup.py:258-297 | pruning after every backup keeps the same archives as pruning once over the whole history |
| `BackupRetention.CalendarReadingIff` | app/admin/backup.py:258-289 | the rule keeps exactly the newest archive of each of the latest periods, for every setting, exactly when the periods' newest archives sort like their periods |
| `BackupRetention.KeptAreNewestOfLatestPeriods` | app/admin/backup.py:258-297 | with archives in that order, what is kept is the newest archive of each of the latest days, or of each of the latest months |
| `BackupRetention.KeptIsDailyAndMonthly` | app/admin/backup.py:258-297 | what a rotation leaves of archives in that order is the newest of each of the latest days together with the newest of each of the latest months |
| `BackupRetention.LabelsOfStamp` | app/admin/backup.py:280-283 | an archive's day is the first eight characters of its stamp, its month the first six |
| `BackupRetention.ArchiveNamesAreInOrder` | app/admin/backup.py:145-145 | names whose stamp has the eight characters of a date, as the backup command writes them, are in that order |
| `BackupRetention.ShortStampsOutOfOrder` | app/admin/backup.py:268-283 | two names with short stamps, which the pattern also matches, that are not |
| `BackupRetention.PruningKeepsPeriods` | app/admin/backup.py:280-289 | down to the `keep`-th newest period, pruning loses sight of no period |
| `BackupRetention.PruningLeavesEnough` | app/admin/backup.py:280-289 | below it, at least `keep` periods stay above |
| `AgentLinks.QuoteIsInert` | app/agent/links.py:328-330 | a quoted value holds no colon and no slash |
| `AgentLinks.QuotedByte` | app/agent/links.py:328-330 | unreserved characters of RFC 3986 stand for themselves, every other byte is a percent sign and two upper-case hex digits |
| `AgentLinks.QuoteJoins` | app/agent/links.py:328-330 | bytes are quoted one by one |
| `AgentLinks.ReplaceOneFirst` | app/agent/links.py:328-330 | replacing one parameter first does not change what the simultaneous pass makes of the rest |
| `AgentLinks.AnyOrderIsSubstitution` | app/agent/links.py:328-332 | in every order the path is the simultaneous substitution and no colon is left |
| `AgentLinks.PrefixNamesClash` | app/agent/links.py:328-330 | if one name is a prefix of another, some template comes out differently in two orders |
| `AgentLinks.OrderNeverMattersIffPrefixFree` | app/agent/links.py:328-330 | with colon-free names the order never matters exactly when no name is a prefix of another |
| `AgentLinks.Href` | app/agent/links.py:321-343 | with such names and a template whose colons all start parameters, the href is that of the simultaneous substitution, refusals included |
| `AgentLinks.SubstituteFillsIn` | app/agent/links.py:328-330 | in a template written from text and parameters, each parameter's quoted value stands in its place |
| `AgentLinks.FinishIff` | app/agent/links.py:331-343 | the href is the path behind its workspace, with the query, exactly when no colon is left and the path is rooted on this host and outside the API |
| `AgentLinks.NoWorkspaceNoHref` | app/agent/links.py:333-336 | a workspace route without a workspace has none |
| `AuditTail.AuditTailChunks` | app/audit/tail.py:30-86 | the generator's chunks and whether it has returned, for any schedule of polls |
| `AuditTail.OrderIsByTimeThenId` | app/api/v1/audit.py:247-271 | rows are ordered by time and then id, and no two cursors are left unordered |
| `AuditTail.BatchSize` | app/api/v1/audit.py:247-271 | a batch is the oldest newer rows, up to the limit |
| `AuditTail.NothingTwice` | app/audit/tail.py:52-79 | no row is sent twice, whatever happens to the table between polls |
| `AuditTail.NothingSkipped` | app/api/v1/audit.py:247-271 | a row that stays in the table from a poll whose cursor is below it on is sent, or still lies ahead of the cursor |
| `AuditTail.SentIffAboveTheCursor` | app/api/v1/audit.py:247-271 | a row first seen by some poll is sent, once the stream has caught up, exactly when it was above the cursor then |
| `AuditTail.BelowTheMarkIsLost` | app/api/v1/audit.py:247-271 | a row below the first page's high-water mark is never sent, whatever is polled |
| `AuditTail.LateCommitIsLost` | app/api/v1/audit.py:247-271 | a concrete first page and run of polls that all hold a row that committed late and is never sent |
| `AuditTail.TailIsExact` | app/audit/tail.py:42-50 | over an append-only log the stream is the first page and then a contiguous slice of the log from the high-water mark |
| `AuditTail.OneKeepaliveBeforeAnyRow` | app/audit/tail.py:77-80 | a keepalive is only ever the first chunk, and only when the first page is empty |
| `AuditTail.KeepaliveIff` | app/audit/tail.py:52-80 | with keepalives on, a stream that returned or polled has said something; with them off it sends none |
| `AuditTail.ReturnsAfterEmptyPolls` | app/audit/tail.py:82-85 | polls that find nothing end the stream with the first one over `max_empty_polls` |
| `AuditTail.RowsResetTheCount` | app/audit/tail.py:68-75 | a poll that finds rows starts the count anew |
| `AuditTail.ReturnsAtOnceOrNever` | app/audit/tail.py:52-85 | a stream that does not follow returns at once, one without a maximum never |
| `AuditTail.QuietStreamEnds` | app/audit/tail.py:82-85 | once the log stops growing the stream returns within as many polls as there are rows past the high-water mark plus `max_empty_polls` plus two, and, if it had not returned before, with every row sent |

## Left out

- Timestamps are integers (microseconds where seconds are derived): float rounding of stored epochs is not modelled, and clocks are taken as non-decreasing in commit order.
- WindowStore.DbWindowStore.CheckAndRecordAll: a commit is all or nothing, and every assignment to a row counts as written; how the ORM detects changed rows is not modelled. What the store inserts twice is a failure with no detail.
- WindowLocks.EveryRunIsSerial: the SQL engine is a table plus advisory locks held to commit; isolation levels, fairness, `updated_at_epoch` and `clear` are not modelled. A database that detects deadlocks rolls a victim back, which is `Abort`; `Deadlocked` says that nobody can step on.
- Lockouts.DisciplinedRunsAreBounded: assumes each failure follows its own passed check; `LockoutRaces.TightestBound` gives the bound for attempts that overlap.
- LockoutRaces.RacesAreBounded: assumes, like the lemma before it, that no success resets the key; the source forgets a key's failures on success by design.
- ThrottleTheorems.RoomAfterTheHint: says that the violating bucket is not the reason for a refusal; another bucket of the same batch may still be full.
- RootKeyTheorems.EverySecretSurvives: AES-GCM is symbolic, key fingerprints are taken as collision-free, references resolve the same way throughout except at the environment switch, and starts and switches are guarded by conditions an operator can check (`SwitchGuard`, and that the new reference resolves to the new key).
- Rotation audit rows, key-file permission checks and key normalisation.
- Pagination.ChangingTableWalk: a row is its id and one nullable sort rank; every row of the tables must make a boundary that comes back, that is, have an ASCII id (the encoder rejects others) and a sort value that the resource's own parser and JSON text carry. `include_total` and entity projection are not modelled.
- CursorCodec.PageCursorRoundTrip: JSON text and the HMAC are parameters; the theorems ask for the payload at hand to be carried and for the digest's length, which `Witnesses.SomePlatformIsLawful` shows can be met. A float is its 64 bits with one NaN.
- InputRouting.ToolInputSchema: required names are a set, so their order is not carried; `additionalProperties` is constant and left out, and `str()` is a parameter.
- InputRouting.SplitInputs: formatting of the URL, query coercion and the HTTP call itself are not modelled.
- AgentGate.WritesAreGatedIff: method names are ASCII; the CLI naming helpers and confirmation wording are parameters.
- RefExpansion.ResolveKeepsMeaning: Python mappings are finite maps, so key order and non-string keys are not modelled.
- MagicLink.LinkService.RequestLink: subject lookup, hashing, the serializer's key and the audit rows are inputs or left out; a token is whatever the signature check accepts.
- MagicLink.LinkService.PostConsume: a commit that itself fails and the rejected-attempt audit row are not modelled.
- MagicLinkRuns.ThreeFailuresLockOut: calls come one after the other in time order and meet one process's throttle; a call with an unknown purpose is refused before the lockout is looked at, and still counts as a failure (`MagicLinkRuns.UnknownPurposeIsRefused`).
- MagicLinkRaces.EveryOutcomeIsConsume: the lockout state each redeemer finds is given, since the throttle is per process; the sweeper that deletes old nonces is not modelled.
- Outbox.PendingDispatch.DeliverAll: what a callback does is a list of acts followed by how it ends, so callbacks that catch exceptions from a nested delivery are not modelled; link handles are fields of the one dispatch.
- BackupRetention.KeptAreNewestOfLatestPeriods: file removal and listing are not modelled; which archive sets are in calendar order is decided by `BackupRetention.CalendarReadingIff`.
- AgentLinks.Href: parameter values are UTF-8 bytes and the encoded query text is given; route loading and binding resolution are not modelled.
- AuditTail.AuditTailChunks: a schedule of polled tables stands for waiting and for the database; the JSON of a row is its line, and filters are applied before the table is seen.
- The API rate-limit shield, routing, middleware, mailers, settings, capabilities, health probes, seeds, admin bootstrap, i18n and code-health scripts: plumbing, or members with no deep invariant.
