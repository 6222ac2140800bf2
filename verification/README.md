# Verification of ev-server's coordination core and algorithms

A Dafny model of the parts of `ev-server` 2.6.1 that coordinate several server instances through one shared
database, and of the self-contained algorithms around them, with proofs of what they are for. `dafny verify
dfyconfig.toml` checks everything.

## What is modelled

Coordination. Shared state is a step system: a state, one atomic database action (or one tick of the clock, or one
crash) per step, and theorems over all reachable states or all runs. The code that takes those steps is modelled
beside it as a class whose methods perform their own steps and, between any two of them, let everyone else take any
number of theirs. The object's only field of state is the history of all steps, so what is proved of all histories
holds of the code.

- `LeaseProtocol`, `LockingManager`, `LockIdentity`: the lease locks, the scheduler's use of them, and lock ids. A
  process of the protocol is one flow of control that acquires one lock at a time.
- `ExclusiveLock`, `LeaseIsExclusive`, `LockClients`: the exclusive lock that code under a lock counts on, when the
  leases are one, and that migrations and asynchronous work count on no more than that.
- `LeasedMigrations`: migrations and lease locks as one step system.
- `MigrationProtocol`, `MigrationHandler`: migrations that are to run once.
- `AsyncTaskProtocol`, `AsyncTaskReruns`, `AsyncTaskRestarts`, `AsyncTaskManager`: asynchronous work with a status,
  under one lock per id.
- `KeyRotation`, `RotationBackups`, `RotationReruns`, `Cypher`, over `CipherFraming`, `SensitiveData`, `JsonDocument`:
  encryption of settings and the resumable rotation of its key.

The authorization cache: `AuthorizationSessions` (what calls do to contexts and cached results, as a step system),
`AuthorizationsManager` (the code, on context objects) and the condition it relies on, `DynamicAuthorizations`.

Algorithms: `EvseId` (roaming identifiers), `ChargePointRatings` (amperage, power, voltage, limits), `Anonymizer`
(logs), `NotificationThrottle` (interval guards), `RemoteAuthorizations` (the scan), `EmptyLines`, `ConnectorStats`.

## What the proofs say about the code

These hold of the code as it is, and each is a theorem below with its exact condition.

- Lease exclusion holds if and only if tests follow reads within the margin that holders keep before their expiry.
- Once holders crash no bound suffices, unless the reclaim is made one atomic action.
- A lock that is got has already expired if and only if that is longer than its validity after its creation, waiting
  included; the charging-station lock is valid 5 s and waited for 10 s.
- A migration whose `migrate()` completed can run again only for each completion lost to a crash or failed save.
- Migrations over the leases run once, but for losses before the record, under exactly that condition; and with
  crashes of holders a migration can complete twice under any bounds, though nothing was lost.
- Key rotation resumes safely while migrating. After the cleanup has begun a rerun keeps all documents if and only if
  the former key reads every setting that has lost its backup as the new key does. Where it does not, the rerun stops
  with an exception at the first such setting that the former key refuses; if it refuses none, as in the supported
  modes without authentication (ctr, cfb, ofb), the rerun silently stores what the former key made of the new key's
  text.
- An asynchronous entry that has succeeded or failed can run again if and only if a worker from an older snapshot is
  still waiting for its lock, or has just got it.
- An asynchronous entry whose server dies while it runs is stuck until some instance starts, and no longer.
- Passing a context object that the cache already refers to corrupts the cache unless filters, assertions and metadata
  are settled in it before the call: some later request is then left with the wrong filters, assertions or metadata, or
  with the wrong value of another property. The role lists `[]` and `['']` share a cache key.
- A guarded notification is repeated when the query of its guard fails, or when one is saved between a check and its
  save, as two servers can do to each other.
- `removeExtraEmptyLines` collapses and trims every list but the list of one empty line.

## Assumptions

- One clock that never runs backwards, shared by all hosts. Database actions on one document are atomic, and every read
  sees the last write; the client reads from secondaries by default (`MongoDBStorage.ts:272`), and one that lags breaks
  what is said of reads of the migration log, the pending tasks, the locks and the notifications. The locks collection
  starts empty. `sha256` is injective (the hypothesis is stated where it is used).
- Migrations and asynchronous work are proved over an exclusive lock whose holders may die and which dead holders
  lose. The lease locks are such a lock in the code as it is only while no holder crashes and the time bounds are met;
  with crashes and reclaim together they are one only in the variant with an atomic reclaim (`LeaseIsExclusive`). For
  migrations the two are put together in `LeasedMigrations`.
- Tenant ids hold no `~`. Stored ones are database identifiers in hexadecimal, or `default`.
- The crypto library is two functions with one law, that unsealing undoes sealing under the same key with a vector of
  the right length. Rows that speak of modes in which the former key refuses what the new key can read, as it does in
  authenticated modes, have that as a hypothesis; the others about reruns have not.
- The access-control library is a deterministic function of the request to a verdict, fields and the ordered list of
  condition arguments it runs. The printing of a context is an injective function of its content.
- Numbers in `ChargePointRatings` are exact; a missing rating is zero, as it is to the server's tests.
- Case conversion is that of ASCII letters. What storage and logging calls do besides the actions above is omitted,
  and they fail only where a parameter says so.

## Model

| member | source | states |
|---|---|---|
| LeaseProtocol.ExclusionExactlyWhenPrompt | ev-server-2.6.1/src/locking/LockingManager.ts:17-180 | In all runs of any number of processes, with read, test and delete of a reclaim as separate actions, at most one process holds an id, if and only if the delay allowed between a reclaimer's read and its test is at most the margin by which holders release before their expiration date |
| LeaseProtocol.RunKeepsInvariant | ev-server-2.6.1/src/locking/LockingManager.ts:17-180 | Every step of a run within the bounds keeps it so that a holder's own record is the stored one, every record has a live holder, a record was far from expiry when it was read, and no reclaim is under way |
| LeaseProtocol.StepKeepsInvariant | ev-server-2.6.1/src/locking/LockingManager.ts:17-180 | The same, for one step of any process |
| LeaseProtocol.ReleaseDeletesOwnRecord | ev-server-2.6.1/src/locking/LockingManager.ts:65-87 | Within the bounds a release, which deletes by id without looking at the owner, deletes the releaser's own record and nothing else, and no reclaim ever gets to its delete |
| LeaseProtocol.SlowTestBreaksExclusion | ev-server-2.6.1/src/locking/LockingManager.ts:151-158 | For every margin smaller than the delay there is a run within the bounds that ends with two holders: the slow reclaimer deletes the next holder's record |
| LeaseProtocol.CrashDefeatsEveryBound | ev-server-2.6.1/src/locking/LockingManager.ts:151-180 | If holders may crash and leave records behind, no choice of bounds gives exclusion: of two reclaimers of one orphan, the slower deletes the faster one's record |
| LeaseProtocol.EntersExpiredExactlyWhenLate | ev-server-2.6.1/src/locking/LockingManager.ts:115-127 | In every history, the record of a process that gets in has expired by then if and only if the time since the lock was created is longer than its validity; no wait before the insert prolongs it |
| LeaseProtocol.LockSinceCreate | ev-server-2.6.1/src/locking/LockingManager.ts:114-127 | Whatever happens in between, the lock that a process carries is the one it last created, with the expiry of its creation |
| LeaseProtocol.WaiterCanEnterExpired | ev-server-2.6.1/src/locking/LockingHelper.ts:194-201 | It does happen, for every wait longer than the validity: a process that was refused first stores, and holds, a record that has expired |
| LeaseProtocol.AtomicExclusionExactlyWhenInTime | ev-server-2.6.1/src/locking/LockingManager.ts:65-180 | With read, test and delete as one action, and crashes anywhere, at most one live process holds an id and every live holder's own record is the stored one, if and only if live holders never outstay their expiry |
| LeaseProtocol.OthersUntouched | ev-server-2.6.1/src/locking/LockingManager.ts:17-180 | No step moves a process other than the one that takes it, and none turns the clock back |
| LockingManager.OthersHistory | ev-server-2.6.1/src/locking/LockingManager.ts:17-180 | Whatever other processes do in between leaves this process where it stands |
| LockingManager.LockingManager.CreateLock | ev-server-2.6.1/src/locking/LockingManager.ts:89-130 | Throws without tenant or key; otherwise the process carries the lock object with the hashed id, expiring its validity after this moment or never; nothing is stored yet |
| LockingManager.LockingManager.InsertLock | ev-server-2.6.1/src/storage/mongodb/LockingStorage.ts:83-100 | Succeeds exactly if the id is free when the database gets to it, and then the process holds the stored record, which has expired exactly when that is longer than the validity after the creation |
| LockingManager.LockingManager.AcquireExclusiveLock | ev-server-2.6.1/src/locking/LockingManager.ts:132-149 | Terminates after at least one and at most max(1, timeout in seconds) inserts, none of them asked for after the timeout; fails no earlier than the timeout, and for each refused insert sleeps one second and then, unless the timeout has come, inserts again; succeeds exactly when the last insert did; whether the lock got has expired is told from its creation |
| LockingManager.LockingManager.ReleaseLock | ev-server-2.6.1/src/locking/LockingManager.ts:65-87 | Afterwards nothing is stored under the id, whoever owned it; tells whether something was |
| LockingManager.LockingManager.GetLock | ev-server-2.6.1/src/locking/LockingManager.ts:152-153 | The copy that is read is that of the record stored under the id at that moment, if any |
| LockingManager.LockingManager.IsExpired | ev-server-2.6.1/src/locking/LockingManager.ts:155 | The test is made on the copy, with the clock of a later moment |
| LockingManager.LockingManager.CheckAndReleaseExpiredLock | ev-server-2.6.1/src/locking/LockingManager.ts:151-180 | The record in the way is deleted exactly when the one that was read is expired at the time of the test; then the process inserts again without a further retry, and otherwise it is done |
| LockingManager.LockingManager.GiveUpOrReclaim | ev-server-2.6.1/src/locking/LockingManager.ts:48-52 | After a failed attempt that may be retried, the next one follows exactly when an expired record was found and deleted |
| LockingManager.LockingManager.Acquire | ev-server-2.6.1/src/locking/LockingManager.ts:17-63 | Terminates after at most 2 times max(1, timeout in seconds) inserts; gives an attempt up no earlier than the timeout after it began, be it the first or that after a reclaim; true exactly when the last insert succeeded; then, in every run within the bounds, no other process holds the id, and the lock has expired exactly when it is longer than its validity since its creation |
| LockingManager.LockingManager.HolderIsAlone | ev-server-2.6.1/src/locking/LockingManager.ts:17-63 | Whoever holds an id in a history within the bounds of the lease holds it alone |
| LockingManager.LockingManager.AcquireTaskLock | ev-server-2.6.1/src/locking/LockingHelper.ts:19-25 | The lock of a scheduled run is that of its name, for the default tenant and fifteen minutes; without a name it is not tried for, otherwise one or two inserts are made and it is got exactly when the last succeeds |
| LockingManager.LockingManager.RunHooks | ev-server-2.6.1/src/scheduler/SchedulerTask.ts:30-45 | Hooks run in order, up to the first that fails, each at a moment at which the lock is held |
| LockingManager.LockingManager.RunTask | ev-server-2.6.1/src/scheduler/SchedulerTask.ts:16-59 | A run takes place exactly when the lock of its name is got; its hooks run in order up to the first that fails, each while that very lock is held, and the lock is given back on every path, as the last action |
| LockingManager.TaskLockIs | ev-server-2.6.1/src/locking/LockingHelper.ts:19-25 | The text that is hashed into its id |
| LockIdentity.SameIdExactlyWhen | ev-server-2.6.1/src/locking/LockingManager.ts:115-123 | For tenants without `~`, two created locks have the same id if and only if tenant, entity, key up to case, and type agree |
| LockIdentity.CreatedIs | ev-server-2.6.1/src/locking/LockingManager.ts:89-130 | A lock object is refused without a tenant, and else without a key; it holds tenant, entity, type and the key in lower case, is dated now, and expires its validity later, or never if that is not positive |
| LockIdentity.TenantsClashExactlyWhen | ev-server-2.6.1/src/locking/LockingManager.ts:115-123 | Why tenant ids must hold no `~`: two different tenants can have locks with one id if and only if one is the other, a `~` and an entity name, and maybe another `~` and a lower-case text |
| LockIdentity.EndpointLocksClashExactlyWhen | ev-server-2.6.1/src/locking/LockingHelper.ts:219-233 | For endpoint ids without dashes, two endpoint locks have the same id if and only if endpoint and action agree up to case, whatever the actions hold |
| LockIdentity.EntityNameTells | ev-server-2.6.1/src/types/Locking.ts:17-36 | Entity names are distinct and hold no `~` |
| ExclusiveLock.AtMostOneInside | ev-server-2.6.1/src/locking/LockingManager.ts:17-87 | Over any history of an exclusive lock, in which holders may die and dead holders lose it, at most one is ever inside |
| LeaseIsExclusive.TimedRunIsExclusive | ev-server-2.6.1/src/locking/LockingManager.ts:17-180 | The code as it is: in every run without crashes of holders in which tests follow reads within the margin, each step is, for each id, one of an exclusive lock |
| LeaseIsExclusive.AtomicRunIsExclusive | ev-server-2.6.1/src/locking/LockingManager.ts:17-180 | With an atomic reclaim the same holds in every run with any crashes in which live holders do not outstay their expiry |
| LeaseIsExclusive.CrashingRunIsNotExclusive | ev-server-2.6.1/src/locking/LockingManager.ts:151-180 | The code as it is, with crashes of holders, is no exclusive lock under any bounds: some run ends with two inside |
| LeaseIsExclusive.StepIsNext | ev-server-2.6.1/src/locking/LockingManager.ts:65-180 | A step is one of an exclusive lock whenever owners' records are stored and a process that deletes to reclaim finds nobody inside: inserts take it, releases give it back, reclaims take it from the dead |
| LockClients.MigrationStepIsNext | ev-server-2.6.1/src/migration/MigrationHandler.ts:28-29 | Whatever migrations do to their lock is what can be done to an exclusive one |
| LockClients.MigrationFollowsLock | ev-server-2.6.1/src/migration/MigrationHandler.ts:28-29 | And what an exclusive lock does happens to the migrations: a free lock can be taken by any idle pass, whoever is inside can die at any moment and gives it back at its end, and a dead holder's can be taken away |
| LockClients.TaskStepIsNext | ev-server-2.6.1/src/async-task/AsyncTaskManager.ts:89-141 | Whatever handlers, workers and instances do to the lock of an id is what can be done to an exclusive one |
| LockClients.TaskFollowsLock | ev-server-2.6.1/src/async-task/AsyncTaskManager.ts:89-141 | And what an exclusive lock does happens to the workers of an id: taking it, dying, giving it back at the end, and taking it away from the dead |
| LeasedMigrations.RunsOnceExactlyWhenPrompt | ev-server-2.6.1/src/migration/MigrationHandler.ts:26-137 | Both step systems together, migrations over the lease locks as the code has them: in all runs without crashes of holders, completions exceed one by no more than what was lost before being recorded, if and only if the delay between a reclaimer's read and its test is at most the margin that holders keep |
| LeasedMigrations.CrashRunsTwice | ev-server-2.6.1/src/migration/MigrationHandler.ts:26-137 | Once holders may crash, under any bounds some run completes a migration twice though nothing was lost |
| LeasedMigrations.RunsOnceExactlyWhenInTime | ev-server-2.6.1/src/migration/MigrationHandler.ts:26-137 | With an atomic reclaim and crashes anywhere they run once, in the same sense, if and only if live holders never outstay their expiry |
| LeasedMigrations.RunRefines | ev-server-2.6.1/src/migration/MigrationHandler.ts:26-137 | Over leases that are never deleted under a live holder, a run of both systems is a run of the migrations over an exclusive lock, with the owner of the stored record as its holder |
| LeasedMigrations.StepRefines | ev-server-2.6.1/src/migration/MigrationHandler.ts:26-137 | One step of both systems is one of the migrations or none, and keeps it so that exactly the lock's holder is in a pass |
| LeasedMigrations.TwoInsideRunTwice | ev-server-2.6.1/src/migration/MigrationHandler.ts:40-137 | Any run of the leases that lets two in extends to one in which both complete the same migration |
| MigrationProtocol.RunOnce | ev-server-2.6.1/src/migration/MigrationHandler.ts:26-137 | Over every interleaving of passes on any hosts, a migration's completions exceed one by no more than those that a crash or failed save lost before they were recorded; one recorded before never completes without such a loss; the log has no duplicate and only grows |
| MigrationProtocol.RunKeepsInvariant | ev-server-2.6.1/src/migration/MigrationHandler.ts:26-137 | Every completion is recorded, in hand or lost, once; a pass's old copy of the log still tells what is recorded for everything it has yet to visit; only the lock holder is inside |
| MigrationProtocol.StepKeepsAccounts | ev-server-2.6.1/src/migration/MigrationHandler.ts:90-137 | One step keeps the account of completions, records and losses |
| MigrationProtocol.StepKeepsInformed | ev-server-2.6.1/src/migration/MigrationHandler.ts:42-60 | One step keeps what passes know of the log |
| MigrationProtocol.StepKeepsLog | ev-server-2.6.1/src/storage/mongodb/MigrationStorage.ts:24-39 | The log grows by saves only and without duplicates |
| MigrationProtocol.RunsOnlyWhenDue | ev-server-2.6.1/src/migration/MigrationHandler.ts:42-60 | What runs is unrecorded at that very moment and of the kind of the pass that runs it |
| MigrationProtocol.RecordedIsFinal | ev-server-2.6.1/src/migration/MigrationHandler.ts:40-52 | Once recorded, a migration stays recorded and never completes again |
| MigrationProtocol.EligibleExactlyWhenUnrecorded | ev-server-2.6.1/src/migration/MigrationHandler.ts:42-60 | From every reachable state with the lock free, a migration can still come to run if and only if it is not recorded: failed and lost ones can, whatever else has happened |
| MigrationProtocol.UnrecordedCanBeSaved | ev-server-2.6.1/src/storage/mongodb/MigrationStorage.ts:24-37 | With no `~` in names, the primary key never refuses the record of a migration that is not recorded |
| MigrationProtocol.SaveRefusedExactlyWhenKeyTaken | ev-server-2.6.1/src/storage/mongodb/MigrationStorage.ts:24-37 | For any names, a save is refused if and only if something recorded prints the same name, `~` and version |
| MigrationProtocol.OthersFrozen | ev-server-2.6.1/src/migration/MigrationHandler.ts:29-81 | While a pass is inside the lock, no step of any other host touches the log or the pass |
| MigrationHandler.MigrationHandler.AcquireLock | ev-server-2.6.1/src/migration/MigrationHandler.ts:28-29 | Takes a free lock at once; if it is taken and the record in the way is found expired, reclaims it exactly if its holder is gone when looked at, and tries once more; gets it exactly when it is free at the last try |
| MigrationHandler.MigrationHandler.RunMigrations | ev-server-2.6.1/src/migration/MigrationHandler.ts:26-81 | A pass that finds the lock taken does nothing; one that finds it free runs exactly the due migrations of its kind, appends to the log exactly those that succeed, in their order, whatever other hosts do, and frees the lock on every path |
| MigrationHandler.MigrationHandler.Migrate | ev-server-2.6.1/src/migration/MigrationHandler.ts:82-87 | The synchronous pass and then, whatever became of it, the asynchronous one take place, each exactly if the lock is free when it tries, with any hosts at work before, between and after; each that gets it does exactly what a pass of its kind does, and what succeeds in it is recorded in the end |
| MigrationHandler.MigrationHandler.RunTasks | ev-server-2.6.1/src/migration/MigrationHandler.ts:42-60 | The loop over all migrations, against the recursive account of what it adds |
| MigrationHandler.MigrationHandler.ExecuteTask | ev-server-2.6.1/src/migration/MigrationHandler.ts:90-137 | Records a migration exactly when both it and its save succeed, counts it exactly when it completed, and goes on after either failure |
| MigrationHandler.MigrationHandler.SaveMigration | ev-server-2.6.1/src/storage/mongodb/MigrationStorage.ts:24-39 | The save of a completed migration is never refused for a duplicate |
| MigrationHandler.AddedExactly | ev-server-2.6.1/src/migration/MigrationHandler.ts:42-60 | An entry is added by a pass if and only if it is that of a due migration of the pass's kind that succeeds |
| MigrationHandler.MigrationHandler.PassRecords | ev-server-2.6.1/src/migration/MigrationHandler.ts:42-60 | A pass that gets the lock and reads the log leaves every migration of its kind that succeeds in it recorded |
| MigrationHandler.RunExactly | ev-server-2.6.1/src/migration/MigrationHandler.ts:42-60 | A migration is run to completion by a pass if and only if it is due, of the pass's kind, and does not fail |
| CipherFraming.ParsePrint | ev-server-2.6.1/src/utils/Cypher.ts:31-47 | Splitting undoes printing, for all byte strings, with and without a tag |
| CipherFraming.HexRoundTrip | ev-server-2.6.1/src/utils/Cypher.ts:34-46 | Hexadecimal decoding undoes encoding, and the encoding holds no colon |
| CipherFraming.HexIs | ev-server-2.6.1/src/utils/Cypher.ts:34-37 | Each byte is printed as its two hexadecimal digits, the higher one first |
| CipherFraming.HexReads | ev-server-2.6.1/src/utils/Cypher.ts:41-47 | Decoding goes pair by pair and ends before the first that is not one of digits |
| CipherFraming.HexReadsCapitals | ev-server-2.6.1/src/utils/Cypher.ts:41-47 | and takes capitals as well |
| CipherFraming.ModesTell | ev-server-2.6.1/src/utils/Cypher.ts:258-270 | An algorithm has a tag exactly if gcm, GCM, ccm, CCM or ocb occurs in its name, and vectors of 13 bytes exactly if ccm or ocb does, else of 16 |
| CipherFraming.EncryptedParts | ev-server-2.6.1/src/utils/Cypher.ts:21-38 | A ciphertext is the vector, the data and, exactly in those modes, the tag, in hexadecimal and between colons |
| CipherFraming.DecryptReads | ev-server-2.6.1/src/utils/Cypher.ts:40-60 | Decrypting hands the library the parts in those places, the tag only in those modes, and throws on a text with one part |
| CipherFraming.DecryptEncrypt | ev-server-2.6.1/src/utils/Cypher.ts:21-60 | Decrypting undoes encrypting for every text, key and algorithm, given only the law of the crypto library |
| SensitiveData.DecryptUndoesEncrypt | ev-server-2.6.1/src/utils/Cypher.ts:76-119 | Decrypting a document undoes encrypting it, for all documents and distinct paths: missing, empty and non-string values included, and paths that run through one another |
| SensitiveData.EncryptedIs | ev-server-2.6.1/src/utils/Cypher.ts:76-97 | In an encrypted document each non-empty string at a listed path is its own ciphertext under the key, and empty ones are left |
| SensitiveData.DecryptedIs | ev-server-2.6.1/src/utils/Cypher.ts:99-119 | In a decrypted one each is decrypted under the key |
| SensitiveData.DecryptsExactlyWhen | ev-server-2.6.1/src/utils/Cypher.ts:99-119 | Decrypting a document throws if and only if some non-empty string at a listed path cannot be decrypted |
| SensitiveData.EncryptedElsewhere | ev-server-2.6.1/src/utils/Cypher.ts:76-97 | Text at any path that is not listed is left alone by encryption |
| SensitiveData.DecryptedElsewhere | ev-server-2.6.1/src/utils/Cypher.ts:99-119 | Text at any path that is not listed is left alone by decryption |
| JsonDocument.TextElsewhere | ev-server-2.6.1/src/utils/Cypher.ts:87-96 | Replacing one string leaves the text at every other path as it was |
| JsonDocument.StringElsewhere | ev-server-2.6.1/src/utils/Cypher.ts:87-96 | and every other string, empty or not |
| JsonDocument.PathLeads | ev-server-2.6.1/src/utils/Cypher.ts:87-96 | A path leads through properties of objects and elements of arrays that are there, and through nothing else |
| JsonDocument.SetsCommute | ev-server-2.6.1/src/utils/Cypher.ts:87-96 | Replacements of strings at two paths can be done in either order |
| KeyRotation.ResumableRotation | ev-server-2.6.1/src/utils/Cypher.ts:152-182 | From settings under the former key without backups, after any number of migrations cut off after any saves, one complete run succeeds, and leaves every document decrypting under the new key to exactly what it was under the former, with no backup left |
| KeyRotation.RunSwitches | ev-server-2.6.1/src/utils/Cypher.ts:222-241 | Migration work in any order and number never fails, keeps every setting either original or switched, and switches those it covers |
| KeyRotation.MigratedSwitches | ev-server-2.6.1/src/utils/Cypher.ts:227-239 | Migrating one setting, original or already switched, cannot fail and leaves it switched |
| RotationBackups.MigratedIsRecoverable | ev-server-2.6.1/src/utils/Cypher.ts:222-256 | For any cipher: the backup that the migration of a setting stores holds exactly the former non-empty strings at its sensitive paths, and putting them back in their places gives the former document |
| RotationBackups.RunIsRecoverable | ev-server-2.6.1/src/utils/Cypher.ts:222-256 | For any cipher, and wherever migration work on settings without backups is cut off: every setting is the original, or holds such a backup from which the original document can be had |
| RotationReruns.RerunKeepsExactlyWhen | ev-server-2.6.1/src/utils/Cypher.ts:152-182 | For any cipher: with the migration done and the cleanup cut off anywhere, a complete rerun succeeds and leaves every document as it is if and only if the former key reads every setting that has lost its backup as the new key does |
| RotationReruns.RerunThrowsExactlyWhen | ev-server-2.6.1/src/utils/Cypher.ts:222-241 | For any cipher and settings in any state: a complete rerun throws if and only if the former key cannot read some setting without a backup |
| RotationReruns.RerunRereads | ev-server-2.6.1/src/utils/Cypher.ts:222-241 | For any cipher and settings in any state: when it does not throw, a setting with a backup keeps its document, and one without holds under the new key whatever the former key read in it |
| RotationReruns.UnmarkedIsReread | ev-server-2.6.1/src/utils/Cypher.ts:227-239 | For any cipher: a setting without its backup is migrated if and only if the former key reads it, and then holds under the new key what the former key read, be it the right document or not |
| RotationReruns.RunRevisits | ev-server-2.6.1/src/utils/Cypher.ts:222-241 | For any cipher: migration work in any order and number, on settings in any state, leaves each as it was or reread once, and throws only on one without a backup that the former key cannot read |
| RotationReruns.TextCanBeLost | ev-server-2.6.1/src/utils/Cypher.ts:227-239 | Silent loss does happen: there is a lawful cipher that never refuses, as the supported ctr, cfb and ofb modes do not, and a setting for every text, whose rerun throws nothing and stores another text |
| RotationReruns.RerunSucceedsExactlyWhen | ev-server-2.6.1/src/utils/Cypher.ts:152-182 | For modes in which the former key refuses what the new key can read: with the cleanup cut off anywhere, a complete rerun succeeds if and only if no setting with a sensitive text has lost its backup; and then it changes no document |
| RotationReruns.RerunOnUnmarked | ev-server-2.6.1/src/utils/Cypher.ts:229-238 | For the same modes: a setting under the new key without its backup makes the migration throw if and only if it holds a sensitive text |
| RotationReruns.SafeNeverThrows | ev-server-2.6.1/src/utils/Cypher.ts:222-241 | For the same modes: as long as no setting with a text has lost its backup, a rerun throws nowhere, wherever it is |
| Cypher.Document.PrepareBackup | ev-server-2.6.1/src/utils/Cypher.ts:243-256 | The backup has an entry for a path if and only if it is sensitive and leads to a non-empty string, and the entry is that string |
| Cypher.Document.DecryptSensitiveData | ev-server-2.6.1/src/utils/Cypher.ts:99-119 | The loop that decrypts in place computes the specified document, and throws exactly when that does not exist |
| Cypher.Document.EncryptSensitiveData | ev-server-2.6.1/src/utils/Cypher.ts:76-97 | The loop that encrypts in place computes the specified document |
| Cypher.Cypher.MigrateSetting | ev-server-2.6.1/src/utils/Cypher.ts:227-239 | One stored setting is replaced by its migrated form; one with a backup, or without sensitive paths, is left; on an exception nothing is stored |
| Cypher.Cypher.MigrateSettings | ev-server-2.6.1/src/utils/Cypher.ts:222-241 | The loop works on the settings one by one in order, up to the end, the cut, or the first that throws, nothing it did before that is undone, and from settings without backups every original can still be had |
| Cypher.Cypher.CleanupBackupSensitiveData | ev-server-2.6.1/src/utils/Cypher.ts:281-294 | Removes the backup of every setting with sensitive paths, and changes nothing else |
| Cypher.Cypher.HandleCryptoSettingsChange | ev-server-2.6.1/src/utils/Cypher.ts:152-182 | On settings in any state: without the lock nothing changes; otherwise it is a migration run and, if that throws nowhere, cleanup and clearing of the flag. On what interrupted migrations left it completes the rotation. For any cipher it gets to its end if and only if the former key reads every setting without a backup, and then each such document is what the former key read; on settings partly cleaned up all documents are kept if and only if that is what the new key reads |
| Cypher.Cypher.UnderwayIsDone | ev-server-2.6.1/src/utils/Cypher.ts:152-164 | On what interrupted migrations left, the loop gets to its end, and the cleanup then leaves the rotation complete |
| Cypher.Cypher.RerunIsReread | ev-server-2.6.1/src/utils/Cypher.ts:152-164 | For any cipher and settings in any state: the loop gets to its end if and only if the former key reads all that is unmarked, and the cleanup then leaves all documents reread |
| Cypher.Cypher.RerunKeepsDocumentsExactlyWhen | ev-server-2.6.1/src/utils/Cypher.ts:152-164 | For any cipher, on settings under the new key: loop and cleanup keep all documents if and only if the former key reads what is unmarked as the new key does |
| Cypher.Cypher.RerunIsDoneExactlyWhen | ev-server-2.6.1/src/utils/Cypher.ts:152-164 | For modes in which the former key refuses: on settings under the new key the loop gets to its end if and only if no text is unmarked |
| AsyncTaskProtocol.OneWorkerPerTask | ev-server-2.6.1/src/async-task/AsyncTaskManager.ts:83-145 | Over every interleaving of handlers, instances that start, and crashes, no two workers are at work on the same id |
| AsyncTaskProtocol.FinishedHandlerReport | ev-server-2.6.1/src/async-task/AsyncTaskManager.ts:83-155 | When a handler has finished, every entry of its snapshot was saved as running and then as exactly one outcome with its lock given back, or was refused its lock or has an unknown name and was not written; the two counters are the numbers of the two outcomes |
| AsyncTaskReruns.RunsAgainExactlyWhenAwaited | ev-server-2.6.1/src/async-task/AsyncTaskManager.ts:73-107 | From every reachable state, what is stored as a success or an error can come to run again if and only if it has an implementation and some living worker is still waiting for its lock or has just got it |
| AsyncTaskReruns.ConcludedIsNotRun | ev-server-2.6.1/src/async-task/AsyncTaskManager.ts:83-141 | In every reachable state, nobody runs, or is about to save, what is stored as a success or an error |
| AsyncTaskReruns.ConcludedIsSettled | ev-server-2.6.1/src/async-task/AsyncTaskManager.ts:83-141 | If moreover no living worker awaits it, or its name has no implementation, nobody can come to run it any more |
| AsyncTaskReruns.StaleSnapshotRunsAgain | ev-server-2.6.1/src/async-task/AsyncTaskManager.ts:73-107 | A run in which this happens: what one handler has brought to success, another runs again from its older snapshot |
| AsyncTaskRestarts.OrphanRunsExactlyWhenKnown | ev-server-2.6.1/src/async-task/AsyncTaskManager.ts:33-39 | From every reachable state, what is stored as running can come to run if and only if it has an implementation; and if no living worker is at it, not without an instance starting |
| AsyncTaskRestarts.RunsWithoutStartExactlyWhen | ev-server-2.6.1/src/async-task/AsyncTaskManager.ts:33-74 | From every reachable state and without an instance starting, what is stored can come to run if and only if it has an implementation and is pending, or a living worker runs it, is about to, or waits to |
| AsyncTaskRestarts.StartTurnsRunningToPending | ev-server-2.6.1/src/storage/mongodb/AsyncTaskStorage.ts:133-142 | An instance that starts puts what is running back to pending and leaves every other status, all locks and all workers alone |
| AsyncTaskProtocol.RunKeepsInvariant | ev-server-2.6.1/src/async-task/AsyncTaskManager.ts:33-164 | Who is at work holds the lock of its own id, phases tell what was written, stored statuses agree with the phases, and counters with the outcomes, in every reachable state |
| AsyncTaskProtocol.StepKeepsStatus | ev-server-2.6.1/src/async-task/AsyncTaskManager.ts:33-39 | While something runs its status is running, or pending again when another instance has started; once ended it is the outcome, until the lock is given back |
| AsyncTaskProtocol.StepKeepsCounters | ev-server-2.6.1/src/async-task/AsyncTaskManager.ts:62-65 | One step keeps the counters equal to the numbers of ended workers |
| AsyncTaskProtocol.OthersHistory | ev-server-2.6.1/src/async-task/AsyncTaskManager.ts:55-164 | A handler's workers and counters are touched by its own steps only |
| AsyncTaskManager.AsyncTaskManager.GetPendingTasks | ev-server-2.6.1/src/async-task/AsyncTaskManager.ts:72-74 | Returns exactly the pending ids, each once |
| AsyncTaskManager.AsyncTaskManager.Advance | ev-server-2.6.1/src/async-task/AsyncTaskManager.ts:84-141 | Whatever others do meanwhile, one worker goes on by its next step, and is counted exactly when it saves its outcome |
| AsyncTaskManager.SomeCanGoOn | ev-server-2.6.1/src/async-task/AsyncTaskManager.ts:66-71 | As long as some worker is not done, one can go on without there being more in flight than allowed: the handler is never stuck |
| AsyncTaskManager.AsyncTaskManager.RunWorkers | ev-server-2.6.1/src/async-task/AsyncTaskManager.ts:83-146 | Workers go on in any order until all are done, with no more in flight than allowed after any step of the history; this terminates, and the counters are those of the outcomes saved |
| AsyncTaskManager.AsyncTaskManager.HandleAsyncTasks | ev-server-2.6.1/src/async-task/AsyncTaskManager.ts:55-164 | Its snapshot is all that is pending when it begins; at no moment are more workers in flight than the configured number, or one; it ends with every entry done, those it ran with the outcome of the run, and returns the numbers of successes and errors |
| AsyncTaskManager.AsyncTaskManager.Init | ev-server-2.6.1/src/async-task/AsyncTaskManager.ts:33-39 | A starting instance puts what is running back to pending, and then handles all that is pending |
| DynamicAuthorizations.FirstWriterWins | ev-server-2.6.1/src/authorization/AuthorizationsDefinition.ts:1548-1582 | Over any list of grant conditions, each of filters, assertions and metadata gets the first value given, unless it was set before; then it keeps what it had, or gets the empty value |
| DynamicAuthorizations.FirstFiltersWin | ev-server-2.6.1/src/authorization/AuthorizationsDefinition.ts:1553-1562 | Unless they were set before, filters end up as the filters of the first grant in the list that gives any |
| DynamicAuthorizations.FirstAssertsWin | ev-server-2.6.1/src/authorization/AuthorizationsDefinition.ts:1563-1571 | So do assertions, as the assertions of the first that gives any |
| DynamicAuthorizations.FirstMetadataWins | ev-server-2.6.1/src/authorization/AuthorizationsDefinition.ts:1572-1579 | and metadata |
| DynamicAuthorizations.FiltersStay | ev-server-2.6.1/src/authorization/AuthorizationsDefinition.ts:1553-1562 | Filters that were set before, or that no grant gives, are left, or become the empty list if they are missing, false or empty text |
| DynamicAuthorizations.AssertsStay | ev-server-2.6.1/src/authorization/AuthorizationsDefinition.ts:1563-1571 | So are assertions |
| DynamicAuthorizations.MetadataStays | ev-server-2.6.1/src/authorization/AuthorizationsDefinition.ts:1572-1579 | and metadata, with the empty object |
| DynamicAuthorizations.ConditionedSlot | ev-server-2.6.1/src/authorization/AuthorizationsDefinition.ts:1553-1580 | One condition treats filters, assertions and metadata independently |
| DynamicAuthorizations.UntouchedExactlyWhenSettled | ev-server-2.6.1/src/authorization/AuthorizationsDefinition.ts:1548-1582 | A list of conditions leaves a context as it is if and only if it is empty, or filters, assertions and metadata are all there and each is set already or given by no condition |
| DynamicAuthorizations.NoneRemoved | ev-server-2.6.1/src/authorization/AuthorizationsDefinition.ts:1548-1582 | No property is ever removed |
| DynamicAuthorizations.OthersKept | ev-server-2.6.1/src/authorization/AuthorizationsDefinition.ts:1548-1582 | Properties other than those six are left alone |
| AuthorizationSessions.SameKeyExactlyWhenAlike | ev-server-2.6.1/src/authorization/AuthorizationsManager.ts:87 | For names without the separators, two requests have the same cache key if and only if they agree in resource, action and context content and their roles are the same list, or the empty list and the list of one empty name |
| AuthorizationSessions.RolesPrintAlike | ev-server-2.6.1/src/authorization/AuthorizationsManager.ts:87 | Lists of roles without commas print alike exactly when they are equal, or are the empty list and the list of one empty name |
| AuthorizationSessions.AskAnswers | ev-server-2.6.1/src/authorization/AuthorizationsManager.ts:85-114 | For any names at all, on a cache that is right: a call is answered as the uncached evaluation of the request first made under the same key, and what that made of its context is added to the caller's |
| AuthorizationSessions.ResultIsShared | ev-server-2.6.1/src/authorization/AuthorizationsManager.ts:91-105 | A call that finds nothing under its key leaves its own context object there: later calls under the key return that result, and add to their contexts what is in that object by then |
| AuthorizationSessions.StaysRightExactlyWhen | ev-server-2.6.1/src/authorization/AuthorizationsManager.ts:91-105 | A call leaves all cached results right if and only if no result refers to the caller's context object, or nothing in it changes; exactly if one does not stay right, the next request equal to the one first made under some key is left with another context than the uncached evaluation leaves |
| AuthorizationSessions.MisservedExactlyWhenAsked | ev-server-2.6.1/src/authorization/AuthorizationsManager.ts:100-105 | A key is called misserved exactly when a call that makes its first request again ends with another context than the uncached evaluation |
| AuthorizationSessions.FirstIsOwn | ev-server-2.6.1/src/authorization/AuthorizationsManager.ts:87-89 | With plain names, the request first made under a key is the request itself |
| AuthorizationSessions.HarmlessExactlyWhenSettled | ev-server-2.6.1/src/authorization/AuthorizationsDefinition.ts:1548-1582 | The conditions of a request leave its context alone if and only if filters, assertions and metadata are settled in it |
| AuthorizationSessions.PlainAnswers | ev-server-2.6.1/src/authorization/AuthorizationsManager.ts:85-114 | With plain names, on a cache that is right: same verdict, fields and contexts as without any cache |
| AuthorizationSessions.StaysRightExactlyWhenFit | ev-server-2.6.1/src/authorization/AuthorizationsManager.ts:85-114 | With plain names, the cache stays right, and no later request is misserved, if and only if at the time of the call no cached result refers to the caller's object, or its filters, assertions and metadata are settled |
| AuthorizationSessions.FitCallsAsDirect | ev-server-2.6.1/src/authorization/AuthorizationsManager.ts:85-114 | Over any sequence of calls with plain names that pass any contexts any number of times, each fit in that sense at its own time, all answers and all contexts are those of evaluations without a cache |
| AuthorizationSessions.ServesAllAlongExactlyWhenFit | ev-server-2.6.1/src/authorization/AuthorizationsManager.ts:85-114 | Over any such sequence, no request is misserved after any call if and only if every call is fit at its own time |
| AuthorizationsManager.AuthorizationsManager.RunConditions | ev-server-2.6.1/src/authorization/AuthorizationsManager.ts:91 | Running the conditions one by one in the caller's context gives what the uncached evaluation makes of it |
| AuthorizationsManager.AuthorizationsManager.CopyInto | ev-server-2.6.1/src/authorization/AuthorizationsManager.ts:101-104 | Copying property by property overwrites exactly the properties of the source, also when both are one object |
| AuthorizationsManager.AuthorizationsManager.CanPerformAction | ev-server-2.6.1/src/authorization/AuthorizationsManager.ts:85-114 | One call on context objects, shared or not, takes exactly the step of the session that the statements above are about |
| AuthorizationsManager.AuthorizationsManager.ServeAll | ev-server-2.6.1/src/authorization/AuthorizationsManager.ts:85-114 | Any sequence of calls with plain names on any context objects, each fit at its own time, is answered, and leaves all contexts, as without the cache |
| EvseId.ParseBuilt | ev-server-2.6.1/src/utils/RoamingUtils.ts:9-25 | Reading a printed identifier gives country and party in upper case and the connector's decimal, from which its number is recovered, for any station id at all |
| EvseId.SameIdExactlyWhen | ev-server-2.6.1/src/utils/RoamingUtils.ts:9-13 | Two printed identifiers are the same if and only if country and party agree up to case, the connectors are the same, and the stations leave the same part behind |
| EvseId.StationsCanClash | ev-server-2.6.1/src/utils/RoamingUtils.ts:16-18 | Two different stations can leave the same part behind |
| EvseId.BuiltShape | ev-server-2.6.1/src/utils/RoamingUtils.ts:9-13 | For any arguments, the identifier is over A-Z, 0-9 and the star, with no two stars together |
| EvseId.BuiltLetters | ev-server-2.6.1/src/utils/RoamingUtils.ts:9-13 | For any arguments, its letters and digits are those of country, party, E, station and the connector's numeral, in order and in upper case; none is lost or added |
| EvseId.RunIsOneStar | ev-server-2.6.1/src/utils/RoamingUtils.ts:12 | Every longest run of other characters is printed as one star |
| EvseId.ParsePlain | ev-server-2.6.1/src/utils/RoamingUtils.ts:15-25 | What holds no star is read as country and connector alike, with no party |
| Strings.UpperIs | ev-server-2.6.1/src/utils/RoamingUtils.ts:12 | Upper-casing changes the case of letters only, leaves no small letter, and makes two texts equal exactly when they agree up to case |
| Strings.LowerIs | ev-server-2.6.1/src/locking/LockingManager.ts:116 | So does lower-casing, which leaves no capital |
| EvseId.BuiltAs | ev-server-2.6.1/src/utils/RoamingUtils.ts:9-13 | The identifier is country, party, the station's part and the connector, each unaffected by the others |
| ChargePointRatings.ConnectorsAddUp | ev-server-2.6.1/src/utils/Utils.ts:789-828 | When ratings are positive and split evenly over disjoint connector lists, the connectors of a charge point add up to its rating, asked for with all others or alone; so for amperage, and so for power |
| ChargePointRatings.StationIsItsConnectors | ev-server-2.6.1/src/utils/Utils.ts:623-657 | The connectors of all charge points add up to the value of the station as a whole |
| ChargePointRatings.PointInSum | ev-server-2.6.1/src/utils/Utils.ts:789-800 | A charge point adds its own amperage, or its own power, wherever it stands in the list, if it is asked for |
| ChargePointRatings.ConnectorInSum | ev-server-2.6.1/src/utils/Utils.ts:815-825 | So does a connector |
| ChargePointRatings.WholeIsSum | ev-server-2.6.1/src/utils/Utils.ts:789-828 | The whole is rated at the sum over what is asked for or, if that is nothing, over all connectors |
| ChargePointRatings.ConnectorIsTold | ev-server-2.6.1/src/utils/Utils.ts:796-812 | A connector is rated by the first charge point asked for that has it and a rating: where connectors cannot charge together or share, at its own rating or else the whole one; otherwise at an even part |
| ChargePointRatings.ConnectorTellsItself | ev-server-2.6.1/src/utils/Utils.ts:814-825 | If no charge point tells, at the first rating of a connector of its number, or nothing |
| ChargePointRatings.VoltageIs | ev-server-2.6.1/src/utils/Utils.ts:709-750 | The voltage is that of the station; else at the first charge point that tells one, the connector's own or else the point's; else that of the first connector that tells one; else 230 |
| ChargePointRatings.FirstIsFound | ev-server-2.6.1/src/utils/Utils.ts:586-591 | The connector found by its number is the first of that number |
| ChargePointRatings.LimitIsTheSum | ev-server-2.6.1/src/utils/Utils.ts:839-878 | When the limits of what is asked for fit the shares and add up to more than nothing, the limit is exactly their sum: the cut at the rating never applies |
| ChargePointRatings.ConnectorLimitIs | ev-server-2.6.1/src/utils/Utils.ts:839-843 | A connector's limit is that of the first of its number, and no number if there is none or it is not set |
| ChargePointRatings.PointInLimits | ev-server-2.6.1/src/utils/Utils.ts:844-865 | Limits add up over charge points; one adds nothing if it is not asked for or excluded, its first connector's limit if connectors cannot charge together or share, else all of theirs |
| ChargePointRatings.NumberInLimits | ev-server-2.6.1/src/utils/Utils.ts:858-862 | which add up over the connector numbers of the charge point |
| ChargePointRatings.ConnectorInLimits | ev-server-2.6.1/src/utils/Utils.ts:866-870 | Limits add up over connectors |
| ChargePointRatings.WholeLimitIs | ev-server-2.6.1/src/utils/Utils.ts:839-878 | The limit of the whole is no number if one that counts is missing; else the sum, taken over connectors if that of the charge points is nothing; and the rating where the sum is nothing or more than that |
| ChargePointRatings.LimitOf | ev-server-2.6.1/src/utils/Utils.ts:871-877 | A limit of the whole that is a number never exceeds the rating |
| ChargePointRatings.ConnectorFromID | ev-server-2.6.1/src/utils/Utils.ts:586-591 | Finds a connector with the id, or there is none |
| ChargePointRatings.GetRating | ev-server-2.6.1/src/utils/Utils.ts:789-828 | The loops with early returns compute: for a connector, its share of the first charge point that serves it, else its own rating; for the whole, the sum of charge points, else of connectors |
| ChargePointRatings.GetAtConnectors | ev-server-2.6.1/src/utils/Utils.ts:814-825 | The loop at connector level |
| ChargePointRatings.GetVoltage | ev-server-2.6.1/src/utils/Utils.ts:709-750 | The scan of station, charge points and connectors computes the first voltage told, or the default |
| ChargePointRatings.VoltageOf | ev-server-2.6.1/src/utils/Utils.ts:709-750 | A voltage is never zero |
| ChargePointRatings.GetPower | ev-server-2.6.1/src/utils/Utils.ts:623-669 | The rated power, or voltage times amperage where none is rated |
| ChargePointRatings.GetAmperageLimit | ev-server-2.6.1/src/utils/Utils.ts:839-878 | The nested loops compute the sum of the limits that count, cut at the rating; one missing limit makes the sum no number |
| Anonymizer.AlikeSame | ev-server-2.6.1/src/utils/Logging.ts:935-998 | Non-interference: two messages of the same shape that differ only under sensitive keys, in values of sensitive query parameters, or in texts that both mention a sensitive word, anonymize to the same message |
| Anonymizer.ValueLeavesNoTrace | ev-server-2.6.1/src/utils/Logging.ts:949-965 | No character of the value of a sensitive query parameter comes through |
| Anonymizer.TextIsClean | ev-server-2.6.1/src/utils/Logging.ts:946-975 | Each part of a query string is kept as it is, or, if its name starts with a sensitive word, cut before its value and marked at its end; another text is kept, or is the mark if it mentions a word |
| Anonymizer.AnonymizedIsClean | ev-server-2.6.1/src/utils/Logging.ts:935-998 | In the result every sensitive key holds the mark, every part of a query string whose name is sensitive ends in the mark, and no other text mentions a word; keys, their order, array lengths, what is under the exception keys and all other texts are kept |
| Anonymizer.CutKeepsName | ev-server-2.6.1/src/utils/Logging.ts:957-962 | What is kept of a cut part ends at the latest one character after its name |
| Anonymizer.CutIs | ev-server-2.6.1/src/utils/Logging.ts:957-962 | What is kept of a cut part ends exactly one character after the first place where the word stands, in either case |
| Anonymizer.NamedByWord | ev-server-2.6.1/src/utils/Logging.ts:949-963 | A parameter whose name is a word, in either case, keeps its name and its equals sign and nothing of its value |
| Anonymizer.ParamKeyIs | ev-server-2.6.1/src/utils/Logging.ts:951-953 | The name of a parameter is what stands before the equals sign, between the first question mark and the second if there are any |
| Anonymizer.StartsExactlyWhen | ev-server-2.6.1/src/utils/Logging.ts:955 | The test of names is for the letters of a word at the beginning, in either case |
| Anonymizer.MentionsExactlyWhen | ev-server-2.6.1/src/utils/Logging.ts:967-972 | The test of texts is for the letters of a word anywhere, in either case |
| Anonymizer.SensitiveExactlyWhen | ev-server-2.6.1/src/utils/Logging.ts:990 | The test of keys is for exactly the letters of a word, in either case |
| Anonymizer.ServerWords | ev-server-2.6.1/src/utils/Constants.ts:316-323 | The server's words are the personal ones and those of credentials; the exception keys are error and stack |
| Anonymizer.PersonalWords | ev-server-2.6.1/src/utils/Constants.ts:320-321 | The personal words |
| Anonymizer.CredentialWords | ev-server-2.6.1/src/utils/Constants.ts:322 | The words of credentials |
| Anonymizer.WordAtPosition | ev-server-2.6.1/src/utils/Logging.ts:960 | The search finds the word where it says |
| Anonymizer.KeyIsMentioned | ev-server-2.6.1/src/utils/Logging.ts:954-962 | The search for a sensitive word that a parameter's name starts with always finds it |
| Anonymizer.AnonymizePart | ev-server-2.6.1/src/utils/Logging.ts:955-963 | The loop over the words keeps the last match |
| Anonymizer.AnonymizeText | ev-server-2.6.1/src/utils/Logging.ts:946-975 | The loops over parts and words compute the specified text |
| Anonymizer.AnonymizeMessage | ev-server-2.6.1/src/utils/Logging.ts:935-998 | The recursive loops compute the specified message, and terminate |
| Anonymizer.AnonymizeField | ev-server-2.6.1/src/utils/Logging.ts:984-994 | The exception keys come before the sensitive ones, and only other values are anonymized themselves |
| Anonymizer.AnonymizeSensitiveData | ev-server-2.6.1/src/utils/Logging.ts:935-998 | With the server's own list of words: the specified message, clean and kept as above |
| NotificationThrottle.CheckedSaveKeepsSpacing | ev-server-2.6.1/src/notification/NotificationHandler.ts:467-480 | When the check saw only the first entries of what is there at the save, spacing is kept if and only if nothing near was saved in between; with nothing in between it always is |
| NotificationThrottle.SendingKeepsSpacing | ev-server-2.6.1/src/notification/NotificationHandler.ts:54-75 | A notification that goes out keeps spacing if and only if its query did not fail, or its guard would have passed all the same |
| NotificationThrottle.GoesExactlyWhen | ev-server-2.6.1/src/notification/NotificationHandler.ts:464-492 | A notification goes out if and only if its channel is on, its identifier is free over it, and it has no interval, or the query fails, or all that is saved is older than the interval or differs in channel, source, the named charging station, the named user or the asked-for data; what went to others never holds it back |
| NotificationThrottle.SameAddresseeFarApart | ev-server-2.6.1/src/notification/NotificationHandler.ts:467-480 | In a spaced log, two notifications for the same channel, source, station and user, the later guarded, are more than the guard's interval apart |
| NotificationThrottle.RaceSendsTwice | ev-server-2.6.1/src/notification/NotificationHandler.ts:467-480 | Two servers that both check before either saves both send |
| NotificationThrottle.NotificationHandler.GetNotificationsCount | ev-server-2.6.1/src/storage/mongodb/NotificationStorage.ts:15-80 | The count is positive exactly when a saved notification matches from the given time on |
| NotificationThrottle.NotificationHandler.HasNotifiedSource | ev-server-2.6.1/src/notification/NotificationHandler.ts:54-75 | False without an interval, no answer when the query fails, else whether something near is saved |
| NotificationThrottle.NotificationHandler.SaveNotification | ev-server-2.6.1/src/storage/mongodb/NotificationStorage.ts:122-139 | Appends, unless there is one with the same source identifier and channel |
| NotificationThrottle.NotificationHandler.Notify | ev-server-2.6.1/src/notification/NotificationHandler.ts:464-492 | Goes out exactly when the channel is on, nothing near was found or the query failed, and the identifier is free; exactly then it is saved |
| NotificationThrottle.RunStaysSpaced | ev-server-2.6.1/src/notification/NotificationHandler.ts:464-492 | Over any sequential run of notifications from any senders, none of whose guard queries fails, the log stays spaced |
| NotificationThrottle.NotificationHandler.NotifyAll | ev-server-2.6.1/src/notification/NotificationHandler.ts:464-492 | The log and what goes out are those of the specified run |
| RemoteAuthorizations.ChargingStation.FindAuthorization | ev-server-2.6.1/src/authorization/Authorizations.ts:928-962 | The backward loop with removals returns the id of the last entry valid for the tag when looked at, leaves the specified list, and saves exactly when something was removed |
| RemoteAuthorizations.ChargingStation.Scan | ev-server-2.6.1/src/authorization/Authorizations.ts:932-954 | The loop stops at the last entry valid for the tag when looked at, having removed exactly the invalid ones above it, and tells whether there were any |
| RemoteAuthorizations.LeftHoldsWhatStays | ev-server-2.6.1/src/authorization/Authorizations.ts:932-954 | The list left holds exactly the entries up to the one found and the valid ones above it, each once and in order; if none is found, exactly the valid ones |
| RemoteAuthorizations.FoundIsYoung | ev-server-2.6.1/src/server/ocpi/OCPIUtils.ts:159-162 | What is found is the last entry for the tag that is less than two minutes old when looked at; above it exactly those that old stay |
| RemoteAuthorizations.AsLongExactlyWhenAllStay | ev-server-2.6.1/src/authorization/Authorizations.ts:948-953 | Nothing is removed exactly when every entry stays |
| RemoteAuthorizations.ScannedIs | ev-server-2.6.1/src/authorization/Authorizations.ts:932-954 | The list as repeated removals leave it is the front of the list and the valid entries after it |
| EmptyLines.Lines.RemoveExtraEmptyLines | ev-server-2.6.1/src/utils/Utils.ts:489-503 | The in-place backward loop computes the specified list, with every index in range |
| EmptyLines.CleanedKeeps | ev-server-2.6.1/src/utils/Utils.ts:489-503 | Non-empty lines keep their order, no two empty lines are left together, a second removal changes nothing; and the removal is collapsing runs and dropping a leading empty line if and only if the list is not one empty line |
| EmptyLines.RunBecomesOne | ev-server-2.6.1/src/utils/Utils.ts:489-503 | Each longest run of empty lines becomes one, wherever it stands, and all other lines stay |
| EmptyLines.CleanedIs | ev-server-2.6.1/src/utils/Utils.ts:489-503 | A leading run goes altogether, from any list of two lines or more |
| EmptyLines.RoundCollapses | ev-server-2.6.1/src/utils/Utils.ts:491-501 | Each round brings what is collapsed one line further to the front, and the last one drops a leading empty line |
| ConnectorStats.GetConnectorStatuses | ev-server-2.6.1/src/utils/Utils.ts:304-373 | The loops compute the specified counts of chargers, available chargers, connectors and buckets |
| ConnectorStats.BucketsAddUp | ev-server-2.6.1/src/utils/Utils.ts:323-354 | The connectors are those in the seven buckets and those whose status has none |
| ConnectorStats.OneStation | ev-server-2.6.1/src/utils/Utils.ts:319-369 | A deleted station counts for nothing; another is one charger, available if it is active and some connector is; its connectors are those there are, each counted by its status, or as unavailable if the station is inactive |
| ConnectorStats.AvailableAtMost | ev-server-2.6.1/src/utils/Utils.ts:356-366 | There are at most as many available chargers as chargers, and as available connectors |
| ConnectorStats.StatsAddUp | ev-server-2.6.1/src/utils/Utils.ts:304-373 | All counts are additive over lists put together |

## Left out

- Express, WebSocket, OCPP, OCPI and OICP servers, MongoDB access beyond the atomic actions above, email and push
  sending, and the dashboard: input and output.
- `getScopes`, `can`, configuration getters, factories and URL builders: they pass on what a library or a file says.
- `createLock`'s check of a missing entity and `acquire`'s of the lock type: both are enumerations here, and there is
  one lock type.
- An exception of the access-control library, and the freezing of cached results: the library is taken not to fail.
- AuthorizationsManager.AuthorizationsManager.CanPerformAction: a call is one step; calls that interleave while the
  library decides on one are not modelled.
- Asynchronous work over leases as one step system: it is composed with an exclusive lock only.
- Order of a context's keys in the cache key, and properties whose value is `undefined`: contexts are maps.
- Keys with dots, sensitive paths that end inside a string, and a non-empty array as the value at a sensitive path
  (which the cipher refuses): keys are whole, and what is no text is skipped. An absent and an empty
  `backupSensitiveData` differ only before the rotation, where they count as the same.
- `hashSensitiveDataInJSON`, bcrypt and random ids: no property beyond the library's.
- Anonymizer.AnonymizeSensitiveData: works on values, so objects that a message holds twice, or that the caller keeps,
  are not seen as shared; and the branch for WebSocket URLs, a stateful regular expression, is not modelled.
- Anonymizer.AnonymizeText: does not have the branch for WebSocket URLs either.
- LockingManager.LockingManager.GetLock: reads from a secondary that lags behind the last write are not modelled.
- MigrationProtocol.RunsOnlyWhenDue: neither are they here; over a log read from one, a recorded migration could run.
- SensitiveData.DecryptUndoesEncrypt: documents are those of the item on keys with dots and paths above.
- LockingManager.LockingManager.RunHooks: a hook is time in which others act, and whether it fails.
- ChargePointRatings.GetRating: gaps in connector lists are not modelled; the source's loop at connector level fails on
  them.
- ChargePointRatings.GetAtConnectors: likewise.
- ConnectorStats.GetConnectorStatuses: counts are kept in one map with a key per bucket instead of one field each.
- Billing notifications that query by source id and save under a timestamp: no spacing is claimed for them.
- `Number` rounding, `getChargingStationAmperagePerPhase` and phases: floating point.
