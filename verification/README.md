# Verified models of oxios

Dafny models of the stateful cores of the oxios daemon, and proofs about every run,
every crash point and every input of them. Each core is modelled twice: as a function
on values, about which the theorems are stated, and, where the program changes state
step by step, as a class or loop whose methods are proved to do what that function says.

| core | files |
|---|---|
| Runtime task supervisor, guardian heartbeat, watchdog | `RestartPolicy`, `Supervisor`, `SupervisorRuns`, `Guardian` |
| Managed version store: install, flip, prune, rollback | `VersionNames`, `VersionStore`, `PruneRule`, `StoreOps` |
| PATH shadows: audit, plan, migration | `ShadowAudit`, `Migration` |
| Knowledge auto-commit: vault, event queue, git HEAD | `KnowledgeGit` |
| HTTP-to-gateway correlation | `Bridge` |
| Token bucket of the HTTP API | `CreditBucket`, `RateLimiter` |
| Chat file parser and printer | `ChatText`, `ChatFormat`, `ChatFiles` |
| Web-dist sync and the active pointer | `WebDist` |
| Dotted-key configuration | `ConfigTree` |

`Options` and `Strings` hold what they share. `dafny verify dfyconfig.toml` checks
everything.

## How the environment enters

Time is a parameter (nanoseconds in the supervisor, seconds over the reals in the
limiter). A file-system call may fail at any moment (`Granted` in `StoreOps` and
`Migration`), which is counted, so the contracts also say that an operation that can
go through does when no call fails. Every intermediate state is recorded, so a property
of `history` is a property of every crash point. Concurrency is an arbitrary sequence of atomic steps. Downloads,
archives, HTTP answers, directory order and the scheduler are inputs, so the theorems
hold for all of them.

## Where the code does less than its documentation

These are proved as lemmas with concrete runs, next to the exact condition under which
the promise holds.

- The watchdog comments speak of three missed guardian cycles. `StaleExactlyWhen` says
  for every history when a heartbeat is stale: with no tick abandoned never, with one
  exactly past 120 s in the next tick, with two always (`NoMissedTick`, `OneMissedTick`,
  `TwoMissedTicks`).
- The watchdog timer is rebuilt on every turn of the select loop. With any bound on how
  long a restart takes, a web surface that crashes once a minute can keep it from ever
  firing if and only if either a stable minute refills the budget and the first backoff
  fits in a turn, or the retry counter wraps and even the longest backoff fits
  (`StarvedIffStarvable`). The default policy is not of that kind. The restart is awaited
  inside the turn, though: with no bound on it one crash is enough under any policy that
  restarts a first failure within a minute (`StarvedBySlowRestartsIff`), and the default
  policy does (`DefaultPolicyIsSound`).
- `max_retries == u32::MAX` never escalates, since the counter wraps
  (`UncountableNeverEscalates`).
- A rollback skips directory entries that cannot be read without a word, so it may go
  further back than one version, or find none (`Rollback`).
- A version directory left without a binary by a refused archive is a rollback target
  (`EmptyVersionDirBreaksRollback`, `RollbackAfterRefusedInstall`).
- A regular file at a `.pre-oxios` name is lost in a migration, and only such a file
  (`ApplyPlan`, `Migrate`).
- The event of a rename is addressed to the old name, so handling it does not commit the
  new one (`RenameLeavesNewNameBehind`). It takes the vault watcher, which announces the
  renamed file as an update of its own, to bring HEAD in line (`WatcherSettlesTheRename`);
  without the watcher the new name stays behind until it is written again. One spawned
  task per event can deliver a deletion after a later write (`OvertakenDeletion`), and
  reconcile never forgets a deleted file (`ReconcileRepairsFilesNotDeletions`).
- The deadline of `send_and_wait` starts only after the send into the bounded gateway
  queue. While that queue is full and the gateway does not receive, a caller hangs with
  its entry in the map (`BlockedStaysBlocked`, `FullQueueBlocks`); this is the one place
  where it can (`ProgressUnlessBlocked`, `DeadlineReturns`).
- Two callers under one id take each other down (`SharedIdLosesBoth`).
- A failed enqueue is counted nowhere although the counter has an arm for it
  (`SendFailedIsNotCounted`).
- `publish` schedules the removal of the previous generation even if that is the
  directory just published, or one that comes back within the grace period
  (`SelfHealIsUndone`, `PublishDeletesItself`); and the command line compares with the
  marker, not with what a running daemon serves (`TwoPinsClearTheServedDist`).
- A configuration name with a dot in it can be listed under another value's key
  (`DottedNameMisleads`).
- A chat entry with two spaces after its marker changes when it is saved and read again
  (`TwoSpacesHideAStamp`).

## Model

| member | source | states |
|---|---|---|
| `RestartPolicy.BackoffClosedForm` | src/supervisor.rs:476-482 | The saturating code computes `min(max, initial * 2^(n-1))` for every u32 attempt if and only if `max <= initial * (2^32 - 1)` or the initial backoff is zero |
| `RestartPolicy.BackoffMonotone` | src/supervisor.rs:477-482 | More failures never mean a shorter wait, and no wait exceeds the cap |
| `Supervisor.TaskSupervisor.TrackWeb` | src/supervisor.rs:226-233 | Tracking the web surface starts a fresh budget and adds one live task, leaving everything else |
| `Supervisor.TaskSupervisor.CompleteTask` | src/supervisor.rs:358-419 | The in-place completion handler does what `OnCompletion` says to the whole state and returns its outcome |
| `Supervisor.TaskSupervisor.RestartWeb` | src/supervisor.rs:421-473 | The in-place restart handler does what `FireWebRestart` says to the whole state and returns its outcome |
| `Supervisor.TaskSupervisor.TakeTurn` | src/supervisor.rs:268-336 | One turn of the select loop is one `Step` of the state machine the run theorems are about |
| `Supervisor.TaskSupervisor.Watch` | src/supervisor.rs:268-336 | The loop ends in the last state of the run its turns describe |
| `Supervisor.TaskSupervisor.Run` | src/supervisor.rs:255-263 | Supervising and then draining, for graceful and fatal exits alike; an abort drains nothing |
| `Supervisor.Boot` | src/main.rs:3399-3444 | The wiring at start-up yields the state all runs start from: one web surface, every other task critical, the guardian watched, the gateway stop registered |
| `SupervisorRuns.ExactlyOneWeb` | src/supervisor.rs:342-473 | In every running state of every run exactly one of a live web task and a pending restart exists, the budget is not overdrawn, web state is present, and neither "missing web state" arm is reached |
| `SupervisorRuns.CriticalDeathIsFatal` | src/supervisor.rs:358-373 | A critical completion is the last turn of its run and ends it fatally under that task's name |
| `SupervisorRuns.ExitDrainsOnce` | src/supervisor.rs:342-355 | After any run draining has cancelled the root token and stopped the gateway exactly once, and draining again changes nothing |
| `SupervisorRuns.AmortisedRestartBound` | src/supervisor.rs:387-416 | In every running state the web failures so far are at most `max_retries * (1 + T / reset_after)` for the elapsed time T |
| `SupervisorRuns.UncountableNeverEscalates` | src/supervisor.rs:394-403 | With `max_retries == u32::MAX` no run ends in a web failure, however often the web surface fails |
| `SupervisorRuns.WindowFailuresAreCharged` | src/supervisor.rs:387-469 | From any failure that starts counting afresh, and as long as no stable interval follows, the counter equals the failures since, and the run is fatal exactly when they exceed the budget |
| `SupervisorRuns.EscalatesExactlyWhenSpent` | src/supervisor.rs:387-469 | Wherever in a run a crash loop begins: with no stable interval in between, the fatal exit comes on exactly the (max_retries+1)-th consecutive failure and no earlier than the first of them plus all backoffs |
| `SupervisorRuns.EveryFailureHasAWindow` | src/supervisor.rs:387-392 | Every failure belongs to such a loop, beginning at the last refill before it or at the first failure of the run |
| `SupervisorRuns.RunsEndExactlyWhen` | src/supervisor.rs:268-473 | How every run ends is decided by its last turn: gracefully exactly on Ctrl-C or a cancelled root token; fatally under a name exactly when the critical task of that name completed or, as `web`, a web failure exceeded its window's budget, with that reason; aborted exactly when a check finds a stale heartbeat |
| `Guardian.GuardianLoop.Loop` | src/kernel.rs:717-750 | After n cycles clock and heartbeat hold what the cycles' sleeps and ticks determine |
| `Guardian.HeartbeatAge` | src/kernel.rs:717-750 | When every tick beats its timeout, a check never sees a heartbeat older than 480 s plus how late the sleeps return |
| `Guardian.StaleExactlyWhen` | src/supervisor.rs:312-333 | For every history of cycles: after k abandoned ticks the heartbeat is stale exactly from 900 - 480*k seconds after the cycle began, less the lateness of the abandoned cycles |
| `Guardian.SomeNumberMissed` | src/kernel.rs:730-750 | Before every cycle some number of ticks, since the last stored heartbeat or boot, was abandoned |
| `Guardian.NoMissedTick` | src/supervisor.rs:312-333 | With no tick abandoned and a sleep at most 420 s late no moment of a cycle is stale |
| `Guardian.OneMissedTick` | src/supervisor.rs:242-248 | With one tick abandoned, anywhere in a history, and punctual sleeps the heartbeat is stale exactly past 120 s in the next tick |
| `Guardian.TwoMissedTicks` | src/supervisor.rs:242-248 | With two or more ticks abandoned every moment of the next cycle is stale |
| `Guardian.LastMomentDecides` | src/supervisor.rs:312-333 | A cycle has a stale moment if and only if its last moment is stale |
| `Guardian.SecsAreWhole` | src/supervisor.rs:53-59 | The heartbeat arithmetic counts whole seconds, cut down |
| `Watchdog.CheckAbortsExactlyWhen` | src/supervisor.rs:312-333 | In any run and for any guardian history, a check aborts the process if and only if the heartbeat is stale by that formula |
| `Watchdog.NoFalseAlarm` | src/supervisor.rs:312-333 | A punctual guardian (sleeps at most 420 s late) is never taken for dead, in any run |
| `Watchdog.AbortIsAMinutePerTurn` | src/supervisor.rs:269-333 | Once the heartbeat is stale for good, the check that aborts comes at most `60*(k+1)` s later, k turns being ended by other branches, for any restart policy |
| `Watchdog.StaleHeartbeatEndsTheProcess` | src/supervisor.rs:269-333 | For every policy that is not starvable the process is gone by a deadline that depends on the policy alone, whatever the web surface does |
| `Watchdog.StarvableNeverChecks` | src/supervisor.rs:269-333 | For a starvable policy there is a run of k minutes without a single check, for every k |
| `Watchdog.StarvedIffStarvable` | src/supervisor.rs:269-333 | For every policy and every bound on the time a restart takes: a booted supervisor can be kept from checking arbitrarily long if and only if the policy is starvable |
| `Watchdog.StarvedBySlowRestartsIff` | src/supervisor.rs:421-473 | With no bound on that time: if and only if a first failure is restarted at all, and within a minute |
| `Watchdog.DefaultPolicyIsSound` | src/supervisor.rs:85-105 | The default policy can be counted, backs off as documented, cannot starve the watchdog while restarts take bounded time, and can once they do not |
| `VersionNames.RenderRoundTrip` | src/managed_install.rs:110-119 | Parsing the canonical spelling of a version gives that version back |
| `VersionNames.SpellingsCollide` | src/managed_install.rs:110-119 | The parser is not injective: two directory names can spell one version |
| `VersionNames.ParsesExactly` | src/managed_install.rs:110-119 | A directory name is a version exactly when it is three u64 numbers with dots between them, each with a plus sign or none and any leading zeros; no suffix, missing or further part is accepted |
| `VersionNames.VersionLessIsNumeric` | src/managed_install.rs:276-337 | The order of versions is the order of the numbers with the three parts as digits to base 2^64, and different versions have different numbers |
| `VersionNames.NewerIsNumeric` | src/managed_install.rs:284-287 | Prune's order is that of these numbers, and between two spellings of one version the lexicographic order of the names |
| `VersionStore.CurrentTargetAfterFlip` | src/managed_install.rs:252-316 | After a flip to a string the launcher reports that string if and only if it parses as a version |
| `VersionStore.FlipLaunchesTarget` | src/managed_install.rs:252-270 | After a flip the launcher runs the target's bytes exactly when the target holds a 0755 binary |
| `VersionStore.RollbackPickUnique` | src/managed_install.rs:321-337 | The pick, a version with the largest number below the current one's, does not depend on the directory order, given distinct versions |
| `VersionStore.RollbackDescent` | src/managed_install.rs:321-337 | Repeated rollback descends strictly and takes exactly as many steps as there are lower versions |
| `VersionStore.OneVerdict` | src/managed_install.rs:208-238 | An archive has a sole binary, or is refused for exactly one of: nothing but noise, a first member that does not belong, a first member that does not decode |
| `StoreOps.Store.InstallVersionBytes` | src/managed_install.rs:187-245 | It goes through exactly when the name is a version, the archive has a sole binary (AppleDouble members aside) and no call fails; every state passed through differs in the temp file only or has the binary installed as 0755; each error says what was wrong |
| `StoreOps.Store.FlipLauncher` | src/managed_install.rs:252-270 | It goes through exactly when no call fails; in every state the launcher is the old one or the new symlink, never absent in between |
| `StoreOps.Store.PruneVersions` | src/managed_install.rs:276-300 | It goes through exactly when versions/ is there and no call fails; what remains is exactly what the numeric rank rule keeps, untouched, and what is returned is what was removed, newest first |
| `StoreOps.Store.RollbackTarget` | src/managed_install.rs:321-337 | The scan returns, of the entries the listing yields, one with the largest number below the current one's, or none if there is none |
| `StoreOps.Store.Rollback` | src/commands/update.rs:221-249 | It reports no previous version exactly when there is none listed, and goes through exactly when there is one and no call fails: the launcher moves to the pick and no version directory changes; it runs exactly when the pick holds a binary; on failure the launcher is as before |
| `StoreOps.Store.Update` | src/commands/update.rs:411-424 | From before install to after prune, a launcher that ran a complete 0755 binary runs that or the new one in every state, also when the live version is reinstalled; it goes through exactly when the install can and no call fails, and then the survivors are known exactly |
| `StoreOps.PrunedByRank` | src/managed_install.rs:276-300 | Sorting, skipping `keep` and sparing the launcher's target removes exactly the names that do not survive by rank |
| `StoreOps.EmptyVersionDirBreaksRollback` | src/managed_install.rs:199-337 | In every state a refused install can leave, the new directory, if next below the current version, is the one rollback target, and flipping onto it leaves a launcher that runs nothing |
| `StoreOps.RollbackAfterRefusedInstall` | src/commands/update.rs:221-249 | Whatever archive an install refuses, the rollback after it, if no call fails, goes to that version and leaves a launcher that runs nothing |
| `PruneRule.SortSorts` | src/managed_install.rs:284-288 | The sort puts the parsed names newest first and keeps them all |
| `PruneRule.RankIsNumeric` | src/managed_install.rs:276-300 | Without two spellings of one version the rank of a name counts the versions with a larger number |
| `PruneRule.SurvivorsAreFew` | src/managed_install.rs:276-300 | At most `keep + 1` versions survive |
| `PruneRule.PruneKeepsRollback` | src/managed_install.rs:276-337 | With the launcher on the newest version and `keep >= 2`, pruning changes no rollback pick |
| `ShadowAudit.Auditor.PushShadow` | src/managed_install.rs:673-728 | A candidate is reported once, never the launcher, never a canonical alias of it, and with what it is |
| `ShadowAudit.Auditor.AuditShadows` | src/managed_install.rs:606-662 | The audit reports exactly the reportable entries among the canonical names and what the PATH directories list, each once, whatever the order; a directory that cannot be read lists nothing |
| `ShadowAudit.KindsExactly` | src/managed_install.rs:630-656 | A name is the launcher's, a stale copy exactly if it is `oxios-`, a digit and anything, a backup exactly if a migration makes such names, and nothing to the audit otherwise, other tools of the release included |
| `ShadowAudit.AliasFollows` | src/managed_install.rs:673-728 | A canonical symlink is an alias exactly when it leads, over any symlinks, to the file the launcher leads to |
| `ShadowAudit.MigratedShadowsConverge` | src/managed_install.rs:673-728 | A canonical symlink a migration repointed is not reported by the next audit |
| `ShadowAudit.PlanRepoints` | src/managed_install.rs:606-777 | The plan made from an audit repoints exactly the reportable symlinks the audit looked at, and renames exactly the reportable files |
| `ShadowAudit.Migrate` | src/commands/update.rs:586-646 | Audit, plan and apply together finish whenever no call fails, with the entries that exactly that plan leaves; they keep every file's content when no regular file sits at the aside name of an entry to repoint, if they finish only then, and leave no canonical symlink to report |
| `Migration.PlanMigration` | src/managed_install.rs:753-777 | The loop computes the plan that splits the shadows in order |
| `Migration.PlanMembers` | src/managed_install.rs:753-777 | Symlinks and only symlinks are repointed; all other shadows and only those are renamed, to their own dated name |
| `Migration.PathEntries.Repoint` | src/commands/update.rs:629-635 | One round moves the entry aside and puts a link to the launcher in its place; at any failure only a regular file at the aside name can be missing |
| `Migration.PathEntries.RepointAll` | src/commands/update.rs:629-635 | The loop repoints all entries in order, gives up no regular file but those at aside names, and all canonical ones lead to the launcher |
| `Migration.PathEntries.PreserveAll` | src/commands/update.rs:636-646 | The loop renames in order, skipping names already taken, and keeps the multiset of contents even when one shadow's new name is another shadow |
| `Migration.PathEntries.ApplyPlan` | src/commands/update.rs:629-646 | It finishes whenever no call fails and the entries to rename are there; with no regular file at an aside name the multiset of file contents is unchanged, finished or not; a finished run keeps it if and only if that was so, and leaves exactly the entries the plan describes |
| `Migration.RepointedExactly` | src/commands/update.rs:629-635 | For entries none of which is another's aside: afterwards each is a symlink to the launcher, its aside name holds what it was, and nothing else has changed |
| `Migration.PreservedExactly` | src/commands/update.rs:636-646 | With all new names free each entry is moved to its own and nothing else changes |
| `Migration.ExistsFollows` | src/commands/update.rs:641-643 | A new name counts as taken exactly when its symlinks, 40 at most, end in a file |
| `KnowledgeGit.HeadAgreesOffTheQueue` | src/kernel.rs:2112-2163 | With in-order delivery, from any vault and any HEAD: on a name no queued event mentions and whose last change was announced, HEAD agrees if and only if it did at the start or some event for the name has been handled |
| `KnowledgeGit.QuiescentHeadIsVault` | src/kernel.rs:2112-2163 | An empty queue with every change announced means HEAD is the vault |
| `KnowledgeGit.AnyOrderAgreement` | src/kernel.rs:2112-2163 | With delivery in any order, from any vault and any HEAD: at quiescence HEAD agrees on an announced name if and only if something was handled for it, and not a deletion last of a name on disk, or nothing was and it agreed at the start |
| `KnowledgeGit.NeverDeletedAgrees` | src/kernel.rs:2112-2163 | With delivery in any order, for a name whose deletion was never announced, HEAD agrees at quiescence if and only if it did at the start or some event for it was handled |
| `KnowledgeGit.OvertakenDeletion` | src/kernel.rs:2112-2125 | A run in which a deletion is delivered after a later write and HEAD loses the file |
| `KnowledgeGit.RenameLeavesNewNameBehind` | src/kernel.rs:2149-2153 | From a settled vault, a rename whose event has been handled leaves an empty queue and a HEAD that has lost the old name and not gained the new one: it is the vault if and only if it held the renamed content there already |
| `KnowledgeGit.WatcherSettlesTheRename` | crates/oxios-markdown/src/watch.rs:160-178 | One event of the vault watcher for the new name, once handled, settles the vault again |
| `KnowledgeGit.AutoCommit.Consumer` | src/kernel.rs:2131-2163 | The consumer loop applies the received events in order to HEAD, or nothing when git is disabled |
| `KnowledgeGit.AutoCommit.Reconcile` | src/kernel.rs:2165-2191 | Reconcile leaves HEAD as it was, overridden by every file on disk |
| `KnowledgeGit.ReconcileRepairsFilesNotDeletions` | src/kernel.rs:2165-2191 | From any crash state reconcile makes HEAD agree on every file on disk, and equals the vault exactly when no committed file is gone |
| `KnowledgeGit.AgreementAfterRestart` | src/kernel.rs:2131-2191 | After any crash, a reconcile and any in-order run, HEAD agrees on an announced name off the queue unless a committed file was gone at the restart and nothing has been handled for it since |
| `KnowledgeGit.DrainIsConsumeAll` | src/kernel.rs:2131-2163 | Draining the queue step by step is an in-order run with the consumer loop's result |
| `Bridge.CorrelationIsSound` | src/api/bridge.rs:172-343 | In every interleaving with unique ids: a reply reaches only the caller with its id and at most one caller, a filled one-shot is never a timeout, stored senders belong to requests in flight, the map is empty once all returned, nobody sees a dropped channel, and the timeout counter counts the timeouts |
| `Bridge.SoundIffUniqueIds` | src/api/bridge.rs:298-327 | All of that holds after every interleaving if and only if the ids are unique |
| `Bridge.CountersCount` | src/api/bridge.rs:312-341 | Unique ids or not, in every interleaving from the start both counters equal the outcomes of their kind |
| `Bridge.ExactlyOneOutcome` | src/api/bridge.rs:292-343 | A caller that has returned keeps its outcome in every continuation |
| `Bridge.ProgressUnlessBlocked` | src/api/bridge.rs:292-343 | A caller that has not returned has a step of its own if and only if it is not waiting for room in a full queue; each of its steps brings it closer, and nobody else's step takes it back |
| `Bridge.BlockedStaysBlocked` | src/api/bridge.rs:310-314 | A caller that waits for room stays there through any continuation in which the gateway neither receives nor goes away, however long: no deadline covers the send |
| `Bridge.FullQueueBlocks` | src/api/bridge.rs:73-78 | For every capacity there is a run that fills the queue and leaves a caller waiting for room |
| `Bridge.ReceivingUnblocks` | src/api/bridge.rs:310-314 | In every interleaving one message received, or the receiver gone, lets a waiting send complete, into the queue or with an error |
| `Bridge.DeadlineReturns` | src/api/bridge.rs:316-331 | From the enqueue on the deadline covers a caller: a poll after it and a clean-up return it, whatever the others do before and in between |
| `Bridge.ListenerHearsFirst` | src/api/bridge.rs:172-187 | While a caller listens its one-shot holds the first reply under its id and no other, whatever else runs |
| `Bridge.WebBridge.Send` | src/api/bridge.rs:172-187 | Sending removes the id's sender and fills its one-shot if the caller still listens; nothing else changes |
| `Bridge.WebBridge.SendAndWait` | src/api/bridge.rs:292-343 | The caller has no outcome while its send waits on a full queue, and only then; otherwise it is the first reply under its id heard before the poll, else a timeout, or the send error if the receiver is gone, and its entry is gone from the map |
| `Bridge.SendFailedIsNotCounted` | src/api/bridge.rs:310-314 | A failed enqueue returns an error and moves no counter |
| `Bridge.SharedIdLosesBoth` | src/api/bridge.rs:298-327 | Two callers under one id both end with a dropped channel, with no deadline passed |
| `RateLimiter.RateLimiter.TryAcquire` | src/api/middleware.rs:55-73 | The in-place update is the refill-then-take of `Acquire`, and nothing at all when unlimited |
| `RateLimiter.RunRefines` | src/api/middleware.rs:55-73 | A run in seconds is a run of the rate-one bucket whose clock counts tokens earned, answer by answer |
| `RateLimiter.TokensStayInRange` | src/api/middleware.rs:40-73 | After any run the tokens lie between 0 and N |
| `RateLimiter.WindowBound` | src/api/middleware.rs:40-73 | Any window of d seconds of any run admits at most `N + d*N/60` requests |
| `RateLimiter.AdmittedIffNoWindowOverflows` | src/api/middleware.rs:40-73 | A request is admitted if and only if admitting it breaks that bound in no window ending at it |
| `RateLimiter.RefusedRequestsAreInvisible` | src/api/middleware.rs:59-72 | Deleting any refused requests from a run changes no other answer |
| `RateLimiter.SpacedRequestsPass` | src/api/middleware.rs:59-72 | A request at least `60/N` seconds after the one before is never refused |
| `RateLimiter.BurstIsExactlyN` | src/api/middleware.rs:40-73 | Of a burst on a fresh limiter exactly the first N are admitted |
| `RateLimiter.ZeroAdmitsAll` | src/api/middleware.rs:36-58 | A limit of zero admits everything and never touches the bucket |
| `CreditBucket.FoundIsTightestRoom` | src/api/middleware.rs:59-72 | What a request finds in the bucket is the tightest room any window ending at it leaves |
| `CreditBucket.RefusalLeavesNoTrace` | src/api/middleware.rs:63-72 | Lazy refill is a continuous bucket: a refused request changes the level at no later moment |
| `ChatFormat.RoundTripIffWellFormed` | share/knowledge/chat.js:123-236 | For every list that can be saved, parsing the saved file gives the records back, numbered and stably regrouped by date, if and only if each is well formed |
| `ChatFormat.SavedReadsBack` | share/knowledge/chat.js:123-236 | What comes back from any safe list, exactly: the same records regrouped, with a hidden timestamp split off |
| `ChatFormat.RegroupIsStable` | share/knowledge/chat.js:213-221 | Grouping by date loses, adds and duplicates nothing and keeps the order within every date |
| `ChatFormat.RegroupOrder` | share/knowledge/chat.js:213-236 | Dates come in the order of their first messages, except that those which read as array indices come before all others, by their number |
| `ChatFormat.ParsedIsSafe` | share/knowledge/chat.js:123-211 | Whatever the file holds, every message read from it has a text, timestamp and date that a file can hold |
| `ChatFormat.MoveKeepsTheRest` | share/knowledge/chat.js:414-420 | Moving a message out of any file, when saving does not throw, leaves exactly the records with a different text, if and only if none of those hides a timestamp |
| `ChatFormat.TwoSpacesHideAStamp` | share/knowledge/chat.js:123-236 | A file whose entry has two spaces before a timestamp parses with the stamp in the text; saved and parsed again, the stamp is a timestamp and the text is shorter |
| `ChatFormat.HiddenStampsExist` | share/knowledge/chat.js:174-192 | Such texts and dates exist |
| `ChatFormat.Chat.CutBlocks` | share/knowledge/chat.js:131-162 | The loop over the lines yields one trimmed block for each opening line with the lines up to the next |
| `ChatFormat.Chat.ReadBlocks` | share/knowledge/chat.js:164-208 | The loop over the blocks reads each under the date header before it and numbers it without the headers |
| `ChatFormat.Chat.ParseMessages` | share/knowledge/chat.js:123-211 | Normalising, cutting and reading together compute `Parse` |
| `ChatFormat.Chat.SaveMessages` | share/knowledge/chat.js:213-236 | Filing by date and printing group by group writes `Save`, or throws before it writes anything |
| `ChatFormat.Chat.MoveFromChat` | share/knowledge/chat.js:414-420 | Parse, filter and save write the remaining messages, and leave the file alone when saving throws |
| `ChatFiles.FileReads` | share/knowledge/chat.js:123-211 | A file of date headers and checklist lines as people write them says what its lines say, whether they end in LF, CR LF, some of each, or CR: a capital X is done, a line without a text is no entry but is counted, a date holds up to the next |
| `ChatFiles.SavedHeadersStandApart` | share/knowledge/chat.js:225-232 | A saved file has a blank line before every date header but the first |
| `ChatText.BlockAdds` | share/knowledge/chat.js:140-162 | An opening text with no second opening line, after complete lines, is read back as one block, trimmed |
| `ChatText.EndingsAreNewlines` | share/knowledge/chat.js:127-128 | CR LF, mixed and CR line endings are all read as line feeds |
| `WebDist.DaemonSyncDisturbs` | src/web_dist.rs:528-605 | At some step of a daemon sync a consistent served dist is not, exactly when it is downloaded into; that takes a stamp that is neither blank nor the directory's own version |
| `WebDist.DiskSyncDisturbs` | src/web_dist.rs:615-637 | A command-line sync disturbs what a daemon serves exactly when it downloads into that directory |
| `WebDist.SyncUpdatesIffOutdated` | src/web_dist.rs:528-605 | `Updated` comes out exactly when the served dist is outdated and a finished download is self-consistent, and then that very dist is served |
| `WebDist.SyncReports` | src/web_dist.rs:528-637 | For the daemon and the command line alike, when each outcome comes out: up to date, left unstamped, updated to which tag, and failed exactly when no tag resolved or a needed download did not deliver |
| `WebDist.SyncPublishesChecked` | src/web_dist.rs:572-605 | At every step only a checked dist is published; `UpToDate`, `Unstamped` and `Failed` leave pointer and marker unchanged throughout |
| `WebDist.DiskSyncPublishesChecked` | src/web_dist.rs:615-637 | A command-line sync never touches the pointer, writes only a checked dist to the marker, and leaves it alone unless it reports `Updated` |
| `WebDist.ServedDistStaysGood` | src/web_dist.rs:528-637 | Over any careful run of daemon syncs, command-line syncs, waits and removals, a self-consistent dist is served in every state passed through |
| `WebDist.PublishDeletesItself` | crates/oxios-gateway/src/active_web_dist.rs:76-112 | With no further sync, the directory just published can disappear while it is served if and only if it was the previous one or was already awaiting removal |
| `WebDist.SelfHealIsUndone` | crates/oxios-gateway/src/active_web_dist.rs:76-112 | Repairing a broken dist in place serves it until the grace period is over and then deletes it |
| `WebDist.TwoPinsClearTheServedDist` | src/web_dist.rs:484-637 | Two command-line pins, forth and back, to tags as normalisation yields them, clear the directory a running daemon serves |
| `WebDist.TrimVDropsAll` | src/web_dist.rs:533 | The target version is the tag without any of its leading `v`s |
| `WebDist.WebUi.SyncLive` | src/web_dist.rs:579-605 | The daemon's sync passes through exactly the states of `Sync` |
| `WebDist.WebUi.SyncDisk` | src/web_dist.rs:615-637 | The command line's sync passes through exactly the states of `SyncToDisk` |
| `ConfigTree.Document.SetTomlDot` | src/main.rs:286-304 | The cursor loop, which writes missing tables into the document on its way, ends with what `SetAt` says, and when it fails has left the document as it was |
| `ConfigTree.SetFailsIffBlocked` | src/main.rs:286-304 | Setting fails exactly when a proper prefix of the key is bound to a non-table, and names the shortest such prefix |
| `ConfigTree.SetThenGet` | src/main.rs:286-304 | After a successful set the key, and everything below it, reads as the value |
| `ConfigTree.SetFrame` | src/main.rs:286-304 | A path that is neither a prefix nor an extension of the key keeps what it had |
| `ConfigTree.SetPrefix` | src/main.rs:286-304 | Proper prefixes of the key are tables afterwards and gain at most the next part |
| `ConfigTree.SetTwice` | src/main.rs:286-304 | The last of two sets of a key wins |
| `ConfigTree.CollectLeafKeys` | src/main.rs:408-429 | The recursion pushes exactly the leaves below a value, in order, after what was there |
| `ConfigTree.ConfigList` | src/main.rs:383-406 | The listing starts from the value the prefix points to, through objects and arrays alike, and fails exactly when there is none |
| `ConfigTree.ListedKeysResolve` | src/main.rs:234-255 | `config get` finds under a key `config list` prints, with any prefix it knows or none, the very value it was listed for, if the names on that value's own path are good |
| `ConfigTree.ListedKeysAreDistinct` | src/main.rs:408-429 | No two values with good names on their own paths are listed under one key |
| `ConfigTree.EveryLeafIsListed` | src/main.rs:383-429 | Every value that is no object is listed, under its dotted key if the names on its path are good |
| `ConfigTree.DottedNameMisleads` | src/main.rs:234-255 | A name with a dot in it can be listed under another value's key, and `config get` then finds that other value |
| `ConfigTree.ArrayElements` | src/main.rs:234-255 | Below a key that holds an array `config get` finds the elements under their decimal numbers, from zero, and nothing else |
| `ConfigTree.EscapedKeyFinds` | src/main.rs:234-255 | Names with `/` or `~` in them are found when they are escaped as RFC 6901 has it |

## Left out

- Network, HTTP, gzip, tar and zip decoding, SHA-256, disk-space checks, prompts and progress bars: their results are inputs.
- f64 rounding in the limiter, wall-clock jumps and cancelled HTTP futures: the models use reals, one monotone clock, and callers that run to completion.
- GitLayer (crate oxi_vault_git) is not part of this model: HEAD is a map from name to content, a commit of a file that is not on disk fails, and removal touches HEAD only. The 64-slot bound of the event channel, commit messages and hashes are left out, and the repository root is the vault root.
- `KnowledgeGit.HeadAgreesOffTheQueue`: a change on disk and its announcement are one step. The program releases its file lock in between (crates/oxios-markdown/src/knowledge.rs:380-386), so two operations on one name can announce in the opposite order although delivery keeps it; what then holds is `AnyOrderAgreement`.
- The reliability layer and replay buffer of the bridge, and its broadcast to WebSocket clients.
- `Bridge.CorrelationIsSound`: for unique ids, as random UUIDs are meant to be, which is exactly the condition (`SoundIffUniqueIds`). The duration histogram is not modelled.
- `Bridge.ProgressUnlessBlocked`: senders that wait for room may be served in any order, where the channel serves them first come first served.
- `SupervisorRuns.AmortisedRestartBound`: for `max_retries < u32::MAX` and `reset_after > 0`; the excluded counter is `UncountableNeverEscalates`.
- `Supervisor.TaskSupervisor.Run`: the timeout of the drain and the tasks it detaches are not modelled, nor are ties between ready branches of one select, which a script may order either way.
- `StoreOps.Store.RollbackTarget`: versions/ holds directories one level deep; a dangling or foreign symlink at the temp name inside a version directory is refused and not followed.
- `StoreOps.RollbackAfterRefusedInstall`: for a leftover directory next below the current version, where the first rollback goes; one further down waits for later rollbacks.
- `StoreOps.Store.Rollback`: a dry run, which only prints the target, and a `read_link` of the launcher that fails although the launcher is there, which the program takes for no launcher.
- `ShadowAudit.Auditor.AuditShadows`: two PATH entries that name one directory through a symlink count as different directories, so an entry in both is two entries.
- `Migration.PathEntries.ApplyPlan`: starts after the user's consent; directories as shadow entries, relative link targets and the PATH block written afterwards are not modelled. Migration of Versioned and Backup shadows is not claimed to be idempotent, the code does not make it so.
- `ChatFormat.RoundTripIffWellFormed`: dates written today are parameters; `toggleChatMessage` and rendering are not modelled. Strings are sequences of code points where JavaScript has UTF-16 units, which no pattern here can tell apart.
- `ConfigTree.Document.SetTomlDot`: the tables below the root are values, so the cursor keeps its way back explicitly where the program holds a mutable reference; comments, formatting, `get_existing_type` and `parse_toml_value` are left out.
- `ConfigTree.ListedKeysResolve`: good names are non-empty and hold no `.`, `/` or `~`, and only those on the listed value's own path matter; the configuration is an object, a name occurs once within an object, and below an empty prefix only the value itself is meant, since the listing writes no prefix there. The printed form of a value is left out.
- `WebDist.ServedDistStaysGood`: syncs do not overlap in time, and release archives stamp their own version or nothing; the update route of the HTTP API, `ensure_web_dist`, the startup throttle and the resolution of a target to a tag (`normalize_tag`) are left out.
- Channel classification, byte formatting, calendar ranges, quota probing, endpoint ordering and the device registry: easy members.
- Kernel assembly, command dispatch, route handlers, personas, the React and mobile front ends and the service worker: plumbing.
