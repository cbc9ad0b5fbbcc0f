# Swarmlite: a verified model

Swarmlite runs container services on a small cluster. This project models the parts of it whose
correctness depends on whole runs rather than on single calls, and proves what they promise.

* **The reconcile pass** (`Cluster`, `Scheduler`, `Convergence`, `Rollout`, `Placement`, `Jobs`,
  `Reconcile`, `PassSafety`, `JobRuns`, `TaskRules`, `JobRules`, `Controller`). `Scheduler` and `Jobs` say what a pass does to
  the task map and the job cursors. `Controller` is the pass as it runs, a class that rewrites its maps
  in loops, proved equal to that. `TaskRules` and `JobRules` say over the
  records what is decided about one node, task or job. The other modules prove when a pass is a fixed
  point, what stays available during a rollout, how tasks are placed, and that no cron occurrence runs twice.
* **The response cache** (`VaryPolicy`, `Fingerprint`, `CacheTables`, `CacheRuns`, `Eviction`, `ResponseStore`,
  `AdmissionBank`, `Admission`). Keys, tables, accounting, what a lookup may return, eviction and
  admission. The Vary keying corresponds to section 4.1 of RFC 9111.
* **The key-value store** (`KvLocks`, `KvPaths`). Leased locks with fencing tokens; keys as paths.
* **Certificate handoff** (`Certificates`, `HandoffRuns`). Push, quiesce and restore over a shared store.
* **The garbage collectors** (`Collectors`, `ConfigBlobs`, `ConfigCache`). One machine, two collectors.
* **Log streams** (`DataFrames`, `LogLines`, `LogStreams`, `LogReceiver`, `RelayReasons`, `LogRelay`,
  `RelaySessions`). Codec, chunking, the relay in the controller, reassembly, whole sessions.
* **The agent's ledger** (`AgentLedger`). Job claims and the generation fence under crashes.
* `Ordering`, `Sets`, `Text`, `Digests` and `Wrappers` hold byte order, set sizes, white space and
  decimals, collision-free hashes and optional values.

`dafny verify dfyconfig.toml` checks the whole project.

## What turned out false

Nine expected properties do not hold of the code as it is. Each has a lemma at a concrete input, and
the exact condition under which it does hold.

* A full pass is not always a fixed point with surge one: a running execution whose node is lost after
  its start deadline is first marked unknown and only stopped by the next pass
  (`PassSafety.LateLossTakesTwoPasses`). `Reconcile.OnePassSuffices` says exactly when one pass is enough.
* With surge zero every pass retires one more old task (`Convergence.StopFirstTakesTwoPasses`). A second
  pass is idle exactly when no stop-first step is left (`Convergence.SecondPass`, `Reconcile.SecondFull`).
* A quiesced storage still accepts a restore, which drops its files (`HandoffRuns.QuiescedLosesFiles`);
  it keeps them exactly when there were none (`HandoffRuns.RestoreIgnoresQuiesce`).
* The agent's collector deletes early after its candidate list could not be saved, or after a pass that
  found no directory (`ConfigCache.LostWriteDeletesEarly`). Deletions are right exactly over runs in which
  every such pass found every marked file quiet (`ConfigCache.DeletionsAreRightExactly`).
* Prefixed log output depends on fragmentation (`LogLines.FullLineShows`). It does not, exactly when every
  terminated line is shorter than 64 KiB or one byte short of a multiple of it
  (`LogLines.FragmentationIndependent`). An unterminated tail of any length does not matter.
* A relayed log session need not end well (`RelaySessions.WrapBreaksSession`). It does exactly when no stream
  that its agent left open had used up the sequence numbers (`RelaySessions.RelayEndsSession`).
* A recursive delete of a key with a NUL byte leaves its descendants (`KvPaths.NulHidesDescendants`). It
  removes them all exactly when the key has no NUL or no descendants (`KvPaths.DeletedIsGone`), and a status
  request misses a directory in the same case (`KvPaths.StatSeesExactly`).
* Lock exclusion fails when the clock goes back (`KvLocks.RollbackBreaksExclusion`). It holds at every time
  no earlier than the largest reading, and at no other (`KvLocks.ExclusiveExactly`); a superseded grant is
  live exactly before its deadline. Token order and the powerlessness of superseded tokens need no clock.
* A cached response from before a policy change can be returned after the clock went back
  (`CacheRuns.RollbackServesFormer`), and with a clock that only moves forward to a lookup that reads the clock
  some time before its row (`CacheRuns.LagServesFormer`). It cannot exactly when no reading shown until the row
  read was later than the lookup's own (`CacheRuns.CurrentExactly`), nor if it outlasts all those readings
  (`CacheRuns.GetIsCurrent`). That the response answers the request needs no clock (`CacheRuns.GetMatches`).

`PassSafety.FullSafe` relies on the rule that jobs publish no ports, which their parser enforces.
`PassSafety.RevivedJobSharesPort` shows that the rule is needed.

## Model

| member | source | states |
|---|---|---|
| `Reconcile.SecondFull` | crates/swarmlite-controller/src/scheduler.rs:13-65 | A second full pass (jobs and services) with the same nodes and clock changes nothing exactly when no settled execution is newly due and no stop-first step is due, even where placement failed or services compete for ports |
| `Reconcile.OnePassSuffices` | crates/swarmlite-controller/src/scheduler.rs:13-65 | With a surge of at least one everywhere, one full pass reaches a fixed point if and only if it leaves no late-lost execution: one that was up when its node went after its start deadline, whose job still exists and has no occurrence to replace it |
| `Reconcile.TriggersDue` | crates/swarmlite-controller/src/jobs.rs:49-117 | The trigger loop leaves an execution to be stopped by the next pass exactly where one was due and its job does not fire |
| `Reconcile.FullsStabilise` | crates/swarmlite-controller/src/scheduler.rs:13-207 | Repeated full passes come to rest after at most two more passes than there are outdated running tasks, for every surge setting |
| `Convergence.SecondPass` | crates/swarmlite-controller/src/scheduler.rs:13-207 | The second services pass is idle if and only if no service has a stop-first step left |
| `Convergence.StopFirstTakesTwoPasses` | crates/swarmlite-controller/src/scheduler.rs:147-159 | A concrete service without surge whose two old tasks are stopped one by one, so that the pass after the first changes the tasks again |
| `Convergence.StopFirstRepeats` | crates/swarmlite-controller/src/scheduler.rs:147-159 | A stop-first step that leaves an old task makes the next one due |
| `Convergence.SecondPassIdle` | crates/swarmlite-controller/src/scheduler.rs:13-207 | With a surge of at least one everywhere, a second services pass changes nothing |
| `Convergence.PassesStabilise` | crates/swarmlite-controller/src/scheduler.rs:147-159 | With surge zero, the number of old-revision running tasks bounds the passes until a fixed point |
| `Convergence.StepsFromReady` | crates/swarmlite-controller/src/scheduler.rs:67-207 | From a state every service is content with, a pass is the identity, or strictly shrinks the set of outdated running tasks if a stop-first step is due |
| `Convergence.ReconcileServiceReady` | crates/swarmlite-controller/src/scheduler.rs:67-207 | After its own step a service has nothing left to retire, and has used its quota or cannot place another task |
| `Convergence.StepKeepsReady` | crates/swarmlite-controller/src/scheduler.rs:67-207 | The steps of other services never make a settled service unsettled, although they take ports and nodes |
| `Convergence.StopFirstStep` | crates/swarmlite-controller/src/scheduler.rs:153-159 | A stop-first step retires exactly the first old task, creates nothing and leaves the service settled |
| `Rollout.PassRollout` | crates/swarmlite-controller/src/scheduler.rs:106-204 | Over a whole pass a service keeps min(replicas, old running plus serving current) tasks available, one less at most with surge zero, and its live containers stay within the surge limit, or within the replica count once no old task runs |
| `Rollout.ReconcileServiceAvailability` | crates/swarmlite-controller/src/scheduler.rs:106-159 | The availability claim for one service step, as an equality for surge at least one |
| `Rollout.ReconcileServiceSurge` | crates/swarmlite-controller/src/scheduler.rs:161-204 | One service step never lifts the occupying tasks above the larger of before and the limit |
| `Placement.PassInvariants` | crates/swarmlite-controller/src/scheduler.rs:417-493 | A services pass keeps slots of a revision distinct and published ports of a node held by one container only, across services and unclaimed containers |
| `Placement.SlotAvailable` | crates/swarmlite-controller/src/scheduler.rs:315-326 | Fewer running tasks than replicas leave a free slot number, by pigeonhole |
| `Placement.CreatesAllItCan` | crates/swarmlite-controller/src/scheduler.rs:194-204 | The create loop stops only for quota or for want of a node, never for want of a slot |
| `Placement.PlaceNodeLimit` | crates/swarmlite-controller/src/scheduler.rs:346-391 | Placements leave a node within its per-node limit, plus one per old running task there only when a surge is allowed |
| `Placement.PlaceSpread` | crates/swarmlite-controller/src/scheduler.rs:278-313 | A node that can still take a task is never left more than one current task behind another, unless it already was |
| `Scheduler.FreeSlot` | crates/swarmlite-controller/src/scheduler.rs:315-326 | The lowest unused slot number below the replica count, or none if all are used |
| `Scheduler.AllocatedPorts` | crates/swarmlite-controller/src/scheduler.rs:431-459 | The declared ports come first and unchanged, followed by exactly one unpublished tcp binding for each gateway target not yet exposed |
| `Cluster.AdmitsExactly` | crates/swarmlite-controller/src/scheduler.rs:393-415 | A node matches a list of constraints exactly if each equality on a label finds that value, each inequality does not, those on the identity compare the id, and none is malformed or an equality on an unknown attribute |
| `TaskRules.CandidateExactly` | crates/swarmlite-controller/src/scheduler.rs:253-277 | A node can take a task exactly if it is known and live, its constraints admit it, a pinned revision is prepared there, the per-node limit with its surge allowance leaves room, and no container there publishes a wanted port |
| `TaskRules.ScheduledTask` | crates/swarmlite-controller/src/scheduler.rs:253-344 | The scheduled task is a fresh running record with the lowest free slot, on the admitted node with the fewest tasks of the revision, then of the service, then in all, then the smallest id |
| `TaskRules.PassAdmits` | crates/swarmlite-controller/src/scheduler.rs:13-65 | Every task that a services pass adds sits on a live, known node that its service's constraints admit |
| `TaskRules.RetiredForConstraints` | crates/swarmlite-controller/src/scheduler.rs:79-104 | A running task of the present revision on a known node is retired if its constraints do not admit the node; if they do and no more than the wanted number run, it is left exactly as it is |
| `TaskRules.DrainsExactly` | crates/swarmlite-controller/src/scheduler.rs:223-236 | A task that a step retires drains exactly if its service has HTTP routes and it was healthy, and stops otherwise; nothing else about it changes |
| `TaskRules.EmptiedIsRetired` | crates/swarmlite-controller/src/scheduler.rs:209-221 | Deleting a service or asking for no replicas leaves none of its tasks running and touches no other |
| `TaskRules.LostIsStopped` | crates/swarmlite-controller/src/scheduler.rs:16-43 | Exactly the replica tasks that failed, were lost or lost their node are stopped, restarting ones on live nodes apart, and those without a node become lost |
| `TaskRules.DrainEnds` | crates/swarmlite-controller/src/scheduler.rs:238-251 | A drain ends exactly at its deadline, and one without a deadline goes on |
| `Ordering.KeptAreFirst` | crates/swarmlite-controller/src/scheduler.rs:128-151 | Popping the end of a sorted list keeps the first ids |
| `Ordering.BeforeExactly` | crates/swarmlite-controller/src/scheduler.rs:278-313 | Ids and keys are ordered by the first place where they differ, a proper prefix first |
| `PassSafety.FullSafe` | crates/swarmlite-controller/src/scheduler.rs:13-65 | A full pass keeps slots distinct and ports disjoint when jobs publish no ports |
| `PassSafety.FullCreatesAllItCan` | crates/swarmlite-controller/src/scheduler.rs:161-204 | After a full pass every managed service has used its quota or has no eligible node |
| `PassSafety.LateLossTakesTwoPasses` | crates/swarmlite-controller/src/jobs.rs:23-47 | A concrete state in which one full pass is not a fixed point: a running execution whose node is lost after the start deadline |
| `PassSafety.RevivedJobSharesPort` | crates/swarmlite-controller/src/jobs.rs:41-47 | A concrete state, with a port on a job, in which a full pass ends with two holders of one port: why the safety of a pass needs the rule that jobs publish none |
| `Controller.ClusterState.ReconcilePass` | crates/swarmlite-controller/src/scheduler.rs:13-65 | The in-place pass computes the specified full pass on cursors, tasks and log, and reports no change only if nothing changed |
| `Controller.ClusterState.ReconcileOne` | crates/swarmlite-controller/src/scheduler.rs:67-207 | In-place retirement and creation equal the specified service step; the change flag is exact |
| `Controller.ClusterState.RetireVictims` | crates/swarmlite-controller/src/scheduler.rs:79-159 | The four retirement stages together retire exactly the specified victims |
| `Controller.ClusterState.CreateMissing` | crates/swarmlite-controller/src/scheduler.rs:161-204 | Creates tasks up to the smaller of the missing replicas and the surge room |
| `Controller.ClusterState.FindPlacement` | crates/swarmlite-controller/src/scheduler.rs:253-344 | Scans the eligible nodes for the preferred one, takes the first free slot, and allocates ports; the node is live and meets every constraint over its labels and id |
| `Controller.ClusterState.AllocateTaskPorts` | crates/swarmlite-controller/src/scheduler.rs:431-459 | Adds the gateway ports that the service does not already expose |
| `Controller.ClusterState.StopLostTasks` | crates/swarmlite-controller/src/scheduler.rs:16-43 | Stops exactly the running or draining tasks that failed, were lost or sit on a dead node, restarting ones excepted, and marks those on dead nodes lost |
| `Controller.ClusterState.StopAll` | crates/swarmlite-controller/src/scheduler.rs:209-221 | Retires every task of a deleted or empty service |
| `Controller.ClusterState.RetireOne` | crates/swarmlite-controller/src/scheduler.rs:223-236 | Stops or drains one running task, and leaves others as they are |
| `Controller.ClusterState.FinishDrainingTasks` | crates/swarmlite-controller/src/scheduler.rs:238-251 | Stops exactly the draining tasks whose time is over |
| `Controller.ClusterState.ReconcileServices` | crates/swarmlite-controller/src/scheduler.rs:44-65 | Services are stepped in order, each on the result of the last |
| `Controller.ClusterState.ReconcileJobs` | crates/swarmlite-controller/src/jobs.rs:19-168 | Expiry, triggering and pruning in place equal the specified job pass |
| `Controller.ClusterState.ExpireExecutions` | crates/swarmlite-controller/src/jobs.rs:23-47 | Rewrites every execution as specified; the change flag is exact |
| `Controller.ClusterState.Trigger` | crates/swarmlite-controller/src/jobs.rs:54-151 | Consumes at most one due occurrence of a job, skipping it when a whole minute was missed or no node is eligible; an execution it adds waits for those it replaces, within half a minute and half of the time to the next occurrence |
| `Controller.ClusterState.MeasureGrace` | crates/swarmlite-controller/src/jobs.rs:111-127 | The longest stop time of the unfinished executions, as a maximum over a set |
| `Controller.ClusterState.StopExecutions` | crates/swarmlite-controller/src/jobs.rs:112-129 | Stops every earlier execution of the job |
| `Controller.ClusterState.PruneHistory` | crates/swarmlite-controller/src/jobs.rs:152-166 | Keeps the twenty latest finished executions by scheduled time and id |
| `Controller.ClusterState.SkipMissedOccurrences` | crates/swarmlite-controller/src/jobs.rs:5-17 | Moves every due cursor past the present without running anything |
| `Jobs.Recent` | crates/swarmlite-controller/src/jobs.rs:152-166 | The history keeps as many as allowed, and everything dropped was scheduled before everything kept |
| `JobRules.TriggeredExecution` | crates/swarmlite-controller/src/jobs.rs:93-152 | What a trigger adds is an execution of the due occurrence on a live, admitted node that runs jobs; it waits at most half a minute and half of the time to the next occurrence, and within these long enough for every execution it replaces to stop, which are all told to |
| `JobRules.GraceWaits` | crates/swarmlite-controller/src/jobs.rs:112-145 | The wait is the longest stop time of the unended executions, cut off by the two bounds, and zero if there was none |
| `JobRules.DueIsConsumed` | crates/swarmlite-controller/src/jobs.rs:93-111 | A due occurrence is consumed whether or not a node takes it: the cursor remembers it and moves past the present |
| `JobRules.NotDueIsIdle` | crates/swarmlite-controller/src/jobs.rs:49-96 | A job that is not due starts and stops nothing |
| `JobRules.ChangedPolicyMoves` | crates/swarmlite-controller/src/jobs.rs:62-92 | A new or changed schedule starts at its first occurrence after the present and after the last consumed one; a suspended cursor only moves forward, past the present |
| `JobRules.SkippedIsAhead` | crates/swarmlite-controller/src/jobs.rs:5-17 | After the skip no cursor of a job whose schedule has a next occurrence is due, and other cursors are as they were |
| `JobRules.ExpiryExactly` | crates/swarmlite-controller/src/jobs.rs:19-47 | An execution is told to stop exactly if its job is gone or its start deadline passed before it was seen to start, and becomes unknown exactly if its node is away and it has not ended |
| `JobRules.PruneKeepsLatest` | crates/swarmlite-controller/src/jobs.rs:153-169 | Pruning leaves the twenty latest ended executions of the job, by scheduled time and then id, and every other task |
| `JobRuns.NoReplay` | crates/swarmlite-controller/src/jobs.rs:5-151 | In every run with arbitrary clocks, edits, suspension, crashes and competing controllers, committed executions of a job have strictly increasing scheduled times and valid start windows, the log only grows, and at most one execution is wanted at a time |
| `JobRuns.TickSound` | crates/swarmlite-controller/src/jobs.rs:19-168 | One pass at any clock reading keeps the cursor ahead of every execution already created |
| `JobRuns.SkipSound` | crates/swarmlite-controller/src/jobs.rs:5-17 | Skipping missed occurrences keeps the same invariant |
| `JobRuns.ApplySound` | crates/swarmlite-controller/src/storage.rs:239-290 | Restart, work and the generation compare-and-swap keep the invariant for the document and for every controller copy |
| `JobRuns.ReloadKeepsExecutions` | crates/swarmlite-controller/src/storage.rs:593-666 | Storing and loading keep cursors and executions with their observed state, and forget the observed state of plain tasks |
| `Fingerprint.EntryTextInjective` | caddy-storage/cache_handler.go:530-565 | Two hashed texts are equal exactly when base key, generation, fields (up to spelling) and the requests' values for them agree |
| `Fingerprint.WriteRequest` | caddy-storage/cache_handler.go:545-554 | The nested loops write, for each field, its canonical name, the number of its values and the values |
| `VaryPolicy.ResponseVaryHeaders` | caddy-storage/cache_handler.go:567-590 | The field list of a response: configured and listed names in canonical form, each once, sorted; uncacheable exactly for a star or an invalid name |
| `VaryPolicy.UncacheableExactly` | caddy-storage/cache_handler.go:573-582 | Uncacheable exactly if some part of a header value, white space apart, is a star or has a character no name may have |
| `VaryPolicy.PolicyExactly` | caddy-storage/cache_handler.go:567-590 | Otherwise the field list is sorted and holds exactly the canonical forms of the configured and the listed fields |
| `VaryPolicy.PartsExactly` | caddy-storage/cache_handler.go:573-574 | The parts of a value hold no comma, and joined by commas they are the value |
| `VaryPolicy.TokenCharExactly` | caddy-storage/cache_handler.go:642-657 | A character of a field name is a visible one that is not a delimiter of section 5.6.2 of RFC 9110 |
| `VaryPolicy.PolicyIsItsNames` | caddy-storage/cache_handler.go:567-590 | Two cacheable responses have the same field list exactly when they name the same fields, whatever the order, case and repetition |
| `VaryPolicy.CanonicalIgnoresCase` | caddy-storage/cache_handler.go:568-583 | Two valid names have the same canonical form exactly when they differ in case only |
| `VaryPolicy.PolicyIsCanonical` | caddy-storage/cache_handler.go:545-554 | Canonicalising a stored field list again changes nothing |
| `CacheRuns.GetIsCurrent` | caddy-storage/sqlite_store.go:560-629 | In every run and for every clock, if the response a lookup finds expires after every reading shown until the lookup read its resource row, no write between that response and the row read changed the policy or answered the same request, even after the row was deleted and its generation restarted |
| `CacheRuns.GetMatches` | caddy-storage/sqlite_store.go:560-629 | In every interleaving and for every clock, a lookup returns only an unexpired response stored for the same base key under the fields it read with equal request values, the newest of its generation |
| `CacheRuns.RollbackServesFormer` | caddy-storage/sqlite_store.go:560-629 | A concrete run in which the clock steps back before a lookup, which is then answered by a response from before two policy changes |
| `CacheRuns.LagServesFormer` | caddy-storage/sqlite_store.go:567-579 | A concrete run with a clock that only moves forward, between the clock reading and the row read of one lookup, which is answered by a response from before two policy changes |
| `CacheRuns.UnexpiredIsCurrent` | caddy-storage/sqlite_store.go:560-629 | With readings that never decrease, a found response still unexpired at the clock of the row read is current |
| `CacheRuns.EarlierReadingServesFormer` | caddy-storage/sqlite_store.go:560-695 | For any readings and any lookup that works with an earlier one than another shown until its row read, a run with these readings in which it is answered by a response from before two policy changes |
| `CacheRuns.CurrentExactly` | caddy-storage/sqlite_store.go:560-695 | For given readings and a lookup that arrived at one of them, all runs let it find current responses if and only if no reading shown until its row read was later than its own |
| `CacheRuns.ApplyMatched` | caddy-storage/sqlite_store.go:631-768 | Every step, at any clock, keeps each entry the last write filed under its key |
| `CacheRuns.ReadBack` | caddy-storage/sqlite_store.go:631-768 | An accepted unexpired response is found by every request with the same values for its fields |
| `CacheRuns.FindIsLookAndFetch` | caddy-storage/sqlite_store.go:560-629 | An uninterrupted lookup is its clock reading and its two reads in a row |
| `CacheRuns.ApplyCoherent` | caddy-storage/sqlite_store.go:681-695 | Every step, at any clock and with any earlier reading in the hands of a cleanup, keeps the resource row of a response that outlasts every reading so far, and at its generation only while its policy lasts |
| `CacheRuns.RunsBalanced` | caddy-storage/sqlite_store.go:631-768 | In every interleaving and for every clock the usage row is the sum of entry sizes, the count is exact, both key sets agree, the in-memory counter plus unpublished changes equals the usage row, and usage never rises above the larger of before and the limit |
| `CacheTables.WriteAccounted` | caddy-storage/sqlite_store.go:676-768 | A write keeps the accounts and never lifts usage above the larger of before and the limit |
| `CacheTables.WriteExactly` | caddy-storage/sqlite_store.go:676-768 | Rolled back exactly if the write grows its entry and would pass the limit; otherwise the new rows and usage, the field list's generation kept exactly if the list is the same |
| `CacheTables.RemoveAccounted` | caddy-storage/sqlite_store.go:1069-1097 | Deleting a batch keeps the accounts and neither clamp at zero fires |
| `CacheTables.TouchAccounted` | caddy-storage/sqlite_store.go:916-948 | Touching access times keeps the accounts |
| `CacheTables.TouchExactly` | caddy-storage/sqlite_store.go:930-940 | A queued hit on an entry accessed longer ago than the window is accessed now; every other row keeps its time |
| `ResponseStore.Store.Get` | caddy-storage/sqlite_store.go:560-629 | Finds exactly the specified entry, and notes the hit under its key |
| `ResponseStore.Store.Put` | caddy-storage/sqlite_store.go:631-768 | Accepted exactly when usage plus the whole entry size is within the limit; a rejected write changes nothing |
| `ResponseStore.Store.Commit` | caddy-storage/sqlite_store.go:670-768 | The transaction writes all four tables together or none |
| `ResponseStore.Store.DeleteEntryBatch` | caddy-storage/sqlite_store.go:1021-1097 | Removes the first rows of the order, the fewest that free enough bytes, and updates tables and counter together |
| `ResponseStore.Store.EnforceCapacity` | caddy-storage/sqlite_store.go:984-1015 | Above the triggering mark, removes the shortest run of least recently used entries that reaches the low-water mark, at most eight batches of 512: every entry that went was accessed earlier than every one that stayed, or at the same time and first in key order; asks for another round exactly if the mark was not reached |
| `ResponseStore.Store.DeleteExpiredEntries` | caddy-storage/sqlite_store.go:950-971 | Removes only expired entries, the longest expired first, and all of them unless eight full batches were not enough |
| `ResponseStore.Store.DeleteExpiredRows` | caddy-storage/sqlite_store.go:1120-1139 | Drops only expired resource rows, none before one that expired earlier, and all of them unless eight full batches were not enough |
| `ResponseStore.Store.FlushTouches` | caddy-storage/sqlite_store.go:916-948 | Moves one batch of queued hits into the access table |
| `ResponseStore.EvictionReaches` | caddy-storage/sqlite_store.go:984-1015 | The mark is reached whenever some admissible run of oldest entries frees enough |
| `Eviction.SelectedUnique` | caddy-storage/sqlite_store.go:994-1011 | The conditions on an eviction determine the removed set |
| `Eviction.SelectedContinues` | caddy-storage/sqlite_store.go:994-1011 | Batches in sequence select what one large batch would |
| `Eviction.Query` | caddy-storage/sqlite_store.go:998-1002 | An ordered, limited selection |
| `Eviction.PercentageExact` | caddy-storage/sqlite_store.go:780-784 | The split low-water calculation is the exact floor and no intermediate value exceeds the capacity or a small constant |
| `Admission.ProbeInRange` | caddy-storage/sqlite_store.go:818-833 | Every computed bit lies inside its shard, with 64-bit wraparound |
| `Admission.BitsDiffer` | caddy-storage/sqlite_store.go:818-833 | The four bits of a key are four different ones, since the step between them is odd |
| `Admission.Bloom.MarkIfNew` | caddy-storage/sqlite_store.go:818-838 | Sets exactly the key's four bits; reports new exactly if one was missing |
| `Admission.Bloom.Reset` | caddy-storage/sqlite_store.go:840-847 | Leaves no bit set |
| `Admission.Admit` | caddy-storage/sqlite_store.go:797-804 | Marks the key in the first filter that lacks it; admits exactly if none does |
| `Admission.TurnedAwayAtMost` | caddy-storage/sqlite_store.go:797-804 | Between resets a key is rejected at most once per filter, whatever other keys are asked for |
| `Admission.TurnedAwayExactly` | caddy-storage/sqlite_store.go:797-804 | From a reset, and asked for alone, a key is rejected exactly that often |
| `KvLocks.MutualExclusion` | crates/swarmlite-controller/src/kv.rs:172-310 | In every run with a clock that never goes back, at most one grant of each lock is live from the last request on |
| `KvLocks.ExclusivePastReadings` | crates/swarmlite-controller/src/kv.rs:172-310 | In every run, whatever order the clock readings come in, at most one grant of each lock is live at every time no earlier than the largest reading |
| `KvLocks.ExclusiveExactly` | crates/swarmlite-controller/src/kv.rs:172-310 | All runs with readings up to t are exclusive at a time if and only if that time is t or later, or t is negative |
| `KvLocks.SupersededIsLiveBefore` | crates/swarmlite-controller/src/kv.rs:172-310 | An unreleased grant that was granted again is live exactly before its frozen deadline, which is no later than the reading at which its successor was issued |
| `KvLocks.SupersededIsFrozen` | crates/swarmlite-controller/src/kv.rs:256-310 | No request of any kind, at any reading, changes a superseded grant |
| `KvLocks.TokensIncrease` | crates/swarmlite-controller/src/kv.rs:172-254 | A new grant's fencing token exceeds every token issued before, for any name and any clock |
| `KvLocks.SupersededIsPowerless` | crates/swarmlite-controller/src/kv.rs:256-310 | In every state after a name was granted again, the earlier token renews and deletes nothing |
| `KvLocks.RollbackBreaksExclusion` | crates/swarmlite-controller/src/kv.rs:172-276 | A concrete run of three requests, the last served at an earlier reading than the one before, after which two grants of one lock are live at its reading |
| `KvLocks.LockRepository.Acquire` | crates/swarmlite-controller/src/kv.rs:172-254 | Refuses a held lock with a clamped retry time, extends the caller's own lease, or issues the next token |
| `KvLocks.LockRepository.Renew` | crates/swarmlite-controller/src/kv.rs:256-276 | Extends exactly the caller's unexpired lease under its token |
| `KvLocks.LockRepository.Release` | crates/swarmlite-controller/src/kv.rs:278-310 | Deletes exactly the caller's lease and nothing else; answered true, the name is free afterwards; otherwise nothing changes |
| `KvLocks.AcquireAnswers` | crates/swarmlite-controller/src/kv.rs:172-254 | An acquire is refused exactly while another owner's lease has not expired, with advice between 100 and 1000 ms; the owner of an unexpired lease keeps its token, anyone else gets the next one |
| `KvLocks.RenewAnswers` | crates/swarmlite-controller/src/kv.rs:256-276 | A renewal succeeds exactly for the owner and token of an unexpired lease, and only moves its deadline |
| `KvLocks.ReleaseAnswers` | crates/swarmlite-controller/src/kv.rs:278-310 | A release is answered true exactly for the owner and token of the stored lease or a free name, and then the name is free and all else as before |
| `KvLocks.HolderReleases` | crates/swarmlite-controller/src/kv.rs:278-310 | In every run the holder of the stored lease can release it, and exactly its grant is then over |
| `KvLocks.ReleasedIsFree` | crates/swarmlite-controller/src/kv.rs:172-310 | In every run, once the holder released a lock anyone gets it at once, at any reading, with the next token |
| `KvPaths.ScanIsDescent` | crates/swarmlite-controller/src/kv.rs:312-342 | The byte range from path/ up to path0 selects exactly the path and its component descendants |
| `KvPaths.KvRepository.KeysAt` | crates/swarmlite-controller/src/kv.rs:312-342 | Returns exactly those keys, sorted |
| `KvPaths.KvRepository.List` | crates/swarmlite-controller/src/kv.rs:106-140 | A recursive listing holds exactly the component prefixes below the path, a plain one its one-component layer, sorted; nothing is found exactly when no key is at or below the path |
| `KvPaths.AddPrefixes` | crates/swarmlite-controller/src/kv.rs:123-131 | The component loop adds exactly the component prefixes of one key |
| `KvPaths.KvRepository.Stat` | crates/swarmlite-controller/src/kv.rs:142-170 | A value reports itself, a directory the newest modification among what the SQL condition finds below it; nothing is found exactly when there is neither |
| `KvPaths.KvRepository.Delete` | crates/swarmlite-controller/src/kv.rs:68-84 | Removes the key, and when recursive what the SQL condition finds below it, and nothing else |
| `KvPaths.KvRepository.Put` | crates/swarmlite-controller/src/kv.rs:344-379 | Stores under well-formed keys and within the size limit only |
| `KvPaths.DeletedIsGone` | crates/swarmlite-controller/src/kv.rs:68-84 | After a recursive delete nothing is left at or below the key if and only if it has no NUL byte or had no descendants; every key elsewhere is untouched |
| `KvPaths.PlainDeleteKeepsOthers` | crates/swarmlite-controller/src/kv.rs:78-82 | A delete that is not recursive removes the one key and no other |
| `KvPaths.SqlDescentExactly` | crates/swarmlite-controller/src/kv.rs:68-84 | The SQL condition, with length and substr counting characters up to a NUL, holds exactly for the component descendants of a path without a NUL |
| `KvPaths.WidthExactly` | crates/swarmlite-controller/src/kv.rs:68-84 | Where SQLite ends a character: after one byte, or from a lead byte on, before the next byte that is not a continuation |
| `KvPaths.StatSeesExactly` | crates/swarmlite-controller/src/kv.rs:142-170 | A status request finds something exactly when a listing does, if and only if the key is a value, has no NUL or has no descendants |
| `KvPaths.NulHidesDescendants` | crates/swarmlite-controller/src/kv.rs:68-170 | A concrete key with a NUL whose descendant survives its recursive delete and is listed, while a status request finds nothing |
| `KvPaths.DeleteThenLook` | crates/swarmlite-controller/src/kv.rs:68-170 | After a recursive delete a status request finds nothing at the key; a listing finds nothing exactly if the key had no NUL or no descendants, and then no listing shows anything at or below it; any other key still answers as before |
| `KvPaths.DeleteKeepsOtherListings` | crates/swarmlite-controller/src/kv.rs:68-140 | A recursive delete changes no listing of an unrelated path |
| `HandoffRuns.RestoreIsExact` | caddy-storage/snapshot.go:201-274 | In every interleaving of gateways and foreign writes, a restore that ends holds exactly the files of the push that wrote its manifest |
| `HandoffRuns.HandoffIsExact` | caddy-storage/snapshot.go:113-274 | While the source stays quiesced and nobody else pushes for its id, a candidate whose restore ends holds the source's present files |
| `HandoffRuns.QuiescedStays` | caddy-storage/storage.go:75-135 | After a successful push, until a resume or a restore on the same storage, no step changes the local files |
| `HandoffRuns.RestoreIgnoresQuiesce` | caddy-storage/snapshot.go:201-241 | A restore begins on a quiesced source all the same, and keeps its files exactly when there were none to drop |
| `HandoffRuns.QuiescedLosesFiles` | caddy-storage/snapshot.go:113-241 | A concrete run from a fresh start in which a gateway pushes its file, is quiesced, reads its own manifest and loses the file to a restore |
| `HandoffRuns.SealRecords` | caddy-storage/snapshot.go:176-198 | A manifest read back unchanged records this gateway's own files |
| `HandoffRuns.StoreExactly` | caddy-storage/storage.go:75-92 | Unless quiesced, a gateway writes locally and, if the request arrives, to the shared store; others are untouched |
| `HandoffRuns.DeleteExactly` | caddy-storage/storage.go:119-135 | Unless quiesced, a gateway deletes a file or directory locally and, if the request arrives, in the shared store |
| `HandoffRuns.StoredIsLoaded` | caddy-storage/storage.go:75-117 | A gateway loads what another one stored, and keeps a copy unless it is quiesced |
| `HandoffRuns.LoadKeepsLocal` | caddy-storage/storage.go:94-117 | A load never replaces a local file |
| `Certificates.Storage.Push` | caddy-storage/snapshot.go:113-199 | Succeeds exactly when every upload was taken and read back unchanged; the manifest then lists, with size and digest, exactly the local files whose trimmed key is not empty, instance.uuid, last_clean.json, locks or below locks, and the storage is quiesced |
| `Certificates.Storage.Restore` | caddy-storage/snapshot.go:201-274 | Succeeds exactly when every listed object is eligible, listed once and answered with its size and digest; then the files other than identity, clean-up time and locks are exactly the listed ones; those few are untouched in any case |
| `Certificates.PushedIsVerified` | caddy-storage/snapshot.go:113-274 | If the coordinator still has the pushed files, every object of the manifest passes the checks of a restore |
| `Text.TrimExactly` | caddy-storage/snapshot.go:281-288 | Trimming takes white space off both ends and nothing else |
| `Certificates.RestoreReproducesPush` | caddy-storage/snapshot.go:201-274 | Files that match a pushed manifest are the pushed files |
| `Certificates.ListsOnce` | caddy-storage/snapshot.go:20-32 | A manifest determines the files it lists |
| `Certificates.Storage.Store` | caddy-storage/storage.go:75-92 | Unless quiesced, writes locally and then sends the value under its namespaced key; a quiesced storage does neither |
| `Certificates.Storage.Load` | caddy-storage/storage.go:94-117 | Prefers the local file, and keeps a remote one only when not quiesced |
| `Certificates.Storage.Delete` | caddy-storage/storage.go:119-135 | Unless quiesced, removes the file or the whole directory locally and then sends a recursive delete of its namespaced key |
| `Certificates.RemovedExactly` | caddy-storage/storage.go:119-135 | Removing a key takes the file of that name and everything in the directory of that name, and nothing else |
| `Certificates.NamespaceKeepsTree` | caddy-storage/coordinator.go:162-174 | The remote delete covers exactly the keys whose local files the local one removes |
| `ConfigBlobs.DeletedAfterGrace` | crates/swarmlite-controller/src/storage.rs:409-483 | In every run a pass deletes a blob only if it is unreferenced now and some pass marked it at least the grace period ago, since when every pass saw it present and unreferenced and nothing put or pinned it |
| `ConfigBlobs.ExpiredIsDeleted` | crates/swarmlite-controller/src/storage.rs:409-483 | A blob marked that long ago and still unreferenced does not survive the pass |
| `ConfigBlobs.SweepExactly` | crates/swarmlite-controller/src/storage.rs:409-483 | A pass takes the mark off a referenced blob, marks an unreferenced one, and deletes it exactly once the mark is as old as the grace period; contents never change |
| `ConfigBlobs.CountedExactly` | crates/swarmlite-controller/src/storage.rs:409-483 | The counters are the numbers of referenced, newly marked and deleted blobs |
| `ConfigBlobs.PutExactly` | crates/swarmlite-controller/src/storage.rs:296-346 | A put stores all that is offered, unmarked, exactly if every item is the digest of its content and agrees with what is stored; otherwise it changes nothing |
| `ConfigBlobs.PinExactly` | crates/swarmlite-controller/src/storage.rs:362-385 | A pin takes the marks off all items if all are stored; otherwise it changes nothing |
| `ConfigBlobs.GcExactly` | crates/swarmlite-controller/src/storage.rs:409-432 | A pass with a negative grace period is refused; any other takes place and is remembered |
| `ConfigBlobs.RunsAreAddressed` | crates/swarmlite-controller/src/storage.rs:296-346 | In every run each blob is stored under the digest of its content |
| `ConfigBlobs.CountsPartition` | crates/swarmlite-controller/src/storage.rs:433-480 | The four counters count each blob once |
| `ConfigBlobs.BlobTable.Collect` | crates/swarmlite-controller/src/storage.rs:409-483 | The loop computes the specified sweep and counters; a negative grace period is refused |
| `ConfigBlobs.BlobTable.PutBlobs` | crates/swarmlite-controller/src/storage.rs:296-346 | Stores all offered blobs and clears their marks, or none if a digest or a stored content disagrees |
| `ConfigBlobs.BlobTable.PinBlobs` | crates/swarmlite-controller/src/storage.rs:362-385 | Clears the marks of all listed blobs, or none if one is missing |
| `ConfigCache.DeletedAfterGrace` | crates/swarmlite-platform/src/config_files.rs:133-214 | After a run of settled passes (completed, or with every saved mark quiet), a file is deleted only if it is unreferenced and was present and unreferenced in every pass since a mark at least as old as the grace period |
| `ConfigCache.DeletionsAreRightExactly` | crates/swarmlite-platform/src/config_files.rs:133-214 | Every deletion that may follow a part of a run is justified if and only if every pass of the run was settled |
| `ConfigCache.FaithfulExactly` | crates/swarmlite-platform/src/config_files.rs:133-214 | The saved marks are justified after every part of a run if and only if every pass was settled |
| `ConfigCache.PassKeepsFaithful` | crates/swarmlite-platform/src/config_files.rs:133-214 | From justified marks, a pass leaves justified marks if and only if it completed or every saved mark was quiet in it |
| `ConfigCache.PassExactly` | crates/swarmlite-platform/src/config_files.rs:133-214 | A file goes exactly if it is unreferenced with a mark as old as the grace period and its removal is not refused; one that stays has a mark exactly if it is unreferenced |
| `ConfigCache.PassAddsNone` | crates/swarmlite-platform/src/config_files.rs:133-214 | A pass leaves and marks only files that were there |
| `ConfigCache.CountedExactly` | crates/swarmlite-platform/src/config_files.rs:176-209 | The counters are the numbers of referenced, newly marked, deleted and refused files |
| `ConfigCache.LostWriteDeletesEarly` | crates/swarmlite-platform/src/config_files.rs:210-213 | If the candidate list cannot be saved after a pass that saw a file referenced, the next pass deletes that file on its old mark |
| `ConfigCache.Cache.Collect` | crates/swarmlite-platform/src/config_files.rs:133-214 | The loop computes the specified fates, marks, files and counters, including refused and vanished removals |
| `ConfigCache.CountsPartition` | crates/swarmlite-platform/src/config_files.rs:176-209 | The counters and the vanished files together count each file once |
| `Collectors.StillFaithful` | crates/swarmlite-platform/src/config_files.rs:173-209 | The machine behind both collectors: an event that keeps only quiet marks and adds only its own keeps every mark justified |
| `Collectors.SaturationHarmless` | crates/swarmlite-controller/src/storage.rs:467 | Saturating subtraction never changes which marks have expired |
| `DataFrames.DecodeEncode` | crates/swarmlite-protocol/src/data_plane.rs:112-154 | Every encodable frame decodes to itself |
| `DataFrames.EncodeDecode` | crates/swarmlite-protocol/src/data_plane.rs:112-154 | Every accepted message is the encoding of the frame it decodes to |
| `DataFrames.HeaderBytes` | crates/swarmlite-protocol/src/data_plane.rs:112-128 | The header byte by byte: version 1, the codes of kind and channel, flags, then stream and sequence with the high byte first |
| `LogStreams.SendStream` | crates/swarmlite-agent/src/lib.rs:649-705 | The sender's loops produce the specified numbered frames, with a saturating sequence |
| `LogStreams.SplitAllKeepsBytes` | crates/swarmlite-agent/src/lib.rs:673 | Chunking loses and adds no byte |
| `LogStreams.SentDecodes` | crates/swarmlite-agent/src/lib.rs:709-715 | Every message sent decodes to the frame that was meant |
| `LogReceiver.SessionEnds` | crates/swarmlite-cli/src/cluster_cli.rs:576-642 | For every order-preserving interleaving the reader raises no error and never stops before the last message, and all streams have then ended if and only if every sender sent an end |
| `LogReceiver.SessionComplete` | crates/swarmlite-cli/src/cluster_cli.rs:576-642 | Each stream's bytes arrive complete and in order, a stream is reported failed exactly if its sender could send the error, and with even lines the prefixed output is that of the whole content |
| `LogReceiver.PlainOutput` | crates/swarmlite-cli/src/cluster_cli.rs:655-713 | The output of lines below the length limit: each after its prefix, and an unterminated last one with a newline of its own |
| `RelaySessions.RelayEndsSession` | crates/swarmlite-controller/src/controller/sessions.rs:253-333 | For streams divided among nodes and whatever the agents send: the reader never stops before the last message without an error; it takes them all and ends every stream if and only if each one ended or can be closed without a wrapped sequence number; exactly the streams with an error or without an end are then reported failed |
| `RelaySessions.ReadSession` | crates/swarmlite-cli/src/cluster_cli.rs:576-642 | The reader's loop on such a session succeeds exactly then, has read every message, and reports exactly those streams failed |
| `RelaySessions.SourcesReachReader` | crates/swarmlite-controller/src/controller/sessions.rs:253-333 | From the sources of several nodes through the relay to the reader, for every interleaving: every stream ends with the last message and not before, its bytes are complete, it is reported failed exactly if its source failed, and the streams of offline nodes are reported failed |
| `RelaySessions.WrapBreaksSession` | crates/swarmlite-controller/src/controller/sessions.rs:317-333 | A concrete session that the reader refuses: an agent leaves after 2^64 - 1 frames of one stream, and the number of the end that the relay adds wraps around |
| `LogRelay.Serve` | crates/swarmlite-controller/src/controller/sessions.rs:253-333 | Forwards the messages up to the first refused one or the last end, then, with the reason for stopping, an error and an end for each stream left open, in order |
| `LogRelay.CloseOffline` | crates/swarmlite-controller/src/controller/resources.rs:303-319 | Sends an error and an end for each stream of an offline node |
| `LogRelay.OpenUntilLast` | crates/swarmlite-controller/src/controller/sessions.rs:253-333 | Until the last message of a node some stream of it is open at the reader |
| `RelayReasons.ReasonFits` | crates/swarmlite-controller/src/controller/sessions.rs:257-297 | Every reason the relay can give fits a frame |
| `RelayReasons.FaultIsTrue` | crates/swarmlite-protocol/src/data_plane.rs:130-155 | The fault named for an undecodable message is one it has, with the size or byte it reports |
| `LogRelay.RefusalIsTrue` | crates/swarmlite-controller/src/controller/sessions.rs:270-297 | A message is refused exactly for a decoding fault, an unassigned stream, a kind that is not allowed or an unexpected number, and the reason given is true of it |
| `LogReceiver.Reader.Receive` | crates/swarmlite-cli/src/cluster_cli.rs:576-642 | The loop stops at the first state in which all streams ended, or at the first refused message |
| `LogReceiver.Reader.Take` | crates/swarmlite-cli/src/cluster_cli.rs:590-640 | Checks assignment and sequence of one message and applies it to its stream |
| `LogLines.FragmentationIndependent` | crates/swarmlite-cli/src/cluster_cli.rs:655-693 | Prefixed output is the same for every delivery in legal payloads if and only if each newline-terminated line is shorter than 64 KiB, or one byte short of a multiple of it |
| `LogLines.FullLineShows` | crates/swarmlite-cli/src/cluster_cli.rs:655-693 | A concrete pair of legal deliveries of one 64 KiB line with different output |
| `LogLines.WritePrefixed` | crates/swarmlite-cli/src/cluster_cli.rs:655-693 | Prints the completed lines and full-size pieces; the kept part is newline-free and shorter than 64 KiB |
| `AgentLedger.ClaimedOnce` | crates/swarmlite-platform/src/local_state.rs:72-95 | In every run with crashes anywhere no job is claimed twice |
| `AgentLedger.ClaimsAreGranted` | crates/swarmlite-platform/src/local_state.rs:91-95 | A claim is won exactly if the job is in the latest authorization list and was never claimed |
| `AgentLedger.ClaimsWhileUp` | crates/swarmlite-platform/src/local_state.rs:91-95 | Jobs are claimed while the agent is up, whatever its loop is doing, and not while it is down |
| `AgentLedger.GenerationsAscend` | crates/swarmlite-agent/src/lib.rs:286-371 | In every run with crashes anywhere the generations handed to reconciliation never decrease |
| `AgentLedger.LocalState.AuthorizeJobs` | crates/swarmlite-platform/src/local_state.rs:72-89 | Withdraws all authorizations and grants the listed ones, keeping every claim |
| `AgentLedger.LocalState.ClaimJob` | crates/swarmlite-platform/src/local_state.rs:91-95 | Claims exactly an authorized, unclaimed job |
| `AgentLedger.AuthorizedIsGranted` | crates/swarmlite-platform/src/local_state.rs:72-108 | In every run with crashes anywhere, a job is reported authorized exactly if it is in the latest authorization list |
| `AgentLedger.RoundCompletes` | crates/swarmlite-agent/src/lib.rs:286-371 | A response at or past the fence that is saved in full ends with its generation as the fence in memory and on disk, handed over, and exactly its jobs authorized |
| `AgentLedger.StaleIsIgnored` | crates/swarmlite-agent/src/lib.rs:286-371 | A response older than the fence is ignored |
| `AgentLedger.FailedSaveEndsRound` | crates/swarmlite-agent/src/lib.rs:286-371 | A save that fails ends the round with nothing handed over or authorized |
| `AgentLedger.RestartForgetsAuthorizations` | crates/swarmlite-agent/src/lib.rs:286-371 | After a crash the agent comes back with the fence from disk, no authorization and every claim |

## Left out

- Machine widths: integers are unbounded, except where a width decides the outcome (sequence numbers, fencing tokens, filter hashes, grace periods, frame fields). Byte totals, clocks and generations are assumed to stay in range.
- SQLite: a transaction is one atomic step over maps; WAL, vacuum, schema rotation and I/O errors inside a transaction are not modelled. The order of equal keys in a selection without a full order is taken by key.
- Hashes, JSON, base64 and UUIDs: digests are injective functions, encodings identities, new ids come from a function that avoids the ids in use.
- Cron and time zones: an abstract function whose next occurrence is later than the time asked about, or an error.
- Constraint text: constraints arrive parsed. Gateway routes, service operations and node records are read-only inputs of a pass.
- JobRuns.NoReplay: manual runs, heartbeats and acknowledgements are environment steps that may change tasks freely but neither restart a logged execution nor add one to the log; a failed commit leaves the copy as it is, and a controller may restart at any time.
- Reconcile.OnePassSuffices: for surge zero the condition is that of Reconcile.SecondFull, on the state after the first pass.
- PassSafety.FullSafe: assumes that jobs publish no ports, as their parser ensures.
- KvLocks.MutualExclusion: assumes a clock that does not go back; KvLocks.ExclusivePastReadings and KvLocks.ExclusiveExactly do not.
- Key lengths: keys, paths and header names are strings of their bytes, so length limits count bytes.
- CacheRuns.GetIsCurrent: a response that an earlier reading outlived is left to CacheRuns.CurrentExactly, which shows that nothing can be promised of it.
- CacheRuns.LagServesFormer: runs need not delete expired entries before their rows; the code does so in batches, which may be cut off, and responses may be stored in between.
- CacheRuns.CurrentExactly: for limits that leave room for three empty responses; with less the cache stays almost empty.
- VaryPolicy.ResponseVaryHeaders: white space and letters are ASCII.
- ResponseStore.Store.Get: whether a hit is noted (touch filter, bounded queue) is an input.
- ResponseStore.Store.DeleteExpiredRows: one clock reading serves all batches.
- ResponseStore.Store.EnforceCapacity: the round-limiting of eviction signals in time is not modelled.
- Certificates.Storage.Push: which uploads are taken and what is read back are inputs; HandoffRuns gives them a shared store. Directories are not files and appear only as the keys below them.
- HandoffRuns.QuiescedStays: holds until a restore on the same storage, which ignores the flag. A configuration reload that replaces the storage object is not modelled. An upload that times out is either applied at once or never.
- Certificates.Storage.Delete: errors of the local file system and of the request are not modelled; keys are clean paths without a NUL, which file systems refuse.
- Draining: finishing drains runs before a pass and is modelled on its own.
- Certificate locks, the owner probe and the fallback to local locks depend on network outcomes and are not modelled.
- ConfigCache.DeletedAfterGrace: assumes settled passes, which ConfigCache.DeletionsAreRightExactly shows to be the exact condition.
- Reading and writing sockets, timeouts, flushing, colours and unprefixed output of log streams.
- LogRelay.Serve: a reader that goes away and cancellation are not modelled; the error text of the WebSocket library is taken to be at most 1024 bytes.
- LogRelay.CloseOffline: what the controller sends when the command that opens a session on a live node fails or times out is not modelled.
- RelaySessions.SourcesReachReader: assumes, for streams without an end, fewer frames than sequence numbers, as RelaySessions.WrapBreaksSession shows to be needed.
- AgentLedger.GenerationsAscend: the responses themselves are arbitrary; image pruning, credentials and gateway control only appear as steps that may fail.
- Service restart operations, stack deployment, gateway configuration, metrics, the UI, the command line and upgrades would only add easy members.
