# A verified model of goforj/cache

The Go library goforj/cache puts one `Cache` facade over interchangeable stores: memory,
files, NATS, SQL and others. This project models its hard parts in Dafny and proves what
they promise. `dafny verify dfyconfig.toml` checks all of it.

**Locks.** A lock is a lease under an owner token with a TTL. `LeaseMachine` is the
abstract lease with a clock and the history of all grants. `NatsLease`, `SqlLease`,
`MemoryLease` and `FileLease` split each backend's acquisition and release into its real
atomic steps, for any number of clients, and each refines that machine in every
interleaving. `LockProtocol` puts many Cache instances with their lifecycle tables, lock
handles with their mutex and `held` flag, retries and background refreshes on top of the
memory store. `LockTheorems` and `SingleFlight` state what every run guarantees.
`CacheLocks` has the calls as classes and methods, with backend errors and the doings of
other threads as parameters. That they do what the steps of the protocol do is shown in
`CallsAsSteps` for uninterrupted calls, and in `DirectCalls` and `HandleCalls` for whole
calls with the steps of other threads in between.

**Memo store.** `MemoStore` is the class; `MemoProtocol` interleaves its reads (snapshot,
backend read, guarded publication) with mutations (backend write, invalidation).

**Counters and limits.** `NatsCounter` is the compare-and-swap retry loop as a machine.
`RateLimit` is the fixed window over an expiring counter.

**Stores and values.** `ExpiringMap` is the map that stores are measured against. `MemoryStore`
is the class over it. `FileStore` and `FileRecord` model the record files down to their
bytes. `Shaping` and `ShapedStore` model the compression, size-cap and encryption wrappers.

**Encodings.** `Bytes` (big-endian and decimal integers, 64-bit wrap-around), `NatsBucket`
and `NatsEnvelope`, `NatsKeys` (base64url, sections 3.2 and 5 of RFC 4648) and `Pagination`.

## Reading the model

- Protocols are machines: a state, labels, `Enabled` and `Apply`. A run is a sequence of
  states with a sequence of labels, and theorems quantify over all runs and positions.
- Clock readings are parameters or an `Advance` step; the clock of a run never goes back.
- Backend errors are steps of their own. `Fail` has no effect; `LoseReply` takes effect and
  reports an error.
- gzip, AES-GCM, the JSON readers and SHA-256 are function parameters. gzip and AES-GCM are
  taken as pairs that undo each other; SHA-256 as collision-free on the keys in use.
- Owner tokens come from a random source and are taken as distinct.
- Where the code wraps around at 64 bits the model does too.

## What is false of the code, and when it holds

- A store with a size cap and neither compression nor encryption does not read back every
  value it accepts. `Shaping.MarkedValueIsMisread` gives a value that is accepted and then
  refused; `Shaping.ReadsBackExactly` says of every configuration which accepted values read
  back, both ways, and `ShapedStore.UnreadableShows` that any other value is seen to differ.
- Refreshes are single-flight only while nobody else begins to release the lock of a running
  loader. `SingleFlight.SingleFlight` proves it for runs that spare their loaders;
  `SingleFlight.ForeignUnlockBreaksSingleFlight` continues every reachable state in which one
  is not spared to a state with two loaders, and `SingleFlight.TwoLoadersHappen` reaches two
  loaders from every fresh start.
- A NATS counter is the initial value plus the deltas of exactly the successful calls only
  while no reply of a swap is lost: `Increment` then reports an error for an update that took
  effect. `NatsCounter.SuccessesExactly` gives the exact condition, `NatsCounter.LostReplyCounts`
  a run that breaks it, and `NatsCounter.NoLostUpdates` what holds in every run.
- A memo store agrees with its backend at rest only while no mutation takes effect and
  reports an error, as a DeleteMany over files that stops halfway does: the memo is then not
  told. `MemoProtocol.Agreement` says that nothing else makes it differ,
  `MemoProtocol.LostMutationLeavesStale` that it then does, and `MemoProtocol.GetMemoizes` that
  the states for it are reached.

Where a comment and the code disagree: `readInt64` says that it rejects lossy conversions, and
converts a `uint` above the largest int64 all the same (`MemoryStore.LargeUintWraps`). No call
stores a `uint`, only bytes, so the branch is dead and the promise holds of every state the
store can reach (`MemoryStore.ReadsWithoutLoss`).

## Model

| member | source | states |
|---|---|---|
| `LeaseMachine.StepInv` | driver/natscache/store.go:189-273 | every abstract lease step keeps: earlier grants are over before later ones start, a release is recorded only against its own owner's grant, and the stored lease is the last open grant |
| `LeaseMachine.InvIsSafe` | driver/natscache/store.go:189-273 | at no instant do two grants of the key both hold, and nobody's grant was ended by somebody else's release |
| `NatsLease.StepRefines` | driver/natscache/store.go:189-273 | every bucket call or clock reading of any client, with lost replies, failures, writes to other keys and server expiry, is one abstract lease step |
| `NatsLease.MoveKeepsOwnPc` | driver/natscache/store.go:189-273 | what a client learned from its read stays true for as long as the revision it read is the current one |
| `NatsLease.SuccessorSurvives` | driver/natscache/store.go:238-273 | a release leaves any entry with another owner's token, and any entry written after its read, untouched, however late its delete arrives |
| `NatsLease.YesMeansDone` | driver/natscache/store.go:189-273 | whatever the interleaving, a call that answers yes has granted, or removed, a lease of its own owner at that very step |
| `NatsLease.ReplyTellsEffect` | driver/natscache/store.go:189-273 | a bucket call whose reply arrives ends its operation with yes if and only if it granted or removed a lease; one that does not end it changed nothing |
| `NatsLease.ErrorsAreAnswered` | driver/natscache/store.go:189-273 | any bucket call may fail, which ends the operation with an error and no effect, or lose its reply, which ends it with an error and the effect of the call |
| `NatsLease.AcquireAlone` | driver/natscache/store.go:189-235 | an undisturbed acquisition answers yes if and only if the key has no entry or an enveloped one whose positive stamp has passed, and then the bucket holds exactly its token with the stamp now plus TTL or default; an error if and only if the envelope is corrupt; otherwise no, and nothing changes |
| `NatsLease.ReleaseAlone` | driver/natscache/store.go:238-273 | an undisturbed release answers yes if and only if the key holds its token, bare or in an envelope that has not expired, and then a deletion marker is left; an error if and only if the envelope is corrupt; otherwise no, and nothing changes |
| `NatsLease.LeaseSafety` | driver/natscache/store.go:189-273 | in every run grants are mutually exclusive and only owners end them |
| `SqlLease.StepRefines` | driver/sqlcore/store.go:179-223 | insert, conditional update of an expired row and conditional delete are abstract lease steps, although the update compares against a clock reading taken before the insert |
| `SqlLease.ReplyTellsEffect` | driver/sqlcore/store.go:179-223 | a statement whose reply arrives ends its operation with yes if and only if it granted or removed a lease; one that does not end it changed nothing |
| `SqlLease.ErrorsAreAnswered` | driver/sqlcore/store.go:179-223 | any statement may fail without effect or take effect and lose its reply; both are answered with an error |
| `SqlLease.AcquireAlone` | driver/sqlcore/store.go:179-209 | an undisturbed acquisition answers yes if and only if there is no row or an expired one, and then the row is its token with the stamp now plus TTL or default; otherwise nothing changes |
| `SqlLease.ReleaseAlone` | driver/sqlcore/store.go:212-223 | an undisturbed release answers yes if and only if the row carries its token, and then the row is gone; otherwise nothing changes |
| `SqlLease.SuccessorSurvives` | driver/sqlcore/store.go:212-223 | a release statement never removes a row with another owner's token |
| `SqlLease.LeaseSafety` | driver/sqlcore/store.go:179-223 | in every run grants are mutually exclusive and only owners end them |
| `MemoryLease.StepRefines` | store_memory.go:89-109 | sections of the store mutex, with the janitor running beside them, are abstract lease steps |
| `MemoryLease.AcquireAlone` | store_memory.go:89-93 | an undisturbed acquisition answers yes if and only if there is no item or an expired one, and then the item is its token with the stamp now plus TTL or default; otherwise nothing changes |
| `MemoryLease.ReleaseAlone` | store_memory.go:96-109 | an undisturbed release answers yes if and only if the item is live with its token, and then the item is gone; otherwise nothing changes |
| `MemoryLease.SuccessorSurvives` | store_memory.go:96-109 | no step of a releasing client removes an entry with another token |
| `MemoryLease.LeaseSafety` | store_memory.go:89-109 | in every run grants are mutually exclusive and only owners end them |
| `FileLease.StepRefines` | store_file.go:192-227 | the file reads, removals and renames under the directory mutex, on the actual record bytes, are abstract lease steps |
| `FileLease.AcquireAlone` | store_file.go:192-212 | an undisturbed acquisition on a readable directory answers yes if and only if there is no record or an expired one, and then the record decodes to its token with the stamp now plus TTL or default; otherwise no, and nothing changes |
| `FileLease.ReleaseAlone` | store_file.go:215-227 | an undisturbed release answers yes if and only if the record is live with its token; the record is then gone, and so is an expired one |
| `FileLease.UndecodableIsDiscarded` | store_file.go:112-134 | a record that does not decode is removed and answered with an error, whatever the call |
| `FileLease.ErrorsAreAnswered` | store_file.go:112-227 | a read, rename or deletion that fails changes nothing and ends the call with an error; the removal of an expired record may fail unnoticed |
| `FileLease.SuccessorSurvives` | store_file.go:215-227 | no step of a releasing client removes a live record with another token |
| `FileLease.LeaseSafety` | store_file.go:192-227 | in every run grants are mutually exclusive and only owners end them |
| `DirectLocks.CacheDirectLocks.BeginAcquire` | cache.go:50-58 | reserves the key exactly when it has no entry |
| `DirectLocks.CacheDirectLocks.FinishAcquire` | cache.go:61-69 | held after a success, no entry after a failure |
| `DirectLocks.CacheDirectLocks.BeginRelease` | cache.go:72-80 | moves to releasing exactly when the key is held |
| `DirectLocks.CacheDirectLocks.FinishRelease` | cache.go:83-91 | no entry after a success, held again after a backend error |
| `LockProtocol.EntryStep` | cache.go:50-91 | every step keeps: no thread is inside an acquire or release of a key that is absent or held, exactly one is, on the right side, otherwise |
| `LockProtocol.HandleStep` | lock_handle.go:80-122 | every step keeps: a thread in the operation mutex means not held, and successful acquisitions lead successful releases by one exactly while a release is owed |
| `LockProtocol.NewHolding` | cache.go:853-867 | a live entry with a token appears only through a winning attempt under that token |
| `LockProtocol.CacheCleanStep` | cache.go:835-984 | every step keeps: a Cache whose key is absent, or whose thread is before a win or after a release, has no live entry |
| `LockProtocol.HandleCleanStep` | lock_handle.go:80-122 | every step keeps: a live entry of a handle's token means the handle is held or its mutex holder still owes a release |
| `LockProtocol.KeptStep` | store_memory.go:89-109 | a running grant survives every step but its owner's own backend calls |
| `LockProtocol.StepInv` | cache.go:835-1004 | all of these invariants together are kept by every step of every thread |
| `LockProtocol.RefreshKeysWrittenOut` | cache.go:1185 | refresh locks are the keys that start with the fifteen bytes of `__refresh_lock:` |
| `LockTheorems.NoOrphanedLock` | cache.go:835-984 | in every reachable state a live entry's owner is held, or has a thread between its win and a successful release, so it can still be released |
| `LockTheorems.LiveLockCanBeReleased` | cache.go:964-1004 | from every reachable state with a live entry, steps of one thread of its owner, at the same clock reading, leave the key without it |
| `LockTheorems.ExclusiveWithinTtl` | cache.go:853-867 | of two owners of one key at most one is within its TTL |
| `LockTheorems.StaleReleaseIsHarmless` | cache.go:964-1004 | a release leaves every entry with another token, and once its own grant has run out it leaves the whole store as it is |
| `LockTheorems.DirectLifecycle` | cache.go:50-91 | every step moves every key of every Cache along one edge of the cycle none, acquiring, held, releasing; at most one thread is inside; the closing writes find the entry their own opening left |
| `LockTheorems.HandleLifecycle` | lock_handle.go:80-122 | at most one thread inside a handle's mutex, successful backend acquisitions and releases alternate, a held handle issues no acquisition and a release reaches the backend only with an acquisition open |
| `LockTheorems.NobodyIsStuck` | cache.go:835-984 | in every run a thread inside a call can always go on: backend calls can be made and may err or not, retry loops can be given up, and a callback can end once the handle is free |
| `HandleCalls.WholeCall` | lock_handle.go:147-224 | a whole Get or Block, with other threads in between, runs its callback if and only if one of its attempts won, and leaves the handle held if and only if the backend call of its release failed |
| `SingleFlight.FlightStep` | cache.go:488-517 | every step that spares the loaders keeps: a loader's lifecycle is held and it is the only loader |
| `SingleFlight.SingleFlight` | cache.go:488-517 | in every run in which nobody but a loader begins to release the lock it loads under, two loaders of one key and Cache are the same thread, whatever the lock's TTL |
| `SingleFlight.ForeignUnlockBreaksSingleFlight` | cache.go:964-984 | that proviso is exact: from every reachable state, any step against it leads on to a reachable state with two loaders of one key |
| `SingleFlight.TwoLoadersHappen` | cache.go:488-517 | it does fail: from every fresh start, for every refresh key and any two threads, steps lead to a reachable state in which both load |
| `CacheLocks.Cache.TryLockOwned` | cache.go:853-867 | refuses a TTL that is not positive, passes on a backend error, else wins exactly when the lock key, `__lock:` before the key, has no live entry, and changes nothing unless it wins |
| `CacheLocks.Cache.TryLock` | cache.go:835-850 | a win is recorded in table and store; every other outcome leaves both as they were; what readers find under keys without `__lock:` never changes |
| `CacheLocks.LockKeysApart` | cache.go:1182 | lock keys are the seven bytes of `__lock:` before the caller's key, and distinct keys have distinct ones |
| `CacheLocks.LocksSpareValues` | cache.go:853-1004 | no attempt and no release changes what is found, at any time, under a key that does not start with `__lock:` |
| `CacheLocks.LoopSparesValues` | cache.go:924-946 | nor does the retry loop beyond what other threads leave to it |
| `CacheLocks.AnswersIgnoreValues` | cache.go:853-1004 | what a lock call answers depends on no key that does not start with `__lock:` |
| `CacheLocks.TriedMeans` | cache.go:853-867 | an attempt wins if and only if the lock key is free, and the token is then found under it up to now plus the TTL and not after |
| `CacheLocks.Cache.LockOwned` | cache.go:924-946 | the retry loop, meeting whatever other threads leave before each attempt, answers with the first attempt that is not a plain no, and otherwise stops with nothing changed |
| `CacheLocks.Cache.Reserve` | cache.go:904-912 | the local wait reserves the key in the first table it meets without it, and otherwise leaves the last one as it is |
| `CacheLocks.Cache.Lock` | cache.go:892-916 | answers what the retry loop answers once the local lifecycle is free; a win is held in the table, any other outcome leaves the table as the wait found it |
| `CacheLocks.Cache.UnlockOwned` | cache.go:992-1004 | removes the lock entry exactly while it is live with the given token, and nothing on a backend error |
| `CacheLocks.Cache.Unlock` | cache.go:964-984 | closes a held lifecycle and removes the entry only if it is still this Cache's; a backend error leaves lifecycle and store as they were; keys without `__lock:` are untouched |
| `CacheLocks.LockHandle.Acquire` | lock_handle.go:80-94 | makes no backend call when held; becomes held exactly on a win |
| `CacheLocks.LockHandle.Release` | lock_handle.go:111-122 | touches the store only if it was held; held afterwards exactly if the backend call of a held handle failed |
| `CacheLocks.LockHandle.Get` | lock_handle.go:147-169 | without a win nothing changes; after the callback, whatever it leaves of store and flag, the handle is released once, and stays held exactly if that fails |
| `CacheLocks.LockHandle.Block` | lock_handle.go:202-224 | the same with the retry loop's answer; a held handle makes no attempt |
| `CacheLocks.UnlockUndoesTryLock` | cache.go:835-984 | a release within the lease restores the table, and no reader can tell the store from what it was |
| `CacheLocks.StaleUnlockKeepsSuccessor` | cache.go:964-1004 | a release by an owner without a live entry closes the lifecycle and leaves the store alone |
| `CallsAsSteps.TryLockAsSteps` | cache.go:835-850 | the protocol's three steps of a TryLock, uninterrupted, do what the method computes, backend error or not |
| `CallsAsSteps.TryLockCanRun` | cache.go:835-850 | an idle thread can begin an acquisition if and only if its Cache has no entry for the key, and can then make its backend call |
| `CallsAsSteps.AttemptsCanGoOn` | cache.go:924-946 | after each attempt of an acquisition the next one or the end of the call is possible, and a retrying call may give up at any time |
| `DirectCalls.WholeAcquisition` | cache.go:835-916 | a whole TryLock, Lock or refresh acquisition over run positions, with any steps of other threads in between and give-ups among its own: the key was free in the table, stays reserved, and ends held exactly if the retry loop of the method wins on the turns its attempts met, and otherwise free |
| `DirectCalls.AttemptLeaves` | cache.go:924-946 | each attempt of such a call leaves in the store what the method's loop leaves after it |
| `CallsAsSteps.UnlockAsSteps` | cache.go:964-984 | the steps of an Unlock do what the method computes; a backend error puts the lifecycle back to held |
| `CallsAsSteps.AcquireAsSteps` | lock_handle.go:80-94 | the steps of Acquire, and of Get up to its callback, do what the method computes |
| `CallsAsSteps.HandleCanRun` | lock_handle.go:80-122 | an idle thread can begin an acquisition of a handle, of any kind, if and only if its mutex is free and it is not held, and a release if and only if it is held |
| `HandleCalls.CallbackOnLoopWin` | lock_handle.go:147-224 | a whole Get or Block over run positions runs its callback exactly if the retry loop of the method wins on the turns its attempts met |
| `HandleCalls.AttemptLeaves` | lock_handle.go:202-216 | each attempt of such a call leaves in the store what the method's loop leaves after it |
| `CallsAsSteps.ReleaseAsSteps` | lock_handle.go:111-122 | the steps of Release, alone or after a callback, do what the method computes; a backend error sets the flag again |
| `CallsAsSteps.EmptyReleaseAsSteps` | lock_handle.go:111-116 | a release that finds the handle not held changes nothing |
| `MemoStore.MemoStore.Snapshot` | store_memo.go:67-74 | entry and generation are read together |
| `MemoStore.MemoStore.Publish` | store_memo.go:81-85 | memoizes only while the generation is the one the read started from |
| `MemoStore.MemoStore.Forget` | store_memo.go:196-201 | drops the key and advances the generation modulo 2^64 |
| `MemoStore.MemoStore.Get` | store_memo.go:67-88 | answers from the memo or the backend; on a coherent memo answers what the backend holds and stays coherent; a backend error changes nothing |
| `MemoStore.MemoStore.Set` | store_memo.go:91-97 | writes through, drops the memo entry and keeps coherence; a failed write leaves memo and generation alone |
| `MemoStore.MemoStore.Add` | store_memo.go:100-109 | writes and invalidates exactly when the key was absent, and keeps coherence; a failed write leaves all alone |
| `MemoStore.MemoStore.Delete` | store_memo.go:161-167 | removes from backend and memo and keeps coherence; a failed call leaves all alone |
| `MemoStore.MemoStore.DeleteMany` | store_memo.go:170-181 | removes all the keys from backend and memo, advances the generation once and keeps coherence; a failed call leaves memo and generation alone, and the memo coherent exactly if the backend dropped none of the keys it holds |
| `MemoStore.MemoStore.Flush` | store_memo.go:184-193 | empties both and advances the generation; a failed call as for DeleteMany |
| `MemoProtocol.StepInv` | store_memo.go:67-201 | every step keeps: a memo entry, or a read that may still publish, is as new as every invalidated write to its key |
| `MemoProtocol.Freshness` | store_memo.go:67-88 | in every run a Get that starts after the last step of a mutation of its key answers what that write or a later one left for the key, however slow reads finish in between |
| `MemoProtocol.Agreement` | store_memo.go:170-201 | a memo entry differs from the backend only while a mutation covering its key has written and not yet invalidated, or after one that took effect and reported an error |
| `MemoProtocol.GetAtRest` | store_memo.go:67-88 | with no mutation of its key in flight from its start to its return, none lost before, and any other steps in between, a Get answers what the backend answers at any moment of it |
| `MemoProtocol.LostMutationLeavesStale` | store_memo.go:170-181 | from every state at rest that memoizes a key rightly, a mutation of it that takes effect and reports an error leaves the memo stale at rest |
| `MemoProtocol.GetMemoizes` | store_memo.go:67-88 | such states are reached: one Get from a fresh start memoizes its key |
| `MemoProtocol.MemoIsUsed` | store_memo.go:67-74 | a memoized key is answered from the memo, without the backend |
| `MemoProtocol.OthersStayMemoized` | store_memo.go:170-201 | an invalidation leaves every key that its mutation does not cover memoized |
| `MemoProtocol.MutationCompletes` | store_memo.go:91-97 | from every state an idle thread can write any value under a key and invalidate it: the backend then answers that value and the memo nothing |
| `MemoProtocol.ReadsGoOn` | store_memo.go:67-88 | a Get that missed can read the backend, which may fail, publish what it read and return |
| `NatsCounter.StepInv` | driver/natscache/store.go:276-350 | every step, lost replies included, keeps: a swap whose revision still matches adds its delta to the current value, and the stored value is the running total of the commits |
| `NatsCounter.TotalIsWrappedSum` | driver/natscache/store.go:276-355 | wrapping at every commit equals wrapping the exact sum once |
| `NatsCounter.NoLostUpdates` | driver/natscache/store.go:276-355 | in every run without expiry the stored number is the initial one plus the deltas of exactly the calls that took effect, each once, modulo 2^64: those that succeeded and those whose reply was lost; each wrote the prefix sum at its own commit |
| `NatsCounter.SuccessesExactly` | driver/natscache/store.go:276-355 | it is the initial one plus the deltas of exactly the successful calls if and only if the lost ones sum to zero modulo 2^64 |
| `NatsCounter.RepliesMakeItExact` | driver/natscache/store.go:276-355 | while every reply arrives it is |
| `NatsCounter.LostReplyCounts` | driver/natscache/store.go:327-345 | a run of one call, told of an error, that moves the counter by any delta |
| `NatsCounter.BoundedAttempts` | driver/natscache/store.go:276-350 | a call makes at most sixteen swap attempts in a run, and one that gives up has no commit of its own and sixteen by others since it began |
| `NatsCounter.NoSpuriousFailure` | driver/natscache/store.go:276-350 | in every run without backend errors each call succeeds, or has made all its sixteen swap attempts |
| `NatsCounter.IncrementAlone` | driver/natscache/store.go:276-350 | an undisturbed call on a number returns the wrapped sum and stores it with the stamp now plus TTL or default |
| `NatsCounter.IncrementOfOther` | driver/natscache/store.go:276-316 | on anything else it fails and leaves the bucket alone |
| `NatsCounter.ValueMeans` | driver/natscache/store.go:276-316 | a number is nothing stored, empty text or decimal text, with or without an envelope, and nothing else |
| `NatsCounter.BodyMeans` | driver/natscache/store.go:318-345 | what is stored decodes to the number and its stamp, or is its decimal text where the bucket has its own TTL |
| `NatsCounter.ErrorsAreAnswered` | driver/natscache/store.go:276-350 | a failing bucket call ends the call as failed without effect; a lost reply has the effect of the swap and is never answered as a success |
| `RateLimit.Limit` | cache.go:790-816 | the method over the memory store answers and stores what the function `RateLimit` says, error cases included |
| `RateLimit.BucketKeyInjective` | cache.go:800-801 | distinct limiter keys, or distinct buckets, never share a counter key |
| `RateLimit.BucketKeyLayout` | cache.go:800-801 | the counter key is the limiter key, a colon and the decimal bucket number |
| `RateLimit.BucketCounts` | cache.go:799 | a moment lies in the window its bucket numbers |
| `RateLimit.BucketMirrors` | cache.go:799 | division is toward zero: moments before the epoch mirror those after it |
| `RateLimit.BadSettingsAreRefused` | cache.go:790-797 | a limit, else a window, that is not positive is refused before anything is stored |
| `RateLimit.ResetBounds` | cache.go:808-814 | the reset time is after now by at most one window |
| `RateLimit.CallCounts` | cache.go:790-816 | a call that finds no live counter, or one at n, makes it n + 1, outliving the bucket, and gives the matching verdict |
| `RateLimit.FixedWindow` | cache.go:790-816 | in every run of a bucket whose first call finds no live counter, with other keys' operations in between, the k-th call gets count k and remaining max(0, limit - k), exactly min(n, limit) of n calls are allowed and the counter is readable until the reset time |
| `ExpiringMap.SetLasts` | store_memory.go:62-70 | after a Set the value is found up to now plus the TTL, or the default for a TTL that is not positive, and not after |
| `ExpiringMap.AddIsSetOnMiss` | store_memory.go:73-86 | Add is Set where Get misses, and otherwise changes nothing and says so |
| `ExpiringMap.OthersUntouched` | store_memory.go:47-145 | an operation changes nothing that is found under any other key, at any time |
| `MemoryStore.MemoryStore.Get` | store_memory.go:47-59 | finds exactly the live entry |
| `MemoryStore.MemoryStore.Set` | store_memory.go:62-70 | the abstract Set, with the default for a TTL that is not positive |
| `MemoryStore.MemoryStore.Add` | store_memory.go:73-86 | stores exactly when there is no live entry |
| `MemoryStore.MemoryStore.LockAcquire` | store_memory.go:89-93 | wins exactly when there is no live entry |
| `MemoryStore.MemoryStore.LockRelease` | store_memory.go:96-109 | removes exactly a live entry with the owner's token |
| `MemoryStore.MemoryStore.ReadInt64` | store_memory.go:195-206 | zero without an entry, an error for bytes that are not a number |
| `MemoryStore.ReadsWithoutLoss` | store_memory.go:194-239 | of every stored representation, a number that is read is the one denoted, unless it is a `uint` beyond int64 |
| `MemoryStore.RefusesExactly` | store_memory.go:194-239 | refused are exactly the representations that denote no number, and `uint64` values beyond int64 |
| `MemoryStore.LargeUintWraps` | store_memory.go:223-224 | the unchecked branch, which no call can reach: the largest `uint` would read as minus one |
| `MemoryStore.MemoryStore.Increment` | store_memory.go:112-126 | the abstract Increment, with 64-bit wrap-around |
| `MemoryStore.MemoryStore.DeleteMany` | store_memory.go:140-145 | the loop removes exactly the given keys |
| `FileRecord.RoundTrip` | store_file.go:145-189 | every record the store writes is read back whole as a CFR2 record, whatever bytes key and value hold |
| `FileRecord.DecodeLaidOut` | store_file.go:398-419 | any CFR2 layout is read field by field and never as CFR1 or JSON |
| `FileRecord.Layout` | store_file.go:145-189 | a written record is the bytes of `CFR2`, the big-endian stamp, the key length, the key and the value |
| `FileRecord.ReadsOlderRecord` | store_file.go:398-419 | `CFR1` data is a record with no key, its stamp and its value, for all bytes |
| `FileRecord.ReadsOtherData` | store_file.go:398-419 | a key length beyond the data is refused; data without either mark, or shorter than a header, is read as JSON |
| `FileStore.PathIsStoreEntry` | store_file.go:310-319 | Flush recognises every path the store writes |
| `FileStore.EntryOrForeign` | store_file.go:310-319 | Flush takes for its own exactly the names that start with `.cache-tmp-` and those of 64 hexadecimal digits and `.cache` |
| `FileStore.FlushLeavesForeign` | store_file.go:286-319 | after a complete Flush exactly the subdirectories and the foreign files are left, as they were |
| `FileStore.HexDigits` | store_file.go:391-395 | record names are lower-case hexadecimal, high half first |
| `FileStore.PathInjective` | store_file.go:391-395 | keys without a hash collision have distinct paths |
| `FileStore.GetSimulates` | store_file.go:112-134 | a read answers as the expiring map does and its clean-up changes nothing a reader can see |
| `FileStore.SetSimulates` | store_file.go:145-189 | writing a record is the map's Set |
| `FileStore.AddSimulates` | store_file.go:192-207 | Add answers and stores as the map's |
| `FileStore.IncrementSimulates` | store_file.go:230-249 | Increment answers and stores as the map's |
| `FileStore.DeleteSimulates` | store_file.go:265-283 | deleting the paths is deleting the keys |
| `FileStore.FlushSimulates` | store_file.go:286-307 | after Flush no key in use has a record |
| `FileStore.FileRefinesMap` | store_file.go:112-319 | every sequence of calls on a non-decreasing clock answers as on an expiring map |
| `FileStore.FaultFreeStep` | store_file.go:112-319 | without I/O errors the calls, loops included, are exactly the steps of that refinement |
| `FileStore.FaultsAreAtomic` | store_file.go:144-189 | whatever reading, writing, renaming or removing fails, and wherever a removal loop stops, each key shows its old entry or the one the completed call would leave |
| `FileStore.TempIsNoRecord` | store_file.go:151-155 | a left-over temporary file is no key's record |
| `FileStore.FileStore.Get` | store_file.go:112-134 | missing, unreadable, undecodable, expired and live records, with failing reads and removals |
| `FileStore.FileStore.Set` | store_file.go:145-189 | a built and renamed temporary file leaves exactly the new record; a failure at any stage leaves the records alone and at most the temporary file behind |
| `FileStore.FileStore.Add` | store_file.go:192-207 | the abstract Add on the directory, with failing reads and writes |
| `FileStore.FileStore.LockRelease` | store_file.go:215-227 | removes the record exactly when it is live with the owner's token, and reports unreadable records and failed removals as errors |
| `FileStore.FileStore.Increment` | store_file.go:230-249 | the abstract Increment on the directory, with failing reads and writes |
| `FileStore.FileStore.DeleteMany` | store_file.go:273-283 | the loop removes the paths of the keys in order, up to the first removal that fails |
| `FileStore.FileStore.Flush` | store_file.go:286-307 | removes nothing if the directory cannot be read; else the loop removes exactly the store's own files, in listing order, up to the first removal that fails; subdirectories and foreign files survive wherever it stops |
| `Shaping.GzipRoundTrip` | cachecore/shaping.go:351-417 | an accepted compressed value decodes to itself under the same cap |
| `Shaping.EncryptRoundTrip` | cachecore/shaping.go:317-348 | decryption undoes encryption, and an encrypted body never looks compressed |
| `Shaping.AcceptedReadsBack` | cachecore/shaping.go:106-134 | under every configuration an accepted value reads back byte for byte; with the cap alone this needs a value without the CMP1 mark, or one that is its own decompression |
| `Shaping.ReadsBackExactly` | cachecore/shaping.go:351-417 | under every configuration exactly those accepted values read back |
| `Shaping.MarkedValueIsMisread` | cachecore/shaping.go:383-392 | a marked value that is accepted and then refused on the read |
| `Shaping.UnmarkedPassesThrough` | cachecore/shaping.go:332-335 | stored bytes without a mark read unchanged under every configuration when they fit the cap, and are too large otherwise |
| `Shaping.BoundedDecompression` | cachecore/shaping.go:383-417 | an intact gzip envelope gives the whole value exactly when envelope and value fit, else too large |
| `Shaping.Layouts` | cachecore/shaping.go:317-380 | a compressed value is `CMP1g` and the gzip bytes, an encrypted one `ENC1`, the nonce size, the nonce and the sealed bytes |
| `Shaping.MarksWrittenOut` | cachecore/shaping.go:332-392 | a mark is recognised from five bytes on, by its first four |
| `Shaping.TamperedIsRefused` | cachecore/shaping.go:332-348 | under every encrypting configuration an encrypted body that does not open, is cut short or names another nonce size is an error, never a value |
| `Shaping.TamperedInsideIsRefused` | cachecore/shaping.go:332-348 | the same of a body found inside a compressed one |
| `Shaping.BrokenCompressionIsRefused` | cachecore/shaping.go:383-417 | under every shaping configuration a marked body with another codec, one that does not open as gzip, or one whose stream breaks off within the cap is an error, never a value |
| `Shaping.ReadStream` | cachecore/shaping.go:398-412 | the reading loop draws no byte beyond its limit and reports what the stream holds within it |
| `Shaping.DecodeValueStreaming` | cachecore/shaping.go:383-417 | decoding with a cap draws at most one byte more than the cap from the decompressor |
| `ShapedStore.WriteRepresents` | cachecore/shaping.go:119-134 | a write of a readable value is refused exactly for its size, and otherwise stores a body that stands for the value; values are unreadable only with the cap alone and a CMP1 mark |
| `ShapedStore.CountersAgree` | cachecore/shaping.go:158-165 | the backend reads a counter exactly where the plain store does; an envelope is never taken for a number |
| `ShapedStore.StepSimulates` | cachecore/shaping.go:106-178 | every operation through the wrappers, writes of readable values only, answers as on the plain store and keeps the two related |
| `ShapedStore.ShapedRefinesPlain` | cachecore/shaping.go:51-75 | for every configuration and every sequence of calls that write readable values the shaped store answers as a plain expiring map |
| `ShapedStore.UnreadableShows` | cachecore/shaping.go:106-125 | that proviso is exact: any other accepted value is not what the very next Get answers |
| `ShapedStore.WrapStore` | cachecore/shaping.go:51-90 | which settings make a wrapped store, with which layers, and which of the three errors the others give |
| `ShapedStore.CounterReadsBack` | cachecore/shaping.go:158-165 | after an Increment, Get answers the decimal text of the counter whenever it fits the cap |
| `ShapedStore.Wrapped.Get` | cachecore/shaping.go:106-116 | the stacked readers answer what the abstract read does |
| `ShapedStore.Wrapped.Set` | cachecore/shaping.go:119-125 | encryption, then compression and cap, then the backend write |
| `ShapedStore.Wrapped.Add` | cachecore/shaping.go:128-134 | likewise for Add |
| `ShapedStore.Wrapped.Increment` | cachecore/shaping.go:158-160 | counters bypass the envelopes |
| `NatsEnvelope.EncodeBuffer` | driver/natscache/store.go:484-494 | the filled buffer is the envelope: mark, big-endian stamp, value |
| `NatsEnvelope.RoundTrip` | driver/natscache/store.go:484-517 | decoding an envelope gives back value and stamp for all bytes |
| `NatsEnvelope.Layout` | driver/natscache/store.go:484-494 | an envelope is the bytes of `NCV1`, the stamp in two's complement, big-endian, and the value |
| `NatsEnvelope.ReadsOtherBodies` | driver/natscache/store.go:497-517 | a body without that mark is plain unless it starts with a brace; then the JSON reader decides between corrupt, plain and an older envelope |
| `NatsEnvelope.ExpiredMeans` | driver/natscache/store.go:257-259 | expired means a positive stamp before now |
| `NatsKeys.JoinSplit` | driver/natscache/store.go:525-542 | cutting bytes into groups of six bits and joining them again is the identity for every byte string |
| `NatsKeys.DecodeEncode` | driver/natscache/store.go:525-542 | unpadded base64url decoding undoes encoding for every byte string, and encodings hold no dot |
| `NatsKeys.Alphabet` | driver/natscache/store.go:525-542 | the sixty-four letters are those of base64url |
| `NatsKeys.DecodesExactly` | driver/natscache/store.go:525-542 | a text decodes if and only if, line breaks aside, all its bytes are of the alphabet and their number is not one more than a multiple of four |
| `NatsKeys.UnbrokenAppends` | driver/natscache/store.go:525-542 | line breaks are skipped byte by byte |
| `NatsKeys.SkipsLineBreaks` | driver/natscache/store.go:525-542 | and nothing but carriage return and line feed is |
| `NatsKeys.PartRoundTrip` | driver/natscache/store.go:525-542 | decodeCacheKey undoes encodeKeyPart for every string, the empty one included |
| `NatsKeys.ScopeIsExact` | driver/natscache/store.go:411-413 | a full key starts with a store's scope prefix if and only if it was built with that prefix |
| `NatsKeys.CacheKeyInjective` | driver/natscache/store.go:411-413 | the full key determines prefix and key |
| `NatsKeys.KeyLayout` | driver/natscache/store.go:411-413 | a full key is `p.`, the encoded prefix, `.k.` and the encoded key, with an underscore for an empty part |
| `NatsKeys.Bucket.Flush` | driver/natscache/store.go:380-408 | the loop purges exactly the listed keys with the scope prefix; an error of the lister or a purge is reported, and no key outside the scope is ever touched |
| `NatsKeys.FlushStaysInScope` | driver/natscache/store.go:380-408 | a Flush removes all of its own namespace and leaves every other namespace as it was |
| `Pagination.NormalizeListLimit` | cachecore/inspect_helpers.go:11-19 | a limit from 1 to 500 is kept, a larger one capped, any other becomes 100 |
| `Pagination.CursorRoundTrip` | cachecore/inspect_helpers.go:22-40 | a cursor decodes to the offset it was made from |
| `Pagination.TrimTakesSpace` | cachecore/inspect_helpers.go:22-26 | what trimming takes off a cursor is white space, and what it leaves neither starts nor ends with any |
| `Pagination.SpacesWrittenOut` | cachecore/inspect_helpers.go:22-26 | white space is that of Unicode, byte sequence by byte sequence |
| `Pagination.CursorRefused` | cachecore/inspect_helpers.go:22-32 | a cursor is refused if and only if, trimmed, it is not empty and no number or a negative one |
| `Pagination.FilterAndSortEntries` | cachecore/inspect_helpers.go:52-65 | the result is a permutation of the entries whose key contains the filter, in the byte order of their keys |
| `Pagination.LessMeans` | cachecore/inspect_helpers.go:52-65 | one key is before another if and only if at their first difference it has the smaller byte, or ends |
| `Pagination.ContainsMeans` | cachecore/inspect_helpers.go:52-65 | a key contains the filter if and only if it is some text, the filter and some text |
| `Pagination.ListingIsUnique` | cachecore/inspect_helpers.go:52-65 | an entry set in which a key names one entry has one listing, however it was enumerated |
| `Pagination.SliceSpans` | cachecore/inspect_helpers.go:68-88 | a page continues the listing where the offset stands, and says exactly whether there is more |
| `Pagination.PageIsFull` | cachecore/inspect_helpers.go:68-88 | a page has as many entries as the limit allows and the listing has left; none beyond its end |
| `Pagination.ListPage` | store_memory.go:186-191 | the answer is a page of a listing of the entries, or the malformed-cursor error |
| `Pagination.PaginationComplete` | cachecore/inspect_helpers.go:11-88 | following cursors with any limits ends after at most one page per entry and one more, and the pages together are the matching entries in key order, each once |
| `Pagination.CursorsLeadOn` | cachecore/inspect_helpers.go:22-88 | every cursor given with a promise of more is accepted and leads to the entry after those seen |
| `Bytes.ParseFormat` | store_memory.go:112-126 | decimal text of a 64-bit integer parses to that integer |
| `Bytes.ParsesExactly` | store_memory.go:195-206 | digits, with or without a sign, parse to their value if and only if it is a 64-bit integer |
| `Bytes.ParsesNothingElse` | store_memory.go:195-206 | text with any other byte, a lone sign and empty text do not parse |
| `Bytes.Int64RoundTrip` | driver/natscache/store.go:484-517 | big-endian 64-bit stamps, negative ones included, are read back |
| `Bytes.BigEndianOrder` | driver/natscache/store.go:484-517 | the first byte of a big-endian number is the most significant |

## Left out

- The lease machines follow one lock key each; writes to other keys appear only as revision bumps (NATS) or not at all.
- The NATS and SQL operations are step machines on values and not classes with loops, because what matters about them is interleaving; NATS Create is one atomic step.
- NatsCounter.NoLostUpdates: entries that expire or are deleted during a run are excluded, as the promise is about a counter that stays.
- MemoProtocol.Freshness: TTL expiry and writers outside the memo store are excluded; staleness there is documented behaviour. A publication guarded by a generation that has come round 2^64 times is excluded too.
- MemoryStore.MemoryStore.ReadInt64: the class holds bytes, all that any call stores; the other representations are only in `NumberOf`.
- RateLimit.FixedWindow: increments that land after their bucket has ended are excluded; they count in a bucket nobody asks about any more.
- FileLease: the mutex is per process, so two processes that share a directory are outside the claim, as they are outside the code's.
- Expired-entry clean-up without a revision check in the NATS and SQL Get, and the SQL Increment and ListPage.
- The file store's ListPage, whose expiry test differs from that of Get.
- Redis, Memcached and DynamoDB drivers, and stores without the lock capability, whose release is an unconditional delete.
- The internals of gzip, AES-GCM, SHA-256, JSON and go-cache.
- Observers, typed and JSON helpers, contexts beyond a stop at any time, factories, configuration defaults, and the null, error and failing stores.
