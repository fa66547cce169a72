# A Dafny model of the logging pipeline

This project models the parts of kit-logger that carry its guarantees and proves what
they promise for every input, every run and every interleaving.

- **The buffered handler** (`Buffer`, `BufferInvariant`, `BufferGuarantees`,
  `BufferErrors`, `BufferReturns`, `BufferRefusal`, `BufferProgress`, `BufferCore`). Any number of Handle, Flush and Shutdown calls and one worker share a
  bounded queue. Every lock operation, state check, channel operation and counter update
  is one step; the reader/writer lock is a reader count and a writer flag; a `select` is
  a choice among its ready cases. One inductive invariant carries the argument that
  leaving `running` under the write lock makes an empty queue final. `BufferErrors`
  follows every downstream error from its recording to the one caller it is handed to;
  `BufferReturns` says what each Flush and Shutdown returns and when its context is the
  reason; `BufferRefusal` which calls can still be refused; `BufferProgress` that no Flush
  or Shutdown is ever stuck. `BufferCore` is the handler as an
  object with the code's loops, and its drain, its Handle and its Flush are shown to be
  runs of the step machine.
- **Two stacked buffers under one lifecycle group** (`Stack`, `StackInvariant`,
  `StackGuarantees`, `StackResults`, `StackErrors`, `StackOrder`), in either handler order,
  with the shared shutdown, its one drain goroutine and the errors callers are shown.
- **Lifecycle discovery** (`Lifecycle`): the depth-bounded walk over handler graphs that
  may have cycles.
- **The attribute normaliser** (`Dedup*`). Nodes are heap objects with a representation
  set (`DedupNodes`, `DedupHandler`), refined to a pure tree (`Dedup`), refined to a fold
  over single write events (`DedupEvents`). `DedupLeaves` reads those events
  off the attributes themselves. `DedupOutput`, `DedupForwarded` and `DedupReserved` carry
  the statements about the tree over to the attributes Handle forwards, renamed keys and
  fast path included.
- **The two bounded caches** (`Eviction`, `Sampling`, `SamplingRuns`, `SamplingExactly`,
  `Rate`, `RateState`, `RateRuns`, `RateExactly`, `RateDebt`): state classes with the code's loops, proved to
  make a pure step; theorems over runs of that step. An iteration over a map meets the
  keys in an arbitrary order.
- **Filtering and global fields** (`Filter*`, `GlobalFields`, `Attrs`, `AttrTrees`).
- **End-to-end accounting** (`Pipeline*`): gate, limiter, buffer and counter hook with
  any number of calls and a shutdown running side by side. `PipelineClosed` says from
  which states the buffer rejects nothing more, `PipelinePerCall` that each call is judged
  by its own limit and counts its own metric.

## Where comments claim more than the code does

The model follows the code. Each point has a statement saying when the claim holds.

- `pkg/logger/handler/dedup_handler.go:286-288`: renaming a reserved key can produce a
  key that is already there (`DedupShape.KeysUnique`, `DedupShape.RenameCollision`).
- `pkg/logger/handler/dedup_handler.go:143-154`: a clean record with a zero attr is
  forwarded untouched, while the slow path would drop that attr
  (`DedupFixpoint.FastPathAgrees`). So holding an attr and nesting it by hand can forward
  different records (`DedupOutput.ZeroBreaksNesting`; exactly when:
  `DedupOutput.HeldDerivationsNest`).
- `pkg/logger/handler/dedup_handler.go:63-66`: a pinned value is always forwarded, but
  not always alone at its key: a pinned level and a record's attr.level share the printed
  key attr.level (`DedupForwarded.PinnedTwin`; exactly when:
  `DedupForwarded.PinnedForwarded`).
- `pkg/logger/handler/dedup_handler.go:224-226`: a WithGroup under which nothing is ever
  written still erases an unpinned scalar of that name (`DedupMeaning.HeldIsNestedIff`).
- `pkg/logger/handler/sampling_handler.go:370-378` and `pkg/logger/rate.go:337-345`: with
  a tie at the cutoff the fallback can drop an entry newer than one it keeps
  (`Eviction.FallbackMayDropNewer`).
- `pkg/logger/handler/global_fields_handler.go:139-140`: without override a record that
  repeats a global key keeps the repeats (`GlobalFields.GlobalKeysOnce`).
- `pkg/logger/slog_logger.go:190-194` and `pkg/logger/lifecycle.go:225-229`: there is a
  window in which a call passes the gate and the buffer rejects it
  (`PipelineWindow.PassedAndRejected`). It is shut exactly when the shutdown has begun and
  no admitted call has its state check in the buffer still ahead
  (`PipelineClosed.RejectsNoMoreExactly`).
- `pkg/logger/config.go:441-453`: a Sink's own buffer is listed before the one added in
  front of it. In that order, and only in that order, a shutdown can lose accepted records
  (`StackOrder.ShutdownOrderExactly`) and a group flush can return nil over a record that
  is not delivered (`StackOrder.FlushOrderExactly`), for buffers of any sizes.
- `pkg/logger/handler/filter_handler.go:212-214`: a rule that looks at values can take
  what another rule has written, so redacting twice can differ from redacting once
  (`FilterMeaning.ValueRulesChain`; exactly when: `FilterMeaning.RedactTwiceIff`).

## Model

| member | source | states |
|---|---|---|
| `BufferInvariant.NextKeeps` | pkg/logger/handler/buffered_handler.go:134-374 | every single step of every Handle, Flush, Shutdown and worker thread keeps the inductive invariant: lock bookkeeping, send window, phases, FIFO order, barriers, counters, first error |
| `BufferInvariant.ExecKeeps` | pkg/logger/handler/buffered_handler.go:134-374 | so does every run, of any length and interleaving |
| `BufferInvariant.WritersExcludeSenders` | pkg/logger/handler/buffered_handler.go:294-301 | while the write lock is held no Handle or Flush is between its state check and its send |
| `BufferGuarantees.NoSendAfterRunning` | pkg/logger/handler/buffered_handler.go:237-279 | once the core has left running nobody is about to send; a Flush in its select still has a live worker, and one that sees the worker gone while waiting always finds its barrier closed, so the two fallback branches are unreachable |
| `BufferGuarantees.DrainIsFinal` | pkg/logger/handler/buffered_handler.go:341-374 | when workerDone is closed the queue is empty now and after any further run, everything accepted is processed, every accepted barrier is closed |
| `BufferGuarantees.FlushDelivers` | pkg/logger/handler/buffered_handler.go:186-222 | if Flush leaves through its barrier, every record whose Handle returned nil before that Flush began has come back from the downstream Handle |
| `BufferGuarantees.BarriersOnce` | pkg/logger/handler/buffered_handler.go:197-222 | in every run each barrier is queued at most once and closed at most once, exactly when the worker reaches it, and no channel is closed twice |
| `BufferGuarantees.Fifo` | pkg/logger/handler/buffered_handler.go:343-384 | delivered, then in hand, then queued records are the accepted sequence; the queue never exceeds its capacity; after workerDone delivered equals accepted |
| `BufferGuarantees.DeliveredAsSubmitted` | pkg/logger/handler/buffered_handler.go:126-158 | what is delivered is the record, the handler view and the context of the call that submitted it, the background context standing for a nil one |
| `BufferGuarantees.Conservation` | pkg/logger/handler/buffered_handler.go:313-320 | Handle calls == accepted + Dropped + Rejected + still running, with the public counters exact at every moment |
| `BufferGuarantees.ShutdownMeansDrained` | pkg/logger/handler/buffered_handler.go:288-311 | a Shutdown that leaves through workerDone finds nothing queued and nothing accepted missing downstream |
| `BufferReturns.ShutdownReturns` | pkg/logger/handler/buffered_handler.go:281-311 | Shutdown returns nil only when the worker is gone, nothing is queued and everything accepted was delivered; while the worker is not gone it returns nothing but its context's error |
| `BufferReturns.ShutdownCtxExactly` | pkg/logger/handler/buffered_handler.go:305-310 | over every run: a Shutdown that has returned did so without the worker if and only if its context fired, and then with the context's error |
| `BufferReturns.FlushReturns` | pkg/logger/handler/buffered_handler.go:186-279 | a Flush that has returned went through its closed barrier, or its context ended it, or it met a handler that is not running before it had queued anything: it never returns nil otherwise, and an expired slice never ends it while the handler runs |
| `BufferReturns.FlushCtxExactly` | pkg/logger/handler/buffered_handler.go:260-279 | over every run: a returned Flush reports its context's error without its barrier if and only if its context fired; one whose context fired never returns through the barrier |
| `BufferReturns.FlushRetries` | pkg/logger/handler/buffered_handler.go:197-222 | after an expired slice the Flush tries again: with room, no writer and the handler running, its own next six steps queue its barrier |
| `BufferProgress.ShutdownCanFinish` | pkg/logger/handler/buffered_handler.go:177-183 | from every reachable state each Shutdown that has not returned can be brought to return with everything drained, by steps of the calls and the worker there are: whoever holds the lock can let go of it, a Flush by its slice |
| `BufferProgress.FlushCanFinish` | pkg/logger/handler/buffered_handler.go:186-222 | from every reachable state each Flush that has not returned can be brought to return without its context: through its barrier or with the shutdown error |
| `BufferGuarantees.ErrorReportedOnce` | pkg/logger/handler/buffered_handler.go:395-403 | one step: takeErr returns the first error noted since the last call and leaves none behind; `BufferErrors` says it over runs |
| `BufferErrors.NilMeansNothingRecorded` | pkg/logger/handler/buffered_handler.go:395-403 | in every run, a Flush through its barrier or a drained Shutdown that returns nil had no error recorded since one was last handed out |
| `BufferErrors.HandedWasRecorded` | pkg/logger/handler/buffered_handler.go:386-403 | in every run, each error a Flush or Shutdown caller is handed is one the worker recorded, and the first recorded since an error was last taken |
| `BufferErrors.HandedOnce` | pkg/logger/handler/buffered_handler.go:190-196 | two hand-outs of a run never hand out the same recorded error: each is reported to at most one caller |
| `BufferErrors.ErrorsCounted` | pkg/logger/handler/buffered_handler.go:386-393 | at every moment of every run HandlerErrors is the number of downstream failures, but for the one the worker is about to count, and each counted failure is recorded once |
| `BufferRefusal.CanBeRefused` | pkg/logger/handler/buffered_handler.go:134-158 | from any reachable state a Handle call whose state check is still ahead, or that has seen a state other than running, can be driven to its refusal by the threads there are and a Shutdown: every lock holder has a way to let go |
| `BufferRefusal.DecidedStays` | pkg/logger/handler/buffered_handler.go:134-158 | once no call is of that kind, no step but a new Handle call makes the handler refuse one |
| `BufferCore.BufferedCore.Handle` | pkg/logger/handler/buffered_handler.go:134-158 | accepts, drops or refuses by state and capacity; the result, the queue and exactly one counter say which |
| `BufferCore.BufferedCore.TryEnqueueBarrier` | pkg/logger/handler/buffered_handler.go:237-258 | given which case its select takes: the four ways out, and that a barrier is queued only in running; the lock and the wait are in the step machine |
| `BufferCore.BufferedCore.Drain` | pkg/logger/handler/buffered_handler.go:362-393 | the loop empties the queue in order, closes exactly the queued barriers, counts every downstream error and keeps the first |
| `BufferCore.BufferedCore.Finish` | pkg/logger/handler/buffered_handler.go:341-359 | after the stop signal: drained, state stopped, workerDone closed |
| `BufferCore.BufferedCore.Shutdown` | pkg/logger/handler/buffered_handler.go:288-311 | a shutdown on its own: everything queued is delivered in order, the first error is returned and cleared, the state is stopped and the worker gone |
| `BufferCore.DrainRuns` | pkg/logger/handler/buffered_handler.go:362-393 | the worker of the step machine, run alone, delivers, closes and records exactly what the drain loop does |
| `BufferCore.HandleRuns` | pkg/logger/handler/buffered_handler.go:134-158 | a Handle call of the step machine, run alone, returns and changes what the method does |
| `BufferCore.FlushRuns` | pkg/logger/handler/buffered_handler.go:197-222 | a Flush call of the step machine over an idle buffer, with the worker, queues its barrier, has it closed and returns nil through it |
| `StackInvariant.StackExecKeeps` | pkg/logger/lifecycle.go:181-263 | two stacked buffers under one group: every run, in either handler order, keeps the joint invariant |
| `StackGuarantees.GroupFlushDelivers` | pkg/logger/lifecycle.go:181-199 | with the outer buffer first, a group flush that returns nil has every record the outer buffer accepted before the call at the sink or in the inner Dropped count |
| `StackGuarantees.NothingRefusedBelow` | pkg/logger/lifecycle.go:255-263 | with the outer buffer first, no record the outer buffer accepted is ever refused by the inner one, through the whole shutdown |
| `StackGuarantees.ShutdownLosesNothing` | pkg/logger/lifecycle.go:246-263 | after a completed outer-first shutdown every record the outer buffer accepted is at the sink or in the inner Dropped count |
| `StackGuarantees.SharedShutdown` | pkg/logger/lifecycle.go:201-263 | the drain starts at most once and only after stopping is set; each caller gets its own context error or the one final error; that error is the first translated one in handler order and is readable only when both workers are gone |
| `StackResults.FlushResult` | pkg/logger/lifecycle.go:181-199 | over every run: a group flush that has returned was turned away by a stopping group, or returns the first failure of its two Flush calls in handler order, a handler's shutdown error, under any number of layers, shown as the logger's and any other error as it is; the handlers' shutdown error reaches no caller, bare or wrapped |
| `StackResults.FlushAfterStop` | pkg/logger/lifecycle.go:185-187 | a group flush that begins once the group is stopping asks no handler and returns the logger's shutdown error |
| `StackResults.ShutdownResult` | pkg/logger/lifecycle.go:216-263 | the same for the final error of the shared shutdown and for what each of its callers gets: that error, or its own context's |
| `StackErrors.OuterCountsInner` | pkg/logger/handler/buffered_handler.go:313-320 | over every run of the two buffers: the outer HandlerErrors, with the failure its worker is about to count or be told of, is exactly inner Dropped + inner Rejected |
| `StackGuarantees.ShutdownIsFinal` | pkg/logger/lifecycle.go:146-148 | stopping is never cleared, the final error never changes, and both queues stay empty |
| `StackOrder.ShutdownOrderExactly` | pkg/logger/config.go:441-453 | for two buffers of any sizes: some run makes the inner buffer refuse a record the outer one had accepted if and only if the inner buffer is listed first, as for a Sink that is itself buffered |
| `StackOrder.FlushOrderExactly` | pkg/logger/lifecycle.go:181-199 | for two buffers of any sizes: some run has a group flush return nil while a record the outer buffer accepted before it is neither at the sink nor dropped below if and only if the inner buffer is listed first |
| `Lifecycle.CollectFlushers` | pkg/logger/lifecycle.go:99-122 | the recursive walk appends exactly the ends of all routes, in walk order, and ends on cyclic graphs |
| `Lifecycle.FoundExactly` | pkg/logger/lifecycle.go:86-122 | a handler is found if and only if it is a Flusher and some chain of at most 32 links leads to it |
| `Lifecycle.OutermostFirst` | pkg/logger/lifecycle.go:86-87 | on the route to any found Flusher, every Flusher passed on the way was found earlier by the same route |
| `Lifecycle.ChainInOrder` | pkg/logger/lifecycle.go:99-122 | on a chain of single links the walk finds exactly the Flushers of its first 33 handlers, in chain order |
| `Lifecycle.OuterListedFirst` | pkg/logger/lifecycle.go:86-87 | on a chain of at most 33 handlers with two Flushers the outer one is listed first: the order `StackGuarantees` asks for |
| `Lifecycle.FirstError` | pkg/logger/lifecycle.go:192-198 | the loop of flush and of shutdownAllToCompletion reports the first failure in handler order, a handler's shutdown error under any number of layers as the logger's and any other error unchanged, and nil exactly when nobody failed |
| `Errors.TranslateShows` | pkg/logger/lifecycle.go:265-273 | translation changes a result if and only if it is the handlers' shutdown error under some number of layers, and then to the logger's |
| `DedupNodes.DedupNode.Child` | pkg/logger/handler/dedup_handler.go:212-233 | the heap node hands out the nested node, makes one over a missing or unpinned scalar entry, and a detached one under a pinned scalar; the abstract tree says which |
| `DedupNodes.DedupNode.Insert` | pkg/logger/handler/dedup_handler.go:235-276 | the in-place insert makes of the abstract tree what the pure insert makes of it, for any nesting, pinned or not |
| `DedupNodes.DedupNode.Materialize` | pkg/logger/handler/dedup_handler.go:278-302 | printing the heap tree is printing the abstract tree |
| `DedupHandler.IsClean` | pkg/logger/handler/dedup_handler.go:134-156 | the one-pass check accepts exactly records without groups, reserved or repeated keys |
| `DedupHandler.Build` | pkg/logger/handler/dedup_handler.go:110-127 | pinned attrs, held ops replayed through the moving node and the record leave a heap tree equal to the pure replay |
| `DedupHandler.Handle` | pkg/logger/handler/dedup_handler.go:105-132 | the whole call forwards the pure output, fast path included |
| `DedupEvents.ReplayIsFold` | pkg/logger/handler/dedup_handler.go:110-127 | the replay is a fold of single write events, one after the other from the root |
| `DedupEvents.LastWriteWins` | pkg/logger/handler/dedup_handler.go:212-276 | a path holds a value if and only if some unblocked event wrote it there and no later unblocked event undid it, or it was pinned so and nothing undid it |
| `DedupEvents.FirstWriteOrder` | pkg/logger/handler/dedup_handler.go:224-233 | the keys of a level are those first written since that level was last made, in that order |
| `DedupEvents.TreeOfEvents` | pkg/logger/handler/dedup_handler.go:110-127 | both statements for the tree a Handle call builds, at every path and every level |
| `DedupLeaves.EventsAreLeaves` | pkg/logger/handler/dedup_handler.go:110-127 | the values a Handle call writes are, in order, the leaves of the nested tree of what was held and recorded, groups without a name inlined and zero attrs left out |
| `DedupShape.TreeWF` | pkg/logger/handler/dedup_handler.go:194-276 | every level lists each of its keys once, at any depth, for all pinned attrs, ops and records |
| `DedupShape.LevelDistinct` | pkg/logger/handler/dedup_handler.go:281-302 | the keys printed for a level are distinct if and only if renaming is injective on the entries that print |
| `DedupShape.KeysUnique` | pkg/logger/handler/dedup_handler.go:74-75 | no key twice inside any group; none twice at the top level if and only if the record was forwarded untouched or no reserved key prints beside an unreserved attr.-prefixed twin |
| `DedupShape.CollisionsOnly` | pkg/logger/handler/dedup_handler.go:286-288 | that twin is the only way the renaming can collide |
| `DedupShape.RenameCollision` | pkg/logger/handler/dedup_handler.go:286-288 | it does happen: a record with level and attr.level prints attr.level twice |
| `DedupMeaning.HeldIsNested` | pkg/logger/handler/dedup_handler.go:114-127 | with no pinned group and a non-empty record, holding WithAttrs and WithGroup builds the same tree as inserting the right-fold nesting |
| `DedupMeaning.HeldIsNestedIff` | pkg/logger/handler/dedup_handler.go:215-233 | for every record, holding prints what nesting prints if and only if no held WithGroup with nothing under it opens over an unpinned scalar |
| `DedupMeaning.HeldSlowPathNests` | pkg/logger/handler/dedup_handler.go:110-131 | the same for the slow path of a handler whose pinned attrs are scalars |
| `DedupOutput.DerivedHolds` | pkg/logger/handler/dedup_handler.go:158-188 | deriving with any WithAttrs and WithGroup calls holds exactly the calls that are not ignored, in order |
| `Attrs.ValidExactly` | pkg/logger/handler/global_fields_handler.go:190-198 | filterValidAttrs drops exactly the attrs with an empty key, wherever they stand, and keeps the order of the others |
| `DedupOutput.HeldDerivationsNest` | pkg/logger/handler/dedup_handler.go:105-131 | what Handle forwards, fast path included, for a handler derived by any calls from one with scalar pinned attrs is what the underived handler forwards for the nested tree if and only if nothing is held, or no held group is stranded over a scalar and the nested tree is not a clean one with a zero attr and no pins |
| `DedupOutput.ZeroBreaksNesting` | pkg/logger/handler/dedup_handler.go:105-108 | the zero attr does break it: held x=1 and a record of one zero attr |
| `DedupPins.TreeOfList` | pkg/logger/handler/dedup_handler.go:235-276 | every list of pinned attrs is the tree it builds, with groups without a name inlined: a key given twice keeps its first place and its last value, groups of one key become one group, and a scalar of that key takes the group's place for good |
| `DedupPins.PinnedNeverLose` | pkg/logger/handler/dedup_handler.go:63-66 | in the tree a Handle call builds, every pinned path keeps that value under any held ops and record, and the pinned keys come first in the order of their first places |
| `DedupPins.OnlyGroupsGrowPins` | pkg/logger/handler/dedup_handler.go:212-260 | without WithGroup a pinned group gains no member |
| `DedupForwarded.ValuesPrinted` | pkg/logger/handler/dedup_handler.go:278-302 | the values forwarded at the printed place of a path are the one the tree holds there and the one it holds at the path's twin (level and attr.level), as a multiset |
| `DedupForwarded.PinnedForwarded` | pkg/logger/handler/dedup_handler.go:63-66 | in what Handle forwards, for every list of pinned attrs: the pinned keys that print come first, renamed, in order; each pinned value stands at its printed path, and alone there if and only if the tree holds nothing at the path's twin |
| `DedupForwarded.PinnedTwin` | pkg/logger/handler/dedup_handler.go:286-288 | it need not be alone: a pinned level and a record's attr.level |
| `DedupForwarded.ForwardedByEvents` | pkg/logger/handler/dedup_handler.go:105-132 | a value is forwarded at the printed place of a path if and only if the call's write events leave it at that path or at its twin, for every value but a zero attr |
| `DedupForwarded.EveryLeafWritten` | pkg/logger/handler/dedup_handler.go:105-132 | every forwarded leaf but a zero attr stands at the printed place of a path at which the write events leave its value |
| `DedupForwarded.LevelsForwarded` | pkg/logger/handler/dedup_handler.go:224-302 | the keys of every forwarded level are those that print among the keys first written there since the level was made, in that order, renamed at the top; a clean record with a zero attr, forwarded untouched, is the one exception |
| `DedupFixpoint.FastPathAgrees` | pkg/logger/handler/dedup_handler.go:102-108 | for a clean record the slow path forwards the same attrs in the same order minus zero attrs, so both agree if and only if the record has no zero attr |
| `DedupFixpoint.Idempotent` | pkg/logger/handler/dedup_handler.go:105-132 | deduplicating an output again changes nothing if and only if no renaming collided (or the record was clean), for scalar unreserved pinned attrs and a reserved set whose renamings are unreserved |
| `DedupFixpoint.DefaultSettles` | pkg/logger/handler/dedup_handler.go:77-81 | the default reserved set is time, level and msg, and is of that kind |
| `DedupReserved.ReservedNeverForwarded` | pkg/logger/handler/dedup_handler.go:67-92 | for all pinned attrs, given keys, derivations and records: no forwarded top-level attr has the key time, level or msg, and one has a non-empty given key only if that key is itself what another protected key is renamed to |
| `DedupReserved.ProtectedNeverForwarded` | pkg/logger/handler/dedup_handler.go:67-92 | where no renaming is itself given, no protected key is ever forwarded |
| `DedupReserved.ProtectedIsRenamed` | pkg/logger/handler/dedup_handler.go:286-288 | a value written under a protected key k is forwarded under attr.k |
| `Eviction.TargetsAgree` | pkg/logger/rate.go:308-323 | the limiter's and the sampler's target formulas are equal for every maxKeys >= 1, lie in [0, maxKeys-1], and are zero only for maxKeys 1 |
| `Eviction.QuarterGoes` | pkg/logger/rate.go:303-316 | three quarters are kept: what a forced pass takes of maxKeys is a quarter, rounded down, but at least one |
| `Eviction.CutoffCounts` | pkg/logger/handler/sampling_handler.go:358-363 | in the sorted buffer the indexed cutoff has at least target values at or above it and fewer than target strictly above it |
| `Eviction.ForcedExact` | pkg/logger/handler/sampling_handler.go:344-380 | a forced pass leaves exactly target entries, none older than the cutoff, in every iteration order |
| `Eviction.NoTieWhenDistinct` | pkg/logger/handler/sampling_handler.go:370-372 | distinct timestamps leave no tie at the cutoff |
| `Eviction.NoTieKeepsNewest` | pkg/logger/handler/sampling_handler.go:364-368 | without a tie the survivors are precisely the newest target entries |
| `Eviction.CutoffIgnoresOrder` | pkg/logger/handler/sampling_handler.go:358-363 | the order in which the buffer is filled does not matter |
| `Eviction.FallbackMayDropNewer` | pkg/logger/handler/sampling_handler.go:370-378 | survivors are never older than dropped entries, in every iteration order, if and only if there is no tie or nothing is newer than the cutoff; otherwise the fallback can drop a newer entry |
| `Sampling.NewConfig` | pkg/logger/handler/sampling_handler.go:180-224 | a negative interval becomes 0, MaxKeys below 1 becomes 4096, a probability outside (0, 1] becomes 1; valid values are kept |
| `Sampling.BadProbabilityEmits` | pkg/logger/handler/sampling_handler.go:187-191 | the gate stops a record exactly when the configured probability is positive and not above the draw: unset and out-of-range ones never stop any |
| `Sampling.SamplingState.EvictLocked` | pkg/logger/handler/sampling_handler.go:328-381 | both passes, the zero target, the cutoff and the fallback, with the evicted counter exact on every path |
| `Sampling.SamplingState.Allow` | pkg/logger/handler/sampling_handler.go:261-302 | the decision and the whole new table and counters |
| `Sampling.SamplingState.Handle` | pkg/logger/handler/sampling_handler.go:235-243 | records below MinLevel bypass gate, table and counters; others go by allow |
| `SamplingRuns.Simulates` | pkg/logger/handler/sampling_handler.go:261-342 | with a clock that does not go back every decision is that of a table without a bound that forgets only what forced passes take |
| `SamplingRuns.UntilForced` | pkg/logger/handler/sampling_handler.go:328-342 | until a forced pass takes something the sampler is the unbounded table |
| `SamplingExactly.EmitsExactly` | pkg/logger/handler/sampling_handler.go:261-302 | with a clock that does not go back: after an emission of a key its next record is emitted if and only if it comes a whole Interval later, as long as no forced pass takes the key |
| `SamplingExactly.TrackedExactly` | pkg/logger/handler/sampling_handler.go:275-290 | the same for any clock while the key is tracked |
| `SamplingExactly.FirstIsEmitted` | pkg/logger/handler/sampling_handler.go:291-302 | the first record of an untracked key that passes level and gate is emitted |
| `SamplingExactly.OutsideTheTable` | pkg/logger/handler/sampling_handler.go:235-268 | records below MinLevel are always emitted, gated ones never, and with interval zero all that pass the gate |
| `SamplingExactly.NothingEvictedWithRoom` | pkg/logger/handler/sampling_handler.go:328-331 | nothing is evicted while there is room, or by a record of a tracked key |
| `SamplingRuns.ClockMustNotGoBack` | pkg/logger/handler/sampling_handler.go:334-338 | a concrete run in which the clock goes back and the bounded table emits what the unbounded one would hold back |
| `SamplingRuns.Spacing` | pkg/logger/handler/sampling_handler.go:39-41 | two emitted records of a key lie at least Interval apart, from any state, unless a forced pass took the key between them |
| `SamplingRuns.Accounts` | pkg/logger/handler/sampling_handler.go:386-396 | never more than MaxKeys entries; Evicted + TrackedKeys == insertions; Suppressed == refusals; for any clock |
| `SamplingRuns.ForcedOnlyWhenFull` | pkg/logger/handler/sampling_handler.go:328-380 | a forced pass happens only to a full table of entries younger than the interval, and takes a quarter of it, at least one |
| `SamplingRuns.ZeroIntervalEmits` | pkg/logger/handler/sampling_handler.go:250-268 | interval zero emits whatever passes the gate and stores nothing |
| `Rate.ExtractLogOptions` | pkg/logger/rate.go:350-368 | plain arguments are all kept, in order; of several options of a kind the last counts; absent options stay nil |
| `Rate.PlainsExactly` | pkg/logger/rate.go:353-355 | exactly the options are taken out, wherever they stand; the other arguments keep their order |
| `RateState.RateEntry.AllowN` | pkg/logger/rate.go:249 | the idealised burst-1 limiter: it allows if and only if it never did or a whole interval has gone by since, and remembers when |
| `RateState.RateEntry.Decide` | pkg/logger/rate.go:245-259 | an invalid entry always allows; an emission reports and clears the count; a refusal adds one |
| `RateState.RateState.EvictLocked` | pkg/logger/rate.go:286-348 | both passes over entry objects in place, evicted counter included |
| `RateState.RateState.ShouldLog` | pkg/logger/rate.go:196-260 | the verdict and the whole new state: clamped clock, conflict and invalid-interval counters and warnings, table, evictions |
| `RateState.ShouldLogOn` | pkg/logger/rate.go:196-202 | the same on a possibly missing state: without one every call is admitted, nothing counted and no field added |
| `RateRuns.Simulates` | pkg/logger/rate.go:196-306 | with a clock that does not go back and one interval per key, every verdict (permission, count, field) is that of a table without a bound that forgets only what forced passes take |
| `RateRuns.UntilForced` | pkg/logger/rate.go:268-306 | until a forced pass takes something the limiter is the unbounded table |
| `RateExactly.EmitsExactly` | pkg/logger/rate.go:196-260 | with a clock that does not go back and one positive interval for the key: after an emission a later call is allowed, being the first since, if and only if it comes a whole interval later, as long as no forced pass takes the key |
| `RateExactly.FirstIsAllowed` | pkg/logger/rate.go:229-243 | the first call for an untracked key is allowed and reports nothing, for any interval and clock |
| `RateExactly.TrackedExactly` | pkg/logger/rate.go:208-260 | for any clock and whatever intervals the calls present, while the key is tracked: the same law in terms of the entry's own interval and the latest time the key was seen |
| `RateExactly.SeenIsLatest` | pkg/logger/rate.go:209-217 | a tracked entry shows the latest time its key was seen: its clock never goes back |
| `RateExactly.InvalidNeverLimits` | pkg/logger/rate.go:101-106 | an entry made with a non-positive interval limits nothing as long as it is tracked, whatever intervals later calls present |
| `RateExactly.UnlimitedLeavesNoTrace` | pkg/logger/rate.go:196-202 | a call without a rate limit, or with an empty key, is allowed, and every other verdict and the final state are those of the run without it |
| `RateExactly.ReportsCounted` | pkg/logger/rate.go:219-241 | over any run: the two counters count exactly the calls that present a differing interval and those that create an entry with a non-positive one, and the latter are warned about as often |
| `RateExactly.NothingEvictedWithRoom` | pkg/logger/rate.go:286-289 | nothing is evicted while there is room, or by a call for a tracked key |
| `RateRuns.Spacing` | pkg/logger/rate.go:78-80 | a key is emitted at most once per interval unless a forced pass took it between |
| `RateDebt.RoomDebt` | pkg/logger/rate.go:268-274 | making room costs exactly what the entries a forced pass takes still owed; the first pass loses nothing |
| `RateDebt.Conserved` | pkg/logger/rate.go:249-258 | over any run and any clock: refusals == reported counts + counts of live entries + counts lost to forced passes |
| `RateDebt.ReportsSinceLast` | pkg/logger/rate.go:59-67 | an emission reports exactly the refusals of its key since the key's previous emission |
| `RateDebt.OwedUntil` | pkg/logger/rate.go:208-258 | up to the next emission only the key's own refusals change what it will report, and the field is added exactly when the count is positive |
| `RateDebt.IntervalFixed` | pkg/logger/rate.go:219-228 | an entry keeps the interval it was created with as long as it is tracked |
| `RateDebt.ReportedOncePerEntry` | pkg/logger/rate.go:121-125 | a differing interval is warned about exactly once in the life of an entry, if it ever occurs |
| `RateDebt.Accounts` | pkg/logger/rate.go:262-348 | never more than maxKeys entries; evicted + tracked == insertions |
| `RateDebt.ForcedOnlyWhenFull` | pkg/logger/rate.go:290-347 | a forced pass happens only to a full table in which every entry is within its interval or still owes a report, and takes a quarter of it, at least one |
| `FilterHandler.MatchRule` | pkg/logger/handler/filter_handler.go:200-217 | the first rule that applies to the leaf, or none; when a rule applies is `FilterRules.RuleSelects` |
| `FilterRules.RuleSelects` | pkg/logger/handler/filter_handler.go:200-217 | a rule applies to a leaf if and only if its key folds to the leaf's bare key, or part by part to the group names and the key split at their dots, and the value it asks for, if any, is the leaf's printed one |
| `FilterRules.DotlessRule` | pkg/logger/handler/filter_handler.go:203-211 | a rule key without dots selects by the bare key alone, at every depth |
| `FilterRules.DottedRule` | pkg/logger/handler/filter_handler.go:203-211 | a rule key with dots, over names without, selects exactly the leaf at that path, one group name per part and the key last |
| `FilterRules.SplitDotted` | pkg/logger/handler/filter_handler.go:203-206 | the dotted path split at its dots gives back the group names and the key |
| `FilterRules.EqualFoldIs` | pkg/logger/handler/filter_handler.go:209 | texts are equal under folding if and only if they fold to the same text |
| `FilterRules.LeafBecomes` | pkg/logger/handler/filter_handler.go:187-191 | a leaf no rule applies to stays; any other gets the text of the first rule that applies, or [REDACTED] if that names none |
| `FilterHandler.FilterAttrs` | pkg/logger/handler/filter_handler.go:151-198 | reports a hit exactly when some leaf at any depth matches; in redact mode returns the redacted list, otherwise the list itself |
| `FilterHandler.Handle` | pkg/logger/handler/filter_handler.go:109-149 | the replay over held ops and the record forwards or drops what the specification says |
| `FilterMeaning.DropsExactly` | pkg/logger/handler/filter_handler.go:111-149 | for any derivation, drop mode forwards nothing if and only if some leaf of the nested tree of all held attrs and the record matches; otherwise it forwards everything unchanged |
| `FilterMeaning.RedactedLeaves` | pkg/logger/handler/filter_handler.go:151-198 | redaction replaces exactly the matching leaves by their first matching rule's replacement and keeps all paths, keys and the order |
| `FilterMeaning.RedactsExactly` | pkg/logger/handler/filter_handler.go:111-149 | the same for a whole call on a handler derived in any way, through the nested tree |
| `FilterMeaning.RedactCommutes` | pkg/logger/handler/filter_handler.go:119-145 | without empty groups, redacting piece by piece and then nesting is nesting and then redacting, as trees |
| `FilterMeaning.RedactTwiceIff` | pkg/logger/handler/filter_handler.go:151-198 | for every list of attributes: redacting twice is redacting once if and only if each leaf's replacement is taken by no rule, or first by one that writes the same |
| `FilterMeaning.RulesSettleAll` | pkg/logger/handler/filter_handler.go:187-217 | a condition on the rules alone under which redaction is idempotent on all inputs: no rule that could be first to take what another one writes writes something else |
| `FilterMeaning.OneKeyExactly` | pkg/logger/handler/filter_handler.go:208-217 | for rules of one key, redaction is idempotent on all inputs if and only if what each rule some value can reach writes is taken by no rule, or first by one that writes the same |
| `FilterMeaning.RedactTwice` | pkg/logger/handler/filter_handler.go:187-191 | in particular redaction is idempotent when no rule looks at values |
| `FilterMeaning.ValueRulesChain` | pkg/logger/handler/filter_handler.go:212-214 | with rules on values it need not be: a -> b and b -> c |
| `FilterMeaning.PathIsLiteral` | pkg/logger/handler/filter_handler.go:203-206 | the dotted path the filter matches is the path without unnamed groups if and only if every enclosing group has a name |
| `GlobalFields.Merge` | pkg/logger/handler/global_fields_handler.go:141-160 | the two loops compute the merge specification |
| `GlobalFields.MergeOccurs` | pkg/logger/handler/global_fields_handler.go:136-160 | how often every key occurs in the merged record |
| `GlobalFields.GlobalKeysOnce` | pkg/logger/handler/global_fields_handler.go:139-140 | each global key at most once if and only if override is set or the record repeats no global key |
| `GlobalFields.ReplacedValues` | pkg/logger/handler/global_fields_handler.go:145-152 | with override a global key carries the global value, without it the record's attrs are untouched |
| `GlobalFields.MergedInOrder` | pkg/logger/handler/global_fields_handler.go:14-20 | the merged record is the record's attrs that stay, each in its own place, the replaced ones by the global field of their key, followed by exactly the global fields the record lacks, in sorted key order |
| `GlobalFields.Lookup` | pkg/logger/handler/global_fields_handler.go:162-167 | the binary search over the sorted fields finds the field of a key if and only if there is one |
| `GlobalFields.Handle` | pkg/logger/handler/global_fields_handler.go:77-108 | all paths of Handle; appending on the collision-free path is the merge |
| `GlobalFields.HandleGrouped` | pkg/logger/handler/global_fields_handler.go:115-134 | the backward loop is the right fold |
| `GlobalFields.BuiltIsNest` | pkg/logger/handler/global_fields_handler.go:117-128 | without empty groups that fold is the plain nesting |
| `AttrTrees.NonEmptyExactly` | pkg/logger/handler/global_fields_handler.go:117-128 | building a group leaves out exactly its empty member groups |
| `GlobalFields.GlobalsStayOnTop` | pkg/logger/handler/global_fields_handler.go:27-35 | after a group was opened, the forwarded leaves are those of the nested tree with the global fields inserted at the top level, behind what was added before the group |
| `GlobalFields.NoFieldsTransparent` | pkg/logger/handler/global_fields_handler.go:228-243 | without global fields every call that is not ignored, groups included, goes to the wrapped handler, and the record is forwarded untouched |
| `GlobalFields.LessMeans` | pkg/logger/handler/global_fields_handler.go:64 | the order of the fields: at the first character in which two keys differ the smaller has the smaller one, or has ended |
| `PipelineInvariant.ExecKeeps` | pkg/logger/slog_logger.go:189-224 | every run of log calls, a shutdown and the buffer keeps the joint invariant |
| `PipelineGuarantees.EveryCallAccounted` | pkg/logger/slog_logger.go:189-224 | at every moment the calls ever made are gate-rejected + rate-suppressed + buffer-rejected + dropped + accepted + under way |
| `PipelineGuarantees.FinalAccounts` | pkg/logger/slog_logger.go:189-224 | at the end accepted is delivered, and every suppressed call was reported, is still owed, or was lost to a forced eviction; the hook fired once per emitted call with a metric |
| `PipelinePerCall.HookExactly` | pkg/logger/slog_logger.go:207-210 | over every run and for every metric: the hook was called with it exactly once per emitted call that named it, and never without a hook or for a call that named none |
| `PipelinePerCall.JudgedByOwnOption` | pkg/logger/slog_logger.go:199-203 | over every run and for every option: the limiter was asked with it once per call with it that passed the gate, and refused as often as calls with it were suppressed |
| `PipelinePerCall.CallKeepsItsOwn` | pkg/logger/slog_logger.go:189-210 | a call's context, view, record, option and metric are those it was made with, through every run and into the buffer |
| `PipelineGuarantees.EndingsAreTrue` | pkg/logger/slog_logger.go:189-224 | each ended call's ending is what happened to its record in the buffer, in both directions |
| `PipelineGuarantees.RejectedTouchesNothing` | pkg/logger/slog_logger.go:190-198 | a call that sees stopping changes no limiter entry, fires no hook and never reaches the buffer |
| `PipelineGuarantees.ClosedForGood` | pkg/logger/slog_logger.go:190-198 | once stopping is set and no admitted call is under way, no run changes limiter or hook, hands the buffer a record or makes it reject one |
| `PipelineClosed.RejectsNoMoreExactly` | pkg/logger/slog_logger.go:190-194 | from a reachable state no run makes the buffer reject another record if and only if stopping is set and no admitted call has its state check in the buffer, or the refusal it led to, still ahead |
| `PipelineGuarantees.BufferRejectsOnlyWhenStopping` | pkg/logger/slog_logger.go:190-198 | while the logger is not stopping the buffer has rejected nothing |
| `PipelineWindow.PassedAndRejected` | pkg/logger/slog_logger.go:190-198 | a concrete run: a call that passed the gate is rejected by the buffer, its counter fired, nothing was gate-rejected |

## Left out

- RateRuns.Simulates: x/time/rate is idealised to a burst-1 bucket in exact arithmetic, which allows when it never allowed or when a whole interval has passed; its internals are not modelled.
- SamplingRuns.Simulates: stated for a clock that does not go back; `SamplingRuns.ClockMustNotGoBack` shows that assumption is needed.
- RateRuns.UntilForced: stated for a clock that does not go back and one interval per key; after a key was reclaimed a later call may bring it back with another interval.
- StackGuarantees.GroupFlushDelivers: stated for the outer buffer listed first, the order in which discovery finds handlers; for the other order it is false, whatever the sizes (`StackOrder.FlushOrderExactly`).
- A comparison of held calls with nesting for handlers with pinned groups: there the two differ by design, since a pinned group gains members through WithGroup but not through a group attr.
- FilterMeaning.RedactCommutes: as whole trees only without empty groups, because slog removes empty members when it builds a group; `FilterMeaning.RedactsExactly` holds for all trees, leaf by leaf.
- DedupNodes.DedupNode.Store: an entry of a node is a value in the node's map, where the code has a separate entry object; nodes themselves are objects, and no entry object is ever shared.
- RateState.RateState.EvictLocked: its loops delete from a local copy of the map, which then replaces the field, all under the lock.
- LogValuer resolution, slog's record storage and record cloning: values are already resolved, records are sequences.
- Counters are unbounded integers; their 64-bit wrap-around is not modelled. Times and durations are integers without overflow or saturation.
- The 500 microsecond slice of Flush, contexts and the worker's random `select` are nondeterministic branches; the draw of the probability gate is an input of each record. A probability is a real number, so there is no NaN.
- RWMutex writer preference is over-approximated: a reader may still enter while a writer waits. Atomics are atomic steps; the memory model is not modelled.
- Panicking or re-entrant downstream handlers: they return, with or without an error.
- Case folding for filter keys is a parameter applied character by character; where rule keys are read part by part it is taken to leave dots alone, as Unicode case folding does.
- The sort that orders the global fields at construction: the fields are given in ascending key order.
- Aliasing of slices between sibling handlers (`slices.Clip`): held calls are values.
- The suppressed_count attribute is the verdict's count; the pipeline model does not put it into the record's body, which is opaque there.
- Terminal handlers, encoders and colours, caller and source attribution, component handlers, configuration parsing, globals, test helpers.
- The grpc, httpmw, otel and prometheus packages: wrappers over external libraries that would add only easy members.
