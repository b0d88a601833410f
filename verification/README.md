# Verified model of the pyramids handle cache, array kernels and sentinel search

A Dafny model of the parts of pyramids where a mistake is silent: the shared cache of open GDAL handles and the
managers that read through it, the vectorised kernels that stand in for simple loops, the search for a no-data value
the data does not hold, and three smaller pieces (archive members, the retrying GET, the window overlap test).
`dafny verify dfyconfig.toml` checks everything.

## What is modelled, and how

- **The handle cache** (`src/pyramids/base/_file_manager.py`) is modelled three times over the same blocks.
  `CacheModel.dfy` has one function per lock-held block of `_LRUCache`. `LruCache.dfy` and `CachingManager.dfy` are the
  classes that update their fields in place, each method proved equal to its block and its calls to `on_evict`
  recorded in order. `HandleProtocol.dfy` is the transition system: each lock-held block is an atomic step, and so are
  every open call, every single `on_evict` call, every read of `maxsize`, and every finalizer; any number of threads
  interleave them. `HandlePlaces.dfy` and `HandleInvariants.dfy` prove what each step keeps, `HandleSafety.dfy` what
  therefore holds in every reachable state. `HandleRefinement.dfy` ties the two: a thread that nothing interrupts takes
  the class's completed call, step by step. `CacheOps.dfy` and `Recency.dfy` prove the size promise and the
  least-recently-used order over runs of completed calls, and `CacheOrder.dfy` says of every completed operation, pinned
  keys included, what it does to each key, its handle and its place in the recency order.
- **The per-thread manager** is a class (`ThreadLocal.dfy`) and a transition system (`ThreadLocalProtocol.dfy`), tied
  by `ThreadLocalRefinement.dfy`.
- **The kernels** (`src/pyramids/base/_reductions.py`) work on one axis, over real numbers, with `None` for NaN.
  `LabelCells.dfy` and `QuantileReference.dfy` tell their results from the indices of the arrays the caller passes.
- **The sentinel search** (`src/pyramids/base/_domain.py`) works on exact integers, 8 to 64 bits wide, and keeps the
  wrap-around of the cast to `int64`.

Things given as parameters: whether an opener call succeeds (each success gives a handle never given before), whether a
close raises, which threads are alive, what the server answers, what an archive lists, the slice size of
the scan, the square root function.

Where the code and its documentation disagree the model follows the code:

- `_LRUCache.discard` is documented to reclaim a pinned handle "deterministically". Closing the same key twice while
  reads of it overlap parks one handle over another, and the first is never closed (`TwoClosesLoseAHandle`).
  `OrphanedOnlyBy` gives, for every reachable state, exactly the steps that lose a handle.
- `acquire_context` is documented to keep the handle in the cache when the block raises. The code drops it when this
  reader opened it, and drops whatever is in the slot then, which another manager sharing the key may have put there
  (`DropsAnothersSlot`).
- `ThreadLocalFileManager.acquire` is documented to return the thread's handle. When a `close` comes between registering
  and returning it returns one that has been closed (`ClosedWhileReturning`; `ReturnedIsOpen` has the exact condition).
- `_member_at` is documented to refuse absolute paths and drive traversals. It tests for them before it drops leading
  `.` and empty segments, so `./C:/x` and `./Z:../x` are accepted (`DriveComesOut`, `TraversalComesOut`;
  `AcceptedStaysOnDrive` has the exact condition).
- `reduce_by_label` is documented to give NaN for a group with no valid member. Its `sum` is 0.0 there
  (`AgreesWithStatistic`).

## Model

| member | source | states |
|---|---|---|
| `CacheModel.TrimWorks` | src/pyramids/base/_file_manager.py:279-318 | an eviction sweep stops at the target or when only pinned keys are left, never removes more than it must, and keeps the cache well formed |
| `CacheModel.VictimsAreOldest` | src/pyramids/base/_file_manager.py:302-310 | the evicted keys are exactly the unpinned ones among the oldest some number of keys |
| `CacheOps.InsertKeepsValid` | src/pyramids/base/_file_manager.py:348-374 | after an insert the key is held with its new value as the most recent one: an insert never evicts its own entry |
| `CacheOps.NewKeyIsBounded` | src/pyramids/base/_file_manager.py:367-371 | a new key always lands within the limit, or over it with no other unpinned key left |
| `CacheOps.ExecKeeps` | src/pyramids/base/_file_manager.py:272-542 | every completed operation, `clear` included, keeps the size promise: at most `maxsize` entries, or at most one unpinned one |
| `CacheOps.BoundedSize` | src/pyramids/base/_file_manager.py:279-290 | the promise in numbers: at most `maxsize` or one more than the pinned keys, and at most `maxsize` when no held key is pinned |
| `CacheOps.EveryRunIsBounded` | src/pyramids/base/_file_manager.py:272-542 | that bound after every sequence of operations on a new cache |
| `CacheOps.TwoClosesLoseAHandle` | src/pyramids/base/_file_manager.py:469-492 | seven calls after which a handle is in no slot, not parked, and was never handed to `on_evict` |
| `CacheOrder.SoonerIsOrder` | src/pyramids/base/_file_manager.py:342-346 | of two different held keys exactly one comes before the other, so the rows below settle the whole recency order |
| `CacheOrder.UsedIsLast` | src/pyramids/base/_file_manager.py:342-374 | a key looked up or assigned, pinned or not, is behind every other held key afterwards |
| `CacheOrder.UnusedKeepOrder` | src/pyramids/base/_file_manager.py:272-542 | whatever the operation, two keys it does not use and still held were held before, with the same handles and in the same order |
| `CacheOrder.OthersUntouched` | src/pyramids/base/_file_manager.py:272-542 | an operation other than `clear` leaves the pins, references, parked handle and entry of every other key alone, but for entries it hands to `on_evict` |
| `CacheOrder.EnterRefreshes` | src/pyramids/base/_file_manager.py:887-899 | after the entry to `acquire_context` the key is pinned once more and the most recent one, whoever else had it pinned; all other held keys keep their order, and what left was unpinned and handed over |
| `CacheOrder.OrderIsLastUse` | src/pyramids/base/_file_manager.py:272-542 | after any sequence of operations on a new cache, pins, closes and resets among them, of two held keys the one used last comes later in the order |
| `CacheOrder.TakenIsHanded` | src/pyramids/base/_file_manager.py:302-310 | a sweep hands over exactly the entries it takes, with their own handles, none of them pinned |
| `CacheOrder.SweptIsOlder` | src/pyramids/base/_file_manager.py:302-310 | whatever a sweep takes was used before every unpinned entry it leaves |
| `CacheOrder.HandedOldestFirst` | src/pyramids/base/_file_manager.py:305-310 | the swept entries are handed over least recently used first |
| `CacheOrder.CountsOf` | src/pyramids/base/_file_manager.py:405-542 | a pin adds one to its key and an unpin takes one off, never below zero, references likewise, and nothing but the setter moves the limit |
| `CacheOrder.ResetHandsAll` | src/pyramids/base/_file_manager.py:387-403 | `clear` hands every held handle over once, oldest first, pinned or not; no pin and no reference is left, and parked handles stay parked |
| `LruCache.LRUCache.Make` | src/pyramids/base/_file_manager.py:237-240 | a limit below one is refused, any other gives an empty cache |
| `LruCache.LRUCache.SelectEvictions` | src/pyramids/base/_file_manager.py:279-318 | the pop loop removes exactly the oldest unpinned entries needed, and returns them in eviction order |
| `LruCache.LRUCache.EnforceSizeLimit` | src/pyramids/base/_file_manager.py:320-340 | the sweep, and exactly the swept entries handed to `on_evict` in order |
| `LruCache.LRUCache.SetMaxsize` | src/pyramids/base/_file_manager.py:272-277 | a limit below one changes nothing; any other is set and swept down to |
| `LruCache.LRUCache.GetItem` | src/pyramids/base/_file_manager.py:342-346 | the value, its key the most recent one afterwards whether or not it is pinned, or a missing-key error and no change |
| `LruCache.LRUCache.SetItem` | src/pyramids/base/_file_manager.py:348-374 | overwrite and insert: the whole new state, and which displaced or evicted values are handed over |
| `LruCache.LRUCache.DelItem` | src/pyramids/base/_file_manager.py:376-378 | the entry leaves without a close; a missing key is an error and no change |
| `LruCache.LRUCache.Clear` | src/pyramids/base/_file_manager.py:387-403 | everything held is handed over, pins and reference counts are wiped, parked handles stay parked |
| `LruCache.LRUCache.Pin` | src/pyramids/base/_file_manager.py:405-418 | one pin more on the key, cached or not |
| `LruCache.LRUCache.Unpin` | src/pyramids/base/_file_manager.py:420-467 | one pin fewer; the last one hands over the parked handle first and then sweeps a cache over its limit; an untracked key is left alone |
| `LruCache.LRUCache.Discard` | src/pyramids/base/_file_manager.py:469-492 | the entry out: returned when unpinned, parked when pinned |
| `LruCache.LRUCache.Retain` | src/pyramids/base/_file_manager.py:494-497 | one referent more |
| `LruCache.LRUCache.Release` | src/pyramids/base/_file_manager.py:499-542 | one referent fewer; the last takes the entry out and hands it over or parks it |
| `CachingManager.CachingFileManager.constructor` | src/pyramids/base/_file_manager.py:775-814 | an auto-release manager registers one referent of its key, any other none |
| `CachingManager.CachingFileManager.Finalize` | src/pyramids/base/_file_manager.py:805-814 | the finalizer's effect on the cache and the handles handed over |
| `CachingManager.CachingFileManager.Acquire` | src/pyramids/base/_file_manager.py:846-862 | a hit opens nothing; a miss opens once and caches; an opener that raises changes nothing |
| `CachingManager.CachingFileManager.Enter` | src/pyramids/base/_file_manager.py:887-899 | what is yielded is in its slot and pinned; a failed open takes the pin back, with exactly the closes of that unpin |
| `CachingManager.CachingFileManager.ExitNormally` | src/pyramids/base/_file_manager.py:906-907 | leaving the block undoes the pin, with the closes and the sweep that follow |
| `CachingManager.CachingFileManager.ExitRaising` | src/pyramids/base/_file_manager.py:900-907 | a block that raises drops the slot only when this reader opened it, then undoes the pin |
| `CachingManager.CachingFileManager.Drop` | src/pyramids/base/_file_manager.py:909-921 | the entry leaves without a close, a missing one is ignored |
| `CachingManager.CachingFileManager.Close` | src/pyramids/base/_file_manager.py:923-937 | afterwards the key is not held; its handle is closed now or parked, and no other entry changes |
| `HandlePlaces.StepMoves` | src/pyramids/base/_file_manager.py:279-542 | whatever the atomic step, every handle stays in exactly one place, and which place |
| `HandleInvariants.PinsKept` | src/pyramids/base/_file_manager.py:405-467 | a step keeps the pin count of every key equal to the number of threads between pin and unpin |
| `HandleInvariants.RefsKept` | src/pyramids/base/_file_manager.py:494-542 | a step keeps the reference count of every key equal to its registered managers |
| `HandleInvariants.ParkedKept` | src/pyramids/base/_file_manager.py:452-455 | a step keeps parked handles waiting for a pinned key |
| `HandleInvariants.UsersKept` | src/pyramids/base/_file_manager.py:864-907 | no step of any thread puts a handle somebody reads through on a close list |
| `HandleInvariants.DebtKept` | src/pyramids/base/_file_manager.py:456-467 | a step keeps the size promise, or a thread that still owes the sweep |
| `HandleInvariants.StepKeeps` | src/pyramids/base/_file_manager.py:272-542 | every atomic step keeps all of these together |
| `HandleSafety.NoUseAfterClose` | src/pyramids/base/_file_manager.py:864-907 | in every interleaving, the handle a reader goes through is not closed and on no thread's list of handles about to be closed |
| `HandleSafety.CountsAreExact` | src/pyramids/base/_file_manager.py:245-258 | in every interleaving, pins count the readers and reference counts the live auto-release managers |
| `HandleSafety.ExactlyOnePlace` | src/pyramids/base/_file_manager.py:348-374 | every handle ever opened is in exactly one of: a thread's hands, a slot, a parking place, a close list, closed, abandoned |
| `HandleSafety.ClosedOnce` | src/pyramids/base/_file_manager.py:320-340 | no handle is closed twice, and none both closed and abandoned |
| `HandleSafety.OrphanedOnlyBy` | src/pyramids/base/_file_manager.py:355-366 | a step abandons a handle exactly when it displaces a pinned value, parks over a parked one, drops a failed reader's slot, or a close raises before the end of its list |
| `HandleSafety.DropsAnothersSlot` | src/pyramids/base/_file_manager.py:900-903 | a reachable state in which a failed reader's drop takes out and abandons the handle another reader is reading |
| `HandleSafety.ParkedHasReader` | src/pyramids/base/_file_manager.py:262-265 | a parked handle always has a reader of its key to wait for |
| `HandleSafety.LastReaderCloses` | src/pyramids/base/_file_manager.py:441-455 | the last reader to leave, and no other, takes the parked handle off to be closed |
| `HandleSafety.FinalizerSharesOrReleases` | src/pyramids/base/_file_manager.py:499-542 | a finalizer leaves a shared slot alone; the last one empties it, its handle listed for closing or parked |
| `HandleSafety.SizeWithoutDebt` | src/pyramids/base/_file_manager.py:420-467 | under any interleaving the size bound holds whenever no thread still owes a sweep |
| `HandleSafety.AtRest` | src/pyramids/base/_file_manager.py:420-467 | with no call in progress nothing is parked, the cache is within its limit, and every handle is held, closed or abandoned |
| `HandleSafety.CleanRunsLeakNothing` | src/pyramids/base/_file_manager.py:469-492 | a run without the four abandoning steps leaks nothing |
| `HandleRefinement.AloneIsRun` | src/pyramids/base/_file_manager.py:846-937 | a thread running by itself to the end of its call is one of the interleavings |
| `HandleRefinement.AcquireAlone` | src/pyramids/base/_file_manager.py:846-862 | run alone, the steps of `acquire` give the completed call's cache and close exactly what the insert evicts |
| `HandleRefinement.EnterAlone` | src/pyramids/base/_file_manager.py:887-899 | run alone, the steps of `acquire_context` up to the yield leave the pinned cache of the class, reading the handle in the slot |
| `HandleRefinement.FailedOpenAlone` | src/pyramids/base/_file_manager.py:889-907 | run alone, an open that raises leaves `acquire` without effect, and `acquire_context` with the completed unpin of its pin |
| `HandleRefinement.ExitAlone` | src/pyramids/base/_file_manager.py:904-907 | run alone, the end of the block is one completed unpin |
| `HandleRefinement.RaiseAlone` | src/pyramids/base/_file_manager.py:900-907 | run alone, a block that raises drops the slot it opened, abandoning what is there, and completes the unpin |
| `HandleRefinement.RaisingCloseAlone` | src/pyramids/base/_file_manager.py:436-467 | run alone, a close that raises ends the call with the rest of its list abandoned, except that an `acquire_context` still takes its pin back and an `unpin` still sweeps |
| `HandleRefinement.LeaveAlone` | src/pyramids/base/_file_manager.py:436-467 | run alone, leaving closes the parked handle and then the swept ones, and ends in the completed unpin's cache |
| `HandleRefinement.CloseAlone` | src/pyramids/base/_file_manager.py:923-937 | run alone, `close` closes or parks its handle, and abandons exactly a handle it parks over |
| `HandleRefinement.FinalizeAlone` | src/pyramids/base/_file_manager.py:499-542 | the same for a finalizer |
| `HandleRefinement.ResizeAlone` | src/pyramids/base/_file_manager.py:272-277 | run alone, setting the limit sweeps down to it and closes exactly the swept handles |
| `Recency.HoldsMostRecent` | src/pyramids/base/_file_manager.py:342-374 | over calls of `acquire` and whole blocks of `acquire_context` in any mixture, the cache holds exactly the most recently requested keys that fit, in recency order |
| `Recency.BlockIsAcquire` | src/pyramids/base/_file_manager.py:864-907 | with no other read in flight a whole block does to the cache and to `on_evict` exactly what `acquire` does |
| `Recency.SmallerWithinLarger` | src/pyramids/base/_file_manager.py:342-374 | on the same requests of either kind a smaller cache holds a subset of a larger one, at the same end of its order |
| `Recency.HitExactlyWhen` | src/pyramids/base/_file_manager.py:846-899 | the next request of either kind is a hit exactly when fewer than `maxsize` distinct other keys came since the key was last requested |
| `ThreadLocal.ThreadLocalFileManager.constructor` | src/pyramids/base/_file_manager.py:976-1003 | nothing tracked, generation 0 |
| `ThreadLocal.ThreadLocalFileManager.ReapDeadThreads` | src/pyramids/base/_file_manager.py:1012-1037 | the entries of live threads stay in order, the handles of the others come back in order |
| `ThreadLocal.SplitsInOrder` | src/pyramids/base/_file_manager.py:1028-1037 | splitting the tracked list by liveness puts every entry, in order, with its own kind and loses none |
| `ThreadLocal.ThreadLocalFileManager.CloseDead` | src/pyramids/base/_file_manager.py:1049-1052 | exited threads' handles leave the list and are closed, nobody else's |
| `ThreadLocal.ThreadLocalFileManager.Acquire` | src/pyramids/base/_file_manager.py:1039-1058 | what is returned is tracked for the thread and not closed; after an opening call the tracked handles are at most the live threads |
| `ThreadLocal.ThreadLocalFileManager.Track` | src/pyramids/base/_file_manager.py:1054-1057 | the opened handle is tracked and remembered under the current generation |
| `ThreadLocal.ThreadLocalFileManager.Close` | src/pyramids/base/_file_manager.py:1065-1074 | every tracked handle closed in order, a new generation, the caller's own entry forgotten |
| `ThreadLocalProtocol.StepKeeps` | src/pyramids/base/_file_manager.py:1012-1074 | every atomic step keeps one entry a thread, every opened handle in one place, each thread's own view and every scan of the owners right |
| `ThreadLocalProtocol.RememberedIsOpen` | src/pyramids/base/_file_manager.py:1046-1048 | in every interleaving a handle the generation test accepts is tracked and not closed or about to be |
| `ThreadLocalProtocol.ReturnedIsOpen` | src/pyramids/base/_file_manager.py:1053-1058 | the handle an opening `acquire` is about to return is tracked exactly when no `close` came in after it was registered; otherwise it is closed, on a closer's list, or left over by a close that raised, and only then still open |
| `ThreadLocalProtocol.ClosedWhileReturning` | src/pyramids/base/_file_manager.py:1053-1074 | a reachable state in which `acquire` is about to return a handle that `close` has closed |
| `ThreadLocalProtocol.ExactlyOnePlace` | src/pyramids/base/_file_manager.py:1039-1074 | every handle ever opened is in exactly one of: a thread's hands, the tracked list, a list being closed, closed, left over |
| `ThreadLocalProtocol.LostOnlyBy` | src/pyramids/base/_file_manager.py:1068-1071 | a step leaves handles over exactly when a close raises before the end of its list |
| `ThreadLocalProtocol.OneEntryOneClose` | src/pyramids/base/_file_manager.py:998-1003 | no thread has two tracked entries and no handle is closed twice |
| `ThreadLocalProtocol.ReapBoundsTracked` | src/pyramids/base/_file_manager.py:1028-1037 | asking owner by owner while threads exit, a reap drops only exited threads' entries, and leaves fewer entries than threads were alive when it began |
| `ThreadLocalRefinement.AcquireAlone` | src/pyramids/base/_file_manager.py:1039-1058 | run alone, the steps of an opening `acquire` close the exited threads' handles in order, track the new one last, remember it in the current generation, and touch nobody else |
| `ThreadLocalRefinement.FailedOpenAlone` | src/pyramids/base/_file_manager.py:1049-1053 | run alone, an opener that raises leaves the reaping done and nothing tracked |
| `ThreadLocalRefinement.CloseAlone` | src/pyramids/base/_file_manager.py:1060-1074 | run alone, `close` closes every tracked handle in order, moves the generation on and forgets the caller's entry |
| `Pushed.ForwardIsCarry` | src/pyramids/base/_reductions.py:169-184 | the running-maximum fill is the step-by-step carry loop |
| `Pushed.PushedCell` | src/pyramids/base/_reductions.py:169-184 | in either direction a cell takes the nearest valid cell on that side exactly when it is within the limit |
| `Pushed.PushedTwice` | src/pyramids/base/_reductions.py:169-184 | pushing with limit a and then b is pushing once with a + b |
| `Interpolated.FilledExactly` | src/pyramids/base/_reductions.py:117-147 | valid cells stay; a gap is filled exactly when bracketed with the earlier valid cell within the limit |
| `Interpolated.LinearFill` | src/pyramids/base/_reductions.py:127-147 | a filled cell is on the line through its bracketing cells, between their values |
| `Interpolated.AnyPositionsFill` | src/pyramids/base/_reductions.py:127-147 | whatever the positions, a filled cell is on the line through its bracketing cells, and where those share a position they are taken to be one unit apart |
| `Interpolated.NearestAtOne` | src/pyramids/base/_reductions.py:131-139 | the nearest method counts a shared position as one unit long too: the earlier cell up to half of it, the later one past it |
| `Interpolated.AffineReproduced` | src/pyramids/base/_reductions.py:127-147 | an affine series comes back exactly wherever it is filled |
| `Interpolated.NearestFill` | src/pyramids/base/_reductions.py:137-139 | the nearest method takes the closer bracketing cell, the earlier one on a tie |
| `WeightedStats.VarIsMeanSquareLessSquare` | src/pyramids/base/_reductions.py:493-528 | the weighted variance is the weighted mean square minus the squared mean |
| `WeightedStats.VarNonNegative` | src/pyramids/base/_reductions.py:517-525 | it is never negative when no weight is |
| `WeightedStats.StdSquares` | src/pyramids/base/_reductions.py:517-525 | then the standard deviation is the non-negative number whose square it is |
| `GroupedStats.SliceTold` | src/pyramids/base/_reductions.py:493-528 | from the arrays: sum and sum of weights are the sums over the slice's numbers, NaN exactly without one; mean and variance are those sums divided, NaN also when the weights add up to nothing |
| `LabelReduce.ValidExactly` | src/pyramids/base/_reductions.py:622-655 | inputs pass exactly when sizes match, statistics are known and every assigned label names a group, over a NaN cell too |
| `LabelReduce.RefusalNamesFault` | src/pyramids/base/_reductions.py:622-655 | a refusal names the first thing wrong, and an out-of-range label with the extreme assigned labels |
| `LabelReduce.AgreesWithStatistic` | src/pyramids/base/_reductions.py:658-683 | the bincount mean and variance of a group are `weighted_statistic` of its cells alone, NaN in the same cases; the sum agrees exactly when the group has a valid cell, and is 0 otherwise |
| `LabelReduce.BinsAddUp` | src/pyramids/base/_reductions.py:669-671 | binning loses and invents nothing |
| `LabelReduce.GroupsAddUp` | src/pyramids/base/_reductions.py:658-683 | the groups' counts and sums add up to those of all assigned valid cells |
| `GroupedStats.SortedKeepsGroups` | src/pyramids/base/_reductions.py:702-704 | the stable sort by label orders the labels and keeps every group's cells and their order |
| `GroupedStats.SegmentIsGroup` | src/pyramids/base/_reductions.py:705-707 | the run between the left and the right search is exactly the group |
| `GroupedStats.LeastIsLeast` | src/pyramids/base/_reductions.py:743-746 | the segment minimum and maximum are members of the segment and bound it |
| `GroupedStats.PlainVarIsWeighted` | src/pyramids/base/_reductions.py:747-750 | the unweighted variance is the weighted one with every weight one |
| `GroupedStats.GroupedSegmentStats` | src/pyramids/base/_reductions.py:720-754 | the loop gives every group its segment's minimum, maximum, standard deviation and variance, NaN for an empty segment |
| `GroupedStats.GroupedPass` | src/pyramids/base/_reductions.py:686-711 | sort, searches and loop together give every group the minimum, maximum, standard deviation and variance of its own cells |
| `GroupedStats.BincountStats` | src/pyramids/base/_reductions.py:658-683 | count, sum, mean and the weighted spread are those of each group's valid cells taken alone |
| `GroupedStats.WeightedSpread` | src/pyramids/base/_reductions.py:712-717 | the weighted variance and its root, likewise |
| `GroupedStats.SegmentStats` | src/pyramids/base/_reductions.py:686-717 | minimum, maximum and the unweighted standard deviation and variance likewise |
| `GroupedStats.ReduceByLabel` | src/pyramids/base/_reductions.py:548-619 | the first refusal that applies, or exactly the requested statistics, each told from the caller's arrays: minimum and maximum are values at indices of that label and bound all of them, count, sum, mean and variance are taken over the indices with that label and a number, each with its own weight |
| `GroupedStats.AnswerTold` | src/pyramids/base/_reductions.py:593-619 | the statistic of a group's kept cells is the one told from the indices of the arrays |
| `WeightedQuantile.PositionsRise` | src/pyramids/base/_reductions.py:444-446 | the plotting positions rise strictly inside (0, 1) |
| `WeightedQuantile.NaNExactly` | src/pyramids/base/_reductions.py:434-437 | a row has no quantile exactly when no index has both a number and a positive weight |
| `QuantileReference.OwnPosition` | src/pyramids/base/_reductions.py:438-447 | a counting cell of the input row is plotted at the weight of the smaller ones and of the equal ones before it, and half its own, out of all the weight; there the quantile is its value |
| `QuantileReference.BetweenNeighbours` | src/pyramids/base/_reductions.py:444-447 | between the positions of two cells of the input row with nothing plotted between them the quantile is on the line through the two |
| `QuantileReference.UpToFirst` | src/pyramids/base/_reductions.py:444-447 | up to the position of the cell with nothing plotted ahead of it the quantile is that cell's value |
| `QuantileReference.FromLast` | src/pyramids/base/_reductions.py:444-447 | from the position of the cell with nothing plotted behind it on the quantile is that cell's value |
| `WeightedQuantile.QuantileCurve` | src/pyramids/base/_reductions.py:434-447 | the quantile is the polyline through the sorted kept cells at those positions, flat beyond both ends |
| `WeightedQuantile.QuantileOrdered` | src/pyramids/base/_reductions.py:444-447 | it never decreases in q and stays between the least and the greatest kept value, which q = 0 and q = 1 give |
| `WeightedQuantile.ScaleInvariant` | src/pyramids/base/_reductions.py:444-447 | scaling every weight by one positive constant changes nothing |
| `WeightedQuantile.EqualWeightsAreHazen` | src/pyramids/base/_reductions.py:399-405 | with equal weights the positions are Hazen's, (i + 1/2) / n |
| `WeightedQuantile.SwapKeepsQuantile` | src/pyramids/base/_reductions.py:441-447 | swapping neighbours that do not tie with different weights keeps every quantile |
| `TiedCells.SortedSplits` | src/pyramids/base/_reductions.py:441-443 | the stable sort leaves the ties of a value in their order, between what is below and what is above it |
| `TiedCells.SwapKeepsExactly` | src/pyramids/base/_reductions.py:441-447 | swapping neighbours keeps every quantile exactly unless they tie with different weights and, on some side, there is a valid cell beyond their value but no other tie |
| `WeightedQuantile.OneRow` | src/pyramids/base/_reductions.py:434-447 | masking, sorting, summing the weights up and searching the segment, step by step, give the value of the polyline of `QuantileCurve`; NaN exactly when no index has a number and a positive weight |
| `WeightedQuantile.WeightedQuantile` | src/pyramids/base/_reductions.py:415-450 | refused exactly when q is missing or outside [0, 1]; otherwise every row gets its quantile, NaN exactly when no index of the row has a number and a positive weight |
| `NoData.OccursExactly` | src/pyramids/base/_domain.py:736-756 | the bounds test never hides a collision: the answer is whether some cell holds the sentinel |
| `NoData.MaskExactly` | src/pyramids/base/_domain.py:272-292 | on any integer band a sentinel marks exactly the cells equal to the integer it names, a flag counting as 1 or 0; missing, NaN, fractional and out of the dtype it marks nothing |
| `NoData.FitsExactly` | src/pyramids/base/_domain.py:562-634 | a sentinel fits a dtype exactly when it is not a flag and marks some value the dtype holds |
| `NoData.DtypeRange` | src/pyramids/base/_domain.py:177-227 | a dtype of b bytes holds 256^b integers, from 0 up or as many below 0 as from 0 up, and only one- and two-byte dtypes are narrow enough to survey |
| `NoData.MaskRecoversGaps` | src/pyramids/base/_domain.py:272-292 | stamping a storable sentinel into gaps and masking gives the gaps back exactly when no other cell holds it |
| `NoData.NoDataCandidates` | src/pyramids/base/_domain.py:817-827 | the candidates are the storable offers in order, one for each stored value, as first spelled |
| `NoData.FirstsFit` | src/pyramids/base/_domain.py:819-827 | every candidate fits the dtype and no two are stored alike |
| `NoData.ValuesPresentInRange` | src/pyramids/base/_domain.py:830-858 | the chunked scan marks exactly the slots the data lands in, whatever the chunk size |
| `NoData.SlotsAreValues` | src/pyramids/base/_domain.py:854-857 | the wrapping `int64` cast lands a cell on a value of a narrow dtype exactly when it is that value, or that value plus 2^64 |
| `NoData.FirstUnusedInRange` | src/pyramids/base/_domain.py:861-903 | the unmarked value nearest the preferred extreme; none exactly when the range is too wide or all marked |
| `NoData.FreeNoData` | src/pyramids/base/_domain.py:954-966 | the first storable offer the data does not hold; failing all, the unused value nearest the preferred extreme of an 8- or 16-bit dtype |
| `NoData.AnswerUnique` | src/pyramids/base/_domain.py:906-966 | there is one such answer: the chunk size and the data's own dtype cannot change it |
| `NoData.PreferenceOrder` | src/pyramids/base/_domain.py:759-778 | the caller's first candidate that works wins, then -9999, then the minimum of a signed dtype or the maximum of an unsigned one, then the other end |
| `NoData.NarrowAnswer` | src/pyramids/base/_domain.py:861-903 | with every offer taken, the answer is the least value a signed 8- or 16-bit dtype has free, the greatest an unsigned one has |
| `NoData.AnswerMarksOnlyGaps` | src/pyramids/base/_domain.py:909-913 | an answer is storable and absent from the data, so masking with it finds exactly the stamped gaps |
| `NoData.AnswerNoneExactly` | src/pyramids/base/_domain.py:914-929 | an 8- or 16-bit search fails exactly when every value of the dtype is used, a wider one exactly when every storable offer is |
| `ArchiveMembers.MemberAt` | src/pyramids/_io.py:431-505 | an index outside the listing is refused with the listing; any other gives the member's checked name or refusal, which the rows below tell from the raw name |
| `ArchiveMembers.AcceptedExactly` | src/pyramids/_io.py:464-497 | a raw name is accepted exactly when it starts at no root in either spelling, glues no traversal to a drive, and every run between its slashes and backslashes is empty, `.` or a file name, at least one of them a file name |
| `ArchiveMembers.RefusalExactly` | src/pyramids/_io.py:464-503 | which refusal a raw name gets, in the order of the checks, with the name respelled in slashes or, when it names nothing, as it was |
| `ArchiveMembers.DotsRefused` | src/pyramids/_io.py:478-487 | two dots or more between separators of either kind get a raw name refused |
| `ArchiveMembers.PieceFound` | src/pyramids/_io.py:464-478 | every run of a raw name between slashes and backslashes is one of its pieces |
| `ArchiveMembers.PieceRuns` | src/pyramids/_io.py:464-478 | every piece of a raw name is such a run |
| `ArchiveMembers.AcceptedSegments` | src/pyramids/_io.py:478-505 | the pieces of an accepted name are the raw name's pieces that say something, in order, none of them all dots or holding a control character, a last separator kept and no backslash left |
| `ArchiveMembers.AcceptedStaysInside` | src/pyramids/_io.py:442-456 | followed piece by piece with a drive designator read as a plain name, an accepted name goes only downwards, to the place the raw name leads |
| `ArchiveMembers.AcceptedStaysOnDrive` | src/pyramids/_io.py:464-477 | where absolute names and drive traversals leave the archive too, it stays inside exactly when the first piece kept of the raw name is neither a drive with more after it nor a drive traversal |
| `ArchiveMembers.ClimbersRefused` | src/pyramids/_io.py:478-487 | a raw name that would climb out of where it starts, through slashes or backslashes, is refused |
| `ArchiveMembers.AcceptedAgain` | src/pyramids/_io.py:464-477 | an accepted name is accepted again, unchanged, exactly when the first piece kept of the raw name is neither; and which of the two forms comes out otherwise |
| `ArchiveMembers.DriveComesOut` | src/pyramids/_io.py:464-469 | `./C:/x` is accepted as `C:/x`, which is refused as absolute |
| `ArchiveMembers.TraversalComesOut` | src/pyramids/_io.py:470-475 | `./Z:../x` is accepted as `Z:../x`, which is refused as a drive traversal |
| `ArchiveMembers.TarFileMembers` | src/pyramids/_io.py:577-584 | the walk returns the file members up to the one asked for, all of them when the index is not among them |
| `ArchiveMembers.FilesByRank` | src/pyramids/_io.py:577-584 | member number k of the listing is the regular file with k regular files before it |
| `ArchiveMembers.FileOfRank` | src/pyramids/_io.py:577-584 | and every member of the listing is such a file |
| `ArchiveMembers.NamesMemberExactly` | src/pyramids/_io.py:778-780 | a path names its member exactly when `.tar` occurs in it and it ends in none of the four suffixes |
| `ArchiveMembers.EarlyStopInvisible` | src/pyramids/_io.py:552-584 | any index gets the same name or the same refusal, count and list included, as from the whole listing |
| `ArchiveMembers.GetTarPath` | src/pyramids/_io.py:781-795 | a path that names a member, or an archive listing no file, is only prefixed; any other gives the member the whole listing names |
| `Retry.HttpGetWithRetry` | src/pyramids/base/_ogc_api.py:244-275 | at most `attempts` requests, one sleep fewer, each earlier failure retryable, each sleep the server's or the backoff, and the last outcome handed back |
| `Retry.BehavesUniquely` | src/pyramids/base/_ogc_api.py:244-275 | the server's answers and the budget settle requests, sleeps and result |
| `Retry.BodyOnlyAfterSuccess` | src/pyramids/base/_ogc_api.py:244-275 | a body comes back exactly when a request within the budget succeeds after nothing but retryable failures |
| `Retry.EachSleep` | src/pyramids/base/_ogc_api.py:252-302 | each sleep is the server's number of seconds when between 0 and 60, else `delay * 2**attempt`, and follows a retryable failure |
| `Retry.RetriedExactly` | src/pyramids/base/_ogc_api.py:252-275 | a request is followed by another exactly when the budget allows and it failed with 429, 500, 502, 503 or 504 or got no answer |
| `Retry.SleepsBounded` | src/pyramids/base/_ogc_api.py:278-302 | the sleeps add up to at most a minute a retry plus the doubling backoff; delay seconds as in section 10.2.3 of RFC 9110 |
| `Retry.SilentServerSleeps` | src/pyramids/base/_ogc_api.py:252-274 | when the server names no delay they add up to the doubling backoff exactly |
| `WindowOverlap.CornersBound` | src/pyramids/base/_coverage.py:641-660 | the four corners bound the image of the whole raster under any affine geotransform |
| `WindowOverlap.OverlapExactly` | src/pyramids/base/_coverage.py:640-662 | under any geotransform the test is whether some raster point reaches past each of the window's four edges |
| `WindowOverlap.InsidePointOverlaps` | src/pyramids/base/_coverage.py:640-662 | any raster point strictly inside the window makes them overlap |
| `WindowOverlap.SharedMeansOverlap` | src/pyramids/base/_coverage.py:640-662 | sharing area makes them overlap, rotated grids included |
| `WindowOverlap.OverlapIsSharedArea` | src/pyramids/base/_coverage.py:640-662 | on an axis-aligned grid they share area exactly when they overlap and neither is flat |

## Left out

- A manager's own lock: it only rules interleavings out, and `lock=False` is allowed, so the protocol proves more without it.
- A finalizer fired by the garbage collector on a thread that is inside a cache block of its own (the lock is re-entrant): finalizers are steps of their own between blocks.
- `_LRUCache.clear` in the protocol: it ignores readers by design. The class and the run theorem of the size promise include it.
- A `close` or `on_evict` that raises is a step of the protocols, but not of the classes.
- Exceptions that are not `Exception` inside `acquire_context`: they leave the slot alone like a normal end, which is how they are covered.
- Pickling, cache keys, `discard_path_handles`, `_close_handle`, reuse of thread identities, and the GDAL and OGR openers.
- Floating-point rounding and infinities in the kernels, several axes, dask arrays, and in `interpolated` the spline methods and the refusal of an unknown one.
- The step that turns stored sentinels into NaN before a kernel runs (`gaps_as_nan`).
- Sentinels of floating and boolean bands, float data searched for an integer sentinel, and float candidates that round at the 64-bit limits.
- `_member_at` for gzip and zip archives: the same function on another listing.
- The wording of the refusals; the model keeps what they report.
- Building requests and headers, the HTTP-date form of `Retry-After`, and `read_size`.
