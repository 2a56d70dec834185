# Verification of the R environment tools server

This project models the parts of the repository whose correctness depends on
loops, shared state and interleavings, and proves what those parts promise.
`dafny verify dfyconfig.toml` verifies the whole project.

- **Refresh server** (`Coordinator`, `ServerModel`, `ServerSums`, `ServerOwner`,
  `ServerReplies`, `ServerConfiguration`, `ServerSync`, `ServerProgress`,
  `ServerTheorems`; over runs and their actions `ServerRuns`, `ServerAnswers`,
  `ServerOrder`, `ServerScans`, `ServerReports`). Any number of request threads, one program counter each, over
  the permit counter, the refresh coordinator, the configuration with its
  generation and the shared discovery state. An action is one atomic operation or
  one critical section; a trace records replies, notifications, commits and syncs.
  One inductive invariant gives safety over every run, and a lexicographic measure
  gives termination. The class `Coordinator.RefreshCoordinator` has the source's
  form; its methods do exactly what the model's steps do, because both are stated
  with the same functions.
- **Conda metadata cache** (`CondaCache`, `CondaLocator`). A double collect of
  file stamps against a writer that may change files between any two reads, with a
  cache shared by all requests. The assumption is explicit: a modification time
  with a length never returns to an earlier value (`NoStampReturns`).
- **Brace expansion** (`Braces`, `BraceDetection`, `BraceProduct`).
- **Reports** (`Sorting`, `Installation`, `Merging`, `InstallationKeys`,
  `ReportIndex`): the builder, the merge of two records, which reports are of one
  installation, and the keyed index that merges reports in any order.
- **Recursive search** (`Traversal`): a worklist over a directory graph with
  symbolic links.
- **JSON-RPC frames** (`Frames`, `FrameTheorems`), with the text functions of `Text`.
- **Stamp cache** (`StampCache`, `StampCacheRuns`, `CacheMap`): the cache of
  resolved installations in memory and on disk, and the map of its entries.
- **Shell quoting** (`ShellWords`, `ShellQuote`): the quoter against the token
  recognition of the POSIX.1-2017 Shell Command Language, sections 2.2.2, 2.2.3, 2.3
  and 2.6.3.
- **Probe processes** (`Probes`): the registry and its shutdown.
- **`r-versions` files** (`RVersions`): the block parser.

## What turned out false

Five expectations a reader may have of the code do not hold. The code is modelled as
it is; each has a lemma with a concrete case and the exact condition.

- The fingerprint of a Conda environment does not cover every file the parser
  reads. The file name is built from a hash taken from the history, which may contain
  a slash and then lies below `conda-meta`. The cache is coherent for a history if and
  only if the package it designates, if any, has no slash in its name
  (`CondaCache.CoherentExactlyWhenCovered`). `CondaLocator` makes no assumption about
  histories in general: each call is fresh unless the history that stands in its own
  prefix during that call designates such a package. Besides the assumption on time
  stamps this takes every file that is there as readable, and file names as
  case-sensitive: a package file made unreadable keeps its time and length, and on a
  case-insensitive volume a designated file stored under another case is not listed as
  one of the covered packages, and either changes the parse under an equal fingerprint.
- `has_brace_pattern` is not exact: it misses `{{}a,b}`, which expands to several
  strings. It is right about a pattern if and only if the pattern does not hide its
  branches: some comma separates alternatives, but each such comma comes after a
  group closed within its own (`BraceDetection.DetectionExactExactlyWhen`). On
  patterns that nest no brace it is always right.
- A frame with an empty body that misses its final newline is accepted, because the
  lone carriage return is already a blank line
  (`FrameTheorems.CutFrameAcceptedExactlyWhen`).
- The stamp cache can give a stale answer. Once an entry in memory is invalid, because
  a stamp no longer matches or the executable is no file, a value comes back if and
  only if its cache file could not be removed and still passes the checks of the disk
  (`StampCacheRuns.GetWhenInvalid`). The failure to remove is ignored at
  `crates/ret-r-utils/src/fs_cache.rs:33`. It happens in two ways: the executable is
  gone and was never stamped (`StampCacheRuns.UnremovableCacheFile`), or a tracked file
  has changed, whose stamp is not in the cache file
  (`StampCacheRuns.UnremovableTracked`).
- An entry of the stamp cache's map need not be for the current cache directory.
  `create_cache` reads the directory and inserts the entry under two locks taken one
  after the other, and `set_cache_directory` replaces and forgets in two sections. An
  entry is for the current directory if and only if the directory read for it was
  still the directory when it was inserted (`CacheMap.CurrentExactlyWhen`); the race
  is `CacheMap.RaceLeavesStaleEntry`. What `get` promises does not depend on it.

An observation on an interface, not on the server: only the call of `shutdown_probes`
that stopped the registry waits for the children, so a concurrent second call may
return before they are gone (`Probes.SecondCallReturnsEarly`). The server calls it
once, at `crates/ret/src/jsonrpc.rs:370`.

## Model

| member | source | states |
|---|---|---|
| Coordinator.RefreshCoordinator.Register | crates/ret/src/jsonrpc.rs:153-180 | by the old state alone: it starts if and only if that is idle, waits if another key is busy, is refused with 256 ids under its own key and joins with fewer; joining adds exactly the id and keeps the phase, and refusing or waiting changes nothing |
| Coordinator.RefreshCoordinator.WaitUntilIdle | crates/ret/src/jsonrpc.rs:182-194 | whatever the states found after each wake-up, spurious ones included, the wait returns with the mutex at the first idle one and not before |
| Coordinator.RefreshCoordinator.BeginCompletion | crates/ret/src/jsonrpc.rs:196-210 | completes exactly a running scan of this key, with its ids; otherwise it panics and leaves the state as it was |
| Coordinator.RefreshCoordinator.DrainRequestIds | crates/ret/src/jsonrpc.rs:212-224 | hands over the whole list and leaves none; it panics exactly while a scan runs or another key completes |
| Coordinator.RefreshCoordinator.CompleteIfEmpty | crates/ret/src/jsonrpc.rs:226-242 | becomes idle, and notifies the waiters, exactly if this key completes with no id left; panics exactly on another key or phase |
| Coordinator.RefreshCoordinator.ForceIdle | crates/ret/src/jsonrpc.rs:244-258 | idles only a state of this key, and notifies exactly then |
| ServerTheorems.StepGood | crates/ret/src/jsonrpc.rs:694-747 | every step of every thread keeps the invariant of the whole server |
| ServerTheorems.ReachableGood | crates/ret/src/jsonrpc.rs:346-371 | the invariant holds in every reachable state, starting from empty discovery state |
| ServerTheorems.NoReplyLostOrDoubled | crates/ret/src/jsonrpc.rs:280-293 | in every interleaving, receipts of an id are its replies and refusals plus the copies held by threads, by the coordinator list and by the owner's batch |
| ServerTheorems.FinishedMeansReplied | crates/ret/src/jsonrpc.rs:82-111 | once no thread is left, every request has had exactly one reply, the coordinator is idle and all permits are back |
| ServerTheorems.AnsweredUnderOwnKey | crates/ret/src/jsonrpc.rs:119-123 | a scan answers an id at most as often as that id registered the options and generation of that scan, and exactly as often once idle |
| ServerOrder.AnsweredInJoinOrder | crates/ret/src/jsonrpc.rs:280-293 | in every interleaving, the answers of all scans, one after the other, are the first of the ids that joined, in that order and each under the key it joined with; once idle they are all of them |
| ServerAnswers.AnswerMeansScan | crates/ret/src/jsonrpc.rs:721-745 | each answer comes from the thread that started a scan under its key while the coordinator was idle, after the one step that ended that scan: it is the result if and only if that step was the normal end, and the error if and only if it was a panic |
| ServerAnswers.NoPanicNoError | crates/ret/src/jsonrpc.rs:727-742 | supporting: in a run without a panic no refresh is answered with an error |
| ServerAnswers.JoinedUnderOwnOptions | crates/ret/src/jsonrpc.rs:697-709 | an id joins under the options its request arrived with and a generation its thread has read |
| ServerAnswers.RefusalHasReason | crates/ret/src/jsonrpc.rs:712-719 | every refusal has its reason: the scan of its own key had 256 ids when the thread registered, or 32 requests were active when it read the counter, or its thread could not be started |
| ServerAnswers.ConfigureAnswerMeans | crates/ret/src/jsonrpc.rs:458-482 | a configure is answered with success after its own commit, and with an error after its own rollback, which follows a panic of a locator |
| ServerTheorems.SingleOwner | crates/ret/src/jsonrpc.rs:261-302 | the coordinator is busy exactly while one thread owns the scan, whose key and phase are the stored ones |
| ServerTheorems.NoMismatchPanic | crates/ret/src/jsonrpc.rs:201-241 | the three mismatch panics cannot be reached, nor a drain of an idle coordinator |
| ServerTheorems.BoundedWork | crates/ret/src/jsonrpc.rs:48-80 | under stale loads and spurious failures the counter is the number of live permits, at most 32, never underflows, and accepted unanswered refreshes are at most 32 + 256 + 256 - 1 |
| ServerTheorems.NoLostConfigure | crates/ret/src/jsonrpc.rs:424-483 | the generation counts the successful configures and the configuration is all of them applied in order; between configures the locators run with it |
| ServerTheorems.LastConfigureCounts | crates/ret/src/jsonrpc.rs:448-456 | the configuration is that of the last commit, except that a configure without a cache directory keeps the last one set |
| ServerTheorems.NotificationsInOrder | crates/ret/src/jsonrpc.rs:304-334 | with any number of threads of a scan reporting at a time, generations along the trace never decrease, nothing for a generation follows a newer commit, nothing precedes its own |
| ServerReports.ReportsAccounted | crates/ret/src/jsonrpc.rs:310-320 | at every point of a run, the reports a scan has started are those sent, those silenced because their generation was no longer the current one, those given up and those under way |
| ServerReports.EveryReportNotified | crates/ret/src/jsonrpc.rs:323-333 | the notifications of a generation are exactly the reports sent by its scans |
| ServerReports.ScanReportsAll | crates/ret/src/jsonrpc.rs:608-660 | a scan that ends without a panic has started all reports of its discovery and the two after its sync, and none is under way |
| ServerReports.IndexHeldOnce | crates/ret-reporter/src/cache.rs:57-82 | supporting: of each index of a scan at most one report is past the lock at a time |
| ServerTheorems.DiscoveryIsFold | crates/ret/src/jsonrpc.rs:568-588 | syncs never interleave although they share a read lock; unless one panicked half way, the discovery state is the fold of the finished syncs, each made while its generation was current |
| ServerScans.SyncDecided | crates/ret/src/jsonrpc.rs:632-648 | a scan that ended without a panic has compared the generations and, if they were equal, has synced what it found |
| ServerScans.SyncedOnlyWhenCurrent | crates/ret/src/jsonrpc.rs:632-648 | every sync was made by the owner of a scan that found its generation current, with the scope its options ask for |
| ServerScans.SyncEffect | crates/ret/src/jsonrpc.rs:889-919 | by the options of a refresh: search paths leave a store alone, a kind overlays the stores that support it, and neither replaces |
| ServerScans.TelemetryExactlyAfterSuccess | crates/ret/src/jsonrpc.rs:727-744 | a thread that is gone has reported the telemetry after its replies if and only if its scan ended without a panic |
| ServerSync.TwoSections | crates/ret-conda/src/lib.rs:449-476 | clearing and then inserting leaves what the scope says: a full scan replaces, a matching kind overlays, anything else changes nothing |
| ServerSync.SyncFitsKept | crates/ret/src/jsonrpc.rs:632-648 | at each step of a sync the stores are a prefix of the finished ones, one in progress and a suffix of the old ones |
| ServerConfiguration.HistoryFitsKept | crates/ret/src/jsonrpc.rs:310-319 | no step logs an event of a generation that is not the current one |
| ServerProgress.ProgressDecreases | crates/ret/src/jsonrpc.rs:697-747 | every step except arrivals and spurious ones lowers the lexicographic measure, wake-ups that find a new scan included |
| ServerTheorems.NoDeadlock | crates/ret-reporter/src/cache.rs:57-82 | while a thread is left, some step is enabled, even under a lock that makes readers wait behind a writer, with any number of threads of a scan reporting while one holds the lock of each index across the configuration lock |
| ServerTheorems.NobodyLeftParked | crates/ret/src/jsonrpc.rs:182-194 | a thread waits only while the coordinator is busy: none is parked without a notification once it is idle |
| ServerTheorems.EveryRunEnds | crates/ret/src/jsonrpc.rs:694-747 | without further arrivals and spurious events no schedule goes on for ever |
| ServerTheorems.EveryRequestAnswered | crates/ret/src/jsonrpc.rs:694-747 | every schedule that does not rest while a thread can go on reaches a state in which each request received has exactly one reply; what each reply is, `AnswerMeansScan`, `RefusalHasReason` and `ConfigureAnswerMeans` say |
| CondaCache.DoubleCollect | crates/ret-conda/src/lib.rs:91-118 | two collects with equal outcome: the fingerprint held at every instant between them |
| CondaCache.ParseCovered | crates/ret-conda/src/package.rs:52-177 | if the history of a directory designates no uncovered package, the parse depends on nothing but what the fingerprint covers |
| CondaCache.ParseIs | crates/ret-conda/src/package.rs:52-177 | on every directory, the parse is: the file the history names, if it decodes; else the first matching file of the version it names, by name; else the first matching file of all, by version and name; else that version alone, or nothing without a history; a file that does not decode gives its bare version |
| CondaCache.HeldThroughout | crates/ret-conda/src/lib.rs:84-89 | a fingerprint that holds at two instants stands for the same covered contents |
| CondaCache.OldFingerprintCollected | crates/ret-conda/src/lib.rs:163-170 | a collect that finds an older fingerprint finds the contents of that time at the instant the collect began |
| CondaCache.CoherentExactlyWhenCovered | crates/ret-conda/src/package.rs:78-106 | for every history, designating a package or none, a fingerprint stands for one parse if and only if no package with a slash in its name is designated |
| CondaCache.StaleBelowSubdirectory | crates/ret-conda/src/package.rs:95-96 | with a slash, a concrete disk on which the fingerprint holds twice and the parse differs |
| CondaLocator.Conda.ReadFingerprint | crates/ret-conda/src/lib.rs:92-117 | whatever the writer does, the result is a collect made during the call; on a steady prefix it holds |
| CondaLocator.Conda.ReadPackageInfo | crates/ret-conda/src/package.rs:52-166 | while the covered contents stand still and their history designates no uncovered package, the several reads give the parse of one instant, which `ParseIs` describes |
| CondaLocator.Conda.ParseAndValidate | crates/ret-conda/src/lib.rs:172-188 | validation succeeds only for a fingerprint that held when the lock was granted, and the value is the parse of that instant unless its history designates an uncovered package |
| CondaLocator.Conda.GetPackageInfo | crates/ret-conda/src/lib.rs:153-189 | on any disk, with any histories and any cache found under the lock: the call leaves that cache, or removes the prefix, or enters a validated value; if the cache fitted, a hit, or any call that leaves an entry, returns what a fresh parse (`ParseIs`) gives at an instant inside the call, unless the prefix's history designates an uncovered package during that call, and a prefix that stands still is cached with its parse |
| CondaLocator.EveryGrantFits | crates/ret-conda/src/lib.rs:157-188 | for all calls of the process in the order of the lock, from the empty cache on: every cache a call finds, and leaves, fits |
| CondaLocator.HitIsFresh | crates/ret-conda/src/lib.rs:163-170 | a validated entry that a collect finds again is what a parse would give during that call, whatever other histories say |
| Braces.OneBraceFewer | crates/ret-fs/src/glob.rs:77-92 | each level of the recursion removes exactly one closing brace, whatever the alternative holds; this is why it ends |
| Braces.ExpandBracesInner | crates/ret-fs/src/glob.rs:61-94 | the accumulator grows by exactly the expansions that fit under the cap, in order |
| Braces.ExpandBraces | crates/ret-fs/src/glob.rs:55-59 | for every pattern, the first 1024 of the uncapped expansion and never none |
| BraceProduct.ExpansionIsProduct | crates/ret-fs/src/glob.rs:51-54 | with groups of n1, ..., nm alternatives there are n1 * ... * nm strings and string i takes in each group its mixed-radix digit of i |
| BraceProduct.CappedExpansionIsProduct | crates/ret-fs/src/glob.rs:40-59 | the same for the first min(1024, total) strings |
| BraceDetection.HasBracePattern | crates/ret-fs/src/glob.rs:24-38 | the search loop decides a property defined by one pass over the characters |
| BraceDetection.BranchesExactlyWhen | crates/ret-fs/src/glob.rs:61-94 | for every string, the expansion has at least two strings if and only if a comma stands at positive brace depth with a closing brace to come |
| BraceDetection.DetectedMeansSeveral | crates/ret-fs/src/glob.rs:22-23 | a detected pattern expands to at least two strings, capped or not, with stray and nested braces included |
| BraceDetection.DetectionExactExactlyWhen | crates/ret-fs/src/glob.rs:22-38 | for every string, detection agrees with branching if and only if the string hides no branch: not every separating comma has a closing brace as its nearest brace |
| BraceDetection.DetectionExactUnnested | crates/ret-fs/src/glob.rs:24-48 | supporting: in particular it agrees where no brace opens inside a group |
| BraceDetection.DetectionMissesNested | crates/ret-fs/src/glob.rs:24-38 | a nested pattern that branches and is not detected |
| BraceDetection.OutputsAreFinal | crates/ret-fs/src/glob.rs:90-92 | every produced string expands to itself and is not detected |
| Installation.BuildIdempotent | crates/ret-core/src/r_installation.rs:442-517 | building a built record changes nothing |
| Installation.BuildIs | crates/ret-core/src/r_installation.rs:442-592 | field by field: the lists sorted with the own executable, the display name from the overlay, the manager or the caller, the script beside R or below the home, the framework flag from the home, and nothing else changed |
| Merging.MergeIsUnion | crates/ret-reporter/src/installation.rs:62-151 | the three lists are the sorted duplicate-free unions and the metadata has the higher priority |
| Merging.NoFieldLost | crates/ret-reporter/src/installation.rs:98-150 | every optional field present in either record is present in the merge |
| Merging.LeaderPrevails | crates/ret-reporter/src/installation.rs:98-168 | the leading record gives each field it has, the earlier one on a tie; overlay fields come from the earlier record first, the metadata from the higher one, environment variables from the leader first |
| Merging.LeaderExactlyWhen | crates/ret-reporter/src/installation.rs:153-211 | the new record leads if and only if its metadata outranks the existing (Pixi, Conda, module, none), or these are of one rank and its kind does, or these too and it has more fields |
| Merging.LeaderNames | crates/ret-reporter/src/installation.rs:92-96 | supporting: the display name is the label, or made for a manager's environment, or the leader's, or the other's |
| Merging.BuiltFacts | crates/ret-core/src/r_installation.rs:442-517 | a built record lists its own executable, its lists are sorted and free of duplicates, and no empty list or map stays |
| Merging.MergeWithItself | crates/ret-reporter/src/installation.rs:62-151 | merging a built record with itself returns it |
| ReportIndex.MergeKeepsKey | crates/ret-reporter/src/installation.rs:17-60 | merging two records of one key gives a record of that key |
| InstallationKeys.SameKeyExactlyWhen | crates/ret-reporter/src/installation.rs:17-60 | two identifiable records have one key if and only if their canonical homes, the directories of their canonical executables, their launcher names (R and Rscript counted as one, in any case), architectures, startup commands and environments agree; a record without home and executable has none |
| ReportIndex.MergeAllGathers | crates/ret-reporter/src/installation.rs:65-83 | after any sequence of reports of one key: the unions over all of them, the maximal priority, every field of each |
| ReportIndex.OrderDoesNotMatter | crates/ret-reporter/src/installation.rs:65-83 | for every permutation the lists and the priority are the same |
| ReportIndex.CacheReporter.ReportInstallation | crates/ret-reporter/src/cache.rs:72-82 | after any reports every record sits under its own key and is the merge of the reports of that key; the report is sent downstream if and only if no earlier one was of the same installation, in the terms of `SameKeyExactlyWhen` |
| ReportIndex.CacheReporter.ReportManager | crates/ret-reporter/src/cache.rs:57-70 | the first manager of each executable is stored and sent, once, whatever other threads report between the read lock and the write lock |
| ReportIndex.FirstManagerStays | crates/ret-reporter/src/cache.rs:65-69 | supporting: what is stored for an executable stays, and else the first manager reported for it |
| ReportIndex.IndexGathers | crates/ret-reporter/src/cache.rs:72-82 | every record of the index has what the reports of its key had |
| ReportIndex.InterleavingDoesNotMatter | crates/ret-reporter/src/cache.rs:72-82 | two interleavings of the same reports leave the same keys with the same lists and priorities |
| Traversal.CollectRecursiveSearchPaths | crates/ret/src/find.rs:299-323 | terminates on symlink cycles; a directory is found if and only if a chain of followed entries reaches it, each by exactly one path; the paths are strictly increasing by their components, and are those of the recursive search that follows the names of a directory in lexicographic order |
| Traversal.ExploreAppend | crates/ret/src/find.rs:313-321 | the recursive search of two lists is the search of the first and then, with what that visited, of the second |
| Traversal.PoppedRest | crates/ret/src/find.rs:302-321 | popping a directory and pushing its children in reverse explores them in the order of their names, before anything below them on the stack |
| Traversal.ExploreIncreasing | crates/ret/src/find.rs:302-321 | the recursive search of paths in turn finds paths in strictly increasing order, each below one of them |
| Sorting.PathLeqExactly | crates/ret/src/find.rs:319 | supporting: that order is: a prefix first, and else the smaller name where the paths part |
| Traversal.VisitStep | crates/ret/src/find.rs:302-321 | visiting a directory keeps the frontier: wherever the search can go from a visited directory it has gone or will go |
| Frames.Input.ReadLine | crates/ret-jsonrpc/src/server.rs:130-131 | reads up to and including the next newline, the limit or the end |
| Frames.ReadHeaderLines | crates/ret-jsonrpc/src/server.rs:125-169 | the limit subtraction stays natural, at most 16385 header bytes are consumed, and the outcome is the specified one on arbitrary input |
| Frames.ReadMessageFrom | crates/ret-jsonrpc/src/server.rs:125-173 | consumes exactly the frame it returns |
| Frames.Serve | crates/ret-jsonrpc/src/server.rs:107-119 | the bodies of all complete frames in order, until the input ends or framing is invalid |
| FrameTheorems.ServedAlong | crates/ret-jsonrpc/src/server.rs:107-119 | the bodies served are those of messages that stand one behind the other from the start of the input; a clean end is the end of the input, and otherwise what comes next is no message |
| FrameTheorems.FrameRoundTrip | crates/ret-jsonrpc/src/lib.rs:12-22 | reading a written frame, with anything behind it, returns its body and consumes nothing more |
| FrameTheorems.StreamRoundTrip | crates/ret-jsonrpc/src/lib.rs:12-22 | any list of bodies up to 16 MiB, written one after the other, is read back as that list and then the end of input |
| FrameTheorems.CutFrameAcceptedExactlyWhen | crates/ret-jsonrpc/src/server.rs:125-173 | a strict non-empty prefix of a frame is accepted if and only if the body is empty and only the last byte is missing |
| FrameTheorems.HeaderAcceptedExactlyWhen | crates/ret-jsonrpc/src/server.rs:125-169 | on arbitrary input, a header is accepted if and only if it ends within 16 KiB, consists of fields and gives exactly one Content-Length, in any case of its letters, a numeral of at most 16 MiB |
| FrameTheorems.ParseUsizeExactly | crates/ret-jsonrpc/src/server.rs:159-165 | supporting: a length is an optional plus sign, any zeros and a decimal number below 2^64 |
| FrameTheorems.MessageAcceptedExactlyWhen | crates/ret-jsonrpc/src/server.rs:125-173 | a message is read if and only if its header is accepted and its body is complete |
| StampCache.CacheEntry.VerifyInMemoryCache | crates/ret-r-utils/src/cache.rs:137-164 | the value stays in memory exactly while all its stamps match and its executable is a file; otherwise its cache file goes too |
| StampCache.CacheEntry.ReadCacheFile | crates/ret-r-utils/src/fs_cache.rs:36-80 | a cache file is used if and only if it names the executable and all its stamps match, is removed if it names it and a stamp does not, and is left alone if it names another |
| StampCache.CacheEntry.Get | crates/ret-r-utils/src/cache.rs:168-197 | a returned value is what the entry holds, with all its stamps matching |
| StampCache.CacheEntry.Store | crates/ret-r-utils/src/cache.rs:199-240 | stamps exactly the files of the value that have a modification time, as they are now |
| StampCache.CacheEntry.TrackExecutables | crates/ret-r-utils/src/cache.rs:242-269 | exactly the paths not yet stamped that have a modification time are stamped, as they are now |
| CacheMap.Cache.EntryFor | crates/ret-r-utils/src/cache.rs:102-114 | one entry per executable: the one that is there, or a fresh one for the directory read before |
| CacheMap.Cache.ReplaceDirectory | crates/ret-r-utils/src/cache.rs:67-74 | the directory is replaced, and the entries are to be forgotten exactly if it changed |
| CacheMap.Cache.RemoveFiles | crates/ret-r-utils/src/cache.rs:84-93 | the cache files below the directory are gone except those that could not be removed, all others are unchanged |
| CacheMap.CurrentExactlyWhen | crates/ret-r-utils/src/cache.rs:67-115 | in every interleaving, once no change is half way, an entry is for the current directory if and only if the directory read for it was still the directory when it was inserted |
| CacheMap.UndisturbedMeansCurrent | crates/ret-r-utils/src/cache.rs:74-78 | if no directory change falls into a creation, later creations pick up the new directory, as the comment there promises |
| CacheMap.RaceLeavesStaleEntry | crates/ret-r-utils/src/cache.rs:96-115 | a run of four sections after which an entry is for the old directory |
| CacheMap.EntryStays | crates/ret-r-utils/src/cache.rs:107-108 | supporting: such an entry is returned until a change or a clear forgets it |
| StampCacheRuns.RunTraced | crates/ret-r-utils/src/cache.rs:120-270 | over any run, every value in memory and on disk was stored once and carries all stamps taken then |
| StampCacheRuns.GetIsFresh | crates/ret-r-utils/src/cache.rs:168-197 | over any run, a value comes back only if it was stored at some point, no file stamped then has changed since, and the executable is a file or its cache file stays on disk |
| StampCacheRuns.GetWhenInvalid | crates/ret-r-utils/src/cache.rs:137-197 | an invalid entry gives a value back if and only if its cache file could not be removed and passes the checks of the disk, and then that value |
| StampCacheRuns.DiskHitNamesExecutable | crates/ret-r-utils/src/fs_cache.rs:44-58 | supporting: with an arbitrary digest, a value from disk lists the executable it is returned for |
| StampCacheRuns.ReturnedForMissingExecutable | crates/ret-r-utils/src/cache.rs:151-163 | supporting: for a missing executable such a cache file never stamped it |
| StampCacheRuns.UnremovableCacheFile | crates/ret-r-utils/src/fs_cache.rs:31-34 | a concrete case with a missing executable |
| StampCacheRuns.UnremovableTracked | crates/ret-r-utils/src/fs_cache.rs:31-34 | a concrete case with a changed tracked file and an executable that is still there |
| StampCacheRuns.StoreThenGet | crates/ret-r-utils/src/cache.rs:168-240 | after a store, written or not: the value while the executable is a file and no stamped file has changed, and otherwise what stays on disk, if anything does |
| StampCacheRuns.StoreWrittenThenGet | crates/ret-r-utils/src/cache.rs:168-240 | when it was written, the value comes back if and only if no stamped file has changed and the executable is a file, or is gone, is listed and the cache file could not be removed |
| StampCacheRuns.StoreThenGetElsewhere | crates/ret-r-utils/src/fs_cache.rs:82-110 | the same for a new entry on the same directory: the executable must be listed, no stamped file changed, and the executable be a file unless the cache file could not be removed |
| StampCacheRuns.TrackedFilesGuard | crates/ret-r-utils/src/cache.rs:242-269 | once a tracked file has changed, the entry gives what stays on disk, if anything does, and nothing else |
| ShellQuote.QuoteRead | crates/ret-core/src/shell.rs:7-17 | outside quotes, anywhere in a word, the quoted argument adds exactly its characters |
| ShellQuote.QuoteIsOneWord | crates/ret-core/src/shell.rs:1-17 | the shell reads the quoted argument as one word, the argument itself, if and only if it has no NUL |
| ShellQuote.QuoteInContext | crates/ret-core/src/shell.rs:1-17 | in any command line, wherever a word may begin, after a blank or a complete operator, and up to a delimiter or the end, it is one token more and changes the reading of nothing else; digits before a redirection are excepted |
| ShellQuote.QuoteInjective | crates/ret-core/src/shell.rs:7-17 | different arguments are never quoted alike |
| ShellQuote.ModuleSubstitutionWords | crates/ret-module/src/lib.rs:137-143 | the command substitution is four words and ends at the template's own parenthesis |
| ShellQuote.ScriptCommandWords | crates/ret-rversions/src/lib.rs:438-441 | the command that sources a script is a dot and the script |
| Probes.ProbeRegistry.SpawnProbe | crates/ret-r-utils/src/process.rs:47-59 | nothing is registered after the stop; otherwise the new child and the old ones found alive are |
| Probes.ProbeRegistry.Stop | crates/ret-r-utils/src/process.rs:30-35 | stopping and taking all children is one step |
| Probes.SpawnIsStep | crates/ret-r-utils/src/process.rs:47-59 | supporting: what the object does is a step of the model |
| Probes.LiveChildrenRegistered | crates/ret-r-utils/src/process.rs:55-58 | before the stop every child with a live holder is in the registry, despite pruning |
| Probes.NothingSpawnsAfterStop | crates/ret-r-utils/src/process.rs:28-54 | supporting: no run has a child more after the stop |
| Probes.ShutdownReaps | crates/ret-r-utils/src/process.rs:28-45 | when the call that stopped the registry returns, every child ever spawned is gone or in its own drop |
| Probes.ShutdownProgress | crates/ret-r-utils/src/process.rs:39-44 | that call can always go on and has less to do after each of its steps |
| Probes.SecondCallReturnsEarly | crates/ret-r-utils/src/process.rs:30-38 | supporting: a run of the interface in which a second call returned while a child still runs; the server makes one call |
| RVersions.FinishEntry | crates/ret-rversions/src/lib.rs:388-395 | afterwards nothing is being read, and only an entry with a path or a module was added |
| RVersions.ParseRVersionsFile | crates/ret-rversions/src/lib.rs:229-267 | every entry of the result has a path or a module |
| RVersions.BlankLineSeparates | crates/ret-rversions/src/lib.rs:236-239 | two texts joined by a blank line mean the entries of the first followed by those of the second |
| RVersions.BarePathSeparates | crates/ret-rversions/src/lib.rs:245-252 | a line that is a bare path ends the entry before it and is an entry of its own, wherever it stands |
| RVersions.IgnoredLine | crates/ret-rversions/src/lib.rs:241-263 | a comment, or a field with an unknown key, changes nothing, wherever it stands |
| RVersions.LastValueWins | crates/ret-rversions/src/lib.rs:254-263 | of two lines for one key in a row the second counts, in any case of the key |
| RVersions.FileRoundTrip | crates/ret-rversions/src/lib.rs:229-267 | a file with any usable entries, one `Key: value` line per field and blank lines between them, is read back as these entries |

## Left out

- Panics outside `execute_refresh`, lock poisoning and failing writes to standard output: the model assumes that none of them occurs, so it claims no replies for a guard that unwinds elsewhere.
- The width of the generation counter: generations are unbounded numbers, and a wrap after 2^64 configures is not modelled.
- Memory orders: each atomic operation and each critical section is one step. A condition variable may wake spuriously, and a weak compare-and-swap may fail spuriously.
- What a scan finds, how often and from how many threads it reports: arbitrary in the model, as are panics of those threads at any report and the number of telemetry events. The test of a manager under the read lock of its index is part of taking the lock.
- The find, resolve, condaInfo and clear requests, and the parsing of request parameters: they add threads that only take a permit, and branches on a value.
- The managers' caches of the Conda locator, `WindowsRegistry` synchronisation, and `LocatorCache`: the model has one map per synced store and any number of stores.
- JSON, regular expressions, UTF-8 decoding and the digest: arbitrary functions. The decoder is assumed to keep ASCII.
- CondaLocator.Conda.GetPackageInfo: promises no freshness for a call during which the prefix's own history designates a package below a subdirectory, because the property fails then; `CondaCache.CoherentExactlyWhenCovered` gives the exact condition.
- ServerTheorems.DiscoveryIsFold: claims nothing after a sync that panicked half way, which leaves the stores partly copied; all other results of the server cover that panic.
- CondaLocator.Conda.GetPackageInfo: other requests appear as the cache found when the lock is granted, which may be any; `CondaLocator.EveryGrantFits` shows that it fits.
- CondaLocator.Conda.ReadFingerprint: the listing of a directory is one instant; each file is read at an instant of its own.
- Full commutativity and associativity of `merge_installations`: overlay fields and ties take the first record, and completeness grows on a merge.
- Windows path normalisation: `norm_case` is the identity, as on Unix, and paths compare by their components.
- The downstream reporter: what it receives is recorded, and it does nothing else.
- Traversal.CollectRecursiveSearchPaths: the file system does not change during the search, and a directory that cannot be listed is one without entries.
- The in-memory lists of strings and paths that the source sorts in place are sorted by a function, so the order of equal elements and the cost are not modelled.
- `handle_request` of the JSON-RPC server: a branch on a decoded value.
- StampCacheRuns.GetIsFresh: the file system does not change within one operation of an entry, and cache files are not themselves among the stamped files. Operations on one entry exclude each other by its mutex; operations on different entries are interleaved as wholes.
- ShellQuote.ModuleSubstitutionWords: the assignment and the evaluation around the substitution contain expansions, which the tokenizer does not perform; it reads the body of the substitution.
- Here-documents, aliases, reserved words and assignments of the shell language: an argument is in none of these positions. IO numbers are not a kind of token here; `ShellQuote.QuoteInContext` excludes them.
- The polling loop of a probe, its time limit and output limit, and the signals that end a process: a child ends at some step.
- The individual locators, telemetry payloads, logging, the command line and the scripts: plumbing around the modelled parts.
