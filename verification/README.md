# Prodex: a Dafny model of its stateful cores

Prodex is a Rust command-line gateway for AI coding sessions. Much of its policy lives in compiled
Mojo kernels; what this project models is the Rust around them, where state, loops, interleavings
and machine arithmetic are. Each module follows one source file:

- `JsonBoundary` and `JsonTreeLaws`: a JSON value is flattened into an array of nodes linked by
  parent, first child and next sibling, with byte spans into one compact encoding buffer, under
  limits on nodes, decoded bytes and encoded bytes. The builder works in place, as the source does;
  it is proved to produce the closed form `Layout`, and the laws are proved of that. `JsonText` reads
  the encoding back as RFC 8259 defines it.
- `AllocationCounters`: the counting allocator. The recorder is a class; its atomic operations are
  then interleaved over any number of threads and blocks.
- `LexicalPath` and `PathMeaning`: lexical path normalisation on Unix and Windows, and where a
  normalised path leads. `ComparedPath`, `AstrayPath` and `PathUnderRoot`: the resolved paths that are
  compared, where they lead through symbolic links, and what being under a root then says.
- `NewestPath`: two-stage newest-log selection.
- `RequestMemory`: admission of request bodies against a shared budget, with guards, a
  compare-and-exchange loop, and a sampler that changes the capacity meanwhile.
- `RateLimit`, `HeapTrim`, `Housekeeping`: a fixed-window limiter, a compare-and-exchange interval
  gate, and a lock-and-stamp gate, with bounds over runs of any length.
- `SecretBackend`: secrets on a keyring and a legacy file, with a failure or a crash possible at
  every access to either store.
- `WeakSymbols`: renaming of weak symbols that several object files define, and the scan after it.
- `UsageLedger` and `Checksum`: an append-only ledger of checksummed lines.
- `ThreadIndex`: the newest model selection over several thread databases.
- `BenchThreshold`: saturating threshold arithmetic and the summary of a sample.
- `Basics` and `UnicodeText` hold shared datatypes, 64-bit arithmetic, sums, sequence facts and
  white-space trimming.

Code that changes things step by step is a method or a class with in-place updates, proved against a
function of the old state. Where several threads or processes take part, a second form of the same
operations, cut at each access to shared state (`Step`, `Run`), carries the statements about every
interleaving. Clocks, file systems, keyrings, databases, the JSON codec, SHA-256 and the Mojo kernels
are parameters.

`dafny verify dfyconfig.toml` checks the whole project.

## What the proofs found

Several promises hold only under a condition. Each of these is proved to be the exact one:

- From every starting directory the normalised path leads where the original does exactly unless the
  path climbs out of the current directory of a drive (`C:..\x`), or a file name that starts like a
  drive replaces what came before it (`x\C:foo`) and the path was not relative to that drive and bound
  to climb over that name anyway (`PathMeaning.MeaningIsPreserved`, `LexicalPath.DriveClimbIsDropped`,
  `LexicalPath.DriveNameReplaces`).
- The result is a normal form exactly when the last such name does not leave a dot or two after its
  letter, as `x\C:..` does; normalising again changes nothing exactly when it does not leave another
  such name either (`LexicalPath.NormalizedIsNormalForm`, `LexicalPath.Idempotent`,
  `LexicalPath.DriveNameLeavesDots`).
- On a drive that exists, the compared path leads where the original does, whatever the links and
  whatever else exists, exactly when normalisation keeps the meaning of the path and, on Unix, no climb
  comes after a name; or when the path names nothing but a root or a current directory and climbs from
  there. On Windows a climb after a name does no harm, because the system takes it out of the text
  before it follows any link (`AstrayPath.ComparedLeadsThere`).
- The compared path of such a path is written as the place it leads to exactly when it exists, or the
  missing names are no links below an existing directory, or its normal form is the place already
  (`ComparedPath.ComparedIsPlace`), and exactly then the answers about being under the places of roots
  are right (`PathUnderRoot.UnderRootIsExact`).
- Without dangling links, a path is found under a root exactly when it leads there or below and either
  both are compared from a root or neither is (`PathUnderRoot.UnderRootIsBelow`). A missing relative
  path, on Unix a climb after a link, and a dangling link each give a wrong answer otherwise
  (`PathUnderRoot.MissingRelativePath`, `PathUnderRoot.ClimbAfterLink`, `PathUnderRoot.DanglingLink`).
- Passing and reaching the required scale are the same verdict for every median exactly when the
  scale is below `U64_MAX / base` (`BenchThreshold.AgreementIsExact`).
- The median is at most the 90th percentile unless there are exactly two samples and they differ
  (`BenchThreshold.MedianAtMostP90`).
- The isolation pass succeeds exactly when every object lists a name once and no name it makes up is
  in use already; names without the marker meet the second half (`WeakSymbols.IsolationIsExact`,
  `WeakSymbols.MarkerFreeTargetsAreNew`).
- An offer of a thread database is later than the first one exactly when a time that is no integer,
  read as zero, comes after a negative time or before a positive one, or a text before a later time
  (`ThreadIndex.FirstIsLatestUnlessHidden`); the selection is the latest of all exactly when the first
  offer of some database comes before each such offer (`ThreadIndex.SelectionIsLatest`).
- Secret migration keeps the bytes but stores them as bytes: the next read returns the same kind of
  value exactly when the legacy file did not hold text (`SecretBackend.MigrationForgetsText`).
- After an append that follows a fragment without its newline, the ledger reads as if the fragment
  were not there exactly when it is blank; otherwise no row can be read any more
  (`UsageLedger.TornRecordIsFatal`). So an append that is cut off within its record makes the ledger
  unreadable, and one cut off just before its newline does so at the next append
  (`UsageLedger.CutOffAppend`).
- After a recorded cleanup pass, failed stamp writes included, the next one is at least an interval
  later exactly when the stamp it left tells its time or a later one, or one so late that nothing is
  due after it (`Housekeeping.SpacingIsKept`, `Housekeeping.NextPassMayBeTooClose`).
- A request body is refused by the check exactly when it does not fit the counter at one moment of the
  request under the capacity at another (`RequestMemory.VerdictGoesByTwoMoments`). So with a capacity
  that is never lowered a refused body did not fit at some moment of its request
  (`RequestMemory.RefusalHasACause`), and with a falling one it can fit throughout and be refused
  (`RequestMemory.RefusedThoughItFits`).

## Model

| member | source | states |
|---|---|---|
| JsonBoundary.AcquireJsonTree | crates/prodex-app/src/json_boundary.rs:29-40 | acquisition fails with exactly the first limit exceeded, and otherwise yields the node layout of the value, with the compact encoding in the buffer in encoding mode and an empty buffer in the other |
| JsonBoundary.JsonTree.AppendJsonNode | crates/prodex-app/src/json_boundary.rs:42-85 | appends the layout of the value to the nodes and its encoding to the buffer and adds its decoded bytes, or reports the limit that stops it |
| JsonBoundary.JsonTree.AppendJsonContents | crates/prodex-app/src/json_boundary.rs:87-100 | the contents of the last node are appended: children linked below it, or the encoding of a scalar |
| JsonBoundary.JsonTree.WriteJsonToken | crates/prodex-app/src/json_boundary.rs:102-106 | a token is written in encoding mode only |
| JsonBoundary.JsonTree.AppendJsonArray | crates/prodex-app/src/json_boundary.rs:108-125 | the loop over elements leaves the contents of an array complete, or stops at the first element that exceeds a limit with that limit |
| JsonBoundary.JsonTree.AppendJsonObject | crates/prodex-app/src/json_boundary.rs:127-149 | the same for the entries of an object, each written after its key |
| JsonBoundary.JsonTree.WriteJsonLead | crates/prodex-app/src/json_boundary.rs:135-144 | what precedes a child: a comma unless it is the first, then the key and colon of an entry |
| JsonBoundary.JsonTree.LinkJsonNode | crates/prodex-app/src/json_boundary.rs:151-162 | a child becomes the next sibling of the one before it, or the first child of its parent, and nothing else changes |
| JsonBoundary.AppendedAll | crates/prodex-app/src/json_boundary.rs:108-162 | linking children one after another comes to the closed layout of all of them under their parent |
| JsonBoundary.RawAfterAll | crates/prodex-app/src/json_boundary.rs:102-149 | the tokens written along the loop are the compact encoding |
| JsonBoundary.EncodeHasLength | crates/prodex-app/src/json_boundary.rs:61-83 | the span length of every value, counted without encoding it, is the length of its encoding |
| JsonTreeLaws.RoundTrip | crates/prodex-app/src/json_boundary.rs:42-162 | walking first-child and next-sibling links from node 0 rebuilds the value: kinds, keys, texts, order and nesting, and number literals where the encoding is kept |
| JsonTreeLaws.ReadableIsWhole | crates/prodex-app/src/json_boundary.rs:94-100 | with the encoding nothing of a value is lost; without it only number literals are |
| JsonTreeLaws.DecodeRegion | crates/prodex-app/src/json_boundary.rs:42-162 | the same for every subtree inside any larger tree |
| JsonTreeLaws.DecodeSiblings | crates/prodex-app/src/json_boundary.rs:108-162 | following next siblings from a child yields it and all later children, in order |
| JsonTreeLaws.NodeDescribesVisit | crates/prodex-app/src/json_boundary.rs:61-83 | node i has the kind, key and text of the i-th subvalue in preorder, kind by kind, and its span is exactly the encoding of that subvalue |
| JsonTreeLaws.TreeIsWellLinked | crates/prodex-app/src/json_boundary.rs:72-83 | every node but the root is reached from an earlier parent by increasing first-child and sibling links that agree with its parent link; subtrees and spans lie inside those of the parent, siblings are disjoint and ordered; the root spans the whole buffer |
| JsonTreeLaws.SubtreesAreIntervals | crates/prodex-app/src/json_boundary.rs:61-83 | the nodes reached upwards to a node are exactly the contiguous preorder interval that starts at it |
| JsonTreeLaws.SameTopology | crates/prodex-app/src/json_boundary.rs:20-27 | spans aside, both modes lay out the same nodes |
| JsonTreeLaws.ModesAgree | crates/prodex-app/src/json_boundary.rs:20-40 | when both modes succeed their nodes differ in spans only; without encoding spans are zero and the buffer empty |
| JsonTreeLaws.VerdictIsExact | crates/prodex-app/src/json_boundary.rs:49-57 | appending succeeds exactly when node count and decoded bytes stay within their limits |
| JsonTreeLaws.VerdictIsFirstExcess | crates/prodex-app/src/json_boundary.rs:49-57 | the error reported is that of the first subvalue in preorder that exceeds a limit, the node limit before the byte limit |
| JsonTreeLaws.FirstErrorIs | crates/prodex-app/src/json_boundary.rs:49-57 | which subvalue is the first to exceed a limit, and which limit that is, from the list of subvalues in preorder |
| JsonTreeLaws.AcceptanceIsExact | crates/prodex-app/src/json_boundary.rs:29-57 | without encoding exactly the values of at most 1,048,576 nodes and 64 MiB of decoded bytes are accepted, with the first excess reported; encoding adds only the limit of 64 MiB on the encoded length |
| JsonText.EncodingIsJson | crates/prodex-app/src/json_boundary.rs:87-149 | the compact encoding is a JSON text by the grammar of RFC 8259, and reads as the value it encodes: framing, keys, escapes, numbers and order |
| JsonText.BufferIsJson | crates/prodex-app/src/json_boundary.rs:29-40 | the buffer of a successful acquisition in encoding mode reads as the value and as nothing more |
| JsonText.SpanIsJson | crates/prodex-app/src/json_boundary.rs:61-83 | the span of every node reads as the subvalue it belongs to |
| AllocationCounters.CountingAllocator.RecordAllocation | crates/prodex-bench-support/src/allocation.rs:115-120 | run alone, an allocation adds one to the calls and its size to the allocated and live bytes, modulo 64 bits, and publishes the total reached as a peak; it is the uninterrupted run of its atomic operations |
| AllocationCounters.CountingAllocator.RecordDeallocation | crates/prodex-bench-support/src/allocation.rs:122-127 | the same for a deallocation, which takes its size from the live bytes and leaves the peak |
| AllocationCounters.CountingAllocator.RecordReallocation | crates/prodex-bench-support/src/allocation.rs:129-139 | the same for a reallocation, which counts the new size, changes the live bytes by the difference and publishes a peak only when it grows |
| AllocationCounters.CountingAllocator.AddLiveBytes | crates/prodex-bench-support/src/allocation.rs:141-146 | the live counter grows and the total it reached is published as a peak |
| AllocationCounters.RunKeepsInv | crates/prodex-bench-support/src/allocation.rs:45-80 | in every interleaving each block is accounted for up to what its unfinished call owes, and every counter is the exact total modulo its width |
| AllocationCounters.LiveBytesAreAccounted | crates/prodex-bench-support/src/allocation.rs:115-146 | in every interleaving the live counter is the sum of the accounted sizes of all blocks, and a block no call works on is accounted for in full |
| AllocationCounters.SubtractionNeverUnderflows | crates/prodex-bench-support/src/allocation.rs:122-139 | no subtraction from the live counter takes more than the block, and so the counter, has |
| AllocationCounters.TotalsBalance | crates/prodex-bench-support/src/allocation.rs:115-139 | with no call in progress, bytes allocated and reallocated are bytes deallocated, replaced and still live |
| AllocationCounters.CallsAreCounted | crates/prodex-bench-support/src/allocation.rs:115-139 | in every interleaving each of these figures is that of the calls begun so far, counted from the events, less what calls in progress still have to count |
| AllocationCounters.CountersAreCalls | crates/prodex-bench-support/src/allocation.rs:115-139 | with no call in progress the six call and byte counters are the numbers of allocations, reallocations and deallocations of the run and the sums of their sizes, modulo 64 bits |
| AllocationCounters.LiveBytesAreCalls | crates/prodex-bench-support/src/allocation.rs:115-146 | with no call in progress the live counter is the sizes of the blocks allocated and not deallocated, from the events alone, and bytes allocated and reallocated are bytes deallocated, replaced and live |
| AllocationCounters.PeakIsHighest | crates/prodex-bench-support/src/allocation.rs:129-146 | live bytes are at most the peak or a total about to be published, the peak was once the live total, and with nothing about to be published it is the highest total of the run |
| LexicalPath.NormalizePathLexically | crates/prodex-core/src/lib.rs:237-268 | the loop over components computes the normalised path, on Unix and on Windows, where a pushed name that starts like a drive replaces the buffer |
| LexicalPath.NormalizedIs | crates/prodex-core/src/lib.rs:237-268 | in closed form: the anchor and the names left over, or the climb and the names, or a single dot; or, after the last name that starts like a drive, what that leaves and the names after it |
| LexicalPath.NormalizedIsNormalForm | crates/prodex-core/src/lib.rs:237-268 | the result has no dot unless it is the whole path, and parent components only as a leading run and never below an anchor, if and only if the last name that starts like a drive has no dot or two after its letter |
| LexicalPath.NormalizedIsPlain | crates/prodex-core/src/lib.rs:237-268 | no name in the result starts like a drive, if and only if the last one in the path leaves no other that stays |
| LexicalPath.FixedPoints | crates/prodex-core/src/lib.rs:237-268 | the paths that normalisation leaves alone are exactly the normal forms in which no name starts like a drive |
| LexicalPath.Idempotent | crates/prodex-core/src/lib.rs:237-268 | normalising twice is normalising once, if and only if the last name that starts like a drive leaves neither a dot nor another such name |
| LexicalPath.NormalizeJoined | crates/prodex-core/src/lib.rs:237-268 | normalising the front of a joined path first makes no difference, if and only if it has no name that starts like a drive or what that leaves is settled or climbed out of, and no such name follows that keeps climbs |
| LexicalPath.DriveClimbIsDropped | crates/prodex-core/src/lib.rs:253-259 | `C:..\x` becomes `C:x` |
| LexicalPath.DriveNameReplaces | crates/prodex-core/src/lib.rs:252 | `x\C:foo` becomes `C:foo` |
| LexicalPath.DriveNameLeavesDots | crates/prodex-core/src/lib.rs:252-259 | `x\C:..` becomes `C:..`, which is no normal form and becomes `C:` |
| PathMeaning.MeaningIsPreserved | crates/prodex-core/src/lib.rs:237-268 | from every starting directory the normalised path leads where the path does, if and only if no climb leaves the current directory of a drive and no name that starts like a drive changes where the path leads |
| PathMeaning.NormalFormDecidesMeaning | crates/prodex-core/src/lib.rs:237-268 | two paths whose meaning is kept have the same normal form exactly when they lead to the same place from everywhere, and both or neither are left with the dot of a name like `C:.` |
| ComparedPath.NormalizePathForCompare | crates/prodex-core/src/lib.rs:211-213 | an existing path is compared as it resolves, a missing one as its missing names below what exists |
| ComparedPath.NormalizeMissingPathForCompare | crates/prodex-core/src/lib.rs:215-235 | the loop upwards stops at the nearest directory that resolves, and the names it passed are pushed back in their order |
| ComparedPath.MissingPathIs | crates/prodex-core/src/lib.rs:215-235 | the result is the place of the nearest existing directory above the lexical path followed by the missing names, or with none the lexical path |
| AstrayPath.ComparedLeadsThere | crates/prodex-core/src/lib.rs:211-268 | in every file system in which the drive of the path exists, links included, the compared path leads where the path does, if and only if normalisation keeps the meaning of the path and on Unix no climb comes after a name, or the path is no more than a root or current directory and climbs from it |
| ComparedPath.ComparedIsPlace | crates/prodex-core/src/lib.rs:211-235 | the compared path of a path that exists or keeps leading there is the place where it leads, if and only if it exists, or its missing names are no links below an existing directory, or nothing above it exists and its normal form is that place |
| PathUnderRoot.UnderRootIsBelow | crates/prodex-core/src/lib.rs:270-280 | of a root and a path that exist or keep leading there, without dangling links and on drives that exist: the path is found under the root if and only if it leads there or below and both are compared from a root or neither is, and strictly under it if and only if it leads further down as well |
| PathUnderRoot.UnderRootIsExact | crates/prodex-core/src/lib.rs:270-280 | for a path that exists or keeps leading there, being under the place of each root says whether the path leads there or below, if and only if the compared path is its place |
| PathUnderRoot.MissingRelativePath | crates/prodex-core/src/lib.rs:215-234 | with the root `.`, the missing `missing/file` leads below the root and is not found under it |
| PathUnderRoot.ClimbAfterLink | crates/prodex-core/src/lib.rs:215-268 | on Unix, with a link in `/root`, the missing `/root/link/../x` is found under `/root` and leads elsewhere |
| PathUnderRoot.DanglingLink | crates/prodex-core/src/lib.rs:215-235 | with a dangling link in `/root`, `/root/link` is found under `/root` and leads elsewhere |
| NewestPath.SelectNewestModifiedPath | crates/prodex-core/src/lib.rs:371-415 | the two-stage reduction selects the path that one pass selects, and panics exactly when there are more winners than one batch takes |
| NewestPath.OnePassFindsNewest | crates/prodex-core/src/lib.rs:367-371 | the one-pass reference finds the candidate that beats all others: later time, then larger path, then later input |
| NewestPath.NewestIsUnique | crates/prodex-mojo-core/src/log/recent_paths.rs:33-35 | only one candidate beats all others |
| NewestPath.NewestIs | crates/prodex-mojo-core/src/log/recent_paths.rs:33-49 | the candidate that beats all others has the greatest time and, at that time, the greatest path byte by byte |
| NewestPath.NewestFinalistIsNewest | crates/prodex-core/src/lib.rs:377-414 | however the input is cut into batches, the winner among batch winners wins overall |
| NewestPath.HalvesOrderTimes | crates/prodex-core/src/lib.rs:384-385 | comparing 128-bit times is comparing their 64-bit halves, high first |
| NewestPath.KernelOrderIsNewer | crates/prodex-mojo-core/src/log/recent_paths.rs:33-49 | the kernel's order on rows is the order on candidates |
| RequestMemory.RequestMemoryGuard.ReserveBodyBytes | crates/prodex-app/src/runtime_request_memory.rs:55-73 | alone, a request is granted exactly when eight times its size fits 64 bits, and the counter with what the guard lacks of that fits the capacity; then the guard holds the larger of the two amounts and the counter grows by the difference; refused, nothing changes |
| RequestMemory.RequestMemoryGuard.Drop | crates/prodex-app/src/runtime_request_memory.rs:76-82 | dropping a guard gives back what it holds |
| RequestMemory.StepKeepsInv | crates/prodex-app/src/runtime_request_memory.rs:54-110 | every atomic step of every guard and of the sampler keeps the budget consistent |
| RequestMemory.BudgetIsConserved | crates/prodex-app/src/runtime_request_memory.rs:54-110 | in every interleaving the shared counter is what guards hold plus grants in flight, and at most the largest capacity so far, or the present one if capacity never shrank |
| RequestMemory.DropNeverUnderflows | crates/prodex-app/src/runtime_request_memory.rs:76-82 | releasing a guard never takes more than is reserved |
| RequestMemory.NothingLeaks | crates/prodex-app/src/runtime_request_memory.rs:76-82 | once every guard is gone nothing is reserved |
| RequestMemory.GuardHoldsItsLargestBody | crates/prodex-app/src/runtime_request_memory.rs:55-73 | a live guard holds eight times the largest body it was granted |
| RequestMemory.RefusalLeavesNoTrace | crates/prodex-app/src/runtime_request_memory.rs:55-73 | in every interleaving, from the moment a guard asks until it is refused, its holding, its largest body and its share of the counter stay what they were |
| RequestMemory.VerdictGoesByTwoMoments | crates/prodex-app/src/runtime_request_memory.rs:63-70 | a request is refused by the check if and only if, in plain arithmetic, what it lacks does not fit the counter as it was at one moment of the request under the capacity as it is at the check |
| RequestMemory.RefusalHasACause | crates/prodex-app/src/runtime_request_memory.rs:55-73 | a refused body did not fit at some moment of its request, unless the capacity had fallen by the check; with a capacity that is never lowered there always is such a moment |
| RequestMemory.RefusedThoughItFits | crates/prodex-app/src/runtime_request_memory.rs:63-70 | a run with a falling capacity in which a body fits at every moment of its request and is refused |
| RequestMemory.UninterruptedReservation | crates/prodex-app/src/runtime_request_memory.rs:55-73 | the atomic steps of one reservation, uninterrupted, grant and refuse by the same plain condition as the method and leave the same guard and counter |
| RateLimit.McpRateLimit.Admit | crates/prodex-app/src/super_expose.rs:57-67 | a call restarts a window that is a second old; it is admitted and counted if it does so or the window has fewer than 120 calls |
| RateLimit.SlidingWindowBound | crates/prodex-app/src/super_expose.rs:40-67 | with a monotone clock any interval of one window length admits at most two quotas, and one of length T at most quota times (T / window + 2) |
| RateLimit.AdmissionsWithinBudget | crates/prodex-app/src/super_expose.rs:57-67 | from any state the admissions in an interval stay within what its windows can still give |
| RateLimit.BoundIsReached | crates/prodex-app/src/super_expose.rs:57-67 | two quotas within two clock ticks do occur, so the bound is tight |
| RateLimit.StartsAreSpaced | crates/prodex-app/src/super_expose.rs:58-61 | windows start at least one window length apart |
| RateLimit.RefusalHasACause | crates/prodex-app/src/super_expose.rs:57-67 | a call is refused only when 120 calls were admitted within the second before it |
| HeapTrim.HeapTrimGate.Reserve | crates/prodex-app/src/runtime_core_shared.rs:305-321 | alone, the gate grants exactly when the interval has passed since the last grant or there is no interval or no grant yet, and records the grant |
| HeapTrim.HeapTrimGate.MaybeTrimProcessHeap | crates/prodex-app/src/runtime_core_shared.rs:323-346 | releases below one mebibyte never reach the gate; others trim exactly when it grants |
| HeapTrim.GrantsAreSpaced | crates/prodex-app/src/runtime_core_shared.rs:305-321 | for any callers and clock readings, n grants after one at a nonzero time are at least n intervals later |
| HeapTrim.FailureMeansProgress | crates/prodex-app/src/runtime_core_shared.rs:316-319 | a failed exchange means another caller was granted since the load, so retries are bounded by grants to others |
| HeapTrim.RefusalHasACause | crates/prodex-app/src/runtime_core_shared.rs:310-315 | a call that ends without a grant saw an actual grant less than an interval before its own clock reading |
| HeapTrim.UninterruptedCall | crates/prodex-app/src/runtime_core_shared.rs:305-321 | the three steps of a call, uninterrupted, grant exactly when the interval has passed since the time in the cell or one of them is zero, and leave its time there |
| Housekeeping.DueMeansElapsed | crates/prodex-app/src/housekeeping.rs:119-141 | with a positive interval a run is due exactly when the clock is not before the epoch and the interval has passed since the number in the stamp file or, without one, since its modification time, or it has neither |
| Housekeeping.HousekeepingRoot.TryAcquireLock | crates/prodex-app/src/housekeeping.rs:101-117 | the lock is acquired exactly when nobody holds it |
| Housekeeping.HousekeepingRoot.RecordRunAt | crates/prodex-app/src/housekeeping.rs:143-150 | after a successful write the stamp tells the epoch of the run, and no clock finds the next run due before any positive interval has passed since; after a failed one it is whatever that left |
| Housekeeping.SpacingIsKept | crates/prodex-app/src/housekeeping.rs:119-150 | every clock that finds the next run due is at least the interval after the recorded pass, if and only if the stamp left tells that time or a later one, or one so late that nothing is due after it |
| Housekeeping.HousekeepingRoot.RunForPathsAt | crates/prodex-app/src/housekeeping.rs:197-218 | which of the four outcomes a run has, and that only a completed pass changes the stamp |
| Housekeeping.PassesNeverOverlap | crates/prodex-app/src/housekeeping.rs:197-218 | over any interleaving of processes, crashes included, each pass ends before the next begins |
| Housekeeping.PassesAreSpaced | crates/prodex-app/src/housekeeping.rs:119-150 | while every stamp write, failed ones included, leaves such a stamp, the stamps of completed passes are intervals apart though clocks are read before the lock |
| Housekeeping.NextPassMayBeTooClose | crates/prodex-app/src/housekeeping.rs:119-150 | between passes, a run can go on to a next recorded pass closer than the interval, if and only if the last pass left no such stamp |
| Housekeeping.FailedWriteLosesSpacing | crates/prodex-app/src/housekeeping.rs:143-150 | two passes that left no stamp can have the same time |
| SecretBackend.SecretStores.WriteRuntimeSecretBounded | crates/prodex-app/src/runtime_secret_backend.rs:39-62 | under keyring selection the method is the uninterrupted run of the write's accesses, and success leaves the new entry and no legacy file if either removal works; under file selection which writes succeed and what they leave |
| SecretBackend.SecretStores.ReadRuntimeSecretBounded | crates/prodex-app/src/runtime_secret_backend.rs:64-106 | under keyring selection the method is the uninterrupted run of the read's accesses, and a migration that succeeds leaves the bytes in the keyring and no legacy file if either removal works; under file selection it changes nothing |
| SecretBackend.SecretStores.WriteBounded | crates/prodex-secret-store/src/selection.rs:75-93 | the bound is looked at before either store is touched |
| SecretBackend.SecretStores.DeleteRuntimeSecret | crates/prodex-app/src/runtime_secret_backend.rs:108-128 | which of the two stores a deletion empties, for each selection and failure |
| SecretBackend.SecretStores.RemoveLegacyFileSecret | crates/prodex-app/src/runtime_secret_backend.rs:137-142 | the legacy file stays exactly when it was there, deleting it fails and removing its entry fails as well |
| SecretBackend.CompleteIsFourSteps | crates/prodex-app/src/runtime_secret_backend.rs:39-106 | every operation returns within four accesses, and cutting it off after four cuts off nothing |
| SecretBackend.CompleteWriteIs | crates/prodex-app/src/runtime_secret_backend.rs:39-62 | the same for a complete write |
| SecretBackend.CompleteReadIs | crates/prodex-app/src/runtime_secret_backend.rs:64-106 | how a complete read under keyring selection ends and what both stores then hold, from what they held, the bounds and which accesses work; the legacy file goes if either removal works and stays if both fail |
| SecretBackend.ReadNeverLosesSecret | crates/prodex-app/src/runtime_secret_backend.rs:64-106 | wherever a read fails or is cut off, the logical secret is unchanged, a read that succeeds returns it, and the legacy file is gone only once the keyring has it |
| SecretBackend.WriteIsAllOrNothing | README.md:1177 | wherever a write fails or is cut off, the secret is the old one or the new one, after success the new one, and the legacy file is gone only once the keyring has it |
| SecretBackend.SecretIsLastWritten | crates/prodex-app/src/runtime_secret_backend.rs:39-106 | over any history of reads and writes, the secret is that of a write no later successful write followed, or the initial one if none succeeded |
| SecretBackend.LegacyFileGoes | crates/prodex-app/src/runtime_secret_backend.rs:39-142 | over any history, cuts and failures included, the legacy file is gone exactly if a write succeeded, or a read that found no keyring entry, with one of the two removals working; else it is what it was |
| SecretBackend.MigrationForgetsText | crates/prodex-app/src/runtime_secret_backend.rs:92-105 | a second read returns the same value as the migrating one exactly when the legacy file did not hold text |
| WeakSymbols.DuplicateWeakStaticStrings | crates/prodex-mojo-core/build.rs:310-322 | the scan lists exactly the names that occur more than once, with the objects they occur in, in order |
| WeakSymbols.CollectRenames | crates/prodex-mojo-core/build.rs:332-340 | each object is told to rename exactly its repeated occurrences, and as many entries are listed as there are repetitions |
| WeakSymbols.RewriteObjects | crates/prodex-mojo-core/build.rs:342-391 | objects are rewritten one by one into the renamed ones, and every entry is counted |
| WeakSymbols.NamespaceConflictingWeakStaticStrings | crates/prodex-mojo-core/build.rs:324-403 | the pass succeeds exactly when each object lists a name once and no made-up name is in use; then every name has one owner and the count is the number of repetitions |
| WeakSymbols.IsolationIsExact | crates/prodex-mojo-core/build.rs:393-399 | whether the second scan finds nothing can be told from the input alone |
| WeakSymbols.MarkerFreeTargetsAreNew | crates/prodex-mojo-core/build.rs:338 | names without the marker cannot collide with made-up ones |
| WeakSymbols.TargetIsInjective | crates/prodex-mojo-core/build.rs:338 | a made-up name tells its object and the name it replaces |
| WeakSymbols.TargetSpells | crates/prodex-mojo-core/build.rs:338 | a made-up name is the old one, the marker and the number of the object in decimal |
| WeakSymbols.FirstStays | crates/prodex-mojo-core/build.rs:334 | the first owner keeps its name |
| WeakSymbols.MovedMeansRepeats | crates/prodex-mojo-core/build.rs:333-338 | an object is told to rename exactly the names it holds in a symbol that is not the first of its name |
| WeakSymbols.RepeatCountGrows | crates/prodex-mojo-core/build.rs:390 | a name accounts for its occurrences but one |
| WeakSymbols.IsolatedMeansNoDuplicates | crates/prodex-mojo-core/build.rs:320 | no name is listed twice exactly when every name has one owner |
| Checksum.RenderChecksum | crates/prodex-audit-log/src/checksum.rs:6-16 | the loop renders the prefix and two hexadecimal digits for each byte |
| Checksum.ChecksumTextReadsBack | crates/prodex-audit-log/src/checksum.rs:6-16 | the text is "sha256:" and two lower-case hexadecimal digits for each byte, which read back as the byte |
| Checksum.ChecksumTextIsInjective | crates/prodex-audit-log/src/checksum.rs:9-15 | different digests have different checksums |
| Checksum.ConstantTimeEqIsEquality | crates/prodex-audit-log/src/checksum.rs:18-28 | the fold holds of equal texts and of no others |
| UsageLedger.NormalizedIsIdempotent | mojo/prodex_core/audit_log_policy.mojo:48-156 | normalising a row again changes nothing, from what the token and total kernels do |
| UsageLedger.NormalizedIs | crates/prodex-audit-log/src/lib.rs:250-272 | field by field, what a normalised row is: each text becomes its own token or fallback, the total is the one given or the saturated sum, and all else stays |
| UsageLedger.CleanRowIsKept | crates/prodex-audit-log/src/lib.rs:250-272 | a row whose texts are tokens already and whose total is not zero is left alone |
| UsageLedger.TokensAreTokens | mojo/prodex_core/audit_log_policy.mojo:91-130 | a normalised token is within its length, lower case, made of allowed characters and not framed by dashes |
| UsageLedger.TokenIs | mojo/prodex_core/audit_log_policy.mojo:25-130 | character by character, and uniquely, the token of a text: its visible part, cut to the limit, in lower case with a dash for each character not allowed, without the dashes at its ends, or the fallback |
| UsageLedger.Ledger.AppendRow | crates/prodex-audit-log/src/lib.rs:371-383 | the encoded envelope of version 1 with the normalised row and its checksum, and a newline, are added at the end, and nothing before is touched |
| UsageLedger.Ledger.ReadRows | crates/prodex-audit-log/src/lib.rs:385-408 | a missing file has no rows, a file of more than 64 MiB is refused, and of any other the lines are parsed in order up to the first error |
| UsageLedger.LinesAreRead | crates/prodex-audit-log/src/lib.rs:399-407 | rows are those of the lines that hold one, in order, if no line is refused; otherwise the error is that of the first line refused and names it |
| UsageLedger.LinesConcat | crates/prodex-audit-log/src/lib.rs:400 | whole lines stay the same when more is appended |
| UsageLedger.LinesOfOne | crates/prodex-audit-log/src/lib.rs:400 | a line that is ended counts without a carriage return at its end |
| UsageLedger.RecordParsesBack | crates/prodex-audit-log/src/lib.rs:335-369 | the record of a row parses back to the normalised row |
| UsageLedger.LedgerRoundTrip | crates/prodex-audit-log/src/lib.rs:371-408 | after any appends to a ledger that reads well, reading returns its rows and then the normalised new ones in order, or refuses the file for its size |
| UsageLedger.CleanRowsComeBack | crates/prodex-audit-log/src/lib.rs:371-408 | clean rows that are appended come back as they were given |
| UsageLedger.EnvelopeIsChecked | crates/prodex-audit-log/src/lib.rs:356-365 | an envelope is accepted exactly when its version is known and its checksum is that of its row, with the error of the first check that fails; any other digest is refused |
| UsageLedger.BareLineIsRead | crates/prodex-audit-log/src/lib.rs:351-369 | a line without an envelope: blank it holds no row, a bare row is taken, anything else is refused |
| UsageLedger.TornRecordSwallowsNext | crates/prodex-audit-log/src/lib.rs:377-381 | a fragment without its newline and the next record are one line |
| UsageLedger.TornRecordIsFatal | crates/prodex-audit-log/src/lib.rs:371-408 | after the next append all rows are read, the new one included, if and only if the fragment is blank; otherwise reading fails with the line of the fragment |
| UsageLedger.CutOffAppend | crates/prodex-audit-log/src/lib.rs:371-408 | an append cut off within its record leaves an unreadable ledger, cut off just before its newline a readable one, and the next append makes either unreadable |
| ThreadIndex.LatestRuntimeThreadModelSelection | crates/prodex-app/src/runtime_thread_index.rs:328-396 | the nested loops select the latest among the first offers of all databases, ties going to the earlier database; from rows in the order of the query, that is the latest offer of all exactly if the hidden ones are outdone |
| ThreadIndex.OfferIs | crates/prodex-app/src/runtime_thread_index.rs:328-396 | a row offers something exactly when it can be read, its provider resolves to the wanted one and its model is not blank: the visible parts of model and reasoning effort, and its time in milliseconds or zero |
| ThreadIndex.FirstIsLatestUnlessHidden | crates/prodex-app/src/runtime_thread_index.rs:337-357 | in the order of the query, over integers, reals, infinities, text and missing values, in milliseconds or in seconds, an offer is later than the first of its database if and only if a value read as zero follows a negative time or precedes a positive one, or text precedes a later time |
| ThreadIndex.SelectionIsLatest | crates/prodex-app/src/runtime_thread_index.rs:328-396 | from the rows: the selection is the latest of all offers within the scan limits, ties going to the earliest database and then the earliest row, if and only if some database's first offer comes before each offer that its own first offer hides |
| ThreadIndex.DateHidesTime | crates/prodex-app/src/runtime_thread_index.rs:337-357 | a date written as text comes first, reads as zero and hides a time, although no time is negative |
| BenchThreshold.VerdictsAgreeUnlessSaturated | crates/prodex-bench-support/src/lib.rs:109-124 | passing and reaching the required scale agree if and only if the case passes or the scale is below U64_MAX / base |
| BenchThreshold.AgreementIsExact | crates/prodex-bench-support/src/lib.rs:109-124 | they agree for every median if and only if the scale is below U64_MAX / base |
| BenchThreshold.PassedIs | crates/prodex-bench-support/src/lib.rs:274-284 | a case passes exactly when a hundred times its median is at most the base times the scale, with a scale of zero taken as one, and at most 64 bits hold |
| BenchThreshold.ScaleIsAtLeastOne | crates/prodex-bench-support/src/lib.rs:114-124 | a scale of zero gives the threshold of a scale of one, and no case requires less than one |
| BenchThreshold.HeadroomsHaveOneSign | crates/prodex-bench-support/src/lib.rs:126-133 | below that scale the two headrooms are negative together |
| BenchThreshold.RequiredScaleIsLeast | crates/prodex-bench-support/src/lib.rs:114-124 | the required scale passes and no smaller one does |
| BenchThreshold.WithoutBase | crates/prodex-bench-support/src/lib.rs:115-117 | with a base of zero the two verdicts agree for a median of zero exactly at the maximal scale, and for any other median exactly below it |
| BenchThreshold.SampleSummary.constructor | crates/prodex-bench-support/src/lib.rs:306-335 | the samples are sorted in place; the median is the one at half their number and the 90th percentile the one at nine tenths of the last index, both rounded down |
| BenchThreshold.SortUnstableSorts | crates/prodex-bench-support/src/lib.rs:319 | what the sort leaves is sorted and a permutation of the samples |
| BenchThreshold.IndicesInOrder | crates/prodex-bench-support/src/lib.rs:320-322 | the two indices are half the number of samples and nine tenths of the last index, rounded down, and in order unless there are two samples |
| BenchThreshold.MedianAtMostP90 | crates/prodex-bench-support/src/lib.rs:320-322 | the median is at most the 90th percentile, if and only if there are not two different samples |

## Left out

- JsonBoundary.AcquireJsonTree: failures of memory reservation and of the serializer are not modelled; the limits are the only errors.
- JsonText.EncodingIsJson: the reader takes no white space between tokens and of the `\u` escapes only those below 128, which is all that a compact encoding has; number literals are any that the grammar allows.
- JsonBoundary.JsonTree.AppendJsonNode: a number is its printed literal and an object its entries in iteration order, as the JSON library yields them; the limit checks and the push of a node are a helper, and so is the turn that the two link loops share.
- AllocationCounters.RunKeepsInv: relaxed atomics are interleaved one operation at a time, which every single counter allows; failed system calls record nothing and are no events.
- AllocationCounters.PeakIsHighest: stated for runs whose live total always fits 64 bits, as the counter itself assumes.
- LexicalPath.NormalizePathLexically: a path is the components its iterator yields; file names that hold a slash, which only the extended prefixes of Windows let through and no Windows file system stores, are not modelled.
- PathMeaning.MeaningIsPreserved: symbolic links play no part here; they do in ComparedPath.
- ComparedPath.ComparedIsPlace: what exists does not change while a path is compared.
- AstrayPath.ComparedLeadsThere: climbs under the extended prefixes of Windows, which the system refuses rather than takes out, and the dots and blanks that it drops at the end of names are not modelled.
- ComparedPath.NormalizeMissingPathForCompare: the file system is any in which an existing path resolves to the place it leads to, written with names that do not start like a drive, that place lies in existing directories, and the empty path resolves to none.
- NewestPath.SelectNewestModifiedPath: the ordering kernel is any function that meets its stated order and its row limit.
- RequestMemory.BudgetIsConserved: where the sampler gets its readings from is not modelled; any capacity may be stored at any time.
- RateLimit.SlidingWindowBound: the clock is any monotone one, as the source's is; calls are one after another, as its exclusive reference makes them.
- HeapTrim.HeapTrimGate.MaybeTrimProcessHeap: trimming itself is not modelled, nor builds that return false because the platform has no trimming allocator.
- Housekeeping.HousekeepingRoot.RunForPathsAt: what a cleanup pass removes, and failures to open the lock file, are not modelled.
- SecretBackend.SecretIsLastWritten: operations run one at a time; several processes migrating at once, and deletion when the legacy file cannot be removed, are outside it, as the source promises nothing there.
- SecretBackend.SecretStores.WriteBounded: how values are encoded in a keyring entry, account projection, file permissions and provider metrics are not modelled.
- WeakSymbols.NamespaceConflictingWeakStaticStrings: symbol scanning and rewriting by external tools succeed; names are dealt with in any order rather than sorted.
- UsageLedger.LedgerRoundTrip: the JSON codec is any that writes one line, decodes what it encodes, and decodes neither a proper beginning of an encoding nor an encoding after other visible text; the digest is any function of a row; locking and permissions are not modelled.
- UsageLedger.CutOffAppend: the file is text, so a cut inside a character, after which reading fails because the file is not UTF-8 and not with the line of the record, is not covered.
- UsageLedger.NormalizedIsIdempotent: a token text over the kernel's limit of one mebibyte, on which the code panics, is not modelled.
- ThreadIndex.LatestRuntimeThreadModelSelection: how text is ordered among itself does not matter and is left open; provider lookup is any function; listing and ordering the database files is not modelled.
- BenchThreshold.SampleSummary.constructor: sorting is by a reference function, of which only order and permutation matter; running the cases and timing them is not modelled.
- Budget windows and evaluation, audit events, log retention, thread presence checks, terminal and network code: plumbing around kernels or input and output.
