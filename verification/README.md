# s3aibench: a verified model of the load generator's engines

s3aibench generates object-storage load.  Around a large amount of plumbing it has a handful of small engines
that keep state: an in-memory paging store, a cleanup walker, a checkpoint retention protocol, workloads that
claim keys from an atomic counter, a sharded metrics collector, a deterministic body reader, and a few arithmetic
kernels.  This project models those engines in Dafny and proves that each agrees with a simple specification over
every run.  `dafny verify dfyconfig.toml` checks everything.

## How the model is built

* **Store and walkers.**  `Lex` defines Go's byte order on strings (Dafny's `<` on sequences is the prefix order), sorting
  and lower-bound search.  `Pages` says what one List answer means, `Store` is the in-memory client with its one-shot
  injected faults, `PagedWalk` states what a walk over changing buckets returns, `RunPrefix` is the mapping of keys under a run
  prefix with the client behind it, and `SafetyCleanup` the delete-while-paging loop, run through either kind of client.
* **Protocols.**  `Checkpoint` and `ClaimCounter` are step machines with any number of workers and every interleaving: a run
  is any sequence of enabled steps.  `Counters`, `Metadata` and the class in `Checkpoint` are the Go objects; their methods,
  with the other goroutines acting between their atomic actions, are proved to be runs of the protocol.
* **Metrics.**  `MetricsLog` states what a report of one log of operations is (counts, sums, a multiset of clamped latencies,
  per-code counts, extremes), `MetricsCuts` what a reader takes that visits shards one after another while writers continue,
  and `Metrics` is the collector: shards, tables, aggregates, per-code counters and histograms are heap objects.
* **Bytes, words and arithmetic.**  `Bodygen` is the cyclic body reader, `Dataloader` the splitmix64 finaliser and the shared
  sequential counter, `Keys` the key printer, `Histogram` the two-pointer bucketing, `MixThreads` the thread division,
  `Arith` and `Sets` a few facts about division and sizes.

A `char` stands for one byte, so a statement about all strings covers every Go string.  Concurrency is never bounded: what other
goroutines do is a universally quantified schedule (`Store.Schedule`, the `schedule` of `Metrics.Collector.Snapshot`), a sequence of
protocol steps, or a sequence of buckets, and each critical section or atomic operation is one step.  Clocks, sizes and random draws
are parameters.  Ghost results (`order`, `cuts`, `buckets`, `calls`, `rounds`, `skipped`) only name what happened.

Preconditions come from the source: the retention slice expression (checkpoint.go:131) needs `retain >= 0`; the workload counters start
in a store that holds no object of the workload; Cleanup statements of the workloads follow `wg.Wait`, so no worker is between
two of its steps then, while other parties may still act.  An injected fault that claims NotFound for a key that is there is
possible with the in-memory client; where that matters a statement excludes it or reports the keys it spared.

## Where the code and its documentation differ

The model follows the code.

* `bodygen.Reader.Read` says it continues across the block boundary, but handles one wrap only: a request that reaches beyond two blocks
  from the start of the current one slices past the block and panics (`Bodygen.Reader.Read`, `Bodygen.SafeBufferLength`,
  `Bodygen.WholeBodyOverruns`).
* The comment of package mix promises sum(threads * weight) == env.Threads.  Two children of weight 2 and four threads give 8
  (`MixThreads.CommentFails`).  `MixThreads.CommentHoldsIff` gives the exact condition for all positive weights, in terms of the
  squared weights, the starved children and the remainders; `CommentFailsWhen` and `CommentHoldsForWholeShares` are its
  consequences.  What holds of the plain sum of the threads is in `MixThreads.Surplus`, `ExactIff` and `WithinChildren`.
* `joinPrefix` is documented to prepend the prefix exactly once.  It does so exactly under `RunPrefix.JoinsOnce`
  (`RunPrefix.IdempotentIff`, `NotIdempotent`).  With a prefix that starts with a slash, cleanup lists another prefix than the one
  the run wrote under and asks to delete other keys than it listed; which objects are covered and which keys are deleted
  under their own names is stated exactly (`RunPrefix.CleanupCoversIff`, `DeletesListedIff`, `CleanupFaithfulIff`).
* `List` converts the number of keys to int32 before comparing it with the page size, so a listing of 2^31 keys is returned whole
  (`Pages.NotTruncated`); `Pages.WithinPageSizeIff` says exactly when a page keeps to the page size.
* `safety.Cleanup` counts deleted keys: a key another goroutine removed between List and Delete is counted too, because deleting an
  absent key succeeds (`SafetyCleanup.CountsMissingKey`).  The count is the number of objects removed exactly when no delete came
  too late (`SafetyCleanup.CountExactIff`), which is so whenever nobody else removes a key under the prefix (`SafetyCleanup.Cleanup`).
* A snapshot reports LatMin 0 when every latency reached one hour (the sentinel), but also when a recorded latency is 0
  (`MetricsLog.ReportedMinZero` has both cases).

## Model

| member | source | states |
|---|---|---|
| Lex.Trichotomy | internal/s3client/fake/fake.go:172 | the byte order that sort.Strings uses is a strict total order |
| Lex.LessIff | internal/s3client/fake/fake.go:172 | a string sorts before another if and only if, after a common beginning, it ends or has the smaller byte |
| Lex.ListingUnique | internal/s3client/fake/fake.go:166-172 | a set of keys has one sorted listing, so a listing does not depend on map iteration order |
| Lex.SortLists | internal/s3client/fake/fake.go:172 | sorting distinct keys in any order gives the sorted listing of their set |
| Lex.LowerBoundLists | internal/s3client/fake/fake.go:173-176 | resuming at the lower bound of the token keeps exactly the keys from the token on, whether or not the token's own key is still there |
| Store.Client.FailOp | internal/s3client/fake/fake.go:39-43 | arms one fault and changes no object |
| Store.Client.CheckFail | internal/s3client/fake/fake.go:63-69 | an armed fault is answered once and then disarmed |
| Store.Client.Put | internal/s3client/fake/fake.go:77-96 | stores the whole body under its key if and only if no fault is armed, the body does not fail and has the announced size; otherwise no object changes and an armed fault is what is returned |
| Store.Client.MultipartUpload | internal/s3client/fake/fake.go:255-271 | stores the whole body if and only if no fault is armed and the body does not fail, whatever its size; otherwise no object changes |
| Store.Client.Get | internal/s3client/fake/fake.go:98-111 | returns the stored bytes, the armed fault, or NotFound exactly when the key is absent |
| Store.Client.Delete | internal/s3client/fake/fake.go:150-158 | an armed fault leaves the objects; otherwise the key is gone and deleting an absent key succeeds |
| Store.Client.Copy | internal/s3client/fake/fake.go:208-222 | without an armed fault a copy succeeds if and only if the source is there, the destination present or not, and then stores the source's bytes; with the source absent it answers NotFound, and a failure changes no object |
| Store.Client.List | internal/s3client/fake/fake.go:160-206 | answers the specified page of the bucket as it is at that moment, or the armed fault |
| Store.ListKeys | internal/s3client/fake/fake.go:166-205 | the loops that collect, sort, cut at the token, roll up and truncate compute exactly the specified page of the key set |
| Store.RollUp | internal/s3client/fake/fake.go:181-197 | the delimiter loop lists in order the keys without a delimiter and, once each and in order, the common prefixes of the others |
| Store.OthersFrame | internal/s3client/fake/fake.go:20-26 | whatever other goroutines do between two calls, only the keys they name change and every armed fault was armed by someone |
| Store.AnyInterference | internal/s3client/fake/fake.go:20-26 | the steps of others cover every interference: some sequence of them takes any bucket to any other, armed faults included |
| Pages.PageServes | internal/s3client/fake/fake.go:173-205 | a page holds, in order, exactly the flat keys from its token to its continuation token, all of them if it is not truncated; a truncated page is full |
| Pages.PageKeysAre | internal/s3client/fake/fake.go:160-205 | a page lists, in order, exactly the keys under the prefix from the token to the continuation token in which the delimiter occurs nowhere after the prefix; a truncated page has as many as asked for, 1000 by default |
| Pages.CommonPrefixesAre | internal/s3client/fake/fake.go:181-197 | a page reports, in order and each once, exactly what the keys from the token on that have the delimiter after the prefix start with, up to and with its first occurrence; without a delimiter nothing |
| Pages.RolledUp | internal/s3client/fake/fake.go:184-193 | a key from the token on with the delimiter anywhere after the prefix is not listed and lies under a reported common prefix |
| Pages.Int32Is | internal/s3client/fake/fake.go:198 | the int32 conversion yields the signed 32-bit number congruent modulo 2^32 |
| Pages.CutCases | internal/s3client/fake/fake.go:198-205 | truncation either keeps everything or the first max keys with the next key as token; below 2^31 keys it happens exactly when there are more than max |
| Pages.WithinPageSizeIff | internal/s3client/fake/fake.go:198-205 | a page keeps to the page size if and only if there are no more keys than that or their int32 count still exceeds it |
| Pages.NotTruncated | internal/s3client/fake/fake.go:198-205 | 2^31 keys are returned in one page that claims to be the last, whatever the page size |
| Pages.GroupDetermines | internal/s3client/fake/fake.go:184-193 | every listed key that starts with a reported common prefix is rolled up into that one |
| Pages.GroupsOrdered | internal/s3client/fake/fake.go:181-197 | rolling up keeps the order, so common prefixes come out sorted without a second sort |
| Pages.RollUpPartitions | internal/s3client/fake/fake.go:181-197 | every key under the prefix is flat and under no common prefix if the delimiter occurs nowhere after the prefix, and otherwise under exactly one |
| Pages.CommonPrefixesOfPage | internal/s3client/fake/fake.go:173-205 | the first page reports the complete, strictly increasing set of common prefixes, later pages only members of it |
| PagedWalk.WalkStrictlyIncreasing | internal/workload/metadata/metadata.go:148-163 | a walk over a bucket that changes arbitrarily between pages returns strictly increasing keys, so none twice |
| PagedWalk.ReturnedIffPresent | internal/workload/metadata/metadata.go:148-163 | a finished walk returns a key if and only if it was stored when the one page whose range covers it was served |
| PagedWalk.PageForCovers | internal/workload/metadata/metadata.go:148-163 | the covering page of a key comes after every continuation token up to the key and ends at a later one |
| PagedWalk.WalkComplete | internal/workload/metadata/metadata.go:148-163 | a key present throughout is returned, and a returned key was present when its page was served |
| PagedWalk.WalkBounded | internal/workload/metadata/metadata.go:148-163 | a walk over keys from a finite set has at most one page more than there are such keys |
| PagedWalk.StaticWalk | internal/s3client/fake/fake.go:166-205 | on an unchanging store the pages concatenate to the full sorted listing |
| PagedWalk.PagesFull | internal/s3client/fake/fake.go:198-205 | over fewer than 2^31 flat keys every page of the client but the last holds exactly its page size, however the bucket changes |
| PagedWalk.StaticPageCount | internal/s3client/fake/fake.go:198-205 | the client walks an unchanging store of n < 2^31 flat keys in ceil(n / m) pages, m being its page size |
| SafetyCleanup.Cleanup | internal/safety/safety.go:42-67 | for every interference, every fault and either client: the calls are exactly the rounds of the walk, each made on the bucket it found; the walk passes over exactly the deletes that drew NotFound, stops at the first call that draws any other fault and reports that fault; the count is that of the deletes that succeeded, with or without an object; only keys in the client's region go; on success what is left was written meanwhile or is a key whose delete drew NotFound; the count is exact, on failure too, when no other removes a key under the prefix, whatever they write or remove elsewhere; the loop terminates |
| SafetyCleanup.DeletePage | internal/safety/safety.go:53-61 | the inner loop makes the deletes of the page in order, passes over every delete that drew NotFound, stops at the first that drew another fault and returns that fault, and counts hits and misses; the skipped keys are keys whose delete drew NotFound; none misses when nobody else removes a key under the prefix |
| SafetyCleanup.CountExactIff | internal/safety/safety.go:40-67 | the count is the number of objects removed if and only if no delete found its key already gone |
| SafetyCleanup.CountsMissingKey | internal/safety/safety.go:53-61 | a concrete cleanup, with its rounds and calls, in which the only key is removed by another after it was listed: it reports 1 and removed 0 |
| SafetyCleanup.SuccessEmptiesPrefix | internal/safety/safety.go:40-67 | an undisturbed successful cleanup leaves exactly the objects outside the prefix, and as many go as there were inside |
| SafetyCleanup.CleanupAndRerun | internal/safety/safety.go:40-67 | wherever a first run stopped, a successful rerun finishes the job and the two counts sum to the original number of keys under the prefix; a rerun that fails reports the fault its last call drew |
| RunPrefix.NormalisedIs | internal/s3client/s3client.go:44-46 | a prefix that ends in a slash stays, any other gains exactly one: the shortest extension that ends in a slash |
| RunPrefix.JoinIs | internal/s3client/s3client.go:38-51 | for every key, and for a prefix written with or without its slash: one leading slash of the key is dropped, a key then under the prefix stays, any other has the prefix with one slash put in front; without a prefix only the slash goes |
| RunPrefix.UnderPrefix | internal/s3client/s3client.go:39-51 | the joined key lies under the normalised prefix, for every non-empty prefix and every key |
| RunPrefix.PrefixedIsFixed | internal/s3client/s3client.go:47-49 | a key already under a prefix that does not start with a slash is mapped to itself |
| RunPrefix.SameObject | internal/s3client/s3client.go:38-51 | with a non-empty prefix two keys name one object exactly when they agree after an optional slash and an optional prefix are stripped |
| RunPrefix.IdempotentIff | internal/s3client/s3client.go:38-51 | joining twice equals joining once if and only if the stated condition on prefix and leading slashes holds |
| RunPrefix.NotIdempotent | internal/s3client/s3client.go:38-51 | a concrete key that joining twice changes |
| RunPrefix.RunCalls | internal/s3client/aws.go:81-174 | any run of calls through a client with a run prefix leaves every object outside the prefix untouched |
| SafetyCleanup.SameRounds | internal/s3client/aws.go:127-165 | behind a non-empty run prefix without a leading slash the cleanup of that prefix makes exactly the calls it makes on the store itself |
| SafetyCleanup.CleanupRunPrefix | internal/cli/run.go:135 | the whole cleanup of the run prefix through the prefixing client: same trace, stopping rule, count and result as on the store |
| RunPrefix.CleanupListsUnder | internal/cli/run.go:135 | with the run's own prefix, cleanup lists exactly the prefix, or the whole bucket for an empty one, or a deeper prefix for one that starts with a slash |
| RunPrefix.CleanupCoversIff | internal/s3client/aws.go:134-138 | the listing of cleanup covers a written object if and only if the prefix does not start with a slash or the bare key repeats it |
| RunPrefix.SlashPrefixMisses | internal/s3client/s3client.go:39-51 | a concrete object that cleanup behind the prefix "/p" does not list |
| RunPrefix.DeletesListedIff | internal/s3client/aws.go:127-132 | a key the cleanup lists is deleted under its own name if and only if the stated condition on prefix and key holds |
| RunPrefix.CleanupFaithfulIff | internal/s3client/aws.go:127-138 | all keys a cleanup lists are deleted under their own names if and only if the run prefix is not empty and does not start with a slash |
| RunPrefix.SlashPrefixMisdeletes | internal/s3client/aws.go:127-138 | a concrete key listed behind the prefix "/p" whose delete names another key |
| Keys.AppendKeyPadded | internal/workload/workload.go:109-118 | the buffer loop produces prefix, zero padding and decimal number |
| Keys.PaddedText | internal/workload/workload.go:109-118 | the text is the prefix and then, place by place, the decimal digits of the number, zeros only up to the width |
| Keys.DecimalUnique | internal/workload/workload.go:109-118 | number and width determine that text |
| Keys.NegativeText | internal/workload/workload.go:109-118 | a negative number has its sign between the padding and its digits |
| Keys.PaddedRoundTrip | internal/workload/workload.go:109-118 | stripping the prefix and parsing the rest gives the number back, for every number, prefix and width |
| Keys.PaddedInjective | internal/workload/workload.go:109-118 | distinct numbers have distinct keys, numbers wider than the padding included |
| Keys.PaddedLength | internal/workload/workload.go:109-118 | a key is as long as its prefix plus the larger of the width and the number of digits |
| Keys.PaddedOrder | internal/workload/workload.go:109-118 | below 10^width the byte order of keys is the numeric order |
| Keys.PaddedOrderBreaksAtWidth | internal/workload/workload.go:109-118 | the bound is sharp: 10^width sorts before 10^width - 1, for every width |
| Metadata.BuildPrefixes | internal/workload/metadata/metadata.go:84-94 | the loop and the recursion build the specified leaf paths in order |
| Metadata.PathAt | internal/workload/metadata/metadata.go:84-94 | the path at a position goes through the children that the position's digits in base fanout number, each "/p" and at least two digits |
| Metadata.DigitsOf | internal/workload/metadata/metadata.go:84-94 | every position below fanout^depth has such digits, so all the paths are given |
| Metadata.PrefixCount | internal/workload/metadata/metadata.go:84-94 | there are fanout^depth leaf paths |
| Metadata.PrefixesDistinct | internal/workload/metadata/metadata.go:84-94 | all leaf paths differ, for every fanout and depth |
| Metadata.DataSet | internal/workload/metadata/metadata.go:64-82 | the base keys number fanout^depth * perPrefix and are pairwise distinct |
| Metadata.DataSetAt | internal/workload/metadata/metadata.go:67-71 | which key comes when and its text: path after path, below each "/obj-" and at least four digits in order |
| Metadata.BaseKeysAreNotCopies | internal/workload/metadata/metadata.go:67-94 | no base key is a COPY destination, whatever the indices |
| Metadata.Workload.Prepopulate | internal/workload/metadata/metadata.go:67-82 | wherever it stops, baseKeys is exactly what was stored, in order; it stops at the first upload that fails, with that upload's error, and otherwise the whole data set is stored |
| Metadata.Workload.ListPrefix | internal/workload/metadata/metadata.go:148-163 | the pages it reads form a walk over the buckets as other workers change them, each the client's page of 100 at its token; the numbers recorded are those of keys and common prefixes of each page, one per request, and only an injected List fault ends it early |
| Metadata.Workload.Copy | internal/workload/metadata/metadata.go:165-171 | a COPY, with the other workers acting between claim and copy, is the protocol's claim, their steps, and a write of the source's bytes or a failed write; it succeeds if and only if the source is then there and no fault is armed |
| Metadata.Workload.Cleanup | internal/workload/metadata/metadata.go:191-204 | the two loops are one sweep over the base keys and the claimed COPY destinations: it passes over NotFound and reports the first other fault; without an error or a false NotFound none of those keys is left that others did not write, and no other key is touched, unclaimed indices included |
| Metadata.Workload.WholeRun | internal/runner/runner.go:71-90 | prepopulate whether or not it succeeds, any run of any workers to its join, cleanup: the cleanup sweeps what was stored and claimed; without an error no uploaded key and no COPY destination is left and nothing else was touched; a reported error is an armed fault |
| ClaimCounter.KeyText | internal/workload/lancedb/lancedb.go:45-96 | the texts of the object keys: workload name, "/k-", "/_versions/ver-" ... ".manifest", "/data/frag-" or "/copy/dst-", and the index in decimal of width 0, 8, 6 or 12 |
| ClaimCounter.KeyForInjective | internal/workload/smallobj/smallobj.go:61-63 | an object key determines its index, for every key layout |
| ClaimCounter.RunKeepsInv | internal/workload/smallobj/smallobj.go:81-121 | in every interleaving of any number of workers each index is claimed and written at most once and is stored, in flight or failed, exactly one of them |
| ClaimCounter.ReadMisses | internal/workload/smallobj/smallobj.go:92-106 | a read of a chosen index misses exactly when its write is in flight or failed |
| ClaimCounter.JoinedState | internal/runner/runner.go:93-108 | after the workers join, exactly the claimed indices whose write did not fail are stored |
| ClaimCounter.RunKeepsOthers | internal/workload/smallobj/smallobj.go:81-121 | the workers change no object that is not the workload's |
| ClaimCounter.DeleteClaimed | internal/workload/smallobj/smallobj.go:125-133 | the cleanup loop regenerates the keys from the counter and sweeps them: one delete each, in order, on the bucket it finds, passing over NotFound and stopping at the first other fault, which it reports |
| ClaimCounter.DeleteKeys | internal/workload/metadata/metadata.go:192-196 | the same sweep over a remembered list of keys |
| ClaimCounter.Sweeps | internal/workload/smallobj/smallobj.go:125-133 | whatever others do during a sweep: nothing changes but its keys and what others change; without an error or a false NotFound its keys are gone but for those others wrote; a reported error is an armed fault other than NotFound |
| ClaimCounter.SweepsConcat | internal/workload/lancedb/lancedb.go:226-239 | two cleanup loops, one after the other, are one sweep over all their keys, whether or not the first is cut short |
| ClaimCounter.CleanupAfterJoin | internal/workload/smallobj/smallobj.go:123-133 | after any run and join, and whatever others do during the cleanup: without an error or a false NotFound no key of the workload is left, claimed or not, that others did not write; nothing else changes; a reported error is an armed fault |
| ClaimCounter.SchemesDisjoint | internal/workload/lancedb/lancedb.go:90-96 | keys of different kinds under one workload name never coincide |
| ClaimCounter.FragmentsStay | internal/workload/lancedb/lancedb.go:174-201 | a prepopulated fragment is there for every HEAD and range read of the run |
| Counters.SmallObject.Prepopulate | internal/workload/smallobj/smallobj.go:67-76 | the counter becomes 1 exactly when object 0 was stored |
| Counters.SmallObject.WriteNext | internal/workload/smallobj/smallobj.go:108-116 | a write, with the other workers acting between claim and PUT, is the protocol's claim, their steps, and a write or failed write, failing only as the store fails then |
| Counters.SmallObject.Cleanup | internal/workload/smallobj/smallobj.go:125-133 | sweeps every counted index and touches no other key, indices at or above the counter included; without an error or a false NotFound all of them are gone; a reported error is an armed fault |
| Counters.LanceDB.Prepopulate | internal/workload/lancedb/lancedb.go:100-124 | wherever it stops, the two counters say exactly which fragments and manifests are stored; it stops at the first upload that fails, with that upload's error |
| Counters.LanceDB.WriteManifest | internal/workload/lancedb/lancedb.go:210-222 | run-time manifests continue the numbering after the prepopulated ones as the protocol's counter does, with the other workers acting between claim and PUT |
| Counters.LanceDB.Cleanup | internal/workload/lancedb/lancedb.go:226-239 | the two loops are one sweep over the fragments and every claimed manifest index: it passes over NotFound and reports the first other fault; without an error or a false NotFound all are gone, and no other key is touched |
| Counters.LanceDB.WholeRun | internal/runner/runner.go:71-90 | prepopulate whether or not it succeeds, any run of any workers to its join, cleanup: the run starts from what was stored, the cleanup sweeps what was stored and claimed; without an error no fragment and no manifest is left and nothing else was touched; a reported error is an armed fault |
| Checkpoint.KeyText | internal/workload/checkpoint/checkpoint.go:36-117 | a checkpoint's key is the workload's name, "/ckpt-" and its number in at least eight digits |
| Checkpoint.StepKeepsInv | internal/workload/checkpoint/checkpoint.go:115-141 | every atomic step of a writer, the reader or a foreign party keeps the retention invariant |
| Checkpoint.VersionsAreNewest | internal/workload/checkpoint/checkpoint.go:126-134 | in every interleaving `versions` is the last min(retain, appended) keys of the append history, which has no duplicates |
| Checkpoint.StoredCheckpoints | internal/workload/checkpoint/checkpoint.go:115-141 | stored checkpoints are the disjoint union of tracked, uploaded but not appended, awaiting delete, and delete-failed keys |
| Checkpoint.StorageBound | internal/workload/checkpoint/checkpoint.go:115-141 | at most retain + writers checkpoints are stored at any moment, plus one per failed delete |
| Checkpoint.QuiescentStore | internal/workload/checkpoint/checkpoint.go:104 | when all writers are idle exactly the tracked checkpoints remain, and those whose delete failed |
| Checkpoint.ReaderChoosesStored | internal/workload/checkpoint/checkpoint.go:143-149 | a resume read names a checkpoint that is fully uploaded, appended and stored when it is chosen |
| Checkpoint.ReaderMiss | internal/workload/checkpoint/checkpoint.go:143-154 | a resume read misses only if at least retain newer checkpoints were appended after it chose its key |
| Checkpoint.Workload.AppendAndTrim | internal/workload/checkpoint/checkpoint.go:126-134 | what is handed back and what is kept are, in this order, the old versions and the new key, and the kept ones are the last min(retain, number of them) |
| Checkpoint.Workload.WriteOne | internal/workload/checkpoint/checkpoint.go:115-141 | one write, with the other goroutines acting in every gap between its atomic actions, amounts to a run of the protocol whose own steps are claim, upload, append and the deletes; it fails only as the upload fails, and no delete is skipped without a fault |
| Checkpoint.Workload.ReadLatest | internal/workload/checkpoint/checkpoint.go:143-161 | the resume read is the protocol's Choose and Get with the writers' steps between them: the key it names is stored when chosen, it gets the bytes stored at the Get, the armed fault, or NotFound, and NotFound only if at least retain checkpoints were appended meanwhile |
| Checkpoint.Workload.Cleanup | internal/workload/checkpoint/checkpoint.go:164-174 | after the writers joined the tracked keys are swept: without an error or a false NotFound exactly the checkpoints whose earlier delete failed are left; a reported error is an armed fault |
| MetricsLog.IncludeAggregates | internal/metrics/metrics.go:93-137 | recording one operation keeps the aggregate of its key exact: counts, sums, extremes, clamped multiset, per-code counts and samples |
| MetricsLog.MergeAggregates | internal/metrics/metrics.go:265-287 | merging two aggregates gives the aggregate of the two logs together |
| MetricsLog.HistogramHolds | internal/metrics/metrics.go:119-126 | what a histogram holds: within the bounds as many of each value as operations of that latency, at 1 ns all that were as short, at one hour all that were as long, and no other value |
| MetricsLog.CodeHolds | internal/metrics/errors.go:12-21 | the count of a code is the number of API failures of that code and, under "unknown", of all other failures too |
| MetricsLog.ReportsPermuted | internal/metrics/metrics.go:197-238 | a report depends only on what was recorded, not on the order of records or shards |
| MetricsLog.CodesSumToErrors | internal/metrics/metrics.go:127-136 | per-code counts, enumerated in any order, sum to Errors |
| MetricsLog.ReportedMinZero | internal/metrics/metrics.go:229-236 | the reported minimum, which is otherwise the least latency, is 0 if and only if every latency reached the sentinel or the least latency is 0 |
| MetricsLog.ZeroLatencyShown | internal/metrics/metrics.go:229-236 | one operation of latency 0 is shown with minimum 0 although it is below the sentinel |
| MetricsLog.MeanBetween | internal/metrics/metrics.go:305-310 | the truncated mean lies between any bounds all recorded latencies respect, and is 0 with nothing recorded |
| MetricsLog.MeanIs | internal/metrics/metrics.go:305-310 | the mean is the sum of the recorded latencies divided by their number, truncated toward zero |
| MetricsCuts.TakenBetween | internal/metrics/metrics.go:197-238 | reading the shards one after another while writers continue takes every record made before the reading began, and only records made before it ended, each once |
| MetricsCuts.RoutedPrefix | internal/metrics/metrics.go:206-227 | what is read of one shard is a prefix of that shard's log |
| MetricsCuts.ReadingsGrow | internal/metrics/metrics.go:241-262 | a reading that begins after another ended never totals less, for any non-negative measure |
| Metrics.OpStats.CountFailure | internal/metrics/metrics.go:127-136 | a failure is counted under its code in a counter object of its own, whose sample is the code's first message |
| Metrics.OpStats.MergeCodes | internal/metrics/metrics.go:279-286 | merging per-code counters in any map order adds the counts, keeps the destination's sample, and gives new codes fresh counter objects, never the source's |
| Metrics.OpStats.Add | internal/metrics/metrics.go:109-136 | the field updates of one record equal the specified step |
| Metrics.OpStats.MergeFrom | internal/metrics/metrics.go:265-287 | mergeStats equals the specified merge, changes only objects of the destination, and takes in only fresh ones |
| Metrics.Table.Record | internal/metrics/metrics.go:93-137 | after a record every (workload, op) of the table holds the aggregate of its log, no two share an object, and unseen keys have none |
| Metrics.Shard.Record | internal/metrics/metrics.go:93-137 | one record extends the shard's log by one entry, and the table holds the extended log |
| Metrics.Collector.ShardFor | internal/metrics/metrics.go:167-176 | a worker always gets the same shard, created empty on first request; other shards and the log stay |
| Metrics.Collector.RecordAt | internal/metrics/metrics.go:158-187 | a record through the fallback or a worker's recorder appends to the one global log and to its own shard only |
| Metrics.Table.MergeAll | internal/metrics/metrics.go:206-227 | merging a table in any key order turns the table of one log into the table of both, without sharing objects with it |
| Metrics.Collector.Snapshot | internal/metrics/metrics.go:197-238 | under any interference and any merge order the result shows what was taken of each shard between start and end: everything recorded before, nothing begun after; all its objects, counters and histograms included, are fresh and apart from the collector's |
| Metrics.Table.ShownHistogram | internal/metrics/metrics.go:119-126 | so the histogram a snapshot shows for a key holds exactly the latencies taken for it, clamped to 1 ns and one hour |
| Metrics.Collector.Totals | internal/metrics/metrics.go:241-262 | Count, Errors and Bytes are those of what was taken of each shard between start and end |
| Metrics.SumShard | internal/metrics/metrics.go:250-260 | the per-key counters of a shard, summed in any map order, are the totals of its log |
| Metrics.FinalSnapshot | internal/metrics/metrics.go:197-238 | without interference the snapshot reports the one log of everything recorded, for any routing of records to shards |
| Metrics.SuccessiveTotals | internal/metrics/metrics.go:241-262 | two successive Totals are the totals of two readings, each holding what was recorded before it began and nothing begun after it ended, and never go back in Count or Errors, whatever the workers do |
| Metrics.SnapshotStays | internal/metrics/metrics.go:197-238 | after any later records the returned objects, per-code counters and histograms included, still show exactly what was taken when the Snapshot ended |
| Histogram.CountRows | internal/metrics/hdr.go:40-51 | the two-pointer walk places every row where a search for the first fitting bucket places it, and conserves the total without any assumption |
| Histogram.HistBuckets | internal/metrics/hdr.go:24-53 | empty when nothing was recorded; otherwise the bounds are the quantile values and the counts those of the per-row search |
| Histogram.BelowIs | internal/metrics/hdr.go:40-51 | buckets 0 to i hold exactly the cumulative count of the last row within bound i, all buckets the total |
| Histogram.CountAtIs | internal/metrics/hdr.go:40-51 | that cumulative count is the count of the last row within the bound, 0 if there is none |
| Histogram.Report | internal/metrics/hdr.go:18-53 | with sorted bounds and rows every prefix of the counts is that cumulative count, and no bucket is negative |
| Bodygen.Reader.Read | internal/bodygen/bodygen.go:76-99 | EOF exactly at the end; otherwise the next bytes of the cyclic stream and nothing beyond them in the buffer; panics exactly when the request wraps twice |
| Bodygen.Reader.Seek | internal/bodygen/bodygen.go:102-119 | with int64 wrap-around modelled, accepts exactly when the mathematical target lies in [0, size], and moves only then |
| Bodygen.Reader.Reuse | internal/bodygen/bodygen.go:51-56 | a pooled reader starts afresh whatever state it was returned in |
| Bodygen.SafeBufferLength | internal/bodygen/bodygen.go:87-96 | a buffer length is safe at every offset of every body if and only if it is at most one more than the block |
| Bodygen.OverrunsIff | internal/bodygen/bodygen.go:87-96 | a read overruns if and only if the last byte it asks for lies beyond the block after the one it starts in |
| Bodygen.WholeBodyOverruns | internal/bodygen/bodygen.go:76-99 | reading a whole body at once overruns if and only if the body is longer than two blocks |
| Bodygen.ReadToEnd | internal/bodygen/bodygen.go:41-43 | with any non-empty buffer sizes reading to EOF terminates and yields the same bytes, whole from any offset; it panics only at a read that overruns the block |
| Bodygen.BodyAt | internal/bodygen/bodygen.go:84-96 | byte i of the body of a given size is byte i modulo the block size of the block |
| Bodygen.ReadPooled | internal/bodygen/bodygen.go:49-66 | a released reader taken from the pool again yields the body of its new size, whatever it was used for |
| Bodygen.Session | internal/bodygen/bodygen.go:76-119 | in any mix of reads and seeks call j starts at the offset the calls before it leave, every read returns the slice of one fixed body from there to the next offset, and the session ends early exactly at a read that overruns the block |
| Dataloader.Mix64Bijective | internal/workload/dataloader/dataloader.go:161-170 | the splitmix64 finaliser is a bijection on 64-bit words, with an explicit two-sided inverse |
| Dataloader.Mix64Steps | internal/workload/dataloader/dataloader.go:163-170 | the word computed, bit by bit: shift-xor by 30, multiplication by 0xbf58476d1ce4e5b9, shift-xor by 27, multiplication by 0x94d049bb133111eb, shift-xor by 31 |
| Dataloader.XorShiftUnique | internal/workload/dataloader/dataloader.go:163-170 | a shift-xor so described is one word, so the steps determine the result |
| Dataloader.XorBit | internal/workload/dataloader/dataloader.go:163-170 | the arithmetic xor used in the model is the bitwise one |
| Dataloader.SameHash | internal/workload/dataloader/dataloader.go:157 | two picks hash alike if and only if seed + counter agree modulo 2^64 |
| Dataloader.SeedsDistinct | internal/workload/dataloader/dataloader.go:132-133 | distinct workers have distinct seeds |
| Dataloader.WorkerPick | internal/workload/dataloader/dataloader.go:132-157 | worker id picks at a counter the finaliser of id * 0x9e3779b97f4a7c15 + 1 + counter modulo 2^64, modulo the number of keys |
| Dataloader.ShuffledFair | internal/workload/dataloader/dataloader.go:156-158 | over any 2^64 consecutive counters the shuffled pattern picks each of n keys floor(2^64/n) or ceil(2^64/n) times |
| Dataloader.PickAll | internal/workload/dataloader/dataloader.go:149-153 | of any m sequential picks, from any counter value, by any workers in any order, each of n keys gets floor(m/n) or ceil(m/n), and exactly which is stated |
| Dataloader.Loader.NextSequential | internal/workload/dataloader/dataloader.go:151-153 | an atomic pick advances the shared counter and wraps round the keys |
| MixThreads.Allocate | internal/workload/mix/mix.go:113-137 | an error exactly when the weights do not sum to a positive number; otherwise every child's share in order, each at least 1 |
| MixThreads.AllocatedShare | internal/workload/mix/mix.go:125-128 | a child gets threads * weight / total truncated, or one thread if that is less than one |
| MixThreads.ShareMonotone | internal/workload/mix/mix.go:125-128 | a heavier child never gets fewer threads |
| MixThreads.Surplus | internal/workload/mix/mix.go:114-131 | the shares exceed the threads by exactly one per starved child less what truncation loses |
| MixThreads.WithinChildren | internal/workload/mix/mix.go:114-131 | for k children of positive weight the shares sum to within k - 1 of the threads |
| MixThreads.ExactIff | internal/workload/mix/mix.go:114-131 | the shares sum to the threads if and only if the lost remainders make up one thread per starved child |
| MixThreads.WholeSharesExact | internal/workload/mix/mix.go:114-131 | whole positive proportional shares sum to the threads |
| MixThreads.CommentHoldsIff | internal/workload/mix/mix.go:1-5 | for all positive weights the equation of the package comment holds if and only if the squared weights and the starved children balance the threads and the weighted remainders |
| MixThreads.CommentFailsWhen | internal/workload/mix/mix.go:1-5 | it fails whenever threads * (sum of squares - sum) exceeds sum * (sum - 1) |
| MixThreads.CommentHoldsForWholeShares | internal/workload/mix/mix.go:1-5 | with whole shares it holds if and only if every weight is 1 |
| MixThreads.CommentFails | internal/workload/mix/mix.go:1-5 | a concrete allocation for which the equation of the package comment fails |

## Left out

- Metrics.Collector.Snapshot: the fallback shard is one entry of the shard map and shards are merged in an arbitrary order, which includes the source's fallback first; the nested maps workload -> op are one table keyed by the pair; the start and end times are not modelled.
- Histogram.HistBuckets: the quantile values and the cumulative rows come from the HDR library and are inputs; counts are only as fine as the rows supplied.
- Dataloader.PickAll: the shared counter is an int64, so the statement covers the first 2^63 - 1 picks.
- RunPrefix.RunCalls: the AWS service behind the prefixing client is taken to behave like the in-memory store; range reads, HEAD and tagging map their key the same way and are not modelled.
- Overflow of the int64 counters and sums in the metrics, of the claim counters and of threads * weight in the mix: unbounded integers stand for them.
- RangeGet, HEAD, tagging, context cancellation and artificial delay of the in-memory client: one branch each, or time.
- CheckBucket: it inspects only the first five listed keys, so no statement about the whole bucket follows.
- Dataset upload, cleanup and the Zipfian pattern of the training-data workload, largeobj, WorkerSeed and AppendKeyDecimal: they repeat loops proved here or are one expression.
- Percentiles, standard deviation, throughput and everything else in floating point; HDR histogram internals (a multiset of clamped values stands for one).
- AWS SDK, HTTP transport, command line, configuration, YAML and JSON parsing, signals and report printing.
