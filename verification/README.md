# A verified model of the metric store

This project models the in-memory half of the time-series store (`pkg/metric`) and proves that
its layers agree, together with a few self-contained algorithms around it. `dafny verify
dfyconfig.toml` checks everything.

**The store, layer by layer**

- *Raw window.* Each series keeps a varint-encoded byte buffer of older samples, a sorted list of
  the newest minute and a table of interned label sets. Decoder, buffer, series and the map of
  series are objects changed in place (`RawSamples`, `RawSeries`, `RawTable`). `Timeline` holds
  the simple view they are proved against: a strictly ordered list of samples that is a
  last-writer-wins map.
- *Minute rollups.* `Window`, `WindowSteps`, `WindowFlush` and `WindowRuns` describe ingestion,
  rebuilding, flushing and failed transactions as steps on values and prove what every run keeps.
  `WindowHistory` carries the result beyond the raw window. `Store` is the class that performs
  these steps in place on the raw table, the pending buckets and the rows; its invariant ties it
  at every moment to the run of all steps taken so far.
- *Reading.* `Aggregate` is the simple side (group the raw points, aggregate each group),
  `SeriesRead` the streaming accumulator over rows and pending buckets, `SeriesResult` the theorem
  that both give the same groups and the same values, `SeriesMerged` the same for queries that
  merge all series into one, `SeriesReaders` what readers get after failed transactions and inside
  a call, and `StoreRead` the two queries on the store. `RawAnswers` says which written points an
  answer holds, and `Floats` which real a stored word stands for.
- *Coarse rollups.* `Coarse` stages minutes under open parents and seals them tier by tier;
  `CoarseSpec`, `CoarseInvariant`, `CoarseSteps`, `CoarseSeal` and `CoarseMerge` carry the proof.
- *All layers.* `Staging` says which version of a minute a run stages, and `Pipeline` is the store
  with its coarse table: writes commit minutes, stage them and seal parents. Its main theorem
  (`SealedIsHistory`) leads from raw samples to sealed parents.
- *Runs.* `Incidents` holds the concrete runs behind the conditions below.
- *Bucket algebra, digests, policies.* `Rollup` (merging as a homomorphism, exact variance),
  `Centroids`, `CentroidRuns`, `QuantileValues`, `TDigest` and `RollupBucket` (in-place condensing
  into runs within the size limit, monotone quantiles on a broken line, a sketch that always
  matches its summary), `DigestCodec`, `DigestObject` and `DigestReclaim` (stored form, the digest
  read back from it, resumable rewrite), `Policy` and `PolicyLadder` (retention ladders, tier
  choice, cleanup), `RollupImport` (tier rebuild).

**Around the store**

- `Lease`, `LeaseInvariant`, `LeaseSteps`, `LeaseRuns`, `LeaseStartup`, `LeaseShutdown`:
  operation gate, store replacement, closing and background migration as one state machine over
  every interleaving of critical sections.
- `Wildcard`, `Permission`, `PermissionDefaults`: pattern matching and rule resolution of the
  access list, and the roles its built-in rules give each namespace.
- `Traffic`, `TrafficIncreases`: traffic increases per client. `EditDistance`: rolling-row
  distance and masking.

**Conventions.** Buckets hold exact reals: a float64 is its 64-bit word, and `Words.FloatOf` is
the exact value of a finite one. Timestamps in the store are Unix milliseconds. The database is a
map with atomic transactions whose outcome is a parameter. A Go map is iterated in any order.
Clocks are parameters that do not run backwards. Ghost fields record, for the proof only, what a
row accounts for, what was staged, and what was observed.

**Where the code does less than one might expect.** Each of these is a proved statement with the
exact condition or a concrete input:

- A reader adds a pending bucket to its row even if the bucket is meant to replace the row
  (`ReaderExactIff` for one minute, `QueryExactIff` for a whole answer, `FailedReplaceMisread` for
  a run that gets there), so the read theorem needs successful transactions; the theorem about row
  and pending bucket themselves (`MinuteBucketsExact`) does not.
- A reader may be admitted between the raw and the hot half of a write. It then sees the state
  before the batch, where a raw query already sees the batch (`ReaderBetweenHalves`).
- The merge path rewrites bucket starts beyond ten trillion milliseconds, the replace path does not
  (`MergeReachesOwnRow`, `FarFutureMinuteLost`). Runs therefore assume a clock between ten minutes
  after the epoch and that limit.
- A minute is staged as the bucket committed last, which is the whole minute exactly when it
  replaced its row or there was none (`StagedIsRowIff`); a minute flushed twice by merging is staged
  as its second part only (`SecondPartStaged`). The content of a sealed parent is the merge of the
  last staged versions (`DueParentsPersisted`).
- A sketch would stop matching its summary if samples without a sketch were merged in, or if a used
  bucket without a sketch received one (`MergeStored`). None of the callers modelled here does
  either: every accumulator is created with a sketch, and a row read without one has it rebuilt or
  is refused (`MergeRows`, `DigestFromRollup`).
- InitializeStore takes no lease, so it can replace and leak a store that became active since it
  looked. `InitRaceReplacesStore` is a run of the package's functions used concurrently; no caller
  in the repository does this. It is called only while the server starts (`cmd/server.go:85` and
  `cmd/server.go:102`), the router that serves reloads and migrations comes after it, and a recovery
  has returned by then. Whenever initialisations come before the first reload, every run is safe,
  with recoveries and migrations interleaved at will (`StartupThenServe`); so is every run in which
  no reload publishes while an initialisation is under way (`CallsApartSound`).
  `InitPublishSoundIff` is the exact condition of the single step.
- A star in the subject before its last character can make a matching pattern fail
  (`RightForEveryPatternIff`).
- Client counters move on when a write fails, and the retry, with whatever is pending by then, counts
  the first total as a counter reset (`RetryRightIff`, `RetryStoresTooMuch`). Clients without a
  report in the failed batch are not affected (`RetrySparesOthers`).
- Without a compressor the rewrite of old digests completes but leaves them in the old format
  (`RewriteKeepsDigest`).

## Model

| member | source | states |
|---|---|---|
| `Clock.BucketStart` | pkg/metric/rollup_store.go:343-352 | buckets floor to a multiple of their width and contain their timestamp, before the epoch as well |
| `Clock.BucketNested` | pkg/metric/rollup_store.go:343-352 | a coarse bucket is made of whole finer buckets when the widths divide |
| `Clock.AlignTimeIsBucketStart` | pkg/metric/aggregate.go:297-305 | the nanosecond alignment of the raw aggregation and the millisecond bucket arithmetic agree for every timestamp |
| `Clock.NormalizeIsIdentityWithinLimit` | pkg/metric/rollup_store.go:354-359 | normalisation leaves a bucket alone exactly within ten trillion milliseconds of the epoch |
| `Words.DeltaUndone` | pkg/metric/raw_points.go:62-66 | a stored timestamp difference undoes itself modulo 2^64, wrap-around included |
| `Words.UvarintRoundTrip` | pkg/metric/raw_points.go:657-661 | a base-128 varint followed by anything reads back with its value and its size |
| `Words.VarintRoundTrip` | pkg/metric/raw_points.go:651-655 | a zigzag varint followed by anything reads back with its value and its size |
| `Words.Word64RoundTrip` | pkg/metric/tdigest.go:285-288 | a little-endian 64-bit word reads back bit for bit |
| `Words.WordDigits` | pkg/metric/tdigest.go:285-288 | byte i of a stored word is its i-th digit to the base 256, least significant first |
| `Floats.FloatOfIsBinary64` | pkg/metric/raw_points.go:67-67 | the real of a word satisfies the four facts of IEEE 754: one is one, the top bit negates, the next exponent doubles, the lowest words count the least positive number |
| `Floats.OnlyBinary64` | pkg/metric/raw_points.go:67-67 | these four facts leave one value for every finite word |
| `Rollup.AddPointIsMerge` | pkg/metric/rollup.go:244-269 | folding in a sample is merging the bucket of that one sample |
| `Rollup.MergeAssociative` | pkg/metric/rollup.go:277-308 | merging rows is associative with no condition on timestamps |
| `Rollup.MergeCommutes` | pkg/metric/rollup.go:277-308 | two rows commute exactly when they do not tie on first or last with different values |
| `Rollup.FoldConcat` | pkg/metric/rollup.go:244-308 | folding samples one by one equals merging the summaries of any split |
| `Rollup.CascadeExact` | pkg/metric/rollup_store.go:181-198 | merging the summaries of any cut into any number of parts equals one bucket over all samples |
| `Rollup.FoldInsert` | pkg/metric/rollup.go:244-269 | adding a late sample equals folding it at its place in time |
| `Rollup.VarianceIdentity` | pkg/metric/rollup.go:366-376 | sumSq/n - mean^2 equals the two-pass population variance and is never negative, so the clamp is never needed |
| `Rollup.SummaryAnswers` | pkg/metric/rollup.go:348-376 | avg, min, max, sum, count, first, last and variance of a bucket are those of its samples |
| `Rollup.TwoSamples` | pkg/metric/rollup.go:348-376 | sum, average, extremes, first, last and variance of two samples in numbers |
| `RawCodec.RoundTrip` | pkg/metric/raw_points.go:53-89 | decoding an encoded list of samples gives it back bit for bit, whatever its order and wrap-around |
| `RawCodec.EncodeInjective` | pkg/metric/raw_points.go:80-89 | two different lists of samples never share an encoding |
| `RawSamples.RawSampleDecoder.Next` | pkg/metric/raw_points.go:53-74 | the decoder yields the stored samples one by one and stops exactly at the end |
| `RawSamples.CompressedRawSamples.AppendSample` | pkg/metric/raw_points.go:80-89 | one byte-level append adds one sample at the end |
| `RawSamples.CompressedRawSamples.FirstStamp` | pkg/metric/raw_points.go:91-96 | the first timestamp without decoding the rest |
| `RawSamples.CompressedRawSamples.Append` | pkg/metric/raw_points.go:603-642 | a batch in order is appended, an overlapping one merged: either way the samples are upserted one by one |
| `RawSamples.CompressedRawSamples.MergeIn` | pkg/metric/raw_points.go:607-638 | the two-way merge with replacement equals upserting every new sample |
| `RawSamples.CompressedRawSamples.PruneBefore` | pkg/metric/raw_points.go:535-556 | pruning keeps exactly the samples at or after the cutoff and counts the rest |
| `RawSamples.CompressedRawSamples.Relabel` | pkg/metric/raw_points.go:699-705 | re-encoding under new label ids changes the ids and nothing else |
| `Timeline.UpsertUpdatesMap` | pkg/metric/raw_points.go:201-216 | an upsert keeps strict time order and is one map update |
| `Timeline.OrderedListUnique` | pkg/metric/raw_points.go:289-366 | a strictly ordered list is determined by its map of timestamps |
| `Timeline.FromRestrictsMap` | pkg/metric/raw_points.go:535-556 | dropping what is older than a cutoff restricts the map |
| `RawSeries.RawSeries.Intern` | pkg/metric/raw_points.go:182-188 | a label set gets one id, the existing samples keep theirs |
| `RawSeries.RawSeries.ReplaceCompressed` | pkg/metric/raw_points.go:576-601 | insert or replace in the byte buffer equals an upsert, and reports the replaced sample |
| `RawSeries.RawSeries.WritePoint` | pkg/metric/raw_points.go:182-216 | one write is one upsert of the resolved sample, on either side of the cutoff, and marks exactly the label sets to rebuild |
| `RawSeries.RawSeries.CompressBefore` | pkg/metric/raw_points.go:558-574 | moving older samples into the buffer changes no sample and moves the split |
| `RawSeries.RawSeries.PruneBefore` | pkg/metric/raw_points.go:510-533 | pruning a series keeps exactly the samples at or after the cutoff |
| `RawSeries.RawSeries.CollectUsed` | pkg/metric/raw_points.go:667-674 | a label id is marked exactly when some sample uses it |
| `RawSeries.RawSeries.RenumberLabels` | pkg/metric/raw_points.go:684-698 | kept labels get new ids that resolve to the same label sets |
| `RawSeries.RawSeries.CompactLabels` | pkg/metric/raw_points.go:663-712 | compaction changes no resolved sample and leaves only label ids in use |
| `RawSeries.RawSeries.Range` | pkg/metric/raw_points.go:327-358 | a range read returns exactly the samples in the closed range, in order, with their own label sets |
| `RawSeries.SearchStamp` | pkg/metric/raw_points.go:201-203 | binary search returns the first index at or after a timestamp |
| `RawTable.RawTable.CompressBefore` | pkg/metric/raw_points.go:558-574 | all series are split at the new cutoff and no sample changes |
| `RawTable.RawTable.PruneBefore` | pkg/metric/raw_points.go:510-533 | every series loses what is older, and empty series disappear |
| `RawTable.RawTable.WritePoint` | pkg/metric/raw_points.go:172-217 | one point changes its own series only; points before the window are ignored |
| `RawTable.RawTable.TrimWindow` | pkg/metric/raw_points.go:471-477 | compress and prune together move the window |
| `RawTable.RawTable.WriteRawPointsAt` | pkg/metric/raw_points.go:162-222 | the raw half of a batch equals trimming and upserting the window as a map, and marks exactly the minutes to rebuild |
| `RawTable.RawTable.SeriesRange` | pkg/metric/raw_points.go:311-359 | one series of a raw query |
| `RawTable.RawTable.BuildMinute` | pkg/metric/hot_rollup.go:75-110 | a rebuilt bucket is the aggregate of exactly the raw samples of its minute and label set |
| `RawTable.MinuteOfRange` | pkg/metric/hot_rollup.go:85-109 | cutting a series by time and then by label is one minute of one label set |
| `Selection.SummarizeUpsertNew` | pkg/metric/hot_rollup.go:33-51 | a new timestamp, however late, changes a minute's aggregate by one added point |
| `Selection.SummarizeUnion` | pkg/metric/hot_rollup.go:25-113 | a minute split into two disjoint parts aggregates to the merge of the parts |
| `Window.AccountsDenotes` | pkg/metric/hot_rollup.go:25-113 | if row and pending bucket account for disjoint parts of a minute, applying one to the other gives its aggregate |
| `WindowSteps.PutKeepsAccount` | pkg/metric/raw_points.go:172-217 | one written point keeps the account of every minute that is not marked for a rebuild |
| `WindowSteps.IngestKeepsAccount` | pkg/metric/hot_rollup.go:25-51 | a whole batch of duplicates, late samples and label changes keeps the account of every minute in the window |
| `WindowSteps.RebuildsForced` | pkg/metric/raw_points.go:189-216 | a batch rebuilds exactly the minutes of points that rewrite a sample, under the old and the new label set, or come more than a minute late |
| `WindowSteps.ForcedIsRebuilt` | pkg/metric/hot_rollup.go:71-119 | such a minute is left as the aggregate of its raw samples and flagged to replace its row; no other flag is set |
| `WindowFlush.FlushKeepsAccount` | pkg/metric/hot_rollup.go:121-132 | moving closed buckets to the rows, or failing to, keeps every account |
| `WindowFlush.FlushSeparates` | pkg/metric/hot_rollup.go:121-169 | after a committed flush no closed minute is pending |
| `WindowFlush.FlushTakesOver` | pkg/metric/hot_rollup.go:156-175 | a committed flush takes exactly the minutes that are over, the others stay as they are |
| `WindowFlush.MergeReachesOwnRow` | pkg/metric/rollup_store.go:200-225 | a merged bucket reaches its own row exactly when normalisation leaves its start alone |
| `Incidents.FarFutureMinuteLost` | pkg/metric/rollup_store.go:354-359 | a run in the year 2286 that merges a minute into a row of 1970 and loses it to its own key |
| `WindowRuns.RunGood` | pkg/metric/hot_rollup.go:25-132 | safety over every run of writes and flushes, whichever transactions failed |
| `WindowRuns.RawWindowIsLatest` | pkg/metric/raw_points.go:162-222 | after any run the window of a series is the last-writer-wins map of everything written, restricted to the window, in order |
| `WindowRuns.MinuteBucketsExact` | pkg/metric/hot_rollup.go:25-113 | after any run pending bucket and row together equal the aggregate of exactly the raw samples of that minute and label |
| `WindowRuns.PendingApartFromStored` | pkg/metric/hot_rollup.go:115-132 | with successful transactions no bucket is both pending and stored between calls, replacements included |
| `WindowHistory.MinutesOutliveWindow` | pkg/metric/hot_rollup.go:25-113 | for every minute whose points all arrived in time, row and pending bucket stay the aggregate of the last-writer-wins history after the raw samples are gone |
| `Store.Store.AddHotPoints` | pkg/metric/hot_rollup.go:33-51 | every point is folded into its minute bucket |
| `Store.Store.RebuildHotRollups` | pkg/metric/hot_rollup.go:71-113 | marked minutes are rebuilt from the raw window and flagged |
| `Store.Store.IngestBatch` | pkg/metric/store.go:887-897 | raw and hot halves of a batch equal one step of the value-level machine |
| `Store.Store.TakeClosed` | pkg/metric/hot_rollup.go:156-169 | exactly the closed buckets leave both tables, with their flags |
| `Store.Store.RestoreHot` | pkg/metric/hot_rollup.go:171-195 | every taken bucket is put back one by one |
| `Store.RestoreUndoesTake` | pkg/metric/hot_rollup.go:156-195 | restoring onto untouched tables puts back exactly what was taken |
| `Store.RestoreComposesAll` | pkg/metric/hot_rollup.go:171-195 | restoring a whole list over tables with any new pending work composes every key: the taken bucket first, then what has arrived, up to ties; other keys stay |
| `Store.FailedFlushComposes` | pkg/metric/hot_rollup.go:121-195 | after take, failure and restore every taken key means what it meant before followed by the work that arrived in between |
| `Store.Store.MergeMinutes` | pkg/metric/rollup_store.go:200-225 | buckets without a flag are merged into their rows |
| `Store.Store.ReplaceMinutes` | pkg/metric/rollup_store.go:104-128 | buckets with a flag overwrite or delete their rows |
| `Store.Store.PersistHot` | pkg/metric/hot_rollup.go:197-242 | one transaction: all row changes or none |
| `Store.Store.FlushClosedHot` | pkg/metric/hot_rollup.go:121-132 | a flush equals one flush step of the value-level machine, committed or failed |
| `Store.Store.WriteBatch` | pkg/metric/store.go:868-898 | the store in place stays equal to the run of all its steps after a write; it fails exactly when it has something to commit and cannot, and hands back what it committed |
| `Store.Store.Flush` | pkg/metric/rollup_store.go:52-70 | the same after a flush |
| `Aggregate.GroupPoints` | pkg/metric/aggregate.go:33-58 | grouping partitions the points by series and aligned bucket |
| `Aggregate.AggregateValue` | pkg/metric/aggregate.go:159-205 | running sums and extremes compute the aggregation the group defines |
| `Aggregate.AggregatesUnique` | pkg/metric/aggregate.go:159-205 | a group has one value per aggregation |
| `SeriesRead.SeriesAccumulator.MergeValues` | pkg/metric/batch_series.go:505-533 | the column-wise merge of the scan is the merge of buckets |
| `SeriesRead.SeriesAccumulator.Consume` | pkg/metric/batch_series.go:450-484 | one source bucket goes to the group of its output bucket: of its series, or of all series when they are merged |
| `SeriesRead.SeriesAccumulator.Scan` | pkg/metric/batch_series.go:352-377 | every visited bucket is streamed once, in any order |
| `SeriesRead.StreamStep` | pkg/metric/batch_series.go:450-484 | one more source bucket adds exactly its samples to its group and to no other |
| `SeriesRead.AnswerExact` | pkg/metric/batch_series.go:352-484 | rows and pending buckets streamed in any order give each group the aggregate of its raw samples |
| `SeriesRead.ReaderExactIff` | pkg/metric/batch_series.go:352-377 | adding row and pending bucket is right for a minute exactly when no replacement is pending over a stored row |
| `SeriesResult.AnswerMatchesRaw` | pkg/metric/batch_series.go:535-592 | the two answers have the same groups, counts and values in every good state |
| `SeriesResult.SeriesEqualsAggregatePoints` | pkg/metric/batch_series.go:83-182 | after any run with successful transactions an aligned minute-tier query that keeps series apart equals aggregating the raw points |
| `SeriesMerged.MergeOverUpdate` | pkg/metric/batch_series.go:450-465 | one more bucket in one of the groups per series is one more bucket in their merge, up to first and last ties |
| `SeriesMerged.StreamedTogether` | pkg/metric/batch_series.go:450-465 | streamed in any order, the merged group stays the merge of the groups per series, up to first and last ties |
| `SeriesMerged.MergedGroupIsRaw` | pkg/metric/batch_series.go:450-475 | in every good state the merged group is the aggregate of the raw samples of all matching series, and its first and last are among those samples |
| `SeriesMerged.MergedSeriesEqualsAggregate` | pkg/metric/batch_series.go:83-182 | after any run with successful transactions a query that merges its series equals aggregating their raw points together; first and last unless series tie there |
| `SeriesReaders.QueryExactIff` | pkg/metric/batch_series.go:163-172 | a whole answer is right in every group exactly when no visited minute has a replacement pending on top of its row |
| `SeriesReaders.ReaderBetweenHalves` | pkg/metric/hot_rollup.go:25-31 | a reader admitted between the raw and the hot half of a write sees the raw window before the batch; its count agrees with the raw query exactly when the batch brings no new timestamp |
| `SeriesReaders.ReaderBeforeFlushExact` | pkg/metric/hot_rollup.go:33-65 | a reader admitted before the flush of a write that rebuilds nothing gets the answer of the raw points |
| `SeriesReaders.ReaderInsideFlushExact` | pkg/metric/rollup_store.go:62-68 | a reader admitted between the trim and the flush of a flush call gets the answer of the raw points that are left |
| `Incidents.FailedReplaceMisread` | pkg/metric/hot_rollup.go:171-195 | a run of a committed flush, a late duplicate and a failed flush after which a reader adds a replacement to its row |
| `StoreRead.SortPoints` | pkg/metric/raw_points.go:360-363 | sorting by time keeps the order within each series |
| `RawAnswers.LatestHoldsLast` | pkg/metric/raw_points.go:189-216 | the samples of a series are its written timestamps, each with the last word written |
| `RawAnswers.RawAnswerHolds` | pkg/metric/raw_points.go:289-386 | after any run an answer holds a point exactly when its series matches, its time is in range and in the window, and its value is the real of the last word written there |
| `StoreRead.QueryRaw` | pkg/metric/raw_points.go:289-366 | a raw query returns each point once, in time order, exactly for the last words written to matching series in range within ten minutes and the window |
| `StoreRead.SeriesMinute` | pkg/metric/batch_series.go:83-182 | the series query over the store's own tables, series apart or merged, agrees with every raw query of the same range, and a group with a single sample has the real of its word as every value |
| `StoreRead.SingleAnswer` | pkg/metric/batch_series.go:83-182 | a group into which a query puts a single written sample has the real of its word as sum, minimum, maximum, first and last |
| `CoarseSpec.SlotsNested` | pkg/metric/coarse_rollup.go:184-196 | merging children that are merges of finer children equals merging the finest in one go |
| `CoarseInvariant.AbsentIsEmpty` | pkg/metric/coarse_rollup.go:168-182 | a due parent that is neither open nor persisted has no staged minutes |
| `CoarseInvariant.ClosingContent` | pkg/metric/coarse_rollup.go:188-203 | the children of a parent being sealed merge to exactly its staged minutes |
| `CoarseSteps.StageKeepsInv` | pkg/metric/coarse_rollup.go:38-101 | staging a minute whose parent is still open leaves every sealed parent as it is |
| `CoarseSeal.SealKeepsInv` | pkg/metric/coarse_rollup.go:112-143 | sealing the due parents of the smallest interval keeps the invariant |
| `CoarseSeal.FeedKeepsInv` | pkg/metric/coarse_rollup.go:134-141 | feeding a sealed parent to the next tier keeps the invariant |
| `CoarseMerge.MergeChildren` | pkg/metric/coarse_rollup.go:188-196 | children sorted and merged one by one equal the slots of the parent in time order |
| `Coarse.CoarseTable.AddChildren` | pkg/metric/coarse_rollup.go:64-101 | children are put under their parents, empty ones removed, parents created and removed as needed |
| `Coarse.CoarseTable.AddMinuteParents` | pkg/metric/coarse_rollup.go:38-62 | the minutes whose parent is not due become the last staged version; the others stay out |
| `Coarse.CoarseTable.SmallestDueInterval` | pkg/metric/coarse_rollup.go:171-182 | the smallest interval among due parents, or none |
| `Coarse.CoarseTable.TakeClosed` | pkg/metric/coarse_rollup.go:168-207 | exactly the due parents of the smallest interval leave the table, each with its merged content |
| `Coarse.CoarseTable.RestoreClosed` | pkg/metric/coarse_rollup.go:209-221 | taken parents are put back unless their key is open again |
| `Coarse.RestoreUndoesTake` | pkg/metric/coarse_rollup.go:168-221 | restoring what one round took puts the table back exactly |
| `Coarse.CoarseTable.FilterClosed` | pkg/metric/coarse_rollup.go:145-166 | exactly the parents the current policy of their metric still has are kept |
| `Coarse.CoarseTable.PersistClosed` | pkg/metric/coarse_rollup.go:223-270 | one transaction writes every sealed parent, or none |
| `Coarse.CoarseTable.FeedAbove` | pkg/metric/coarse_rollup.go:134-141 | every sealed parent reaches the tier above as one finished child |
| `Coarse.CoarseTable.FlushClosed` | pkg/metric/coarse_rollup.go:112-143 | the loop terminates, persisted rows never change, and success leaves no parent open that ended ten minutes ago or earlier |
| `Coarse.RoundAdvances` | pkg/metric/coarse_rollup.go:115-142 | the smallest due interval strictly grows from round to round |
| `Coarse.DueParentsPersisted` | pkg/metric/coarse_rollup.go:112-143 | after a complete flush exactly the parents that ended ten minutes ago or earlier and have staged minutes are persisted, with their flat merge |
| `Coarse.FinerPersistedBefore` | pkg/metric/coarse_rollup.go:103-143 | each parent is persisted once, after every finer parent inside it that holds samples |
| `Coarse.SealedMatchesMinutes` | pkg/metric/coarse_rollup.go:38-101 | if every minute was staged complete a sealed parent is the merge of the persisted minutes |
| `Staging.LastCommittedStaged` | pkg/metric/hot_rollup.go:243-255 | the staged version of a minute is the last bucket of it that was committed while its parent was open |
| `Staging.StagedIsRowIff` | pkg/metric/hot_rollup.go:243-255 | that bucket equals the minute's row exactly when it replaced the row or the row was absent |
| `Staging.FreshIsHandedOver` | pkg/metric/coarse_rollup.go:38-53 | a minute flushed within the grace period after its end is always handed over |
| `Staging.WindowIsHandedOver` | pkg/metric/coarse_rollup.go:38-53 | a minute that can still be rebuilt from the raw window can still be handed over |
| `Incidents.SecondPartStaged` | pkg/metric/hot_rollup.go:243-255 | a run that flushes a minute twice by merging and stages its second part only |
| `Staging.StagedIsHistory` | pkg/metric/hot_rollup.go:197-256 | a minute written in time and staged whole is staged as the aggregate of everything written into it |
| `Pipeline.MetricStore.StageCommitted` | pkg/metric/hot_rollup.go:243-255 | staging metric by metric hands over exactly the committed buckets whose parent is open |
| `Pipeline.MetricStore.WriteBatch` | pkg/metric/hot_rollup.go:28-69 | a write commits minutes, stages them and seals what is due; every layer keeps its invariant whichever transaction fails |
| `Pipeline.MetricStore.Flush` | pkg/metric/rollup_store.go:48-70 | a flush commits and stages minutes but seals no parent |
| `Pipeline.SealedIsHistory` | pkg/metric/coarse_rollup.go:38-143 | with successful minute transactions a sealed parent whose minutes were staged complete is the aggregate of every sample ever written into its span |
| `Centroids.CombineExact` | pkg/metric/tdigest.go:209-212 | the weighted-mean update keeps weight and sum exact and stays between the two means |
| `Centroids.CompressedKeeps` | pkg/metric/tdigest.go:199-219 | one pass conserves weight and weighted sum and leaves sorted clusters between the extremes |
| `CentroidRuns.FitsIffWithinLimit` | pkg/metric/tdigest.go:205-208 | a neighbour is merged exactly when the result is within 4 * total * q * (1 - q) / compression at the quantile of its centre, or weighs at most one |
| `CentroidRuns.CompressedRuns` | pkg/metric/tdigest.go:199-219 | one pass cuts the sorted list into consecutive runs, each within the limit, and none could take the next cluster |
| `CentroidRuns.FewStayApart` | pkg/metric/tdigest.go:199-219 | samples of unit weight, no more of them than the compression, are all kept |
| `Centroids.QuantileBounds` | pkg/metric/tdigest.go:229-270 | an estimate never leaves the observed range |
| `Centroids.QuantileMonotone` | pkg/metric/tdigest.go:229-270 | a larger quantile is never smaller, across head, middle and tail |
| `QuantileValues.QuantileOnBrokenLine` | pkg/metric/tdigest.go:229-270 | an estimate lies on the line through the centres of the neighbours around it, and at the ends on the lines from the least and to the greatest sample |
| `Centroids.TailClampUnused` | pkg/metric/tdigest.go:263-269 | with exact weights the clamp of the tail fraction never applies |
| `TDigest.SortByMean` | pkg/metric/tdigest.go:196-198 | sorting permutes the first cells and touches no others |
| `TDigest.CondenseInPlace` | pkg/metric/tdigest.go:199-220 | condensing in place computes the pass over the original cells: nothing unread is overwritten |
| `TDigest.TDigest.Add` | pkg/metric/tdigest.go:127-145 | count and history grow by the observation, the clusters by one unless the buffer is full and condensed; a weight that is not positive changes nothing |
| `TDigest.TDigest.Merge` | pkg/metric/tdigest.go:157-173 | count, history and clusters of both digests add up, unless the buffer is full and condensed |
| `TDigest.TDigest.Process` | pkg/metric/tdigest.go:188-222 | condensing keeps total weight, weighted sum and extremes, sorts the clusters and cuts them into runs within the size limit |
| `TDigest.TDigest.Quantile` | pkg/metric/tdigest.go:229-270 | the interpolation loop computes the estimate on the broken line through the centres, within the observed range, or nothing for an empty digest |
| `TDigest.TDigest.QuantilesInOrder` | pkg/metric/tdigest.go:229-270 | on every reachable digest a later call with a larger quantile never returns less, whether or not the first call condensed |
| `RollupBucket.RollupBucket.AddPoint` | pkg/metric/rollup.go:244-269 | a sample goes into the summary and the sketch alike |
| `RollupBucket.RollupBucket.MergeStored` | pkg/metric/rollup.go:277-308 | the sketch still matches the summary exactly when neither side brought samples without a sketch to one that keeps one |
| `RollupBucket.RollupBucket.MergeRows` | pkg/metric/store.go:1170-1173 | rows that carry a sketch merge to one bucket whose sketch matches its summary |
| `RollupBucket.RollupBucket.Percentile` | pkg/metric/rollup.go:379-387 | a percentile lies between the extremes of the bucket, on the broken line of its clusters |
| `RollupBucket.SummaryStatistics` | pkg/metric/store.go:1170-1192 | the statistics of a range are those of the merged rows, with median, 95th and 99th percentile in order, each on the broken line of the merged clusters |
| `RollupBucket.DigestFromRollup` | pkg/metric/rollup.go:326-340 | a missing sketch is rebuilt exactly for empty and constant buckets and refused for all others |
| `RollupBucket.OmittedSketchRebuilt` | pkg/metric/rollup.go:310-340 | a bucket stored without its sketch gets one back that matches it |
| `RollupBucket.OmittedIffRebuildable` | pkg/metric/rollup.go:310-340 | a sketch is left out of a row exactly when it can be rebuilt from the row, or there is none |
| `DigestCodec.WriteRecord` | pkg/metric/tdigest.go:279-301 | the encoder writes the record field by field |
| `DigestCodec.ReadRecord` | pkg/metric/tdigest.go:317-347 | the decoder with a moving offset accepts and rejects exactly the specified blobs |
| `DigestCodec.RecordRoundTrip` | pkg/metric/tdigest.go:279-348 | the record reads back bit for bit, up to the default compression, exactly when the centroid count fits 32 bits |
| `DigestCodec.RecordLayout` | pkg/metric/tdigest.go:279-301 | the bytes of a record: TD, version one, five little-endian fields, two words per centroid |
| `DigestCodec.RefusedIff` | pkg/metric/tdigest.go:317-337 | exactly which records are refused, and for which reason |
| `DigestCodec.StoredRoundTrip` | pkg/metric/digest_codec.go:48-103 | compressed, plain or bare, a stored digest reads back; it is in the old format exactly without a compressor |
| `DigestCodec.StoredForm` | pkg/metric/digest_codec.go:48-74 | which of the three forms is written, byte by byte |
| `DigestCodec.StoredRefused` | pkg/metric/digest_codec.go:77-103 | which stored blobs are refused, and what the others decode as |
| `DigestObject.AtMostOneIff` | pkg/metric/tdigest.go:344-346 | the default compression is chosen exactly when the number the word stands for is at most one |
| `DigestObject.FieldsRead` | pkg/metric/tdigest.go:324-346 | a record is read field by field, a compression of at most one as thirty |
| `DigestObject.EncodeDigest` | pkg/metric/tdigest.go:279-302 | storing condenses the digest and writes the words of its numbers |
| `DigestObject.DecodeDigest` | pkg/metric/tdigest.go:308-348 | the decoder builds the very digest the words say, or fails as specified |
| `DigestObject.FreshIsNew` | pkg/metric/tdigest.go:309-311 | an empty row is read as a new digest |
| `DigestObject.ReadBack` | pkg/metric/digest_codec.go:48-103 | a digest whose numbers are float64 values is read back with the same clusters, totals and extremes, standing for the same observations |
| `DigestObject.StoredQuantiles` | pkg/metric/tdigest.go:229-348 | estimates read off a stored row are those of the digest in memory, in order and within its extremes |
| `DigestCodec.RewriteKeepsDigest` | pkg/metric/digest_reclaim.go:87-100 | rewriting a row changes its bytes but not its digest |
| `DigestReclaim.DigestTable.SelectBatch` | pkg/metric/digest_reclaim.go:50-75 | a batch holds the next old rows in order, and all of them unless it is full |
| `DigestReclaim.DigestTable.RewriteBatch` | pkg/metric/digest_reclaim.go:86-99 | every row of the batch is re-encoded, or the first unreadable one stops it |
| `DigestReclaim.DigestTable.Reencode` | pkg/metric/digest_reclaim.go:26-114 | interrupted between any transactions and resumed, no old row stays at or below the cursor, completion leaves none below the bound, which a first run sets to the largest row id, and every row decodes as before |
| `DigestReclaim.OtherWritesKeepProgress` | pkg/metric/digest_reclaim.go:23-25 | other writers between two transactions do not invalidate the progress as long as they do not write the old format |
| `RollupImport.InsertAnywhere` | pkg/metric/rollup_store.go:181-198 | a bucket merged out of order lands at its place in time |
| `RollupImport.BuildCoarserBuckets` | pkg/metric/rollup_store.go:181-198 | one coarser tier is the same for every iteration order of the map |
| `RollupImport.BuiltDirect` | pkg/metric/rollup_import.go:140-156 | a tier built from a tier equals the source aggregated straight into it |
| `RollupImport.RebuildCoarserRollups` | pkg/metric/rollup_import.go:100-158 | every coarser tier ends up with the source's direct aggregate, and other rows stay |
| `Policy.Validate` | pkg/metric/rollup.go:109-141 | accepts exactly the valid policies |
| `Policy.WithMetricRetention` | pkg/metric/rollup.go:84-103 | the loop computes the metric's ladder, whose tiers `DerivedTiers` states |
| `Policy.DerivedLadder` | pkg/metric/rollup.go:84-103 | the derived ladder is valid, with strictly increasing retentions that end at the metric's |
| `PolicyLadder.DerivedTiers` | pkg/metric/rollup.go:84-103 | the ladder holds exactly the configured tiers that add something, each with its own interval and its own retention or the metric's |
| `PolicyLadder.OwnTierKept` | pkg/metric/rollup.go:84-103 | a tier that lives shorter than the metric and longer than the one before it is in the ladder as it was configured |
| `PolicyLadder.MissingIsBacked` | pkg/metric/rollup.go:84-103 | a tier is missing only if a finer tier of the ladder lives at least as long or as long as the metric |
| `PolicyLadder.DefaultForAYear` | pkg/metric/config.go:164-176 | of the default policy a metric kept for a year has all four tiers, the coarsest for that year |
| `Policy.BestRollupTier` | pkg/metric/rollup_query.go:148-157 | the coarsest tier that covers the start and divides the interval |
| `Policy.SeriesResolution` | pkg/metric/rollup_query.go:109-122 | the coarsest serving tier, else the coarsest that divides the interval, else minutes |
| `Policy.CompatibleSeriesInterval` | pkg/metric/rollup_query.go:124-146 | the least multiple of the backing tier's interval that is large enough |
| `Policy.CompatibleIsServed` | pkg/metric/rollup_query.go:124-157 | a compatible interval is served by the ladder of every metric that still keeps the start |
| `Policy.CleanupSparesCovered` | pkg/metric/store.go:1275-1290 | no retention path deletes a bucket that a covered query of the same instant reads |
| `Policy.DroppedIffWhollyOld` | pkg/metric/rollup_store.go:312-321 | the aligned cutoff drops a bucket exactly when all of its span is older than the retention |
| `PolicyLadder.RowSurvivesIff` | pkg/metric/store.go:1245-1322 | a row of a configured tier survives exactly when its tier adds something to the metric's ladder and the end of its bucket is younger than that tier's retention |
| `PolicyLadder.OtherRows` | pkg/metric/store.go:1245-1322 | rows of other metrics and tiers stay, all rows of a disabled metric go |
| `Policy.RollupRows.EnforceRetention` | pkg/metric/rollup_store.go:272-303 | tier by tier exactly the expired rows of one metric go |
| `Policy.RollupRows.CompactMetric` | pkg/metric/rollup_store.go:72-92 | one metric's retention in one transaction leaves what the scheduled cleanup would leave of it |
| `Policy.CompactingIsCleanup` | pkg/metric/rollup_store.go:272-303 | compacting the metrics one after the other, in any order, is the scheduled cleanup |
| `Policy.GroupMetrics` | pkg/metric/store.go:1267-1290 | every metric is in the deletion of each of its tiers and in no other |
| `Policy.RollupRows.CleanupExpired` | pkg/metric/store.go:1245-1322 | the grouped deletions remove exactly the expired rows of defined metrics, or nothing if the transaction fails |
| `LeaseInvariant.WholeGateAlone` | internal/metricstore/operation_gate.go:12-40 | whoever holds the whole weighted gate holds it alone |
| `LeaseShutdown.GateAdmitsIff` | internal/metricstore/operation_gate.go:12-40 | up to 1024 shared leases beside each other, an exclusive one and a migration only when the gate is empty |
| `LeaseRuns.StepKeepsInv` | internal/metricstore/store.go:90-315 | every critical section but an unguarded publication keeps stores, owners, leases, migration and lock consistent |
| `LeaseRuns.InitPublishSoundIff` | internal/metricstore/store.go:91-123 | the publication of InitializeStore is sound exactly when no store has become active since it looked |
| `LeaseRuns.InitRaceReplacesStore` | internal/metricstore/store.go:91-123 | used concurrently, the package's functions allow a run in which it replaces the store a migration copies into, which is then never closed |
| `LeaseStartup.StartupThenServe` | internal/metricstore/store.go:90-315 | when every initialisation comes before the first reload, whatever recoveries, migrations, leases and closings are interleaved, each publication finds an empty place and the protocol is sound throughout |
| `LeaseStartup.CallsApartSound` | internal/metricstore/store.go:91-123 | the same for initialisations at any time, as long as none is under way when a reload publishes its store |
| `LeaseRuns.MigrationHoldsAlone` | internal/metricstore/store_migration.go:93-205 | a copying migration alone holds the lease, and its destination is the open active store of the requested configuration |
| `LeaseRuns.OneMigration` | internal/metricstore/store_migration.go:130-170 | at most one migration is registered, copying or winding down |
| `LeaseRuns.LeaseStable` | internal/metricstore/operation_gate.go:22-40 | no step of another goroutine replaces or closes the store a lease holder works on |
| `LeaseRuns.NoStartWhileClosing` | internal/metricstore/store_migration.go:252-287 | no migration starts while the closing flag is up |
| `LeaseShutdown.FlagUpIff` | internal/metricstore/store_migration.go:252-287 | the closing flag is up exactly when a close or shutdown raised it and no failed close, recovery or initialisation has taken it down since |
| `LeaseShutdown.NoPassWhileClosing` | internal/metricstore/store.go:132-257 | while the flag stays up no reload and no recovery gets past its check |
| `LeaseShutdown.ClosedStaysClosed` | internal/metricstore/store.go:293-315 | once the store is closed the place stays empty while the flag stays up and nobody initialises |
| `LeaseShutdown.WaitedForMigration` | internal/metricstore/store_migration.go:252-275 | a close or shutdown that has waited with the flag up finds no migration copying or winding down |
| `LeaseShutdown.TurnedAwayIff` | internal/metricstore/store.go:90-257 | each check lets its caller through exactly under its condition |
| `LeaseShutdown.PublishesOwnStore` | internal/metricstore/store.go:118-252 | a publication activates the store its goroutine opened, under its configuration, and leaves it the previous one to close |
| `LeaseShutdown.FinishClosesPrevious` | internal/metricstore/store.go:188-257 | a reload or recovery closes the store it replaced, last of all |
| `LeaseRuns.NothingLeaks` | internal/metricstore/store.go:132-257 | when every goroutine has finished the active store is the only open one |
| `Wildcard.WildcardMatch` | pkg/rpc/permission.go:115-143 | the backtracking scan terminates and decides the pattern's meaning for subjects without an inner star |
| `Wildcard.NextStar` | pkg/rpc/permission.go:127-130 | taking the next star may forget the one before |
| `Wildcard.ScanIsMeaning` | pkg/rpc/permission.go:115-143 | scan and recursive meaning agree for every pattern |
| `Wildcard.MatchesIffFilled` | pkg/rpc/permission.go:113-143 | a subject matches exactly when it is the pattern with its stars replaced by some strings |
| `Wildcard.RightForEveryPatternIff` | pkg/rpc/permission.go:123-138 | the scan is right about a subject for every pattern exactly when the subject has no star before its last character |
| `Wildcard.StarMissesLeadingStar` | pkg/rpc/permission.go:124-127 | the pattern * does not match the subject *a |
| `Permission.ComputeSpecificity` | pkg/rpc/permission.go:78-91 | literal count for patterns with stars, the bonus for exact ones |
| `Permission.AccessList.Allow` | pkg/rpc/permission.go:95-107 | a repeated pattern replaces its rule in place, a new one is appended |
| `Permission.AccessList.ResolveMinRole` | pkg/rpc/permission.go:146-173 | a bare name is decided in the default namespace: the first of the most specific and strictest applying rules decides; without one only administrators may call |
| `Permission.AccessList.CheckPrincipal` | pkg/rpc/permission.go:190-199 | guests' methods are open to all, others need the very role |
| `Permission.OneRoleNeeded` | pkg/rpc/permission.go:146-173 | the rules ask for exactly one role: no two roles can both be the needed one |
| `Permission.StricterWins` | pkg/rpc/permission.go:164-169 | the deciding rule is as specific as any that applies and among those as strict as any, administrators before clients before guests |
| `Permission.ExactRuleDecides` | pkg/rpc/permission.go:76-91 | a rule for exactly the method decides as long as no starred pattern has a million literals |
| `PermissionDefaults.BuiltInRoles` | pkg/rpc/permission.go:49-58 | under the built-in rules a name needs the role of its namespace, and administrators where nothing is declared |
| `PermissionDefaults.BuiltInSpecificity` | pkg/rpc/permission.go:78-91 | the built-in rules are as specific as they are declared: the literals of their patterns |
| `Traffic.DeltaIsDifferenceIff` | internal/metricstore/report_mapping.go:136-147 | the delta is the plain difference exactly for counters that do not go back, and a reset adds at most 64 GiB |
| `Traffic.TrafficStates.WriteReportBatch` | internal/metricstore/report_batcher.go:336-415 | a batch equals folding its reports over the client states, which move on even when the write fails |
| `Traffic.BatchesCompose` | internal/metricstore/report_batcher.go:352-409 | cutting the reports into batches anywhere changes nothing |
| `Traffic.OthersDoNotMatter` | internal/metricstore/report_batcher.go:354-400 | what a client sends depends on its own reports only |
| `TrafficIncreases.FirstIncrease` | internal/metricstore/report_batcher.go:363-399 | the first increases of a client are those over the counters the store last held before its report, upload and download each over its own |
| `TrafficIncreases.NextIncrease` | internal/metricstore/report_batcher.go:381-409 | every later increase is that over the client's report before, sent at a later time |
| `Traffic.UploadTelescopes` | internal/metricstore/report_batcher.go:384-396 | upload increases of one client add up to its last total minus its baseline |
| `Traffic.DownloadTelescopes` | internal/metricstore/report_batcher.go:388-398 | download increases of one client add up to its last total minus its baseline |
| `Traffic.ClientStampsIncrease` | internal/metricstore/report_batcher.go:381-383 | the timestamps a client sends strictly increase |
| `Traffic.RetryRightIff` | internal/metricstore/report_batcher.go:298-316 | a failed batch retried with whatever is pending by then stores the right sum of a client exactly when the total last stored is zero, or the first failed one where that is also the last failed one or too large to look like a reset |
| `Traffic.RetrySparesOthers` | internal/metricstore/report_batcher.go:298-316 | a client without a report in the failed batch gets the right sum |
| `Traffic.RetryStoresTooMuch` | internal/metricstore/report_batcher.go:402-413 | a batch whose retry stores 30 where 25 is right |
| `EditDistance.ScriptsCostAtLeast` | utils/utils.go:116-145 | no edit script is cheaper than the distance |
| `EditDistance.ScriptExists` | utils/utils.go:116-145 | some edit script costs exactly the distance |
| `EditDistance.Levenshtein` | utils/utils.go:116-145 | two rolling rows with swapped arrays compute the recursive distance |
| `EditDistance.ZeroIffEqual` | utils/utils.go:116-145 | only equal texts are at distance zero |
| `EditDistance.Symmetric` | utils/utils.go:116-145 | the distance is symmetric |
| `EditDistance.SimilarityRange` | utils/utils.go:98-113 | similarity is a fraction, and one for equal texts only |
| `EditDistance.SimilarEnoughIff` | utils/utils.go:98-113 | a window is similar enough exactly when its distance is at most the share of the length the threshold leaves |
| `EditDistance.MarkWords` | utils/utils.go:38-59 | exactly the characters of windows are marked whose distance from a word is at most the share of its length the threshold leaves |
| `EditDistance.OccurrenceMarked` | utils/utils.go:38-59 | every exact occurrence of a word is fully marked |
| `EditDistance.StrictMarksOccurrences` | utils/utils.go:38-59 | at threshold one nothing but exact occurrences is marked |

## Left out

- Floating-point rounding, NaN and infinities: buckets, digests and similarities use exact reals. The square root of the standard deviation is left out; variance is its radicand.
- Rate and percentile answers of a series query compared with the raw answer: rate uses one representative per bucket and percentiles are estimates.
- Aliasing of buckets: pending, stored and staged buckets are values, so cloning a bucket before keeping it is not modelled; series, buffers, decoders, digests and accumulators are objects.
- Store.Store.WriteBatch: requires room for new label ids (the present label table of every series and the batch together have at most 2^32 entries) and clocks in range; validation of points and the filter for unknown or disabled metrics happen before it and are not modelled.
- Store.Store.PersistHot: all merges come before all replacements, where the source alternates metric by metric; keys of different metrics never meet, so the rows are the same. SQL text, dictionaries, the per-metric policy read and connection handling are left out.
- Store.Store: locks are left out. Where a reader can be admitted inside a call is covered by `ReaderBetweenHalves`, `ReaderBeforeFlushExact` and `ReaderInsideFlushExact`.
- Pipeline.MetricStore.WriteBatch: staging happens after the minute flush has returned, where the source does it at the end of that flush under the same lock; compaction with sealing, and a coarse flush without a write, are left out.
- RawTable.RawTable.BuildMinute: reads the minute through the range query instead of repeating its decoder loop.
- StoreRead.QueryRaw: offsets, limits, descending order and the order of different series at equal timestamps are left out; tag filters are predicates on the tag hash.
- SeriesResult.SeriesEqualsAggregatePoints: whole minutes at both ends and a start inside the raw window, as for SeriesMerged.MergedSeriesEqualsAggregate, which covers the queries that merge their series.
- Restart, Close, deletion of series, entities or metrics, DeleteBefore and a minute retention shorter than the raw window: they remove rows the raw window still accounts for.
- Coarse-tier reads of open parents, and deletion of coarse parents.
- Pipeline.SealedIsHistory: for parents at or after the epoch.
- Coarse.CoarseTable.FlushClosed: the retention policy of each metric is fixed, so the early continue for a round whose parents were all filtered out cannot happen and is omitted; tier intervals are at most ten trillion milliseconds and the clock stays within that limit.
- Any bound on the accuracy or the number of digest centroids: the code checks none.
- DigestReclaim.DigestTable.Reencode: row ids are positive, as SQLite assigns them; the compressor is a parameter with an assumed inverse.
- DigestObject.ReadBack: for digests whose numbers are all values of float64 words; condensing in exact reals can leave them, and the rounding that keeps the code within them is not modelled. Words that are not finite are decoded without a meaning, apart from the two infinities of an empty digest.
- RollupImport.RebuildCoarserRollups: one metric at a time; rows lie on their grid and hold timestamps of their own bucket.
- Policy.RollupRows.CleanupExpired: the raw samples, pending buckets and open parents of disabled metrics, which are dropped after the transaction, are left out.
- Policy.SeriesResolution: the store-wide policy of an unknown metric is not modelled.
- Lease protocol: the short read lock around fetching the store, configuration reads, the separate compaction gate and the contents of a migration; a store that is open as a migration source is not counted as leaked. Ping writes take no lease.
- Permission.AccessList.ResolveMinRole: strings are sequences of characters, so counting runes and comparing bytes is not distinguished.
- Traffic.TrafficStates.WriteReportBatch: of the points of a report only the traffic increases and the timestamp are kept; distinct timestamps may still fall into one stored millisecond.
- EditDistance.MarkWords: trimming and deduplicating the private words and rendering the masked text are left out; the similarity threshold is a parameter, 0.8 in the source.
- Tag and label hashes are injective; compression is an assumed inverse pair.
- Plugins, transport, accounts, configuration, notification and server lifecycle.
