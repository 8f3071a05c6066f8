# A verified model of a log analytics platform

The platform ingests log lines, files them as partitioned Parquet, and answers searches over them. This
project models the logic behind its input and output in Dafny and proves what that logic is for. Code
that updates state in the original is modelled by classes and loops, each proved against a
specification function; what the specification promises is proved by the lemmas beside it.

`dafny verify dfyconfig.toml` checks everything.

## What is modelled

**The search compiler** (`LikePatterns`, `QuerySyntax`, `Tokenizer`, `QueryAst`, `QueryParser`,
`QueryPrinter`, `QueryText`, `Sql`, `SearchIntent`, `QueryCompiler`, `QueryMeaning`, `Search`, `PageOrder`,
`LogQuery`). SQL is a token sequence with its own precedence parser and three-valued evaluator, so the parentheses
the compiler emits and the position of every `?` matter to the proof. What a comparison asks for is said in
`SearchIntent`, without the compiler's own tables. Pattern matching is that of section 8.5 of
ISO/IEC 9075-2, with a case-folding function as a parameter. The main theorem is
`Search.SearchMeansWhatItSays`.

**The streaming protocol** (`SeenKeys`, `ParquetStore`, `StreamProcessor`, `StreamProtocol`,
`StreamSafety`, `KafkaConsumer`). The processor, the store and the deduplicator are classes; the protocol is a
step relation over the broker's log, the disk and one process, with crashes, partial flushes, failed commits and
exceptions anywhere. `KafkaConsumer` shows the real loop, from its first poll to the flush on its way out, to be
a refinement of it. The main theorems are `StreamSafety.NoCommittedLoss` and
`StreamSafety.LosslessIffCommitted`.

**Time** (`Calendar`, `Alignment`, `Partitioning`, `PartitionSpans`, `PartitionedRows`, `Windows`, `WindowFields`). Civil moments and the time
line are shown to be the same thing, so that a partition index made of directory names, month ends and bucket
floors can be proved against instants. The main theorem is `PartitionedRows.PrunedScanIsExact`: from the
timestamps of any rows, through the files the store makes of them, to what a pruned scan returns.

**Statistics and detectors** (`Averages`, `Ewma`, `Detectors`, `DetectorScores`), over real numbers and with
deviations kept squared.

**Bounded structures** (`RateLimiter`, `MemoryCache`, `CircuitBreaker`, and `SeenKeys` again), each
specified against its whole history.

**The job queue** (`JobQueue`, `JobProtocol`, `JobSafety`), one call at a time and with its threads interleaved.

**Batch accounting** (`PipelineResults`, `ParallelTotals`, `BatchPipeline`).

`Options` and `Collections` hold what several of these share.

## Where the code does not do what it promises

Each has a counterexample or an exact condition above all inputs.

- `!=` does not negate `=` on a starred value of a column that is not numeric, timestamp columns included (`QueryMeaning.InequalityNegatesEquality`).
- A consumer group without a committed offset can lose polled messages (`StreamSafety.LosslessIffCommitted`).
- Pruning and listing buckets overflow in the last span of year 9999 (`Partitioning.PruningFailsOnlyAtTheEnd`, `Windows.IterWindows`).
- The exponential detector fails for smoothing factors outside [0, 1] (`Detectors.NegativeVarianceExactly`).
- At rate 0 the named 60 seconds are never enough (`RateLimiter.SixtySecondsNeverEnough`), nor is any wait for a cost above the capacity (`RateLimiter.RetryAfterIsExact`).
- A job's worker can be done while the job is not terminal: when `max_retries` is negative (`JobQueue.NegativeRetries`), when a handler raises something else than an `Exception` (`JobQueue.ExitingHandler`), or when the sleep before a retry raises, as it does for a negative backoff (`JobQueue.NegativeBackoff`). `JobQueue.FinishedAccounted` and `JobSafety.DoneIsTerminal` say that these are all the cases.
- A prune that runs beside its workers can leave terminal jobs beyond the limit (`JobSafety.PruneCanMiss`): exactly those that became terminal after its last scan had passed them (`JobSafety.PruneEnds`).
- A run over a store that was written to before counts the earlier records as its own, so that its lines do not add up (`BatchPipeline.Pipeline.Execute`).
- Reason counts exceed the rejections when nothing was rejected and the dead-letter queue holds anything: letters of earlier runs (`BatchPipeline.EarlierLetterStandsIn`) or kept duplicates (`BatchPipeline.KeptDuplicateStandsIn`).
- With one worker a crash on one file loses the whole parallel run (`PipelineResults.ProcessParallel`).

## Assumptions

- Deduplication keys, file names and content hashes do not collide; run ids are fresh across processes, as they carry the process id, the time and a counter.
- Arithmetic is exact. Clocks never go back, except where a module says otherwise.
- Moments are in UTC.
- What parsers, transformations, validators and job handlers do is a parameter, as is every outcome of the disk, the broker and the network.

## Model

| member | source | states |
|---|---|---|
| `Tokenizer.Tokenize` | app/search/query.py:125-145 | the scanner, with its length, quote and character errors, computes the recursive token specification |
| `Tokenizer.MergeValueColons` | app/search/query.py:153-192 | the in-place merge of colons into values computes its specification on any token list |
| `Tokenizer.TokensTileTheText` | app/search/query.py:125-192 | accepted text is exactly its tokens and the blanks between them, so every word, merged or not, spells the text it spans |
| `Tokenizer.TilesIncrease` | app/search/query.py:125-192 | tokens do not overlap and their positions strictly increase |
| `Tokenizer.MergeIsIdempotent` | app/search/query.py:153-192 | after merging no `:` operator is left touching a preceding non-field word, and merging again changes nothing |
| `QueryText.TokenizeInvertsLay` | app/search/query.py:125-192 | tokenizing lexemes written with any blanks between them, or none where two do not fuse, and with any quotes and colons their words may hold, gives back those lexemes |
| `QueryText.ComparisonNeedsNoBlanks` | app/search/query.py:125-192 | a comparison can be written without blanks, as in `level=ERROR`; before `:` the field must be a plain field name or quoted |
| `QueryParser.Parser.Parse` | app/search/query.py:291-300 | the stateful parser returns the grammar's result for the whole token list, or its error |
| `QueryParser.Parser.ParseOr` | app/search/query.py:302-309 | OR level: the result, the tokens consumed and the node counter are those of the grammar |
| `QueryParser.Parser.ParseAnd` | app/search/query.py:311-324 | AND level, with implicit AND, likewise |
| `QueryParser.Parser.ParseTerm` | app/search/query.py:326-342 | NOT, parentheses and the nesting limit, likewise |
| `QueryParser.Parser.ParseComparison` | app/search/query.py:344-359 | field comparisons and free text, likewise |
| `QueryParser.Parser.ParseValues` | app/search/query.py:361-374 | comma-separated value lists, likewise |
| `QueryParser.OrBounded` | app/search/query.py:285-289 | for any tokens, the node counter is the number of NOT nodes and leaves of the tree, at most 64, its nesting is at most 8, and the tree is well-formed |
| `QueryPrinter.ParseInvertsPrint` | app/search/query.py:291-378 | parsing the print of any query within the limits, with the parentheses precedence needs and any more around any part, in any of the spellings the language allows, gives exactly the tree `build_comparison` would build, or its first error |
| `LikePatterns.EscapeLikeIsOnePass` | app/search/query.py:426-428 | three chained replaces equal one pass that escapes each character |
| `LikePatterns.EscapedIsLiteral` | app/search/query.py:426-428 | an escaped value leaves no dangling escape and reads as itself, whatever pattern follows |
| `LikePatterns.ContainsPatternMeaning` | app/search/query.py:232-237 | the free-text pattern matches a text if and only if the value occurs in it |
| `LikePatterns.ToLikePatternMeaning` | app/search/query.py:431-436 | a search value matches exactly the texts it denotes as a glob whose only metacharacter is `*`; containment when it has none |
| `SearchIntent.OperatorsMean` | app/search/query.py:61-71 | `>` asks for a cell strictly after the value, `<` strictly before it, `>=` and `<=` for those or equality, `=`, `==` and `:` for equality and `!=` and `<>` for its opposite, over numbers, instants and text; the SQL operator each compiles to does just that |
| `SearchIntent.CoerceMeans` | app/search/query.py:411-423 | a text becomes exactly the whole number, number or instant it stands for in its column, or the text itself |
| `SearchIntent.PatternsMean` | app/search/query.py:405-408 | a value is matched as a pattern exactly under `~` or when it is starred in a column that is not numeric |
| `SearchIntent.RequestNames` | app/search/query.py:80-99 | the short names of what a request was name their columns |
| `SearchIntent.OutcomeNames` | app/search/query.py:80-99 | the short names of what came of it, likewise |
| `SearchIntent.OriginNames` | app/search/query.py:80-99 | the short names of where a record comes from, likewise |
| `SearchIntent.ColumnNames` | app/search/query.py:384-392 | every column goes by its own name |
| `SearchIntent.NamesIgnoreCase` | app/search/query.py:384-392 | capitals and leading blanks do not matter to a field name |
| `QueryCompiler.CompiledParses` | app/search/query.py:205-261 | the emitted SQL, read with the precedence of NOT, AND and OR, is the tree again, wherever a predicate may end |
| `QueryCompiler.CompilationIsValueBlind` | app/search/query.py:205-261 | trees that differ only in bound values compile to the same text |
| `QueryCompiler.CompiledIsClosed` | app/search/query.py:205-261 | the text is made of a closed vocabulary: no text of the user reaches it |
| `QueryCompiler.ParametersBounded` | app/search/query.py:214-261 | at most 50 parameters for each node counted |
| `QueryMeaning.CompiledMeaning` | app/search/query.py:205-261 | parsing the text, binding the i-th `?` to the i-th parameter and evaluating in three-valued logic gives the tree's truth on every row, NULLs included |
| `QueryMeaning.BuildMeaning` | app/search/query.py:395-408 | the tree built for a query is worth, on every row, what the query asks for, where the truth of a comparison is that of `SearchIntent` and not read off the compiler's tables |
| `QueryMeaning.InequalityNegatesEquality` | app/search/query.py:395-408 | `!=` negates `=` on every row if and only if the value is not a starred value of a column that is not numeric |
| `Search.CompileQuery` | app/search/query.py:465-479 | tokenizer, parser and compiler composed, empty query and errors included |
| `Search.CompileTextOfShow` | app/search/query.py:465-479 | compiling a query typed in any style and layout gives its compiled tree or the error of its first bad leaf |
| `Search.SearchMeansWhatItSays` | app/search/query.py:465-479 | end to end: a query typed in any style and layout, within the limits, compiles to SQL that is worth, on every row, what the user asked for in the sense of `SearchIntent` |
| `Search.AcceptedIsBounded` | app/search/query.py:465-479 | for any text, an accepted query has at most 64 * 50 parameters, a closed text and a meaning |
| `Search.FiltersMeaning` | app/search/query.py:482-500 | a compiled filter map is worth, on every row, the conjunction of what its fields ask for; an empty one restricts nothing |
| `Search.CombineMeaning` | app/search/query.py:503-515 | combining keeps every parameter with its hole: the truth is the AND or OR of the active queries |
| `LogQuery.AssembleClauses` | app/storage/duckdb_engine.py:223-237 | the clause list and the value list grow in step |
| `LogQuery.QueryLogs` | app/storage/duckdb_engine.py:204-252 | the statement, its clamped page bounds and its refusals: nothing is run without files, and it is refused exactly for a column that is not queryable or a direction that does not spell asc or desc |
| `PageOrder.DirectionMeans` | app/storage/duckdb_engine.py:63-67 | a direction is read as ascending or descending exactly when it spells that word in any case, with any blanks around it |
| `PageOrder.EveryColumnByName` | app/storage/duckdb_engine.py:225-229 | without a choice of columns every queryable one is shown, in alphabetical order |
| `LogQuery.CountLogs` | app/storage/duckdb_engine.py:254-279 | the counting statement and its parameters, or the answer 0 without files, as a caller meets them |
| `LogQuery.QueryLogsMeaning` | app/storage/duckdb_engine.py:223-252 | every parameter is bound to its own hole: the file list, the rows in range on which the predicate is true, LIMIT and OFFSET; none is left over, and the columns, the order and the direction are those asked for |
| `LogQuery.CountLogsMeaning` | app/storage/duckdb_engine.py:254-279 | the counting statement reads as the count over the file list of the rows in range on which the predicate is true, each parameter bound to its own hole and none left over |
| `LogQuery.TotalIsSelected` | app/storage/duckdb_engine.py:204-279 | the total is the number of rows the page query selects from, for the same filters |
| `LogQuery.StatementsAreClosed` | app/storage/duckdb_engine.py:223-279 | whatever the caller passes, both statements are made of keywords, holes, allow-listed columns and the two directions |
| `SeenKeys.Tracker.Add` | app/deduplication/strategies.py:133-142 | the tracker holds exactly the `max_size` most recently touched distinct keys in touch order, and reports a key fresh if and only if it is not among them |
| `SeenKeys.RemembersExactly` | app/deduplication/strategies.py:133-142 | after any history a key is remembered if and only if it occurred and fewer than `max_size` other distinct keys were touched since |
| `SeenKeys.Deduplicator.IsDuplicate` | app/deduplication/strategies.py:201-213 | the verdict is that of the tracker on the whole stream so far, and the counters follow |
| `SeenKeys.Deduplicator.Filter` | app/deduplication/strategies.py:215-219 | whatever was seen before, the filtered stream is the events not flagged, in order, and it extends what was kept |
| `SeenKeys.LargerBoundFlagsMore` | app/deduplication/strategies.py:201-219 | a larger bound flags a superset of duplicates |
| `SeenKeys.BoundNotFelt` | app/deduplication/strategies.py:201-219 | with at most `max_size` distinct keys, filtering keeps exactly the first occurrences |
| `ParquetStore.Store.GroupByPartition` | app/storage/partitioning.py:157-174 | each bucket holds exactly its partition's events, in order; buckets come in order of first appearance. The key is a field here; `PartitionedRows` computes it from the timestamp |
| `ParquetStore.Store.Write` | app/storage/parquet_store.py:81-98 | writing batch by batch and bucket by bucket files every event as filing them one at a time would and returns and notes each file once, in order of first appearance; a failed write touches files of its run only |
| `ParquetStore.FiledIsFileAll` | app/storage/parquet_store.py:85-93 | filing a batch by buckets gives the same files as filing its events in order |
| `ParquetStore.Store.Flush` | app/storage/parquet_store.py:139-157 | every open file is published or its failure noted, each on its own, and no other file changes; an exception other than OSError ends the loop and leaves the files not yet closed open |
| `StreamProcessor.Processor.Handle` | app/streaming/processor.py:210-256 | each message is counted once as rejected, duplicate or buffered, and as parsed and valid up to where it failed |
| `StreamProcessor.Processor.Flush` | app/streaming/processor.py:285-314 | messages = rejected + duplicates + written + buffered in every outcome; a failed flush keeps the buffer; no published file is replaced |
| `StreamProcessor.Processor.Run` | app/streaming/processor.py:273-340 | the loop over a source never holds more than `max_batch` records, flushes exactly after the rounds that leave the buffer full or old and once more for what is left, keeps the balance whatever fails in a write or a publication, and ends drained unless something did |
| `StreamProcessor.Processor.ProcessBatch` | app/streaming/processor.py:342-346 | a batch is handled and flushed: when it succeeds everything accepted so far is written |
| `KafkaConsumer.KafkaLogConsumer.PollBatch` | app/streaming/kafka_consumer.py:79-96 | up to the batch size, exactly the non-empty messages between the two positions, in order |
| `KafkaConsumer.KafkaLogConsumer.HandleBatch` | app/streaming/kafka_consumer.py:143-150 | handling the polled messages, up to the one at which it raises, is a sequence of protocol steps |
| `KafkaConsumer.KafkaLogConsumer.ConsumeBatch` | app/streaming/kafka_consumer.py:141-151 | one round of the loop refines the protocol; the committed offset becomes the position exactly when the round counts messages and neither handling, the flush nor the commit fails, and is otherwise untouched |
| `KafkaConsumer.KafkaLogConsumer.Close` | app/streaming/kafka_consumer.py:152-154 | from wherever the loop is left, the flush on the way out continues the protocol run |
| `KafkaConsumer.KafkaLogConsumer.Consume` | app/streaming/kafka_consumer.py:121-155 | the whole loop, rounds and way out, is one run of the protocol: from any state that keeps the invariant, every message below the committed offset is settled at the end and no published file is lost; the committed offset is the position after the last round that committed, exactly the polled messages are handled with their own verdicts, and when no round fails a restart resumes at the end of what was polled |
| `KafkaConsumer.LeadsKeeps` | app/streaming/kafka_consumer.py:121-155 | whatever call the steps belong to, the protocol invariant holds after it and no published file is lost |
| `StreamProtocol.NextKeeps` | app/streaming/kafka_consumer.py:79-154 | every step, of failure and crash too, keeps the invariant |
| `StreamSafety.NoCommittedLoss` | app/streaming/kafka_consumer.py:79-154 | in every run each message from the start of the unbroken line of consumption to the committed offset was empty or errored, was rejected, or has its record in a published file |
| `StreamSafety.PublishedForGood` | app/storage/parquet_store.py:100-157 | in every run no step removes or replaces a published file |
| `StreamSafety.LosslessIffCommitted` | app/streaming/kafka_consumer.py:57-66 | a group loses nothing in any run if and only if it starts with a committed offset: without one `auto.offset.reset: latest` skips what a crash left unacknowledged |
| `StreamSafety.LosingRun` | app/streaming/kafka_consumer.py:57-66 | a run that loses the first message polled, from any log without a committed offset |
| `Calendar.InstantOfAt` | app/storage/partitioning.py:127-136 | every instant of years 1 to 9999 is that of exactly one civil moment |
| `Calendar.AtInstant` | app/storage/partitioning.py:127-136 | and every civil moment is the one at its instant |
| `Calendar.FieldOrderIsTimeOrder` | app/storage/partitioning.py:114-122 | comparing moments field by field compares their instants |
| `Calendar.MonthEnd` | app/storage/partitioning.py:132-135 | day 28 plus four days, set back to day 1, is the first of the next month for every month; it overflows exactly in December 9999 |
| `Calendar.MonthLengths` | app/storage/partitioning.py:127-136 | long and short months alternate, starting over in August, but for February |
| `Calendar.YearLengths` | app/storage/partitioning.py:127-136 | February takes up what is left of the year, and 97 years in every 400 have a day more |
| `Partitioning.PartitionPath` | app/storage/partitioning.py:42-52 | the path has one segment per key; an unsupported key raises |
| `Partitioning.DirectoryName` | app/core/timeutil.py:205-213 | the four parts of a path, digit by digit, as in year=2026/month=08/day=07/hour=23 |
| `Partitioning.ParsePartition` | app/storage/partitioning.py:55-62 | the loop finds the values of the recursive specification, later parts winning |
| `Partitioning.SegmentMeans` | app/storage/partitioning.py:39-62 | a part of a path has a value exactly when it is a key, `=` and two to four digits, up to one newline |
| `Partitioning.ParseInvertsPath` | app/storage/partitioning.py:42-62 | parsing a path made for a timestamp gives exactly the keys asked for with the timestamp's values |
| `Partitioning.SpanHolds` | app/storage/partitioning.py:65-78 | a timestamp lies from the start of its partition up to, not including, its end; the end fails to exist exactly in the last span of year 9999 |
| `Partitioning.PrunePartitions` | app/storage/partitioning.py:98-124 | the kept partitions are those that overlap the range or name no year; a name that is no date, or an end past year 9999, raises |
| `Partitioning.PruningHidesNothing` | app/storage/partitioning.py:98-136 | scanning the kept partitions for `[start, end]` gives the very rows that scanning all of them gives |
| `Partitioning.PruningFailsOnlyAtTheEnd` | app/storage/partitioning.py:98-136 | over partitions written this way pruning raises if and only if a bound is given and some directory holds the last span of year 9999 |
| `PartitionSpans.PruningIsTight` | app/storage/partitioning.py:98-136 | for bounds in order a directory is kept, as often as it is listed, if and only if some moment filed under it lies in the range |
| `PartitionSpans.PruningBySides` | app/storage/partitioning.py:98-136 | for any bounds, if and only if some moment filed under it is not before the start and some is not after the end |
| `PartitionSpans.UndatedIsKept` | app/storage/partitioning.py:113-116 | a directory that names no year is always kept |
| `PartitionedRows.StoreFilesTheTable` | app/storage/partitioning.py:157-174 | with the key computed from the timestamp, each bucket's file holds exactly the rows whose partition path is that bucket's directory, in order |
| `PartitionedRows.TableIsWellFiled` | app/storage/parquet_store.py:81-98 | the table of directories so made satisfies what pruning relies on, for any rows |
| `PartitionedRows.PrunedScanIsExact` | app/storage/partitioning.py:98-174 | whatever rows were written and whatever range is asked for, scanning the directories pruning keeps returns exactly the rows in range, each as often as it was written |
| `Windows.FloorIsAligned` | app/core/timeutil.py:168-179 | flooring gives the last multiple of the window on the time line, for every moment and every supported window; any other window raises |
| `Windows.FloorProperties` | app/core/timeutil.py:168-179 | flooring is idempotent, monotone and less than one window below |
| `WindowFields.FloorFields` | app/core/timeutil.py:168-180 | the bucket of a moment field by field: its minute, the five or fifteen minutes, the hour, the six hours or the day it lies in |
| `Windows.IterWindows` | app/core/timeutil.py:189-202 | consecutive buckets from the floor of start to the floor of end; it raises exactly when the window after the last would pass year 9999 |
| `Windows.ListsEachBucketOnce` | app/core/timeutil.py:189-202 | every aligned moment of the range is listed at exactly one place, midnight or not |
| `Windows.Bucketize` | app/analytics/statistics.py:195-203 | one bucket per floor with the summed weights; it raises exactly on an unsupported window or too few weights |
| `WindowFields.BucketsHold` | app/analytics/statistics.py:195-203 | there is a bucket exactly where a timestamp starts one, and it holds the sum of the values, or the number, of exactly those timestamps |
| `Windows.BuildSeries` | app/analytics/statistics.py:156-192 | one point per bucket of the range, missing buckets zero, or with gaps left out the buckets there are, sorted; each with its truncated count; it raises exactly when a filled range is unsupported or passes year 9999 |
| `WindowFields.PointShows` | app/analytics/statistics.py:168-192 | each start has its point, in order, with the value of its bucket or zero, and as count that value without its fraction |
| `Windows.SeriesLosesNothing` | app/analytics/statistics.py:156-203 | the series sums to the weight of exactly the timestamps whose bucket lies in the range |
| `Windows.FullSeriesTotals` | app/analytics/statistics.py:156-203 | bucketing timestamps and building the series with default bounds, gaps filled or not, sums to the sum of all weights, and without weights its values and its counts sum to the number of timestamps |
| `Averages.MovingAverage` | app/analytics/statistics.py:92-108 | the running sum gives the mean of the trailing window at every index; windows below 1 raise |
| `Averages.RollingVariance` | app/analytics/statistics.py:111-124 | the squared trailing deviation at every index; windows below 2 raise |
| `Averages.ZeroSpreadIsFlat` | app/analytics/statistics.py:111-124 | a trailing deviation is zero if and only if the window is constant |
| `Ewma.WeightsSumToOne` | app/anomaly_detection/detectors.py:314-347 | the exponential weights sum to 1 for any smoothing factor |
| `Ewma.LevelIsWeightedMean` | app/anomaly_detection/detectors.py:314-347 | `level` is the exponentially weighted mean of all values so far |
| `Ewma.LevelStaysInRange` | app/anomaly_detection/detectors.py:314-347 | for a factor in [0, 1] it stays between the least and greatest value |
| `Ewma.VariationIsWeightedSquares` | app/anomaly_detection/detectors.py:314-346 | `variance` is the weighted sum of squared distances from the current `level` |
| `Ewma.VariationNonNegative` | app/anomaly_detection/detectors.py:314-346 | so it is never negative for a factor in [0, 1] |
| `Detectors.DetectTrailing` | app/anomaly_detection/detectors.py:207-254 | the loop reports the specified anomalies with their scores and severities: baseline without the current point, the flat-baseline rule, the noise guard and the drop metrics |
| `Detectors.DetectEwma` | app/anomaly_detection/detectors.py:306-349 | the loop reports the specified anomalies, scored before the update; it raises exactly on an empty series or a negative variance |
| `Detectors.NegativeVarianceExactly` | app/anomaly_detection/detectors.py:316-324 | the square root fails if and only if the factor is outside [0, 1] and the series moves before its last point |
| `Detectors.TrailingReportsExactly` | app/anomaly_detection/detectors.py:220-254 | an anomaly is reported if and only if its point is past the first window and earns that verdict |
| `Detectors.EwmaReportsExactly` | app/anomaly_detection/detectors.py:319-344 | likewise for the exponential detector |
| `DetectorScores.TrailingMeans` | app/anomaly_detection/detectors.py:220-254 | with the spread of the window before it, a point is reported if and only if it is at least `threshold` spreads away, or the window is flat and it moves at all, and an upward move reaches `min_observed` or a downward one is of a drop metric; its severity needs the score and the ratio of each grade |
| `DetectorScores.EwmaMeans` | app/anomaly_detection/detectors.py:319-344 | likewise for the exponential detector and its own flat rule |
| `DetectorScores.ExceedsMeans` | app/anomaly_detection/detectors.py:230-235 | comparing squares is comparing the absolute score with its bound |
| `DetectorScores.ReportsAscend` | app/anomaly_detection/detectors.py:207-349 | either report lists its points in order, and none twice |
| `Detectors.LowerThresholdReportsMore` | app/anomaly_detection/detectors.py:207-349 | lowering the threshold keeps every move either detector reported; only the score of a flat baseline, and its severity, follow the threshold |
| `Detectors.VerdictsAreCausal` | app/anomaly_detection/detectors.py:220-254 | the baseline at index i does not depend on value i or later ones, in either detector |
| `Detectors.TrailingIsCausal` | app/anomaly_detection/detectors.py:207-254 | on any prefix the detector reports exactly the anomalies of the full series that lie in it |
| `Detectors.EwmaIsCausal` | app/anomaly_detection/detectors.py:306-349 | likewise for the exponential detector |
| `RateLimiter.TokenBucketLimiter.Check` | app/api/security.py:310-330 | admission, wait and remaining tokens follow from the refilled bucket, and for a key without one from a full bucket; other buckets are unchanged unless evicted; each bucket and each answer is the replay of the calls since the bucket was made |
| `RateLimiter.TokenBucketLimiter.Evict` | app/api/security.py:332-334 | the least recently used buckets beyond the limit go |
| `RateLimiter.ResidentExactly` | app/api/security.py:310-334 | a key has a bucket if and only if it was used and fewer than `max_keys` others were used since |
| `RateLimiter.RateBound` | app/api/security.py:310-330 | replaying any calls, whatever comes between and in whatever order the clock readings arrive, the cost admitted from one call on a key to an admitted one is at most capacity + rate * elapsed |
| `RateLimiter.NeverAboveRate` | app/api/security.py:310-330 | the bound for a limiter's own answers, between any call on a key since its bucket was made and any admitted one |
| `RateLimiter.DeniesOnlyTheExcess` | app/api/security.py:310-330 | a call is denied if and only if, since some call on the key in its bucket's life, this one included, what was granted and its own cost would exceed capacity + rate * elapsed |
| `RateLimiter.RetryAfterIsExact` | app/api/security.py:325-330 | after a denial the same cost is admitted later if and only if the rate is positive, the cost is within the capacity and the named wait has passed |
| `RateLimiter.SixtySecondsNeverEnough` | app/api/security.py:325-330 | at rate 0 a spent bucket names 60 seconds, after which, as after any wait, the call is refused again |
| `RateLimiter.HeaderCoversTheWait` | app/api/security.py:360-376 | the header is above the wait, by at most one second |
| `MemoryCache.Cache.Get` | app/cache/backends.py:146-162 | a live cached entry is returned and an expired one dropped; against an unbounded timed map a live key is only missing when at least `max_entries` other keys were touched since |
| `MemoryCache.Cache.Set` | app/cache/backends.py:164-175 | the entry is stored under its lifetime, `None` meaning the default and 0 immediate expiry; the cached keys are the `max_entries` most recently touched ones, so the least recently touched goes beyond the limit |
| `MemoryCache.Cache.Delete` | app/cache/backends.py:177-179 | exactly that key goes |
| `MemoryCache.Cache.Clear` | app/cache/backends.py:181-191 | exactly the keys that start with the namespace, a colon and the prefix go, and are counted |
| `MemoryCache.Cache.GetOrSet` | app/cache/backends.py:111-118 | a live value is returned and nothing stored; otherwise the computed value is returned and stored for its lifetime, `None` meaning the default; with values computed by a function of the key the cache is transparent |
| `MemoryCache.FirstIsOldest` | app/cache/backends.py:164-175 | all other cached keys were touched after the one evicted |
| `CircuitBreaker.Breaker.RecordFailure` | app/core/retry.py:191-195 | the failure counter is the current streak, and a failed half-open probe reopens the breaker at once |
| `CircuitBreaker.Breaker.RecordSuccess` | app/core/retry.py:187-189 | a success closes the breaker and ends the streak |
| `CircuitBreaker.Breaker.Allows` | app/core/retry.py:178-185 | reading the state moves an open breaker to half-open once its time has come |
| `CircuitBreaker.Breaker.Guard` | app/cache/backends.py:231-246 | a guarded action is refused exactly while the breaker is open and its time has not come; a success closes it, a failure counts and opens it at the threshold, and either way the caller gets the value or the default |
| `CircuitBreaker.FailingBackendRate` | app/core/retry.py:178-195 | sequential guarded uses of a backend that always fails attempt at most max(1, threshold) + T / reset_timeout actions over a time T |
| `CircuitBreaker.AttemptsExactly` | app/core/retry.py:178-195 | over any run of uses, of any outcome, one is attempted if and only if fewer attempts than the threshold have just failed in a row or the last of them ended at least `reset_timeout` ago |
| `CircuitBreaker.ClosedUntilTheThreshold` | app/core/retry.py:178-195 | until that many failures every use is attempted |
| `JobQueue.Job.Run` | app/workers/queue.py:172-220 | the retry loop brings a job to the end of its specified attempts, or an exception leaves it there |
| `JobQueue.FinishedAccounted` | app/workers/queue.py:179-208 | a failed job used max_retries + 1 attempts and slept backoff * (2^max_retries - 1); a job ends terminal if and only if max_retries is not negative and no attempt lets an exception out: no exit and no sleep that raises |
| `JobQueue.FinishedSucceeds` | app/workers/queue.py:179-220 | a job succeeds if and only if one of its attempts does after attempts that only raised and slept, with the result of the first that does |
| `JobQueue.NegativeRetries` | app/workers/queue.py:179-208 | with a negative max_retries no attempt is made and the job stays running |
| `JobQueue.NegativeBackoff` | app/workers/queue.py:199-204 | with a negative backoff the sleep after a first failure raises and the job stays retrying, whatever a second attempt would do |
| `JobQueue.SleepsFit` | app/workers/queue.py:199-204 | no sleep of a run raises if and only if no retry is made, or the backoff is not negative and the longest sleep, backoff * 2^(max_retries - 1), can be expressed |
| `JobQueue.ExitingHandler` | app/workers/queue.py:179-193 | a handler that raises something else than an Exception leaves the job running |
| `JobQueue.Queue.Submit` | app/workers/queue.py:151-170 | after shutdown and for an unknown name it raises and changes nothing; otherwise the job is tracked last, and jobs are dropped only when there are more than `max_history` |
| `JobQueue.Queue.Prune` | app/workers/queue.py:272-280 | the oldest terminal jobs are dropped, one per scan, as many as there are beyond the limit or as there are terminal ones; within the limit nothing is |
| `JobQueue.PrunedDropsOnlyTerminal` | app/workers/queue.py:272-280 | a prune alone drops only terminal jobs and ends within the limit or with none left |
| `JobQueue.PrunedIsLeft` | app/workers/queue.py:272-280 | the scans drop exactly the first terminal jobs of the list, as many as exceed the limit, and leave the rest in order |
| `JobProtocol.NextKeeps` | app/workers/queue.py:151-280 | every interleaved step of submit, prune, worker and cancel keeps the invariant |
| `JobSafety.TerminalIsForGood` | app/workers/queue.py:172-257 | in every interleaving a terminal job never changes again |
| `JobSafety.OutcomesAccounted` | app/workers/queue.py:172-257 | in every interleaving a cancelled job never ran and a failed one used all attempts and sleeps |
| `JobSafety.DoneIsTerminal` | app/workers/queue.py:179-220 | in every interleaving a job whose worker is done is terminal if and only if its max_retries is not negative and no exception left the worker |
| `JobSafety.EscapedExactly` | app/workers/queue.py:179-208 | an exception left the worker if and only if some attempt of the run exited, or failed before a sleep that raises |
| `JobSafety.OnlyTerminalAreEvicted` | app/workers/queue.py:272-280 | in every interleaving a job no longer tracked is terminal |
| `JobSafety.PruneEnds` | app/workers/queue.py:272-280 | when a prune ends above the limit, a tracked job is terminal if and only if an attempt or a cancellation made it so after the last scan had passed it |
| `JobSafety.QuietPruneLeavesNoneTerminal` | app/workers/queue.py:272-280 | when no job became terminal during the last scan, the queue is within the limit or every tracked job is non-terminal |
| `JobSafety.UndisturbedPrune` | app/workers/queue.py:272-280 | a prune that no other thread disturbs leaves exactly what the queue's own prune leaves |
| `JobSafety.NeverBelowTheLimit` | app/workers/queue.py:272-280 | in every interleaving a prune drops nothing once the queue is within its limit |
| `JobSafety.PruneCanMiss` | app/workers/queue.py:272-280 | a run in which a prune leaves a terminal job beyond the limit, for any limit |
| `BatchPipeline.Pipeline.Handle` | app/pipeline/orchestrator.py:347-443 | what each stage does to one line, counters, reasons, dead letters and deliveries together |
| `BatchPipeline.Pipeline.ReadLines` | app/pipeline/orchestrator.py:320-345 | the parse loop: which of the four endings it has and after how many lines, from the limit, the shutdown request and the rejection rate of the lines read so far, looked at every ten thousand |
| `BatchPipeline.Pipeline.Execute` | app/pipeline/orchestrator.py:217-262 | for any store and dead-letter queue: lines_read = records written by this run + duplicates + rejected, plus one exactly when the limit check ended the loop, so the counters add up if and only if the store started empty; the reason counts sum to the rejections if and only if something was rejected or no letter, earlier or of a kept duplicate, stands in; the events the deduplicator keeps are filed and published as the disk allows |
| `BatchPipeline.EachLineCounts` | app/pipeline/orchestrator.py:347-443 | each line is an event or one rejection, under the reason it fails for |
| `BatchPipeline.KeptDuplicateStandsIn` | app/pipeline/orchestrator.py:469-470 | one kept duplicate and no rejection: the reasons count one, the rejections none |
| `BatchPipeline.EarlierLetterStandsIn` | app/pipeline/orchestrator.py:469-470 | a clean run over a queue that holds a letter of an earlier run reports that letter |
| `PipelineResults.PipelineResult.RecordRejection` | app/models/results.py:135-138 | one more of that reason and one more rejection |
| `PipelineResults.PipelineResult.Merge` | app/models/results.py:140-157 | merging adds each counter and each reason, appends lists, joins verdicts and keeps the higher peak, even into itself |
| `PipelineResults.ProcessParallel` | app/pipeline/parallel.py:68-117 | results and crashes are folded in as workers complete and the sources are the paths; with one worker the sources are merged, and it raises if and only if a run crashed |
| `ParallelTotals.CountersAddUp` | app/models/results.py:140-157 | each counter and each reason of the combined report is the sum over the workers that finished |
| `ParallelTotals.ListsFollow` | app/pipeline/parallel.py:103-113 | sources, outputs, stages and errors follow one another in the order of completion, a crash adding its message |
| `ParallelTotals.VerdictAndPeak` | app/models/results.py:140-157 | the run succeeds if and only if every worker did, and its peak is the greatest of theirs |
| `PipelineResults.FoldKeepsBalance` | app/models/results.py:140-157 | over any workers, lines that were neither written, duplicates nor rejected add up exactly, and reason counts stay in step with rejections |
| `PipelineResults.CompletionOrderIrrelevant` | app/pipeline/parallel.py:103-113 | whatever order the workers complete in, counters, reasons, peak and verdict are the same and the lists hold the same items |

## Left out

- Regular expressions as such: the tokenizer is an explicit character scanner; parsers, masking, cleaning and endpoint templating are pattern tables.
- Letters beyond ASCII in identifiers, case mapping and digits; conversions of values to numbers and times are a parameter of the parser.
- What `!=`, `<` and `>` should mean on a starred value: only what they compile to is stated.
- DuckDB's execution, page fetching and result conversion: only the statement and its parameters are modelled.
- `Search.SearchMeansWhatItSays`: a text that spells one keyword in two ways, or that quotes in one way where the model quotes in the other; of any accepted text `Search.AcceptedIsBounded` says that its SQL has the truth of its tree.
- Several partitions of a topic, group rebalancing, and the live window of the stream processor.
- `StreamProcessor.Processor.Run`: the age of the buffer is a parameter.
- `ParquetStore.Store.Flush`: files are closed in any order, and a non-OSError is taken to come from closing a file, not from moving it.
- `ParquetStore.Store.Write`: partly written row groups inside a file of a failed write.
- Exactly-once storage: a failed write leaves open files that a later flush publishes, so only at-least-once is decided by the code.
- `Partitioning.PrunePartitions`: the listing of directories and its order are a parameter.
- `Partitioning.PruningHidesNothing`: key tuples that are no prefix of year, month, day, hour, and roots whose own path has such segments.
- `Detectors.DetectTrailing`, `Detectors.DetectEwma`: the type and the description of an anomaly, and the rounding of its score to four digits; the z-score and interquartile detectors are left out too.
- `RateLimiter.TokenBucketLimiter.Check`: a negative `max_keys`, which would raise; keys are any strings.
- The Redis cache beyond its guard, JSON coding, and key building.
- `MemoryCache.Cache.Get`: a cached `None` reads as a miss, as in the original.
- `CircuitBreaker.FailingBackendRate`: uses by several threads at once, all of which a half-open breaker lets through.
- `JobQueue.Queue.Submit`: the making of ids, which are the caller's; a job the pool refuses stays pending for ever in `JobProtocol`.
- `BatchPipeline.Pipeline.Execute`: what an aborted run has written, since events still batched then are neither written nor counted; a store that fails to write.
- `PipelineResults.ProcessParallel`: how the work is spread over processes; the number of workers is a parameter.
- Keyset pagination and exports, whose advertised "no skip, no repeat" the code does not guarantee in general.
- API routers, authentication, dashboard, command line, configuration, reports, ingestion over HTTP and from databases, and metadata storage.
