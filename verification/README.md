# A verified model of the perfmon agent and server

perfmon is a metrics agent and a metrics server. The agent collects gauges and counters on a ticker, posts them in
batches through a pool of workers, and may encrypt, sign and compress each post. The server undoes those layers, folds
a batch into two maps, and merges them into a store that lives either in memory, with a backup file at shutdown, or in
PostgreSQL. This project models the stateful parts of both programs in Dafny and proves what they keep.

`dafny verify dfyconfig.toml` checks everything.

## What is modelled

| file | what it models |
|---|---|
| `Pipeline.dfy` | the report pipeline as a transition system: any number of readers and workers, any channel capacity, phased shutdown |
| `Collector.dfy` | the nested fork-join of `Monitor` and `Stats` with both read-write locks and one step per metric set |
| `EndToEnd.dfy` | the two agent systems, the batch builder and the server's fold composed: how far `PollCount` grows |
| `Linearizability.dfy`, `Safe.dfy` | the in-memory repository: threads in steps of one name under the RWMutex, and the operations as methods over mutable maps |
| `Handlers.dfy`, `Conservation.dfy` | the update handlers, the batch fold, the agent's batch builder, and what a list of store calls adds up to |
| `Pgsql.dfy`, `PgHistory.dfy` | transactions with faults at every point, the retry policy and the executor over fault scripts, reads that start over; then histories in which other operations come between the attempts of each, beside the memory store |
| `Fw.dfy`, `Json.dfy`, `Splitter.dfy`, `Bufio.dfy`, `Scanning.dfy`, `ReadBack.dfy`, `Overwritten.dfy`, `Text.dfy` | the backup file: printer, framing, splitter, the scanner with its buffers, what two of its calls read back, and what becomes of a token that the second call writes over |
| `RoundTrip.dfy`, `Restarts.dfy` | when a backup gives the store back and what is lost otherwise, and any number of server lives over one file |
| `Envelope.dfy`, `Requests.dfy` | the request layers at both ends, with the middleware chain under every configuration and bodies that break; then what a client is told of a batch and what the store was asked |
| `GzipWriter.dfy`, `GzipPool.dfy` | the compressing response writer, and the writer pool under concurrent requests |
| `DecimalText.dfy` | the decimal text of counters and gauges |
| `Int64.dfy`, `Mondata.dfy`, `Counting.dfy`, `Wrappers.dfy` | wrap-around arithmetic, the exchanged records, totals over sequences, `Option` and `Result` |

Goroutines are transition systems: a state, the enabled actions of every goroutine, and runs over any schedule. Map
iteration picks keys nondeterministically. Objects that the source updates in place are classes whose methods are
proved against functions on values, and the laws are lemmas about those functions. int64 addition wraps in the fold and
in memory and is an error in PostgreSQL. Failures and cancellations are inputs, so every statement holds for each
pattern of them.

Taken as given, with laws written out where they are used: RSA-OAEP with a 2048-bit pair, AES-GCM, HMAC-SHA-256, gzip
and URL base64 are inverse pairs with the lengths the code relies on (`Crypto.Lawful`, `Codec.Lawful`; `LawsAreMet` and
`LawIsMet` show that these laws do not contradict each other), the JSON spelling of a finite float64 reads back as that
value, and a failed commit had no effect. Reads of a file return between one byte and what there is room for.
`SpellingsExist` shows that the first law about floats can be met. Nothing here says how hard the ciphers are to break.

## Where the code does not do what one would expect

These are proved as the code behaves, with the exact condition.

- The splitter reads one byte past a comma that ends its buffer. It panics if and only if some piece it is offered ends
  in a comma (`Splitter.ScanOfChunks`, and with the buffers of the scanner `Scanning.CallsMeaning`). A gauge name of 5000
  commas does it with full reads (`RoundTrip.CommaNameCrashes`).
- A backup restores if and only if no metric name contains `,{`, no read stops behind a comma, and the file fits
  (`RoundTrip.RoundTripIff`, with `RoundTrip.SeparatorInNameLost`). A file of gauges and counters fits if the first token, the gauges with a bracket and
  a comma, takes at most 2048 characters and the file fewer than 4096: the first token is a slice of the scanner's
  buffer, and in a longer file the second call copies the counters over it before it is parsed. All gauges are then
  lost without an error (`RoundTrip.LongGaugesLost`, `RoundTrip.LongNameLosesGauge`). A file of one kind fits if it is
  shorter than the scanner's limit of 65536, four characters more for counters alone.
- A restore reports an error exactly if neither token decodes and both are there or both are missing: a file without any
  backup in it is a success (`Fw.RestoreFromMeans`, `RoundTrip.GarbageIsAccepted`).
- A non-finite gauge makes the encoder fail after the file was truncated, so a shutdown then loses everything
  (`RoundTrip.ShutdownStartIff`, `RoundTrip.InfiniteGaugeLosesAll`).
- `Schedule` announces scheduled writes, but the ticker branch is commented out: only the shutdown write exists.
- `FormatGauge` trims zeros of the integer part too: 100 is printed as 1 and 0 as nothing. The text reads back exactly
  when the shortest decimal does not end in 0 (`DecimalText.GaugeRoundTripIff`, `DecimalText.HundredPrintsOne`).
- A cancelled or expired context is tried again if a statement reports it, but not if begin or commit does, since these
  wrap the error (`Pgsql.FaultRetriedIff`).
- Bulk reads from PostgreSQL keep the rows of failed attempts and never ask whether the row iteration ended in an
  error. `PgHistory.RetriedReadAmongCommits` says exactly when the result is the table. What saves them is that an
  iteration that ends early also fails the commit of its attempt: under that law of the driver
  (`PgHistory.EarlyEndFails`) the two back ends agree on every operation that did not fail
  (`PgHistory.BackendsAgreeAlways`); without it a success with rows missing would be the only way in which they can
  disagree (`PgHistory.BackendsAgree`, `PgHistory.SilentTruncation`).
- The decrypter does not return after its errors. It answers 500 for an undecryptable body and still calls the handler,
  with an empty body; and it answers 500 for a body that it cannot read to its end and still decrypts and hands on what
  it read (`Envelope.HandledAfterErrorIff`, with a witness of each). So a client can be told 500 of a batch that was
  applied in full (`Requests.AppliedUnder500Iff`, `Requests.BatchAppliedUnder500`), while a 200 can be trusted
  (`Requests.OkMeansApplied`). A body shorter than a key block makes the decrypter panic
  (`Envelope.UnencryptedPanicsIff`).
- The signature check ignores read errors: a body that breaks behind its last signed byte passes for a whole one
  (`Envelope.SignatureMendsBody`).
- The response to a request that neither accepts gzip nor sends JSON or HTML is left alone (`GzipWriter.PlainResponse`).
  Every other response body is a gzip stream, whatever its header announces: a handler that neither writes nor sets a
  status sends one without the header, and one that found or set another content encoding sends it under that name
  (`GzipWriter.Compressed`, `GzipWriter.ResponseDecompresses`, `GzipWriter.EncodingLeftAlone`).
- A batch with a missing value or delta under a non-empty name is a nil dereference, whatever else it holds
  (`Handlers.StatusAgreesWithState`).
- With no workers the agent's shutdown hangs exactly when more reports are outstanding than the channel holds, and
  otherwise returns without having posted any (`Pipeline.StuckIff`, `Pipeline.DeliveredAtReturn`).

## Model

| member | source | states |
|---|---|---|
| Pipeline.ReachableInv | internal/monclient/monclient.go:203-264 | in every reachable state of any schedule the wait groups count the live goroutines, the channel is a bounded queue, hands and completions are disjoint, and nothing was sent after `close` |
| Pipeline.ExactlyOnePlace | internal/monclient/monclient.go:203-264 | every spawned report is in exactly one of: its reader, the channel, one worker's hands, completed - and once there; receive order is a prefix of send order; a send on the closed channel is never enabled |
| Pipeline.TicksSpawn | internal/monclient/monclient.go:252-254 | in every run the readers are exactly as many as the ticks |
| Pipeline.PollingUntilCancel | internal/monclient/monclient.go:248-261 | polling ends with the cancellation, in every run, and with nothing else |
| Pipeline.CompletedWasRead | internal/monclient/monclient.go:214-236 | every completed report belongs to a tick, and its reader has copied the gauges and the counters, each once |
| Pipeline.DeliveredAtReturn | internal/monclient/monclient.go:248-261 | when `PollStatsBatch` returns, as many reports were completed as there were ticks, one for each and none twice, if there is a worker, and none otherwise |
| Pipeline.StuckIff | internal/monclient/monclient.go:252-261 | a cancelled run in which nothing can move any more has returned if and only if there are workers or the ticks are at most as many as the channel holds |
| Pipeline.NoDeadlock | internal/monclient/monclient.go:252-261 | with at least one worker a shutdown that has not returned always has an enabled step |
| Pipeline.EveryStepDecreases | internal/monclient/monclient.go:203-264 | every step but a tick strictly lowers a natural measure over readers, queue, workers and phase, and a tick raises it by seven |
| Pipeline.ShutdownBounded | internal/monclient/monclient.go:252-261 | any run of the shutdown, under any scheduler, has at most as many steps as the measure says |
| Pipeline.RunBounded | internal/monclient/monclient.go:203-264 | any run at all has at most eight steps for each tick, two for each worker, and three |
| Pipeline.ShutdownDelivers | internal/monclient/monclient.go:248-261 | any cancelled run with a worker in which nothing can move any more has returned, within that bound, with exactly one completed report for each tick |
| Pipeline.AnyTicksCanBeServed | internal/monclient/monclient.go:248-261 | for any number of ticks there is such a run |
| Collector.ReachableInv | internal/collector/collector.go:66-223 | over all schedules of ticks, jobs and report readers, both levels of wait groups, both locks, the job table and both maps stay consistent |
| Collector.WritersExcludeEachOther | internal/collector/collector.go:66-86 | a job inside its update shares its map with no reader and with no other job |
| Collector.NothingLeftAtReturn | internal/collector/collector.go:191-223 | when `Monitor` returns, every `Stats` goroutine and each of its jobs has finished and no job holds a lock |
| Collector.ReportsAreComplete | internal/collector/collector.go:119-189 | at all times `PollCount` is absent or 1 and is the only counter, and there are no gauges but those of the two jobs; from the end of the first `Stats` on all of them are there to report |
| Collector.GopsNamesAre | internal/collector/collector.go:119-134 | the gauges of the host are the two of its memory and one for each core, numbered in decimal from 1 |
| Collector.GaugesHoldLast | internal/collector/collector.go:47-49 | after any run each gauge holds its last measurement, whatever ran at the same time |
| Collector.TicksStart | internal/collector/collector.go:213-215 | in every run the rounds are exactly as many as the ticks |
| Collector.ReadersCounted | internal/collector/collector.go:22-36 | in every run a map is held for reading by as many report readers as have locked it and not unlocked it, and as long as there is one nobody writes |
| Collector.ReadersAdmitted | internal/collector/collector.go:22-36 | a report reader is kept out only while a job writes |
| Collector.EveryStepDecreases | internal/collector/collector.go:191-223 | after cancellation every step except the arrival of a reader lowers a natural measure, and an arrival raises it by one |
| Collector.NoDeadlock | internal/collector/collector.go:216-220 | until `Monitor` has returned, some goroutine other than a new reader can move |
| Collector.ShutdownBounded | internal/collector/collector.go:216-220 | the shutdown takes at most the measure plus twice the number of readers that still come |
| Collector.ShutdownCompletes | internal/collector/collector.go:208-223 | any cancelled run in which nothing but a new reader can move has returned, with as many finished rounds as there were ticks and, if there was one, all metrics |
| Collector.AnyTicksCanBeCollected | internal/collector/collector.go:208-223 | for any number of ticks there is such a run |
| EndToEnd.DeliveredCounter | internal/monclient/monclient.go:203-212 | one report changes the server's counters by adding 1 to `PollCount` if it carries it, and not at all otherwise |
| EndToEnd.PollCountGrows | internal/monserv/handlers/handlers.go:294-323 | over any sequence of genuine reports the server's `PollCount` grows by the number of reports carrying it, modulo 2^64, and no other counter changes |
| EndToEnd.EveryTickCounts | internal/monclient/monclient.go:238-264 | after any completed shutdown of the pipeline, and in whatever order the posts arrived, that growth is the number of ticks whose report carried `PollCount`; the number of ticks, if all did |
| Linearizability.EveryRunLinearizes | internal/repo/safe/safe.go:61-123 | for any threads and any interleaving of single-name steps: a writer excludes all other transactions; with no writer the log is the list of all updates begun, in the order of locking, and the map is their fold; a finished read saw exactly the state after some number of commits, all of a batch or none |
| Linearizability.LogIsBegun | internal/repo/safe/safe.go:61-91 | at every moment the log and the update under way are the updates that the threads began, in the order of locking |
| Linearizability.ReadTransaction | internal/repo/safe/safe.go:93-107 | a read transaction, whatever goes on beside it, is recorded with the names that it asked for and with what the map held for each when it got its lock |
| Linearizability.AlwaysMoves | internal/repo/safe/safe.go:61-91 | a transaction under way can always go on, and if there is none any thread can begin any |
| Linearizability.AnyLogIsPossible | internal/repo/safe/safe.go:109-123 | any list of updates is what some run commits |
| Linearizability.DataKept | internal/repo/safe/safe.go:41-59 | at every step the map is the committed fold plus what the one writer's loop has done, for any order of the keys |
| Linearizability.ReadsKept | internal/repo/safe/safe.go:93-107 | the answers of running readers agree with one committed state and those of finished readers with the state of their commit point |
| Linearizability.ReaderFreezes | internal/repo/safe/safe.go:93-107 | between a reader's lock and unlock no update commits and the map does not change, whatever the others do |
| Linearizability.RunRefines | internal/repo/safe/safe.go:109-123 | between any two moments of a run at which nobody holds the write lock, the map changes by exactly the updates unlocked in between, each at once, in that order |
| Linearizability.AtomicIsReplay | internal/repo/safe/safe.go:51-59 | a log of accumulating updates amounts to the same list of counter calls on an empty store |
| Linearizability.CountersConserve | internal/repo/safe/safe.go:51-59 | at rest, after any concurrent run, a counter is present exactly if some update that was begun named it and is the sum of all its deltas modulo 2^64 |
| Safe.MRepo.SetAll | internal/repo/safe/safe.go:41-49 | in any iteration order the map becomes the old map overridden by the batch |
| Safe.MRepo.SetAccumAll | internal/repo/safe/safe.go:51-59 | in any iteration order present keys grow by their delta, new keys start at it, and other keys stay |
| Safe.MRepo.SetAccum | internal/repo/safe/safe.go:33-39 | the same for one key |
| Safe.MemorySt.SetGaugeAll | internal/repo/memory/memory.go:84-93 | replaces the gauges named in the batch and leaves the counters alone |
| Safe.MemorySt.SetCounterAll | internal/repo/memory/memory.go:131-139 | accumulates the counters named in the batch with wrap-around and leaves the gauges alone |
| Safe.MemorySt.SetGauge | internal/repo/memory/memory.go:74-82 | a one-name batch of gauges |
| Safe.MemorySt.SetCounter | internal/repo/memory/memory.go:121-129 | a one-name batch of counters |
| Safe.MemorySt.GetGauge | internal/repo/memory/memory.go:47-60 | the value and presence of the gauge in the current contents |
| Safe.MemorySt.GetCounter | internal/repo/memory/memory.go:95-108 | the value and presence of the counter in the current contents |
| Conservation.UpdatesConserve | internal/repo/safe/safe.go:29-59 | after any list of store calls a counter exists exactly if some call named it and is the wrapped sum of its deltas; a gauge is its last write |
| Mondata.FiniteIff | internal/monserv/fw/fw.go:141-144 | the finite float64 are the bit patterns below that of the infinity, the sign left aside |
| Handlers.UpdateMetrics | internal/monserv/handlers/handlers.go:152-190 | a refused record gets its answer and reaches the store with nothing; an accepted one makes exactly one call, whose failure is a 500 |
| Handlers.UpdateIs | internal/monserv/handlers/handlers.go:152-190 | for every record and every text of a URL: an empty name answers 404, an unknown type or a text that does not parse 400, a missing value panics; any other update changes one name of one map, a gauge to the value and a counter by it with wrap-around, and nothing else |
| Handlers.UrlCounter | internal/monserv/handlers/handlers.go:174-182 | an update of a counter by the text of an int64 adds that number, and the text of any other integer answers 400 |
| Handlers.FoldRecords | internal/monserv/handlers/handlers.go:283-301 | the loop over the records computes the two maps that the batch amounts to, or meets a nil pointer |
| Handlers.FoldNoneIff | internal/monserv/handlers/handlers.go:286-301 | the fold meets a nil pointer if and only if some named record lacks the field of its type |
| Handlers.UpdateBatchHandler | internal/monserv/handlers/handlers.go:256-331 | for every request and every pattern of store failures, the answer and the calls that took effect |
| Handlers.StatusAgreesWithState | internal/monserv/handlers/handlers.go:256-329 | a panic exactly for a record that lacks its value; 400 exactly for a body that is no JSON or does not parse, or without a record that has a name and a known type; 500 exactly for a body that cannot be read or if a call fails; 200 otherwise. With 200 each non-empty map was applied once, with 400 and a panic nothing, with 500 nothing or exactly the gauges while the counters were still due |
| Handlers.MergeIsApplyEach | internal/monserv/handlers/handlers.go:283-323 | merging the folded maps into a store equals applying the records one by one, wrap-around included |
| Handlers.BatchEqualsSequence | internal/monserv/handlers/handlers.go:256-331 | a well-formed batch leaves the memory store as the single-record handler would, record by record; rejected records change nothing |
| Handlers.BatchConcat | internal/monserv/handlers/handlers.go:283-323 | a concatenated batch equals the two batches one after the other |
| Handlers.PermutationKeeps | internal/monserv/handlers/handlers.go:283-323 | any permutation of a batch that keeps the order of writes to each gauge leaves the same store |
| Handlers.EachCounter | internal/monserv/handlers/handlers.go:294-299 | record by record, a counter ends as the wrapped sum of its start and all its deltas |
| Handlers.EachGauge | internal/monserv/handlers/handlers.go:291-292 | record by record, a gauge ends as its last write |
| Handlers.BuildReqBatch | internal/monclient/monclient.go:91-119 | the records built are those of both maps, gauges first, each map in some order without repetition |
| Handlers.BatchShape | internal/monclient/monclient.go:91-119 | the agent's batch has one record for each metric, with its type, its name and its value and nothing else |
| Handlers.EncodeDecode | internal/monserv/handlers/handlers.go:283-301 | the server's fold of an agent batch is the agent's two maps, for every iteration order, exactly if no metric has an empty name (which alone would be dropped) |
| Handlers.ReportMerges | internal/monserv/handlers/handlers.go:303-323 | a posted report merges into the store as the two maps it was built from |
| Pgsql.ExecuteMeetsPolicy | internal/repo/pgsql/pgsql.go:68-103 | for any pattern of failures: at most N + 1 attempts, all but the last failed retryably, the result is that of the last attempt or of the cancelled wait, and n retries waited n * n seconds |
| Pgsql.WrappingAndRetry | internal/repo/pgsql/pgsql.go:44-66 | wrapping makes a context error final but never changes the verdict on a server error |
| Pgsql.RetryableIff | internal/repo/pgsql/pgsql.go:44-66 | an error is tried again exactly if it is one of the two context errors itself or holds, under any number of wrappings, the code of a serialization failure, a deadlock or one of the seven connection exceptions |
| Pgsql.FaultRetriedIff | internal/repo/pgsql/pgsql.go:84-102 | so an attempt is repeated for a context error at a statement, but not for one at begin or commit, where errors are wrapped; for such a code anywhere |
| Pgsql.GivesUpAfterFour | internal/repo/pgsql/pgsql.go:68-81 | four such failures end the execution after nine seconds |
| Pgsql.OthersAreFinal | internal/repo/pgsql/pgsql.go:44-66 | anything else ends it at once |
| Pgsql.SucceedsIff | internal/repo/pgsql/pgsql.go:70-103 | for any bound, an execution succeeds if and only if some attempt within the bound succeeds after retryable, uncut failures only |
| Pgsql.PgSQL.ExecuteTx | internal/repo/pgsql/pgsql.go:70-103 | for every script of faults: each attempt ends as its faults allow; success if and only if the batch can be stored and some attempt k within the bound meets no fault while each earlier one failed retryably and uncut; then k + 1 attempts, k * k seconds and one commit, and otherwise unchanged tables; in particular a storable batch is stored if its statements meet k such codes in a row, k at most three, after k + 1 attempts and k * k seconds |
| Pgsql.PgSQL.Attempt | internal/repo/pgsql/pgsql.go:84-102 | one attempt commits everything or changes nothing, and returns the error of what stopped it: begin or commit, wrapped, the faulty statement, or the row that cannot be stored |
| Pgsql.TryOnceIs | internal/repo/pgsql/pgsql.go:84-102 | whatever the order of the rows, an attempt at a storable batch performs it or ends in the error of its first fault, and one at any other batch fails |
| Pgsql.ScriptSucceedsIff | internal/repo/pgsql/pgsql.go:68-103 | over any script a storable batch succeeds if and only if some attempt comes through, after as many attempts and k * k seconds |
| Pgsql.RetriesThenSuccess | internal/repo/pgsql/pgsql.go:68-103 | k retryable failures within the bound and then a fault-free attempt give success after k + 1 attempts and k * k seconds |
| Pgsql.CodesAreRetried | internal/repo/pgsql/pgsql.go:58-81 | up to three attempts that each meet such a code at a statement are made up for |
| Pgsql.NameBound | internal/repo/pgsql/pgsql.go:220-256 | a name of 64 characters can be stored and a longer one cannot; a counter can grow up to the limits of int64 |
| Pgsql.PgSQL.CounterStatements | internal/repo/pgsql/pgsql.go:323-359 | the loop over the upserts, in any order, ends at the faulty statement, at the first row that cannot be stored, or with all rows in; without a fault it succeeds exactly if all names and sums fit, then amounts to the memory store's accumulation, and fails for good otherwise |
| Pgsql.PgSQL.GaugeStatements | internal/repo/pgsql/pgsql.go:220-256 | the same for the gauge upserts, which only bound the names |
| Pgsql.TransactionMatchesMemory | internal/repo/pgsql/pgsql.go:323-359 | a transaction body, rows in any order, equals the memory operation exactly if every row can be stored, and fails for good otherwise |
| Pgsql.GetOne | internal/repo/pgsql/pgsql.go:155-181 | whatever commits between the attempts, an answer is the row or its absence as the last attempt met it, given exactly when the retries end in success or in a missing row; an error is the one that ended the retries and stems from a fault of the connection or the server |
| Pgsql.GetAll | internal/repo/pgsql/pgsql.go:183-218 | the retry loop returns the rows of all attempts, later over earlier, and waits as the policy says |
| Pgsql.ScanRows | internal/repo/pgsql/pgsql.go:198-209 | the delivered rows, in any order, override what was gathered |
| Pgsql.RetriedReadIff | internal/repo/pgsql/pgsql.go:183-218 | the result is the last attempt's table if and only if each row it did not deliver had been gathered with its present value; in particular if it delivered all rows |
| PgHistory.WriteStepIff | internal/repo/pgsql/pgsql.go:242-256 | after any past, the executions of a write can end in exactly two ways: failed with unchanged tables, or storable and equal to the memory operation |
| PgHistory.NamesOnlyGrow | internal/repo/pgsql/pgsql.go:220-226 | over any history no table loses a name |
| PgHistory.RowStep | internal/repo/pgsql/pgsql.go:155-181 | a row getter of either table, with other operations between its attempts, fails or answers with the row as it is at its last attempt |
| PgHistory.StepFailsIff | internal/repo/pgsql/pgsql.go:84-102 | an operation fails exactly if its last attempt does: a write if the batch cannot be stored or a fault met it, a row getter if a fault met it before the row was found missing, a bulk read if any fault met it |
| PgHistory.RetriedReadAmongCommits | internal/repo/pgsql/pgsql.go:287-321 | a bulk read of either table that succeeds, whatever commits between its attempts, returns the table if and only if each row its last attempt was not delivered had been gathered with its present value; in particular if it was delivered all rows |
| PgHistory.TablesAgree | internal/repo/pgsql/pgsql.go:155-359 | at every point of every history, whatever fails, the tables equal the maps of a memory store that was given the operations that succeeded |
| PgHistory.BackendsAgree | internal/repo/memory/memory.go:47-139 | every operation that did not fail answers as that memory store does, if and only if it is not a bulk read with an incomplete result: writes and row getters always agree |
| PgHistory.SucceedsComplete | internal/repo/pgsql/pgsql.go:93-102 | if an early end of the rows always comes with a fault of that attempt, its commit at the latest, the last attempt of a bulk read that succeeds was delivered every row |
| PgHistory.BackendsAgreeAlways | internal/repo/memory/memory.go:47-139 | under that law of the driver every operation of every history that did not fail answers as the memory store does |
| PgHistory.SilentTruncation | internal/repo/pgsql/pgsql.go:198-211 | without that law: a one-step history in which a bulk read succeeds with an empty map over a table that is not empty |
| Fw.Backup.Write | internal/monserv/fw/fw.go:123-179 | succeeds exactly if the store is not empty and its gauges are finite, and then puts a backup of it at the start of the file; any error leaves the file as the truncation left it |
| Fw.Backup.ShutdownBackup | internal/monserv/fw/fw.go:199-208 | leaves a backup of a finite non-empty store and an empty file otherwise |
| Fw.Backup.RestorePrev | internal/monserv/fw/fw.go:50-117 | without the flag nothing happens; with it the store changes as the two tokens say, as they stand in the buffers after both calls of Scan, however the file is read, also when an error is reported |
| Fw.RestoreFromMeans | internal/monserv/fw/fw.go:85-117 | each token that decodes is taken over whatever the other is; an error is reported exactly if neither decodes and both are there or both are missing |
| Fw.Compose | internal/monserv/fw/fw.go:139-171 | the composed text frames encodings of both maps, in any key order; it is refused exactly for an empty store or a non-finite gauge |
| Fw.ScanTwice | internal/monserv/fw/fw.go:76-83 | two calls of Scan give two slices, trimmed when found and read when both calls are over, or meet the panic of the splitter |
| Bufio.Scan | internal/monserv/fw/fw.go:62-83 | the loop over shifting, growing, reading and splitting computes one call |
| Bufio.CallMeaning | internal/monserv/fw/fw.go:62-83 | whatever the reads return, a call panics if and only if a window that it offers ends in a comma and holds no separator, and otherwise finds the token of the rest of the file exactly if the largest buffer has room for it |
| Bufio.TokenMemory | internal/monserv/fw/fw.go:76-83 | during a later call an earlier token is either untouched or has its second byte covered by the second byte of the rest of the file; untouched if it takes at most half of the buffer and the rest fits behind it, and covered otherwise unless a separator ends the call early |
| Bufio.FirstTokenStays | internal/monserv/fw/fw.go:76-83 | over all growths of the first call, that condition amounts to a token of at most 2048 characters in a file of fewer than 4096 |
| Scanning.CallsRefineRun | internal/monserv/fw/fw.go:62-83 | all calls of Scan on a file shorter than the largest buffer, with its buffers and however it is read, do what the scan of the file in pieces does, cut where the reads stopped |
| Scanning.CallsMeaning | internal/monserv/fw/fw.go:62-83 | so they panic if and only if a read, or the file, ends behind a comma; otherwise their tokens do not depend on the reads and are together the file |
| ReadBack.TwoTokensRead | internal/monserv/fw/fw.go:76-83 | of a file with a separator whose first token the buffer has room for, the second token is that of the rest behind the first; the first one reads as it was found, or starts with the second character of that rest |
| ReadBack.TwoTokensPanic | internal/monserv/fw/fw.go:64-83 | if there is one separator, the two calls panic if and only if one of their reads stops behind a comma |
| ReadBack.OneTokenPanics | internal/monserv/fw/fw.go:64-83 | the same if there is none |
| Splitter.Split | internal/monserv/fw/fw.go:64-74 | the index loop returns what the first stopping comma dictates |
| Splitter.SplitMeaning | internal/monserv/fw/fw.go:64-74 | the split function cuts at the first `,{`, panics exactly if there is none and the data end in a comma, and otherwise takes all or asks for more |
| Splitter.CrashIff | internal/monserv/fw/fw.go:63-83 | from any position of a scan, it panics if and only if some later piece ends right after a comma |
| Splitter.ChunkInsensitive | internal/monserv/fw/fw.go:63-83 | a scan that does not panic delivers the tokens of the whole file however it was cut |
| Splitter.TokensConcat | internal/monserv/fw/fw.go:63-83 | those tokens concatenate to the file |
| Splitter.ScanOfChunks | internal/monserv/fw/fw.go:63-83 | for any file and any pieces: panic if and only if a piece ends in a comma, else the same tokens as for the whole file, which concatenate to it |
| Splitter.CutAtSeparatorCrashes | internal/monserv/fw/fw.go:66 | a short read that ends behind the separating comma of a well-formed file makes the scan panic |
| Json.Marshal | internal/monserv/fw/fw.go:141-150 | prints a map with its keys in some order, each once |
| Json.ParseEncoded | internal/monserv/fw/fw.go:93-107 | decoding undoes encoding for every map with arbitrary names, escapes included |
| Json.TruncatedRefused | internal/monserv/fw/fw.go:93-107 | no proper prefix of an encoding decodes to anything |
| Json.EncodedSep | internal/monserv/fw/fw.go:64-69 | an encoding contains `,{` if and only if one of its names does |
| Json.EncodedSafe | internal/monserv/fw/fw.go:141-150 | no encoding holds a control character, a line separator or a character special to HTML, whatever the names |
| Json.ControlRefused | internal/monserv/fw/fw.go:93-107 | a text with a control character anywhere is refused |
| Json.RepeatedName | internal/monserv/fw/fw.go:93-107 | of two members of one name the later one counts |
| RoundTrip.RoundTripIff | internal/monserv/fw/fw.go:50-179 | a written backup of finite gauges, however it is read, gives the store back if and only if no name contains `,{`, no read stops behind a comma, and the file fits into the scanner's buffers |
| RoundTrip.RestoreSucceedsIff | internal/monserv/fw/fw.go:50-117 | and for a store that holds anything the restore reports success with that store under this condition, and only then; the backup of an empty store is an error |
| RoundTrip.GarbageIsAccepted | internal/monserv/fw/fw.go:93-117 | a file that holds no backup is restored without an error and without effect |
| RoundTrip.ReadsBackIff | internal/monserv/fw/fw.go:76-83 | under the same condition, and only then, the two tokens are the two encodings |
| Overwritten.MixedMemory | internal/monserv/fw/fw.go:76-83 | after a later call the bytes of an earlier token are those of the rest of the file up to some point and its own beyond |
| Overwritten.NoBraceNames | internal/monserv/fw/fw.go:93-97 | a text made of the rest behind a separator inside a name and of what stood before it has, if it parses at all, no brace in any of its names |
| Overwritten.LaidOverLost | internal/monserv/fw/fw.go:93-97 | so gauges that were cut inside a name and then written over never parse to the gauges that were written |
| RoundTrip.CleanBoth | internal/monserv/fw/fw.go:76-107 | with clean names of both kinds, and no panic, the store comes back if and only if the file fits: gauges of at most 2048 characters in a file of fewer than 4096, or no gauges and counters that fill less than the largest buffer |
| RoundTrip.CleanGauges | internal/monserv/fw/fw.go:76-107 | without counters, if and only if the file is shorter than the largest buffer |
| RoundTrip.GaugesCut | internal/monserv/fw/fw.go:64-83 | a separator among the gauge names leaves a proper prefix of their encoding |
| RoundTrip.ShutdownStartIff | internal/monserv/fw/fw.go:182-211 | a store survives a shutdown and a start if and only if it is empty, or its gauges are finite and it meets that condition |
| RoundTrip.SmallRecoverable | internal/monserv/fw/fw.go:50-179 | every backup of clean names of at most 2048 characters is read back if a read returns what there is |
| RoundTrip.LongGaugesLost | internal/monserv/fw/fw.go:76-117 | gauges and counters with clean names in a file that does not fit but is shorter than the scanner's limit, read without a panic: all gauges are lost, and the restore reports success with the counters |
| RoundTrip.LongNameLosesGauge | internal/monserv/fw/fw.go:76-117 | for instance a gauge whose name has 3000 letters, beside one counter |
| RoundTrip.CommaNameCrashes | internal/monserv/fw/fw.go:66 | a gauge name of 5000 commas, with any counters: the first full read stops behind one of them and the restore panics |
| Restarts.AnyLives | internal/repo/repo.go:65-91 | every list of updates, life by life, is a possible history of the server and its file, however the files are read |
| Restarts.RestartsTransparent | internal/repo/repo.go:65-91 | over any number of lives of which all but the last end with a store that the next reads back, lives that store nothing included, the store is what one uninterrupted life would hold |
| Restarts.CleanUpdatesCarry | internal/repo/repo.go:65-91 | for that it is enough that the updates of all lives but the last are finite and clean, and that each file fits and is not read up to a comma |
| Restarts.ConservedAcrossRestarts | internal/repo/repo.go:65-91 | over any number of such lives a counter is the wrapped sum of all deltas ever applied and a gauge its last write ever |
| RoundTrip.SeparatorInNameLost | internal/monserv/fw/fw.go:64-69 | a counter named `,{` does not survive a shutdown and a start, however the file is read |
| RoundTrip.InfiniteGaugeLosesAll | internal/monserv/fw/fw.go:126-144 | an infinite gauge leaves an empty file, and with it the counters are lost too |
| Envelope.EncryptMsg | internal/ciphers/ciphers.go:61-93 | filling the key and nonce buffers and appending gives key block, nonce and sealed message in that order |
| Envelope.DecryptOfEncrypt | internal/ciphers/ciphers.go:95-126 | decryption takes the 256-byte block and the nonce apart again and returns the message, for a matching pair |
| Envelope.DecryptedIff | internal/ciphers/ciphers.go:95-126 | any message, also a forged one, decrypts exactly if it consists of a block that gives an AES key, a nonce and a text that this key opens, and to that text; one shorter than a block panics |
| Envelope.MonClient.Post | internal/monclient/monclient.go:121-163 | the request signs this payload only and leaves the hash reset |
| Envelope.MonClient.PostAll | internal/monclient/monclient.go:121-163 | over any sequence of posts by one worker each signature depends only on its own payload |
| Envelope.MountUpdates | internal/monserv/monserv.go:44-59 | under every configuration decompression comes before the signature check, this before decryption, and this before the compression of the response; each middleware is there exactly when it is configured, and once |
| Envelope.MountedChain | internal/monserv/monserv.go:44-59 | only one chain keeps those promises, namely the one of the results below |
| Envelope.SumCheck | internal/monserv/middlewares/middlewares.go:290-324 | reading the body through the tee in pieces of any size: it passes exactly without a signature or with the sum of all that could be read, and that is handed on, whether or not the read ended in an error; a signature that does not decode answers 500, any other 400 |
| Envelope.LayersComeOff | internal/monserv/middlewares/middlewares.go:250-355 | for every pair of configurations the server gunzips, settles the signature, and opens exactly the payload that the agent had signed and compressed |
| Envelope.EnvelopeRoundTrip | internal/monserv/monserv.go:44-59 | with matching encryption or none at both ends the handler receives the original message exactly if the signatures are not disputed; otherwise the answer is 400 |
| Envelope.MessageArrives | internal/monserv/middlewares/middlewares.go:250-355 | in particular with one shared signing key or a key at one end only |
| Envelope.EveryPostArrives | internal/monclient/monclient.go:121-163 | all posts of a worker reach the handler as they were posted |
| Envelope.ServeAny | internal/monserv/middlewares/middlewares.go:250-355 | for any request, also a forged one or one whose body breaks off: it is answered by the decompressor for its header or by the checker, or the decrypter gets exactly what could be decompressed |
| Envelope.SignatureDecides | internal/monserv/middlewares/middlewares.go:290-324 | at a server with a signing key any request whatever gets past the checker exactly if it has no signature or one that decodes to the sum of the bytes that could be decompressed; the answer is 500 to one that does not decode and 400 to any other |
| Envelope.HasGzipIff | internal/monserv/middlewares/middlewares.go:253 | a body is decompressed exactly if its encoding names gzip anywhere |
| Envelope.HandledAfterErrorIff | internal/monserv/middlewares/middlewares.go:335-355 | for any request, the handler runs after a 500 was answered exactly when the body gets as far as the decrypter and this refuses it, with an empty body then, or cannot read it to its end and still decrypts what was read, with the message then |
| Envelope.ShortMessageHandledAfterError | internal/ciphers/ciphers.go:95-120 | with any ciphers a plain request that holds a key block but no whole nonce is one of the first kind |
| Envelope.BrokenMessageHandledAfterError | internal/monserv/middlewares/middlewares.go:338-351 | with any lawful ciphers an unsigned message that was encrypted for the server, and whose stream breaks behind its last byte, is one of the second kind |
| Envelope.SignatureMendsBody | internal/monserv/middlewares/middlewares.go:307-317 | a body that breaks behind its last signed byte is handled as if it were whole |
| Envelope.UnencryptedPanicsIff | internal/ciphers/ciphers.go:95-99 | a decrypting server given plain reports panics if and only if the report is shorter than a key block and not rejected before |
| Requests.HandledAnswer | internal/monserv/handlers/handlers.go:256-331 | for any request that reaches the handler: 400 to what is no JSON or does not parse and 500 to what cannot be read, without a call; whatever would be answered, a 500 that went before stays |
| Requests.OkMeansApplied | internal/monserv/handlers/handlers.go:256-331 | a 200 for any request through all layers means that the handler got a whole body without an answer before, and that each non-empty map of its records was applied once |
| Requests.AppliedUnder500Iff | internal/monserv/middlewares/middlewares.go:335-355 | a batch is applied in full under a 500 exactly when a decrypting server could not read the body to its end and what it read decrypts to a batch that the handler applies |
| Requests.BatchAppliedUnder500 | internal/monserv/middlewares/middlewares.go:338-351 | if the store does not fail, any batch that holds something, encrypted for the server and unsigned in a stream that breaks behind its last byte, is one |
| GzipWriter.GzipResponseWriter.WriteHeader | internal/monserv/middlewares/middlewares.go:182-196 | the first status sets the encoding and drops the length before anything reaches the wire, unless an encoding is there; later ones pass through |
| GzipWriter.GzipResponseWriter.Write | internal/monserv/middlewares/middlewares.go:198-204 | announces before the first compressed byte |
| GzipWriter.GzipResponseWriter.Close | internal/monserv/middlewares/middlewares.go:206-211 | ends the stream on the wire and returns the writer to the pool, pointing at the discard sink |
| GzipWriter.Pool.Take | internal/monserv/middlewares/middlewares.go:153-169 | hands out a writer that points nowhere and is no longer pooled, from the pool or new |
| GzipWriter.Compressed | internal/monserv/middlewares/middlewares.go:226-248 | for any handler the response to a request that accepts gzip, or that sends JSON or HTML, is that of the compressing run, and any other that of the plain run; the pool stays sound, and is not touched by the latter |
| GzipWriter.RunKeeps | internal/monserv/middlewares/middlewares.go:182-204 | after any sequence of header changes, statuses and writes, with any header before, the wire holds the stream of the writes so far under the encoding that stood in the header when the status was settled |
| GzipWriter.ResponseDecompresses | internal/monserv/middlewares/middlewares.go:182-248 | for any handler and any header before: the first final status is sent with the encoding of that moment, and a body that the status allows decompresses to the concatenation of the writes, whatever is announced |
| GzipWriter.EncodingLeftAlone | internal/monserv/middlewares/middlewares.go:190-195 | a handler that leaves the encoding alone has gzip announced exactly if it wrote or set a status and no encoding stood there; one that stood there is announced over the gzip stream |
| GzipWriter.PlainResponse | internal/monserv/middlewares/middlewares.go:229-234 | a response that bypasses the compression has the first final status and the plain concatenation of the writes; if the handler leaves the encoding alone, none is announced but the one that stood there |
| GzipWriter.BypassIff | internal/monserv/middlewares/middlewares.go:229-234 | the compression is bypassed exactly if nowhere in the accepted encodings gzip is named and the request sends neither JSON nor HTML |
| GzipWriter.CompressionTransparent | internal/monserv/middlewares/middlewares.go:182-248 | behind the compressing writer every handler gets the status and the body, once decompressed, that it gets without, and the same header but for the encoding and the length; the very same header if an encoding stands there |
| GzipWriter.LengthDropped | internal/monserv/middlewares/middlewares.go:194-195 | where the writer announces gzip a length that stood there before is gone |
| GzipPool.RequestsAreIsolated | internal/monserv/middlewares/middlewares.go:153-211 | under any interleaving of requests a pooled writer points at the discard sink and has no user, no two requests share a writer, and no response carries bytes of another request |
| GzipPool.WritesComeOut | internal/monserv/middlewares/middlewares.go:198-211 | what a request writes before it closes its writer comes out on its response, whatever the others do |
| GzipPool.NobodyWaits | internal/monserv/middlewares/middlewares.go:153-211 | a request that is not done can always take its next step, with a pooled writer or a new one |
| DecimalText.ParseCounterOfFormat | internal/mondata/mondata.go:69-75 | parsing undoes formatting for every int64, the minimum included, and refuses the text of every other integer |
| DecimalText.ParseCounterIff | internal/mondata/mondata.go:69-75 | accepted are exactly digits, alone or after one sign, whose value is an int64 |
| DecimalText.FormatCounterOfParse | internal/mondata/mondata.go:69-75 | a parsed counter formats back to its text less plus sign and leading zeros |
| DecimalText.PlainIsExact | internal/mondata/mondata.go:43-49 | the untrimmed shortest text of a gauge parses to exactly its value |
| DecimalText.FormatGaugeIs | internal/mondata/mondata.go:47-49 | what trimming leaves: m for m * 10^k with k > 0, no digit for zero, the full text otherwise |
| DecimalText.GaugeRoundTripIff | internal/mondata/mondata.go:43-49 | a printed gauge reads back as the same value if and only if its shortest text does not end in 0 |
| DecimalText.HundredPrintsOne | internal/mondata/mondata.go:47-49 | the gauge 100 is printed as 1, which is another value |

## Left out

- Network, files, signals, real time and logging: ticks and cancellation are steps, the backup file is a text; `log.Fatal` paths are taken not to happen.
- The live maps that `GetAll` returns (internal/repo/safe/safe.go:25-27, internal/collector/collector.go:43-45): values are read at the moment of use, so aliasing, the data race and Go's abort on concurrent map access are not captured.
- The hash `m.h` shared by all workers without a lock: `Post` is one step of one worker.
- Fairness of `sync.RWMutex` and of the scheduler: shutdown is bounded for any scheduler, but readers of the collector may keep coming.
- Overflow of wait groups and of Go's `int`, and the panics of `GopsStats` when the host reports no memory data or fewer cores than it counted.
- Safe.MRepo.SetAccum: the operator that Go chooses for the type parameter is an argument; only int64 addition is used.
- Pipeline.ReachableInv: the two lock acquisitions of a reader never block there; the locks are in `Collector.dfy`.
- Bufio.Scan: the buffers are values in a list, a slice is a range of one of them; read errors of the backup file are not modelled.
- Scanning.CallsRefineRun: only for files shorter than the scanner's limit; beyond it `Bufio.CallMeaning` says what each call finds.
- Restarts.RestartsTransparent: a restore that panics is excluded by its condition; in the program it ends the server. The store is taken to be at rest when the shutdown backup reads it: the program starts that write and the HTTP shutdown at the same time (cmd/server/main.go:182-201), and an update that is acknowledged after the write has read the maps is lost.
- Json.ParseEncoded: white space, surrogate escapes, invalid UTF-8 and partial decoding of foreign files are not modelled; texts are sequences of characters, not bytes.
- DecimalText.PlainIsExact: exponents, hexadecimal, infinities, NaN and underscores of `strconv.ParseFloat` are not modelled, and finding the shortest decimal of a binary float is taken from the library.
- Pgsql.PgSQL.ExecuteTx: the method runs alone on its tables; other operations between its attempts are in `PgHistory.dfy`. A commit that fails is taken to have had no effect; a lost acknowledgement of a committed transaction would apply a batch twice.
- Pgsql.ExecuteMeetsPolicy: when the retries are used up the library returns an error of its own around the last one; here it is the last one.
- PgHistory.TablesAgree: a write takes effect at one point of the history, although its upserts run one by one under READ COMMITTED and other transactions may commit between two of them.
- Pgsql.PgSQL.GaugeStatements: the truncation of trailing spaces by VARCHAR and the refusal of NUL characters are not modelled; names are counted in characters.
- Envelope.LayersComeOff: what the agent sends arrives whole there; bodies that break are in `Envelope.ServeAny` and the rows after it. Key files are not modelled.
- Response signing (`SignWriter`): its hash is never fed, so there is no content to speak of.
- GzipWriter.ResponseDecompresses: net/http's check of a declared Content-Length, `Flush`, HEAD requests and write errors of the connection are not modelled.
- Getters over HTTP, the HTML page, routing, flags, the profiler, the linters, the unused `PollStats` loop and the HTTP client's own retries: only easy members would be added.
