# ECI, verified

ECI turns source repositories into a code graph, summaries and search indexes, and answers questions over them. This project
models the parts of it whose correctness is not obvious from reading one function, and proves what they promise. It is plain
Dafny 4.11; `dafny verify dfyconfig.toml` checks all of it.

The modules follow the system's components:

* **The generation fence.** `CodeGraph` holds the stored graph and its transactions, `GraphStore` the same transactions as the
  queries run them, `GenerationFence` the runs in which sink merges, batch jobs and readers interleave, `GdsJob` the batch job as
  it runs, with failures and cleanup, `Scoring` and `JobScores` what its scores are and mean, `LockOrder` the transactions
  lock by lock, and `LockedWrites` that their locks cover what they write. `Ordering` has the lock order (over
  `Lexicographic`), `Reachability`, `Discovery` and `ImpactTraversal` the two breadth-first searches.
* **The graph sink.** `SinkDelivery`: at-least-once delivery with a completion marker.
* **The ingestion worker.** `IngestionRuntime` has the runs of any number of workers against a Kafka log, `IngestionInvariant`
  what they keep, `IngestionProgress` what is decided about a record and that the log gets worked off, `IngestionLoop` and
  `IngestionConsume` the consumer and its loops as they run, `IngestionProcess` the processing of one record, `IngestionPersist`
  the transaction that makes delivery exactly-once, `IngestionTransactions` the same transactions statement by statement and at
  the same time; `IngestionRefinement` ties the transaction to the runs.
* **Retries.** `RetryDlq`, `EmbeddingWorker`, `EmbeddingProgress`, `EmbeddingLoop` and `EmbeddingConsume`: retry state in headers,
  dead letters, and the loop that throws its reader away after a failure.
* **Trees and lists.** `MerkleHash`, `MerkleForm` and `MerkleRange`, `Chunking` and `ChunkingRun`, `Lineage`, `Packing` and `PackingRun`, `Fusion` (both over
  `Sorting`), `CypherSplit`, `Encoding`.
* **Summaries and the agent.** `RaptorHierarchy`, `RaptorSummaries`, `RaptorSummarizer` and `RaptorPrivacy`; `Agent`,
  `AgentExplore` and `AgentPlan`.

Conventions. SHA-256 and the other digests are arbitrary functions; where a result needs them free of collisions it says so.
Floating-point numbers are reals. A database transaction is one step, except in `LockOrder` and `IngestionTransactions`, which
take it apart. Whatever the environment decides (which step comes next, what a query answers, whether a publication succeeds) is
an input, and results hold for all of it. Code that works by changing things is a class or a method with loops, proved equal to a
function of the old state; the laws are then proved of that function. What the function computes is in turn pinned by laws that do
not name it: stored columns, scores, decisions, copies and what a model is shown are stated over the inputs and the stored state.

Where the code does not do what its comments promise, the code is what is modelled:

* `Run` of the batch job says that its projections are always dropped. They are, except when a creating query takes effect and its
  answer is lost, or a drop fails: `GdsJob.GdsImpactJob.RunJob` says exactly what stays behind (tools/gds-impact/internal/gdsimpact/run.go:45-50,
  tools/gds-impact/internal/gdsimpact/project.go:95-117).
* The full-source section is said to be capped at `FullSourceTopK`. The cap is tested after each candidate, so it holds exactly under
  the condition of `Packing.CapHoldsExactly` (services/retrieval-engine/internal/packing/pack.go:185-195).
* A planned agent run is meant to end with its plan completed; `AgentPlan.PlannedRunCompletes` has the exact condition. With no
  affordable seed it ends as stabilized or out of budget instead (services/orchestrator/orchestrator/graph.py:94-95,147-150).
* The Merkle hash is said to ignore renamed locals that are declared with `:=` or `var`. The variables of a range clause are declared
  with `:=` and are not collected, so renaming one shows: `MerkleRange.RangeVariableShows` is that for
  `func F() { for x := range s { _ = x } }`. For which renamings the hash stays is `MerkleHash.RenamingLocalsKeepsHash`
  (services/ingestion/src/hashing.rs:9-12,95-106). That it ignores comments holds of every tree a parser gives.
* The hash is meant to keep all other identifiers. One that is spelled like a placeholder is taken for it:
  `MerkleForm.PlaceholderTextIsMistaken`; what the hash tells apart is `MerkleForm.HashTellsForms`
  (services/ingestion/src/hashing.rs:33-38,84).
* An ingestion command whose file was ingested before is meant to replace that file's chunks. Once one of these chunks has an
  embedding it cannot be deleted, so every later new command whose file still has that entity ends in a database error, for ever:
  `IngestionPersist.EmbeddedChunkBlocksItsFile`. When a command is written is `IngestionPersist.ValidFileIsWritten`
  (services/ingestion/src/persist.rs:463-466, contracts/sql/migrations/0004_code_embedding.up.sql:4).

## Model

| member | source | states |
|---|---|---|
| CodeGraph.MergeNodeKeepsFence | services/sink-graph/internal/consumer/cypher.go:97-114 | a node merge lowers no generation, and any partition whose generation it leaves alone keeps its whole graph |
| CodeGraph.MergeRelationKeepsFence | services/sink-graph/internal/consumer/cypher.go:150-170 | the same for an edge merge, over every partition and not only the two at its ends |
| CodeGraph.CaptureKeepsFence | tools/gds-impact/internal/gdsimpact/partition.go:10-14 | capturing the fence creates at most an empty record and changes no partition graph |
| CodeGraph.WriteBackKeepsFence | tools/gds-impact/internal/gdsimpact/writeback.go:13-33 | a write-back, fenced off or not, moves no generation and changes no partition graph |
| CodeGraph.MergeNodeBumpsExactlyOnChange | services/sink-graph/internal/consumer/cypher.go:85-111 | an existing partition touched by a node merge is bumped if and only if the merge changes the node |
| CodeGraph.MergeRelationBumpsExactlyOnChange | services/sink-graph/internal/consumer/cypher.go:152-167 | an existing partition touched by an edge merge is bumped if and only if the edge is new or its weight differs |
| CodeGraph.MergeNodeIdempotent | services/sink-graph/internal/consumer/cypher.go:85-114 | merging the same node message twice in a row is the same as once, generations included |
| CodeGraph.MergeRelationIdempotent | services/sink-graph/internal/consumer/cypher.go:132-137 | merging the same relation message twice in a row is the same as once, generations included |
| CodeGraph.WhitelistsReadTheNames | services/sink-graph/internal/consumer/cypher.go:13-43 | a text is read as a node or relation type if and only if it is that type's name |
| GraphStore.Neo4jGraph.LockCodeNode | services/sink-graph/internal/consumer/cypher.go:50-54 | the lock query creates a missing node and leaves an existing one as it is |
| GraphStore.Neo4jGraph.MergePartitions | services/sink-graph/internal/consumer/cypher.go:107-111 | one record after the other gives what touching all scopes at once specifies |
| GraphStore.Neo4jGraph.MergeCodeNode | services/sink-graph/internal/consumer/cypher.go:74-124 | lock, compare, bump and set leave exactly the merged graph: the label and every property of the message stored, the stamp kept, generations moved as promised, all else as before; a text that is no node type writes nothing |
| GraphStore.Neo4jGraph.MergeCodeRelation | services/sink-graph/internal/consumer/cypher.go:138-173 | the same for relations, endpoints created first: the edge has the weight of the message, or one if it has none, and nothing else changes |
| GraphStore.MergedNodeIsStored | services/sink-graph/internal/consumer/cypher.go:85-114 | after a node merge the node has the label, every property and the symbol id of the message and keeps its stamp; the two scopes' generations move if and only if it changed, and nothing else does |
| GraphStore.MergedEdgeIsStored | services/sink-graph/internal/consumer/cypher.go:138-170 | after an edge merge the edge has the weight of the message, one if it has none, missing ends exist without properties, and nothing else changes |
| GraphStore.Neo4jGraph.CapturePartitionGeneration | tools/gds-impact/internal/gdsimpact/partition.go:19-43 | creates the record if it is absent and returns the generation it then holds, or an error if that is negative |
| GraphStore.Neo4jGraph.WriteBackScores | tools/gds-impact/internal/gdsimpact/writeback.go:13-33 | writes every row, stamped with scope and generation, if all targets are in scope and the generation is the captured one, and otherwise nothing; in both cases all other properties stay |
| GraphStore.Neo4jGraph.FetchImpactScores | services/retrieval-engine/internal/rerank/rerank.go:107-153 | an id is in the answer if and only if it was asked for, its stored tenant is the caller's, its repository and ACL group are among the caller's, and its stamp names the node's own scope and current generation; the value is the stamped score |
| GenerationFence.RunKeepsInvariant | tools/gds-impact/internal/gdsimpact/run.go:26-87 | in every interleaving, while a captured or stamped generation is current, a job so far and every stored score are what the current graph gives |
| GenerationFence.AcceptedScoresAreCurrent | services/retrieval-engine/internal/rerank/rerank.go:118-134 | a score the reader accepts is one that a launched job computes, start to end, from the partition graph exactly as it stands at the read |
| GenerationFence.RunKeepsFence | services/sink-graph/internal/consumer/cypher.go:97-114 | between any two moments of a run generations only rise, and an unmoved generation means an unchanged partition graph |
| GenerationFence.EqualGenerationMeansStillness | tools/gds-impact/internal/gdsimpact/writeback.go:22-26 | a generation that is the same at both ends of a run means that the partition graph was the same at every moment in between |
| GenerationFence.CommittedWriteBackProvesStillness | tools/gds-impact/internal/gdsimpact/writeback.go:13-33 | a write-back that commits proves that no node and no edge of the partition changed since the job's capture, however many reads it made |
| GdsJob.GdsImpactJob.RunJob | tools/gds-impact/internal/gdsimpact/run.go:16-91 | with others at work before every query: a success, one without dependents included, returns the right scores by the stored graph as it stands at the end, and they stand in the graph under its current generation; without a fault a valid job succeeds if its partition's generation is at the end what it was at the start; the projection catalog keeps all foreign entries and exactly the leaked own ones |
| JobScores.JobScoresAreRight | tools/gds-impact/internal/gdsimpact/run.go:26-87 | a whole job gives one row to each node whose shortest chain of impacting arcs in the partition has length 1 to max_depth; its score is w_ppr times its normalized page rank plus w_prox over that length plus w_bc times its normalized betweenness, both over the reversed arcs among the entry and these nodes; its community is the one on the arcs as they are, and its kind that of the first arc |
| JobScores.AcceptedScoresAreRight | services/retrieval-engine/internal/rerank/rerank.go:118-134 | a score the reader accepts is the right one, in this sense, by the graph as it stands at the read |
| Scoring.MinMaxNormalize | tools/gds-impact/internal/gdsimpact/score.go:27-60 | the loops compute for each key its place between the least and the greatest value, and zero for all if these are equal |
| Scoring.NormalizedIsShare | tools/gds-impact/internal/gdsimpact/score.go:27-60 | a normalized value lies between zero and one, zero at the least and one at the greatest raw value, and in between in proportion |
| Scoring.NormalizedKeepsOrder | tools/gds-impact/internal/gdsimpact/score.go:27-60 | normalizing keeps the order of the values |
| Scoring.CombineScores | tools/gds-impact/internal/gdsimpact/score.go:65-90 | the loop gives exactly the found nodes a row, each combined from its own hop, its own normalized values and its own community |
| Discovery.TypeFoundIsFirst | tools/gds-impact/internal/gdsimpact/discover.go:22-38 | the arc type kept for a node is that of the first arc of a shortest chain, of several the first by name |
| GdsJob.UnmovedGenerationHolds | tools/gds-impact/internal/gdsimpact/writeback.go:18-26 | in every run, a scored job whose generation is still current finds the fence of its write-back in place |
| GdsJob.GdsImpactJob.CreateProjections | tools/gds-impact/internal/gdsimpact/project.go:68-120 | which projections exist, and which are reported for cleanup, after each way the two queries can end |
| GdsJob.GdsImpactJob.DropProjections | tools/gds-impact/internal/gdsimpact/project.go:128-140 | each drop is tried on its own and removes its entry unless it fails; nothing else goes |
| GdsJob.GdsImpactJob.DiscoverLevels | tools/gds-impact/internal/gdsimpact/discover.go:48-90 | each level is read from the graph as it is by then, and the search ends at the depth bound or an empty frontier |
| GdsJob.CommittedRowsAreCurrent | tools/gds-impact/internal/gdsimpact/writeback.go:13-33 | rows whose fence held are those of a whole job on the graph after the write |
| Ordering.ScopeRowsAreSortedAndComplete | services/sink-graph/internal/consumer/cypher.go:100-106 | the partition rows are the distinct non-null scopes among the two, in ascending order |
| Ordering.LessTrichotomy | services/sink-graph/internal/consumer/cypher.go:56-60 | ids are totally ordered |
| Ordering.BeforeTransitive | services/sink-graph/internal/consumer/cypher.go:45-49 | the order of all locks, nodes first and then partitions, is transitive |
| Ordering.BeforeTrichotomy | services/sink-graph/internal/consumer/cypher.go:45-49 | any two different locks are ordered one way and not the other |
| LockOrder.LockListAscends | services/sink-graph/internal/consumer/cypher.go:45-63 | every transaction, sink or write-back, asks for its locks in one ascending list |
| LockOrder.RunKeepsInvariant | services/sink-graph/internal/consumer/cypher.go:45-63 | in every run locks are exclusive, and what a transaction holds and still wants stays ascending and up to date |
| LockOrder.NoCyclicWait | services/sink-graph/internal/consumer/cypher.go:104-111 | no reachable state has a cyclic wait, of any length |
| LockOrder.SomeTransactionProceeds | tools/gds-impact/internal/gdsimpact/writeback.go:14-26 | while any transaction is unfinished, one of them can take its next step towards commit |
| LockOrder.ScopesReadStayCurrent | services/sink-graph/internal/consumer/cypher.go:82-84 | the owner scopes a transaction read under its node locks are still the committed ones when it finishes |
| LockOrder.EveryoneCanFinish | services/sink-graph/internal/consumer/consumer.go:279-297 | from every reachable state all running transactions can be brought to commit, none aborted |
| LockedWrites.WritesAreLocked | services/sink-graph/internal/consumer/cypher.go:45-63 | when a transaction finishes, every node, edge and partition record that its merge, write-back or capture changes, and the generation a write-back relies on, is under a lock that it alone holds |
| Reachability.ShellIsDistance | services/retrieval-engine/internal/impactanalysis/stream.go:36-94 | a node is first met at level d exactly when its shortest chain of arcs down to the entry has length d |
| Reachability.NextBall | services/retrieval-engine/internal/impactanalysis/stream.go:45-52 | expanding only the newest level is enough |
| Reachability.EmptyShellStops | services/retrieval-engine/internal/impactanalysis/stream.go:41-43 | once a level is empty, no deeper one is not |
| ImpactTraversal.RunBFS | services/retrieval-engine/internal/impactanalysis/stream.go:28-96 | every node once at its exact distance, with the type of the first arc of a shortest chain, and never more than max_nodes; if the query orders its rows, by distance and then by id with no dependent before them missing; not cut short if and only if the whole ball fits, and then all of it; after a failed query or callback, what was emitted is exact and lacks no node nearer than the level that failed |
| ImpactTraversal.RunLevel | services/retrieval-engine/internal/impactanalysis/stream.go:50-87 | one level emits its unseen rows in row order, each with the row's id and type, and stops just before the node that would exceed the cap, then always reports progress, unless a call of the callback fails, which ends it there |
| ImpactTraversal.RunLevels | services/retrieval-engine/internal/impactanalysis/stream.go:40-94 | the levels in order, ending at an empty frontier, at the depth bound, where the cap strikes, or at the first failure |
| ImpactTraversal.BallExceeds | services/retrieval-engine/internal/impactanalysis/stream.go:60-63 | a node left out at the cap shows that the ball does not fit the cap |
| Discovery.DiscoverSubgraph | tools/gds-impact/internal/gdsimpact/discover.go:40-90 | the uncapped loop computes the level-by-level search, and fails if and only if one of the queries the search needs fails |
| Discovery.DiscoveryIsExact | tools/gds-impact/internal/gdsimpact/discover.go:40-90 | the search finds exactly the nodes at distance 1 to max_depth, each at its exact distance and with its smallest last arc |
| Discovery.CappedMatchesUncapped | services/retrieval-engine/internal/impactanalysis/stream.go:28-96 | on the same arcs an uncut capped run and the uncapped discovery agree on every node, its distance and its arc type |
| SinkDelivery.SinkGraph.ProcessMessage | services/sink-graph/internal/consumer/consumer.go:76-114 | with other workers before every query, one message only takes steps of the run model: marked events and those marked in the meantime are duplicates, a merge commits before its marker, and a failure leaves the offset uncommitted; undisturbed, database, markers and answer are those of the specification |
| SinkDelivery.OneMessage | services/sink-graph/internal/consumer/consumer.go:76-114 | one undisturbed call: without an event id, with a marked one, or asking for nothing, it leaves everything as it was; otherwise the node or edge is stored as the message says unless a fault comes first, and then marked; only a fault is an error |
| SinkDelivery.MessageAsksFor | services/sink-graph/internal/consumer/consumer.go:173-277 | what a message asks for: a node message with valid labels and a known type, or a relation message with both ends and a known type, and nothing else |
| SinkDelivery.FirstEventIdDecides | services/sink-graph/internal/consumer/consumer.go:130-140 | the event id is the value of the first event_id header if that is not empty |
| SinkDelivery.SinkGraph.EventIdFromHeaders | services/sink-graph/internal/consumer/consumer.go:130-140 | the first event_id header decides, and an empty one counts as absent |
| SinkDelivery.ReapplyChangesNothing | services/sink-graph/internal/consumer/cypher.go:85-114 | redelivering a message right after its own merge changes nothing, generations included |
| SinkDelivery.SinkGraph.Mark | services/sink-graph/internal/consumer/consumer.go:105-163 | the marker is inserted once; the answer is Duplicate if it was already there, and an error may hide that it was written |
| SinkDelivery.RedeliveryConverges | services/sink-graph/internal/consumer/consumer.go:76-163 | whatever fault struck a first delivery, after a clean redelivery the state is that of one clean delivery |
| SinkDelivery.MarkersFollowMerges | services/sink-graph/internal/consumer/consumer.go:142-163 | in every interleaving with crashes each event id in processed_events has had its merge committed |
| IngestionInvariant.RunKeepsInvariant | services/ingestion/src/runtime.rs:332-562 | over every run of any number of workers, with rebalances, retries, rewinds, crashes and late commits: everything below a committed offset is done, queues are contiguous, buffers bounded |
| IngestionInvariant.CommittedRecordsAreDone | services/ingestion/src/runtime.rs:454-538 | every record below a partition's committed offset has its own durable receipt or a dead letter entry |
| IngestionInvariant.QueuesAreContiguous | services/ingestion/src/runtime.rs:649-706 | within one assignment the record in flight and the buffer are exactly the offsets from the acknowledged one up to the fetch position, and the buffer never exceeds 64 |
| IngestionInvariant.NothingIsSkipped | services/ingestion/src/runtime.rs:665-706 | no record below a worker's fetch position is dropped: it is done, in flight or buffered |
| IngestionInvariant.ShutdownStartsNothing | services/ingestion/src/runtime.rs:417-430 | once shutdown is latched a worker starts no publication and no commit |
| IngestionInvariant.OwnedIsHead | services/ingestion/src/runtime.rs:649-663 | a record in flight that is still owned is the oldest unacknowledged one of its partition, so acknowledging it skips nothing |
| IngestionProgress.ProcessingDecides | services/ingestion/src/runtime.rs:860-1010 | the decision about a record in every case, with what it does to the receipts, and that nothing else of the worker changes |
| IngestionProgress.RejectedIsDeadLettered | services/ingestion/src/runtime.rs:481-523 | from any reachable state, a worker with an owned invalid or rejected record in processing and no shutdown reaches, by its own steps alone, a dead letter for it and a committed offset past it |
| IngestionProgress.PersistedIsCommitted | services/ingestion/src/runtime.rs:454-480 | likewise a record that persists gets its receipt and a committed offset past it |
| IngestionProgress.TransientIsRetried | services/ingestion/src/runtime.rs:524-560 | a transient failure leads back to processing the same record, with nothing durable lost or moved |
| IngestionProgress.LogIsWorkedOff | services/ingestion/src/runtime.rs:334-562 | from any reachable state a free worker that is left alone brings every record of its partition to an outcome and commits to the end of the log |
| IngestionLoop.IngestionConsumer.RetainOwnedRecords | services/ingestion/src/runtime.rs:665-667 | keeps exactly the owned records, in order |
| IngestionLoop.IngestionConsumer.GiveUpUnowned | services/ingestion/src/runtime.rs:448-453 | drops the record in flight and all others of past assignments |
| IngestionLoop.IngestionConsumer.BufferOrRewindPolledMessage | services/ingestion/src/runtime.rs:673-706 | keeps a polled record while there is room, else rewinds to it, else ends the loop; the bound of 64 is kept |
| IngestionConsume.ConsumeLoop.Consume | services/ingestion/src/runtime.rs:334-562 | whatever the await points bring, the nested loops take only steps of the run model, so every record below a committed offset is done |
| IngestionConsume.ConsumeLoop.HandleRecord | services/ingestion/src/runtime.rs:375-560 | one record from ownership check to commit, loss, stop or the end of the script, as steps of the model |
| IngestionConsume.ConsumeLoop.AwaitProcessing | services/ingestion/src/runtime.rs:408-447 | records polled during processing are kept or rewound; shutdown or a failed rewind stops the loop before any publication or commit |
| IngestionConsume.ConsumeLoop.FinishProcessing | services/ingestion/src/runtime.rs:407-447 | when processing ends, an invalid or rejected record and one whose id another command has go to the dead letters, only a transient failure is retried, and everything else is committed |
| IngestionConsume.ConsumeLoop.ActOn | services/ingestion/src/runtime.rs:448-535 | a lost record is given up, a retry backs off, a rejection is published and then committed, a success is committed |
| IngestionConsume.ConsumeLoop.AwaitCommit | services/ingestion/src/runtime.rs:592-614 | a commit may land before it is answered and may be reported as failed although it landed |
| IngestionConsume.ConsumeLoop.PollDuringBackoff | services/ingestion/src/runtime.rs:734-794 | polling goes on through the delay, ending with it, at shutdown, or at a failed rewind |
| IngestionPersist.PostgresStore.PersistIngestionCommand | services/ingestion/src/persist.rs:251-320 | receipt, canonical writes and outbox commit together or not at all; an applied command leaves its nodes, relations and chunks column by column as parsed, with the command's scope, path, commit and time, and one message for each; a known id is a duplicate or a conflict and changes nothing |
| IngestionPersist.PostgresStore.PersistParsedFileInTransaction | services/ingestion/src/persist.rs:343-517 | the statements one after the other give the specified tables and counts, and fail exactly when the specification has none |
| IngestionPersist.ParsedCommandDataIsValid | services/ingestion/src/persist.rs:322-341 | true exactly for at least one node, all of this path, no repeated id, and chunks of these nodes without a repeated key |
| IngestionPersist.AppliedReplacesExactlyItsOwnRows | services/ingestion/src/persist.rs:343-517 | an applied command replaces exactly the relation and chunk rows of its own node ids and gives each node its row, leaves all other rows alone, and writes one outbox row for each row, in order |
| IngestionPersist.WrittenFileIsStored | services/ingestion/src/persist.rs:343-517 | column by column: each last node of an id has its row, each relation and each chunk its own, the outbox grows by one message for each in order with the same columns, and rows that are not the file's stay |
| IngestionPersist.AdmissibleFileIsReplaced | services/ingestion/src/persist.rs:343-517 | the file is written whole if and only if no row violates a constraint |
| IngestionPersist.ValidFileIsWritten | services/ingestion/src/persist.rs:322-517 | the file of a valid command is written if and only if its relations have a known type and stored ends, none of its stored chunks is embedded, and no chunk key repeats after scoping, which takes a collision of ids |
| IngestionPersist.EmbeddedChunkBlocksItsFile | contracts/sql/migrations/0004_code_embedding.up.sql:4 | an embedded chunk stays for ever, and after any run a valid new command for its file is a database error |
| IngestionPersist.DatabaseIsFoldOfFirstCommits | services/ingestion/src/persist.rs:251-320 | with any number of workers and redeliveries the tables are those of applying only the first commit of each id, in order, with no duplicate check at all |
| IngestionPersist.ReceiptsOnlyGrow | services/ingestion/src/persist.rs:166-198 | a receipt, once written, keeps its fingerprint |
| IngestionPersist.LaterDeliveriesChangeNothing | services/ingestion/src/persist.rs:251-320 | after a commit every later delivery of that id changes nothing and, unless it is invalid in itself, is a duplicate or a conflict by its fingerprint |
| IngestionTransactions.CommitsMeetNoReceipt | services/ingestion/src/persist.rs:262-320 | in every interleaving of transactions that lock, read, write, commit or break off, no commit violates the key of the receipts and a command is applied at most once, whatever ids share a lock key |
| IngestionTransactions.RunKeepsReceipts | services/ingestion/src/persist.rs:263-279 | advisory locks are exclusive, and what a transaction read of the receipts stays true until it ends |
| IngestionTransactions.TransactionsAreSerial | services/ingestion/src/persist.rs:251-320 | with relations that start in their own file, as the parsers give them, concurrent transactions leave what the same deliveries leave one at a time in the order of their ends |
| IngestionTransactions.AnswersAreSpecified | services/ingestion/src/persist.rs:270-320 | every answer of a concurrent transaction is the one the whole transaction gives at once on the database as it stands |
| IngestionTransactions.DisjointFileDoesNotMatter | services/ingestion/src/persist.rs:404-466 | a file written in between changes neither the rows another file drops and writes nor whether it may be written |
| IngestionTransactions.CrossingRelationsAreNotSerial | services/ingestion/src/persist.rs:404-414 | two files with relations that start at each other's nodes would not be serializable |
| IngestionProcess.Processor.ProcessMessage | services/ingestion/src/runtime.rs:860-1010 | with other workers at work before the look-up and before the transaction, processing one record is one step of the run model, on the receipts of one moment; only a dependency out of reach, a broken connection or rows the database refuses make it a retry, only an unusable source a rejection, and a commit means that its receipt is there |
| IngestionRefinement.TransactionRefinesStep | services/ingestion/src/runtime.rs:978-1009 | the transaction's receipts, and the action the worker takes from its outcome, are those of the run model's step |
| IngestionRefinement.CommitActionHasReceipt | services/ingestion/src/runtime.rs:991-999 | when the worker commits after a transaction, its record has its receipt |
| MerkleHash.LocalNames.CollectRec | services/ingestion/src/hashing.rs:89-126 | the recursion over the shared list and set collects the declared names in first-declaration order, once each |
| MerkleHash.LocalNames.RecordName | services/ingestion/src/hashing.rs:128-132 | a new name goes to the end, a known one changes nothing |
| MerkleHash.DeclaredRenamed | services/ingestion/src/hashing.rs:89-126 | renaming a tree renames its declarations in place, so first-declaration order maps through the renaming |
| MerkleHash.LocalsAreNumbered | services/ingestion/src/hashing.rs:75-87 | exactly the names declared in a body, outside comments, left of := or in a var, have a placeholder; they are LOCAL_0, LOCAL_1 and so on in the order of the first declarations, and no two names share one |
| MerkleHash.DeclaredIsExact | services/ingestion/src/hashing.rs:89-126 | a name is collected if and only if some node outside every comment declares it |
| MerkleHash.NodeKeepsHash | services/ingestion/src/hashing.rs:27-72 | under placeholders for the old and the new names, a renamed tree hashes like the original |
| MerkleHash.NodeShowsMoves | services/ingestion/src/hashing.rs:27-72 | under a prefix-free digest, a renamed tree that hashes like the original has every moved name replaced by a placeholder |
| MerkleHash.RenamingLocalsKeepsHash | services/ingestion/src/hashing.rs:27-87 | an injective renaming that covers a body's collected locals and avoids its other identifiers leaves the declaration's hash unchanged if and only if each name it moves is a collected local wherever it occurs outside comments; the if needs nothing of the digest, the only-if that no digest begins another |
| MerkleRange.RangeVariableShows | services/ingestion/src/hashing.rs:95-106 | the variable of a range clause is not collected, and renaming it changes the hash of its function under every such digest |
| MerkleHash.FlatBodyIsInForce | services/ingestion/src/hashing.rs:48-53 | in a body without nested declarations every occurrence of a local is in force, so the renaming law applies |
| MerkleHash.CommentsDoNotMatter | services/ingestion/src/hashing.rs:57-62 | two trees that are the same once their comments are cut have the same hash |
| MerkleHash.RemovingCommentsKeepsHash | services/ingestion/src/hashing.rs:31-62 | cutting the comments keeps the hash if and only if no node that held nothing else has text left; the only-if under a prefix-free digest |
| MerkleHash.ParsedTreesHaveNothingLeft | services/ingestion/src/hashing.rs:57-62 | a parser leaves such nodes no text, so cutting comments never changes the hash of a parsed tree |
| MerkleForm.HashTellsForms | services/ingestion/src/hashing.rs:27-87 | the form of a tree is what is left with comments cut and locals numbered: equal forms hash alike under any digest, and under a prefix-free one equal hashes mean equal forms if kinds can be told from what follows them and no identifier that is not numbered is spelled like a placeholder |
| MerkleForm.PlaceholderTextIsMistaken | services/ingestion/src/hashing.rs:33-38 | that last condition is needed: a use of the first local and a use of a global named LOCAL_0 give a function the same hash |
| RetryDlq.RetryTopicRoundTrip | libs/go/eci/resilience/resilience.go:44-61 | a copy read from the retry topic is processed under its original topic and goes back to the same retry topic |
| RetryDlq.ReadRetryCount | libs/go/eci/resilience/resilience.go:194-210 | the first count header decides; absent, malformed and negative all read as zero |
| RetryDlq.FirstCountDecides | libs/go/eci/resilience/resilience.go:194-210 | without a count header the count is zero, and otherwise that of the first one, if it is a number that is not negative |
| RetryDlq.AtoiIsExact | libs/go/eci/resilience/resilience.go:194-210 | a text is a number if and only if it is digits behind at most one sign, within 64 bits |
| RetryDlq.DefaultsAreSane | libs/go/eci/resilience/resilience.go:63-71 | a positive limit and base are kept, others become five retries and one second |
| RetryDlq.WithRetryCountHeader | libs/go/eci/resilience/resilience.go:213-226 | drops every old count header, keeps the others in order, appends the new count |
| RetryDlq.RetryCountRoundTrip | libs/go/eci/resilience/resilience.go:194-226 | the count written is the count read back, exactly one count header remains, and the other headers stay in order |
| RetryDlq.AtoiOfItoa | libs/go/eci/resilience/resilience.go:194-226 | decimal text of a 64-bit count parses back to it |
| RetryDlq.DelayIsBounded | libs/go/eci/resilience/resilience.go:142-190 | the 64-bit delay never exceeds base times two to the count, and equals it exactly when that fits |
| RetryDlq.TotalDelayIsBounded | libs/go/eci/resilience/resilience.go:142-190 | all delays up to the limit add up to at most base times (two to the limit, minus one) |
| EmbeddingWorker.RunKeepsInvariant | services/embedding-worker/main.go:93-136 | in every run, everything below a committed offset and below each reader's position, except the one record in flight, has a fate backed by what it claims |
| EmbeddingWorker.NothingIsLost | services/embedding-worker/internal/consumer/run.go:39-63 | every record of either topic is still to be fetched, handled, dead-lettered, or followed by its retry copy to one of these |
| EmbeddingWorker.NoCommitOvertakes | services/embedding-worker/main.go:122-134 | everything below a committed offset has its own fate, so no commit passes an uncommitted failure |
| EmbeddingWorker.RetriesAreBounded | libs/go/eci/resilience/resilience.go:142-190 | any chain of copies makes at most MaxRetries + 1 counted attempts and waits at most base times (two to MaxRetries, minus one) |
| EmbeddingWorker.ChainCounts | libs/go/eci/resilience/resilience.go:142-190 | along a chain of copies the count rises by one each time |
| EmbeddingWorker.CopiesAreMeant | libs/go/eci/resilience/resilience.go:142-190 | a retry copy and a dead letter carry the same value and other headers; the copy counts one more and goes to the retry topic, the letter keeps the count and goes to the dead letter topic of the topic the record was produced to |
| EmbeddingProgress.NextRecordIsFinished | services/embedding-worker/internal/consumer/run.go:39-63 | from any reachable state, in whichever way the next record ends, the worker's own steps publish what that way asks for and commit past the record |
| EmbeddingProgress.FailureStartsOver | services/embedding-worker/main.go:93-136 | after any failure the worker starts over at the committed offsets with a new reader, once its dependency is back, or stops if the old reader cannot be closed; the record gets no fate |
| EmbeddingProgress.LogIsHandled | services/embedding-worker/main.go:112-135 | with a service that works, a worker gets everything in its partition handled and committed |
| EmbeddingLoop.RetryDecorator.Process | libs/go/eci/resilience/resilience.go:142-190 | exactly what is published for each outcome, and when the offset must stay uncommitted |
| EmbeddingLoop.ConsumeLoop | services/embedding-worker/main.go:93-136 | a cycle runs only on an open, unfailed reader after a passed check; a failed reader is closed before another is opened; cancelled in a wait, in a cycle or between rounds, the loop leaves no reader open whose closing works |
| EmbeddingLoop.WaitUntilDependencyReady | services/embedding-worker/main.go:61-86 | checks until one passes or the context is cancelled, and does nothing to the reader |
| EmbeddingConsume.EmbeddingConsumer.FetchAndProcess | services/embedding-worker/internal/consumer/run.go:39-63 | as steps of the run model: without a failure the offset last committed belongs to a record with a fate; after any failure the reader is gone |
| EmbeddingConsume.EmbeddingConsumer.ProcessRecord | libs/go/eci/resilience/resilience.go:142-190 | the decorator's outcome as a step of the model: a verdict without failure gives the record its fate, and no verdict moves a committed offset |
| EmbeddingConsume.EmbeddingConsumer.Consume | services/embedding-worker/main.go:112-135 | whatever the cycles bring, the loop takes only steps of the run model, so everything below a committed offset has its own fate |
| RaptorHierarchy.PostorderIsExact | services/summarization/summarization/raptor.py:337-362 | the postorder exists exactly when no missing child and no level violation is in reach of the root, and then lists exactly what is in reach, children first, each once |
| RaptorHierarchy.Traversal.VisitNode | services/summarization/summarization/raptor.py:343-359 | the traversal with its visiting and visited sets computes that postorder, and its cycle check never fires |
| RaptorHierarchy.AuthorizedProjection | services/summarization/summarization/raptor.py:288-310 | the stack loop returns exactly the nodes reachable from the root through authorized nodes |
| RaptorSummaries.CompleteMeansAllAuthorized | services/summarization/summarization/raptor.py:202-206 | a summarized node is complete if and only if every node below it is authorized |
| RaptorSummaries.FinishedRunCoversTheView | services/summarization/summarization/raptor.py:185-254 | with any model, a finished run summarized exactly the view, hits plus misses equal its size, and no cached entry changed |
| RaptorSummaries.PlainIsMeant | services/summarization/summarization/raptor.py:207-251 | with a model that depends only on its cache key, the cache-free summary is what the key stands for |
| RaptorSummaries.CachedEqualsUncached | services/summarization/summarization/raptor.py:191-254 | with such a model and a cache of its answers, every run keeps the cache sound and fails only if the cache raised; one that succeeds has the summaries of a run without any cache, and the cache holds the view |
| RaptorSummaries.SecondRunOnlyHits | services/summarization/summarization/raptor.py:218-231 | with a cache that works, a run right after another is served from it alone, with the same summaries |
| RaptorSummaries.ViewDigestsIdentify | services/summarization/summarization/raptor.py:313-326 | without digest collisions two restricted views share a hash if and only if the node's hash and each child's id, visibility and hash agree |
| RaptorPrivacy.HiddenDoesNotMatter | services/summarization/summarization/raptor.py:163-270 | two requests that differ only in the sources of nodes with something unreadable below them, and in sources and hashes of nodes not on readable paths, get the same refusal or the same reply and leave the same cache |
| RaptorPrivacy.ModelSeesOnlyReadable | services/summarization/summarization/raptor.py:232-250 | two models that answer alike wherever a call shows only what the caller may read give the same runs: a node with something unreadable below it is shown without source and with only its readable children, in order |
| RaptorPrivacy.ReplyCoversTheReadable | services/summarization/summarization/raptor.py:185-270 | a reply names exactly the nodes on readable paths from the root |
| RaptorPrivacy.SummariesAreSourced | services/summarization/summarization/raptor.py:207-254 | no summary of a reply is blank or made up: it was cached, or is the model's answer to a call that shows only what the caller may read; and a run that fails has met what it reports |
| RaptorPrivacy.KeysTellApart | services/summarization/summarization/raptor.py:207-217 | two nodes share a cache key only under the same access scope and logic, and restricted views, without digest collisions, only with the same text, children, visibility and hashes |
| RaptorPrivacy.ScopeIsAccepted | services/summarization/summarization/raptor.py:97-130 | a scope is accepted if and only if all its labels are valid and neither list is empty or longer than 128 |
| RaptorPrivacy.ReadableIsInView | services/summarization/summarization/raptor.py:288-310 | the projection is what readable paths from the root lead to |
| RaptorSummarizer.RaptorSummarizer.Summarize | services/summarization/summarization/raptor.py:163-270 | the request's checks in order, and the answer and cache of the specified run, also when the cache or the model raises |
| RaptorSummarizer.RaptorSummarizer.SummarizeInOrder | services/summarization/summarization/raptor.py:185-261 | the loop over its working dictionaries computes the specified run |
| RaptorSummarizer.RaptorSummarizer.EffectiveViewHash | services/summarization/summarization/raptor.py:313-326 | the loop digests the version, the node's hash and, per child, its id, one byte for its visibility and its own hash if visible, each text behind its length |
| RaptorSummarizer.SizesTellDuplicates | services/summarization/summarization/raptor.py:172-174 | comparing the two sizes finds every repeated id |
| RaptorSummarizer.AcceptedRequestIsTransparent | services/summarization/summarization/raptor.py:163-270 | end to end: an accepted request fails only if the cache raised, and otherwise is answered for exactly the nodes reached through authorized ones, with cache-free summaries and matching counters |
| Agent.ReactStep | services/orchestrator/orchestrator/graph.py:161-236 | the step as it runs is the specified step, in both modes, dead ends included |
| Agent.PopUnvisited | services/orchestrator/orchestrator/graph.py:119-125 | the loop yields the last unvisited entry and the frontier below it |
| Agent.RunAgent | services/orchestrator/orchestrator/graph.py:238-274 | the loop stops, at the first step whose stop test fires, within max_steps |
| Agent.EveryRunStops | services/orchestrator/orchestrator/graph.py:85-96 | every run of either pattern stops within max_steps |
| Agent.BudgetsHold | services/orchestrator/orchestrator/graph.py:85-96 | steps never exceed their budget, tokens are used up by the last step at the earliest, and the reason a run gives for its end is true |
| Agent.StabilizedMeansClosed | services/orchestrator/orchestrator/graph.py:93-95 | an exploring run expands no node twice, and if it stops as stabilized its candidates are exactly the expanded nodes and contain every result of every call |
| AgentExplore.ExploringStep | services/orchestrator/orchestrator/graph.py:119-125 | every step of an exploring run to the last field: the first searches, each later one expands the candidate found last among those not expanded yet, and without one there is no call |
| AgentExplore.EveryAnswerIsTaken | services/orchestrator/orchestrator/graph.py:183-236 | in either mode a step takes in, in order, exactly the results that are neither candidates nor expanded, with their tokens and the number above the threshold, or makes no call and learns nothing |
| AgentPlan.PlannedRunCompletes | services/orchestrator/orchestrator/graph.py:128-151 | a planned run ends as plan_completed if and only if the search yields an affordable seed and the tokens last to the final call; it then takes one step per seed and action |
| AgentPlan.CallsAreTheGrid | services/orchestrator/orchestrator/graph.py:183-236 | the calls of such a run: the search, then each later action once on each distinct seed in order, reasoning only in the last |
| AgentPlan.SeedsAreAffordable | services/orchestrator/orchestrator/graph.py:137-151 | the seeds are as many of the first search's results as the steps left pay for at two each |
| AgentPlan.DistinctInOrder | services/orchestrator/orchestrator/graph.py:128-134 | the distinct seeds stand in the order of their first occurrences |
| AgentPlan.NextDistinctSeed | services/orchestrator/orchestrator/graph.py:128-134 | the target of a planned step is the next distinct seed its action has not been run on |
| AgentPlan.StopOnPlan | services/orchestrator/orchestrator/graph.py:85-96 | along the plan the stop test fires only for spent tokens, and at the end for the completed plan |
| Chunking.ChunksConserveContent | services/ingestion/src/chunking.rs:26-95 | chunks are disjoint and in source order, cover every non-whitespace character, are counted right, and their counts add up to the entity's |
| Chunking.OverBudgetIsALeaf | services/ingestion/src/chunking.rs:39-50 | a chunk over budget is a single leaf of the syntax tree |
| Chunking.SplitIsGreedy | services/ingestion/src/chunking.rs:52-81 | the children of a split node are dealt out once and in order, only oversized ones are split, runs keep to the budget, and no run followed by a run could have taken the next child |
| Chunking.ChunksFollowTheTree | services/ingestion/src/chunking.rs:35-81 | a node within budget or without children is one chunk, and the chunks of any other are, span by span, those of the groups of its children |
| Chunking.InkCounts | services/ingestion/src/chunking.rs:101-103 | the count of a text is the number of its characters that are not whitespace |
| Chunking.RunInk | services/ingestion/src/chunking.rs:68-77 | the summed counts of a run are the count of its whole span |
| ChunkingRun.Chunker.ChunkNode | services/ingestion/src/chunking.rs:35-81 | the recursion and its run accumulator push exactly the specified chunks after those already there |
| ChunkingRun.Chunker.ChunkEntity | services/ingestion/src/chunking.rs:26-33 | the whole list: each chunk is the text of its span with the number of its non-whitespace characters, indexed from zero in 32 bits |
| Lineage.Reconcile | services/ingestion/src/lineage.rs:124-155 | the loop over the claimed array yields the links of the greedy matching, in the order of the new entities |
| Lineage.GreedyIsMaximum | services/ingestion/src/lineage.rs:115-123 | per hash there are as many links as the smaller side has entities, and no one-to-one matching between equal hashes is larger |
| Lineage.LinksKeepOrder | services/ingestion/src/lineage.rs:124-155 | links follow the new entities, those of one hash also the old ones, and of the old entities of one hash the first ones are linked |
| CypherSplit.ParseStatements | tools/migrate-neo4j/internal/migrate/parser.go:13-51 | the scanner with its index, quote state and builder computes the specified split |
| CypherSplit.JoinIsReadBack | tools/migrate-neo4j/internal/migrate/parser.go:13-58 | any list of trimmed clean statements, all but the last with closed quotes, is read back from its join by semicolons |
| CypherSplit.SplittingIsAFixedPoint | tools/migrate-neo4j/internal/migrate/parser.go:7-12 | every statement is trimmed, non-empty and free of separators and comments outside quotes, only the last may leave a quote open, and splitting their join again changes nothing |
| CypherSplit.CommentIsALineBreak | tools/migrate-neo4j/internal/migrate/parser.go:36-40 | a comment outside quotes reads as the line break that ends it |
| CypherSplit.QuotedTextIsOneStatement | tools/migrate-neo4j/internal/migrate/parser.go:22-35 | a text between two single, double or back quotes that does not contain them is one statement, separators and comments included |
| CypherSplit.OtherCharactersDoNotQuote | tools/migrate-neo4j/internal/migrate/parser.go:22-35 | no other character keeps a separator from separating |
| CypherSplit.OneCharacter | tools/migrate-neo4j/internal/migrate/parser.go:53-58 | a single character is a statement unless it is the separator or Unicode white space |
| Packing.CandidatesAreTheBest | services/retrieval-engine/internal/packing/pack.go:45-60 | the candidates are by falling score, one per id, and each input is represented at no lower a score |
| Packing.UOrderPermutes | services/retrieval-engine/internal/packing/pack.go:62-81 | the U order is a permutation |
| Packing.UOrderFallsThenRises | services/retrieval-engine/internal/packing/pack.go:62-81 | in U order the scores fall up to the middle and rise after it |
| Packing.FitIsLongest | services/retrieval-engine/internal/packing/pack.go:150-163 | what is taken is the longest prefix within the quota |
| Packing.EligibleIsAPrefix | services/retrieval-engine/internal/packing/pack.go:185-195 | with a cap of at least one, full source considers the first so many of the eligible candidates |
| Packing.EligibleAreExact | services/retrieval-engine/internal/packing/pack.go:186-191 | eligible are exactly the targets themselves and the nodes above the threshold |
| Packing.CapHoldsExactly | services/retrieval-engine/internal/packing/pack.go:192-194 | the cap is kept if and only if it is at least one, or is zero and the best candidate is not eligible |
| Packing.ReorderKeepsAll | services/retrieval-engine/internal/packing/pack.go:227-242 | reordering loses and repeats nothing and follows the U order |
| Packing.PackKeepsItsPromises | services/retrieval-engine/internal/packing/pack.go:21-38 | the order is the deduplicated candidates in U shape, their scores falling up to the middle and rising after it; each section is a longest prefix of its fragments, rearranged along it; the total is the sections' sum |
| Packing.SectionStaysInBudget | services/retrieval-engine/internal/packing/pack.go:116-123 | relations and full source stay within quota, definitions within the larger of quota and their top fragment |
| Packing.PackedFragmentsAreMeant | services/retrieval-engine/internal/packing/pack.go:83-225 | every packed fragment names a ranked node, cites where it comes from and counts the tokens of its text and its citation; a definition is the name with the first source line, a relation the name with its whole hops, a full source that of a target or a node above the threshold; and quotas are whole tokens |
| Packing.BestIsDefined | services/retrieval-engine/internal/packing/pack.go:116-120 | whatever the quota, the best candidate has its definition in the context |
| Packing.DecimalTells | services/retrieval-engine/internal/packing/pack.go:92-97 | the line numbers of a citation read as one number each: only negative ones have a sign, and no two read the same |
| Sorting.SortIsStable | services/retrieval-engine/internal/packing/pack.go:46-48 | the sort permutes, orders by falling score, and keeps equal scores in their first order |
| PackingRun.DedupSortedByScoreDesc | services/retrieval-engine/internal/packing/pack.go:45-60 | the loop with its seen set computes the candidates |
| PackingRun.FillUOrder | services/retrieval-engine/internal/packing/pack.go:67-81 | filling from both ends computes the U order |
| PackingRun.ReorderByU | services/retrieval-engine/internal/packing/pack.go:227-242 | the map and the loop compute the reordering |
| PackingRun.PackRanked | services/retrieval-engine/internal/packing/pack.go:21-38 | the whole pack computes the specified context |
| Fusion.RrfFuser.MergeNode | services/retrieval-engine/internal/hybridsearch/fuse.go:15-61 | an unranked entry changes nothing; a ranked one creates or enriches its node and adds its contribution |
| Fusion.RrfFuser.Fuse | services/retrieval-engine/internal/hybridsearch/fuse.go:63-69 | graph list first, then vector list |
| Fusion.FusionIsClosedForm | services/retrieval-engine/internal/hybridsearch/fuse.go:12-70 | the keys are exactly the ranked ids, and every field of a fused node is determined by its own occurrences |
| Fusion.FusedScoreSumsBothLists | services/retrieval-engine/internal/hybridsearch/fuse.go:60-68 | a score is the sum of 1/(k + rank) over all ranked entries of the node in both lists |
| Fusion.NearestHopIsLeast | services/retrieval-engine/internal/hybridsearch/fuse.go:36-43 | the fused hop distance is the least one present |
| Fusion.FirstPresentIsFirst | services/retrieval-engine/internal/hybridsearch/fuse.go:44-56 | a fused vector score, rank or provenance is that of the first occurrence that has one |
| Fusion.FirstNameIsFirst | services/retrieval-engine/internal/hybridsearch/fuse.go:57-59 | a fused name is the first that is not empty |
| Fusion.ApplyTopologicalProximity | services/retrieval-engine/internal/hybridsearch/fuse.go:75-89 | every fused node once, its combined score its fused score plus beta over one plus its hop distance, if it has one, by falling score |
| Encoding.PrefixedIsReadBack | libs/go/eci/accessscope/accessscope.go:126-129 | a length-prefixed value can be read off the front of any bytes in only one way |
| Encoding.ComponentsAreReadBack | services/ingestion/src/worker.rs:262-269 | a run of prefixed components without a count still determines its components |
| Encoding.CountedIsReadBack | libs/go/eci/accessscope/accessscope.go:119-124 | a counted list in front of anything determines its values and the rest |
| Encoding.Normalize | libs/go/eci/accessscope/accessscope.go:61-78 | refuses an empty list, more than 128 values and any value that is empty, longer than 256 bytes or not proper text, and else lists the distinct values in ascending order |
| Encoding.Fingerprint | libs/go/eci/accessscope/accessscope.go:97-117 | the digest of version, tenant, repositories and groups, or nothing for an invalid scope |
| Encoding.ScopeBytesAreCanonical | libs/go/eci/accessscope/accessscope.go:97-129 | for valid scopes the bytes hashed are equal if and only if the tenant and the sets of repositories and groups are |
| Encoding.AscendingIsUnique | libs/go/eci/accessscope/accessscope.go:73-77 | an ascending list is determined by its elements |
| Encoding.CommandFingerprintsIdentify | services/ingestion/src/worker.rs:247-260 | without digest collisions two commands share a fingerprint if and only if all their parts agree |
| Encoding.ScopedNodeIdsIdentify | services/ingestion/src/persist.rs:76-88 | without digest collisions scoped node ids are equal if and only if tenant, repository and parser id are |
| Encoding.DigestComponents | services/ingestion/src/worker.rs:262-269 | the loop digests each component behind its 64-bit length |

## Left out

- MerkleHash.RenamingLocalsKeepsHash: renaming is by text, of every identifier leaf of the body with that text; scoping and shadowing are not modelled.
- IngestionTransactions.TransactionsAreSerial: the row writes of a transaction are one step, after which its rows are locked to its end; deadlocks and timeouts are broken-off transactions.
- Fusion.RrfFuser.Fuse: does not model an infinite score; a rank with k + rank equal to zero is ruled out, and so is a hop distance of minus one in the ranking.
- EmbeddingWorker.NothingIsLost: holds of the embedding worker only; the other sinks keep their reader after an error and no such result is claimed for them.
- Drivers, networks, TLS, processes, configuration, metrics, traces, logs and clocks.
- The graph algorithms (page rank, betweenness, communities), the embedder, the reranker and the language model: arbitrary functions or inputs.
- `rerankCore`: its boosts and sorting are arithmetic on inputs; only the fenced reader it relies on is modelled.
- Null-component scopes: a node's owner is a whole scope or none, so a node with only some of tenant, repository and group set is not modelled.
- Ingestion: receiving a record and stamping it with the epoch is one step, and so is a seek; pausing and resuming, backoff lengths and health flags are not modelled.
- Ingestion: row ids and the time of a transaction are inputs; that a random row id is free is not checked.
- Command parsing, path checks, message keys and source fetching: a record parses to a command or not, its key matches or not, and its source is refused, out of reach or there.
- ImpactTraversal.RunBFS: a node's domain and provenance are not modelled, and neither are the filters of the level query; what a query returns is an input that is only asked for the dependents and their arc types.
- The entities and edges that the code never deletes when they leave a file, and any claim that the latest version of a file wins.
- Tree-sitter and the extraction of nodes and relations from source text.
- Chunking and the Cypher splitter work on characters; UTF-8 decoding and its errors are not modelled, and chunk spans lie on character boundaries.
- Syntax trees have only whitespace between siblings and between a node's edge and its children, as a parser without skipped text gives.
- Agent: a tool or reasoner that raises ends the run and is not modelled; pairs of action and node stand for their text joined by a colon, which no action contains.
- Summaries: a text whose bytes are too many for a four-byte length is not refused but wraps.
- Packing: text lengths count one byte per character; hop distances are printed truncated, in decimal.
- The random suffix of the batch job's projection names: the names are inputs, not yet in the catalog.
- Floating-point rounding, and jitter.
