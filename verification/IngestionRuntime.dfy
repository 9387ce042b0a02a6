/**
The ingestion worker's consume loop against a Kafka log, at the grain of its await points.

Any number of worker processes run at once. Rebalances, retries, rewinds, shutdowns and crashes strike
between any two steps, and a commit that timed out may still take effect at any later time. Nothing
here relies on a partition having only one owner.
*/
module IngestionRuntime {
  import opened Common

  type Partition = nat

  const MAX_RETRY_BUFFERED_MESSAGES: nat := 64

  /** A file command as the worker sees it; an invalid one fails parsing, scope or key checks. */
  datatype Command = Command(valid: bool, id: string, fingerprint: string)

  /** A fetched record with the assignment epoch it was received in. */
  datatype Record = Record(partition: Partition, offset: nat, epoch: nat)

  datatype Action = CommitAction | DlqAction | RetryAction

  datatype Stage =
    | Idle | Checking | Processing | Acting(action: Action) | Publishing | Published
    | Committing(landed: bool) | BackingOff | Stopped

  /**
  One worker process. `acked` is the offset per partition that the worker itself knows to be committed
  (read at assignment, raised by acknowledged commits); `seen` is the broker's write count it last
  agreed with. No step of the code reads these two.
  */
  datatype Worker = Worker(
    epoch: nat, assignment: set<Partition>, position: map<Partition, nat>,
    acked: map<Partition, nat>, seen: map<Partition, nat>,
    buffered: seq<Record>, inflight: Option<Record>, stage: Stage, shutdown: bool)

  /** The log, the committed offsets, commit requests on their way, and the durable outcomes. */
  datatype Sys = Sys(
    log: map<Partition, seq<Command>>, committed: map<Partition, nat>, writes: map<Partition, nat>,
    pending: set<(Partition, nat)>, receipts: map<string, string>, dlq: set<(Partition, nat)>,
    workers: map<nat, Worker>)

  function At(m: map<Partition, nat>, p: Partition): nat {
    if p in m then m[p] else 0
  }

  function LogEnd(sys: Sys, p: Partition): nat {
    if p in sys.log then |sys.log[p]| else 0
  }

  // ---------------------------------------------------------------- the worker's own functions

  predicate Owned(w: Worker, r: Record) {
    r.epoch == w.epoch && r.partition in w.assignment
  }

  function Retained(w: Worker, records: seq<Record>): seq<Record> {
    if records == [] then []
    else (if Owned(w, records[0]) then [records[0]] else []) + Retained(w, records[1..])
  }

  /** A lost record: drop it and every other record of a past assignment. */
  function DropUnowned(w: Worker): Worker {
    w.(buffered := Retained(w, w.buffered), inflight := None, stage := Idle)
  }

  /** Records polled while another is in flight: kept while there is room, else rewound by a seek. */
  function BufferOrRewind(w: Worker, p: Partition, seekOk: bool): Worker
    requires p in w.position
  {
    if |w.buffered| < MAX_RETRY_BUFFERED_MESSAGES then
      w.(buffered := w.buffered + [Record(p, w.position[p], w.epoch)], position := w.position[p := w.position[p] + 1])
    else if seekOk then w
    else w.(stage := Stopped)
  }

  // ---------------------------------------------------------------- steps

  /**
  How processing ends: rejected for good (bad source, unparsable file), a transient failure before or after
  the transaction committed, or a receipt decision. The environment decides, since the first look at the
  receipt, the source fetch and the transaction are separate moments that other workers may interleave with.
  */
  datatype Verdict = PermanentReject | Transient | TransientAfterCommit | Persists

  datatype Step =
    | Produce(p: Partition, command: Command)
    | PersistElsewhere(p: Partition, offset: nat)
    | LateCommitLands(p: Partition, next: nat)
    | Start(w: nat)
    | CrashWorker(w: nat)
    | Rebalance(w: nat, assignment: set<Partition>)
    | RequestShutdown(w: nat)
    | LoopTop(w: nat)
    | Receive(w: nat, p: Partition, seekOk: bool)
    | CheckOwned(w: nat)
    | ProcessingEnds(w: nat, verdict: Verdict)
    | Stop(w: nat)
    | Act(w: nat)
    | PublishEnds(w: nat, ok: bool, stored: bool)
    | CommitLands(w: nat)
    | CommitAcknowledged(w: nat)
    | CommitFails(w: nat)
    | BackoffElapses(w: nat)

  /** The receipt insert: the first fingerprint of a command id stays. */
  function WithReceipt(receipts: map<string, string>, c: Command): map<string, string> {
    if c.valid && c.id !in receipts then receipts[c.id := c.fingerprint] else receipts
  }

  function ActionFor(receipts: map<string, string>, c: Command, verdict: Verdict): Action {
    if !c.valid then DlqAction
    else match verdict
      case PermanentReject => DlqAction
      case Transient => RetryAction
      case TransientAfterCommit => RetryAction
      case Persists => if c.id in receipts && receipts[c.id] != c.fingerprint then DlqAction else CommitAction
  }

  function ReceiptsAfter(receipts: map<string, string>, c: Command, verdict: Verdict): map<string, string> {
    if verdict.TransientAfterCommit? || verdict.Persists? then WithReceipt(receipts, c) else receipts
  }

  function RecordAt(sys: Sys, p: Partition, offset: nat): Option<Command> {
    if offset < LogEnd(sys, p) then Some(sys.log[p][offset]) else None
  }

  /** Epoch up, and every assigned partition restarts at its committed offset. */
  function Rebalanced(sys: Sys, w: Worker, assignment: set<Partition>): Worker {
    if w.stage.Stopped? then w
    else
      w.(epoch := w.epoch + 1, assignment := assignment,
         position := map p | p in assignment :: At(sys.committed, p),
         acked := map p | p in assignment :: At(sys.committed, p),
         seen := map p | p in assignment :: At(sys.writes, p))
  }

  /** The top of the consume loop: stop on shutdown, else take the oldest buffered record if there is one. */
  function AtLoopTop(w: Worker): Worker {
    if !w.stage.Idle? then w
    else if w.shutdown then w.(stage := Stopped)
    else if w.buffered == [] then w
    else w.(inflight := Some(w.buffered[0]), buffered := w.buffered[1..], stage := Checking)
  }

  function Fetched(w: Worker, p: Partition): Worker
    requires p in w.position
  {
    w.(inflight := Some(Record(p, w.position[p], w.epoch)), position := w.position[p := w.position[p] + 1],
       stage := Checking)
  }

  function Received(sys: Sys, w: Worker, p: Partition, seekOk: bool): Worker {
    if p !in w.position || w.position[p] >= LogEnd(sys, p) then w
    else if w.stage.Idle? && w.buffered == [] then Fetched(w, p)
    else if w.stage.Processing? || w.stage.BackingOff? then BufferOrRewind(w, p, seekOk)
    else w
  }

  function Checked(w: Worker): Worker {
    if !w.stage.Checking? || w.inflight.None? then w
    else if Owned(w, w.inflight.value) then w.(stage := Processing)
    else DropUnowned(w)
  }

  /** After processing or after a publication: drop a lost record, back off, stop on shutdown, publish or commit. */
  function Acted(w: Worker): Worker {
    if w.inflight.None? || !(w.stage.Acting? || w.stage.Published?) then w
    else if w.stage.Acting? && !Owned(w, w.inflight.value) then DropUnowned(w)
    else if w.stage == Acting(RetryAction) then w.(stage := BackingOff)
    else if w.shutdown then w.(stage := Stopped)
    else if w.stage == Acting(DlqAction) then w.(stage := Publishing)
    else if !Owned(w, w.inflight.value) then DropUnowned(w)
    else w.(stage := Committing(false))
  }

  function Acknowledged(w: Worker): Worker {
    if w.stage != Committing(true) || w.inflight.None? then w
    else
      var r := w.inflight.value;
      w.(inflight := None, stage := Idle,
         acked := if Owned(w, r) && r.partition in w.acked then w.acked[r.partition := r.offset + 1] else w.acked)
  }

  /** A step of a worker that touches nothing but the worker. */
  function LocalStep(sys: Sys, w: Worker, step: Step): Worker {
    match step
    case Rebalance(_, assignment) => Rebalanced(sys, w, assignment)
    case RequestShutdown(_) => w.(shutdown := true)
    case LoopTop(_) => AtLoopTop(w)
    case Receive(_, p, seekOk) => Received(sys, w, p, seekOk)
    case CheckOwned(_) => Checked(w)
    case Stop(_) => if w.stage.Processing? || w.stage.BackingOff? then w.(stage := Stopped) else w
    case Act(_) => Acted(w)
    case CommitAcknowledged(_) => Acknowledged(w)
    case CommitFails(_) => if w.stage.Committing? then w.(stage := BackingOff) else w
    case BackoffElapses(_) => if w.stage.BackingOff? then w.(stage := Checking) else w
    case _ => w
  }

  /** A commit request leaves the worker when the loop decides to commit. */
  function PendingAfter(sys: Sys, before: Worker, after: Worker): set<(Partition, nat)> {
    if after.stage == Committing(false) && !before.stage.Committing? && after.inflight.Some?
    then sys.pending + {(after.inflight.value.partition, after.inflight.value.offset + 1)}
    else sys.pending
  }

  function SetWorker(sys: Sys, i: nat, w: Worker): Sys {
    sys.(workers := sys.workers[i := w])
  }

  function Write(sys: Sys, p: Partition, next: nat): Sys {
    sys.(committed := sys.committed[p := next], writes := sys.writes[p := At(sys.writes, p) + 1])
  }

  function Landed(sys: Sys, w: Worker): Worker
    requires w.inflight.Some?
  {
    var r := w.inflight.value;
    var agrees := Owned(w, r) && At(w.seen, r.partition) == At(sys.writes, r.partition);
    w.(stage := Committing(true), seen := if agrees then w.seen[r.partition := At(sys.writes, r.partition) + 1]
                                          else w.seen)
  }

  /** A worker step with an effect on the durable state. */
  function WorkerStep(sys: Sys, i: nat, step: Step): Sys
    requires i in sys.workers
  {
    var w := sys.workers[i];
    match step
    case ProcessingEnds(_, verdict) =>
      if !w.stage.Processing? || w.inflight.None? then sys
      else
        var c := RecordAt(sys, w.inflight.value.partition, w.inflight.value.offset);
        if c.None? then sys
        else SetWorker(sys.(receipts := ReceiptsAfter(sys.receipts, c.value, verdict)), i,
                       w.(stage := Acting(ActionFor(sys.receipts, c.value, verdict))))
    case PublishEnds(_, ok, stored) =>
      if !w.stage.Publishing? || w.inflight.None? then sys
      else
        var r := w.inflight.value;
        SetWorker(sys.(dlq := if ok || stored then sys.dlq + {(r.partition, r.offset)} else sys.dlq), i,
                  w.(stage := if ok then Published else BackingOff))
    case CommitLands(_) =>
      if w.stage != Committing(false) || w.inflight.None? then sys
      else SetWorker(Write(sys, w.inflight.value.partition, w.inflight.value.offset + 1), i, Landed(sys, w))
    case _ =>
      var w' := LocalStep(sys, w, step);
      SetWorker(sys.(pending := PendingAfter(sys, w, w')), i, w')
  }

  const FreshWorker := Worker(0, {}, map[], map[], map[], [], None, Idle, false)

  function Next(sys: Sys, step: Step): Sys {
    match step
    case Produce(p, command) => sys.(log := sys.log[p := (if p in sys.log then sys.log[p] else []) + [command]])
    case PersistElsewhere(p, offset) =>
      var c := RecordAt(sys, p, offset);
      if c.Some? then sys.(receipts := WithReceipt(sys.receipts, c.value)) else sys
    case LateCommitLands(p, next) => if (p, next) in sys.pending then Write(sys, p, next) else sys
    case Start(w) => if w in sys.workers then sys else SetWorker(sys, w, FreshWorker)
    case CrashWorker(w) => sys.(workers := sys.workers - {w})
    case _ => if step.w in sys.workers then WorkerStep(sys, step.w, step) else sys
  }

  const Empty := Sys(map[], map[], map[], {}, map[], {}, map[])

  function Run(steps: seq<Step>): Sys {
    if steps == [] then Empty else Next(Run(steps[..|steps| - 1]), steps[|steps| - 1])
  }
}
