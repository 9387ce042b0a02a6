/** What every run of the ingestion workers keeps, and what that means for the records of the log. */
module IngestionInvariant {
  import opened Common
  import opened IngestionRuntime

  /** A record with a durable outcome: its own receipt, or an entry in the dead letter topic. */
  predicate Done(sys: Sys, p: Partition, offset: nat) {
    || (p, offset) in sys.dlq
    || (RecordAt(sys, p, offset).Some? && var c := RecordAt(sys, p, offset).value;
        c.valid && c.id in sys.receipts && sys.receipts[c.id] == c.fingerprint)
  }

  ghost predicate AllDone(sys: Sys, p: Partition, next: nat) {
    next <= LogEnd(sys, p) && forall o: nat :: o < next ==> Done(sys, p, o)
  }

  /** The offsets of one partition among the records of the current assignment. */
  function Offsets(records: seq<Record>, p: Partition, epoch: nat): seq<nat> {
    if records == [] then []
    else (if records[0].partition == p && records[0].epoch == epoch then [records[0].offset] else [])
         + Offsets(records[1..], p, epoch)
  }

  /** In flight first, then the buffer: everything of `p` received in this assignment and not yet finished. */
  function Unfinished(w: Worker, p: Partition): seq<nat> {
    Offsets(if w.inflight.Some? then [w.inflight.value] + w.buffered else w.buffered, p, w.epoch)
  }

  function Range(from: nat, to: nat): seq<nat>
    requires from <= to
  {
    seq(to - from, i requires 0 <= i < to - from => from + i)
  }

  /** The unfinished records are exactly those from the acknowledged offset up to the fetch position. */
  predicate Contiguous(w: Worker, p: Partition) {
    && p in w.position && p in w.acked && w.acked[p] <= w.position[p]
    && Unfinished(w, p) == Range(w.acked[p], w.position[p])
  }

  predicate InLog(sys: Sys, w: Worker, r: Record) {
    && r.offset < LogEnd(sys, r.partition)
    && r.epoch <= w.epoch && (r.epoch == w.epoch ==> r.partition in w.assignment)
  }

  /** While nobody else moved the committed offset, it is the head of the queue, or one past the record in flight. */
  predicate CommittedNear(sys: Sys, w: Worker, p: Partition) {
    p in w.acked && (At(w.seen, p) == At(sys.writes, p) ==>
      || At(sys.committed, p) == w.acked[p]
      || (At(sys.committed, p) == w.acked[p] + 1 && w.inflight == Some(Record(p, w.acked[p], w.epoch))))
  }

  predicate Busy(w: Worker) {
    !w.stage.Idle? && !w.stage.Checking? && !w.stage.Stopped?
  }

  /** A landed but unacknowledged commit of an owned record is what the broker holds, unless somebody wrote since. */
  predicate LandedAgrees(sys: Sys, w: Worker) {
    w.stage == Committing(true) && w.inflight.Some? && Owned(w, w.inflight.value)
    && At(w.seen, w.inflight.value.partition) == At(sys.writes, w.inflight.value.partition)
    ==> At(sys.committed, w.inflight.value.partition) == w.inflight.value.offset + 1
  }

  ghost predicate PartitionOk(sys: Sys, w: Worker, p: Partition) {
    && Contiguous(w, p) && AllDone(sys, p, w.acked[p]) && w.position[p] <= LogEnd(sys, p)
    && At(w.seen, p) <= At(sys.writes, p) && CommittedNear(sys, w, p)
  }

  ghost predicate RecordsOk(sys: Sys, w: Worker) {
    && |w.buffered| <= MAX_RETRY_BUFFERED_MESSAGES
    && (w.stage.Idle? ==> w.inflight.None?)
    && (Busy(w) ==> w.inflight.Some?)
    && (forall r :: r in w.buffered ==> InLog(sys, w, r))
    && (w.inflight.Some? ==> InLog(sys, w, w.inflight.value))
  }

  /** What holds of the record in flight once its ownership was checked, and once its outcome is durable. */
  ghost predicate InflightOk(sys: Sys, w: Worker)
    requires Busy(w) ==> w.inflight.Some?
  {
    && (Busy(w) ==> AllDone(sys, w.inflight.value.partition, w.inflight.value.offset))
    && (w.stage == Acting(CommitAction) || w.stage.Published? || w.stage.Committing? ==>
          Done(sys, w.inflight.value.partition, w.inflight.value.offset))
    && LandedAgrees(sys, w)
  }

  ghost predicate WorkerOk(sys: Sys, w: Worker) {
    && w.position.Keys == w.acked.Keys == w.seen.Keys == w.assignment
    && RecordsOk(sys, w) && InflightOk(sys, w)
    && forall p :: p in w.assignment ==> PartitionOk(sys, w, p)
  }

  ghost predicate Invariant(sys: Sys) {
    && (forall p :: p in sys.committed ==> AllDone(sys, p, sys.committed[p]))
    && (forall c :: c in sys.pending ==> AllDone(sys, c.0, c.1))
    && (forall i :: i in sys.workers ==> WorkerOk(sys, sys.workers[i]))
  }

  // ---------------------------------------------------------------- lists of offsets

  lemma {:induction false} OffsetsAppend(records: seq<Record>, r: Record, p: Partition, epoch: nat)
    ensures Offsets(records + [r], p, epoch) ==
            Offsets(records, p, epoch) + (if r.partition == p && r.epoch == epoch then [r.offset] else [])
  {
    if records != [] {
      assert (records + [r])[1..] == records[1..] + [r];
      OffsetsAppend(records[1..], r, p, epoch);
    }
  }

  lemma {:induction false} StaleOffsets(records: seq<Record>, p: Partition, epoch: nat)
    requires forall r :: r in records ==> r.epoch < epoch
    ensures Offsets(records, p, epoch) == []
  {
    if records != [] { StaleOffsets(records[1..], p, epoch); }
  }

  lemma {:induction false} RetainedKeepsCurrent(sys: Sys, w: Worker, records: seq<Record>, p: Partition)
    requires forall r :: r in records ==> InLog(sys, w, r)
    ensures Offsets(Retained(w, records), p, w.epoch) == Offsets(records, p, w.epoch)
    ensures |Retained(w, records)| <= |records|
    ensures forall r :: r in Retained(w, records) ==> r in records && Owned(w, r)
  {
    if records != [] {
      RetainedKeepsCurrent(sys, w, records[1..], p);
      assert records[0] in records && InLog(sys, w, records[0]);
      var rest := Retained(w, records[1..]);
      assert ([records[0]] + rest)[1..] == rest && [] + rest == rest;
    }
  }

  // ---------------------------------------------------------------- durable outcomes only accumulate

  /** Logs and dead letters only grow; a receipt never changes. */
  ghost predicate Accumulates(before: Sys, after: Sys) {
    && (forall p :: p in before.log ==> p in after.log && before.log[p] <= after.log[p])
    && (forall id :: id in before.receipts ==> id in after.receipts && after.receipts[id] == before.receipts[id])
    && before.dlq <= after.dlq
  }

  /** A committed offset stays, or the partition's write count goes up. */
  ghost predicate CountsWrites(before: Sys, after: Sys) {
    forall p: Partition ::
      || (At(after.committed, p) == At(before.committed, p) && At(after.writes, p) == At(before.writes, p))
      || At(after.writes, p) > At(before.writes, p)
  }

  lemma DoneKept(before: Sys, after: Sys, p: Partition, o: nat)
    requires Accumulates(before, after) && Done(before, p, o)
    ensures Done(after, p, o)
  {
  }

  lemma AllDoneKept(before: Sys, after: Sys, p: Partition, next: nat)
    requires Accumulates(before, after) && AllDone(before, p, next)
    ensures AllDone(after, p, next)
  {
    forall o: nat | o < next ensures Done(after, p, o) { DoneKept(before, after, p, o); }
  }

  lemma WorkerOkKept(before: Sys, after: Sys, w: Worker)
    requires Accumulates(before, after) && CountsWrites(before, after) && WorkerOk(before, w)
    ensures WorkerOk(after, w)
  {
    forall p: Partition ensures LogEnd(before, p) <= LogEnd(after, p) {}
    forall p | p in w.assignment ensures PartitionOk(after, w, p) {
      assert PartitionOk(before, w, p);
      AllDoneKept(before, after, p, w.acked[p]);
    }
    if Busy(w) {
      AllDoneKept(before, after, w.inflight.value.partition, w.inflight.value.offset);
      if Done(before, w.inflight.value.partition, w.inflight.value.offset) {
        DoneKept(before, after, w.inflight.value.partition, w.inflight.value.offset);
      }
      if w.stage == Committing(true) && Owned(w, w.inflight.value) {
        assert PartitionOk(before, w, w.inflight.value.partition);
      }
    }
  }

  /** Everything but one worker carries over; what is left to show is that worker and the new offsets. */
  lemma InvariantFrom(before: Sys, after: Sys, i: nat)
    requires Invariant(before) && Accumulates(before, after) && CountsWrites(before, after)
    requires forall j :: j in after.workers && j != i ==> j in before.workers && after.workers[j] == before.workers[j]
    requires i in after.workers ==> WorkerOk(after, after.workers[i])
    requires forall p :: p in after.committed ==>
               (p in before.committed && after.committed[p] == before.committed[p])
               || AllDone(after, p, after.committed[p])
    requires forall c :: c in after.pending ==> c in before.pending || AllDone(after, c.0, c.1)
    ensures Invariant(after)
  {
    forall p | p in after.committed ensures AllDone(after, p, after.committed[p]) {
      if p in before.committed && after.committed[p] == before.committed[p] {
        AllDoneKept(before, after, p, before.committed[p]);
      }
    }
    forall c | c in after.pending ensures AllDone(after, c.0, c.1) {
      if c in before.pending { AllDoneKept(before, after, c.0, c.1); }
    }
    forall j | j in after.workers ensures WorkerOk(after, after.workers[j]) {
      if j != i { WorkerOkKept(before, after, before.workers[j]); }
    }
  }

  // ---------------------------------------------------------------- one worker, step by step

  /** The record in flight, when still owned, is the head of its partition's queue. */
  lemma OwnedIsHead(sys: Sys, w: Worker)
    requires WorkerOk(sys, w) && w.inflight.Some? && Owned(w, w.inflight.value)
    ensures var r := w.inflight.value;
            r.partition in w.acked && r.offset == w.acked[r.partition] < w.position[r.partition]
  {
    var r := w.inflight.value;
    assert PartitionOk(sys, w, r.partition);
    assert Unfinished(w, r.partition)[0] == r.offset;
  }

  lemma RebalanceOk(sys: Sys, i: nat, assignment: set<Partition>)
    requires Invariant(sys) && i in sys.workers
    ensures WorkerOk(sys, Rebalanced(sys, sys.workers[i], assignment))
  {
    var w := sys.workers[i];
    var w' := Rebalanced(sys, w, assignment);
    if !w.stage.Stopped? {
      forall p | p in w'.assignment ensures PartitionOk(sys, w', p) {
        StaleOffsets(if w'.inflight.Some? then [w'.inflight.value] + w'.buffered else w'.buffered, p, w'.epoch);
        assert AllDone(sys, p, At(sys.committed, p));
      }
    }
  }

  lemma LoopTopOk(sys: Sys, w: Worker)
    requires WorkerOk(sys, w)
    ensures WorkerOk(sys, AtLoopTop(w))
  {
    var w' := AtLoopTop(w);
    if w.stage.Idle? && !w.shutdown && w.buffered != [] {
      assert [w.buffered[0]] + w.buffered[1..] == w.buffered;
      forall r | r in w'.buffered || r == w.buffered[0] ensures InLog(sys, w', r) {
        assert r in w.buffered && InLog(sys, w, r);
      }
      forall p | p in w'.assignment ensures PartitionOk(sys, w', p) {
        assert PartitionOk(sys, w, p);
        assert Unfinished(w', p) == Unfinished(w, p);
      }
    } else {
      forall p | p in w'.assignment ensures PartitionOk(sys, w', p) { assert PartitionOk(sys, w, p); }
    }
  }

  lemma ReceivedOk(sys: Sys, w: Worker, w': Worker, p: Partition)
    requires WorkerOk(sys, w) && p in w.position && w.position[p] < LogEnd(sys, p)
    requires w'.position == w.position[p := w.position[p] + 1]
    requires w'.epoch == w.epoch && w'.assignment == w.assignment && w'.acked == w.acked && w'.seen == w.seen
    requires w'.inflight == w.inflight || w.inflight.None?
    requires forall q :: Unfinished(w', q) == Unfinished(w, q) + (if q == p then [w.position[p]] else [])
    ensures forall q :: q in w'.assignment ==> PartitionOk(sys, w', q)
  {
    forall q | q in w'.assignment ensures PartitionOk(sys, w', q) {
      assert PartitionOk(sys, w, q);
      if q == p { assert Range(w.acked[p], w.position[p] + 1) == Range(w.acked[p], w.position[p]) + [w.position[p]]; }
    }
  }

  lemma BufferedQueues(w: Worker, p: Partition)
    requires p in w.position && w.inflight.Some?
    ensures var w' := w.(buffered := w.buffered + [Record(p, w.position[p], w.epoch)],
                         position := w.position[p := w.position[p] + 1]);
            forall q :: Unfinished(w', q) == Unfinished(w, q) + (if q == p then [w.position[p]] else [])
  {
    var r := Record(p, w.position[p], w.epoch);
    assert [w.inflight.value] + w.buffered + [r] == [w.inflight.value] + (w.buffered + [r]);
    forall q { OffsetsAppend([w.inflight.value] + w.buffered, r, q, w.epoch); }
  }

  lemma BufferedOk(sys: Sys, w: Worker, p: Partition, seekOk: bool)
    requires WorkerOk(sys, w) && p in w.position && w.position[p] < LogEnd(sys, p)
    requires w.stage.Processing? || w.stage.BackingOff?
    ensures WorkerOk(sys, BufferOrRewind(w, p, seekOk))
  {
    hide PartitionOk, AllDone, Done;
    var w' := BufferOrRewind(w, p, seekOk);
    if |w.buffered| < MAX_RETRY_BUFFERED_MESSAGES {
      assert forall q :: q in w'.assignment ==> PartitionOk(sys, w', q) by {
        BufferedQueues(w, p);
        ReceivedOk(sys, w, w', p);
      }
      assert RecordsOk(sys, w');
      assert InflightOk(sys, w');
    } else {
      SameQueuesOk(sys, w, w');
    }
  }

  lemma FetchedOk(sys: Sys, w: Worker, p: Partition)
    requires WorkerOk(sys, w) && p in w.position && w.position[p] < LogEnd(sys, p)
    requires w.stage.Idle? && w.buffered == []
    ensures WorkerOk(sys, Fetched(w, p))
  {
    ReceivedOk(sys, w, Fetched(w, p), p);
  }

  lemma ReceiveOk(sys: Sys, w: Worker, p: Partition, seekOk: bool)
    requires WorkerOk(sys, w)
    ensures WorkerOk(sys, Received(sys, w, p, seekOk))
  {
    if p in w.position && w.position[p] < LogEnd(sys, p) {
      if w.stage.Idle? && w.buffered == [] {
        FetchedOk(sys, w, p);
      } else if w.stage.Processing? || w.stage.BackingOff? {
        BufferedOk(sys, w, p, seekOk);
      }
    }
  }

  /** A change of stage or of the shutdown latch alone leaves every queue as it was. */
  lemma SameQueuesOk(sys: Sys, w: Worker, w': Worker)
    requires WorkerOk(sys, w)
    requires w' == w.(stage := w'.stage, shutdown := w'.shutdown)
    requires RecordsOk(sys, w') && InflightOk(sys, w')
    ensures WorkerOk(sys, w')
  {
    forall p | p in w'.assignment ensures PartitionOk(sys, w', p) {
      assert PartitionOk(sys, w, p);
      assert Unfinished(w', p) == Unfinished(w, p);
    }
  }

  lemma DropUnownedOk(sys: Sys, w: Worker)
    requires WorkerOk(sys, w) && w.inflight.Some? && !Owned(w, w.inflight.value)
    ensures WorkerOk(sys, DropUnowned(w))
  {
    var w' := DropUnowned(w);
    RetainedKeepsCurrent(sys, w, w.buffered, 0);
    forall p | p in w'.assignment ensures PartitionOk(sys, w', p) {
      assert PartitionOk(sys, w, p);
      RetainedKeepsCurrent(sys, w, w.buffered, p);
      assert ([w.inflight.value] + w.buffered)[1..] == w.buffered;
    }
  }

  lemma CheckOwnedOk(sys: Sys, w: Worker)
    requires WorkerOk(sys, w)
    ensures WorkerOk(sys, Checked(w))
  {
    if w.stage.Checking? && w.inflight.Some? {
      if Owned(w, w.inflight.value) {
        OwnedIsHead(sys, w);
        assert PartitionOk(sys, w, w.inflight.value.partition);
        SameQueuesOk(sys, w, w.(stage := Processing));
      } else {
        DropUnownedOk(sys, w);
      }
    }
  }

  lemma ActOk(sys: Sys, w: Worker)
    requires WorkerOk(sys, w)
    ensures WorkerOk(sys, Acted(w))
  {
    hide PartitionOk, AllDone, Done, Retained;
    var w' := Acted(w);
    if w.inflight.Some? && (w.stage.Acting? || w.stage.Published?) {
      if w'.stage.Idle? {
        DropUnownedOk(sys, w);
      } else {
        if w.stage.Acting? && w.stage.action.CommitAction? { assert w.stage == Acting(CommitAction); }
        if w.stage.Acting? && w.stage.action.DlqAction? { assert w.stage == Acting(DlqAction); }
        if w.stage.Acting? && w.stage.action.RetryAction? { assert w.stage == Acting(RetryAction); }
        SameQueuesOk(sys, w, w');
      }
    }
  }

  /** A commit is only ever requested for a record that is done, with everything below it done. */
  lemma RequestedOffsetDone(sys: Sys, w: Worker)
    requires WorkerOk(sys, Acted(w)) && Acted(w).stage == Committing(false)
    ensures Acted(w).inflight.Some?
    ensures AllDone(sys, Acted(w).inflight.value.partition, Acted(w).inflight.value.offset + 1)
  {
    hide PartitionOk;
  }

  lemma AcknowledgedQueue(w: Worker, p: Partition)
    requires w.inflight.Some? && w.inflight.value == Record(p, w.inflight.value.offset, w.epoch)
    requires Contiguous(w, p) && p in w.assignment && w.stage == Committing(true)
    ensures Contiguous(Acknowledged(w), p)
    ensures w.inflight.value.offset == w.acked[p]
  {
    var w', r := Acknowledged(w), w.inflight.value;
    assert ([r] + w.buffered)[1..] == w.buffered;
    assert Unfinished(w, p) == [r.offset] + Unfinished(w', p);
    assert Unfinished(w, p)[0] == r.offset;
    assert Unfinished(w, p)[1..] == Unfinished(w', p);
    assert Range(w.acked[p], w.position[p])[1..] == Range(w.acked[p] + 1, w.position[p]);
  }

  lemma AcknowledgedElsewhere(w: Worker, p: Partition)
    requires w.inflight.Some? && w.stage == Committing(true)
    requires w.inflight.value.partition != p || w.inflight.value.epoch != w.epoch
    ensures Unfinished(Acknowledged(w), p) == Unfinished(w, p)
  {
    var r := w.inflight.value;
    assert ([r] + w.buffered)[1..] == w.buffered;
    assert [] + Offsets(w.buffered, p, w.epoch) == Offsets(w.buffered, p, w.epoch);
  }

  lemma AcknowledgedPartitionOk(sys: Sys, w: Worker, p: Partition)
    requires WorkerOk(sys, w) && w.stage == Committing(true) && w.inflight.Some? && p in w.assignment
    ensures PartitionOk(sys, Acknowledged(w), p)
  {
    hide Unfinished, RecordsOk;
    var r := w.inflight.value;
    assert PartitionOk(sys, w, p);
    if Owned(w, r) && p == r.partition {
      AcknowledgedQueue(w, p);
      assert AllDone(sys, p, r.offset + 1);
    } else {
      AcknowledgedElsewhere(w, p);
    }
  }

  lemma AcknowledgedOk(sys: Sys, w: Worker)
    requires WorkerOk(sys, w) && w.stage == Committing(true) && w.inflight.Some?
    ensures WorkerOk(sys, Acknowledged(w))
  {
    hide PartitionOk, Unfinished;
    if Owned(w, w.inflight.value) { OwnedIsHead(sys, w); }
    var w' := Acknowledged(w);
    forall p | p in w.assignment ensures PartitionOk(sys, w', p) { AcknowledgedPartitionOk(sys, w, p); }
    assert w'.acked.Keys == w.acked.Keys;
  }

  /** Steps that change only the stage, towards a stage that claims no more than before. */
  lemma {:induction false} StageStepOk(sys: Sys, w: Worker, step: Step)
    requires WorkerOk(sys, w)
    requires step.RequestShutdown? || step.Stop? || step.CommitFails? || step.BackoffElapses?
    ensures WorkerOk(sys, LocalStep(sys, w, step))
  {
    if LocalStep(sys, w, step) != w { SameQueuesOk(sys, w, LocalStep(sys, w, step)); }
  }

  lemma {:induction false} LocalStepOk(sys: Sys, i: nat, step: Step)
    requires Invariant(sys) && i in sys.workers
    ensures WorkerOk(sys, LocalStep(sys, sys.workers[i], step))
  {
    hide RecordsOk, InflightOk, PartitionOk, WorkerOk;
    var w := sys.workers[i];
    match step
    case Rebalance(_, assignment) =>
      RebalanceOk(sys, i, assignment);
    case LoopTop(_) => LoopTopOk(sys, w);
    case Receive(_, p, seekOk) => ReceiveOk(sys, w, p, seekOk);
    case CheckOwned(_) => CheckOwnedOk(sys, w);
    case Act(_) => ActOk(sys, w);
    case CommitAcknowledged(_) => if w.stage == Committing(true) && w.inflight.Some? { AcknowledgedOk(sys, w); }
    case RequestShutdown(_) => StageStepOk(sys, w, step);
    case Stop(_) => StageStepOk(sys, w, step);
    case CommitFails(_) => StageStepOk(sys, w, step);
    case BackoffElapses(_) => StageStepOk(sys, w, step);
    case _ =>
  }

  lemma {:induction false} PendingOk(sys: Sys, i: nat, step: Step)
    requires Invariant(sys) && i in sys.workers
    ensures forall c :: c in PendingAfter(sys, sys.workers[i], LocalStep(sys, sys.workers[i], step)) ==>
              c in sys.pending || AllDone(sys, c.0, c.1)
  {
    hide WorkerOk;
    var w := sys.workers[i];
    if PendingAfter(sys, w, LocalStep(sys, w, step)) != sys.pending {
      ActOk(sys, w);
      RequestedOffsetDone(sys, w);
    }
  }

  // ---------------------------------------------------------------- steps with a durable effect

  /** Any durable gain together with a new stage of one worker that the gain justifies. */
  lemma {:induction false} GainOk(before: Sys, after: Sys, i: nat, w': Worker)
    requires Invariant(before) && i in before.workers && Accumulates(before, after)
    requires after == before.(receipts := after.receipts, dlq := after.dlq, workers := before.workers[i := w'])
    requires w' == before.workers[i].(stage := w'.stage)
    requires RecordsOk(after, w') && InflightOk(after, w')
    ensures Invariant(after)
  {
    hide WorkerOk, RecordsOk, InflightOk, AllDone, Accumulates;
    assert CountsWrites(before, after);
    WorkerOkKept(before, after, before.workers[i]);
    SameQueuesOk(after, before.workers[i], w');
    InvariantFrom(before, after, i);
  }

  lemma ProcessingEndsOk(sys: Sys, i: nat, step: Step)
    requires Invariant(sys) && i in sys.workers && step.ProcessingEnds?
    ensures Invariant(WorkerStep(sys, i, step))
  {
    hide PartitionOk;
    var w, after := sys.workers[i], WorkerStep(sys, i, step);
    if w.stage.Processing? && RecordAt(sys, w.inflight.value.partition, w.inflight.value.offset).Some? {
      AllDoneKept(sys, after, w.inflight.value.partition, w.inflight.value.offset);
      GainOk(sys, after, i, after.workers[i]);
    }
  }

  lemma PublishEndsOk(sys: Sys, i: nat, step: Step)
    requires Invariant(sys) && i in sys.workers && step.PublishEnds?
    ensures Invariant(WorkerStep(sys, i, step))
  {
    hide PartitionOk;
    var w, after := sys.workers[i], WorkerStep(sys, i, step);
    if w.stage.Publishing? {
      AllDoneKept(sys, after, w.inflight.value.partition, w.inflight.value.offset);
      GainOk(sys, after, i, after.workers[i]);
    }
  }

  lemma LandedPartitionOk(sys: Sys, after: Sys, w: Worker, p: Partition)
    requires WorkerOk(sys, w) && w.stage == Committing(false) && w.inflight.Some? && p in w.assignment
    requires Accumulates(sys, after)
    requires after.committed == Write(sys, w.inflight.value.partition, w.inflight.value.offset + 1).committed
    requires after.writes == Write(sys, w.inflight.value.partition, w.inflight.value.offset + 1).writes
    ensures PartitionOk(after, Landed(sys, w), p)
  {
    hide AllDone, Offsets, InflightOk, RecordsOk;
    var w', r := Landed(sys, w), w.inflight.value;
    assert PartitionOk(sys, w, p);
    AllDoneKept(sys, after, p, w.acked[p]);
    assert Unfinished(w', p) == Unfinished(w, p);
    if p == r.partition && Owned(w, r) {
      OwnedIsHead(sys, w);
      assert r == Record(p, w.acked[p], w.epoch);
    }
  }

  lemma LandedWorkerOk(sys: Sys, after: Sys, w: Worker)
    requires WorkerOk(sys, w) && w.stage == Committing(false) && w.inflight.Some?
    requires Accumulates(sys, after) && CountsWrites(sys, after)
    requires after.committed == Write(sys, w.inflight.value.partition, w.inflight.value.offset + 1).committed
    requires after.writes == Write(sys, w.inflight.value.partition, w.inflight.value.offset + 1).writes
    ensures WorkerOk(after, Landed(sys, w))
  {
    hide PartitionOk, AllDone;
    var w', r := Landed(sys, w), w.inflight.value;
    WorkerOkKept(sys, after, w);
    if Owned(w, r) { assert r.partition in w.seen; }
    assert w'.seen.Keys == w.seen.Keys;
    forall p | p in w'.assignment ensures PartitionOk(after, w', p) { LandedPartitionOk(sys, after, w, p); }
  }

  lemma LandedOffsetDone(sys: Sys, after: Sys, w: Worker)
    requires WorkerOk(sys, w) && w.stage == Committing(false) && w.inflight.Some? && Accumulates(sys, after)
    ensures AllDone(after, w.inflight.value.partition, w.inflight.value.offset + 1)
  {
    var r := w.inflight.value;
    AllDoneKept(sys, after, r.partition, r.offset);
    DoneKept(sys, after, r.partition, r.offset);
  }

  lemma CommitLandsOk(sys: Sys, i: nat, step: Step)
    requires Invariant(sys) && i in sys.workers && step.CommitLands?
    ensures Invariant(WorkerStep(sys, i, step))
  {
    hide AllDone, PartitionOk, RecordsOk, InflightOk;
    var w, after := sys.workers[i], WorkerStep(sys, i, step);
    if w.stage == Committing(false) && w.inflight.Some? {
      var r := w.inflight.value;
      LandedOffsetDone(sys, after, w);
      LandedWorkerOk(sys, after, w);
      LandedFrom(sys, after, i, r);
    }
  }

  lemma {:induction false} LandedFrom(before: Sys, after: Sys, i: nat, r: Record)
    requires Invariant(before) && i in before.workers
    requires after == Write(after.(committed := before.committed, writes := before.writes), r.partition, r.offset + 1)
    requires after.(committed := before.committed, writes := before.writes, workers := before.workers) == before
    requires forall j :: j in after.workers && j != i ==> j in before.workers && after.workers[j] == before.workers[j]
    requires AllDone(after, r.partition, r.offset + 1) && i in after.workers && WorkerOk(after, after.workers[i])
    ensures Invariant(after)
  {
    hide WorkerOk, AllDone;
    InvariantFrom(before, after, i);
  }

  lemma {:induction false} LocalInvariant(sys: Sys, i: nat, step: Step)
    requires Invariant(sys) && i in sys.workers
    requires !step.ProcessingEnds? && !step.PublishEnds? && !step.CommitLands?
    ensures Invariant(WorkerStep(sys, i, step))
  {
    hide WorkerOk, AllDone, LocalStep;
    var w, after := sys.workers[i], WorkerStep(sys, i, step);
    LocalStepOk(sys, i, step);
    PendingOk(sys, i, step);
    SameBrokerOk(sys, after);
    InvariantFrom(sys, after, i);
  }

  /** Workers and requests on their way do not matter to what is durable. */
  lemma {:induction false} SameBrokerOk(before: Sys, after: Sys)
    requires after == before.(pending := after.pending, workers := after.workers)
    ensures Accumulates(before, after) && CountsWrites(before, after)
    ensures forall p, next :: AllDone(before, p, next) ==> AllDone(after, p, next)
    ensures forall w :: WorkerOk(before, w) ==> WorkerOk(after, w)
  {
    forall p, next | AllDone(before, p, next) ensures AllDone(after, p, next) { AllDoneKept(before, after, p, next); }
    forall w | WorkerOk(before, w) ensures WorkerOk(after, w) { WorkerOkKept(before, after, w); }
  }

  lemma {:induction false} EnvironmentOk(before: Sys, after: Sys)
    requires Invariant(before) && Accumulates(before, after) && CountsWrites(before, after)
    requires after.workers == before.workers && after.pending == before.pending
    requires forall p :: p in after.committed ==>
               (p in before.committed && after.committed[p] == before.committed[p])
               || AllDone(after, p, after.committed[p])
    ensures Invariant(after)
  {
    hide WorkerOk, AllDone;
    if 0 in after.workers { WorkerOkKept(before, after, after.workers[0]); }
    InvariantFrom(before, after, 0);
  }

  lemma {:induction false} LateCommitOk(sys: Sys, p: Partition, next: nat)
    requires Invariant(sys)
    ensures Invariant(Next(sys, LateCommitLands(p, next)))
  {
    hide WorkerOk;
    if (p, next) in sys.pending {
      var after := Next(sys, LateCommitLands(p, next));
      assert AllDone(sys, (p, next).0, (p, next).1);
      AllDoneKept(sys, after, p, next);
      EnvironmentOk(sys, after);
    }
  }

  lemma {:induction false} ProduceOk(sys: Sys, p: Partition, command: Command)
    requires Invariant(sys)
    ensures Invariant(Next(sys, Produce(p, command)))
  {
    hide WorkerOk;
    EnvironmentOk(sys, Next(sys, Produce(p, command)));
  }

  lemma {:induction false} PersistElsewhereOk(sys: Sys, p: Partition, offset: nat)
    requires Invariant(sys)
    ensures Invariant(Next(sys, PersistElsewhere(p, offset)))
  {
    hide WorkerOk;
    EnvironmentOk(sys, Next(sys, PersistElsewhere(p, offset)));
  }

  lemma {:induction false} MembershipOk(sys: Sys, step: Step)
    requires Invariant(sys) && (step.Start? || step.CrashWorker?)
    ensures Invariant(Next(sys, step))
  {
    var after := Next(sys, step);
    if step.Start? && step.w !in sys.workers { FreshWorkerOk(after); }
    InvariantFrom(sys, after, step.w);
  }

  lemma {:induction false} WorkerStepOk(sys: Sys, i: nat, step: Step)
    requires Invariant(sys) && i in sys.workers
    ensures Invariant(WorkerStep(sys, i, step))
  {
    hide Invariant, WorkerStep;
    if step.ProcessingEnds? { ProcessingEndsOk(sys, i, step); }
    else if step.PublishEnds? { PublishEndsOk(sys, i, step); }
    else if step.CommitLands? { CommitLandsOk(sys, i, step); }
    else { LocalInvariant(sys, i, step); }
  }

  lemma {:induction false} NextKeepsInvariant(sys: Sys, step: Step)
    requires Invariant(sys)
    ensures Invariant(Next(sys, step))
  {
    hide Invariant, WorkerStep;
    match step
    case Produce(p, command) => ProduceOk(sys, p, command);
    case PersistElsewhere(p, offset) => PersistElsewhereOk(sys, p, offset);
    case LateCommitLands(p, next) => LateCommitOk(sys, p, next);
    case Start(_) => MembershipOk(sys, step);
    case CrashWorker(_) => MembershipOk(sys, step);
    case _ => if step.w in sys.workers { WorkerStepOk(sys, step.w, step); }
  }

  lemma {:induction false} FreshWorkerOk(sys: Sys)
    ensures WorkerOk(sys, FreshWorker)
  {
  }

  lemma {:induction false} RunKeepsInvariant(steps: seq<Step>)
    ensures Invariant(Run(steps))
  {
    if steps != [] {
      RunKeepsInvariant(steps[..|steps| - 1]);
      NextKeepsInvariant(Run(steps[..|steps| - 1]), steps[|steps| - 1]);
    }
  }

  // ---------------------------------------------------------------- the main results

  /** Over every run, each record below a committed offset has its own durable receipt or a dead letter entry. */
  lemma {:induction false} CommittedRecordsAreDone(steps: seq<Step>, p: Partition, o: nat)
    requires o < At(Run(steps).committed, p)
    ensures Done(Run(steps), p, o)
  {
    RunKeepsInvariant(steps);
    assert AllDone(Run(steps), p, Run(steps).committed[p]);
  }

  /**
  Within one assignment, what a worker holds of a partition is exactly the stretch from its committed
  offset to its fetch position, in order; the buffer stays within its bound; and the broker's committed
  offset is that of the worker unless somebody else, or a late commit, wrote it.
  */
  lemma {:induction false} QueuesAreContiguous(steps: seq<Step>, i: nat, p: Partition)
    requires i in Run(steps).workers && p in Run(steps).workers[i].assignment
    ensures var w := Run(steps).workers[i];
            Contiguous(w, p) && |w.buffered| <= MAX_RETRY_BUFFERED_MESSAGES && CommittedNear(Run(steps), w, p)
  {
    RunKeepsInvariant(steps);
    assert WorkerOk(Run(steps), Run(steps).workers[i]);
    assert PartitionOk(Run(steps), Run(steps).workers[i], p);
  }

  /** No record below the fetch position is ever dropped: it is done, or still in flight or buffered. */
  lemma {:induction false} NothingIsSkipped(steps: seq<Step>, i: nat, p: Partition, o: nat)
    requires i in Run(steps).workers && p in Run(steps).workers[i].position
    requires o < Run(steps).workers[i].position[p]
    ensures Done(Run(steps), p, o) || o in Unfinished(Run(steps).workers[i], p)
  {
    RunKeepsInvariant(steps);
    var w := Run(steps).workers[i];
    assert WorkerOk(Run(steps), w);
    assert PartitionOk(Run(steps), w, p);
    if o >= w.acked[p] { assert Range(w.acked[p], w.position[p])[o - w.acked[p]] == o; }
  }

  /** Once shutdown is latched, a worker starts no publication and no commit. */
  lemma {:induction false} ShutdownStartsNothing(sys: Sys, step: Step, i: nat)
    requires i in sys.workers && sys.workers[i].shutdown
    requires !sys.workers[i].stage.Publishing? && !sys.workers[i].stage.Committing?
    requires i in Next(sys, step).workers
    ensures !Next(sys, step).workers[i].stage.Publishing? && !Next(sys, step).workers[i].stage.Committing?
    ensures Next(sys, step).workers[i].shutdown
  {
    hide ActionFor, ReceiptsAfter, PendingAfter, Retained, RecordAt, LogEnd, At, Owned;
  }
}
