/**
What processing decides about a record, and that a worker which is left alone gets there: whatever the log holds, its
own steps bring every record of an assigned partition to its outcome and commit past it.
*/
module IngestionProgress {
  import opened Common
  import opened IngestionRuntime
  import opened IngestionInvariant

  // ---------------------------------------------------------------- the decision

  /** Another command has this id. */
  predicate IdTaken(receipts: map<string, string>, c: Command) {
    c.id in receipts && receipts[c.id] != c.fingerprint
  }

  /**
  Invalid and rejected commands, and those whose id another command has, are for the dead letters; only transient
  failures, before or after the transaction, are retried; everything else is committed.
  */
  ghost predicate Decided(receipts: map<string, string>, c: Command, verdict: Verdict, action: Action) {
    && (action == DlqAction <==>
          !c.valid || verdict == PermanentReject || (verdict == Persists && IdTaken(receipts, c)))
    && (action == RetryAction <==> c.valid && (verdict == Transient || verdict == TransientAfterCommit))
    && (action == CommitAction <==> c.valid && verdict == Persists && !IdTaken(receipts, c))
  }

  /**
  What is decided about a record is right, and nothing else of the worker changes. A receipt is written only by the
  transaction of a valid command, and only if there is none.
  */
  lemma ProcessingDecides(sys: Sys, i: nat, verdict: Verdict)
    requires i in sys.workers && sys.workers[i].stage == Processing && sys.workers[i].inflight.Some?
    requires var r := sys.workers[i].inflight.value; RecordAt(sys, r.partition, r.offset).Some?
    ensures var r := sys.workers[i].inflight.value;
            var c := RecordAt(sys, r.partition, r.offset).value;
            var after := Next(sys, ProcessingEnds(i, verdict));
            && i in after.workers && after.workers[i].stage.Acting?
            && Decided(sys.receipts, c, verdict, after.workers[i].stage.action)
            && after.workers[i].(stage := Processing) == sys.workers[i]
            && after == sys.(receipts := after.receipts, workers := after.workers)
            && after.receipts ==
               if c.valid && (verdict == Persists || verdict == TransientAfterCommit) && c.id !in sys.receipts
               then sys.receipts[c.id := c.fingerprint] else sys.receipts
  {
  }

  /**
  What the surroundings do: a produced command stands at the end of its log, a worker that crashes is gone, and a commit
  request that has left can move the committed offset, back included, at any later time.
  */
  lemma SurroundingsAct(sys: Sys, p: Partition, c: Command, i: nat, next: nat)
    ensures var after := Next(sys, Produce(p, c));
            && after == sys.(log := after.log) && LogEnd(after, p) == LogEnd(sys, p) + 1
            && RecordAt(after, p, LogEnd(sys, p)) == Some(c)
            && forall q, o: nat :: RecordAt(sys, q, o).Some? ==> RecordAt(after, q, o) == RecordAt(sys, q, o)
    ensures var after := Next(sys, CrashWorker(i));
            && after == sys.(workers := after.workers)
            && after.workers == map j | j in sys.workers && j != i :: sys.workers[j]
    ensures (p, next) in sys.pending ==> At(Next(sys, LateCommitLands(p, next)).committed, p) == next
  {
  }

  // ---------------------------------------------------------------- a worker left alone

  /** Steps that a worker takes by itself, with the answers of the broker and the store as they come. */
  predicate OwnStep(i: nat, step: Step) {
    match step
    case Receive(w, _, _) => w == i
    case CheckOwned(w) => w == i
    case ProcessingEnds(w, _) => w == i
    case Act(w) => w == i
    case PublishEnds(w, _, _) => w == i
    case CommitLands(w) => w == i
    case CommitAcknowledged(w) => w == i
    case BackoffElapses(w) => w == i
    case _ => false
  }

  ghost predicate OwnSteps(i: nat, steps: seq<Step>) {
    forall s :: s in steps ==> OwnStep(i, s)
  }

  lemma RunExtends(steps: seq<Step>, more: seq<Step>, step: Step)
    ensures Run(steps + (more + [step])) == Next(Run(steps + more), step)
  {
    var all := steps + (more + [step]);
    assert all[..|all| - 1] == steps + more;
  }

  /** The worker is at work on a record that is still its own, and shutdown has not been asked for. */
  ghost predicate AtWork(sys: Sys, i: nat, r: Record, stage: Stage) {
    && i in sys.workers && sys.workers[i].stage == stage && sys.workers[i].inflight == Some(r)
    && Owned(sys.workers[i], r) && !sys.workers[i].shutdown && RecordAt(sys, r.partition, r.offset).Some?
  }

  /** The log stays, and of the worker everything but its stage, its record and what it knows of the broker. */
  ghost predicate Untouched(before: Sys, after: Sys, i: nat) {
    && after.log == before.log && i in before.workers && i in after.workers
    && after.workers[i].epoch == before.workers[i].epoch && after.workers[i].assignment == before.workers[i].assignment
    && after.workers[i].buffered == before.workers[i].buffered
    && after.workers[i].shutdown == before.workers[i].shutdown
  }

  ghost predicate SamePositions(before: Sys, after: Sys, i: nat) {
    i in before.workers && i in after.workers && after.workers[i].position == before.workers[i].position
  }

  /** From here on the request may land at any time, even after its worker has given up on it. */
  lemma BeginsCommit(sys: Sys, i: nat, r: Record)
    requires AtWork(sys, i, r, Acting(CommitAction)) || AtWork(sys, i, r, Published)
    ensures var after := Next(sys, Act(i));
            && AtWork(after, i, r, Committing(false)) && Untouched(sys, after, i) && SamePositions(sys, after, i)
            && after.committed == sys.committed && after.receipts == sys.receipts && after.dlq == sys.dlq
            && (r.partition, r.offset + 1) in after.pending
            && after.workers[i].acked == sys.workers[i].acked
  {
  }

  lemma Lands(sys: Sys, i: nat, r: Record)
    requires AtWork(sys, i, r, Committing(false))
    ensures var after := Next(sys, CommitLands(i));
            && AtWork(after, i, r, Committing(true)) && Untouched(sys, after, i) && SamePositions(sys, after, i)
            && after.committed == sys.committed[r.partition := r.offset + 1]
            && after.receipts == sys.receipts && after.dlq == sys.dlq
            && after.workers[i].acked == sys.workers[i].acked
  {
  }

  lemma IsAcknowledged(sys: Sys, i: nat, r: Record)
    requires AtWork(sys, i, r, Committing(true)) && r.partition in sys.workers[i].acked
    ensures var after := Next(sys, CommitAcknowledged(i));
            && Untouched(sys, after, i) && SamePositions(sys, after, i)
            && after.workers[i].stage == Idle && after.workers[i].inflight.None?
            && after.committed == sys.committed && after.receipts == sys.receipts && after.dlq == sys.dlq
            && after.workers[i].acked == sys.workers[i].acked[r.partition := r.offset + 1]
  {
  }

  lemma BeginsPublication(sys: Sys, i: nat, r: Record)
    requires AtWork(sys, i, r, Acting(DlqAction))
    ensures var after := Next(sys, Act(i));
            && AtWork(after, i, r, Publishing) && Untouched(sys, after, i) && SamePositions(sys, after, i)
            && after.committed == sys.committed && after.receipts == sys.receipts && after.dlq == sys.dlq
            && after.workers[i].acked == sys.workers[i].acked
  {
  }

  lemma IsPublished(sys: Sys, i: nat, r: Record)
    requires AtWork(sys, i, r, Publishing)
    ensures var after := Next(sys, PublishEnds(i, true, true));
            && AtWork(after, i, r, Published) && Untouched(sys, after, i) && SamePositions(sys, after, i)
            && after.committed == sys.committed && after.receipts == sys.receipts
            && after.dlq == sys.dlq + {(r.partition, r.offset)}
            && after.workers[i].acked == sys.workers[i].acked
  {
  }

  lemma IsProcessed(sys: Sys, i: nat, r: Record, verdict: Verdict)
    requires AtWork(sys, i, r, Processing)
    ensures var after := Next(sys, ProcessingEnds(i, verdict));
            && i in after.workers && after.workers[i].stage.Acting? && AtWork(after, i, r, after.workers[i].stage)
            && Untouched(sys, after, i) && SamePositions(sys, after, i)
            && after.committed == sys.committed && after.dlq == sys.dlq
            && after.workers[i].acked == sys.workers[i].acked
  {
    ProcessingDecides(sys, i, verdict);
  }

  // ---------------------------------------------------------------- one record to its end

  /** The record has its outcome and its offset is committed; the worker is free again, and nothing else has moved. */
  ghost predicate Finished(before: Sys, after: Sys, i: nat, r: Record) {
    && Untouched(before, after, i) && SamePositions(before, after, i)
    && after.workers[i].stage == Idle && after.workers[i].inflight.None?
    && after.committed == before.committed[r.partition := r.offset + 1]
    && after.workers[i].acked == before.workers[i].acked[r.partition := r.offset + 1]
  }

  /** From a decision to commit, three steps of the worker's own finish the record. */
  lemma CommitsRecord(steps: seq<Step>, more: seq<Step>, i: nat, r: Record) returns (longer: seq<Step>)
    requires OwnSteps(i, more)
    requires var s := Run(steps + more); AtWork(s, i, r, Acting(CommitAction)) || AtWork(s, i, r, Published)
    requires r.partition in Run(steps + more).workers[i].acked
    ensures more <= longer && OwnSteps(i, longer) && Finished(Run(steps + more), Run(steps + longer), i, r)
    ensures Run(steps + longer).dlq == Run(steps + more).dlq
    ensures Run(steps + longer).receipts == Run(steps + more).receipts
  {
    hide Run, Next, AtWork;
    BeginsCommit(Run(steps + more), i, r);
    RunExtends(steps, more, Act(i));
    longer := more + [Act(i)];
    Lands(Run(steps + longer), i, r);
    RunExtends(steps, longer, CommitLands(i));
    longer := longer + [CommitLands(i)];
    IsAcknowledged(Run(steps + longer), i, r);
    RunExtends(steps, longer, CommitAcknowledged(i));
    longer := longer + [CommitAcknowledged(i)];
  }

  /** From a decision for the dead letters, the worker's own steps publish the record and commit past it. */
  lemma DeadLettersRecord(steps: seq<Step>, more: seq<Step>, i: nat, r: Record) returns (longer: seq<Step>)
    requires OwnSteps(i, more) && AtWork(Run(steps + more), i, r, Acting(DlqAction))
    requires r.partition in Run(steps + more).workers[i].acked
    ensures more <= longer && OwnSteps(i, longer) && Finished(Run(steps + more), Run(steps + longer), i, r)
    ensures Run(steps + longer).dlq == Run(steps + more).dlq + {(r.partition, r.offset)}
    ensures Run(steps + longer).receipts == Run(steps + more).receipts
  {
    hide Run, Next, AtWork;
    BeginsPublication(Run(steps + more), i, r);
    RunExtends(steps, more, Act(i));
    longer := more + [Act(i)];
    IsPublished(Run(steps + longer), i, r);
    RunExtends(steps, longer, PublishEnds(i, true, true));
    longer := longer + [PublishEnds(i, true, true)];
    longer := CommitsRecord(steps, longer, i, r);
  }

  lemma OwnedIsAcked(steps: seq<Step>, i: nat, r: Record, stage: Stage)
    requires AtWork(Run(steps), i, r, stage)
    ensures r.partition in Run(steps).workers[i].acked
  {
    hide Run;
    RunKeepsInvariant(steps);
    assert WorkerOk(Run(steps), Run(steps).workers[i]);
  }

  /** The first of these steps is the decision. */
  lemma Processes(steps: seq<Step>, i: nat, r: Record, verdict: Verdict) returns (more: seq<Step>)
    requires AtWork(Run(steps), i, r, Processing)
    ensures more == [ProcessingEnds(i, verdict)] && OwnSteps(i, more)
    ensures Run(steps + more) == Next(Run(steps), ProcessingEnds(i, verdict))
    ensures var after := Run(steps + more);
            && i in after.workers && after.workers[i].stage.Acting? && AtWork(after, i, r, after.workers[i].stage)
            && Untouched(Run(steps), after, i) && SamePositions(Run(steps), after, i)
            && after.committed == Run(steps).committed && after.dlq == Run(steps).dlq
            && after.workers[i].acked == Run(steps).workers[i].acked
  {
    hide Run, Next, AtWork;
    IsProcessed(Run(steps), i, r, verdict);
    RunExtends(steps, [], ProcessingEnds(i, verdict));
    assert steps + [] == steps;
    more := [] + [ProcessingEnds(i, verdict)];
  }

  /**
  An invalid record, or one that is rejected for good, or whose id is another command's, ends up in the dead letters
  with its offset committed, by the worker's own steps alone; no receipt is written for it.
  */
  lemma RejectedIsDeadLettered(steps: seq<Step>, i: nat, r: Record, verdict: Verdict) returns (more: seq<Step>)
    requires AtWork(Run(steps), i, r, Processing)
    requires var c := RecordAt(Run(steps), r.partition, r.offset).value;
             !c.valid || verdict == PermanentReject || (verdict == Persists && IdTaken(Run(steps).receipts, c))
    ensures OwnSteps(i, more) && [ProcessingEnds(i, verdict)] <= more
    ensures Finished(Run(steps), Run(steps + more), i, r)
    ensures Run(steps + more).dlq == Run(steps).dlq + {(r.partition, r.offset)}
    ensures Run(steps + more).receipts == Run(steps).receipts
  {
    hide Run, Next;
    ProcessingDecides(Run(steps), i, verdict);
    hide AtWork;
    OwnedIsAcked(steps, i, r, Processing);
    more := Processes(steps, i, r, verdict);
    more := DeadLettersRecord(steps, more, i, r);
  }

  /** A persisted record has its receipt and its offset committed, by the worker's own steps alone. */
  lemma PersistedIsCommitted(steps: seq<Step>, i: nat, r: Record) returns (more: seq<Step>)
    requires AtWork(Run(steps), i, r, Processing)
    requires var c := RecordAt(Run(steps), r.partition, r.offset).value; c.valid && !IdTaken(Run(steps).receipts, c)
    ensures OwnSteps(i, more) && [ProcessingEnds(i, Persists)] <= more
    ensures Finished(Run(steps), Run(steps + more), i, r)
    ensures Run(steps + more).dlq == Run(steps).dlq
    ensures var c := RecordAt(Run(steps), r.partition, r.offset).value;
            Run(steps + more).receipts == Run(steps).receipts[c.id := c.fingerprint]
  {
    hide Run, Next;
    ProcessingDecides(Run(steps), i, Persists);
    hide AtWork;
    OwnedIsAcked(steps, i, r, Processing);
    more := Processes(steps, i, r, Persists);
    more := CommitsRecord(steps, more, i, r);
  }

  /** A transient failure leads back to processing the same record, with nothing durable lost or moved. */
  lemma TransientIsRetried(steps: seq<Step>, i: nat, r: Record) returns (more: seq<Step>)
    requires AtWork(Run(steps), i, r, Processing) && RecordAt(Run(steps), r.partition, r.offset).value.valid
    ensures OwnSteps(i, more) && [ProcessingEnds(i, Transient)] <= more
    ensures AtWork(Run(steps + more), i, r, Processing) && SamePositions(Run(steps), Run(steps + more), i)
    ensures Run(steps + more).committed == Run(steps).committed && Run(steps + more).dlq == Run(steps).dlq
    ensures Run(steps + more).receipts == Run(steps).receipts
  {
    hide Run, Next;
    ProcessingDecides(Run(steps), i, Transient);
    hide AtWork;
    more := Processes(steps, i, r, Transient);
    BacksOff(Run(steps + more), i, r);
    RunExtends(steps, more, Act(i));
    more := more + [Act(i)];
    ComesBack(Run(steps + more), i, r);
    RunExtends(steps, more, BackoffElapses(i));
    more := more + [BackoffElapses(i)];
    StartsProcessing(Run(steps + more), i, r);
    RunExtends(steps, more, CheckOwned(i));
    more := more + [CheckOwned(i)];
  }

  lemma BacksOff(sys: Sys, i: nat, r: Record)
    requires AtWork(sys, i, r, Acting(RetryAction))
    ensures var after := Next(sys, Act(i));
            && AtWork(after, i, r, BackingOff) && SamePositions(sys, after, i)
            && after.committed == sys.committed && after.receipts == sys.receipts && after.dlq == sys.dlq
  {
  }

  lemma ComesBack(sys: Sys, i: nat, r: Record)
    requires AtWork(sys, i, r, BackingOff)
    ensures var after := Next(sys, BackoffElapses(i));
            && AtWork(after, i, r, Checking) && SamePositions(sys, after, i)
            && after.committed == sys.committed && after.receipts == sys.receipts && after.dlq == sys.dlq
  {
  }

  lemma StartsProcessing(sys: Sys, i: nat, r: Record)
    requires AtWork(sys, i, r, Checking)
    ensures var after := Next(sys, CheckOwned(i));
            && AtWork(after, i, r, Processing) && Untouched(sys, after, i) && SamePositions(sys, after, i)
            && after.committed == sys.committed && after.receipts == sys.receipts && after.dlq == sys.dlq
            && after.workers[i].acked == sys.workers[i].acked
  {
  }

  // ---------------------------------------------------------------- the whole log

  /** A worker between two records, with nothing buffered and no shutdown asked for. */
  ghost predicate Free(sys: Sys, i: nat, p: Partition) {
    && i in sys.workers && sys.workers[i].stage == Idle && sys.workers[i].buffered == [] && !sys.workers[i].shutdown
    && p in sys.workers[i].assignment && p in sys.workers[i].position && p in sys.workers[i].acked
  }

  lemma FetchesNext(sys: Sys, i: nat, p: Partition)
    requires Free(sys, i, p) && sys.workers[i].position[p] < LogEnd(sys, p)
    ensures var w := sys.workers[i];
            var r := Record(p, w.position[p], w.epoch);
            var after := Next(sys, Receive(i, p, true));
            && AtWork(after, i, r, Checking) && Untouched(sys, after, i)
            && after.workers[i].position == w.position[p := w.position[p] + 1] && after.workers[i].acked == w.acked
            && after.committed == sys.committed && after.receipts == sys.receipts && after.dlq == sys.dlq
  {
  }

  /** A free worker can take the next record of the log and bring it to its end. */
  lemma NextRecordIsFinished(steps: seq<Step>, i: nat, p: Partition) returns (more: seq<Step>)
    requires Free(Run(steps), i, p) && Run(steps).workers[i].position[p] < LogEnd(Run(steps), p)
    ensures OwnSteps(i, more)
    ensures var before, after := Run(steps), Run(steps + more);
            && Free(after, i, p) && after.log == before.log
            && after.workers[i].position[p] == before.workers[i].position[p] + 1
            && At(after.committed, p) == after.workers[i].position[p]
  {
    hide Run, Next, AtWork;
    var start := Run(steps);
    var w := start.workers[i];
    var r := Record(p, w.position[p], w.epoch);
    FetchesNext(start, i, p);
    RunExtends(steps, [], Receive(i, p, true));
    assert steps + [] == steps;
    more := [] + [Receive(i, p, true)];
    StartsProcessing(Run(steps + more), i, r);
    RunExtends(steps, more, CheckOwned(i));
    more := more + [CheckOwned(i)];
    var rest := AnyIsFinished(steps + more, i, r);
    assert steps + more + rest == steps + (more + rest);
    more := more + rest;
  }

  lemma AnyIsFinished(steps: seq<Step>, i: nat, r: Record) returns (more: seq<Step>)
    requires AtWork(Run(steps), i, r, Processing)
    ensures OwnSteps(i, more) && Finished(Run(steps), Run(steps + more), i, r)
  {
    hide Run;
    var c := RecordAt(Run(steps), r.partition, r.offset).value;
    if c.valid && !IdTaken(Run(steps).receipts, c) {
      more := PersistedIsCommitted(steps, i, r);
    } else {
      more := RejectedIsDeadLettered(steps, i, r, Persists);
    }
  }

  /**
  The whole log can be worked off: from any state of any run, a free worker with something left to fetch, or to whose
  offset nobody else has written, brings every record of its partition to an outcome and commits to the end of the
  log.
  */
  lemma {:induction false} LogIsWorkedOff(steps: seq<Step>, i: nat, p: Partition) returns (more: seq<Step>)
    requires Free(Run(steps), i, p)
    requires Run(steps).workers[i].position[p] < LogEnd(Run(steps), p)
             || At(Run(steps).workers[i].seen, p) == At(Run(steps).writes, p)
    ensures OwnSteps(i, more) && Run(steps + more).log == Run(steps).log
    ensures At(Run(steps + more).committed, p) == LogEnd(Run(steps), p)
    ensures forall o: nat :: o < LogEnd(Run(steps), p) ==> Done(Run(steps + more), p, o)
    decreases LogEnd(Run(steps), p) - Run(steps).workers[i].position[p]
  {
    hide Run, Done;
    if Run(steps).workers[i].position[p] < LogEnd(Run(steps), p) {
      more := WorksOffRest(steps, i, p);
    } else {
      more := [];
      assert steps + [] == steps;
      NothingLeft(steps, i, p);
    }
    forall o: nat | o < LogEnd(Run(steps), p) ensures Done(Run(steps + more), p, o) {
      CommittedRecordsAreDone(steps + more, p, o);
    }
  }

  lemma {:induction false} WorksOffRest(steps: seq<Step>, i: nat, p: Partition) returns (more: seq<Step>)
    requires Free(Run(steps), i, p) && Run(steps).workers[i].position[p] < LogEnd(Run(steps), p)
    ensures OwnSteps(i, more) && Run(steps + more).log == Run(steps).log
    ensures At(Run(steps + more).committed, p) == LogEnd(Run(steps), p)
    decreases LogEnd(Run(steps), p) - Run(steps).workers[i].position[p]
  {
    hide Run;
    more := NextRecordIsFinished(steps, i, p);
    if Run(steps + more).workers[i].position[p] < LogEnd(Run(steps), p) {
      var rest := WorksOffRest(steps + more, i, p);
      assert steps + more + rest == steps + (more + rest);
      more := more + rest;
    }
  }

  /** Nothing in flight and nothing to fetch: what is committed is the end of the log, unless somebody else wrote it. */
  lemma NothingLeft(steps: seq<Step>, i: nat, p: Partition)
    requires Free(Run(steps), i, p) && Run(steps).workers[i].position[p] >= LogEnd(Run(steps), p)
    requires At(Run(steps).workers[i].seen, p) == At(Run(steps).writes, p)
    ensures At(Run(steps).committed, p) == LogEnd(Run(steps), p)
  {
    hide Run;
    RunKeepsInvariant(steps);
    var w := Run(steps).workers[i];
    assert WorkerOk(Run(steps), w);
    assert PartitionOk(Run(steps), w, p);
    assert |Range(w.acked[p], w.position[p])| == 0;
  }
}
