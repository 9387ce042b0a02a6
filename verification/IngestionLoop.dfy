/** The mutable consumer behind the run model: what it knows of its assignment, and the buffer operations. */
module IngestionLoop {
  import opened Common
  import opened IngestionRuntime

  class IngestionConsumer {
    var epoch: nat
    var assignment: set<Partition>
    var position: map<Partition, nat>
    ghost var acked: map<Partition, nat>
    ghost var seen: map<Partition, nat>
    var buffered: seq<Record>
    var inflight: Option<Record>
    var stage: Stage
    var shutdown: bool

    ghost function Snapshot(): Worker
      reads this
    {
      Worker(epoch, assignment, position, acked, seen, buffered, inflight, stage, shutdown)
    }

    constructor ()
      ensures Snapshot() == FreshWorker
    {
      epoch, assignment, position, acked, seen := 0, {}, map[], map[], map[];
      buffered, inflight, stage, shutdown := [], None, Idle, false;
    }

    method RecordIsOwned(r: Record) returns (owned: bool)
      ensures owned == Owned(Snapshot(), r) == (r.epoch == epoch && r.partition in assignment)
    {
      owned := r.epoch == epoch && r.partition in assignment;
    }

    /** Keeps the records of the current assignment, in order. */
    method RetainOwnedRecords()
      modifies this`buffered
      ensures buffered == Retained(Snapshot(), old(buffered))
    {
      var kept: seq<Record> := [];
      var i := |buffered|;
      while i > 0
        invariant 0 <= i <= |buffered| && buffered == old(buffered)
        invariant kept == Retained(Snapshot(), buffered[i..])
      {
        i := i - 1;
        var owned := RecordIsOwned(buffered[i]);
        assert buffered[i..][1..] == buffered[i + 1..];
        if owned { kept := [buffered[i]] + kept; }
      }
      ghost var before, records := Snapshot(), buffered;
      assert kept == Retained(before, records) by { assert records[i..] == records; }
      buffered := kept;
      RetainedReadsAssignment(before, Snapshot(), records);
    }

    /** The record in flight is given up together with every other record of a past assignment. */
    method GiveUpUnowned()
      modifies this`buffered, this`inflight, this`stage
      ensures Snapshot() == DropUnowned(old(Snapshot()))
    {
      RetainOwnedRecords();
      RetainedReadsAssignment(Snapshot(), old(Snapshot()), old(buffered));
      inflight, stage := None, Idle;
    }

    /** False means that the record could be neither kept nor rewound, and the loop must end. */
    method BufferOrRewindPolledMessage(p: Partition, seekOk: bool) returns (keepGoing: bool)
      requires p in position
      requires !stage.Stopped?
      modifies this
      ensures Snapshot() == BufferOrRewind(old(Snapshot()), p, seekOk)
      ensures keepGoing <==> |old(buffered)| < 64 || seekOk
      ensures stage == if keepGoing then old(stage) else Stopped
      ensures |old(buffered)| < 64 ==>
                && buffered == old(buffered) + [Record(p, old(position)[p], epoch)]
                && position == old(position)[p := old(position)[p] + 1]
      ensures |old(buffered)| >= 64 ==> buffered == old(buffered) && position == old(position)
      ensures |old(buffered)| <= MAX_RETRY_BUFFERED_MESSAGES ==> |buffered| <= MAX_RETRY_BUFFERED_MESSAGES
    {
      if |buffered| < MAX_RETRY_BUFFERED_MESSAGES {
        buffered := buffered + [Record(p, position[p], epoch)];
        position := position[p := position[p] + 1];
        keepGoing := true;
      } else if seekOk {
        keepGoing := true;
      } else {
        stage := Stopped;
        keepGoing := false;
      }
    }
  }

  /** Retention looks only at the epoch and the assignment. */
  lemma {:induction false} RetainedReadsAssignment(a: Worker, b: Worker, records: seq<Record>)
    requires a.epoch == b.epoch && a.assignment == b.assignment
    ensures Retained(a, records) == Retained(b, records)
  {
    if records != [] { RetainedReadsAssignment(a, b, records[1..]); }
  }
}
