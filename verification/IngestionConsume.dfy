/**
The consume loop as it runs: nested loops over one consumer, with the await points fed by a script of events.

Whatever the script holds, the loop only ever takes steps of the run model, so everything proved of its runs holds of
the loop.
*/
module IngestionConsume {
  import opened Common
  import opened IngestionRuntime
  import opened IngestionLoop
  import opened IngestionInvariant
  import P = IngestionProgress

  /**
  What an await point observes next; `Outside` is any step of the rest of the world, rebalances and signals included.
  */
  datatype Event =
    | Outside(step: Step)
    | Delivered(p: Partition, seekOk: bool)
    | PollError
    | ShutdownNoticed
    | Processed(verdict: Verdict)
    | PublishAnswered(ok: bool, stored: bool)
    | CommitLanded
    | CommitAnswered(ok: bool)
    | DelayOver

  /** Not a step of this worker's own thread. */
  predicate External(me: nat, step: Step) {
    match step
    case Produce(_, _) => true
    case PersistElsewhere(_, _) => true
    case LateCommitLands(_, _) => true
    case Rebalance(_, _) => true
    case RequestShutdown(_) => true
    case _ => step.w != me
  }

  lemma ElsewhereKeepsMe(sys: Sys, me: nat, step: Step)
    requires me in sys.workers && External(me, step)
    requires (step.Rebalance? || step.RequestShutdown?) ==> step.w != me
    ensures me in Next(sys, step).workers && Next(sys, step).workers[me] == sys.workers[me]
  {
    hide LocalStep, Landed, ActionFor, ReceiptsAfter, PendingAfter;
  }

  lemma MyStepKeepsMe(sys: Sys, me: nat, step: Step)
    requires me in sys.workers && !step.CrashWorker? && !External(me, step)
    ensures me in Next(sys, step).workers
  {
    hide LocalStep, Landed, ActionFor, ReceiptsAfter, PendingAfter;
  }

  lemma RunExtends(trace: seq<Step>, step: Step)
    ensures Run(trace + [step]) == Next(Run(trace), step)
  {
    assert (trace + [step])[..|trace|] == trace;
  }

  /** A step that changes nothing but this worker, and puts a commit request on its way if it starts one. */
  predicate Internal(me: nat, step: Step) {
    (step.LoopTop? || step.Receive? || step.CheckOwned? || step.Stop? || step.Act? || step.CommitAcknowledged?
     || step.CommitFails? || step.BackoffElapses?) && step.w == me
  }

  lemma InternalStep(sys: Sys, me: nat, step: Step)
    requires me in sys.workers && Internal(me, step)
    ensures me in Next(sys, step).workers && Next(sys, step).workers[me] == LocalStep(sys, sys.workers[me], step)
  {
    hide LocalStep, PendingAfter;
  }

  lemma {:induction false} RetainedIsShorter(w: Worker, records: seq<Record>)
    ensures |Retained(w, records)| <= |records|
  {
    if records != [] { RetainedIsShorter(w, records[1..]); }
  }

  class ConsumeLoop {
    const me: nat
    const consumer: IngestionConsumer
    var world: Sys
    ghost var trace: seq<Step>

    /** The world is a run of the model, and this worker in it is the consumer's state. */
    ghost predicate Tracks()
      reads this, consumer
    {
      world == Run(trace) && me in world.workers && world.workers[me] == consumer.Snapshot()
    }

    /** A worker joins a world that ran so far without it. */
    constructor (me: nat, world: Sys, ghost trace: seq<Step>)
      requires world == Run(trace) && me !in world.workers
      ensures Tracks() && this.me == me && fresh(consumer) && this.trace == trace + [Start(me)]
      ensures consumer.stage == Idle
    {
      this.me := me;
      this.world := Next(world, Start(me));
      this.trace := trace + [Start(me)];
      this.consumer := new IngestionConsumer();
      RunExtends(trace, Start(me));
    }

    /** What the consumer just did, as the world sees it. */
    method Record(step: Step)
      requires world == Run(trace) && me in Next(world, step).workers
      requires Next(world, step).workers[me] == consumer.Snapshot()
      modifies this`world, this`trace
      ensures Tracks() && trace == old(trace) + [step] && world == Next(old(world), step)
    {
      hide Next;
      RunExtends(trace, step);
      world := Next(world, step);
      trace := trace + [step];
    }

    /** Something happens elsewhere; a rebalance or a signal of this worker reaches its consumer. */
    method Observe(step: Step)
      requires Tracks() && External(me, step)
      modifies this`world, this`trace, consumer
      ensures Tracks() && old(trace) <= trace
      ensures consumer.stage == old(consumer.stage) && consumer.inflight == old(consumer.inflight)
      ensures consumer.buffered == old(consumer.buffered)
    {
      if step.Rebalance? && step.w == me {
        if !consumer.stage.Stopped? {
          consumer.epoch := consumer.epoch + 1;
          consumer.assignment := step.assignment;
          consumer.position := map p | p in step.assignment :: At(world.committed, p);
          consumer.acked := map p | p in step.assignment :: At(world.committed, p);
          consumer.seen := map p | p in step.assignment :: At(world.writes, p);
        }
      } else if step.RequestShutdown? && step.w == me {
        consumer.shutdown := true;
      } else {
        ElsewhereKeepsMe(world, me, step);
      }
      Record(step);
    }

    /** The oldest buffered record becomes the record in flight. */
    method TakeBuffered()
      requires Tracks() && consumer.stage == Idle && !consumer.shutdown && consumer.buffered != []
      modifies this`world, this`trace, consumer
      ensures Tracks() && old(trace) <= trace && consumer.stage == Checking && consumer.inflight.Some?
      ensures |consumer.buffered| == old(|consumer.buffered|) - 1
    {
      consumer.inflight := Some(consumer.buffered[0]);
      consumer.buffered := consumer.buffered[1..];
      consumer.stage := Checking;
      InternalStep(world, me, LoopTop(me));
      Record(LoopTop(me));
    }

    method StopAtTop()
      requires Tracks() && consumer.stage == Idle && consumer.shutdown
      modifies this`world, this`trace, consumer
      ensures Tracks() && old(trace) <= trace && consumer.stage == Stopped
      ensures consumer.buffered == old(consumer.buffered)
    {
      consumer.stage := Stopped;
      InternalStep(world, me, LoopTop(me));
      Record(LoopTop(me));
    }

    /** With nothing buffered, the next record of the log becomes the record in flight. */
    method Fetch(p: Partition, seekOk: bool)
      requires Tracks() && consumer.stage == Idle && consumer.buffered == []
      requires p in consumer.position && consumer.position[p] < LogEnd(world, p)
      modifies this`world, this`trace, consumer
      ensures Tracks() && old(trace) <= trace && consumer.stage == Checking && consumer.inflight.Some?
      ensures consumer.buffered == []
    {
      var offset := consumer.position[p];
      consumer.inflight := Some(IngestionRuntime.Record(p, offset, consumer.epoch));
      consumer.position := consumer.position[p := offset + 1];
      consumer.stage := Checking;
      InternalStep(world, me, Receive(me, p, seekOk));
      hide Next, Retained, Rebalanced, Acted, Acknowledged;
      Record(Receive(me, p, seekOk));
    }

    /** A record polled while another is in flight; the loop must end when it can be neither kept nor rewound. */
    method Poll(p: Partition, seekOk: bool)
      requires Tracks() && (consumer.stage.Processing? || consumer.stage.BackingOff?)
      modifies this`world, this`trace, consumer
      ensures Tracks() && old(trace) <= trace && consumer.inflight == old(consumer.inflight)
      ensures consumer.stage == old(consumer.stage) || consumer.stage == Stopped
    {
      if p in consumer.position && consumer.position[p] < LogEnd(world, p) {
        var keepGoing := consumer.BufferOrRewindPolledMessage(p, seekOk);
        InternalStep(world, me, Receive(me, p, seekOk));
        Record(Receive(me, p, seekOk));
      }
    }

    method Halt()
      requires Tracks() && (consumer.stage.Processing? || consumer.stage.BackingOff?)
      modifies this`world, this`trace, consumer
      ensures Tracks() && old(trace) <= trace && consumer.stage == Stopped
      ensures consumer.inflight == old(consumer.inflight)
    {
      consumer.stage := Stopped;
      InternalStep(world, me, Stop(me));
      Record(Stop(me));
    }

    /** Before any work on it, a record of a past assignment is given up. */
    method CheckOwnership() returns (owned: bool)
      requires Tracks() && consumer.stage == Checking && consumer.inflight.Some?
      modifies this`world, this`trace, consumer
      ensures Tracks() && old(trace) <= trace
      ensures if owned then consumer.stage == Processing && consumer.inflight == old(consumer.inflight)
              else consumer.stage == Idle
      ensures |consumer.buffered| <= old(|consumer.buffered|)
    {
      RetainedIsShorter(consumer.Snapshot(), consumer.buffered);
      owned := consumer.RecordIsOwned(consumer.inflight.value);
      if owned { consumer.stage := Processing; } else { consumer.GiveUpUnowned(); }
      InternalStep(world, me, CheckOwned(me));
      Record(CheckOwned(me));
    }

    /** The receipt transaction or its refusal, and what the loop is to do about the record. */
    method FinishProcessing(verdict: Verdict)
      requires Tracks() && consumer.stage == Processing && consumer.inflight.Some?
      modifies this`world, this`trace, consumer
      ensures Tracks() && old(trace) <= trace && consumer.inflight == old(consumer.inflight)
      ensures var r := consumer.inflight.value;
              var c := RecordAt(old(world), r.partition, r.offset);
              if c.None? then consumer.stage == Processing && world == old(world)
              else consumer.stage.Acting? && P.Decided(old(world).receipts, c.value, verdict, consumer.stage.action)
    {
      var r := consumer.inflight.value;
      var c := RecordAt(world, r.partition, r.offset);
      if c.Some? {
        consumer.stage := Acting(ActionFor(world.receipts, c.value, verdict));
        assert !External(me, ProcessingEnds(me, verdict));
        MyStepKeepsMe(world, me, ProcessingEnds(me, verdict));
        Record(ProcessingEnds(me, verdict));
      }
    }

    /** Processing runs on while records are polled, until it ends, the shutdown is noticed, or the script does. */
    method AwaitProcessing(script: seq<Event>, i: nat) returns (j: nat)
      requires Tracks() && consumer.stage == Processing && consumer.inflight.Some? && i <= |script|
      requires forall e :: e in script && e.Outside? ==> External(me, e.step)
      modifies this`world, this`trace, consumer
      ensures Tracks() && old(trace) <= trace && i <= j <= |script| && consumer.inflight == old(consumer.inflight)
      ensures ((consumer.stage.Acting? || consumer.stage == Stopped) && i < j)
              || (consumer.stage == Processing && j == |script|)
    {
      hide Tracks, External;
      j := i;
      while j < |script| && consumer.stage == Processing
        invariant Tracks() && old(trace) <= trace && i <= j <= |script| && consumer.inflight == old(consumer.inflight)
        invariant consumer.stage == Processing || ((consumer.stage.Acting? || consumer.stage == Stopped) && i < j)
        decreases |script| - j
      {
        var e := script[j];
        j := j + 1;
        match e {
          case Outside(step) => Observe(step);
          case Delivered(p, seekOk) => Poll(p, seekOk);
          case ShutdownNoticed => if consumer.shutdown { Halt(); }
          case Processed(verdict) => FinishProcessing(verdict);
          case _ =>
        }
      }
    }

    /** A request to commit the record in flight leaves, unless shutdown is latched or the record is no longer owned. */
    method BeginCommit()
      requires Tracks() && consumer.inflight.Some?
      requires consumer.stage == Published
               || (consumer.stage == Acting(CommitAction) && Owned(consumer.Snapshot(), consumer.inflight.value))
      modifies this`world, this`trace, consumer
      ensures Tracks() && old(trace) <= trace
      ensures consumer.stage == Stopped || consumer.stage == Idle
           || (consumer.stage == Committing(false) && consumer.inflight == old(consumer.inflight))
    {
      if consumer.shutdown {
        consumer.stage := Stopped;
      } else {
        var owned := consumer.RecordIsOwned(consumer.inflight.value);
        if owned { consumer.stage := Committing(false); } else { consumer.GiveUpUnowned(); }
      }
      InternalStep(world, me, Act(me));
      Record(Act(me));
    }

    /** Waiting for the commit; it may take effect before it is answered, and a failure may hide that it did. */
    method AwaitCommit(script: seq<Event>, i: nat) returns (j: nat)
      requires Tracks() && consumer.stage == Committing(false) && consumer.inflight.Some? && i <= |script|
      requires forall e :: e in script && e.Outside? ==> External(me, e.step)
      modifies this`world, this`trace, consumer
      ensures Tracks() && old(trace) <= trace && i <= j <= |script|
      ensures consumer.stage == Idle || (consumer.stage == BackingOff && consumer.inflight.Some?) || j == |script|
    {
      hide Tracks, External;
      j := i;
      while j < |script| && consumer.stage.Committing?
        invariant Tracks() && old(trace) <= trace && i <= j <= |script|
        invariant consumer.stage == Idle
                  || ((consumer.stage == BackingOff || consumer.stage.Committing?) && consumer.inflight.Some?)
        decreases |script| - j
      {
        var e := script[j];
        j := j + 1;
        match e {
          case Outside(step) => Observe(step);
          case CommitLanded => if !consumer.stage.landed { LandCommit(); }
          case CommitAnswered(ok) =>
            if !ok { FailCommit(); }
            else if consumer.stage.landed { FinishCommit(); }
          case _ =>
        }
      }
    }

    method LandCommit()
      requires Tracks() && consumer.stage == Committing(false) && consumer.inflight.Some?
      modifies this`world, this`trace, consumer
      ensures Tracks() && old(trace) <= trace && consumer.stage == Committing(true)
      ensures consumer.inflight == old(consumer.inflight)
    {
      ghost var r := consumer.inflight.value;
      ghost var agrees := Owned(consumer.Snapshot(), r)
      && At(consumer.seen, r.partition) == At(world.writes, r.partition);
      consumer.stage := Committing(true);
      if agrees { consumer.seen := consumer.seen[r.partition := At(world.writes, r.partition) + 1]; }
      MyStepKeepsMe(world, me, CommitLands(me));
      Record(CommitLands(me));
    }

    /** The commit is acknowledged: the record is finished. */
    method FinishCommit()
      requires Tracks() && consumer.stage == Committing(true) && consumer.inflight.Some?
      modifies this`world, this`trace, consumer
      ensures Tracks() && old(trace) <= trace && consumer.stage == Idle
    {
      ghost var r := consumer.inflight.value;
      if Owned(consumer.Snapshot(), r) && r.partition in consumer.acked {
        consumer.acked := consumer.acked[r.partition := r.offset + 1];
      }
      consumer.inflight, consumer.stage := None, Idle;
      InternalStep(world, me, CommitAcknowledged(me));
      hide Next;
      Record(CommitAcknowledged(me));
    }

    method FailCommit()
      requires Tracks() && consumer.stage.Committing? && consumer.inflight.Some?
      modifies this`world, this`trace, consumer
      ensures Tracks() && old(trace) <= trace && consumer.stage == BackingOff
      ensures consumer.inflight == old(consumer.inflight)
    {
      consumer.stage := BackingOff;
      InternalStep(world, me, CommitFails(me));
      hide Next;
      Record(CommitFails(me));
    }

    /** Waiting for the dead letter publication; one reported as failed may have been stored. */
    method AwaitPublish(script: seq<Event>, i: nat) returns (j: nat)
      requires Tracks() && consumer.stage == Publishing && consumer.inflight.Some? && i <= |script|
      requires forall e :: e in script && e.Outside? ==> External(me, e.step)
      modifies this`world, this`trace, consumer
      ensures Tracks() && old(trace) <= trace && i <= j <= |script| && consumer.inflight == old(consumer.inflight)
      ensures consumer.stage == Published || consumer.stage == BackingOff || j == |script|
    {
      hide Tracks, External;
      j := i;
      while j < |script| && consumer.stage == Publishing
        invariant Tracks() && old(trace) <= trace && i <= j <= |script| && consumer.inflight == old(consumer.inflight)
        invariant consumer.stage == Published || consumer.stage == BackingOff || consumer.stage == Publishing
        decreases |script| - j
      {
        var e := script[j];
        j := j + 1;
        match e {
          case Outside(step) => Observe(step);
          case PublishAnswered(ok, stored) => EndPublish(ok, stored);
          case _ =>
        }
      }
    }

    method EndPublish(ok: bool, stored: bool)
      requires Tracks() && consumer.stage == Publishing && consumer.inflight.Some?
      modifies this`world, this`trace, consumer
      ensures Tracks() && old(trace) <= trace && consumer.inflight == old(consumer.inflight)
      ensures consumer.stage == if ok then Published else BackingOff
    {
      consumer.stage := if ok then Published else BackingOff;
      MyStepKeepsMe(world, me, PublishEnds(me, ok, stored));
      Record(PublishEnds(me, ok, stored));
    }

    /** What processing decided: give a lost record up, back off, publish, or commit. */
    method ActOn(script: seq<Event>, i: nat) returns (j: nat)
      requires Tracks() && consumer.stage.Acting? && consumer.inflight.Some? && i <= |script|
      requires forall e :: e in script && e.Outside? ==> External(me, e.step)
      modifies this`world, this`trace, consumer
      ensures Tracks() && old(trace) <= trace && i <= j <= |script|
      ensures consumer.stage == Idle || consumer.stage == Stopped
              || (consumer.stage == BackingOff && consumer.inflight.Some?) || j == |script|
    {
      j := i;
      var owned := consumer.RecordIsOwned(consumer.inflight.value);
      if !owned {
        consumer.GiveUpUnowned();
        InternalStep(world, me, Act(me));
        Record(Act(me));
        return;
      }
      if consumer.stage.action == CommitAction {
        BeginCommit();
        if consumer.stage.Committing? { j := AwaitCommit(script, j); }
      } else {
        LeaveRecord();
        if consumer.stage == Publishing {
          j := AwaitPublish(script, j);
          if consumer.stage == Published {
            BeginCommit();
            if consumer.stage.Committing? { j := AwaitCommit(script, j); }
          }
        }
      }
    }

    /** A retry backs off; a rejected record goes to the dead letter topic, unless shutdown is latched. */
    method LeaveRecord()
      requires Tracks() && (consumer.stage == Acting(RetryAction) || consumer.stage == Acting(DlqAction))
      requires consumer.inflight.Some?
      requires Owned(consumer.Snapshot(), consumer.inflight.value)
      modifies this`world, this`trace, consumer
      ensures Tracks() && old(trace) <= trace && consumer.inflight == old(consumer.inflight)
      ensures consumer.stage == BackingOff || consumer.stage == Stopped || consumer.stage == Publishing
    {
      if consumer.stage.action == RetryAction { consumer.stage := BackingOff; }
      else if consumer.shutdown { consumer.stage := Stopped; }
      else { consumer.stage := Publishing; }
      InternalStep(world, me, Act(me));
      Record(Act(me));
    }

    /** Polling until the delay ends, shutdown is noticed, or a rewind fails. */
    method PollDuringBackoff(script: seq<Event>, i: nat) returns (j: nat)
      requires Tracks() && consumer.stage == BackingOff && consumer.inflight.Some? && i <= |script|
      requires forall e :: e in script && e.Outside? ==> External(me, e.step)
      modifies this`world, this`trace, consumer
      ensures Tracks() && old(trace) <= trace && i <= j <= |script| && consumer.inflight == old(consumer.inflight)
      ensures consumer.stage == Checking || consumer.stage == Stopped || j == |script|
    {
      if consumer.shutdown {
        Halt();
        return i;
      }
      hide Tracks, External;
      j := i;
      while j < |script| && consumer.stage == BackingOff
        invariant Tracks() && old(trace) <= trace && i <= j <= |script| && consumer.inflight == old(consumer.inflight)
        invariant consumer.stage == BackingOff || consumer.stage == Checking || consumer.stage == Stopped
        decreases |script| - j
      {
        var e := script[j];
        j := j + 1;
        match e {
          case Outside(step) => Observe(step);
          case Delivered(p, seekOk) => Poll(p, seekOk);
          case ShutdownNoticed => if consumer.shutdown { Halt(); }
          case DelayOver => EndBackoff();
          case _ =>
        }
      }
    }

    method EndBackoff()
      requires Tracks() && consumer.stage == BackingOff
      modifies this`world, this`trace, consumer
      ensures Tracks() && old(trace) <= trace && consumer.stage == Checking
      ensures consumer.inflight == old(consumer.inflight)
    {
      consumer.stage := Checking;
      InternalStep(world, me, BackoffElapses(me));
      Record(BackoffElapses(me));
    }

    /** One record, from the ownership check to its commit, its loss, or the end of the loop. */
    method HandleRecord(script: seq<Event>, i: nat) returns (j: nat)
      requires Tracks() && consumer.stage == Checking && consumer.inflight.Some? && i <= |script|
      requires forall e :: e in script && e.Outside? ==> External(me, e.step)
      modifies this`world, this`trace, consumer
      ensures Tracks() && old(trace) <= trace && i <= j <= |script|
      ensures consumer.stage == Idle || consumer.stage == Stopped || j == |script|
      ensures i < j || j == |script| || |consumer.buffered| <= old(|consumer.buffered|)
    {
      hide Tracks, External;
      j := i;
      while j < |script| && consumer.stage == Checking
        invariant Tracks() && old(trace) <= trace && i <= j <= |script|
        invariant (consumer.stage == Checking && consumer.inflight.Some?) || consumer.stage == Idle
                  || consumer.stage == Stopped || j == |script|
        invariant i < j || |consumer.buffered| <= old(|consumer.buffered|)
        decreases |script| - j, consumer.stage == Checking
      {
        var owned := CheckOwnership();
        if owned {
          j := AwaitProcessing(script, j);
          if consumer.stage.Acting? {
            j := ActOn(script, j);
            if consumer.stage == BackingOff && consumer.inflight.Some? { j := PollDuringBackoff(script, j); }
          }
        }
      }
    }

    /** The loop, for as long as the script lasts or until it ends by itself. */
    method Consume(script: seq<Event>)
      requires Tracks() && consumer.stage == Idle
      requires forall e :: e in script && e.Outside? ==> External(me, e.step)
      modifies this`world, this`trace, consumer
      ensures Tracks() && old(trace) <= trace
      ensures forall p: Partition, o: nat :: o < At(world.committed, p) ==> Done(world, p, o)
    {
      hide Tracks, External, Done;
      var i := 0;
      while i < |script| && consumer.stage == Idle
        invariant Tracks() && old(trace) <= trace && i <= |script|
        invariant consumer.stage == Idle || consumer.stage == Stopped || i == |script|
        decreases |script| - i, |consumer.buffered|, consumer.stage == Idle
      {
        if consumer.shutdown {
          StopAtTop();
        } else if consumer.buffered != [] {
          TakeBuffered();
          i := HandleRecord(script, i);
        } else {
          var e := script[i];
          i := i + 1;
          match e {
            case Outside(step) => Observe(step);
            case Delivered(p, seekOk) =>
              if p in consumer.position && consumer.position[p] < LogEnd(world, p) {
                Fetch(p, seekOk);
                i := HandleRecord(script, i);
              }
            case _ =>
          }
        }
      }
      forall p: Partition, o: nat | o < At(world.committed, p) ensures Done(world, p, o) { LoopCommitsOnlyDone(p, o); }
    }

    lemma LoopCommitsOnlyDone(p: Partition, o: nat)
      requires Tracks() && o < At(world.committed, p)
      ensures Done(world, p, o)
    {
      CommittedRecordsAreDone(trace, p, o);
    }
  }
}
