/**
The embedding worker's cycle as it runs, on the real decorator, with the rest of the world at work between its awaits.

Whatever happens, the loop only takes steps of the run model, so everything proved of its runs holds of the loop.
*/
module EmbeddingConsume {
  import opened Common
  import opened RetryDlq
  import opened EmbeddingWorker
  import opened EmbeddingLoop

  /** How a commit ends; an error may hide that it took effect. */
  datatype CommitAnswer = Acknowledged | Refused(landed: bool)

  /** What one cycle meets. `partition` is where the fetched record comes from, None a failed fetch. */
  datatype Cycle = Cycle(partition: Option<nat>, inner: Inner, env: Surroundings, retryTo: nat, stored: bool,
                         commit: CommitAnswer, closeOk: bool,
                         beforeFetch: seq<Step>, duringProcessing: seq<Step>, duringCommit: seq<Step>)

  /** Not a step of this worker's own loop. */
  predicate External(me: nat, step: Step) {
    match step
    case Produce(_, _) => true
    case StartWorker(w, _) => w != me
    case Crash(w) => w != me
    case _ => step.w != me
  }

  predicate Elsewhere(me: nat, c: Cycle) {
    forall s :: s in c.beforeFetch + c.duringProcessing + c.duringCommit ==> External(me, s)
  }

  lemma RunExtends(cfg: Config, trace: seq<Step>, step: Step)
    ensures Run(cfg, trace + [step]) == Next(Run(cfg, trace), cfg, step)
  {
    assert (trace + [step])[..|trace|] == trace;
  }

  /** Steps elsewhere leave this worker alone, and records and fates where they are. */
  lemma ExternalKeeps(sys: Sys, cfg: Config, step: Step, me: nat, at: Place)
    requires External(me, step) && me in sys.workers
    ensures me in Next(sys, cfg, step).workers && Next(sys, cfg, step).workers[me] == sys.workers[me]
    ensures InLog(sys, at) ==>
              InLog(Next(sys, cfg, step), at) && MessageAt(Next(sys, cfg, step), at) == MessageAt(sys, at)
    ensures Resolved(sys, at) ==> Resolved(Next(sys, cfg, step), at)
  {
    hide RetryCopy, DeadLetter, Restarted;
  }

  class EmbeddingConsumer {
    const me: nat
    const decorator: RetryDecorator
    var world: Sys
    ghost var trace: seq<Step>

    ghost predicate Tracks()
      reads this
    {
      world == Run(decorator.cfg, trace) && me in world.workers
    }

    constructor (me: nat, cfg: Config, partitions: set<nat>, world: Sys, ghost trace: seq<Step>)
      requires world == Run(WithDefaults(cfg), trace) && me !in world.workers
      ensures Tracks() && this.me == me && fresh(decorator) && this.trace == trace + [StartWorker(me, partitions)]
      ensures this.world.workers[me].stage.AwaitingDependency?
    {
      this.me := me;
      this.decorator := new RetryDecorator(cfg);
      this.world := Next(world, WithDefaults(cfg), StartWorker(me, partitions));
      this.trace := trace + [StartWorker(me, partitions)];
      RunExtends(WithDefaults(cfg), trace, StartWorker(me, partitions));
    }

    method Record(step: Step)
      requires Tracks() && me in Next(world, decorator.cfg, step).workers
      modifies this`world, this`trace
      ensures Tracks() && trace == old(trace) + [step] && world == Next(old(world), decorator.cfg, step)
    {
      hide Next;
      RunExtends(decorator.cfg, trace, step);
      world := Next(world, decorator.cfg, step);
      trace := trace + [step];
    }

    method Interfere(others: seq<Step>, ghost at: Place)
      requires Tracks() && forall s :: s in others ==> External(me, s)
      modifies this`world, this`trace
      ensures Tracks() && old(trace) <= trace && world.workers[me] == old(world).workers[me]
      ensures InLog(old(world), at) ==> InLog(world, at) && MessageAt(world, at) == MessageAt(old(world), at)
      ensures Resolved(old(world), at) ==> Resolved(world, at)
    {
      hide External, Next, Resolved, InLog, MessageAt, Run;
      for i := 0 to |others|
        invariant Tracks() && old(trace) <= trace && world.workers[me] == old(world).workers[me]
        invariant InLog(old(world), at) ==> InLog(world, at) && MessageAt(world, at) == MessageAt(old(world), at)
        invariant Resolved(old(world), at) ==> Resolved(world, at)
      {
        ExternalKeeps(world, decorator.cfg, others[i], me, at);
        Record(others[i]);
      }
    }

    ghost predicate Busy(at: Place, stage: Stage)
      reads this
    {
      Tracks() && world.workers[me].stage == stage && world.workers[me].inflight == Some(at) && InLog(world, at)
    }

    /** The reader is gone: a new one waits for the dependency, or the loop has ended. */
    ghost predicate ReaderRenewed()
      reads this
    {
      && Tracks() && world.workers[me].inflight.None?
      && (world.workers[me].stage.AwaitingDependency? || world.workers[me].stage.Stopped?)
    }

    /** The offset last committed in this partition belongs to a record that has a fate. */
    ghost predicate LatestIsResolved(p: nat)
      reads this
    {
      At(world.committed, p) > 0 && Resolved(world, (p, At(world.committed, p) - 1))
    }

    /**
    The decorator's verdict on the record in flight, as a step; false means that the offset must stay uncommitted.
    */
    method ProcessRecord(at: Place, c: Cycle) returns (ok: bool)
      requires Busy(at, Processing)
      modifies this`world, this`trace, decorator`published
      ensures old(trace) <= trace && if ok then Busy(at, Committing) && Resolved(world, at) else ReaderRenewed()
      ensures world.committed == old(world).committed
    {
      hide RetryCopy, DeadLetter, Run, Restarted;
      var m := MessageAt(world, at);
      var outcome, failed := decorator.Process(m, c.inner, c.env);
      if !failed {
        Succeed(at, outcome, c);
        return true;
      }
      if !c.inner.retryable { Record(Unavailable(me, c.closeOk)); }
      else if RetryCount(m.headers) < decorator.cfg.maxRetries {
        Record(FailsAndRetryIsLost(me, c.retryTo, c.stored && !c.env.cancelled, c.closeOk));
      }
      else { Record(FailsForGood(me, false, c.stored, c.closeOk)); }
      ok := false;
    }

    /** Handled, copied to the retry topic, or dead-lettered: the record now has a fate. */
    method Succeed(at: Place, outcome: Outcome, c: Cycle)
      requires Busy(at, Processing)
      requires var limit := RetryCount(MessageAt(world, at).headers) >= decorator.cfg.maxRetries;
               (outcome.Retried? ==> !limit) && (outcome.ToDeadLetters? ==> limit)
      modifies this`world, this`trace
      ensures old(trace) <= trace && Busy(at, Committing) && Resolved(world, at)
      ensures world.committed == old(world).committed
    {
      hide RetryCopy, DeadLetter, Run, Restarted;
      match outcome {
        case Processed =>
          Record(Succeeds(me));
          assert (at, Handled) in world.fates;
        case Retried =>
          ghost var copy := (c.retryTo, |LogOf(world, c.retryTo)|);
          Record(FailsAndRetries(me, c.retryTo));
          assert (at, CopiedTo(copy)) in world.fates;
        case ToDeadLetters =>
          Record(FailsForGood(me, true, true, c.closeOk));
          assert (at, DeadLettered) in world.fates;
      }
    }

    /**
    One fetch, process and commit. Without a failure the record fetched has a fate and its offset was committed after
    it got one; after any failure the reader is gone, so nothing later can be committed on it.
    */
    method FetchAndProcess(c: Cycle) returns (failed: bool)
      requires Tracks() && world.workers[me].stage.Fetching? && Elsewhere(me, c)
      modifies this`world, this`trace, decorator`published
      ensures old(trace) <= trace
      ensures if failed then ReaderRenewed()
              else
                && Tracks() && world.workers[me].stage.Fetching?
                && c.partition.Some? && LatestIsResolved(c.partition.value)
    {
      hide RetryCopy, DeadLetter, Run, Restarted;
      Interfere(c.beforeFetch, (0, 0));
      if c.partition.None? || c.partition.value !in world.workers[me].position
         || world.workers[me].position[c.partition.value] >= |LogOf(world, c.partition.value)| {
        Record(FetchFails(me, c.closeOk));
        return true;
      }
      var p := c.partition.value;
      var at := (p, world.workers[me].position[p]);
      Record(FetchRecord(me, p));
      Interfere(c.duringProcessing, at);
      var ok := ProcessRecord(at, c);
      if !ok { return true; }
      Interfere(c.duringCommit, at);
      failed := Commit(at, c);
    }

    method Commit(at: Place, c: Cycle) returns (failed: bool)
      requires Busy(at, Committing) && Resolved(world, at)
      modifies this`world, this`trace
      ensures old(trace) <= trace && Tracks()
      ensures if failed then ReaderRenewed()
              else world.workers[me].stage.Fetching? && At(world.committed, at.0) == at.1 + 1 && Resolved(world, at)
    {
      hide RetryCopy, DeadLetter, Run, Restarted;
      match c.commit {
        case Acknowledged => Record(CommitSucceeds(me)); failed := false;
        case Refused(landed) => Record(CommitFails(me, landed, c.closeOk)); failed := true;
      }
    }

    /**
    The loop over a script of cycles; every offset ever committed is resolved, and nothing committed passes an
    unresolved record.
    */
    method Consume(cycles: seq<Cycle>)
      requires Tracks() && world.workers[me].stage.AwaitingDependency?
      requires forall c :: c in cycles ==> Elsewhere(me, c)
      modifies this`world, this`trace, decorator`published
      ensures Tracks() && old(trace) <= trace
      ensures forall p: nat, o: nat :: o < At(world.committed, p) ==> Resolved(world, (p, o))
    {
      hide Run, Elsewhere, Resolved;
      var dependencyReady := false;
      for i := 0 to |cycles|
        invariant Tracks() && old(trace) <= trace
        invariant world.workers[me].stage == (if dependencyReady then Fetching else AwaitingDependency)
                  || world.workers[me].stage.Stopped?
      {
        if world.workers[me].stage.Stopped? { break; }
        if !dependencyReady {
          Record(DependencyReady(me));
          dependencyReady := true;
        }
        var failed := FetchAndProcess(cycles[i]);
        if failed { dependencyReady := false; }
      }
      forall p: nat, o: nat | o < At(world.committed, p) ensures Resolved(world, (p, o)) {
        NoCommitOvertakes(decorator.cfg, trace, p, o);
      }
    }
  }
}
