/**
That the embedding worker gets on: each way in which a record can end leads, by the worker's own steps, to a committed
offset past it, and with a service that works the whole log is handled.
*/
module EmbeddingProgress {
  import opened Common
  import opened RetryDlq
  import opened EmbeddingWorker

  /** How one record may end. */
  datatype End = Succeeds | IsRetried(to: nat) | IsDeadLettered

  /** Below the limit a failed record is retried, at the limit it is dead-lettered; any record may succeed. */
  ghost predicate Possible(cfg: Config, m: Message, end: End) {
    match end
    case Succeeds => true
    case IsRetried(_) => RetryCount(m.headers) < cfg.maxRetries
    case IsDeadLettered => RetryCount(m.headers) >= cfg.maxRetries
  }

  function EndStep(i: nat, end: End): Step {
    match end
    case Succeeds => Step.Succeeds(i)
    case IsRetried(to) => FailsAndRetries(i, to)
    case IsDeadLettered => FailsForGood(i, true, true, true)
  }

  /** The fetching worker has a record to fetch. */
  ghost predicate CanFetch(sys: Sys, i: nat, p: nat) {
    && i in sys.workers && sys.workers[i].stage.Fetching? && p in sys.workers[i].position
    && sys.workers[i].position[p] < |LogOf(sys, p)|
  }

  /** What has been published when the record has ended. */
  ghost predicate PublishedAt(cfg: Config, before: Sys, after: Sys, at: Place, end: End)
    requires InLog(before, at)
  {
    var m := MessageAt(before, at);
    match end
    case Succeeds => after.log == before.log && after.dlq == before.dlq && (at, Handled) in after.fates
    case IsRetried(to) =>
      && after.dlq == before.dlq && after.log.Keys == before.log.Keys + {to}
      && (forall q :: q in before.log && q != to ==> after.log[q] == before.log[q])
      && after.log[to] == LogOf(before, to) + [RetryCopy(cfg, m)]
      && (at, CopiedTo((to, |LogOf(before, to)|))) in after.fates
    case IsDeadLettered =>
      && after.log == before.log && after.dlq == before.dlq + [DeadLetter(cfg, m)]
      && (at, DeadLettered) in after.fates
  }

  lemma Fetches(sys: Sys, cfg: Config, i: nat, p: nat)
    requires CanFetch(sys, i, p)
    ensures var o := sys.workers[i].position[p];
            Next(sys, cfg, FetchRecord(i, p)) ==
            sys.(workers := sys.workers[i := Worker(sys.workers[i].position[p := o + 1], Some((p, o)), Processing)])
  {
  }

  lemma Ends(sys: Sys, cfg: Config, i: nat, at: Place, end: End)
    requires i in sys.workers && sys.workers[i].stage == Processing && sys.workers[i].inflight == Some(at)
    requires InLog(sys, at) && Possible(cfg, MessageAt(sys, at), end)
    ensures var after := Next(sys, cfg, EndStep(i, end));
            && PublishedAt(cfg, sys, after, at, end) && InLog(after, at) && after.committed == sys.committed
            && after.workers == sys.workers[i := sys.workers[i].(stage := Committing)]
  {
    hide RetryCopy, DeadLetter, RetryCount;
  }

  lemma Commits(sys: Sys, cfg: Config, i: nat, at: Place)
    requires i in sys.workers && sys.workers[i].stage == Committing && sys.workers[i].inflight == Some(at)
    requires InLog(sys, at)
    ensures Next(sys, cfg, CommitSucceeds(i)) ==
            sys.(committed := sys.committed[at.0 := at.1 + 1],
                 workers := sys.workers[i := sys.workers[i].(inflight := None, stage := Fetching)])
  {
  }

  /** Fetched, ended and committed: only this record's partition has moved, by one. */
  lemma ThreeStepsFinish(sys: Sys, cfg: Config, i: nat, p: nat, end: End)
    requires CanFetch(sys, i, p)
    requires Possible(cfg, LogOf(sys, p)[sys.workers[i].position[p]], end)
    ensures var o := sys.workers[i].position[p];
            var fetched := Next(sys, cfg, FetchRecord(i, p));
            var ended := Next(fetched, cfg, EndStep(i, end));
            var after := Next(ended, cfg, CommitSucceeds(i));
            && PublishedAt(cfg, sys, after, (p, o), end)
            && after.committed == sys.committed[p := o + 1]
            && after.workers == sys.workers[i := Worker(sys.workers[i].position[p := o + 1], None, Fetching)]
  {
    var o := sys.workers[i].position[p];
    Fetches(sys, cfg, i, p);
    var fetched := Next(sys, cfg, FetchRecord(i, p));
    assert InLog(fetched, (p, o)) && MessageAt(fetched, (p, o)) == LogOf(sys, p)[o];
    Ends(fetched, cfg, i, (p, o), end);
    var ended := Next(fetched, cfg, EndStep(i, end));
    Commits(ended, cfg, i, (p, o));
    hide Next, EndStep, RetryCopy, DeadLetter, RetryCount;
  }

  lemma RunExtends(cfg: Config, steps: seq<Step>, step: Step)
    ensures Run(cfg, steps + [step]) == Next(Run(cfg, steps), cfg, step)
  {
    assert (steps + [step])[..|steps|] == steps;
  }

  /**
  In whichever way the next record ends, the worker's own steps publish what that way asks for and commit past the
  record.
  */
  lemma NextRecordIsFinished(cfg: Config, steps: seq<Step>, i: nat, p: nat, end: End) returns (more: seq<Step>)
    requires CanFetch(Run(cfg, steps), i, p)
    requires Possible(cfg, LogOf(Run(cfg, steps), p)[Run(cfg, steps).workers[i].position[p]], end)
    ensures more == [FetchRecord(i, p), EndStep(i, end), CommitSucceeds(i)]
    ensures var before, after := Run(cfg, steps), Run(cfg, steps + more);
            var o := before.workers[i].position[p];
            && PublishedAt(cfg, before, after, (p, o), end)
            && after.committed == before.committed[p := o + 1]
            && after.workers == before.workers[i := Worker(before.workers[i].position[p := o + 1], None, Fetching)]
  {
    hide Run, Next, PublishedAt, Possible;
    ThreeStepsFinish(Run(cfg, steps), cfg, i, p, end);
    var a, b := steps + [FetchRecord(i, p)], steps + [FetchRecord(i, p)] + [EndStep(i, end)];
    RunExtends(cfg, steps, FetchRecord(i, p));
    RunExtends(cfg, a, EndStep(i, end));
    RunExtends(cfg, b, CommitSucceeds(i));
    more := [FetchRecord(i, p), EndStep(i, end), CommitSucceeds(i)];
    assert steps + more == b + [CommitSucceeds(i)];
  }

  // ---------------------------------------------------------------- after a failure

  /** A step at which the cycle fails; `closes` says whether the reader can then be closed. */
  ghost predicate Fails(sys: Sys, cfg: Config, i: nat, step: Step, closes: bool) {
    && i in sys.workers
    && var w := sys.workers[i];
       match step
       case FetchFails(j, closeOk) => j == i && closeOk == closes && w.stage == Fetching
       case Unavailable(j, closeOk) => j == i && closeOk == closes && HasRecord(sys, w, Processing)
       case FailsAndRetryIsLost(j, _, _, closeOk) =>
         && j == i && closeOk == closes && HasRecord(sys, w, Processing)
         && CountAt(sys, w.inflight.value) < cfg.maxRetries
       case FailsForGood(j, published, _, closeOk) =>
         && j == i && closeOk == closes && !published && HasRecord(sys, w, Processing)
         && CountAt(sys, w.inflight.value) >= cfg.maxRetries
       case CommitFails(j, _, closeOk) => j == i && closeOk == closes && HasRecord(sys, w, Committing)
       case _ => false
  }

  ghost predicate HasRecord(sys: Sys, w: Worker, stage: Stage) {
    w.stage == stage && w.inflight.Some? && InLog(sys, w.inflight.value)
  }

  /** A new reader of the same partitions starts at the committed offsets. */
  ghost predicate StartsOver(sys: Sys, before: Worker, after: Worker) {
    && after.inflight.None? && after.position.Keys == before.position.Keys
    && forall p :: p in after.position ==> after.position[p] == if p in sys.committed then sys.committed[p] else 0
  }

  /**
  After a failure the worker reads on with a new reader, once the dependency is back, or stops if the old one stays
  open.
  */
  lemma FailureStartsOver(sys: Sys, cfg: Config, i: nat, step: Step, closes: bool)
    requires Fails(sys, cfg, i, step, closes)
    ensures var after := Next(sys, cfg, step);
            && i in after.workers && after.fates == sys.fates
            && (!closes ==> after.workers[i].stage == Stopped && after.workers[i].position == map[])
            && (closes ==>
                  && after.workers[i].stage == AwaitingDependency && StartsOver(after, sys.workers[i], after.workers[i])
                  && var ready := Next(after, cfg, DependencyReady(i));
                     ready == after.(workers := after.workers[i := after.workers[i].(stage := Fetching)]))
  {
    hide RetryCopy, DeadLetter, RetryCount;
  }

  /** What the surroundings do: a produced record stands at the end of its log; a worker that crashes is gone. */
  lemma SurroundingsAct(sys: Sys, cfg: Config, p: nat, m: Message, i: nat)
    ensures var after := Next(sys, cfg, Produce(p, m));
            && after == sys.(log := after.log) && LogOf(after, p) == LogOf(sys, p) + [m]
            && forall q :: q != p ==> LogOf(after, q) == LogOf(sys, q)
    ensures var after := Next(sys, cfg, Crash(i));
            && after == sys.(workers := after.workers)
            && after.workers == map j | j in sys.workers && j != i :: sys.workers[j]
  {
  }

  // ---------------------------------------------------------------- the whole log

  /** With a service that works, everything in the partition's log gets handled and committed. */
  lemma {:induction false} LogIsHandled(cfg: Config, steps: seq<Step>, i: nat, p: nat) returns (more: seq<Step>)
    requires CanFetch(Run(cfg, steps), i, p)
    ensures Run(cfg, steps + more).log == Run(cfg, steps).log && Run(cfg, steps + more).dlq == Run(cfg, steps).dlq
    ensures At(Run(cfg, steps + more).committed, p) == |LogOf(Run(cfg, steps), p)|
    ensures forall o: nat :: o < |LogOf(Run(cfg, steps), p)| ==> Resolved(Run(cfg, steps + more), (p, o))
    decreases |LogOf(Run(cfg, steps), p)| - Run(cfg, steps).workers[i].position[p]
  {
    hide Run;
    more := NextRecordIsFinished(cfg, steps, i, p, End.Succeeds);
    if Run(cfg, steps + more).workers[i].position[p] < |LogOf(Run(cfg, steps), p)| {
      var rest := LogIsHandled(cfg, steps + more, i, p);
      assert steps + more + rest == steps + (more + rest);
      more := more + rest;
    } else {
      NoCommitOvertakesAll(cfg, steps + more, p);
    }
  }

  lemma NoCommitOvertakesAll(cfg: Config, steps: seq<Step>, p: nat)
    ensures forall o: nat :: o < At(Run(cfg, steps).committed, p) ==> Resolved(Run(cfg, steps), (p, o))
  {
    hide Run;
    forall o: nat | o < At(Run(cfg, steps).committed, p) ensures Resolved(Run(cfg, steps), (p, o)) {
      NoCommitOvertakes(cfg, steps, p, o);
    }
  }
}
