/** The embedding worker's loops as they run: the decorator around one record, and the consume loop. */
module EmbeddingLoop {
  import opened Common
  import opened RetryDlq
  import opened EmbeddingWorker

  datatype Inner = Ok | Fails(retryable: bool)

  datatype Outcome = Processed | Retried | ToDeadLetters

  /** What the surroundings do to one call: cancel the backoff, or refuse the publication. */
  datatype Surroundings = Surroundings(cancelled: bool, publishOk: bool)

  class RetryDecorator {
    const cfg: Config
    var published: seq<Message>

    constructor (c: Config)
      ensures cfg == WithDefaults(c) && published == []
      ensures cfg.maxRetries > 0 && cfg.backoffBase > 0
    {
      cfg, published := WithDefaults(c), [];
    }

    /**
    One call for one record. On success or on a refused retry nothing is published; otherwise the copy with
    the count plus one, or at the limit the dead letter; and a failure to publish leaves the offset alone.
    */
    method Process(m: Message, inner: Inner, env: Surroundings) returns (outcome: Outcome, failed: bool)
      modifies this`published
      ensures failed <==> inner.Fails? && (!inner.retryable || !env.publishOk
                                           || (RetryCount(m.headers) < cfg.maxRetries && env.cancelled))
      ensures !failed ==> outcome == if inner.Ok? then Processed
                                     else if RetryCount(m.headers) < cfg.maxRetries then Retried else ToDeadLetters
      ensures published == old(published) +
                           (if failed || inner.Ok? then []
                            else if RetryCount(m.headers) < cfg.maxRetries then [RetryCopy(cfg, m)]
                            else [DeadLetter(cfg, m)])
    {
      var original := OriginalTopic(m.topic, cfg.retryTopicSuffix);
      if inner.Ok? { return Processed, false; }
      if !inner.retryable { return Processed, true; }
      var count := ReadRetryCount(m.headers);
      if count < cfg.maxRetries {
        if env.cancelled { return Retried, true; }
        var headers := WithRetryCountHeader(m.headers, count + 1);
        if !env.publishOk { return Retried, true; }
        published := published + [Message(RetryTopic(original, cfg.retryTopicSuffix), m.value, headers)];
        return Retried, false;
      }
      var headers := WithRetryCountHeader(m.headers, count);
      if !env.publishOk { return ToDeadLetters, true; }
      published := published + [Message(original + ".DLQ", m.value, headers)];
      outcome, failed := ToDeadLetters, false;
    }
  }

  // ---------------------------------------------------------------- the consume loop

  /** What the loop does to its reader and its dependency; a cycle is one fetch, process and commit. */
  datatype Act = OpenReader | CheckDependency(ready: bool) | Cycle(ok: bool) | CloseReader(ok: bool)

  /**
  What one round of the loop meets. The context may be cancelled while it waits for the dependency or during a cycle,
  which then fails; the script ends when it is cancelled before a round.
  */
  datatype Round = Round(failedChecks: nat, waitCancelled: bool, cycleOk: bool, closeOk: bool, cycleCancelled: bool)

  datatype LoopError = Cancelled | CloseFailed

  datatype Discipline = Discipline(open: bool, tainted: bool, ready: bool)

  /**
  The rule the loop keeps: a cycle runs only on an open reader that has not failed, after a passed
  dependency check; a failed reader is closed before another is opened. None is a breach.
  */
  function Observe(d: Discipline, a: Act): Option<Discipline> {
    match a
    case OpenReader => if d.open then None else Some(Discipline(true, false, d.ready))
    case CheckDependency(ready) => Some(d.(ready := ready))
    case Cycle(ok) => if d.open && !d.tainted && d.ready then Some(Discipline(true, !ok, ok)) else None
    case CloseReader(ok) => if d.open then Some(Discipline(!ok, d.tainted, d.ready)) else None
  }

  function Observed(trace: seq<Act>): Option<Discipline> {
    if trace == [] then Some(Discipline(false, false, false))
    else
      var before := Observed(trace[..|trace| - 1]);
      if before.None? then None else Observe(before.value, trace[|trace| - 1])
  }

  /**
  Checks until one passes or the context is cancelled, which leaves no passed check behind unless it came before the
  first.
  */
  method WaitUntilDependencyReady(trace: seq<Act>, failedChecks: nat, cancelled: bool) returns (ok: bool, out: seq<Act>)
    requires Observed(trace).Some?
    ensures ok <==> !cancelled
    ensures Observed(out) ==
            Some(Observed(trace).value.(ready := ok || (failedChecks == 0 && Observed(trace).value.ready)))
  {
    out := trace;
    for i := 0 to failedChecks
      invariant Observed(out) == Some(Observed(trace).value.(ready := i == 0 && Observed(trace).value.ready))
    {
      ObservedAppend(out, CheckDependency(false));
      out := out + [CheckDependency(false)];
    }
    if cancelled { return false, out; }
    ObservedAppend(out, CheckDependency(true));
    out := out + [CheckDependency(true)];
    ok := true;
  }

  /**
  Whatever the rounds bring, the discipline is kept, and in the end no reader is open unless its last, deferred,
  closing failed. The loop ends by cancellation, or because a reader that had failed could not be closed.
  */
  method ConsumeLoop(script: seq<Round>, deferredCloseOk: bool) returns (error: LoopError, trace: seq<Act>)
    ensures Observed(trace).Some? && trace != []
    ensures Observed(trace).value.open <==> trace[|trace| - 1] == CloseReader(false)
    ensures Observed(trace).value.open ==> !deferredCloseOk
    ensures error == CloseFailed ==> exists i :: 0 <= i < |script| && !script[i].cycleOk && !script[i].closeOk
  {
    var readerClosed;
    error, trace, readerClosed := RunRounds(script);
    if !readerClosed {
      ObservedAppend(trace, CloseReader(deferredCloseOk));
      trace := trace + [CloseReader(deferredCloseOk)];
    }
  }

  /** The loop without its deferred closing. */
  method RunRounds(script: seq<Round>) returns (error: LoopError, trace: seq<Act>, readerClosed: bool)
    ensures Observed(trace).Some? && trace != [] && (readerClosed <==> !Observed(trace).value.open)
    ensures readerClosed ==> trace[|trace| - 1] == CloseReader(true)
    ensures error == CloseFailed ==> exists i :: 0 <= i < |script| && !script[i].cycleOk && !script[i].closeOk
  {
    var none: seq<Act> := [];
    ObservedAppend(none, OpenReader);
    trace := none + [OpenReader];
    var dependencyReady := false;
    error, readerClosed := Cancelled, false;
    var i := 0;
    while i < |script|
      invariant 0 <= i <= |script| && error == Cancelled && !readerClosed
      invariant Observed(trace).Some? && trace != []
      invariant var d := Observed(trace).value; d.open && !d.tainted && (dependencyReady ==> d.ready)
    {
      if !dependencyReady {
        dependencyReady, trace := WaitUntilDependencyReady(trace, script[i].failedChecks, script[i].waitCancelled);
        if !dependencyReady { return; }
      }
      ObservedAppend(trace, Cycle(script[i].cycleOk));
      trace := trace + [Cycle(script[i].cycleOk)];
      if !script[i].cycleOk {
        ObservedAppend(trace, CloseReader(script[i].closeOk));
        trace := trace + [CloseReader(script[i].closeOk)];
        if !script[i].closeOk { return CloseFailed, trace, false; }
        readerClosed, dependencyReady := true, false;
        if script[i].cycleCancelled { return; }
        ObservedAppend(trace, OpenReader);
        trace := trace + [OpenReader];
        readerClosed := false;
      }
      i := i + 1;
    }
  }

  lemma ObservedAppend(trace: seq<Act>, a: Act)
    ensures Observed(trace + [a]) == if Observed(trace).None? then None else Observe(Observed(trace).value, a)
  {
    assert (trace + [a])[..|trace|] == trace;
  }
}
