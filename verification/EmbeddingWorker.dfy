/**
Runs of the embedding worker: fetch one record, process it under the retry decorator, commit, and throw the
reader away after any failure.

Records sit in numbered partitions of the primary and the retry topic. Any number of workers run; rebalances,
crashes, failed publications and failed commits strike between any two steps.
*/
module EmbeddingWorker {
  import opened Common
  import opened RetryDlq

  type Place = (nat, nat)  // partition and offset

  /** What became of a record: handled (or skipped as invalid), copied to the retry topic, or dead-lettered. */
  datatype Fate = Handled | CopiedTo(place: Place) | DeadLettered

  datatype Stage = AwaitingDependency | Fetching | Processing | Committing | Stopped

  /** A reader knows its next offset per partition; at most one fetched record is uncommitted. */
  datatype Worker = Worker(position: map<nat, nat>, inflight: Option<Place>, stage: Stage)

  datatype Sys = Sys(log: map<nat, seq<Message>>, committed: map<nat, nat>, fates: set<(Place, Fate)>,
                     dlq: seq<Message>, workers: map<nat, Worker>)

  datatype Step =
    | Produce(p: nat, message: Message)
    | StartWorker(w: nat, partitions: set<nat>)
    | Crash(w: nat)
    | Rebalance(w: nat, partitions: set<nat>)
    | DependencyReady(w: nat)
    | FetchRecord(w: nat, p: nat)
    | FetchFails(w: nat, closeOk: bool)
    | Succeeds(w: nat)
    | Unavailable(w: nat, closeOk: bool)
    | FailsAndRetries(w: nat, to: nat)
    | FailsAndRetryIsLost(w: nat, to: nat, stored: bool, closeOk: bool)
    | FailsForGood(w: nat, published: bool, stored: bool, closeOk: bool)
    | CommitSucceeds(w: nat)
    | CommitFails(w: nat, landed: bool, closeOk: bool)

  function At(m: map<nat, nat>, p: nat): nat {
    if p in m then m[p] else 0
  }

  function LogOf(sys: Sys, p: nat): seq<Message> {
    if p in sys.log then sys.log[p] else []
  }

  predicate InLog(sys: Sys, at: Place) {
    at.1 < |LogOf(sys, at.0)|
  }

  function MessageAt(sys: Sys, at: Place): Message
    requires InLog(sys, at)
  {
    LogOf(sys, at.0)[at.1]
  }

  function CountAt(sys: Sys, at: Place): nat
    requires InLog(sys, at)
  {
    RetryCount(MessageAt(sys, at).headers)
  }

  /** The copy that the decorator publishes for a failed record below the limit. */
  function RetryCopy(cfg: Config, m: Message): Message {
    Message(RetryTopic(OriginalTopic(m.topic, cfg.retryTopicSuffix), cfg.retryTopicSuffix), m.value,
            WithRetryCount(m.headers, RetryCount(m.headers) + 1))
  }

  function DeadLetter(cfg: Config, m: Message): Message {
    Message(OriginalTopic(m.topic, cfg.retryTopicSuffix) + ".DLQ", m.value,
            WithRetryCount(m.headers, RetryCount(m.headers)))
  }

  /** The topic that a message was produced to at first. */
  ghost predicate ComesFrom(cfg: Config, topic: string, origin: string) {
    var suffix := cfg.retryTopicSuffix;
    topic == origin + suffix || (topic == origin && !HasSuffix(topic, suffix))
  }

  /** The payload and all other headers are as they were, and the count is the one given. */
  ghost predicate SameButForCount(m: Message, copy: Message, count: nat) {
    && copy.value == m.value && RetryCount(copy.headers) == count
    && OtherHeaders(copy.headers) == OtherHeaders(m.headers)
    && |copy.headers| == |OtherHeaders(m.headers)| + 1
  }

  /**
  A retry copy counts one more and goes to the retry topic of the topic the record was produced to, which is that topic
  itself if it has the suffix; a dead letter keeps the count and goes to that topic's dead letter topic.
  */
  lemma CopiesAreMeant(cfg: Config, m: Message)
    ensures SameButForCount(m, DeadLetter(cfg, m), RetryCount(m.headers))
    ensures exists origin :: ComesFrom(cfg, m.topic, origin) && DeadLetter(cfg, m).topic == origin + ".DLQ"
    ensures RetryCount(m.headers) + 1 < TWO_63 ==> SameButForCount(m, RetryCopy(cfg, m), RetryCount(m.headers) + 1)
    ensures exists origin ::
              && ComesFrom(cfg, m.topic, origin)
              && RetryCopy(cfg, m).topic
                 == if HasSuffix(origin, cfg.retryTopicSuffix) then origin else origin + cfg.retryTopicSuffix
  {
    hide RetryCount, OtherHeaders, WithRetryCount, OriginalTopic, ComesFrom, RetryTopic;
    RetryCountRoundTrip(m.headers, RetryCount(m.headers));
    if RetryCount(m.headers) + 1 < TWO_63 { RetryCountRoundTrip(m.headers, RetryCount(m.headers) + 1); }
    TopicComesFrom(cfg, m.topic);
    TopicComesFrom(cfg, OriginalTopic(m.topic, cfg.retryTopicSuffix));
  }

  lemma TopicComesFrom(cfg: Config, topic: string)
    ensures ComesFrom(cfg, topic, OriginalTopic(topic, cfg.retryTopicSuffix))
    ensures RetryTopic(topic, cfg.retryTopicSuffix)
            == if HasSuffix(topic, cfg.retryTopicSuffix) then topic else topic + cfg.retryTopicSuffix
  {
    assert topic + "" == topic;
    var origin := OriginalTopic(topic, cfg.retryTopicSuffix);
    assert HasSuffix(topic, cfg.retryTopicSuffix) && cfg.retryTopicSuffix != "" ==>
             topic == origin + cfg.retryTopicSuffix;
  }

  function Append(log: map<nat, seq<Message>>, p: nat, m: Message): map<nat, seq<Message>> {
    log[p := (if p in log then log[p] else []) + [m]]
  }

  function Restarted(sys: Sys, partitions: set<nat>): map<nat, nat> {
    map p | p in partitions :: At(sys.committed, p)
  }

  /** After any failure the reader is closed and replaced; if closing fails the loop ends. */
  function Renewed(sys: Sys, w: Worker, closeOk: bool): Worker {
    if closeOk then Worker(Restarted(sys, w.position.Keys), None, AwaitingDependency) else Worker(map[], None, Stopped)
  }

  function SetWorker(sys: Sys, i: nat, w: Worker): Sys {
    sys.(workers := sys.workers[i := w])
  }

  function WorkerStep(sys: Sys, cfg: Config, i: nat, step: Step): Sys
    requires i in sys.workers
  {
    var w := sys.workers[i];
    match step
    case Rebalance(_, partitions) =>
      if w.stage.Stopped? then sys else SetWorker(sys, i, w.(position := Restarted(sys, partitions)))
    case DependencyReady(_) => if w.stage.AwaitingDependency? then SetWorker(sys, i, w.(stage := Fetching)) else sys
    case FetchRecord(_, p) =>
      if !w.stage.Fetching? || p !in w.position || w.position[p] >= |LogOf(sys, p)| then sys
      else SetWorker(sys, i, Worker(w.position[p := w.position[p] + 1], Some((p, w.position[p])), Processing))
    case FetchFails(_, closeOk) => if w.stage.Fetching? then SetWorker(sys, i, Renewed(sys, w, closeOk)) else sys
    case _ => if w.inflight.None? || !InLog(sys, w.inflight.value) then sys
              else RecordStep(sys, cfg, i, step, w.inflight.value)
  }

  /** The steps around one fetched record. */
  function RecordStep(sys: Sys, cfg: Config, i: nat, step: Step, at: Place): Sys
    requires i in sys.workers && InLog(sys, at)
  {
    var w, m := sys.workers[i], MessageAt(sys, at);
    match step
    case Succeeds(_) =>
      if !w.stage.Processing? then sys
      else SetWorker(sys.(fates := sys.fates + {(at, Handled)}), i, w.(stage := Committing))
    case Unavailable(_, closeOk) => if w.stage.Processing? then SetWorker(sys, i, Renewed(sys, w, closeOk)) else sys
    case FailsAndRetries(_, to) =>
      if !w.stage.Processing? || RetryCount(m.headers) >= cfg.maxRetries then sys
      else SetWorker(sys.(log := Append(sys.log, to, RetryCopy(cfg, m)),
                          fates := sys.fates + {(at, CopiedTo((to, |LogOf(sys, to)|)))}), i, w.(stage := Committing))
    case FailsAndRetryIsLost(_, to, stored, closeOk) =>
      if !w.stage.Processing? || RetryCount(m.headers) >= cfg.maxRetries then sys
      else SetWorker(sys.(log := if stored then Append(sys.log, to, RetryCopy(cfg, m)) else sys.log), i,
                     Renewed(sys, w, closeOk))
    case FailsForGood(_, published, stored, closeOk) =>
      if !w.stage.Processing? || RetryCount(m.headers) < cfg.maxRetries then sys
      else
        var dlq := if published || stored then sys.dlq + [DeadLetter(cfg, m)] else sys.dlq;
        if published then
          SetWorker(sys.(dlq := dlq, fates := sys.fates + {(at, DeadLettered)}), i, w.(stage := Committing))
        else SetWorker(sys.(dlq := dlq), i, Renewed(sys, w, closeOk))
    case CommitSucceeds(_) =>
      if !w.stage.Committing? then sys
      else SetWorker(sys.(committed := sys.committed[at.0 := at.1 + 1]), i, w.(inflight := None, stage := Fetching))
    case CommitFails(_, landed, closeOk) =>
      if !w.stage.Committing? then sys
      else
        var after := if landed then sys.(committed := sys.committed[at.0 := at.1 + 1]) else sys;
        SetWorker(after, i, Renewed(after, w, closeOk))
    case _ => sys
  }

  function Next(sys: Sys, cfg: Config, step: Step): Sys {
    match step
    case Produce(p, message) => sys.(log := Append(sys.log, p, message))
    case StartWorker(w, partitions) =>
      if w in sys.workers then sys else SetWorker(sys, w, Worker(Restarted(sys, partitions), None, AwaitingDependency))
    case Crash(w) => sys.(workers := sys.workers - {w})
    case _ => if step.w in sys.workers then WorkerStep(sys, cfg, step.w, step) else sys
  }

  const Empty := Sys(map[], map[], {}, [], map[])

  function Run(cfg: Config, steps: seq<Step>): Sys {
    if steps == [] then Empty else Next(Run(cfg, steps[..|steps| - 1]), cfg, steps[|steps| - 1])
  }

  // ---------------------------------------------------------------- the invariant

  ghost predicate Resolved(sys: Sys, at: Place) {
    exists f :: (at, f) in sys.fates
  }

  ghost predicate AllResolved(sys: Sys, p: nat, next: nat) {
    next <= |LogOf(sys, p)| && forall o: nat :: o < next ==> Resolved(sys, (p, o))
  }

  /** A fate is backed by what it claims: the copy stands in the log with the count plus one, the letter in the DLQ. */
  ghost predicate FateOk(sys: Sys, cfg: Config, at: Place, f: Fate) {
    && InLog(sys, at)
    && match f
       case Handled => true
       case CopiedTo(to) =>
         InLog(sys, to) && CountAt(sys, at) < cfg.maxRetries && MessageAt(sys, to) == RetryCopy(cfg, MessageAt(sys, at))
       case DeadLettered => CountAt(sys, at) >= cfg.maxRetries && DeadLetter(cfg, MessageAt(sys, at)) in sys.dlq
  }

  /** Everything below a reader's next offset is resolved, except the one record in flight. */
  ghost predicate PositionOk(sys: Sys, w: Worker, p: nat) {
    p in w.position && w.position[p] <= |LogOf(sys, p)| &&
    if w.inflight.Some? && w.inflight.value.0 == p && w.inflight.value.1 + 1 == w.position[p]
    then AllResolved(sys, p, w.inflight.value.1)
    else AllResolved(sys, p, w.position[p])
  }

  ghost predicate WorkerOk(sys: Sys, w: Worker) {
    && (forall p :: p in w.position ==> PositionOk(sys, w, p))
    && (w.inflight.Some? <==> w.stage.Processing? || w.stage.Committing?)
    && (w.inflight.Some? ==> InLog(sys, w.inflight.value) && AllResolved(sys, w.inflight.value.0, w.inflight.value.1))
    && (w.stage.Committing? ==> Resolved(sys, w.inflight.value))
  }

  ghost predicate Invariant(sys: Sys, cfg: Config) {
    && (forall p :: p in sys.committed ==> AllResolved(sys, p, sys.committed[p]))
    && (forall f :: f in sys.fates ==> FateOk(sys, cfg, f.0, f.1))
    && (forall i :: i in sys.workers ==> WorkerOk(sys, sys.workers[i]))
  }

  // ---------------------------------------------------------------- what only grows

  ghost predicate Grows(before: Sys, after: Sys) {
    && (forall p :: p in before.log ==> p in after.log && before.log[p] <= after.log[p])
    && before.fates <= after.fates && before.dlq <= after.dlq
  }

  lemma AllResolvedKept(before: Sys, after: Sys, p: nat, next: nat)
    requires Grows(before, after) && AllResolved(before, p, next)
    ensures AllResolved(after, p, next)
  {
    forall o: nat | o < next ensures Resolved(after, (p, o)) {
      var f :| ((p, o), f) in before.fates;
      assert ((p, o), f) in after.fates;
    }
  }

  lemma MessageKept(before: Sys, after: Sys, at: Place)
    requires Grows(before, after) && InLog(before, at)
    ensures InLog(after, at) && MessageAt(after, at) == MessageAt(before, at)
  {
  }

  lemma FateKept(before: Sys, after: Sys, cfg: Config, at: Place, f: Fate)
    requires Grows(before, after) && FateOk(before, cfg, at, f)
    ensures FateOk(after, cfg, at, f)
  {
    MessageKept(before, after, at);
    if f.CopiedTo? { MessageKept(before, after, f.place); }
    if f.DeadLettered? {
      var i :| 0 <= i < |before.dlq| && before.dlq[i] == DeadLetter(cfg, MessageAt(before, at));
      assert after.dlq[i] == before.dlq[i];
    }
  }

  lemma WorkerKept(before: Sys, after: Sys, w: Worker)
    requires Grows(before, after) && WorkerOk(before, w)
    ensures WorkerOk(after, w)
  {
    forall p | p in w.position ensures PositionOk(after, w, p) {
      assert PositionOk(before, w, p);
      AllResolvedKept(before, after, p, if w.inflight.Some? && w.inflight.value.0 == p
                      && w.inflight.value.1 + 1 == w.position[p]
                                        then w.inflight.value.1 else w.position[p]);
    }
    if w.inflight.Some? {
      AllResolvedKept(before, after, w.inflight.value.0, w.inflight.value.1);
      if w.stage.Committing? {
        var f :| (w.inflight.value, f) in before.fates;
        assert (w.inflight.value, f) in after.fates;
      }
    }
  }

  /** What is left to show after a step: the one worker, the new offsets and the new fates. */
  lemma InvariantFrom(before: Sys, after: Sys, cfg: Config, i: nat)
    requires Invariant(before, cfg) && Grows(before, after)
    requires forall j :: j in after.workers && j != i ==> j in before.workers && after.workers[j] == before.workers[j]
    requires i in after.workers ==> WorkerOk(after, after.workers[i])
    requires forall p :: p in after.committed ==>
               (p in before.committed && after.committed[p] == before.committed[p])
               || AllResolved(after, p, after.committed[p])
    requires forall f :: f in after.fates ==> f in before.fates || FateOk(after, cfg, f.0, f.1)
    ensures Invariant(after, cfg)
  {
    forall p | p in after.committed ensures AllResolved(after, p, after.committed[p]) {
      if p in before.committed && after.committed[p] == before.committed[p] {
        AllResolvedKept(before, after, p, before.committed[p]);
      }
    }
    forall f | f in after.fates ensures FateOk(after, cfg, f.0, f.1) {
      if f in before.fates { FateKept(before, after, cfg, f.0, f.1); }
    }
    forall j | j in after.workers ensures WorkerOk(after, after.workers[j]) {
      if j != i { WorkerKept(before, after, before.workers[j]); }
    }
  }

  lemma RestartedOk(sys: Sys, cfg: Config, partitions: set<nat>, w: Worker)
    requires forall p :: p in sys.committed ==> AllResolved(sys, p, sys.committed[p])
    requires w.position == Restarted(sys, partitions)
    requires w.inflight.Some? ==> AllResolved(sys, w.inflight.value.0, w.inflight.value.1)
    ensures forall p :: p in w.position ==> PositionOk(sys, w, p)
  {
    forall p | p in w.position ensures PositionOk(sys, w, p) {
      assert AllResolved(sys, p, At(sys.committed, p));
    }
  }

  lemma RenewedOk(sys: Sys, cfg: Config, w: Worker, closeOk: bool)
    requires forall p :: p in sys.committed ==> AllResolved(sys, p, sys.committed[p])
    ensures WorkerOk(sys, Renewed(sys, w, closeOk))
  {
    RestartedOk(sys, cfg, w.position.Keys, Worker(Restarted(sys, w.position.Keys), None, AwaitingDependency));
  }

  /** A record that gets its fate may be committed. */
  lemma ResolvedOk(before: Sys, after: Sys, cfg: Config, i: nat, at: Place, f: Fate)
    requires Invariant(before, cfg) && i in before.workers && before.workers[i].stage.Processing?
    requires before.workers[i].inflight == Some(at)
    requires Grows(before, after) && after.committed == before.committed && after.fates == before.fates + {(at, f)}
    requires after.workers == before.workers[i := before.workers[i].(stage := Committing)]
    requires FateOk(after, cfg, at, f)
    ensures Invariant(after, cfg)
  {
    WorkerKept(before, after, before.workers[i]);
    assert (at, f) in after.fates;
    InvariantFrom(before, after, cfg, i);
  }

  /** A failed record leaves its reader behind; only the log or the dead letters may have grown. */
  lemma AbandonedOk(before: Sys, after: Sys, cfg: Config, i: nat, closeOk: bool)
    requires Invariant(before, cfg) && i in before.workers
    requires Grows(before, after) && after.committed == before.committed && after.fates == before.fates
    requires after.workers == before.workers[i := Renewed(before, before.workers[i], closeOk)]
    ensures Invariant(after, cfg)
  {
    RenewedOk(before, cfg, before.workers[i], closeOk);
    WorkerKept(before, after, Renewed(before, before.workers[i], closeOk));
    InvariantFrom(before, after, cfg, i);
  }

  lemma CommittedOk(sys: Sys, after: Sys, cfg: Config, i: nat, at: Place)
    requires Invariant(sys, cfg) && i in sys.workers && sys.workers[i].inflight == Some(at)
    requires sys.workers[i].stage.Committing?
    requires after == sys.(committed := sys.committed[at.0 := at.1 + 1], workers := after.workers)
    requires forall j :: j in after.workers && j != i ==> j in sys.workers && after.workers[j] == sys.workers[j]
    requires i in after.workers ==> WorkerOk(after, after.workers[i])
    ensures Invariant(after, cfg)
  {
    hide WorkerOk;
    assert AllResolved(after, at.0, at.1 + 1) by { CommitPointResolved(sys, after, cfg, i, at); }
    InvariantFrom(sys, after, cfg, i);
  }

  lemma CommitPointResolved(sys: Sys, after: Sys, cfg: Config, i: nat, at: Place)
    requires Invariant(sys, cfg) && i in sys.workers && sys.workers[i].inflight == Some(at)
    requires sys.workers[i].stage.Committing?
    requires Grows(sys, after)
    ensures AllResolved(after, at.0, at.1 + 1)
  {
    assert WorkerOk(sys, sys.workers[i]);
    AllResolvedKept(sys, after, at.0, at.1);
    var f :| (at, f) in sys.fates;
    assert (at, f) in after.fates && (at.0, at.1) == at;
    MessageKept(sys, after, at);
  }

  lemma {:induction false} CommitStepOk(sys: Sys, cfg: Config, i: nat, step: Step, at: Place)
    requires Invariant(sys, cfg) && i in sys.workers && sys.workers[i].inflight == Some(at)
    requires sys.workers[i].stage.Committing?
    requires InLog(sys, at) && (step.CommitSucceeds? || step.CommitFails?)
    ensures Invariant(RecordStep(sys, cfg, i, step, at), cfg)
  {
    var w, after := sys.workers[i], RecordStep(sys, cfg, i, step, at);
    var landed := sys.(committed := sys.committed[at.0 := at.1 + 1]);
    assert WorkerOk(sys, w);
    CommitPointResolved(sys, landed, cfg, i, at);
    WorkerKept(sys, landed, w);
    if step.CommitSucceeds? {
      var w' := after.workers[i];
      WorkerKept(landed, after, w);
      forall p | p in w'.position ensures PositionOk(after, w', p) {
        assert PositionOk(after, w, p);
        AllResolvedKept(landed, after, at.0, at.1 + 1);
      }
      CommittedOk(sys, after, cfg, i, at);
    } else if step.landed {
      CommittedOk(sys, landed, cfg, i, at);
      AbandonedOk(landed, after, cfg, i, step.closeOk);
    } else {
      AbandonedOk(sys, after, cfg, i, step.closeOk);
    }
  }

  lemma {:induction false} RecordStepOk(sys: Sys, cfg: Config, i: nat, step: Step, at: Place)
    requires Invariant(sys, cfg) && i in sys.workers && sys.workers[i].inflight == Some(at) && InLog(sys, at)
    ensures Invariant(RecordStep(sys, cfg, i, step, at), cfg)
  {
    hide WorkerOk, AllResolved, RetryCount, WithRetryCount, RetryTopic, OriginalTopic;
    var w, after := sys.workers[i], RecordStep(sys, cfg, i, step, at);
    match step
    case Succeeds(_) => if w.stage.Processing? { ResolvedOk(sys, after, cfg, i, at, Handled); }
    case Unavailable(_, closeOk) => if w.stage.Processing? { AbandonedOk(sys, after, cfg, i, closeOk); }
    case FailsAndRetries(_, to) =>
      if w.stage.Processing? && RetryCount(MessageAt(sys, at).headers) < cfg.maxRetries {
        MessageKept(sys, after, at);
        ResolvedOk(sys, after, cfg, i, at, CopiedTo((to, |LogOf(sys, to)|)));
      }
    case FailsAndRetryIsLost(_, to, stored, closeOk) =>
      if w.stage.Processing? && RetryCount(MessageAt(sys, at).headers) < cfg.maxRetries {
        AbandonedOk(sys, after, cfg, i, closeOk);
      }
    case FailsForGood(_, published, stored, closeOk) =>
      if w.stage.Processing? && RetryCount(MessageAt(sys, at).headers) >= cfg.maxRetries {
        if published { ResolvedOk(sys, after, cfg, i, at, DeadLettered); }
        else { AbandonedOk(sys, after, cfg, i, closeOk); }
      }
    case CommitSucceeds(_) => if w.stage.Committing? { CommitStepOk(sys, cfg, i, step, at); }
    case CommitFails(_, _, _) => if w.stage.Committing? { CommitStepOk(sys, cfg, i, step, at); }
    case _ =>
  }

  lemma FetchOk(sys: Sys, cfg: Config, i: nat, p: nat)
    requires Invariant(sys, cfg) && i in sys.workers
    ensures Invariant(WorkerStep(sys, cfg, i, FetchRecord(i, p)), cfg)
  {
    var w, after := sys.workers[i], WorkerStep(sys, cfg, i, FetchRecord(i, p));
    if w.stage.Fetching? && p in w.position && w.position[p] < |LogOf(sys, p)| {
      var w' := after.workers[i];
      WorkerKept(sys, after, w);
      forall q | q in w'.position ensures PositionOk(after, w', q) { assert PositionOk(after, w, q); }
      assert PositionOk(after, w, p);
      InvariantFrom(sys, after, cfg, i);
    }
  }

  lemma RebalanceOk(sys: Sys, cfg: Config, i: nat, partitions: set<nat>)
    requires Invariant(sys, cfg) && i in sys.workers
    ensures Invariant(WorkerStep(sys, cfg, i, Rebalance(i, partitions)), cfg)
  {
    var w, after := sys.workers[i], WorkerStep(sys, cfg, i, Rebalance(i, partitions));
    if !w.stage.Stopped? {
      WorkerKept(sys, after, w);
      forall p | p in after.committed ensures AllResolved(after, p, after.committed[p]) {
        AllResolvedKept(sys, after, p, sys.committed[p]);
      }
      RestartedOk(after, cfg, partitions, after.workers[i]);
      InvariantFrom(sys, after, cfg, i);
    }
  }

  lemma ReadyOk(sys: Sys, cfg: Config, i: nat)
    requires Invariant(sys, cfg) && i in sys.workers
    ensures Invariant(WorkerStep(sys, cfg, i, DependencyReady(i)), cfg)
  {
    var w, after := sys.workers[i], WorkerStep(sys, cfg, i, DependencyReady(i));
    if w.stage.AwaitingDependency? {
      WorkerKept(sys, after, w);
      forall p | p in w.position ensures PositionOk(after, after.workers[i], p) { assert PositionOk(after, w, p); }
      InvariantFrom(sys, after, cfg, i);
    }
  }

  lemma {:induction false} WorkerStepOk(sys: Sys, cfg: Config, i: nat, step: Step)
    requires Invariant(sys, cfg) && i in sys.workers
    ensures Invariant(WorkerStep(sys, cfg, i, step), cfg)
  {
    hide RecordStep, WorkerOk, FateOk, AllResolved;
    var w, after := sys.workers[i], WorkerStep(sys, cfg, i, step);
    match step
    case Rebalance(_, partitions) => RebalanceOk(sys, cfg, i, partitions);
    case DependencyReady(_) =>
      ReadyOk(sys, cfg, i);
    case FetchRecord(_, p) => FetchOk(sys, cfg, i, p);
    case FetchFails(_, closeOk) => if w.stage.Fetching? { AbandonedOk(sys, after, cfg, i, closeOk); }
    case _ => if w.inflight.Some? && InLog(sys, w.inflight.value) { RecordStepOk(sys, cfg, i, step, w.inflight.value); }
  }

  lemma ProduceOk(sys: Sys, cfg: Config, p: nat, message: Message)
    requires Invariant(sys, cfg)
    ensures Invariant(Next(sys, cfg, Produce(p, message)), cfg)
  {
    var after := Next(sys, cfg, Produce(p, message));
    if 0 in sys.workers { WorkerKept(sys, after, sys.workers[0]); }
    InvariantFrom(sys, after, cfg, 0);
  }

  lemma StartOk(sys: Sys, cfg: Config, w: nat, partitions: set<nat>)
    requires Invariant(sys, cfg)
    ensures Invariant(Next(sys, cfg, StartWorker(w, partitions)), cfg)
  {
    var after := Next(sys, cfg, StartWorker(w, partitions));
    if w !in sys.workers {
      forall p | p in after.committed ensures AllResolved(after, p, after.committed[p]) {
        AllResolvedKept(sys, after, p, sys.committed[p]);
      }
      RestartedOk(after, cfg, partitions, after.workers[w]);
      InvariantFrom(sys, after, cfg, w);
    }
  }

  lemma {:induction false} RunKeepsInvariant(cfg: Config, steps: seq<Step>)
    ensures Invariant(Run(cfg, steps), cfg)
  {
    hide WorkerStep, WorkerOk, FateOk, AllResolved;
    if steps != [] {
      var sys, step := Run(cfg, steps[..|steps| - 1]), steps[|steps| - 1];
      RunKeepsInvariant(cfg, steps[..|steps| - 1]);
      match step
      case Produce(p, message) => ProduceOk(sys, cfg, p, message);
      case StartWorker(w, partitions) => StartOk(sys, cfg, w, partitions);
      case Crash(w) => InvariantFrom(sys, Next(sys, cfg, step), cfg, w);
      case _ => if step.w in sys.workers { WorkerStepOk(sys, cfg, step.w, step); }
    }
  }

  // ---------------------------------------------------------------- the main results

  /** Still to be fetched, handled, dead-lettered, or followed along its retry copy to one of these. */
  ghost predicate Accounted(sys: Sys, cfg: Config, at: Place)
    requires InLog(sys, at)
    decreases if CountAt(sys, at) < cfg.maxRetries then cfg.maxRetries - CountAt(sys, at) else 0
  {
    || at.1 >= At(sys.committed, at.0)
    || (at, Handled) in sys.fates
    || ((at, DeadLettered) in sys.fates && DeadLetter(cfg, MessageAt(sys, at)) in sys.dlq)
    || exists to: Place ::
         && (at, CopiedTo(to)) in sys.fates && InLog(sys, to)
         && MessageAt(sys, to).value == MessageAt(sys, at).value
         && CountAt(sys, at) < cfg.maxRetries && CountAt(sys, to) == CountAt(sys, at) + 1
         && Accounted(sys, cfg, to)
  }

  lemma {:induction false} EveryRecordAccounted(sys: Sys, cfg: Config, at: Place)
    requires Invariant(sys, cfg) && InLog(sys, at) && cfg.maxRetries < TWO_63
    ensures Accounted(sys, cfg, at)
    decreases if CountAt(sys, at) < cfg.maxRetries then cfg.maxRetries - CountAt(sys, at) else 0
  {
    if at.1 < At(sys.committed, at.0) {
      assert AllResolved(sys, at.0, sys.committed[at.0]) && (at.0, at.1) == at;
      assert Resolved(sys, (at.0, at.1));
      var f :| (at, f) in sys.fates;
      assert FateOk(sys, cfg, (at, f).0, (at, f).1);
      if f.CopiedTo? {
        var to := f.place;
        RetryCountRoundTrip(MessageAt(sys, at).headers, CountAt(sys, at) + 1);
        EveryRecordAccounted(sys, cfg, to);
        assert (at, CopiedTo(to)) in sys.fates;
      }
    }
  }

  /** No loss: in every run every record of either topic is accounted for. */
  lemma NothingIsLost(cfg: Config, steps: seq<Step>, at: Place)
    requires InLog(Run(cfg, steps), at) && cfg.maxRetries < TWO_63
    ensures Accounted(Run(cfg, steps), cfg, at)
  {
    RunKeepsInvariant(cfg, steps);
    EveryRecordAccounted(Run(cfg, steps), cfg, at);
  }

  /** No commit overtakes an uncommitted failure: everything below a committed offset has its own fate. */
  lemma NoCommitOvertakes(cfg: Config, steps: seq<Step>, p: nat, o: nat)
    requires o < At(Run(cfg, steps).committed, p)
    ensures Resolved(Run(cfg, steps), (p, o))
  {
    RunKeepsInvariant(cfg, steps);
    assert AllResolved(Run(cfg, steps), p, Run(cfg, steps).committed[p]);
  }

  /** A chain of copies: each record was copied to the next. */
  ghost predicate CopyChain(sys: Sys, chain: seq<Place>) {
    && (forall i :: 0 <= i < |chain| ==> InLog(sys, chain[i]))
    && forall i :: 0 <= i < |chain| - 1 ==> (chain[i], CopiedTo(chain[i + 1])) in sys.fates
  }

  /** The delays served before the copies of a chain were published. */
  ghost function ChainDelay(sys: Sys, cfg: Config, chain: seq<Place>): nat
    requires CopyChain(sys, chain)
  {
    if |chain| <= 1 then 0
    else ChainDelay(sys, cfg, chain[..|chain| - 1]) + Delay(cfg.backoffBase, CountAt(sys, chain[|chain| - 2]))
  }

  lemma LinkCounts(sys: Sys, cfg: Config, a: Place, b: Place)
    requires Invariant(sys, cfg) && (a, CopiedTo(b)) in sys.fates && cfg.maxRetries < TWO_63
    ensures InLog(sys, a) && InLog(sys, b)
    ensures CountAt(sys, a) < cfg.maxRetries && CountAt(sys, b) == CountAt(sys, a) + 1
  {
    assert FateOk(sys, cfg, (a, CopiedTo(b)).0, (a, CopiedTo(b)).1);
    RetryCountRoundTrip(MessageAt(sys, a).headers, CountAt(sys, a) + 1);
  }

  lemma {:induction false} ChainCounts(sys: Sys, cfg: Config, chain: seq<Place>)
    requires Invariant(sys, cfg) && CopyChain(sys, chain) && chain != []
    requires cfg.maxRetries < TWO_63 && cfg.backoffBase > 0
    ensures CountAt(sys, chain[|chain| - 1]) == CountAt(sys, chain[0]) + |chain| - 1
    ensures |chain| > 1 ==> CountAt(sys, chain[|chain| - 1]) <= cfg.maxRetries
    ensures ChainDelay(sys, cfg, chain)
            <= cfg.backoffBase * (Pow2(CountAt(sys, chain[|chain| - 1])) - Pow2(CountAt(sys, chain[0])))
  {
    hide Invariant, CountAt, Delay;
    if |chain| > 1 {
      var front, a, b := chain[..|chain| - 1], chain[|chain| - 2], chain[|chain| - 1];
      ChainCounts(sys, cfg, front);
      assert (chain[|chain| - 2], CopiedTo(chain[|chain| - 2 + 1])) in sys.fates;
      LinkCounts(sys, cfg, a, b);
      DelayIsBounded(cfg.backoffBase, CountAt(sys, a));
      Telescopes(cfg.backoffBase, Pow2(CountAt(sys, a)), Pow2(CountAt(sys, chain[0])));
    }
  }

  lemma Telescopes(base: int, x: int, y: int)
    ensures base * (x - y) + base * x == base * (2 * x - y)
  {
  }

  /** Any chain of copies makes at most MaxRetries + 1 counted attempts, and waits at most base * (2^MaxRetries - 1). */
  lemma {:induction false} RetriesAreBounded(cfg: Config, steps: seq<Step>, chain: seq<Place>)
    requires 0 < cfg.maxRetries < TWO_63 && cfg.backoffBase > 0
    requires CopyChain(Run(cfg, steps), chain) && chain != []
    ensures |chain| <= cfg.maxRetries + 1
    ensures ChainDelay(Run(cfg, steps), cfg, chain) <= cfg.backoffBase * (Pow2(cfg.maxRetries) - 1)
  {
    hide Run, Invariant, CountAt, ChainDelay, Pow2;
    var sys := Run(cfg, steps);
    RunKeepsInvariant(cfg, steps);
    ChainCounts(sys, cfg, chain);
    Pow2Positive(CountAt(sys, chain[0]));
    Pow2Positive(cfg.maxRetries);
    if |chain| > 1 {
      Pow2Grows(CountAt(sys, chain[|chain| - 1]), cfg.maxRetries);
      ProductAtLeast(cfg.backoffBase, Pow2(CountAt(sys, chain[|chain| - 1])) - Pow2(CountAt(sys, chain[0])),
                     Pow2(cfg.maxRetries) - 1);
    } else {
      ProductAtLeast(cfg.backoffBase, 0, Pow2(cfg.maxRetries) - 1);
    }
  }
}
