/**
The persistence transaction taken apart: the advisory lock, the look at the receipt, the row writes and the commit of
any number of transactions interleave, with transactions that break off and embeddings that another service writes.

What PostgreSQL adds: an advisory lock has one holder per key, a statement sees what is committed when it starts, and
the rows a transaction has written, or deleted, are locked until it ends.
*/
module IngestionTransactions {
  import opened Common
  import P = IngestionPersist

  /** `lock` hashes a command id to the key of its advisory lock; keys of different ids may collide. */
  datatype Env = Env(g: P.Digests, lock: string -> int)

  /** The row writes of a transaction, which nobody else sees before it commits. */
  datatype Change = Change(nodes: map<string, P.NodeRow>,
                           droppedRelations: set<P.RelationRow>, relations: set<P.RelationRow>,
                           droppedChunks: set<P.ChunkRow>, chunks: set<P.ChunkRow>, outbox: seq<P.OutboxRow>)

  /** `Cleared` has found no receipt. */
  datatype Phase = Waiting | Locked | Cleared | Written(change: Change) | Finished(outcome: P.Outcome) | Aborted

  datatype Tx = Tx(delivery: P.Delivery, phase: Phase)

  /** `log` lists deliveries and embeddings in the order in which they came to their end. */
  datatype State = State(db: P.Db, txs: seq<Tx>, log: seq<P.Event>)

  datatype Step =
    | Begin(delivery: P.Delivery) | TakeLock(tx: nat) | ReadReceipt(tx: nat) | WriteRows(tx: nat)
    | Commit(tx: nat) | Abort(tx: nat) | EmbedChunk(row: nat)

  function CommandId(t: Tx): string {
    t.delivery.command.commandId
  }

  /** An advisory lock taken in a transaction is held until the transaction ends. */
  predicate HoldsLock(t: Tx) {
    t.phase.Locked? || t.phase.Cleared? || t.phase.Written?
  }

  ghost function ChangeOf(t: P.Tables, g: P.Digests, d: P.Delivery): Change {
    var ids := P.OwnIds(g, d);
    Change(P.NodeRows(g, d, d.nodes),
           (set r | r in t.relations && r.fromId in ids), Elements(P.RelationRows(g, d, d.relations)),
           (set c | c in t.chunks && c.entityId in ids), Elements(P.ChunkRows(g, d, d.chunks)),
           P.OutboxRows(g, d))
  }

  function Apply(t: P.Tables, c: Change): P.Tables {
    P.Tables(t.nodes + c.nodes, t.relations - c.droppedRelations + c.relations, t.chunks - c.droppedChunks + c.chunks,
             t.outbox + c.outbox)
  }

  predicate IsRunning(s: State, i: nat) {
    i < |s.txs| && !s.txs[i].phase.Finished? && !s.txs[i].phase.Aborted?
  }

  /**
  Writing a row that another transaction has written waits for its end; so does embedding a chunk that it has deleted.
  */
  ghost predicate Enabled(env: Env, s: State, step: Step) {
    match step
    case Begin(d) => P.ParsedDataValid(d.command.path, d.nodes, d.chunks)
    case TakeLock(i) =>
      && i < |s.txs| && s.txs[i].phase.Waiting?
      && forall t :: t in s.txs && HoldsLock(t) ==> env.lock(CommandId(t)) != env.lock(CommandId(s.txs[i]))
    case ReadReceipt(i) => i < |s.txs| && s.txs[i].phase.Locked?
    case WriteRows(i) =>
      && i < |s.txs| && s.txs[i].phase.Cleared?
      && forall t :: t in s.txs && t.phase.Written? ==>
           P.OwnIds(env.g, t.delivery) !! P.OwnIds(env.g, s.txs[i].delivery)
    case Commit(i) => i < |s.txs| && s.txs[i].phase.Written?
    case Abort(i) => IsRunning(s, i)
    case EmbedChunk(row) =>
      && P.HasChunkRow(s.db.tables, row)
      && forall t, c :: t in s.txs && t.phase.Written? && c in s.db.tables.chunks && c.rowId == row ==>
           c.entityId !in P.OwnIds(env.g, t.delivery)
  }

  function To(s: State, i: nat, phase: Phase): State
    requires i < |s.txs|
  {
    s.(txs := s.txs[i := s.txs[i].(phase := phase)])
  }

  function End(s: State, i: nat, outcome: P.Outcome): State
    requires i < |s.txs|
  {
    To(s, i, Finished(outcome)).(log := s.log + [P.Deliver(s.txs[i].delivery)])
  }

  /** A receipt of the same id at commit violates the primary key. */
  ghost function Next(env: Env, s: State, step: Step): State
    requires Enabled(env, s, step)
  {
    match step
    case Begin(d) => s.(txs := s.txs + [Tx(d, Waiting)])
    case TakeLock(i) => To(s, i, Locked)
    case ReadReceipt(i) =>
      var d := s.txs[i].delivery;
      if d.command.commandId !in s.db.receipts then To(s, i, Cleared)
      else
        End(s, i, if s.db.receipts[d.command.commandId] == env.g.fingerprint(d.scope, d.command) then P.Duplicate
                  else P.Conflict)
    case WriteRows(i) =>
      var d := s.txs[i].delivery;
      if P.PersistFile(s.db.tables, env.g, d, s.db.embedded).None? then End(s, i, P.DatabaseError)
      else To(s, i, Written(ChangeOf(s.db.tables, env.g, d)))
    case Commit(i) =>
      var d := s.txs[i].delivery;
      if d.command.commandId in s.db.receipts then End(s, i, P.DatabaseError)
      else
        End(s, i, P.Applied(|d.nodes|, |d.relations|, |d.nodes| + |d.relations| + |d.chunks|))
          .(db := s.db.(tables := Apply(s.db.tables, s.txs[i].phase.change),
                        receipts := s.db.receipts[d.command.commandId := env.g.fingerprint(d.scope, d.command)]))
    case Abort(i) => To(s, i, Aborted)
    case EmbedChunk(row) => s.(db := s.db.(embedded := s.db.embedded + {row}), log := s.log + [P.Embed(row)])
  }

  ghost predicate Reaches(env: Env, db: P.Db, steps: seq<Step>, s: State)
    decreases |steps|
  {
    if steps == [] then s == State(db, [], [])
    else
      var last := steps[|steps| - 1];
      exists before ::
        && Reaches(env, db, steps[..|steps| - 1], before) && Enabled(env, before, last)
        && s == Next(env, before, last)
  }

  // ---------------------------------------------------------------- receipts

  ghost predicate Exclusive(env: Env, s: State) {
    forall i, j :: 0 <= i < j < |s.txs| && HoldsLock(s.txs[i]) && HoldsLock(s.txs[j]) ==>
      env.lock(CommandId(s.txs[i])) != env.lock(CommandId(s.txs[j]))
  }

  /** What a transaction has seen of the receipts stays true until it ends. */
  ghost predicate ReceiptReadStands(s: State) {
    forall t :: t in s.txs && (t.phase.Cleared? || t.phase.Written?) ==> CommandId(t) !in s.db.receipts
  }

  predicate IsApplied(t: Tx) {
    t.phase.Finished? && t.phase.outcome.Applied?
  }

  ghost predicate AppliedOnce(s: State) {
    && (forall t :: t in s.txs && IsApplied(t) ==> CommandId(t) in s.db.receipts)
    && (forall i,
        j :: 0 <= i < j < |s.txs| && IsApplied(s.txs[i]) && IsApplied(s.txs[j]) ==>
          CommandId(s.txs[i]) != CommandId(s.txs[j]))
  }

  ghost predicate Invariant(env: Env, s: State) {
    Exclusive(env, s) && ReceiptReadStands(s) && AppliedOnce(s)
  }

  /** How a transaction's own step moves it. */
  function Subject(step: Step): Option<nat> {
    match step
    case Begin(_) => None
    case EmbedChunk(_) => None
    case _ => Some(step.tx)
  }

  lemma OthersStay(env: Env, s: State, step: Step)
    requires Enabled(env, s, step)
    ensures var s' := Next(env, s, step);
            && |s.txs| <= |s'.txs|
            && forall i :: 0 <= i < |s.txs| && Subject(step) != Some(i) ==> s'.txs[i] == s.txs[i]
    ensures var s' := Next(env, s, step);
            && (step.Begin? ==> |s'.txs| == |s.txs| + 1 && s'.txs[|s.txs|] == Tx(step.delivery, Waiting))
            && (!step.Begin? ==> |s'.txs| == |s.txs|)
            && (forall i :: 0 <= i < |s.txs| ==> s'.txs[i].delivery == s.txs[i].delivery)
  {
    hide P.PersistFile, P.ParsedDataValid, ChangeOf, Apply;
  }

  lemma ExclusiveKept(env: Env, s: State, step: Step)
    requires Enabled(env, s, step) && Exclusive(env, s)
    ensures Exclusive(env, Next(env, s, step))
  {
    OthersStay(env, s, step);
    hide P.PersistFile, P.ParsedDataValid, ChangeOf, Apply;
  }

  /** The lock keeps every other transaction of the same command from writing a receipt in between. */
  lemma ReceiptReadKept(env: Env, s: State, step: Step)
    requires Enabled(env, s, step) && Invariant(env, s)
    ensures ReceiptReadStands(Next(env, s, step))
  {
    OthersStay(env, s, step);
    hide P.PersistFile, P.ParsedDataValid, ChangeOf, Apply;
  }

  /** Receipts stay, and only a commit that finds none applies a command, which then has one. */
  lemma WhatBecomesApplied(env: Env, s: State, step: Step)
    requires Enabled(env, s, step)
    ensures var s' := Next(env, s, step);
            && s.db.receipts.Keys <= s'.db.receipts.Keys
            && forall i :: 0 <= i < |s'.txs| && IsApplied(s'.txs[i]) ==>
                 || (i < |s.txs| && IsApplied(s.txs[i]))
                 || (step == Commit(i) && CommandId(s.txs[i]) !in s.db.receipts
                     && CommandId(s.txs[i]) in s'.db.receipts)
  {
    hide P.PersistFile, P.ParsedDataValid, P.OwnIds, P.HasChunkRow, ChangeOf, Apply;
    OthersStay(env, s, step);
  }

  lemma AppliedOnceKept(env: Env, s: State, step: Step)
    requires Enabled(env, s, step) && AppliedOnce(s)
    ensures AppliedOnce(Next(env, s, step))
  {
    hide Enabled, Next;
    OthersStay(env, s, step);
    WhatBecomesApplied(env, s, step);
    var s' := Next(env, s, step);
    forall i | 0 <= i < |s'.txs| && IsApplied(s'.txs[i]) ensures CommandId(s'.txs[i]) in s'.db.receipts {
      assert i < |s.txs| && CommandId(s'.txs[i]) == CommandId(s.txs[i]) && s.txs[i] in s.txs;
    }
  }

  lemma {:induction false} RunKeepsReceipts(env: Env, db: P.Db, steps: seq<Step>, s: State)
    requires Reaches(env, db, steps, s)
    ensures Invariant(env, s)
    decreases |steps|
  {
    hide Invariant, Exclusive, ReceiptReadStands, AppliedOnce, Next, Enabled;
    if steps == [] {
      NothingBegun(env, db);
    } else {
      var before :| Reaches(env, db, steps[..|steps| - 1], before) && Enabled(env, before, steps[|steps| - 1])
                    && s == Next(env, before, steps[|steps| - 1]);
      RunKeepsReceipts(env, db, steps[..|steps| - 1], before);
      InvariantKept(env, before, steps[|steps| - 1]);
    }
  }

  lemma InvariantKept(env: Env, s: State, step: Step)
    requires Enabled(env, s, step) && Invariant(env, s)
    ensures Invariant(env, Next(env, s, step))
  {
    hide Exclusive, ReceiptReadStands, AppliedOnce, Next, Enabled;
    ExclusiveKept(env, s, step);
    ReceiptReadKept(env, s, step);
    AppliedOnceKept(env, s, step);
  }

  lemma NothingBegun(env: Env, db: P.Db)
    ensures Invariant(env, State(db, [], []))
  {
  }

  /**
  In every interleaving a command is applied by at most one transaction, and a commit never meets a receipt: the
  primary key of the receipts is never violated, whatever command ids share a lock key.
  */
  lemma CommitsMeetNoReceipt(env: Env, db: P.Db, steps: seq<Step>, s: State)
    requires Reaches(env, db, steps, s)
    ensures AppliedOnce(s)
    ensures forall i :: 0 <= i < |s.txs| && Enabled(env, s, Commit(i)) ==> IsApplied(Next(env, s, Commit(i)).txs[i])
  {
    RunKeepsReceipts(env, db, steps, s);
  }

  // ---------------------------------------------------------------- rows

  /** As the parsers give it: a relation of a file starts at a node of that file. */
  ghost predicate StartsInFile(d: P.Delivery) {
    forall r :: r in d.relations ==> r.fromId in P.NodeIdsOf(d.nodes)
  }

  ghost predicate WellParsed(d: P.Delivery) {
    P.ParsedDataValid(d.command.path, d.nodes, d.chunks) && StartsInFile(d)
  }

  /** What a transaction has written is what it would still write. */
  ghost predicate WritesStand(env: Env, db: P.Db, t: Tx) {
    t.phase.Written? ==>
      t.phase.change == ChangeOf(db.tables, env.g, t.delivery)
      && P.Admissible(db.tables, env.g, t.delivery, db.embedded)
  }

  ghost predicate RowsInvariant(env: Env, s: State) {
    && (forall t :: t in s.txs ==> WellParsed(t.delivery) && WritesStand(env, s.db, t))
    && (forall i, j :: 0 <= i < j < |s.txs| && s.txs[i].phase.Written? && s.txs[j].phase.Written? ==>
          P.OwnIds(env.g, s.txs[i].delivery) !! P.OwnIds(env.g, s.txs[j].delivery))
  }

  lemma ApplyingIsReplacing(t: P.Tables, g: P.Digests, d: P.Delivery)
    ensures Apply(t, ChangeOf(t, g, d)) == P.Replaced(t, g, d)
  {
    hide P.NodeRows, P.RelationRows, P.ChunkRows, P.OutboxRows;
    var ids, c := P.OwnIds(g, d), ChangeOf(t, g, d);
    assert t.relations - c.droppedRelations == set r | r in t.relations && r.fromId !in ids;
    assert t.chunks - c.droppedChunks == set o | o in t.chunks && o.entityId !in ids;
  }

  lemma OwnRows(g: P.Digests, d: P.Delivery)
    requires WellParsed(d)
    ensures forall r :: r in Elements(P.RelationRows(g, d, d.relations)) ==> r.fromId in P.OwnIds(g, d)
    ensures forall c :: c in Elements(P.ChunkRows(g, d, d.chunks)) ==> c.entityId in P.OwnIds(g, d)
  {
    forall x | x in P.NodeIdsOf(d.nodes) ensures g.scopedNodeId(d.scope, x) in P.OwnIds(g, d) {
      var n :| n in d.nodes && n.id == x;
    }
    hide P.OwnIds, P.NodeIdsOf;
    var rows := P.RelationRows(g, d, d.relations);
    forall i | 0 <= i < |rows| ensures rows[i].fromId in P.OwnIds(g, d) {
      assert d.relations[i] in d.relations && rows[i] == P.RelationRowOf(d.rowIds(i), g, d, d.relations[i]);
    }
    assert forall c :: c in d.chunks ==> g.scopedNodeId(d.scope, c.entityId) in P.OwnIds(g, d);
  }

  /** A file written in between leaves the change of another file, and that it is admissible, as they were. */
  lemma DisjointFileDoesNotMatter(t: P.Tables, g: P.Digests, d: P.Delivery, e: P.Delivery, embedded: set<nat>)
    requires WellParsed(d) && WellParsed(e) && P.OwnIds(g, d) !! P.OwnIds(g, e)
    ensures ChangeOf(P.Replaced(t, g, d), g, e) == ChangeOf(t, g, e)
    ensures P.Admissible(t, g, e, embedded) ==> P.Admissible(P.Replaced(t, g, d), g, e, embedded)
  {
    hide P.NodeRows, P.RelationRows, P.ChunkRows, P.OutboxRows, P.OwnIds;
    OwnRows(g, d);
    var u, ids := P.Replaced(t, g, d), P.OwnIds(g, e);
    assert (set r | r in u.relations && r.fromId in ids) == (set r | r in t.relations && r.fromId in ids);
    assert (set c | c in u.chunks && c.entityId in ids) == (set c | c in t.chunks && c.entityId in ids);
    if P.Admissible(t, g, e, embedded) {
      P.ValidFileFits(t, g, e, embedded);
      P.ValidFileFits(u, g, e, embedded);
      P.AdmissibleFileIsReplaced(u, g, e, embedded);
    }
  }

  /** Embedding a chunk that no unfinished transaction has deleted leaves their writes as they were. */
  lemma EmbeddingDoesNotMatter(env: Env, s: State, row: nat, t: Tx)
    requires Enabled(env, s, EmbedChunk(row)) && t in s.txs && WritesStand(env, s.db, t)
    ensures WritesStand(env, s.db.(embedded := s.db.embedded + {row}), t)
  {
    hide P.RelationsFit, P.ChunksFit, P.DistinctScopedKeys, P.OwnIds, ChangeOf;
  }

  /**
  A step either leaves the database alone, or it is the event that it logs; an outcome is that of the whole
  transaction at once.
  */
  lemma StepIsSerial(env: Env, s: State, step: Step)
    requires Enabled(env, s, step) && Invariant(env, s) && RowsInvariant(env, s)
    ensures var s' := Next(env, s, step);
            || (s'.log == s.log && s'.db == s.db)
            || exists e :: s'.log == s.log + [e] && s'.db == P.Step(s.db, env.g, e) && Answers(env, s, step, e)
  {
    hide P.OwnIds, P.ParsedDataValid, P.PersistFile, ChangeOf, Apply, P.Replaced, P.Admissible;
    var s' := Next(env, s, step);
    match step
    case Commit(i) =>
      var t := s.txs[i];
      assert t in s.txs;
      ApplyingIsReplacing(s.db.tables, env.g, t.delivery);
      P.AdmissibleFileIsReplaced(s.db.tables, env.g, t.delivery, s.db.embedded);
      assert s'.db == P.Step(s.db, env.g, P.Deliver(t.delivery));
      assert s'.log == s.log + [P.Deliver(t.delivery)];
    case ReadReceipt(i) =>
      assert s.txs[i] in s.txs;
      assert s'.log == s.log || (s'.log == s.log + [P.Deliver(s.txs[i].delivery)]
                                 && s'.db == P.Step(s.db, env.g, P.Deliver(s.txs[i].delivery)));
    case WriteRows(i) =>
      assert s.txs[i] in s.txs;
      assert s'.log == s.log || (s'.log == s.log + [P.Deliver(s.txs[i].delivery)]
                                 && s'.db == P.Step(s.db, env.g, P.Deliver(s.txs[i].delivery)));
    case EmbedChunk(row) =>
      assert s'.log == s.log + [P.Embed(row)] && s'.db == P.Step(s.db, env.g, P.Embed(row));
    case _ =>
  }

  /**
  The transaction that ends in this step is that of the event, with the outcome the event has on the database as it
  stands.
  */
  ghost predicate Answers(env: Env, s: State, step: Step, e: P.Event)
    requires Enabled(env, s, step)
  {
    e.Deliver? ==>
      exists i: nat ::
        && i < |s.txs| && s.txs[i].delivery == e.delivery && !s.txs[i].phase.Finished?
        && Next(env, s, step).txs[i].phase == Finished(P.PersistSpec(s.db, env.g, e.delivery).outcome)
  }

  lemma DisjointnessKept(env: Env, s: State, step: Step)
    requires Enabled(env, s, step) && RowsInvariant(env, s)
    ensures var s' := Next(env, s, step);
            forall i, j :: 0 <= i < j < |s'.txs| && s'.txs[i].phase.Written? && s'.txs[j].phase.Written? ==>
              P.OwnIds(env.g, s'.txs[i].delivery) !! P.OwnIds(env.g, s'.txs[j].delivery)
  {
    OthersStay(env, s, step);
    hide P.OwnIds, WellParsed, WritesStand, P.PersistFile, ChangeOf, Apply;
  }

  lemma WritesKept(env: Env, s: State, step: Step, i: nat)
    requires Enabled(env, s, step) && Invariant(env, s) && RowsInvariant(env, s)
    requires step.Begin? ==> WellParsed(step.delivery)
    requires i < |Next(env, s, step).txs|
    ensures WellParsed(Next(env, s, step).txs[i].delivery)
    ensures WritesStand(env, Next(env, s, step).db, Next(env, s, step).txs[i])
  {
    hide P.OwnIds, WellParsed, P.PersistFile, ChangeOf, Apply, P.Replaced, P.Admissible, Exclusive, AppliedOnce;
    OthersStay(env, s, step);
    if i < |s.txs| {
      assert s.txs[i] in s.txs;
      match step
      case Commit(j) =>
        var t := s.txs[j];
        assert t in s.txs;
        ApplyingIsReplacing(s.db.tables, env.g, t.delivery);
        if i != j && s.txs[i].phase.Written? {
          DisjointFileDoesNotMatter(s.db.tables, env.g, t.delivery, s.txs[i].delivery, s.db.embedded);
        }
      case WriteRows(j) =>
        P.AdmissibleFileIsReplaced(s.db.tables, env.g, s.txs[j].delivery, s.db.embedded);
      case EmbedChunk(row) =>
        EmbeddingDoesNotMatter(env, s, row, s.txs[i]);
      case _ =>
    }
  }

  lemma RowsInvariantKept(env: Env, s: State, step: Step)
    requires Enabled(env, s, step) && Invariant(env, s) && RowsInvariant(env, s)
    requires step.Begin? ==> WellParsed(step.delivery)
    ensures RowsInvariant(env, Next(env, s, step))
  {
    hide Enabled, Next, Invariant, WellParsed, WritesStand;
    var s' := Next(env, s, step);
    DisjointnessKept(env, s, step);
    forall t | t in s'.txs ensures WellParsed(t.delivery) && WritesStand(env, s'.db, t) {
      var i: nat :| i < |s'.txs| && s'.txs[i] == t;
      WritesKept(env, s, step, i);
    }
  }

  ghost predicate AllWellParsed(steps: seq<Step>) {
    forall step :: step in steps && step.Begin? ==> WellParsed(step.delivery)
  }

  /**
  The transactions are serializable in the order in which they end: the database is what the same deliveries leave when
  each is persisted at once, where its transaction ended.
  */
  lemma {:induction false} TransactionsAreSerial(env: Env, db: P.Db, steps: seq<Step>, s: State)
    requires Reaches(env, db, steps, s) && AllWellParsed(steps)
    ensures s.db == P.Run(db, env.g, s.log) && RowsInvariant(env, s)
    decreases |steps|
  {
    hide Enabled, Next, Invariant, RowsInvariant, WellParsed, P.Step, Answers;
    if steps == [] {
      assert RowsInvariant(env, State(db, [], [])) by { NoRows(env, db); }
    } else {
      var last := steps[|steps| - 1];
      var before :| Reaches(env, db, steps[..|steps| - 1], before) && Enabled(env, before, last)
                    && s == Next(env, before, last);
      TransactionsAreSerial(env, db, steps[..|steps| - 1], before);
      RunKeepsReceipts(env, db, steps[..|steps| - 1], before);
      RowsInvariantKept(env, before, last);
      StepIsSerial(env, before, last);
      if s.log != before.log {
        var e :| s.log == before.log + [e] && s.db == P.Step(before.db, env.g, e) && Answers(env, before, last, e);
        assert s.log[..|s.log| - 1] == before.log;
      }
    }
  }

  lemma NoRows(env: Env, db: P.Db)
    ensures RowsInvariant(env, State(db, [], []))
  {
  }

  /**
  Every answer a transaction gives is the one the whole transaction gives at once on the database as it stands then.
  */
  lemma AnswersAreSpecified(env: Env, db: P.Db, steps: seq<Step>, s: State, step: Step)
    requires Reaches(env, db, steps, s) && AllWellParsed(steps) && Enabled(env, s, step)
    ensures var s' := Next(env, s, step);
            || (s'.log == s.log && s'.db == s.db)
            || exists e :: s'.log == s.log + [e] && s'.db == P.Step(s.db, env.g, e) && Answers(env, s, step, e)
  {
    hide Enabled, Next, Invariant, RowsInvariant, Answers, P.Step, AllWellParsed;
    TransactionsAreSerial(env, db, steps, s);
    RunKeepsReceipts(env, db, steps, s);
    StepIsSerial(env, s, step);
  }

  /**
  That relations start in their own file is needed: two files, each with a relation that starts at a node of the
  other, can both write before either commits, and then neither order of the two gives what they leave.
  */
  lemma CrossingRelationsAreNotSerial(t: P.Tables, g: P.Digests, d: P.Delivery, e: P.Delivery, r: P.RelationRow,
                                      q: P.RelationRow)
    requires P.OwnIds(g, d) !! P.OwnIds(g, e)
    requires r in P.RelationRows(g, d, d.relations) && r.fromId in P.OwnIds(g, e)
    requires r !in P.RelationRows(g, e, e.relations)
    requires q in P.RelationRows(g, e, e.relations) && q.fromId in P.OwnIds(g, d)
    requires q !in P.RelationRows(g, d, d.relations)
    requires r !in t.relations && q !in t.relations
    ensures var both := Apply(Apply(t, ChangeOf(t, g, d)), ChangeOf(t, g, e));
            both != P.Replaced(P.Replaced(t, g, d), g, e) && both != P.Replaced(P.Replaced(t, g, e), g, d)
  {
    hide P.OwnIds, P.NodeRows, P.RelationRows, P.ChunkRows, P.OutboxRows;
    var both := Apply(Apply(t, ChangeOf(t, g, d)), ChangeOf(t, g, e));
    assert r in both.relations && q in both.relations;
    assert r !in P.Replaced(P.Replaced(t, g, d), g, e).relations
           && q !in P.Replaced(P.Replaced(t, g, e), g, d).relations;
  }
}
