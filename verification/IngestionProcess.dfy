/**
How one record is processed: parse, look for a receipt, fetch and parse the source, and run the transaction, while other
workers run theirs against the same database.
*/
module IngestionProcess {
  import opened Common
  import P = IngestionPersist
  import R = IngestionRuntime
  import IngestionRefinement
  import opened IngestionProgress

  /**
  A record as it arrives: what its payload and headers parse to, if they do, and whether its key is the command's.
  */
  datatype Message = Message(command: Option<(P.Scope, P.Command)>, keyMatches: bool)

  datatype Parsed = Parsed(nodes: seq<P.ParsedNode>, relations: seq<P.ParsedRelation>, chunks: seq<P.ParsedChunk>)

  /**
  The source is missing or not what the command says, out of reach, or there: as text or not, and parsed if it can be.
  */
  datatype Source = Refused | OutOfReach | Fetched(isText: bool, parsed: Option<Parsed>)

  /** A connection that breaks during the transaction may break before or after it takes effect. */
  datatype Loss = NoLoss | BeforeCommit | AfterCommit

  datatype Environment = Environment(lookupFails: bool, source: Source, loss: Loss, now: string, rowIds: nat -> nat)

  /** Where other workers get their turn. */
  datatype Moment = BeforeLookup | BeforeTransaction

  /** The record as the run model has it. */
  function CommandOf(g: P.Digests, msg: Message): R.Command {
    if msg.command.Some? && msg.keyMatches then
      R.Command(true, msg.command.value.1.commandId, g.fingerprint(msg.command.value.0, msg.command.value.1))
    else R.Command(false, "", "")
  }

  ghost predicate Keeps(before: map<string, string>, after: map<string, string>) {
    forall id :: id in before ==> id in after && after[id] == before[id]
  }

  /** There is nothing to persist, for good: no usable source, or one that does not parse into valid data. */
  ghost predicate Unusable(path: string, source: Source) {
    match source
    case Refused => true
    case OutOfReach => false
    case Fetched(isText, parsed) =>
      !isText || parsed.None? || !P.ParsedDataValid(path, parsed.value.nodes, parsed.value.chunks)
  }

  function DeliveryOf(msg: Message, env: Environment): P.Delivery
    requires msg.command.Some? && env.source.Fetched? && env.source.parsed.Some?
  {
    var parsed := env.source.parsed.value;
    P.Delivery(msg.command.value.0, msg.command.value.1, parsed.nodes, parsed.relations, parsed.chunks, env.now,
               env.rowIds)
  }

  /** The database refuses a row of the file. */
  ghost predicate IsRefused(db: P.Db, g: P.Digests, msg: Message, env: Environment) {
    && msg.command.Some? && env.source.Fetched? && env.source.parsed.Some?
    && P.PersistFile(db.tables, g, DeliveryOf(msg, env), db.embedded).None?
  }

  class Processor {
    const g: P.Digests
    const store: P.PostgresStore

    constructor (g: P.Digests, store: P.PostgresStore)
      ensures this.g == g && this.store == store
    {
      this.g, this.store := g, store;
    }

    /** The turns of the other workers. */
    method Interfere(others: seq<P.Delivery>)
      modifies store
      ensures Keeps(old(store.db).receipts, store.db.receipts)
      ensures others == [] ==> store.db == old(store.db)
    {
      for i := 0 to |others|
        invariant Keeps(old(store.db).receipts, store.db.receipts) && (i == 0 ==> store.db == old(store.db))
      {
        var _ := store.PersistIngestionCommand(g, others[i]);
      }
    }

    /**
    One record, with the other workers at work before the look-up and before the transaction. It takes one step of the
    run model, at a moment when the receipts were `seen`: the decision and what it leaves of the receipts are the
    model's. Only a dependency out of reach, a connection that breaks or rows that the database refuses make it a
    failure to be retried, and only an unusable source makes it a rejection.
    */
    method ProcessMessage(msg: Message, env: Environment, others: Moment -> seq<P.Delivery>)
      returns (action: R.Action, ghost verdict: R.Verdict, ghost seen: map<string, string>)
      modifies store
      ensures var c := CommandOf(g, msg);
              && action == R.ActionFor(seen, c, verdict) && Decided(seen, c, verdict, action)
              && Keeps(old(store.db).receipts, seen) && store.db.receipts == R.ReceiptsAfter(seen, c, verdict)
              && (action == R.CommitAction ==> c.id in store.db.receipts && store.db.receipts[c.id] == c.fingerprint)
      ensures CommandOf(g, msg).valid && verdict == R.PermanentReject ==>
                !env.lookupFails && Unusable(msg.command.value.1.path, env.source)
      ensures CommandOf(g, msg).valid && verdict != R.PermanentReject && verdict != R.Persists ==>
                || env.lookupFails || env.source.OutOfReach? || env.loss != NoLoss
                || IsRefused(store.db, g, msg, env)
      ensures CommandOf(g, msg).valid && verdict == R.Persists ==>
                !env.lookupFails && (CommandOf(g, msg).id in seen || !Unusable(msg.command.value.1.path, env.source))
    {
      seen, verdict := store.db.receipts, R.PermanentReject;
      if msg.command.None? || !msg.keyMatches { return R.DlqAction, verdict, seen; }
      var scope, command := msg.command.value.0, msg.command.value.1;
      Interfere(others(BeforeLookup));
      seen := store.db.receipts;
      if env.lookupFails { return R.RetryAction, R.Transient, seen; }
      if command.commandId in store.db.receipts {
        var same := store.db.receipts[command.commandId] == g.fingerprint(scope, command);
        return if same then R.CommitAction else R.DlqAction, R.Persists, seen;
      }
      if env.source.Refused? { return R.DlqAction, verdict, seen; }
      if env.source.OutOfReach? { return R.RetryAction, R.Transient, seen; }
      if !env.source.isText || env.source.parsed.None? { return R.DlqAction, verdict, seen; }
      Interfere(others(BeforeTransaction));
      seen := store.db.receipts;
      action, verdict := Persist(DeliveryOf(msg, env), env.loss);
    }

    /** The transaction, and what becomes of its answer if the connection breaks. */
    method Persist(d: P.Delivery, loss: Loss) returns (action: R.Action, ghost verdict: R.Verdict)
      modifies store
      ensures var c := R.Command(true, d.command.commandId, g.fingerprint(d.scope, d.command));
              && action == R.ActionFor(old(store.db).receipts, c, verdict)
              && store.db.receipts == R.ReceiptsAfter(old(store.db).receipts, c, verdict)
      ensures verdict == R.PermanentReject <==> !P.ParsedDataValid(d.command.path, d.nodes, d.chunks)
      ensures verdict != R.PermanentReject && verdict != R.Persists ==>
                || loss != NoLoss
                || P.PersistFile(store.db.tables, g, d, store.db.embedded).None?
    {
      hide P.PersistFile;
      IngestionRefinement.TransactionRefinesStep(store.db, g, d);
      if loss == BeforeCommit {
        var valid := P.ParsedCommandDataIsValid(d.command.path, d.nodes, d.chunks);
        return if valid then R.RetryAction else R.DlqAction, if valid then R.Transient else R.PermanentReject;
      }
      var outcome := store.PersistIngestionCommand(g, d);
      if loss == AfterCommit && (outcome.Applied? || outcome.Duplicate?) {
        return R.RetryAction, R.TransientAfterCommit;
      }
      action, verdict := IngestionRefinement.ActionOf(outcome), IngestionRefinement.VerdictOf(outcome);
    }
  }
}
