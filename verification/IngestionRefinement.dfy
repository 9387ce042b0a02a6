/** The run model's view of a command's persistence is what the transaction really does. */
module IngestionRefinement {
  import P = IngestionPersist
  import R = IngestionRuntime

  /** The outcomes of the transaction as the worker acts on them. */
  function ActionOf(outcome: P.Outcome): R.Action {
    match outcome
    case Applied(_, _, _) => R.CommitAction
    case Duplicate => R.CommitAction
    case Conflict => R.DlqAction
    case Invalid => R.DlqAction
    case DatabaseError => R.RetryAction
  }

  function VerdictOf(outcome: P.Outcome): R.Verdict {
    match outcome
    case Invalid => R.PermanentReject
    case DatabaseError => R.Transient
    case _ => R.Persists
  }

  /** Receipts and action of one transaction are those of the run model's step for the same command. */
  lemma TransactionRefinesStep(db: P.Db, g: P.Digests, d: P.Delivery)
    ensures var after := P.PersistSpec(db, g, d);
            var c := R.Command(true, d.command.commandId, g.fingerprint(d.scope, d.command));
            && after.db.receipts == R.ReceiptsAfter(db.receipts, c, VerdictOf(after.outcome))
            && ActionOf(after.outcome) == R.ActionFor(db.receipts, c, VerdictOf(after.outcome))
  {
  }

  /** When the worker commits after a transaction, its record has the receipt that the no-loss result speaks of. */
  lemma CommitActionHasReceipt(db: P.Db, g: P.Digests, d: P.Delivery)
    requires ActionOf(P.PersistSpec(db, g, d).outcome) == R.CommitAction
    ensures var receipts := P.PersistSpec(db, g, d).db.receipts;
            d.command.commandId in receipts && receipts[d.command.commandId] == g.fingerprint(d.scope, d.command)
  {
  }
}
