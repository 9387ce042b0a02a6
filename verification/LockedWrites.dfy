/**
That the locks are enough: whatever a graph transaction writes when it finishes, and the generation that a write-back
relies on, it holds the lock of, and nobody else does.
*/
module LockedWrites {
  import opened Common
  import opened CodeGraph
  import opened Ordering
  import opened LockOrder
  import GraphStore

  /** The owners of the lock model are those stored in the graph. */
  ghost predicate OwnersAgree(sys: Sys, db: Db) {
    forall id :: GraphStore.ScopeOf(db, id) == if id in sys.owner then {sys.owner[id]} else {}
  }

  /** What a transaction of this kind can make of the graph. */
  ghost predicate Writes(kind: Kind, before: Db, after: Db) {
    match kind
    case MergeNodeTx(id, scope) =>
      exists t, body: Body :: body.scope == scope && after == MergeNode(before, id, t, body)
    case MergeRelationTx(from, to) =>
      exists t: RelType, weight :: after == MergeRelation(before, EdgeKey(from, t, to), weight)
    case WriteBackTx(ids, target) =>
      exists generation, rows: map<Id, ScoreRow> ::
        rows.Keys == ids && after == WriteBack(before, target, generation, rows)
    case CaptureTx(captured) => after == Capture(before, captured)
  }

  ghost predicate Changed<K, V>(before: map<K, V>, after: map<K, V>, k: K) {
    (k in before) != (k in after) || (k in before && k in after && before[k] != after[k])
  }

  /** Every node, edge and partition record that differs is locked, an edge by its two ends. */
  ghost predicate Covered(sys: Sys, tid: nat, before: Db, after: Db) {
    && (forall id :: Changed(before.nodes, after.nodes, id) ==> Holds(sys, tid, NodeLock(id)))
    && (forall k: EdgeKey :: Changed(before.edges, after.edges, k) ==>
          Holds(sys, tid, NodeLock(k.from)) && Holds(sys, tid, NodeLock(k.to)))
    && (forall s :: Changed(before.partitions, after.partitions, s) ==> Holds(sys, tid, PartitionLock(s)))
  }

  /** The nodes a transaction names in its parameters. */
  ghost predicate NodeIsNamed(kind: Kind, id: Id) {
    match kind
    case MergeNodeTx(own, _) => id == own
    case MergeRelationTx(from, to) => id == from || id == to
    case WriteBackTx(ids, _) => id in ids
    case CaptureTx(_) => false
  }

  /** The partitions it names, or that own a node it names. */
  ghost predicate PartitionIsNamed(sys: Sys, kind: Kind, scope: Scope) {
    match kind
    case MergeNodeTx(id, own) => scope == own || OwnerOf(sys, id) == Some(scope)
    case MergeRelationTx(from, to) => OwnerOf(sys, from) == Some(scope) || OwnerOf(sys, to) == Some(scope)
    case WriteBackTx(_, target) => scope == target
    case CaptureTx(captured) => scope == captured
  }

  lemma HoldsNodes(sys: Sys, tid: nat, id: Id)
    requires tid in sys.txs && TxInv(sys, sys.txs[tid]) && Enabled(sys, Finish(tid))
    ensures Holds(sys, tid, NodeLock(id)) <==> NodeIsNamed(sys.txs[tid].kind, id)
  {
    var kind := sys.txs[tid].kind;
    if kind.MergeRelationTx? { SortedNodeLocksAscend({kind.from, kind.to}); }
    if kind.WriteBackTx? { SortedNodeLocksAscend(kind.ids); }
    assert sys.txs[tid].held == NodeLocks(kind) + PartitionLocks(sys, kind);
  }

  lemma HoldsPartitions(sys: Sys, tid: nat, scope: Scope)
    requires tid in sys.txs && TxInv(sys, sys.txs[tid]) && Enabled(sys, Finish(tid))
    ensures Holds(sys, tid, PartitionLock(scope)) <==> PartitionIsNamed(sys, sys.txs[tid].kind, scope)
  {
    var kind := sys.txs[tid].kind;
    NodeLocksAscend(kind);
    if kind.MergeNodeTx? { InScopeLocks(OwnerOf(sys, kind.id), Some(kind.scope), scope); }
    if kind.MergeRelationTx? { InScopeLocks(OwnerOf(sys, kind.from), OwnerOf(sys, kind.to), scope); }
    hide NodeLocks, ScopeRows, ScopeLocks;
    assert sys.txs[tid].held == NodeLocks(kind) + PartitionLocks(sys, kind);
  }

  lemma InScopeLocks(a: Option<Scope>, b: Option<Scope>, scope: Scope)
    ensures PartitionLock(scope) in ScopeLocks(ScopeRows(a, b)) <==> a == Some(scope) || b == Some(scope)
  {
    ScopeRowsAreSortedAndComplete(a, b);
    var rows := ScopeRows(a, b);
    if scope in rows {
      var i :| 0 <= i < |rows| && rows[i] == scope;
      assert ScopeLocks(rows)[i] == PartitionLock(scope);
    }
  }

  /** What a write changes: nodes, edges between nodes, partitions, and the scopes that nodes then have. */
  ghost predicate ChangesOnly(before: Db, after: Db, ids: set<Id>, scopes: set<Scope>, owned: map<Id, Scope>) {
    && (forall id :: Changed(before.nodes, after.nodes, id) ==> id in ids)
    && (forall k: EdgeKey :: Changed(before.edges, after.edges, k) ==> k.from in ids && k.to in ids)
    && (forall s :: Changed(before.partitions, after.partitions, s) ==> s in scopes)
    && forall id :: GraphStore.ScopeOf(after, id) ==
         if id in owned then {owned[id]} else GraphStore.ScopeOf(before, id)
  }

  lemma NodeMergeChanges(db: Db, id: Id, t: NodeType, body: Body)
    ensures ChangesOnly(db, MergeNode(db, id, t, body), {id}, GraphStore.ScopeOf(db, id) + {body.scope},
                        map[id := body.scope])
  {
    GraphStore.MergedNodeIsStored(db, id, t, body);
    hide MergeNode;
  }

  lemma RelationMergeChanges(db: Db, key: EdgeKey, weight: Option<int>)
    ensures ChangesOnly(db, MergeRelation(db, key, weight), {key.from, key.to},
                        GraphStore.ScopeOf(db, key.from) + GraphStore.ScopeOf(db, key.to), map[])
  {
    GraphStore.MergedEdgeIsStored(db, key, weight);
    hide MergeRelation;
  }

  lemma WriteBackChanges(db: Db, scope: Scope, generation: int, rows: map<Id, ScoreRow>)
    ensures ChangesOnly(db, WriteBack(db, scope, generation, rows), rows.Keys, {}, map[])
  {
  }

  /** A transaction changes only what it names, and the owners stay in step. */
  lemma WritesWhatItNames(sys: Sys, tid: nat, before: Db, after: Db)
    requires Enabled(sys, Finish(tid)) && OwnersAgree(sys, before) && Writes(sys.txs[tid].kind, before, after)
    ensures forall id :: Changed(before.nodes, after.nodes, id) ==> NodeIsNamed(sys.txs[tid].kind, id)
    ensures forall k: EdgeKey :: Changed(before.edges, after.edges, k) ==>
              NodeIsNamed(sys.txs[tid].kind, k.from) && NodeIsNamed(sys.txs[tid].kind, k.to)
    ensures forall s :: Changed(before.partitions, after.partitions, s) ==> PartitionIsNamed(sys, sys.txs[tid].kind, s)
    ensures OwnersAgree(Next(sys, Finish(tid)), after)
  {
    hide MergeNode, MergeRelation, WriteBack, GraphStore.ScopeOf, Changed;
    match sys.txs[tid].kind
    case MergeNodeTx(id, scope) =>
      var t, body: Body :| body.scope == scope && after == MergeNode(before, id, t, body);
      NodeMergeChanges(before, id, t, body);
    case MergeRelationTx(from, to) =>
      var t: RelType, weight :| after == MergeRelation(before, EdgeKey(from, t, to), weight);
      RelationMergeChanges(before, EdgeKey(from, t, to), weight);
    case WriteBackTx(ids, target) =>
      var generation, rows: map<Id, ScoreRow> :| rows.Keys == ids
      && after == WriteBack(before, target, generation, rows);
      WriteBackChanges(before, target, generation, rows);
    case CaptureTx(captured) => CaptureChanges(before, captured);
  }

  lemma CaptureChanges(db: Db, scope: Scope)
    ensures ChangesOnly(db, Capture(db, scope), {}, {scope}, map[])
  {
  }

  /** When a transaction finishes, all it writes is locked by it alone, and the owners stay in step. */
  lemma WritesAreLocked(owner: map<Id, Scope>, trace: seq<Step>, tid: nat, before: Db, after: Db)
    requires Enabled(Run(owner, trace), Finish(tid)) && OwnersAgree(Run(owner, trace), before)
    requires Writes(Run(owner, trace).txs[tid].kind, before, after)
    ensures var sys := Run(owner, trace);
            && Covered(sys, tid, before, after)
            && (sys.txs[tid].kind.WriteBackTx? ==> Holds(sys, tid, PartitionLock(sys.txs[tid].kind.target)))
            && (forall r, other :: Holds(sys, tid, r) && Holds(sys, other, r) ==> other == tid)
            && OwnersAgree(Next(sys, Finish(tid)), after)
  {
    var sys := Run(owner, trace);
    RunKeepsInvariant(owner, trace);
    assert tid in sys.txs && TxInv(sys, sys.txs[tid]);
    var kind := sys.txs[tid].kind;
    WritesWhatItNames(sys, tid, before, after);
    hide Run, TxInv, Enabled, Holds, OwnersAgree, Writes, Changed, Next;
    forall id ensures Holds(sys, tid, NodeLock(id)) <==> NodeIsNamed(kind, id) { HoldsNodes(sys, tid, id); }
    forall s ensures Holds(sys, tid, PartitionLock(s)) <==> PartitionIsNamed(sys, kind, s) {
      HoldsPartitions(sys, tid, s);
    }
  }
}
