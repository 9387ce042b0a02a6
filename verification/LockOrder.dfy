/**
The graph transactions one lock at a time.

A transaction first takes its CodeNode locks in id order, then reads the scopes of the nodes it now
holds, then takes the GDSPartition locks of those scopes in scope order, and releases everything at
commit. Any number of transactions run at once, in any interleaving.
*/
module LockOrder {
  import opened Common
  import opened CodeGraph
  import opened Ordering

  datatype Kind =
    | MergeNodeTx(id: Id, scope: Scope)
    | MergeRelationTx(from: Id, to: Id)
    | WriteBackTx(ids: set<Id>, target: Scope)
    | CaptureTx(captured: Scope)

  /** `held` and `todo` are lock lists; `scopesRead` tells whether the partition locks are already known. */
  datatype Tx = Tx(kind: Kind, held: seq<Resource>, todo: seq<Resource>, scopesRead: bool)

  /** The committed owner scope of every node, and the transactions that have not finished. */
  datatype Sys = Sys(owner: map<Id, Scope>, txs: map<nat, Tx>)

  function OwnerOf(sys: Sys, id: Id): Option<Scope> {
    if id in sys.owner then Some(sys.owner[id]) else None
  }

  /** Inserting one lock at its place in an ascending list, once. */
  function Insert(r: Resource, locks: seq<Resource>): seq<Resource> {
    if locks == [] then [r]
    else if r == locks[0] then locks
    else if Before(r, locks[0]) then [r] + locks
    else [locks[0]] + Insert(r, locks[1..])
  }

  /** The locks of a set of node ids, ascending. */
  ghost function SortedNodeLocks(ids: set<Id>): seq<Resource> {
    if ids == {} then []
    else var id :| id in ids; Insert(NodeLock(id), SortedNodeLocks(ids - {id}))
  }

  ghost function NodeLocks(kind: Kind): seq<Resource> {
    match kind
    case MergeNodeTx(id, _) => [NodeLock(id)]
    case MergeRelationTx(from, to) => SortedNodeLocks({from, to})
    case WriteBackTx(ids, _) => SortedNodeLocks(ids)
    case CaptureTx(_) => []
  }

  function ScopeLocks(scopes: seq<Scope>): seq<Resource> {
    seq(|scopes|, i requires 0 <= i < |scopes| => PartitionLock(scopes[i]))
  }

  /** The partition rows of the transaction, from the scopes as they are read under the node locks. */
  function PartitionLocks(sys: Sys, kind: Kind): seq<Resource> {
    match kind
    case MergeNodeTx(id, scope) => ScopeLocks(ScopeRows(OwnerOf(sys, id), Some(scope)))
    case MergeRelationTx(from, to) => ScopeLocks(ScopeRows(OwnerOf(sys, from), OwnerOf(sys, to)))
    case WriteBackTx(_, target) => [PartitionLock(target)]
    case CaptureTx(captured) => [PartitionLock(captured)]
  }

  predicate Holds(sys: Sys, tid: nat, r: Resource) {
    tid in sys.txs && r in sys.txs[tid].held
  }

  // ---------------------------------------------------------------- steps

  datatype Step =
    | Begin(tid: nat, kind: Kind) | Acquire(tid: nat) | ReadScopes(tid: nat) | Finish(tid: nat) | Abort(tid: nat)

  ghost predicate Enabled(sys: Sys, step: Step) {
    match step
    case Begin(tid, _) => tid !in sys.txs
    case Acquire(tid) =>
      tid in sys.txs && sys.txs[tid].todo != [] && forall other :: other in sys.txs ==>
        !Holds(sys, other, sys.txs[tid].todo[0])
    case ReadScopes(tid) => tid in sys.txs && sys.txs[tid].todo == [] && !sys.txs[tid].scopesRead
    case Finish(tid) => tid in sys.txs && sys.txs[tid].todo == [] && sys.txs[tid].scopesRead
    case Abort(tid) => tid in sys.txs
  }

  ghost function Next(sys: Sys, step: Step): Sys
    requires Enabled(sys, step)
  {
    match step
    case Begin(tid, kind) => sys.(txs := sys.txs[tid := Tx(kind, [], NodeLocks(kind), false)])
    case Acquire(tid) =>
      var tx := sys.txs[tid];
      sys.(txs := sys.txs[tid := tx.(held := tx.held + [tx.todo[0]], todo := tx.todo[1..])])
    case ReadScopes(tid) =>
      var tx := sys.txs[tid];
      sys.(txs := sys.txs[tid := tx.(todo := PartitionLocks(sys, tx.kind), scopesRead := true)])
    case Finish(tid) =>
      var kind := sys.txs[tid].kind;
      Sys(if kind.MergeNodeTx? then sys.owner[kind.id := kind.scope] else sys.owner, sys.txs - {tid})
    case Abort(tid) => sys.(txs := sys.txs - {tid})
  }

  /** A run with no transaction at first; a step that is not enabled does nothing. */
  ghost function Run(owner: map<Id, Scope>, trace: seq<Step>): Sys {
    if trace == [] then Sys(owner, map[])
    else
      var prev := Run(owner, trace[..|trace| - 1]);
      if Enabled(prev, trace[|trace| - 1]) then Next(prev, trace[|trace| - 1]) else prev
  }

  // ---------------------------------------------------------------- the invariant

  /** The whole lock list of a transaction ascends, node locks first; once known, its partition rows are current. */
  ghost predicate TxInv(sys: Sys, tx: Tx) {
    && Ascending(tx.held + tx.todo)
    && (!tx.scopesRead ==> tx.held + tx.todo == NodeLocks(tx.kind))
    && (tx.scopesRead ==> tx.held + tx.todo == NodeLocks(tx.kind) + PartitionLocks(sys, tx.kind))
    && (tx.scopesRead ==> NodeLocks(tx.kind) <= tx.held)
  }

  ghost predicate Exclusive(sys: Sys) {
    forall a, b, r :: Holds(sys, a, r) && Holds(sys, b, r) ==> a == b
  }

  ghost predicate Invariant(sys: Sys) {
    Exclusive(sys) && forall tid :: tid in sys.txs ==> TxInv(sys, sys.txs[tid])
  }

  lemma {:induction false} InsertKeepsAscending(r: Resource, locks: seq<Resource>)
    requires Ascending(locks)
    ensures Ascending(Insert(r, locks))
    ensures forall x :: x in Insert(r, locks) <==> x == r || x in locks
  {
    if locks != [] {
      var rest := locks[1..];
      assert locks == [locks[0]] + rest;
      InsertKeepsAscending(r, rest);
      BeforeTrichotomy(r, locks[0]);
      if r != locks[0] && Before(r, locks[0]) {
        forall i | 0 <= i < |locks| ensures Before(r, locks[i]) {
          if i > 0 { BeforeTransitive(r, locks[0], locks[i]); }
        }
      } else if r != locks[0] {
        var tail := Insert(r, rest);
        forall i | 0 <= i < |tail| ensures Before(locks[0], tail[i]) {
          assert tail[i] in tail;
          if tail[i] != r { var j :| 0 <= j < |rest| && rest[j] == tail[i]; assert rest[j] == locks[j + 1]; }
        }
      }
    }
  }

  lemma {:induction false} SortedNodeLocksAscend(ids: set<Id>)
    ensures Ascending(SortedNodeLocks(ids))
    ensures forall r :: r in SortedNodeLocks(ids) <==> r.NodeLock? && r.id in ids
    decreases |ids|
  {
    if ids != {} {
      var id :| id in ids && SortedNodeLocks(ids) == Insert(NodeLock(id), SortedNodeLocks(ids - {id}));
      SortedNodeLocksAscend(ids - {id});
      InsertKeepsAscending(NodeLock(id), SortedNodeLocks(ids - {id}));
    }
  }

  lemma NodeLocksAscend(kind: Kind)
    ensures Ascending(NodeLocks(kind))
    ensures forall r :: r in NodeLocks(kind) ==> r.NodeLock?
    ensures kind.MergeNodeTx? ==> NodeLock(kind.id) in NodeLocks(kind)
    ensures kind.MergeRelationTx? ==> NodeLock(kind.from) in NodeLocks(kind) && NodeLock(kind.to) in NodeLocks(kind)
  {
    match kind
    case MergeNodeTx(_, _) =>
    case MergeRelationTx(from, to) => SortedNodeLocksAscend({from, to});
    case WriteBackTx(ids, _) => SortedNodeLocksAscend(ids);
    case CaptureTx(_) =>
  }

  /** Every transaction asks for its locks in one ascending list. */
  lemma LockListAscends(sys: Sys, kind: Kind)
    ensures Ascending(NodeLocks(kind) + PartitionLocks(sys, kind))
  {
    NodeLocksAscend(kind);
    var nodes, parts := NodeLocks(kind), PartitionLocks(sys, kind);
    match kind {
      case MergeNodeTx(id, scope) => ScopeRowsAreSortedAndComplete(OwnerOf(sys, id), Some(scope));
      case MergeRelationTx(from, to) => ScopeRowsAreSortedAndComplete(OwnerOf(sys, from), OwnerOf(sys, to));
      case WriteBackTx(_, _) =>
      case CaptureTx(_) =>
    }
    assert Ascending(parts);
    forall i, j | 0 <= i < j < |nodes + parts| ensures Before((nodes + parts)[i], (nodes + parts)[j]) {
      if i < |nodes| <= j { assert nodes[i] in nodes; }
    }
  }

  /** A lock plan depends only on the owners of the nodes it locks. */
  lemma PlanDependsOnOwners(before: Sys, after: Sys, kind: Kind)
    requires forall id :: NodeLock(id) in NodeLocks(kind) ==> OwnerOf(before, id) == OwnerOf(after, id)
    ensures PartitionLocks(before, kind) == PartitionLocks(after, kind)
  {
    NodeLocksAscend(kind);
  }

  lemma TxInvKept(before: Sys, after: Sys, tx: Tx)
    requires TxInv(before, tx)
    requires tx.scopesRead ==> forall id :: NodeLock(id) in NodeLocks(tx.kind) ==>
               OwnerOf(before, id) == OwnerOf(after, id)
    ensures TxInv(after, tx)
  {
    if tx.scopesRead { PlanDependsOnOwners(before, after, tx.kind); }
  }

  lemma AcquireKeepsInvariant(sys: Sys, tid: nat)
    requires Invariant(sys) && Enabled(sys, Acquire(tid))
    ensures Invariant(Next(sys, Acquire(tid)))
  {
    hide NodeLocks, PartitionLocks, Ascending;
    var tx, after := sys.txs[tid], Next(sys, Acquire(tid));
    var tx' := after.txs[tid];
    assert tx'.held + tx'.todo == tx.held + tx.todo;
    forall a, b, r | Holds(after, a, r) && Holds(after, b, r) ensures a == b {
      assert r == tx.todo[0] || (Holds(sys, a, r) && Holds(sys, b, r));
    }
    forall t | t in after.txs ensures TxInv(after, after.txs[t]) {
      if t == tid { TxInvKept(sys, after, tx); } else { TxInvKept(sys, after, sys.txs[t]); }
    }
  }

  lemma ReadScopesKeepsInvariant(sys: Sys, tid: nat)
    requires Invariant(sys) && Enabled(sys, ReadScopes(tid))
    ensures Invariant(Next(sys, ReadScopes(tid)))
  {
    var tx, after := sys.txs[tid], Next(sys, ReadScopes(tid));
    forall a, b, r | Holds(after, a, r) && Holds(after, b, r) ensures a == b {
      assert Holds(sys, a, r) && Holds(sys, b, r);
    }
    forall t | t in after.txs ensures TxInv(after, after.txs[t]) {
      if t == tid {
        assert TxInv(sys, tx) && tx.held + tx.todo == tx.held;
        LockListAscends(sys, tx.kind);
        PlanDependsOnOwners(sys, after, tx.kind);
      } else {
        TxInvKept(sys, after, sys.txs[t]);
      }
    }
  }

  /** Nobody else holds a node whose scope a finishing merge replaces, so no partition plan goes stale. */
  lemma FinishKeepsInvariant(sys: Sys, tid: nat)
    requires Invariant(sys) && Enabled(sys, Finish(tid))
    ensures Invariant(Next(sys, Finish(tid)))
  {
    var tx, after := sys.txs[tid], Next(sys, Finish(tid));
    assert TxInv(sys, tx);
    NodeLocksAscend(tx.kind);
    forall a, b, r | Holds(after, a, r) && Holds(after, b, r) ensures a == b {
      assert Holds(sys, a, r) && Holds(sys, b, r);
    }
    forall t | t in after.txs ensures TxInv(after, after.txs[t]) {
      var other := sys.txs[t];
      assert TxInv(sys, other);
      forall id | other.scopesRead && NodeLock(id) in NodeLocks(other.kind)
        ensures OwnerOf(sys, id) == OwnerOf(after, id)
      {
        assert Holds(sys, t, NodeLock(id));
        if tx.kind.MergeNodeTx? && tx.kind.id == id { assert Holds(sys, tid, NodeLock(id)); }
      }
      TxInvKept(sys, after, other);
    }
  }

  lemma BeginKeepsInvariant(sys: Sys, tid: nat, kind: Kind)
    requires Invariant(sys) && Enabled(sys, Begin(tid, kind))
    ensures Invariant(Next(sys, Begin(tid, kind)))
  {
    var after := Next(sys, Begin(tid, kind));
    NodeLocksAscend(kind);
    assert [] + NodeLocks(kind) == NodeLocks(kind);
    forall a, b, r | Holds(after, a, r) && Holds(after, b, r) ensures a == b {
      assert Holds(sys, a, r) && Holds(sys, b, r);
    }
    forall t | t in after.txs ensures TxInv(after, after.txs[t]) {
      if t != tid { TxInvKept(sys, after, sys.txs[t]); }
    }
  }

  lemma AbortKeepsInvariant(sys: Sys, tid: nat)
    requires Invariant(sys) && Enabled(sys, Abort(tid))
    ensures Invariant(Next(sys, Abort(tid)))
  {
    var after := Next(sys, Abort(tid));
    forall a, b, r | Holds(after, a, r) && Holds(after, b, r) ensures a == b {
      assert Holds(sys, a, r) && Holds(sys, b, r);
    }
    forall t | t in after.txs ensures TxInv(after, after.txs[t]) { TxInvKept(sys, after, sys.txs[t]); }
  }

  lemma {:induction false} RunKeepsInvariant(owner: map<Id, Scope>, trace: seq<Step>)
    ensures Invariant(Run(owner, trace))
  {
    if trace != [] {
      var prev, step := Run(owner, trace[..|trace| - 1]), trace[|trace| - 1];
      RunKeepsInvariant(owner, trace[..|trace| - 1]);
      if Enabled(prev, step) {
        match step
        case Begin(tid, kind) => BeginKeepsInvariant(prev, tid, kind);
        case Acquire(tid) => AcquireKeepsInvariant(prev, tid);
        case ReadScopes(tid) => ReadScopesKeepsInvariant(prev, tid);
        case Finish(tid) => FinishKeepsInvariant(prev, tid);
        case Abort(tid) => AbortKeepsInvariant(prev, tid);
      }
    }
  }

  // ---------------------------------------------------------------- the main results

  /** `a` waits for a lock that `b` holds. */
  ghost predicate WaitsFor(sys: Sys, a: nat, b: nat) {
    a in sys.txs && sys.txs[a].todo != [] && Holds(sys, b, sys.txs[a].todo[0])
  }

  /** Along a wait, the wanted lock moves strictly up the order. */
  lemma WaitingClimbs(sys: Sys, a: nat, b: nat)
    requires Invariant(sys) && WaitsFor(sys, a, b) && sys.txs[b].todo != []
    ensures Before(sys.txs[a].todo[0], sys.txs[b].todo[0])
  {
    var tx := sys.txs[b];
    var i :| 0 <= i < |tx.held| && tx.held[i] == sys.txs[a].todo[0];
    assert TxInv(sys, tx);
    assert (tx.held + tx.todo)[i] == tx.held[i] && (tx.held + tx.todo)[|tx.held|] == tx.todo[0];
  }

  ghost predicate WaitChain(sys: Sys, chain: seq<nat>) {
    forall i :: 0 <= i < |chain| - 1 ==> WaitsFor(sys, chain[i], chain[i + 1])
  }

  lemma {:induction false} ChainClimbs(sys: Sys, chain: seq<nat>)
    requires Invariant(sys) && |chain| >= 2 && WaitChain(sys, chain)
    requires chain[0] in sys.txs && sys.txs[chain[0]].todo != []
    requires chain[|chain| - 1] in sys.txs && sys.txs[chain[|chain| - 1]].todo != []
    ensures Before(sys.txs[chain[0]].todo[0], sys.txs[chain[|chain| - 1]].todo[0])
  {
    var front := chain[..|chain| - 1];
    var mid, last := chain[|chain| - 2], chain[|chain| - 1];
    assert WaitsFor(sys, mid, last);
    WaitingClimbs(sys, mid, last);
    if |chain| > 2 {
      assert WaitChain(sys, front) by {
        forall i | 0 <= i < |front| - 1 ensures WaitsFor(sys, front[i], front[i + 1]) {
          assert WaitsFor(sys, chain[i], chain[i + 1]);
        }
      }
      ChainClimbs(sys, front);
      BeforeTransitive(sys.txs[chain[0]].todo[0], sys.txs[mid].todo[0], sys.txs[last].todo[0]);
    }
  }

  /** No reachable state holds a cyclic wait. */
  lemma NoCyclicWait(owner: map<Id, Scope>, trace: seq<Step>, chain: seq<nat>)
    requires |chain| >= 2 && WaitChain(Run(owner, trace), chain)
    ensures chain[0] != chain[|chain| - 1]
  {
    var sys := Run(owner, trace);
    RunKeepsInvariant(owner, trace);
    assert WaitsFor(sys, chain[0], chain[1]);
    if chain[0] == chain[|chain| - 1] {
      ChainClimbs(sys, chain);
      BeforeTrichotomy(sys.txs[chain[0]].todo[0], sys.txs[chain[0]].todo[0]);
    }
  }

  /** Among the waiting transactions one wants a lock that no other wanted lock exceeds. */
  lemma {:induction false} HighestWaiter(sys: Sys, waiting: set<nat>) returns (top: nat)
    requires waiting != {} && forall t :: t in waiting ==> t in sys.txs && sys.txs[t].todo != []
    ensures top in waiting && forall t :: t in waiting ==> !Before(sys.txs[top].todo[0], sys.txs[t].todo[0])
    decreases |waiting|
  {
    var t :| t in waiting;
    var rest := waiting - {t};
    if rest == {} {
      assert waiting == {t};
      BeforeTrichotomy(sys.txs[t].todo[0], sys.txs[t].todo[0]);
      top := t;
    } else {
      var u := HighestWaiter(sys, rest);
      var x, y := sys.txs[t].todo[0], sys.txs[u].todo[0];
      BeforeTrichotomy(x, y);
      BeforeTrichotomy(x, x);
      top := if Before(y, x) then t else u;
      forall v | v in waiting ensures !Before(sys.txs[top].todo[0], sys.txs[v].todo[0]) {
        var z := sys.txs[v].todo[0];
        if v != t && top == t && Before(x, z) { BeforeTransitive(y, x, z); }
      }
    }
  }

  /** As long as a transaction is unfinished, some transaction can take its next step towards commit. */
  lemma SomeTransactionProceeds(owner: map<Id, Scope>, trace: seq<Step>) returns (step: Step)
    requires Run(owner, trace).txs != map[]
    ensures Enabled(Run(owner, trace), step) && (step.Acquire? || step.ReadScopes? || step.Finish?)
  {
    var sys := Run(owner, trace);
    RunKeepsInvariant(owner, trace);
    var waiting := set t | t in sys.txs && sys.txs[t].todo != [];
    if waiting == {} {
      var t :| t in sys.txs;
      assert t !in waiting;
      step := if sys.txs[t].scopesRead then Finish(t) else ReadScopes(t);
    } else {
      var top := HighestWaiter(sys, waiting);
      if Enabled(sys, Acquire(top)) {
        step := Acquire(top);
      } else {
        var holder :| holder in sys.txs && Holds(sys, holder, sys.txs[top].todo[0]);
        if sys.txs[holder].todo != [] {
          assert holder in waiting;
          WaitingClimbs(sys, top, holder);
          assert false;
        }
        step := if sys.txs[holder].scopesRead then Finish(holder) else ReadScopes(holder);
      }
    }
  }

  /** The scopes a transaction read under its node locks are still the committed ones when it finishes. */
  lemma ScopesReadStayCurrent(owner: map<Id, Scope>, trace: seq<Step>, tid: nat)
    requires tid in Run(owner, trace).txs && Run(owner, trace).txs[tid].scopesRead
    ensures var sys := Run(owner, trace);
            var tx := sys.txs[tid];
            tx.held + tx.todo == NodeLocks(tx.kind) + PartitionLocks(sys, tx.kind)
  {
    RunKeepsInvariant(owner, trace);
    assert TxInv(Run(owner, trace), Run(owner, trace).txs[tid]);
  }

  // ---------------------------------------------------------------- everyone finishes

  /** Steps that a transaction still needs at most; a read of scopes adds no more than two locks. */
  function Need(tx: Tx): nat {
    |tx.todo| + (if tx.scopesRead then 1 else 4)
  }

  ghost function Work(txs: map<nat, Tx>): nat
    decreases |txs.Keys|
  {
    if txs == map[] then 0
    else var t :| t in txs; Shrinks(txs, t); Need(txs[t]) + Work(txs - {t})
  }

  lemma Shrinks(txs: map<nat, Tx>, t: nat)
    requires t in txs
    ensures |(txs - {t}).Keys| < |txs.Keys|
  {
    assert (txs - {t}).Keys == txs.Keys - {t};
  }

  lemma {:induction false} WorkSplits(txs: map<nat, Tx>, t: nat)
    requires t in txs
    ensures Work(txs) == Need(txs[t]) + Work(txs - {t})
    decreases |txs.Keys|
  {
    var u :| u in txs && Work(txs) == Need(txs[u]) + Work(txs - {u});
    if u != t {
      Shrinks(txs, u);
      Shrinks(txs, t);
      WorkSplits(txs - {u}, t);
      WorkSplits(txs - {t}, u);
      assert txs - {u} - {t} == txs - {t} - {u};
    }
  }

  lemma ProgressShrinksWork(sys: Sys, step: Step)
    requires Enabled(sys, step) && (step.Acquire? || step.ReadScopes? || step.Finish?)
    ensures Work(Next(sys, step).txs) < Work(sys.txs)
  {
    var after := Next(sys, step);
    WorkSplits(sys.txs, step.tid);
    if !step.Finish? {
      WorkSplits(after.txs, step.tid);
      assert after.txs - {step.tid} == sys.txs - {step.tid};
      assert |PartitionLocks(sys, sys.txs[step.tid].kind)| <= 2;
    }
  }

  /** From every reachable state the running transactions can all be brought to commit, none aborted. */
  lemma {:induction false} EveryoneCanFinish(owner: map<Id, Scope>, trace: seq<Step>) returns (more: seq<Step>)
    ensures Run(owner, trace + more).txs == map[]
    ensures forall i :: 0 <= i < |more| ==> more[i].Acquire? || more[i].ReadScopes? || more[i].Finish?
    decreases Work(Run(owner, trace).txs)
  {
    var sys := Run(owner, trace);
    if sys.txs == map[] {
      assert trace + [] == trace;
      more := [];
    } else {
      var step := SomeTransactionProceeds(owner, trace);
      ProgressShrinksWork(sys, step);
      assert (trace + [step])[..|trace|] == trace;
      var rest := EveryoneCanFinish(owner, trace + [step]);
      more := [step] + rest;
      assert trace + more == trace + [step] + rest;
    }
  }
}
