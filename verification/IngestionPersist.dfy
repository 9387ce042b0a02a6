/**
Persistence of one parsed file: the receipt and all canonical rows in one PostgreSQL transaction.

A transaction is one atomic step here; `IngestionTransactions` takes it apart. The foreign keys, the unique chunk key
and the relation type check of the schema are part of the model: a row that violates one fails the whole transaction.
*/
module IngestionPersist {
  import opened Common
  import CodeGraph

  datatype Scope = Scope(tenantId: string, repo: string, aclGroup: string)

  datatype Command = Command(commandId: string, commitSha: string, path: string, sourceSha256: string, sourceSize: nat)

  datatype ParsedNode = ParsedNode(id: string, filePath: string, domain: string, nodeType: string, name: string,
                                   astHash: string)

  datatype ParsedRelation = ParsedRelation(domain: string, relType: string, fromId: string, toId: string,
                                           weight: Option<nat>)

  datatype ParsedChunk = ParsedChunk(entityId: string, chunkIndex: nat, text: string, charCount: nat)

  datatype Provenance = Provenance(scope: Scope, path: string, commitSha: string, ingestedAt: string)

  datatype NodeRow = NodeRow(nodeType: string, name: string, astHash: string, provenance: Provenance)

  datatype RelationRow = RelationRow(rowId: nat, relType: string, fromId: string, toId: string, weight: Option<nat>,
                                     provenance: Provenance)

  datatype ChunkRow = ChunkRow(rowId: nat, entityId: string, chunkIndex: nat, text: string, charCount: nat)

  datatype OutboxRow =
    | NodeUpsert(nodeId: string, domain: string, node: NodeRow)
    | RelationUpsert(relation: RelationRow, relDomain: string)
    | ChunkUpsert(chunk: ChunkRow, provenance: Provenance)

  datatype Tables = Tables(nodes: map<string, NodeRow>, relations: set<RelationRow>, chunks: set<ChunkRow>,
                           outbox: seq<OutboxRow>)

  /** `embedded` holds the chunk rows that an embedding refers to. */
  datatype Db = Db(tables: Tables, receipts: map<string, string>, embedded: set<nat>)

  /** SHA-256 based identities, as functions of what they digest. */
  datatype Digests = Digests(scopedNodeId: (Scope, string) -> string, fingerprint: (Scope, Command) -> string)

  /** `now` and `rowIds` are what the database's clock and its random generator give to the transaction. */
  datatype Delivery = Delivery(scope: Scope, command: Command, nodes: seq<ParsedNode>, relations: seq<ParsedRelation>,
                               chunks: seq<ParsedChunk>, now: string, rowIds: nat -> nat)

  datatype Outcome =
    | Applied(nodesUpserted: nat, relationsReplaced: nat, outboxRows: nat)
    | Duplicate | Conflict | Invalid | DatabaseError

  function ProvenanceOf(d: Delivery): Provenance {
    Provenance(d.scope, d.command.path, d.command.commitSha, d.now)
  }

  // ---------------------------------------------------------------- validation

  function NodeIdsOf(nodes: seq<ParsedNode>): set<string> {
    set n | n in nodes :: n.id
  }

  ghost predicate DistinctNodeIds(nodes: seq<ParsedNode>) {
    forall i, j :: 0 <= i < j < |nodes| ==> nodes[i].id != nodes[j].id
  }

  ghost predicate DistinctChunkKeys(chunks: seq<ParsedChunk>) {
    forall i, j :: 0 <= i < j < |chunks| ==>
      (chunks[i].entityId, chunks[i].chunkIndex) != (chunks[j].entityId, chunks[j].chunkIndex)
  }

  /** At least one node, all of this file, no node id twice; every chunk of one of them, no chunk key twice. */
  ghost predicate ParsedDataValid(path: string, nodes: seq<ParsedNode>, chunks: seq<ParsedChunk>) {
    && nodes != []
    && (forall n :: n in nodes ==> n.filePath == path)
    && DistinctNodeIds(nodes)
    && (forall c :: c in chunks ==> c.entityId in NodeIdsOf(nodes))
    && DistinctChunkKeys(chunks)
  }

  function ChunkKeys(chunks: seq<ParsedChunk>): set<(string, nat)> {
    set c | c in chunks :: (c.entityId, c.chunkIndex)
  }

  method NodesAreValid(path: string, nodes: seq<ParsedNode>) returns (valid: bool, nodeIds: set<string>)
    ensures valid <==> nodes != [] && (forall n :: n in nodes ==> n.filePath == path) && DistinctNodeIds(nodes)
    ensures valid ==> nodeIds == NodeIdsOf(nodes)
  {
    nodeIds := {};
    if nodes == [] { return false, nodeIds; }
    for i := 0 to |nodes|
      invariant nodeIds == NodeIdsOf(nodes[..i])
      invariant forall j :: 0 <= j < i ==> nodes[j].filePath == path
      invariant DistinctNodeIds(nodes[..i])
    {
      assert nodes[..i + 1] == nodes[..i] + [nodes[i]];
      if nodes[i].filePath != path { return false, nodeIds; }
      if nodes[i].id in nodeIds {
        ghost var j :| 0 <= j < i && nodes[j].id == nodes[i].id;
        return false, nodeIds;
      }
      nodeIds := nodeIds + {nodes[i].id};
    }
    assert nodes[..|nodes|] == nodes;
    valid := true;
  }

  method ChunksAreValid(nodeIds: set<string>, chunks: seq<ParsedChunk>) returns (valid: bool)
    ensures valid <==> (forall c :: c in chunks ==> c.entityId in nodeIds) && DistinctChunkKeys(chunks)
  {
    var keys: set<(string, nat)> := {};
    for i := 0 to |chunks|
      invariant keys == ChunkKeys(chunks[..i])
      invariant forall j :: 0 <= j < i ==> chunks[j].entityId in nodeIds
      invariant DistinctChunkKeys(chunks[..i])
    {
      assert chunks[..i + 1] == chunks[..i] + [chunks[i]];
      var key := (chunks[i].entityId, chunks[i].chunkIndex);
      if chunks[i].entityId !in nodeIds { return false; }
      if key in keys {
        ghost var j :| 0 <= j < i && (chunks[j].entityId, chunks[j].chunkIndex) == key;
        return false;
      }
      keys := keys + {key};
    }
    assert chunks[..|chunks|] == chunks;
    valid := true;
  }

  method ParsedCommandDataIsValid(path: string, nodes: seq<ParsedNode>, chunks: seq<ParsedChunk>) returns (valid: bool)
    ensures valid <==> ParsedDataValid(path, nodes, chunks)
  {
    var nodeIds;
    valid, nodeIds := NodesAreValid(path, nodes);
    if valid { valid := ChunksAreValid(nodeIds, chunks); }
  }

  // ---------------------------------------------------------------- the transaction, row by row

  function NodeRowOf(d: Delivery, n: ParsedNode): NodeRow {
    NodeRow(n.nodeType, n.name, n.astHash, ProvenanceOf(d))
  }

  function NodeUpsertOf(g: Digests, d: Delivery, n: ParsedNode): OutboxRow {
    NodeUpsert(g.scopedNodeId(d.scope, n.id), n.domain, NodeRowOf(d, n))
  }

  function UpsertNode(t: Tables, g: Digests, d: Delivery, n: ParsedNode): Tables {
    t.(nodes := t.nodes[g.scopedNodeId(d.scope, n.id) := NodeRowOf(d, n)], outbox := t.outbox + [NodeUpsertOf(g, d, n)])
  }

  function UpsertNodes(t: Tables, g: Digests, d: Delivery, nodes: seq<ParsedNode>): Tables {
    if nodes == [] then t
    else UpsertNode(UpsertNodes(t, g, d, nodes[..|nodes| - 1]), g, d, nodes[|nodes| - 1])
  }

  function ScopedIds(g: Digests, d: Delivery, nodes: seq<ParsedNode>): set<string> {
    set n | n in nodes :: g.scopedNodeId(d.scope, n.id)
  }

  /** The scoped ids of all nodes of the file. */
  function OwnIds(g: Digests, d: Delivery): set<string> {
    ScopedIds(g, d, d.nodes)
  }

  function RelationRowOf(rowId: nat, g: Digests, d: Delivery, r: ParsedRelation): RelationRow {
    RelationRow(rowId, r.relType, g.scopedNodeId(d.scope, r.fromId), g.scopedNodeId(d.scope, r.toId), r.weight,
                ProvenanceOf(d))
  }

  /** The row must satisfy the type check and both references to code_node. */
  predicate RelationFits(nodeIds: set<string>, g: Digests, d: Delivery, r: ParsedRelation) {
    && CodeGraph.ParseRelType(r.relType).Some?
    && g.scopedNodeId(d.scope, r.fromId) in nodeIds && g.scopedNodeId(d.scope, r.toId) in nodeIds
  }

  function InsertRelation(t: Tables, g: Digests, d: Delivery, rowId: nat, r: ParsedRelation): Option<Tables> {
    var row := RelationRowOf(rowId, g, d, r);
    if !RelationFits(t.nodes.Keys, g, d, r) then None
    else Some(t.(relations := t.relations + {row}, outbox := t.outbox + [RelationUpsert(row, r.domain)]))
  }

  function InsertRelations(t: Tables, g: Digests, d: Delivery, relations: seq<ParsedRelation>): Option<Tables> {
    if relations == [] then Some(t)
    else
      var last := |relations| - 1;
      var before := InsertRelations(t, g, d, relations[..last]);
      if before.None? then None else InsertRelation(before.value, g, d, d.rowIds(last), relations[last])
  }

  function ChunkRowOf(rowId: nat, g: Digests, d: Delivery, c: ParsedChunk): ChunkRow {
    ChunkRow(rowId, g.scopedNodeId(d.scope, c.entityId), c.chunkIndex, c.text, c.charCount)
  }

  /** The row must refer to a node and its (entity, index) key must be free. */
  predicate ChunkFits(nodeIds: set<string>, stored: set<ChunkRow>, g: Digests, d: Delivery, c: ParsedChunk) {
    var entity := g.scopedNodeId(d.scope, c.entityId);
    entity in nodeIds && forall o :: o in stored ==> o.entityId != entity || o.chunkIndex != c.chunkIndex
  }

  function InsertChunk(t: Tables, g: Digests, d: Delivery, rowId: nat, c: ParsedChunk): Option<Tables> {
    var row := ChunkRowOf(rowId, g, d, c);
    if !ChunkFits(t.nodes.Keys, t.chunks, g, d, c) then None
    else Some(t.(chunks := t.chunks + {row}, outbox := t.outbox + [ChunkUpsert(row, ProvenanceOf(d))]))
  }

  function InsertChunks(t: Tables, g: Digests, d: Delivery, chunks: seq<ParsedChunk>): Option<Tables> {
    if chunks == [] then Some(t)
    else
      var last := |chunks| - 1;
      var before := InsertChunks(t, g, d, chunks[..last]);
      if before.None? then None else InsertChunk(before.value, g, d, d.rowIds(|d.relations| + last), chunks[last])
  }

  function WithoutRelationsFrom(t: Tables, ids: set<string>): Tables {
    t.(relations := set r | r in t.relations && r.fromId !in ids)
  }

  function WithoutChunksOf(t: Tables, ids: set<string>): Tables {
    t.(chunks := set c | c in t.chunks && c.entityId !in ids)
  }

  /** A chunk row that an embedding refers to cannot be deleted. */
  predicate ChunksDeletable(t: Tables, ids: set<string>, embedded: set<nat>) {
    forall c :: c in t.chunks && c.entityId in ids ==> c.rowId !in embedded
  }

  /** All canonical writes of one file; None is a database error. */
  function PersistFile(t: Tables, g: Digests, d: Delivery, embedded: set<nat>): Option<Tables> {
    var ids := OwnIds(g, d);
    var t1 := WithoutRelationsFrom(UpsertNodes(t, g, d, d.nodes), ids);
    var t2 := InsertRelations(t1, g, d, d.relations);
    if t2.None? || !ChunksDeletable(t2.value, ids, embedded) then None
    else InsertChunks(WithoutChunksOf(t2.value, ids), g, d, d.chunks)
  }

  datatype After = After(db: Db, outcome: Outcome)

  function Persist(db: Db, g: Digests, d: Delivery, valid: bool): After {
    var fp := g.fingerprint(d.scope, d.command);
    if !valid then After(db, Invalid)
    else if d.command.commandId in db.receipts then
      After(db, if db.receipts[d.command.commandId] == fp then Duplicate else Conflict)
    else
      var t := PersistFile(db.tables, g, d, db.embedded);
      if t.None? then After(db, DatabaseError)
      else After(db.(tables := t.value, receipts := db.receipts[d.command.commandId := fp]),
                 Applied(|d.nodes|, |d.relations|, |d.nodes| + |d.relations| + |d.chunks|))
  }

  ghost function PersistSpec(db: Db, g: Digests, d: Delivery): After {
    Persist(db, g, d, ParsedDataValid(d.command.path, d.nodes, d.chunks))
  }

  // ---------------------------------------------------------------- the store

  class PostgresStore {
    var db: Db

    constructor ()
      ensures db == Db(Tables(map[], {}, {}, []), map[], {})
    {
      db := Db(Tables(map[], {}, {}, []), map[], {});
    }

    /** The loops of the transaction; false means that a statement failed and nothing may be kept. */
    method PersistParsedFileInTransaction(g: Digests, d: Delivery) returns (ok: bool, tx: Tables, summary: Outcome)
      ensures ok <==> PersistFile(db.tables, g, d, db.embedded).Some?
      ensures ok ==> tx == PersistFile(db.tables, g, d, db.embedded).value
      ensures ok ==> summary == Applied(|d.nodes|, |d.relations|, |d.nodes| + |d.relations| + |d.chunks|)
    {
      hide InsertRelation, InsertChunk, UpsertNode;
      hide OwnIds, WithoutRelationsFrom, WithoutChunksOf, ChunksDeletable;
      tx := db.tables;
      summary := Applied(0, 0, 0);
      var nodesUpserted, relationsReplaced, outboxRows := 0, 0, 0;
      for i := 0 to |d.nodes|
        invariant tx == UpsertNodes(db.tables, g, d, d.nodes[..i]) && nodesUpserted == outboxRows == i
      {
        assert d.nodes[..i + 1][..i] == d.nodes[..i];
        tx := UpsertNode(tx, g, d, d.nodes[i]);
        nodesUpserted, outboxRows := nodesUpserted + 1, outboxRows + 1;
      }
      assert d.nodes[..|d.nodes|] == d.nodes;
      var ids := OwnIds(g, d);
      var t1 := WithoutRelationsFrom(tx, ids);
      tx := t1;
      for i := 0 to |d.relations|
        invariant InsertRelations(t1, g, d, d.relations[..i]) == Some(tx)
        invariant relationsReplaced == i && outboxRows == |d.nodes| + i
      {
        assert d.relations[..i + 1][..i] == d.relations[..i];
        var next := InsertRelation(tx, g, d, d.rowIds(i), d.relations[i]);
        if next.None? {
          FailedPrefixRelations(t1, g, d, d.relations, i + 1);
          return false, tx, summary;
        }
        tx := next.value;
        relationsReplaced, outboxRows := relationsReplaced + 1, outboxRows + 1;
      }
      assert d.relations[..|d.relations|] == d.relations;
      if !ChunksDeletable(tx, ids, db.embedded) { return false, tx, summary; }
      var t2 := WithoutChunksOf(tx, ids);
      tx := t2;
      for i := 0 to |d.chunks|
        invariant InsertChunks(t2, g, d, d.chunks[..i]) == Some(tx)
        invariant outboxRows == |d.nodes| + |d.relations| + i
      {
        assert d.chunks[..i + 1][..i] == d.chunks[..i];
        var next := InsertChunk(tx, g, d, d.rowIds(|d.relations| + i), d.chunks[i]);
        if next.None? {
          FailedPrefixChunks(t2, g, d, d.chunks, i + 1);
          return false, tx, summary;
        }
        tx := next.value;
        outboxRows := outboxRows + 1;
      }
      assert d.chunks[..|d.chunks|] == d.chunks;
      ok, summary := true, Applied(nodesUpserted, relationsReplaced, outboxRows);
    }

    method PersistIngestionCommand(g: Digests, d: Delivery) returns (outcome: Outcome)
      modifies this
      ensures After(db, outcome) == PersistSpec(old(db), g, d)
      ensures outcome.Applied? ==>
                && FileStored(old(db).tables, db.tables, g, d) && db.embedded == old(db).embedded
                && d.command.commandId !in old(db).receipts
                && db.receipts == old(db).receipts[d.command.commandId := g.fingerprint(d.scope, d.command)]
                && outcome.nodesUpserted == |d.nodes| && outcome.relationsReplaced == |d.relations|
                && outcome.outboxRows == |d.nodes| + |d.relations| + |d.chunks|
      ensures !outcome.Applied? ==> db == old(db)
      ensures outcome == Invalid <==> !ParsedDataValid(d.command.path, d.nodes, d.chunks)
      ensures outcome == Duplicate || outcome == Conflict ==> d.command.commandId in old(db).receipts
      ensures outcome != Invalid && d.command.commandId in old(db).receipts ==>
                outcome == if old(db).receipts[d.command.commandId] == g.fingerprint(d.scope, d.command) then Duplicate
                           else Conflict
    {
      hide FileStored;
      var valid := ParsedCommandDataIsValid(d.command.path, d.nodes, d.chunks);
      if !valid { return Invalid; }
      var fp := g.fingerprint(d.scope, d.command);
      if d.command.commandId in db.receipts {
        return if db.receipts[d.command.commandId] == fp then Duplicate else Conflict;
      }
      var ok, tx, summary := PersistParsedFileInTransaction(g, d);
      if !ok { return DatabaseError; }
      WrittenFileIsStored(db.tables, g, d, db.embedded);
      db := db.(tables := tx, receipts := db.receipts[d.command.commandId := fp]);
      outcome := summary;
    }
  }

  lemma {:induction false} FailedPrefixRelations(t: Tables, g: Digests, d: Delivery, relations: seq<ParsedRelation>,
                                                 k: nat)
    requires k <= |relations| && InsertRelations(t, g, d, relations[..k]).None?
    ensures InsertRelations(t, g, d, relations).None?
    decreases |relations|
  {
    if k < |relations| {
      var front := relations[..|relations| - 1];
      assert front[..k] == relations[..k];
      FailedPrefixRelations(t, g, d, front, k);
    } else {
      assert relations[..k] == relations;
    }
  }

  lemma {:induction false} FailedPrefixChunks(t: Tables, g: Digests, d: Delivery, chunks: seq<ParsedChunk>, k: nat)
    requires k <= |chunks| && InsertChunks(t, g, d, chunks[..k]).None?
    ensures InsertChunks(t, g, d, chunks).None?
    decreases |chunks|
  {
    if k < |chunks| {
      var front := chunks[..|chunks| - 1];
      assert front[..k] == chunks[..k];
      FailedPrefixChunks(t, g, d, front, k);
    } else {
      assert chunks[..k] == chunks;
    }
  }

  // ---------------------------------------------------------------- what an applied file replaces

  /** The node rows of a file; of several nodes with one scoped id the last counts. */
  function NodeRows(g: Digests, d: Delivery, nodes: seq<ParsedNode>): map<string, NodeRow> {
    if nodes == [] then map[]
    else
      var last := nodes[|nodes| - 1];
      NodeRows(g, d, nodes[..|nodes| - 1])[g.scopedNodeId(d.scope, last.id) := NodeRowOf(d, last)]
  }

  function RelationRows(g: Digests, d: Delivery, relations: seq<ParsedRelation>): seq<RelationRow> {
    seq(|relations|, i requires 0 <= i < |relations| => RelationRowOf(d.rowIds(i), g, d, relations[i]))
  }

  function ChunkRows(g: Digests, d: Delivery, chunks: seq<ParsedChunk>): seq<ChunkRow> {
    seq(|chunks|, i requires 0 <= i < |chunks| => ChunkRowOf(d.rowIds(|d.relations| + i), g, d, chunks[i]))
  }

  function NodeUpserts(g: Digests, d: Delivery, nodes: seq<ParsedNode>): seq<OutboxRow> {
    seq(|nodes|, i requires 0 <= i < |nodes| => NodeUpsertOf(g, d, nodes[i]))
  }

  function RelationUpserts(g: Digests, d: Delivery, relations: seq<ParsedRelation>): seq<OutboxRow> {
    seq(|relations|,
        i requires 0 <= i < |relations| => RelationUpsert(RelationRows(g, d, relations)[i], relations[i].domain))
  }

  function ChunkUpserts(g: Digests, d: Delivery, chunks: seq<ParsedChunk>): seq<OutboxRow> {
    seq(|chunks|, i requires 0 <= i < |chunks| => ChunkUpsert(ChunkRows(g, d, chunks)[i], ProvenanceOf(d)))
  }

  function OutboxRows(g: Digests, d: Delivery): seq<OutboxRow> {
    NodeUpserts(g, d, d.nodes) + RelationUpserts(g, d, d.relations) + ChunkUpserts(g, d, d.chunks)
  }

  /**
  The tables with the rows of the file in place of all relations that start at its nodes and all chunks of its nodes.
  */
  ghost function Replaced(t: Tables, g: Digests, d: Delivery): Tables {
    var ids := OwnIds(g, d);
    Tables(t.nodes + NodeRows(g, d, d.nodes),
           (set r | r in t.relations && r.fromId !in ids) + Elements(RelationRows(g, d, d.relations)),
           (set c | c in t.chunks && c.entityId !in ids) + Elements(ChunkRows(g, d, d.chunks)),
           t.outbox + OutboxRows(g, d))
  }

  function ScopedKey(g: Digests, d: Delivery, c: ParsedChunk): (string, nat) {
    (g.scopedNodeId(d.scope, c.entityId), c.chunkIndex)
  }

  ghost predicate DistinctScopedKeys(g: Digests, d: Delivery, chunks: seq<ParsedChunk>) {
    forall i, j :: 0 <= i < j < |chunks| ==> ScopedKey(g, d, chunks[i]) != ScopedKey(g, d, chunks[j])
  }

  ghost predicate RelationsFit(nodeIds: set<string>, g: Digests, d: Delivery, relations: seq<ParsedRelation>) {
    forall r :: r in relations ==> RelationFits(nodeIds, g, d, r)
  }

  ghost predicate ChunksFit(nodeIds: set<string>, stored: set<ChunkRow>, g: Digests, d: Delivery,
                            chunks: seq<ParsedChunk>) {
    forall c :: c in chunks ==> ChunkFits(nodeIds, stored, g, d, c)
  }

  /** No statement of the transaction violates a constraint. */
  ghost predicate Admissible(t: Tables, g: Digests, d: Delivery, embedded: set<nat>) {
    && RelationsFit(t.nodes.Keys + OwnIds(g, d), g, d, d.relations)
    && ChunksDeletable(t, OwnIds(g, d), embedded)
    && ChunksFit(t.nodes.Keys + OwnIds(g, d), WithoutChunksOf(t, OwnIds(g, d)).chunks, g, d, d.chunks)
    && DistinctScopedKeys(g, d, d.chunks)
  }

  ghost predicate IsLast(g: Digests, d: Delivery, nodes: seq<ParsedNode>, i: int) {
    0 <= i < |nodes| && forall j :: i < j < |nodes| ==>
      g.scopedNodeId(d.scope, nodes[j].id) != g.scopedNodeId(d.scope, nodes[i].id)
  }

  lemma {:induction false} NodeRowsAreTheFiles(g: Digests, d: Delivery, nodes: seq<ParsedNode>)
    ensures NodeRows(g, d, nodes).Keys == ScopedIds(g, d, nodes)
  {
    hide NodeRowOf;
    if nodes != [] {
      var front, last := nodes[..|nodes| - 1], nodes[|nodes| - 1];
      NodeRowsAreTheFiles(g, d, front);
      assert nodes == front + [last];
      assert ScopedIds(g, d, nodes) == ScopedIds(g, d, front) + {g.scopedNodeId(d.scope, last.id)};
    }
  }

  /** Each node of the file has its row, unless a later node has the same scoped id. */
  lemma {:induction false} LastNodeCounts(g: Digests, d: Delivery, nodes: seq<ParsedNode>, i: nat)
    requires IsLast(g, d, nodes, i)
    ensures var id := g.scopedNodeId(d.scope, nodes[i].id);
            id in NodeRows(g, d, nodes) && NodeRows(g, d, nodes)[id] == NodeRowOf(d, nodes[i])
    decreases |nodes|
  {
    hide NodeRowOf;
    var front := nodes[..|nodes| - 1];
    if i < |front| {
      assert forall j :: 0 <= j < |front| ==> front[j] == nodes[j];
      LastNodeCounts(g, d, front, i);
    }
  }

  lemma {:induction false} UpsertedNodes(t: Tables, g: Digests, d: Delivery, nodes: seq<ParsedNode>)
    ensures UpsertNodes(t, g, d, nodes) ==
            t.(nodes := t.nodes + NodeRows(g, d, nodes), outbox := t.outbox + NodeUpserts(g, d, nodes))
  {
    if nodes == [] {
      assert t.nodes + map[] == t.nodes && t.outbox + NodeUpserts(g, d, nodes) == t.outbox;
    } else {
      var front, last := nodes[..|nodes| - 1], nodes[|nodes| - 1];
      UpsertedNodes(t, g, d, front);
      assert NodeUpserts(g, d, nodes) == NodeUpserts(g, d, front) + [NodeUpsertOf(g, d, last)];
    }
  }

  lemma RelationRowsExtended(nodeIds: set<string>, g: Digests, d: Delivery, front: seq<ParsedRelation>,
                             last: ParsedRelation)
    ensures var row := RelationRowOf(d.rowIds(|front|), g, d, last);
            && Elements(RelationRows(g, d, front + [last])) == Elements(RelationRows(g, d, front)) + {row}
            && RelationUpserts(g, d, front + [last]) == RelationUpserts(g, d, front)
              + [RelationUpsert(row, last.domain)]
    ensures RelationsFit(nodeIds, g, d, front + [last]) <==>
            RelationsFit(nodeIds, g, d, front) && RelationFits(nodeIds, g, d, last)
  {
    hide RelationRowOf, RelationFits;
    var row := RelationRowOf(d.rowIds(|front|), g, d, last);
    assert RelationRows(g, d, front + [last]) == RelationRows(g, d, front) + [row];
    assert RelationUpserts(g, d, front + [last]) == RelationUpserts(g, d, front) + [RelationUpsert(row, last.domain)];
  }

  lemma {:induction false} InsertedRelations(t: Tables, g: Digests, d: Delivery, relations: seq<ParsedRelation>)
    ensures InsertRelations(t, g, d, relations) ==
            if RelationsFit(t.nodes.Keys, g, d, relations) then
              Some(t.(relations := t.relations + Elements(RelationRows(g, d, relations)),
                      outbox := t.outbox + RelationUpserts(g, d, relations)))
            else None
  {
    hide RelationFits, RelationsFit, RelationRowOf, Elements, RelationRows, RelationUpserts;
    if relations == [] {
      NoRelationRows(t.nodes.Keys, g, d);
      assert t.outbox + [] == t.outbox && t.relations + {} == t.relations;
    } else {
      var front, last := relations[..|relations| - 1], relations[|relations| - 1];
      InsertedRelations(t, g, d, front);
      assert relations == front + [last];
      RelationRowsExtended(t.nodes.Keys, g, d, front, last);
      var row := RelationRowOf(d.rowIds(|front|), g, d, last);
      assert t.relations + (Elements(RelationRows(g, d, front)) + {row}) == t.relations
             + Elements(RelationRows(g, d, front)) + {row};
      var added := [RelationUpsert(row, last.domain)];
      assert t.outbox + (RelationUpserts(g, d, front) + added) == t.outbox + RelationUpserts(g, d, front) + added;
    }
  }

  lemma NoRelationRows(nodeIds: set<string>, g: Digests, d: Delivery)
    ensures RelationsFit(nodeIds, g, d, [])
    ensures Elements(RelationRows(g, d, [])) == {} && RelationUpserts(g, d, []) == []
  {
  }

  lemma ChunkRowsExtended(g: Digests, d: Delivery, front: seq<ParsedChunk>, last: ParsedChunk)
    ensures var row := ChunkRowOf(d.rowIds(|d.relations| + |front|), g, d, last);
            && Elements(ChunkRows(g, d, front + [last])) == Elements(ChunkRows(g, d, front)) + {row}
            && ChunkUpserts(g, d, front + [last]) == ChunkUpserts(g, d, front) + [ChunkUpsert(row, ProvenanceOf(d))]
  {
    hide ChunkRowOf;
    var row := ChunkRowOf(d.rowIds(|d.relations| + |front|), g, d, last);
    assert ChunkRows(g, d, front + [last]) == ChunkRows(g, d, front) + [row];
    assert ChunkUpserts(g, d, front + [last]) == ChunkUpserts(g, d, front) + [ChunkUpsert(row, ProvenanceOf(d))];
  }

  lemma {:induction false} InsertedChunks(t: Tables, g: Digests, d: Delivery, chunks: seq<ParsedChunk>)
    ensures InsertChunks(t, g, d, chunks) ==
            if ChunksFit(t.nodes.Keys, t.chunks, g, d, chunks) && DistinctScopedKeys(g, d, chunks) then
              Some(t.(chunks := t.chunks + Elements(ChunkRows(g, d, chunks)),
                      outbox := t.outbox + ChunkUpserts(g, d, chunks)))
            else None
  {
    hide ChunkFits, ChunksFit, DistinctScopedKeys, ChunkRowOf, Elements, ChunkRows, ChunkUpserts;
    if chunks == [] {
      NoChunkRows(t.nodes.Keys, t.chunks, g, d);
      assert t.outbox + [] == t.outbox && t.chunks + {} == t.chunks;
    } else {
      var front, last := chunks[..|chunks| - 1], chunks[|chunks| - 1];
      InsertedChunks(t, g, d, front);
      assert chunks == front + [last];
      ChunkRowsExtended(g, d, front, last);
      LastChunkFits(t.nodes.Keys, t.chunks, g, d, front, last);
      var row := ChunkRowOf(d.rowIds(|d.relations| + |front|), g, d, last);
      assert t.chunks + (Elements(ChunkRows(g, d, front)) + {row}) == t.chunks + Elements(ChunkRows(g, d, front))
             + {row};
      var added := [ChunkUpsert(row, ProvenanceOf(d))];
      assert t.outbox + (ChunkUpserts(g, d, front) + added) == t.outbox + ChunkUpserts(g, d, front) + added;
    }
  }

  lemma NoChunkRows(nodeIds: set<string>, stored: set<ChunkRow>, g: Digests, d: Delivery)
    ensures Elements(ChunkRows(g, d, [])) == {} && ChunkUpserts(g, d, []) == []
    ensures ChunksFit(nodeIds, stored, g, d, []) && DistinctScopedKeys(g, d, [])
  {
  }

  /** The last of several chunks finds its key free exactly when it was free at first and no chunk before it took it. */
  lemma LastChunkFits(nodeIds: set<string>, stored: set<ChunkRow>, g: Digests, d: Delivery, front: seq<ParsedChunk>,
                      last: ParsedChunk)
    ensures ChunksFit(nodeIds, stored, g, d, front + [last]) && DistinctScopedKeys(g, d, front + [last]) <==>
            && ChunksFit(nodeIds, stored, g, d, front) && DistinctScopedKeys(g, d, front)
            && ChunkFits(nodeIds, stored + Elements(ChunkRows(g, d, front)), g, d, last)
  {
    var all := front + [last];
    assert forall i :: 0 <= i < |front| ==> all[i] == front[i];
    FreeAmong(nodeIds, stored, g, d, front, last);
    assert all[|front|] == last;
    if DistinctScopedKeys(g, d, all) {
      assert forall i :: 0 <= i < |front| ==> ScopedKey(g, d, front[i]) != ScopedKey(g, d, all[|front|]);
    }
  }

  lemma FreeAmong(nodeIds: set<string>, stored: set<ChunkRow>, g: Digests, d: Delivery, front: seq<ParsedChunk>,
                  last: ParsedChunk)
    ensures ChunkFits(nodeIds, stored + Elements(ChunkRows(g, d, front)), g, d, last) <==>
            ChunkFits(nodeIds, stored, g, d, last) && forall i :: 0 <= i < |front| ==>
              ScopedKey(g, d, front[i]) != ScopedKey(g, d, last)
  {
    var rows := ChunkRows(g, d, front);
    forall i | 0 <= i < |front|
      ensures rows[i] in Elements(rows) && (rows[i].entityId, rows[i].chunkIndex) == ScopedKey(g, d, front[i]) {
    }
  }

  /** A file is written whole exactly when it is admissible; it then replaces its own rows and nothing else. */
  lemma AdmissibleFileIsReplaced(t: Tables, g: Digests, d: Delivery, embedded: set<nat>)
    ensures PersistFile(t, g, d, embedded) == if Admissible(t, g, d, embedded) then Some(Replaced(t, g, d)) else None
  {
    hide RelationFits, ChunkFits, DistinctScopedKeys, NodeRows, RelationRows, ChunkRows;
    hide NodeUpserts, RelationUpserts, ChunkUpserts, InsertRelations, InsertChunks, UpsertNodes;
    var ids := OwnIds(g, d);
    UpsertedNodes(t, g, d, d.nodes);
    NodeRowsAreTheFiles(g, d, d.nodes);
    var t1 := WithoutRelationsFrom(UpsertNodes(t, g, d, d.nodes), ids);
    InsertedRelations(t1, g, d, d.relations);
    if RelationsFit(t.nodes.Keys + OwnIds(g, d), g, d, d.relations) {
      var t2 := InsertRelations(t1, g, d, d.relations).value;
      var t3 := WithoutChunksOf(t2, ids);
      assert t3.nodes.Keys == t.nodes.Keys + ids && t3.chunks == WithoutChunksOf(t, ids).chunks;
      InsertedChunks(t3, g, d, d.chunks);
      assert t3.outbox + ChunkUpserts(g, d, d.chunks) == t.outbox + OutboxRows(g, d);
    }
  }

  /**
  A committed file replaces exactly the relation rows that start at its own nodes and the chunk rows of its own nodes;
  every other relation, chunk and node row stays, and so does every embedded chunk; and each row written has its
  outbox row, in order.
  */
  lemma AppliedReplacesExactlyItsOwnRows(t: Tables, g: Digests, d: Delivery, embedded: set<nat>)
    requires PersistFile(t, g, d, embedded).Some?
    ensures var u, ids := PersistFile(t, g, d, embedded).value, OwnIds(g, d);
            && u.relations == (set r | r in t.relations && r.fromId !in ids) + Elements(RelationRows(g, d, d.relations))
            && u.chunks == (set c | c in t.chunks && c.entityId !in ids) + Elements(ChunkRows(g, d, d.chunks))
            && u.nodes.Keys == t.nodes.Keys + ids
            && (forall id :: id in t.nodes && id !in ids ==> u.nodes[id] == t.nodes[id])
            && (forall i :: IsLast(g, d, d.nodes, i) ==>
                  u.nodes[g.scopedNodeId(d.scope, d.nodes[i].id)] == NodeRowOf(d, d.nodes[i]))
            && u.outbox ==
               t.outbox + NodeUpserts(g, d, d.nodes) + RelationUpserts(g, d, d.relations) + ChunkUpserts(g, d, d.chunks)
            && (forall c :: c in t.chunks && c.rowId in embedded ==> c in u.chunks)
  {
    hide PersistFile, NodeRows, RelationRows, ChunkRows, NodeUpserts, RelationUpserts, ChunkUpserts;
    hide RelationsFit, DistinctScopedKeys;
    AdmissibleFileIsReplaced(t, g, d, embedded);
    NodeRowsAreTheFiles(g, d, d.nodes);
    forall i | IsLast(g, d, d.nodes, i)
      ensures var id := g.scopedNodeId(d.scope, d.nodes[i].id);
              id in NodeRows(g, d, d.nodes) && NodeRows(g, d, d.nodes)[id] == NodeRowOf(d, d.nodes[i])
    {
      LastNodeCounts(g, d, d.nodes, i);
    }
  }

  // ---------------------------------------------------------------- what is stored, column by column

  ghost predicate ProvenanceColumns(p: Provenance, d: Delivery) {
    && p.scope.tenantId == d.scope.tenantId && p.scope.repo == d.scope.repo && p.scope.aclGroup == d.scope.aclGroup
    && p.path == d.command.path && p.commitSha == d.command.commitSha && p.ingestedAt == d.now
  }

  ghost predicate NodeColumns(row: NodeRow, d: Delivery, n: ParsedNode) {
    row.nodeType == n.nodeType && row.name == n.name && row.astHash == n.astHash && ProvenanceColumns(row.provenance, d)
  }

  ghost predicate RelationColumns(row: RelationRow, g: Digests, d: Delivery, i: nat)
    requires i < |d.relations|
  {
    var r := d.relations[i];
    && row.rowId == d.rowIds(i) && row.relType == r.relType && row.weight == r.weight
    && row.fromId == g.scopedNodeId(d.scope, r.fromId) && row.toId == g.scopedNodeId(d.scope, r.toId)
    && ProvenanceColumns(row.provenance, d)
  }

  ghost predicate ChunkColumns(row: ChunkRow, g: Digests, d: Delivery, i: nat)
    requires i < |d.chunks|
  {
    var c := d.chunks[i];
    && row.rowId == d.rowIds(|d.relations| + i) && row.entityId == g.scopedNodeId(d.scope, c.entityId)
    && row.chunkIndex == c.chunkIndex && row.text == c.text && row.charCount == c.charCount
  }

  /** Every node has its row, and rows that are no node of the file stay. */
  ghost predicate NodesStored(t: Tables, u: Tables, g: Digests, d: Delivery) {
    && (forall id :: id in u.nodes <==>
          id in t.nodes || exists n :: n in d.nodes && g.scopedNodeId(d.scope, n.id) == id)
    && (forall id :: id in t.nodes && (forall n :: n in d.nodes ==> g.scopedNodeId(d.scope, n.id) != id) ==>
          u.nodes[id] == t.nodes[id])
    && forall i :: IsLast(g, d, d.nodes, i) ==>
         var id := g.scopedNodeId(d.scope, d.nodes[i].id); id in u.nodes && NodeColumns(u.nodes[id], d, d.nodes[i])
  }

  ghost predicate HasRelation(u: Tables, g: Digests, d: Delivery, i: nat)
    requires i < |d.relations|
  {
    exists row :: row in u.relations && RelationColumns(row, g, d, i)
  }

  ghost predicate HasChunk(u: Tables, g: Digests, d: Delivery, i: nat)
    requires i < |d.chunks|
  {
    exists row :: row in u.chunks && ChunkColumns(row, g, d, i)
  }

  /** The relations of the file in place of all that started at its nodes. */
  ghost predicate RelationsStored(t: Tables, u: Tables, g: Digests, d: Delivery) {
    && (forall i: nat :: i < |d.relations| ==> HasRelation(u, g, d, i))
    && forall row :: row in u.relations <==>
         || (row in t.relations && forall n :: n in d.nodes ==> g.scopedNodeId(d.scope, n.id) != row.fromId)
         || exists i: nat :: i < |d.relations| && RelationColumns(row, g, d, i)
  }

  /** The chunks of the file in place of all that belonged to its nodes. */
  ghost predicate ChunksStored(t: Tables, u: Tables, g: Digests, d: Delivery) {
    && (forall i: nat :: i < |d.chunks| ==> HasChunk(u, g, d, i))
    && forall row :: row in u.chunks <==>
         || (row in t.chunks && forall n :: n in d.nodes ==> g.scopedNodeId(d.scope, n.id) != row.entityId)
         || exists i: nat :: i < |d.chunks| && ChunkColumns(row, g, d, i)
  }

  /** One message for each node, then each relation, then each chunk, in their order, with the columns of their rows. */
  ghost predicate MessagesStored(t: Tables, u: Tables, g: Digests, d: Delivery) {
    var n, r, c := |d.nodes|, |d.relations|, |d.chunks|;
    && |u.outbox| == |t.outbox| + n + r + c && u.outbox[..|t.outbox|] == t.outbox
    && var added := u.outbox[|t.outbox|..];
    NodeMessages(added[..n], g, d) && RelationMessages(added[n..n + r], g, d) && ChunkMessages(added[n + r..], g, d)
  }

  ghost predicate NodeMessages(ms: seq<OutboxRow>, g: Digests, d: Delivery) {
    |ms| == |d.nodes| && forall i :: 0 <= i < |ms| ==> NodeMessage(ms[i], g, d, i)
  }

  ghost predicate RelationMessages(ms: seq<OutboxRow>, g: Digests, d: Delivery) {
    |ms| == |d.relations| && forall i :: 0 <= i < |ms| ==> RelationMessage(ms[i], g, d, i)
  }

  ghost predicate ChunkMessages(ms: seq<OutboxRow>, g: Digests, d: Delivery) {
    |ms| == |d.chunks| && forall i :: 0 <= i < |ms| ==> ChunkMessage(ms[i], g, d, i)
  }

  ghost predicate NodeMessage(m: OutboxRow, g: Digests, d: Delivery, i: nat)
    requires i < |d.nodes|
  {
    && m.NodeUpsert? && m.nodeId == g.scopedNodeId(d.scope, d.nodes[i].id) && m.domain == d.nodes[i].domain
    && NodeColumns(m.node, d, d.nodes[i])
  }

  ghost predicate RelationMessage(m: OutboxRow, g: Digests, d: Delivery, i: nat)
    requires i < |d.relations|
  {
    m.RelationUpsert? && m.relDomain == d.relations[i].domain && RelationColumns(m.relation, g, d, i)
  }

  ghost predicate ChunkMessage(m: OutboxRow, g: Digests, d: Delivery, i: nat)
    requires i < |d.chunks|
  {
    m.ChunkUpsert? && ChunkColumns(m.chunk, g, d, i) && ProvenanceColumns(m.provenance, d)
  }

  ghost predicate FileStored(t: Tables, u: Tables, g: Digests, d: Delivery) {
    NodesStored(t, u, g, d) && RelationsStored(t, u, g, d) && ChunksStored(t, u, g, d) && MessagesStored(t, u, g, d)
  }

  lemma RelationRowColumns(g: Digests, d: Delivery)
    ensures forall i: nat :: i < |d.relations| ==> RelationColumns(RelationRows(g, d, d.relations)[i], g, d, i)
    ensures forall row, i: nat :: i < |d.relations| && RelationColumns(row, g, d, i) ==>
              row == RelationRows(g, d, d.relations)[i]
  {
  }

  lemma ChunkRowColumns(g: Digests, d: Delivery)
    ensures forall i: nat :: i < |d.chunks| ==> ChunkColumns(ChunkRows(g, d, d.chunks)[i], g, d, i)
    ensures forall row, i: nat :: i < |d.chunks| && ChunkColumns(row, g, d, i) ==> row == ChunkRows(g, d, d.chunks)[i]
  {
  }

  lemma NodesAreStored(t: Tables, g: Digests, d: Delivery)
    ensures NodesStored(t, Replaced(t, g, d), g, d)
  {
    hide NodeRows, RelationRows, ChunkRows, OutboxRows;
    NodeRowsAreTheFiles(g, d, d.nodes);
    forall i | IsLast(g, d, d.nodes, i)
      ensures var id := g.scopedNodeId(d.scope, d.nodes[i].id);
              id in NodeRows(g, d, d.nodes) && NodeRows(g, d, d.nodes)[id] == NodeRowOf(d, d.nodes[i])
    {
      LastNodeCounts(g, d, d.nodes, i);
    }
  }

  lemma RelationsAreStored(t: Tables, g: Digests, d: Delivery)
    ensures RelationsStored(t, Replaced(t, g, d), g, d)
  {
    RelationRowColumns(g, d);
    hide NodeRows, ChunkRows, OutboxRows, RelationColumns, RelationRowOf;
    var u, rows := Replaced(t, g, d), RelationRows(g, d, d.relations);
    forall i: nat | i < |d.relations| ensures HasRelation(u, g, d, i) { assert rows[i] in u.relations; }
    hide RelationRows;
    forall row ensures row in Elements(rows) <==> exists i: nat :: i < |d.relations| && RelationColumns(row, g, d, i) {
      if row in Elements(rows) { var i: nat :| i < |rows| && rows[i] == row; }
      if i: nat :| i < |d.relations| && RelationColumns(row, g, d, i) { assert rows[i] == row; }
    }
  }

  lemma ChunksAreStored(t: Tables, g: Digests, d: Delivery)
    ensures ChunksStored(t, Replaced(t, g, d), g, d)
  {
    ChunkRowColumns(g, d);
    hide NodeRows, RelationRows, OutboxRows, ChunkColumns, ChunkRowOf;
    var u, rows := Replaced(t, g, d), ChunkRows(g, d, d.chunks);
    forall i: nat | i < |d.chunks| ensures HasChunk(u, g, d, i) { assert rows[i] in u.chunks; }
    hide ChunkRows;
    forall row ensures row in Elements(rows) <==> exists i: nat :: i < |d.chunks| && ChunkColumns(row, g, d, i) {
      if row in Elements(rows) { var i: nat :| i < |rows| && rows[i] == row; }
      if i: nat :| i < |d.chunks| && ChunkColumns(row, g, d, i) { assert rows[i] == row; }
    }
  }

  lemma MessagesAreStored(t: Tables, g: Digests, d: Delivery)
    ensures MessagesStored(t, Replaced(t, g, d), g, d)
  {
    MessagesOfFile(g, d);
    hide NodeUpserts, RelationUpserts, ChunkUpserts, NodeMessages, RelationMessages, ChunkMessages;
    hide NodeRows, RelationRows, ChunkRows;
    var u := Replaced(t, g, d);
    var added := NodeUpserts(g, d, d.nodes) + RelationUpserts(g, d, d.relations) + ChunkUpserts(g, d, d.chunks);
    var n, r := |d.nodes|, |d.relations|;
    assert u.outbox == t.outbox + added && u.outbox[|t.outbox|..] == added && u.outbox[..|t.outbox|] == t.outbox;
    assert added[..n] == NodeUpserts(g, d, d.nodes) && added[n..n + r] == RelationUpserts(g, d, d.relations);
    assert added[n + r..] == ChunkUpserts(g, d, d.chunks);
  }

  lemma MessagesOfFile(g: Digests, d: Delivery)
    ensures |NodeUpserts(g, d, d.nodes)| == |d.nodes| && NodeMessages(NodeUpserts(g, d, d.nodes), g, d)
    ensures |RelationUpserts(g, d, d.relations)| == |d.relations|
    ensures RelationMessages(RelationUpserts(g, d, d.relations), g, d)
    ensures |ChunkUpserts(g, d, d.chunks)| == |d.chunks| && ChunkMessages(ChunkUpserts(g, d, d.chunks), g, d)
  {
    RelationRowColumns(g, d);
    ChunkRowColumns(g, d);
    var ms := ChunkUpserts(g, d, d.chunks);
    forall i | 0 <= i < |ms| ensures ChunkMessage(ms[i], g, d, i) {
      assert ms[i] == ChunkUpsert(ChunkRows(g, d, d.chunks)[i], ProvenanceOf(d));
    }
  }

  /** A written file has every column of every row, and every message, right. */
  lemma WrittenFileIsStored(t: Tables, g: Digests, d: Delivery, embedded: set<nat>)
    requires PersistFile(t, g, d, embedded).Some?
    ensures FileStored(t, PersistFile(t, g, d, embedded).value, g, d)
  {
    hide PersistFile, Admissible, Replaced, NodesStored, RelationsStored, ChunksStored, MessagesStored;
    AdmissibleFileIsReplaced(t, g, d, embedded);
    NodesAreStored(t, g, d);
    RelationsAreStored(t, g, d);
    ChunksAreStored(t, g, d);
    MessagesAreStored(t, g, d);
  }

  /** There is a node row for the id, stored before or written with this file. */
  ghost predicate HasRow(t: Tables, g: Digests, d: Delivery, id: string) {
    || g.scopedNodeId(d.scope, id) in t.nodes
    || exists n :: n in d.nodes && g.scopedNodeId(d.scope, n.id) == g.scopedNodeId(d.scope, id)
  }

  /** A relation of a known type between two nodes with rows. */
  ghost predicate IsStorable(t: Tables, g: Digests, d: Delivery, r: ParsedRelation) {
    (exists kind :: r.relType == CodeGraph.RelTypeText(kind)) && HasRow(t, g, d, r.fromId) && HasRow(t, g, d, r.toId)
  }

  /** No stored chunk of the file's nodes has an embedding. */
  ghost predicate NoneIsEmbedded(t: Tables, g: Digests, d: Delivery, embedded: set<nat>) {
    forall c, n :: c in t.chunks && n in d.nodes && c.entityId == g.scopedNodeId(d.scope, n.id) ==> c.rowId !in embedded
  }

  ghost predicate NoKeyTwice(g: Digests, d: Delivery) {
    forall i, j :: 0 <= i < j < |d.chunks| ==>
      || g.scopedNodeId(d.scope, d.chunks[i].entityId) != g.scopedNodeId(d.scope, d.chunks[j].entityId)
      || d.chunks[i].chunkIndex != d.chunks[j].chunkIndex
  }

  lemma RelationsAreStorable(t: Tables, g: Digests, d: Delivery)
    ensures RelationsFit(t.nodes.Keys + OwnIds(g, d), g, d, d.relations) <==>
            forall r :: r in d.relations ==> IsStorable(t, g, d, r)
  {
    forall r
      ensures IsStorable(t, g, d, r) <==> RelationFits(t.nodes.Keys + OwnIds(g, d), g, d, r)
    {
      var kind := CodeGraph.ParseRelType(r.relType);
      if kind.Some? { CodeGraph.WhitelistsReadTheNames(r.relType, CodeGraph.File, kind.value); }
      if k :| r.relType == CodeGraph.RelTypeText(k) { CodeGraph.WhitelistsReadTheNames(r.relType, CodeGraph.File, k); }
      hide CodeGraph.ParseRelType, CodeGraph.RelTypeText;
    }
    hide IsStorable, RelationFits;
  }

  lemma ValidFileFits(t: Tables, g: Digests, d: Delivery, embedded: set<nat>)
    requires ParsedDataValid(d.command.path, d.nodes, d.chunks)
    ensures PersistFile(t, g, d, embedded).Some? <==>
            RelationsFit(t.nodes.Keys + OwnIds(g, d), g, d, d.relations) && ChunksDeletable(t, OwnIds(g, d), embedded)
            && DistinctScopedKeys(g, d, d.chunks)
  {
    hide PersistFile, NodeRows, RelationsFit, ChunksDeletable;
    AdmissibleFileIsReplaced(t, g, d, embedded);
    NodeRowsAreTheFiles(g, d, d.nodes);
    forall c | c in d.chunks ensures g.scopedNodeId(d.scope, c.entityId) in OwnIds(g, d) {
      var n :| n in d.nodes && n.id == c.entityId;
    }
  }

  /**
  When a valid command's file is written: its relations are of known types between nodes with rows, none of its stored
  chunks is embedded, and no two of its chunks get the same key. The last can fail only if two of its ids collide.
  */
  lemma ValidFileIsWritten(t: Tables, g: Digests, d: Delivery, embedded: set<nat>)
    requires ParsedDataValid(d.command.path, d.nodes, d.chunks)
    ensures PersistFile(t, g, d, embedded).Some? <==>
            && (forall r :: r in d.relations ==> IsStorable(t, g, d, r))
            && NoneIsEmbedded(t, g, d, embedded) && NoKeyTwice(g, d)
    ensures (forall x, y :: g.scopedNodeId(d.scope, x) == g.scopedNodeId(d.scope, y) ==> x == y) ==> NoKeyTwice(g, d)
  {
    RelationsAreStorable(t, g, d);
    hide PersistFile, RelationsFit, IsStorable;
    ValidFileFits(t, g, d, embedded);
  }

  // ---------------------------------------------------------------- runs

  /** Deliveries from any number of workers, and embeddings of chunk rows, which another service writes. */
  datatype Event = Deliver(delivery: Delivery) | Embed(chunkRow: nat)

  ghost predicate HasChunkRow(t: Tables, row: nat) {
    exists c :: c in t.chunks && c.rowId == row
  }

  /** An embedding refers to a stored chunk row. */
  ghost predicate Commits(db: Db, g: Digests, e: Event) {
    match e
    case Deliver(d) => PersistSpec(db, g, d).outcome.Applied?
    case Embed(row) => HasChunkRow(db.tables, row)
  }

  ghost function Step(db: Db, g: Digests, e: Event): Db {
    match e
    case Deliver(d) => PersistSpec(db, g, d).db
    case Embed(row) => if HasChunkRow(db.tables, row) then db.(embedded := db.embedded + {row}) else db
  }

  ghost function Run(db: Db, g: Digests, events: seq<Event>): Db {
    if events == [] then db else Step(Run(db, g, events[..|events| - 1]), g, events[|events| - 1])
  }

  /** The events that committed. */
  ghost function Effective(db: Db, g: Digests, events: seq<Event>): seq<Event> {
    if events == [] then []
    else
      var front, last := events[..|events| - 1], events[|events| - 1];
      Effective(db, g, front) + (if Commits(Run(db, g, front), g, last) then [last] else [])
  }

  /** What an event writes, with no receipt and no duplicate check at all. */
  ghost function Write(db: Db, g: Digests, e: Event): Option<Db> {
    match e
    case Embed(row) => Some(db.(embedded := db.embedded + {row}))
    case Deliver(d) =>
      var t := PersistFile(db.tables, g, d, db.embedded);
      if t.None? then None
      else Some(db.(tables := t.value,
                    receipts := db.receipts[d.command.commandId := g.fingerprint(d.scope, d.command)]))
  }

  /** The plain fold of the writes. */
  ghost function Fold(db: Db, g: Digests, events: seq<Event>): Option<Db> {
    if events == [] then Some(db)
    else
      var before := Fold(db, g, events[..|events| - 1]);
      if before.None? then None else Write(before.value, g, events[|events| - 1])
  }

  ghost predicate DistinctCommands(events: seq<Event>) {
    forall i, j :: 0 <= i < j < |events| && events[i].Deliver? && events[j].Deliver? ==>
      events[i].delivery.command.commandId != events[j].delivery.command.commandId
  }

  /** An event that commits is a plain write, of an id without a receipt so far; any other changes nothing. */
  lemma CommitIsAWrite(db: Db, g: Digests, e: Event)
    ensures Commits(db, g, e) ==> Write(db, g, e) == Some(Step(db, g, e))
    ensures Commits(db, g, e) && e.Deliver? ==>
              e.delivery.command.commandId !in db.receipts && e.delivery.command.commandId in Step(db, g, e).receipts
    ensures !Commits(db, g, e) ==> Step(db, g, e) == db
    ensures db.receipts.Keys <= Step(db, g, e).receipts.Keys
  {
    hide PersistFile, ParsedDataValid;
  }

  lemma FoldExtended(db: Db, g: Digests, events: seq<Event>, e: Event)
    requires Fold(db, g, events).Some?
    ensures Fold(db, g, events + [e]) == Write(Fold(db, g, events).value, g, e)
  {
    hide Write;
    assert (events + [e])[..|events|] == events;
  }

  lemma DistinctExtended(events: seq<Event>, e: Event)
    requires DistinctCommands(events)
    requires forall f :: f in events && f.Deliver? && e.Deliver? ==>
               f.delivery.command.commandId != e.delivery.command.commandId
    ensures DistinctCommands(events + [e])
  {
  }

  lemma EffectiveExtended(db: Db, g: Digests, events: seq<Event>)
    requires events != []
    ensures var front, last := events[..|events| - 1], events[|events| - 1];
            Effective(db, g, events) ==
            if Commits(Run(db, g, front), g, last) then Effective(db, g, front) + [last] else Effective(db, g, front)
  {
    hide Commits, Run;
    var front := events[..|events| - 1];
    assert Effective(db, g, front) + [] == Effective(db, g, front);
  }

  lemma NothingCommits(db: Db, g: Digests)
    ensures Effective(db, g, []) == [] && Fold(db, g, []) == Some(db) && DistinctCommands([])
  {
  }

  /**
  Whatever is delivered, how often and by whom: the database is the plain fold of the events that
  committed, no command id commits twice, and none that already had a receipt.
  */
  lemma {:induction false} DatabaseIsFoldOfFirstCommits(db: Db, g: Digests, events: seq<Event>)
    ensures Fold(db, g, Effective(db, g, events)) == Some(Run(db, g, events))
    ensures DistinctCommands(Effective(db, g, events))
    ensures forall e :: e in Effective(db, g, events) && e.Deliver? ==>
              e.delivery.command.commandId !in db.receipts
              && e.delivery.command.commandId in Run(db, g, events).receipts
    ensures db.receipts.Keys <= Run(db, g, events).receipts.Keys
  {
    hide Step, Commits, Write, Fold, Effective, DistinctCommands;
    if events == [] {
      NothingCommits(db, g);
    } else {
      var front, last := events[..|events| - 1], events[|events| - 1];
      DatabaseIsFoldOfFirstCommits(db, g, front);
      EffectiveExtended(db, g, events);
      CommitIsAWrite(Run(db, g, front), g, last);
      if Commits(Run(db, g, front), g, last) {
        FoldExtended(db, g, Effective(db, g, front), last);
        DistinctExtended(Effective(db, g, front), last);
      }
    }
  }

  /** A receipt, once written, keeps its fingerprint for ever. */
  lemma {:induction false} ReceiptsOnlyGrow(db: Db, g: Digests, events: seq<Event>, k: nat)
    requires k <= |events|
    ensures forall id :: id in Run(db, g, events[..k]).receipts ==>
              id in Run(db, g, events).receipts
              && Run(db, g, events).receipts[id] == Run(db, g, events[..k]).receipts[id]
    decreases |events|
  {
    if k == |events| {
      assert events[..k] == events;
    } else {
      var front := events[..|events| - 1];
      assert front[..k] == events[..k];
      ReceiptsOnlyGrow(db, g, front, k);
    }
  }

  /** After a commit, every later delivery of that id is a duplicate or a conflict and changes nothing. */
  lemma {:induction false} LaterDeliveriesChangeNothing(db: Db, g: Digests, events: seq<Event>, k: nat, d: Delivery)
    requires k < |events| && events[k].Deliver?
    requires PersistSpec(Run(db, g, events[..k]), g, events[k].delivery).outcome.Applied?
    requires d.command.commandId == events[k].delivery.command.commandId
    ensures var now := Run(db, g, events);
            var first := events[k].delivery;
            var after := PersistSpec(now, g, d);
            && after.db == now
            && (after.outcome.Invalid?
                || after.outcome == if g.fingerprint(first.scope, first.command) ==
                  g.fingerprint(d.scope, d.command) then Duplicate else Conflict)
  {
    ReceiptsOnlyGrow(db, g, events, k + 1);
    assert events[..k + 1][..k] == events[..k];
  }

  /**
  A chunk row, once an embedding refers to it, stays for ever; and from then on no delivery of a file with its entity
  is applied. A valid new one is refused as a database error, after any run.
  */
  lemma {:induction false} EmbeddedChunkBlocksItsFile(db: Db, g: Digests, events: seq<Event>, c: ChunkRow, d: Delivery)
    requires c in db.tables.chunks && c.rowId in db.embedded && c.entityId in OwnIds(g, d)
    ensures var now := Run(db, g, events);
            && c in now.tables.chunks && c.rowId in now.embedded
            && !Commits(now, g, Deliver(d)) && PersistSpec(now, g, d).db == now
            && (ParsedDataValid(d.command.path, d.nodes, d.chunks) && d.command.commandId !in now.receipts ==>
                  PersistSpec(now, g, d).outcome == DatabaseError)
  {
    hide Run, RelationsFit, DistinctScopedKeys, ParsedDataValid;
    EmbeddedChunkStays(db, g, events, c);
    AdmissibleFileIsReplaced(Run(db, g, events).tables, g, d, Run(db, g, events).embedded);
  }

  lemma {:induction false} EmbeddedChunkStays(db: Db, g: Digests, events: seq<Event>, c: ChunkRow)
    requires c in db.tables.chunks && c.rowId in db.embedded
    ensures c in Run(db, g, events).tables.chunks && c.rowId in Run(db, g, events).embedded
  {
    hide PersistFile, ParsedDataValid;
    if events != [] {
      var front, last := events[..|events| - 1], events[|events| - 1];
      EmbeddedChunkStays(db, g, front, c);
      var before := Run(db, g, front);
      if last.Deliver? && PersistFile(before.tables, g, last.delivery, before.embedded).Some? {
        AppliedReplacesExactlyItsOwnRows(before.tables, g, last.delivery, before.embedded);
      }
    }
  }
}
