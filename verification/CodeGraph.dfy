/**
The graph store that the graph sink writes, the GDS impact job annotates and the reranker reads.

Nodes, edges and the per-scope `GDSPartition` generation are plain maps. Every transaction of the
source is one function here; `GraphStore` is the stored form, whose methods run the queries step by
step and are proved equal to these functions.
*/
module CodeGraph {
  import opened Common

  type Id = string

  datatype Scope = Scope(tenantId: string, repo: string, aclGroup: string)

  /** The node labels that the sink accepts. */
  datatype NodeType = File | Class | Interface | Method | Function

  datatype RelType =
    | Calls | Imports | Extends | Implements | Contains | DependsOn
    | References | Overrides | DerivedFrom | GovernedBy | Cites

  /** The properties that one CodeNode merge writes together. */
  datatype Body = Body(domain: string, name: string, astHash: string, path: string, scope: Scope)

  datatype ScoreRow = ScoreRow(score: real, community: int, impactKind: string)

  /** A written score with the scope and generation it was fenced by. */
  datatype Stamp = Stamp(row: ScoreRow, scope: Scope, generation: int)

  /** A node created only as an edge endpoint has no body yet. */
  datatype CodeNode = CodeNode(labels: set<NodeType>, body: Option<Body>, symbolId: Option<Id>, impact: Option<Stamp>)
  {
    function Owner(): Option<Scope> {
      if body.Some? then Some(body.value.scope) else None
    }
  }

  datatype EdgeKey = EdgeKey(from: Id, relType: RelType, to: Id)

  datatype Db = Db(nodes: map<Id, CodeNode>, edges: map<EdgeKey, int>, partitions: map<Scope, int>)

  const Placeholder := CodeNode({}, None, None, None)

  /** The whitelist of node_type labels; anything else is refused before a query is built. */
  function ParseNodeType(s: string): Option<NodeType> {
    match s
    case "File" => Some(File)
    case "Class" => Some(Class)
    case "Interface" => Some(Interface)
    case "Method" => Some(Method)
    case "Function" => Some(Function)
    case _ => None
  }

  /** The whitelist of rel_type values. */
  function ParseRelType(s: string): Option<RelType> {
    match s
    case "CALLS" => Some(Calls)
    case "IMPORTS" => Some(Imports)
    case "EXTENDS" => Some(Extends)
    case "IMPLEMENTS" => Some(Implements)
    case "CONTAINS" => Some(Contains)
    case "DEPENDS_ON" => Some(DependsOn)
    case "REFERENCES" => Some(References)
    case "OVERRIDES" => Some(Overrides)
    case "DERIVED_FROM" => Some(DerivedFrom)
    case "GOVERNED_BY" => Some(GovernedBy)
    case "CITES" => Some(Cites)
    case _ => None
  }

  /** The label of a node type, and the type name of an edge, in the store. */
  function NodeTypeText(t: NodeType): string {
    match t
    case File => "File"
    case Class => "Class"
    case Interface => "Interface"
    case Method => "Method"
    case Function => "Function"
  }

  function RelTypeText(t: RelType): string {
    match t
    case Calls => "CALLS"
    case Imports => "IMPORTS"
    case Extends => "EXTENDS"
    case Implements => "IMPLEMENTS"
    case Contains => "CONTAINS"
    case DependsOn => "DEPENDS_ON"
    case References => "REFERENCES"
    case Overrides => "OVERRIDES"
    case DerivedFrom => "DERIVED_FROM"
    case GovernedBy => "GOVERNED_BY"
    case Cites => "CITES"
  }

  /** The whitelists admit exactly the stored names, each for its own type. */
  lemma WhitelistsReadTheNames(s: string, n: NodeType, r: RelType)
    ensures ParseNodeType(s) == Some(n) <==> s == NodeTypeText(n)
    ensures ParseRelType(s) == Some(r) <==> s == RelTypeText(r)
  {
  }

  // ---------------------------------------------------------------- transactions

  function NodeAt(db: Db, id: Id): CodeNode {
    if id in db.nodes then db.nodes[id] else Placeholder
  }

  function ScopesOf(a: Option<Scope>, b: Option<Scope>): set<Scope> {
    (if a.Some? then {a.value} else {}) + (if b.Some? then {b.value} else {})
  }

  /** One MERGE of a GDSPartition: created at 1, otherwise bumped only when something changed. */
  function TouchOne(partitions: map<Scope, int>, scope: Scope, changed: bool): map<Scope, int> {
    partitions[scope := if scope !in partitions then 1
                        else if changed then partitions[scope] + 1 else partitions[scope]]
  }

  /** The partitions after all the `scopes` were touched. */
  function Touched(partitions: map<Scope, int>, scopes: set<Scope>, changed: bool): map<Scope, int> {
    map s | s in partitions.Keys + scopes ::
      if s !in partitions then 1
      else if s in scopes && changed then partitions[s] + 1
      else partitions[s]
  }

  lemma TouchedOneMore(partitions: map<Scope, int>, scopes: set<Scope>, scope: Scope, changed: bool)
    requires scope !in scopes
    ensures TouchOne(Touched(partitions, scopes, changed), scope, changed) ==
            Touched(partitions, scopes + {scope}, changed)
  {
  }

  /** The property writes of a CodeNode merge; an impact stamp stays where it is. */
  function WithBody(n: CodeNode, id: Id, nodeType: NodeType, body: Body): CodeNode {
    CodeNode(n.labels + {nodeType}, Some(body), if nodeType == Method then Some(id) else n.symbolId, n.impact)
  }

  predicate NodeUnchanged(n: CodeNode, id: Id, nodeType: NodeType, body: Body) {
    nodeType in n.labels && n.body == Some(body) && (nodeType == Method ==> n.symbolId == Some(id))
  }

  function MergeNode(db: Db, id: Id, nodeType: NodeType, body: Body): Db {
    var n := NodeAt(db, id);
    Db(db.nodes[id := WithBody(n, id, nodeType, body)],
       db.edges,
       Touched(db.partitions, ScopesOf(n.Owner(), Some(body.scope)), !NodeUnchanged(n, id, nodeType, body)))
  }

  function WeightOf(weight: Option<int>): int {
    if weight.Some? then weight.value else 1
  }

  function MergeRelation(db: Db, key: EdgeKey, weight: Option<int>): Db {
    var f, t := NodeAt(db, key.from), NodeAt(db, key.to);
    var same := key in db.edges && db.edges[key] == WeightOf(weight);
    Db(db.nodes[key.from := f][key.to := t],
       db.edges[key := WeightOf(weight)],
       Touched(db.partitions, ScopesOf(f.Owner(), t.Owner()), !same))
  }

  /** The fence capture creates a missing partition at 0 and leaves an existing one alone. */
  function Capture(db: Db, scope: Scope): Db {
    if scope in db.partitions then db else db.(partitions := db.partitions[scope := 0])
  }

  predicate TargetsInScope(db: Db, scope: Scope, ids: set<Id>) {
    forall id | id in ids :: id in db.nodes && db.nodes[id].Owner() == Some(scope)
  }

  /** The fence of the write-back: all targets still in scope and the generation still the captured one. */
  predicate FenceHolds(db: Db, scope: Scope, generation: int, ids: set<Id>) {
    && TargetsInScope(db, scope, ids)
    && scope in db.partitions && db.partitions[scope] == generation
  }

  function WriteBack(db: Db, scope: Scope, generation: int, rows: map<Id, ScoreRow>): Db {
    if FenceHolds(db, scope, generation, rows.Keys) then
      db.(nodes := map id | id in db.nodes ::
                     if id in rows then db.nodes[id].(impact := Some(Stamp(rows[id], scope, generation)))
                     else db.nodes[id])
    else db
  }

  // ---------------------------------------------------------------- what a reader sees

  /** The caller's access scope: a tenant, and the repositories and groups it may read. */
  datatype Access = Access(tenantId: string, repos: set<string>, groups: set<string>)

  predicate Admits(access: Access, scope: Scope) {
    scope.tenantId == access.tenantId && scope.repo in access.repos && scope.aclGroup in access.groups
  }

  /** The fenced reader accepts a score only if its stamp names the node's scope and its current generation. */
  predicate Accepted(db: Db, access: Access, id: Id) {
    && id in db.nodes
    && var n := db.nodes[id];
    && n.Owner().Some? && Admits(access, n.Owner().value)
    && n.Owner().value in db.partitions
    && n.impact.Some?
    && n.impact.value.scope == n.Owner().value
    && n.impact.value.generation == db.partitions[n.Owner().value]
  }

  function AcceptedScores(db: Db, access: Access, ids: seq<Id>): map<Id, real> {
    map id | id in ids && Accepted(db, access, id) :: db.nodes[id].impact.value.row.score
  }

  // ---------------------------------------------------------------- the graph of one partition

  /** The nodes of a scope without their scores, and the edges between them. */
  datatype View = View(nodes: map<Id, CodeNode>, edges: map<EdgeKey, int>)

  predicate InScope(db: Db, scope: Scope, id: Id) {
    id in db.nodes && db.nodes[id].Owner() == Some(scope)
  }

  function ViewOf(db: Db, scope: Scope): View {
    View(map id | id in db.nodes && InScope(db, scope, id) :: db.nodes[id].(impact := None),
         map k | k in db.edges && InScope(db, scope, k.from) && InScope(db, scope, k.to) :: db.edges[k])
  }

  // ---------------------------------------------------------------- the fence, one transaction at a time

  /** Generations never fall, and an equal generation means an unchanged partition graph. */
  ghost predicate FenceStep(before: Db, after: Db) {
    forall s | s in before.partitions ::
      && s in after.partitions
      && before.partitions[s] <= after.partitions[s]
      && (before.partitions[s] == after.partitions[s] ==> ViewOf(before, s) == ViewOf(after, s))
  }

  /** A node merge changes only its node, and only from and to the two scopes. */
  lemma MergeNodeLeavesOthers(db: Db, id: Id, nodeType: NodeType, body: Body, s: Scope)
    requires s !in ScopesOf(NodeAt(db, id).Owner(), Some(body.scope))
    ensures ViewOf(db, s) == ViewOf(MergeNode(db, id, nodeType, body), s)
  {
    var after := MergeNode(db, id, nodeType, body);
    hide Touched;
    assert !InScope(db, s, id) && !InScope(after, s, id);
    assert forall i :: i != id ==> (InScope(db, s, i) <==> InScope(after, s, i));
    hide MergeNode, InScope;
    SameView(db, after, s);
  }

  lemma {:induction false} MergeNodeKeepsFence(db: Db, id: Id, nodeType: NodeType, body: Body)
    ensures FenceStep(db, MergeNode(db, id, nodeType, body))
  {
    var after := MergeNode(db, id, nodeType, body);
    hide ViewOf, InScope;
    forall s | s in db.partitions && db.partitions[s] == after.partitions[s]
      ensures ViewOf(db, s) == ViewOf(after, s)
    {
      var n := NodeAt(db, id);
      if s in ScopesOf(n.Owner(), Some(body.scope)) {
        assert n.labels + {nodeType} == n.labels;
        assert after.nodes == db.nodes && after.edges == db.edges;
        ViewReadsNodes(db, after, s);
      } else {
        MergeNodeLeavesOthers(db, id, nodeType, body, s);
      }
    }
  }

  lemma ViewReadsNodes(before: Db, after: Db, s: Scope)
    requires before.nodes == after.nodes && before.edges == after.edges
    ensures ViewOf(before, s) == ViewOf(after, s)
  {
  }

  /** What leaves a partition's graph alone: the same members with the same content, and the same inner edges. */
  lemma SameView(before: Db, after: Db, s: Scope)
    requires forall i :: InScope(before, s, i) <==> InScope(after, s, i)
    requires forall i :: InScope(before, s, i) && InScope(after, s, i) ==> before.nodes[i] == after.nodes[i]
    requires forall k: EdgeKey :: InScope(before, s, k.from) && InScope(before, s, k.to) ==>
               (k in before.edges <==> k in after.edges) && (k in before.edges ==> before.edges[k] == after.edges[k])
    ensures ViewOf(before, s) == ViewOf(after, s)
  {
    assert ViewOf(before, s).nodes == ViewOf(after, s).nodes;
    assert ViewOf(before, s).edges == ViewOf(after, s).edges;
  }

  lemma {:induction false} MergeRelationKeepsFence(db: Db, key: EdgeKey, weight: Option<int>)
    ensures FenceStep(db, MergeRelation(db, key, weight))
  {
    var after := MergeRelation(db, key, weight);
    forall s | s in db.partitions && db.partitions[s] == after.partitions[s]
      ensures ViewOf(db, s) == ViewOf(after, s)
    {
      if InScope(db, s, key.from) && InScope(db, s, key.to) {
        assert s in ScopesOf(NodeAt(db, key.from).Owner(), NodeAt(db, key.to).Owner());
      }
      SameView(db, after, s);
    }
  }

  lemma CaptureKeepsFence(db: Db, scope: Scope)
    ensures FenceStep(db, Capture(db, scope))
  {
    var after := Capture(db, scope);
    assert forall s, i :: InScope(db, s, i) <==> InScope(after, s, i);
    assert forall s :: ViewOf(db, s) == ViewOf(after, s);
  }

  lemma {:induction false} WriteBackKeepsFence(db: Db, scope: Scope, generation: int, rows: map<Id, ScoreRow>)
    ensures FenceStep(db, WriteBack(db, scope, generation, rows))
    ensures forall s :: ViewOf(db, s) == ViewOf(WriteBack(db, scope, generation, rows), s)
  {
    var after := WriteBack(db, scope, generation, rows);
    assert forall s, i :: InScope(db, s, i) <==> InScope(after, s, i);
    forall s ensures ViewOf(db, s) == ViewOf(after, s) {
      assert ViewOf(db, s).nodes == ViewOf(after, s).nodes;
    }
  }

  /** A node merge bumps an existing touched partition exactly when it changes the node. */
  lemma MergeNodeBumpsExactlyOnChange(db: Db, id: Id, nodeType: NodeType, body: Body, s: Scope)
    requires s in db.partitions
    ensures MergeNode(db, id, nodeType, body).partitions[s] ==
            if s in ScopesOf(NodeAt(db, id).Owner(), Some(body.scope))
               && MergeNode(db, id, nodeType, body).nodes != db.nodes
            then db.partitions[s] + 1 else db.partitions[s]
  {
    var n := NodeAt(db, id);
    var after := MergeNode(db, id, nodeType, body);
    if NodeUnchanged(n, id, nodeType, body) {
      assert n.labels + {nodeType} == n.labels;
      assert after.nodes == db.nodes;
    } else {
      assert after.nodes[id] != n;
    }
  }

  /** An edge merge bumps an existing touched partition exactly when it changes the edge. */
  lemma MergeRelationBumpsExactlyOnChange(db: Db, key: EdgeKey, weight: Option<int>, s: Scope)
    requires s in db.partitions
    ensures MergeRelation(db, key, weight).partitions[s] ==
            if s in ScopesOf(NodeAt(db, key.from).Owner(), NodeAt(db, key.to).Owner())
               && MergeRelation(db, key, weight).edges != db.edges
            then db.partitions[s] + 1 else db.partitions[s]
  {
    var after := MergeRelation(db, key, weight);
    if key in db.edges && db.edges[key] == WeightOf(weight) {
      assert after.edges == db.edges;
    } else {
      assert key !in db.edges || after.edges[key] != db.edges[key];
    }
  }

  // ---------------------------------------------------------------- redelivery

  /** Merging the same node message again changes nothing at all, generations included. */
  lemma MergeNodeIdempotent(db: Db, id: Id, nodeType: NodeType, body: Body)
    ensures var once := MergeNode(db, id, nodeType, body);
            MergeNode(once, id, nodeType, body) == once
  {
    var once := MergeNode(db, id, nodeType, body);
    var twice := MergeNode(once, id, nodeType, body);
    assert once.nodes[id].labels + {nodeType} == once.nodes[id].labels;
    assert twice.nodes == once.nodes;
    assert twice.partitions == once.partitions;
  }

  /** Merging the same relation message again changes nothing at all, generations included. */
  lemma MergeRelationIdempotent(db: Db, key: EdgeKey, weight: Option<int>)
    ensures var once := MergeRelation(db, key, weight);
            MergeRelation(once, key, weight) == once
  {
    var once := MergeRelation(db, key, weight);
    var twice := MergeRelation(once, key, weight);
    assert twice.nodes == once.nodes;
    assert twice.edges == once.edges;
    assert twice.partitions == once.partitions;
  }
}
