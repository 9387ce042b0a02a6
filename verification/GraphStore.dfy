/** The stored graph, updated query by query as the sink, the GDS job and the reader run them. */
module GraphStore {
  import opened Common
  import opened CodeGraph
  import opened Ordering

  // ---------------------------------------------------------------- what is stored, property by property

  /**
  The generations after a merge that touched some scopes: a new record starts at one, an old one rises by one if
  anything changed, and all others stay.
  */
  ghost predicate GenerationsMoved(before: map<Scope, int>, after: map<Scope, int>, touched: set<Scope>,
                                   changed: bool) {
    && after.Keys == before.Keys + touched
    && (forall s :: s in touched - before.Keys ==> after[s] == 1)
    && (forall s :: s in touched * before.Keys ==> after[s] == before[s] + if changed then 1 else 0)
    && forall s :: s in before.Keys - touched ==> after[s] == before[s]
  }

  ghost function ScopeOf(db: Db, id: Id): set<Scope> {
    if id in db.nodes && db.nodes[id].body.Some? then {db.nodes[id].body.value.scope} else {}
  }

  ghost predicate SameProperties(a: Body, b: Body) {
    && a.domain == b.domain && a.name == b.name && a.astHash == b.astHash && a.path == b.path
    && a.scope.tenantId == b.scope.tenantId && a.scope.repo == b.scope.repo && a.scope.aclGroup == b.scope.aclGroup
  }

  /** The node has its label, and the message's properties; its score and all other nodes and edges stay. */
  ghost predicate NodeStored(before: Db, after: Db, id: Id, t: NodeType, body: Body) {
    var was := id in before.nodes;
    && after.edges == before.edges && after.nodes.Keys == before.nodes.Keys + {id}
    && (forall o :: o in before.nodes && o != id ==> after.nodes[o] == before.nodes[o])
    && after.nodes[id].labels == (if was then before.nodes[id].labels else {}) + {t}
    && after.nodes[id].body.Some? && SameProperties(after.nodes[id].body.value, body)
    && after.nodes[id].symbolId == (if t == Method then Some(id) else if was then before.nodes[id].symbolId else None)
    && after.nodes[id].impact == (if was then before.nodes[id].impact else None)
    && GenerationsMoved(before.partitions, after.partitions, ScopeOf(before, id) + {body.scope},
                        !was || after.nodes[id] != before.nodes[id])
  }

  /**
  The edge has its weight, one if the message has none; missing ends are there without properties, and all else stays.
  */
  ghost predicate EdgeStored(before: Db, after: Db, key: EdgeKey, weight: Option<int>) {
    && after.edges.Keys == before.edges.Keys + {key}
    && (weight.Some? ==> after.edges[key] == weight.value) && (weight.None? ==> after.edges[key] == 1)
    && (forall k :: k in before.edges && k != key ==> after.edges[k] == before.edges[k])
    && after.nodes.Keys == before.nodes.Keys + {key.from, key.to}
    && (forall id :: id in before.nodes ==> after.nodes[id] == before.nodes[id])
    && (forall id :: id in after.nodes && id !in before.nodes ==>
          after.nodes[id].labels == {} && after.nodes[id].body.None? && after.nodes[id].symbolId.None?
          && after.nodes[id].impact.None?)
    && GenerationsMoved(before.partitions, after.partitions, ScopeOf(before, key.from) + ScopeOf(before, key.to),
                        key !in before.edges || before.edges[key] != after.edges[key])
  }

  lemma MergedNodeIsStored(db: Db, id: Id, t: NodeType, body: Body)
    ensures NodeStored(db, MergeNode(db, id, t, body), id, t, body)
  {
  }

  lemma MergedEdgeIsStored(db: Db, key: EdgeKey, weight: Option<int>)
    ensures EdgeStored(db, MergeRelation(db, key, weight), key, weight)
  {
  }

  /** The caller's tenant, one of its repositories and one of its groups. */
  ghost predicate ReadableBy(access: Access, scope: Scope) {
    && scope.tenantId == access.tenantId
    && (exists repo :: repo in access.repos && repo == scope.repo)
    && exists group :: group in access.groups && group == scope.aclGroup
  }

  /** The stamp names this scope and the generation its record has now. */
  ghost predicate StampedCurrently(partitions: map<Scope, int>, scope: Scope, stamp: Stamp) {
    && stamp.scope.tenantId == scope.tenantId && stamp.scope.repo == scope.repo
    && stamp.scope.aclGroup == scope.aclGroup
    && scope in partitions && stamp.generation == partitions[scope]
  }

  class Neo4jGraph {
    var nodes: map<Id, CodeNode>
    var edges: map<EdgeKey, int>
    var partitions: map<Scope, int>

    function State(): Db
      reads this
    {
      Db(nodes, edges, partitions)
    }

    constructor ()
      ensures State() == Db(map[], map[], map[])
    {
      nodes, edges, partitions := map[], map[], map[];
    }

    /** The lock query: creates the node if it is missing, otherwise leaves it as it is. */
    method LockCodeNode(id: Id)
      modifies this`nodes
      ensures nodes == old(nodes)[id := NodeAt(old(State()), id)]
    {
      if id !in nodes { nodes := nodes[id := Placeholder]; }
      assert nodes[id := nodes[id]] == nodes;
    }

    /** The FOREACH over the scope rows, one MERGE of a GDSPartition after the other. */
    method MergePartitions(scopes: seq<Scope>, changed: bool)
      requires forall i, j :: 0 <= i < j < |scopes| ==> scopes[i] != scopes[j]
      modifies this`partitions
      ensures partitions == Touched(old(partitions), Elements(scopes), changed)
    {
      ghost var before := partitions;
      assert partitions == Touched(before, {}, changed);
      ghost var done: set<Scope> := {};
      for i := 0 to |scopes|
        invariant done == Elements(scopes[..i])
        invariant partitions == Touched(before, done, changed)
      {
        ElementsOfPrefix(scopes, i);
        TouchedOneMore(before, done, scopes[i], changed);
        partitions := TouchOne(partitions, scopes[i], changed);
        done := done + {scopes[i]};
      }
      assert scopes[..|scopes|] == scopes;
    }

    /** Returns false, with nothing written, when the node type is not on the whitelist. */
    method MergeCodeNode(id: Id, nodeTypeText: string, body: Body) returns (merged: bool)
      modifies this
      ensures merged <==> ParseNodeType(nodeTypeText).Some?
      ensures State() == if merged then MergeNode(old(State()), id, ParseNodeType(nodeTypeText).value, body)
                         else old(State())
      ensures merged ==> exists t :: nodeTypeText == NodeTypeText(t) && NodeStored(old(State()), State(), id, t, body)
    {
      var parsed := ParseNodeType(nodeTypeText);
      if parsed.None? { return false; }
      LockCodeNode(id);
      var n := nodes[id];
      var changed := !NodeUnchanged(n, id, parsed.value, body);
      ScopeRowsAreSortedAndComplete(n.Owner(), Some(body.scope));
      var rows := ScopeRows(n.Owner(), Some(body.scope));
      assert Elements(rows) == ScopesOf(n.Owner(), Some(body.scope));
      MergePartitions(rows, changed);
      nodes := nodes[id := WithBody(n, id, parsed.value, body)];
      merged := true;
      assert State() == MergeNode(old(State()), id, parsed.value, body);
      hide MergeNode, NodeStored;
      WhitelistsReadTheNames(nodeTypeText, parsed.value, Calls);
      MergedNodeIsStored(old(State()), id, parsed.value, body);
    }

    /** Returns false, with nothing written, when the relation type is not on the whitelist. */
    method MergeCodeRelation(from: Id, relTypeText: string, to: Id, weight: Option<int>) returns (merged: bool)
      modifies this
      ensures merged <==> ParseRelType(relTypeText).Some?
      ensures State() == if merged
                         then MergeRelation(old(State()), EdgeKey(from, ParseRelType(relTypeText).value, to), weight)
                         else old(State())
      ensures merged ==>
                exists t ::
                  && relTypeText == RelTypeText(t)
                  && EdgeStored(old(State()), State(), EdgeKey(from, t, to), weight)
    {
      var parsed := ParseRelType(relTypeText);
      if parsed.None? { return false; }
      LockCodeNode(from);
      LockCodeNode(to);
      var key := EdgeKey(from, parsed.value, to);
      var f, t := nodes[from], nodes[to];
      var changed := !(key in edges && edges[key] == WeightOf(weight));
      ScopeRowsAreSortedAndComplete(f.Owner(), t.Owner());
      var rows := ScopeRows(f.Owner(), t.Owner());
      assert Elements(rows) == ScopesOf(f.Owner(), t.Owner());
      MergePartitions(rows, changed);
      edges := edges[key := WeightOf(weight)];
      merged := true;
      assert State() == MergeRelation(old(State()), key, weight);
      hide MergeRelation, EdgeStored;
      WhitelistsReadTheNames(relTypeText, File, parsed.value);
      MergedEdgeIsStored(old(State()), key, weight);
    }

    /** None is the error on a negative generation, which leaves the record as it is. */
    method CapturePartitionGeneration(scope: Scope) returns (generation: Option<int>)
      modifies this`partitions
      ensures State() == Capture(old(State()), scope) && scope in partitions
      ensures generation == if partitions[scope] < 0 then None else Some(partitions[scope])
    {
      if scope !in partitions { partitions := partitions[scope := 0]; }
      if partitions[scope] < 0 { return None; }
      generation := Some(partitions[scope]);
    }

    /** True means committed; false is ErrStalePartitionGeneration, with nothing written. */
    method WriteBackScores(scope: Scope, generation: int, rows: map<Id, ScoreRow>) returns (committed: bool)
      modifies this`nodes
      ensures State() == WriteBack(old(State()), scope, generation, rows)
      ensures committed <==> rows == map[] || FenceHolds(old(State()), scope, generation, rows.Keys)
      ensures committed ==>
                forall id :: id in rows ==> id in nodes && nodes[id].impact == Some(Stamp(rows[id], scope, generation))
      ensures !committed ==> nodes == old(nodes)
    {
      if rows == map[] {
        assert nodes == WriteBack(State(), scope, generation, rows).nodes;
        return true;
      }
      var targets := set id | id in rows && id in nodes && nodes[id].Owner() == Some(scope);
      if targets != rows.Keys {
        assert exists id :: id in rows.Keys && id !in targets;
        ghost var missing :| missing in rows.Keys && missing !in targets;
        assert !(missing in nodes && nodes[missing].Owner() == Some(scope));
        return false;
      }
      assert TargetsInScope(State(), scope, rows.Keys) by {
        forall id | id in rows.Keys ensures id in nodes && nodes[id].Owner() == Some(scope) { assert id in targets; }
      }
      if scope !in partitions || partitions[scope] != generation { return false; }
      var todo := targets;
      while todo != {}
        invariant todo <= targets
        invariant nodes.Keys == old(nodes).Keys
        invariant forall id | id in nodes ::
            nodes[id] == if id in targets && id !in todo
                         then old(nodes)[id].(impact := Some(Stamp(rows[id], scope, generation)))
                         else old(nodes)[id]
        decreases |todo|
      {
        var id :| id in todo;
        nodes := nodes[id := nodes[id].(impact := Some(Stamp(rows[id], scope, generation)))];
        todo := todo - {id};
      }
      assert nodes == WriteBack(old(State()), scope, generation, rows).nodes;
      committed := true;
    }

    /** The batch read of the reranker; an id that is not accepted is simply absent. */
    method FetchImpactScores(access: Access, ids: seq<Id>) returns (scores: map<Id, real>)
      ensures scores == AcceptedScores(State(), access, ids)
      ensures forall id :: id in scores <==>
                && id in ids && id in nodes && nodes[id].body.Some? && nodes[id].impact.Some?
                && ReadableBy(access, nodes[id].body.value.scope)
                && StampedCurrently(partitions, nodes[id].body.value.scope, nodes[id].impact.value)
      ensures forall id :: id in scores ==> scores[id] == nodes[id].impact.value.row.score
    {
      scores := map[];
      for i := 0 to |ids|
        invariant scores == AcceptedScores(State(), access, ids[..i])
      {
        assert ids[..i + 1] == ids[..i] + [ids[i]];
        if Accepted(State(), access, ids[i]) {
          scores := scores[ids[i] := nodes[ids[i]].impact.value.row.score];
        }
      }
      assert ids[..|ids|] == ids;
    }
  }
}
