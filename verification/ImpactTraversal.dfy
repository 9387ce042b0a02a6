/** The two level-by-level traversals: the capped one that streams events, and the uncapped discovery. */
module ImpactTraversal {
  import opened Common
  import opened CodeGraph
  import opened Ordering
  import opened Reachability

  datatype Row = Row(nodeId: Id, relType: RelType)

  datatype ImpactNode = ImpactNode(nodeId: Id, hopDistance: nat, relType: RelType)

  datatype Event =
    | NodeEvent(node: ImpactNode)
    | ProgressEvent(nodesExplored: nat, frontierSize: nat, currentDepth: nat, truncated: bool)

  function RowIds(rows: seq<Row>): set<Id> {
    set r | r in rows :: r.nodeId
  }

  function NodeIds(nodes: seq<ImpactNode>): set<Id> {
    set n | n in nodes :: n.nodeId
  }

  /** A level query; None is its failure. */
  type Fetch = (seq<Id>, set<Id>) -> Option<seq<Row>>

  /** Of the types of the arcs from a node into the frontier the first by name. */
  ghost predicate LinkType(arcs: set<EdgeKey>, frontier: set<Id>, id: Id, t: RelType) {
    && (exists k :: k in arcs && k.from == id && k.to in frontier && k.relType == t)
    && forall k :: k in arcs && k.from == id && k.to in frontier ==> !Less(RelTypeText(k.relType), RelTypeText(t))
  }

  ghost predicate RowsOfLevel(rows: seq<Row>, arcs: set<EdgeKey>, frontier: set<Id>, visited: set<Id>) {
    && RowIds(rows) == Dependents(arcs, frontier) - visited
    && forall r :: r in rows ==> LinkType(arcs, frontier, r.nodeId, r.relType)
  }

  /** What a level query promises: the unvisited dependents of the frontier, in some order, unless it fails. */
  ghost predicate FetchesLevels(fetch: Fetch, arcs: set<EdgeKey>) {
    forall frontier, visited ::
      fetch(frontier, visited).Some? ==>
        RowsOfLevel(fetch(frontier, visited).value, arcs, Elements(frontier), visited)
  }

  ghost predicate Sorted(rows: seq<Row>) {
    forall i, j :: 0 <= i < j < |rows| ==> Less(rows[i].nodeId, rows[j].nodeId)
  }

  /** The query orders its rows by id. */
  ghost predicate SortsLevels(fetch: Fetch) {
    forall frontier, visited :: fetch(frontier, visited).Some? ==> Sorted(fetch(frontier, visited).value)
  }

  ghost predicate MayFail(fetch: Fetch) {
    exists frontier, visited :: fetch(frontier, visited).None?
  }

  /** How a traversal ends; a failure names the level it struck. */
  datatype Ending = Done | BadBounds | FetchFailed(level: nat) | EmitFailed(level: nat)

  /** The node events, in order of emission. */
  function Emitted(events: seq<Event>): seq<ImpactNode> {
    if events == [] then []
    else Emitted(events[..|events| - 1])
         + (if events[|events| - 1].NodeEvent? then [events[|events| - 1].node] else [])
  }

  function AtHop(nodes: seq<ImpactNode>, hop: nat): nat {
    if nodes == [] then 0
    else AtHop(nodes[..|nodes| - 1], hop) + (if nodes[|nodes| - 1].hopDistance == hop then 1 else 0)
  }

  /** Every progress event sums up what was emitted before it, and only the last event may be truncated. */
  ghost predicate ProgressAdds(events: seq<Event>) {
    forall i :: 0 <= i < |events| && events[i].ProgressEvent? ==>
      && events[i].nodesExplored == |Emitted(events[..i])|
      && events[i].frontierSize == AtHop(Emitted(events[..i]), events[i].currentDepth)
      && (events[i].truncated ==> i == |events| - 1)
  }

  predicate Truncated(events: seq<Event>) {
    events != [] && events[|events| - 1].ProgressEvent? && events[|events| - 1].truncated
  }

  /** Every node once, never the entry, each at its exact distance from it. */
  ghost predicate ExactDistances(nodes: seq<ImpactNode>, arcs: set<EdgeKey>, entry: Id, maxDepth: nat) {
    && Distinct(nodes)
    && forall n :: n in nodes ==>
         1 <= n.hopDistance <= maxDepth && n.nodeId != entry && Distance(arcs, entry, n.nodeId, n.hopDistance)
  }

  /**
  The traversal is cut short if and only if the ball exceeds the cap, and then at the cap; otherwise the whole ball
  was emitted.
  */
  ghost predicate CutExactlyIfTooLarge(nodes: seq<ImpactNode>, cut: bool, arcs: set<EdgeKey>, entry: Id, maxDepth: nat,
                                       maxNodes: nat) {
    var ball := Ball(arcs, entry, maxDepth) - {entry};
    && (cut <==> |ball| > maxNodes)
    && if cut then |nodes| == maxNodes else NodeIds(nodes) == ball
  }

  /** No node nearer than `depth` is missing. */
  ghost predicate CoversNearer(nodes: seq<ImpactNode>, arcs: set<EdgeKey>, entry: Id, depth: nat) {
    forall x, d: nat :: 1 <= d < depth && Distance(arcs, entry, x, d) ==> x in NodeIds(nodes)
  }

  /**
  Every node carries the type of the first arc of a shortest chain to the entry, and of several the first by name.
  */
  ghost predicate TypesRight(nodes: seq<ImpactNode>, arcs: set<EdgeKey>, entry: Id) {
    forall n :: n in nodes ==> FirstType(arcs, entry, n.nodeId, n.hopDistance, n.relType)
  }

  ghost predicate Before(n: ImpactNode, id: Id, hop: nat) {
    n.hopDistance < hop || (n.hopDistance == hop && Less(n.nodeId, id))
  }

  /** By rising distance and then by id, and no dependent that comes before one of the nodes is missing. */
  ghost predicate FirstInOrder(nodes: seq<ImpactNode>, arcs: set<EdgeKey>, entry: Id) {
    && (forall i, j :: 0 <= i < j < |nodes| ==> Before(nodes[i], nodes[j].nodeId, nodes[j].hopDistance))
    && forall x, d: nat, n ::
         d >= 1 && Distance(arcs, entry, x, d) && x !in NodeIds(nodes) && n in nodes ==> Before(n, x, d)
  }

  ghost predicate Distinct(nodes: seq<ImpactNode>) {
    forall i, j :: 0 <= i < j < |nodes| ==> nodes[i].nodeId != nodes[j].nodeId
  }

  ghost predicate InShells(nodes: seq<ImpactNode>, arcs: set<EdgeKey>, entry: Id, depth: nat) {
    forall n :: n in nodes ==> 1 <= n.hopDistance <= depth && n.nodeId in Shell(arcs, entry, n.hopDistance)
  }

  lemma {:induction false} DistinctCount(nodes: seq<ImpactNode>)
    requires Distinct(nodes)
    ensures |NodeIds(nodes)| == |nodes|
  {
    if nodes != [] {
      var front, last := nodes[..|nodes| - 1], nodes[|nodes| - 1];
      DistinctCount(front);
      assert nodes == front + [last];
      assert NodeIds(nodes) == NodeIds(front) + {last.nodeId};
      assert last.nodeId !in NodeIds(front);
    }
  }

  lemma EmittedAppend(events: seq<Event>, e: Event)
    ensures Emitted(events + [e]) == Emitted(events) + (if e.NodeEvent? then [e.node] else [])
  {
    assert (events + [e])[..|events|] == events;
  }

  lemma AtHopAppend(nodes: seq<ImpactNode>, n: ImpactNode, hop: nat)
    ensures AtHop(nodes + [n], hop) == AtHop(nodes, hop) + (if n.hopDistance == hop then 1 else 0)
  {
    assert (nodes + [n])[..|nodes|] == nodes;
  }

  lemma {:induction false} NothingAtHop(nodes: seq<ImpactNode>, hop: nat)
    requires forall n :: n in nodes ==> n.hopDistance < hop
    ensures AtHop(nodes, hop) == 0
  {
    if nodes != [] { NothingAtHop(nodes[..|nodes| - 1], hop); }
  }

  lemma AppendNode(events: seq<Event>, node: ImpactNode)
    requires ProgressAdds(events) && !Truncated(events)
    ensures ProgressAdds(events + [NodeEvent(node)])
    ensures Emitted(events + [NodeEvent(node)]) == Emitted(events) + [node]
  {
    hide AtHop, NodeIds;
    EmittedAppend(events, NodeEvent(node));
    var after := events + [NodeEvent(node)];
    forall i | 0 <= i < |events| ensures after[..i] == events[..i] {}
  }

  lemma {:induction false} AppendProgress(events: seq<Event>, e: Event)
    requires ProgressAdds(events) && !Truncated(events)
    requires e.ProgressEvent? && e.nodesExplored == |Emitted(events)|
    requires e.frontierSize == AtHop(Emitted(events), e.currentDepth)
    ensures ProgressAdds(events + [e])
    ensures Emitted(events + [e]) == Emitted(events)
  {
    EmittedAppend(events, e);
    var after := events + [e];
    assert after[..|events|] == events;
    forall i | 0 <= i < |events| ensures after[..i] == events[..i] {}
  }

  lemma DistancesOf(nodes: seq<ImpactNode>, arcs: set<EdgeKey>, entry: Id, maxDepth: nat)
    requires Distinct(nodes) && InShells(nodes, arcs, entry, maxDepth)
    ensures ExactDistances(nodes, arcs, entry, maxDepth)
  {
    forall n | n in nodes
      ensures n.nodeId != entry && Distance(arcs, entry, n.nodeId, n.hopDistance)
    {
      ShellIsDistance(arcs, entry, n.nodeId, n.hopDistance);
      EntryInBall(arcs, entry, n.hopDistance - 1);
    }
  }

  /** A node left out while the cap was reached shows that the ball does not fit the cap. */
  lemma {:induction false} BallExceeds(nodes: seq<ImpactNode>, arcs: set<EdgeKey>, entry: Id, depth: nat,
                                       maxDepth: nat, x: Id)
    requires Distinct(nodes) && InShells(nodes, arcs, entry, depth) && depth <= maxDepth
    requires x in Ball(arcs, entry, depth) && x != entry && x !in NodeIds(nodes)
    ensures |Ball(arcs, entry, maxDepth) - {entry}| > |nodes|
  {
    DistancesOf(nodes, arcs, entry, depth);
    BallGrows(arcs, entry, depth, maxDepth);
    forall id | id in NodeIds(nodes) ensures id in Ball(arcs, entry, maxDepth) - {entry} {
      var n :| n in nodes && n.nodeId == id;
      BallGrows(arcs, entry, n.hopDistance, maxDepth);
    }
    DistinctCount(nodes);
    Cardinality(NodeIds(nodes) + {x}, Ball(arcs, entry, maxDepth) - {entry});
  }

  lemma {:induction false} Cardinality<T>(a: set<T>, b: set<T>)
    requires a <= b
    ensures |a| <= |b|
  {
    assert b == a + (b - a);
  }

  /** The nodes that one level adds, in row order. */
  ghost predicate FreshLevel(added: seq<ImpactNode>, visited0: set<Id>, depth: nat) {
    Distinct(added) && forall n :: n in added ==> n.hopDistance == depth && n.nodeId !in visited0
  }

  lemma FreshOneMore(added: seq<ImpactNode>, visited0: set<Id>, depth: nat, node: ImpactNode)
    requires FreshLevel(added, visited0, depth)
    requires node.hopDistance == depth && node.nodeId !in visited0 + NodeIds(added)
    ensures FreshLevel(added + [node], visited0, depth)
    ensures NodeIds(added + [node]) == NodeIds(added) + {node.nodeId}
  {
  }

  /** The added nodes are the rows at the positions `at`, which rise and lie below `upto`. */
  ghost predicate Follows(added: seq<ImpactNode>, rows: seq<Row>, at: seq<nat>, upto: nat) {
    && |at| == |added| && upto <= |rows|
    && (forall k :: 0 <= k < |at| ==> at[k] < upto && rows[at[k]] == Row(added[k].nodeId, added[k].relType))
    && forall k, l :: 0 <= k < l < |at| ==> at[k] < at[l]
  }

  lemma FollowsOneMore(added: seq<ImpactNode>, rows: seq<Row>, at: seq<nat>, i: nat, depth: nat)
    requires Follows(added, rows, at, i) && i < |rows|
    ensures Follows(added, rows, at, i + 1)
    ensures Follows(added + [ImpactNode(rows[i].nodeId, depth, rows[i].relType)], rows, at + [i], i + 1)
  {
  }

  /**
  One level of the loop: the rows in order, stopping just before the first node that exceeds the cap. `accepts` says
  which calls of the emit callback succeed, counted from the first of the traversal; the first that does not ends it.
  */
  method RunLevel(rows: seq<Row>, accepts: nat -> bool, visited0: set<Id>, events0: seq<Event>, explored0: nat,
                  depth: nat,
                  maxNodes: nat)
    returns (ok: bool, visited: set<Id>, events: seq<Event>, explored: nat, next: seq<Id>, truncated: bool,
             ghost added: seq<ImpactNode>, ghost at: seq<nat>, ghost upto: nat)
    requires ProgressAdds(events0) && !Truncated(events0) && AtHop(Emitted(events0), depth) == 0
    requires explored0 == |Emitted(events0)| <= maxNodes
    ensures ProgressAdds(events) && Emitted(events) == Emitted(events0) + added && FreshLevel(added, visited0, depth)
    ensures Follows(added, rows, at, upto) && forall j :: 0 <= j < upto ==> rows[j].nodeId in visited0 + NodeIds(added)
    ensures NodeIds(added) <= RowIds(rows) && |Emitted(events)| <= maxNodes
    ensures ok <==> |events| > |events0| && events[|events| - 1].ProgressEvent?
    ensures events0 <= events && forall k :: |events0| <= k < |events| ==> accepts(k)
    ensures !ok ==> !Truncated(events) && !accepts(|events|)
    ensures ok ==> visited == visited0 + NodeIds(added) && Elements(next) == NodeIds(added)
    ensures ok ==>
              events[|events| - 1].currentDepth == depth && truncated == Truncated(events)
              && explored == |Emitted(events)|
    ensures ok && !truncated ==> RowIds(rows) <= visited
    ensures ok && truncated ==> |Emitted(events)| == maxNodes && exists r :: r in rows && r.nodeId !in visited
  {
    hide Emitted, AtHop, ProgressAdds, Follows;
    visited, events, explored, next, truncated, added, at := visited0, events0, explored0, [], false, [], [];
    upto := 0;
    FollowsNothing(rows);
    ghost var nodes0 := Emitted(events0);
    var levelCount := 0;
    var i := 0;
    while i < |rows| && !truncated
      invariant 0 <= i <= |rows|
      invariant ProgressAdds(events) && !Truncated(events)
      invariant events0 <= events && forall k :: |events0| <= k < |events| ==> accepts(k) && events[k].NodeEvent?
      invariant Emitted(events) == nodes0 + added && FreshLevel(added, visited0, depth)
      invariant visited == visited0 + NodeIds(added) && Elements(next) == NodeIds(added)
      invariant NodeIds(added) <= RowIds(rows)
      invariant Follows(added, rows, at, i) && forall j :: 0 <= j < i ==> rows[j].nodeId in visited
      invariant explored == |Emitted(events)| <= maxNodes && levelCount == AtHop(Emitted(events), depth)
      invariant truncated ==> i < |rows| && rows[i].nodeId !in visited && explored == maxNodes
      decreases |rows| - i, !truncated
    {
      var row := rows[i];
      upto := i;
      FollowsOneMore(added, rows, at, i, depth);
      if row.nodeId in visited {
        i := i + 1;
      } else if explored >= maxNodes {
        truncated := true;
      } else {
        var node := ImpactNode(row.nodeId, depth, row.relType);
        FreshOneMore(added, visited0, depth, node);
        visited := visited + {row.nodeId};
        explored, levelCount := explored + 1, levelCount + 1;
        next := next + [row.nodeId];
        if !accepts(|events|) { ok := false; return; }
        AppendNode(events, node);
        AtHopAppend(Emitted(events), node, depth);
        events := events + [NodeEvent(node)];
        added, at := added + [node], at + [i];
        i := i + 1;
      }
    }
    upto := i;
    var progress := ProgressEvent(explored, levelCount, depth, truncated);
    if !accepts(|events|) { ok := false; return; }
    AppendProgress(events, progress);
    events := events + [progress];
    ok := true;
  }

  lemma FollowsNothing(rows: seq<Row>)
    ensures Follows([], rows, [], 0)
  {
  }

  /** What the traversal knows between two levels, and after it was cut short inside level `depth`. */
  ghost predicate Explored(nodes: seq<ImpactNode>, arcs: set<EdgeKey>, entry: Id, depth: nat, truncated: bool) {
    && Distinct(nodes) && InShells(nodes, arcs, entry, depth)
    && (!truncated ==> NodeIds(nodes) + {entry} == Ball(arcs, entry, depth))
    && (truncated ==>
          && depth >= 1
          && Ball(arcs, entry, depth - 1) <= NodeIds(nodes) + {entry}
          && exists x :: x in Ball(arcs, entry, depth) && x != entry && x !in NodeIds(nodes))
  }

  /** Part of level `depth` on top of all nearer levels. */
  ghost predicate PartlyExplored(nodes: seq<ImpactNode>, arcs: set<EdgeKey>, entry: Id, depth: nat) {
    depth >= 1 && Distinct(nodes) && InShells(nodes, arcs, entry, depth)
    && Ball(arcs, entry, depth - 1) <= NodeIds(nodes) + {entry}
  }

  /** Joining nodes of one level to the nodes of all nearer levels. */
  lemma {:induction false} JoinLevel(nodes: seq<ImpactNode>, added: seq<ImpactNode>, arcs: set<EdgeKey>, entry: Id,
                                     depth: nat)
    requires depth >= 1 && Explored(nodes, arcs, entry, depth - 1, false)
    requires FreshLevel(added, NodeIds(nodes) + {entry}, depth) && NodeIds(added) <= Shell(arcs, entry, depth)
    ensures PartlyExplored(nodes + added, arcs, entry, depth)
    ensures NodeIds(nodes + added) == NodeIds(nodes) + NodeIds(added)
  {
    hide Shell, Ball;
    var all := nodes + added;
    assert NodeIds(all) == NodeIds(nodes) + NodeIds(added);
    forall n | n in all ensures 1 <= n.hopDistance <= depth && n.nodeId in Shell(arcs, entry, n.hopDistance) {
      if n in added { assert n.nodeId in NodeIds(added); }
    }
    forall i, j | 0 <= i < j < |all| ensures all[i].nodeId != all[j].nodeId {
      if i < |nodes| <= j { assert all[i] in nodes && all[j] in added && all[i].nodeId in NodeIds(nodes); }
    }
  }

  lemma {:induction false} ExploredNext(nodes: seq<ImpactNode>, added: seq<ImpactNode>, rows: seq<Row>,
                                        arcs: set<EdgeKey>, entry: Id, depth: nat, truncated: bool)
    requires depth >= 1 && Explored(nodes, arcs, entry, depth - 1, false)
    requires RowIds(rows) == Shell(arcs, entry, depth)
    requires FreshLevel(added, NodeIds(nodes) + {entry}, depth) && NodeIds(added) <= RowIds(rows)
    requires !truncated ==> RowIds(rows) <= NodeIds(nodes) + {entry} + NodeIds(added)
    requires truncated ==> exists r :: r in rows && r.nodeId !in NodeIds(nodes) + {entry} + NodeIds(added)
    ensures Explored(nodes + added, arcs, entry, depth, truncated)
    ensures !truncated ==> NodeIds(added) == Shell(arcs, entry, depth)
    ensures NodeIds(nodes + added) + {entry} == NodeIds(nodes) + {entry} + NodeIds(added)
  {
    hide InShells, Distinct;
    JoinLevel(nodes, added, arcs, entry, depth);
    var ball, shell := Ball(arcs, entry, depth - 1), Shell(arcs, entry, depth);
    assert Ball(arcs, entry, depth) == ball + shell by { BallGrows(arcs, entry, depth - 1, depth); }
    assert ball * shell == {};
    if truncated {
      var r :| r in rows && r.nodeId !in NodeIds(nodes) + {entry} + NodeIds(added);
      assert r.nodeId in RowIds(rows);
    }
  }

  lemma ExploredNothing(arcs: set<EdgeKey>, entry: Id)
    ensures Explored([], arcs, entry, 0, false) && NodeIds([]) == {} && Elements([entry]) == Shell(arcs, entry, 0)
    ensures Emitted([]) == [] && ProgressAdds([]) && TypesRight([], arcs, entry) && FirstInOrder([], arcs, entry)
  {
  }

  lemma LevelTypes(rows: seq<Row>, added: seq<ImpactNode>, at: seq<nat>, upto: nat, arcs: set<EdgeKey>, entry: Id,
                   depth: nat, visited: set<Id>)
    requires depth >= 1 && RowsOfLevel(rows, arcs, Shell(arcs, entry, depth - 1), visited)
    requires Follows(added, rows, at, upto) && forall n :: n in added ==> n.hopDistance == depth
    ensures TypesRight(added, arcs, entry)
  {
    hide Shell, Distance, RelTypeText, Less;
    forall k: EdgeKey ensures k.to in Shell(arcs, entry, depth - 1) <==> Distance(arcs, entry, k.to, depth - 1) {
      ShellIsDistance(arcs, entry, k.to, depth - 1);
    }
    forall n | n in added ensures FirstType(arcs, entry, n.nodeId, n.hopDistance, n.relType) {
      var i :| 0 <= i < |added| && added[i] == n;
      assert rows[at[i]] in rows;
      TypeOfLink(arcs, entry, depth, n.nodeId, n.relType);
    }
  }

  lemma TypeOfLink(arcs: set<EdgeKey>, entry: Id, depth: nat, id: Id, t: RelType)
    requires depth >= 1 && LinkType(arcs, Shell(arcs, entry, depth - 1), id, t)
    requires forall k: EdgeKey :: k.to in Shell(arcs, entry, depth - 1) <==> Distance(arcs, entry, k.to, depth - 1)
    ensures FirstType(arcs, entry, id, depth, t)
  {
    hide Shell, Distance, Less;
    var k :| k in arcs && k.from == id && k.to in Shell(arcs, entry, depth - 1) && k.relType == t;
    assert FirstStep(arcs, entry, id, depth, k);
  }

  /** Rows in order of their ids make the nodes of a level so, and leave only greater ids out. */
  lemma LevelOrder(rows: seq<Row>, added: seq<ImpactNode>, at: seq<nat>, upto: nat, visited: set<Id>)
    requires Sorted(rows) && Follows(added, rows, at, upto)
    requires forall j :: 0 <= j < upto ==> rows[j].nodeId in visited + NodeIds(added)
    ensures forall i, j :: 0 <= i < j < |added| ==> Less(added[i].nodeId, added[j].nodeId)
    ensures forall x, n :: x in RowIds(rows) && x !in visited + NodeIds(added) && n in added ==> Less(n.nodeId, x)
  {
    hide Less;
    forall i, j | 0 <= i < j < |added| ensures Less(added[i].nodeId, added[j].nodeId) {
      assert Less(rows[at[i]].nodeId, rows[at[j]].nodeId);
    }
    forall x, n | x in RowIds(rows) && x !in visited + NodeIds(added) && n in added ensures Less(n.nodeId, x) {
      var r :| r in rows && r.nodeId == x;
      var j :| 0 <= j < |rows| && rows[j] == r;
      var i :| 0 <= i < |added| && added[i] == n;
      assert Less(rows[at[i]].nodeId, rows[j].nodeId);
    }
  }

  lemma JoinOrder(nodes: seq<ImpactNode>, added: seq<ImpactNode>, arcs: set<EdgeKey>, entry: Id, depth: nat)
    requires depth >= 1 && Explored(nodes, arcs, entry, depth - 1, false) && FirstInOrder(nodes, arcs, entry)
    requires forall n :: n in added ==> n.hopDistance == depth
    requires forall i, j :: 0 <= i < j < |added| ==> Less(added[i].nodeId, added[j].nodeId)
    requires forall x, n ::
               x in Shell(arcs, entry, depth) && x !in NodeIds(nodes) + {entry} + NodeIds(added) && n in added ==>
                 Less(n.nodeId, x)
    ensures FirstInOrder(nodes + added, arcs, entry)
  {
    hide Less, Shell, Ball, Distance;
    var all := nodes + added;
    assert NodeIds(all) == NodeIds(nodes) + NodeIds(added);
    forall i, j | 0 <= i < j < |all| ensures Before(all[i], all[j].nodeId, all[j].hopDistance) {
      if i < |nodes| { assert all[i] in nodes; } else { assert all[i] in added; }
      if j >= |nodes| { assert all[j] in added; }
    }
    forall x, d: nat, n | d >= 1 && Distance(arcs, entry, x, d) && x !in NodeIds(all) && n in all
      ensures Before(n, x, d)
    {
      if d < depth {
        NearerIsIncluded(nodes, arcs, entry, depth, x, d);
        assert false;
      }
      if n in added && d == depth { ShellIsDistance(arcs, entry, x, d); EntryIsNear(arcs, entry, x, d); }
    }
  }

  lemma EntryIsNear(arcs: set<EdgeKey>, entry: Id, x: Id, d: nat)
    requires d >= 1 && Distance(arcs, entry, x, d)
    ensures x != entry
  {
    assert Walk(arcs, entry, entry, 0);
  }

  /** What one level keeps of the types and, if the query orders its rows, of the order. */
  lemma LevelKeepsChoice(rows: seq<Row>, nodes: seq<ImpactNode>, added: seq<ImpactNode>, at: seq<nat>, upto: nat,
                         arcs: set<EdgeKey>, entry: Id, depth: nat, sorts: bool)
    requires depth >= 1 && Explored(nodes, arcs, entry, depth - 1, false) && TypesRight(nodes, arcs, entry)
    requires sorts ==> FirstInOrder(nodes, arcs, entry) && Sorted(rows)
    requires RowsOfLevel(rows, arcs, Shell(arcs, entry, depth - 1), NodeIds(nodes) + {entry})
    requires RowIds(rows) == Shell(arcs, entry, depth)
    requires FreshLevel(added, NodeIds(nodes) + {entry}, depth) && Follows(added, rows, at, upto)
    requires forall j :: 0 <= j < upto ==> rows[j].nodeId in NodeIds(nodes) + {entry} + NodeIds(added)
    ensures TypesRight(nodes + added, arcs, entry)
    ensures sorts ==> FirstInOrder(nodes + added, arcs, entry)
  {
    hide Shell, Follows, Explored, FirstInOrder, Sorted, RowsOfLevel, FirstType, RowIds, NodeIds;
    LevelTypes(rows, added, at, upto, arcs, entry, depth, NodeIds(nodes) + {entry});
    if sorts {
      LevelOrder(rows, added, at, upto, NodeIds(nodes) + {entry});
      JoinOrder(nodes, added, arcs, entry, depth);
    }
  }

  /** All levels, one after the other; `depth` is the number of levels the loop ran. */
  method RunLevels(fetch: Fetch, accepts: nat -> bool, entry: Id, maxDepth: nat, maxNodes: nat,
                   ghost arcs: set<EdgeKey>)
    returns (ending: Ending, events: seq<Event>, depth: nat, frontier: seq<Id>, truncated: bool)
    requires FetchesLevels(fetch, arcs) && maxDepth >= 1
    ensures !ending.BadBounds? && ProgressAdds(events) && |Emitted(events)| <= maxNodes
    ensures TypesRight(Emitted(events), arcs, entry)
    ensures SortsLevels(fetch) ==> FirstInOrder(Emitted(events), arcs, entry)
    ensures forall k :: 0 <= k < |events| ==> accepts(k)
    ensures ending.FetchFailed? ==> MayFail(fetch)
    ensures ending.EmitFailed? ==> !accepts(|events|)
    ensures !ending.Done? ==>
              ending.level <= maxDepth && PartlyExplored(Emitted(events), arcs, entry, ending.level)
              && !Truncated(events)
    ensures ending.Done? ==>
              events != [] && events[|events| - 1].ProgressEvent? && events[|events| - 1].currentDepth == depth
    ensures ending.Done? ==>
              depth <= maxDepth && (depth == maxDepth || frontier == [] || truncated) && truncated == Truncated(events)
    ensures ending.Done? ==> Explored(Emitted(events), arcs, entry, depth, truncated)
    ensures ending.Done? && !truncated ==> Elements(frontier) == Shell(arcs, entry, depth)
    ensures ending.Done? && truncated ==> |Emitted(events)| == maxNodes
  {
    hide Emitted, AtHop, ProgressAdds, Shell, Ball, TypesRight, FirstInOrder, Sorted, RowsOfLevel, Follows;
    ghost var sorts := SortsLevels(fetch);
    var visited := {entry};
    events, depth, frontier, truncated := [], 0, [entry], false;
    var explored := 0;
    ExploredNothing(arcs, entry);
    while depth < maxDepth && frontier != [] && !truncated
      invariant 0 <= depth <= maxDepth && explored == |Emitted(events)| <= maxNodes
      invariant ProgressAdds(events) && truncated == Truncated(events)
      invariant forall k :: 0 <= k < |events| ==> accepts(k)
      invariant TypesRight(Emitted(events), arcs, entry) && (sorts ==> FirstInOrder(Emitted(events), arcs, entry))
      invariant depth == 0 ==> frontier != [] && !truncated
      invariant depth > 0 ==>
                  events != [] && events[|events| - 1].ProgressEvent? && events[|events| - 1].currentDepth == depth
      invariant visited == NodeIds(Emitted(events)) + {entry}
      invariant Explored(Emitted(events), arcs, entry, depth, truncated)
      invariant !truncated ==> Elements(frontier) == Shell(arcs, entry, depth)
      invariant truncated ==> explored == maxNodes
    {
      ghost var nodes := Emitted(events);
      var fetched := fetch(frontier, visited);
      if fetched.None? {
        JoinNothing(nodes, arcs, entry, depth + 1);
        ending := FetchFailed(depth + 1);
        return;
      }
      var rows := fetched.value;
      ExpandsShell(frontier, visited, nodes, rows, arcs, entry, depth);
      ghost var added, at, upto;
      var ok;
      ok, visited, events, explored, frontier, truncated, added, at, upto :=
        RunLevel(rows, accepts, visited, events, explored, depth + 1, maxNodes);
      LevelKeepsChoice(rows, nodes, added, at, upto, arcs, entry, depth + 1, sorts);
      if !ok {
        JoinLevel(nodes, added, arcs, entry, depth + 1);
        ending := EmitFailed(depth + 1);
        return;
      }
      ExploredNext(nodes, added, rows, arcs, entry, depth + 1, truncated);
      depth := depth + 1;
    }
    ending := Done;
  }

  lemma JoinNothing(nodes: seq<ImpactNode>, arcs: set<EdgeKey>, entry: Id, depth: nat)
    requires depth >= 1 && Explored(nodes, arcs, entry, depth - 1, false)
    ensures PartlyExplored(nodes, arcs, entry, depth)
  {
  }

  lemma ExpandsShell(frontier: seq<Id>, visited: set<Id>, nodes: seq<ImpactNode>, rows: seq<Row>, arcs: set<EdgeKey>,
                     entry: Id, depth: nat)
    requires Explored(nodes, arcs, entry, depth, false) && visited == NodeIds(nodes) + {entry}
    requires Elements(frontier) == Shell(arcs, entry, depth)
    requires RowsOfLevel(rows, arcs, Elements(frontier), visited)
    ensures RowIds(rows) == Shell(arcs, entry, depth + 1)
    ensures AtHop(nodes, depth + 1) == 0
  {
    NextBall(arcs, entry, depth);
    NothingAtHop(nodes, depth + 1);
  }

  /**
  The capped traversal. When a level query or the callback fails, what was emitted is still exact and within the cap,
  and it holds every node nearer than the level that failed.
  */
  method RunBFS(fetch: Fetch, accepts: nat -> bool, entry: Id, maxDepth: int, maxNodes: int, ghost arcs: set<EdgeKey>)
    returns (ending: Ending, events: seq<Event>)
    requires FetchesLevels(fetch, arcs)
    ensures ending.BadBounds? <==> maxNodes < 1 || maxDepth < 1
    ensures ending.BadBounds? ==> events == []
    ensures ending.FetchFailed? ==> MayFail(fetch)
    ensures ending.EmitFailed? ==> !accepts(|events|)
    ensures !ending.BadBounds? ==>
              && ExactDistances(Emitted(events), arcs, entry, maxDepth) && |Emitted(events)| <= maxNodes
              && TypesRight(Emitted(events), arcs, entry)
              && (SortsLevels(fetch) ==> FirstInOrder(Emitted(events), arcs, entry))
    ensures ProgressAdds(events) && forall k :: 0 <= k < |events| ==> accepts(k)
    ensures ending.FetchFailed? || ending.EmitFailed? ==>
              && 1 <= ending.level <= maxDepth && !Truncated(events)
              && CoversNearer(Emitted(events), arcs, entry, ending.level)
    ensures ending.Done? ==> events != [] && events[|events| - 1].ProgressEvent?
    ensures ending.Done? ==> CutExactlyIfTooLarge(Emitted(events), Truncated(events), arcs, entry, maxDepth, maxNodes)
    ensures ending.Done? && Truncated(events) ==>
              CoversNearer(Emitted(events), arcs, entry, events[|events| - 1].currentDepth)
  {
    if maxNodes <= 0 || maxDepth <= 0 {
      ExploredNothing(arcs, entry);
      return BadBounds, [];
    }
    hide CutExactlyIfTooLarge, CoversNearer, MayFail, Emitted, ProgressAdds, Ball, Shell, Distance;
    hide ExactDistances, FetchesLevels, Explored, PartlyExplored, NodeIds, Truncated, TypesRight, FirstInOrder;
    hide SortsLevels;
    var depth, frontier, truncated;
    ending, events, depth, frontier, truncated := RunLevels(fetch, accepts, entry, maxDepth, maxNodes, arcs);
    if ending.Done? {
      Summarize(Emitted(events), truncated, frontier, depth, maxDepth, maxNodes, arcs, entry);
    } else {
      SummarizePart(Emitted(events), ending.level, maxDepth, arcs, entry);
    }
  }

  lemma SummarizePart(nodes: seq<ImpactNode>, depth: nat, maxDepth: nat, arcs: set<EdgeKey>, entry: Id)
    requires PartlyExplored(nodes, arcs, entry, depth) && depth <= maxDepth
    ensures ExactDistances(nodes, arcs, entry, maxDepth)
    ensures CoversNearer(nodes, arcs, entry, depth)
  {
    DistancesOf(nodes, arcs, entry, depth);
    forall x, d: nat | 1 <= d < depth && Distance(arcs, entry, x, d) ensures x in NodeIds(nodes) {
      NearerIsIncluded(nodes, arcs, entry, depth, x, d);
    }
  }

  /** What the loop's exit means for the whole ball. */
  lemma {:induction false} Summarize(nodes: seq<ImpactNode>, truncated: bool, frontier: seq<Id>, depth: nat,
                                     maxDepth: nat, maxNodes: nat,
                  arcs: set<EdgeKey>, entry: Id)
    requires depth <= maxDepth && (depth == maxDepth || frontier == [] || truncated)
    requires Explored(nodes, arcs, entry, depth, truncated) && |nodes| <= maxNodes
    requires !truncated ==> Elements(frontier) == Shell(arcs, entry, depth)
    requires truncated ==> |nodes| == maxNodes
    ensures ExactDistances(nodes, arcs, entry, maxDepth)
    ensures CutExactlyIfTooLarge(nodes, truncated, arcs, entry, maxDepth, maxNodes)
    ensures truncated ==> CoversNearer(nodes, arcs, entry, depth)
  {
    DistancesOf(nodes, arcs, entry, depth);
    if truncated {
      var x :| x in Ball(arcs, entry, depth) && x != entry && x !in NodeIds(nodes);
      BallExceeds(nodes, arcs, entry, depth, maxDepth, x);
      forall x, d: nat | 1 <= d < depth && Distance(arcs, entry, x, d) ensures x in NodeIds(nodes) {
        NearerIsIncluded(nodes, arcs, entry, depth, x, d);
      }
    } else {
      if depth < maxDepth {
        assert Shell(arcs, entry, depth) == {} by { assert frontier == []; }
        EmptyShellStops(arcs, entry, depth, maxDepth);
      }
      assert entry !in NodeIds(nodes);
      assert NodeIds(nodes) == Ball(arcs, entry, maxDepth) - {entry};
      DistinctCount(nodes);
    }
  }

  lemma NearerIsIncluded(nodes: seq<ImpactNode>, arcs: set<EdgeKey>, entry: Id, depth: nat, x: Id, d: nat)
    requires 1 <= d < depth && Distance(arcs, entry, x, d)
    requires Ball(arcs, entry, depth - 1) <= NodeIds(nodes) + {entry}
    ensures x in NodeIds(nodes)
  {
    WalkStaysInBall(arcs, entry, x, d, depth - 1);
    assert Walk(arcs, entry, entry, 0);
  }
}
