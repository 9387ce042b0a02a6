/** The uncapped discovery of the batch job: one level query after the other, each of them a separate read. */
module Discovery {
  import opened Common
  import opened CodeGraph
  import opened Ordering
  import opened Reachability
  import opened ImpactTraversal

  type Hop = n: nat | n >= 1 witness 1

  datatype DepInfo = DepInfo(hopDistance: Hop, relType: RelType)

  /** The loop variables of the discovery; `depth` counts the levels already read. */
  datatype Search = Search(depth: nat, visited: set<Id>, frontier: set<Id>, deps: map<Id, DepInfo>)

  /** The first of the impacting types in the order of their names. */
  function MinType(types: set<RelType>): RelType {
    if Calls in types then Calls
    else if DependsOn in types then DependsOn
    else if Extends in types then Extends
    else if Implements in types then Implements
    else if Imports in types then Imports
    else Overrides
  }

  /** The types of the arcs from `dep` into the frontier. */
  function LinkTypes(arcs: set<EdgeKey>, dep: Id, frontier: set<Id>): set<RelType> {
    set k | k in arcs && k.from == dep && k.to in frontier :: k.relType
  }

  /** The result of one level query: each new dependent with its smallest arc type. */
  function Level(arcs: set<EdgeKey>, frontier: set<Id>, visited: set<Id>): map<Id, RelType> {
    map dep | dep in Dependents(arcs, frontier) - visited :: MinType(LinkTypes(arcs, dep, frontier))
  }

  function StartSearch(entry: Id): Search {
    Search(0, {entry}, {entry}, map[])
  }

  function AddLevel(s: Search, rows: map<Id, RelType>): Search {
    Search(s.depth + 1, s.visited + rows.Keys, rows.Keys,
           s.deps + map id | id in rows :: DepInfo(s.depth + 1, rows[id]))
  }

  predicate SearchOver(s: Search, maxDepth: nat) {
    s.depth >= maxDepth || s.frontier == {}
  }

  /** The rest of the search when every level is read from the same arcs. */
  function Finish(arcs: set<EdgeKey>, s: Search, maxDepth: nat): Search
    decreases maxDepth - s.depth
  {
    if SearchOver(s, maxDepth) then s
    else Finish(arcs, AddLevel(s, Level(arcs, s.frontier, s.visited)), maxDepth)
  }

  /** The loop of level queries; `fails` says which of them return an error, and None is that error. */
  method DiscoverSubgraph(arcs: set<EdgeKey>, entry: Id, maxDepth: nat,
                          fails: nat -> bool) returns (deps: Option<map<Id, DepInfo>>)
    ensures deps.Some? ==> deps.value == Finish(arcs, StartSearch(entry), maxDepth).deps
    ensures deps.Some? <==> forall d :: 1 <= d <= Finish(arcs, StartSearch(entry), maxDepth).depth ==> !fails(d)
  {
    hide Level, Finish;
    var visited, frontier := {entry}, {entry};
    var found: map<Id, DepInfo> := map[];
    var depth := 1;
    while depth <= maxDepth && frontier != {}
      invariant 1 <= depth <= maxDepth + 1 && forall d :: 1 <= d < depth ==> !fails(d)
      invariant Finish(arcs, Search(depth - 1, visited, frontier, found), maxDepth) ==
                Finish(arcs, StartSearch(entry), maxDepth)
    {
      ghost var s := Search(depth - 1, visited, frontier, found);
      FinishDeepens(arcs, s, maxDepth);
      if fails(depth) { return None; }
      var rows := Level(arcs, frontier, visited);
      visited := visited + rows.Keys;
      found := found + map id | id in rows :: DepInfo(depth, rows[id]);
      frontier := rows.Keys;
      assert Search(depth, visited, frontier, found) == AddLevel(s, rows);
      depth := depth + 1;
    }
    FinishDeepens(arcs, Search(depth - 1, visited, frontier, found), maxDepth);
    deps := Some(found);
  }

  lemma {:induction false} FinishDeepens(arcs: set<EdgeKey>, s: Search, maxDepth: nat)
    ensures if SearchOver(s, maxDepth) then Finish(arcs, s, maxDepth) == s
            else
              && Finish(arcs, s, maxDepth).depth > s.depth
              && Finish(arcs, s, maxDepth) == Finish(arcs, AddLevel(s, Level(arcs, s.frontier, s.visited)), maxDepth)
    decreases maxDepth - s.depth
  {
    hide Level;
    if !SearchOver(s, maxDepth) { FinishDeepens(arcs, AddLevel(s, Level(arcs, s.frontier, s.visited)), maxDepth); }
  }

  /** The discovered dependents are the ball without its centre, at exact distances, by their smallest last arc. */
  ghost predicate DiscoversBall(deps: map<Id, DepInfo>, arcs: set<EdgeKey>, entry: Id, depth: nat) {
    && deps.Keys == Ball(arcs, entry, depth) - {entry}
    && forall id :: id in deps ==>
         && 1 <= deps[id].hopDistance <= depth
         && id in Shell(arcs, entry, deps[id].hopDistance)
         && deps[id].relType == MinType(LinkTypes(arcs, id, Shell(arcs, entry, deps[id].hopDistance - 1)))
  }

  lemma {:induction false} LevelExtendsBall(arcs: set<EdgeKey>, entry: Id, s: Search)
    requires s.visited == Ball(arcs, entry, s.depth) && s.frontier == Shell(arcs, entry, s.depth)
    requires DiscoversBall(s.deps, arcs, entry, s.depth)
    ensures var next := AddLevel(s, Level(arcs, s.frontier, s.visited));
            && next.visited == Ball(arcs, entry, next.depth) && next.frontier == Shell(arcs, entry, next.depth)
            && DiscoversBall(next.deps, arcs, entry, next.depth)
  {
    hide MinType, LinkTypes, Ball, Shell;
    var rows := Level(arcs, s.frontier, s.visited);
    NextBall(arcs, entry, s.depth);
    EntryInBall(arcs, entry, s.depth);
    var next := AddLevel(s, rows);
    assert next.deps.Keys == s.deps.Keys + rows.Keys;
    forall id | id in next.deps
      ensures && 1 <= next.deps[id].hopDistance <= next.depth
              && id in Shell(arcs, entry, next.deps[id].hopDistance)
              && next.deps[id].relType ==
                MinType(LinkTypes(arcs, id, Shell(arcs, entry, next.deps[id].hopDistance - 1)))
    {
      if id !in rows { assert next.deps[id] == s.deps[id]; }
    }
  }

  lemma {:induction false} FinishDiscoversBall(arcs: set<EdgeKey>, entry: Id, s: Search, maxDepth: nat)
    requires s.depth <= maxDepth
    requires s.visited == Ball(arcs, entry, s.depth) && s.frontier == Shell(arcs, entry, s.depth)
    requires DiscoversBall(s.deps, arcs, entry, s.depth)
    ensures DiscoversBall(Finish(arcs, s, maxDepth).deps, arcs, entry, maxDepth)
    decreases maxDepth - s.depth
  {
    if s.depth < maxDepth && s.frontier == {} {
      SearchStopsEarly(arcs, entry, s, maxDepth);
    } else if s.depth < maxDepth {
      LevelExtendsBall(arcs, entry, s);
      FinishDiscoversBall(arcs, entry, AddLevel(s, Level(arcs, s.frontier, s.visited)), maxDepth);
    }
  }

  lemma SearchStopsEarly(arcs: set<EdgeKey>, entry: Id, s: Search, maxDepth: nat)
    requires s.depth <= maxDepth && s.frontier == {} == Shell(arcs, entry, s.depth)
    requires DiscoversBall(s.deps, arcs, entry, s.depth)
    ensures DiscoversBall(s.deps, arcs, entry, maxDepth)
  {
    EmptyShellStops(arcs, entry, s.depth, maxDepth);
  }

  lemma StartIsBall(arcs: set<EdgeKey>, entry: Id)
    ensures var s := StartSearch(entry);
            s.visited == Ball(arcs, entry, 0) && s.frontier == Shell(arcs, entry, 0)
            && DiscoversBall(s.deps, arcs, entry, 0)
  {
  }

  /** The whole discovery finds exactly the nodes at distance 1 to `maxDepth`, each at its exact distance. */
  lemma {:induction false} DiscoveryIsExact(arcs: set<EdgeKey>, entry: Id, maxDepth: nat)
    ensures var deps := Finish(arcs, StartSearch(entry), maxDepth).deps;
            && deps.Keys == Ball(arcs, entry, maxDepth) - {entry}
            && forall id :: id in deps ==>
                 && Distance(arcs, entry, id, deps[id].hopDistance)
                 && deps[id].relType == MinType(LinkTypes(arcs, id, Shell(arcs, entry, deps[id].hopDistance - 1)))
  {
    StartIsBall(arcs, entry);
    hide Ball, Shell, MinType, LinkTypes, Finish, Distance;
    FinishDiscoversBall(arcs, entry, StartSearch(entry), maxDepth);
    var deps := Finish(arcs, StartSearch(entry), maxDepth).deps;
    forall id | id in deps ensures Distance(arcs, entry, id, deps[id].hopDistance) {
      ShellIsDistance(arcs, entry, id, deps[id].hopDistance);
    }
  }

  lemma DistanceIsUnique(arcs: set<EdgeKey>, entry: Id, x: Id, d: nat, e: nat)
    requires Distance(arcs, entry, x, d) && Distance(arcs, entry, x, e)
    ensures d == e
  {
  }

  // ---------------------------------------------------------------- the type of the first arc

  /** The types that carry impact, in the order of their names. */
  lemma NamesInOrder()
    ensures Less("CALLS", "DEPENDS_ON") && Less("DEPENDS_ON", "EXTENDS") && Less("EXTENDS", "IMPLEMENTS")
    ensures Less("IMPLEMENTS", "IMPORTS") && Less("IMPORTS", "OVERRIDES")
  {
    assert "IMPLEMENTS"[1..] == "MPLEMENTS" && "MPLEMENTS"[1..] == "PLEMENTS" && "PLEMENTS"[1..] == "LEMENTS";
    assert "IMPORTS"[1..] == "MPORTS" && "MPORTS"[1..] == "PORTS" && "PORTS"[1..] == "ORTS";
    assert Less("LEMENTS", "ORTS");
    assert Less("PLEMENTS", "PORTS");
    assert Less("MPLEMENTS", "MPORTS");
  }

  lemma LeastByName(types: set<RelType>, t: RelType)
    requires t in types && types <= {Calls, Implements, Extends, Overrides, DependsOn, Imports}
    ensures MinType(types) in types && !Less(RelTypeText(t), RelTypeText(MinType(types)))
  {
    NamesInOrder();
    var least := MinType(types);
    LessTrichotomy(RelTypeText(t), RelTypeText(least));
    hide Less;
    AllInOrder(least, t);
  }

  lemma AllInOrder(a: RelType, b: RelType)
    requires Rank(b) <= 5
    ensures Rank(a) < Rank(b) ==> Less(RelTypeText(a), RelTypeText(b))
  {
    NamesInOrder();
    hide Less;
    LessTransitive("CALLS", "DEPENDS_ON", "EXTENDS");
    LessTransitive("CALLS", "EXTENDS", "IMPLEMENTS");
    LessTransitive("CALLS", "IMPLEMENTS", "IMPORTS");
    LessTransitive("CALLS", "IMPORTS", "OVERRIDES");
    LessTransitive("DEPENDS_ON", "EXTENDS", "IMPLEMENTS");
    LessTransitive("DEPENDS_ON", "IMPLEMENTS", "IMPORTS");
    LessTransitive("DEPENDS_ON", "IMPORTS", "OVERRIDES");
    LessTransitive("EXTENDS", "IMPLEMENTS", "IMPORTS");
    LessTransitive("EXTENDS", "IMPORTS", "OVERRIDES");
    LessTransitive("IMPLEMENTS", "IMPORTS", "OVERRIDES");
  }

  ghost function Rank(t: RelType): int {
    match t
    case Calls => 0
    case DependsOn => 1
    case Extends => 2
    case Implements => 3
    case Imports => 4
    case Overrides => 5
    case _ => 6
  }

  lemma LinkTypesAreFirstSteps(arcs: set<EdgeKey>, entry: Id, id: Id, d: nat)
    requires d >= 1
    ensures forall k :: FirstStep(arcs, entry, id, d, k) <==>
            k in arcs && k.from == id && k.to in Shell(arcs, entry, d - 1)
  {
    hide Shell, Distance;
    forall k
      ensures FirstStep(arcs, entry, id, d, k) <==> k in arcs && k.from == id && k.to in Shell(arcs, entry, d - 1)
    {
      ShellIsDistance(arcs, entry, k.to, d - 1);
    }
  }

  lemma SomeFirstStep(arcs: set<EdgeKey>, entry: Id, id: Id, d: nat)
    requires d >= 1 && Distance(arcs, entry, id, d)
    ensures exists k :: FirstStep(arcs, entry, id, d, k)
  {
    var k :| k in arcs && k.from == id && Walk(arcs, entry, k.to, d - 1);
    forall n: nat | Walk(arcs, entry, k.to, n) ensures Walk(arcs, entry, id, n + 1) {
    }
    assert FirstStep(arcs, entry, id, d, k);
  }

  lemma TypeFoundIsFirst(arcs: set<EdgeKey>, entry: Id, id: Id, d: nat)
    requires d >= 1 && Distance(arcs, entry, id, d)
    requires forall k :: k in arcs ==> k.relType in {Calls, Implements, Extends, Overrides, DependsOn, Imports}
    ensures FirstType(arcs, entry, id, d, MinType(LinkTypes(arcs, id, Shell(arcs, entry, d - 1))))
  {
    hide Shell, Distance, MinType, Less, FirstStep;
    LinkTypesAreFirstSteps(arcs, entry, id, d);
    SomeFirstStep(arcs, entry, id, d);
    var types := LinkTypes(arcs, id, Shell(arcs, entry, d - 1));
    forall k | FirstStep(arcs, entry, id, d, k)
      ensures MinType(types) in types && !Less(RelTypeText(k.relType), RelTypeText(MinType(types)))
    {
      assert k.relType in types;
      LeastByName(types, k.relType);
    }
  }

  /** There is only one such type. */
  lemma OneFirstType(arcs: set<EdgeKey>, entry: Id, id: Id, d: nat, t: RelType, u: RelType)
    requires FirstType(arcs, entry, id, d, t) && FirstType(arcs, entry, id, d, u)
    ensures t == u
  {
    hide Less;
    LessTrichotomy(RelTypeText(t), RelTypeText(u));
    WhitelistsReadTheNames(RelTypeText(t), File, t);
    WhitelistsReadTheNames(RelTypeText(t), File, u);
  }

  /**
  On the same arcs a capped run that was not cut short and the uncapped discovery agree, node by node and type by
  type.
  */
  lemma CappedMatchesUncapped(nodes: seq<ImpactNode>, arcs: set<EdgeKey>, entry: Id, maxDepth: nat)
    requires ExactDistances(nodes, arcs, entry, maxDepth)
    requires NodeIds(nodes) == Ball(arcs, entry, maxDepth) - {entry} && TypesRight(nodes, arcs, entry)
    requires forall k :: k in arcs ==> k.relType in {Calls, Implements, Extends, Overrides, DependsOn, Imports}
    ensures var deps := Finish(arcs, StartSearch(entry), maxDepth).deps;
            && deps.Keys == NodeIds(nodes)
            && forall n :: n in nodes ==> n.nodeId in deps && deps[n.nodeId] == DepInfo(n.hopDistance, n.relType)
  {
    hide Finish, Ball, Shell, LinkTypes, MinType, FirstType, Distance;
    DiscoveryIsExact(arcs, entry, maxDepth);
    var deps := Finish(arcs, StartSearch(entry), maxDepth).deps;
    forall n | n in nodes ensures n.nodeId in deps && deps[n.nodeId] == DepInfo(n.hopDistance, n.relType) {
      assert n.nodeId in NodeIds(nodes);
      var dep := deps[n.nodeId];
      DistanceIsUnique(arcs, entry, n.nodeId, n.hopDistance, dep.hopDistance);
      TypeFoundIsFirst(arcs, entry, n.nodeId, n.hopDistance);
      OneFirstType(arcs, entry, n.nodeId, n.hopDistance, n.relType, dep.relType);
    }
  }
}
