/**
What the rows of a batch job mean, in terms of the stored graph: shortest distances, projected arcs and normalized
centralities.
*/
module JobScores {
  import opened Common
  import opened CodeGraph
  import opened Ordering
  import opened Reachability
  import opened Discovery
  import opened Scoring
  import opened GenerationFence

  // ---------------------------------------------------------------- the meaning

  ghost predicate BelongsTo(db: Db, scope: Scope, id: Id) {
    id in db.nodes && db.nodes[id].body.Some? && db.nodes[id].body.value.scope == scope
  }

  /** The stored edges between nodes of the scope that carry impact. */
  ghost function ImpactArcs(db: Db, scope: Scope): set<EdgeKey> {
    set k | k in db.edges && k.relType in {Calls, Implements, Extends, Overrides, DependsOn, Imports}
            && BelongsTo(db, scope, k.from) && BelongsTo(db, scope, k.to)
  }

  ghost predicate IsDependent(arcs: set<EdgeKey>, cfg: JobConfig, id: Id) {
    exists d: nat :: 1 <= d <= cfg.maxDepth && Distance(arcs, cfg.entry, id, d)
  }

  ghost function DependentsOf(db: Db, cfg: JobConfig): set<Id> {
    set id | id in db.nodes && IsDependent(ImpactArcs(db, cfg.scope), cfg, id)
  }

  /** The arcs among the entry and its dependents. */
  ghost function Inner(db: Db, cfg: JobConfig): set<EdgeKey> {
    set k | k in ImpactArcs(db, cfg.scope)
            && k.from in DependentsOf(db, cfg) + {cfg.entry} && k.to in DependentsOf(db, cfg) + {cfg.entry}
  }

  /** Against the dependency. */
  ghost function Reversed(db: Db, cfg: JobConfig): set<ProjectedArc> {
    set k | k in Inner(db, cfg) :: ProjectedArc(k.to, k.from, k.relType)
  }

  ghost function Forward(db: Db, cfg: JobConfig): set<ProjectedArc> {
    set k | k in Inner(db, cfg) :: ProjectedArc(k.from, k.to, k.relType)
  }

  ghost function PageRanks(db: Db, cfg: JobConfig, algo: Algorithms): map<Id, real> {
    if BelongsTo(db, cfg.scope, cfg.entry) then algo.pageRank(Reversed(db, cfg), cfg.entry) else map[]
  }

  ghost function Betweenness(db: Db, cfg: JobConfig, algo: Algorithms): map<Id, real> {
    var arcs := Reversed(db, cfg);
    var projected := (set a | a in arcs :: a.source) + (set a | a in arcs :: a.target);
    algo.betweenness(arcs, if cfg.samplingSize <= 0 then |projected| else cfg.samplingSize)
  }

  ghost predicate ScoreIsRight(cfg: JobConfig, d: nat, ppr: real, bc: real, score: real)
    requires d >= 1
  {
    score == cfg.wPpr * ppr + cfg.wProx / d as real + cfg.wBc * bc
  }

  ghost predicate KindIsRight(t: RelType, kind: string) {
    && (t in {Imports, DependsOn} ==> kind == "module-boundary")
    && (t == Calls ==> kind == "behavioral")
    && (t in {Implements, Extends, Overrides} ==> kind == "syntactic")
  }

  /** The score falls with the exact distance and rises with the two shares; the kind is that of the first step. */
  ghost predicate RowIsRight(db: Db, cfg: JobConfig, algo: Algorithms, id: Id, row: ScoreRow) {
    var arcs := ImpactArcs(db, cfg.scope);
    && (exists d: nat, x: real, y: real ::
          && 1 <= d <= cfg.maxDepth && Distance(arcs, cfg.entry, id, d)
          && IsShare(PageRanks(db, cfg, algo), id, x) && IsShare(Betweenness(db, cfg, algo), id, y)
          && ScoreIsRight(cfg, d, x, y, row.score))
    && (exists d: nat, t: RelType ::
          && Distance(arcs, cfg.entry, id, d) && FirstType(arcs, cfg.entry, id, d, t) && KindIsRight(t, row.impactKind))
    && row.community == (var communities := algo.leiden(Forward(db, cfg));
                         if id in communities then communities[id] else 0)
  }

  /** The rows of a whole job on this graph: one for each dependent within the depth, and all of them right. */
  ghost predicate ScoresAreRight(db: Db, cfg: JobConfig, algo: Algorithms, rows: map<Id, ScoreRow>) {
    && rows.Keys == DependentsOf(db, cfg)
    && forall id :: id in rows ==> RowIsRight(db, cfg, algo, id, rows[id])
  }

  // ---------------------------------------------------------------- and that a job computes it

  lemma ArcsOfView(db: Db, scope: Scope)
    ensures Arcs(ViewOf(db, scope).edges) == ImpactArcs(db, scope)
    ensures forall id :: id in ViewOf(db, scope).nodes <==> BelongsTo(db, scope, id)
  {
  }

  lemma FoundAreDependents(db: Db, cfg: JobConfig)
    ensures Finish(ImpactArcs(db, cfg.scope), StartSearch(cfg.entry), cfg.maxDepth).deps.Keys == DependentsOf(db, cfg)
  {
    hide Finish, Distance, Ball, Walk;
    var arcs := ImpactArcs(db, cfg.scope);
    DiscoveryIsExact(arcs, cfg.entry, cfg.maxDepth);
    var deps := Finish(arcs, StartSearch(cfg.entry), cfg.maxDepth).deps;
    forall id ensures id in deps <==> id in DependentsOf(db, cfg) {
      if id in deps {
        WithinDepth(arcs, cfg.entry, id, deps[id].hopDistance, cfg.maxDepth);
        StartsAtArc(arcs, cfg.entry, id, deps[id].hopDistance);
      }
      if d: nat :| 1 <= d <= cfg.maxDepth && Distance(arcs, cfg.entry, id, d) {
        InBall(arcs, cfg.entry, id, d, cfg.maxDepth);
      }
    }
  }

  lemma WithinDepth(arcs: set<EdgeKey>, entry: Id, id: Id, d: nat, k: nat)
    requires Distance(arcs, entry, id, d) && id in Ball(arcs, entry, k)
    ensures d <= k
  {
    hide Walk, Ball;
    var n := BallHasWalks(arcs, entry, id, k);
  }

  lemma StartsAtArc(arcs: set<EdgeKey>, entry: Id, id: Id, d: nat)
    requires Distance(arcs, entry, id, d) && d >= 1
    ensures exists k :: k in arcs && k.from == id
  {
  }

  lemma InBall(arcs: set<EdgeKey>, entry: Id, id: Id, d: nat, k: nat)
    requires Distance(arcs, entry, id, d) && 1 <= d <= k
    ensures id in Ball(arcs, entry, k) && id != entry
  {
    WalkStaysInBall(arcs, entry, id, d, k);
    assert Walk(arcs, entry, entry, 0);
  }

  /** The rows of a whole job, phase by phase. */
  lemma {:induction false} DiscoveryFinishes(view: View, cfg: JobConfig, algo: Algorithms, s: Search)
    ensures RowsFrom(view, cfg, algo, Discovering(s)) ==
            RowsFrom(view, cfg, algo, Discovering(Finish(Arcs(view.edges), s, cfg.maxDepth)))
    decreases if s.depth < cfg.maxDepth then cfg.maxDepth - s.depth else 0
  {
    hide Arcs, Level;
    if !SearchOver(s, cfg.maxDepth) {
      DiscoveryFinishes(view, cfg, algo, AddLevel(s, Level(Arcs(view.edges), s.frontier, s.visited)));
    }
  }

  lemma {:induction false} FinishIsOver(arcs: set<EdgeKey>, s: Search, maxDepth: nat)
    ensures SearchOver(Finish(arcs, s, maxDepth), maxDepth)
    decreases if s.depth < maxDepth then maxDepth - s.depth else 0
  {
    hide Level;
    if !SearchOver(s, maxDepth) { FinishIsOver(arcs, AddLevel(s, Level(arcs, s.frontier, s.visited)), maxDepth); }
  }

  lemma RowsAfterDiscovery(view: View, cfg: JobConfig, algo: Algorithms, s: Search)
    requires SearchOver(s, cfg.maxDepth)
    ensures var ids := {cfg.entry} + s.deps.Keys;
            var reverse, undirected := ReverseProjection(view, ids), UndirectedProjection(view, ids);
            var ppr := if cfg.entry in view.nodes then algo.pageRank(reverse, cfg.entry) else map[];
            var bc := algo.betweenness(reverse, if cfg.samplingSize <= 0 then NodeCount(reverse) else cfg.samplingSize);
            RowsFrom(view, cfg, algo, Discovering(s)) ==
            if s.deps == map[] then map[] else Combined(cfg, s.deps, ppr, bc, algo.leiden(undirected))
  {
    hide ReverseProjection, UndirectedProjection, NodeCount, Combined;
    var ids := {cfg.entry} + s.deps.Keys;
    var reverse, undirected := ReverseProjection(view, ids), UndirectedProjection(view, ids);
    var ppr := if cfg.entry in view.nodes then algo.pageRank(reverse, cfg.entry) else map[];
    if s.deps == map[] {
      RowsOfNext(view, cfg, algo, Discovering(s), Scored(map[]));
    } else {
      var bc := algo.betweenness(reverse, if cfg.samplingSize <= 0 then NodeCount(reverse) else cfg.samplingSize);
      var rows := Combined(cfg, s.deps, ppr, bc, algo.leiden(undirected));
      hide RowsFrom;
      RowsOfNext(view, cfg, algo, Discovering(s), ReverseProjected(s.deps, reverse));
      RowsOfNext(view, cfg, algo, ReverseProjected(s.deps, reverse), Projected(s.deps, reverse, undirected));
      RowsOfNext(view, cfg, algo, Projected(s.deps, reverse, undirected), Ranked(s.deps, reverse, undirected, ppr));
      RowsOfNext(view, cfg, algo, Ranked(s.deps, reverse, undirected, ppr), Scored(rows));
    }
  }

  lemma RowsOfNext(view: View, cfg: JobConfig, algo: Algorithms, phase: Phase, next: Phase)
    requires !phase.Scored? && next == Advance(view, cfg, algo, phase)
    ensures RowsFrom(view, cfg, algo, phase) == if next.Scored? then next.rows else RowsFrom(view, cfg, algo, next)
  {
    hide Advance;
  }

  lemma ProjectionsAreInner(db: Db, cfg: JobConfig, ids: set<Id>)
    requires ids == {cfg.entry} + DependentsOf(db, cfg)
    ensures ReverseProjection(ViewOf(db, cfg.scope), ids) == Reversed(db, cfg)
    ensures UndirectedProjection(ViewOf(db, cfg.scope), ids) == Forward(db, cfg)
  {
    hide ViewOf, Arcs, DependentsOf, ImpactArcs;
    ArcsOfView(db, cfg.scope);
    assert SubgraphArcs(ViewOf(db, cfg.scope), ids) == Inner(db, cfg);
  }

  /** A whole job on one graph gives right rows, and all of them. */
  lemma JobScoresAreRight(db: Db, cfg: JobConfig, algo: Algorithms)
    ensures ScoresAreRight(db, cfg, algo, JobRows(ViewOf(db, cfg.scope), cfg, algo))
  {
    hide RowsFrom, Finish, Combined, RowIsRight, DependentsOf, ImpactArcs, ViewOf, Arcs, Level;
    hide ReverseProjection, UndirectedProjection, Distance, Ball, Shell, MinType, LinkTypes;
    var view, arcs := ViewOf(db, cfg.scope), ImpactArcs(db, cfg.scope);
    ArcsOfView(db, cfg.scope);
    var s := Finish(arcs, StartSearch(cfg.entry), cfg.maxDepth);
    DiscoveryFinishes(view, cfg, algo, StartSearch(cfg.entry));
    FinishIsOver(arcs, StartSearch(cfg.entry), cfg.maxDepth);
    FoundAreDependents(db, cfg);
    RowsAfterDiscovery(view, cfg, algo, s);
    ProjectionsAreInner(db, cfg, {cfg.entry} + s.deps.Keys);
    var rows := JobRows(view, cfg, algo);
    if s.deps == map[] {
      assert rows.Keys == s.deps.Keys;
    } else {
      assert rows ==
             Combined(cfg, s.deps, PageRanks(db, cfg, algo), Betweenness(db, cfg, algo), algo.leiden(Forward(db, cfg)));
      CombinedRows(cfg, s.deps, PageRanks(db, cfg, algo), Betweenness(db, cfg, algo), algo.leiden(Forward(db, cfg)));
      forall id | id in rows ensures RowIsRight(db, cfg, algo, id, rows[id]) {
        RowFoundIsRight(db, cfg, algo, id);
      }
    }
  }

  lemma RowFoundIsRight(db: Db, cfg: JobConfig, algo: Algorithms, id: Id)
    requires id in Finish(ImpactArcs(db, cfg.scope), StartSearch(cfg.entry), cfg.maxDepth).deps
    ensures var dep := Finish(ImpactArcs(db, cfg.scope), StartSearch(cfg.entry), cfg.maxDepth).deps[id];
            var ppr, bc := PageRanks(db, cfg, algo), Betweenness(db, cfg, algo);
            var communities := algo.leiden(Forward(db, cfg));
            RowIsRight(db, cfg, algo, id,
                       RowOf(cfg, dep, Get(Normalized(ppr), id), Get(Normalized(bc), id),
                             if id in communities then communities[id] else 0))
  {
    hide Finish, Normalized, Get, Distance, Ball, Shell, MinType, LinkTypes, IsShare;
    hide PageRanks, Betweenness, Forward, FirstType;
    var arcs := ImpactArcs(db, cfg.scope);
    DiscoveryIsExact(arcs, cfg.entry, cfg.maxDepth);
    var dep := Finish(arcs, StartSearch(cfg.entry), cfg.maxDepth).deps[id];
    WithinDepth(arcs, cfg.entry, id, dep.hopDistance, cfg.maxDepth);
    TypeFoundIsFirst(arcs, cfg.entry, id, dep.hopDistance);
    NormalizedIsShare(PageRanks(db, cfg, algo), id);
    NormalizedIsShare(Betweenness(db, cfg, algo), id);
    var x, y := Get(Normalized(PageRanks(db, cfg, algo)), id), Get(Normalized(Betweenness(db, cfg, algo)), id);
    OverDistance(cfg.wProx, dep.hopDistance);
    assert ScoreIsRight(cfg, dep.hopDistance, x, y, RowOf(cfg, dep, x, y, 0).score);
    KindOfType(dep.relType);
  }

  lemma OverDistance(w: real, d: nat)
    requires d >= 1
    ensures w * (1.0 / d as real) == w / d as real
  {
  }

  lemma KindOfType(t: RelType)
    ensures KindIsRight(t, ImpactKind(t))
  {
  }

  /**
  In every interleaving, a score that the reader accepts is the right score of a dependent, by the stored graph as it is
  at the read and for a configuration that a job was launched with.
  */
  lemma AcceptedScoresAreRight(init: Sys, steps: seq<Step>, algo: Algorithms, access: Access, id: Id)
    requires Initial(init) && Accepted(Run(init, steps, algo).db, access, id)
    ensures var sys := Run(init, steps, algo);
            exists cfg ::
              && cfg in sys.launched && BelongsTo(sys.db, cfg.scope, id) && id in DependentsOf(sys.db, cfg)
              && RowIsRight(sys.db, cfg, algo, id, sys.db.nodes[id].impact.value.row)
  {
    hide Run, JobRows, RowIsRight, DependentsOf, ViewOf;
    AcceptedScoresAreCurrent(init, steps, algo, access, id);
    var sys := Run(init, steps, algo);
    var stamp := sys.db.nodes[id].impact.value;
    var cfg :| cfg in sys.launched && cfg.scope == stamp.scope
               && id in JobRows(ViewOf(sys.db, stamp.scope), cfg, algo)
               && JobRows(ViewOf(sys.db, stamp.scope), cfg, algo)[id] == stamp.row;
    JobScoresAreRight(sys.db, cfg, algo);
  }
}
