/**
The batch job as it runs: its phases in order, with the rest of the world at work before every query, a failure
possible at any of them, and the cleanup of its in-memory projections on the way out.
*/
module GdsJob {
  import opened Common
  import opened CodeGraph
  import opened Reachability
  import opened Discovery
  import opened Scoring
  import opened GenerationFence
  import opened JobScores

  datatype Query =
    | CaptureQuery | LevelQuery(depth: nat) | ReverseQuery | UndirectedQuery | AfterProjectHook
    | PageRankQuery | BetweennessQuery | LeidenQuery | WriteQuery

  /** The query that fails, if one does; a lost query took effect although its answer did not arrive. */
  datatype Fault = Fault(at: Query, lost: bool)

  predicate External(jid: nat, step: Step) {
    match step
    case SinkNode(_, _, _) => true
    case SinkRelation(_, _) => true
    case _ => step.jid != jid
  }

  lemma ExternalKeepsJob(sys: Sys, step: Step, algo: Algorithms, jid: nat)
    requires External(jid, step)
    ensures jid in Next(sys, step, algo).jobs <==> jid in sys.jobs
    ensures jid in sys.jobs ==> Next(sys, step, algo).jobs[jid] == sys.jobs[jid]
  {
    hide MergeNode, MergeRelation, Capture, Advance, WriteBack;
  }

  lemma RunExtends(sys: Sys, trace: seq<Step>, step: Step, algo: Algorithms)
    ensures Run(sys, trace + [step], algo) == Next(Run(sys, trace, algo), step, algo)
  {
    assert (trace + [step])[..|trace|] == trace;
  }

  /** One read of the job, seen from its own state. */
  lemma ReadAdvances(sys: Sys, jid: nat, algo: Algorithms)
    requires jid in sys.jobs
    ensures var next := Next(sys, JobRead(jid), algo);
            && jid in next.jobs && next.db == sys.db
            && next.jobs[jid] == sys.jobs[jid].(phase := Advance(ViewOf(sys.db, sys.jobs[jid].cfg.scope),
                                                                 sys.jobs[jid].cfg, algo, sys.jobs[jid].phase))
  {
    hide Advance, ViewOf;
  }

  /** What a job leaves in the catalog: projections whose answer was lost, and those whose drop failed. */
  function Leaked(fault: Option<Fault>, reverse: string, undirected: string, undroppable: set<string>): set<string> {
    match fault
    case Some(Fault(ReverseQuery, lost)) => if lost then {reverse} else {}
    case Some(Fault(UndirectedQuery, lost)) => (undroppable * {reverse}) + if lost then {undirected} else {}
    case _ => undroppable * {reverse, undirected}
  }

  /** A write-back whose fence holds wrote exactly what a job on the graph as it then stands computes. */
  lemma CommittedRowsAreCurrent(init: Sys, trace: seq<Step>, algo: Algorithms, jid: nat)
    requires Initial(init) && jid in Run(init, trace, algo).jobs
    requires var sys := Run(init, trace, algo);
             var job := sys.jobs[jid];
             job.phase.Scored? && FenceHolds(sys.db, job.cfg.scope, job.generation, job.phase.rows.Keys)
    ensures var sys := Run(init, trace, algo);
            var job := sys.jobs[jid];
            job.phase.rows == JobRows(ViewOf(Next(sys, JobWrite(jid), algo).db, job.cfg.scope), job.cfg, algo)
  {
    hide Run, JobRows, ViewOf;
    var sys := Run(init, trace, algo);
    var job := sys.jobs[jid];
    RunKeepsInvariant(init, trace, algo);
    assert JobFollows(sys.db, algo, job);
    assert RowsFrom(ViewOf(sys.db, job.cfg.scope), job.cfg, algo, job.phase) == job.phase.rows;
    WriteBackKeepsFence(sys.db, job.cfg.scope, job.generation, job.phase.rows);
  }

  // ---------------------------------------------------------------- an undisturbed job

  /** The generation of a scope; a record that does not exist yet would be created at 0. */
  function GenerationOf(db: Db, scope: Scope): int {
    if scope in db.partitions then db.partitions[scope] else 0
  }

  lemma GenerationNeverFalls(sys: Sys, step: Step, algo: Algorithms, scope: Scope)
    ensures GenerationOf(sys.db, scope) <= GenerationOf(Next(sys, step, algo).db, scope)
  {
    hide ViewOf, Advance, WithBody, FenceHolds;
    NextKeepsFence(sys, step, algo);
  }

  lemma {:induction false} GenerationRises(init: Sys, trace: seq<Step>, k: nat, algo: Algorithms, scope: Scope)
    requires k <= |trace|
    ensures GenerationOf(Run(init, trace[..k], algo).db, scope) <= GenerationOf(Run(init, trace, algo).db, scope)
    decreases |trace|
  {
    hide Next;
    if k == |trace| {
      assert trace[..k] == trace;
    } else {
      var front := trace[..|trace| - 1];
      assert front[..k] == trace[..k];
      GenerationRises(init, front, k, algo, scope);
      GenerationNeverFalls(Run(init, front, algo), trace[|trace| - 1], algo, scope);
    }
  }

  /** The nodes that a job has found so far. */
  function Found(phase: Phase): set<Id> {
    match phase
    case Discovering(s) => s.deps.Keys
    case ReverseProjected(deps, _) => deps.Keys
    case Projected(deps, _, _) => deps.Keys
    case Ranked(deps, _, _, _) => deps.Keys
    case Scored(rows) => rows.Keys
  }

  /** A job that only reads one partition graph scores nodes of that graph, as the fence of the write-back wants it. */
  lemma {:induction false} ScoresStayInView(db: Db, cfg: JobConfig, algo: Algorithms, phase: Phase)
    requires TargetsInScope(db, cfg.scope, Found(phase))
    ensures TargetsInScope(db, cfg.scope, RowsFrom(ViewOf(db, cfg.scope), cfg, algo, phase).Keys)
    decreases RoundsLeft(cfg, phase)
  {
    if !phase.Scored? {
      AdvanceStaysInView(db, cfg, algo, phase);
      ScoresStayInView(db, cfg, algo, Advance(ViewOf(db, cfg.scope), cfg, algo, phase));
    }
  }

  lemma AdvanceStaysInView(db: Db, cfg: JobConfig, algo: Algorithms, phase: Phase)
    requires TargetsInScope(db, cfg.scope, Found(phase))
    ensures TargetsInScope(db, cfg.scope, Found(Advance(ViewOf(db, cfg.scope), cfg, algo, phase)))
  {
    hide ReverseProjection, UndirectedProjection, MinType;
    if phase.Discovering? && !SearchOver(phase.search, cfg.maxDepth) {
      var s, arcs := phase.search, Arcs(ViewOf(db, cfg.scope).edges);
      var rows := Level(arcs, s.frontier, s.visited);
      forall id | id in rows ensures id in db.nodes && db.nodes[id].Owner() == Some(cfg.scope) {
        var k :| k in arcs && k.from == id;
        assert InScope(db, cfg.scope, k.from);
      }
      assert AddLevel(s, rows).deps.Keys == s.deps.Keys + rows.Keys;
    }
  }

  /** While its generation has not moved, the write-back of a scored job finds its fence in place. */
  lemma UnmovedGenerationHolds(init: Sys, trace: seq<Step>, algo: Algorithms, jid: nat)
    requires Initial(init) && jid in Run(init, trace, algo).jobs
    requires var sys := Run(init, trace, algo);
             var job := sys.jobs[jid];
             job.phase.Scored? && job.generation == GenerationOf(sys.db, job.cfg.scope)
    ensures var sys := Run(init, trace, algo);
            var job := sys.jobs[jid];
            FenceHolds(sys.db, job.cfg.scope, job.generation, job.phase.rows.Keys)
  {
    hide Run, ViewOf;
    var sys := Run(init, trace, algo);
    var job := sys.jobs[jid];
    RunKeepsInvariant(init, trace, algo);
    assert JobFollows(sys.db, algo, job);
    ScoresStayInView(sys.db, job.cfg, algo, Discovering(StartSearch(job.cfg.entry)));
    assert RowsFrom(ViewOf(sys.db, job.cfg.scope), job.cfg, algo, job.phase) == job.phase.rows;
  }

  /** A first level without rows ends the search, and a whole job on that graph then has none either. */
  lemma NothingFound(view: View, cfg: JobConfig, algo: Algorithms)
    requires cfg.maxDepth > 0
    requires var s := StartSearch(cfg.entry);
             AddLevel(s, Level(Arcs(view.edges), s.frontier, s.visited)).deps == map[]
    ensures var s := StartSearch(cfg.entry);
            AddLevel(s, Level(Arcs(view.edges), s.frontier, s.visited)).frontier == {}
    ensures JobRows(view, cfg, algo) == map[]
  {
    hide Level, Arcs, ReverseProjection, UndirectedProjection, Combined;
    var s := StartSearch(cfg.entry);
    var rows := Level(Arcs(view.edges), s.frontier, s.visited);
    var next := AddLevel(s, rows);
    assert next.deps.Keys == s.deps.Keys + rows.Keys;
    assert RowsFrom(view, cfg, algo, Discovering(s)) == RowsFrom(view, cfg, algo, Discovering(next));
    assert Advance(view, cfg, algo, Discovering(next)) == Scored(map[]);
  }

  class GdsImpactJob {
    const jid: nat
    const algo: Algorithms
    ghost const init: Sys
    var world: Sys
    ghost var trace: seq<Step>
    var catalog: map<string, set<ProjectedArc>>

    ghost predicate Tracks()
      reads this
    {
      Initial(init) && world == Run(init, trace, algo)
    }

    ghost predicate Owns(cfg: JobConfig, generation: int, phase: Phase)
      reads this
    {
      Tracks() && jid in world.jobs && world.jobs[jid] == Job(cfg, generation, phase)
    }

    constructor (jid: nat, algo: Algorithms, world: Sys, ghost init: Sys, ghost trace: seq<Step>,
                 catalog: map<string, set<ProjectedArc>>)
      requires Initial(init) && world == Run(init, trace, algo)
      ensures Tracks() && this.jid == jid && this.algo == algo && this.world == world && this.catalog == catalog
      ensures this.trace == trace
    {
      this.jid, this.algo, this.init, this.world, this.trace, this.catalog := jid, algo, init, world, trace, catalog;
    }

    method Record(step: Step)
      requires Tracks()
      modifies this`world, this`trace
      ensures Tracks() && trace == old(trace) + [step] && world == Next(old(world), step, algo)
    {
      hide Next, Initial;
      RunExtends(init, trace, step, algo);
      world := Next(world, step, algo);
      trace := trace + [step];
    }

    /** Everyone else, between two queries of this job. */
    method Interfere(others: seq<Step>)
      requires Tracks() && forall s :: s in others ==> External(jid, s)
      modifies this`world, this`trace
      ensures Tracks() && old(trace) <= trace
      ensures jid in world.jobs <==> jid in old(world).jobs
      ensures jid in world.jobs ==> world.jobs[jid] == old(world).jobs[jid]
    {
      hide Tracks, External, Next;
      for i := 0 to |others|
        invariant Tracks() && old(trace) <= trace
        invariant jid in world.jobs <==> jid in old(world).jobs
        invariant jid in world.jobs ==> world.jobs[jid] == old(world).jobs[jid]
      {
        ExternalKeepsJob(world, others[i], algo, jid);
        Record(others[i]);
      }
    }

    /** The job is over without a write. */
    method Abandon()
      requires Tracks()
      modifies this`world, this`trace
      ensures Tracks() && old(trace) <= trace && jid !in world.jobs && world.db == old(world.db)
    {
      Record(JobCrash(jid));
    }

    /** A read of the job, once its outcome has been worked out. */
    method ReadDone(ghost cfg: JobConfig, ghost generation: int, ghost phase: Phase, ghost next: Phase)
      requires Owns(cfg, generation, phase) && next == Advance(ViewOf(world.db, cfg.scope), cfg, algo, phase)
      modifies this`world, this`trace
      ensures Owns(cfg, generation, next) && old(trace) <= trace && world.db == old(world.db)
    {
      hide Next, Advance, ViewOf, Initial;
      ReadAdvances(world, jid, algo);
      Record(JobRead(jid));
    }

    /** The level queries, each against the graph as it is by then. */
    method DiscoverLevels(cfg: JobConfig, ghost generation: int, others: Query -> seq<Step>, fault: Option<Fault>)
      returns (ok: bool, s: Search)
      requires Owns(cfg, generation, Discovering(StartSearch(cfg.entry))) && cfg.maxDepth > 0
      requires forall q, x :: x in others(q) ==> External(jid, x)
      modifies this`world, this`trace
      ensures old(trace) <= trace
      ensures if ok then Owns(cfg, generation, Discovering(s)) && SearchOver(s, cfg.maxDepth)
              else Tracks() && fault.Some? && fault.value.at.LevelQuery?
      ensures ok && s.deps == map[] ==> JobRows(ViewOf(world.db, cfg.scope), cfg, algo) == map[]
    {
      hide External, ViewOf, Level, AddLevel, Initial, Run, JobRows;
      s := StartSearch(cfg.entry);
      while !SearchOver(s, cfg.maxDepth)
        invariant Owns(cfg, generation, Discovering(s)) && old(trace) <= trace
        invariant s == StartSearch(cfg.entry) ||
                  (s.deps == map[] ==> s.frontier == {} && JobRows(ViewOf(world.db, cfg.scope), cfg, algo) == map[])
        decreases cfg.maxDepth - s.depth
      {
        Interfere(others(LevelQuery(s.depth)));
        if fault.Some? && fault.value.at == LevelQuery(s.depth) { return false, s; }
        var rows := Level(Arcs(ViewOf(world.db, cfg.scope).edges), s.frontier, s.visited);
        ghost var before := s;
        s := AddLevel(s, rows);
        LevelDeepens(before, rows);
        if s.deps == map[] {
          if before == StartSearch(cfg.entry) { NothingFound(ViewOf(world.db, cfg.scope), cfg, algo); }
        }
        ReadDone(cfg, generation, Discovering(before), Discovering(s));
      }
      ok := true;
    }

    /** The two projections, one query each; a name is reported back only once its query has answered. */
    method CreateProjections(cfg: JobConfig, ghost generation: int, s: Search, others: Query -> seq<Step>,
                             fault: Option<Fault>,
                             reverseName: string, undirectedName: string)
      returns (ok: bool, created: seq<string>, reverse: set<ProjectedArc>, undirected: set<ProjectedArc>)
      requires Owns(cfg, generation, Discovering(s)) && SearchOver(s, cfg.maxDepth) && s.deps != map[]
      requires forall q, x :: x in others(q) ==> External(jid, x)
      requires reverseName != undirectedName
      modifies this`world, this`trace, this`catalog
      ensures old(trace) <= trace && forall name :: name !in [reverseName, undirectedName] ==>
                SameEntry(old(catalog), catalog, name)
      ensures if ok then
                && Owns(cfg, generation, Projected(s.deps, reverse, undirected))
                && created == [reverseName, undirectedName]
                && catalog.Keys == old(catalog).Keys + {reverseName, undirectedName}
                && (fault.None? || (fault.value.at != ReverseQuery && fault.value.at != UndirectedQuery))
              else
                && Tracks() && fault.Some?
                && if fault.value.at == ReverseQuery then
                     created == [] && catalog.Keys == old(catalog).Keys + if fault.value.lost then {reverseName} else {}
                   else
                     && fault.value.at == UndirectedQuery && created == [reverseName]
                     && catalog.Keys == old(catalog).Keys + {reverseName} + if fault.value.lost then {undirectedName}
                                                                            else {}
    {
      hide External, ViewOf, Initial, Run, ReverseProjection, UndirectedProjection, SearchOver, Advance, SameEntry;
      ghost var before := catalog;
      created, reverse, undirected := [], {}, {};
      var ids := {cfg.entry} + s.deps.Keys;
      Interfere(others(ReverseQuery));
      reverse := ReverseProjection(ViewOf(world.db, cfg.scope), ids);
      EntriesAdded(before, reverseName, reverse, undirectedName, undirected);
      if fault.Some? && fault.value.at == ReverseQuery {
        if fault.value.lost { catalog := catalog[reverseName := reverse]; }
        return false, created, reverse, undirected;
      }
      catalog, created := catalog[reverseName := reverse], [reverseName];
      AdvanceProjects(ViewOf(world.db, cfg.scope), cfg, algo, s, reverse);
      ReadDone(cfg, generation, Discovering(s), ReverseProjected(s.deps, reverse));
      Interfere(others(UndirectedQuery));
      undirected := UndirectedProjection(ViewOf(world.db, cfg.scope), ids);
      EntriesAdded(before, reverseName, reverse, undirectedName, undirected);
      if fault.Some? && fault.value.at == UndirectedQuery {
        if fault.value.lost { catalog := catalog[undirectedName := undirected]; }
        return false, created, reverse, undirected;
      }
      catalog, created := catalog[undirectedName := undirected], created + [undirectedName];
      AdvanceProjects(ViewOf(world.db, cfg.scope), cfg, algo, s, reverse);
      ReadDone(cfg, generation, ReverseProjected(s.deps, reverse), Projected(s.deps, reverse, undirected));
      ok := true;
    }

    /** Each drop is tried on its own; a failure is only logged. */
    method DropProjections(names: seq<string>, undroppable: set<string>)
      modifies this`catalog
      ensures catalog.Keys == old(catalog).Keys - (Elements(names) - undroppable)
      ensures forall name :: name !in names ==> SameEntry(old(catalog), catalog, name)
    {
      for i := 0 to |names|
        invariant catalog.Keys == old(catalog).Keys - (Elements(names[..i]) - undroppable)
        invariant forall name :: name !in names ==> SameEntry(old(catalog), catalog, name)
      {
        ElementsOfPrefix(names, i);
        if names[i] !in undroppable { catalog := catalog - {names[i]}; }
      }
      assert names[..|names|] == names;
    }

    /** The algorithms on the projections, and the combination of what they give. */
    method RunAlgorithms(cfg: JobConfig, ghost captured: int, deps: map<Id, DepInfo>, reverse: set<ProjectedArc>,
                         undirected: set<ProjectedArc>, others: Query -> seq<Step>, fault: Option<Fault>)
      returns (ok: bool, rows: map<Id, ScoreRow>)
      requires Owns(cfg, captured, Projected(deps, reverse, undirected))
      requires forall q, x :: x in others(q) ==> External(jid, x)
      modifies this`world, this`trace
      ensures old(trace) <= trace && if ok then Owns(cfg, captured, GenerationFence.Scored(rows))
                                     else Tracks() && fault.Some?
    {
      hide External, ViewOf, Initial, Run, Combined, NodeCount;
      ok, rows := false, map[];
      if fault.Some? && fault.value.at == AfterProjectHook { return; }
      Interfere(others(PageRankQuery));
      if fault.Some? && fault.value.at == PageRankQuery { return; }
      var ppr := if cfg.entry in ViewOf(world.db, cfg.scope).nodes then algo.pageRank(reverse, cfg.entry) else map[];
      ReadDone(cfg, captured, Projected(deps, reverse, undirected), Ranked(deps, reverse, undirected, ppr));
      Interfere(others(BetweennessQuery));
      if fault.Some? && fault.value.at == BetweennessQuery { return; }
      var sampling := if cfg.samplingSize <= 0 then NodeCount(reverse) else cfg.samplingSize;
      var betweenness := algo.betweenness(reverse, sampling);
      Interfere(others(LeidenQuery));
      if fault.Some? && fault.value.at == LeidenQuery { return; }
      rows := CombineScores(cfg, deps, ppr, betweenness, algo.leiden(undirected));
      ReadDone(cfg, captured, Ranked(deps, reverse, undirected, ppr), GenerationFence.Scored(rows));
      ok := true;
    }

    /** The scores, and the fenced write. */
    method ScoreAndWrite(cfg: JobConfig, captured: int, deps: map<Id, DepInfo>, reverse: set<ProjectedArc>,
                         undirected: set<ProjectedArc>, others: Query -> seq<Step>, fault: Option<Fault>)
      returns (ok: bool, scores: map<Id, ScoreRow>)
      requires Owns(cfg, captured, Projected(deps, reverse, undirected))
      requires forall q, x :: x in others(q) ==> External(jid, x)
      modifies this`world, this`trace
      ensures Tracks() && old(trace) <= trace && jid !in world.jobs
      ensures ok ==>
                scores == JobRows(ViewOf(world.db, cfg.scope), cfg, algo) && AllStamped(world.db, cfg.scope, scores)
      ensures fault.None? && GenerationOf(world.db, cfg.scope) == captured ==> ok
    {
      hide External, ViewOf, Initial, Run, JobRows, GenerationOf, AllStamped;
      scores := map[];
      var scored, rows := RunAlgorithms(cfg, captured, deps, reverse, undirected, others, fault);
      if !scored { Abandon(); return false, scores; }
      Interfere(others(WriteQuery));
      if fault.Some? && fault.value.at == WriteQuery && !fault.value.lost { Abandon(); return false, scores; }
      ok, scores := Write(cfg, captured, rows);
      if fault.Some? && fault.value.at == WriteQuery { ok := false; }
    }

    /** The write-back reports success only when its fence held. */
    method Write(cfg: JobConfig, captured: int, rows: map<Id, ScoreRow>) returns (ok: bool, scores: map<Id, ScoreRow>)
      requires Owns(cfg, captured, GenerationFence.Scored(rows))
      modifies this`world, this`trace
      ensures Tracks() && old(trace) <= trace && jid !in world.jobs && scores == rows
      ensures ok ==>
                scores == JobRows(ViewOf(world.db, cfg.scope), cfg, algo) && AllStamped(world.db, cfg.scope, scores)
      ensures GenerationOf(world.db, cfg.scope) == captured ==> ok
    {
      hide ViewOf, Initial, Run, JobRows, FenceHolds, WriteBack, GenerationOf, AllStamped;
      WrittenRowsAreStamped(world.db, cfg.scope, captured, rows);
      WritingKeepsGenerations(world, jid, algo, cfg.scope);
      if GenerationOf(world.db, cfg.scope) == captured { UnmovedGenerationHolds(init, trace, algo, jid); }
      ok := FenceHolds(world.db, cfg.scope, captured, rows.Keys);
      if ok { CommittedRowsAreCurrent(init, trace, algo, jid); }
      scores := rows;
      Record(JobWrite(jid));
    }

    /**
    Everything after the discovery; the projections are dropped on the way out, whether or not the rest succeeded.
    */
    method ProjectAndScore(cfg: JobConfig, captured: int, s: Search, others: Query -> seq<Step>, fault: Option<Fault>,
                           reverseName: string, undirectedName: string, undroppable: set<string>)
      returns (ok: bool, scores: map<Id, ScoreRow>)
      requires Owns(cfg, captured, Discovering(s)) && SearchOver(s, cfg.maxDepth) && s.deps != map[]
      requires forall q, x :: x in others(q) ==> External(jid, x)
      requires reverseName != undirectedName && reverseName !in catalog && undirectedName !in catalog
      modifies this`world, this`trace, this`catalog
      ensures Tracks() && old(trace) <= trace && jid !in world.jobs
      ensures ok ==>
                scores == JobRows(ViewOf(world.db, cfg.scope), cfg, algo) && AllStamped(world.db, cfg.scope, scores)
      ensures fault.None? && GenerationOf(world.db, cfg.scope) == captured ==> ok
      ensures KeepsEntries(old(catalog), catalog)
      ensures catalog.Keys == old(catalog).Keys + Leaked(fault, reverseName, undirectedName, undroppable)
    {
      hide External, ViewOf, Initial, Run, JobRows, GenerationOf, AllStamped, KeepsEntries, SameEntry, SearchOver;
      ok, scores := false, map[];
      ghost var before := catalog;
      var fine, created, reverse, undirected :=
        CreateProjections(cfg, captured, s, others, fault, reverseName, undirectedName);
      ghost var during := catalog;
      if fine { ok, scores := ScoreAndWrite(cfg, captured, s.deps, reverse, undirected, others, fault); }
      else { Abandon(); }
      DropProjections(created, undroppable);
      EntriesKept(before, during, catalog, reverseName, undirectedName, created);
    }

    /**
    The whole job. A success means that the scores are right by the stored graph as it stands at the end, whatever
    happened in between, and that they stand in the graph under its current generation; and without a fault a valid
    job does succeed if the generation of its partition is at the end what it was at the start. The catalog keeps
    every other projection, and of this job's own exactly those whose creating query lost its answer or whose drop
    failed.
    */
    method RunJob(cfg: JobConfig, scopeValid: bool, others: Query -> seq<Step>, fault: Option<Fault>,
                  reverseName: string,
                  undirectedName: string, undroppable: set<string>)
      returns (ok: bool, scores: map<Id, ScoreRow>, projected: bool)
      requires Tracks() && jid !in world.jobs
      requires forall q, x :: x in others(q) ==> External(jid, x)
      requires reverseName != undirectedName && reverseName !in catalog && undirectedName !in catalog
      modifies this`world, this`trace, this`catalog
      ensures Tracks() && old(trace) <= trace && jid !in world.jobs
      ensures ok ==> ScoresAreRight(world.db, cfg, algo, scores) && AllStamped(world.db, cfg.scope, scores)
      ensures fault.None? && cfg.entry != "" && scopeValid && cfg.maxDepth > 0
              && 0 <= GenerationOf(old(world).db, cfg.scope) == GenerationOf(world.db, cfg.scope) ==>
                ok
      ensures KeepsEntries(old(catalog), catalog)
      ensures catalog.Keys == old(catalog).Keys + if projected then
        Leaked(fault, reverseName, undirectedName, undroppable) else {}
    {
      hide External, ViewOf, Initial, Run, JobRows, GenerationOf, AllStamped, ScoresAreRight;
      ok, scores, projected := false, map[], false;
      ghost var start := trace;
      if cfg.entry == "" || !scopeValid || cfg.maxDepth == 0 { return; }
      Interfere(others(CaptureQuery));
      if fault.Some? && fault.value.at == CaptureQuery && !fault.value.lost { return; }
      StartsDiscovering(world, jid, cfg, algo);
      Record(StartJob(jid, cfg));
      ghost var begun := trace;
      GenerationBetween(start, begun, cfg.scope);
      if jid !in world.jobs { return; }
      if fault.Some? && fault.value.at == CaptureQuery { Abandon(); return; }
      var captured := world.jobs[jid].generation;
      var found, s := DiscoverLevels(cfg, captured, others, fault);
      if !found { Abandon(); return; }
      if s.deps == map[] {
        Abandon();
        JobScoresAreRight(world.db, cfg, algo);
        NothingToStamp(world.db, cfg.scope);
        return true, map[], false;
      }
      projected := true;
      ok, scores := ProjectAndScore(cfg, captured, s, others, fault, reverseName, undirectedName, undroppable);
      GenerationBetween(begun, trace, cfg.scope);
      JobScoresAreRight(world.db, cfg, algo);
    }

    lemma GenerationBetween(before: seq<Step>, after: seq<Step>, scope: Scope)
      requires before <= after
      ensures GenerationOf(Run(init, before, algo).db, scope) <= GenerationOf(Run(init, after, algo).db, scope)
    {
      assert after[..|before|] == before;
      GenerationRises(init, after, |before|, algo, scope);
    }
  }

  lemma AdvanceProjects(view: View, cfg: JobConfig, algo: Algorithms, s: Search, reverse: set<ProjectedArc>)
    requires SearchOver(s, cfg.maxDepth) && s.deps != map[]
    ensures var ids := {cfg.entry} + s.deps.Keys;
            && Advance(view, cfg, algo, Discovering(s)) == ReverseProjected(s.deps, ReverseProjection(view, ids))
            && Advance(view, cfg, algo, ReverseProjected(s.deps, reverse)) ==
               Projected(s.deps, reverse, UndirectedProjection(view, ids))
  {
    hide ReverseProjection, UndirectedProjection;
  }

  /** Every score stands on its node, under the scope and its current generation. */
  ghost predicate AllStamped(db: Db, scope: Scope, scores: map<Id, ScoreRow>) {
    forall id :: id in scores ==>
      && BelongsTo(db, scope, id) && scope in db.partitions
      && db.nodes[id].impact == Some(Stamp(scores[id], scope, db.partitions[scope]))
  }

  lemma NothingToStamp(db: Db, scope: Scope)
    ensures AllStamped(db, scope, map[])
  {
  }

  lemma WrittenRowsAreStamped(db: Db, scope: Scope, generation: int, rows: map<Id, ScoreRow>)
    ensures FenceHolds(db, scope, generation, rows.Keys) ==>
              AllStamped(WriteBack(db, scope, generation, rows), scope, rows)
  {
  }

  lemma WritingKeepsGenerations(sys: Sys, jid: nat, algo: Algorithms, scope: Scope)
    ensures GenerationOf(Next(sys, JobWrite(jid), algo).db, scope) == GenerationOf(sys.db, scope)
  {
    hide FenceHolds;
  }

  predicate SameEntry(before: map<string, set<ProjectedArc>>, after: map<string, set<ProjectedArc>>, name: string) {
    (name in before <==> name in after) && (name in before ==> after[name] == before[name])
  }

  lemma EntriesAdded(before: map<string, set<ProjectedArc>>, a: string, x: set<ProjectedArc>, b: string,
                     y: set<ProjectedArc>)
    ensures forall name :: SameEntry(before, before, name)
    ensures forall name :: name !in [a, b] ==>
              SameEntry(before, before[a := x], name) && SameEntry(before, before[a := x][b := y], name)
  {
  }

  ghost predicate KeepsEntries(before: map<string, set<ProjectedArc>>, after: map<string, set<ProjectedArc>>) {
    forall name :: name in before ==> SameEntry(before, after, name)
  }

  lemma EntriesKept(before: map<string, set<ProjectedArc>>, during: map<string, set<ProjectedArc>>,
                    after: map<string, set<ProjectedArc>>,
                    reverseName: string, undirectedName: string, created: seq<string>)
    requires reverseName !in before && undirectedName !in before
    requires forall name :: name !in [reverseName, undirectedName] ==> SameEntry(before, during, name)
    requires forall name :: name !in created ==> SameEntry(during, after, name)
    requires forall name :: name in created ==> name in [reverseName, undirectedName]
    ensures KeepsEntries(before, after)
  {
    forall name | name in before ensures SameEntry(before, after, name) {
      assert name !in [reverseName, undirectedName];
      assert SameEntry(before, during, name) && SameEntry(during, after, name);
    }
  }

  lemma StartsDiscovering(sys: Sys, jid: nat, cfg: JobConfig, algo: Algorithms)
    requires jid !in sys.jobs
    ensures var next := Next(sys, StartJob(jid, cfg), algo);
            && (jid in next.jobs ==>
                  && next.jobs[jid].cfg == cfg && next.jobs[jid].phase == Discovering(StartSearch(cfg.entry))
                  && next.jobs[jid].generation == GenerationOf(next.db, cfg.scope) >= 0)
            && (jid !in next.jobs && cfg.entry != "" && cfg.maxDepth > 0 ==> GenerationOf(next.db, cfg.scope) < 0)
  {
    hide StartSearch;
  }

  lemma LevelDeepens(s: Search, rows: map<Id, RelType>)
    ensures AddLevel(s, rows).depth == s.depth + 1
    ensures AddLevel(s, rows).deps == map[] ==> s.deps == map[]
  {
    assert s.deps.Keys <= AddLevel(s, rows).deps.Keys;
  }
}
