/**
Runs in which sink merges, batch jobs and readers interleave freely.

A job captures the generation of its partition, then reads the graph query by query, each time from
whatever state the graph is in by then, and finally writes scores back under the fence.
*/
module GenerationFence {
  import opened Common
  import opened CodeGraph
  import opened Reachability
  import opened Discovery
  import opened Scoring

  /** An arc of an in-memory projection; the type only keeps parallel arcs apart. */
  datatype ProjectedArc = ProjectedArc(source: Id, target: Id, relType: RelType)

  /** The graph algorithms, as opaque functions of what they are given. */
  datatype Algorithms = Algorithms(
    pageRank: (set<ProjectedArc>, Id) -> map<Id, real>,
    betweenness: (set<ProjectedArc>, int) -> map<Id, real>,
    leiden: set<ProjectedArc> -> map<Id, int>)

  datatype Phase =
    | Discovering(search: Search)
    | ReverseProjected(deps: map<Id, DepInfo>, reverse: set<ProjectedArc>)
    | Projected(deps: map<Id, DepInfo>, reverse: set<ProjectedArc>, undirected: set<ProjectedArc>)
    | Ranked(deps: map<Id, DepInfo>, reverse: set<ProjectedArc>, undirected: set<ProjectedArc>, ppr: map<Id, real>)
    | Scored(rows: map<Id, ScoreRow>)

  datatype Job = Job(cfg: JobConfig, generation: int, phase: Phase)

  // ---------------------------------------------------------------- one job

  function SubgraphArcs(view: View, ids: set<Id>): set<EdgeKey> {
    set k | k in Arcs(view.edges) && k.from in ids && k.to in ids
  }

  function ReverseProjection(view: View, ids: set<Id>): set<ProjectedArc> {
    set k | k in SubgraphArcs(view, ids) :: ProjectedArc(k.to, k.from, k.relType)
  }

  function UndirectedProjection(view: View, ids: set<Id>): set<ProjectedArc> {
    set k | k in SubgraphArcs(view, ids) :: ProjectedArc(k.from, k.to, k.relType)
  }

  function NodeCount(projection: set<ProjectedArc>): nat {
    |(set a | a in projection :: a.source) + (set a | a in projection :: a.target)|
  }

  /** The next phase of a job that reads `view` now. */
  function Advance(view: View, cfg: JobConfig, algo: Algorithms, phase: Phase): Phase {
    match phase
    case Discovering(s) =>
      if !SearchOver(s, cfg.maxDepth) then Discovering(AddLevel(s, Level(Arcs(view.edges), s.frontier, s.visited)))
      else if s.deps == map[] then Scored(map[])
      else ReverseProjected(s.deps, ReverseProjection(view, {cfg.entry} + s.deps.Keys))
    case ReverseProjected(deps, reverse) =>
      Projected(deps, reverse, UndirectedProjection(view, {cfg.entry} + deps.Keys))
    case Projected(deps, reverse, undirected) =>
      Ranked(deps, reverse, undirected, if cfg.entry in view.nodes then algo.pageRank(reverse, cfg.entry) else map[])
    case Ranked(deps, reverse, undirected, ppr) =>
      var sampling := if cfg.samplingSize <= 0 then NodeCount(reverse) else cfg.samplingSize;
      Scored(Combined(cfg, deps, ppr, algo.betweenness(reverse, sampling), algo.leiden(undirected)))
    case Scored(_) => phase
  }

  function RoundsLeft(cfg: JobConfig, phase: Phase): nat {
    match phase
    case Discovering(s) => 4 + (if s.depth < cfg.maxDepth then cfg.maxDepth - s.depth else 0)
    case ReverseProjected(_, _) => 3
    case Projected(_, _, _) => 2
    case Ranked(_, _, _, _) => 1
    case Scored(_) => 0
  }

  /** The rows that the rest of the job computes when every read from here on sees `view`. */
  function RowsFrom(view: View, cfg: JobConfig, algo: Algorithms, phase: Phase): map<Id, ScoreRow>
    decreases RoundsLeft(cfg, phase)
  {
    if phase.Scored? then phase.rows
    else RowsFrom(view, cfg, algo, Advance(view, cfg, algo, phase))
  }

  /** The rows that a whole job computes from one partition graph. */
  function JobRows(view: View, cfg: JobConfig, algo: Algorithms): map<Id, ScoreRow> {
    RowsFrom(view, cfg, algo, Discovering(StartSearch(cfg.entry)))
  }

  // ---------------------------------------------------------------- the whole system

  /** `launched` records every configuration a job was started with; no step reads it. */
  datatype Sys = Sys(db: Db, jobs: map<nat, Job>, launched: set<JobConfig>)

  datatype Step =
    | SinkNode(id: Id, nodeType: NodeType, body: Body)
    | SinkRelation(key: EdgeKey, weight: Option<int>)
    | StartJob(jid: nat, cfg: JobConfig)
    | JobRead(jid: nat)
    | JobWrite(jid: nat)
    | JobCrash(jid: nat)

  function StartJobStep(sys: Sys, jid: nat, cfg: JobConfig): Sys {
    if jid in sys.jobs || cfg.entry == "" || cfg.maxDepth == 0 then sys
    else
      var db := Capture(sys.db, cfg.scope);
      var g := db.partitions[cfg.scope];
      if g < 0 then sys.(db := db)
      else Sys(db, sys.jobs[jid := Job(cfg, g, Discovering(StartSearch(cfg.entry)))], sys.launched + {cfg})
  }

  function Next(sys: Sys, step: Step, algo: Algorithms): Sys {
    match step
    case SinkNode(id, nodeType, body) => sys.(db := MergeNode(sys.db, id, nodeType, body))
    case SinkRelation(key, weight) => sys.(db := MergeRelation(sys.db, key, weight))
    case StartJob(jid, cfg) => StartJobStep(sys, jid, cfg)
    case JobRead(jid) =>
      if jid !in sys.jobs then sys
      else
        var job := sys.jobs[jid];
        sys.(jobs := sys.jobs[jid := job.(phase := Advance(ViewOf(sys.db, job.cfg.scope), job.cfg, algo, job.phase))])
    case JobWrite(jid) =>
      if jid !in sys.jobs || !sys.jobs[jid].phase.Scored? then sys
      else
        var job := sys.jobs[jid];
        Sys(WriteBack(sys.db, job.cfg.scope, job.generation, job.phase.rows), sys.jobs - {jid}, sys.launched)
    case JobCrash(jid) => sys.(jobs := sys.jobs - {jid})
  }

  function Run(sys: Sys, steps: seq<Step>, algo: Algorithms): Sys {
    if steps == [] then sys
    else Next(Run(sys, steps[..|steps| - 1], algo), steps[|steps| - 1], algo)
  }

  /** Any graph without scores, and no job running. */
  ghost predicate Initial(sys: Sys) {
    sys.jobs == map[] && forall id :: id in sys.db.nodes ==> sys.db.nodes[id].impact.None?
  }

  // ---------------------------------------------------------------- the invariant

  /** While the captured generation is current, the job so far is what the current graph gives. */
  ghost predicate JobFollows(db: Db, algo: Algorithms, job: Job) {
    var s := job.cfg.scope;
    && s in db.partitions && job.generation <= db.partitions[s]
    && (job.generation == db.partitions[s] ==>
          RowsFrom(ViewOf(db, s), job.cfg, algo, job.phase) == JobRows(ViewOf(db, s), job.cfg, algo))
  }

  /** While its generation is current, a stamp holds what some launched job computes from the current graph. */
  ghost predicate StampFollows(db: Db, launched: set<JobConfig>, algo: Algorithms, id: Id, stamp: Stamp) {
    var s := stamp.scope;
    && s in db.partitions && stamp.generation <= db.partitions[s]
    && (stamp.generation == db.partitions[s] ==> Justified(ViewOf(db, s), launched, algo, id, stamp))
  }

  ghost predicate Justified(view: View, launched: set<JobConfig>, algo: Algorithms, id: Id, stamp: Stamp) {
    exists cfg :: cfg in launched && cfg.scope == stamp.scope
                  && id in JobRows(view, cfg, algo) && JobRows(view, cfg, algo)[id] == stamp.row
  }

  ghost predicate Invariant(sys: Sys, algo: Algorithms) {
    && (forall jid :: jid in sys.jobs ==> sys.jobs[jid].cfg in sys.launched && JobFollows(sys.db, algo, sys.jobs[jid]))
    && (forall id :: id in sys.db.nodes && sys.db.nodes[id].impact.Some? ==>
          StampFollows(sys.db, sys.launched, algo, id, sys.db.nodes[id].impact.value))
  }

  lemma FenceKeepsJob(before: Db, after: Db, algo: Algorithms, job: Job)
    requires FenceStep(before, after) && JobFollows(before, algo, job)
    ensures JobFollows(after, algo, job)
  {
  }

  lemma FenceKeepsStamp(before: Db, after: Db, launched: set<JobConfig>, more: set<JobConfig>, algo: Algorithms,
                        id: Id, stamp: Stamp)
    requires FenceStep(before, after) && StampFollows(before, launched, algo, id, stamp) && launched <= more
    ensures StampFollows(after, more, algo, id, stamp)
  {
  }

  /** A step that keeps the fence and only carries stamps along keeps the invariant of every job and stamp. */
  lemma FenceKeepsInvariant(before: Sys, after: Sys, algo: Algorithms)
    requires Invariant(before, algo) && FenceStep(before.db, after.db)
    requires before.launched <= after.launched
    requires forall jid :: jid in after.jobs ==> jid in before.jobs && after.jobs[jid] == before.jobs[jid]
    requires forall id :: id in after.db.nodes && after.db.nodes[id].impact.Some? ==>
               id in before.db.nodes && before.db.nodes[id].impact == after.db.nodes[id].impact
    ensures Invariant(after, algo)
  {
    forall jid | jid in after.jobs ensures JobFollows(after.db, algo, after.jobs[jid]) {
      FenceKeepsJob(before.db, after.db, algo, after.jobs[jid]);
    }
    forall id | id in after.db.nodes && after.db.nodes[id].impact.Some?
      ensures StampFollows(after.db, after.launched, algo, id, after.db.nodes[id].impact.value)
    {
      FenceKeepsStamp(before.db, after.db, before.launched, after.launched, algo, id, after.db.nodes[id].impact.value);
    }
  }

  lemma StartKeepsInvariant(sys: Sys, jid: nat, cfg: JobConfig, algo: Algorithms)
    requires Invariant(sys, algo)
    ensures Invariant(StartJobStep(sys, jid, cfg), algo)
  {
    var db := Capture(sys.db, cfg.scope);
    CaptureKeepsFence(sys.db, cfg.scope);
    var captured := Sys(db, sys.jobs, sys.launched + {cfg});
    FenceKeepsInvariant(sys, captured, algo);
    FenceKeepsInvariant(sys, sys.(db := db), algo);
  }

  lemma {:induction false} WriteKeepsInvariant(sys: Sys, jid: nat, algo: Algorithms)
    requires Invariant(sys, algo) && jid in sys.jobs && sys.jobs[jid].phase.Scored?
    ensures Invariant(Next(sys, JobWrite(jid), algo), algo)
  {
    var after, job := Next(sys, JobWrite(jid), algo), sys.jobs[jid];
    var s, rows := job.cfg.scope, job.phase.rows;
    WriteBackKeepsFence(sys.db, s, job.generation, rows);
    forall j | j in after.jobs ensures JobFollows(after.db, algo, after.jobs[j]) {
      FenceKeepsJob(sys.db, after.db, algo, after.jobs[j]);
    }
    forall id | id in after.db.nodes && after.db.nodes[id].impact.Some?
      ensures StampFollows(after.db, after.launched, algo, id, after.db.nodes[id].impact.value)
    {
      if FenceHolds(sys.db, s, job.generation, rows.Keys) && id in rows {
        assert rows == JobRows(ViewOf(sys.db, s), job.cfg, algo);
        assert ViewOf(after.db, s) == ViewOf(sys.db, s);
        assert Justified(ViewOf(after.db, s), after.launched, algo, id, after.db.nodes[id].impact.value);
      } else {
        FenceKeepsStamp(sys.db, after.db, sys.launched, after.launched, algo, id, after.db.nodes[id].impact.value);
      }
    }
  }

  lemma NextKeepsInvariant(sys: Sys, step: Step, algo: Algorithms)
    requires Invariant(sys, algo)
    ensures Invariant(Next(sys, step, algo), algo)
  {
    var after := Next(sys, step, algo);
    match step
    case SinkNode(id, nodeType, body) =>
      MergeNodeKeepsFence(sys.db, id, nodeType, body);
      FenceKeepsInvariant(sys, after, algo);
    case SinkRelation(key, weight) =>
      MergeRelationKeepsFence(sys.db, key, weight);
      FenceKeepsInvariant(sys, after, algo);
    case StartJob(jid, cfg) =>
      StartKeepsInvariant(sys, jid, cfg, algo);
    case JobRead(jid) =>
    case JobWrite(jid) =>
      if jid in sys.jobs && sys.jobs[jid].phase.Scored? { WriteKeepsInvariant(sys, jid, algo); }
    case JobCrash(jid) =>
  }

  lemma {:induction false} RunKeepsInvariant(sys: Sys, steps: seq<Step>, algo: Algorithms)
    requires Initial(sys)
    ensures Invariant(Run(sys, steps, algo), algo)
  {
    if steps != [] {
      RunKeepsInvariant(sys, steps[..|steps| - 1], algo);
      NextKeepsInvariant(Run(sys, steps[..|steps| - 1], algo), steps[|steps| - 1], algo);
    }
  }

  // ---------------------------------------------------------------- the main results

  /**
  In every interleaving, a score that the reader accepts is one that a launched job computes, start to
  end, from the partition graph exactly as it stands at the read.
  */
  lemma AcceptedScoresAreCurrent(init: Sys, steps: seq<Step>, algo: Algorithms, access: Access, id: Id)
    requires Initial(init)
    requires Accepted(Run(init, steps, algo).db, access, id)
    ensures var sys := Run(init, steps, algo);
            var scope := sys.db.nodes[id].Owner().value;
            Justified(ViewOf(sys.db, scope), sys.launched, algo, id, sys.db.nodes[id].impact.value)
            && sys.db.nodes[id].impact.value.scope == scope
  {
    RunKeepsInvariant(init, steps, algo);
  }

  lemma {:induction false} NextKeepsFence(sys: Sys, step: Step, algo: Algorithms)
    ensures FenceStep(sys.db, Next(sys, step, algo).db)
  {
    match step
    case SinkNode(id, nodeType, body) => MergeNodeKeepsFence(sys.db, id, nodeType, body);
    case SinkRelation(key, weight) => MergeRelationKeepsFence(sys.db, key, weight);
    case StartJob(jid, cfg) => CaptureKeepsFence(sys.db, cfg.scope);
    case JobRead(jid) =>
    case JobWrite(jid) =>
      if jid in sys.jobs && sys.jobs[jid].phase.Scored? {
        var job := sys.jobs[jid];
        WriteBackKeepsFence(sys.db, job.cfg.scope, job.generation, job.phase.rows);
      }
    case JobCrash(jid) =>
  }

  lemma {:induction false} RunKeepsFence(sys: Sys, steps: seq<Step>, k: nat, algo: Algorithms)
    requires k <= |steps|
    ensures FenceStep(Run(sys, steps[..k], algo).db, Run(sys, steps, algo).db)
  {
    if k == |steps| {
      assert steps[..k] == steps;
    } else {
      var front := steps[..|steps| - 1];
      RunKeepsFence(sys, front, k, algo);
      assert front[..k] == steps[..k];
      NextKeepsFence(Run(sys, front, algo), steps[|steps| - 1], algo);
    }
  }

  /** An unmoved generation means that the partition graph stood still at every moment in between. */
  lemma {:induction false} EqualGenerationMeansStillness(sys: Sys, steps: seq<Step>, k: nat, s: Scope, algo: Algorithms)
    requires k <= |steps| && s in sys.db.partitions
    requires s in Run(sys, steps, algo).db.partitions && Run(sys, steps, algo).db.partitions[s] == sys.db.partitions[s]
    ensures ViewOf(Run(sys, steps[..k], algo).db, s) == ViewOf(sys.db, s)
  {
    RunKeepsFence(sys, steps, 0, algo);
    RunKeepsFence(sys, steps, k, algo);
    RunKeepsFence(sys, steps[..k], 0, algo);
    assert steps[..0] == [] && steps[..k][..0] == [];
  }

  lemma {:induction false} JobKeepsItsCapture(sys: Sys, steps: seq<Step>, jid: nat, algo: Algorithms)
    requires jid in sys.jobs && jid in Run(sys, steps, algo).jobs
    requires forall i :: 0 <= i < |steps| ==> !(steps[i].StartJob? && steps[i].jid == jid)
    ensures Run(sys, steps, algo).jobs[jid].cfg == sys.jobs[jid].cfg
    ensures Run(sys, steps, algo).jobs[jid].generation == sys.jobs[jid].generation
  {
    if steps != [] {
      var front, last := steps[..|steps| - 1], steps[|steps| - 1];
      assert jid in Run(sys, front, algo).jobs by { assert !(last.StartJob? && last.jid == jid); }
      JobKeepsItsCapture(sys, front, jid, algo);
    }
  }

  /**
  From the capture to a write-back that commits, no node and no edge of the job's partition changed,
  however many separate reads the job made in between.
  */
  lemma CommittedWriteBackProvesStillness(sys: Sys, steps: seq<Step>, k: nat, jid: nat, algo: Algorithms)
    requires k <= |steps| && jid in sys.jobs && jid in Run(sys, steps, algo).jobs
    requires forall i :: 0 <= i < |steps| ==> !(steps[i].StartJob? && steps[i].jid == jid)
    requires var job := sys.jobs[jid];
             job.cfg.scope in sys.db.partitions && job.generation == sys.db.partitions[job.cfg.scope]
    requires var job := Run(sys, steps, algo).jobs[jid];
             job.phase.Scored?
             && FenceHolds(Run(sys, steps, algo).db, job.cfg.scope, job.generation, job.phase.rows.Keys)
    ensures ViewOf(Run(sys, steps[..k], algo).db, sys.jobs[jid].cfg.scope) == ViewOf(sys.db, sys.jobs[jid].cfg.scope)
  {
    JobKeepsItsCapture(sys, steps, jid, algo);
    EqualGenerationMeansStillness(sys, steps, k, sys.jobs[jid].cfg.scope, algo);
  }
}
