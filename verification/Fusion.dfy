/**
Reciprocal rank fusion of the graph list and the vector list, and the final ranking.

Scores are reals. A contribution is 1/(k + rank); where k + rank is zero the program divides by zero, and every use
below rules that out.
*/
module Fusion {
  import opened Common
  import opened Sorting

  datatype Retrieved = Retrieved(nodeId: string, domain: string, source: string, name: string, sourceText: string,
                                 vectorScore: Option<real>, hopDistance: Option<real>, graphRank: Option<int>,
                                 vectorRank: Option<int>,
                                 rrfScore: real, combinedScore: real, provenance: Option<string>,
                                 payload: map<string, string>)

  /** A ranked appearance of a node in one of the lists. */
  datatype Occurrence = Occurrence(node: Retrieved, rank: int)

  function Contribution(k: int, rank: int): real {
    if k + rank == 0 then 0.0 else 1.0 / (k + rank) as real
  }

  // ---------------------------------------------------------------- merging

  function First(n: Retrieved): Retrieved {
    Retrieved(n.nodeId, n.domain, "fused", n.name, "", n.vectorScore, n.hopDistance, n.graphRank, n.vectorRank, 0.0,
              0.0,
              n.provenance, n.payload)
  }

  function OrElse<T>(a: Option<T>, b: Option<T>): Option<T> {
    if a.Some? then a else b
  }

  function Nearer(a: Option<real>, b: Option<real>): Option<real> {
    if a.Some? && b.Some? then (if b.value < a.value then b else a) else OrElse(a, b)
  }

  /** A further occurrence: the smaller hop distance, and whatever the node still lacks. */
  function Enrich(ex: Retrieved, n: Retrieved): Retrieved {
    ex.(hopDistance := Nearer(ex.hopDistance, n.hopDistance), vectorScore := OrElse(ex.vectorScore, n.vectorScore),
        graphRank := OrElse(ex.graphRank, n.graphRank), vectorRank := OrElse(ex.vectorRank, n.vectorRank),
        provenance := OrElse(ex.provenance, n.provenance), name := if ex.name == "" then n.name else ex.name)
  }

  function Merge(fused: map<string, Retrieved>, o: Occurrence, k: int): map<string, Retrieved> {
    var ex := if o.node.nodeId in fused then Enrich(fused[o.node.nodeId], o.node) else First(o.node);
    fused[o.node.nodeId := ex.(rrfScore := ex.rrfScore + Contribution(k, o.rank))]
  }

  function FuseAll(stream: seq<Occurrence>, k: int): map<string, Retrieved> {
    if stream == [] then map[] else Merge(FuseAll(stream[..|stream| - 1], k), stream[|stream| - 1], k)
  }

  /** The ranked entries of a list, in order. */
  function RankedOf(nodes: seq<Retrieved>, rank: Retrieved -> Option<int>): seq<Occurrence> {
    if nodes == [] then []
    else
      var last := nodes[|nodes| - 1];
      RankedOf(nodes[..|nodes| - 1], rank) + if rank(last).Some? then [Occurrence(last, rank(last).value)] else []
  }

  function GraphRank(n: Retrieved): Option<int> {
    n.graphRank
  }

  function VectorRank(n: Retrieved): Option<int> {
    n.vectorRank
  }

  function VectorScore(n: Retrieved): Option<real> {
    n.vectorScore
  }

  function ProvenanceOf(n: Retrieved): Option<string> {
    n.provenance
  }

  /** Graph first, then vector. */
  function Stream(graph: seq<Retrieved>, vector: seq<Retrieved>): seq<Occurrence> {
    RankedOf(graph, GraphRank) + RankedOf(vector, VectorRank)
  }

  method EnrichNode(known: Retrieved, n: Retrieved) returns (ex: Retrieved)
    ensures ex == Enrich(known, n)
  {
    ex := known;
    if ex.hopDistance.Some? && n.hopDistance.Some? {
      if n.hopDistance.value < ex.hopDistance.value { ex := ex.(hopDistance := n.hopDistance); }
    } else if ex.hopDistance.None? && n.hopDistance.Some? {
      ex := ex.(hopDistance := n.hopDistance);
    }
    if ex.vectorScore.None? { ex := ex.(vectorScore := n.vectorScore); }
    if ex.graphRank.None? { ex := ex.(graphRank := n.graphRank); }
    if ex.vectorRank.None? { ex := ex.(vectorRank := n.vectorRank); }
    if ex.provenance.None? && n.provenance.Some? { ex := ex.(provenance := n.provenance); }
    if ex.name == "" { ex := ex.(name := n.name); }
  }

  class RrfFuser {
    const k: int
    var fused: map<string, Retrieved>

    constructor (k: int)
      ensures this.k == k && fused == map[]
    {
      this.k, this.fused := k, map[];
    }

    method MergeNode(n: Retrieved, rank: Option<int>)
      requires rank.Some? ==> k + rank.value != 0
      modifies this`fused
      ensures fused == if rank.None? then old(fused) else Merge(old(fused), Occurrence(n, rank.value), k)
    {
      hide First, Enrich;
      if rank.None? { return; }
      var contrib := 1.0 / (k + rank.value) as real;
      if n.nodeId !in fused {
        fused := fused[n.nodeId := First(n)];
      } else {
        var ex := EnrichNode(fused[n.nodeId], n);
        fused := fused[n.nodeId := ex];
      }
      fused := fused[n.nodeId := fused[n.nodeId].(rrfScore := fused[n.nodeId].rrfScore + contrib)];
    }

    method Fuse(graph: seq<Retrieved>, vector: seq<Retrieved>)
      requires forall n :: n in graph && n.graphRank.Some? ==> k + n.graphRank.value != 0
      requires forall n :: n in vector && n.vectorRank.Some? ==> k + n.vectorRank.value != 0
      modifies this`fused
      ensures fused == FuseAll(Stream(graph, vector), k)
    {
      hide Merge, Contribution;
      fused := map[];
      assert FuseAll(RankedOf(graph[..0], GraphRank), k) == map[] by { assert graph[..0] == []; }
      var front := RankedOf(graph, GraphRank);
      assert front + RankedOf(vector[..0], VectorRank) == front by { assert vector[..0] == []; }
      hide FuseAll, RankedOf;
      for i := 0 to |graph|
        invariant fused == FuseAll(RankedOf(graph[..i], GraphRank), k)
      {
        FuseOneMore([], graph, GraphRank, i, k);
        MergeNode(graph[i], graph[i].graphRank);
      }
      assert graph[..|graph|] == graph;
      for i := 0 to |vector|
        invariant fused == FuseAll(front + RankedOf(vector[..i], VectorRank), k)
      {
        FuseOneMore(front, vector, VectorRank, i, k);
        MergeNode(vector[i], vector[i].vectorRank);
      }
      assert vector[..|vector|] == vector;
    }
  }

  lemma {:induction false} FuseOneMore(front: seq<Occurrence>, nodes: seq<Retrieved>, rank: Retrieved -> Option<int>,
                                       i: nat, k: int)
    requires i < |nodes|
    ensures var before := FuseAll(front + RankedOf(nodes[..i], rank), k);
            FuseAll(front + RankedOf(nodes[..i + 1], rank), k)
              == if rank(nodes[i]).Some? then Merge(before, Occurrence(nodes[i], rank(nodes[i]).value), k) else before
    ensures [] + RankedOf(nodes[..i], rank) == RankedOf(nodes[..i], rank)
    ensures [] + RankedOf(nodes[..i + 1], rank) == RankedOf(nodes[..i + 1], rank)
  {
    hide Merge;
    var upTo := nodes[..i + 1];
    assert upTo[..|upTo| - 1] == nodes[..i] && upTo[|upTo| - 1] == nodes[i];
    var a := front + RankedOf(nodes[..i], rank);
    if rank(nodes[i]).Some? {
      var o := Occurrence(nodes[i], rank(nodes[i]).value);
      assert front + RankedOf(upTo, rank) == a + [o];
      assert (a + [o])[..|a|] == a;
    } else {
      assert RankedOf(upTo, rank) == RankedOf(nodes[..i], rank);
    }
  }

  // ---------------------------------------------------------------- the closed form

  function For(stream: seq<Occurrence>, id: string): seq<Occurrence> {
    if stream == [] then []
    else For(stream[..|stream| - 1], id) + if stream[|stream| - 1].node.nodeId == id then [stream[|stream| - 1]] else []
  }

  /** The first present value among the occurrences. */
  function FirstPresent<T>(occ: seq<Occurrence>, field: Retrieved -> Option<T>): Option<T> {
    if occ == [] then None else OrElse(FirstPresent(occ[..|occ| - 1], field), field(occ[|occ| - 1].node))
  }

  function FirstName(occ: seq<Occurrence>): string {
    if occ == [] then ""
    else
      var before := FirstName(occ[..|occ| - 1]);
      if before != "" then before else occ[|occ| - 1].node.name
  }

  function NearestHop(occ: seq<Occurrence>): Option<real> {
    if occ == [] then None else Nearer(NearestHop(occ[..|occ| - 1]), occ[|occ| - 1].node.hopDistance)
  }

  function Score(occ: seq<Occurrence>, k: int): real {
    if occ == [] then 0.0 else Score(occ[..|occ| - 1], k) + Contribution(k, occ[|occ| - 1].rank)
  }

  /** A fused node, field by field, from its occurrences. */
  function Closed(id: string, occ: seq<Occurrence>, k: int): Retrieved
    requires occ != []
  {
    Retrieved(id, occ[0].node.domain, "fused", FirstName(occ), "", FirstPresent(occ, VectorScore), NearestHop(occ),
              FirstPresent(occ, GraphRank), FirstPresent(occ, VectorRank), Score(occ, k), 0.0,
              FirstPresent(occ, ProvenanceOf), occ[0].node.payload)
  }

  /** The nearest hop is the least hop distance present. */
  lemma {:induction false} NearestHopIsLeast(occ: seq<Occurrence>)
    ensures NearestHop(occ).None? <==> forall o :: o in occ ==> o.node.hopDistance.None?
    ensures NearestHop(occ).Some? ==>
              && (exists o :: o in occ && o.node.hopDistance == NearestHop(occ))
              && forall o :: o in occ && o.node.hopDistance.Some? ==> NearestHop(occ).value <= o.node.hopDistance.value
  {
    if occ != [] {
      var front, last := occ[..|occ| - 1], occ[|occ| - 1];
      assert occ == front + [last];
      NearestHopIsLeast(front);
      assert last in occ;
      if NearestHop(front).Some? {
        var o :| o in front && o.node.hopDistance == NearestHop(front);
        assert o in occ;
      }
    }
  }

  lemma ClosedGrows(id: string, occ: seq<Occurrence>, o: Occurrence, k: int)
    requires occ != []
    ensures var ex := Enrich(Closed(id, occ, k), o.node);
            Closed(id, occ + [o], k) == ex.(rrfScore := ex.rrfScore + Contribution(k, o.rank))
  {
    assert (occ + [o])[..|occ|] == occ;
  }

  lemma OnePresent<T>(o: Occurrence, field: Retrieved -> Option<T>)
    ensures FirstPresent([o], field) == field(o.node)
  {
    assert [o][..0] == [];
  }

  lemma ClosedStarts(o: Occurrence, k: int)
    ensures Closed(o.node.nodeId, [o], k) ==
            First(o.node).(rrfScore := First(o.node).rrfScore + Contribution(k, o.rank))
  {
    OnePresent(o, VectorScore);
    OnePresent(o, GraphRank);
    OnePresent(o, VectorRank);
    OnePresent(o, ProvenanceOf);
    hide FirstPresent, Contribution;
    assert [o][..0] == [];
    assert FirstName([o]) == o.node.name && NearestHop([o]) == o.node.hopDistance
           && Score([o], k) == Contribution(k, o.rank);
  }

  /** A fused field is that of the first occurrence that has it; a name is the first that is not empty. */
  lemma {:induction false} FirstPresentIsFirst<T>(occ: seq<Occurrence>, field: Retrieved -> Option<T>)
    ensures FirstPresent(occ, field).None? <==> forall i :: 0 <= i < |occ| ==> field(occ[i].node).None?
    ensures FirstPresent(occ, field).Some? ==>
              exists i :: && 0 <= i < |occ| && field(occ[i].node) == FirstPresent(occ, field)
                          && forall j :: 0 <= j < i ==> field(occ[j].node).None?
  {
    if occ != [] {
      var front := occ[..|occ| - 1];
      FirstPresentIsFirst(front, field);
      assert forall i :: 0 <= i < |front| ==> front[i] == occ[i];
      if FirstPresent(front, field).Some? {
        var i :| 0 <= i < |front| && field(front[i].node) == FirstPresent(front, field)
                 && forall j :: 0 <= j < i ==> field(front[j].node).None?;
        assert field(occ[i].node) == FirstPresent(occ, field);
      }
    }
  }

  lemma {:induction false} FirstNameIsFirst(occ: seq<Occurrence>)
    ensures FirstName(occ) == "" <==> forall i :: 0 <= i < |occ| ==> occ[i].node.name == ""
    ensures FirstName(occ) != "" ==>
              exists i :: && 0 <= i < |occ| && occ[i].node.name == FirstName(occ)
                          && forall j :: 0 <= j < i ==> occ[j].node.name == ""
  {
    if occ != [] {
      var front := occ[..|occ| - 1];
      FirstNameIsFirst(front);
      assert forall i :: 0 <= i < |front| ==> front[i] == occ[i];
      if FirstName(front) != "" {
        var i :| 0 <= i < |front| && front[i].node.name == FirstName(front)
                 && forall j :: 0 <= j < i ==> front[j].node.name == "";
        assert occ[i].node.name == FirstName(occ);
      }
    }
  }

  /** Fusing is the closed form: exactly the ranked ids, each with what its own occurrences determine. */
  lemma {:induction false} FusionIsClosedForm(stream: seq<Occurrence>, k: int, id: string)
    ensures id in FuseAll(stream, k) <==> For(stream, id) != []
    ensures id in FuseAll(stream, k) ==> FuseAll(stream, k)[id] == Closed(id, For(stream, id), k)
  {
    hide Closed, Enrich, First, Contribution;
    if stream != [] {
      var front, last := stream[..|stream| - 1], stream[|stream| - 1];
      FusionIsClosedForm(front, k, id);
      if last.node.nodeId == id {
        if For(front, id) == [] {
          ClosedStarts(last, k);
          assert For(stream, id) == [last];
        } else {
          ClosedGrows(id, For(front, id), last, k);
        }
      } else {
        assert For(stream, id) == For(front, id);
      }
    }
  }

  /** One list's share of a node's score. */
  function ListScore(nodes: seq<Retrieved>, rank: Retrieved -> Option<int>, id: string, k: int): real {
    if nodes == [] then 0.0
    else
      var last := nodes[|nodes| - 1];
      ListScore(nodes[..|nodes| - 1], rank, id, k)
      + if last.nodeId == id && rank(last).Some? then Contribution(k, rank(last).value) else 0.0
  }

  ghost predicate RankedIn(nodes: seq<Retrieved>, rank: Retrieved -> Option<int>, id: string) {
    exists n :: n in nodes && n.nodeId == id && rank(n).Some?
  }

  lemma {:induction false} ForAdds(a: seq<Occurrence>, b: seq<Occurrence>, id: string)
    ensures For(a + b, id) == For(a, id) + For(b, id)
  {
    if b == [] {
      assert a + b == a;
    } else {
      assert (a + b)[..|a + b| - 1] == a + b[..|b| - 1];
      ForAdds(a, b[..|b| - 1], id);
    }
  }

  lemma {:induction false} ScoreAdds(a: seq<Occurrence>, b: seq<Occurrence>, k: int)
    ensures Score(a + b, k) == Score(a, k) + Score(b, k)
  {
    hide Contribution;
    if b == [] {
      assert a + b == a;
    } else {
      assert (a + b)[..|a + b| - 1] == a + b[..|b| - 1];
      ScoreAdds(a, b[..|b| - 1], k);
    }
  }

  lemma {:induction false} RankedOne(nodes: seq<Retrieved>, rank: Retrieved -> Option<int>, id: string)
    requires nodes != []
    ensures var front, last := nodes[..|nodes| - 1], nodes[|nodes| - 1];
            For(RankedOf(nodes, rank), id) ==
            For(RankedOf(front, rank), id)
            + if last.nodeId == id && rank(last).Some? then [Occurrence(last, rank(last).value)] else []
  {
    var front, last := nodes[..|nodes| - 1], nodes[|nodes| - 1];
    var before := RankedOf(front, rank);
    if rank(last).Some? {
      var o := Occurrence(last, rank(last).value);
      assert (before + [o])[..|before|] == before;
    } else {
      assert RankedOf(nodes, rank) == before;
    }
  }

  lemma {:induction false} RankedOfId(nodes: seq<Retrieved>, rank: Retrieved -> Option<int>, id: string)
    ensures For(RankedOf(nodes, rank), id) != [] <==> RankedIn(nodes, rank, id)
  {
    if nodes != [] {
      var front, last := nodes[..|nodes| - 1], nodes[|nodes| - 1];
      assert nodes == front + [last];
      RankedOfId(front, rank, id);
      RankedOne(nodes, rank, id);
      hide For, RankedOf;
    }
  }

  lemma ScoreOfOneMore(occ: seq<Occurrence>, o: Occurrence, k: int)
    ensures Score(occ + [o], k) == Score(occ, k) + Contribution(k, o.rank)
  {
    assert (occ + [o])[..|occ|] == occ;
  }

  lemma {:induction false} ListScoreIsScore(nodes: seq<Retrieved>, rank: Retrieved -> Option<int>, id: string, k: int)
    ensures Score(For(RankedOf(nodes, rank), id), k) == ListScore(nodes, rank, id, k)
  {
    hide For, RankedOf, Contribution;
    if nodes == [] {
      NothingRanked(rank, id, k);
    } else {
      var front, last := nodes[..|nodes| - 1], nodes[|nodes| - 1];
      ListScoreIsScore(front, rank, id, k);
      RankedOne(nodes, rank, id);
      var before := For(RankedOf(front, rank), id);
      hide Score;
      if last.nodeId == id && rank(last).Some? {
        ScoreOfOneMore(before, Occurrence(last, rank(last).value), k);
      } else {
        assert before + [] == before;
      }
    }
  }

  lemma Reciprocal(k: int, rank: int)
    requires k + rank != 0
    ensures Contribution(k, rank) * (k + rank) as real == 1.0
  {
  }

  lemma NothingRanked(rank: Retrieved -> Option<int>, id: string, k: int)
    ensures Score(For(RankedOf([], rank), id), k) == 0.0
  {
  }

  /**
  The fused ids are those ranked in either list, and a node's score is the sum of 1/(k + rank) over all its ranked
  entries in both lists.
  */
  lemma FusedScoreSumsBothLists(graph: seq<Retrieved>, vector: seq<Retrieved>, k: int, id: string)
    ensures var fused := FuseAll(Stream(graph, vector), k);
            && (id in fused <==> RankedIn(graph, GraphRank, id) || RankedIn(vector, VectorRank, id))
            && (id in fused ==>
                  fused[id].nodeId == id
                  && fused[id].rrfScore == ListScore(graph, GraphRank, id, k) + ListScore(vector, VectorRank, id, k))
    ensures forall rank :: k + rank != 0 ==> Contribution(k, rank) * (k + rank) as real == 1.0
  {
    forall rank | k + rank != 0 ensures Contribution(k, rank) * (k + rank) as real == 1.0 { Reciprocal(k, rank); }
    hide Contribution;
    var g, v := RankedOf(graph, GraphRank), RankedOf(vector, VectorRank);
    FusionIsClosedForm(g + v, k, id);
    ForAdds(g, v, id);
    ScoreAdds(For(g, id), For(v, id), k);
    ListScoreIsScore(graph, GraphRank, id, k);
    ListScoreIsScore(vector, VectorRank, id, k);
    RankedOfId(graph, GraphRank, id);
    RankedOfId(vector, VectorRank, id);
  }

  // ---------------------------------------------------------------- the ranking

  function Combined(n: Retrieved, beta: real): real
    requires n.hopDistance != Some(-1.0)
  {
    n.rrfScore + beta * (if n.hopDistance.Some? then 1.0 / (1.0 + n.hopDistance.value) else 0.0)
  }

  function CombinedScore(n: Retrieved): real {
    n.combinedScore
  }

  predicate Nearby(fused: map<string, Retrieved>) {
    forall id :: id in fused ==> fused[id].nodeId == id && fused[id].hopDistance != Some(-1.0)
  }

  ghost predicate Scored(fused: map<string, Retrieved>, beta: real, r: Retrieved)
    requires Nearby(fused)
  {
    && r.nodeId in fused && r == fused[r.nodeId].(combinedScore := r.combinedScore)
    && r.combinedScore - r.rrfScore == if r.hopDistance.None? then 0.0 else beta * (1.0 / (1.0 + r.hopDistance.value))
  }

  /** The nodes of these ids, each once, with their combined scores. */
  ghost predicate Collected(fused: map<string, Retrieved>, beta: real, done: set<string>, nodes: seq<Retrieved>)
    requires Nearby(fused)
  {
    && |nodes| == |done|
    && (forall r :: r in nodes ==> Scored(fused, beta, r) && r.nodeId in done)
    && (forall i, j :: 0 <= i < j < |nodes| ==> nodes[i].nodeId != nodes[j].nodeId)
    && (forall id :: id in done ==> exists r :: r in nodes && r.nodeId == id)
  }

  lemma CollectOneMore(fused: map<string, Retrieved>, beta: real, done: set<string>, nodes: seq<Retrieved>,
                       r: Retrieved)
    requires Nearby(fused) && Collected(fused, beta, done, nodes) && Scored(fused, beta, r) && r.nodeId !in done
    ensures Collected(fused, beta, done + {r.nodeId}, nodes + [r])
  {
    hide Scored, Nearby;
    var more := nodes + [r];
    assert forall i :: 0 <= i < |nodes| ==> nodes[i] in nodes;
    forall id | id in done + {r.nodeId} ensures exists x :: x in more && x.nodeId == id {
      if id == r.nodeId {
        assert r in more;
      } else {
        var x :| x in nodes && x.nodeId == id;
        assert x in more;
      }
    }
  }

  lemma CollectedInAnyOrder(fused: map<string, Retrieved>, beta: real, done: set<string>, a: seq<Retrieved>,
                            b: seq<Retrieved>)
    requires Nearby(fused) && Collected(fused, beta, done, a) && multiset(a) == multiset(b)
    ensures Collected(fused, beta, done, b)
  {
    hide Scored, Nearby;
    SameMembers(a, b);
    assert |b| == |multiset(b)| == |multiset(a)| == |a|;
    forall i, j | 0 <= i < j < |b| ensures b[i].nodeId != b[j].nodeId { PermutedOnce(a, b, i, j); }
  }

  method WithCombinedScore(n: Retrieved, beta: real) returns (scored: Retrieved)
    requires n.hopDistance != Some(-1.0)
    ensures scored == n.(combinedScore := Combined(n, beta))
  {
    var prox := 0.0;
    if n.hopDistance.Some? { prox := 1.0 / (1.0 + n.hopDistance.value); }
    scored := n.(combinedScore := n.rrfScore + beta * prox);
  }

  /**
  Every fused node once, with its combined score, by falling score. The map is walked in any order, and the library's
  sort is taken as a sort; the contract leaves the order of equal scores open.
  */
  method ApplyTopologicalProximity(fused: map<string, Retrieved>, beta: real) returns (results: seq<Retrieved>)
    requires Nearby(fused)
    ensures Descending(results, CombinedScore) && Collected(fused, beta, fused.Keys, results)
  {
    hide Collected, Sort, Descending, Combined, Scored, Nearby;
    var rest := fused.Keys;
    ghost var done: set<string> := {};
    var collected: seq<Retrieved> := [];
    assert Collected(fused, beta, {}, []) by { NothingCollected(fused, beta); }
    while rest != {}
      invariant rest + done == fused.Keys && rest !! done && Collected(fused, beta, done, collected)
      decreases |rest|
    {
      var id :| id in rest;
      IsNearby(fused, id);
      var scored := WithCombinedScore(fused[id], beta);
      CombinedIsScored(fused, beta, id);
      CollectOneMore(fused, beta, done, collected, scored);
      collected := collected + [scored];
      rest, done := rest - {id}, done + {id};
    }
    results := Sort(collected, CombinedScore);
    SortIsStable(collected, CombinedScore, 0.0);
    assert done == fused.Keys;
    CollectedInAnyOrder(fused, beta, done, collected, results);
  }

  lemma IsNearby(fused: map<string, Retrieved>, id: string)
    requires Nearby(fused) && id in fused
    ensures fused[id].nodeId == id && fused[id].hopDistance != Some(-1.0)
  {
  }

  lemma CombinedIsScored(fused: map<string, Retrieved>, beta: real, id: string)
    requires Nearby(fused) && id in fused
    ensures Scored(fused, beta, fused[id].(combinedScore := Combined(fused[id], beta)))
  {
  }

  lemma NothingCollected(fused: map<string, Retrieved>, beta: real)
    requires Nearby(fused)
    ensures Collected(fused, beta, {}, [])
  {
  }
}
