/** The summarizer as it runs: checks, postorder, projection, and the loop over its working dictionaries. */
module RaptorSummarizer {
  import opened Common
  import opened RaptorHierarchy
  import opened RaptorSummaries
  import opened Encoding

  /** The nodes by id; of two nodes with one id the later stands. */
  function ById(nodes: seq<SummaryNode>): Hierarchy {
    if nodes == [] then map[]
    else
      var last := nodes[|nodes| - 1];
      ById(nodes[..|nodes| - 1])[last.nodeId := last]
  }

  ghost predicate DistinctIds(nodes: seq<SummaryNode>) {
    forall i, j :: 0 <= i < j < |nodes| ==> nodes[i].nodeId != nodes[j].nodeId
  }

  lemma {:induction false} ByIdKeys(nodes: seq<SummaryNode>)
    ensures forall id :: id in ById(nodes) <==> exists i :: 0 <= i < |nodes| && nodes[i].nodeId == id
    ensures |ById(nodes)| <= |nodes|
  {
    if nodes != [] {
      var front, last := nodes[..|nodes| - 1], nodes[|nodes| - 1];
      ByIdKeys(front);
      assert ById(nodes).Keys == ById(front).Keys + {last.nodeId};
      forall id | id in ById(front) ensures exists i :: 0 <= i < |nodes| && nodes[i].nodeId == id {
        var i :| 0 <= i < |front| && front[i].nodeId == id;
        assert nodes[i].nodeId == id;
      }
      assert nodes[|nodes| - 1].nodeId == last.nodeId;
      forall i | 0 <= i < |nodes| ensures nodes[i].nodeId in ById(nodes) {
        if i < |front| { assert front[i].nodeId in ById(front); }
      }
    }
  }

  lemma DistinctGrows(front: seq<SummaryNode>, last: SummaryNode)
    ensures DistinctIds(front + [last]) <==> DistinctIds(front) && forall i :: 0 <= i < |front| ==>
              front[i].nodeId != last.nodeId
  {
    var nodes := front + [last];
    if DistinctIds(nodes) {
      forall i, j | 0 <= i < j < |front| ensures front[i].nodeId != front[j].nodeId {
        assert nodes[i].nodeId != nodes[j].nodeId;
      }
      forall i | 0 <= i < |front| ensures front[i].nodeId != last.nodeId {
        assert nodes[i].nodeId != nodes[|front|].nodeId;
      }
    }
  }

  /** Comparing sizes finds every repeated id. */
  lemma {:induction false} SizesTellDuplicates(nodes: seq<SummaryNode>)
    ensures |ById(nodes)| == |nodes| <==> DistinctIds(nodes)
  {
    if nodes != [] {
      var front, last := nodes[..|nodes| - 1], nodes[|nodes| - 1];
      SizesTellDuplicates(front);
      ByIdKeys(front);
      assert nodes == front + [last];
      DistinctGrows(front, last);
      hide DistinctIds;
      assert ById(nodes).Keys == ById(front).Keys + {last.nodeId};
      assert last.nodeId !in ById(front) ==> |ById(nodes)| == |ById(front)| + 1;
      assert last.nodeId in ById(front) ==> ById(nodes).Keys == ById(front).Keys;
    }
  }

  ghost function ViewOf(nodes: Hierarchy, s: Scope, root: Id): View
    requires root in nodes && Visit(nodes, root, []).Some?
  {
    View(nodes, set b | b in Visit(nodes, root, []).value && InView(nodes, s, root, b))
  }

  lemma ViewIsProper(nodes: Hierarchy, s: Scope, root: Id)
    requires root in nodes && Visit(nodes, root, []).Some?
    ensures var v := ViewOf(nodes, s, root);
            Ordered(v, Visit(nodes, root, []).value) && Grounded(v) && IsViewOf(v, s, root)
  {
    hide Visit, BottomUp, InView, Authorized, Grounded, Reaches;
    var v, order := ViewOf(nodes, s, root), Visit(nodes, root, []).value;
    PostorderIsExact(nodes, root);
    assert Ordered(v, order);
    OrderedIsGrounded(v, order);
    forall b | InView(nodes, s, root, b) ensures b in order { ViewIsReached(nodes, s, root, b); }
  }

  lemma ViewIsReached(nodes: Hierarchy, s: Scope, root: Id, b: Id)
    requires InView(nodes, s, root, b)
    ensures Reaches(nodes, root, b)
  {
    var n: nat :| AuthorizedWalk(nodes, s, root, b, n);
    AuthorizedWalkIsWalk(nodes, s, root, b, n, b, 0);
  }

  /** An authorized path down to `p`, followed by a path of `k` links, is a path. */
  lemma {:induction false} AuthorizedWalkIsWalk(nodes: Hierarchy, s: Scope, root: Id, p: Id, n: nat, b: Id, k: nat)
    requires AuthorizedWalk(nodes, s, root, p, n) && Walk(nodes, p, b, k)
    ensures Reaches(nodes, root, b)
    decreases n
  {
    hide Authorized;
    if n > 0 {
      var q :| q in nodes && p in nodes[q].childIds && AuthorizedWalk(nodes, s, root, q, n - 1);
      assert Walk(nodes, q, b, k + 1);
      AuthorizedWalkIsWalk(nodes, s, root, q, n - 1, b, k + 1);
    }
  }

  /** Why a request is refused before any summary is made, in the order the checks are made. */
  ghost function Refusal(m: Machinery, nodes: seq<SummaryNode>, root: Id, sec: SecurityContext): Option<Error> {
    var s := ScopeOf(m, sec);
    if s.None? then Some(NotAuthorized)
    else if !DistinctIds(nodes) then Some(DuplicateNode)
    else if root !in ById(nodes) then Some(NoRoot)
    else if !Authorized(ById(nodes)[root], s.value) then Some(NotAuthorized)
    else if exists b :: Reaches(ById(nodes), root, b) && BadLink(ById(nodes), b) then Some(InvalidHierarchy)
    else None
  }

  lemma AcceptedHasPostorder(m: Machinery, nodes: seq<SummaryNode>, root: Id, sec: SecurityContext)
    requires Refusal(m, nodes, root, sec).None?
    ensures root in ById(nodes) && Visit(ById(nodes), root, []).Some? && ScopeOf(m, sec).Some?
    ensures var v := ViewOf(ById(nodes), ScopeOf(m, sec).value, root);
            Ordered(v, Visit(ById(nodes), root, []).value) && Grounded(v) && IsViewOf(v, ScopeOf(m, sec).value, root)
  {
    hide Visit, Ordered, Grounded, IsViewOf, Reaches, BadLink, Authorized, ScopeOf, DistinctIds, ById;
    PostorderIsExact(ById(nodes), root);
    ViewIsProper(ById(nodes), ScopeOf(m, sec).value, root);
  }

  function AclScope(m: Machinery, s: Scope): string {
    m.scopeDigest(s.tenantId, s.repos, s.groups)
  }

  ghost function AcceptedView(m: Machinery, nodes: seq<SummaryNode>, root: Id, sec: SecurityContext): (v: View)
    requires Refusal(m, nodes, root, sec).None?
    ensures root in ById(nodes) && Visit(ById(nodes), root, []).Some? && ScopeOf(m, sec).Some? && v.nodes == ById(nodes)
    ensures Ordered(v, Visit(ById(nodes), root, []).value) && Grounded(v) && IsViewOf(v, ScopeOf(m, sec).value, root)
  {
    AcceptedHasPostorder(m, nodes, root, sec);
    ViewOf(ById(nodes), ScopeOf(m, sec).value, root)
  }

  /** The run of an accepted request. */
  ghost function AcceptedRun(m: Machinery, nodes: seq<SummaryNode>, root: Id, sec: SecurityContext,
                             cache: map<CacheKey, string>): Outcome
    requires Refusal(m, nodes, root, sec).None?
  {
    var v := AcceptedView(m, nodes, root, sec);
    FullRun(m, v, AclScope(m, ScopeOf(m, sec).value), Visit(ById(nodes), root, []).value, cache)
  }

  function Reply(root: Id, o: Outcome): Result<SummaryResult> {
    if o.error.Some? then Err(o.error.value)
    else Ok(SummaryResult(root, o.progress.summaries, o.progress.hits, o.progress.misses))
  }

  lemma {:induction false} VisibleOfTail(seen: set<Id>, ids: seq<Id>, k: nat)
    requires k < |ids|
    ensures VisibleOf(seen, ids[..k + 1]) == VisibleOf(seen, ids[..k]) + (if ids[k] in seen then [ids[k]] else [])
  {
    if k == 0 {
      assert ids[..1] == [ids[0]] && ids[..0] == [];
      assert ids[..1][1..] == [];
    } else {
      assert ids[..k + 1][1..] == ids[1..][..k] && ids[..k][1..] == ids[1..][..k - 1];
      VisibleOfTail(seen, ids[1..], k - 1);
    }
  }

  lemma {:induction false} ChildSummariesTail(v: View, ids: seq<Id>, summaries: map<Id, string>, k: nat)
    requires k < |ids|
    requires forall c :: c in ids ==> c in v.nodes
    requires forall c :: c in ids && c in v.seen ==> c in summaries
    ensures ChildSummaries(v, ids[..k + 1], summaries) == ChildSummaries(v, ids[..k], summaries)
              + (if ids[k] in v.seen then [ChildSummary(ids[k], v.nodes[ids[k]].level, summaries[ids[k]])] else [])
  {
    if k == 0 {
      assert ids[..1] == [ids[0]] && ids[..0] == [];
      assert ids[..1][1..] == [];
    } else {
      assert ids[..k + 1][1..] == ids[1..][..k] && ids[..k][1..] == ids[1..][..k - 1];
      ChildSummariesTail(v, ids[1..], summaries, k - 1);
    }
  }

  /** The working dictionaries agree with the view on every node already passed. */
  ghost predicate Working(m: Machinery, v: View, done: seq<Id>, visible: map<Id, bool>, complete: map<Id, bool>,
                          hashes: map<Id, string>)
    requires Grounded(v)
  {
    && (forall b :: b in done ==> b in visible && b in complete && visible[b] == (b in v.seen))
    && (forall b :: b in done && b in v.seen ==>
          complete[b] == Whole(v, b) && b in hashes && hashes[b] == EffectiveHash(m, v, b))
  }

  class RaptorSummarizer {
    var m: Machinery
    var cache: map<CacheKey, string>

    constructor (m: Machinery)
      ensures this.m == m && cache == map[]
    {
      this.m, this.cache := m, map[];
    }

    /** The digest of a node's restricted view, child by child. */
    method EffectiveViewHash(ghost v: View, id: Id, n: SummaryNode, visible: map<Id, bool>, hashes: map<Id, string>)
      returns (h: string)
      requires Grounded(v) && id in v.seen && n == v.nodes[id]
      requires forall c :: c in n.childIds ==> c in visible && visible[c] == (c in v.seen)
      requires forall c :: c in n.childIds && c in v.seen ==> c in hashes && hashes[c] == EffectiveHash(m, v, c)
      ensures h == ViewDigest(m, n.astHash, ChildViews(m, v, id))
    {
      hide EffectiveHash, Prefixed;
      ghost var views := ChildViews(m, v, id);
      var start := m.utf8(SUMMARY_VIEW_VERSION) + Prefixed(m.utf8(n.astHash), 4);
      var encoded := start;
      for k := 0 to |n.childIds|
        invariant encoded == start + ChildrenBytes(m, views[..k])
      {
        var c := n.childIds[k];
        assert c in n.childIds && views[..k + 1] == views[..k] + [views[k]];
        ChildrenBytesAppend(m, views[..k], views[k]);
        var mark: Bytes := [if visible[c] then 1 else 0];
        if visible[c] { mark := mark + Prefixed(m.utf8(hashes[c]), 4); }
        assert mark == SeenBytes(m, views[k]);
        encoded := encoded + (Prefixed(m.utf8(c), 4) + mark);
        assert encoded == start + (ChildrenBytes(m, views[..k]) + ChildBytes(m, views[k]));
      }
      assert views[..|n.childIds|] == views;
      return m.digest(encoded);
    }

    method IsComplete(ghost v: View, id: Id, n: SummaryNode, visible: map<Id, bool>, complete: map<Id, bool>)
      returns (all: bool)
      requires Grounded(v) && id in v.seen && n == v.nodes[id]
      requires forall c :: c in n.childIds ==> c in visible && c in complete && visible[c] == (c in v.seen)
      requires forall c :: c in n.childIds && c in v.seen ==> complete[c] == Whole(v, c)
      ensures all == Whole(v, id)
    {
      all := true;
      for k := 0 to |n.childIds|
        invariant all == forall j :: 0 <= j < k ==> n.childIds[j] in v.seen && Whole(v, n.childIds[j])
      {
        var c := n.childIds[k];
        assert c in n.childIds;
        all := all && visible[c] && complete[c];
      }
      assert forall c :: c in n.childIds ==> exists j :: 0 <= j < |n.childIds| && n.childIds[j] == c;
    }

    method VisibleChildren(ghost v: View, n: SummaryNode, visible: map<Id, bool>) returns (ids: seq<Id>)
      requires forall c :: c in n.childIds ==> c in visible && visible[c] == (c in v.seen)
      ensures ids == VisibleOf(v.seen, n.childIds)
    {
      ids := [];
      for k := 0 to |n.childIds|
        invariant ids == VisibleOf(v.seen, n.childIds[..k])
      {
        VisibleOfTail(v.seen, n.childIds, k);
        assert n.childIds[k] in n.childIds;
        if visible[n.childIds[k]] { ids := ids + [n.childIds[k]]; }
      }
      assert n.childIds[..|n.childIds|] == n.childIds;
    }

    method CollectChildren(ghost v: View, nodes: Hierarchy, n: SummaryNode, visible: map<Id, bool>,
                           summaries: map<Id, string>)
      returns (kids: seq<ChildSummary>)
      requires nodes == v.nodes
      requires forall c :: c in n.childIds ==> c in nodes && c in visible && visible[c] == (c in v.seen)
      requires forall c :: c in n.childIds && c in v.seen ==> c in summaries
      ensures kids == ChildSummaries(v, n.childIds, summaries)
    {
      kids := [];
      for k := 0 to |n.childIds|
        invariant kids == ChildSummaries(v, n.childIds[..k], summaries)
      {
        ChildSummariesTail(v, n.childIds, summaries, k);
        var c := n.childIds[k];
        assert c in n.childIds;
        if visible[c] { kids := kids + [ChildSummary(c, nodes[c].level, summaries[c])]; }
      }
      assert n.childIds[..|n.childIds|] == n.childIds;
    }

    /** One node of the view: looked up, or made by the model and stored. */
    method SummarizeNode(ghost v: View, nodes: Hierarchy, aclScope: string, id: Id, visible: map<Id, bool>,
                         hash: string, whole: bool,
                         summaries: map<Id, string>, hits: nat, misses: nat)
      returns (error: Option<Error>, summaries': map<Id, string>, hits': nat, misses': nat)
      requires Grounded(v) && id in v.seen && KidsReady(v, id, summaries) && nodes == v.nodes
      requires hash == EffectiveHash(m, v, id) && whole == Whole(v, id)
      requires forall c :: c in nodes[id].childIds ==> c in visible && visible[c] == (c in v.seen)
      modifies this`cache
      ensures Outcome(Progress(summaries', cache, hits', misses'), error)
                == Step(m, v, aclScope, Progress(summaries, old(cache), hits, misses), id)
    {
      hide EffectiveHash, Whole, VisibleOf;
      summaries', hits', misses', error := summaries, hits, misses, None;
      var n := nodes[id];
      var key := CacheKey(hash, m.fingerprint, aclScope);
      if m.getFails(id) { error := Some(CacheFailure); return; }
      if key in cache {
        if m.blank(cache[key]) { error := Some(CacheFailure); return; }
        summaries', hits' := summaries[id := cache[key]], hits + 1;
        return;
      }
      KidsKnown(v, id);
      var shownIds := VisibleChildren(v, n, visible);
      var kids := CollectChildren(v, nodes, n, visible, summaries);
      hide ChildSummaries;
      var modelNode := if whole then n else n.(source := "", childIds := shownIds, astHash := hash);
      var made := m.model(modelNode, kids);
      if made.None? || m.blank(made.value) { error := Some(ModelFailure); return; }
      if m.put(id) != Raised(false) { cache := cache[key := made.value]; }
      if m.put(id).Raised? { error := Some(CacheFailure); return; }
      summaries', misses' := summaries[id := made.value], misses + 1;
    }

    /** The loop over the postorder, given the projection. */
    method SummarizeInOrder(ghost v: View, nodes: Hierarchy, projected: set<Id>, aclScope: string, order: seq<Id>)
      returns (error: Option<Error>, summaries: map<Id, string>, hits: nat, misses: nat)
      requires Ordered(v, order) && nodes == v.nodes && projected == v.seen
      modifies this`cache
      ensures Outcome(Progress(summaries, cache, hits, misses), error) == FullRun(m, v, aclScope, order, old(cache))
    {
      hide Ordered, Step, EffectiveHash, Whole, BottomUp, Working;
      OrderedIsGrounded(v, order);
      hide Grounded;
      summaries, hits, misses, error := map[], 0, 0, None;
      var visible: map<Id, bool>, complete: map<Id, bool>, hashes: map<Id, string> := map[], map[], map[];
      assert Working(m, v, order[..0], visible, complete, hashes) by { WorkingStarts(m, v); }
      for i := 0 to |order|
        invariant error.None? && Covers(v, order[..i], summaries)
        invariant Working(m, v, order[..i], visible, complete, hashes)
        invariant Run(m, v, aclScope, order, 0, Begin(old(cache))) ==
                  Run(m, v, aclScope, order, i, Progress(summaries, cache, hits, misses))
      {
        var id := order[i];
        NextIsReady(v, order, i, summaries);
        if id !in projected {
          WorkingGrows(m, v, order, i, visible, complete, hashes, false, "");
          StepCovers(v, order, i, summaries, summaries);
          visible, complete := visible[id := false], complete[id := false];
        } else {
          KidsKnown(v, id);
          KidsAreWorked(m, v, order, i, visible, complete, hashes);
          var n := nodes[id];
          var whole := IsComplete(v, id, n, visible, complete);
          var hash := n.astHash;
          if !whole { hash := EffectiveViewHash(v, id, n, visible, hashes); }
          assert hash == EffectiveHash(m, v, id) by { HashIsEffective(m, v, id); }
          ghost var p := Progress(summaries, cache, hits, misses);
          StepAddsOne(m, v, aclScope, p, id);
          var summaries' := map[];
          error, summaries', hits, misses :=
            SummarizeNode(v, nodes, aclScope, id, visible, hash, whole, summaries, hits, misses);
          if error.Some? {
            summaries := summaries';
            return;
          }
          StepCovers(v, order, i, summaries, summaries');
          summaries := summaries';
          WorkingGrows(m, v, order, i, visible, complete, hashes, whole, hash);
          visible, complete, hashes := visible[id := true], complete[id := whole], hashes[id := hash];
        }
      }
    }

    /** The whole request. */
    method Summarize(nodes: seq<SummaryNode>, root: Id, sec: SecurityContext) returns (r: Result<SummaryResult>)
      modifies this`cache
      ensures Refusal(m, nodes, root, sec).Some? ==> r == Err(Refusal(m, nodes, root, sec).value) && cache == old(cache)
      ensures Refusal(m, nodes, root, sec).None? ==>
                && r == Reply(root, AcceptedRun(m, nodes, root, sec, old(cache)))
                && cache == AcceptedRun(m, nodes, root, sec, old(cache)).progress.cache
    {
      hide ScopeOf, Authorized, BadLink, Reaches, Visit, BottomUp, DistinctIds;
      var s := ScopeOf(m, sec);
      if s.None? { return Err(NotAuthorized); }
      var byId := IndexNodes(nodes);
      SizesTellDuplicates(nodes);
      if |byId| != |nodes| { return Err(DuplicateNode); }
      if root !in byId { return Err(NoRoot); }
      if !Authorized(byId[root], s.value) { return Err(NotAuthorized); }
      PostorderIsExact(byId, root);
      var t := new Traversal();
      var ok := t.VisitNode(byId, root);
      if !ok { return Err(InvalidHierarchy); }
      ghost var v := AcceptedView(m, nodes, root, sec);
      assert root in t.order by { ReachesItself(byId, root); }
      var projected := AuthorizedProjection(byId, s.value, root, t.order);
      assert projected == v.seen;
      var error, summaries, hits, misses := SummarizeInOrder(v, byId, projected, AclScope(m, s.value), t.order);
      r := if error.Some? then Err(error.value) else Ok(SummaryResult(root, summaries, hits, misses));
    }
  }

  method IndexNodes(nodes: seq<SummaryNode>) returns (byId: Hierarchy)
    ensures byId == ById(nodes)
  {
    byId := map[];
    for i := 0 to |nodes|
      invariant byId == ById(nodes[..i])
    {
      assert nodes[..i + 1][..i] == nodes[..i];
      byId := byId[nodes[i].nodeId := nodes[i]];
    }
    assert nodes[..|nodes|] == nodes;
  }

  lemma WorkingStarts(m: Machinery, v: View)
    requires Grounded(v)
    ensures Working(m, v, [], map[], map[], map[])
  {
  }

  lemma HashIsEffective(m: Machinery, v: View, id: Id)
    requires Grounded(v) && id in v.seen
    ensures EffectiveHash(m, v, id)
              == if Whole(v, id) then v.nodes[id].astHash else ViewDigest(m, v.nodes[id].astHash, ChildViews(m, v, id))
  {
  }

  lemma WorkingGrows(m: Machinery, v: View, order: seq<Id>, i: nat, visible: map<Id, bool>, complete: map<Id, bool>,
                     hashes: map<Id, string>,
                     whole: bool, hash: string)
    requires Grounded(v) && i < |order| && Working(m, v, order[..i], visible, complete, hashes)
    requires order[i] in v.seen ==> whole == Whole(v, order[i]) && hash == EffectiveHash(m, v, order[i])
    ensures order[i] in v.seen ==>
              Working(m, v, order[..i + 1], visible[order[i] := true], complete[order[i] := whole],
                      hashes[order[i] := hash])
    ensures order[i] !in v.seen ==>
              Working(m, v, order[..i + 1], visible[order[i] := false], complete[order[i] := false], hashes)
  {
    hide Grounded, EffectiveHash, Whole;
    assert order[..i + 1] == order[..i] + [order[i]];
  }

  lemma KidsAreWorked(m: Machinery, v: View, order: seq<Id>, i: nat, visible: map<Id, bool>, complete: map<Id, bool>,
                      hashes: map<Id, string>)
    requires Ordered(v, order) && Grounded(v) && i < |order| && Working(m, v, order[..i], visible, complete, hashes)
    requires order[i] in v.seen
    ensures forall c :: c in v.nodes[order[i]].childIds ==>
              c in order[..i] && c in visible && c in complete && visible[c] == (c in v.seen)
    ensures forall c :: c in v.nodes[order[i]].childIds && c in v.seen ==>
              complete[c] == Whole(v, c) && c in hashes && hashes[c] == EffectiveHash(m, v, c)
  {
    hide EffectiveHash, Whole;
    assert Placed(v.nodes, order[..i], order[i]);
  }

  /**
  End to end, with a model that depends only on its key and a cache of such answers: an accepted request keeps the
  cache sound and fails only if the cache raises. Otherwise the nodes summarized are exactly those reached through
  authorized nodes, each gets its cache-free summary, and hits and misses count them.
  */
  lemma AcceptedRequestIsTransparent(m: Machinery, nodes: seq<SummaryNode>, root: Id, sec: SecurityContext,
                                     cache: map<CacheKey, string>, f: CacheKey -> string)
    requires Refusal(m, nodes, root, sec).None? && Sound(cache, f)
    requires KeyedModel(m, AcceptedView(m, nodes, root, sec), AclScope(m, ScopeOf(m, sec).value), f)
    ensures var v := AcceptedView(m, nodes, root, sec);
            var o := AcceptedRun(m, nodes, root, sec, cache);
            var r := Reply(root, o);
            && Sound(o.progress.cache, f) && (r.Ok? || (r.error == CacheFailure && !Reliable(m, v)))
            && (r.Ok? ==>
                  && r.value.cacheHits + r.value.cacheMisses == |r.value.summaries|
                  && (forall id :: id in r.value.summaries <==> InView(ById(nodes), ScopeOf(m, sec).value, root, id))
                  && forall id :: id in r.value.summaries ==>
                       id in v.seen && Some(r.value.summaries[id]) == Plain(m, v, id))
  {
    hide FullRun, Ordered, KeyedModel, Plain, Grounded, ScopeOf, InView, Visit, ById, Refusal;
    var v, order := AcceptedView(m, nodes, root, sec), Visit(ById(nodes), root, []).value;
    hide AcceptedView;
    var aclScope := AclScope(m, ScopeOf(m, sec).value);
    CachedEqualsUncached(m, v, aclScope, f, order, cache);
    if FullRun(m, v, aclScope, order, cache).error.None? { FinishedRunCoversTheView(m, v, aclScope, order, cache); }
  }
}
