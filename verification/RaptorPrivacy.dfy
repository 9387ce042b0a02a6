/**
What a summary may depend on. Readability is stated over labels and paths, and what the model is shown over the stored
nodes, so that nothing here rests on how a view is computed.
*/
module RaptorPrivacy {
  import opened Common
  import opened RaptorHierarchy
  import opened RaptorSummaries
  import opened RaptorSummarizer

  // ---------------------------------------------------------------- who may read what

  ghost predicate MayRead(m: Machinery, sec: SecurityContext, n: SummaryNode) {
    && m.validLabel(n.tenantId) && m.validLabel(n.repo) && m.validLabel(n.aclGroup)
    && n.tenantId == sec.tenantId && n.repo in sec.allowedRepos && n.aclGroup in sec.aclGroups
  }

  /** A path of containment links from the root down to `b`, all of it readable. */
  ghost predicate ReadablePath(m: Machinery, sec: SecurityContext, nodes: Hierarchy, root: Id, path: seq<Id>, b: Id) {
    && path != [] && path[0] == root && path[|path| - 1] == b
    && (forall i :: 0 <= i < |path| ==> path[i] in nodes && MayRead(m, sec, nodes[path[i]]))
    && forall i :: 0 <= i < |path| - 1 ==> path[i + 1] in nodes[path[i]].childIds
  }

  ghost predicate Readable(m: Machinery, sec: SecurityContext, nodes: Hierarchy, root: Id, b: Id) {
    exists path :: ReadablePath(m, sec, nodes, root, path, b)
  }

  ghost predicate AllReadableBelow(m: Machinery, sec: SecurityContext, nodes: Hierarchy, id: Id) {
    forall b :: Reaches(nodes, id, b) ==> b in nodes && MayRead(m, sec, nodes[b])
  }

  /** A scope is accepted exactly when all its labels are valid and neither list is empty or too long. */
  ghost predicate AcceptableScope(m: Machinery, sec: SecurityContext) {
    && m.validLabel(sec.tenantId) && m.validLabel(sec.userId)
    && 0 < |sec.allowedRepos| <= 128 && 0 < |sec.aclGroups| <= 128
    && (forall i :: 0 <= i < |sec.allowedRepos| ==> m.validLabel(sec.allowedRepos[i]))
    && forall i :: 0 <= i < |sec.aclGroups| ==> m.validLabel(sec.aclGroups[i])
  }

  lemma ScopeIsAccepted(m: Machinery, sec: SecurityContext)
    ensures ScopeOf(m, sec).Some? <==> AcceptableScope(m, sec)
    ensures forall n :: ScopeOf(m, sec).Some? ==> (Authorized(n, ScopeOf(m, sec).value) <==> MayRead(m, sec, n))
  {
    assert MAX_SCOPE_VALUES == 128;
  }

  lemma {:induction false} PathIsWalk(m: Machinery, sec: SecurityContext, nodes: Hierarchy, root: Id, path: seq<Id>,
                                      b: Id)
    requires ScopeOf(m, sec).Some? && ReadablePath(m, sec, nodes, root, path, b)
    ensures InView(nodes, ScopeOf(m, sec).value, root, b)
    decreases |path|
  {
    ScopeIsAccepted(m, sec);
    hide ScopeOf, Authorized, MayRead, InView;
    if |path| > 1 {
      var front := path[..|path| - 1];
      PathIsWalk(m, sec, nodes, root, front, front[|front| - 1]);
      ViewSpreads(nodes, ScopeOf(m, sec).value, root, front[|front| - 1], b);
    } else {
      RootIsInView(nodes, ScopeOf(m, sec).value, root);
    }
  }

  lemma RootIsInView(nodes: Hierarchy, s: Scope, root: Id)
    requires root in nodes && Authorized(nodes[root], s)
    ensures InView(nodes, s, root, root)
  {
    assert AuthorizedWalk(nodes, s, root, root, 0);
  }

  lemma {:induction false} WalkIsPath(m: Machinery, sec: SecurityContext, nodes: Hierarchy, root: Id, b: Id, n: nat)
    requires ScopeOf(m, sec).Some? && AuthorizedWalk(nodes, ScopeOf(m, sec).value, root, b, n)
    ensures Readable(m, sec, nodes, root, b)
    decreases n
  {
    ScopeIsAccepted(m, sec);
    hide ScopeOf, Authorized, MayRead;
    if n == 0 {
      assert ReadablePath(m, sec, nodes, root, [b], b);
    } else {
      var p :| p in nodes && b in nodes[p].childIds && AuthorizedWalk(nodes, ScopeOf(m, sec).value, root, p, n - 1);
      WalkIsPath(m, sec, nodes, root, p, n - 1);
      var path :| ReadablePath(m, sec, nodes, root, path, p);
      assert ReadablePath(m, sec, nodes, root, path + [b], b);
    }
  }

  /** The view is what can be reached along readable paths. */
  lemma ReadableIsInView(m: Machinery, sec: SecurityContext, nodes: Hierarchy, root: Id, b: Id)
    requires ScopeOf(m, sec).Some?
    ensures Readable(m, sec, nodes, root, b) <==> InView(nodes, ScopeOf(m, sec).value, root, b)
  {
    hide ScopeOf, AuthorizedWalk, ReadablePath;
    if path :| ReadablePath(m, sec, nodes, root, path, b) { PathIsWalk(m, sec, nodes, root, path, b); }
    if n: nat :| AuthorizedWalk(nodes, ScopeOf(m, sec).value, root, b, n) { WalkIsPath(m, sec, nodes, root, b, n); }
  }

  // ---------------------------------------------------------------- two views that look the same to the caller

  /** All of the machinery but the model. */
  ghost predicate SameButModel(m: Machinery, w: Machinery) {
    w == m.(model := w.model)
  }

  /** The same links and labels; the same hash where the node is seen; the same source where all below it is, too. */
  ghost predicate Alike(v: View, w: View)
    requires Grounded(v)
  {
    && v.seen == w.seen && v.nodes.Keys == w.nodes.Keys
    && (forall id :: id in v.nodes ==>
          w.nodes[id] == v.nodes[id].(source := w.nodes[id].source, astHash := w.nodes[id].astHash))
    && (forall id :: id in v.seen ==> w.nodes[id].astHash == v.nodes[id].astHash)
    && forall id :: id in v.seen && Whole(v, id) ==> w.nodes[id].source == v.nodes[id].source
  }

  lemma {:induction false} WholeAlike(v: View, w: View, id: Id)
    requires Grounded(v) && Alike(v, w) && Grounded(w) && id in v.seen
    ensures Whole(v, id) <==> Whole(w, id)
    decreases v.nodes[id].level
  {
    forall c | c in v.nodes[id].childIds && c in v.seen ensures Whole(v, c) <==> Whole(w, c) { WholeAlike(v, w, c); }
  }

  lemma {:induction false} HashAlike(m: Machinery, n: Machinery, v: View, w: View, id: Id)
    requires SameButModel(m, n) && Grounded(v) && Alike(v, w) && Grounded(w) && id in v.seen
    ensures EffectiveHash(m, v, id) == EffectiveHash(n, w, id)
    decreases v.nodes[id].level, 1
  {
    hide Whole, ViewDigest;
    WholeAlike(v, w, id);
    ChildViewsAlike(m, n, v, w, id);
    DigestAlike(m, n, v.nodes[id].astHash, ChildViews(m, v, id));
  }

  lemma {:induction false} ChildViewsAlike(m: Machinery, n: Machinery, v: View, w: View, id: Id)
    requires SameButModel(m, n) && Grounded(v) && Alike(v, w) && Grounded(w) && id in v.seen
    ensures ChildViews(m, v, id) == ChildViews(n, w, id)
    decreases v.nodes[id].level, 0
  {
    hide Whole, ViewDigest;
    forall c | c in v.nodes[id].childIds && c in v.seen ensures EffectiveHash(m, v, c) == EffectiveHash(n, w, c) {
      HashAlike(m, n, v, w, c);
    }
  }

  lemma {:induction false} DigestAlike(m: Machinery, n: Machinery, h: string, views: seq<ChildView>)
    requires SameButModel(m, n)
    ensures ViewDigest(m, h, views) == ViewDigest(n, h, views)
  {
    ChildrenBytesAlike(m, n, views);
  }

  lemma {:induction false} ChildrenBytesAlike(m: Machinery, n: Machinery, views: seq<ChildView>)
    requires SameButModel(m, n)
    ensures ChildrenBytes(m, views) == ChildrenBytes(n, views)
  {
    if views != [] { ChildrenBytesAlike(m, n, views[1..]); }
  }

  lemma ShownAlike(m: Machinery, n: Machinery, v: View, w: View, aclScope: string, id: Id)
    requires SameButModel(m, n) && Grounded(v) && Alike(v, w) && Grounded(w) && id in v.seen
    ensures Shown(m, v, id) == Shown(n, w, id) && Key(m, v, aclScope, id) == Key(n, w, aclScope, id)
  {
    hide Whole, EffectiveHash;
    WholeAlike(v, w, id);
    HashAlike(m, n, v, w, id);
  }

  lemma {:induction false} KidsAlike(v: View, w: View, ids: seq<Id>, summaries: map<Id, string>)
    requires Grounded(v) && Alike(v, w) && forall c :: c in ids ==> c in v.nodes
    requires forall c :: c in ids && c in v.seen ==> c in summaries
    ensures ChildSummaries(v, ids, summaries) == ChildSummaries(w, ids, summaries)
  {
    hide Whole, Grounded;
    if ids != [] { KidsAlike(v, w, ids[1..], summaries); }
  }

  // ---------------------------------------------------------------- what the model is shown

  /** `sub` is what is left of `all` when only members of `keep` stay. */
  ghost predicate Selects(all: seq<Id>, keep: set<Id>, sub: seq<Id>) {
    if all == [] then sub == []
    else if all[0] in keep then sub != [] && sub[0] == all[0] && Selects(all[1..], keep, sub[1..])
    else Selects(all[1..], keep, sub)
  }

  /**
  A call of the model that shows nothing hidden: a node of the view, as it is stored if all below it is seen, and
  otherwise without its source and with only the children seen; and of each child shown its id, level and summary, in
  order.
  */
  ghost predicate SafeCall(v: View, n: SummaryNode, kids: seq<ChildSummary>)
    requires Grounded(v)
  {
    && n.nodeId in v.seen
    && var stored := v.nodes[n.nodeId];
    && (if Whole(v, n.nodeId) then n == stored
        else n.source == "" && Selects(stored.childIds, v.seen, n.childIds)
             && n == stored.(source := "", childIds := n.childIds, astHash := n.astHash))
    && |kids| == |n.childIds|
    && forall i :: 0 <= i < |kids| ==>
         kids[i].nodeId == n.childIds[i] && kids[i].nodeId in v.seen && kids[i].level == v.nodes[kids[i].nodeId].level
  }

  ghost predicate Named(nodes: Hierarchy) {
    forall id :: id in nodes ==> nodes[id].nodeId == id
  }

  ghost predicate AgreeOnSafeCalls(m: Machinery, n: Machinery, v: View)
    requires Grounded(v)
  {
    forall node, kids :: SafeCall(v, node, kids) ==> m.model(node, kids) == n.model(node, kids)
  }

  lemma {:induction false} VisibleIsSelected(seen: set<Id>, ids: seq<Id>)
    ensures Selects(ids, seen, VisibleOf(seen, ids))
    ensures (forall c :: c in ids ==> c in seen) ==> VisibleOf(seen, ids) == ids
  {
    if ids != [] {
      VisibleIsSelected(seen, ids[1..]);
      assert ids == [ids[0]] + ids[1..];
      if ids[0] in seen { assert VisibleOf(seen, ids)[1..] == VisibleOf(seen, ids[1..]); }
    }
  }

  lemma {:induction false} KidsAreVisible(v: View, ids: seq<Id>, summaries: map<Id, string>)
    requires forall c :: c in ids ==> c in v.nodes
    requires forall c :: c in ids && c in v.seen ==> c in summaries
    ensures var kids, shown := ChildSummaries(v, ids, summaries), VisibleOf(v.seen, ids);
            && |kids| == |shown|
            && forall i :: 0 <= i < |kids| ==>
                 kids[i].nodeId == shown[i] && shown[i] in v.seen && shown[i] in v.nodes
                 && kids[i].level == v.nodes[shown[i]].level
  {
    if ids != [] { KidsAreVisible(v, ids[1..], summaries); }
  }

  lemma CallIsSafe(m: Machinery, v: View, id: Id, summaries: map<Id, string>)
    requires Grounded(v) && Named(v.nodes) && id in v.seen && KidsReady(v, id, summaries)
    ensures SafeCall(v, Shown(m, v, id), ChildSummaries(v, v.nodes[id].childIds, summaries))
  {
    hide EffectiveHash;
    var ids := v.nodes[id].childIds;
    VisibleIsSelected(v.seen, ids);
    KidsAreVisible(v, ids, summaries);
  }

  lemma StepAlike(m: Machinery, n: Machinery, v: View, w: View, aclScope: string, p: Progress, id: Id)
    requires SameButModel(m, n) && Grounded(v) && Named(v.nodes) && Alike(v, w) && Grounded(w)
    requires AgreeOnSafeCalls(m, n, v) && id in v.seen && KidsReady(v, id, p.summaries)
    ensures KidsReady(w, id, p.summaries) && Step(m, v, aclScope, p, id) == Step(n, w, aclScope, p, id)
  {
    ShownAlike(m, n, v, w, aclScope, id);
    KidsKnown(v, id);
    KidsAlike(v, w, v.nodes[id].childIds, p.summaries);
    CallIsSafe(m, v, id, p.summaries);
    hide Shown, Key, SafeCall, ChildSummaries, Whole;
    assert w.nodes[id].childIds == v.nodes[id].childIds;
  }

  lemma {:induction false} RunAlike(m: Machinery, n: Machinery, v: View, w: View, aclScope: string, order: seq<Id>,
                                    i: nat, p: Progress)
    requires SameButModel(m, n) && Grounded(v) && Named(v.nodes) && Alike(v, w) && Grounded(w)
    requires AgreeOnSafeCalls(m, n, v)
    requires Ordered(v, order) && Ordered(w, order) && i <= |order| && Covers(v, order[..i], p.summaries)
    ensures Covers(w, order[..i], p.summaries)
    ensures Run(m, v, aclScope, order, i, p) == Run(n, w, aclScope, order, i, p)
    decreases |order| - i
  {
    assert v.seen == w.seen && forall done, sums :: Covers(v, done, sums) <==> Covers(w, done, sums);
    hide Ordered, Step, KidsReady, Grounded, Covers, Alike, Named, AgreeOnSafeCalls;
    if i < |order| {
      NextIsReady(v, order, i, p.summaries);
      if order[i] !in v.seen {
        StepCovers(v, order, i, p.summaries, p.summaries);
        RunAlike(m, n, v, w, aclScope, order, i + 1, p);
      } else {
        StepAlike(m, n, v, w, aclScope, p, order[i]);
        StepAddsOne(m, v, aclScope, p, order[i]);
        var o := Step(m, v, aclScope, p, order[i]);
        if o.error.None? {
          StepCovers(v, order, i, p.summaries, o.progress.summaries);
          RunAlike(m, n, v, w, aclScope, order, i + 1, o.progress);
        }
      }
    }
  }

  // ---------------------------------------------------------------- where summaries come from

  /** The text was cached before, or the model gave it for a call that shows nothing hidden. */
  ghost predicate Sourced(m: Machinery, v: View, cache: map<CacheKey, string>, text: string)
    requires Grounded(v)
  {
    || (exists k :: k in cache && cache[k] == text)
    || exists n, kids :: SafeCall(v, n, kids) && m.model(n, kids) == Some(text)
  }

  ghost predicate Honest(m: Machinery, v: View, cache: map<CacheKey, string>, p: Progress)
    requires Grounded(v)
  {
    HonestTexts(m, v, cache, p.summaries) && HonestCache(m, v, cache, p.cache)
  }

  ghost predicate HonestTexts(m: Machinery, v: View, cache: map<CacheKey, string>, summaries: map<Id, string>)
    requires Grounded(v)
  {
    forall id :: id in summaries ==> !m.blank(summaries[id]) && Sourced(m, v, cache, summaries[id])
  }

  ghost predicate HonestCache(m: Machinery, v: View, cache: map<CacheKey, string>, later: map<CacheKey, string>)
    requires Grounded(v)
  {
    forall k :: k in later ==> Sourced(m, v, cache, later[k])
  }

  lemma OneMoreText(m: Machinery, v: View, cache: map<CacheKey, string>, p: Progress, id: Id, key: CacheKey,
                    text: string)
    requires Grounded(v) && Honest(m, v, cache, p) && Sourced(m, v, cache, text)
    ensures HonestCache(m, v, cache, p.cache[key := text])
    ensures !m.blank(text) ==> HonestTexts(m, v, cache, p.summaries[id := text])
  {
    hide Sourced, Grounded;
  }

  /** What can stop a run: the cache raised, or holds a blank summary; or the model raised, or gave a blank one. */
  ghost predicate HasCause(m: Machinery, v: View, o: Outcome)
    requires Grounded(v)
  {
    match o.error
    case None => true
    case Some(CacheFailure) =>
      || (exists id :: id in v.seen && (m.getFails(id) || m.put(id).Raised?))
      || exists k :: k in o.progress.cache && m.blank(o.progress.cache[k])
    case Some(ModelFailure) =>
      exists n, kids :: SafeCall(v, n, kids) && (m.model(n, kids).None? || m.blank(m.model(n, kids).value))
    case Some(_) => false
  }

  lemma CachedIsSourced(m: Machinery, v: View, cache: map<CacheKey, string>, later: map<CacheKey, string>,
                        key: CacheKey)
    requires Grounded(v) && HonestCache(m, v, cache, later) && key in later
    ensures Sourced(m, v, cache, later[key])
  {
  }

  /** A step adds at most one text, the cached one or the model's. */
  lemma StepAddsText(m: Machinery, v: View, aclScope: string, p: Progress, id: Id) returns (text: string)
    requires Grounded(v) && id in v.seen && KidsReady(v, id, p.summaries)
    ensures var o, key := Step(m, v, aclScope, p, id), Key(m, v, aclScope, id);
            || (o.progress.summaries == p.summaries && o.progress.cache == p.cache)
            || (((key in p.cache && p.cache[key] == text)
                 || m.model(Shown(m, v, id), ChildSummaries(v, v.nodes[id].childIds, p.summaries)) == Some(text))
                && (o.progress.summaries == p.summaries || o.progress.summaries == p.summaries[id := text])
                && !m.blank(text) && (o.progress.cache == p.cache || o.progress.cache == p.cache[key := text]))
  {
    var key := Key(m, v, aclScope, id);
    var made := m.model(Shown(m, v, id), ChildSummaries(v, v.nodes[id].childIds, p.summaries));
    hide Shown, Key, Grounded, KidsReady, ChildSummaries;
    text := if key in p.cache then p.cache[key] else if made.Some? then made.value else "";
  }

  lemma StepIsHonest(m: Machinery, v: View, aclScope: string, cache: map<CacheKey, string>, p: Progress, id: Id)
    requires Grounded(v) && Named(v.nodes) && id in v.seen && KidsReady(v, id, p.summaries) && Honest(m, v, cache, p)
    ensures Honest(m, v, cache, Step(m, v, aclScope, p, id).progress)
  {
    CallIsSafe(m, v, id, p.summaries);
    KidsKnown(v, id);
    var key, n, kids :=
      Key(m, v, aclScope, id), Shown(m, v, id), ChildSummaries(v, v.nodes[id].childIds, p.summaries);
    var text := StepAddsText(m, v, aclScope, p, id);
    hide Step, SafeCall, Shown, ChildSummaries, Key, Grounded, Named, KidsReady, HonestTexts, HonestCache;
    if key in p.cache && p.cache[key] == text {
      CachedIsSourced(m, v, cache, p.cache, key);
      OneMoreText(m, v, cache, p, id, key, text);
    } else if m.model(n, kids) == Some(text) {
      assert Sourced(m, v, cache, text);
      OneMoreText(m, v, cache, p, id, key, text);
    }
  }

  lemma StepHasCause(m: Machinery, v: View, aclScope: string, p: Progress, id: Id)
    requires Grounded(v) && Named(v.nodes) && id in v.seen && KidsReady(v, id, p.summaries)
    ensures HasCause(m, v, Step(m, v, aclScope, p, id))
  {
    CallIsSafe(m, v, id, p.summaries);
    KidsKnown(v, id);
    hide SafeCall, Shown, ChildSummaries, Key, Grounded, Named, KidsReady;
  }

  lemma {:induction false} RunIsHonest(m: Machinery, v: View, aclScope: string, cache: map<CacheKey, string>,
                                       order: seq<Id>, i: nat, p: Progress)
    requires Ordered(v, order) && Grounded(v) && Named(v.nodes) && i <= |order| && Covers(v, order[..i], p.summaries)
    requires Honest(m, v, cache, p)
    ensures var o := Run(m, v, aclScope, order, i, p); Honest(m, v, cache, o.progress) && HasCause(m, v, o)
    decreases |order| - i
  {
    hide Ordered, Step, KidsReady, Grounded, Covers, Honest, HasCause, Named;
    if i == |order| {
      NoErrorNoCause(m, v, p);
    } else {
      NextIsReady(v, order, i, p.summaries);
      if order[i] !in v.seen {
        StepCovers(v, order, i, p.summaries, p.summaries);
        RunIsHonest(m, v, aclScope, cache, order, i + 1, p);
      } else {
        var o := Step(m, v, aclScope, p, order[i]);
        StepIsHonest(m, v, aclScope, cache, p, order[i]);
        StepHasCause(m, v, aclScope, p, order[i]);
        StepAddsOne(m, v, aclScope, p, order[i]);
        if o.error.None? {
          StepCovers(v, order, i, p.summaries, o.progress.summaries);
          RunIsHonest(m, v, aclScope, cache, order, i + 1, o.progress);
        }
      }
    }
  }

  lemma NoErrorNoCause(m: Machinery, v: View, p: Progress)
    requires Grounded(v)
    ensures HasCause(m, v, Outcome(p, None))
  {
  }

  lemma BeginIsHonest(m: Machinery, v: View, cache: map<CacheKey, string>)
    requires Grounded(v)
    ensures Honest(m, v, cache, Begin(cache))
  {
  }

  // ---------------------------------------------------------------- two requests that look the same to the caller

  /** The same links and labels. */
  ghost predicate SameShape(a: Hierarchy, b: Hierarchy) {
    && a.Keys == b.Keys
    && forall id :: id in a ==> b[id] == a[id].(source := b[id].source, astHash := b[id].astHash)
  }

  lemma {:induction false} VisitAlike(a: Hierarchy, b: Hierarchy, id: Id, order: seq<Id>)
    requires SameShape(a, b) && id in a
    ensures Visit(a, id, order) == Visit(b, id, order)
    decreases a[id].level, |a[id].childIds| + 1
  {
    if id !in order { VisitChildrenAlike(a, b, id, 0, order); }
  }

  lemma {:induction false} VisitChildrenAlike(a: Hierarchy, b: Hierarchy, id: Id, k: nat, order: seq<Id>)
    requires SameShape(a, b) && id in a && k <= |a[id].childIds|
    ensures VisitChildren(a, id, k, order) == VisitChildren(b, id, k, order)
    decreases a[id].level, |a[id].childIds| - k
  {
    if k < |a[id].childIds| {
      var c := a[id].childIds[k];
      if c in a && a[c].level < a[id].level {
        VisitAlike(a, b, c, order);
        if Visit(a, c, order).Some? { VisitChildrenAlike(a, b, id, k + 1, Visit(a, c, order).value); }
      }
    }
  }

  lemma {:induction false} AuthorizedWalkAlike(a: Hierarchy, b: Hierarchy, s: Scope, root: Id, x: Id, n: nat)
    requires SameShape(a, b)
    ensures AuthorizedWalk(a, s, root, x, n) <==> AuthorizedWalk(b, s, root, x, n)
    decreases n
  {
    if n > 0 {
      forall p | p in a ensures AuthorizedWalk(a, s, root, p, n - 1) <==> AuthorizedWalk(b, s, root, p, n - 1) {
        AuthorizedWalkAlike(a, b, s, root, p, n - 1);
      }
    }
  }

  lemma InViewAlike(a: Hierarchy, b: Hierarchy, s: Scope, root: Id)
    requires SameShape(a, b)
    ensures forall x :: InView(a, s, root, x) <==> InView(b, s, root, x)
  {
    forall x, n: nat ensures AuthorizedWalk(a, s, root, x, n) <==> AuthorizedWalk(b, s, root, x, n) {
      AuthorizedWalkAlike(a, b, s, root, x, n);
    }
  }

  lemma {:induction false} ByIdAlike(a: seq<SummaryNode>, b: seq<SummaryNode>)
    requires |a| == |b|
    requires forall i :: 0 <= i < |a| ==> b[i] == a[i].(source := b[i].source, astHash := b[i].astHash)
    ensures SameShape(ById(a), ById(b)) && (DistinctIds(a) <==> DistinctIds(b))
  {
    if a != [] { ByIdAlike(a[..|a| - 1], b[..|b| - 1]); }
  }

  lemma {:induction false} ByIdIsNamed(nodes: seq<SummaryNode>)
    ensures Named(ById(nodes))
  {
    if nodes != [] { ByIdIsNamed(nodes[..|nodes| - 1]); }
  }

  lemma {:induction false} ByIdFinds(nodes: seq<SummaryNode>, i: nat)
    requires DistinctIds(nodes) && i < |nodes|
    ensures nodes[i].nodeId in ById(nodes) && ById(nodes)[nodes[i].nodeId] == nodes[i]
    decreases |nodes|
  {
    if i < |nodes| - 1 { ByIdFinds(nodes[..|nodes| - 1], i); }
  }

  lemma {:induction false} ByIdHolds(nodes: seq<SummaryNode>, id: Id) returns (i: nat)
    requires id in ById(nodes)
    ensures i < |nodes| && nodes[i].nodeId == id && ById(nodes)[id] == nodes[i]
  {
    var last := |nodes| - 1;
    if nodes[last].nodeId == id { i := last; } else { i := ByIdHolds(nodes[..last], id); }
  }

  /** A refusal depends on links and labels only. */
  lemma RefusalAlike(m: Machinery, n: Machinery, a: seq<SummaryNode>, b: seq<SummaryNode>, root: Id,
                     sec: SecurityContext)
    requires SameButModel(m, n) && |a| == |b|
    requires forall i :: 0 <= i < |a| ==> b[i] == a[i].(source := b[i].source, astHash := b[i].astHash)
    ensures Refusal(m, a, root, sec) == Refusal(n, b, root, sec)
  {
    ByIdAlike(a, b);
    assert ScopeOf(m, sec) == ScopeOf(n, sec);
    hide ById, DistinctIds, Reaches, BadLink, ScopeOf, Visit;
    if root in ById(a) {
      VisitAlike(ById(a), ById(b), root, []);
      PostorderIsExact(ById(a), root);
      PostorderIsExact(ById(b), root);
    }
  }

  // ---------------------------------------------------------------- the main results

  /**
  The requests differ at most in sources below which something is unreadable, and in hashes and sources of unreadable
  nodes.
  */
  ghost predicate LookTheSame(m: Machinery, sec: SecurityContext, root: Id, a: seq<SummaryNode>, b: seq<SummaryNode>) {
    && |a| == |b|
    && (forall i :: 0 <= i < |a| ==> b[i] == a[i].(source := b[i].source, astHash := b[i].astHash))
    && forall i :: 0 <= i < |a| && Readable(m, sec, ById(a), root, a[i].nodeId) ==>
         && b[i].astHash == a[i].astHash
         && (AllReadableBelow(m, sec, ById(a), a[i].nodeId) ==> b[i].source == a[i].source)
  }

  lemma WholeIsAllReadable(m: Machinery, nodes: seq<SummaryNode>, root: Id, sec: SecurityContext, id: Id)
    requires Refusal(m, nodes, root, sec).None? && id in AcceptedView(m, nodes, root, sec).seen
    ensures Whole(AcceptedView(m, nodes, root, sec), id) <==> AllReadableBelow(m, sec, ById(nodes), id)
  {
    hide ById, Refusal, Reaches, Whole, Visit, Grounded, Ordered;
    var v := AcceptedView(m, nodes, root, sec);
    ScopeIsAccepted(m, sec);
    hide ScopeOf, Authorized, MayRead;
    CompleteMeansAllAuthorized(v, ScopeOf(m, sec).value, root, id);
  }

  lemma ViewsAlike(m: Machinery, n: Machinery, a: seq<SummaryNode>, b: seq<SummaryNode>, root: Id, sec: SecurityContext)
    requires SameButModel(m, n) && LookTheSame(m, sec, root, a, b)
    requires Refusal(m, a, root, sec).None? && Refusal(n, b, root, sec).None?
    ensures Grounded(AcceptedView(m, a, root, sec))
    ensures Alike(AcceptedView(m, a, root, sec), AcceptedView(n, b, root, sec))
  {
    var v, w := AcceptedView(m, a, root, sec), AcceptedView(n, b, root, sec);
    assert ScopeOf(m, sec) == ScopeOf(n, sec);
    var s := ScopeOf(m, sec).value;
    ByIdAlike(a, b);
    InViewAlike(ById(a), ById(b), s, root);
    assert DistinctIds(a) && DistinctIds(b);
    hide ScopeOf, ById, Refusal, Visit, Ordered, Readable, AllReadableBelow, AcceptedView, InView, Whole;
    assert v.seen == w.seen;
    forall id | id in v.seen
      ensures w.nodes[id].astHash == v.nodes[id].astHash
      ensures Whole(v, id) ==> w.nodes[id].source == v.nodes[id].source
    {
      var i := ByIdHolds(a, id);
      ByIdFinds(b, i);
      ReadableIsInView(m, sec, ById(a), root, id);
      WholeIsAllReadable(m, a, root, sec, id);
    }
  }

  ghost function ReadableIds(m: Machinery, sec: SecurityContext, nodes: Hierarchy, root: Id): set<Id> {
    set b | b in nodes && Readable(m, sec, nodes, root, b)
  }

  /**
  A call of the model that shows nothing the caller may not read: a readable node, whole if all below it is readable,
  and otherwise without its source and with only the readable children; and of these children the summaries, in order.
  */
  ghost predicate ShowsOnlyReadable(m: Machinery, sec: SecurityContext, nodes: Hierarchy, root: Id, n: SummaryNode,
                                    kids: seq<ChildSummary>) {
    && n.nodeId in nodes && Readable(m, sec, nodes, root, n.nodeId)
    && (if AllReadableBelow(m, sec, nodes, n.nodeId) then n == nodes[n.nodeId]
        else
          && n.source == ""
          && Selects(nodes[n.nodeId].childIds, ReadableIds(m, sec, nodes, root), n.childIds)
          && n == nodes[n.nodeId].(source := "", childIds := n.childIds, astHash := n.astHash))
    && |kids| == |n.childIds|
    && forall i :: 0 <= i < |kids| ==>
         && kids[i].nodeId == n.childIds[i] && kids[i].nodeId in nodes
         && Readable(m, sec, nodes, root, kids[i].nodeId) && kids[i].level == nodes[kids[i].nodeId].level
  }

  lemma SafeCallShowsOnlyReadable(m: Machinery, nodes: seq<SummaryNode>, root: Id, sec: SecurityContext, n: SummaryNode,
                                  kids: seq<ChildSummary>)
    requires Refusal(m, nodes, root, sec).None?
    requires Grounded(AcceptedView(m, nodes, root, sec)) && SafeCall(AcceptedView(m, nodes, root, sec), n, kids)
    ensures ShowsOnlyReadable(m, sec, ById(nodes), root, n, kids)
  {
    var v := AcceptedView(m, nodes, root, sec);
    SeenIsReadable(m, nodes, root, sec);
    WholeIsAllReadable(m, nodes, root, sec, n.nodeId);
    hide ScopeOf, ById, Refusal, Visit, Ordered, Readable, AllReadableBelow, AcceptedView, InView, Whole, Grounded;
    assert v.seen == ReadableIds(m, sec, ById(nodes), root);
  }

  lemma SeenIsReadable(m: Machinery, nodes: seq<SummaryNode>, root: Id, sec: SecurityContext)
    requires Refusal(m, nodes, root, sec).None?
    ensures var v := AcceptedView(m, nodes, root, sec);
            forall b :: b in v.seen <==> b in ById(nodes) && Readable(m, sec, ById(nodes), root, b)
  {
    var v := AcceptedView(m, nodes, root, sec);
    hide ById, Refusal, Visit, Ordered, Readable, InView, Whole;
    forall b ensures b in v.seen <==> b in ById(nodes) && Readable(m, sec, ById(nodes), root, b) {
      ReadableIsInView(m, sec, ById(nodes), root, b);
      if b in v.seen { ViewIsAuthorized(ById(nodes), ScopeOf(m, sec).value, root, b); }
    }
  }

  /** Two models answer the same wherever a call shows only what the caller may read. */
  ghost predicate SameAnswers(m: Machinery, n: Machinery, sec: SecurityContext, nodes: Hierarchy, root: Id) {
    forall node, kids :: ShowsOnlyReadable(m, sec, nodes, root, node, kids) ==>
      m.model(node, kids) == n.model(node, kids)
  }

  lemma RunsAgree(m: Machinery, n: Machinery, a: seq<SummaryNode>, b: seq<SummaryNode>, root: Id, sec: SecurityContext,
                  cache: map<CacheKey, string>)
    requires SameButModel(m, n) && LookTheSame(m, sec, root, a, b) && SameAnswers(m, n, sec, ById(a), root)
    requires Refusal(m, a, root, sec).None? && Refusal(n, b, root, sec).None?
    ensures AcceptedRun(m, a, root, sec, cache) == AcceptedRun(n, b, root, sec, cache)
  {
    var v, w := AcceptedView(m, a, root, sec), AcceptedView(n, b, root, sec);
    assert ScopeOf(m, sec) == ScopeOf(n, sec);
    ViewsAlike(m, n, a, b, root, sec);
    ByIdAlike(a, b);
    ByIdIsNamed(a);
    VisitAlike(ById(a), ById(b), root, []);
    forall node, kids | SafeCall(v, node, kids) ensures m.model(node, kids) == n.model(node, kids) {
      SafeCallShowsOnlyReadable(m, a, root, sec, node, kids);
    }
    hide ScopeOf, ById, Refusal, Visit, Ordered, LookTheSame, AcceptedView, Grounded, Alike, SafeCall, Run, SameAnswers;
    hide ShowsOnlyReadable;
    var order := Visit(ById(a), root, []).value;
    RunAlike(m, n, v, w, AclScope(m, ScopeOf(m, sec).value), order, 0, Begin(cache));
  }

  /**
  Nothing hidden leaks: two requests that differ only in the sources of nodes with something unreadable below them,
  and in hashes and sources of nodes that cannot be reached along readable ones, are refused for the same reason or
  get the same reply, and leave the same cache.
  */
  lemma HiddenDoesNotMatter(m: Machinery, a: seq<SummaryNode>, b: seq<SummaryNode>, root: Id, sec: SecurityContext,
                            cache: map<CacheKey, string>)
    requires LookTheSame(m, sec, root, a, b)
    ensures Refusal(m, a, root, sec) == Refusal(m, b, root, sec)
    ensures Refusal(m, a, root, sec).None? ==>
              && Reply(root, AcceptedRun(m, a, root, sec, cache)) == Reply(root, AcceptedRun(m, b, root, sec, cache))
              && AcceptedRun(m, a, root, sec, cache).progress.cache ==
                AcceptedRun(m, b, root, sec, cache).progress.cache
  {
    hide ScopeOf, ById, Refusal, AcceptedRun;
    RefusalAlike(m, m, a, b, root, sec);
    if Refusal(m, a, root, sec).None? { RunsAgree(m, m, a, b, root, sec, cache); }
  }

  /**
  The model is called with nothing else: how it would answer a call that shows more cannot be told from any reply.
  */
  lemma ModelSeesOnlyReadable(m: Machinery, n: Machinery, nodes: seq<SummaryNode>, root: Id, sec: SecurityContext,
                              cache: map<CacheKey, string>)
    requires SameButModel(m, n) && SameAnswers(m, n, sec, ById(nodes), root)
    ensures Refusal(m, nodes, root, sec) == Refusal(n, nodes, root, sec)
    ensures Refusal(m, nodes, root, sec).None? ==>
              AcceptedRun(m, nodes, root, sec, cache) == AcceptedRun(n, nodes, root, sec, cache)
  {
    hide ScopeOf, ById, Refusal, AcceptedRun, SameAnswers;
    RefusalAlike(m, n, nodes, nodes, root, sec);
    if Refusal(m, nodes, root, sec).None? { RunsAgree(m, n, nodes, nodes, root, sec, cache); }
  }

  /** A reply names exactly the nodes that are readable along readable paths. */
  lemma ReplyCoversTheReadable(m: Machinery, nodes: seq<SummaryNode>, root: Id, sec: SecurityContext,
                               cache: map<CacheKey, string>)
    requires Refusal(m, nodes, root, sec).None? && AcceptedRun(m, nodes, root, sec, cache).error.None?
    ensures var r := Reply(root, AcceptedRun(m, nodes, root, sec, cache));
            && AcceptableScope(m, sec) && r.Ok? && r.value.rootId == root
            && forall id :: id in r.value.summaries <==> id in ById(nodes) && Readable(m, sec, ById(nodes), root, id)
  {
    ScopeIsAccepted(m, sec);
    SeenIsReadable(m, nodes, root, sec);
    var v := AcceptedView(m, nodes, root, sec);
    var order := Visit(ById(nodes), root, []).value;
    hide ScopeOf, ById, Refusal, Visit, Ordered, FullRun, Readable, AcceptableScope;
    FinishedRunCoversTheView(m, v, AclScope(m, ScopeOf(m, sec).value), order, cache);
    assert AcceptedRun(m, nodes, root, sec, cache).progress.summaries.Keys == v.seen;
  }

  /**
  No summary is made up: each is not blank, and was cached before or is what the model gave for a call that shows only
  what the caller may read; and a run that fails has met what it reports.
  */
  lemma SummariesAreSourced(m: Machinery, nodes: seq<SummaryNode>, root: Id, sec: SecurityContext,
                            cache: map<CacheKey, string>)
    requires Refusal(m, nodes, root, sec).None?
    ensures var o := AcceptedRun(m, nodes, root, sec, cache);
            && HasCause(m, AcceptedView(m, nodes, root, sec), o)
            && forall id :: id in o.progress.summaries ==>
                 var text := o.progress.summaries[id];
                 && !m.blank(text)
                 && ((exists k :: k in cache && cache[k] == text)
                     || exists n, kids ::
                          ShowsOnlyReadable(m, sec, ById(nodes), root, n, kids) && m.model(n, kids) == Some(text))
  {
    var v := AcceptedView(m, nodes, root, sec);
    var order := Visit(ById(nodes), root, []).value;
    ByIdIsNamed(nodes);
    hide ScopeOf, ById, Refusal, Visit, Ordered, Readable, AcceptedView, Run, SafeCall, ShowsOnlyReadable, Grounded;
    hide HasCause;
    BeginIsHonest(m, v, cache);
    RunIsHonest(m, v, AclScope(m, ScopeOf(m, sec).value), cache, order, 0, Begin(cache));
    forall n, kids | SafeCall(v, n, kids) ensures ShowsOnlyReadable(m, sec, ById(nodes), root, n, kids) {
      SafeCallShowsOnlyReadable(m, nodes, root, sec, n, kids);
    }
  }

  /**
  A cached summary is found only under the same access scope and logic; and without digest collisions, for a
  restricted view only under one of the same node text with the same children, the same of them seen, each with the
  same hash.
  */
  lemma KeysTellApart(m: Machinery, n: Machinery, v: View, w: View, aclScope: string, otherScope: string, id: Id,
                      other: Id)
    requires Grounded(v) && Grounded(w) && id in v.seen && other in w.seen
    requires Key(m, v, aclScope, id) == Key(n, w, otherScope, other)
    ensures aclScope == otherScope && m.fingerprint == n.fingerprint
    ensures Key(m, v, aclScope, id).logicFingerprint == m.fingerprint && Key(m, v, aclScope, id).aclScope == aclScope
    ensures Whole(v, id) ==> Key(m, v, aclScope, id).astHash == v.nodes[id].astHash
    ensures SameButModel(m, n) && Encodes(m) && (forall x, y :: m.digest(x) == m.digest(y) ==> x == y)
            && !Whole(v, id) && !Whole(w, other) && Proper(m, ChildViews(m, v, id))
            && Proper(m, ChildViews(n, w, other))
            && Fits(m, v.nodes[id].astHash) && Fits(m, w.nodes[other].astHash) ==>
              && v.nodes[id].astHash == w.nodes[other].astHash && v.nodes[id].childIds == w.nodes[other].childIds
              && forall c :: c in v.nodes[id].childIds ==>
                   && (c in v.seen <==> c in w.seen)
                   && (c in v.seen ==> EffectiveHash(m, v, c) == EffectiveHash(n, w, c))
  {
    if SameButModel(m, n) && Encodes(m) && (forall x, y :: m.digest(x) == m.digest(y) ==> x == y)
       && !Whole(v, id) && !Whole(w, other) && Proper(m, ChildViews(m, v, id)) && Proper(m, ChildViews(n, w, other))
       && Fits(m, v.nodes[id].astHash) && Fits(m, w.nodes[other].astHash) {
      var a, b := ChildViews(m, v, id), ChildViews(n, w, other);
      DigestAlike(m, n, w.nodes[other].astHash, b);
      ViewDigestsIdentify(m, v.nodes[id].astHash, a, w.nodes[other].astHash, b);
      SameChildViews(m, n, v, w, id, other);
    }
  }

  lemma SameChildViews(m: Machinery, n: Machinery, v: View, w: View, id: Id, other: Id)
    requires Grounded(v) && Grounded(w) && id in v.seen && other in w.seen
    requires ChildViews(m, v, id) == ChildViews(n, w, other)
    ensures v.nodes[id].childIds == w.nodes[other].childIds
    ensures forall c :: c in v.nodes[id].childIds ==>
              && (c in v.seen <==> c in w.seen)
              && (c in v.seen ==> EffectiveHash(m, v, c) == EffectiveHash(n, w, c))
  {
    hide EffectiveHash, Grounded;
    KidsKnown(v, id);
    KidsKnown(w, other);
    var a, kids, others := ChildViews(m, v, id), v.nodes[id].childIds, w.nodes[other].childIds;
    assert |kids| == |a| == |others|;
    forall i | 0 <= i < |kids|
      ensures kids[i] == others[i] && (kids[i] in v.seen <==> kids[i] in w.seen)
      ensures kids[i] in v.seen ==> EffectiveHash(m, v, kids[i]) == EffectiveHash(n, w, kids[i])
    {
      assert a[i].nodeId == kids[i] && a[i].nodeId == others[i];
    }
  }
}
