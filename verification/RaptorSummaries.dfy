/**
Bottom-up summaries over the authorized projection, through a content-addressed cache.

The model, the digests and the blank test are arbitrary functions. `Plain` is the cache-free meaning of a summary: the
model applied, level by level, to what the caller may see.
*/
module RaptorSummaries {
  import opened Common
  import opened RaptorHierarchy
  import opened Encoding

  datatype CacheKey = CacheKey(astHash: string, logicFingerprint: string, aclScope: string)

  datatype ChildSummary = ChildSummary(nodeId: Id, level: nat, summary: string)

  /**
  What the digest of a restricted view covers of one child: its id, whether it is visible, and if so its own hash.
  */
  datatype ChildView = ChildView(nodeId: Id, visible: bool, hash: string)

  datatype SecurityContext = SecurityContext(tenantId: string, userId: string, allowedRepos: seq<string>,
                                             aclGroups: seq<string>)

  /** How storing a summary ends; an access that raises may have taken effect. */
  datatype PutAnswer = Stored | Raised(landed: bool)

  /**
  What a request meets. A model without an answer has raised; `getFails` and `put` say, for each node, whether its
  look-up in the cache raises and how its storing ends.
  */
  datatype Machinery = Machinery(
    fingerprint: string,
    model: (SummaryNode, seq<ChildSummary>) -> Option<string>,
    getFails: Id -> bool,
    put: Id -> PutAnswer,
    utf8: string -> Bytes,
    digest: Bytes -> string,
    scopeDigest: (string, set<string>, set<string>) -> string,
    validLabel: string -> bool,
    blank: string -> bool)

  datatype Error = DuplicateNode | NoRoot | NotAuthorized | InvalidHierarchy | CacheFailure | ModelFailure

  datatype Result<T> = Ok(value: T) | Err(error: Error)

  datatype SummaryResult = SummaryResult(rootId: Id, summaries: map<Id, string>, cacheHits: nat, cacheMisses: nat)

  const MAX_SCOPE_VALUES := 128

  /** Empty, oversized and malformed lists are refused; repetition and order do not matter. */
  function NormalizeScopeValues(m: Machinery, values: seq<string>): Option<set<string>> {
    if values == [] || |values| > MAX_SCOPE_VALUES || (exists v :: v in values && !m.validLabel(v)) then None
    else Some(Elements(values))
  }

  function ScopeOf(m: Machinery, sec: SecurityContext): Option<Scope> {
    var repos := NormalizeScopeValues(m, sec.allowedRepos);
    var groups := NormalizeScopeValues(m, sec.aclGroups);
    if !m.validLabel(sec.tenantId) || !m.validLabel(sec.userId) || repos.None? || groups.None? then None
    else Some(Scope(sec.tenantId, repos.value, groups.value, m.validLabel))
  }

  // ---------------------------------------------------------------- what a view determines

  /** A hierarchy and the ids the caller sees of it. */
  datatype View = View(nodes: Hierarchy, seen: set<Id>)

  predicate LinksDown(nodes: Hierarchy, id: Id)
    requires id in nodes
  {
    forall c :: c in nodes[id].childIds ==> c in nodes && nodes[c].level < nodes[id].level
  }

  predicate Grounded(v: View) {
    forall id :: id in v.seen ==> id in v.nodes && LinksDown(v.nodes, id)
  }

  /** Everything below `id` is visible. */
  predicate Whole(v: View, id: Id)
    requires Grounded(v) && id in v.seen
    decreases v.nodes[id].level
  {
    forall c :: c in v.nodes[id].childIds ==> c in v.seen && Whole(v, c)
  }

  const SUMMARY_VIEW_VERSION := "eci-summary-view-v1"

  function SeenBytes(m: Machinery, c: ChildView): Bytes {
    if c.visible then [1] + Prefixed(m.utf8(c.hash), 4) else [0]
  }

  function ChildBytes(m: Machinery, c: ChildView): Bytes {
    Prefixed(m.utf8(c.nodeId), 4) + SeenBytes(m, c)
  }

  /** The children one after the other, without a count. */
  function ChildrenBytes(m: Machinery, views: seq<ChildView>): Bytes {
    if views == [] then [] else ChildBytes(m, views[0]) + ChildrenBytes(m, views[1..])
  }

  lemma {:induction false} ChildrenBytesAppend(m: Machinery, views: seq<ChildView>, c: ChildView)
    ensures ChildrenBytes(m, views + [c]) == ChildrenBytes(m, views) + ChildBytes(m, c)
  {
    hide ChildBytes;
    if views == [] {
      assert (views + [c])[1..] == [];
    } else {
      assert (views + [c])[1..] == views[1..] + [c];
      ChildrenBytesAppend(m, views[1..], c);
    }
  }

  function ViewDigest(m: Machinery, astHash: string, views: seq<ChildView>): string {
    m.digest(m.utf8(SUMMARY_VIEW_VERSION) + Prefixed(m.utf8(astHash), 4) + ChildrenBytes(m, views))
  }

  /** Different texts have different bytes. */
  ghost predicate Encodes(m: Machinery) {
    forall x, y :: m.utf8(x) == m.utf8(y) ==> x == y
  }

  /** The length of the text fits the four bytes of its prefix. */
  predicate Fits(m: Machinery, text: string) {
    |m.utf8(text)| < Pow256(4)
  }

  ghost predicate Proper(m: Machinery, views: seq<ChildView>) {
    forall c :: c in views ==> Fits(m, c.nodeId) && Fits(m, c.hash) && (!c.visible ==> c.hash == "")
  }

  lemma SeenIsReadBack(m: Machinery, a: ChildView, b: ChildView, x: Bytes, y: Bytes)
    requires Encodes(m) && Proper(m, [a]) && Proper(m, [b]) && SeenBytes(m, a) + x == SeenBytes(m, b) + y
    ensures a.visible == b.visible && a.hash == b.hash && x == y
  {
    hide Prefixed, Pow256;
    assert a in [a] && b in [b];
    var p := if a.visible then Prefixed(m.utf8(a.hash), 4) + x else x;
    var q := if b.visible then Prefixed(m.utf8(b.hash), 4) + y else y;
    assert SeenBytes(m, a) + x == [if a.visible then 1 else 0] + p;
    assert SeenBytes(m, b) + y == [if b.visible then 1 else 0] + q;
    assert ([if a.visible then 1 else 0] + p)[0] == ([if b.visible then 1 else 0] + q)[0];
    assert p == (SeenBytes(m, a) + x)[1..] && q == (SeenBytes(m, b) + y)[1..];
    if a.visible { PrefixedIsReadBack(m.utf8(a.hash), m.utf8(b.hash), x, y, 4); }
  }

  lemma ChildIsReadBack(m: Machinery, a: ChildView, b: ChildView, x: Bytes, y: Bytes)
    requires Encodes(m) && Proper(m, [a]) && Proper(m, [b]) && ChildBytes(m, a) + x == ChildBytes(m, b) + y
    ensures a == b && x == y
  {
    hide Prefixed, Pow256, SeenBytes;
    assert a in [a] && b in [b];
    var p, q := SeenBytes(m, a) + x, SeenBytes(m, b) + y;
    assert Prefixed(m.utf8(a.nodeId), 4) + p == ChildBytes(m, a) + x
           && Prefixed(m.utf8(b.nodeId), 4) + q == ChildBytes(m, b) + y;
    PrefixedIsReadBack(m.utf8(a.nodeId), m.utf8(b.nodeId), p, q, 4);
    SeenIsReadBack(m, a, b, x, y);
  }

  lemma {:induction false} ChildrenAreReadBack(m: Machinery, a: seq<ChildView>, b: seq<ChildView>)
    requires Encodes(m) && Proper(m, a) && Proper(m, b) && ChildrenBytes(m, a) == ChildrenBytes(m, b)
    ensures a == b
  {
    hide ChildBytes, Encodes, Fits;
    if a == [] || b == [] {
      SomethingIsWritten(m, a);
      SomethingIsWritten(m, b);
    } else {
      ChildIsReadBack(m, a[0], b[0], ChildrenBytes(m, a[1..]), ChildrenBytes(m, b[1..]));
      ChildrenAreReadBack(m, a[1..], b[1..]);
      assert a == [a[0]] + a[1..] && b == [b[0]] + b[1..];
    }
  }

  lemma SomethingIsWritten(m: Machinery, views: seq<ChildView>)
    ensures views == [] <==> ChildrenBytes(m, views) == []
  {
    hide Prefixed;
    if views != [] { assert |SeenBytes(m, views[0])| > 0; }
  }

  /**
  Without digest collisions, two restricted views share a hash exactly when the node's hash and all children agree.
  */
  lemma ViewDigestsIdentify(m: Machinery, h: string, a: seq<ChildView>, i: string, b: seq<ChildView>)
    requires Encodes(m) && Proper(m, a) && Proper(m, b) && Fits(m, h) && Fits(m, i)
    requires forall x, y :: m.digest(x) == m.digest(y) ==> x == y
    ensures ViewDigest(m, h, a) == ViewDigest(m, i, b) <==> h == i && a == b
  {
    hide ChildrenBytes, Prefixed, Pow256, Proper;
    if ViewDigest(m, h, a) == ViewDigest(m, i, b) {
      var version, p, q := m.utf8(SUMMARY_VIEW_VERSION), Prefixed(m.utf8(h), 4), Prefixed(m.utf8(i), 4);
      var x, y := ChildrenBytes(m, a), ChildrenBytes(m, b);
      assert version + p + x == version + q + y;
      assert p + x == (version + p + x)[|version|..] && q + y == (version + q + y)[|version|..];
      PrefixedIsReadBack(m.utf8(h), m.utf8(i), x, y, 4);
      ChildrenAreReadBack(m, a, b);
    }
  }

  function EffectiveHash(m: Machinery, v: View, id: Id): string
    requires Grounded(v) && id in v.seen
    decreases v.nodes[id].level, 1
  {
    if Whole(v, id) then v.nodes[id].astHash else ViewDigest(m, v.nodes[id].astHash, ChildViews(m, v, id))
  }

  function ChildViews(m: Machinery, v: View, id: Id): seq<ChildView>
    requires Grounded(v) && id in v.seen
    decreases v.nodes[id].level, 0
  {
    var kids := v.nodes[id].childIds;
    seq(|kids|, i requires 0 <= i < |kids| =>
      if kids[i] in v.seen then ChildView(kids[i], true, EffectiveHash(m, v, kids[i]))
      else ChildView(kids[i], false, ""))
  }

  function Key(m: Machinery, v: View, aclScope: string, id: Id): CacheKey
    requires Grounded(v) && id in v.seen
  {
    CacheKey(EffectiveHash(m, v, id), m.fingerprint, aclScope)
  }

  function VisibleOf(seen: set<Id>, ids: seq<Id>): seq<Id> {
    if ids == [] then []
    else if ids[0] in seen then [ids[0]] + VisibleOf(seen, ids[1..])
    else VisibleOf(seen, ids[1..])
  }

  /**
  The node as the model is given it: itself when everything below is visible, and otherwise without source or hidden
  children.
  */
  function Shown(m: Machinery, v: View, id: Id): SummaryNode
    requires Grounded(v) && id in v.seen
  {
    var n := v.nodes[id];
    if Whole(v, id) then n
    else n.(source := "", childIds := VisibleOf(v.seen, n.childIds), astHash := EffectiveHash(m, v, id))
  }

  function ChildSummaries(v: View, ids: seq<Id>, summaries: map<Id, string>): seq<ChildSummary>
    requires forall c :: c in ids ==> c in v.nodes
    requires forall c :: c in ids && c in v.seen ==> c in summaries
  {
    if ids == [] then []
    else
      var rest := ChildSummaries(v, ids[1..], summaries);
      if ids[0] in v.seen then [ChildSummary(ids[0], v.nodes[ids[0]].level, summaries[ids[0]])] + rest else rest
  }

  // ---------------------------------------------------------------- the reference: no cache

  function Generate(m: Machinery, n: SummaryNode, kids: seq<ChildSummary>): Option<string> {
    var s := m.model(n, kids);
    if s.None? || m.blank(s.value) then None else s
  }

  function Plain(m: Machinery, v: View, id: Id): Option<string>
    requires Grounded(v) && id in v.seen
    decreases v.nodes[id].level, |v.nodes[id].childIds| + 1
  {
    var kids := PlainKids(m, v, id, 0);
    if kids.None? then None else Generate(m, Shown(m, v, id), kids.value)
  }

  function PlainKids(m: Machinery, v: View, id: Id, k: nat): Option<seq<ChildSummary>>
    requires Grounded(v) && id in v.seen && k <= |v.nodes[id].childIds|
    decreases v.nodes[id].level, |v.nodes[id].childIds| - k
  {
    if k == |v.nodes[id].childIds| then Some([])
    else
      var c := v.nodes[id].childIds[k];
      var rest := PlainKids(m, v, id, k + 1);
      if c !in v.seen then rest
      else
        var s := Plain(m, v, c);
        if s.None? || rest.None? then None else Some([ChildSummary(c, v.nodes[c].level, s.value)] + rest.value)
  }

  // ---------------------------------------------------------------- the run

  datatype Progress = Progress(summaries: map<Id, string>, cache: map<CacheKey, string>, hits: nat, misses: nat)

  /** A run's end: how far it came, and the error that stopped it, if any. */
  datatype Outcome = Outcome(progress: Progress, error: Option<Error>)

  ghost predicate Covers(v: View, done: seq<Id>, summaries: map<Id, string>) {
    forall b :: b in summaries <==> b in done && b in v.seen
  }

  predicate KidsReady(v: View, id: Id, summaries: map<Id, string>)
    requires Grounded(v) && id in v.seen
  {
    forall c :: c in v.nodes[id].childIds && c in v.seen ==> c in summaries
  }

  function Step(m: Machinery, v: View, aclScope: string, p: Progress, id: Id): Outcome
    requires Grounded(v) && id in v.seen && KidsReady(v, id, p.summaries)
  {
    var key := Key(m, v, aclScope, id);
    if m.getFails(id) then Outcome(p, Some(CacheFailure))
    else if key in p.cache then
      if m.blank(p.cache[key]) then Outcome(p, Some(CacheFailure))
      else Outcome(p.(summaries := p.summaries[id := p.cache[key]], hits := p.hits + 1), None)
    else
      var s := Generate(m, Shown(m, v, id), ChildSummaries(v, v.nodes[id].childIds, p.summaries));
      if s.None? then Outcome(p, Some(ModelFailure))
      else
        match m.put(id)
        case Stored =>
          Outcome(Progress(p.summaries[id := s.value], p.cache[key := s.value], p.hits, p.misses + 1), None)
        case Raised(landed) =>
          Outcome(p.(cache := if landed then p.cache[key := s.value] else p.cache), Some(CacheFailure))
  }

  predicate Ordered(v: View, order: seq<Id>) {
    BottomUp(v.nodes, order) && v.seen <= Elements(order)
  }

  lemma OrderedIsGrounded(v: View, order: seq<Id>)
    requires Ordered(v, order)
    ensures Grounded(v)
  {
    hide BottomUp;
    forall id | id in v.seen
      ensures id in v.nodes && LinksDown(v.nodes, id)
    {
      InOrderMeansKnown(v.nodes, order, id);
      forall c | c in v.nodes[id].childIds ensures c in v.nodes && v.nodes[c].level < v.nodes[id].level {
        ChildrenStandBefore(v.nodes, order, id, c);
      }
    }
  }

  lemma NextIsReady(v: View, order: seq<Id>, i: nat, summaries: map<Id, string>)
    requires Ordered(v, order) && i < |order| && Covers(v, order[..i], summaries)
    ensures Grounded(v) && (order[i] in v.seen ==> KidsReady(v, order[i], summaries) && order[i] !in summaries)
  {
    OrderedIsGrounded(v, order);
    assert Placed(v.nodes, order[..i], order[i]);
  }

  lemma StepCovers(v: View, order: seq<Id>, i: nat, summaries: map<Id, string>, next: map<Id, string>)
    requires i < |order| && Covers(v, order[..i], summaries)
    requires if order[i] in v.seen then order[i] in next && next.Keys == summaries.Keys + {order[i]}
             else next == summaries
    ensures Covers(v, order[..i + 1], next)
  {
    assert order[..i + 1] == order[..i] + [order[i]];
  }

  /** Nodes outside the view are passed over; the first error ends the run. */
  function Run(m: Machinery, v: View, aclScope: string, order: seq<Id>, i: nat, p: Progress): Outcome
    requires Ordered(v, order) && i <= |order| && Covers(v, order[..i], p.summaries)
    decreases |order| - i
  {
    if i == |order| then Outcome(p, None)
    else
      NextIsReady(v, order, i, p.summaries);
      if order[i] !in v.seen then
        StepCovers(v, order, i, p.summaries, p.summaries);
        Run(m, v, aclScope, order, i + 1, p)
      else
        var o := Step(m, v, aclScope, p, order[i]);
        if o.error.Some? then o
        else
          StepCovers(v, order, i, p.summaries, o.progress.summaries);
          Run(m, v, aclScope, order, i + 1, o.progress)
  }

  function Begin(cache: map<CacheKey, string>): Progress {
    Progress(map[], cache, 0, 0)
  }

  function FullRun(m: Machinery, v: View, aclScope: string, order: seq<Id>, cache: map<CacheKey, string>): Outcome
    requires Ordered(v, order)
  {
    Run(m, v, aclScope, order, 0, Begin(cache))
  }

  // ---------------------------------------------------------------- any model: counts, coverage, cache growth

  ghost predicate Grown(cache: map<CacheKey, string>, later: map<CacheKey, string>) {
    forall k :: k in cache ==> k in later && later[k] == cache[k]
  }

  lemma StepAddsOne(m: Machinery, v: View, aclScope: string, p: Progress, id: Id)
    requires Grounded(v) && id in v.seen && KidsReady(v, id, p.summaries)
    ensures var o := Step(m, v, aclScope, p, id);
            && Grown(p.cache, o.progress.cache)
            && if o.error.Some? then o.progress.(cache := p.cache) == p
               else
                 && o.progress.summaries.Keys == p.summaries.Keys + {id}
                 && o.progress.hits + o.progress.misses == p.hits + p.misses + 1
  {
    hide Grounded, Key, Shown, Generate, ChildSummaries;
  }

  lemma {:induction false} RunAccounts(m: Machinery, v: View, aclScope: string, order: seq<Id>, i: nat, p: Progress)
    requires Ordered(v, order) && i <= |order| && Covers(v, order[..i], p.summaries)
    requires p.hits + p.misses == |p.summaries|
    ensures var o := Run(m, v, aclScope, order, i, p);
            && o.progress.hits + o.progress.misses == |o.progress.summaries|
            && (o.error.None? ==> Covers(v, order, o.progress.summaries))
            && Grown(p.cache, o.progress.cache)
    decreases |order| - i
  {
    hide Ordered, Step, KidsReady, Grounded, Covers;
    if i == |order| {
      assert order[..i] == order;
    } else {
      NextIsReady(v, order, i, p.summaries);
      if order[i] !in v.seen {
        StepCovers(v, order, i, p.summaries, p.summaries);
        RunAccounts(m, v, aclScope, order, i + 1, p);
      } else {
        var o := Step(m, v, aclScope, p, order[i]);
        StepAddsOne(m, v, aclScope, p, order[i]);
        if o.error.None? {
          assert |p.summaries.Keys + {order[i]}| == |p.summaries| + 1;
          StepCovers(v, order, i, p.summaries, o.progress.summaries);
          RunAccounts(m, v, aclScope, order, i + 1, o.progress);
        }
      }
    }
  }

  /**
  A finished run summarized exactly the view, counted each node once as a hit or a miss, and changed no cached entry.
  */
  lemma FinishedRunCoversTheView(m: Machinery, v: View, aclScope: string, order: seq<Id>, cache: map<CacheKey, string>)
    requires Ordered(v, order) && FullRun(m, v, aclScope, order, cache).error.None?
    ensures var p := FullRun(m, v, aclScope, order, cache).progress;
            p.summaries.Keys == v.seen && p.hits + p.misses == |v.seen| && Grown(cache, p.cache)
  {
    hide Run, Ordered;
    RunAccounts(m, v, aclScope, order, 0, Begin(cache));
    var p := FullRun(m, v, aclScope, order, cache).progress;
    assert p.summaries.Keys == v.seen by {
      assert v.seen <= Elements(order) by { SeenIsOrdered(v, order); }
    }
  }

  lemma SeenIsOrdered(v: View, order: seq<Id>)
    requires Ordered(v, order)
    ensures v.seen <= Elements(order)
  {
  }

  // ---------------------------------------------------------------- a model that depends only on the key

  ghost predicate Sound(cache: map<CacheKey, string>, f: CacheKey -> string) {
    forall k :: k in cache ==> cache[k] == f(k)
  }

  function Meant(m: Machinery, v: View, aclScope: string, f: CacheKey -> string): map<Id, string>
    requires Grounded(v)
  {
    map id | id in v.seen :: f(Key(m, v, aclScope, id))
  }

  /**
  On this view the model's answer, given children that carry their own meaning, is what its cache key stands for, and
  never blank.
  */
  ghost predicate KeyedModel(m: Machinery, v: View, aclScope: string, f: CacheKey -> string)
    requires Grounded(v)
  {
    forall id :: id in v.seen ==>
      Generate(m, Shown(m, v, id), ChildSummaries(v, v.nodes[id].childIds, Meant(m, v, aclScope, f)))
        == Some(f(Key(m, v, aclScope, id))) && !m.blank(f(Key(m, v, aclScope, id)))
  }

  lemma {:induction false} SameChildren(v: View, ids: seq<Id>, a: map<Id, string>, b: map<Id, string>)
    requires forall c :: c in ids ==> c in v.nodes
    requires forall c :: c in ids && c in v.seen ==> c in a && c in b && a[c] == b[c]
    ensures ChildSummaries(v, ids, a) == ChildSummaries(v, ids, b)
  {
    if ids != [] { SameChildren(v, ids[1..], a, b); }
  }

  /** The cache-free reference is the meaning of the key. */
  lemma {:induction false} PlainIsMeant(m: Machinery, v: View, aclScope: string, f: CacheKey -> string, id: Id)
    requires Grounded(v) && id in v.seen && KeyedModel(m, v, aclScope, f)
    ensures Plain(m, v, id) == Some(f(Key(m, v, aclScope, id)))
    decreases v.nodes[id].level, |v.nodes[id].childIds| + 1
  {
    hide Key, Shown, Generate, ChildSummaries;
    PlainKidsAreMeant(m, v, aclScope, f, id, 0);
    assert v.nodes[id].childIds[0..] == v.nodes[id].childIds;
  }

  lemma {:induction false} PlainKidsAreMeant(m: Machinery, v: View, aclScope: string, f: CacheKey -> string, id: Id,
                                             k: nat)
    requires Grounded(v) && id in v.seen && KeyedModel(m, v, aclScope, f) && k <= |v.nodes[id].childIds|
    ensures PlainKids(m, v, id, k) == Some(ChildSummaries(v, v.nodes[id].childIds[k..], Meant(m, v, aclScope, f)))
    decreases v.nodes[id].level, |v.nodes[id].childIds| - k
  {
    hide Key, Shown, Generate, KeyedModel;
    var kids := v.nodes[id].childIds;
    if k < |kids| {
      PlainKidsAreMeant(m, v, aclScope, f, id, k + 1);
      assert kids[k..][0] == kids[k] && kids[k..][1..] == kids[k + 1..];
      if kids[k] in v.seen { PlainIsMeant(m, v, aclScope, f, kids[k]); }
    }
  }

  predicate ReliableAt(m: Machinery, id: Id) {
    !m.getFails(id) && m.put(id) == Stored
  }

  /** No access to the cache raises. */
  ghost predicate Reliable(m: Machinery, v: View) {
    forall id :: id in v.seen ==> ReliableAt(m, id)
  }

  /** Every summary so far is the meaning of its key, and so is everything cached; what is summarized is cached. */
  ghost predicate Faithful(m: Machinery, v: View, aclScope: string, f: CacheKey -> string, p: Progress)
    requires Grounded(v)
  {
    && Sound(p.cache, f)
    && forall b :: b in p.summaries && b in v.seen ==>
         p.summaries[b] == f(Key(m, v, aclScope, b)) && Key(m, v, aclScope, b) in p.cache
  }

  lemma StepIsFaithful(m: Machinery, v: View, aclScope: string, f: CacheKey -> string, p: Progress, id: Id)
    requires Grounded(v) && id in v.seen && KidsReady(v, id, p.summaries)
    requires KeyedModel(m, v, aclScope, f) && Faithful(m, v, aclScope, f, p)
    ensures Faithful(m, v, aclScope, f, Step(m, v, aclScope, p, id).progress)
    ensures var error := Step(m, v, aclScope, p, id).error;
            error.None? || (error.value == CacheFailure && !ReliableAt(m, id))
    ensures Key(m, v, aclScope, id) in p.cache ==> Step(m, v, aclScope, p, id).progress.misses == p.misses
  {
    hide Grounded, Key, Shown, Generate, ChildSummaries;
    KidsKnown(v, id);
    var kids := v.nodes[id].childIds;
    var meant := Meant(m, v, aclScope, f);
    SameChildren(v, kids, p.summaries, meant);
    assert Generate(m, Shown(m, v, id), ChildSummaries(v, kids, meant)) == Some(f(Key(m, v, aclScope, id)));
  }

  lemma KidsKnown(v: View, id: Id)
    requires Grounded(v) && id in v.seen
    ensures id in v.nodes && forall c :: c in v.nodes[id].childIds ==> c in v.nodes
  {
  }

  lemma {:induction false} RunIsFaithful(m: Machinery, v: View, aclScope: string, f: CacheKey -> string,
                                         order: seq<Id>, i: nat, p: Progress)
    requires Ordered(v, order) && i <= |order| && Covers(v, order[..i], p.summaries) && Grounded(v)
    requires KeyedModel(m, v, aclScope, f) && Faithful(m, v, aclScope, f, p)
    ensures var o := Run(m, v, aclScope, order, i, p);
            && Faithful(m, v, aclScope, f, o.progress)
            && (o.error.None? || (o.error.value == CacheFailure && !Reliable(m, v)))
            && ((forall b :: b in v.seen ==> Key(m, v, aclScope, b) in p.cache) ==> o.progress.misses == p.misses)
    decreases |order| - i
  {
    hide Ordered, Key, Step, KidsReady, Grounded, KeyedModel, Faithful;
    if i < |order| {
      NextIsReady(v, order, i, p.summaries);
      if order[i] !in v.seen {
        StepCovers(v, order, i, p.summaries, p.summaries);
        RunIsFaithful(m, v, aclScope, f, order, i + 1, p);
      } else {
        StepIsFaithful(m, v, aclScope, f, p, order[i]);
        var o := Step(m, v, aclScope, p, order[i]);
        StepAddsOne(m, v, aclScope, p, order[i]);
        if o.error.None? {
          StepCovers(v, order, i, p.summaries, o.progress.summaries);
          RunIsFaithful(m, v, aclScope, f, order, i + 1, o.progress);
        }
      }
    }
  }

  /**
  The cache is transparent: when the model depends only on its key and the cache holds only such answers, every run
  keeps the cache sound and can fail only because the cache raised; a run that succeeds gives every node of the view
  the summary it would get without any cache, and the cache then holds the whole view.
  */
  lemma CachedEqualsUncached(m: Machinery, v: View, aclScope: string, f: CacheKey -> string, order: seq<Id>,
                             cache: map<CacheKey, string>)
    requires Ordered(v, order) && Grounded(v) && KeyedModel(m, v, aclScope, f) && Sound(cache, f)
    ensures var o := FullRun(m, v, aclScope, order, cache);
            && Sound(o.progress.cache, f) && (o.error.None? || (o.error.value == CacheFailure && !Reliable(m, v)))
            && (o.error.None? ==>
                  && o.progress.summaries.Keys == v.seen
                  && forall id :: id in v.seen ==>
                       Some(o.progress.summaries[id]) == Plain(m, v, id) && Key(m, v, aclScope, id) in o.progress.cache)
  {
    hide Run, Ordered, Key, KeyedModel, Plain, Grounded;
    RunIsFaithful(m, v, aclScope, f, order, 0, Begin(cache));
    if FullRun(m, v, aclScope, order, cache).error.None? { FinishedRunCoversTheView(m, v, aclScope, order, cache); }
    forall id | id in v.seen ensures Plain(m, v, id) == Some(f(Key(m, v, aclScope, id))) {
      PlainIsMeant(m, v, aclScope, f, id);
    }
  }

  /**
  With a cache that works, a run right after another on the same view is served from the cache alone, with the same
  summaries.
  */
  lemma SecondRunOnlyHits(m: Machinery, v: View, aclScope: string, f: CacheKey -> string, order: seq<Id>,
                          cache: map<CacheKey, string>)
    requires Ordered(v, order) && Grounded(v) && KeyedModel(m, v, aclScope, f) && Sound(cache, f) && Reliable(m, v)
    ensures var first := FullRun(m, v, aclScope, order, cache);
            var second := FullRun(m, v, aclScope, order, first.progress.cache);
            && second.error.None? && second.progress.misses == 0 && second.progress.hits == |v.seen|
            && second.progress.summaries == first.progress.summaries
  {
    hide Run, Ordered, Key, KeyedModel, Plain, Grounded;
    CachedEqualsUncached(m, v, aclScope, f, order, cache);
    var warm := FullRun(m, v, aclScope, order, cache).progress.cache;
    CachedEqualsUncached(m, v, aclScope, f, order, warm);
    RunIsFaithful(m, v, aclScope, f, order, 0, Begin(warm));
    FinishedRunCoversTheView(m, v, aclScope, order, warm);
    var a, b :=
      FullRun(m, v, aclScope, order, cache).progress.summaries, FullRun(m, v, aclScope, order, warm).progress.summaries;
    assert forall id :: id in v.seen ==> a[id] == b[id];
  }

  // ---------------------------------------------------------------- completeness

  /** Everything below `id` may be read by the caller. */
  ghost predicate AllBelowAuthorized(nodes: Hierarchy, s: Scope, id: Id) {
    forall b :: Reaches(nodes, id, b) ==> b in nodes && Authorized(nodes[b], s)
  }

  ghost predicate IsViewOf(v: View, s: Scope, root: Id) {
    forall b :: b in v.seen <==> InView(v.nodes, s, root, b)
  }

  lemma {:induction false} WholeReachesAuthorized(v: View, s: Scope, root: Id, id: Id, b: Id, n: nat)
    requires Grounded(v) && IsViewOf(v, s, root) && id in v.seen && Whole(v, id) && Walk(v.nodes, id, b, n)
    ensures b in v.nodes && Authorized(v.nodes[b], s)
    decreases n
  {
    hide Authorized, InView, Grounded;
    KidsKnown(v, id);
    if n == 0 {
      ViewIsAuthorized(v.nodes, s, root, id);
    } else {
      var c :| c in v.nodes[id].childIds && Walk(v.nodes, c, b, n - 1);
      WholeReachesAuthorized(v, s, root, c, b, n - 1);
    }
  }

  lemma {:induction false} AuthorizedBelowIsWhole(v: View, s: Scope, root: Id, id: Id)
    requires Grounded(v) && IsViewOf(v, s, root) && id in v.seen && AllBelowAuthorized(v.nodes, s, id)
    ensures Whole(v, id)
    decreases v.nodes[id].level
  {
    hide Authorized, InView, Reaches;
    forall c | c in v.nodes[id].childIds ensures c in v.seen && Whole(v, c) {
      ReachesItself(v.nodes, c);
      ReachesThroughChild(v.nodes, id, c, c);
      ViewSpreads(v.nodes, s, root, id, c);
      forall b | Reaches(v.nodes, c, b) ensures Reaches(v.nodes, id, b) { ReachesThroughChild(v.nodes, id, c, b); }
      AuthorizedBelowIsWhole(v, s, root, c);
    }
  }

  /** A summarized node is complete exactly when the caller may read everything below it. */
  lemma CompleteMeansAllAuthorized(v: View, s: Scope, root: Id, id: Id)
    requires Grounded(v) && IsViewOf(v, s, root) && id in v.seen
    ensures Whole(v, id) <==> AllBelowAuthorized(v.nodes, s, id)
  {
    hide Authorized, InView;
    if Whole(v, id) {
      forall b | Reaches(v.nodes, id, b) ensures b in v.nodes && Authorized(v.nodes[b], s) {
        var n: nat :| Walk(v.nodes, id, b, n);
        WholeReachesAuthorized(v, s, root, id, b, n);
      }
    }
    if AllBelowAuthorized(v.nodes, s, id) { AuthorizedBelowIsWhole(v, s, root, id); }
  }
}
