/**
Packing ranked candidates into a token budget: deduplication, the U-shaped order, and the sections.

Scores and fractions are reals. Text lengths are counted in bytes, one character each. Quotas truncate towards zero.
*/
module Packing {
  import opened Common
  import opened Sorting

  datatype Provenance = Provenance(repo: string, path: string, commit: string, startLine: int, endLine: int)

  datatype Ranked = Ranked(nodeId: string, name: string, sourceText: string, hopDistance: Option<real>,
                           provenance: Option<Provenance>, impactScoreNorm: real, finalScore: real)

  datatype TokenBudget = TokenBudget(total: int, definitionsFraction: real, relationsFraction: real,
                                     fullSourceFraction: real,
                                     fullSourceTopK: int, fullSourceImpactScoreThreshold: real)

  datatype Fragment = Fragment(nodeId: string, text: string, citation: string, tokenCount: nat)

  datatype PackedContext = PackedContext(order: seq<string>, definitions: seq<Fragment>, relations: seq<Fragment>,
                                         fullSource: seq<Fragment>, totalTokens: nat)

  // ---------------------------------------------------------------- sorting and deduplication

  function Ids(nodes: seq<Ranked>): seq<string> {
    seq(|nodes|, i requires 0 <= i < |nodes| => nodes[i].nodeId)
  }

  function FinalScore(n: Ranked): real {
    n.finalScore
  }

  /** The first entry of every id. */
  function Dedup(nodes: seq<Ranked>): seq<Ranked> {
    if nodes == [] then []
    else
      var kept, last := Dedup(nodes[..|nodes| - 1]), nodes[|nodes| - 1];
      if last.nodeId in Ids(kept) then kept else kept + [last]
  }

  ghost predicate DistinctIds(nodes: seq<Ranked>) {
    forall i, j :: 0 <= i < j < |nodes| ==> nodes[i].nodeId != nodes[j].nodeId
  }

  lemma IdsMembers(nodes: seq<Ranked>)
    ensures forall id :: id in Ids(nodes) <==> exists i :: 0 <= i < |nodes| && nodes[i].nodeId == id
  {
    assert forall i :: 0 <= i < |nodes| ==> Ids(nodes)[i] == nodes[i].nodeId;
  }

  lemma {:induction false} DedupKeepsFirst(nodes: seq<Ranked>)
    ensures DistinctIds(Dedup(nodes))
    ensures forall r :: r in Dedup(nodes) ==> r in nodes
    ensures forall id :: id in Ids(Dedup(nodes)) <==> id in Ids(nodes)
  {
    if nodes != [] {
      var front, last := nodes[..|nodes| - 1], nodes[|nodes| - 1];
      var kept := Dedup(front);
      DedupKeepsFirst(front);
      IdsMembers(kept);
      assert nodes == front + [last] && Ids(nodes) == Ids(front) + [last.nodeId];
      assert Ids(kept + [last]) == Ids(kept) + [last.nodeId];
    }
  }

  lemma {:induction false} DedupDescends(nodes: seq<Ranked>)
    requires Descending(nodes, FinalScore)
    ensures Descending(Dedup(nodes), FinalScore)
  {
    hide Descending;
    if nodes == [] {
      assert Dedup(nodes) == nodes;
    } else {
      var front, last := nodes[..|nodes| - 1], nodes[|nodes| - 1];
      LastIsLeast(nodes, FinalScore);
      DedupDescends(front);
      DedupKeepsFirst(front);
      assert forall x :: x in front ==> x in nodes;
      DescendingAppend(Dedup(front), last, FinalScore);
    }
  }

  /** `r`'s id is kept, at a score no lower than `r`'s. */
  ghost predicate Represented(kept: seq<Ranked>, r: Ranked) {
    exists k :: 0 <= k < |kept| && kept[k].nodeId == r.nodeId && kept[k].finalScore >= r.finalScore
  }

  lemma {:induction false} DedupRepresents(nodes: seq<Ranked>, r: Ranked)
    requires Descending(nodes, FinalScore) && r in nodes
    ensures Represented(Dedup(nodes), r)
    decreases |nodes|
  {
    hide Descending;
    var front, last := nodes[..|nodes| - 1], nodes[|nodes| - 1];
    var kept := Dedup(front);
    LastIsLeast(nodes, FinalScore);
    if r in front {
      DedupRepresents(front, r);
      var k :| 0 <= k < |kept| && kept[k].nodeId == r.nodeId && kept[k].finalScore >= r.finalScore;
      assert Dedup(nodes)[k] == kept[k];
    } else {
      assert r == last;
      if last.nodeId in Ids(kept) {
        var k :| 0 <= k < |kept| && Ids(kept)[k] == last.nodeId;
        DedupKeepsFirst(front);
        assert kept[k] in front && kept[k] in nodes;
        assert Dedup(nodes)[k] == kept[k];
      } else {
        assert Dedup(nodes)[|kept|] == last;
      }
    }
  }

  /** The candidates: sorted, then one per node id. */
  function Candidates(ranked: seq<Ranked>): seq<Ranked> {
    Dedup(Sort(ranked, FinalScore))
  }

  /** Every id once, at its highest score, by falling score. */
  lemma CandidatesAreTheBest(ranked: seq<Ranked>)
    ensures var c := Candidates(ranked);
            && Descending(c, FinalScore) && DistinctIds(c)
            && (forall r :: r in c ==> r in ranked)
            && forall r :: r in ranked ==> Represented(c, r)
  {
    hide Sort, Dedup, Represented, Descending, DistinctIds;
    var s := Sort(ranked, FinalScore);
    SortIsStable(ranked, FinalScore, 0.0);
    SameMembers(s, ranked);
    DedupKeepsFirst(s);
    DedupDescends(s);
    forall r | r in ranked ensures Represented(Dedup(s), r) { DedupRepresents(s, r); }
  }

  // ---------------------------------------------------------------- the U-shaped order

  /** The best first, the second best last, and so on towards the middle. */
  function UOrder<T>(s: seq<T>): seq<T> {
    seq(|s|, j requires 0 <= j < |s| => if 2 * j < |s| then s[2 * j] else s[2 * (|s| - 1 - j) + 1])
  }

  lemma UOrderPeels<T>(s: seq<T>)
    requires |s| >= 2
    ensures UOrder(s) == [s[0]] + UOrder(s[2..]) + [s[1]]
  {
    var n := |s|;
    var peeled := [s[0]] + UOrder(s[2..]) + [s[1]];
    forall j | 0 <= j < n ensures UOrder(s)[j] == peeled[j] {
      if 0 < j < n - 1 { assert peeled[j] == UOrder(s[2..])[j - 1]; }
    }
  }

  lemma {:induction false} UOrderPermutes<T>(s: seq<T>)
    ensures multiset(UOrder(s)) == multiset(s)
    decreases |s|
  {
    if |s| < 2 {
      assert UOrder(s) == s;
    } else {
      UOrderPeels(s);
      UOrderPermutes(s[2..]);
      assert s == [s[0]] + [s[1]] + s[2..];
    }
  }

  ghost predicate FallsThenRises(u: seq<Ranked>) {
    && (forall i, j :: 0 <= i < j < |u| && 2 * j < |u| ==> u[i].finalScore >= u[j].finalScore)
    && (forall i, j :: 0 <= i < j < |u| && 2 * i >= |u| - 1 ==> u[i].finalScore <= u[j].finalScore)
  }

  /** In U order the scores fall up to the middle and rise after it. */
  lemma UOrderFallsThenRises(s: seq<Ranked>)
    requires Descending(s, FinalScore)
    ensures FallsThenRises(UOrder(s))
  {
  }

  lemma UOrderOfIds(s: seq<Ranked>)
    ensures Ids(UOrder(s)) == UOrder(Ids(s))
  {
  }

  // ---------------------------------------------------------------- fragments

  function TokenCount(s: string): nat {
    |s| / 4
  }

  function FirstLine(s: string): string {
    if s == "" || s[0] == '\n' then "" else [s[0]] + FirstLine(s[1..])
  }

  function Decimal(x: int): string {
    if x < 0 then "-" + Itoa(0 - x) else Itoa(x)
  }

  /** The integer part, towards zero. */
  function Truncate(x: real): int {
    if x >= 0.0 then x.Floor else 0 - (0.0 - x).Floor
  }

  function Citation(p: Option<Provenance>): string {
    if p.None? then "provenance non disponibile"
    else
      p.value.repo + "/" + p.value.path + ":" + Decimal(p.value.startLine) + "-" + Decimal(p.value.endLine)
      + "@" + p.value.commit
  }

  function FragmentOf(n: Ranked, text: string): Fragment {
    Fragment(n.nodeId, text, Citation(n.provenance), TokenCount(text) + TokenCount(Citation(n.provenance)))
  }

  function DefinitionText(n: Ranked): string {
    if FirstLine(n.sourceText) == "" then n.name else n.name + ": " + FirstLine(n.sourceText)
  }

  function RelationText(n: Ranked): string {
    if n.hopDistance.None? then n.name else n.name + " (hop " + Decimal(Truncate(n.hopDistance.value)) + ")"
  }

  function Fragments(nodes: seq<Ranked>, text: Ranked -> string): seq<Fragment> {
    seq(|nodes|, i requires 0 <= i < |nodes| => FragmentOf(nodes[i], text(nodes[i])))
  }

  function Tokens(frags: seq<Fragment>): nat {
    if frags == [] then 0 else Tokens(frags[..|frags| - 1]) + frags[|frags| - 1].tokenCount
  }

  function Quota(budget: TokenBudget, fraction: real): int {
    Truncate(budget.total as real * fraction)
  }

  // ---------------------------------------------------------------- selection

  /** How many fragments are taken from the first `k` on: up to the first that does not fit. */
  function Fit(frags: seq<Fragment>, quota: int, k: nat): (n: nat)
    requires k <= |frags|
    ensures k <= n <= |frags|
    decreases |frags| - k
  {
    if k == |frags| || Tokens(frags[..k]) + frags[k].tokenCount > quota then k else Fit(frags, quota, k + 1)
  }

  lemma TokensStep(frags: seq<Fragment>, k: nat)
    requires k < |frags|
    ensures Tokens(frags[..k + 1]) == Tokens(frags[..k]) + frags[k].tokenCount
  {
    assert frags[..k + 1][..k] == frags[..k];
  }

  /** The fit is the longest prefix within the quota, or what was taken regardless. */
  lemma {:induction false} FitIsLongest(frags: seq<Fragment>, quota: int, k: nat)
    requires k <= |frags|
    ensures var n := Fit(frags, quota, k);
            && k <= n <= |frags| && (n > k ==> Tokens(frags[..n]) <= quota)
            && (n < |frags| ==> Tokens(frags[..n + 1]) > quota)
    decreases |frags| - k
  {
    hide Tokens;
    if k < |frags| {
      TokensStep(frags, k);
      if Tokens(frags[..k]) + frags[k].tokenCount <= quota { FitIsLongest(frags, quota, k + 1); }
    }
  }

  function EligibleNode(n: Ranked, budget: TokenBudget): bool {
    n.hopDistance == Some(0.0) || n.impactScoreNorm > budget.fullSourceImpactScoreThreshold
  }

  /**
  The eligible candidates from `i` on, stopping once `fullSourceTopK` are found; the test comes after each candidate.
  */
  function EligibleFrom(nodes: seq<Ranked>, budget: TokenBudget, i: nat, found: seq<Ranked>): seq<Ranked>
    requires i <= |nodes|
    decreases |nodes| - i
  {
    if i == |nodes| then found
    else
      var next := if EligibleNode(nodes[i], budget) then found + [nodes[i]] else found;
      if |next| >= budget.fullSourceTopK then next else EligibleFrom(nodes, budget, i + 1, next)
  }

  /** Every eligible candidate. */
  function AllEligible(nodes: seq<Ranked>, budget: TokenBudget): seq<Ranked> {
    if nodes == [] then []
    else
      AllEligible(nodes[..|nodes| - 1], budget)
      + if EligibleNode(nodes[|nodes| - 1], budget) then [nodes[|nodes| - 1]] else []
  }

  /** Eligible are the targets themselves and the nodes above the threshold, and all of them. */
  lemma {:induction false} EligibleAreExact(nodes: seq<Ranked>, budget: TokenBudget)
    ensures forall r :: r in AllEligible(nodes, budget) <==>
              r in nodes && (r.hopDistance == Some(0.0) || r.impactScoreNorm > budget.fullSourceImpactScoreThreshold)
  {
    if nodes != [] {
      assert nodes == nodes[..|nodes| - 1] + [nodes[|nodes| - 1]];
      EligibleAreExact(nodes[..|nodes| - 1], budget);
    }
  }

  lemma {:induction false} EligibleGrows(nodes: seq<Ranked>, budget: TokenBudget, i: nat)
    requires i <= |nodes|
    ensures AllEligible(nodes[..i], budget) <= AllEligible(nodes, budget)
  {
    if i < |nodes| {
      assert nodes[..|nodes| - 1][..i] == nodes[..i];
      EligibleGrows(nodes[..|nodes| - 1], budget, i);
    } else {
      assert nodes[..i] == nodes;
    }
  }

  /** With room for at least one, these are the first `fullSourceTopK` of the eligible candidates. */
  lemma {:induction false} EligibleIsAPrefix(nodes: seq<Ranked>, budget: TokenBudget, i: nat)
    requires i <= |nodes| && |AllEligible(nodes[..i], budget)| < budget.fullSourceTopK
    ensures var found := EligibleFrom(nodes, budget, i, AllEligible(nodes[..i], budget));
            && found <= AllEligible(nodes, budget)
            && |found| == if |AllEligible(nodes, budget)| <= budget.fullSourceTopK then |AllEligible(nodes, budget)|
                          else budget.fullSourceTopK
    decreases |nodes| - i
  {
    if i == |nodes| {
      assert nodes[..i] == nodes;
    } else {
      var upTo := nodes[..i + 1];
      assert upTo[..|upTo| - 1] == nodes[..i] && upTo[|upTo| - 1] == nodes[i];
      var found := AllEligible(nodes[..i], budget);
      assert AllEligible(upTo, budget) == if EligibleNode(nodes[i], budget) then found + [nodes[i]] else found;
      EligibleGrows(nodes, budget, i + 1);
      if |AllEligible(nodes[..i + 1], budget)| < budget.fullSourceTopK { EligibleIsAPrefix(nodes, budget, i + 1); }
    }
  }

  predicate CapIsUsable(nodes: seq<Ranked>, budget: TokenBudget) {
    budget.fullSourceTopK >= 1 || (budget.fullSourceTopK == 0 && (nodes == [] || !EligibleNode(nodes[0], budget)))
  }

  /**
  The cap on full sources holds exactly when it is at least one, or is zero and the best candidate is not eligible.
  */
  lemma CapHoldsExactly(nodes: seq<Ranked>, budget: TokenBudget)
    ensures |EligibleFrom(nodes, budget, 0, [])| <= budget.fullSourceTopK <==> CapIsUsable(nodes, budget)
  {
    assert AllEligible(nodes[..0], budget) == [];
    if budget.fullSourceTopK >= 1 { EligibleIsAPrefix(nodes, budget, 0); }
  }

  // ---------------------------------------------------------------- reordering

  function FragmentIds(frags: seq<Fragment>): seq<string> {
    seq(|frags|, i requires 0 <= i < |frags| => frags[i].nodeId)
  }

  /** The last fragment of an id. */
  function ById(frags: seq<Fragment>): map<string, Fragment> {
    if frags == [] then map[]
    else ById(frags[..|frags| - 1])[frags[|frags| - 1].nodeId := frags[|frags| - 1]]
  }

  function Along(byId: map<string, Fragment>, order: seq<string>): seq<Fragment> {
    if order == [] then []
    else
      var last := order[|order| - 1];
      Along(byId, order[..|order| - 1]) + if last in byId then [byId[last]] else []
  }

  function Reorder(frags: seq<Fragment>, order: seq<string>): seq<Fragment> {
    Along(ById(frags), order)
  }

  ghost predicate NoRepeats(ids: seq<string>) {
    forall i, j :: 0 <= i < j < |ids| ==> ids[i] != ids[j]
  }

  lemma LastIsNew(front: seq<Fragment>, last: Fragment)
    requires NoRepeats(FragmentIds(front + [last]))
    ensures NoRepeats(FragmentIds(front)) && FragmentIds(front + [last]) == FragmentIds(front) + [last.nodeId]
    ensures forall f :: f in front ==> f.nodeId != last.nodeId
  {
    var ids := FragmentIds(front + [last]);
    assert forall i :: 0 <= i < |front| ==> ids[i] == FragmentIds(front)[i] == front[i].nodeId;
    assert forall i :: 0 <= i < |front| ==> ids[i] != ids[|front|];
  }

  lemma {:induction false} ByIdIsTheFragments(frags: seq<Fragment>)
    requires NoRepeats(FragmentIds(frags))
    ensures forall id :: id in ById(frags) <==> id in FragmentIds(frags)
    ensures forall f :: f in frags ==> f.nodeId in ById(frags) && ById(frags)[f.nodeId] == f
    ensures forall id :: id in ById(frags) ==> ById(frags)[id] in frags && ById(frags)[id].nodeId == id
  {
    if frags != [] {
      var front, last := frags[..|frags| - 1], frags[|frags| - 1];
      assert frags == front + [last];
      LastIsNew(front, last);
      hide NoRepeats;
      ByIdIsTheFragments(front);
    }
  }

  lemma {:induction false} AlongMembers(byId: map<string, Fragment>, order: seq<string>)
    requires forall id :: id in byId ==> byId[id].nodeId == id
    ensures forall f :: f in Along(byId, order) <==> f.nodeId in order && f.nodeId in byId && byId[f.nodeId] == f
  {
    if order != [] {
      assert order == order[..|order| - 1] + [order[|order| - 1]];
      AlongMembers(byId, order[..|order| - 1]);
    }
  }

  lemma {:induction false} AlongIsDistinct(byId: map<string, Fragment>, order: seq<string>)
    requires NoRepeats(order) && forall id :: id in byId ==> byId[id].nodeId == id
    ensures forall i, j :: 0 <= i < j < |Along(byId, order)| ==> Along(byId, order)[i] != Along(byId, order)[j]
  {
    if order != [] {
      var front, last := order[..|order| - 1], order[|order| - 1];
      AlongIsDistinct(byId, front);
      AlongMembers(byId, front);
      var before := Along(byId, front);
      forall i | 0 <= i < |before| ensures before[i].nodeId != last { assert before[i] in before; }
    }
  }

  /** The ids of `order` that are in `ids`, in order. */
  function Keep(order: seq<string>, ids: set<string>): seq<string> {
    if order == [] then []
    else Keep(order[..|order| - 1], ids) + if order[|order| - 1] in ids then [order[|order| - 1]] else []
  }

  lemma {:induction false} AlongFollowsOrder(byId: map<string, Fragment>, order: seq<string>, ids: set<string>)
    requires byId.Keys == ids && forall id :: id in byId ==> byId[id].nodeId == id
    ensures FragmentIds(Along(byId, order)) == Keep(order, ids)
  {
    if order != [] { AlongFollowsOrder(byId, order[..|order| - 1], ids); }
  }

  /** Reordering loses and repeats nothing, and follows the order. */
  lemma ReorderKeepsAll(frags: seq<Fragment>, order: seq<string>)
    requires NoRepeats(FragmentIds(frags)) && NoRepeats(order) && forall f :: f in frags ==> f.nodeId in order
    ensures multiset(Reorder(frags, order)) == multiset(frags)
    ensures FragmentIds(Reorder(frags, order)) == Keep(order, Elements(FragmentIds(frags)))
  {
    var byId := ById(frags);
    ByIdIsTheFragments(frags);
    AlongMembers(byId, order);
    AlongIsDistinct(byId, order);
    assert byId.Keys == Elements(FragmentIds(frags));
    AlongFollowsOrder(byId, order, Elements(FragmentIds(frags)));
    forall i, j | 0 <= i < j < |frags| ensures frags[i] != frags[j] {
      assert FragmentIds(frags)[i] != FragmentIds(frags)[j];
    }
    hide ById, Along, FragmentIds;
    SameMembersOnce(Reorder(frags, order), frags);
  }

  lemma {:induction false} TokensRemove(frags: seq<Fragment>, k: nat)
    requires k < |frags|
    ensures Tokens(frags) == Tokens(frags[..k] + frags[k + 1..]) + frags[k].tokenCount
  {
    var n := |frags| - 1;
    if k == n {
      assert frags[..k] + frags[k + 1..] == frags[..n];
    } else {
      var rest := frags[..k] + frags[k + 1..];
      assert rest[..|rest| - 1] == frags[..n][..k] + frags[..n][k + 1..];
      TokensRemove(frags[..n], k);
    }
  }

  lemma WithoutOne<T>(a: seq<T>, b: seq<T>) returns (k: nat)
    requires multiset(a) == multiset(b) && a != []
    ensures k < |b| && b[k] == a[|a| - 1] && multiset(b[..k] + b[k + 1..]) == multiset(a[..|a| - 1])
  {
    var front, last := a[..|a| - 1], a[|a| - 1];
    assert a == front + [last];
    assert last in multiset(b);
    k :| 0 <= k < |b| && b[k] == last;
    assert b == b[..k] + [last] + b[k + 1..];
    assert multiset(front) == multiset(a) - multiset{last};
    assert multiset(b[..k] + b[k + 1..]) == multiset(b) - multiset{last};
  }

  lemma {:induction false} TokensPermute(a: seq<Fragment>, b: seq<Fragment>)
    requires multiset(a) == multiset(b)
    ensures Tokens(a) == Tokens(b)
    decreases |a|
  {
    if a == [] {
      assert |b| == |multiset(b)|;
    } else {
      var k := WithoutOne(a, b);
      TokensPermute(a[..|a| - 1], b[..k] + b[k + 1..]);
      TokensRemove(b, k);
    }
  }

  // ---------------------------------------------------------------- the whole pack

  /** A section made of the first `n` fragments, the first `floor` of them taken regardless. */
  function SectionOf(frags: seq<Fragment>, order: seq<string>, quota: int, floor: nat): seq<Fragment>
    requires floor <= |frags|
  {
    Reorder(frags[..Fit(frags, quota, floor)], order)
  }

  function Floor(frags: seq<Fragment>): (n: nat)
    ensures n <= |frags|
  {
    if frags == [] then 0 else 1
  }

  function Pack(ranked: seq<Ranked>, budget: TokenBudget): PackedContext {
    var c := Candidates(ranked);
    var order := UOrder(Ids(c));
    var eligible := EligibleFrom(c, budget, 0, []);
    var d := Fragments(c, DefinitionText);
    var r := Fragments(c, RelationText);
    var f := Fragments(eligible, (n: Ranked) => n.sourceText);
    var definitions := SectionOf(d, order, Quota(budget, budget.definitionsFraction), Floor(d));
    var relations := SectionOf(r, order, Quota(budget, budget.relationsFraction), 0);
    var fullSource := SectionOf(f, order, Quota(budget, budget.fullSourceFraction), 0);
    PackedContext(order, definitions, relations, fullSource,
                  Tokens(definitions) + Tokens(relations) + Tokens(fullSource))
  }

  /**
  What a section holds: the longest prefix of its fragments within the quota (the first `floor` regardless), all of
  it, arranged along the order.
  */
  ghost predicate Section(out: seq<Fragment>, frags: seq<Fragment>, order: seq<string>, quota: int, floor: nat,
                          n: nat) {
    && floor <= n <= |frags|
    && multiset(out) == multiset(frags[..n]) && FragmentIds(out) == Keep(order, Elements(FragmentIds(frags[..n])))
    && Tokens(out) == Tokens(frags[..n]) && (n > floor ==> Tokens(out) <= quota)
    && (n < |frags| ==> Tokens(out) + frags[n].tokenCount > quota)
  }

  lemma SectionIsLongestPrefix(frags: seq<Fragment>, order: seq<string>, quota: int, floor: nat)
    requires floor <= |frags| && NoRepeats(FragmentIds(frags)) && NoRepeats(order) && forall f :: f in frags ==>
               f.nodeId in order
    ensures Section(SectionOf(frags, order, quota, floor), frags, order, quota, floor, Fit(frags, quota, floor))
  {
    var n := Fit(frags, quota, floor);
    FitIsLongest(frags, quota, floor);
    var taken := frags[..n];
    assert NoRepeats(FragmentIds(taken)) by {
      forall i, j | 0 <= i < j < n ensures FragmentIds(taken)[i] != FragmentIds(taken)[j] {
        assert FragmentIds(frags)[i] != FragmentIds(frags)[j];
      }
    }
    hide NoRepeats, FragmentIds, Fit, Reorder;
    ReorderKeepsAll(taken, order);
    TokensPermute(Reorder(taken, order), taken);
    if n < |frags| { TokensStep(frags, n); }
  }

  lemma CandidateFragments(nodes: seq<Ranked>, c: seq<Ranked>, text: Ranked -> string)
    requires DistinctIds(nodes) && forall r :: r in nodes ==> r in c
    ensures NoRepeats(FragmentIds(Fragments(nodes, text)))
    ensures forall f :: f in Fragments(nodes, text) ==> f.nodeId in Ids(c)
  {
    hide Ids;
    forall f | f in Fragments(nodes, text) ensures f.nodeId in Ids(c) {
      var i :| 0 <= i < |nodes| && Fragments(nodes, text)[i] == f;
      assert nodes[i] in c;
      IdOfMember(c, nodes[i]);
    }
  }

  lemma IdOfMember(c: seq<Ranked>, r: Ranked)
    requires r in c
    ensures r.nodeId in Ids(c)
  {
    var i :| 0 <= i < |c| && c[i] == r;
    assert Ids(c)[i] == r.nodeId;
  }

  lemma {:induction false} EligibleAreCandidates(nodes: seq<Ranked>, budget: TokenBudget, i: nat, found: seq<Ranked>)
    requires i <= |nodes| && DistinctIds(nodes) && DistinctIds(found) && forall r :: r in found ==> r in nodes[..i]
    ensures DistinctIds(EligibleFrom(nodes, budget, i, found))
    ensures forall r :: r in EligibleFrom(nodes, budget, i, found) ==> r in nodes
    decreases |nodes| - i
  {
    if i < |nodes| {
      var next := if EligibleNode(nodes[i], budget) then found + [nodes[i]] else found;
      assert nodes[..i + 1] == nodes[..i] + [nodes[i]];
      forall k | 0 <= k < |found| ensures found[k].nodeId != nodes[i].nodeId { assert found[k] in nodes[..i]; }
      assert DistinctIds(next);
      hide DistinctIds;
      if |next| < budget.fullSourceTopK { EligibleAreCandidates(nodes, budget, i + 1, next); }
    }
  }

  lemma UOrderOfDistinct(c: seq<Ranked>)
    requires DistinctIds(c)
    ensures NoRepeats(UOrder(Ids(c))) && forall id :: id in UOrder(Ids(c)) <==> id in Ids(c)
  {
    UOrderPermutes(Ids(c));
    SameMembers(UOrder(Ids(c)), Ids(c));
  }

  /**
  What packing promises: the order is the deduplicated candidates in U shape; each section is a longest prefix, in
  score order, of its fragments within its quota, rearranged along that order without loss; and the total is the
  sections' sum.
  */
  lemma PackKeepsItsPromises(ranked: seq<Ranked>, budget: TokenBudget)
    ensures var c := Candidates(ranked);
            var p := Pack(ranked, budget);
            var d, r := Fragments(c, DefinitionText), Fragments(c, RelationText);
            var f := Fragments(EligibleFrom(c, budget, 0, []), (n: Ranked) => n.sourceText);
            && p.order == Ids(UOrder(c)) && FallsThenRises(UOrder(c)) && multiset(UOrder(c)) == multiset(c)
            && NoRepeats(p.order) && multiset(p.order) == multiset(Ids(c))
            && (exists n :: Section(p.definitions, d, p.order, Quota(budget, budget.definitionsFraction), Floor(d), n))
            && (exists n :: Section(p.relations, r, p.order, Quota(budget, budget.relationsFraction), 0, n))
            && (exists n :: Section(p.fullSource, f, p.order, Quota(budget, budget.fullSourceFraction), 0, n))
            && p.totalTokens == Tokens(p.definitions) + Tokens(p.relations) + Tokens(p.fullSource)
  {
    hide Candidates, Fragments, UOrder, Ids, EligibleFrom, Section, SectionOf, Quota, Tokens;
    hide DistinctIds, NoRepeats, Fit, FallsThenRises;
    var c := Candidates(ranked);
    CandidatesAreTheBest(ranked);
    UOrderPermutes(c);
    UOrderFallsThenRises(c);
    UOrderOfIds(c);
    UOrderPermutes(Ids(c));
    UOrderOfDistinct(c);
    var order, eligible := UOrder(Ids(c)), EligibleFrom(c, budget, 0, []);
    assert DistinctIds([]) by { NoneDistinct(); }
    EligibleAreCandidates(c, budget, 0, []);
    CandidateFragments(c, c, DefinitionText);
    CandidateFragments(c, c, RelationText);
    CandidateFragments(eligible, c, (n: Ranked) => n.sourceText);
    var d := Fragments(c, DefinitionText);
    SectionIsLongestPrefix(d, order, Quota(budget, budget.definitionsFraction), Floor(d));
    SectionIsLongestPrefix(Fragments(c, RelationText), order, Quota(budget, budget.relationsFraction), 0);
    SectionIsLongestPrefix(Fragments(eligible, (n: Ranked) => n.sourceText), order,
                           Quota(budget, budget.fullSourceFraction), 0);
  }

  lemma NoneDistinct()
    ensures DistinctIds([])
  {
  }

  /** Relations and full source stay within quota, definitions within the larger of quota and their top fragment. */
  lemma SectionStaysInBudget(out: seq<Fragment>, frags: seq<Fragment>, order: seq<string>, quota: int, floor: nat,
                             n: nat)
    requires Section(out, frags, order, quota, floor, n) && floor <= 1
    ensures floor == 0 ==> Tokens(out) == 0 || Tokens(out) <= quota
    ensures floor == 1 ==> Tokens(out) == frags[0].tokenCount || Tokens(out) <= quota
  {
    hide FragmentIds, Keep;
    assert frags[..0] == [] && Tokens([]) == 0;
    if floor == 1 { TokensStep(frags, 0); }
  }

  // ---------------------------------------------------------------- what a fragment says

  /** `line` is the text up to its first line break. */
  ghost predicate IsFirstLine(line: string, text: string) {
    line <= text && '\n' !in line && (|line| == |text| || text[|line|] == '\n')
  }

  lemma {:induction false} FirstLineIsFirst(text: string)
    ensures IsFirstLine(FirstLine(text), text)
  {
    if text != "" && text[0] != '\n' {
      FirstLineIsFirst(text[1..]);
      assert text == [text[0]] + text[1..];
    }
  }

  /** `whole` is `x` without its fraction, towards zero. */
  ghost predicate IsIntegerPart(whole: int, x: real) {
    if x >= 0.0 then whole as real <= x < whole as real + 1.0 else whole as real - 1.0 < x <= whole as real
  }

  /** A fragment names its node, says where it comes from, and counts its text and its citation. */
  ghost predicate Cites(f: Fragment, n: Ranked) {
    && f.nodeId == n.nodeId && f.tokenCount == |f.text| / 4 + |f.citation| / 4
    && match n.provenance
       case None => f.citation == "provenance non disponibile"
       case Some(p) =>
         f.citation == p.repo + "/" + p.path + ":" + Decimal(p.startLine) + "-" + Decimal(p.endLine) + "@" + p.commit
  }

  /** A definition is the name with the first line of the source, if that has any text. */
  ghost predicate Defines(f: Fragment, n: Ranked) {
    exists line :: IsFirstLine(line, n.sourceText) && f.text == if line == "" then n.name else n.name + ": " + line
  }

  /** A relation is the name with the whole hops to it, if they are known. */
  ghost predicate Relates(f: Fragment, n: Ranked) {
    match n.hopDistance
    case None => f.text == n.name
    case Some(h) => exists hops :: IsIntegerPart(hops, h) && f.text == n.name + " (hop " + Decimal(hops) + ")"
  }

  /** A full source belongs to the target itself or to a node of high impact. */
  ghost predicate ShowsSource(f: Fragment, n: Ranked, budget: TokenBudget) {
    f.text == n.sourceText && (n.hopDistance == Some(0.0) || n.impactScoreNorm > budget.fullSourceImpactScoreThreshold)
  }

  /** Negative numbers, and only they, have a sign, and no two numbers read the same. */
  lemma DecimalTells(x: int, y: int)
    ensures Decimal(x) != "" && (Decimal(x)[0] == '-' <==> x < 0)
    ensures Decimal(x) == Decimal(y) ==> x == y
  {
    var a, b := if x < 0 then 0 - x else x, if y < 0 then 0 - y else y;
    ItoaStartsWithDigit(a);
    ItoaStartsWithDigit(b);
    if Decimal(x) == Decimal(y) {
      if x < 0 { assert Itoa(a) == Decimal(x)[1..] && Itoa(b) == Decimal(y)[1..]; }
      ItoaInjective(a, b);
    }
  }

  lemma {:induction false} ItoaStartsWithDigit(n: nat)
    ensures Itoa(n) != "" && '0' <= Itoa(n)[0] <= '9'
  {
    if n >= 10 { ItoaStartsWithDigit(n / 10); }
  }

  lemma {:induction false} EligibleQualify(nodes: seq<Ranked>, budget: TokenBudget, i: nat, found: seq<Ranked>)
    requires i <= |nodes| && forall r :: r in found ==> EligibleNode(r, budget)
    ensures forall r :: r in EligibleFrom(nodes, budget, i, found) ==> EligibleNode(r, budget)
    decreases |nodes| - i
  {
    if i < |nodes| {
      var next := if EligibleNode(nodes[i], budget) then found + [nodes[i]] else found;
      if |next| < budget.fullSourceTopK { EligibleQualify(nodes, budget, i + 1, next); }
    }
  }

  lemma SectionMember(out: seq<Fragment>, nodes: seq<Ranked>, text: Ranked -> string, order: seq<string>, quota: int,
                      floor: nat, n: nat, f: Fragment) returns (r: Ranked)
    requires Section(out, Fragments(nodes, text), order, quota, floor, n) && f in out
    ensures r in nodes && f.text == text(r) && Cites(f, r)
  {
    hide FragmentIds, Keep, Tokens, Decimal;
    var frags := Fragments(nodes, text);
    SameMembers(out, frags[..n]);
    var i :| 0 <= i < n && frags[i] == f;
    r := nodes[i];
  }

  /** Every packed fragment says what its section promises, of a ranked node; and the quotas are whole tokens. */
  lemma PackedFragmentsAreMeant(ranked: seq<Ranked>, budget: TokenBudget)
    ensures var p := Pack(ranked, budget);
            && (forall f :: f in p.definitions ==> exists n :: n in ranked && Cites(f, n) && Defines(f, n))
            && (forall f :: f in p.relations ==> exists n :: n in ranked && Cites(f, n) && Relates(f, n))
            && (forall f :: f in p.fullSource ==> exists n :: n in ranked && Cites(f, n) && ShowsSource(f, n, budget))
            && forall part :: IsIntegerPart(Quota(budget, part), budget.total as real * part)
  {
    hide Candidates, Fragments, UOrder, Ids, EligibleFrom, Section, Pack, Tokens, FirstLine, Decimal, Cites;
    hide IsFirstLine, FallsThenRises, NoRepeats;
    var c, p := Candidates(ranked), Pack(ranked, budget);
    var eligible := EligibleFrom(c, budget, 0, []);
    CandidatesAreTheBest(ranked);
    PackKeepsItsPromises(ranked, budget);
    EligibleQualify(c, budget, 0, []);
    assert DistinctIds([]);
    EligibleAreCandidates(c, budget, 0, []);
    forall f | f in p.definitions ensures exists n :: n in ranked && Cites(f, n) && Defines(f, n) {
      var k :| Section(p.definitions, Fragments(c, DefinitionText), p.order, Quota(budget, budget.definitionsFraction),
                       Floor(Fragments(c, DefinitionText)), k);
      var r := SectionMember(p.definitions, c, DefinitionText, p.order, Quota(budget, budget.definitionsFraction),
                             Floor(Fragments(c, DefinitionText)), k, f);
      FirstLineIsFirst(r.sourceText);
    }
    forall f | f in p.relations ensures exists n :: n in ranked && Cites(f, n) && Relates(f, n) {
      var k :| Section(p.relations, Fragments(c, RelationText), p.order, Quota(budget, budget.relationsFraction), 0, k);
      var r := SectionMember(p.relations, c, RelationText, p.order, Quota(budget, budget.relationsFraction), 0, k, f);
    }
    forall f | f in p.fullSource ensures exists n :: n in ranked && Cites(f, n) && ShowsSource(f, n, budget) {
      var text := (n: Ranked) => n.sourceText;
      var k :| Section(p.fullSource, Fragments(eligible, (n: Ranked) => n.sourceText), p.order,
                       Quota(budget, budget.fullSourceFraction), 0, k);
      var r := SectionMember(p.fullSource, eligible, (n: Ranked) => n.sourceText, p.order,
                             Quota(budget, budget.fullSourceFraction), 0, k, f);
    }
  }

  /** Whatever the quota, the best candidate has its definition. */
  lemma BestIsDefined(ranked: seq<Ranked>, budget: TokenBudget)
    requires ranked != []
    ensures exists n, f ::
              && n in ranked && (forall o :: o in ranked ==> o.finalScore <= n.finalScore)
              && f in Pack(ranked, budget).definitions && Cites(f, n) && Defines(f, n)
  {
    hide Candidates, UOrder, Ids, EligibleFrom, Section, Pack, Tokens, FirstLine, Decimal, Cites;
    hide IsFirstLine, FallsThenRises, NoRepeats, DistinctIds;
    var c, p := Candidates(ranked), Pack(ranked, budget);
    var d := Fragments(c, DefinitionText);
    CandidatesAreTheBest(ranked);
    PackKeepsItsPromises(ranked, budget);
    assert Represented(c, ranked[0]);
    var n := c[0];
    forall o | o in ranked ensures o.finalScore <= n.finalScore { assert Represented(c, o); }
    var k :| Section(p.definitions, d, p.order, Quota(budget, budget.definitionsFraction), Floor(d), k);
    FirstIsIn(p.definitions, d, p.order, Quota(budget, budget.definitionsFraction), k);
    FirstLineIsFirst(n.sourceText);
    FragmentCites(n, DefinitionText(n));
  }

  lemma FirstIsIn(out: seq<Fragment>, frags: seq<Fragment>, order: seq<string>, quota: int, n: nat)
    requires Section(out, frags, order, quota, Floor(frags), n) && frags != []
    ensures frags[0] in out
  {
    hide FragmentIds, Keep, Tokens;
    SameMembers(out, frags[..n]);
    assert frags[..n][0] == frags[0];
  }

  lemma FragmentCites(n: Ranked, text: string)
    ensures Cites(FragmentOf(n, text), n)
  {
  }
}
