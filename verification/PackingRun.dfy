/** Packing as it runs. The library's stable sort is taken as the function that specifies it. */
module PackingRun {
  import opened Common
  import opened Packing
  import opened Sorting

  method DedupSortedByScoreDesc(ranked: seq<Ranked>) returns (out: seq<Ranked>)
    ensures out == Candidates(ranked)
  {
    hide Sort;
    var sorted := Sort(ranked, FinalScore);
    var seen: set<string> := {};
    out := [];
    for i := 0 to |sorted|
      invariant out == Dedup(sorted[..i]) && seen == Elements(Ids(out))
    {
      assert sorted[..i + 1][..i] == sorted[..i];
      if sorted[i].nodeId !in seen {
        assert Ids(out + [sorted[i]]) == Ids(out) + [sorted[i].nodeId];
        ElementsOfAppend(Ids(out), sorted[i].nodeId);
        seen := seen + {sorted[i].nodeId};
        out := out + [sorted[i]];
      }
    }
    assert sorted[..|sorted|] == sorted;
  }

  /** Filling the array alternately from the front and from the back. */
  method FillUOrder(sorted: seq<Ranked>) returns (order: seq<string>)
    ensures order == UOrder(Ids(sorted))
  {
    var n := |sorted|;
    var out := new string[n](_ => "");
    var left, right := 0, n - 1;
    for i := 0 to n
      invariant left == (i + 1) / 2 && right == n - 1 - i / 2
      invariant forall j :: 0 <= j < left ==> out[j] == sorted[2 * j].nodeId
      invariant forall j :: right < j < n ==> out[j] == sorted[2 * (n - 1 - j) + 1].nodeId
    {
      if i % 2 == 0 {
        out[left] := sorted[i].nodeId;
        left := left + 1;
      } else {
        out[right] := sorted[i].nodeId;
        right := right - 1;
      }
    }
    order := out[..];
    forall j | 0 <= j < n ensures order[j] == UOrder(Ids(sorted))[j] {}
  }

  method ReorderByU(frags: seq<Fragment>, order: seq<string>) returns (out: seq<Fragment>)
    ensures out == Reorder(frags, order)
  {
    if frags == [] {
      NothingAlong(order);
      return [];
    }
    var byId: map<string, Fragment> := map[];
    for i := 0 to |frags|
      invariant byId == ById(frags[..i])
    {
      assert frags[..i + 1][..i] == frags[..i];
      byId := byId[frags[i].nodeId := frags[i]];
    }
    assert frags[..|frags|] == frags;
    out := [];
    for i := 0 to |order|
      invariant out == Along(byId, order[..i])
    {
      assert order[..i + 1][..i] == order[..i];
      if order[i] in byId { out := out + [byId[order[i]]]; }
    }
    assert order[..|order|] == order;
  }

  lemma {:induction false} NothingAlong(order: seq<string>)
    ensures Along(map[], order) == []
  {
    if order != [] { NothingAlong(order[..|order| - 1]); }
  }

  lemma FitTakes(frags: seq<Fragment>, quota: int, k: nat)
    requires k < |frags|
    ensures Fit(frags, quota, k) == if Tokens(frags[..k]) + frags[k].tokenCount > quota then k
                                    else Fit(frags, quota, k + 1)
  {
  }

  /**
  The loop shared by the sections: fragments in score order until one does not fit; with `keepFirst`, the first always
  does.
  */
  method SelectPrefix(nodes: seq<Ranked>, text: Ranked -> string, quota: int, keepFirst: bool)
    returns (out: seq<Fragment>)
    ensures var frags := Fragments(nodes, text);
            out == frags[..Fit(frags, quota, if keepFirst then Floor(frags) else 0)]
  {
    hide Tokens, Fit;
    ghost var frags := Fragments(nodes, text);
    ghost var floor := if keepFirst then Floor(frags) else 0;
    out := [];
    var used := 0;
    assert frags[..0] == [] && Tokens([]) == 0 by { NoTokens(); }
    var i := 0;
    while i < |nodes|
      invariant i <= |nodes| && out == frags[..i] && used == Tokens(frags[..i])
      invariant Fit(frags, quota, floor) == Fit(frags, quota, if floor <= i then i else floor)
      decreases |nodes| - i
    {
      var frag := FragmentOf(nodes[i], text(nodes[i]));
      TokensStep(frags, i);
      if !(keepFirst && i == 0) {
        FitTakes(frags, quota, i);
        if used + frag.tokenCount > quota { return; }
      }
      out := out + [frag];
      used := used + frag.tokenCount;
      i := i + 1;
    }
    assert frags[..|frags|] == frags;
    AllFit(frags, quota);
  }

  lemma NoTokens()
    ensures Tokens([]) == 0
  {
  }

  lemma AllFit(frags: seq<Fragment>, quota: int)
    ensures Fit(frags, quota, |frags|) == |frags|
  {
  }

  method PackDefinitions(sorted: seq<Ranked>, order: seq<string>, budget: TokenBudget) returns (out: seq<Fragment>)
    ensures var frags := Fragments(sorted, DefinitionText);
            out == SectionOf(frags, order, Quota(budget, budget.definitionsFraction), Floor(frags))
  {
    hide Fragments, Fit, Quota, Reorder;
    var taken := SelectPrefix(sorted, DefinitionText, Quota(budget, budget.definitionsFraction), true);
    out := ReorderByU(taken, order);
  }

  method PackRelations(sorted: seq<Ranked>, order: seq<string>, budget: TokenBudget) returns (out: seq<Fragment>)
    ensures out == SectionOf(Fragments(sorted, RelationText), order, Quota(budget, budget.relationsFraction), 0)
  {
    hide Fragments, Fit, Quota, Reorder;
    var taken := SelectPrefix(sorted, RelationText, Quota(budget, budget.relationsFraction), false);
    out := ReorderByU(taken, order);
  }

  method SelectEligible(sorted: seq<Ranked>, budget: TokenBudget) returns (eligible: seq<Ranked>)
    ensures eligible == EligibleFrom(sorted, budget, 0, [])
  {
    eligible := [];
    var i := 0;
    while i < |sorted|
      invariant i <= |sorted| && EligibleFrom(sorted, budget, 0, []) == EligibleFrom(sorted, budget, i, eligible)
      decreases |sorted| - i
    {
      var isTarget := sorted[i].hopDistance.Some? && sorted[i].hopDistance.value == 0.0;
      var aboveThreshold := sorted[i].impactScoreNorm > budget.fullSourceImpactScoreThreshold;
      if isTarget || aboveThreshold { eligible := eligible + [sorted[i]]; }
      if |eligible| >= budget.fullSourceTopK { return; }
      i := i + 1;
    }
  }

  method PackFullSource(sorted: seq<Ranked>, order: seq<string>, budget: TokenBudget) returns (out: seq<Fragment>)
    ensures out == SectionOf(Fragments(EligibleFrom(sorted, budget, 0, []), (n: Ranked) => n.sourceText), order,
                             Quota(budget, budget.fullSourceFraction), 0)
  {
    hide Fragments, Fit, Quota, Reorder, EligibleFrom;
    var eligible := SelectEligible(sorted, budget);
    var text := (n: Ranked) => n.sourceText;
    var taken := SelectPrefix(eligible, text, Quota(budget, budget.fullSourceFraction), false);
    out := ReorderByU(taken, order);
  }

  method SumFragmentTokens(frags: seq<Fragment>) returns (total: nat)
    ensures total == Tokens(frags)
  {
    total := 0;
    for i := 0 to |frags|
      invariant total == Tokens(frags[..i])
    {
      TokensStep(frags, i);
      total := total + frags[i].tokenCount;
    }
    assert frags[..|frags|] == frags;
  }

  method PackRanked(ranked: seq<Ranked>, budget: TokenBudget) returns (p: PackedContext)
    ensures p == Pack(ranked, budget)
  {
    hide Candidates, SectionOf, Fragments, UOrder, Tokens, Quota;
    var sorted := DedupSortedByScoreDesc(ranked);
    var order := FillUOrder(sorted);
    var definitions := PackDefinitions(sorted, order, budget);
    var relations := PackRelations(sorted, order, budget);
    var fullSource := PackFullSource(sorted, order, budget);
    var d := SumFragmentTokens(definitions);
    var r := SumFragmentTokens(relations);
    var f := SumFragmentTokens(fullSource);
    p := PackedContext(order, definitions, relations, fullSource, d + r + f);
  }
}
