/**
Lineage across a rename: every new entity claims the first unclaimed old entity with its content hash.

A match is a pair of positions (old, new). Multiset intersection takes the smaller multiplicity of each hash.
*/
module Lineage {
  import opened Common

  datatype Entity = Entity(id: string, astHash: string)

  datatype LineageLink = LineageLink(oldNodeId: string, newNodeId: string, astHash: string)

  type Pair = (nat, nat)

  function Hashes(entities: seq<Entity>): seq<string> {
    seq(|entities|, i requires 0 <= i < |entities| => entities[i].astHash)
  }

  /** The first unclaimed old entity with this hash, from position `i`. */
  function FirstFree(before: seq<Entity>, claimed: seq<bool>, hash: string, i: nat): Option<nat>
    requires |claimed| == |before| && i <= |before|
    decreases |before| - i
  {
    if i == |before| then None
    else if !claimed[i] && before[i].astHash == hash then Some(i)
    else FirstFree(before, claimed, hash, i + 1)
  }

  datatype Progress = Progress(claimed: seq<bool>, pairs: seq<Pair>)

  function Claim(before: seq<Entity>, p: Progress, k: nat, hash: string): Progress
    requires |p.claimed| == |before|
  {
    var free := FirstFree(before, p.claimed, hash, 0);
    if free.None? || free.value >= |before| then p
    else Progress(p.claimed[free.value := true], p.pairs + [(free.value, k)])
  }

  /** The greedy matching of the first `k` new entities. */
  function Greedy(before: seq<Entity>, after: seq<Entity>, k: nat): (p: Progress)
    requires k <= |after|
    ensures |p.claimed| == |before| && InRange(before, after, p.pairs)
  {
    if k == 0 then Progress(seq(|before|, _ => false), [])
    else
      var p := Greedy(before, after, k - 1);
      assert InRange(before, after, Claim(before, p, k - 1, after[k - 1].astHash).pairs);
      Claim(before, p, k - 1, after[k - 1].astHash)
  }

  predicate InRange(before: seq<Entity>, after: seq<Entity>, pairs: seq<Pair>) {
    forall p :: p in pairs ==> p.0 < |before| && p.1 < |after|
  }

  function Render(before: seq<Entity>, after: seq<Entity>, pairs: seq<Pair>): seq<LineageLink>
    requires InRange(before, after, pairs)
  {
    seq(|pairs|, i requires 0 <= i < |pairs| =>
      assert pairs[i] in pairs;
      LineageLink(before[pairs[i].0].id, after[pairs[i].1].id, before[pairs[i].0].astHash))
  }

  /** No entity on either side is used twice, and matched entities carry the same hash. */
  ghost predicate Matching(before: seq<Entity>, after: seq<Entity>, pairs: seq<Pair>) {
    && (forall i :: 0 <= i < |pairs| ==>
          pairs[i].0 < |before| && pairs[i].1 < |after| && before[pairs[i].0].astHash == after[pairs[i].1].astHash)
    && (forall i, j :: 0 <= i < j < |pairs| ==> pairs[i].0 != pairs[j].0 && pairs[i].1 != pairs[j].1)
  }

  /** The hashes of the entities still free. */
  function Free(hashes: seq<string>, claimed: seq<bool>): multiset<string>
    requires |claimed| == |hashes|
  {
    if hashes == [] then multiset{}
    else
      var n := |hashes| - 1;
      Free(hashes[..n], claimed[..n]) + if claimed[n] then multiset{} else multiset{hashes[n]}
  }

  lemma {:induction false} FreeAtFirst(hashes: seq<string>, claimed: seq<bool>)
    requires |claimed| == |hashes| && forall i :: 0 <= i < |claimed| ==> !claimed[i]
    ensures Free(hashes, claimed) == multiset(hashes)
  {
    if hashes != [] {
      FreeAtFirst(hashes[..|hashes| - 1], claimed[..|hashes| - 1]);
      assert hashes == hashes[..|hashes| - 1] + [hashes[|hashes| - 1]];
    }
  }

  lemma {:induction false} FreeAfterClaim(hashes: seq<string>, claimed: seq<bool>, i: nat)
    requires |claimed| == |hashes| && i < |hashes| && !claimed[i]
    ensures Free(hashes, claimed) == Free(hashes, claimed[i := true]) + multiset{hashes[i]}
  {
    var n := |hashes| - 1;
    if i == n {
      assert claimed[i := true][..n] == claimed[..n];
    } else {
      assert claimed[i := true][..n] == claimed[..n][i := true];
      FreeAfterClaim(hashes[..n], claimed[..n], i);
    }
  }

  lemma {:induction false} FreeComesFrom(hashes: seq<string>, claimed: seq<bool>, h: string) returns (i: nat)
    requires |claimed| == |hashes| && h in Free(hashes, claimed)
    ensures i < |hashes| && !claimed[i] && hashes[i] == h
  {
    var n := |hashes| - 1;
    if !claimed[n] && hashes[n] == h { i := n; }
    else { i := FreeComesFrom(hashes[..n], claimed[..n], h); }
  }

  lemma {:induction false} FirstFreeFinds(before: seq<Entity>, claimed: seq<bool>, hash: string, i: nat)
    requires |claimed| == |before| && i <= |before|
    ensures var f := FirstFree(before, claimed, hash, i);
            if f.Some? then i <= f.value < |before| && !claimed[f.value] && before[f.value].astHash == hash
            else forall j :: i <= j < |before| ==> claimed[j] || before[j].astHash != hash
    decreases |before| - i
  {
    if i < |before| && (claimed[i] || before[i].astHash != hash) { FirstFreeFinds(before, claimed, hash, i + 1); }
  }

  /**
  The matched hashes and the free ones make up the old side, and the matched ones are the intersection of what has
  been seen.
  */
  ghost predicate Balanced(before: seq<Entity>, after: seq<Entity>, k: nat, p: Progress)
    requires k <= |after| && |p.claimed| == |before|
  {
    && Free(Hashes(before), p.claimed) + multiset(MatchedHashes(before, p.pairs)) == multiset(Hashes(before))
    && multiset(MatchedHashes(before, p.pairs)) == multiset(Hashes(before)) * multiset(Hashes(after[..k]))
  }

  /** What the matching keeps. */
  ghost predicate Sound(before: seq<Entity>, after: seq<Entity>, k: nat, p: Progress)
    requires k <= |after| && |p.claimed| == |before|
  {
    && Matching(before, after, p.pairs)
    && (forall i :: 0 <= i < |p.pairs| ==> p.claimed[p.pairs[i].0] && p.pairs[i].1 < k)
    && Balanced(before, after, k, p)
  }

  function MatchedHashes(before: seq<Entity>, pairs: seq<Pair>): seq<string> {
    seq(|pairs|, i requires 0 <= i < |pairs| => if pairs[i].0 < |before| then before[pairs[i].0].astHash else "")
  }

  lemma {:induction false} TakenKeepsBalance(before: seq<Entity>, after: seq<Entity>, k: nat, p: Progress, i: nat)
    requires k < |after| && |p.claimed| == |before| && Balanced(before, after, k, p)
    requires i < |before| && !p.claimed[i] && before[i].astHash == after[k].astHash
    ensures Balanced(before, after, k + 1, Progress(p.claimed[i := true], p.pairs + [(i, k)]))
  {
    var h := after[k].astHash;
    var a, b, matched :=
      multiset(Hashes(before)), multiset(Hashes(after[..k])), multiset(MatchedHashes(before, p.pairs));
    assert Hashes(after[..k + 1]) == Hashes(after[..k]) + [h];
    assert MatchedHashes(before, p.pairs + [(i, k)]) == MatchedHashes(before, p.pairs) + [h];
    assert Hashes(before)[i] == h;
    FreeAfterClaim(Hashes(before), p.claimed, i);
    hide Free, Hashes, MatchedHashes;
    assert matched[h] < a[h];
    IntersectionGrows(a, b, h);
  }

  lemma SkippedKeepsBalance(before: seq<Entity>, after: seq<Entity>, k: nat, p: Progress)
    requires k < |after| && |p.claimed| == |before| && Balanced(before, after, k, p)
    requires after[k].astHash !in Free(Hashes(before), p.claimed)
    ensures Balanced(before, after, k + 1, p)
  {
    var h := after[k].astHash;
    var a, b, matched :=
      multiset(Hashes(before)), multiset(Hashes(after[..k])), multiset(MatchedHashes(before, p.pairs));
    assert Hashes(after[..k + 1]) == Hashes(after[..k]) + [h];
    hide Free, Hashes, MatchedHashes;
    assert matched[h] == a[h];
    IntersectionStays(a, b, h);
  }

  lemma ClaimKeepsBalance(before: seq<Entity>, after: seq<Entity>, k: nat, p: Progress)
    requires k < |after| && |p.claimed| == |before| && Balanced(before, after, k, p)
    ensures Balanced(before, after, k + 1, Claim(before, p, k, after[k].astHash))
  {
    hide Balanced, FirstFree, Free;
    var h := after[k].astHash;
    FirstFreeFinds(before, p.claimed, h, 0);
    var free := FirstFree(before, p.claimed, h, 0);
    if free.Some? { TakenKeepsBalance(before, after, k, p, free.value); }
    else {
      if h in Free(Hashes(before), p.claimed) { var i := FreeComesFrom(Hashes(before), p.claimed, h); }
      SkippedKeepsBalance(before, after, k, p);
    }
  }

  lemma ClaimKeepsSound(before: seq<Entity>, after: seq<Entity>, k: nat, p: Progress)
    requires k < |after| && |p.claimed| == |before| && Sound(before, after, k, p)
    ensures Sound(before, after, k + 1, Claim(before, p, k, after[k].astHash))
  {
    ClaimKeepsBalance(before, after, k, p);
    FirstFreeFinds(before, p.claimed, after[k].astHash, 0);
    hide Balanced, FirstFree;
  }

  lemma IntersectionGrows(a: multiset<string>, b: multiset<string>, h: string)
    requires a[h] > b[h]
    ensures a * (b + multiset{h}) == a * b + multiset{h}
  {
  }

  lemma IntersectionStays(a: multiset<string>, b: multiset<string>, h: string)
    requires a[h] <= b[h]
    ensures a * (b + multiset{h}) == a * b
  {
  }

  lemma {:induction false} GreedyIsSound(before: seq<Entity>, after: seq<Entity>, k: nat)
    requires k <= |after|
    ensures Sound(before, after, k, Greedy(before, after, k))
  {
    hide Sound, Claim;
    if k == 0 {
      NothingMatched(before, after);
    } else {
      GreedyIsSound(before, after, k - 1);
      ClaimKeepsSound(before, after, k - 1, Greedy(before, after, k - 1));
    }
  }

  lemma NothingMatched(before: seq<Entity>, after: seq<Entity>)
    ensures Sound(before, after, 0, Progress(seq(|before|, _ => false), []))
  {
    FreeAtFirst(Hashes(before), seq(|before|, _ => false));
    assert after[..0] == [];
  }

  // ---------------------------------------------------------------- maximality

  function Picked(hashes: seq<string>, at: seq<nat>): seq<string>
    requires forall i :: 0 <= i < |at| ==> at[i] < |hashes|
  {
    seq(|at|, i requires 0 <= i < |at| => hashes[at[i]])
  }

  /** Picking distinct positions picks no hash more often than it occurs. */
  lemma {:induction false} PickedFits(hashes: seq<string>, at: seq<nat>)
    requires forall i :: 0 <= i < |at| ==> at[i] < |hashes|
    requires forall i, j :: 0 <= i < j < |at| ==> at[i] != at[j]
    ensures multiset(Picked(hashes, at)) <= multiset(hashes)
    decreases |hashes|
  {
    if hashes != [] {
      var n := |hashes| - 1;
      assert hashes == hashes[..n] + [hashes[n]];
      if i :| 0 <= i < |at| && at[i] == n {
        var rest := at[..i] + at[i + 1..];
        PickedFits(hashes[..n], rest);
        var all := Picked(hashes, at);
        assert all == all[..i] + [hashes[n]] + all[i + 1..];
        assert Picked(hashes[..n], rest) == all[..i] + all[i + 1..];
      } else {
        PickedFits(hashes[..n], at);
        assert Picked(hashes[..n], at) == Picked(hashes, at);
      }
    }
  }

  lemma SmallerIsShorter(a: multiset<string>, b: multiset<string>)
    requires a <= b
    ensures |a| <= |b|
  {
    assert b == a + (b - a);
  }

  /** Any matching's hashes lie in the intersection. */
  lemma MatchingFitsIntersection(before: seq<Entity>, after: seq<Entity>, pairs: seq<Pair>)
    requires Matching(before, after, pairs)
    ensures multiset(MatchedHashes(before, pairs)) <= multiset(Hashes(before)) * multiset(Hashes(after))
  {
    var left := seq(|pairs|, i requires 0 <= i < |pairs| => pairs[i].0);
    var right := seq(|pairs|, i requires 0 <= i < |pairs| => pairs[i].1);
    PickedFits(Hashes(before), left);
    PickedFits(Hashes(after), right);
    assert Picked(Hashes(before), left) == MatchedHashes(before, pairs);
    assert Picked(Hashes(after), right) == MatchedHashes(before, pairs);
  }

  /**
  The greedy links are a maximum matching: one-to-one, between equal hashes, as many per hash as the smaller side has,
  and no one-to-one matching between equal hashes is larger.
  */
  lemma GreedyIsMaximum(before: seq<Entity>, after: seq<Entity>, other: seq<Pair>)
    requires Matching(before, after, other)
    ensures var pairs := Greedy(before, after, |after|).pairs;
            && Matching(before, after, pairs)
            && multiset(MatchedHashes(before, pairs)) == multiset(Hashes(before)) * multiset(Hashes(after))
            && |other| <= |pairs|
  {
    hide Greedy, Hashes, Matching;
    GreedyIsSound(before, after, |after|);
    assert after[..|after|] == after;
    var pairs := Greedy(before, after, |after|).pairs;
    MatchingFitsIntersection(before, after, other);
    SmallerIsShorter(multiset(MatchedHashes(before, other)), multiset(MatchedHashes(before, pairs)));
  }

  // ---------------------------------------------------------------- order

  ghost predicate Linked(pairs: seq<Pair>, a: nat) {
    exists i :: 0 <= i < |pairs| && pairs[i].0 == a
  }

  /** Old entities of one hash are claimed from the front; claimed is what is linked. */
  ghost predicate FrontClaimed(before: seq<Entity>, p: Progress)
    requires |p.claimed| == |before|
  {
    && (forall a, b :: 0 <= a < b < |before| && before[a].astHash == before[b].astHash && p.claimed[b] ==> p.claimed[a])
    && (forall a :: 0 <= a < |before| ==> (p.claimed[a] <==> Linked(p.pairs, a)))
  }

  /** The links follow the new entities, and those of one hash also the old ones. */
  ghost predicate PairsAscend(before: seq<Entity>, pairs: seq<Pair>) {
    && (forall i :: 0 <= i < |pairs| ==> pairs[i].0 < |before|)
    && (forall i, j :: 0 <= i < j < |pairs| ==> pairs[i].1 < pairs[j].1)
    && (forall i, j :: 0 <= i < j < |pairs| && before[pairs[i].0].astHash == before[pairs[j].0].astHash ==>
          pairs[i].0 < pairs[j].0)
  }

  lemma LinkedGrows(pairs: seq<Pair>, p: Pair, a: nat)
    ensures Linked(pairs + [p], a) <==> Linked(pairs, a) || p.0 == a
  {
    if Linked(pairs, a) {
      var i :| 0 <= i < |pairs| && pairs[i].0 == a;
      assert (pairs + [p])[i].0 == a;
    }
    assert (pairs + [p])[|pairs|] == p;
  }

  lemma ClaimKeepsFront(before: seq<Entity>, p: Progress, k: nat, hash: string)
    requires |p.claimed| == |before| && FrontClaimed(before, p)
    ensures FrontClaimed(before, Claim(before, p, k, hash))
  {
    FirstFreeFinds(before, p.claimed, hash, 0);
    var free := FirstFree(before, p.claimed, hash, 0);
    hide FirstFree, Linked;
    if free.Some? {
      FirstFreeIsFirst(before, p.claimed, hash, 0);
      forall a | 0 <= a < |before|
        ensures Linked(p.pairs + [(free.value, k)], a) <==> Linked(p.pairs, a) || a == free.value
      {
        LinkedGrows(p.pairs, (free.value, k), a);
      }
    }
  }

  lemma ClaimKeepsAscent(before: seq<Entity>, p: Progress, k: nat, hash: string)
    requires |p.claimed| == |before| && FrontClaimed(before, p) && PairsAscend(before, p.pairs)
    requires forall i :: 0 <= i < |p.pairs| ==> p.pairs[i].1 < k
    ensures PairsAscend(before, Claim(before, p, k, hash).pairs)
    ensures forall i :: 0 <= i < |Claim(before, p, k, hash).pairs| ==> Claim(before, p, k, hash).pairs[i].1 < k + 1
  {
    FirstFreeFinds(before, p.claimed, hash, 0);
    var free := FirstFree(before, p.claimed, hash, 0);
    hide FirstFree, Linked;
    if free.Some? {
      forall i | 0 <= i < |p.pairs| && before[p.pairs[i].0].astHash == hash ensures p.pairs[i].0 < free.value {
        IsLinked(p.pairs, i);
      }
    }
  }

  lemma IsLinked(pairs: seq<Pair>, i: nat)
    requires i < |pairs|
    ensures Linked(pairs, pairs[i].0)
  {
  }

  lemma {:induction false} FirstFreeIsFirst(before: seq<Entity>, claimed: seq<bool>, hash: string, i: nat)
    requires |claimed| == |before| && i <= |before| && FirstFree(before, claimed, hash, i).Some?
    ensures forall j :: i <= j < FirstFree(before, claimed, hash, i).value ==>
              j >= |before| || claimed[j] || before[j].astHash != hash
    decreases |before| - i
  {
    if i < |before| && (claimed[i] || before[i].astHash != hash) { FirstFreeIsFirst(before, claimed, hash, i + 1); }
  }

  lemma {:induction false} GreedyKeepsOrder(before: seq<Entity>, after: seq<Entity>, k: nat)
    requires k <= |after|
    ensures FrontClaimed(before, Greedy(before, after, k)) && PairsAscend(before, Greedy(before, after, k).pairs)
    ensures forall i :: 0 <= i < |Greedy(before, after, k).pairs| ==> Greedy(before, after, k).pairs[i].1 < k
  {
    hide FrontClaimed, PairsAscend, Claim;
    if k == 0 {
      NothingInOrder(before);
    } else {
      GreedyKeepsOrder(before, after, k - 1);
      ClaimKeepsFront(before, Greedy(before, after, k - 1), k - 1, after[k - 1].astHash);
      ClaimKeepsAscent(before, Greedy(before, after, k - 1), k - 1, after[k - 1].astHash);
    }
  }

  lemma NothingInOrder(before: seq<Entity>)
    ensures FrontClaimed(before, Progress(seq(|before|, _ => false), [])) && PairsAscend(before, [])
  {
  }

  /**
  Which ones are linked: the links follow the new entities, those of one hash also the old ones, and of the old entities
  of one hash the first ones are linked.
  */
  lemma LinksKeepOrder(before: seq<Entity>, after: seq<Entity>)
    ensures var pairs := Greedy(before, after, |after|).pairs;
            && PairsAscend(before, pairs)
            && forall a, b :: 0 <= a < b < |before| && before[a].astHash == before[b].astHash && Linked(pairs, b) ==>
                 Linked(pairs, a)
  {
    hide Linked, PairsAscend, Greedy;
    GreedyKeepsOrder(before, after, |after|);
  }

  // ---------------------------------------------------------------- the loop

  method FindFree(before: seq<Entity>, claimed: array<bool>, hash: string) returns (i: nat)
    requires claimed.Length == |before|
    ensures FirstFree(before, claimed[..], hash, 0) == if i < |before| then Some(i) else None
  {
    i := 0;
    while i < |before| && (claimed[i] || before[i].astHash != hash)
      invariant i <= |before|
      invariant FirstFree(before, claimed[..], hash, 0) == FirstFree(before, claimed[..], hash, i)
    {
      i := i + 1;
    }
  }

  method Reconcile(before: seq<Entity>, after: seq<Entity>) returns (links: seq<LineageLink>)
    ensures links == Render(before, after, Greedy(before, after, |after|).pairs)
  {
    hide FirstFree;
    var claimed := new bool[|before|](_ => false);
    links := [];
    for k := 0 to |after|
      invariant claimed[..] == Greedy(before, after, k).claimed
      invariant links == Render(before, after, Greedy(before, after, k).pairs)
    {
      ghost var p := Greedy(before, after, k);
      var i := FindFree(before, claimed, after[k].astHash);
      if i < |before| {
        RenderOneMore(before, after, p.pairs, (i, k));
        claimed[i] := true;
        links := links + [LineageLink(before[i].id, after[k].id, before[i].astHash)];
      }
    }
  }

  lemma RenderOneMore(before: seq<Entity>, after: seq<Entity>, pairs: seq<Pair>, p: Pair)
    requires InRange(before, after, pairs) && p.0 < |before| && p.1 < |after|
    ensures Render(before, after, pairs + [p])
              == Render(before, after, pairs) + [LineageLink(before[p.0].id, after[p.1].id, before[p.0].astHash)]
  {
    assert forall i :: 0 <= i < |pairs| ==> pairs[i] in pairs;
  }
}
