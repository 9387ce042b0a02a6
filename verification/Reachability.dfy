/** Reverse reachability over dependency arcs: distance balls, and walks as their independent meaning. */
module Reachability {
  import opened Common
  import opened CodeGraph
  import opened Ordering

  /** The six relation types that carry impact. */
  const Impacting: set<RelType> := {Calls, Implements, Extends, Overrides, DependsOn, Imports}

  function Arcs(edges: map<EdgeKey, int>): set<EdgeKey> {
    set k | k in edges && k.relType in Impacting
  }

  /** Everything one arc away from the frontier, against the arc's direction. */
  function Dependents(arcs: set<EdgeKey>, frontier: set<Id>): set<Id> {
    set k | k in arcs && k.to in frontier :: k.from
  }

  /** The nodes at distance at most `k`. */
  function Ball(arcs: set<EdgeKey>, entry: Id, k: nat): set<Id> {
    if k == 0 then {entry}
    else Ball(arcs, entry, k - 1) + Dependents(arcs, Ball(arcs, entry, k - 1))
  }

  /** The nodes first met at level `k`. */
  function Shell(arcs: set<EdgeKey>, entry: Id, k: nat): set<Id> {
    if k == 0 then {entry} else Ball(arcs, entry, k) - Ball(arcs, entry, k - 1)
  }

  /** There is a chain of exactly `n` arcs from `x` down to the entry. */
  ghost predicate Walk(arcs: set<EdgeKey>, entry: Id, x: Id, n: nat)
    decreases n
  {
    if n == 0 then x == entry
    else exists k :: k in arcs && k.from == x && Walk(arcs, entry, k.to, n - 1)
  }

  /** `d` is the length of a shortest chain. */
  ghost predicate Distance(arcs: set<EdgeKey>, entry: Id, x: Id, d: nat) {
    Walk(arcs, entry, x, d) && forall n: nat :: n < d ==> !Walk(arcs, entry, x, n)
  }

  /** The first arc of a shortest chain from `id` down to the entry. */
  ghost predicate FirstStep(arcs: set<EdgeKey>, entry: Id, id: Id, d: nat, k: EdgeKey) {
    d >= 1 && k in arcs && k.from == id && Distance(arcs, entry, k.to, d - 1)
  }

  /** The type of such an arc, and of several the first by name. */
  ghost predicate FirstType(arcs: set<EdgeKey>, entry: Id, id: Id, d: nat, t: RelType) {
    && (exists k :: FirstStep(arcs, entry, id, d, k) && k.relType == t)
    && forall k :: FirstStep(arcs, entry, id, d, k) ==> !Less(RelTypeText(k.relType), RelTypeText(t))
  }

  lemma {:induction false} WalkStaysInBall(arcs: set<EdgeKey>, entry: Id, x: Id, n: nat, k: nat)
    requires Walk(arcs, entry, x, n) && n <= k
    ensures x in Ball(arcs, entry, k)
    decreases k
  {
    if n < k {
      WalkStaysInBall(arcs, entry, x, n, k - 1);
    } else if n > 0 {
      var e :| e in arcs && e.from == x && Walk(arcs, entry, e.to, n - 1);
      WalkStaysInBall(arcs, entry, e.to, n - 1, k - 1);
      assert e.from in Dependents(arcs, Ball(arcs, entry, k - 1));
    }
  }

  lemma {:induction false} BallHasWalks(arcs: set<EdgeKey>, entry: Id, x: Id, k: nat) returns (n: nat)
    requires x in Ball(arcs, entry, k)
    ensures n <= k && Walk(arcs, entry, x, n)
    decreases k
  {
    if k == 0 {
      n := 0;
    } else if x in Ball(arcs, entry, k - 1) {
      n := BallHasWalks(arcs, entry, x, k - 1);
    } else {
      var e :| e in arcs && e.to in Ball(arcs, entry, k - 1) && e.from == x;
      var m := BallHasWalks(arcs, entry, e.to, k - 1);
      n := m + 1;
    }
  }

  /** A node is in shell `d` exactly when its shortest chain has `d` arcs. */
  lemma ShellIsDistance(arcs: set<EdgeKey>, entry: Id, x: Id, d: nat)
    ensures x in Shell(arcs, entry, d) <==> Distance(arcs, entry, x, d)
  {
    if x in Shell(arcs, entry, d) {
      var n := BallHasWalks(arcs, entry, x, d);
      forall m: nat | m < d ensures !Walk(arcs, entry, x, m) {
        if Walk(arcs, entry, x, m) { WalkStaysInBall(arcs, entry, x, m, d - 1); }
      }
    }
    if Distance(arcs, entry, x, d) {
      WalkStaysInBall(arcs, entry, x, d, d);
      if d > 0 && x in Ball(arcs, entry, d - 1) {
        var n := BallHasWalks(arcs, entry, x, d - 1);
      }
    }
  }

  lemma {:induction false} BallGrows(arcs: set<EdgeKey>, entry: Id, j: nat, k: nat)
    requires j <= k
    ensures Ball(arcs, entry, j) <= Ball(arcs, entry, k)
  {
    if j < k { BallGrows(arcs, entry, j, k - 1); }
  }

  lemma {:induction false} EntryInBall(arcs: set<EdgeKey>, entry: Id, k: nat)
    ensures entry in Ball(arcs, entry, k)
  {
    BallGrows(arcs, entry, 0, k);
  }

  /** Expanding only the newest shell is enough: older shells were expanded before. */
  lemma {:induction false} NextBall(arcs: set<EdgeKey>, entry: Id, k: nat)
    ensures Ball(arcs, entry, k + 1) == Ball(arcs, entry, k) + Dependents(arcs, Shell(arcs, entry, k))
    ensures Shell(arcs, entry, k + 1) == Dependents(arcs, Shell(arcs, entry, k)) - Ball(arcs, entry, k)
  {
    forall x | x in Dependents(arcs, Ball(arcs, entry, k)) && x !in Dependents(arcs, Shell(arcs, entry, k))
      ensures x in Ball(arcs, entry, k)
    {
      var e :| e in arcs && e.to in Ball(arcs, entry, k) && e.from == x;
      assert e.to !in Shell(arcs, entry, k);
      assert x in Dependents(arcs, Ball(arcs, entry, k - 1));
    }
  }

  /** Once a shell is empty nothing further is reachable. */
  lemma {:induction false} EmptyShellStops(arcs: set<EdgeKey>, entry: Id, j: nat, k: nat)
    requires j <= k && Shell(arcs, entry, j) == {}
    ensures Ball(arcs, entry, k) == Ball(arcs, entry, j)
    ensures j < k ==> Shell(arcs, entry, k) == {}
  {
    hide Ball, Shell;
    if j < k {
      EmptyShellStops(arcs, entry, j, k - 1);
      NextBall(arcs, entry, k - 1);
    }
  }
}
