/**
The containment hierarchy the summarizer works on: its postorder, and the part of it the caller may see.

Labels are valid by an arbitrary test, and scopes are the caller's normalized tenant, repositories and groups.
*/
module RaptorHierarchy {
  import opened Common

  type Id = string

  datatype SummaryNode = SummaryNode(nodeId: Id, level: nat, astHash: string, source: string, childIds: seq<Id>,
                                     tenantId: string, repo: string, aclGroup: string)

  type Hierarchy = map<Id, SummaryNode>

  datatype Scope = Scope(tenantId: string, repos: set<string>, groups: set<string>, validLabel: string -> bool)

  predicate Authorized(n: SummaryNode, s: Scope) {
    && s.validLabel(n.tenantId) && s.validLabel(n.repo) && s.validLabel(n.aclGroup)
    && n.tenantId == s.tenantId && n.repo in s.repos && n.aclGroup in s.groups
  }

  // ---------------------------------------------------------------- paths

  /** A chain of `n` containment links from `a` down to `b`. */
  ghost predicate Walk(nodes: Hierarchy, a: Id, b: Id, n: nat)
    decreases n
  {
    if n == 0 then a == b
    else a in nodes && exists c :: c in nodes[a].childIds && Walk(nodes, c, b, n - 1)
  }

  ghost predicate Reaches(nodes: Hierarchy, a: Id, b: Id) {
    exists n: nat :: Walk(nodes, a, b, n)
  }

  lemma ReachesItself(nodes: Hierarchy, a: Id)
    ensures Reaches(nodes, a, a)
  {
    assert Walk(nodes, a, a, 0);
  }

  lemma ReachesThroughChild(nodes: Hierarchy, a: Id, c: Id, b: Id)
    requires a in nodes && c in nodes[a].childIds && Reaches(nodes, c, b)
    ensures Reaches(nodes, a, b)
  {
    var n: nat :| Walk(nodes, c, b, n);
    assert Walk(nodes, a, b, n + 1);
  }

  /** A link the traversal refuses: the child is missing, or not on a lower level. */
  predicate BadLink(nodes: Hierarchy, b: Id) {
    b in nodes && exists c :: c in nodes[b].childIds && (c !in nodes || nodes[c].level >= nodes[b].level)
  }

  // ---------------------------------------------------------------- postorder

  /** The depth-first visit; None is an invalid hierarchy. */
  function Visit(nodes: Hierarchy, id: Id, order: seq<Id>): Option<seq<Id>>
    requires id in nodes
    decreases nodes[id].level, |nodes[id].childIds| + 1
  {
    if id in order then Some(order)
    else
      var below := VisitChildren(nodes, id, 0, order);
      if below.None? then None else Some(below.value + [id])
  }

  function VisitChildren(nodes: Hierarchy, id: Id, k: nat, order: seq<Id>): Option<seq<Id>>
    requires id in nodes && k <= |nodes[id].childIds|
    decreases nodes[id].level, |nodes[id].childIds| - k
  {
    if k == |nodes[id].childIds| then Some(order)
    else
      var c := nodes[id].childIds[k];
      if c !in nodes || nodes[c].level >= nodes[id].level then None
      else
        var after := Visit(nodes, c, order);
        if after.None? then None else VisitChildren(nodes, id, k + 1, after.value)
  }

  /** `id` may follow `before`: it is new, and its children all stand in `before`, on lower levels. */
  predicate Placed(nodes: Hierarchy, before: seq<Id>, id: Id) {
    && id in nodes && id !in before
    && forall c :: c in nodes[id].childIds ==> c in before && c in nodes && nodes[c].level < nodes[id].level
  }

  predicate BottomUp(nodes: Hierarchy, order: seq<Id>) {
    forall i :: 0 <= i < |order| ==> Placed(nodes, order[..i], order[i])
  }

  lemma BottomUpExtends(nodes: Hierarchy, order: seq<Id>, id: Id)
    requires BottomUp(nodes, order) && Placed(nodes, order, id)
    ensures BottomUp(nodes, order + [id])
  {
    var out := order + [id];
    forall i | 0 <= i < |out| ensures Placed(nodes, out[..i], out[i]) {
      if i < |order| { assert out[..i] == order[..i]; } else { assert out[..i] == order; }
    }
  }

  /** A visit only adds nodes that are no higher than the one it starts from, and below a node only lower ones. */
  lemma {:induction false} VisitStaysLow(nodes: Hierarchy, id: Id, order: seq<Id>)
    requires id in nodes && Visit(nodes, id, order).Some?
    ensures forall b :: b in Visit(nodes, id, order).value ==>
              b in order || (b in nodes && nodes[b].level <= nodes[id].level)
    decreases nodes[id].level, |nodes[id].childIds| + 1
  {
    if id !in order { ChildrenStayLower(nodes, id, 0, order); }
  }

  lemma {:induction false} ChildrenStayLower(nodes: Hierarchy, id: Id, k: nat, order: seq<Id>)
    requires id in nodes && k <= |nodes[id].childIds| && VisitChildren(nodes, id, k, order).Some?
    ensures forall b :: b in VisitChildren(nodes, id, k, order).value ==>
              b in order || (b in nodes && nodes[b].level < nodes[id].level)
    decreases nodes[id].level, |nodes[id].childIds| - k
  {
    if k < |nodes[id].childIds| {
      var c := nodes[id].childIds[k];
      VisitStaysLow(nodes, c, order);
      ChildrenStayLower(nodes, id, k + 1, Visit(nodes, c, order).value);
    }
  }

  lemma {:induction false} VisitIsBottomUp(nodes: Hierarchy, id: Id, order: seq<Id>)
    requires id in nodes && BottomUp(nodes, order) && Visit(nodes, id, order).Some?
    ensures BottomUp(nodes, Visit(nodes, id, order).value)
    ensures order <= Visit(nodes, id, order).value && id in Visit(nodes, id, order).value
    decreases nodes[id].level, |nodes[id].childIds| + 1
  {
    hide BottomUp;
    if id !in order {
      ChildrenAreBottomUp(nodes, id, 0, order);
      ChildrenStayLower(nodes, id, 0, order);
      BottomUpExtends(nodes, VisitChildren(nodes, id, 0, order).value, id);
    }
  }

  lemma {:induction false} ChildrenAreBottomUp(nodes: Hierarchy, id: Id, k: nat, order: seq<Id>)
    requires id in nodes && k <= |nodes[id].childIds| && BottomUp(nodes, order)
    requires VisitChildren(nodes, id, k, order).Some?
    ensures BottomUp(nodes, VisitChildren(nodes, id, k, order).value)
    ensures order <= VisitChildren(nodes, id, k, order).value
    ensures forall c :: c in nodes[id].childIds[k..] ==>
              c in VisitChildren(nodes, id, k, order).value && c in nodes && nodes[c].level < nodes[id].level
    decreases nodes[id].level, |nodes[id].childIds| - k
  {
    hide BottomUp;
    if k < |nodes[id].childIds| {
      var c := nodes[id].childIds[k];
      VisitIsBottomUp(nodes, c, order);
      ChildrenAreBottomUp(nodes, id, k + 1, Visit(nodes, c, order).value);
      assert nodes[id].childIds[k..] == [c] + nodes[id].childIds[k + 1..];
    }
  }

  /** Everything a visit adds is in reach of where it started. */
  lemma {:induction false} VisitAddsReachable(nodes: Hierarchy, id: Id, order: seq<Id>, b: Id)
    requires id in nodes && Visit(nodes, id, order).Some? && b in Visit(nodes, id, order).value && b !in order
    ensures Reaches(nodes, id, b)
    decreases nodes[id].level, |nodes[id].childIds| + 1
  {
    hide Reaches;
    if b == id { ReachesItself(nodes, id); } else { ChildrenAddReachable(nodes, id, 0, order, b); }
  }

  lemma {:induction false} ChildrenAddReachable(nodes: Hierarchy, id: Id, k: nat, order: seq<Id>, b: Id)
    requires id in nodes && k <= |nodes[id].childIds| && VisitChildren(nodes, id, k, order).Some?
    requires b in VisitChildren(nodes, id, k, order).value && b !in order
    ensures Reaches(nodes, id, b)
    decreases nodes[id].level, |nodes[id].childIds| - k
  {
    hide Reaches;
    var c := nodes[id].childIds[k];
    if b in Visit(nodes, c, order).value {
      VisitAddsReachable(nodes, c, order, b);
      ReachesThroughChild(nodes, id, c, b);
    } else {
      ChildrenAddReachable(nodes, id, k + 1, Visit(nodes, c, order).value, b);
    }
  }

  /** The visit fails only where a refused link is in reach. */
  lemma {:induction false} FailureIsReal(nodes: Hierarchy, id: Id, order: seq<Id>) returns (b: Id)
    requires id in nodes && Visit(nodes, id, order).None?
    ensures Reaches(nodes, id, b) && BadLink(nodes, b)
    decreases nodes[id].level, |nodes[id].childIds| + 1
  {
    hide Reaches, BadLink;
    b := ChildFailureIsReal(nodes, id, 0, order);
  }

  lemma {:induction false} ChildFailureIsReal(nodes: Hierarchy, id: Id, k: nat, order: seq<Id>) returns (b: Id)
    requires id in nodes && k <= |nodes[id].childIds| && VisitChildren(nodes, id, k, order).None?
    ensures Reaches(nodes, id, b) && BadLink(nodes, b)
    decreases nodes[id].level, |nodes[id].childIds| - k
  {
    hide Reaches;
    var c := nodes[id].childIds[k];
    if c !in nodes || nodes[c].level >= nodes[id].level {
      b := id;
      ReachesItself(nodes, id);
    } else if Visit(nodes, c, order).None? {
      b := FailureIsReal(nodes, c, order);
      ReachesThroughChild(nodes, id, c, b);
    } else {
      b := ChildFailureIsReal(nodes, id, k + 1, Visit(nodes, c, order).value);
    }
  }

  lemma ChildrenStandBefore(nodes: Hierarchy, order: seq<Id>, a: Id, c: Id)
    requires BottomUp(nodes, order) && a in order && a in nodes && c in nodes[a].childIds
    ensures c in order && c in nodes && nodes[c].level < nodes[a].level
  {
    var i :| 0 <= i < |order| && order[i] == a;
    assert Placed(nodes, order[..i], order[i]);
    assert c in order[..i];
  }

  lemma InOrderMeansKnown(nodes: Hierarchy, order: seq<Id>, a: Id)
    requires BottomUp(nodes, order) && a in order
    ensures a in nodes && !BadLink(nodes, a)
  {
    var i :| 0 <= i < |order| && order[i] == a;
    assert Placed(nodes, order[..i], order[i]);
  }

  lemma {:induction false} WalksStayInOrder(nodes: Hierarchy, order: seq<Id>, a: Id, b: Id, n: nat)
    requires BottomUp(nodes, order) && a in order && Walk(nodes, a, b, n)
    ensures b in order
    decreases n
  {
    hide BottomUp;
    if n > 0 {
      var c :| c in nodes[a].childIds && Walk(nodes, c, b, n - 1);
      ChildrenStandBefore(nodes, order, a, c);
      WalksStayInOrder(nodes, order, c, b, n - 1);
    }
  }

  /**
  The postorder exists exactly when no refused link is in reach of the root, and then lists what is in reach, bottom
  up.
  */
  lemma PostorderIsExact(nodes: Hierarchy, root: Id)
    requires root in nodes
    ensures Visit(nodes, root, []).Some? <==> !exists b :: Reaches(nodes, root, b) && BadLink(nodes, b)
    ensures Visit(nodes, root, []).Some? ==>
              && BottomUp(nodes, Visit(nodes, root, []).value)
              && forall b :: b in Visit(nodes, root, []).value <==> Reaches(nodes, root, b)
  {
    if Visit(nodes, root, []).Some? { PostorderListsReach(nodes, root); }
    else { var b := FailureIsReal(nodes, root, []); }
  }

  lemma PostorderListsReach(nodes: Hierarchy, root: Id)
    requires root in nodes && Visit(nodes, root, []).Some?
    ensures BottomUp(nodes, Visit(nodes, root, []).value)
    ensures forall b :: b in Visit(nodes, root, []).value <==> Reaches(nodes, root, b)
    ensures forall b :: Reaches(nodes, root, b) ==> !BadLink(nodes, b)
  {
    hide Visit, BadLink;
    var order := Visit(nodes, root, []).value;
    assert BottomUp(nodes, []);
    VisitIsBottomUp(nodes, root, []);
    hide BottomUp;
    forall b | b in order ensures Reaches(nodes, root, b) { VisitAddsReachable(nodes, root, [], b); }
    forall b | Reaches(nodes, root, b) ensures b in order && !BadLink(nodes, b) {
      var n: nat :| Walk(nodes, root, b, n);
      WalksStayInOrder(nodes, order, root, b, n);
      InOrderMeansKnown(nodes, order, b);
    }
  }

  /** The traversal as it runs, with the ids it is inside of and the ids it has finished. */
  class Traversal {
    var visiting: set<Id>
    var visited: set<Id>
    var order: seq<Id>

    constructor ()
      ensures visiting == {} && visited == {} && order == []
    {
      visiting, visited, order := {}, {}, [];
    }

    /** The cycle check never fires: every open ancestor is on a higher level. */
    method VisitNode(nodes: Hierarchy, id: Id) returns (ok: bool)
      requires id in nodes && visited == Elements(order)
      requires forall a :: a in visiting ==> a in nodes && nodes[a].level > nodes[id].level
      modifies this
      ensures ok == Visit(nodes, id, old(order)).Some?
      ensures ok ==>
                visiting == old(visiting) && visited == Elements(order) && order == Visit(nodes, id, old(order)).value
      decreases nodes[id].level, |nodes[id].childIds| + 1
    {
      if id in visiting { return false; }
      if id in visited { return true; }
      visiting := visiting + {id};
      var kids := nodes[id].childIds;
      var k := 0;
      while k < |kids|
        invariant k <= |kids|
        invariant visiting == old(visiting) + {id} && visited == Elements(order)
        invariant VisitChildren(nodes, id, 0, old(order)) == VisitChildren(nodes, id, k, order)
      {
        if kids[k] !in nodes { return false; }
        if nodes[kids[k]].level >= nodes[id].level { return false; }
        var fine := VisitNode(nodes, kids[k]);
        if !fine { return false; }
        k := k + 1;
      }
      visiting := visiting - {id};
      visited := visited + {id};
      order := order + [id];
      return true;
    }
  }

  // ---------------------------------------------------------------- the authorized projection

  /** Reached from the root through authorized nodes only, itself authorized. */
  ghost predicate AuthorizedWalk(nodes: Hierarchy, s: Scope, root: Id, b: Id, n: nat)
    decreases n
  {
    && b in nodes && Authorized(nodes[b], s)
    && if n == 0 then b == root
       else exists p :: p in nodes && b in nodes[p].childIds && AuthorizedWalk(nodes, s, root, p, n - 1)
  }

  ghost predicate InView(nodes: Hierarchy, s: Scope, root: Id, b: Id) {
    exists n: nat :: AuthorizedWalk(nodes, s, root, b, n)
  }

  lemma ViewIsAuthorized(nodes: Hierarchy, s: Scope, root: Id, b: Id)
    requires InView(nodes, s, root, b)
    ensures b in nodes && Authorized(nodes[b], s)
  {
  }

  lemma ViewSpreads(nodes: Hierarchy, s: Scope, root: Id, p: Id, c: Id)
    requires InView(nodes, s, root, p) && p in nodes && c in nodes[p].childIds && c in nodes && Authorized(nodes[c], s)
    ensures InView(nodes, s, root, c)
  {
    hide Authorized;
    var n: nat :| AuthorizedWalk(nodes, s, root, p, n);
    assert AuthorizedWalk(nodes, s, root, c, n + 1);
  }

  function Reversed(ids: seq<Id>): seq<Id> {
    if ids == [] then [] else Reversed(ids[1..]) + [ids[0]]
  }

  lemma {:induction false} ReversedMembers(ids: seq<Id>)
    ensures forall x :: x in Reversed(ids) <==> x in ids
  {
    if ids != [] {
      ReversedMembers(ids[1..]);
      assert ids == [ids[0]] + ids[1..];
    }
  }

  /** `q` may lie on the stack: it is the root, or a child of something projected. */
  ghost predicate Owed(nodes: Hierarchy, root: Id, projected: set<Id>, q: Id) {
    q == root || exists p :: p in projected && p in nodes && q in nodes[p].childIds
  }

  /** Where the stack loop stands: what is projected is justified, and what is owed is projected, stacked or denied. */
  ghost predicate Sweeping(nodes: Hierarchy, s: Scope, root: Id, order: seq<Id>, projected: set<Id>, pending: seq<Id>) {
    && (forall b :: b in projected ==> b in order && InView(nodes, s, root, b))
    && (forall q :: q in pending ==> q in order && Owed(nodes, root, projected, q))
    && (forall q :: Owed(nodes, root, projected, q) ==>
          q in projected || q in pending || (q in nodes && !Authorized(nodes[q], s)))
  }

  lemma SweepStarts(nodes: Hierarchy, s: Scope, root: Id, order: seq<Id>)
    requires root in order
    ensures Sweeping(nodes, s, root, order, {}, [root])
  {
  }

  lemma SweepDrops(nodes: Hierarchy, s: Scope, root: Id, order: seq<Id>, projected: set<Id>, rest: seq<Id>, id: Id)
    requires Sweeping(nodes, s, root, order, projected, rest + [id])
    requires id in projected || (id in nodes && !Authorized(nodes[id], s))
    ensures Sweeping(nodes, s, root, order, projected, rest)
  {
    hide Authorized, InView, Owed;
    assert forall q :: q in rest + [id] <==> q in rest || q == id;
  }

  lemma OwedGrows(nodes: Hierarchy, root: Id, projected: set<Id>, id: Id, q: Id)
    requires id in nodes
    ensures Owed(nodes, root, projected + {id}, q) <==> Owed(nodes, root, projected, q) || q in nodes[id].childIds
  {
    if q in nodes[id].childIds { assert id in projected + {id}; }
    if Owed(nodes, root, projected, q) && q != root {
      var p :| p in projected && p in nodes && q in nodes[p].childIds;
      assert p in projected + {id};
    }
  }

  lemma {:induction false} SweepTakes(nodes: Hierarchy, s: Scope, root: Id, order: seq<Id>, projected: set<Id>,
                                      rest: seq<Id>, id: Id)
    requires BottomUp(nodes, order) && Sweeping(nodes, s, root, order, projected, rest + [id])
    requires id in nodes && Authorized(nodes[id], s)
    ensures Sweeping(nodes, s, root, order, projected + {id}, rest + Reversed(nodes[id].childIds))
  {
    hide BottomUp, Authorized, InView, Owed;
    var kids := nodes[id].childIds;
    var stacked := rest + Reversed(kids);
    ReversedMembers(kids);
    hide Reversed;
    assert forall q :: q in rest + [id] <==> q in rest || q == id;
    assert forall q :: q in stacked <==> q in rest || q in kids;
    assert id in rest + [id];
    OwedIsInView(nodes, s, root, order, projected, rest + [id], id);
    forall q ensures Owed(nodes, root, projected + {id}, q) <==> Owed(nodes, root, projected, q) || q in kids {
      OwedGrows(nodes, root, projected, id, q);
    }
    forall q | q in kids ensures q in order { ChildrenStandBefore(nodes, order, id, q); }
  }

  lemma OwedIsInView(nodes: Hierarchy, s: Scope, root: Id, order: seq<Id>, projected: set<Id>, pending: seq<Id>, id: Id)
    requires Sweeping(nodes, s, root, order, projected, pending) && id in pending && id in nodes
    requires Authorized(nodes[id], s)
    ensures InView(nodes, s, root, id)
  {
    hide Authorized;
    if id == root {
      assert AuthorizedWalk(nodes, s, root, id, 0);
    } else {
      var p :| p in projected && p in nodes && id in nodes[p].childIds;
      ViewSpreads(nodes, s, root, p, id);
    }
  }

  lemma {:induction false} SweptAll(nodes: Hierarchy, s: Scope, root: Id, order: seq<Id>, projected: set<Id>, b: Id,
                                    n: nat)
    requires Sweeping(nodes, s, root, order, projected, []) && AuthorizedWalk(nodes, s, root, b, n)
    ensures b in projected
    decreases n
  {
    hide Authorized, InView;
    if n == 0 {
      assert Owed(nodes, root, projected, b);
    } else {
      var p :| p in nodes && b in nodes[p].childIds && AuthorizedWalk(nodes, s, root, p, n - 1);
      SweptAll(nodes, s, root, order, projected, p, n - 1);
      assert Owed(nodes, root, projected, b);
    }
  }

  method AuthorizedProjection(nodes: Hierarchy, s: Scope, root: Id, ghost order: seq<Id>) returns (projected: set<Id>)
    requires BottomUp(nodes, order) && root in order
    ensures forall b :: b in projected <==> InView(nodes, s, root, b)
    ensures forall b :: b in projected ==> b in order
  {
    hide BottomUp, Authorized, InView, Sweeping;
    projected := {};
    var pending := [root];
    SweepStarts(nodes, s, root, order);
    while pending != []
      invariant Sweeping(nodes, s, root, order, projected, pending)
      decreases |Elements(order) - projected|, |pending|
    {
      var id := pending[|pending| - 1];
      var rest := pending[..|pending| - 1];
      assert pending == rest + [id] && id in pending;
      StackedIsKnown(nodes, s, root, order, projected, pending, id);
      if id in projected || !Authorized(nodes[id], s) {
        SweepDrops(nodes, s, root, order, projected, rest, id);
        pending := rest;
      } else {
        SweepTakes(nodes, s, root, order, projected, rest, id);
        assert id in Elements(order) - projected;
        assert Elements(order) - (projected + {id}) == Elements(order) - projected - {id};
        projected := projected + {id};
        pending := rest + Reversed(nodes[id].childIds);
      }
    }
    SweepDone(nodes, s, root, order, projected);
  }

  lemma {:induction false} StackedIsKnown(nodes: Hierarchy, s: Scope, root: Id, order: seq<Id>, projected: set<Id>,
                                          pending: seq<Id>, id: Id)
    requires BottomUp(nodes, order) && Sweeping(nodes, s, root, order, projected, pending) && id in pending
    ensures id in order && id in nodes
  {
    InOrderMeansKnown(nodes, order, id);
  }

  lemma SweepDone(nodes: Hierarchy, s: Scope, root: Id, order: seq<Id>, projected: set<Id>)
    requires Sweeping(nodes, s, root, order, projected, [])
    ensures forall b :: b in projected <==> InView(nodes, s, root, b)
    ensures forall b :: b in projected ==> b in order
  {
    forall b | InView(nodes, s, root, b) ensures b in projected {
      var n: nat :| AuthorizedWalk(nodes, s, root, b, n);
      SweptAll(nodes, s, root, order, projected, b, n);
    }
  }
}
