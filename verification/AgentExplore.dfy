/**
The order of an exploring run: every step expands the candidate that was found last among those not expanded yet, and
what an answer adds is settled to the last field.
*/
module AgentExplore {
  import opened Common
  import opened Agent

  // ---------------------------------------------------------------- what an answer adds

  /**
  `kept` are the entries of `all` at the positions `at`, in order, and these are the entries whose ids are not known.
  */
  ghost predicate KeptAt(at: seq<nat>, kept: seq<NodeResult>, all: seq<NodeResult>, known: set<Id>) {
    && |at| == |kept| && (forall k :: 0 <= k < |at| ==> at[k] < |all| && all[at[k]] == kept[k])
    && (forall k, l :: 0 <= k < l < |at| ==> at[k] < at[l])
    && forall i: nat :: i < |all| ==> (all[i].id !in known <==> i in at)
  }

  ghost predicate KeepsUnknown(kept: seq<NodeResult>, all: seq<NodeResult>, known: set<Id>) {
    exists at :: KeptAt(at, kept, all, known)
  }

  lemma KeptGrows(at: seq<nat>, kept: seq<NodeResult>, front: seq<NodeResult>, last: NodeResult, known: set<Id>)
    requires KeptAt(at, kept, front, known)
    ensures last.id !in known ==> KeptAt(at + [|front|], kept + [last], front + [last], known)
    ensures last.id in known ==> KeptAt(at, kept, front + [last], known)
  {
    var all := front + [last];
    forall i: nat | i < |front| ensures all[i].id !in known <==> i in at { assert all[i] == front[i]; }
    assert |front| !in at;
  }

  lemma NoneKept(known: set<Id>)
    ensures KeptAt([], [], [], known)
  {
  }

  lemma {:induction false} NovelIsInOrder(results: seq<NodeResult>, known: set<Id>)
    ensures KeepsUnknown(Novel(results, known), results, known)
  {
    hide KeptAt;
    if results == [] {
      NoneKept(known);
    } else {
      var front, last := results[..|results| - 1], results[|results| - 1];
      NovelIsInOrder(front, known);
      var at :| KeptAt(at, Novel(front, known), front, known);
      KeptGrows(at, Novel(front, known), front, last, known);
      assert results == front + [last] && Novel(front, known) + [] == Novel(front, known);
    }
  }

  lemma {:induction false} CountAboveCounts(nodes: seq<NodeResult>, threshold: real)
    ensures CountAbove(nodes, threshold) == |set i: nat | i < |nodes| && nodes[i].impact >= threshold|
  {
    var high := set i: nat | i < |nodes| && nodes[i].impact >= threshold;
    if nodes != [] {
      var last := |nodes| - 1;
      CountAboveCounts(nodes[..last], threshold);
      var before := set i: nat | i < |nodes[..last]| && nodes[..last][i].impact >= threshold;
      assert high == before + if nodes[last].impact >= threshold then {last} else {};
    }
  }

  // ---------------------------------------------------------------- the frontier is a stack

  /** The frontier is the list of candidates, some of the expanded ones left out. */
  ghost predicate Stacked(ids: seq<Id>, frontier: seq<Id>, visited: set<Id>) {
    if ids == [] then frontier == []
    else
      var front, last := ids[..|ids| - 1], ids[|ids| - 1];
      || (frontier != [] && frontier[|frontier| - 1] == last
          && Stacked(front, frontier[..|frontier| - 1], visited))
      || (last in visited && Stacked(front, frontier, visited))
  }

  lemma {:induction false} StackedForMore(ids: seq<Id>, frontier: seq<Id>, visited: set<Id>, more: set<Id>)
    requires Stacked(ids, frontier, visited) && visited <= more
    ensures Stacked(ids, frontier, more)
  {
    if ids != [] {
      var front, last := ids[..|ids| - 1], ids[|ids| - 1];
      if last in visited && Stacked(front, frontier, visited) {
        StackedForMore(front, frontier, visited, more);
      } else {
        StackedForMore(front, frontier[..|frontier| - 1], visited, more);
      }
    }
  }

  lemma {:induction false} StackedGrows(ids: seq<Id>, frontier: seq<Id>, visited: set<Id>, novel: seq<Id>)
    requires Stacked(ids, frontier, visited)
    ensures Stacked(ids + novel, frontier + novel, visited)
    decreases |novel|
  {
    if novel == [] {
      assert ids + novel == ids && frontier + novel == frontier;
    } else {
      var front := novel[..|novel| - 1];
      StackedGrows(ids, frontier, visited, front);
      assert (ids + novel)[..|ids + novel| - 1] == ids + front;
      assert (frontier + novel)[..|frontier + novel| - 1] == frontier + front;
    }
  }

  /** Entry `p` is the last that is not expanded. */
  predicate LastOpen(ids: seq<Id>, visited: set<Id>, p: nat) {
    p < |ids| && ids[p] !in visited && forall q :: p < q < |ids| ==> ids[q] in visited
  }

  ghost predicate AllExpanded(ids: seq<Id>, visited: set<Id>) {
    forall q :: 0 <= q < |ids| ==> ids[q] in visited
  }

  lemma {:induction false} PopTakesLastOpen(ids: seq<Id>, frontier: seq<Id>, visited: set<Id>)
    requires Stacked(ids, frontier, visited)
    ensures var aim := UnvisitedFrontier(frontier, visited);
            match aim.0
            case None => aim.1 == [] && AllExpanded(ids, visited) && Stacked(ids, [], visited)
            case Some(t) =>
              && Stacked(ids, aim.1, visited + {t})
              && exists p: nat :: LastOpen(ids, visited, p) && ids[p] == t
  {
    if ids != [] {
      var front, last := ids[..|ids| - 1], ids[|ids| - 1];
      if last in visited {
        var rest := if Stacked(front, frontier, visited) then frontier else frontier[..|frontier| - 1];
        PopTakesLastOpen(front, rest, visited);
        var aim := UnvisitedFrontier(frontier, visited);
        assert aim == UnvisitedFrontier(rest, visited);
        if aim.0.Some? {
          var p: nat :| LastOpen(front, visited, p) && front[p] == aim.0.value;
          assert LastOpen(ids, visited, p);
        } else {
          assert Stacked(ids, [], visited);
        }
      } else {
        var rest := frontier[..|frontier| - 1];
        StackedForMore(front, rest, visited, visited + {last});
        assert LastOpen(ids, visited, |ids| - 1);
      }
    }
  }

  // ---------------------------------------------------------------- one step of an exploring run

  /** The frontier of an exploring run is its stack of candidates. */
  lemma {:induction false} FrontierIsStacked(c: Config, answers: nat -> seq<NodeResult>, n: nat)
    ensures var s := After(c, false, answers, n); Stacked(Ids(s.candidates), s.frontier, s.visited)
  {
    hide React, Stacked;
    if n == 0 {
      NothingStacked();
      assert Ids([]) == [];
    } else {
      FrontierIsStacked(c, answers, n - 1);
      StepsAreCounted(c, false, answers, n - 1);
      StepKeepsStack(After(c, false, answers, n - 1), c, answers(n - 1));
    }
  }

  lemma NothingStacked()
    ensures Stacked([], [], {})
  {
  }

  lemma StepKeepsStack(s: State, c: Config, results: seq<NodeResult>)
    requires s.plan == [] && Stacked(Ids(s.candidates), s.frontier, s.visited)
    ensures var next := React(s, c, results); Stacked(Ids(next.candidates), next.frontier, next.visited)
  {
    hide Novel, CountAbove, Stacked, UnvisitedFrontier, LastOpen, AllExpanded, Ids;
    var aim := Aim(s);
    if s.steps > 0 { PopTakesLastOpen(Ids(s.candidates), s.frontier, s.visited); }
    if NextAction(s) == SEARCH || aim.0.Some? {
      var visited := if aim.0.Some? then s.visited + {aim.0.value} else s.visited;
      var novel := Novel(results, Elements(Ids(s.candidates)) + visited);
      IdsOfAppend(s.candidates, novel);
      StackedGrows(Ids(s.candidates), aim.1, visited, Ids(novel));
    }
  }

  /** An answer comes in: `novel` are its entries that are neither candidates so far nor `target`. */
  ghost predicate Answered(s: State, next: State, c: Config, call: Call, novel: seq<NodeResult>) {
    && KeepsUnknown(novel, call.results, Elements(Ids(s.candidates)) + next.visited)
    && next.calls == s.calls + [call] && next.candidates == s.candidates + novel
    && next.visited == s.visited + (if call.target.Some? then {call.target.value} else {})
    && next.tokens == s.tokens + c.cost(call.action)
    && next.above == |set i: nat | i < |novel| && novel[i].impact >= c.threshold|
  }

  lemma AbsorbAnswers(s: State, c: Config, target: Option<Id>, remaining: seq<Id>, results: seq<NodeResult>)
    returns (call: Call, novel: seq<NodeResult>)
    ensures call.action == NextAction(s) && call.target == target && call.results == results
    ensures s.plan == [] ==> call.reasoned == (c.hasReasoner && results != [])
    ensures Answered(s, Absorb(s, c, target, remaining, results), c, call, novel)
  {
    hide Novel, CountAbove, KeepsUnknown, NextAction, Ids;
    var visited := if target.Some? then s.visited + {target.value} else s.visited;
    var known := Elements(Ids(s.candidates)) + visited;
    novel := Novel(results, known);
    NovelIsInOrder(results, known);
    CountAboveCounts(novel, c.threshold);
    call := Absorb(s, c, target, remaining, results).calls[|s.calls|];
  }

  /**
  Every step of an exploring run, to the last field: the first searches; each later one expands the candidate found last
  among those not expanded yet, and without one makes no call and leaves nothing to do.
  */
  lemma ExploringStep(c: Config, answers: nat -> seq<NodeResult>, n: nat)
    ensures var s, next := After(c, false, answers, n), After(c, false, answers, n + 1);
            var ids := Ids(s.candidates);
            if n == 0 then
              exists call: Call, novel ::
                && call.action == SEARCH && call.target.None? && call.results == answers(0)
                && call.reasoned == (c.hasReasoner && answers(0) != []) && Answered(s, next, c, call, novel)
            else if AllExpanded(ids, s.visited) then
              next == s.(frontier := [], steps := n + 1, above := 0, planIndex := next.planIndex)
            else
              exists p: nat, call: Call, novel ::
                && LastOpen(ids, s.visited, p)
                && call.action == CALLEES && call.target == Some(ids[p]) && call.results == answers(n)
                && call.reasoned == (c.hasReasoner && answers(n) != []) && Answered(s, next, c, call, novel)
  {
    hide Absorb, UnvisitedFrontier, Answered, Stacked, Ids;
    var s := After(c, false, answers, n);
    StepsAreCounted(c, false, answers, n);
    FrontierIsStacked(c, answers, n);
    PopTakesLastOpen(Ids(s.candidates), s.frontier, s.visited);
    var aim := Aim(s);
    if n == 0 || aim.0.Some? {
      var call, novel := AbsorbAnswers(s, c, aim.0, aim.1, answers(n));
    }
  }

  /** In either mode a step takes in the whole answer to its call, or makes no call and learns nothing. */
  lemma EveryAnswerIsTaken(c: Config, planned: bool, answers: nat -> seq<NodeResult>, n: nat)
    ensures var s, next := After(c, planned, answers, n), After(c, planned, answers, n + 1);
            || (next.calls == s.calls && next.candidates == s.candidates && next.visited == s.visited
                && next.tokens == s.tokens && next.above == 0)
            || exists call: Call, novel :: call.results == answers(n) && Answered(s, next, c, call, novel)
  {
    hide Absorb, Answered, UnvisitedFrontier;
    var s := After(c, planned, answers, n);
    var aim := Aim(s);
    if NextAction(s) == SEARCH || aim.0.Some? {
      var call, novel := AbsorbAnswers(s, c, aim.0, aim.1, answers(n));
    }
  }
}
