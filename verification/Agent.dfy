/**
The bounded navigation agent: one reasoning step, the stop test, and whole runs.

The tool runtime is arbitrary: `answers(i)` is what it returns to the call made in step `i`, if that step calls it.
`calls` in the state only observes the calls made; no step reads it. `cost` is the token estimate of an action's
message.
*/
module Agent {
  import opened Common

  type Id = string

  datatype NodeResult = NodeResult(id: Id, impact: real)

  const SEARCH := "semantic_search"
  const EXPAND := "expand_dependencies"
  const CALLERS := "get_callers"
  const CALLEES := "get_callees"
  const PLAN: seq<string> := [SEARCH, EXPAND, CALLERS]

  datatype Config = Config(maxSteps: nat, maxTokens: nat, threshold: real, hasReasoner: bool, cost: string -> nat)
  {
    predicate Valid() { maxSteps >= 1 && maxTokens >= 1 }
  }

  datatype Reason = PlanCompleted | StepBudgetExhausted | TokenBudgetExhausted | BlastRadiusStabilized

  datatype Call = Call(action: string, target: Option<Id>, results: seq<NodeResult>, reasoned: bool)

  datatype State = State(plan: seq<string>, planIndex: nat, visited: set<Id>, frontier: seq<Id>, seeds: seq<Id>,
                         history: set<(string, Id)>, candidates: seq<NodeResult>, steps: nat, tokens: nat, above: nat,
                         calls: seq<Call>)

  function Initial(planned: bool): State {
    State(if planned then PLAN else [], 0, {}, [], [], {}, [], 0, 0, 0, [])
  }

  function CheckStop(s: State, c: Config): Option<Reason> {
    if s.plan != [] && s.planIndex >= |s.plan| then Some(PlanCompleted)
    else if s.steps >= c.maxSteps then Some(StepBudgetExhausted)
    else if s.tokens >= c.maxTokens then Some(TokenBudgetExhausted)
    else if s.steps > 1 && s.above == 0 && s.frontier == [] then Some(BlastRadiusStabilized)
    else None
  }

  function NextAction(s: State): string {
    if s.plan != [] then s.plan[if s.planIndex <= |s.plan| - 1 then s.planIndex else |s.plan| - 1]
    else if s.steps == 0 then SEARCH
    else CALLEES
  }

  /** The last unvisited entry, and the frontier below it; visited entries above it are dropped. */
  function UnvisitedFrontier(frontier: seq<Id>, visited: set<Id>): (Option<Id>, seq<Id>) {
    if frontier == [] then (None, [])
    else
      var last, rest := frontier[|frontier| - 1], frontier[..|frontier| - 1];
      if last !in visited then (Some(last), rest) else UnvisitedFrontier(rest, visited)
  }

  /** The first seed this action has not been run on. */
  function PlannedTarget(seeds: seq<Id>, history: set<(string, Id)>, action: string): Option<Id> {
    if seeds == [] then None
    else if (action, seeds[0]) !in history then Some(seeds[0])
    else PlannedTarget(seeds[1..], history, action)
  }

  function Novel(results: seq<NodeResult>, known: set<Id>): seq<NodeResult> {
    if results == [] then []
    else
      var last := results[|results| - 1];
      Novel(results[..|results| - 1], known) + if last.id !in known then [last] else []
  }

  function Ids(nodes: seq<NodeResult>): seq<Id> {
    seq(|nodes|, i requires 0 <= i < |nodes| => nodes[i].id)
  }

  function CountAbove(nodes: seq<NodeResult>, threshold: real): nat {
    if nodes == [] then 0
    else CountAbove(nodes[..|nodes| - 1], threshold) + if nodes[|nodes| - 1].impact >= threshold then 1 else 0
  }

  /** The seeds the remaining plan can afford: one step each per remaining action. */
  function BudgetedSeeds(discovered: seq<Id>, remainingActions: int, remainingSteps: int): seq<Id> {
    if remainingActions <= 0 then discovered
    else
      var count := (if remainingSteps > 0 then remainingSteps else 0) / remainingActions;
      if count <= 0 then [] else if count <= |discovered| then discovered[..count] else discovered
  }

  /** The target of the step and the frontier left for it; searching takes no target. */
  function Aim(s: State): (Option<Id>, seq<Id>) {
    var action := NextAction(s);
    if action == SEARCH then (None, s.frontier)
    else if s.plan != [] then (PlannedTarget(s.seeds, s.history, action), s.frontier)
    else UnvisitedFrontier(s.frontier, s.visited)
  }

  function DeadEnd(s: State, remaining: seq<Id>): State {
    s.(frontier := remaining, steps := s.steps + 1, above := 0, planIndex := s.planIndex + 1)
  }

  function Advance(s: State, action: string, history: set<(string, Id)>): nat {
    if s.plan != [] && action != SEARCH && PlannedTarget(s.seeds, history, action).Some? then 0 else 1
  }

  /** The effect of the tool call on the state. */
  function Absorb(s: State, c: Config, target: Option<Id>, remaining: seq<Id>, results: seq<NodeResult>): State {
    var action := NextAction(s);
    var visited := if target.Some? then s.visited + {target.value} else s.visited;
    var history := if target.Some? then s.history + {(action, target.value)} else s.history;
    var advance := Advance(s, action, history);
    var reasons := s.plan == [] || (action == s.plan[|s.plan| - 1] && advance == 1);
    var novel := Novel(results, Elements(Ids(s.candidates)) + visited);
    var planned := if action == SEARCH && s.plan != []
      then BudgetedSeeds(Ids(novel), |s.plan| - (s.planIndex + advance), c.maxSteps - (s.steps + 1))
      else Ids(novel);
    State(s.plan, s.planIndex + advance, visited, remaining + planned, if action == SEARCH then planned
                                                                       else s.seeds, history,
          s.candidates + novel, s.steps + 1, s.tokens + c.cost(action), CountAbove(novel, c.threshold),
          s.calls + [Call(action, target, results, c.hasReasoner && results != [] && reasons)])
  }

  function React(s: State, c: Config, results: seq<NodeResult>): State {
    var aim := Aim(s);
    if NextAction(s) != SEARCH && aim.0.None? then DeadEnd(s, aim.1)
    else Absorb(s, c, aim.0, aim.1, results)
  }

  // ---------------------------------------------------------------- the step as it runs

  method PopUnvisited(frontier: seq<Id>, visited: set<Id>) returns (target: Option<Id>, remaining: seq<Id>)
    ensures (target, remaining) == UnvisitedFrontier(frontier, visited)
    ensures target.None? ==> remaining == [] && forall id :: id in frontier ==> id in visited
    ensures target.Some? ==>
              && remaining + [target.value] <= frontier && target.value !in visited
              && forall i :: |remaining| < i < |frontier| ==> frontier[i] in visited
  {
    remaining := frontier;
    while remaining != []
      invariant UnvisitedFrontier(remaining, visited) == UnvisitedFrontier(frontier, visited)
      invariant remaining <= frontier && forall i :: |remaining| <= i < |frontier| ==> frontier[i] in visited
    {
      var candidate := remaining[|remaining| - 1];
      remaining := remaining[..|remaining| - 1];
      if candidate !in visited { return Some(candidate), remaining; }
    }
    return None, remaining;
  }

  method ReactStep(s: State, c: Config, results: seq<NodeResult>) returns (next: State)
    ensures next == React(s, c, results)
  {
    hide CountAbove, BudgetedSeeds, UnvisitedFrontier, PlannedTarget, Novel, Ids;
    var action := NextAction(s);
    var target: Option<Id>, remaining := None, s.frontier;
    if action != SEARCH {
      if s.plan != [] { target := PlannedTarget(s.seeds, s.history, action); }
      else { target, remaining := PopUnvisited(s.frontier, s.visited); }
      if target.None? { return DeadEnd(s, remaining); }
    }
    assert React(s, c, results) == Absorb(s, c, target, remaining, results);
    hide React, Aim, NextAction;
    var visited, history := s.visited, s.history;
    if target.Some? { visited, history := visited + {target.value}, history + {(action, target.value)}; }
    var advance := 1;
    if s.plan != [] && action != SEARCH {
      advance := if PlannedTarget(s.seeds, history, action).Some? then 0 else 1;
    }
    var shouldReason := s.plan == [] || (action == s.plan[|s.plan| - 1] && advance == 1);
    var existing := Elements(Ids(s.candidates));
    var novel, above := KeepNovel(results, existing + visited, c.threshold);
    var planned := Ids(novel);
    if action == SEARCH && s.plan != [] {
      planned := BudgetedSeeds(Ids(novel), |s.plan| - (s.planIndex + advance), c.maxSteps - (s.steps + 1));
    }
    next := State(s.plan, s.planIndex + advance, visited, remaining + planned, if action == SEARCH then planned
                                                                               else s.seeds, history,
                  s.candidates + novel, s.steps + 1, s.tokens + c.cost(action), above,
                  s.calls + [Call(action, target, results, c.hasReasoner && results != [] && shouldReason)]);
  }

  method KeepNovel(results: seq<NodeResult>, known: set<Id>, threshold: real)
    returns (novel: seq<NodeResult>, above: nat)
    ensures novel == Novel(results, known) && above == CountAbove(novel, threshold)
  {
    novel, above := [], 0;
    for i := 0 to |results|
      invariant novel == Novel(results[..i], known) && above == CountAbove(novel, threshold)
    {
      assert results[..i + 1][..i] == results[..i];
      if results[i].id !in known {
        assert (novel + [results[i]])[..|novel|] == novel;
        if results[i].impact >= threshold { above := above + 1; }
        novel := novel + [results[i]];
      }
    }
    assert results[..|results|] == results;
  }

  // ---------------------------------------------------------------- runs

  /** The state after `n` steps. */
  function After(c: Config, planned: bool, answers: nat -> seq<NodeResult>, n: nat): State {
    if n == 0 then Initial(planned) else React(After(c, planned, answers, n - 1), c, answers(n - 1))
  }

  /** The run stops after step `n`, for this reason, and not before. */
  ghost predicate StopsAt(c: Config, planned: bool, answers: nat -> seq<NodeResult>, n: nat, reason: Reason) {
    && n >= 1 && CheckStop(After(c, planned, answers, n), c) == Some(reason)
    && forall i :: 1 <= i < n ==> CheckStop(After(c, planned, answers, i), c) == None
  }

  lemma {:induction false} StepsAreCounted(c: Config, planned: bool, answers: nat -> seq<NodeResult>, n: nat)
    ensures After(c, planned, answers, n).steps == n && After(c, planned, answers, n).plan == Initial(planned).plan
  {
    hide Aim, NextAction, Advance, Novel, BudgetedSeeds;
    if n > 0 { StepsAreCounted(c, planned, answers, n - 1); }
  }

  /** Every run stops within the step budget: the loop below is the agent's, and its end is the first stop. */
  method RunAgent(c: Config, planned: bool, answers: nat -> seq<NodeResult>) returns (s: State, reason: Reason, n: nat)
    requires c.Valid()
    ensures StopsAt(c, planned, answers, n, reason) && s == After(c, planned, answers, n) && n <= c.maxSteps
  {
    hide React, Initial;
    n, s := 0, Initial(planned);
    while true
      invariant s == After(c, planned, answers, n) && n < c.maxSteps
      invariant forall i :: 1 <= i <= n ==> CheckStop(After(c, planned, answers, i), c) == None
      decreases c.maxSteps - n
    {
      s := ReactStep(s, c, answers(n));
      n := n + 1;
      StepsAreCounted(c, planned, answers, n);
      var stop := CheckStop(s, c);
      if stop.Some? { reason := stop.value; return; }
    }
  }

  /** Every run stops, and within the step budget. */
  lemma {:induction false} EveryRunStops(c: Config, planned: bool, answers: nat -> seq<NodeResult>, i: nat)
    returns (n: nat, reason: Reason)
    requires c.Valid() && i < c.maxSteps
    requires forall j :: 1 <= j <= i ==> CheckStop(After(c, planned, answers, j), c) == None
    ensures StopsAt(c, planned, answers, n, reason) && n <= c.maxSteps
    decreases c.maxSteps - i
  {
    hide React, After;
    n := i + 1;
    StepsAreCounted(c, planned, answers, n);
    var stop := CheckStop(After(c, planned, answers, n), c);
    if stop.Some? { reason := stop.value; }
    else { n, reason := EveryRunStops(c, planned, answers, n); }
  }

  /** No run outlives its budgets: tokens run out with the last step at the earliest, and every reason given is true. */
  lemma {:induction false} BudgetsHold(c: Config, planned: bool, answers: nat -> seq<NodeResult>, n: nat,
                                       reason: Reason)
    requires c.Valid() && StopsAt(c, planned, answers, n, reason)
    ensures n <= c.maxSteps && forall i :: 1 <= i < n ==> After(c, planned, answers, i).tokens < c.maxTokens
    ensures match reason
            case PlanCompleted => planned
            case StepBudgetExhausted => n == c.maxSteps
            case TokenBudgetExhausted => n < c.maxSteps && After(c, planned, answers, n).tokens >= c.maxTokens
            case BlastRadiusStabilized =>
              && 1 < n < c.maxSteps && After(c, planned, answers, n).tokens < c.maxTokens
              && After(c, planned, answers, n).above == 0
  {
    hide After;
    StepsAreCounted(c, planned, answers, n);
    if n > c.maxSteps {
      StepsAreCounted(c, planned, answers, c.maxSteps);
      assert false;
    }
    forall i | 1 <= i < n ensures After(c, planned, answers, i).tokens < c.maxTokens {
      assert CheckStop(After(c, planned, answers, i), c) == None;
    }
  }

  // ---------------------------------------------------------------- exploring runs

  predicate CandidateId(s: State, id: Id) {
    id in Ids(s.candidates)
  }

  ghost predicate Expanded(s: State, id: Id) {
    exists i :: 0 <= i < |s.calls| && s.calls[i].action == CALLEES && s.calls[i].target == Some(id)
  }

  /** What every exploring run keeps. */
  ghost predicate Exploring(s: State) {
    && s.plan == [] && (s.steps == 0 <==> s.calls == [])
    && (s.calls != [] ==> s.calls[0].action == SEARCH && s.calls[0].target.None?)
    && (forall i :: 1 <= i < |s.calls| ==> s.calls[i].action == CALLEES && s.calls[i].target.Some?)
    && (forall i, j :: 0 <= i < j < |s.calls| ==> s.calls[i].target != s.calls[j].target)
    && (forall id :: id in s.visited <==> Expanded(s, id))
    && (forall id :: CandidateId(s, id) <==> id in s.visited || id in s.frontier)
    && (forall i, r :: 0 <= i < |s.calls| && r in s.calls[i].results ==> CandidateId(s, r.id))
  }

  lemma ExploringStarts()
    ensures Exploring(Initial(false))
  {
  }

  lemma {:induction false} PopFindsUnvisited(frontier: seq<Id>, visited: set<Id>)
    ensures var aim := UnvisitedFrontier(frontier, visited);
            && (forall id :: id in frontier ==> id in visited || id in aim.1 || aim.0 == Some(id))
            && (forall id :: id in aim.1 ==> id in frontier)
            && (aim.0.Some? ==> aim.0.value !in visited && aim.0.value in frontier)
            && (aim.0.None? ==> aim.1 == [])
  {
    if frontier != [] {
      var last, rest := frontier[|frontier| - 1], frontier[..|frontier| - 1];
      assert frontier == rest + [last];
      PopFindsUnvisited(rest, visited);
    }
  }

  lemma {:induction false} NovelKeepsUnknown(results: seq<NodeResult>, known: set<Id>)
    ensures forall r :: r in Novel(results, known) <==> r in results && r.id !in known
  {
    if results != [] {
      var front, last := results[..|results| - 1], results[|results| - 1];
      assert results == front + [last];
      NovelKeepsUnknown(front, known);
    }
  }

  lemma IdsOfAppend(a: seq<NodeResult>, b: seq<NodeResult>)
    ensures Ids(a + b) == Ids(a) + Ids(b)
    ensures forall id :: id in Ids(a) <==> exists r :: r in a && r.id == id
  {
    forall id | id in Ids(a) ensures exists r :: r in a && r.id == id {
      var i :| 0 <= i < |Ids(a)| && Ids(a)[i] == id;
      assert a[i] in a;
    }
    forall r | r in a ensures r.id in Ids(a) {
      var i :| 0 <= i < |a| && a[i] == r;
      assert Ids(a)[i] == r.id;
    }
  }

  /** What one absorbed call does to an exploring state, seen through ids. */
  ghost predicate Absorbed(s: State, next: State, target: Option<Id>, remaining: seq<Id>, call: Call, newIds: seq<Id>) {
    && next.plan == s.plan && next.steps == s.steps + 1
    && next.visited == (if target.Some? then s.visited + {target.value} else s.visited)
    && next.calls == s.calls + [call] && call.target == target
    && (forall id :: CandidateId(next, id) <==> CandidateId(s, id) || id in newIds)
    && next.frontier == remaining + newIds
    && (forall r :: r in call.results ==> r.id in newIds || CandidateId(s, r.id) || r.id in next.visited)
  }

  lemma AbsorbInIds(s: State, c: Config, target: Option<Id>, remaining: seq<Id>, results: seq<NodeResult>)
    returns (call: Call, newIds: seq<Id>)
    requires s.plan == []
    ensures Absorbed(s, Absorb(s, c, target, remaining, results), target, remaining, call, newIds)
    ensures call.action == NextAction(s)
    ensures call.results == results
  {
    hide CountAbove, Novel, NextAction, BudgetedSeeds, Advance;
    var next := Absorb(s, c, target, remaining, results);
    var known := Elements(Ids(s.candidates)) + next.visited;
    var novel := Novel(results, known);
    NovelKeepsUnknown(results, known);
    IdsOfAppend(s.candidates, novel);
    IdsOfAppend(novel, []);
    newIds, call := Ids(novel), next.calls[|s.calls|];
    assert next.candidates == s.candidates + novel;
    forall id ensures CandidateId(next, id) <==> CandidateId(s, id) || id in newIds {}
  }

  lemma AbsorbedKeepsExploring(s: State, next: State, target: Option<Id>, remaining: seq<Id>, call: Call,
                               newIds: seq<Id>)
    requires Exploring(s) && Absorbed(s, next, target, remaining, call, newIds)
    requires if s.calls == [] then target.None? && call.action == SEARCH && remaining == s.frontier
             else call.action == CALLEES && target.Some? && target.value !in s.visited && target.value in s.frontier
    requires forall id :: id in s.frontier ==> id in s.visited || id in remaining || target == Some(id)
    requires forall id :: id in remaining ==> id in s.frontier
    ensures Exploring(next)
  {
    hide CandidateId;
    forall id ensures id in next.visited <==> Expanded(next, id) { ExpandedGrows(s, next, call, id); }
    if s.calls != [] { NotCalledBefore(s, target.value); }
    forall id ensures CandidateId(next, id) <==> id in next.visited || id in next.frontier {}
    forall i, r | 0 <= i < |next.calls| && r in next.calls[i].results ensures CandidateId(next, r.id) {
      if i < |s.calls| { assert r in s.calls[i].results; }
    }
  }

  lemma ExpandedGrows(s: State, next: State, call: Call, id: Id)
    requires next.calls == s.calls + [call]
    ensures Expanded(next, id) <==> Expanded(s, id) || (call.action == CALLEES && call.target == Some(id))
  {
    if Expanded(s, id) {
      var i :| 0 <= i < |s.calls| && s.calls[i].action == CALLEES && s.calls[i].target == Some(id);
      assert next.calls[i] == s.calls[i];
    }
    assert next.calls[|s.calls|] == call;
  }

  lemma NotCalledBefore(s: State, id: Id)
    requires Exploring(s) && id !in s.visited
    ensures forall i :: 0 <= i < |s.calls| ==> s.calls[i].target != Some(id)
  {
    assert !Expanded(s, id);
  }

  lemma ReactKeepsExploring(s: State, c: Config, results: seq<NodeResult>)
    requires Exploring(s)
    ensures Exploring(React(s, c, results))
  {
    hide Novel, CountAbove, UnvisitedFrontier;
    var (target, remaining) := Aim(s);
    if s.steps == 0 {
      var call, newIds := AbsorbInIds(s, c, target, remaining, results);
      AbsorbedKeepsExploring(s, React(s, c, results), target, remaining, call, newIds);
    } else {
      PopFindsUnvisited(s.frontier, s.visited);
      if target.None? {
        DeadEndKeepsExploring(s, remaining);
      } else {
        var call, newIds := AbsorbInIds(s, c, target, remaining, results);
        AbsorbedKeepsExploring(s, React(s, c, results), target, remaining, call, newIds);
      }
    }
  }

  lemma DeadEndKeepsExploring(s: State, remaining: seq<Id>)
    requires Exploring(s) && s.steps > 0 && remaining == [] && forall id :: id in s.frontier ==> id in s.visited
    ensures Exploring(DeadEnd(s, remaining))
  {
    hide CandidateId;
    var next := DeadEnd(s, remaining);
    forall id ensures Expanded(next, id) <==> Expanded(s, id) { ExpandedSame(s, next, id); }
    forall id ensures CandidateId(next, id) <==> CandidateId(s, id) { CandidateSame(s, next, id); }
  }

  lemma ExpandedSame(s: State, next: State, id: Id)
    requires next.calls == s.calls
    ensures Expanded(next, id) <==> Expanded(s, id)
  {
  }

  lemma CandidateSame(s: State, next: State, id: Id)
    requires next.candidates == s.candidates
    ensures CandidateId(next, id) <==> CandidateId(s, id)
  {
  }

  lemma {:induction false} ExploringRun(c: Config, answers: nat -> seq<NodeResult>, n: nat)
    ensures Exploring(After(c, false, answers, n))
  {
    hide Exploring, React;
    if n == 0 { ExploringStarts(); }
    else {
      ExploringRun(c, answers, n - 1);
      ReactKeepsExploring(After(c, false, answers, n - 1), c, answers(n - 1));
    }
  }

  /**
  An exploring run never expands a node twice; and if it stops as stabilized, every candidate was expanded and every
  result of every call is a candidate, so the candidates are closed under the runtime's answers.
  */
  lemma StabilizedMeansClosed(c: Config, answers: nat -> seq<NodeResult>, n: nat, reason: Reason)
    requires StopsAt(c, false, answers, n, reason)
    ensures var s := After(c, false, answers, n);
            && (forall i, j :: 0 <= i < j < |s.calls| ==> s.calls[i].target != s.calls[j].target)
            && (reason.BlastRadiusStabilized? ==>
                  && (forall id :: CandidateId(s, id) <==> Expanded(s, id))
                  && forall i, r :: 0 <= i < |s.calls| && r in s.calls[i].results ==> CandidateId(s, r.id))
  {
    hide CandidateId, Expanded, After;
    ExploringRun(c, answers, n);
  }
}
