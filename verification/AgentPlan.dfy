/**
Planned runs: search, then expand every distinct seed, then ask the callers of every distinct seed.

A planned run completes its plan exactly when the search yields a seed the step budget can pay for and the tokens
last; then it makes one call per seed and action, in order, and reasons once, at the end.
*/
module AgentPlan {
  import opened Common
  import opened Agent

  /** The first occurrences. */
  function Distinct(ids: seq<Id>): (d: seq<Id>)
    ensures Elements(d) == Elements(ids)
    ensures |d| <= |ids| && (ids != [] ==> d != [])
    ensures forall i, j :: 0 <= i < j < |d| ==> d[i] != d[j]
  {
    if ids == [] then []
    else
      var front, last := ids[..|ids| - 1], ids[|ids| - 1];
      assert ids == front + [last];
      var d := Distinct(front);
      ElementsOfAppend(front, last);
      ElementsOfAppend(d, last);
      if last in d then d else d + [last]
  }

  /** An id that first occurs at `p` comes after as many others as occur before it. */
  lemma {:induction false} DistinctInOrder(ids: seq<Id>, p: nat)
    requires p < |ids| && ids[p] !in ids[..p]
    ensures |Distinct(ids)| == |Elements(ids)|
    ensures var k := |Elements(ids[..p])|; k < |Distinct(ids)| && Distinct(ids)[k] == ids[p]
  {
    var front, last := ids[..|ids| - 1], ids[|ids| - 1];
    assert ids == front + [last];
    DistinctSize(ids);
    DistinctSize(front);
    if p < |front| {
      assert front[..p] == ids[..p];
      DistinctInOrder(front, p);
    } else {
      assert ids[..p] == front && last !in Elements(front);
    }
  }

  lemma DistinctSize(ids: seq<Id>)
    ensures |Distinct(ids)| == |Elements(ids)|
  {
    SizeOfDistinct(Distinct(ids));
  }

  lemma {:induction false} SizeOfDistinct(d: seq<Id>)
    requires forall i, j :: 0 <= i < j < |d| ==> d[i] != d[j]
    ensures |Elements(d)| == |d|
  {
    if d != [] {
      SizeOfDistinct(d[..|d| - 1]);
      assert d == d[..|d| - 1] + [d[|d| - 1]];
      ElementsOfAppend(d[..|d| - 1], d[|d| - 1]);
    }
  }

  lemma {:induction false} TargetOfAppend(front: seq<Id>, last: Id, history: set<(string, Id)>, action: string)
    ensures PlannedTarget(front + [last], history, action)
              == if PlannedTarget(front, history, action).Some? then PlannedTarget(front, history, action)
                 else if (action, last) !in history then Some(last) else None
  {
    if front == [] {
      assert front + [last] == [last];
      assert [last][1..] == [];
    } else {
      assert (front + [last])[0] == front[0] && (front + [last])[1..] == front[1..] + [last];
      TargetOfAppend(front[1..], last, history, action);
    }
  }

  /** The action has been run on the first `t` distinct seeds and on nothing else. */
  ghost predicate RunOn(history: set<(string, Id)>, action: string, d: seq<Id>, t: nat)
    requires t <= |d|
  {
    forall x :: (action, x) in history <==> x in d[..t]
  }

  /** The target of a planned step is the next distinct seed. */
  lemma {:induction false} NextDistinctSeed(seeds: seq<Id>, history: set<(string, Id)>, action: string, t: nat)
    requires t <= |Distinct(seeds)| && RunOn(history, action, Distinct(seeds), t)
    ensures PlannedTarget(seeds, history, action) == if t < |Distinct(seeds)| then Some(Distinct(seeds)[t]) else None
  {
    if seeds != [] {
      var front, last := seeds[..|seeds| - 1], seeds[|seeds| - 1];
      var d, whole := Distinct(front), Distinct(seeds);
      assert seeds == front + [last];
      TargetOfAppend(front, last, history, action);
      if t <= |d| {
        assert whole[..t] == d[..t];
        NextDistinctSeed(front, history, action, t);
        if t == |d| { assert d[..t] == d; assert last in d <==> last in Elements(d); }
        else if last in d { assert whole == d; }
      } else {
        assert whole == d + [last] && whole[..t] == whole;
        NothingLeft(front, history, action, whole);
      }
    }
  }

  lemma {:induction false} NothingLeft(seeds: seq<Id>, history: set<(string, Id)>, action: string, d: seq<Id>)
    requires Elements(seeds) <= Elements(d) && forall x :: x in d ==> (action, x) in history
    ensures PlannedTarget(seeds, history, action) == None
  {
    if seeds != [] {
      assert seeds[0] in Elements(seeds);
      assert Elements(seeds[1..]) <= Elements(seeds);
      NothingLeft(seeds[1..], history, action, d);
    }
  }

  // ---------------------------------------------------------------- what a planned run spends and calls

  /** The seeds the search of a planned run keeps. */
  function Seeds(c: Config, answers: nat -> seq<NodeResult>): seq<Id> {
    BudgetedSeeds(Ids(answers(0)), 2, c.maxSteps - 1)
  }

  /** As many of the results, from the first on, as the steps left after the search pay for at two each. */
  lemma SeedsAreAffordable(c: Config, answers: nat -> seq<NodeResult>)
    requires c.Valid()
    ensures var seeds := Seeds(c, answers);
            && seeds <= Ids(answers(0)) && 2 * |seeds| <= c.maxSteps - 1
            && (|seeds| < |answers(0)| ==> 2 * |seeds| + 2 > c.maxSteps - 1)
  {
  }

  function Targets(c: Config, answers: nat -> seq<NodeResult>): seq<Id> {
    Distinct(Seeds(c, answers))
  }

  /** The action of the step after `j` seed steps, for `d` targets. */
  function Stage(d: nat, j: nat): string {
    if j < d then EXPAND else CALLERS
  }

  /** The tokens spent after `j` seed steps. */
  function Spent(c: Config, d: nat, j: nat): nat {
    if j == 0 then c.cost(SEARCH) else Spent(c, d, j - 1) + c.cost(Stage(d, j - 1))
  }

  function ExpectedCall(c: Config, answers: nat -> seq<NodeResult>, j: nat): Call
    requires j < 2 * |Targets(c, answers)|
  {
    var d := Targets(c, answers);
    Call(Stage(|d|, j), Some(d[if j < |d| then j else j - |d|]), answers(1 + j),
         c.hasReasoner && answers(1 + j) != [] && j == 2 * |d| - 1)
  }

  /** Search first, then the expected calls. */
  function ExpectedCalls(c: Config, answers: nat -> seq<NodeResult>, j: nat): seq<Call>
    requires j <= 2 * |Targets(c, answers)|
  {
    if j == 0 then [Call(SEARCH, None, answers(0), false)]
    else ExpectedCalls(c, answers, j - 1) + [ExpectedCall(c, answers, j - 1)]
  }

  function Least(a: nat, b: nat): nat {
    if a <= b then a else b
  }

  /** A planned run after its search and `j` seed steps. */
  ghost predicate OnPlan(c: Config, answers: nat -> seq<NodeResult>, j: nat, s: State)
    requires j <= 2 * |Targets(c, answers)|
  {
    var d := Targets(c, answers);
    && s.plan == PLAN && s.seeds == Seeds(c, answers) && s.steps == 1 + j && s.tokens == Spent(c, |d|, j)
    && s.planIndex == (if j < |d| then 1 else if j < 2 * |d| then 2 else 3)
    && (d != [] ==> s.frontier != [])
    && RunOn(s.history, EXPAND, d, Least(j, |d|))
    && RunOn(s.history, CALLERS, d, if j <= |d| then 0 else j - |d|)
    && s.calls == ExpectedCalls(c, answers, j)
  }

  lemma NovelOfNothingKnown(results: seq<NodeResult>)
    ensures Novel(results, {}) == results
  {
    if results != [] {
      NovelOfNothingKnown(results[..|results| - 1]);
      assert results == results[..|results| - 1] + [results[|results| - 1]];
    }
  }

  /** The search takes the seeds the budget can pay for. */
  lemma SearchStartsPlan(c: Config, answers: nat -> seq<NodeResult>)
    requires Targets(c, answers) != []
    ensures OnPlan(c, answers, 0, React(Initial(true), c, answers(0)))
  {
    hide CountAbove, BudgetedSeeds, Distinct;
    var s := Initial(true);
    assert Elements(Ids(s.candidates)) + s.visited == {};
    NovelOfNothingKnown(answers(0));
    var next := React(s, c, answers(0));
    assert NextAction(s) == SEARCH;
    assert next.seeds == Seeds(c, answers);
    assert next.frontier == [] + next.seeds;
    assert next.frontier != [] by { TargetsNeedSeeds(c, answers); }
  }

  lemma TargetsNeedSeeds(c: Config, answers: nat -> seq<NodeResult>)
    ensures Targets(c, answers) == [] <==> Seeds(c, answers) == []
    ensures |Targets(c, answers)| <= |Seeds(c, answers)|
  {
  }

  lemma RunOnGrows(history: set<(string, Id)>, action: string, d: seq<Id>, t: nat, other: string, u: nat)
    requires t < |d| && u <= |d| && other != action && RunOn(history, action, d, t) && RunOn(history, other, d, u)
    ensures RunOn(history + {(action, d[t])}, action, d, t + 1) && RunOn(history + {(action, d[t])}, other, d, u)
  {
    assert d[..t + 1] == d[..t] + [d[t]];
  }

  /** One planned call, on the distinct seed number `t` of its stage. */
  lemma PlannedCall(s: State, c: Config, results: seq<NodeResult>, d: seq<Id>, t: nat, other: string, u: nat)
    requires s.plan == PLAN && (s.planIndex == 1 || s.planIndex == 2) && d == Distinct(s.seeds) && t < |d| && u <= |d|
    requires other in [EXPAND, CALLERS] && other != NextAction(s)
    requires RunOn(s.history, NextAction(s), d, t) && RunOn(s.history, other, d, u)
    ensures var next := React(s, c, results);
            && next.plan == PLAN && next.seeds == s.seeds && next.steps == s.steps + 1
            && next.tokens == s.tokens + c.cost(NextAction(s))
            && next.planIndex == s.planIndex + (if t + 1 < |d| then 0 else 1) && s.frontier <= next.frontier
            && RunOn(next.history, NextAction(s), d, t + 1) && RunOn(next.history, other, d, u)
            && next.calls == s.calls + [Call(NextAction(s), Some(d[t]), results,
                 c.hasReasoner && results != [] && NextAction(s) == CALLERS && t + 1 == |d|)]
  {
    hide CountAbove, BudgetedSeeds, Distinct, Novel, RunOn, PlannedTarget;
    var action := NextAction(s);
    NextDistinctSeed(s.seeds, s.history, action, t);
    RunOnGrows(s.history, action, d, t, other, u);
    NextDistinctSeed(s.seeds, s.history + {(action, d[t])}, action, t + 1);
  }

  lemma PlanProgresses(c: Config, answers: nat -> seq<NodeResult>, j: nat, s: State)
    requires j < 2 * |Targets(c, answers)| && OnPlan(c, answers, j, s)
    ensures OnPlan(c, answers, j + 1, React(s, c, answers(1 + j)))
  {
    hide React, Distinct, RunOn, Seeds;
    var d := Targets(c, answers);
    if j < |d| {
      PlannedCall(s, c, answers(1 + j), d, j, CALLERS, 0);
    } else {
      PlannedCall(s, c, answers(1 + j), d, j - |d|, EXPAND, |d|);
    }
  }

  lemma {:induction false} StaysOnPlan(c: Config, answers: nat -> seq<NodeResult>, j: nat)
    requires Targets(c, answers) != [] && j <= 2 * |Targets(c, answers)|
    ensures OnPlan(c, answers, j, After(c, true, answers, 1 + j))
  {
    hide React, OnPlan, Targets;
    if j == 0 {
      SearchStartsPlan(c, answers);
      assert After(c, true, answers, 0) == Initial(true);
    } else {
      StaysOnPlan(c, answers, j - 1);
      PlanProgresses(c, answers, j - 1, After(c, true, answers, j));
    }
  }

  lemma SeedsFitTheBudget(c: Config, answers: nat -> seq<NodeResult>)
    requires c.Valid() && Targets(c, answers) != []
    ensures 1 + 2 * |Targets(c, answers)| <= c.maxSteps
  {
    TargetsNeedSeeds(c, answers);
  }

  lemma {:induction false} SpentInClosedForm(c: Config, d: nat, j: nat)
    ensures Spent(c, d, j) == c.cost(SEARCH) + Least(j, d) * c.cost(EXPAND) + (j - Least(j, d)) * c.cost(CALLERS)
  {
    if j > 0 {
      SpentInClosedForm(c, d, j - 1);
      if j <= d {
        assert j * c.cost(EXPAND) == (j - 1) * c.cost(EXPAND) + c.cost(EXPAND);
      } else {
        assert (j - d) * c.cost(CALLERS) == (j - 1 - d) * c.cost(CALLERS) + c.cost(CALLERS);
      }
    }
  }

  lemma {:induction false} SpendingGrows(c: Config, d: nat, i: nat, j: nat)
    requires i <= j
    ensures Spent(c, d, i) <= Spent(c, d, j)
  {
    if i < j { SpendingGrows(c, d, i, j - 1); }
  }

  /** The stop test along the plan. */
  lemma StopOnPlan(c: Config, answers: nat -> seq<NodeResult>, j: nat)
    requires c.Valid() && Targets(c, answers) != [] && j <= 2 * |Targets(c, answers)|
    ensures CheckStop(After(c, true, answers, 1 + j), c)
              == if j == 2 * |Targets(c, answers)| then Some(PlanCompleted)
                 else if Spent(c, |Targets(c, answers)|, j) >= c.maxTokens then Some(TokenBudgetExhausted)
                 else None
  {
    hide After, Spent, RunOn, Targets, ExpectedCalls, Seeds;
    StaysOnPlan(c, answers, j);
    SeedsFitTheBudget(c, answers);
  }

  /** A planned run whose search keeps no seed. */
  ghost predicate Seedless(s: State) {
    s.plan == PLAN && s.seeds == [] && s.frontier == [] && s.planIndex == 1 && s.steps == 1
  }

  lemma SearchWithoutSeeds(c: Config, answers: nat -> seq<NodeResult>)
    requires Targets(c, answers) == []
    ensures Seedless(React(Initial(true), c, answers(0)))
  {
    hide CountAbove, Distinct, BudgetedSeeds;
    TargetsNeedSeeds(c, answers);
    var s := Initial(true);
    assert Elements(Ids(s.candidates)) + s.visited == {};
    NovelOfNothingKnown(answers(0));
    assert NextAction(s) == SEARCH;
  }

  lemma SeedlessDeadEnd(c: Config, s: State, results: seq<NodeResult>)
    requires Seedless(s)
    ensures var next := React(s, c, results);
            && (CheckStop(s, c) != Some(PlanCompleted))
            && CheckStop(next, c).Some? && CheckStop(next, c) != Some(PlanCompleted)
  {
    hide CountAbove, Distinct, BudgetedSeeds, Novel, Absorb;
    assert NextAction(s) == EXPAND;
    assert React(s, c, results) == DeadEnd(s, []);
  }

  /** Without a seed the plan is never completed: the second step is a dead end that stops the run. */
  lemma NoSeedNoPlan(c: Config, answers: nat -> seq<NodeResult>, n: nat, reason: Reason)
    requires c.Valid() && Targets(c, answers) == [] && StopsAt(c, true, answers, n, reason)
    ensures reason != PlanCompleted
  {
    hide React, Targets, CheckStop, Seedless, Initial;
    SearchWithoutSeeds(c, answers);
    var s1 := After(c, true, answers, 1);
    assert s1 == React(After(c, true, answers, 0), c, answers(0));
    SeedlessDeadEnd(c, s1, answers(1));
    assert After(c, true, answers, 2) == React(s1, c, answers(1));
    assert n <= 2;
  }

  /**
  A planned run completes its plan exactly when the search yields a seed and the tokens last to the final call; it
  then takes one step per seed and action, calls each action once on each distinct seed in order, and reasons once, in
  the final step.
  */
  lemma PlannedRunCompletes(c: Config, answers: nat -> seq<NodeResult>, n: nat, reason: Reason)
    requires c.Valid() && StopsAt(c, true, answers, n, reason)
    ensures var d := |Targets(c, answers)|;
            && (reason == PlanCompleted <==>
                  d > 0 && c.cost(SEARCH) + d * c.cost(EXPAND) + (d - 1) * c.cost(CALLERS) < c.maxTokens)
            && (reason == PlanCompleted ==>
                  n == 1 + 2 * d && After(c, true, answers, n).calls == ExpectedCalls(c, answers, 2 * d))
  {
    var d := |Targets(c, answers)|;
    hide Targets, After, Spent, ExpectedCalls, Distinct;
    if d == 0 {
      NoSeedNoPlan(c, answers, n, reason);
    } else {
      SpentInClosedForm(c, d, 2 * d - 1);
      StopOnPlan(c, answers, 2 * d - 1);
      if Spent(c, d, 2 * d - 1) < c.maxTokens {
        forall i | 1 <= i <= 2 * d ensures CheckStop(After(c, true, answers, i), c) == None {
          SpendingGrows(c, d, i - 1, 2 * d - 1);
          StopOnPlan(c, answers, i - 1);
        }
        StopOnPlan(c, answers, 2 * d);
        assert n == 1 + 2 * d;
        StaysOnPlan(c, answers, 2 * d);
      } else {
        assert n <= 2 * d;
        StopOnPlan(c, answers, n - 1);
      }
    }
  }

  /** Each later action is called on each distinct seed, and on nothing else. */
  lemma {:induction false} CallsAreTheGrid(c: Config, answers: nat -> seq<NodeResult>, j: nat, i: nat)
    requires i <= j <= 2 * |Targets(c, answers)|
    ensures |ExpectedCalls(c, answers, j)| == 1 + j
    ensures i < j ==> ExpectedCalls(c, answers, j)[1 + i] == ExpectedCall(c, answers, i)
  {
    hide Targets, ExpectedCall;
    if j > 0 { CallsAreTheGrid(c, answers, j - 1, if i < j then i else 0); CallsAreTheGrid(c, answers, j - 1, 0); }
  }
}
