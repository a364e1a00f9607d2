// First drafts of one date at the same time. The table has no unique key for
// workspace and date, so nothing but the lookup keeps a second plan out
// (services/orchestrator/daypilot_orchestrator/today_engine.py).

module DayPlanConcurrent {
  import opened Transactions

  // The requests whose plan for the date is stored, those that have found
  // none, and those whose lookup has failed because it found several.
  datatype State = State(plans: set<nat>, foundNone: set<nat>, failed: set<nat>)

  function Next(s: State, step: Step): State {
    match step
    case Read(i) =>
      if s.plans == {} then s.(foundNone := s.foundNone + {i})
      else if |s.plans| == 1 then s
      else s.(failed := s.failed + {i})
    case Commit(i) => if i in s.foundNone then s.(plans := s.plans + {i}) else s
  }

  function Run(steps: seq<Step>): State {
    if steps == [] then State({}, {}, {}) else Next(Run(steps[..|steps| - 1]), steps[|steps| - 1])
  }

  // The requests that have looked before anybody has committed.
  function LookedFirst(steps: seq<Step>): set<nat> {
    if steps == [] then {}
    else
      var before, last := steps[..|steps| - 1], steps[|steps| - 1];
      if last.Read? && Committers(before) == {} then LookedFirst(before) + {last.i} else LookedFirst(before)
  }

  // The plans of a date are those of the requests that commit and have looked
  // before the first commit.
  lemma {:induction false} PlansExactly(steps: seq<Step>)
    requires WellFormed(steps)
    ensures Run(steps).plans == LookedFirst(steps) * Committers(steps)
    ensures Run(steps).foundNone == LookedFirst(steps)
    ensures Run(steps).plans == {} <==> Committers(steps) == {}
    ensures LookedFirst(steps) <= Readers(steps)
    ensures Committers(steps) == {} ==> LookedFirst(steps) == Readers(steps)
  {
    if steps != [] {
      var before, last := steps[..|steps| - 1], steps[|steps| - 1];
      PlansExactly(before);
      CommittersRead(before);
      assert last.Commit? ==> last.i in Committers(steps);
    }
  }

  lemma {:induction false} CommittersRead(steps: seq<Step>)
    requires WellFormed(steps)
    ensures Committers(steps) <= Readers(steps)
  {
    if steps != [] {
      CommittersRead(steps[..|steps| - 1]);
    }
  }

  // A date gets a second plan if and only if two requests that commit have
  // both looked before the first commit.
  lemma SecondPlanExactly(steps: seq<Step>)
    requires WellFormed(steps)
    ensures |Run(steps).plans| >= 2 <==>
            exists i: nat, j: nat :: i != j && {i, j} <= LookedFirst(steps) && {i, j} <= Committers(steps)
  {
    PlansExactly(steps);
    var plans := Run(steps).plans;
    if |plans| >= 2 {
      var i :| i in plans;
      assert |plans - {i}| == |plans| - 1;
      var j :| j in plans - {i};
      assert {i, j} <= LookedFirst(steps) && {i, j} <= Committers(steps);
    }
    if i: nat, j: nat :| i != j && {i, j} <= LookedFirst(steps) && {i, j} <= Committers(steps) {
      assert {i, j} <= plans;
      Subset({i, j}, plans);
    }
  }

  lemma Subset(small: set<nat>, large: set<nat>)
    requires small <= large
    ensures |small| <= |large|
  {
    assert large == small + (large - small);
  }

  // From then on every lookup of the date fails.
  lemma {:induction false} LookupsFail(steps: seq<Step>, n: nat, m: nat)
    requires n <= m < |steps| && |Run(steps[..n]).plans| >= 2 && steps[m].Read?
    ensures steps[m].i in Run(steps).failed
    decreases |steps|
  {
    var before := steps[..|steps| - 1];
    assert before[..n] == steps[..n];
    if m < |before| {
      assert before[m] == steps[m];
      LookupsFail(before, n, m);
    } else {
      PlansStay(before, n);
      Subset(Run(before[..n]).plans, Run(before).plans);
    }
  }

  lemma {:induction false} PlansStay(steps: seq<Step>, n: nat)
    requires n <= |steps|
    ensures Run(steps[..n]).plans <= Run(steps).plans
  {
    if n == |steps| {
      assert steps[..n] == steps;
    } else {
      assert steps[..|steps| - 1][..n] == steps[..n];
      PlansStay(steps[..|steps| - 1], n);
    }
  }
}
