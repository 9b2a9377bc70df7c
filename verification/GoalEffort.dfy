/** How many results the goals of one companion can absorb before none is left
    (goblin_zomboid/sentience.py). */
module GoalEffort {
  import opened Common
  import opened Sentience
  import opened GoalHistory

  /** Two tries per step still ahead, less the failures already counted. */
  function Left(plan: seq<PlanStep>, step: nat): (n: int)
    requires step <= |plan|
    decreases |plan| - step
  {
    if step == |plan| then 0 else 2 - plan[step].failures + Left(plan, step + 1)
  }

  function Effort(s: Self): (n: int)
    requires WellFormed(s)
  {
    (if s.goal.None? then 0 else Left(s.plan, s.step))
    + (if s.suspended.None? then 0 else Left(s.suspended.value.plan, s.suspended.value.step))
  }

  lemma {:induction false} LeftBounds(plan: seq<PlanStep>, step: nat)
    requires step <= |plan| && forall i :: step <= i < |plan| ==> plan[i].failures < 2
    ensures |plan| - step <= Left(plan, step) <= 2 * (|plan| - step)
    decreases |plan| - step
  {
    if step < |plan| { LeftBounds(plan, step + 1); }
  }

  lemma EffortBounds(s: Self)
    requires WellFormed(s)
    ensures 0 <= Effort(s) <= 24
    ensures Effort(s) == 0 <==> s.goal.None?
  {
    if s.goal.Some? { LeftBounds(s.plan, s.step); }
    if s.suspended.Some? { LeftBounds(s.suspended.value.plan, s.suspended.value.step); }
  }

  /** Only the steps from `step` on matter. */
  lemma {:induction false} LeftAgrees(a: seq<PlanStep>, b: seq<PlanStep>, step: nat)
    requires |a| == |b| && step <= |a| && forall i :: step <= i < |a| ==> a[i] == b[i]
    ensures Left(a, step) == Left(b, step)
    decreases |a| - step
  {
    if step < |a| { LeftAgrees(a, b, step + 1); }
  }

  lemma {:induction false} LeftSkips(plan: seq<PlanStep>, step: nat, n: nat)
    requires step + n <= |plan| && forall i :: step <= i < |plan| ==> plan[i].failures < 2
    ensures Left(plan, step + n) + n <= Left(plan, step)
    decreases n
  {
    if n > 0 { LeftSkips(plan, step + 1, n - 1); }
  }

  /** Every matching result uses up effort, whether it succeeds, fails once, or is given up. */
  lemma MatchingResultFalls(s: Self, intent: string, success: bool)
    requires WellFormed(s) && Matches(s, intent)
    ensures WellFormed(StepResult(s, intent, success).0)
    ensures Effort(StepResult(s, intent, success).0) < Effort(s)
  {
    StepKeepsWellFormed(s, Result(intent, success));
    LeftAgrees(Failed(s).plan, s.plan, s.step + 1);
    LeftSkips(s.plan, s.step, 1);
  }

  lemma SkipNeverRaises(s: Self, cooling: set<string>)
    requires WellFormed(s)
    ensures WellFormed(SkipCooling(s, cooling).0)
    ensures Effort(SkipCooling(s, cooling).0) <= Effort(s)
  {
    StepKeepsWellFormed(s, Skip(cooling));
    LeftSkips(s.plan, s.step, CoolingRun(s.plan, s.step, cooling));
  }

  /** A reflection raises the effort only by starting a goal. */
  lemma ReflectionNeverRaises(s: Self, e: Event)
    requires WellFormed(s) && e.Reflected? && !StartsGoal(s, e.output, e.cooling)
    ensures WellFormed(Apply(s, e).0)
    ensures Effort(Apply(s, e).0) <= Effort(s)
  {
    StepKeepsWellFormed(s, e);
    if s.goal.Some? { LeftBounds(s.plan, s.step); }
  }

  /** The self after a run of events, and how many of them were results for the step then current. */
  function After(s: Self, events: seq<Event>): (r: Self)
    decreases |events|
  {
    if events == [] then s else Apply(After(s, events[..|events| - 1]), events[|events| - 1]).0
  }

  /** The events whose results were saved, in order. */
  function Saved(life: seq<Occurrence>): (r: seq<Event>)
    decreases |life|
  {
    if life == [] then []
    else Saved(life[..|life| - 1]) + if life[|life| - 1].saved then [life[|life| - 1].event] else []
  }

  /** Every life, restarts included, is for the self a run of the events that were saved. */
  lemma {:induction false} HistoryIsRun(life: seq<Occurrence>)
    ensures History(life).self == After(NewSelf, Saved(life))
    decreases |life|
  {
    if life != [] {
      var n := |life| - 1;
      HistoryIsRun(life[..n]);
      hide Apply;
      if life[n].saved {
        var front, e := Saved(life[..n]), life[n].event;
        assert (front + [e])[..|front + [e]| - 1] == front;
        NextSelf(History(life[..n]), e, n);
      } else {
        assert Saved(life[..n]) + [] == Saved(life[..n]);
      }
    }
  }

  lemma NextSelf(a: Audit, e: Event, n: nat)
    ensures Next(a, e, n).self == Apply(a.self, e).0
  {
    hide Apply;
  }

  predicate Counts(s: Self, e: Event) {
    e.Result? && Matches(s, e.intent)
  }

  function MatchingResults(s: Self, events: seq<Event>): (n: nat)
    decreases |events|
  {
    if events == [] then 0
    else
      var front := events[..|events| - 1];
      MatchingResults(s, front) + if Counts(After(s, front), events[|events| - 1]) then 1 else 0
  }

  /** The places in a run where a result matches the step then current. */
  ghost function Matching(s: Self, events: seq<Event>): (r: set<int>) {
    set k | 0 <= k < |events| && Counts(After(s, events[..k]), events[k])
  }

  lemma {:induction false} MatchingResultsIs(s: Self, events: seq<Event>)
    ensures MatchingResults(s, events) == |Matching(s, events)|
    decreases |events|
  {
    hide Counts, After;
    if events == [] {
      assert Matching(s, events) == {};
    } else {
      var n := |events| - 1;
      var front := events[..n];
      MatchingResultsIs(s, front);
      assert forall k :: 0 <= k < n ==> front[..k] == events[..k] && front[k] == events[k];
      assert Matching(s, events) == Matching(s, front) + if Counts(After(s, front), events[n]) then {n} else {};
    }
  }

  ghost predicate NoNewGoal(s: Self, events: seq<Event>) {
    forall k :: 0 <= k < |events| && events[k].Reflected? ==>
      !StartsGoal(After(s, events[..k]), events[k].output, events[k].cooling)
  }

  lemma {:induction false} EffortPays(s: Self, events: seq<Event>)
    requires WellFormed(s) && NoNewGoal(s, events)
    ensures WellFormed(After(s, events))
    ensures Effort(After(s, events)) + MatchingResults(s, events) <= Effort(s)
    decreases |events|
  {
    if events != [] {
      var front, e := events[..|events| - 1], events[|events| - 1];
      assert forall k :: 0 <= k < |front| ==> front[..k] == events[..k];
      EffortPays(s, front);
      var t := After(s, front);
      hide StartsGoal, StepResult, SkipCooling, Reflect, WellFormed, Effort;
      if Counts(t, e) {
        MatchingResultFalls(t, e.intent, e.success);
      } else if e.Skip? {
        SkipNeverRaises(t, e.cooling);
      } else if e.Reflected? {
        ReflectionNeverRaises(t, e);
      } else {
        OtherResultIgnored(t, e);
      }
    }
  }

  lemma OtherResultIgnored(s: Self, e: Event)
    requires e.Result? && !Matches(s, e.intent)
    ensures Apply(s, e) == (s, [])
  {}

  /** Without a reflection that starts a goal, at most 24 results can match, and once as many have
      matched as the goals had effort left, no goal is left, not even a suspended one. */
  lemma AtMost24Results(s: Self, events: seq<Event>)
    requires WellFormed(s) && NoNewGoal(s, events)
    ensures MatchingResults(s, events) <= Effort(s) <= 24
    ensures MatchingResults(s, events) == Effort(s) ==>
      After(s, events).goal.None? && After(s, events).suspended.None?
  {
    EffortPays(s, events);
    EffortBounds(s);
    EffortBounds(After(s, events));
  }
}
