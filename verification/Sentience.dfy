/** A companion's goals: plans, one suspended goal, two-strike failures and cooldown skips
    (goblin_zomboid/sentience.py). */
module Sentience {
  import opened Common

  const PLAN_LIMIT := 6

  const PLAN_INTENTS: set<string> := {
    "SECURE_BASE", "INSPECT_BASE", "MAINTAIN_BASE", "REPAIR_STRUCTURE", "CLOSE_CURTAINS", "SORT_STORAGE", "STOCKPILE",
    "FETCH_ITEM", "DELIVER", "DISMANTLE", "LOOT_AREA", "RETURN_TO_BASE", "TREAT_PLAYER", "CHOP_WOOD", "FORAGE",
    "CHECK_TRAPS", "COOK", "RESTORE_POWER", "FARM", "CRAFT", "VEHICLE_INSPECT", "VEHICLE_SERVICE", "REFUEL_VEHICLE",
    "REPAIR_VEHICLE", "CHANGE_TIRE", "FOLLOW", "SAY"}

  /** JOB_ALIASES: the intent a reported job name stands for. */
  function Alias(intent: string): (r: string) {
    if intent == "FORTIFY" || intent == "FORTIFY_BASE" then "SECURE_BASE"
    else if intent == "LOOT" then "LOOT_AREA" else intent
  }

  datatype PlanStep = PlanStep(intent: string, note: string, job: Option<string>, failures: nat)

  datatype Goal = Goal(goal: string, reason: Option<string>, started: real, unverified: bool)

  datatype Suspended = Suspended(goal: Goal, plan: seq<PlanStep>, step: nat)

  datatype Self = Self(goal: Option<Goal>, suspended: Option<Suspended>, plan: seq<PlanStep>, step: nat,
                       lastReflect: real, reflections: nat)

  const NewSelf := Self(None, None, [], 0, 0.0, 0)

  /** What the mind records about goals. */
  datatype Note = Finished(goal: string) | GaveUpOn(goal: string) | GaveUpStep(intent: string)

  // ---- reflection output

  datatype RawStep = Malformed | RawStep(intent: string, note: Option<string>, job: Option<string>)

  datatype Decision = Continue | New | Interrupt | Complete | Abandon

  datatype Reflection = Reflection(decision: Decision, goal: Option<string>, reason: Option<string>, plan: seq<RawStep>)

  /** _text: squeezed white space, cut to a length, nothing if empty. */
  function Text(value: Option<string>, limit: nat): (r: Option<string>) {
    if value.None? || Squeeze(value.value) == [] then None else Some(Cut(Squeeze(value.value), limit))
  }

  function CleanStep(s: RawStep): (r: Option<PlanStep>) {
    if s.Malformed? || s.intent !in PLAN_INTENTS then None
    else Some(PlanStep(s.intent, var n := Text(s.note, 80); if n.Some? then n.value else "",
                       if s.job.Some? then Some(Cut(s.job.value, 24)) else None, 0))
  }

  /** _clean_plan: the first six usable steps. */
  function CleanPlan(raw: seq<RawStep>, room: nat): (r: seq<PlanStep>)
    ensures |r| <= room
    ensures forall i :: 0 <= i < |r| ==> r[i].intent in PLAN_INTENTS && r[i].failures == 0
    decreases |raw|
  {
    if raw == [] || room == 0 then []
    else
      var c := CleanStep(raw[0]);
      if c.None? then CleanPlan(raw[1..], room) else [c.value] + CleanPlan(raw[1..], room - 1)
  }

  function NotCooling(plan: seq<PlanStep>, cooling: set<string>): (r: seq<PlanStep>)
    ensures |r| <= |plan|
    ensures forall i :: 0 <= i < |r| ==> r[i] in plan && r[i].intent !in cooling
    decreases |plan|
  {
    if plan == [] then []
    else (if plan[0].intent in cooling then [] else [plan[0]]) + NotCooling(plan[1..], cooling)
  }

  // ---- what these say, element by element

  predicate UsableStep(s: RawStep) {
    s.RawStep? && s.intent in PLAN_INTENTS
  }

  /** A text is kept unless it is blank: squeezed, and cut to its limit. */
  lemma TextIs(value: Option<string>, limit: nat)
    ensures Text(value, limit).Some? <==> value.Some? && exists i :: 0 <= i < |value.value| && !PySpace(value.value[i])
    ensures Text(value, limit).Some? ==>
      var r, all := Text(value, limit).value, Squeeze(value.value);
      r <= all && |r| == if |all| <= limit then |all| else limit
  {
    if value.Some? { SqueezeBlank(value.value); }
  }

  lemma {:induction false} SqueezeBlank(s: string)
    ensures Squeeze(s) == [] <==> forall i :: 0 <= i < |s| ==> PySpace(s[i])
    decreases |s|
  {
    if s != [] && PySpace(s[0]) {
      SqueezeBlank(s[1..]);
      assert forall i :: 0 < i < |s| ==> s[i] == s[1..][i - 1];
    }
  }

  /** A usable step keeps its intent, its note up to 80 characters and its job up to 24, and starts without failures. */
  lemma CleanStepIs(s: RawStep)
    ensures CleanStep(s).Some? <==> UsableStep(s)
    ensures UsableStep(s) ==>
      var c := CleanStep(s).value;
      && c.intent == s.intent && c.failures == 0
      && (if Text(s.note, 80).Some? then Text(s.note, 80) == Some(c.note) else c.note == "")
      && (c.job.Some? <==> s.job.Some?) && (s.job.Some? ==> c.job.value <= s.job.value && |c.job.value| == if |s.job.value| <= 24 then |s.job.value| else 24)
  {
    hide Text;
  }

  /** The plan is the first usable steps, as many as there is room for, in their order. */
  lemma {:induction false} CleanPlanIs(raw: seq<RawStep>, room: nat)
    ensures var usable, r := Filter(raw, UsableStep), CleanPlan(raw, room);
      && |r| == (if |usable| <= room then |usable| else room)
      && forall i :: 0 <= i < |r| ==> Some(r[i]) == CleanStep(usable[i])
    decreases |raw|
  {
    if raw != [] && room > 0 {
      FilterFirst(raw, UsableStep);
      CleanStepIs(raw[0]);
      var rest := raw[1..];
      hide UsableStep, Filter, CleanStep;
      if CleanStep(raw[0]).None? {
        assert [] + Filter(rest, UsableStep) == Filter(rest, UsableStep);
        CleanPlanIs(rest, room);
      } else {
        CleanPlanIs(rest, room - 1);
      }
    }
  }

  predicate Warm(p: PlanStep, cooling: set<string>) {
    p.intent !in cooling
  }

  /** Exactly the steps that are not cooling are kept, each as often as before. */
  lemma {:induction false} NotCoolingHas(plan: seq<PlanStep>, cooling: set<string>, x: PlanStep)
    ensures multiset(NotCooling(plan, cooling))[x] == if Warm(x, cooling) then multiset(plan)[x] else 0
    decreases |plan|
  {
    if plan != [] {
      NotCoolingHas(plan[1..], cooling, x);
      assert plan == [plan[0]] + plan[1..];
    }
  }

  /** Their order is kept: parts of a plan are filtered on their own. */
  lemma {:induction false} NotCoolingCat(a: seq<PlanStep>, b: seq<PlanStep>, cooling: set<string>)
    ensures NotCooling(a + b, cooling) == NotCooling(a, cooling) + NotCooling(b, cooling)
    decreases |a|
  {
    if a == [] {
      assert a + b == b;
    } else {
      assert (a + b)[1..] == a[1..] + b && (a + b)[0] == a[0];
      NotCoolingCat(a[1..], b, cooling);
      var first := if a[0].intent in cooling then [] else [a[0]];
      assert first + (NotCooling(a[1..], cooling) + NotCooling(b, cooling)) == first + NotCooling(a[1..], cooling) + NotCooling(b, cooling);
    }
  }

  /** So of any two steps that stay, the one that came first comes first. */
  lemma NotCoolingOrder(plan: seq<PlanStep>, cooling: set<string>, i: nat, j: nat)
    requires i < j < |plan| && Warm(plan[i], cooling) && Warm(plan[j], cooling)
    ensures exists a, b :: 0 <= a < b < |NotCooling(plan, cooling)| && NotCooling(plan, cooling)[a] == plan[i] && NotCooling(plan, cooling)[b] == plan[j]
  {
    var r := NotCooling(plan, cooling);
    var front := plan[..j];
    assert plan == front + plan[j..];
    NotCoolingCat(front, plan[j..], cooling);
    NotCoolingHas(front, cooling, plan[i]);
    assert front[i] == plan[i];
    assert multiset(NotCooling(front, cooling))[plan[i]] > 0;
    var a :| 0 <= a < |NotCooling(front, cooling)| && NotCooling(front, cooling)[a] == plan[i];
    var b := |NotCooling(front, cooling)|;
    assert r[a] == plan[i] && r[b] == plan[j];
  }

  // ---- the transitions

  /** _finish_goal: what is recorded, and back to the suspended goal if there is one. */
  function FinishNotes(s: Self, complete: bool): (r: seq<Note>) {
    if s.goal.None? then []
    else if complete && !s.goal.value.unverified then [Finished(s.goal.value.goal)]
    else [GaveUpOn(s.goal.value.goal)]
  }

  function Finish(s: Self): (r: Self) {
    if s.suspended.Some?
    then s.(goal := Some(s.suspended.value.goal), plan := s.suspended.value.plan, step := s.suspended.value.step, suspended := None)
    else s.(goal := None, plan := [], step := 0)
  }

  function Unverify(s: Self): (r: Self) {
    if s.goal.None? then s else s.(goal := Some(s.goal.value.(unverified := true)))
  }

  function Advance(s: Self): (r: (Self, seq<Note>)) {
    var t := s.(step := s.step + 1);
    if t.step >= |t.plan| then (Finish(t), FinishNotes(t, true)) else (t, [])
  }

  predicate Matches(s: Self, intent: string) {
    s.step < |s.plan| && s.plan[s.step].intent == Alias(intent)
  }

  function Failed(s: Self): (r: Self)
    requires s.step < |s.plan|
  {
    s.(plan := s.plan[s.step := s.plan[s.step].(failures := s.plan[s.step].failures + 1)])
  }

  /** step_result: success advances; the second failure gives the step up and advances too. */
  function StepResult(s: Self, intent: string, success: bool): (r: (Self, seq<Note>)) {
    if !Matches(s, intent) then (s, [])
    else if success then Advance(s)
    else
      var f := Failed(s);
      if f.plan[s.step].failures < 2 then (f, [])
      else
        var (t, notes) := Advance(Unverify(f));
        (t, [GaveUpStep(Alias(intent))] + notes)
  }

  /** How many steps from the current one on are cooling, without a gap. */
  function CoolingRun(plan: seq<PlanStep>, step: nat, cooling: set<string>): (n: nat)
    ensures step + n <= |plan| || n == 0
    decreases |plan| - step
  {
    if step < |plan| && plan[step].intent in cooling then 1 + CoolingRun(plan, step + 1, cooling) else 0
  }

  function SkipCooling(s: Self, cooling: set<string>): (r: (Self, seq<Note>)) {
    var n := CoolingRun(s.plan, s.step, cooling);
    if n == 0 then (s, [])
    else
      var t := Unverify(s.(step := s.step + n));
      if t.step >= |t.plan| then (Finish(t), FinishNotes(t, false)) else (t, [])
  }

  /** What the decision of a reflection does, given the usable steps of its plan. */
  function Decide(s: Self, r: Reflection, plan: seq<PlanStep>, now: real): (t: (Self, seq<Note>)) {
    var goal := Text(r.goal, 100);
    if (r.decision.New? || r.decision.Interrupt?) && goal.Some? && plan != [] then
      var kept := if r.decision.Interrupt? && s.goal.Some? && s.suspended.None?
        then s.(suspended := Some(Suspended(s.goal.value, s.plan, s.step))) else s;
      (kept.(goal := Some(Goal(goal.value, Text(r.reason, 160), now, false)), plan := plan, step := 0), [])
    else if r.decision.Abandon? then (Finish(s), FinishNotes(s, false))
    else if r.decision.Continue? && plan != [] && s.goal.None? && goal.Some? then
      (s.(goal := Some(Goal(goal.value, Text(r.reason, 160), now, false)), plan := plan, step := 0), [])
    else (s, [])
  }

  function Reflect(s: Self, r: Reflection, cooling: set<string>, now: real): (t: (Self, seq<Note>)) {
    Decide(s.(lastReflect := now, reflections := s.reflections + 1), r,
           NotCooling(CleanPlan(r.plan, PLAN_LIMIT), cooling), now)
  }

  // ---- what an event does, case by case

  /** The run ends at the end of the plan or before the first step that is not cooling. */
  lemma {:induction false} CoolingRunIs(plan: seq<PlanStep>, step: nat, cooling: set<string>)
    ensures var n := CoolingRun(plan, step, cooling);
      && (forall i :: step <= i < step + n ==> i < |plan| && plan[i].intent in cooling)
      && (step + n < |plan| ==> plan[step + n].intent !in cooling)
    decreases |plan| - step
  {
    if step < |plan| && plan[step].intent in cooling {
      CoolingRunIs(plan, step + 1, cooling);
    }
  }

  /** The suspended goal comes back as it was, if there is one; otherwise nothing is left of the goal. */
  ghost predicate Ended(s: Self, t: Self) {
    && t.suspended.None? && t.lastReflect == s.lastReflect && t.reflections == s.reflections
    && (if s.suspended.Some? then
          t.goal == Some(s.suspended.value.goal) && t.plan == s.suspended.value.plan && t.step == s.suspended.value.step
        else t.goal.None? && t.plan == [] && t.step == 0)
  }

  /** What is recorded when a goal ends. */
  predicate EndNotes(s: Self, notes: seq<Note>, earned: bool) {
    if s.goal.None? then notes == []
    else notes == [if earned && !s.goal.value.unverified then Finished(s.goal.value.goal) else GaveUpOn(s.goal.value.goal)]
  }

  /** The step is left behind: the next one is current, or the goal has ended. */
  ghost predicate Moved(s: Self, n: nat, t: Self, notes: seq<Note>, earned: bool) {
    if s.step + n < |s.plan| then t == s.(step := s.step + n) && notes == []
    else Ended(s, t) && EndNotes(s, notes, earned)
  }

  /** A result for another intent changes nothing. A success leaves the step behind. A first failure is counted at the step
      and nothing else changes; the second one gives the step up, which marks the goal. */
  lemma ResultIs(s: Self, intent: string, success: bool)
    ensures var (t, notes) := StepResult(s, intent, success);
      && (!Matches(s, intent) ==> t == s && notes == [])
      && (Matches(s, intent) && success ==> Moved(s, 1, t, notes, true))
      && (Matches(s, intent) && !success && s.plan[s.step].failures == 0 ==>
            && notes == [] && t == s.(plan := t.plan) && |t.plan| == |s.plan|
            && t.plan[s.step] == s.plan[s.step].(failures := 1) && forall i :: 0 <= i < |s.plan| && i != s.step ==> t.plan[i] == s.plan[i])
      && (Matches(s, intent) && !success && s.plan[s.step].failures >= 1 ==>
            && notes != [] && notes[0] == GaveUpStep(s.plan[s.step].intent)
            && Moved(Unverify(Failed(s)), 1, t, notes[1..], true))
  {}

  /** Skipping leaves the whole run of cooling steps behind and marks the goal; at the end of the plan it is given up. */
  lemma SkipIs(s: Self, cooling: set<string>)
    ensures var n := CoolingRun(s.plan, s.step, cooling);
      var (t, notes) := SkipCooling(s, cooling);
      if n == 0 then t == s && notes == [] else Moved(Unverify(s), n, t, notes, false)
  {}

  /** The reflection sets a new goal. */
  predicate Adopts(s: Self, r: Reflection, plan: seq<PlanStep>) {
    Text(r.goal, 100).Some? && plan != [] && (r.decision.New? || r.decision.Interrupt? || (r.decision.Continue? && s.goal.None?))
  }

  /** A reflection either sets a goal, or drops the current one, or leaves goals alone; it is counted in each case. An interruption keeps the goal it interrupts, unless
      one is kept already. */
  lemma ReflectIs(s: Self, r: Reflection, cooling: set<string>, now: real)
    ensures var plan := NotCooling(CleanPlan(r.plan, PLAN_LIMIT), cooling);
      var (t, notes) := Reflect(s, r, cooling, now);
      && t.lastReflect == now && t.reflections == s.reflections + 1
      && (Adopts(s, r, plan) ==>
            && notes == [] && t.plan == plan && t.step == 0
            && t.goal == Some(Goal(Text(r.goal, 100).value, Text(r.reason, 160), now, false))
            && t.suspended == (if r.decision.Interrupt? && s.goal.Some? && s.suspended.None? then Some(Suspended(s.goal.value, s.plan, s.step)) else s.suspended))
      && (!Adopts(s, r, plan) && r.decision.Abandon? ==> Ended(s.(lastReflect := now, reflections := s.reflections + 1), t) && EndNotes(s, notes, false))
      && (!Adopts(s, r, plan) && !r.decision.Abandon? ==> notes == [] && t == s.(lastReflect := now, reflections := s.reflections + 1))
  {
    hide Text, CleanPlan, NotCooling, Finish, FinishNotes;
    var counted := s.(lastReflect := now, reflections := s.reflections + 1);
    EndIs(counted);
    assert FinishNotes(counted, false) == FinishNotes(s, false) && EndNotes(s, FinishNotes(s, false), false) by { EndIs(s); SameNotes(s, counted); }
  }

  lemma EndIs(s: Self)
    ensures Ended(s, Finish(s)) && EndNotes(s, FinishNotes(s, false), false) && EndNotes(s, FinishNotes(s, true), true)
  {}

  lemma SameNotes(s: Self, t: Self)
    requires s.goal == t.goal
    ensures FinishNotes(s, false) == FinishNotes(t, false)
  {}

  /** A new goal's plan holds exactly the usable steps among the first six that are not cooling, each as often as there. */
  lemma NewPlanHas(s: Self, r: Reflection, cooling: set<string>, now: real, x: PlanStep)
    requires Adopts(s, r, NotCooling(CleanPlan(r.plan, PLAN_LIMIT), cooling))
    ensures multiset(Reflect(s, r, cooling, now).0.plan)[x] == if Warm(x, cooling) then multiset(CleanPlan(r.plan, PLAN_LIMIT))[x] else 0
  {
    ReflectIs(s, r, cooling, now);
    NotCoolingHas(CleanPlan(r.plan, PLAN_LIMIT), cooling, x);
    hide Reflect, NotCooling, CleanPlan, Text;
  }

  /** What an interruption suspends comes back when the new goal ends, whichever way: goal, plan and step. */
  lemma InterruptedReturns(s: Self, r: Reflection, cooling: set<string>, now: real, end: Event)
    requires s.goal.Some? && s.suspended.None? && r.decision.Interrupt?
    requires Adopts(s, r, NotCooling(CleanPlan(r.plan, PLAN_LIMIT), cooling))
    requires var t := Reflect(s, r, cooling, now).0;
      || (end.Result? && end.success && Matches(t, end.intent) && |t.plan| == 1)
      || (end.Skip? && CoolingRun(t.plan, 0, end.cooling) == |t.plan|)
      || (end.Reflected? && end.output.decision.Abandon?)
    ensures var u := Apply(Reflect(s, r, cooling, now).0, end).0;
      u.goal == s.goal && u.plan == s.plan && u.step == s.step && u.suspended.None?
  {
    ReflectIs(s, r, cooling, now);
    var t := Reflect(s, r, cooling, now).0;
    if end.Result? {
      ResultIs(t, end.intent, end.success);
    } else if end.Skip? {
      SkipIs(t, end.cooling);
    } else {
      ReflectIs(t, end.output, end.cooling, end.now);
    }
    hide Reflect, StepResult, SkipCooling, NotCooling, CleanPlan, Text;
  }

  // ---- well-formedness of every reachable self

  ghost predicate GoodPlan(plan: seq<PlanStep>, step: nat) {
    step < |plan| <= PLAN_LIMIT
    && (forall i :: 0 <= i < |plan| ==> plan[i].intent in PLAN_INTENTS)
    && forall i :: step <= i < |plan| ==> plan[i].failures < 2
  }

  ghost predicate WellFormed(s: Self) {
    && (s.goal.None? ==> s.plan == [] && s.step == 0 && s.suspended.None?)
    && (s.goal.Some? ==> GoodPlan(s.plan, s.step))
    && (s.suspended.Some? ==> GoodPlan(s.suspended.value.plan, s.suspended.value.step))
  }

  datatype Event =
    | Result(intent: string, success: bool)
    | Skip(cooling: set<string>)
    | Reflected(output: Reflection, cooling: set<string>, now: real)

  function Apply(s: Self, e: Event): (r: (Self, seq<Note>)) {
    match e
    case Result(intent, success) => StepResult(s, intent, success)
    case Skip(cooling) => SkipCooling(s, cooling)
    case Reflected(output, cooling, now) => Reflect(s, output, cooling, now)
  }

  lemma FailureKeepsWellFormed(s: Self)
    requires WellFormed(s) && s.step < |s.plan|
    ensures s.plan[s.step].failures + 1 < 2 ==> WellFormed(Failed(s))
    ensures WellFormed(Advance(Unverify(Failed(s))).0)
  {}

  lemma AdvanceKeepsWellFormed(s: Self)
    requires WellFormed(s) && s.step < |s.plan|
    ensures WellFormed(Advance(s).0)
  {}

  lemma SkipKeepsWellFormed(s: Self, cooling: set<string>)
    requires WellFormed(s)
    ensures WellFormed(SkipCooling(s, cooling).0)
  {}

  lemma ReflectKeepsWellFormed(s: Self, r: Reflection, cooling: set<string>, now: real)
    requires WellFormed(s)
    ensures WellFormed(Reflect(s, r, cooling, now).0)
  {
    var plan := NotCooling(CleanPlan(r.plan, PLAN_LIMIT), cooling);
    hide Text, NotCooling, CleanPlan;
    assert plan != [] ==> GoodPlan(plan, 0);
  }

  /** No goal exactly when there is no plan; otherwise the current step is one of at most six. */
  lemma StepKeepsWellFormed(s: Self, e: Event)
    requires WellFormed(s)
    ensures WellFormed(Apply(s, e).0)
  {
    hide WellFormed, Advance, SkipCooling, Reflect;
    match e
    case Result(intent, success) =>
      if Matches(s, intent) {
        FailureKeepsWellFormed(s);
        AdvanceKeepsWellFormed(s);
      }
    case Skip(cooling) => SkipKeepsWellFormed(s, cooling);
    case Reflected(output, cooling, now) => ReflectKeepsWellFormed(s, output, cooling, now);
  }
}
