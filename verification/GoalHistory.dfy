/** What the record "finished" means over a whole life of a companion, and how many results
    a set of goals can absorb (goblin_zomboid/sentience.py). */
module GoalHistory {
  import opened Common
  import opened Sentience

  /** One occurrence: an event, and whether the process lived to save the new self. What the
      event records about goals is stored before the save, so it stays in either case. */
  datatype Occurrence = Occurrence(event: Event, saved: bool)

  /** How a plan step was passed, and by which occurrence. */
  datatype How = Earned(at: nat) | GivenUp(at: nat) | Skipped(at: nat)

  /** A self with the history of its current and its suspended goal. */
  datatype Audit = Audit(self: Self, cur: seq<How>, sus: seq<How>)

  /** The current goal's history once event number n has passed its steps. */
  function Passed(a: Audit, e: Event, n: nat): (r: seq<How>) {
    match e
    case Result(intent, success) =>
      if !Matches(a.self, intent) then a.cur
      else if success then a.cur + [Earned(n)]
      else if a.self.plan[a.self.step].failures + 1 >= 2 then a.cur + [GivenUp(n)]
      else a.cur
    case Skip(cooling) => a.cur + seq(CoolingRun(a.self.plan, a.self.step, cooling), i => Skipped(n))
    case Reflected(_, _, _) => a.cur
  }

  predicate StartsGoal(s: Self, r: Reflection, cooling: set<string>) {
    Text(r.goal, 100).Some? && NotCooling(CleanPlan(r.plan, PLAN_LIMIT), cooling) != []
    && (r.decision.New? || r.decision.Interrupt? || (r.decision.Continue? && s.goal.None?))
  }

  function Next(a: Audit, e: Event, n: nat): (r: Audit) {
    var t := Apply(a.self, e).0;
    match e
    case Reflected(output, cooling, _) =>
      if StartsGoal(a.self, output, cooling) then
        Audit(t, [], if output.decision.Interrupt? && a.self.goal.Some? && a.self.suspended.None? then a.cur else a.sus)
      else if output.decision.Abandon? then Audit(t, a.sus, [])
      else Audit(t, a.cur, a.sus)
    case _ =>
      if a.self.goal.Some? && |Passed(a, e, n)| >= |a.self.plan| then Audit(t, a.sus, []) else Audit(t, Passed(a, e, n), a.sus)
  }

  function History(life: seq<Occurrence>): (r: Audit)
    decreases |life|
  {
    if life == [] then Audit(NewSelf, [], [])
    else
      var n := |life| - 1;
      var before := History(life[..n]);
      if life[n].saved then Next(before, life[n].event, n) else before
  }

  /** Occurrence k is a successful result for that very intent, and it came while this goal was
      the current one, waiting at that very step. */
  ghost predicate Succeeded(life: seq<Occurrence>, k: nat, g: Goal, step: nat, intent: string) {
    && k < |life| && life[k].event.Result? && life[k].event.success && Alias(life[k].event.intent) == intent
    && var s := History(life[..k]).self;
      s.goal.Some? && s.goal.value.goal == g.goal && s.goal.value.started == g.started && s.step == step
      && step < |s.plan| && s.plan[step].intent == intent
  }

  /** The history of one goal: one entry per passed step, in the order of the occurrences, each
      "earned" entry a success for that step's own intent, and the goal marked unverified exactly
      when some entry is not earned. */
  ghost predicate Honest(life: seq<Occurrence>, g: Goal, plan: seq<PlanStep>, step: nat, hows: seq<How>) {
    && |hows| == step <= |plan|
    && (forall i :: 0 <= i < |hows| ==> hows[i].at < |life|)
    && (forall i, j :: 0 <= i < j < |hows| ==> hows[i].at <= hows[j].at)
    && (forall i, j :: 0 <= i < j < |hows| && hows[j].Earned? ==> hows[i].at < hows[j].at)
    && (forall i :: 0 <= i < |hows| && hows[i].Earned? ==> Succeeded(life, hows[i].at, g, i, plan[i].intent))
    && (g.unverified <==> exists i :: 0 <= i < |hows| && !hows[i].Earned?)
  }

  ghost predicate Inv(life: seq<Occurrence>, a: Audit) {
    && WellFormed(a.self)
    && (a.self.goal.Some? ==> Honest(life, a.self.goal.value, a.self.plan, a.self.step, a.cur))
    && (a.self.suspended.Some? ==>
          Honest(life, a.self.suspended.value.goal, a.self.suspended.value.plan, a.self.suspended.value.step, a.sus))
  }

  lemma HonestLater(life: seq<Occurrence>, o: Occurrence, g: Goal, plan: seq<PlanStep>, step: nat, hows: seq<How>)
    requires Honest(life, g, plan, step, hows)
    ensures Honest(life + [o], g, plan, step, hows)
  {
    forall k | 0 <= k <= |life| ensures (life + [o])[..k] == life[..k] {}
  }

  /** A failed attempt changes only the failure count. */
  lemma HonestFailure(life: seq<Occurrence>, g: Goal, plan: seq<PlanStep>, step: nat, hows: seq<How>, failures: nat)
    requires Honest(life, g, plan, step, hows) && step < |plan|
    ensures Honest(life, g, plan[step := plan[step].(failures := failures)], step, hows)
  {
    hide Succeeded, History;
  }

  lemma HonestEarned(life: seq<Occurrence>, o: Occurrence, g: Goal, plan: seq<PlanStep>, step: nat, hows: seq<How>)
    requires Honest(life, g, plan, step, hows) && step < |plan|
    requires Succeeded(life + [o], |life|, g, step, plan[step].intent)
    ensures Honest(life + [o], g, plan, step + 1, hows + [Earned(|life|)])
  {
    HonestLater(life, o, g, plan, step, hows);
    var h := hows + [Earned(|life|)];
    assert forall i :: 0 <= i < |hows| ==> h[i] == hows[i];
    hide Succeeded;
  }

  lemma HonestLost(life: seq<Occurrence>, o: Occurrence, g: Goal, plan: seq<PlanStep>, step: nat, hows: seq<How>, more: seq<How>)
    requires Honest(life, g, plan, step, hows) && step + |more| <= |plan| && more != []
    requires forall i :: 0 <= i < |more| ==> !more[i].Earned? && more[i].at == |life|
    ensures Honest(life + [o], g.(unverified := true), plan, step + |more|, hows + more)
  {
    HonestLater(life, o, g, plan, step, hows);
    hide Succeeded, History;
    var h := hows + more;
    assert forall i :: 0 <= i < |hows| ==> h[i] == hows[i];
    assert !h[|hows|].Earned?;
  }

  /** The suspended goal's history is untouched, and becomes the current one once the current goal is over. */
  lemma SuspendedKept(life: seq<Occurrence>, a: Audit, o: Occurrence)
    requires Inv(life, a)
    ensures a.self.suspended.Some? ==>
      Honest(life + [o], a.self.suspended.value.goal, a.self.suspended.value.plan, a.self.suspended.value.step, a.sus)
  {
    if a.self.suspended.Some? {
      HonestLater(life, o, a.self.suspended.value.goal, a.self.suspended.value.plan, a.self.suspended.value.step, a.sus);
    }
  }

  lemma SucceededNow(life: seq<Occurrence>, s: Self, intent: string, o: Occurrence)
    requires s == History(life).self && s.goal.Some? && Matches(s, intent)
    requires o == Occurrence(Result(intent, true), true)
    ensures Succeeded(life + [o], |life|, s.goal.value, s.step, s.plan[s.step].intent)
  {
    hide History;
    assert (life + [o])[..|life|] == life;
  }

  lemma SuccessIsEarned(life: seq<Occurrence>, a: Audit, intent: string, o: Occurrence)
    requires Inv(life, a) && o == Occurrence(Result(intent, true), true)
    requires Matches(a.self, intent) && a == History(life)
    ensures a.self.goal.Some? && |a.cur| == a.self.step
    ensures Honest(life + [o], a.self.goal.value, a.self.plan, a.self.step + 1, a.cur + [Earned(|life|)])
  {
    hide Honest, History, Succeeded, WellFormed;
    GoalRuns(life, a);
    SucceededNow(life, a.self, intent, o);
    HonestEarned(life, o, a.self.goal.value, a.self.plan, a.self.step, a.cur);
  }

  lemma SuccessKeepsInv(life: seq<Occurrence>, a: Audit, intent: string, o: Occurrence)
    requires Inv(life, a) && o == Occurrence(Result(intent, true), true)
    requires Matches(a.self, intent) && a == History(life)
    ensures Inv(life + [o], Next(a, o.event, |life|))
  {
    hide Honest, History, GoodPlan, Succeeded;
    SuccessIsEarned(life, a, intent, o);
    SuspendedKept(life, a, o);
    StepKeepsWellFormed(a.self, o.event);
  }

  lemma FailureKeepsInv(life: seq<Occurrence>, a: Audit, intent: string, o: Occurrence)
    requires Inv(life, a) && o == Occurrence(Result(intent, false), true)
    requires Matches(a.self, intent) && a.self.plan[a.self.step].failures + 1 < 2
    ensures Inv(life + [o], Next(a, o.event, |life|))
  {
    StepKeepsWellFormed(a.self, o.event);
    SuspendedKept(life, a, o);
    var s := a.self;
    HonestFailure(life, s.goal.value, s.plan, s.step, a.cur, s.plan[s.step].failures + 1);
    HonestLater(life, o, s.goal.value, Failed(s).plan, s.step, a.cur);
    assert |a.cur| == s.step;
    hide Honest, GoodPlan, WellFormed, Succeeded;
  }

  lemma GivingUpIsLost(life: seq<Occurrence>, a: Audit, o: Occurrence)
    requires Inv(life, a) && a.self.step < |a.self.plan|
    ensures a.self.goal.Some? && |a.cur| == a.self.step
    ensures Honest(life + [o], a.self.goal.value.(unverified := true), Failed(a.self).plan, a.self.step + 1,
                   a.cur + [GivenUp(|life|)])
  {
    var s := a.self;
    GoalRuns(life, a);
    hide Honest, GoodPlan, WellFormed, Succeeded, History;
    HonestFailure(life, s.goal.value, s.plan, s.step, a.cur, s.plan[s.step].failures + 1);
    HonestLost(life, o, s.goal.value, Failed(s).plan, s.step, a.cur, [GivenUp(|life|)]);
  }

  lemma GivingUpKeepsInv(life: seq<Occurrence>, a: Audit, intent: string, o: Occurrence)
    requires Inv(life, a) && o == Occurrence(Result(intent, false), true)
    requires Matches(a.self, intent) && a.self.plan[a.self.step].failures + 1 >= 2
    ensures Inv(life + [o], Next(a, o.event, |life|))
  {
    hide Honest, GoodPlan, Succeeded, History;
    StepKeepsWellFormed(a.self, o.event);
    SuspendedKept(life, a, o);
    GivingUpIsLost(life, a, o);
  }

  lemma ResultKeepsInv(life: seq<Occurrence>, a: Audit, intent: string, success: bool, o: Occurrence)
    requires Inv(life, a) && a == History(life) && o == Occurrence(Result(intent, success), true)
    ensures Inv(life + [o], Next(a, o.event, |life|))
  {
    if !Matches(a.self, intent) {
      OtherResultKeepsInv(life, a, intent, success, o);
    } else if success {
      hide *;
      SuccessKeepsInv(life, a, intent, o);
    } else if a.self.plan[a.self.step].failures + 1 < 2 {
      hide *;
      FailureKeepsInv(life, a, intent, o);
    } else {
      hide *;
      GivingUpKeepsInv(life, a, intent, o);
    }
  }

  lemma OtherResultKeepsInv(life: seq<Occurrence>, a: Audit, intent: string, success: bool, o: Occurrence)
    requires Inv(life, a) && !Matches(a.self, intent) && o == Occurrence(Result(intent, success), true)
    ensures Inv(life + [o], Next(a, o.event, |life|))
  {
    UnsavedKeepsInv(life, a, o);
    assert a.self.goal.Some? ==> |a.cur| == a.self.step < |a.self.plan|;
    hide Honest, GoodPlan, WellFormed, Succeeded;
  }

  lemma SkipIsLost(life: seq<Occurrence>, a: Audit, cooling: set<string>, o: Occurrence)
    requires Inv(life, a) && a.self.goal.Some? && CoolingRun(a.self.plan, a.self.step, cooling) > 0
    ensures |a.cur| == a.self.step
    ensures var p := Passed(a, Skip(cooling), |life|);
      |p| == a.self.step + CoolingRun(a.self.plan, a.self.step, cooling)
      && Honest(life + [o], a.self.goal.value.(unverified := true), a.self.plan, |p|, p)
  {
    var s := a.self;
    var more := seq(CoolingRun(s.plan, s.step, cooling), i => Skipped(|life|));
    hide Succeeded, History, CoolingRun;
    HonestLost(life, o, s.goal.value, s.plan, s.step, a.cur, more);
  }

  lemma SkipKeepsInv(life: seq<Occurrence>, a: Audit, cooling: set<string>, o: Occurrence)
    requires Inv(life, a) && o == Occurrence(Skip(cooling), true)
    ensures Inv(life + [o], Next(a, o.event, |life|))
  {
    hide Honest, GoodPlan, Succeeded, History;
    StepKeepsWellFormed(a.self, o.event);
    if a.self.goal.None? || CoolingRun(a.self.plan, a.self.step, cooling) == 0 {
      UnsavedKeepsInv(life, a, o);
      GoalRuns(life, a);
      assert Passed(a, o.event, |life|) == a.cur;
    } else {
      hide CoolingRun;
      SkipIsLost(life, a, cooling, o);
      SuspendedKept(life, a, o);
    }
  }

  lemma GoalRuns(life: seq<Occurrence>, a: Audit)
    requires Inv(life, a)
    ensures a.self.goal.Some? ==> |a.cur| == a.self.step < |a.self.plan|
    ensures a.self.goal.None? ==> a.self.plan == [] && a.self.suspended.None?
  {
    hide Succeeded, History;
  }

  lemma ReflectKeepsInv(life: seq<Occurrence>, a: Audit, e: Event, o: Occurrence)
    requires Inv(life, a) && e.Reflected? && o == Occurrence(e, true)
    ensures Inv(life + [o], Next(a, e, |life|))
  {
    hide Succeeded, History, GoodPlan, Text, CleanPlan, NotCooling;
    StepKeepsWellFormed(a.self, e);
    UnsavedKeepsInv(life, a, o);
  }

  /** Every reachable self is well formed and its marks tell the truth about its history. */
  lemma {:induction false} HistoryHonest(life: seq<Occurrence>)
    ensures Inv(life, History(life))
    decreases |life|
  {
    if life != [] {
      var n := |life| - 1;
      var o, a := life[n], History(life[..n]);
      HistoryHonest(life[..n]);
      assert life == life[..n] + [o];
      if !o.saved {
        UnsavedKeepsInv(life[..n], a, o);
      } else {
        hide Inv, Next;
        match o.event
        case Result(intent, success) => ResultKeepsInv(life[..n], a, intent, success, o);
        case Skip(cooling) => SkipKeepsInv(life[..n], a, cooling, o);
        case Reflected(_, _, _) => ReflectKeepsInv(life[..n], a, o.event, o);
      }
    }
  }

  /** No goal exactly when the plan is empty, then step 0 and nothing suspended; otherwise the step is one
      of at most six, for the suspended goal too: in every life, with crashes before any save. */
  lemma ReachableWellFormed(life: seq<Occurrence>)
    ensures WellFormed(History(life).self)
  {
    HistoryHonest(life);
  }

  lemma UnsavedKeepsInv(life: seq<Occurrence>, a: Audit, o: Occurrence)
    requires Inv(life, a)
    ensures Inv(life + [o], a)
  {
    var s := a.self;
    if s.suspended.Some? {
      HonestLater(life, o, s.suspended.value.goal, s.suspended.value.plan, s.suspended.value.step, a.sus);
    }
    if s.goal.Some? {
      HonestLater(life, o, s.goal.value, s.plan, s.step, a.cur);
    }
  }

  // ---- what "finished" and "gave up on" mean

  /** Everything the goal passed by the end of occurrence n, and what that occurrence records. */
  function Before(life: seq<Occurrence>, n: nat): (r: Audit)
    requires n < |life|
  {
    History(life[..n])
  }

  function Recorded(life: seq<Occurrence>, n: nat): (r: seq<Note>)
    requires n < |life|
  {
    Apply(Before(life, n).self, life[n].event).1
  }

  predicate AllEarned(hows: seq<How>) {
    forall i :: 0 <= i < |hows| ==> hows[i].Earned?
  }

  /** Occurrence n walks the current goal past the last step of its plan. */
  predicate PlanEnds(life: seq<Occurrence>, n: nat)
    requires n < |life|
  {
    var a := Before(life, n);
    a.self.goal.Some? && !life[n].event.Reflected? && |Passed(a, life[n].event, n)| >= |a.self.plan|
  }

  /** A reflection drops the current goal. */
  predicate Abandons(life: seq<Occurrence>, n: nat)
    requires n < |life|
  {
    Before(life, n).self.goal.Some? && life[n].event.Reflected? && life[n].event.output.decision.Abandon?
  }

  /** "finished" is recorded exactly when the last step is passed and every step of the plan was earned;
      "gave up on" exactly when the goal is abandoned or the plan ends with a step given up or skipped. */
  lemma FinishedIffEarned(life: seq<Occurrence>, n: nat, goal: string)
    requires n < |life|
    ensures var a := Before(life, n);
      && (Finished(goal) in Recorded(life, n) <==>
            PlanEnds(life, n) && a.self.goal.value.goal == goal && AllEarned(Passed(a, life[n].event, n)))
      && (GaveUpOn(goal) in Recorded(life, n) <==>
            (Abandons(life, n) || (PlanEnds(life, n) && !AllEarned(Passed(a, life[n].event, n))))
            && a.self.goal.value.goal == goal)
      && (PlanEnds(life, n) ==> |Passed(a, life[n].event, n)| == |a.self.plan|)
  {
    HistoryHonest(life[..n]);
    var a := Before(life, n);
    var e := life[n].event;
    if a.self.goal.Some? {
      assert a.self.goal.value.unverified <==> !AllEarned(a.cur);
      assert |a.cur| == a.self.step < |a.self.plan|;
    }
    hide Honest, History, GoodPlan;
    match e
    case Result(intent, success) => EarnedByResult(a, intent, success, n);
    case Skip(cooling) => EarnedBySkip(a, cooling, n);
    case Reflected(_, _, _) =>
  }

  lemma EarnedByResult(a: Audit, intent: string, success: bool, n: nat)
    requires WellFormed(a.self)
    requires a.self.goal.Some? ==> |a.cur| == a.self.step && (a.self.goal.value.unverified <==> !AllEarned(a.cur))
    ensures var p := Passed(a, Result(intent, success), n);
      var notes := StepResult(a.self, intent, success).1;
      forall goal ::
        && (Finished(goal) in notes <==>
              a.self.goal.Some? && |p| >= |a.self.plan| && a.self.goal.value.goal == goal && AllEarned(p))
        && (GaveUpOn(goal) in notes <==>
              a.self.goal.Some? && |p| >= |a.self.plan| && a.self.goal.value.goal == goal && !AllEarned(p))
        && (a.self.goal.Some? ==> |p| <= |a.self.plan|)
  {
    var p := Passed(a, Result(intent, success), n);
    if Matches(a.self, intent) && p != a.cur {
      assert p[|a.cur|] == p[|p| - 1];
      assert forall i :: 0 <= i < |a.cur| ==> p[i] == a.cur[i];
    }
  }

  lemma EarnedBySkip(a: Audit, cooling: set<string>, n: nat)
    requires WellFormed(a.self)
    requires a.self.goal.Some? ==> |a.cur| == a.self.step && (a.self.goal.value.unverified <==> !AllEarned(a.cur))
    ensures var p := Passed(a, Skip(cooling), n);
      var notes := SkipCooling(a.self, cooling).1;
      forall goal ::
        && (Finished(goal) in notes <==>
              a.self.goal.Some? && |p| >= |a.self.plan| && a.self.goal.value.goal == goal && AllEarned(p))
        && (GaveUpOn(goal) in notes <==>
              a.self.goal.Some? && |p| >= |a.self.plan| && a.self.goal.value.goal == goal && !AllEarned(p))
        && (a.self.goal.Some? ==> |p| <= |a.self.plan|)
  {
    var p := Passed(a, Skip(cooling), n);
    if CoolingRun(a.self.plan, a.self.step, cooling) > 0 {
      assert !p[|a.cur|].Earned?;
    } else {
      assert p == a.cur;
    }
  }

  lemma LastIsNow(life: seq<Occurrence>, n: nat)
    requires n < |life| && PlanEnds(life, n) && AllEarned(Passed(Before(life, n), life[n].event, n))
    requires Inv(life[..n], Before(life, n))
    ensures var a := Before(life, n);
      && Honest(life[..n], a.self.goal.value, a.self.plan, a.self.step, a.cur)
      && |a.cur| + 1 == |a.self.plan| && Passed(a, life[n].event, n) == a.cur + [Earned(n)]
      && Succeeded(life, n, a.self.goal.value, a.self.step, a.self.plan[a.self.step].intent)
  {
    GoalRuns(life[..n], Before(life, n));
    hide History, Honest, Succeeded, GoodPlan;
    var a := Before(life, n);
    var p := Passed(a, life[n].event, n);
    assert p[|a.cur|].Earned?;
    SucceededNow(life[..n], a.self, life[n].event.intent, Occurrence(life[n].event, true));
    SucceededSame(life, n, a.self.goal.value, a.self.step, a.self.plan[a.self.step].intent);
  }

  lemma SucceededSame(life: seq<Occurrence>, n: nat, g: Goal, step: nat, intent: string)
    requires n < |life| && Succeeded(life[..n] + [Occurrence(life[n].event, true)], n, g, step, intent)
    ensures Succeeded(life, n, g, step, intent)
  {
    hide History;
    assert (life[..n] + [Occurrence(life[n].event, true)])[..n] == life[..n];
  }

  lemma SucceededEarlier(life: seq<Occurrence>, n: nat, k: nat, g: Goal, step: nat, intent: string)
    requires k < n <= |life| && Succeeded(life[..n], k, g, step, intent)
    ensures Succeeded(life, k, g, step, intent)
  {
    hide History;
    assert life[..n][..k] == life[..k];
  }

  /** The occurrences behind an honest history in which everything was earned. */
  lemma EarnedAt(life: seq<Occurrence>, n: nat, g: Goal, plan: seq<PlanStep>, step: nat, hows: seq<How>) returns (ks: seq<nat>)
    requires n <= |life| && Honest(life[..n], g, plan, step, hows) && AllEarned(hows)
    ensures |ks| == step <= |plan| && (forall i :: 0 <= i < |ks| ==> ks[i] < n)
    ensures forall i, j :: 0 <= i < j < |ks| ==> ks[i] < ks[j]
    ensures forall i :: 0 <= i < |ks| ==> Succeeded(life, ks[i], g, i, plan[i].intent)
  {
    hide History, Succeeded;
    ks := seq(|hows|, i requires 0 <= i < |hows| => hows[i].at);
    forall i | 0 <= i < |ks| ensures Succeeded(life, ks[i], g, i, plan[i].intent) {
      SucceededEarlier(life, n, ks[i], g, i, plan[i].intent);
    }
  }

  lemma OneWitnessMore(life: seq<Occurrence>, ks: seq<nat>, n: nat, g: Goal, plan: seq<PlanStep>)
    requires |ks| + 1 == |plan| && (forall i :: 0 <= i < |ks| ==> ks[i] < n)
    requires forall i, j :: 0 <= i < j < |ks| ==> ks[i] < ks[j]
    requires forall i :: 0 <= i < |ks| ==> Succeeded(life, ks[i], g, i, plan[i].intent)
    requires Succeeded(life, n, g, |ks|, plan[|ks|].intent)
    ensures Witnesses(life, ks + [n], g, plan)
  {
    hide Succeeded;
  }

  lemma AllEarnedFront(hows: seq<How>, last: How)
    requires AllEarned(hows + [last])
    ensures AllEarned(hows)
  {
    assert forall i :: 0 <= i < |hows| ==> (hows + [last])[i] == hows[i];
  }

  /** Behind every "finished" lies one successful result per step of the plan, each for that step's own
      intent while the goal waited at that step, in plan order, the last of them this very occurrence. */
  lemma FinishedHasWitnesses(life: seq<Occurrence>, n: nat, goal: string)
    requires n < |life| && Finished(goal) in Recorded(life, n)
    ensures var s := Before(life, n).self;
      s.goal.Some? && s.goal.value.goal == goal
      && exists ks: seq<nat> :: Witnesses(life, ks, s.goal.value, s.plan) && ks[|ks| - 1] == n
  {
    hide Inv, History, Succeeded, Honest, WellFormed, Recorded, AllEarned, Before;
    FinishedIffEarned(life, n, goal);
    HistoryHonest(life[..n]);
    assert Before(life, n) == History(life[..n]) by { BeforeIs(life, n); }
    LastIsNow(life, n);
    var a := Before(life, n);
    AllEarnedFront(a.cur, Earned(n));
    HonestLength(life[..n], a.self.goal.value, a.self.plan, a.self.step, a.cur);
    var ks := EarnedAt(life, n, a.self.goal.value, a.self.plan, a.self.step, a.cur);
    OneWitnessMore(life, ks, n, a.self.goal.value, a.self.plan);
    assert (ks + [n])[|ks|] == n;
  }

  lemma BeforeIs(life: seq<Occurrence>, n: nat)
    requires n < |life|
    ensures Before(life, n) == History(life[..n])
  {}

  lemma HonestLength(life: seq<Occurrence>, g: Goal, plan: seq<PlanStep>, step: nat, hows: seq<How>)
    requires Honest(life, g, plan, step, hows)
    ensures |hows| == step <= |plan|
  {
    hide Succeeded, History;
  }

  ghost predicate Witnesses(life: seq<Occurrence>, ks: seq<nat>, g: Goal, plan: seq<PlanStep>) {
    && |ks| == |plan| > 0
    && (forall i, j :: 0 <= i < j < |ks| ==> ks[i] < ks[j])
    && forall i :: 0 <= i < |ks| ==> Succeeded(life, ks[i], g, i, plan[i].intent)
  }
}
