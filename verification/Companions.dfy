/** The object that carries every companion's self, its inbox and its recent jobs, and the
    methods that move them (goblin_zomboid/sentience.py). */
module Companions {
  import opened Common
  import opened Sentience

  const WAKE_IMPORTANCE := 0.5
  const BACKGROUND_REFLECT_S := 240.0
  const MIN_REFLECT_GAP_S := 20.0
  const NO_GOAL_S := 60.0
  const FAILED_COOLDOWN_S := 600.0
  const DONE_COOLDOWN_S := 900.0
  const JOB_FAILED_IMPORTANCE := 0.55

  const ONE_SHOT_CHORES: set<string> := {
    "SECURE_BASE", "CLOSE_CURTAINS", "RESTORE_POWER", "INSPECT_BASE", "MAINTAIN_BASE", "SORT_STORAGE",
    "VEHICLE_SERVICE", "VEHICLE_INSPECT", "REFUEL_VEHICLE", "REPAIR_STRUCTURE", "STOCKPILE", "DELIVER", "CHECK_TRAPS"}

  /** What a companion recently tried: when, and whether it worked. */
  datatype Job = Job(at: real, ok: bool)

  predicate Cools(intent: string, job: Job, now: real) {
    if job.ok then intent in ONE_SHOT_CHORES && now - job.at < DONE_COOLDOWN_S else now - job.at < FAILED_COOLDOWN_S
  }

  /** The intents a companion should not pick again yet. */
  function CoolingSet(jobs: map<string, Job>, now: real): (r: set<string>) {
    set intent | intent in jobs && Cools(intent, jobs[intent], now)
  }

  /** top is the greatest importance waiting, or 0 if nothing waits. */
  ghost predicate IsTop(inbox: seq<real>, top: real) {
    && (forall i :: 0 <= i < |inbox| ==> inbox[i] <= top)
    && (if inbox == [] then top == 0.0 else top in inbox)
  }

  /** Whether a companion that last reflected then, with or without a goal and with this most important
      news waiting, should think now, and how urgently. */
  function Wants(last: real, purpose: bool, top: real, now: real): (r: (bool, real))
    ensures r.0 == (
      now - last >= MIN_REFLECT_GAP_S
      && (top >= WAKE_IMPORTANCE || (!purpose && now - last >= NO_GOAL_S) || now - last >= BACKGROUND_REFLECT_S))
    ensures r.1 >= WAKE_IMPORTANCE ==> r.0
  {
    var since := now - last;
    if since < MIN_REFLECT_GAP_S then (false, 0.0)
    else if top >= WAKE_IMPORTANCE then (true, top)
    else if !purpose && since >= NO_GOAL_S then (true, WAKE_IMPORTANCE)
    else if since >= BACKGROUND_REFLECT_S then (true, 0.2)
    else (false, 0.0)
  }

  /** How urgent the answer is: as much as the news that wakes, or as the threshold for want of a goal, or in the background. */
  lemma WantsUrgency(last: real, purpose: bool, top: real, now: real)
    ensures var (think, priority) := Wants(last, purpose, top, now);
      && (!think ==> priority == 0.0)
      && (think && top >= 0.5 ==> priority == top)
      && (think && top < 0.5 ==> priority == if !purpose && now - last >= 60.0 then 0.5 else 0.2)
      && (think ==> now - last >= 20.0) && (!purpose && now - last >= 60.0 ==> think) && (now - last >= 240.0 ==> think)
  {}

  /** An intent cools for ten minutes after it failed, and for a quarter of an hour after it was done if it is a chore that
      need not be repeated. */
  lemma CoolingIs(jobs: map<string, Job>, now: real, intent: string)
    ensures intent in CoolingSet(jobs, now) <==>
      intent in jobs && (if jobs[intent].ok then intent in ONE_SHOT_CHORES && now < jobs[intent].at + 900.0 else now < jobs[intent].at + 600.0)
  {}

  function Tagged(id: string, notes: seq<Note>): (r: seq<(string, Note)>) {
    seq(|notes|, i requires 0 <= i < |notes| => (id, notes[i]))
  }

  lemma PutTwice(m: map<string, Self>, id: string, first: Self, second: Self)
    ensures m[id := first][id := second] == m[id := second]
  {}

  lemma TaggedNone(id: string)
    ensures Tagged(id, []) == []
  {}

  lemma TaggedFirst(id: string, first: Note, rest: seq<Note>)
    ensures Tagged(id, [first] + rest) == [(id, first)] + Tagged(id, rest)
    ensures Tagged(id, [first]) == [(id, first)]
  {}

  lemma {:induction false} CleanPlanStops(raw: seq<RawStep>, i: nat, room: nat)
    requires i < |raw|
    ensures CleanPlan(raw[i..], room) ==
      if room == 0 then [] else if CleanStep(raw[i]).None? then CleanPlan(raw[i + 1..], room)
      else [CleanStep(raw[i]).value] + CleanPlan(raw[i + 1..], room - 1)
  {
    assert raw[i..][0] == raw[i] && raw[i..][1..] == raw[i + 1..];
  }

  class Companions {
    var selves: map<string, Self>
    var inbox: map<string, seq<real>>
    var recentJobs: map<string, map<string, Job>>
    /** The mind's tables: the stored selves and what was recorded about goals. */
    var stored: map<string, Self>
    var notes: seq<(string, Note)>

    /** A process start over what the mind has stored. */
    constructor (stored: map<string, Self>, notes: seq<(string, Note)>)
      ensures selves == map[] && inbox == map[] && recentJobs == map[]
      ensures this.stored == stored && this.notes == notes
    {
      selves, inbox, recentJobs := map[], map[], map[];
      this.stored, this.notes := stored, notes;
    }

    function Current(id: string): (r: Self)
      reads this`selves, this`stored
    {
      if id in selves then selves[id] else if id in stored then stored[id] else NewSelf
    }

    function Jobs(id: string): (r: map<string, Job>)
      reads this`recentJobs
    {
      if id in recentJobs then recentJobs[id] else map[]
    }

    function Waiting(id: string): (r: seq<real>)
      reads this`inbox
    {
      if id in inbox then inbox[id] else []
    }

    method Get(id: string) returns (s: Self)
      modifies this`selves
      ensures s == old(Current(id)) && selves == old(selves)[id := s]
      ensures s == if id in old(selves) then old(selves)[id] else if id in stored then stored[id] else NewSelf
    {
      if id !in selves {
        if id in stored {
          selves := selves[id := stored[id]];
        } else {
          selves := selves[id := NewSelf];
        }
      }
      s := selves[id];
      assert id in old(selves) ==> selves == old(selves)[id := s];
    }

    method Save(id: string)
      modifies this`stored
      ensures stored == if id in selves then old(stored)[id := selves[id]] else old(stored)
    {
      if id in selves {
        stored := stored[id := selves[id]];
      }
    }

    method NoteJob(id: string, intent: string, success: bool, now: real)
      modifies this`recentJobs
      ensures recentJobs == old(recentJobs)[id := old(Jobs(id))[Alias(intent) := Job(now, success)]]
      ensures Jobs(id) == old(Jobs(id))[Alias(intent) := Job(now, success)]
    {
      var mine := map[];
      if id in recentJobs {
        mine := recentJobs[id];
      }
      mine := mine[Alias(intent) := Job(now, success)];
      recentJobs := recentJobs[id := mine];
    }

    method Cooling(id: string, now: real) returns (r: set<string>)
      ensures r == CoolingSet(Jobs(id), now)
    {
      var jobs := Jobs(id);
      r := {};
      var todo := jobs.Keys;
      while todo != {}
        invariant todo <= jobs.Keys
        invariant r == set intent | intent in jobs && intent !in todo && Cools(intent, jobs[intent], now)
        decreases todo
      {
        var intent :| intent in todo;
        todo := todo - {intent};
        var age := now - jobs[intent].at;
        if !jobs[intent].ok && age < FAILED_COOLDOWN_S {
          r := r + {intent};
        } else if jobs[intent].ok && intent in ONE_SHOT_CHORES && age < DONE_COOLDOWN_S {
          r := r + {intent};
        }
      }
    }

    method FinishGoal(id: string, complete: bool)
      requires id in selves
      modifies this`selves, this`notes
      ensures selves == old(selves)[id := Finish(old(selves[id]))]
      ensures notes == old(notes) + Tagged(id, FinishNotes(old(selves[id]), complete))
    {
      var s := selves[id];
      if s.goal.Some? {
        if complete && !s.goal.value.unverified {
          notes := notes + [(id, Finished(s.goal.value.goal))];
        } else {
          notes := notes + [(id, GaveUpOn(s.goal.value.goal))];
        }
      }
      if s.suspended.Some? {
        var back := s.suspended.value;
        s := s.(goal := Some(back.goal), plan := back.plan, step := back.step, suspended := None);
      } else {
        s := s.(goal := None, plan := [], step := 0);
      }
      selves := selves[id := s];
    }

    /** How far the plan can be walked without meeting a step that is not cooling. */
    static method Walk(s: Self, cooling: set<string>) returns (step: nat)
      ensures step == s.step + CoolingRun(s.plan, s.step, cooling)
    {
      step := s.step;
      while step < |s.plan| && s.plan[step].intent in cooling
        invariant s.step <= step
        invariant CoolingRun(s.plan, s.step, cooling) == step - s.step + CoolingRun(s.plan, step, cooling)
        decreases |s.plan| - step
      {
        step := step + 1;
      }
    }

    method SkipCoolingSteps(id: string, now: real)
      modifies this`selves, this`stored, this`notes
      ensures var (t, recorded) := SkipCooling(old(Current(id)), CoolingSet(old(Jobs(id)), now));
        && selves == old(selves)[id := t]
        && notes == old(notes) + Tagged(id, recorded)
        && stored == if CoolingRun(old(Current(id)).plan, old(Current(id)).step, CoolingSet(old(Jobs(id)), now)) == 0
                     then old(stored) else old(stored)[id := t]
    {
      hide Tagged, CoolingSet, CoolingRun, Finish, FinishNotes;
      TaggedNone(id);
      var s := Get(id);
      ghost var loaded := s;
      var cooling := Cooling(id, now);
      var step := Walk(s, cooling);
      var moved := step > s.step;
      if moved {
        s := s.(step := step);
        if s.goal.Some? {
          s := s.(goal := Some(s.goal.value.(unverified := true)));
        }
        PutTwice(old(selves), id, loaded, s);
        PutTwice(old(selves), id, s, Finish(s));
        selves := selves[id := s];
        if s.step >= |s.plan| {
          FinishGoal(id, false);
        }
        Save(id);
      }
    }

    /** The step is passed; the last one ends the goal. */
    method Pass(id: string)
      requires id in selves
      modifies this`selves, this`notes
      ensures selves == old(selves)[id := Advance(old(selves[id])).0]
      ensures notes == old(notes) + Tagged(id, Advance(old(selves[id])).1)
    {
      hide Tagged, Finish, FinishNotes;
      TaggedNone(id);
      var s := selves[id];
      s := s.(step := s.step + 1);
      PutTwice(selves, id, s, Finish(s));
      selves := selves[id := s];
      if s.step >= |s.plan| {
        FinishGoal(id, true);
      }
    }

    method StepResult(id: string, reported: string, success: bool)
      modifies this`selves, this`stored, this`notes, this`inbox
      ensures var s := old(Current(id));
        var (t, recorded) := Sentience.StepResult(s, reported, success);
        && selves == old(selves)[id := t]
        && notes == old(notes) + Tagged(id, recorded)
        && stored == (if Matches(s, reported) then old(stored)[id := t] else old(stored))
        // a failure, or a success after one, wakes cognition
        && inbox == (if Matches(s, reported) && (!success || s.plan[s.step].failures > 0)
                     then old(inbox)[id := old(Waiting(id)) + [JOB_FAILED_IMPORTANCE]] else old(inbox))
        && (Matches(s, reported) && !success ==> Waiting(id) == old(Waiting(id)) + [JOB_FAILED_IMPORTANCE])
    {
      hide Tagged, Advance, Alias;
      TaggedNone(id);
      var intent := Alias(reported);
      var s := Get(id);
      if !(s.step < |s.plan|) {
        return;
      }
      if s.plan[s.step].intent != intent {
        return;
      }
      var failures := s.plan[s.step].failures;
      var passed := success;
      if !success {
        failures := failures + 1;
        s := s.(plan := s.plan[s.step := s.plan[s.step].(failures := failures)]);
        if failures >= 2 {
          if s.goal.Some? {
            s := s.(goal := Some(s.goal.value.(unverified := true)));
          }
          passed := true;
          TaggedFirst(id, GaveUpStep(intent), Advance(s).1);
          notes := notes + [(id, GaveUpStep(intent))];
        }
      }
      PutTwice(selves, id, s, Advance(s).0);
      PutTwice(old(selves), id, selves[id], s);
      PutTwice(old(selves), id, selves[id], Advance(s).0);
      selves := selves[id := s];
      if passed {
        Pass(id);
      }
      if !passed || failures > 0 {
        var mine := Waiting(id);
        inbox := inbox[id := mine + [JOB_FAILED_IMPORTANCE]];
      }
      Save(id);
    }

    /** The greatest importance waiting in the inbox. */
    method Top(id: string) returns (top: real)
      ensures IsTop(Waiting(id), top)
    {
      var waiting := Waiting(id);
      if waiting == [] {
        return 0.0;
      }
      top := waiting[0];
      var i := 1;
      while i < |waiting|
        invariant 1 <= i <= |waiting|
        invariant IsTop(waiting[..i], top)
      {
        if waiting[i] > top {
          top := waiting[i];
        }
        assert waiting[..i + 1] == waiting[..i] + [waiting[i]];
        i := i + 1;
      }
      assert waiting[..i] == waiting;
    }

    static method CleanPlan(raw: seq<RawStep>) returns (plan: seq<PlanStep>)
      ensures plan == Sentience.CleanPlan(raw, PLAN_LIMIT)
    {
      plan := [];
      var i := 0;
      assert raw[0..] == raw;
      while i < |raw|
        invariant 0 <= i <= |raw| && |plan| < PLAN_LIMIT
        invariant Sentience.CleanPlan(raw, PLAN_LIMIT) == plan + Sentience.CleanPlan(raw[i..], PLAN_LIMIT - |plan|)
      {
        hide CleanStep, Sentience.CleanPlan;
        var clean := CleanStep(raw[i]);
        CleanPlanStops(raw, i, PLAN_LIMIT - |plan|);
        i := i + 1;
        if clean.Some? {
          ghost var before, rest := plan, Sentience.CleanPlan(raw[i..], PLAN_LIMIT - |plan| - 1);
          plan := plan + [clean.value];
          assert before + ([clean.value] + rest) == plan + rest;
          if |plan| >= PLAN_LIMIT {
            assert rest == [] && plan + rest == plan;
            return;
          }
        }
      }
    }

    static method WithoutCooling(clean: seq<PlanStep>, cooling: set<string>) returns (plan: seq<PlanStep>)
      ensures plan == NotCooling(clean, cooling)
    {
      plan := [];
      var i := 0;
      while i < |clean|
        invariant 0 <= i <= |clean|
        invariant NotCooling(clean, cooling) == plan + NotCooling(clean[i..], cooling)
      {
        assert clean[i..][0] == clean[i] && clean[i..][1..] == clean[i + 1..];
        if clean[i].intent !in cooling {
          assert plan + ([clean[i]] + NotCooling(clean[i + 1..], cooling))
              == plan + [clean[i]] + NotCooling(clean[i + 1..], cooling);
          plan := plan + [clean[i]];
        } else {
          assert [] + NotCooling(clean[i + 1..], cooling) == NotCooling(clean[i + 1..], cooling);
        }
        i := i + 1;
      }
      assert clean[i..] == [];
    }

    /** What the reflection decided about the goal. */
    method Decide(id: string, output: Reflection, plan: seq<PlanStep>, now: real)
      requires id in selves
      modifies this`selves, this`notes
      ensures selves == old(selves)[id := Sentience.Decide(old(selves[id]), output, plan, now).0]
      ensures notes == old(notes) + Tagged(id, Sentience.Decide(old(selves[id]), output, plan, now).1)
    {
      hide Tagged, Finish, FinishNotes, Text;
      TaggedNone(id);
      var s := selves[id];
      var goal := Text(output.goal, 100);
      var reason := Text(output.reason, 160);
      var previous := s.goal;
      if (output.decision.New? || output.decision.Interrupt?) && goal.Some? && plan != [] {
        if output.decision.Interrupt? && previous.Some? && s.suspended.None? {
          s := s.(suspended := Some(Suspended(previous.value, s.plan, s.step)));
        }
        s := s.(goal := Some(Goal(goal.value, reason, now, false)), plan := plan, step := 0);
        selves := selves[id := s];
      } else if output.decision.Abandon? {
        FinishGoal(id, false);
      } else if output.decision.Continue? && plan != [] && previous.None? && goal.Some? {
        s := s.(goal := Some(Goal(goal.value, reason, now, false)), plan := plan, step := 0);
        selves := selves[id := s];
      }
    }

    /** apply_reflection; the clock is read once for the self and once more for the cooldowns. */
    method ApplyReflection(id: string, output: Reflection, now: real, later: real) returns (top: real)
      modifies this`selves, this`stored, this`notes, this`inbox
      ensures var (t, recorded) := Reflect(old(Current(id)), output, CoolingSet(old(Jobs(id)), later), now);
        && selves == old(selves)[id := t]
        && stored == old(stored)[id := t]
        && notes == old(notes) + Tagged(id, recorded)
      ensures inbox == old(inbox)[id := []] && IsTop(old(Waiting(id)), top)
    {
      hide Tagged, CoolingSet, Sentience.Decide, Sentience.CleanPlan, NotCooling, IsTop;
      var s := Get(id);
      ghost var loaded := s;
      s := s.(lastReflect := now, reflections := s.reflections + 1);
      PutTwice(old(selves), id, loaded, s);
      selves := selves[id := s];
      top := Top(id);
      inbox := inbox[id := []];
      var cooling := Cooling(id, later);
      var clean := CleanPlan(output.plan);
      var plan := WithoutCooling(clean, cooling);
      ghost var t := Sentience.Decide(s, output, plan, now).0;
      PutTwice(old(selves), id, s, t);
      Decide(id, output, plan, now);
      Save(id);
    }

    /** Whether the companion should think now, and how urgently; never within 20 s of its last reflection. */
    method WantsReflection(id: string, now: real) returns (think: bool, priority: real)
      modifies this`selves
      ensures selves == old(selves)[id := old(Current(id))]
      ensures exists top ::
        IsTop(Waiting(id), top) && (think, priority) == Wants(old(Current(id)).lastReflect, old(Current(id)).goal.Some?, top, now)
    {
      var s := Get(id);
      var since := now - s.lastReflect;
      var top := Top(id);
      if since < MIN_REFLECT_GAP_S {
        return false, 0.0;
      }
      if top >= WAKE_IMPORTANCE {
        return true, top;
      }
      if s.goal.None? && since >= NO_GOAL_S {
        return true, WAKE_IMPORTANCE;
      }
      if since >= BACKGROUND_REFLECT_S {
        return true, 0.2;
      }
      return false, 0.0;
    }
  }
}
