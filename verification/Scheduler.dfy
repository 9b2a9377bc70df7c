/** The thinking lanes of the service: which thoughts are in flight, and when a companion may
    reflect again (goblin_zomboid/service.py, goblin_zomboid/sentience.py). */
module Scheduler {
  import opened Common
  import opened Companions

  datatype Kind = Think | Reflect | Journal | Banter

  datatype Thought = Thought(kind: Kind, npc: string)

  /** Thoughts about one companion share a lane; diary and banter have one lane each. */
  function Lane(t: Thought): (r: string) {
    match t.kind
    case Think => "npc:" + t.npc
    case Reflect => "npc:" + t.npc
    case Journal => "journal"
    case Banter => "banter"
  }

  /** What scheduling reads of a self: its last reflection, whether it has a goal, its most important news. */
  datatype Mindset = Mindset(last: real, purpose: bool, top: real)

  /** The state of one process; `log` lists the reflections it submitted and when. */
  datatype State = State(jobs: map<string, Thought>, minds: map<string, Mindset>, now: real, log: seq<(string, real)>)

  datatype Action =
    | Clock(to: real)
    | News(npc: string, purpose: bool, top: real)
    | Submit(thought: Thought)
    | SubmitReflect(npc: string, asked: real)
    | Done(lane: string)
    | Reflected(npc: string, purpose: bool)

  function Mind(s: State, npc: string): (r: Mindset) {
    if npc in s.minds then s.minds[npc] else Mindset(0.0, false, 0.0)
  }

  predicate Free(s: State, lane: string, parallel: nat) {
    lane !in s.jobs && |s.jobs| < parallel
  }

  /** A lane is free exactly if a thought can be put there beside the others without exceeding the limit. */
  lemma FreeIs(s: State, t: Thought, lane: string, parallel: nat)
    ensures Free(s, lane, parallel) <==> lane !in s.jobs && |s.jobs[lane := t]| <= parallel
  {
    if lane !in s.jobs {
      assert s.jobs[lane := t].Keys == s.jobs.Keys + {lane};
      assert |s.jobs| == |s.jobs.Keys| && |s.jobs[lane := t]| == |s.jobs[lane := t].Keys|;
    }
  }

  /** What the code checks before each action. A reflection is asked for at one reading of the clock and
      submitted at a later one. */
  predicate Enabled(s: State, a: Action, parallel: nat) {
    match a
    case Clock(to) => to >= s.now
    case News(_, _, _) => true
    case Submit(t) => !t.kind.Reflect? && Free(s, Lane(t), parallel)
    case SubmitReflect(npc, asked) =>
      Free(s, Lane(Thought(Reflect, npc)), parallel) && asked <= s.now
      && Wants(Mind(s, npc).last, Mind(s, npc).purpose, Mind(s, npc).top, asked).0
    case Done(lane) => lane in s.jobs
    case Reflected(_, _) => true
  }

  /** What comes from outside is never held back: news and answers at any time, and every thought in a lane can end. */
  lemma OutsideEnabled(s: State, npc: string, purpose: bool, top: real, lane: string, parallel: nat)
    ensures Enabled(s, News(npc, purpose, top), parallel) && Enabled(s, Reflected(npc, purpose), parallel)
    ensures lane in s.jobs ==> Enabled(s, Done(lane), parallel)
  {}

  function Next(s: State, a: Action): (t: State) {
    match a
    case Clock(to) => s.(now := to)
    case News(npc, purpose, top) => s.(minds := s.minds[npc := Mind(s, npc).(purpose := purpose, top := top)])
    case Submit(t) => s.(jobs := s.jobs[Lane(t) := t])
    case SubmitReflect(npc, _) =>
      s.(jobs := s.jobs[Lane(Thought(Reflect, npc)) := Thought(Reflect, npc)],
         minds := s.minds[npc := Mind(s, npc).(last := s.now)],
         log := s.log + [(npc, s.now)])
    case Done(lane) => s.(jobs := s.jobs - {lane})
    case Reflected(npc, purpose) => s.(minds := s.minds[npc := Mindset(s.now, purpose, 0.0)])
  }

  /** A thought that is submitted is in its lane and nobody else's is touched; a reflection also claims the slot now. */
  lemma SubmittedIs(s: State, a: Action, lane: string)
    requires a.Submit? || a.SubmitReflect?
    ensures var t, thought := Next(s, a), if a.Submit? then a.thought else Thought(Reflect, a.npc);
      && (lane in t.jobs <==> lane in s.jobs || lane == Lane(thought))
      && (lane in t.jobs ==> t.jobs[lane] == if lane == Lane(thought) then thought else s.jobs[lane])
      && (forall npc :: Mind(t, npc) == if a.SubmitReflect? && npc == a.npc then Mind(s, npc).(last := s.now) else Mind(s, npc))
      && t.log == (if a.SubmitReflect? then s.log + [(a.npc, s.now)] else s.log) && t.now == s.now
  {}

  /** So until it ends no other thought about this companion can start. */
  lemma OneAtATime(s: State, a: Action, npc: string, asked: real, parallel: nat)
    requires a == Submit(Thought(Think, npc)) || a == SubmitReflect(npc, asked)
    ensures var t := Next(s, a);
      !Enabled(t, Submit(Thought(Think, npc)), parallel) && forall again :: !Enabled(t, SubmitReflect(npc, again), parallel)
  {
    SubmittedIs(s, a, "npc:" + npc);
    hide Next;
  }

  function Run(s: State, actions: seq<Action>): (t: State)
    decreases |actions|
  {
    if actions == [] then s else Next(Run(s, actions[..|actions| - 1]), actions[|actions| - 1])
  }

  ghost predicate Legal(s: State, actions: seq<Action>, parallel: nat) {
    forall k :: 0 <= k < |actions| ==> Enabled(Run(s, actions[..k]), actions[k], parallel)
  }

  /** A process start: no thought in flight, the selves as they were stored. */
  predicate Start(s: State) {
    s.jobs == map[] && s.log == []
  }

  ghost predicate LanesAgree(s: State) {
    forall lane :: lane in s.jobs ==> Lane(s.jobs[lane]) == lane
  }

  /** Submissions of one companion are at least 20 s apart. */
  ghost predicate Spaced(log: seq<(string, real)>) {
    forall i, j :: 0 <= i < j < |log| && log[i].0 == log[j].0 ==> log[j].1 - log[i].1 >= MIN_REFLECT_GAP_S
  }

  ghost predicate Remembered(s: State) {
    forall i :: 0 <= i < |s.log| ==> s.log[i].1 <= Mind(s, s.log[i].0).last && s.log[i].1 <= s.now
  }

  ghost predicate Inv(s: State, parallel: nat) {
    |s.jobs| <= parallel && LanesAgree(s) && Spaced(s.log) && Remembered(s)
  }

  lemma LaneTaken(jobs: map<string, Thought>, lane: string, t: Thought)
    requires lane !in jobs
    ensures |jobs[lane := t]| == |jobs| + 1
  {}

  lemma LaneFreed(jobs: map<string, Thought>, lane: string)
    requires lane in jobs
    ensures |jobs - {lane}| + 1 == |jobs|
  {
    assert jobs == (jobs - {lane})[lane := jobs[lane]];
  }

  lemma StepKeepsJobs(s: State, a: Action, parallel: nat)
    requires |s.jobs| <= parallel && LanesAgree(s) && Enabled(s, a, parallel)
    ensures |Next(s, a).jobs| <= parallel && LanesAgree(Next(s, a))
  {
    hide Lane;
    match a
    case Submit(t) => LaneTaken(s.jobs, Lane(t), t);
    case SubmitReflect(npc, _) => LaneTaken(s.jobs, Lane(Thought(Reflect, npc)), Thought(Reflect, npc));
    case Done(lane) => LaneFreed(s.jobs, lane);
    case _ =>
  }

  lemma StepKeepsGap(s: State, a: Action, parallel: nat)
    requires Inv(s, parallel) && Enabled(s, a, parallel)
    ensures Spaced(Next(s, a).log) && Remembered(Next(s, a))
  {
    hide LanesAgree, Lane;
    var t := Next(s, a);
    forall i | 0 <= i < |t.log| ensures t.log[i].1 <= Mind(t, t.log[i].0).last && t.log[i].1 <= t.now {
      if i < |s.log| {
        assert t.log[i] == s.log[i];
        assert s.log[i].1 <= Mind(s, s.log[i].0).last;
      }
    }
    if a.SubmitReflect? {
      forall i, j | 0 <= i < j < |t.log| && t.log[i].0 == t.log[j].0
        ensures t.log[j].1 - t.log[i].1 >= MIN_REFLECT_GAP_S
      {
        assert t.log[i] == s.log[i];
        if j < |s.log| { assert t.log[j] == s.log[j]; }
      }
    }
  }

  lemma {:induction false} RunKeepsInv(s: State, actions: seq<Action>, parallel: nat)
    requires Inv(s, parallel) && Legal(s, actions, parallel)
    ensures Inv(Run(s, actions), parallel)
    decreases |actions|
  {
    if actions != [] {
      var front, a := actions[..|actions| - 1], actions[|actions| - 1];
      assert forall k :: 0 <= k <= |front| ==> front[..k] == actions[..k];
      assert Enabled(Run(s, actions[..|front|]), a, parallel);
      RunKeepsInv(s, front, parallel);
      hide Enabled, Next;
      StepKeepsJobs(Run(s, front), a, parallel);
      StepKeepsGap(Run(s, front), a, parallel);
    }
  }

  /** The companion that the thought in this lane is about. */
  function About(jobs: map<string, Thought>, lane: string): (r: Option<string>) {
    if lane in jobs && jobs[lane].kind in {Think, Reflect} then Some(jobs[lane].npc) else None
  }

  /** In every reachable state at most `parallel` thoughts are in flight, and two thoughts about one
      companion are the same thought. */
  lemma BoundedAndOnePerCompanion(s: State, actions: seq<Action>, parallel: nat)
    requires Start(s) && Legal(s, actions, parallel)
    ensures |Run(s, actions).jobs| <= parallel
    ensures forall a :: a in Run(s, actions).jobs && Run(s, actions).jobs[a].kind in {Think, Reflect} ==>
              About(Run(s, actions).jobs, a) == Some(Run(s, actions).jobs[a].npc)
    ensures forall a, b :: About(Run(s, actions).jobs, a).Some? && About(Run(s, actions).jobs, a) == About(Run(s, actions).jobs, b)
                           ==> a == b
  {
    RunKeepsInv(s, actions, parallel);
  }

  /** Nor are two diary pages or two meetings in flight at once, and every thought sits in its own lane. */
  lemma OneDiaryOneMeeting(s: State, actions: seq<Action>, parallel: nat)
    requires Start(s) && Legal(s, actions, parallel)
    ensures var jobs := Run(s, actions).jobs;
      && (forall a, b :: a in jobs && b in jobs && jobs[a].kind == jobs[b].kind && (jobs[a].kind.Journal? || jobs[a].kind.Banter?) ==> a == b)
      && (forall lane :: lane in jobs && (jobs[lane].kind.Think? || jobs[lane].kind.Reflect?) ==> lane == "npc:" + jobs[lane].npc)
  {
    RunKeepsInv(s, actions, parallel);
    hide Run;
  }

  /** Within one process two reflections of one companion are submitted at least 20 s apart. */
  lemma ReflectionsSpaced(s: State, actions: seq<Action>, parallel: nat, i: nat, j: nat)
    requires Start(s) && Legal(s, actions, parallel)
    requires var log := Run(s, actions).log; i < j < |log| && log[i].0 == log[j].0
    ensures var log := Run(s, actions).log; log[j].1 - log[i].1 >= 20.0
  {
    RunKeepsInv(s, actions, parallel);
  }

  /** The submission is not saved, so a restart can forget it: the same companion, one second later. */
  lemma RestartForgetsGap(parallel: nat)
    requires parallel > 0
    ensures exists first: State, second: State, a: seq<Action>, b: seq<Action> ::
      && Start(first) && Start(second) && first.minds == second.minds
      && Legal(first, a, parallel) && Legal(second, b, parallel)
      && second.now >= Run(first, a).now
      && Run(first, a).log == [("goblin", 1000.0)] && Run(second, b).log == [("goblin", 1001.0)]
  {
    var first := State(map[], map[], 1000.0, []);
    var second := first.(now := 1001.0);
    var a, b := [SubmitReflect("goblin", 1000.0)], [SubmitReflect("goblin", 1001.0)];
    assert a[..0] == [] && b[..0] == [];
    assert Run(first, a[..0]) == first && Run(second, b[..0]) == second;
    assert Legal(first, a, parallel) && Legal(second, b, parallel);
    assert Run(first, a) == Next(first, a[0]) && Run(second, b) == Next(second, b[0]);
  }

  /** What a restart must not lose: each submission is remembered by the self as it was loaded, or is 20 s ago. */
  ghost predicate Covered(log: seq<(string, real)>, s: State) {
    forall i :: 0 <= i < |log| ==> Mind(s, log[i].0).last >= log[i].1 || s.now >= log[i].1 + MIN_REFLECT_GAP_S
  }

  /** Nothing in the log is later than the clock. */
  ghost predicate Past(log: seq<(string, real)>, s: State) {
    forall i :: 0 <= i < |log| ==> log[i].1 <= s.now
  }

  lemma StepKeepsCovered(s: State, a: Action, parallel: nat)
    requires Covered(s.log, s) && Past(s.log, s) && Spaced(s.log) && Enabled(s, a, parallel)
    ensures Covered(Next(s, a).log, Next(s, a)) && Past(Next(s, a).log, Next(s, a)) && Spaced(Next(s, a).log)
  {
    hide Lane, Free;
    var t := Next(s, a);
    forall i | 0 <= i < |t.log|
      ensures t.log[i].1 <= t.now && (Mind(t, t.log[i].0).last >= t.log[i].1 || t.now >= t.log[i].1 + MIN_REFLECT_GAP_S)
    {
      if i < |s.log| { assert t.log[i] == s.log[i]; }
    }
    if a.SubmitReflect? {
      forall i, j | 0 <= i < j < |t.log| && t.log[i].0 == t.log[j].0
        ensures t.log[j].1 - t.log[i].1 >= MIN_REFLECT_GAP_S
      {
        assert t.log[i] == s.log[i];
        if j < |s.log| { assert t.log[j] == s.log[j]; }
      }
    }
  }

  lemma {:induction false} RunKeepsCovered(s: State, actions: seq<Action>, parallel: nat)
    requires Covered(s.log, s) && Past(s.log, s) && Spaced(s.log) && Legal(s, actions, parallel)
    ensures Spaced(Run(s, actions).log) && Covered(Run(s, actions).log, Run(s, actions)) && Past(Run(s, actions).log, Run(s, actions))
    decreases |actions|
  {
    hide Enabled, Next, Covered, Past, Spaced;
    if actions != [] {
      var front := actions[..|actions| - 1];
      assert forall k :: 0 <= k <= |front| ==> front[..k] == actions[..k];
      assert Enabled(Run(s, actions[..|front|]), actions[|front|], parallel);
      RunKeepsCovered(s, front, parallel);
      StepKeepsCovered(Run(s, front), actions[|front|], parallel);
    }
  }

  /** What a second process keeps after a first one: the gap to everything either has submitted. */
  ghost predicate KeepsGap(log: seq<(string, real)>, after: State, parallel: nat) {
    forall actions :: Legal(after, actions, parallel) ==> Spaced(log + Run(after, actions).log)
  }

  /** The run of the second process behaves as if it had submitted the first one's reflections itself. */
  lemma StoredSelvesKeepGap(before: State, after: State, parallel: nat)
    requires Inv(before, parallel) && Start(after) && after.now >= before.now && Covered(before.log, after)
    ensures KeepsGap(before.log, after, parallel)
  {
    var joined := after.(log := before.log);
    assert Covered(joined.log, joined) by {
      assert forall i :: 0 <= i < |joined.log| ==> Mind(joined, joined.log[i].0) == Mind(after, before.log[i].0);
    }
    assert Past(joined.log, joined);
    forall actions | Legal(after, actions, parallel) ensures Spaced(before.log + Run(after, actions).log) {
      SameButLog(after, joined, before.log, actions, parallel);
      RunKeepsCovered(joined, actions, parallel);
    }
  }

  /** Something important happens at u, and the companion reflects. */
  function Early(npc: string, u: real): (r: seq<Action>) {
    [Clock(u), News(npc, false, 1.0), SubmitReflect(npc, u)]
  }

  lemma EarlyReflection(s: State, npc: string, u: real, parallel: nat)
    requires Start(s) && parallel > 0 && u >= s.now && u - Mind(s, npc).last >= MIN_REFLECT_GAP_S
    ensures Legal(s, Early(npc, u), parallel) && Run(s, Early(npc, u)).log == [(npc, u)]
  {
    var last := Mind(s, npc).last;
    var s1 := Next(s, Clock(u));
    var s2 := Next(s1, News(npc, false, 1.0));
    assert Mind(s2, npc) == Mindset(last, false, 1.0) && s2.jobs == map[] && s2.now == u && s2.log == [];
    assert Next(s2, SubmitReflect(npc, u)).log == [(npc, u)];
    assert s1.now == u && Enabled(s, Clock(u), parallel) && Enabled(s1, News(npc, false, 1.0), parallel);
    hide Next, Legal, Run;
    assert Enabled(s2, SubmitReflect(npc, u), parallel);
    hide Enabled;
    ThreeSteps(s, Clock(u), News(npc, false, 1.0), SubmitReflect(npc, u), parallel);
  }

  lemma TooClose(log: seq<(string, real)>, i: nat, u: real)
    requires i < |log| && u - log[i].1 < MIN_REFLECT_GAP_S
    ensures !Spaced(log + [(log[i].0, u)])
  {
    var joined := log + [(log[i].0, u)];
    assert joined[i] == log[i] && joined[|log|] == (log[i].0, u);
  }

  /** A submission that was forgotten: the clock goes on until the loaded self would allow a reflection, something
      important happens, and the companion reflects again too early. */
  lemma ForgottenGap(before: State, after: State, parallel: nat, i: nat)
    requires Start(after) && parallel > 0 && Past(before.log, after) && i < |before.log|
    requires Mind(after, before.log[i].0).last < before.log[i].1 && after.now < before.log[i].1 + MIN_REFLECT_GAP_S
    ensures !KeepsGap(before.log, after, parallel)
  {
    hide Legal, Run, Spaced, Early, Mind;
    var npc := before.log[i].0;
    var last := Mind(after, npc).last;
    var u := if after.now >= last + MIN_REFLECT_GAP_S then after.now else last + MIN_REFLECT_GAP_S;
    EarlyReflection(after, npc, u, parallel);
    TooClose(before.log, i, u);
  }

  lemma ThreeSteps(s: State, a: Action, b: Action, c: Action, parallel: nat)
    requires Enabled(s, a, parallel) && Enabled(Next(s, a), b, parallel) && Enabled(Next(Next(s, a), b), c, parallel)
    ensures Legal(s, [a, b, c], parallel) && Run(s, [a, b, c]) == Next(Next(Next(s, a), b), c)
  {
    hide Enabled, Next;
    var r := [a, b, c];
    assert r[..0] == [] && r[..1] == [a] && r[..2] == [a, b] && [a, b][..1] == [a] && [a][..0] == [];
    assert Run(s, r[..0]) == s && Run(s, [a]) == Next(s, a) && Run(s, [a, b]) == Next(Next(s, a), b);
    assert Run(s, r) == Next(Run(s, r[..2]), c);
  }

  /** The 20 s hold across a restart, whatever the new process does, exactly if each submission of the old one is
      remembered by the self that was loaded or is at least 20 s ago when the process starts. */
  lemma GapAcrossRestart(before: State, after: State, parallel: nat)
    requires Inv(before, parallel) && Start(after) && after.now >= before.now && parallel > 0
    ensures KeepsGap(before.log, after, parallel) <==> Covered(before.log, after)
  {
    if Covered(before.log, after) {
      StoredSelvesKeepGap(before, after, parallel);
    } else {
      var i: nat :| i < |before.log|
        && !(Mind(after, before.log[i].0).last >= before.log[i].1 || after.now >= before.log[i].1 + MIN_REFLECT_GAP_S);
      hide KeepsGap, LanesAgree, Spaced;
      ForgottenGap(before, after, parallel, i);
    }
  }

  lemma SameStep(u: State, a: Action, earlier: seq<(string, real)>, parallel: nat)
    requires Enabled(u, a, parallel)
    ensures Enabled(u.(log := earlier + u.log), a, parallel)
    ensures Next(u.(log := earlier + u.log), a) == Next(u, a).(log := earlier + Next(u, a).log)
  {
    hide Lane, Wants;
    if a.SubmitReflect? {
      assert (earlier + u.log) + [(a.npc, u.now)] == earlier + (u.log + [(a.npc, u.now)]);
    }
  }

  lemma {:induction false} SameButLog(s: State, t: State, earlier: seq<(string, real)>, actions: seq<Action>, parallel: nat)
    requires t == s.(log := earlier + s.log) && Legal(s, actions, parallel)
    ensures Legal(t, actions, parallel)
    ensures Run(t, actions) == Run(s, actions).(log := earlier + Run(s, actions).log)
    decreases |actions|
  {
    hide Enabled, Next;
    if actions != [] {
      var front := actions[..|actions| - 1];
      assert forall k :: 0 <= k <= |front| ==> front[..k] == actions[..k];
      SameButLog(s, t, earlier, front, parallel);
      assert Enabled(Run(s, actions[..|front|]), actions[|front|], parallel);
      SameStep(Run(s, front), actions[|front|], earlier, parallel);
      forall k | 0 <= k < |actions| ensures Enabled(Run(t, actions[..k]), actions[k], parallel) {
        if k < |front| {
          assert Enabled(Run(t, front[..k]), front[k], parallel);
        }
      }
    }
  }
}
