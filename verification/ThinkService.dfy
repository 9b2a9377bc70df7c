/** The service's scheduling loops over the thinking lanes, as they update the running thoughts in
    place (goblin_zomboid/service.py). */
module ThinkService {
  import opened Common
  import opened Companions
  import opened Scheduler

  const THINK_INTERVAL := 40.0

  /** A companion in the current report: `ready` if it can reflect (present, owner online, free will on),
      `eligible` if it may take a think turn. */
  datatype Companion = Companion(npc: string, ready: bool, eligible: bool)

  function LaneOf(c: Companion): (r: string) {
    "npc:" + c.npc
  }

  /** This companion wants a reflection of this urgency at this reading of the clock. */
  predicate Qualifies(s: State, c: Companion, urgent: bool, asked: real) {
    var (wants, priority) := Wants(Mind(s, c.npc).last, Mind(s, c.npc).purpose, Mind(s, c.npc).top, asked);
    c.ready && wants && (urgent <==> priority >= WAKE_IMPORTANCE)
  }

  /** Urgent are news above the threshold and a missing purpose after a minute, anything else after four minutes is not, and
      nobody qualifies within 20 s. */
  lemma QualifiesIs(s: State, c: Companion, urgent: bool, asked: real)
    ensures var m := Mind(s, c.npc);
      var pressing := m.top >= 0.5 || (!m.purpose && asked - m.last >= 60.0);
      Qualifies(s, c, urgent, asked) <==> c.ready && asked - m.last >= 20.0 && (if urgent then pressing else !pressing && asked - m.last >= 240.0)
  {}

  /** Somebody nobody has thought about yet is urgent, once the clock is past the first minute. */
  lemma NewcomerQualifies(s: State, c: Companion, asked: real)
    requires c.npc !in s.minds && asked >= 60.0
    ensures Qualifies(s, c, true, asked) <==> c.ready
  {}

  function Priority(s: State, c: Companion, asked: real): (r: real) {
    Wants(Mind(s, c.npc).last, Mind(s, c.npc).purpose, Mind(s, c.npc).top, asked).1
  }

  /** What was in flight still is, and what is new is a reflection. */
  ghost predicate Reflections(before: map<string, Thought>, after: map<string, Thought>) {
    && (forall lane :: lane in before ==> lane in after && after[lane] == before[lane])
    && (forall lane :: lane in after && lane !in before ==> after[lane].kind.Reflect?)
  }

  lemma ReflectionsMore(a: map<string, Thought>, b: map<string, Thought>, c: map<string, Thought>)
    requires Reflections(a, b) && Reflections(b, c)
    ensures Reflections(a, c)
  {}

  lemma NoReflections(a: map<string, Thought>)
    ensures Reflections(a, a)
  {}

  /** `first` is the state after the urgent reflections: nothing but these has been started until then, and nobody with a
      free lane still has urgent news. Where reflections are not wanted there are none. */
  ghost predicate UrgentFirst(companions: seq<Companion>, reflects: bool, jobs: map<string, Thought>, log: seq<(string, real)>,
                              first: State, after: seq<(string, real)>, parallel: nat) {
    && Reflections(jobs, first.jobs) && log <= first.log <= after
    && (reflects ==> forall c :: c in companions && Free(first, LaneOf(c), parallel) ==> !Qualifies(first, c, true, first.now))
    && (!reflects ==> first.jobs == jobs && after == log)
  }

  lemma UrgentStays(companions: seq<Companion>, reflects: bool, jobs: map<string, Thought>, log: seq<(string, real)>,
                    first: State, mid: seq<(string, real)>, after: seq<(string, real)>, parallel: nat)
    requires UrgentFirst(companions, reflects, jobs, log, first, mid, parallel) && mid <= after && (!reflects ==> after == mid)
    ensures UrgentFirst(companions, reflects, jobs, log, first, after, parallel)
  {
    hide Reflections, Free, Qualifies;
  }

  lemma LaneIs(c: Companion)
    ensures LaneOf(c) == "npc:" + c.npc
  {}

  /** The first of the most urgent companions that qualify. */
  ghost predicate IsBest(s: State, pool: seq<Companion>, urgent: bool, asked: real, k: nat) {
    && k < |pool| && Qualifies(s, pool[k], urgent, asked)
    && (forall i :: 0 <= i < |pool| && Qualifies(s, pool[i], urgent, asked) ==> Priority(s, pool[i], asked) <= Priority(s, pool[k], asked))
    && (forall i :: 0 <= i < k && Qualifies(s, pool[i], urgent, asked) ==> Priority(s, pool[i], asked) < Priority(s, pool[k], asked))
  }

  lemma StillBest(s: State, pool: seq<Companion>, urgent: bool, asked: real, i: nat, k: nat)
    requires i < |pool| && IsBest(s, pool[..i], urgent, asked, k)
    requires Qualifies(s, pool[i], urgent, asked) ==> Priority(s, pool[i], asked) <= Priority(s, pool[k], asked)
    ensures IsBest(s, pool[..i + 1], urgent, asked, k)
  {
    hide Qualifies, Priority;
    assert pool[..i + 1] == pool[..i] + [pool[i]];
  }

  lemma BetterNow(s: State, pool: seq<Companion>, urgent: bool, asked: real, i: nat, k: nat)
    requires i < |pool| && Qualifies(s, pool[i], urgent, asked)
    requires (forall j :: 0 <= j < i ==> !Qualifies(s, pool[j], urgent, asked))
      || (IsBest(s, pool[..i], urgent, asked, k) && Priority(s, pool[i], asked) > Priority(s, pool[k], asked))
    ensures IsBest(s, pool[..i + 1], urgent, asked, i)
  {
    hide Qualifies, Priority;
    assert pool[..i + 1] == pool[..i] + [pool[i]];
  }

  /** The most urgent companion with a free lane that qualifies. */
  ghost predicate Chosen(s: State, companions: seq<Companion>, parallel: nat, urgent: bool, asked: real, c: Companion) {
    && c in companions && Free(s, LaneOf(c), parallel) && Qualifies(s, c, urgent, asked)
    && forall d :: d in companions && Free(s, LaneOf(d), parallel) && Qualifies(s, d, urgent, asked) ==>
         Priority(s, d, asked) <= Priority(s, c, asked)
  }

  /** Who qualifies, and how urgently, is read off the selves alone. */
  lemma SameMinds(s: State, t: State, c: Companion, urgent: bool, asked: real)
    requires s.minds == t.minds
    ensures Qualifies(s, c, urgent, asked) == Qualifies(t, c, urgent, asked) && Priority(s, c, asked) == Priority(t, c, asked)
  {
    hide Wants;
    assert Mind(s, c.npc) == Mind(t, c.npc);
  }

  lemma ChosenFrom(s: State, t: State, companions: seq<Companion>, pool: seq<Companion>, parallel: nat, urgent: bool, asked: real, k: nat)
    requires s.minds == t.minds && IsBest(t, pool, urgent, asked, k)
    requires forall c :: c in pool <==> c in companions && Free(s, LaneOf(c), parallel)
    ensures Chosen(s, companions, parallel, urgent, asked, pool[k])
  {
    hide Qualifies, Priority, Free;
    SameMinds(s, t, pool[k], urgent, asked);
    assert pool[k] in pool;
    forall d | d in companions && Free(s, LaneOf(d), parallel) && Qualifies(s, d, urgent, asked)
      ensures Priority(s, d, asked) <= Priority(s, pool[k], asked)
    {
      SameMinds(s, t, d, urgent, asked);
      assert d in pool;
      var i :| 0 <= i < |pool| && pool[i] == d;
    }
  }

  /** How the turns move in one pass at `now`: a companion gets its first turn, or starts thinking and gets the
      next one after the interval. */
  ghost predicate TurnsMove(before: map<string, real>, after: map<string, real>, now: real, delay: real, started: set<string>) {
    && (forall npc :: npc in before ==> npc in after)
    && forall npc :: npc in after ==>
         || (npc in before && after[npc] == before[npc])
         || (npc !in before && after[npc] == now + delay)
         || (after[npc] == now + THINK_INTERVAL && "npc:" + npc in started)
  }

  /** Nobody was started ahead of somebody whose turn came earlier and who was left waiting. */
  ghost predicate EarliestFirst(eligible: seq<Companion>, next: map<string, real>, now: real, before: set<string>, after: set<string>) {
    forall c, d ::
      c in eligible && d in eligible && Waited(c, next, now) && Waited(d, next, now) && LaneOf(c) in after - before && LaneOf(d) !in after ==>
        next[c.npc] <= next[d.npc]
  }

  predicate Waited(c: Companion, next: map<string, real>, now: real) {
    c.npc in next && now >= next[c.npc]
  }

  lemma EarliestStarted(eligible: seq<Companion>, due: seq<Companion>, i: nat, next: map<string, real>, now: real,
                        before: set<string>, after: set<string>, free: bool)
    requires i <= |due| && Ascending(due, next) && before <= after
    requires forall c :: c in due <==> c in eligible && Waited(c, next, now) && LaneOf(c) !in before && free
    requires forall j :: 0 <= j < i ==> LaneOf(due[j]) in after
    requires forall lane :: lane in after ==> lane in before || Started(due, i, lane)
    ensures EarliestFirst(eligible, next, now, before, after)
  {
    forall c, d | c in eligible && d in eligible && Waited(c, next, now) && Waited(d, next, now)
      && LaneOf(c) in after - before && LaneOf(d) !in after ensures next[c.npc] <= next[d.npc]
    {
      var j :| 0 <= j < i && LaneOf(c) == LaneOf(due[j]);
      assert LaneOf(c)[4..] == c.npc && LaneOf(due[j])[4..] == due[j].npc;
      assert due[j] in due && free;
      assert d in due;
      var k :| 0 <= k < |due| && due[k] == d;
      assert k >= i;
    }
  }

  lemma TurnsKept(before: map<string, real>, after: map<string, real>, now: real, delay: real, started: set<string>, more: set<string>, moved: bool)
    requires if moved then TurnsMove(before, after, now, delay, started) else after == before
    requires started <= more
    ensures TurnsMove(before, after, now, delay, more)
  {}

  lemma KeysGrow(a: map<string, Thought>, b: map<string, Thought>)
    requires a.Keys <= b.Keys
    ensures |a| <= |b|
  {
    assert b.Keys == a.Keys + (b.Keys - a.Keys);
    assert |a| == |a.Keys| && |b| == |b.Keys|;
  }

  /** What a thought that finished did to the self it is about. */
  datatype Result = Result(purpose: bool, top: real, turn: Option<real>)

  /** Companions in the order of their next turn; ties keep their order. */
  function InsertDue(c: Companion, cs: seq<Companion>, next: map<string, real>): (r: seq<Companion>)
    requires c.npc in next && forall d :: d in cs ==> d.npc in next
    ensures multiset(r) == multiset(cs) + multiset{c}
  {
    if cs == [] || next[c.npc] <= next[cs[0].npc] then [c] + cs
    else
      assert cs == [cs[0]] + cs[1..];
      [cs[0]] + InsertDue(c, cs[1..], next)
  }

  function SortDue(cs: seq<Companion>, next: map<string, real>): (r: seq<Companion>)
    requires forall d :: d in cs ==> d.npc in next
    ensures multiset(r) == multiset(cs)
  {
    if cs == [] then []
    else
      assert cs == [cs[0]] + cs[1..];
      assert forall d :: d in SortDue(cs[1..], next) ==> d in multiset(cs[1..]);
      InsertDue(cs[0], SortDue(cs[1..], next), next)
  }

  ghost predicate Ascending(cs: seq<Companion>, next: map<string, real>) {
    (forall d :: d in cs ==> d.npc in next)
    && forall i, j :: 0 <= i < j < |cs| ==> next[cs[i].npc] <= next[cs[j].npc]
  }

  lemma Ahead(c: Companion, cs: seq<Companion>, next: map<string, real>)
    requires c.npc in next && Ascending(cs, next)
    requires forall d :: d in cs ==> next[c.npc] <= next[d.npc]
    ensures Ascending([c] + cs, next)
  {
    var r := [c] + cs;
    forall i, j | 0 <= i < j < |r| ensures next[r[i].npc] <= next[r[j].npc] {
      assert r[j] == cs[j - 1];
      if i > 0 { assert r[i] == cs[i - 1]; }
    }
  }

  lemma {:induction false} InsertKeepsOrder(c: Companion, cs: seq<Companion>, next: map<string, real>)
    requires c.npc in next && Ascending(cs, next)
    ensures Ascending(InsertDue(c, cs, next), next)
  {
    if cs == [] || next[c.npc] <= next[cs[0].npc] {
      Ahead(c, cs, next);
    } else {
      InsertKeepsOrder(c, cs[1..], next);
      var rest := InsertDue(c, cs[1..], next);
      forall d | d in rest ensures next[cs[0].npc] <= next[d.npc] {
        assert d in multiset(rest);
        assert d == c || d in cs[1..];
      }
      hide InsertDue;
      Ahead(cs[0], rest, next);
    }
  }

  ghost predicate Distinct(cs: seq<Companion>) {
    forall i, j :: 0 <= i < j < |cs| ==> cs[i].npc != cs[j].npc
  }

  lemma {:induction false} InsertKeepsDistinct(c: Companion, cs: seq<Companion>, next: map<string, real>)
    requires c.npc in next && (forall d :: d in cs ==> d.npc in next && d.npc != c.npc) && Distinct(cs)
    ensures Distinct(InsertDue(c, cs, next))
  {
    if !(cs == [] || next[c.npc] <= next[cs[0].npc]) {
      InsertKeepsDistinct(c, cs[1..], next);
      var rest := InsertDue(c, cs[1..], next);
      forall i | 0 <= i < |rest| ensures rest[i].npc != cs[0].npc {
        assert rest[i] in multiset(rest);
        assert rest[i] == c || rest[i] in cs[1..];
      }
    }
  }

  lemma {:induction false} SortKeepsDistinct(cs: seq<Companion>, next: map<string, real>)
    requires (forall d :: d in cs ==> d.npc in next) && Distinct(cs)
    ensures Distinct(SortDue(cs, next))
  {
    if cs != [] {
      SortKeepsDistinct(cs[1..], next);
      var rest := SortDue(cs[1..], next);
      forall d | d in rest ensures d.npc in next && d.npc != cs[0].npc {
        assert d in multiset(rest);
        assert d in cs[1..];
      }
      InsertKeepsDistinct(cs[0], rest, next);
    }
  }

  lemma {:induction false} SortGivesOrder(cs: seq<Companion>, next: map<string, real>)
    requires forall d :: d in cs ==> d.npc in next
    ensures Ascending(SortDue(cs, next), next)
  {
    if cs != [] {
      SortGivesOrder(cs[1..], next);
      InsertKeepsOrder(cs[0], SortDue(cs[1..], next), next);
    }
  }

  /** One of the first i companions owns this lane. */
  ghost predicate Started(due: seq<Companion>, i: nat, lane: string)
    requires i <= |due|
  {
    exists j :: 0 <= j < i && lane == LaneOf(due[j])
  }

  lemma StartedLater(due: seq<Companion>, i: nat)
    requires i < |due|
    ensures Started(due, i + 1, LaneOf(due[i]))
    ensures forall lane :: Started(due, i, lane) ==> Started(due, i + 1, lane)
  {}

  lemma NotStarted(due: seq<Companion>, i: nat)
    requires i < |due| && Distinct(due)
    ensures !Started(due, i, LaneOf(due[i]))
  {
    forall j | 0 <= j < i ensures LaneOf(due[j]) != LaneOf(due[i]) {
      assert LaneOf(due[j])[4..] == due[j].npc && LaneOf(due[i])[4..] == due[i].npc;
    }
  }

  lemma Extend(start: State, actions: seq<Action>, a: Action, parallel: nat)
    requires Legal(start, actions, parallel) && Enabled(Run(start, actions), a, parallel)
    ensures Legal(start, actions + [a], parallel)
    ensures Run(start, actions + [a]) == Next(Run(start, actions), a)
  {
    var more := actions + [a];
    assert more[..|actions|] == actions;
    assert forall k :: 0 <= k < |actions| ==> more[..k] == actions[..k] && more[k] == actions[k];
    hide Enabled, Next;
  }

  class Service {
    const parallel: nat
    var thinkJobs: map<string, Thought>
    var minds: map<string, Mindset>
    var time: real
    var nextThink: map<string, real>
    var journalQueue: seq<string>
    ghost var log: seq<(string, real)>
    /** The run of the scheduler this object has gone through. */
    ghost const start: State
    ghost var actions: seq<Action>

    constructor (parallel: nat, stored: map<string, Mindset>, now: real)
      ensures Valid() && this.parallel == parallel && minds == stored && thinkJobs == map[]
    {
      this.parallel := parallel;
      thinkJobs, minds, time, nextThink, journalQueue := map[], stored, now, map[], [];
      log, actions := [], [];
      start := State.State(map[], stored, now, []);
    }

    ghost function Now(): (r: State)
      reads this
    {
      State.State(thinkJobs, minds, time, log)
    }

    ghost predicate Valid()
      reads this
    {
      Start(start) && Legal(start, actions, parallel) && Run(start, actions) == Now()
    }

    predicate LaneFree(lane: string)
      reads this
      ensures LaneFree(lane) <==> Free(Now(), lane, parallel)
    {
      lane !in thinkJobs && |thinkJobs| < parallel
    }

    /** The clock never goes back; how far it moves is not known. */
    method Clock() returns (now: real)
      requires Valid()
      modifies this`time, this`actions
      ensures Valid() && now == time >= old(time) && actions == old(actions) + [Action.Clock(now)]
    {
      hide Run, Legal, Start;
      var d: real :| d >= 0.0;
      Extend(start, actions, Action.Clock(time + d), parallel);
      actions := actions + [Action.Clock(time + d)];
      time := time + d;
      now := time;
    }

    method SubmitThink(t: Thought)
      requires Valid() && !t.kind.Reflect? && LaneFree(Lane(t))
      modifies this`thinkJobs, this`actions
      ensures Valid() && thinkJobs == old(thinkJobs)[Lane(t) := t] && actions == old(actions) + [Submit(t)]
    {
      hide Run, Legal, Start;
      Extend(start, actions, Submit(t), parallel);
      actions := actions + [Submit(t)];
      thinkJobs := thinkJobs[Lane(t) := t];
    }

    /** The slot is claimed in the self before the thought is handed over. */
    method SubmitReflect(npc: string, ghost asked: real)
      requires Valid() && Enabled(Now(), Action.SubmitReflect(npc, asked), parallel)
      modifies this`thinkJobs, this`minds, this`time, this`log, this`actions
      ensures Valid() && thinkJobs == old(thinkJobs)["npc:" + npc := Thought(Reflect, npc)]
      ensures old(actions) <= actions && log == old(log) + [(npc, time)] && time >= old(time)
      ensures minds == old(minds)[npc := Mind(old(Now()), npc).(last := time)]
    {
      hide Run, Legal, Start, Wants;
      var now := Clock();
      ghost var a := Action.SubmitReflect(npc, asked);
      Extend(start, actions, a, parallel);
      var mind := if npc in minds then minds[npc] else Mindset(0.0, false, 0.0);
      minds := minds[npc := mind.(last := now)];
      log := log + [(npc, now)];
      thinkJobs := thinkJobs["npc:" + npc := Thought(Reflect, npc)];
      actions := actions + [a];
    }

    method ReflectCandidate(pool: seq<Companion>, urgent: bool) returns (best: Option<Companion>, ghost asked: real)
      requires Valid()
      modifies this`time, this`actions
      ensures Valid() && old(actions) <= actions && asked == time >= old(time)
      ensures best.None? ==> forall i :: 0 <= i < |pool| ==> !Qualifies(Now(), pool[i], urgent, asked)
      ensures best.Some? ==> exists k: nat :: IsBest(Now(), pool, urgent, asked, k) && best.value == pool[k]
    {
      hide Run, Legal, Start, Wants, IsBest;
      var now := Clock();
      asked := now;
      best := None;
      ghost var at := 0;
      var top := 0.0;
      var i := 0;
      while i < |pool|
        invariant 0 <= i <= |pool|
        invariant Valid() && actions == old(actions) + [Action.Clock(asked)] && time == asked == now
        invariant best.None? ==> forall j :: 0 <= j < i ==> !Qualifies(Now(), pool[j], urgent, asked)
        invariant best.Some? ==> IsBest(Now(), pool[..i], urgent, asked, at)
        invariant best.Some? ==> at < i && best.value == pool[at] && top == Priority(Now(), pool[at], asked)
      {
        var c := pool[i];
        var mind := if c.npc in minds then minds[c.npc] else Mindset(0.0, false, 0.0);
        var (wants, priority) := Wants(mind.last, mind.purpose, mind.top, now);
        assert Qualifies(Now(), c, urgent, asked) ==> priority == Priority(Now(), c, asked);
        if c.ready && wants && !(urgent && priority < WAKE_IMPORTANCE) && !(!urgent && priority >= WAKE_IMPORTANCE) {
          if best.None? || priority > top {
            BetterNow(Now(), pool, urgent, asked, i, at);
            best, top, at := Some(c), priority, i;
          } else {
            StillBest(Now(), pool, urgent, asked, i, at);
          }
        } else if best.Some? {
          StillBest(Now(), pool, urgent, asked, i, at);
        }
        i := i + 1;
      }
      assert pool[..|pool|] == pool;
    }

    method Pool(companions: seq<Companion>) returns (pool: seq<Companion>)
      ensures forall c :: c in pool <==> c in companions && LaneFree(LaneOf(c))
    {
      pool := [];
      var i := 0;
      while i < |companions|
        invariant 0 <= i <= |companions|
        invariant forall c :: c in pool <==> c in companions[..i] && LaneFree(LaneOf(c))
      {
        assert companions[..i + 1] == companions[..i] + [companions[i]];
        if LaneFree("npc:" + companions[i].npc) {
          pool := pool + [companions[i]];
        }
        i := i + 1;
      }
      assert companions[..i] == companions;
    }

    /** One reflection of this companion was submitted at the present reading, and claimed in its self. */
    twostate predicate Reflecting(c: Companion)
      reads this
    {
      thinkJobs == old(thinkJobs)[LaneOf(c) := Thought(Reflect, c.npc)] && log == old(log) + [(c.npc, time)]
      && minds == old(minds)[c.npc := Mind(old(Now()), c.npc).(last := time)]
    }

    /** One round: submit the best candidate among the companions with a free lane, if there is one. */
    method ReflectOnce(companions: seq<Companion>, urgent: bool) returns (more: bool, ghost asked: real)
      requires Valid()
      modifies this`thinkJobs, this`minds, this`time, this`log, this`actions
      ensures Valid() && old(actions) <= actions && time >= old(time)
      ensures old(thinkJobs.Keys) <= thinkJobs.Keys
      ensures Reflections(old(thinkJobs), thinkJobs) && old(log) <= log
      ensures more ==> |thinkJobs| == |old(thinkJobs)| + 1 <= parallel
      ensures more ==> exists c :: Chosen(old(Now()), companions, parallel, urgent, asked, c) && Reflecting(c)
      ensures !more ==> thinkJobs == old(thinkJobs) && minds == old(minds) && log == old(log)
      ensures !more ==> asked == time && forall c :: c in companions && LaneFree(LaneOf(c)) ==> !Qualifies(Now(), c, urgent, asked)
    {
      hide Run, Legal, Start, Wants;
      var pool := Pool(companions);
      var best;
      best, asked := ReflectCandidate(pool, urgent);
      if best.None? {
        forall c | c in companions && LaneFree(LaneOf(c)) ensures !Qualifies(Now(), c, urgent, asked) {
          assert c in pool;
        }
        return false, asked;
      }
      ghost var k: nat :| IsBest(Now(), pool, urgent, asked, k) && best.value == pool[k];
      ChosenFrom(old(Now()), Now(), companions, pool, parallel, urgent, asked, k);
      assert Qualifies(Now(), best.value, urgent, asked) && best.value in pool;
      assert LaneFree(LaneOf(best.value));
      SubmitReflect(best.value.npc, asked);
      more := true;
    }

    /** The unbounded loop of one urgency: every round fills a free lane, so there are at most as many rounds
        as free lanes, and at the end nobody with a free lane still qualifies. */
    method StartReflections(companions: seq<Companion>, urgent: bool) returns (ghost asked: real)
      requires Valid()
      modifies this`thinkJobs, this`minds, this`time, this`log, this`actions
      ensures Valid() && old(actions) <= actions && asked == time >= old(time)
      ensures old(thinkJobs.Keys) <= thinkJobs.Keys
      ensures Reflections(old(thinkJobs), thinkJobs) && old(log) <= log
      ensures forall c :: c in companions && LaneFree(LaneOf(c)) ==> !Qualifies(Now(), c, urgent, asked)
    {
      hide *;
      NoReflections(thinkJobs);
      while true
        invariant Valid() && old(actions) <= actions && time >= old(time)
        invariant old(thinkJobs.Keys) <= thinkJobs.Keys
        invariant Reflections(old(thinkJobs), thinkJobs) && old(log) <= log
        decreases parallel - |thinkJobs|
      {
        var more;
        ghost var jobs := thinkJobs;
        more, asked := ReflectOnce(companions, urgent);
        ReflectionsMore(old(thinkJobs), jobs, thinkJobs);
        if !more {
          break;
        }
      }
    }

    /** A companion that has not had a turn yet gets its first one after the initial delay. */
    method SetDefaults(eligible: seq<Companion>, first: real)
      requires Valid()
      modifies this`nextThink
      ensures Valid()
      ensures forall c :: c in eligible ==> c.npc in nextThink
      ensures forall npc :: npc in old(nextThink) ==> npc in nextThink && nextThink[npc] == old(nextThink)[npc]
      ensures forall npc :: npc in nextThink && npc !in old(nextThink) ==> nextThink[npc] == first
    {
      var i := 0;
      while i < |eligible|
        invariant 0 <= i <= |eligible|
        invariant Valid()
        invariant forall j :: 0 <= j < i ==> eligible[j].npc in nextThink
        invariant forall npc :: npc in old(nextThink) ==> npc in nextThink && nextThink[npc] == old(nextThink)[npc]
        invariant forall npc :: npc in nextThink && npc !in old(nextThink) ==> nextThink[npc] == first
      {
        if eligible[i].npc !in nextThink {
          nextThink := nextThink[eligible[i].npc := first];
        }
        i := i + 1;
      }
    }

    /** One think turn: the companion's cooling steps are skipped, which may end its goal. */
    method StartThink(c: Companion, now: real)
      requires Valid() && LaneFree(LaneOf(c))
      modifies this`thinkJobs, this`minds, this`nextThink, this`actions
      ensures Valid() && old(actions) <= actions
      ensures thinkJobs == old(thinkJobs)[LaneOf(c) := Thought(Think, c.npc)]
      ensures nextThink == old(nextThink)[c.npc := now + THINK_INTERVAL]
      ensures minds == old(minds)[c.npc := Mind(old(Now()), c.npc).(purpose := Mind(Now(), c.npc).purpose)]
    {
      hide Run, Legal, Start;
      var mind := if c.npc in minds then minds[c.npc] else Mindset(0.0, false, 0.0);
      var purpose: bool := *;
      Extend(start, actions, News(c.npc, purpose, mind.top), parallel);
      minds := minds[c.npc := mind.(purpose := purpose)];
      actions := actions + [News(c.npc, purpose, mind.top)];
      nextThink := nextThink[c.npc := now + THINK_INTERVAL];
      SubmitThink(Thought(Think, c.npc));
    }

    /** The companions whose turn has come and whose lane is free, earliest turn first. */
    method Due(eligible: seq<Companion>, now: real) returns (due: seq<Companion>)
      requires forall c :: c in eligible ==> c.npc in nextThink
      ensures Ascending(due, nextThink) && (Distinct(eligible) ==> Distinct(due))
      ensures forall c :: c in due <==> c in eligible && now >= nextThink[c.npc] && LaneFree(LaneOf(c))
    {
      hide Free, Ascending, SortDue;
      var chosen: seq<Companion> := [];
      var i := 0;
      while i < |eligible|
        invariant 0 <= i <= |eligible|
        invariant Distinct(eligible) ==> Distinct(chosen)
        invariant forall c :: c in chosen <==> c in eligible[..i] && now >= nextThink[c.npc] && LaneFree(LaneOf(c))
      {
        assert eligible[..i + 1] == eligible[..i] + [eligible[i]];
        if now >= nextThink[eligible[i].npc] && LaneFree("npc:" + eligible[i].npc) {
          chosen := chosen + [eligible[i]];
        }
        i := i + 1;
      }
      assert eligible[..i] == eligible;
      SortGivesOrder(chosen, nextThink);
      if Distinct(eligible) {
        SortKeepsDistinct(chosen, nextThink);
      }
      due := SortDue(chosen, nextThink);
      assert forall c :: c in due <==> c in multiset(due);
    }

    /** Think turns for the companions that are due, until the lanes are full: afterwards every lane is taken, or
        every eligible companion whose turn had come is thinking or was already being thought about. */
    method StartDue(eligible: seq<Companion>, now: real)
      requires Valid() && forall c :: c in eligible ==> c.npc in nextThink
      modifies this`thinkJobs, this`minds, this`nextThink, this`actions
      ensures Valid() && old(actions) <= actions && old(thinkJobs.Keys) <= thinkJobs.Keys
      ensures Distinct(eligible) && |thinkJobs| < parallel ==>
        forall c :: c in eligible && now >= old(nextThink[c.npc]) ==> LaneOf(c) in thinkJobs
      ensures TurnsMove(old(nextThink), nextThink, now, 0.0, thinkJobs.Keys - old(thinkJobs.Keys))
      ensures nextThink.Keys == old(nextThink.Keys)
      ensures EarliestFirst(eligible, old(nextThink), now, old(thinkJobs.Keys), thinkJobs.Keys)
    {
      hide Run, Legal, Start, Ascending, LaneOf, Started, Distinct, EarliestFirst;
      var due := Due(eligible, now);
      var i := 0;
      while i < |due|
        invariant 0 <= i <= |due|
        invariant Valid() && old(actions) <= actions && old(thinkJobs.Keys) <= thinkJobs.Keys
        invariant |thinkJobs| >= |old(thinkJobs)|
        invariant forall j :: 0 <= j < i ==> LaneOf(due[j]) in thinkJobs
        invariant forall lane :: lane in thinkJobs ==> lane in old(thinkJobs) || Started(due, i, lane)
        invariant TurnsMove(old(nextThink), nextThink, now, 0.0, thinkJobs.Keys - old(thinkJobs.Keys))
        invariant nextThink.Keys == old(nextThink.Keys)
      {
        if !LaneFree(LaneOf(due[i])) {
          if Distinct(due) {
            NotStarted(due, i);
            assert due[i] in due;
            assert |thinkJobs| >= parallel;
          }
          break;
        }
        assert due[i] in due;
        StartThink(due[i], now);
        assert LaneOf(due[i]) == "npc:" + due[i].npc by { LaneIs(due[i]); }
        StartedLater(due, i);
        i := i + 1;
      }
      EarliestStarted(eligible, due, i, old(nextThink), now, old(thinkJobs.Keys), thinkJobs.Keys, |old(thinkJobs)| < parallel);
    }

    /** At most one diary page and one meeting. */
    method StartOthers(journals: bool, meeting: bool)
      requires Valid()
      modifies this`thinkJobs, this`actions, this`journalQueue
      ensures Valid() && old(actions) <= actions && old(thinkJobs.Keys) <= thinkJobs.Keys
      ensures var writes := journals && old(journalQueue) != [] && old(LaneFree("journal"));
        var jobs := if writes then old(thinkJobs)["journal" := Thought(Journal, old(journalQueue)[0])] else old(thinkJobs);
        && journalQueue == (if writes then old(journalQueue)[1..] else old(journalQueue))
        && thinkJobs == if meeting && "banter" !in jobs && |jobs| < parallel then jobs["banter" := Thought(Banter, "")] else jobs
    {
      hide Run, Legal, Start, Wants, Qualifies;
      if journalQueue != [] && LaneFree("journal") && journals {
        var npc := journalQueue[0];
        journalQueue := journalQueue[1..];
        SubmitThink(Thought(Journal, npc));
      }
      if LaneFree("banter") && meeting {
        SubmitThink(Thought(Banter, ""));
      }
    }

    twostate predicate WasDue(c: Companion)
      reads this
    {
      c.eligible && c.npc in old(nextThink) && old(time) >= old(nextThink)[c.npc]
    }

    /** The pass leaves nothing undone that a free lane would allow: nobody with one wants a quiet reflection, and
        unless the lanes are full the diary, the meeting and everyone whose turn had come are being thought about. */
    twostate predicate Worked(companions: seq<Companion>, reflects: bool, journals: bool, meeting: bool, thinks: bool)
      reads this
    {
      && (reflects ==> forall c :: c in companions && LaneFree(LaneOf(c)) ==> !Qualifies(Now(), c, false, time))
      && (|thinkJobs| < parallel ==>
          && (journals && old(journalQueue) != [] ==> "journal" in thinkJobs)
          && (meeting ==> "banter" in thinkJobs)
          && (thinks && Distinct(companions) ==> forall c :: c in companions && WasDue(c) ==> LaneOf(c) in thinkJobs))
    }

    /** Something important that just happened is thought about before anything else. */
    method StartUrgent(companions: seq<Companion>, reflects: bool)
      requires Valid()
      modifies this`thinkJobs, this`minds, this`time, this`log, this`actions
      ensures Valid() && old(actions) <= actions && time >= old(time) && old(thinkJobs.Keys) <= thinkJobs.Keys
      ensures UrgentFirst(companions, reflects, old(thinkJobs), old(log), Now(), log, parallel)
    {
      hide Run, Legal, Start, Qualifies, Wants, LaneOf, Reflections;
      NoReflections(thinkJobs);
      if reflects {
        ghost var asked := StartReflections(companions, true);
      }
    }

    /** The diary, the meeting and the think turns at one reading of the clock. */
    method StartQuiet(companions: seq<Companion>, journals: bool, meeting: bool, thinks: bool, now: real, delay: real)
      requires Valid()
      modifies this`thinkJobs, this`minds, this`actions, this`nextThink, this`journalQueue
      ensures Valid() && old(actions) <= actions && old(thinkJobs.Keys) <= thinkJobs.Keys
      ensures |thinkJobs| < parallel ==>
        && (journals && old(journalQueue) != [] ==> "journal" in thinkJobs)
        && (meeting ==> "banter" in thinkJobs)
        && (thinks && Distinct(companions) ==>
              forall c :: c in companions && c.eligible && c.npc in old(nextThink) && now >= old(nextThink)[c.npc] ==> LaneOf(c) in thinkJobs)
      ensures TurnsMove(old(nextThink), nextThink, now, delay, thinkJobs.Keys - old(thinkJobs.Keys))
    {
      hide Run, Legal, Start, Qualifies, Wants, LaneOf, Distinct, TurnsMove, Mind;
      StartOthers(journals, meeting);
      ghost var others := thinkJobs;
      if thinks {
        ThinkTurns(companions, now, delay);
      }
      KeysGrow(others, thinkJobs);
      TurnsKept(old(nextThink), nextThink, now, delay, thinkJobs.Keys - others.Keys, thinkJobs.Keys - old(thinkJobs.Keys), thinks);
    }

    /** One pass over the lanes: urgent reflections, a diary page, a meeting, think turns, quiet reflections. */
    method StartThoughts(companions: seq<Companion>, reflects: bool, journals: bool, meeting: bool, thinks: bool, delay: real)
      returns (ghost first: State)
      requires Valid()
      modifies this`thinkJobs, this`minds, this`time, this`log, this`actions, this`nextThink, this`journalQueue
      ensures Valid() && old(actions) <= actions && old(thinkJobs.Keys) <= thinkJobs.Keys
      ensures UrgentFirst(companions, reflects, old(thinkJobs), old(log), first, log, parallel) && first.jobs.Keys <= thinkJobs.Keys
      ensures Worked(companions, reflects, journals, meeting, thinks)
      ensures exists now :: old(time) <= now <= time && TurnsMove(old(nextThink), nextThink, now, delay, thinkJobs.Keys - old(thinkJobs.Keys))
    {
      hide Run, Legal, Start, Qualifies, Wants, LaneOf, Distinct, TurnsMove, UrgentFirst, Reflections, Mind;
      var now := Clock();
      StartUrgent(companions, reflects);
      first := Now();
      StartQuiet(companions, journals, meeting, thinks, now, delay);
      ghost var turns, mid := thinkJobs, log;
      if reflects {
        ghost var asked := StartReflections(companions, false);
      }
      UrgentStays(companions, reflects, old(thinkJobs), old(log), first, mid, log, parallel);
      KeysGrow(turns, thinkJobs);
      TurnsKept(old(nextThink), nextThink, now, delay, turns.Keys - first.jobs.Keys, thinkJobs.Keys - old(thinkJobs.Keys), true);
    }

    /** Think turns for all eligible companions. */
    method ThinkTurns(companions: seq<Companion>, now: real, delay: real)
      requires Valid()
      modifies this`thinkJobs, this`minds, this`nextThink, this`actions
      ensures Valid() && old(actions) <= actions && old(thinkJobs.Keys) <= thinkJobs.Keys
      ensures Distinct(companions) && |thinkJobs| < parallel ==>
        forall c :: c in companions && c.eligible && c.npc in old(nextThink) && now >= old(nextThink)[c.npc] ==> LaneOf(c) in thinkJobs
      ensures TurnsMove(old(nextThink), nextThink, now, delay, thinkJobs.Keys - old(thinkJobs.Keys))
    {
      hide Run, Legal, Start, Distinct, LaneOf;
      var eligible := Eligible(companions);
      SetDefaults(eligible, now + delay);
      StartDue(eligible, now);
    }

    method Eligible(companions: seq<Companion>) returns (r: seq<Companion>)
      ensures forall c :: c in r <==> c in companions && c.eligible
      ensures Distinct(companions) ==> Distinct(r)
    {
      r := [];
      var i := 0;
      while i < |companions|
        invariant 0 <= i <= |companions|
        invariant forall c :: c in r <==> c in companions[..i] && c.eligible
        invariant Distinct(companions) ==> Distinct(r)
      {
        assert companions[..i + 1] == companions[..i] + [companions[i]];
        if companions[i].eligible {
          r := r + [companions[i]];
        }
        i := i + 1;
      }
      assert companions[..i] == companions;
    }

    /** A finished lane is emptied. A reflection that came back is folded into the self at a new reading; a think
        turn that came back may have moved the plan on; both may set the next turn. */
    method FinishLane(lane: string, failed: bool, result: Result)
      requires Valid() && lane in thinkJobs
      modifies this`thinkJobs, this`minds, this`time, this`actions, this`nextThink
      ensures Valid() && old(actions) <= actions && thinkJobs == old(thinkJobs) - {lane} && time >= old(time)
      ensures var t := old(thinkJobs[lane]);
        && minds == (if failed || t.kind.Journal? || t.kind.Banter? then old(minds)
                     else if t.kind.Reflect? then old(minds)[t.npc := Mindset(time, result.purpose, 0.0)]
                     else old(minds)[t.npc := Mind(old(Now()), t.npc).(purpose := result.purpose, top := result.top)])
        && nextThink == (if failed || t.kind.Journal? || t.kind.Banter? || result.turn.None? then old(nextThink)
                         else old(nextThink)[t.npc := result.turn.value])
    {
      hide Run, Legal, Start, Wants;
      var t := thinkJobs[lane];
      Extend(start, actions, Done(lane), parallel);
      actions := actions + [Done(lane)];
      thinkJobs := thinkJobs - {lane};
      if !failed && t.kind.Reflect? {
        var now := Clock();
        Extend(start, actions, Reflected(t.npc, result.purpose), parallel);
        actions := actions + [Reflected(t.npc, result.purpose)];
        minds := minds[t.npc := Mindset(now, result.purpose, 0.0)];
        SetTurn(t.npc, result.turn);
      } else if !failed && t.kind.Think? {
        TakeNews(t.npc, result);
      }
    }

    method TakeNews(npc: string, result: Result)
      requires Valid()
      modifies this`minds, this`actions, this`nextThink
      ensures Valid() && old(actions) <= actions
      ensures minds == old(minds)[npc := Mind(old(Now()), npc).(purpose := result.purpose, top := result.top)]
      ensures nextThink == if result.turn.None? then old(nextThink) else old(nextThink)[npc := result.turn.value]
    {
      hide Run, Legal, Start, Wants;
      Extend(start, actions, News(npc, result.purpose, result.top), parallel);
      actions := actions + [News(npc, result.purpose, result.top)];
      var mind := if npc in minds then minds[npc] else Mindset(0.0, false, 0.0);
      minds := minds[npc := mind.(purpose := result.purpose, top := result.top)];
      SetTurn(npc, result.turn);
    }

    method SetTurn(npc: string, turn: Option<real>)
      modifies this`nextThink
      ensures nextThink == if turn.None? then old(nextThink) else old(nextThink)[npc := turn.value]
    {
      if turn.Some? {
        nextThink := nextThink[npc := turn.value];
      }
    }

    /** A tick empties the finished lanes; only a tick without any starts new thoughts. */
    method ThinkTick(lanes: seq<string>, done: set<string>, failed: set<string>, results: string -> Result,
                     busy: bool, companions: seq<Companion>, reflects: bool, journals: bool, meeting: bool,
                     thinks: bool, delay: real)
      requires Valid() && (forall lane :: lane in lanes <==> lane in thinkJobs)
      requires forall i, j :: 0 <= i < j < |lanes| ==> lanes[i] != lanes[j]
      modifies this`thinkJobs, this`minds, this`time, this`log, this`actions, this`nextThink, this`journalQueue
      ensures Valid() && old(actions) <= actions
      ensures old(thinkJobs.Keys) * done != {} || busy ==>
        thinkJobs == old(thinkJobs) - done && log == old(log) && journalQueue == old(journalQueue)
      ensures old(thinkJobs.Keys) * done == {} && !busy ==>
        old(thinkJobs.Keys) <= thinkJobs.Keys && Worked(companions, reflects, journals, meeting, thinks)
    {
      hide Run, Legal, Start, Wants, Qualifies, LaneOf, Distinct, TurnsMove;
      var finished := {};
      var i := 0;
      while i < |lanes|
        invariant 0 <= i <= |lanes|
        invariant Valid() && old(actions) <= actions && log == old(log) && journalQueue == old(journalQueue)
        invariant finished == set k | 0 <= k < i && lanes[k] in done :: lanes[k]
        invariant thinkJobs == old(thinkJobs) - finished
        invariant finished == {} ==> time == old(time) && nextThink == old(nextThink)
      {
        if lanes[i] in done {
          assert lanes[i] in old(thinkJobs) && lanes[i] !in finished;
          FinishLane(lanes[i], lanes[i] in failed, results(lanes[i]));
          finished := finished + {lanes[i]};
        }
        i := i + 1;
      }
      assert finished == old(thinkJobs.Keys) * done;
      assert old(thinkJobs) - finished == old(thinkJobs) - done;
      if finished != {} || busy {
        return;
      }
      ghost var first := StartThoughts(companions, reflects, journals, meeting, thinks, delay);
    }
  }
}
