/** The chatter governor and the stored log it reads (goblin_zomboid/social.py, goblin_zomboid/memory.py). */
module Chatter {
  import opened Common

  const HOUR := 3600
  const URGENT := 3

  /** A recorded line; `high` marks a priority of 3 or more. Rows are in the order of their ids. */
  datatype Line = Line(at: int, key: string, high: bool)

  datatype Limits = Limits(minInterval: int, eventInterval: int, hourly: int)

  datatype Decision = Allowed | HourlyLimit | GlobalCooldown | EventCooldown

  // ---- chatter_since: the lines not older than a time, by time and id

  function Insert(l: Line, sorted: seq<Line>): (r: seq<Line>)
    ensures multiset(r) == multiset(sorted) + multiset{l}
  {
    if sorted == [] || l.at < sorted[0].at then [l] + sorted
    else
      assert sorted == [sorted[0]] + sorted[1..];
      [sorted[0]] + Insert(l, sorted[1..])
  }

  function Since(log: seq<Line>, since: int): (r: seq<Line>) {
    if log == [] then []
    else
      var front, last := Since(log[..|log| - 1], since), log[|log| - 1];
      if last.at >= since then Insert(last, front) else front
  }

  ghost predicate Ordered(s: seq<Line>) {
    forall i, j :: 0 <= i < j < |s| ==> s[i].at <= s[j].at
  }

  lemma {:induction false} InsertOrdered(l: Line, sorted: seq<Line>)
    requires Ordered(sorted)
    ensures Ordered(Insert(l, sorted))
  {
    if !(sorted == [] || l.at < sorted[0].at) {
      InsertOrdered(l, sorted[1..]);
      var rest := Insert(l, sorted[1..]);
      forall j | 0 <= j < |rest| ensures sorted[0].at <= rest[j].at {
        assert rest[j] in multiset(rest);
        assert rest[j] == l || rest[j] in sorted[1..];
      }
    }
  }

  function Count(log: seq<Line>, low: int, high: int): (n: nat)
    ensures n <= |log|
  {
    if log == [] then 0
    else Count(log[..|log| - 1], low, high) + if low <= log[|log| - 1].at <= high then 1 else 0
  }

  function CountSince(log: seq<Line>, since: int): (n: nat) {
    if log == [] then 0
    else CountSince(log[..|log| - 1], since) + if log[|log| - 1].at >= since then 1 else 0
  }

  /** The query gives exactly the lines from that time on, ordered, so its last row is the latest. */
  lemma {:induction false} SinceIs(log: seq<Line>, since: int)
    ensures Ordered(Since(log, since)) && |Since(log, since)| == CountSince(log, since)
    ensures forall l :: l in Since(log, since) <==> l in log && l.at >= since
  {
    if log != [] {
      var front, last := log[..|log| - 1], log[|log| - 1];
      assert log == front + [last];
      SinceIs(front, since);
      if last.at >= since {
        InsertOrdered(last, Since(front, since));
        var r := Insert(last, Since(front, since));
        assert |r| == |multiset(r)|;
        forall l ensures l in r <==> l in Since(front, since) || l == last {
          assert l in r <==> l in multiset(r);
        }
      }
    }
  }

  // ---- the decision

  /** What the governor decides at this reading of the clock. */
  ghost function Decide(log: seq<Line>, c: Limits, key: string, current: int, priority: int): (d: Decision) {
    if CountSince(log, current - HOUR) >= c.hourly && priority < URGENT then HourlyLimit
    else if priority < URGENT && exists l :: l in log && l.at >= current - HOUR && current - l.at < c.minInterval then GlobalCooldown
    else if exists l :: l in log && l.at >= current - HOUR && l.key == key && current - l.at < c.eventInterval then EventCooldown
    else Allowed
  }

  /** The places of the lines from that time on. */
  function Recent(log: seq<Line>, since: int): (r: set<nat>) {
    set i: nat | i < |log| && log[i].at >= since
  }

  lemma RecentMore(front: seq<Line>, last: Line, since: int)
    ensures |front| !in Recent(front, since)
    ensures Recent(front + [last], since) == if last.at >= since then Recent(front, since) + {|front|} else Recent(front, since)
  {}

  /** Exactly these lines count towards the hour. */
  lemma {:induction false} CountSinceIs(log: seq<Line>, since: int)
    ensures CountSince(log, since) == |Recent(log, since)|
  {
    if log == [] {
      assert Recent(log, since) == {};
    } else {
      var front, last := log[..|log| - 1], log[|log| - 1];
      assert log == front + [last];
      CountSinceIs(front, since);
      RecentMore(front, last, since);
      hide Recent;
    }
  }

  /** A line is spoken exactly if no line of its event came within the event interval, and, unless it is urgent, the hour
      before has room and no line came within the minimal interval; only the last hour is looked at. Urgent lines pass a
      full hour and a fresh line of another event. */
  lemma AllowedIff(log: seq<Line>, c: Limits, key: string, current: int, priority: int)
    ensures Decide(log, c, key, current, priority) == Allowed <==>
      && (forall l :: l in log && l.key == key && l.at >= current - 3600 ==> l.at <= current - c.eventInterval)
      && (priority >= 3 ||
           (&& |Recent(log, current - 3600)| < c.hourly
            && forall l :: l in log && l.at >= current - 3600 ==> l.at <= current - c.minInterval))
  {
    CountSinceIs(log, current - HOUR);
    hide CountSince;
  }

  /** Which of the refusals it is: the hour first, then the interval, then the event; urgent lines meet only the last. */
  lemma RefusedFor(log: seq<Line>, c: Limits, key: string, current: int, priority: int)
    ensures var d := Decide(log, c, key, current, priority);
      var full := |Recent(log, current - 3600)| >= c.hourly;
      var soon := exists l :: l in log && current - 3600 <= l.at && l.at > current - c.minInterval;
      var again := exists l :: l in log && l.key == key && current - 3600 <= l.at && l.at > current - c.eventInterval;
      && (d == HourlyLimit <==> priority < 3 && full)
      && (d == GlobalCooldown <==> priority < 3 && !full && soon)
      && (d == EventCooldown <==> again && (priority >= 3 || (!full && !soon)))
  {
    CountSinceIs(log, current - HOUR);
    hide CountSince;
  }

  class Governor {
    const limits: Limits
    var log: seq<Line>

    constructor (limits: Limits, log: seq<Line>)
      ensures this.limits == limits && this.log == log
    {
      this.limits, this.log := limits, log;
    }

    /** The rows of one event among the recent ones; the last of them is the latest. */
    static method SameEvent(recent: seq<Line>, key: string) returns (same: seq<Line>)
      ensures forall l :: l in same <==> l in recent && l.key == key
      ensures Ordered(recent) ==> Ordered(same)
    {
      same := [];
      var i := 0;
      while i < |recent|
        invariant 0 <= i <= |recent|
        invariant forall l :: l in same <==> l in recent[..i] && l.key == key
        invariant Ordered(recent) ==> Ordered(same)
      {
        assert recent[..i + 1] == recent[..i] + [recent[i]];
        if recent[i].key == key {
          forall j | 0 <= j < |same| && Ordered(recent) ensures same[j].at <= recent[i].at {
            assert same[j] in recent[..i];
          }
          same := same + [recent[i]];
        }
        i := i + 1;
      }
      assert recent[..i] == recent;
    }

    /** allow: only the latest of the recent lines is looked at, which is enough. */
    method Allow(key: string, current: int, priority: int) returns (d: Decision)
      ensures d == Decide(log, limits, key, current, priority)
    {
      hide Since, CountSince;
      SinceIs(log, current - HOUR);
      var recent := Since(log, current - HOUR);
      if |recent| >= limits.hourly && priority < URGENT {
        return HourlyLimit;
      }
      if recent != [] {
        var last := recent[|recent| - 1];
        LatestDecides(recent, current, limits.minInterval);
        if current - last.at < limits.minInterval && priority < URGENT {
          assert last in recent;
          return GlobalCooldown;
        }
        var same := SameEvent(recent, key);
        if same != [] {
          LatestDecides(same, current, limits.eventInterval);
          if current - same[|same| - 1].at < limits.eventInterval {
            assert same[|same| - 1] in same;
            return EventCooldown;
          }
        }
      }
      d := Allowed;
    }

    /** record: the line is stored under `now`, or under the clock if no time or the time 0 was given. */
    method Record(key: string, now: Option<int>, reading: int, laterReading: int, priority: int, speakable: bool, storable: bool)
      returns (d: Option<Decision>)
      modifies this`log
      ensures var current := if now.Some? then now.value else reading;
        var at := if now.Some? && now.value != 0 then now.value else laterReading;
        var decision := Decide(old(log), limits, key, current, priority);
        && d == (if !speakable || (decision.Allowed? && !storable) then None else Some(decision))
        && log == if speakable && decision.Allowed? && storable then old(log) + [Line(at, key, priority >= URGENT)] else old(log)
    {
      if !speakable {
        return None;
      }
      var current := if now.Some? then now.value else reading;
      var decision := Allow(key, current, priority);
      if !decision.Allowed? {
        return Some(decision);
      }
      if !storable {
        return None;
      }
      var at := if now.Some? && now.value != 0 then now.value else laterReading;
      log := log + [Line(at, key, priority >= URGENT)];
      d := Some(decision);
    }
  }

  lemma LatestDecides(s: seq<Line>, current: int, interval: int)
    requires s != [] && Ordered(s)
    ensures current - s[|s| - 1].at < interval <==> exists l :: l in s && current - l.at < interval
  {
    assert s[|s| - 1] in s;
  }

  // ---- every run

  /** One accepted call: the reading it was decided at, and the time it was stored under. */
  datatype Accepted = Accepted(key: string, current: int, at: int, priority: int)

  function LineOf(a: Accepted): (l: Line) {
    Line(a.at, a.key, a.priority >= URGENT)
  }

  function Log(run: seq<Accepted>): (r: seq<Line>)
    ensures |r| == |run|
  {
    seq(|run|, i requires 0 <= i < |run| => LineOf(run[i]))
  }

  /** Each call was allowed by the log before it, and stored no earlier than it was decided. The clock may go back. */
  ghost predicate Legal(run: seq<Accepted>, c: Limits) {
    forall k :: 0 <= k < |run| ==>
      run[k].at >= run[k].current && Decide(Log(run[..k]), c, run[k].key, run[k].current, run[k].priority).Allowed?
  }

  lemma {:induction false} FewerInWindow(log: seq<Line>, low: int, high: int, since: int)
    requires since <= low
    ensures Count(log, low, high) <= CountSince(log, since)
  {
    if log != [] { FewerInWindow(log[..|log| - 1], low, high, since); }
  }

  /** The lines of priority 3 or more in a window. */
  function Urgent(log: seq<Line>, low: int, high: int): (n: nat) {
    if log == [] then 0
    else Urgent(log[..|log| - 1], low, high) + if low <= log[|log| - 1].at <= high && log[|log| - 1].high then 1 else 0
  }

  lemma LogFront(run: seq<Accepted>)
    requires run != []
    ensures Log(run) == Log(run[..|run| - 1]) + [LineOf(run[|run| - 1])]
  {}

  lemma OneMore(log: seq<Line>, l: Line, low: int, high: int)
    ensures Count(log + [l], low, high) == Count(log, low, high) + if low <= l.at <= high then 1 else 0
    ensures Urgent(log + [l], low, high) == Urgent(log, low, high) + if low <= l.at <= high && l.high then 1 else 0
  {
    assert (log + [l])[..|log|] == log;
  }

  lemma LegalFront(run: seq<Accepted>, c: Limits)
    requires Legal(run, c) && run != []
    ensures Legal(run[..|run| - 1], c)
  {
    hide Decide;
    var front := run[..|run| - 1];
    assert forall k :: 0 <= k < |front| ==> front[..k] == run[..k];
  }

  /** Every hour holds at most the limit of lines, not counting the urgent ones, which pass unlimited. */
  lemma {:induction false} HourlyLimitHolds(run: seq<Accepted>, c: Limits, from: int)
    requires Legal(run, c) && c.hourly >= 0
    ensures Count(Log(run), from, from + HOUR) <= c.hourly + Urgent(Log(run), from, from + HOUR)
    decreases |run|
  {
    if run != [] {
      var n := |run| - 1;
      var a, before := run[n], Log(run[..n]);
      LogFront(run);
      LegalFront(run, c);
      HourlyLimitHolds(run[..n], c, from);
      hide CountSince, Count, Urgent, Log;
      OneMore(before, LineOf(a), from, from + HOUR);
      if a.priority < URGENT && from <= a.at <= from + HOUR {
        assert CountSince(before, a.current - HOUR) < c.hourly;
        FewerInWindow(before, from, from + HOUR, a.current - HOUR);
      }
    }
  }

  lemma {:induction false} NoUrgent(log: seq<Line>, low: int, high: int)
    requires forall i :: 0 <= i < |log| ==> !log[i].high
    ensures Urgent(log, low, high) == 0
  {
    if log != [] { NoUrgent(log[..|log| - 1], low, high); }
  }

  /** A run of lines below priority 3 never has more than the limit in any hour. */
  lemma OrdinaryHourlyLimit(run: seq<Accepted>, c: Limits, from: int)
    requires Legal(run, c) && c.hourly >= 0 && forall k :: 0 <= k < |run| ==> run[k].priority < URGENT
    ensures Count(Log(run), from, from + HOUR) <= c.hourly
  {
    HourlyLimitHolds(run, c, from);
    NoUrgent(Log(run), from, from + HOUR);
  }

  function Smaller(a: int, b: int): (r: int) {
    if a <= b then a else b
  }

  /** A line below priority 3 comes after every line before it by the minimum interval (or an hour, if that is
      less), and any line comes after earlier ones of its event by the event interval. */
  lemma LinesSpaced(run: seq<Accepted>, c: Limits, j: nat, k: nat)
    requires Legal(run, c) && j < k < |run|
    ensures run[k].priority < URGENT ==> run[k].at - run[j].at >= Smaller(c.minInterval, HOUR + 1)
    ensures run[k].key == run[j].key ==> run[k].at - run[j].at >= Smaller(c.eventInterval, HOUR + 1)
  {
    var before := Log(run[..k]);
    assert before[j] == LineOf(run[j]) && before[j] in before;
    hide CountSince;
  }
}
