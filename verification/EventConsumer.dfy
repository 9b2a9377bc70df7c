/** The polling consumer itself, and runs that show its two limits are exact
    (goblin_zomboid/ipc.py, EventConsumer and CommandConsumer). */
module EventConsumer {
  import opened Common
  import opened Protocol
  import opened RequestLedger
  import opened EventDelivery

  /** A whole poll over the listed stems: at most `limit` messages. */
  function PollAll(l: Local, stems: seq<string>, limit: int, now: int, faults: string -> Faults, cfg: Config): (r: (Local, seq<Message>))
    decreases |stems|
  {
    if stems == [] || limit <= 0 then (l, [])
    else
      var (l', out) := Consume(l, stems[0], now, faults(stems[0]), cfg);
      if out.HandedOut? then
        var (end, rest) := PollAll(l', stems[1..], limit - 1, now, faults, cfg);
        (end, [out.message] + rest)
      else PollAll(l', stems[1..], limit, now, faults, cfg)
  }

  /** The steps such a poll takes. */
  function PollTrace(l: Local, stems: seq<string>, limit: int, now: int, faults: string -> Faults, cfg: Config): (r: seq<Action>)
    decreases |stems|
  {
    if stems == [] || limit <= 0 then []
    else
      var (l', out) := Consume(l, stems[0], now, faults(stems[0]), cfg);
      [Poll(stems[0], now, faults(stems[0]))]
      + PollTrace(l', stems[1..], if out.HandedOut? then limit - 1 else limit, now, faults, cfg)
  }

  lemma {:induction false} RunConcat(s: Sys, a: seq<Action>, b: seq<Action>, cfg: Config)
    ensures Run(s, a + b, cfg) == Run(Run(s, a, cfg), b, cfg)
    decreases |b|
  {
    if b == [] {
      assert a + b == a;
    } else {
      var n := |b| - 1;
      assert (a + b)[..|a + b| - 1] == a + b[..n];
      RunConcat(s, a, b[..n], cfg);
    }
  }

  lemma RunOne(s: Sys, a: Action, cfg: Config)
    ensures Run(s, [a], cfg) == Step(s, a, cfg)
  {
    assert [a][..0] == [];
  }

  lemma PollStep(s: Sys, stem: string, now: int, f: Faults, cfg: Config)
    ensures var out := Consume(s.local, stem, now, f, cfg).1;
      var r := Run(s, [Poll(stem, now, f)], cfg);
      && r.local == Consume(s.local, stem, now, f, cfg).0
      && r.handed == s.handed + (if out.HandedOut? then [out.message] else [])
  {
    RunOne(s, Poll(stem, now, f), cfg);
  }

  /** A poll is a run of single-item steps: it changes nothing else, and it returns
      exactly the messages those steps hand out, so all results about runs apply to it. */
  lemma {:induction false} PollRefinesRun(s: Sys, stems: seq<string>, limit: int, now: int, faults: string -> Faults, cfg: Config)
    ensures var acts := PollTrace(s.local, stems, limit, now, faults, cfg);
      && Run(s, acts, cfg).local == PollAll(s.local, stems, limit, now, faults, cfg).0
      && Run(s, acts, cfg).handed == s.handed + PollAll(s.local, stems, limit, now, faults, cfg).1
    ensures |PollAll(s.local, stems, limit, now, faults, cfg).1| <= (if limit < 0 then 0 else limit)
    decreases |stems|
  {
    if stems != [] && limit > 0 {
      hide Step, Run, Consume;
      var f := faults(stems[0]);
      var out := Consume(s.local, stems[0], now, f, cfg).1;
      var next := Run(s, [Poll(stems[0], now, f)], cfg);
      PollStep(s, stems[0], now, f, cfg);
      PollFollows(s, next, out, stems, limit, now, faults, cfg);
    }
  }

  lemma {:induction false} PollFollows(s: Sys, next: Sys, out: Outcome, stems: seq<string>, limit: int, now: int, faults: string -> Faults, cfg: Config)
    requires stems != [] && limit > 0
    requires next == Run(s, [Poll(stems[0], now, faults(stems[0]))], cfg)
    requires (next.local, out) == Consume(s.local, stems[0], now, faults(stems[0]), cfg)
    requires next.handed == s.handed + (if out.HandedOut? then [out.message] else [])
    ensures var acts := PollTrace(s.local, stems, limit, now, faults, cfg);
      && Run(s, acts, cfg).local == PollAll(s.local, stems, limit, now, faults, cfg).0
      && Run(s, acts, cfg).handed == s.handed + PollAll(s.local, stems, limit, now, faults, cfg).1
    ensures |PollAll(s.local, stems, limit, now, faults, cfg).1| <= limit
    decreases |stems|, 0
  {
    hide Consume, Step, Run;
    var left := if out.HandedOut? then limit - 1 else limit;
    var rest := PollTrace(next.local, stems[1..], left, now, faults, cfg);
    PollRefinesRun(next, stems[1..], left, now, faults, cfg);
    RunConcat(s, [Poll(stems[0], now, faults(stems[0]))], rest, cfg);
  }

  /** What a poll will have returned, given what it has done so far. */
  ghost function Remaining(l: Local, events: seq<Message>, stems: seq<string>, limit: int, now: int, faults: string -> Faults, cfg: Config): (Local, seq<Message>) {
    var p := PollAll(l, stems, limit - |events|, now, faults, cfg);
    (p.0, events + p.1)
  }

  lemma NextItem(l: Local, events: seq<Message>, stems: seq<string>, i: nat, limit: int, now: int, faults: string -> Faults, cfg: Config, l': Local, out: Outcome)
    requires i < |stems| && |events| < limit
    requires (l', out) == Consume(l, stems[i], now, faults(stems[i]), cfg)
    ensures Remaining(l, events, stems[i..], limit, now, faults, cfg)
            == Remaining(l', if out.HandedOut? then events + [out.message] else events, stems[i + 1..], limit, now, faults, cfg)
  {
    hide Consume;
    assert stems[i..][1..] == stems[i + 1..];
    var rest := PollAll(l', stems[i + 1..], if out.HandedOut? then limit - |events| - 1 else limit - |events|, now, faults, cfg);
    if out.HandedOut? {
      assert events + ([out.message] + rest.1) == events + [out.message] + rest.1;
    }
  }

  lemma AllRemains(l: Local, stems: seq<string>, limit: int, now: int, faults: string -> Faults, cfg: Config)
    ensures Remaining(l, [], stems, limit, now, faults, cfg) == PollAll(l, stems, limit, now, faults, cfg)
  {
    hide PollAll;
    assert [] + PollAll(l, stems, limit, now, faults, cfg).1 == PollAll(l, stems, limit, now, faults, cfg).1;
  }

  lemma NothingRemains(l: Local, events: seq<Message>, stems: seq<string>, limit: int, now: int, faults: string -> Faults, cfg: Config)
    requires stems == [] || limit <= |events|
    ensures Remaining(l, events, stems, limit, now, faults, cfg) == (l, events)
  {
    assert events + [] == events;
  }

  /** A poll whose moves work leaves behind only what it hands out: if it stays below its limit, every listed item that
      is still there has been handed out just now; and the items that are not listed are untouched. */
  lemma {:induction false} PollClears(l: Local, stems: seq<string>, limit: int, now: int, faults: string -> Faults, cfg: Config)
    requires forall x :: x in stems ==> faults(x).move.BothMoved?
    requires forall i, j :: 0 <= i < j < |stems| ==> stems[i] != stems[j]
    ensures var (r, events) := PollAll(l, stems, limit, now, faults, cfg);
      && (|events| < limit ==> forall x :: x in stems && Listed(l, x) && x in r.queue ==>
            l.queue[x].Envelope? && l.queue[x].message in events)
      && (forall x :: x !in stems ==> (x in r.queue <==> x in l.queue) && (x in l.queue ==> r.queue[x] == l.queue[x]) && (x in r.ready <==> x in l.ready))
    decreases |stems|
  {
    if stems != [] && limit > 0 {
      var stem, rest := stems[0], stems[1..];
      var (l1, out) := Consume(l, stem, now, faults(stem), cfg);
      ItemOutcome(l, stem, now, faults(stem), cfg);
      assert stem !in rest;
      hide Consume, ValidId, Has, Acceptable;
      PollClears(l1, rest, if out.HandedOut? then limit - 1 else limit, now, faults, cfg);
    }
  }

  /** The first item in the listing that is welcome, new and can be remembered is handed out first. */
  lemma {:induction false} PollTakesFirst(l: Local, stems: seq<string>, limit: int, now: int, faults: string -> Faults, cfg: Config)
    requires limit > 0 && stems != [] && Listed(l, stems[0]) && Welcome(l, stems[0], now, faults(stems[0]), cfg)
    requires !Has(l.mem, l.queue[stems[0]].message.id) && faults(stems[0]).write.Written?
    ensures var events := PollAll(l, stems, limit, now, faults, cfg).1; events != [] && events[0] == l.queue[stems[0]].message
  {
    ItemOutcome(l, stems[0], now, faults(stems[0]), cfg);
    hide Consume, Listed, Welcome, Has;
  }

  class Consumer {
    var queue: map<string, Content>
    var ready: set<string>
    const ledger: Ledger
    const cfg: Config

    ghost function View(): Local
      reads this, ledger
    {
      Local(ledger.entries, ledger.file, queue, ready)
    }

    constructor (ledger: Ledger, cfg: Config, queue: map<string, Content>, ready: set<string>)
      requires ledger.maxEntries == cfg.maxEntries
      ensures this.ledger == ledger && this.cfg == cfg
      ensures View() == Local(ledger.entries, ledger.file, queue, ready)
    {
      this.ledger := ledger;
      this.cfg := cfg;
      this.queue := queue;
      this.ready := ready;
    }

    /** Renames the JSON, then the marker; either rename may be refused. */
    method MoveItem(stem: string, move: MoveOutcome)
      modifies this
      ensures View() == Move(old(View()), stem, move)
    {
      if stem !in queue || move == NoneMoved {
        return;
      }
      queue := queue - {stem};
      if move == BothMoved {
        ready := ready - {stem};
      }
    }

    /** One listed item; returns the message if it is handed out. */
    method ConsumeItem(stem: string, now: int, f: Faults) returns (out: Outcome)
      requires ledger.maxEntries == cfg.maxEntries
      modifies this, ledger
      ensures (View(), out) == Consume(old(View()), stem, now, f, cfg)
    {
      if !ValidId(stem) || stem !in ready || stem !in queue {
        return Skipped;
      }
      if !f.readable || queue[stem].Garbage? || !Acceptable(queue[stem].message, now, cfg) {
        MoveItem(stem, f.move);
        return DeadLettered;
      }
      var m := queue[stem].message;
      var seen := ledger.Seen(m.id);
      if seen {
        MoveItem(stem, f.move);
        return Duplicate;
      }
      var ok := ledger.Remember(m.id, m.ts, f.write);
      if !ok {
        MoveItem(stem, f.move);
        return DeadLettered;
      }
      return HandedOut(m);
    }

    method PollEvents(limit: int, now: int, faults: string -> Faults) returns (events: seq<Message>)
      requires ledger.maxEntries == cfg.maxEntries
      modifies this, ledger
      ensures (View(), events) == PollAll(old(View()), Listing(old(ready), ".ready"), limit, now, faults, cfg)
    {
      hide Consume, Listing;
      events := [];
      if limit < 1 {
        return;
      }
      hide PollAll, Remaining;
      var stems := Listing(ready, ".ready");
      ghost var goal := Remaining(View(), [], stems, limit, now, faults, cfg);
      var i := 0;
      assert stems[0..] == stems;
      AllRemains(View(), stems, limit, now, faults, cfg);
      while i < |stems| && |events| < limit
        invariant 0 <= i <= |stems| && |events| <= limit
        invariant ledger.maxEntries == cfg.maxEntries
        invariant Remaining(View(), events, stems[i..], limit, now, faults, cfg) == goal
      {
        ghost var before, sofar := View(), events;
        var out := ConsumeItem(stems[i], now, faults(stems[i]));
        if out.HandedOut? {
          events := events + [out.message];
        }
        NextItem(before, sofar, stems, i, limit, now, faults, cfg, View(), out);
        i := i + 1;
      }
      NothingRemains(View(), events, stems[i..], limit, now, faults, cfg);
    }

    method FinalizeEvent(stem: string, move: MoveOutcome)
      modifies this
      ensures View() == Move(old(View()), stem, move)
    {
      MoveItem(stem, move);
    }
  }

  // ---- the relay pulls an archived item again

  const Healthy := Faults(true, Written, BothMoved)

  function Pull(stem: string): (r: seq<Action>) {
    [PullJson(stem), PullMarker(stem)]
  }

  /** Once the local copy is archived, the next pull of a marked remote item makes it ready again. */
  lemma PulledAgain(s: Sys, stem: string, cfg: Config)
    requires stem in s.remote && stem in s.marked && stem !in s.local.queue
    ensures var r := Run(s, Pull(stem), cfg);
      r == s.(local := s.local.(queue := s.local.queue[stem := s.remote[stem]], ready := s.local.ready + {stem}))
  {
    RunConcat(s, [PullJson(stem)], [PullMarker(stem)], cfg);
    RunOne(s, PullJson(stem), cfg);
    RunOne(Step(s, PullJson(stem), cfg), PullMarker(stem), cfg);
  }

  /** Pulling, polling and archiving one remote message, with nothing failing. */
  function Deliver(m: Message, now: int): (r: seq<Action>) {
    Pull(m.id) + ([Poll(m.id, now, Healthy)] + [Finalize(m.id, BothMoved)])
  }

  lemma DeliverSteps(s: Sys, m: Message, now: int, cfg: Config)
    requires m.id in s.remote && s.remote[m.id] == Envelope(m) && m.id in s.marked && m.id !in s.local.queue
    ensures var s1 := s.(local := s.local.(queue := s.local.queue[m.id := Envelope(m)], ready := s.local.ready + {m.id}));
      Run(s, Deliver(m, now), cfg) == Step(Step(s1, Poll(m.id, now, Healthy), cfg), Finalize(m.id, BothMoved), cfg)
  {
    hide Step;
    var poll := Poll(m.id, now, Healthy);
    var fin := Finalize(m.id, BothMoved);
    PulledAgain(s, m.id, cfg);
    var s1 := Run(s, Pull(m.id), cfg);
    RunConcat(s, Pull(m.id), [poll] + [fin], cfg);
    RunConcat(s1, [poll], [fin], cfg);
    RunOne(s1, poll, cfg);
    RunOne(Step(s1, poll, cfg), fin, cfg);
  }

  lemma DeliverOne(s: Sys, m: Message, now: int, cfg: Config)
    requires m.id in s.remote && s.remote[m.id] == Envelope(m) && m.id in s.marked
    requires m.id !in s.local.queue && !Has(s.local.mem, m.id) && Acceptable(m, now, cfg)
    ensures var r := Run(s, Deliver(m, now), cfg);
      && r.remote == s.remote && r.marked == s.marked
      && r.local.queue == s.local.queue
      && r.local.mem == Remembered(s.local.mem, Entry(m.id, m.ts), cfg.maxEntries)
      && r.handed == s.handed + [m]
  {
    DeliverSteps(s, m, now, cfg);
    assert ValidId(m.id);
    hide Run, Acceptable, Remembered, FileAfter, Has, ValidId;
    assert s.local.queue[m.id := Envelope(m)] - {m.id} == s.local.queue;
  }

  // ---- the two conditions are needed

  /** An empty service beside a game that has written these messages. */
  function Start(remote: map<string, Content>): (r: Sys) {
    Sys(Local([], Missing, map[], {}), remote, remote.Keys, {}, 0, {}, [])
  }

  /** A restart that cannot read the ledger file hands the same message out again, whatever the capacity. */
  lemma UnreadableLedgerRedelivers(m: Message, now: int, cfg: Config)
    requires Acceptable(m, now, cfg) && cfg.maxEntries >= 1
    ensures Run(Start(map[m.id := Envelope(m)]),
                Deliver(m, now) + ([ConsumerRestart(false)] + Deliver(m, now)), cfg).handed == [m, m]
  {
    var s := Start(map[m.id := Envelope(m)]);
    DeliverOne(s, m, now, cfg);
    var s1 := Run(s, Deliver(m, now), cfg);
    var s2 := Step(s1, ConsumerRestart(false), cfg);
    RunOne(s1, ConsumerRestart(false), cfg);
    RunConcat(s, Deliver(m, now), [ConsumerRestart(false)] + Deliver(m, now), cfg);
    RunConcat(s1, [ConsumerRestart(false)], Deliver(m, now), cfg);
    DeliverOne(s2, m, now, cfg);
  }

  /** Pulling, polling and archiving a message whose id the ledger has hands nothing out. */
  lemma DeliverSeen(s: Sys, m: Message, now: int, cfg: Config)
    requires m.id in s.remote && s.remote[m.id] == Envelope(m) && m.id in s.marked
    requires m.id !in s.local.queue && Has(s.local.mem, m.id) && Acceptable(m, now, cfg)
    ensures var r := Run(s, Deliver(m, now), cfg);
      r.remote == s.remote && r.marked == s.marked && r.local.queue == s.local.queue && r.local.mem == s.local.mem && r.handed == s.handed
  {
    DeliverSteps(s, m, now, cfg);
    assert ValidId(m.id);
    hide Run, Acceptable, Remembered, FileAfter, Has, ValidId;
    assert s.local.queue[m.id := Envelope(m)] - {m.id} == s.local.queue;
  }

  function Again(m: Message, now: int, times: nat): (r: seq<Action>) {
    if times == 0 then [] else Deliver(m, now) + Again(m, now, times - 1)
  }

  lemma {:induction false} AgainCat(m: Message, now: int, a: nat, b: nat)
    ensures Again(m, now, 1) == Deliver(m, now) && Again(m, now, a + b) == Again(m, now, a) + Again(m, now, b)
    decreases a
  {
    assert Again(m, now, 0) == [];
    if a > 0 { AgainCat(m, now, a - 1, b); }
  }

  lemma {:induction false} NeverAgain(s: Sys, m: Message, now: int, times: nat, cfg: Config)
    requires m.id in s.remote && s.remote[m.id] == Envelope(m) && m.id in s.marked
    requires m.id !in s.local.queue && Has(s.local.mem, m.id) && Acceptable(m, now, cfg)
    ensures Run(s, Again(m, now, times), cfg).handed == s.handed
    decreases times
  {
    if times > 0 {
      hide Run, Acceptable;
      DeliverSeen(s, m, now, cfg);
      RunConcat(s, Deliver(m, now), Again(m, now, times - 1), cfg);
      NeverAgain(Run(s, Deliver(m, now), cfg), m, now, times - 1, cfg);
    } else {
      assert Run(s, [], cfg) == s;
    }
  }

  /** A message whose ledger entry cannot be written is not handed out, and not when it is pulled again, however often
      and with nothing failing any more. */
  lemma FailedLedgerWriteLoses(m: Message, now: int, write: WriteOutcome, times: nat, cfg: Config)
    requires Acceptable(m, now, cfg) && cfg.maxEntries >= 1 && !write.Written?
    ensures Run(Start(map[m.id := Envelope(m)]),
                Pull(m.id) + ([Poll(m.id, now, Faults(true, write, BothMoved))] + Again(m, now, times)), cfg).handed == []
  {
    var s := Start(map[m.id := Envelope(m)]);
    var poll := Poll(m.id, now, Faults(true, write, BothMoved));
    PulledAgain(s, m.id, cfg);
    var s1 := Run(s, Pull(m.id), cfg);
    RunConcat(s, Pull(m.id), [poll] + Again(m, now, times), cfg);
    RunConcat(s1, [poll], Again(m, now, times), cfg);
    RunOne(s1, poll, cfg);
    var s2 := Step(s1, poll, cfg);
    AssignNew([], Entry(m.id, m.ts));
    assert s2.local.mem == [Entry(m.id, m.ts)];
    assert Has(s2.local.mem, m.id) by { assert s2.local.mem[0].id == m.id; }
    assert s.local.queue[m.id := Envelope(m)] - {m.id} == map[];
    NeverAgain(s2, m, now, times, cfg);
  }

  function DeliverAll(ms: seq<Message>, now: int): (r: seq<Action>)
    decreases |ms|
  {
    if ms == [] then [] else DeliverAll(ms[..|ms| - 1], now) + Deliver(ms[|ms| - 1], now)
  }

  function EntriesOf(ms: seq<Message>): (r: seq<Entry>) {
    seq(|ms|, i requires 0 <= i < |ms| => Entry(ms[i].id, ms[i].ts))
  }

  ghost predicate OnOffer(s: Sys, m: Message, now: int, cfg: Config) {
    m.id in s.remote && s.remote[m.id] == Envelope(m) && m.id in s.marked && Acceptable(m, now, cfg)
  }

  ghost predicate DistinctIds(ms: seq<Message>) {
    forall i, j :: 0 <= i < j < |ms| ==> ms[i].id != ms[j].id
  }

  lemma FillStep(r: Sys, init: seq<Message>, last: Message, now: int, cfg: Config)
    requires r.local.mem == EntriesOf(init) && r.local.queue == map[] && r.handed == init
    requires DistinctIds(init + [last]) && OnOffer(r, last, now, cfg)
    ensures var after := Run(r, Deliver(last, now), cfg);
      && after.remote == r.remote && after.marked == r.marked && after.local.queue == map[]
      && after.handed == init + [last]
      && after.local.mem == Trim(EntriesOf(init + [last]), cfg.maxEntries)
  {
    var all := init + [last];
    assert !Has(EntriesOf(init), last.id) by {
      assert all[|init|] == last;
      assert forall i :: 0 <= i < |init| ==> EntriesOf(init)[i].id == all[i].id;
    }
    DeliverOne(r, last, now, cfg);
    AssignNew(EntriesOf(init), Entry(last.id, last.ts));
    assert EntriesOf(init) + [Entry(last.id, last.ts)] == EntriesOf(all);
  }

  /** While the ledger has room, it simply lists what was delivered. */
  lemma {:induction false} FillLedger(s: Sys, ms: seq<Message>, now: int, cfg: Config)
    requires s.local.mem == [] && s.local.queue == map[] && s.handed == []
    requires |ms| <= cfg.maxEntries && DistinctIds(ms)
    requires forall i :: 0 <= i < |ms| ==> OnOffer(s, ms[i], now, cfg)
    ensures var r := Run(s, DeliverAll(ms, now), cfg);
      && r.remote == s.remote && r.marked == s.marked && r.local.queue == map[]
      && r.local.mem == EntriesOf(ms) && r.handed == ms
    decreases |ms|
  {
    if ms != [] {
      var init, last := ms[..|ms| - 1], ms[|ms| - 1];
      assert ms == init + [last];
      FillLedger(s, init, now, cfg);
      var r := Run(s, DeliverAll(init, now), cfg);
      assert OnOffer(s, ms[|ms| - 1], now, cfg);
      FillStep(r, init, last, now, cfg);
      RunConcat(s, DeliverAll(init, now), Deliver(last, now), cfg);
    }
  }

  /** The bound is tight: max_entries newer ids that are fresh at the same time push the
      first message out of the ledger, and pulling it again hands it out a second time. */
  lemma FullLedgerRedelivers(x: Message, ys: seq<Message>, now: int, cfg: Config, s: Sys)
    requires cfg.maxEntries >= 1 && |ys| == cfg.maxEntries && DistinctIds([x] + ys)
    requires forall i :: 0 <= i < |ys| ==> ys[i].ts > x.ts
    requires s.local.mem == [] && s.local.queue == map[] && s.handed == []
    requires forall i :: 0 <= i < |[x] + ys| ==> OnOffer(s, ([x] + ys)[i], now, cfg)
    ensures Run(s, DeliverAll([x] + ys, now) + Deliver(x, now), cfg).handed == [x] + ys + [x]
  {
    hide Run, Acceptable, Remembered, Trim;
    var all := [x] + ys;
    var init, last := all[..|ys|], ys[|ys| - 1];
    assert all == init + [last] && all[0] == x && all[|ys|] == last;
    assert OnOffer(s, all[0], now, cfg) && OnOffer(s, all[|ys|], now, cfg);
    FillLedger(s, init, now, cfg);
    var r := Run(s, DeliverAll(init, now), cfg);
    FillStep(r, init, last, now, cfg);
    assert all[..|all| - 1] == init;
    RunConcat(s, DeliverAll(init, now), Deliver(last, now), cfg);
    OldestDropped(x, ys, all, cfg);
    DeliverOne(Run(s, DeliverAll(all, now), cfg), x, now, cfg);
    RunConcat(s, DeliverAll(all, now), Deliver(x, now), cfg);
  }

  /** Trimming a ledger one over capacity drops its strictly oldest item. */
  lemma OldestDropped(x: Message, ys: seq<Message>, all: seq<Message>, cfg: Config)
    requires cfg.maxEntries >= 1 && |ys| == cfg.maxEntries && all == [x] + ys && DistinctIds(all)
    requires forall i :: 0 <= i < |ys| ==> ys[i].ts > x.ts
    ensures !Has(Trim(EntriesOf(all), cfg.maxEntries), x.id)
  {
    var s := EntriesOf(all);
    var r := Trim(s, cfg.maxEntries);
    var first := Entry(x.id, x.ts);
    assert forall i :: 0 <= i < |s| ==> s[i].id == all[i].id;
    assert forall i :: 0 < i < |s| ==> s[i].ts == ys[i - 1].ts;
    assert s[0] == first;
    TrimKeepsNewest(s, cfg.maxEntries);
    if first in r {
      forall e | e in s ensures e in r {
        assert e !in r ==> e.ts <= first.ts;
      }
      IdsCounted(s);
      IdsCounted(r);
      SubsetCount(set e | e in s :: e.id, set e | e in r :: e.id);
    }
    forall e | e in r ensures e.id != x.id {
      if e != first { DifferentIds(s, first, e); }
    }
  }
}
