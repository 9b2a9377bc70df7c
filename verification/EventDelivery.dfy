/** Events from the game to the service: the relay copies them (goblin_zomboid/relay.py),
    the consumer hands each one out (goblin_zomboid/ipc.py, EventConsumer and CommandConsumer).
    Every file effect is one step; either process may restart between any two. */
module EventDelivery {
  import opened Common
  import opened Protocol
  import opened RequestLedger

  /** The types a consumer takes: events need the prefix "event." as well; for commands the prefix is empty. */
  datatype Config = Config(maxEntries: nat, maxAge: int, kinds: set<string>, prefix: string)

  /** How far moving an item out of the queue got: JSON first, then the marker. */
  datatype MoveOutcome = NoneMoved | JsonMoved | BothMoved

  datatype Faults = Faults(readable: bool, write: WriteOutcome, move: MoveOutcome)

  datatype Outcome = Skipped | DeadLettered | Duplicate | HandedOut(message: Message)

  /** The consumer's side: dictionary in memory, ledger file, events directory. */
  datatype Local = Local(mem: seq<Entry>, file: LedgerFile, queue: map<string, Content>, ready: set<string>)

  /** Both sides, with what was ever handed out and what ever entered the ledger. */
  datatype Sys = Sys(local: Local, remote: map<string, Content>, marked: set<string>, pulled: set<string>,
                     clock: int, entered: set<Entry>, handed: seq<Message>)

  datatype Action =
    | GameWrites(stem: string, content: Content)
    | GameMarks(stem: string)
    | PullJson(stem: string)
    | PullMarker(stem: string)
    | FallbackMarker(stem: string)
    | RelayRestart
    | Poll(stem: string, now: int, faults: Faults)
    | Finalize(stem: string, move: MoveOutcome)
    | ConsumerRestart(readable: bool)

  predicate Acceptable(m: Message, now: int, cfg: Config) {
    ValidId(m.id) && Fresh(m.ts, now, cfg.maxAge) && cfg.prefix <= m.kind && m.kind in cfg.kinds
  }

  /** Neither stale, nor more than a minute ahead, with a valid id and a type this consumer takes. */
  lemma AcceptableIs(m: Message, now: int, cfg: Config)
    ensures Acceptable(m, now, cfg) <==>
      && ValidId(m.id) && m.ts > 0 && now - cfg.maxAge <= m.ts <= now + 60000
      && |m.kind| >= |cfg.prefix| && m.kind[..|cfg.prefix|] == cfg.prefix && m.kind in cfg.kinds
  {
    hide ValidId;
  }

  function Move(l: Local, stem: string, move: MoveOutcome): (r: Local) {
    if stem !in l.queue || move.NoneMoved? then l
    else if move.JsonMoved? then l.(queue := l.queue - {stem})
    else l.(queue := l.queue - {stem}, ready := l.ready - {stem})
  }

  /** One ready item of a poll. */
  function Consume(l: Local, stem: string, now: int, f: Faults, cfg: Config): (r: (Local, Outcome)) {
    if !ValidId(stem) || stem !in l.ready || stem !in l.queue then (l, Skipped)
    else if !f.readable || l.queue[stem].Garbage? || !Acceptable(l.queue[stem].message, now, cfg) then
      (Move(l, stem, f.move), DeadLettered)
    else
      var m := l.queue[stem].message;
      if Has(l.mem, m.id) then (Move(l, stem, f.move), Duplicate)
      else
        var mem := Remembered(l.mem, Entry(m.id, m.ts), cfg.maxEntries);
        var l' := l.(mem := mem, file := FileAfter(l.file, mem, f.write));
        if f.write.Written? then (l', HandedOut(m)) else (Move(l', stem, f.move), DeadLettered)
  }

  /** The message whose id the ledger takes in at this poll step, if any. */
  function Entering(l: Local, stem: string, now: int, f: Faults, cfg: Config): (r: Option<Message>) {
    if ValidId(stem) && stem in l.ready && stem in l.queue && f.readable && l.queue[stem].Envelope?
       && Acceptable(l.queue[stem].message, now, cfg) && !Has(l.mem, l.queue[stem].message.id)
    then Some(l.queue[stem].message) else None
  }

  function Step(s: Sys, a: Action, cfg: Config): (r: Sys) {
    match a
    case GameWrites(stem, content) => s.(remote := s.remote[stem := content])
    case GameMarks(stem) => s.(marked := s.marked + {stem})
    case PullJson(stem) =>
      if stem in s.remote && stem !in s.local.queue
      then s.(local := s.local.(queue := s.local.queue[stem := s.remote[stem]])) else s
    case PullMarker(stem) =>
      if stem in s.marked then s.(local := s.local.(ready := s.local.ready + {stem})) else s
    case FallbackMarker(stem) =>
      if stem in s.remote && stem !in s.pulled && stem in s.local.queue && s.local.queue[stem].Envelope?
         && cfg.prefix <= s.local.queue[stem].message.kind
      then s.(local := s.local.(ready := s.local.ready + {stem}), pulled := s.pulled + {stem}) else s
    case RelayRestart => s.(pulled := {})
    case Poll(stem, now, f) =>
      var (l, out) := Consume(s.local, stem, now, f, cfg);
      var e := Entering(s.local, stem, now, f, cfg);
      s.(local := l, clock := now,
         entered := if e.Some? then s.entered + {Entry(e.value.id, e.value.ts)} else s.entered,
         handed := if out.HandedOut? then s.handed + [out.message] else s.handed)
    case Finalize(stem, move) => s.(local := Move(s.local, stem, move))
    case ConsumerRestart(readable) =>
      s.(local := s.local.(mem := if readable then Loaded(s.local.file, cfg.maxEntries) else []))
  }

  function Run(s: Sys, acts: seq<Action>, cfg: Config): (r: Sys)
    decreases |acts|
  {
    if acts == [] then s else Step(Run(s, acts[..|acts| - 1], cfg), acts[|acts| - 1], cfg)
  }

  /** The message this action hands out, if any. */
  function Delivered(s: Sys, a: Action, cfg: Config): (r: Option<Message>) {
    if a.Poll? && Consume(s.local, a.stem, a.now, a.faults, cfg).1.HandedOut?
    then Some(Consume(s.local, a.stem, a.now, a.faults, cfg).1.message) else None
  }

  /** What the game writes and then marks arrives complete, whatever it wrote before, unless the file is there already, and
      neither the ledger nor any other item changes. */
  lemma Arrives(s: Sys, stem: string, content: Content, cfg: Config)
    ensures var t := Step(Step(Step(Step(s, GameWrites(stem, content), cfg), PullJson(stem), cfg), GameMarks(stem), cfg), PullMarker(stem), cfg);
      && t.local.ready == s.local.ready + {stem}
      && t.local.queue == (if stem in s.local.queue then s.local.queue else s.local.queue[stem := content])
      && t.local.mem == s.local.mem && t.local.file == s.local.file && t.handed == s.handed
  {}

  // ---- what becomes of one item

  predicate Listed(l: Local, stem: string) {
    ValidId(stem) && stem in l.ready && stem in l.queue
  }

  /** The listed item is a message this consumer takes now. */
  predicate Welcome(l: Local, stem: string, now: int, f: Faults, cfg: Config)
    requires stem in l.queue
  {
    f.readable && l.queue[stem].Envelope? && Acceptable(l.queue[stem].message, now, cfg)
  }

  /** Files of this item that have left the queue; everything else in it is as before. */
  ghost predicate TakenAway(l: Local, r: Local, stem: string, json: bool, marker: bool) {
    && (forall x :: x in r.queue <==> x in l.queue && !(json && x == stem))
    && (forall x :: x in r.queue ==> r.queue[x] == l.queue[x])
    && (forall x :: x in r.ready <==> x in l.ready && !(marker && x == stem))
  }

  /** What a poll does with one item. One that is not complete stays untouched. A message that is welcome, new and can be
      remembered is handed out and stays in the queue. Every other item is put aside, as far as its files can be moved:
      as a duplicate if it is welcome and its id is known, otherwise as a dead letter. */
  lemma ItemOutcome(l: Local, stem: string, now: int, f: Faults, cfg: Config)
    ensures var (r, out) := Consume(l, stem, now, f, cfg);
      && (out.Skipped? <==> !Listed(l, stem)) && (out.Skipped? ==> r == l)
      && (out.HandedOut? <==> Listed(l, stem) && Welcome(l, stem, now, f, cfg) && !Has(l.mem, l.queue[stem].message.id) && f.write.Written?)
      && (out.HandedOut? ==> out.message == l.queue[stem].message && TakenAway(l, r, stem, false, false))
      && (out.Duplicate? <==> Listed(l, stem) && Welcome(l, stem, now, f, cfg) && Has(l.mem, l.queue[stem].message.id))
      && (out.Duplicate? || out.DeadLettered? ==> TakenAway(l, r, stem, !f.move.NoneMoved?, f.move.BothMoved?))
      && (!out.Skipped? && !Welcome(l, stem, now, f, cfg) ==> out.DeadLettered?)
      && (out.Duplicate? || (out.DeadLettered? && !Welcome(l, stem, now, f, cfg)) ==> r.mem == l.mem && r.file == l.file)
  {
    hide Remembered, FileAfter, ValidId, Acceptable, Has;
  }

  /** Finalizing takes the item out of the queue in the same way, and nothing else changes. */
  lemma FinalizeOutcome(l: Local, stem: string, move: MoveOutcome)
    requires stem in l.queue
    ensures var r := Move(l, stem, move);
      TakenAway(l, r, stem, !move.NoneMoved?, move.BothMoved?) && r.mem == l.mem && r.file == l.file
  {}

  ghost predicate Sound(s: seq<Entry>, cfg: Config) {
    Distinct(s) && |s| <= cfg.maxEntries && forall e :: e in s ==> ValidId(e.id)
  }

  /** What every reachable state keeps about the ledger. */
  ghost predicate Good(s: Sys, cfg: Config) {
    && cfg.maxEntries >= 1
    && Sound(s.local.mem, cfg)
    && (s.local.file.Dumped? ==> Sound(s.local.file.entries, cfg))
    && (forall e :: e in s.local.mem ==> e in s.entered)
    && (s.local.file.Dumped? ==> forall e :: e in s.local.file.entries ==> e in s.entered)
  }

  lemma ValidIds(s: seq<Entry>, e: Entry, r: seq<Entry>)
    requires forall x :: x in s ==> ValidId(x.id)
    requires ValidId(e.id) && forall x :: x in r ==> x in s + [e]
    ensures forall x :: x in r ==> (x in s || x == e) && ValidId(x.id)
  {}

  lemma DifferentIds(s: seq<Entry>, x: Entry, k: Entry)
    requires Distinct(s) && x in s && k in s && x != k
    ensures x.id != k.id
  {}

  /** `remember` keeps the ledger sound; what it drops is older than a full ledger of other ids. */
  lemma RememberedFacts(mem: seq<Entry>, e: Entry, cfg: Config)
    requires Sound(mem, cfg) && !Has(mem, e.id) && ValidId(e.id) && cfg.maxEntries >= 1
    ensures Sound(Remembered(mem, e, cfg.maxEntries), cfg)
    ensures forall x :: x in Remembered(mem, e, cfg.maxEntries) ==> x in mem || x == e
    ensures forall x :: x in mem || x == e ==>
              x in Remembered(mem, e, cfg.maxEntries)
              || Crowded(Remembered(mem, e, cfg.maxEntries), x.id, x.ts, cfg)
  {
    AssignNew(mem, e);
    var s := mem + [e];
    assert s[..|mem|] == mem;
    assert Distinct(s);
    TrimKeepsNewest(s, cfg.maxEntries);
    var r := Remembered(mem, e, cfg.maxEntries);
    ValidIds(mem, e, r);
    forall x | (x in mem || x == e) && x !in r ensures Crowded(r, x.id, x.ts, cfg) {
      assert x in s;
      forall k | k in r ensures k.id != x.id && k.ts >= x.ts {
        DifferentIds(s, x, k);
      }
    }
  }

  /** The dumped file holds the same items. */
  lemma DumpFacts(r: seq<Entry>, cfg: Config)
    requires Sound(r, cfg)
    ensures Sound(KeyOrder(r), cfg)
    ensures forall x :: x in KeyOrder(r) <==> x in r
  {
    ReloadKeepsItems(r, cfg.maxEntries);
    assert |multiset(KeyOrder(r))| == |multiset(r)|;
    forall x ensures x in KeyOrder(r) <==> x in r {
      assert x in KeyOrder(r) <==> x in multiset(KeyOrder(r));
      assert x in r <==> x in multiset(r);
    }
  }

  lemma SoundReload(f: seq<Entry>, cfg: Config)
    requires Sound(f, cfg)
    ensures Loaded(Dumped(f), cfg.maxEntries) == f
  {
    assert [] + f == f;
    RestoreAll([], f);
  }

  /** A poll step either leaves the ledger alone or remembers one new id. */
  lemma PollLedger(l: Local, stem: string, now: int, f: Faults, cfg: Config)
    ensures var e := Entering(l, stem, now, f, cfg);
      var r := Consume(l, stem, now, f, cfg).0;
      if e.None? then r.mem == l.mem && r.file == l.file
      else
        && ValidId(e.value.id) && !Has(l.mem, e.value.id)
        && r.mem == Remembered(l.mem, Entry(e.value.id, e.value.ts), cfg.maxEntries)
        && r.file == FileAfter(l.file, r.mem, f.write)
  {
    hide Remembered, FileAfter, Fresh, Has;
  }

  lemma PollKeepsGood(s: Sys, a: Action, cfg: Config)
    requires Good(s, cfg) && a.Poll?
    ensures Good(Step(s, a, cfg), cfg)
  {
    var e := Entering(s.local, a.stem, a.now, a.faults, cfg);
    PollLedger(s.local, a.stem, a.now, a.faults, cfg);
    if e.Some? {
      RememberedFacts(s.local.mem, Entry(e.value.id, e.value.ts), cfg);
      DumpFacts(Step(s, a, cfg).local.mem, cfg);
    }
  }

  lemma StepKeepsGood(s: Sys, a: Action, cfg: Config)
    requires Good(s, cfg)
    ensures Good(Step(s, a, cfg), cfg)
  {
    if a.Poll? {
      PollKeepsGood(s, a, cfg);
    } else if a.ConsumerRestart? && a.readable && s.local.file.Dumped? {
      SoundReload(s.local.file.entries, cfg);
    }
  }

  lemma {:induction false} RunKeepsGood(s: Sys, acts: seq<Action>, cfg: Config)
    requires Good(s, cfg)
    ensures Good(Run(s, acts, cfg), cfg)
    decreases |acts|
  {
    if acts != [] {
      RunKeepsGood(s, acts[..|acts| - 1], cfg);
      StepKeepsGood(Run(s, acts[..|acts| - 1], cfg), acts[|acts| - 1], cfg);
    }
  }

  /** The ledger is full of other ids, none of them older than ts. */
  ghost predicate Crowded(mem: seq<Entry>, id: string, ts: int, cfg: Config) {
    |mem| == cfg.maxEntries && Distinct(mem) && forall k :: k in mem ==> k.id != id && k.ts >= ts
  }

  ghost predicate Holds(s: Sys, e: Entry) {
    e in s.local.mem && s.local.file.Dumped? && e in s.local.file.entries
  }

  lemma StepForgetsOnlyWhenCrowded(s: Sys, a: Action, e: Entry, cfg: Config)
    requires Good(s, cfg) && Holds(s, e)
    requires a.ConsumerRestart? ==> a.readable
    ensures Holds(Step(s, a, cfg), e) || Crowded(Step(s, a, cfg).local.mem, e.id, e.ts, cfg)
  {
    if a.Poll? {
      var x := Entering(s.local, a.stem, a.now, a.faults, cfg);
      PollLedger(s.local, a.stem, a.now, a.faults, cfg);
      if x.Some? {
        RememberedFacts(s.local.mem, Entry(x.value.id, x.value.ts), cfg);
        DumpFacts(Step(s, a, cfg).local.mem, cfg);
      }
    } else if a.ConsumerRestart? {
      SoundReload(s.local.file.entries, cfg);
    }
  }

  lemma DeliveryEnters(s: Sys, a: Action, cfg: Config)
    requires Good(s, cfg) && Delivered(s, a, cfg).Some?
    ensures !Has(s.local.mem, Delivered(s, a, cfg).value.id)
    ensures Acceptable(Delivered(s, a, cfg).value, a.now, cfg)
    ensures var m := Delivered(s, a, cfg).value;
      || Holds(Step(s, a, cfg), Entry(m.id, m.ts))
      || Crowded(Step(s, a, cfg).local.mem, m.id, m.ts, cfg)
    ensures var m := Delivered(s, a, cfg).value; Entry(m.id, m.ts) in Step(s, a, cfg).entered
  {
    var m := Delivered(s, a, cfg).value;
    PollLedger(s.local, a.stem, a.now, a.faults, cfg);
    RememberedFacts(s.local.mem, Entry(m.id, m.ts), cfg);
    DumpFacts(Step(s, a, cfg).local.mem, cfg);
  }

  /** One step of a run, seen from the states before and after it. */
  lemma RunStep(s: Sys, acts: seq<Action>, n: nat, e: Entry, cfg: Config)
    requires Good(s, cfg) && n < |acts| && (acts[n].ConsumerRestart? ==> acts[n].readable)
    ensures Holds(Run(s, acts[..n], cfg), e) ==>
              Holds(Run(s, acts[..n + 1], cfg), e) || Crowded(Run(s, acts[..n + 1], cfg).local.mem, e.id, e.ts, cfg)
  {
    assert acts[..n + 1][..n] == acts[..n];
    RunKeepsGood(s, acts[..n], cfg);
    if Holds(Run(s, acts[..n], cfg), e) {
      StepForgetsOnlyWhenCrowded(Run(s, acts[..n], cfg), acts[n], e, cfg);
    }
  }

  lemma FirstStep(s: Sys, acts: seq<Action>, a: nat, m: Message, cfg: Config)
    requires Good(s, cfg) && a < |acts| && Delivered(Run(s, acts[..a], cfg), acts[a], cfg) == Some(m)
    ensures Holds(Run(s, acts[..a + 1], cfg), Entry(m.id, m.ts))
            || Crowded(Run(s, acts[..a + 1], cfg).local.mem, m.id, m.ts, cfg)
  {
    assert acts[..a + 1][..a] == acts[..a];
    RunKeepsGood(s, acts[..a], cfg);
    DeliveryEnters(Run(s, acts[..a], cfg), acts[a], cfg);
  }

  ghost predicate CrowdedWithin(s: Sys, acts: seq<Action>, a: nat, n: nat, m: Message, cfg: Config)
    requires n <= |acts|
  {
    exists k :: a < k <= n && Crowded(Run(s, acts[..k], cfg).local.mem, m.id, m.ts, cfg)
  }

  lemma {:induction false} HeldOrCrowded(s: Sys, acts: seq<Action>, a: nat, n: nat, m: Message, cfg: Config)
    requires Good(s, cfg) && a < n <= |acts|
    requires Holds(Run(s, acts[..a + 1], cfg), Entry(m.id, m.ts))
             || Crowded(Run(s, acts[..a + 1], cfg).local.mem, m.id, m.ts, cfg)
    requires forall k :: a < k < n && acts[k].ConsumerRestart? ==> acts[k].readable
    ensures Holds(Run(s, acts[..n], cfg), Entry(m.id, m.ts)) || CrowdedWithin(s, acts, a, n, m, cfg)
    decreases n
  {
    hide Run, Step, Holds, Crowded, Good;
    if n == a + 1 {
    } else {
      HeldOrCrowded(s, acts, a, n - 1, m, cfg);
      RunStep(s, acts, n - 1, Entry(m.id, m.ts), cfg);
    }
  }

  /** The consumer restarts between two steps without being able to read its ledger file. */
  ghost predicate LedgerUnreadWithin(acts: seq<Action>, a: nat, b: nat)
    requires b <= |acts|
  {
    exists k :: a < k < b && acts[k] == ConsumerRestart(false)
  }

  /** In every run an id is handed out again only after the ledger was full of max_entries other ids,
      each at least as new, or after a restart that could not read the ledger file. */
  lemma RedeliveryNeedsCrowding(s: Sys, acts: seq<Action>, a: nat, b: nat, m: Message, again: Message, cfg: Config)
    requires Good(s, cfg)
    requires a < b < |acts|
    requires Delivered(Run(s, acts[..a], cfg), acts[a], cfg) == Some(m)
    requires Delivered(Run(s, acts[..b], cfg), acts[b], cfg) == Some(again)
    requires m.id == again.id
    ensures CrowdedWithin(s, acts, a, b, m, cfg) || LedgerUnreadWithin(acts, a, b)
  {
    if !LedgerUnreadWithin(acts, a, b) {
      FirstStep(s, acts, a, m, cfg);
      HeldOrCrowded(s, acts, a, b, m, cfg);
      RunKeepsGood(s, acts[..b], cfg);
      DeliveryEnters(Run(s, acts[..b], cfg), acts[b], cfg);
    }
  }

  // ---- a message that is taken in and not handed out

  /** A restart after which the ledger does not hold this entry: its file cannot be read or does not have it. */
  ghost predicate Forgets(s: Sys, a: Action, e: Entry) {
    a.ConsumerRestart? && !(a.readable && s.local.file.Dumped? && e in s.local.file.entries)
  }

  ghost predicate ForgottenWithin(s: Sys, acts: seq<Action>, a: nat, n: nat, e: Entry, cfg: Config)
    requires n <= |acts|
  {
    exists k :: a < k < n && Forgets(Run(s, acts[..k], cfg), acts[k], e)
  }

  /** Step b hands out a message with this id. */
  ghost predicate HandsOut(s: Sys, acts: seq<Action>, b: nat, id: string, cfg: Config)
    requires b < |acts|
  {
    var out := Delivered(Run(s, acts[..b], cfg), acts[b], cfg);
    out.Some? && out.value.id == id
  }

  /** Poll step a puts this message into the ledger. */
  ghost predicate TakesIn(s: Sys, acts: seq<Action>, a: nat, m: Message, cfg: Config)
    requires a < |acts|
  {
    acts[a].Poll? && Entering(Run(s, acts[..a], cfg).local, acts[a].stem, acts[a].now, acts[a].faults, cfg) == Some(m)
  }

  lemma StepRemembers(s: Sys, a: Action, e: Entry, cfg: Config)
    requires Good(s, cfg) && !Forgets(s, a, e)
    requires e in s.local.mem
             || (a.Poll? && exists m :: Entering(s.local, a.stem, a.now, a.faults, cfg) == Some(m) && e == Entry(m.id, m.ts))
    ensures e in Step(s, a, cfg).local.mem || Crowded(Step(s, a, cfg).local.mem, e.id, e.ts, cfg)
  {
    if a.Poll? {
      var x := Entering(s.local, a.stem, a.now, a.faults, cfg);
      PollLedger(s.local, a.stem, a.now, a.faults, cfg);
      if x.Some? {
        RememberedFacts(s.local.mem, Entry(x.value.id, x.value.ts), cfg);
      }
    } else if a.ConsumerRestart? {
      SoundReload(s.local.file.entries, cfg);
    }
  }

  lemma {:induction false} RememberedOrCrowded(s: Sys, acts: seq<Action>, a: nat, n: nat, m: Message, cfg: Config)
    requires Good(s, cfg) && a < n <= |acts| && TakesIn(s, acts, a, m, cfg)
    requires !ForgottenWithin(s, acts, a, n, Entry(m.id, m.ts), cfg)
    ensures Entry(m.id, m.ts) in Run(s, acts[..n], cfg).local.mem || CrowdedWithin(s, acts, a, n, m, cfg)
    decreases n
  {
    var e := Entry(m.id, m.ts);
    var before := Run(s, acts[..n - 1], cfg);
    assert acts[..n][..n - 1] == acts[..n - 1];
    RunKeepsGood(s, acts[..n - 1], cfg);
    if n > a + 1 {
      RememberedOrCrowded(s, acts, a, n - 1, m, cfg);
    }
    hide Run, Step, Crowded, Good;
    if n == a + 1 || e in before.local.mem {
      assert Forgets(before, acts[n - 1], e) ==> n - 1 > a;
      StepRemembers(before, acts[n - 1], e, cfg);
      assert Run(s, acts[..n], cfg) == Step(before, acts[n - 1], cfg) by { RunLast(s, acts[..n], cfg); }
    }
  }

  lemma RunLast(s: Sys, acts: seq<Action>, cfg: Config)
    requires acts != []
    ensures Run(s, acts, cfg) == Step(Run(s, acts[..|acts| - 1], cfg), acts[|acts| - 1], cfg)
  {}

  /** A message that the ledger has taken in is handed out in that very step or not at all: exactly if writing the
      ledger succeeds there. It can come back only through a crowd or a restart that forgets it. */
  lemma HandedOutIff(s: Sys, acts: seq<Action>, a: nat, m: Message, cfg: Config)
    requires Good(s, cfg) && a < |acts| && TakesIn(s, acts, a, m, cfg)
    requires !CrowdedWithin(s, acts, a, |acts|, m, cfg) && !ForgottenWithin(s, acts, a, |acts|, Entry(m.id, m.ts), cfg)
    ensures HandsOut(s, acts, a, m.id, cfg) <==> acts[a].faults.write.Written?
    ensures forall b :: a < b < |acts| ==> !HandsOut(s, acts, b, m.id, cfg)
  {
    forall b | a < b < |acts| ensures !HandsOut(s, acts, b, m.id, cfg) {
      RememberedOrCrowded(s, acts, a, b, m, cfg);
      if HandsOut(s, acts, b, m.id, cfg) {
        RunKeepsGood(s, acts[..b], cfg);
        DeliveryEnters(Run(s, acts[..b], cfg), acts[b], cfg);
      }
    }
    hide Run, Acceptable, Remembered, FileAfter;
  }

  // ---- the time window

  function WindowIds(entered: set<Entry>, from: int, cfg: Config): (r: set<string>) {
    set e | e in entered && from <= e.ts <= from + cfg.maxAge + FUTURE_SLACK_MS :: e.id
  }

  /** No window of max_age + 60 s holds the timestamps of more than max_entries ids. */
  ghost predicate Sparse(entered: set<Entry>, cfg: Config) {
    forall from :: |WindowIds(entered, from, cfg)| <= cfg.maxEntries
  }

  /** The consumer's clock never goes back. */
  ghost predicate Monotone(s: Sys, acts: seq<Action>, cfg: Config) {
    forall n :: 0 <= n < |acts| && acts[n].Poll? ==> Run(s, acts[..n], cfg).clock <= acts[n].now
  }

  ghost predicate Bounded(s: Sys) {
    forall e :: e in s.entered ==> e.ts <= s.clock + FUTURE_SLACK_MS
  }

  lemma StepClock(s: Sys, a: Action, cfg: Config)
    requires Bounded(s) && (a.Poll? ==> s.clock <= a.now)
    ensures Bounded(Step(s, a, cfg)) && s.clock <= Step(s, a, cfg).clock && s.entered <= Step(s, a, cfg).entered
  {
    hide Consume;
  }

  lemma {:induction false} RunClock(s: Sys, acts: seq<Action>, a: nat, n: nat, cfg: Config)
    requires a <= n <= |acts| && Monotone(s, acts, cfg) && Bounded(s)
    ensures Bounded(Run(s, acts[..n], cfg))
    ensures Run(s, acts[..a], cfg).clock <= Run(s, acts[..n], cfg).clock
    ensures Run(s, acts[..a], cfg).entered <= Run(s, acts[..n], cfg).entered
    decreases n
  {
    hide Step, Bounded;
    if n == 0 {
      assert acts[..n] == [];
    } else {
      assert acts[..n][..n - 1] == acts[..n - 1];
      RunClock(s, acts, if a < n then a else n - 1, n - 1, cfg);
      StepClock(Run(s, acts[..n - 1], cfg), acts[n - 1], cfg);
    }
  }

  lemma {:induction false} IdsCounted(mem: seq<Entry>)
    requires Distinct(mem)
    ensures |set e | e in mem :: e.id| == |mem|
  {
    if mem != [] {
      hide Distinct;
      var t := mem[1..];
      IdsCounted(t);
      SeqStep(mem[0], t);
      assert mem == [mem[0]] + t;
      assert (set e | e in mem :: e.id) == {mem[0].id} + (set e | e in t :: e.id);
    }
  }

  lemma SubsetCount(a: set<string>, b: set<string>)
    requires a <= b
    ensures |a| <= |b|
  {
    assert b == a + (b - a);
  }

  /** At most once: with a clock that never goes back and at most max_entries ids in any
      window of max_age + 60 s, no message is handed out twice, however often the relay
      pulls it again, unless a restart in between cannot read the ledger file. */
  lemma AtMostOnce(s: Sys, acts: seq<Action>, a: nat, b: nat, cfg: Config)
    requires Good(s, cfg) && Bounded(s) && Monotone(s, acts, cfg)
    requires Sparse(Run(s, acts, cfg).entered, cfg)
    requires a < b < |acts|
    requires Delivered(Run(s, acts[..a], cfg), acts[a], cfg).Some?
    ensures Delivered(Run(s, acts[..a], cfg), acts[a], cfg) != Delivered(Run(s, acts[..b], cfg), acts[b], cfg)
            || LedgerUnreadWithin(acts, a, b)
  {
    var first := Delivered(Run(s, acts[..a], cfg), acts[a], cfg);
    if first == Delivered(Run(s, acts[..b], cfg), acts[b], cfg) && !LedgerUnreadWithin(acts, a, b) {
      var m := first.value;
      RedeliveryNeedsCrowding(s, acts, a, b, m, m, cfg);
      var k :| a < k <= b && Crowded(Run(s, acts[..k], cfg).local.mem, m.id, m.ts, cfg);
      CrowdFillsWindow(s, acts, a, k, b, m, cfg);
    }
  }

  /** A crowd seen no later than a fresh second delivery overfills the window that starts at the message. */
  lemma CrowdFillsWindow(s: Sys, acts: seq<Action>, a: nat, k: nat, b: nat, m: Message, cfg: Config)
    requires Good(s, cfg) && Bounded(s) && Monotone(s, acts, cfg)
    requires a < k <= b < |acts|
    requires Delivered(Run(s, acts[..a], cfg), acts[a], cfg) == Some(m)
    requires Delivered(Run(s, acts[..b], cfg), acts[b], cfg) == Some(m)
    requires Crowded(Run(s, acts[..k], cfg).local.mem, m.id, m.ts, cfg)
    ensures !Sparse(Run(s, acts, cfg).entered, cfg)
  {
    var at := Run(s, acts[..k], cfg);
    var now := acts[b].now;
    var end := Run(s, acts, cfg);
    assert at.clock <= now && at.entered <= end.entered && Bounded(at) by {
      assert acts[..|acts|] == acts;
      RunClock(s, acts, k, b, cfg);
      RunClock(s, acts, k, |acts|, cfg);
      RunClock(s, acts, k, k, cfg);
    }
    assert Good(at, cfg) by { RunKeepsGood(s, acts[..k], cfg); }
    assert Fresh(m.ts, now, cfg.maxAge) by {
      RunKeepsGood(s, acts[..b], cfg);
      DeliveryEnters(Run(s, acts[..b], cfg), acts[b], cfg);
    }
    assert Entry(m.id, m.ts) in end.entered by {
      RunKeepsGood(s, acts[..a], cfg);
      DeliveryEnters(Run(s, acts[..a], cfg), acts[a], cfg);
      assert acts[..a + 1][..a] == acts[..a];
      assert acts[..|acts|] == acts;
      RunClock(s, acts, a + 1, |acts|, cfg);
    }
    CrowdCounts(at.local.mem, end.entered, m, now, cfg);
  }

  lemma CrowdCounts(mem: seq<Entry>, entered: set<Entry>, m: Message, now: int, cfg: Config)
    requires Crowded(mem, m.id, m.ts, cfg) && Fresh(m.ts, now, cfg.maxAge)
    requires forall e :: e in mem ==> e in entered && e.ts <= now + FUTURE_SLACK_MS
    requires Entry(m.id, m.ts) in entered
    ensures |WindowIds(entered, m.ts, cfg)| > cfg.maxEntries
  {
    var crowd := set e | e in mem :: e.id;
    IdsCounted(mem);
    var w := WindowIds(entered, m.ts, cfg);
    forall e | e in mem ensures e.id in w {
      assert e in entered && m.ts <= e.ts <= m.ts + cfg.maxAge + FUTURE_SLACK_MS;
    }
    assert m.id in w by {
      assert Entry(m.id, m.ts).id == m.id;
      assert cfg.maxAge + FUTURE_SLACK_MS >= 0;
    }
    SubsetCount(crowd + {m.id}, w);
  }
}
