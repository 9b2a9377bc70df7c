/** Folding overlapping telemetry windows of an event log into memory and trust
    (goblin_zomboid/mind.py, GoblinMind.observe and adjust_trust). */
module Observe {
  import Episodes

  /** One entry of a snapshot's event list; Junk is anything without an integer sequence number. */
  datatype Item = Junk | Event(seq_: int, kind: string, text: string)

  const NEUTRAL_TRUST := 0.6

  function Contains(s: string, part: string): (r: bool)
    decreases |s|
  {
    part <= s || (s != [] && Contains(s[1..], part))
  }

  function Clamp01(x: real): (r: real) {
    if x < 0.0 then 0.0 else if x > 1.0 then 1.0 else x
  }

  /** adjust_trust for one recorded event. */
  function Trusting(score: real, e: Item): (r: real) {
    if e.Junk? then score
    else if e.kind == "horde" then Clamp01(score - 0.03)
    else if e.kind == "owner_hurt" then Clamp01(score - 0.01)
    else if e.kind == "job" && Contains(e.text, "COMPLETE") then Clamp01(score + 0.005)
    else score
  }

  function TrustOver(score: real, events: seq<Item>): (r: real)
    decreases |events|
  {
    if events == [] then score else Trusting(TrustOver(score, events[..|events| - 1]), events[|events| - 1])
  }

  /** What is remembered of one companion: last sequence number seen, trust, and every event recorded. */
  datatype View = View(last: int, trust: real, folded: seq<Item>)

  function Max(a: int, b: int): (r: int) { if a < b then b else a }

  /** The events of a snapshot that are newer than last, in order. */
  function Newer(items: seq<Item>, last: int): (r: seq<Item>)
    decreases |items|
  {
    if items == [] then []
    else Newer(items[..|items| - 1], last)
         + (if items[|items| - 1].Event? && items[|items| - 1].seq_ > last then [items[|items| - 1]] else [])
  }

  function MaxSeq(from: int, events: seq<Item>): (r: int)
    decreases |events|
  {
    if events == [] then from
    else
      var m := MaxSeq(from, events[..|events| - 1]);
      if events[|events| - 1].Event? then Max(m, events[|events| - 1].seq_) else m
  }

  /** Every sequence number of a snapshot lies below last: the game restarted its log. */
  predicate LogRestarted(items: seq<Item>, last: int) {
    (exists i :: 0 <= i < |items| && items[i].Event?)
    && forall i :: 0 <= i < |items| && items[i].Event? ==> items[i].seq_ < last
  }

  function Observed(v: View, items: seq<Item>): (r: View) {
    var last := if LogRestarted(items, v.last) then 0 else v.last;
    var recent := Newer(items, last);
    View(MaxSeq(last, recent), TrustOver(v.trust, recent), v.folded + recent)
  }

  function ObservedAll(v: View, snapshots: seq<seq<Item>>): (r: View)
    decreases |snapshots|
  {
    if snapshots == [] then v else Observed(ObservedAll(v, snapshots[..|snapshots| - 1]), snapshots[|snapshots| - 1])
  }

  // ---- what is read off any snapshot

  lemma {:induction false} ContainedBetween(head: string, part: string, tail: string)
    ensures Contains(head + part + tail, part)
    decreases |head|
  {
    var s := head + part + tail;
    if head == "" {
      assert s == part + tail;
    } else {
      assert s[1..] == head[1..] + part + tail;
      ContainedBetween(head[1..], part, tail);
    }
  }

  lemma {:induction false} ContainsSplits(s: string, part: string) returns (head: string, tail: string)
    requires Contains(s, part)
    ensures s == head + part + tail
    decreases |s|
  {
    if part <= s {
      head, tail := "", s[|part|..];
    } else {
      head, tail := ContainsSplits(s[1..], part);
      head := [s[0]] + head;
    }
  }

  /** `part in text`. */
  lemma ContainsIs(s: string, part: string)
    ensures Contains(s, part) <==> exists head, tail :: s == head + part + tail
  {
    if Contains(s, part) {
      var head, tail := ContainsSplits(s, part);
    }
    forall head, tail | s == head + part + tail ensures Contains(s, part) {
      ContainedBetween(head, part, tail);
    }
  }

  /** Trust falls by 0.03 for a horde and by 0.01 for a hurt owner, rises by 0.005 for a job whose text says COMPLETE, moves
      for nothing else, and stays between 0 and 1. */
  lemma TrustingIs(score: real, e: Item)
    requires e.Event? && 0.0 <= score <= 1.0
    ensures var r := Trusting(score, e);
      && 0.0 <= r <= 1.0
      && (e.kind == "horde" ==> r == if score >= 0.03 then score - 0.03 else 0.0)
      && (e.kind == "owner_hurt" ==> r == if score >= 0.01 then score - 0.01 else 0.0)
      && (e.kind == "job" && Contains(e.text, "COMPLETE") ==> r == if score <= 0.995 then score + 0.005 else 1.0)
      && (e.kind != "horde" && e.kind != "owner_hurt" && !(e.kind == "job" && Contains(e.text, "COMPLETE")) ==> r == score)
  {
    hide Contains;
  }

  lemma {:induction false} TrustStays(score: real, events: seq<Item>)
    requires 0.0 <= score <= 1.0
    ensures 0.0 <= TrustOver(score, events) <= 1.0
  {
    hide Trusting;
    if events != [] {
      TrustStays(score, events[..|events| - 1]);
      var last := events[|events| - 1];
      if last.Event? { TrustingIs(TrustOver(score, events[..|events| - 1]), last); } else { JunkMovesNothing(TrustOver(score, events[..|events| - 1])); }
    }
  }

  lemma JunkMovesNothing(score: real)
    ensures Trusting(score, Junk) == score
  {}

  predicate IsNewer(e: Item, last: int) {
    e.Event? && e.seq_ > last
  }

  /** Of any snapshot, in whatever order its events come, exactly the events beyond the position are new, each as often as
      it is there. */
  lemma {:induction false} NewerHas(items: seq<Item>, last: int, x: Item)
    ensures multiset(Newer(items, last))[x] == if IsNewer(x, last) then multiset(items)[x] else 0
    decreases |items|
  {
    if items != [] {
      NewerHas(items[..|items| - 1], last, x);
      assert items == items[..|items| - 1] + [items[|items| - 1]];
    }
  }

  /** Their order is kept. */
  lemma {:induction false} NewerCat(a: seq<Item>, b: seq<Item>, last: int)
    ensures Newer(a + b, last) == Newer(a, last) + Newer(b, last)
    decreases |b|
  {
    if b == [] {
      assert a + b == a;
    } else {
      var front, e := b[..|b| - 1], b[|b| - 1];
      assert (a + b)[..|a + b| - 1] == a + front;
      NewerCat(a, front, last);
      var more := if e.Event? && e.seq_ > last then [e] else [];
      assert Newer(a, last) + Newer(front, last) + more == Newer(a, last) + (Newer(front, last) + more);
    }
  }

  /** The position rises to the greatest sequence number. */
  lemma {:induction false} MaxSeqIs(from: int, events: seq<Item>)
    ensures var m := MaxSeq(from, events);
      && m >= from && (forall i :: 0 <= i < |events| && events[i].Event? ==> events[i].seq_ <= m)
      && (m == from || exists i :: 0 <= i < |events| && events[i].Event? && events[i].seq_ == m)
    decreases |events|
  {
    if events != [] {
      var front := events[..|events| - 1];
      MaxSeqIs(from, front);
      assert forall i :: 0 <= i < |front| ==> front[i] == events[i];
    }
  }

  const Blank := View(0, NEUTRAL_TRUST, [])

  // ---- windows of one log

  /** An event log: real events, strictly increasing positive sequence numbers. */
  ghost predicate Log(log: seq<Item>) {
    && (forall i :: 0 <= i < |log| ==> log[i].Event? && log[i].seq_ > 0)
    && (forall i, j :: 0 <= i < j < |log| ==> log[i].seq_ < log[j].seq_)
  }

  datatype Window = Window(from: nat, to: nat)

  function Reach(windows: seq<Window>): (r: nat)
    decreases |windows|
  {
    if windows == [] then 0
    else
      var before := Reach(windows[..|windows| - 1]);
      if windows[|windows| - 1].to > before then windows[|windows| - 1].to else before
  }

  ghost predicate Within(windows: seq<Window>, log: seq<Item>) {
    forall i :: 0 <= i < |windows| ==> windows[i].from <= windows[i].to <= |log|
  }

  /** Each window starts no later than what earlier ones have reached. */
  ghost predicate GapFree(windows: seq<Window>) {
    forall i :: 0 <= i < |windows| ==> windows[i].from <= Reach(windows[..i])
  }

  /** No window that shows an event ends before an earlier one did. */
  ghost predicate NeverBack(windows: seq<Window>) {
    forall i :: 0 <= i < |windows| ==> windows[i].from == windows[i].to || windows[i].to >= Reach(windows[..i])
  }

  function Snapshots(windows: seq<Window>, log: seq<Item>): (r: seq<seq<Item>>)
    requires forall i :: 0 <= i < |windows| ==> windows[i].from <= windows[i].to <= |log|
  {
    seq(|windows|, i requires 0 <= i < |windows| => log[windows[i].from..windows[i].to])
  }

  lemma {:induction false} NewerAll(log: seq<Item>, a: nat, b: nat, last: int)
    requires a <= b <= |log| && forall i :: a <= i < b ==> log[i].Event? && log[i].seq_ > last
    ensures Newer(log[a..b], last) == log[a..b]
    decreases b - a
  {
    if a < b {
      assert log[a..b][..b - a - 1] == log[a..b - 1] && log[a..b][b - a - 1] == log[b - 1];
      NewerAll(log, a, b - 1, last);
      assert log[a..b] == log[a..b - 1] + [log[b - 1]];
    }
  }

  /** Of a window, only what lies beyond the last position seen is new. */
  lemma {:induction false} NewerFrom(log: seq<Item>, a: nat, c: nat, b: nat, last: int)
    requires a <= c <= b <= |log|
    requires forall i :: a <= i < c ==> log[i].Event? ==> log[i].seq_ <= last
    requires forall i :: c <= i < b ==> log[i].Event? && log[i].seq_ > last
    ensures Newer(log[a..b], last) == log[c..b]
    decreases b - c
  {
    if c == b {
      NewerNone(log, a, b, last);
    } else {
      assert log[a..b][..b - a - 1] == log[a..b - 1] && log[a..b][b - a - 1] == log[b - 1];
      NewerFrom(log, a, c, b - 1, last);
      assert log[c..b] == log[c..b - 1] + [log[b - 1]];
    }
  }

  lemma {:induction false} NewerNone(log: seq<Item>, a: nat, b: nat, last: int)
    requires a <= b <= |log| && forall i :: a <= i < b ==> log[i].Event? ==> log[i].seq_ <= last
    ensures Newer(log[a..b], last) == []
    decreases b - a
  {
    if a < b {
      assert log[a..b][..b - a - 1] == log[a..b - 1] && log[a..b][b - a - 1] == log[b - 1];
      NewerNone(log, a, b - 1, last);
    }
  }

  lemma {:induction false} MaxSeqOfLog(log: seq<Item>, a: nat, b: nat, from: int)
    requires Log(log) && a <= b <= |log|
    requires forall i :: a <= i < b ==> from <= log[i].seq_
    ensures MaxSeq(from, log[a..b]) == if a < b then log[b - 1].seq_ else from
    decreases b - a
  {
    if a < b {
      assert log[a..b][..b - a - 1] == log[a..b - 1] && log[a..b][b - a - 1] == log[b - 1];
      MaxSeqOfLog(log, a, b - 1, from);
    }
  }

  lemma {:induction false} TrustConcat(score: real, a: seq<Item>, b: seq<Item>)
    ensures TrustOver(score, a + b) == TrustOver(TrustOver(score, a), b)
    decreases |b|
  {
    if b == [] {
      assert a + b == a;
    } else {
      assert (a + b)[..|a + b| - 1] == a + b[..|b| - 1];
      TrustConcat(score, a, b[..|b| - 1]);
    }
  }

  /** The view after everything up to position n was recorded once. */
  ghost predicate UpTo(v: View, log: seq<Item>, n: nat)
    requires n <= |log| && Log(log)
  {
    v.folded == log[..n] && v.last == (if n == 0 then 0 else log[n - 1].seq_) && v.trust == TrustOver(NEUTRAL_TRUST, log[..n])
  }

  /** Where the sequence numbers of a window lie relative to position n. */
  lemma WindowSeqs(log: seq<Item>, n: nat, a: nat, b: nat)
    requires Log(log) && 0 < n <= |log| && a <= b <= |log|
    ensures forall i :: a <= i < b ==> log[i].Event?
    ensures forall i :: a <= i < b && i < n ==> log[i].seq_ <= log[n - 1].seq_
    ensures forall i :: a <= i < b && i >= n ==> log[i].seq_ > log[n - 1].seq_
    ensures b < n ==> forall i :: a <= i < b ==> log[i].seq_ < log[n - 1].seq_
  {}

  lemma NotRestarted(log: seq<Item>, n: nat, a: nat, b: nat, last: int)
    requires Log(log) && n <= |log| && a < b <= |log| && b >= n && last == (if n == 0 then 0 else log[n - 1].seq_)
    ensures !LogRestarted(log[a..b], last)
  {
    var w := log[a..b];
    assert w[|w| - 1] == log[b - 1] && log[b - 1].seq_ >= last;
  }

  /** What is new in a window that reaches at least as far. */
  lemma NewBeyond(log: seq<Item>, n: nat, a: nat, b: nat, last: int)
    requires Log(log) && a <= n <= b <= |log| && last == (if n == 0 then 0 else log[n - 1].seq_)
    ensures Newer(log[a..b], last) == log[n..b]
    ensures MaxSeq(last, log[n..b]) == if n < b then log[b - 1].seq_ else last
  {
    if n > 0 { WindowSeqs(log, n, a, b); }
    hide Newer, MaxSeq;
    NewerFrom(log, a, n, b, last);
    MaxSeqOfLog(log, n, b, last);
  }

  lemma NothingObserved(v: View)
    ensures Observed(v, []) == v
  {
    assert v.folded + [] == v.folded;
  }

  lemma ForwardWindow(v: View, log: seq<Item>, n: nat, a: nat, b: nat)
    requires Log(log) && n <= |log| && UpTo(v, log, n) && a <= n && a <= b <= |log|
    requires a == b || b >= n
    ensures UpTo(Observed(v, log[a..b]), log, if b > n then b else n)
  {
    hide Log, LogRestarted, Newer, MaxSeq, TrustOver;
    if a == b {
      assert log[a..b] == [];
      NothingObserved(v);
    } else {
      NotRestarted(log, n, a, b, v.last);
      NewBeyond(log, n, a, b, v.last);
      assert log[..n] + log[n..b] == log[..b];
      TrustConcat(NEUTRAL_TRUST, log[..n], log[n..b]);
    }
  }

  /** A window that ends before what was reached is taken for a new log and recorded again. */
  lemma BackwardWindow(v: View, log: seq<Item>, n: nat, a: nat, b: nat)
    requires Log(log) && n <= |log| && UpTo(v, log, n) && a < b < n
    ensures Observed(v, log[a..b]).folded == log[..n] + log[a..b]
  {
    var w := log[a..b];
    WindowSeqs(log, n, a, b);
    assert w[0] == log[a];
    assert LogRestarted(w, v.last);
    NewerAll(log, a, b, 0);
  }

  lemma {:induction false} FoldedGrows(v: View, snapshots: seq<seq<Item>>)
    ensures v.folded <= ObservedAll(v, snapshots).folded
    decreases |snapshots|
  {
    if snapshots != [] {
      FoldedGrows(v, snapshots[..|snapshots| - 1]);
    }
  }

  lemma {:induction false} ObservedConcat(v: View, a: seq<seq<Item>>, b: seq<seq<Item>>)
    ensures ObservedAll(v, a + b) == ObservedAll(ObservedAll(v, a), b)
    decreases |b|
  {
    if b == [] {
      assert a + b == a;
    } else {
      assert (a + b)[..|a + b| - 1] == a + b[..|b| - 1];
      ObservedConcat(v, a, b[..|b| - 1]);
    }
  }

  lemma {:induction false} ReachWithin(windows: seq<Window>, log: seq<Item>)
    requires Within(windows, log)
    ensures Reach(windows) <= |log|
    decreases |windows|
  {
    if windows != [] {
      ReachWithin(windows[..|windows| - 1], log);
    }
  }

  /** Conditions on a list of windows hold of its beginnings. */
  lemma Beginning(windows: seq<Window>, log: seq<Item>, k: nat)
    requires Within(windows, log) && GapFree(windows) && k <= |windows|
    ensures Within(windows[..k], log) && GapFree(windows[..k])
    ensures NeverBack(windows) ==> NeverBack(windows[..k])
    ensures Snapshots(windows, log)[..k] == Snapshots(windows[..k], log)
  {
    forall i | 0 <= i < k ensures windows[..k][..i] == windows[..i] {}
  }

  lemma LastWindow(v: View, log: seq<Item>, windows: seq<Window>)
    requires Log(log) && Within(windows, log) && GapFree(windows) && NeverBack(windows) && windows != []
    requires var init := windows[..|windows| - 1]; Reach(init) <= |log| && UpTo(v, log, Reach(init))
    ensures var w := windows[|windows| - 1];
      Reach(windows) <= |log| && UpTo(Observed(v, log[w.from..w.to]), log, Reach(windows))
  {
    var w, n := windows[|windows| - 1], Reach(windows[..|windows| - 1]);
    assert w.from <= n && w.from <= w.to <= |log| && (w.from == w.to || w.to >= n);
    hide Log, UpTo, Observed;
    ForwardWindow(v, log, n, w.from, w.to);
  }

  /** Exactly once: overlapping and repeated gap-free windows that never go back record every
      event once, in order, and trust is the clamped fold over the log. */
  lemma {:induction false} ExactlyOnce(windows: seq<Window>, log: seq<Item>)
    requires Log(log) && Within(windows, log) && GapFree(windows) && NeverBack(windows)
    ensures Reach(windows) <= |log| && UpTo(ObservedAll(Blank, Snapshots(windows, log)), log, Reach(windows))
    decreases |windows|
  {
    if windows == [] {
      assert log[..0] == [];
    } else {
      var k := |windows| - 1;
      hide Log, UpTo, Observed, GapFree, NeverBack, Reach;
      Beginning(windows, log, k);
      ExactlyOnce(windows[..k], log);
      LastWindow(ObservedAll(Blank, Snapshots(windows[..k], log)), log, windows);
    }
  }

  lemma NoTwice(log: seq<Item>, n: nat, a: nat, b: nat, folded: seq<Item>, m: nat)
    requires Log(log) && a < b < n <= |log| && m <= |log|
    requires log[..n] + log[a..b] <= folded
    ensures folded != log[..m]
  {
    assert (log[..n] + log[a..b])[a] == log[a] && (log[..n] + log[a..b])[n] == log[a];
    assert folded[a] == folded[n];
  }

  /** The condition is exact: for gap-free windows, the record is the log's prefix (every event
      once) if and only if no window goes back. */
  lemma {:induction false} ExactlyOnceIff(windows: seq<Window>, log: seq<Item>)
    requires Log(log) && Within(windows, log) && GapFree(windows)
    ensures Reach(windows) <= |log|
    ensures ObservedAll(Blank, Snapshots(windows, log)).folded == log[..Reach(windows)] <==> NeverBack(windows)
  {
    ReachWithin(windows, log);
    if NeverBack(windows) {
      ExactlyOnce(windows, log);
    } else {
      assert windows[..|windows|] == windows;
      FirstBack(windows, log, |windows|);
    }
  }

  lemma {:induction false} FirstBack(windows: seq<Window>, log: seq<Item>, k: nat)
    requires Log(log) && Within(windows, log) && GapFree(windows) && k <= |windows|
    requires !NeverBack(windows[..k])
    ensures Reach(windows) <= |log| && ObservedAll(Blank, Snapshots(windows, log)).folded != log[..Reach(windows)]
    decreases k
  {
    assert k > 0;
    if NeverBack(windows[..k - 1]) {
      BackAt(windows, log, k);
    } else {
      FirstBack(windows, log, k - 1);
    }
  }

  lemma OnlyLastGoesBack(windows: seq<Window>)
    requires windows != [] && NeverBack(windows[..|windows| - 1]) && !NeverBack(windows)
    ensures var w := windows[|windows| - 1]; w.from != w.to && w.to < Reach(windows[..|windows| - 1])
  {
    hide Reach;
    var init := windows[..|windows| - 1];
    forall i | 0 <= i < |init| ensures init[..i] == windows[..i] && init[i] == windows[i] {}
  }

  /** A window that goes back after ones that did not: its events are recorded a second time. */
  lemma BackOnce(windows: seq<Window>, log: seq<Item>)
    requires Log(log) && Within(windows, log) && GapFree(windows) && windows != []
    requires NeverBack(windows[..|windows| - 1]) && !NeverBack(windows)
    ensures var n, w := Reach(windows[..|windows| - 1]), windows[|windows| - 1];
      && n <= |log| && w.from < w.to < n
      && ObservedAll(Blank, Snapshots(windows, log)).folded == log[..n] + log[w.from..w.to]
  {
    var k := |windows| - 1;
    var init, w := windows[..k], windows[k];
    OnlyLastGoesBack(windows);
    hide Log, Observed, GapFree, NeverBack, Reach;
    Beginning(windows, log, k);
    ReachWithin(init, log);
    ExactlyOnce(init, log);
    hide UpTo;
    BackwardWindow(ObservedAll(Blank, Snapshots(init, log)), log, Reach(init), w.from, w.to);
  }

  lemma DuplicateStays(log: seq<Item>, n: nat, a: nat, b: nat, first: seq<seq<Item>>, rest: seq<seq<Item>>, m: nat)
    requires Log(log) && a < b < n <= |log| && m <= |log|
    requires ObservedAll(Blank, first).folded == log[..n] + log[a..b]
    ensures ObservedAll(Blank, first + rest).folded != log[..m]
  {
    hide Log, Observed, ObservedAll;
    ObservedConcat(Blank, first, rest);
    FoldedGrows(ObservedAll(Blank, first), rest);
    NoTwice(log, n, a, b, ObservedAll(Blank, first + rest).folded, m);
  }

  lemma BackAt(windows: seq<Window>, log: seq<Item>, k: nat)
    requires Log(log) && Within(windows, log) && GapFree(windows) && 0 < k <= |windows|
    requires NeverBack(windows[..k - 1]) && !NeverBack(windows[..k])
    ensures Reach(windows) <= |log| && ObservedAll(Blank, Snapshots(windows, log)).folded != log[..Reach(windows)]
  {
    hide Log, Observed, ObservedAll, GapFree, NeverBack, Reach;
    ReachWithin(windows, log);
    Beginning(windows, log, k);
    assert windows[..k][..k - 1] == windows[..k - 1];
    BackOnce(windows[..k], log);
    var all := Snapshots(windows, log);
    assert all == all[..k] + all[k..];
    hide Snapshots;
    DuplicateStays(log, Reach(windows[..k - 1]), windows[k - 1].from, windows[k - 1].to, all[..k], all[k..], Reach(windows));
  }

  /** A service restart forgets the last sequence number, so the next window is recorded again in full. */
  lemma RestartRecordsAgain(v: View, log: seq<Item>, a: nat, b: nat)
    requires Log(log) && a <= b <= |log|
    ensures Observed(v.(last := 0), log[a..b]).folded == v.folded + log[a..b]
  {
    NewerAll(log, a, b, 0);
  }

  // ---- what is stored of it

  /** What an event weighs: importance and valence by kind and text. */
  type Weighing = (string, string) -> (real, real)

  /** The arguments of record for one event; junk is never recorded. */
  function RecordOf(npc: string, weigh: Weighing, e: Item): (r: Episodes.Record) {
    if e.Junk? then Episodes.Record(npc, "", "", 0.0, 0.0)
    else Episodes.Record(npc, e.kind, e.text, weigh(e.kind, e.text).0, weigh(e.kind, e.text).1)
  }

  /** The calls of record for these events. */
  function Calls(npc: string, weigh: Weighing, events: seq<Item>): (r: seq<Episodes.Record>) {
    seq(|events|, i requires 0 <= i < |events| => RecordOf(npc, weigh, events[i]))
  }

  lemma NoCalls(npc: string, weigh: Weighing, t: Episodes.Table)
    ensures Episodes.Play(t, Calls(npc, weigh, [])) == t
  {}

  lemma OneCallMore(npc: string, weigh: Weighing, events: seq<Item>, e: Item, t: Episodes.Table)
    ensures Episodes.Play(t, Calls(npc, weigh, events + [e]))
            == Episodes.Recorded(Episodes.Play(t, Calls(npc, weigh, events)), RecordOf(npc, weigh, e))
  {
    hide Episodes.Recorded;
    var more := Calls(npc, weigh, events + [e]);
    assert more[..|more| - 1] == Calls(npc, weigh, events);
  }

  // ---- the object

  class Observer {
    const mind: Episodes.GoblinMind
    const weigh: Weighing
    var seenSeq: map<string, int>
    var trust: map<string, real>

    /** record's calls, oldest first. */
    var recorded: map<string, seq<Item>>

    function Of(npc: string): (v: View)
      reads this
    {
      View(if npc in seenSeq then seenSeq[npc] else 0,
           if npc in trust then trust[npc] else NEUTRAL_TRUST,
           if npc in recorded then recorded[npc] else [])
    }

    function Stored(): (t: Episodes.Table)
      reads mind
    {
      Episodes.Table(mind.rows, mind.nextId)
    }

    constructor (mind: Episodes.GoblinMind, weigh: Weighing)
      ensures this.mind == mind && this.weigh == weigh
      ensures forall npc :: Of(npc) == Blank
    {
      this.mind, this.weigh := mind, weigh;
      seenSeq, trust, recorded := map[], map[], map[];
    }

    method AdjustTrust(npc: string, delta: real)
      modifies this`trust
      ensures trust == old(trust)[npc := Clamp01(old(Of(npc)).trust + delta)]
      ensures npc in trust && trust[npc] == Clamp01((if npc in old(trust) then old(trust)[npc] else 0.6) + delta)
    {
      trust := trust[npc := Clamp01(Of(npc).trust + delta)];
    }

    /** Records one event that is newer than everything seen in this snapshot's base. */
    method FoldEvent(npc: string, e: Item)
      requires e.Event?
      modifies this, mind
      ensures var v := old(Of(npc)); Of(npc) == View(Max(v.last, e.seq_), Trusting(v.trust, e), v.folded + [e])
      ensures Stored() == Episodes.Recorded(old(Stored()), RecordOf(npc, weigh, e))
      ensures forall other :: other != npc ==> Of(other) == old(Of(other))
    {
      seenSeq := seenSeq[npc := Max(Of(npc).last, e.seq_)];
      recorded := recorded[npc := Of(npc).folded + [e]];
      var (importance, valence) := weigh(e.kind, e.text);
      mind.RecordEpisode(npc, e.kind, e.text, importance, valence);
      if e.kind == "horde" {
        AdjustTrust(npc, -0.03);
      } else if e.kind == "owner_hurt" {
        AdjustTrust(npc, -0.01);
      } else if e.kind == "job" && Contains(e.text, "COMPLETE") {
        AdjustTrust(npc, 0.005);
      }
    }

    method ObserveSnapshot(npc: string, items: seq<Item>) returns (newEvents: seq<Item>)
      modifies this, mind
      ensures Of(npc) == Observed(old(Of(npc)), items)
      ensures Of(npc).folded == old(Of(npc)).folded + newEvents
      ensures Stored() == Episodes.Play(old(Stored()), Calls(npc, weigh, newEvents))
      ensures forall other :: other != npc ==> Of(other) == old(Of(other))
    {
      var last := Of(npc).last;
      if (exists i :: 0 <= i < |items| && items[i].Event?)
         && forall i :: 0 <= i < |items| && items[i].Event? ==> items[i].seq_ < last {
        last := 0;
        seenSeq := seenSeq[npc := 0];
      }
      newEvents := [];
      ghost var before := old(Of(npc));
      assert last == (if LogRestarted(items, before.last) then 0 else before.last);
      NoCalls(npc, weigh, old(Stored()));
      assert Of(npc) == Folding(before, last, []) by { assert before.folded + [] == before.folded; }
      hide LogRestarted, Trusting, Episodes.Recorded, Episodes.Play, Calls, RecordOf, MaxSeq, TrustOver;
      for i := 0 to |items|
        invariant newEvents == Newer(items[..i], last)
        invariant Of(npc) == Folding(before, last, newEvents)
        invariant Stored() == Episodes.Play(old(Stored()), Calls(npc, weigh, newEvents))
        invariant forall other :: other != npc ==> Of(other) == old(Of(other))
      {
        NewerNext(items, i, last);
        if items[i].Junk? || items[i].seq_ <= last {
          continue;
        }
        FoldNext(before, last, newEvents, items[i]);
        OneCallMore(npc, weigh, newEvents, items[i], old(Stored()));
        newEvents := newEvents + [items[i]];
        FoldEvent(npc, items[i]);
      }
      assert items[..|items|] == items;
      hide Newer;
    }
  }

  lemma NewerNext(items: seq<Item>, i: nat, last: int)
    requires i < |items|
    ensures Newer(items[..i + 1], last)
            == if items[i].Event? && items[i].seq_ > last then Newer(items[..i], last) + [items[i]] else Newer(items[..i], last)
  {
    assert items[..i + 1][..i] == items[..i];
  }

  /** The view while a snapshot is being folded. */
  function Folding(v: View, last: int, events: seq<Item>): (r: View) {
    View(MaxSeq(last, events), TrustOver(v.trust, events), v.folded + events)
  }

  lemma FoldNext(v: View, last: int, events: seq<Item>, e: Item)
    requires e.Event?
    ensures var f := Folding(v, last, events);
      Folding(v, last, events + [e]) == View(Max(f.last, e.seq_), Trusting(f.trust, e), f.folded + [e])
  {
    assert (events + [e])[..|events|] == events;
    assert v.folded + (events + [e]) == v.folded + events + [e];
  }
}
