/** Which episodes are stored for a log that is observed through overlapping windows
    (goblin_zomboid/mind.py, GoblinMind.observe and record). */
module ObservedEpisodes {
  import opened Common
  import opened Observe
  import E = Episodes

  /** record stores nothing for a blank text, which is also what an event without one has. */
  predicate HasText(e: Item) {
    e.Event? && !E.Blank(Cut(e.text, 240))
  }

  function Count(log: seq<Item>): (r: nat)
    decreases |log|
  {
    if log == [] then 0 else Count(log[..|log| - 1]) + if HasText(log[|log| - 1]) then 1 else 0
  }

  /** One episode for each event with a text, numbered in the order of the log. */
  function OneEach(npc: string, weigh: Weighing, log: seq<Item>): (r: set<E.Episode>) {
    set k | 0 <= k < |log| && HasText(log[k]) :: E.RowOf(Count(log[..k]), RecordOf(npc, weigh, log[k]))
  }

  lemma OneEachGrows(npc: string, weigh: Weighing, log: seq<Item>)
    requires log != []
    ensures var init, last := log[..|log| - 1], log[|log| - 1];
      OneEach(npc, weigh, log) ==
        OneEach(npc, weigh, init) + if HasText(last) then {E.RowOf(Count(init), RecordOf(npc, weigh, last))} else {}
  {
    var init := log[..|log| - 1];
    hide HasText, Count, E.RowOf, RecordOf;
    assert forall k :: 0 <= k < |init| ==> init[k] == log[k] && init[..k] == log[..k];
    forall x | x in OneEach(npc, weigh, init) ensures x in OneEach(npc, weigh, log) {
      var k :| 0 <= k < |init| && HasText(init[k]) && x == E.RowOf(Count(init[..k]), RecordOf(npc, weigh, init[k]));
      assert HasText(log[k]) && x == E.RowOf(Count(log[..k]), RecordOf(npc, weigh, log[k]));
    }
  }

  lemma {:induction false} IdsBelow(npc: string, weigh: Weighing, log: seq<Item>)
    ensures forall x :: x in OneEach(npc, weigh, log) ==> x.id < Count(log) && x.npc == npc
    ensures |OneEach(npc, weigh, log)| == Count(log)
    decreases |log|
  {
    if log != [] {
      OneEachGrows(npc, weigh, log);
      IdsBelow(npc, weigh, log[..|log| - 1]);
      hide HasText, OneEach;
    }
  }

  lemma EverNext(npc: string, weigh: Weighing, init: seq<Item>, last: Item)
    ensures var t, r := E.Ever(Calls(npc, weigh, init)), RecordOf(npc, weigh, last);
      E.Ever(Calls(npc, weigh, init + [last])) ==
        if HasText(last) then E.Table(t.rows + {E.RowOf(t.nextId, r)}, t.nextId + 1) else t
  {
    var calls := Calls(npc, weigh, init + [last]);
    assert calls[..|calls| - 1] == Calls(npc, weigh, init);
    assert calls[|calls| - 1] == RecordOf(npc, weigh, last);
    hide Calls, E.RowOf;
  }

  /** With nothing evicted, recording the events of a log stores one episode for each that has a text, and no other. */
  lemma {:induction false} EverIsOneEach(npc: string, weigh: Weighing, log: seq<Item>)
    ensures E.Ever(Calls(npc, weigh, log)) == E.Table(OneEach(npc, weigh, log), Count(log))
    ensures |OneEach(npc, weigh, log)| == Count(log)
    decreases |log|
  {
    IdsBelow(npc, weigh, log);
    if log == [] {
      NothingStored(npc, weigh);
    } else {
      var init, last := log[..|log| - 1], log[|log| - 1];
      assert log == init + [last];
      EverIsOneEach(npc, weigh, init);
      OneEachGrows(npc, weigh, log);
      EverNext(npc, weigh, init, last);
      assert Count(log) == Count(init) + if HasText(last) then 1 else 0;
      hide *;
    }
  }

  lemma NothingStored(npc: string, weigh: Weighing)
    ensures E.Ever(Calls(npc, weigh, [])) == E.Table({}, 0) && OneEach(npc, weigh, []) == {} && Count([]) == 0
  {}

  /** However the windows overlap, as long as none goes back: of the events seen, each that has a text was stored once,
      and what is left is the latest 400 of these episodes and the 100 that weigh most. */
  lemma StoredOnce(npc: string, weigh: Weighing, windows: seq<Window>, log: seq<Item>)
    requires Log(log) && Within(windows, log) && GapFree(windows) && NeverBack(windows)
    ensures Reach(windows) <= |log|
    ensures var t := E.Play(E.Table({}, 0), Calls(npc, weigh, ObservedAll(Blank, Snapshots(windows, log)).folded));
      && t.nextId == Count(log[..Reach(windows)])
      && E.Of(t.rows, npc) == E.Kept(OneEach(npc, weigh, log[..Reach(windows)]))
  {
    ExactlyOnce(windows, log);
    var seen := log[..Reach(windows)];
    E.IncrementalIsBatch(Calls(npc, weigh, seen), npc);
    EverIsOneEach(npc, weigh, seen);
    IdsBelow(npc, weigh, seen);
    hide Log, GapFree, NeverBack, Snapshots, Reach, Count, OneEach, E.Play, E.Ever, E.Kept;
    assert E.Of(OneEach(npc, weigh, seen), npc) == OneEach(npc, weigh, seen);
  }
}
