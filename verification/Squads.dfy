/** Greedy choice of expedition members with a floor of guards that stay (goblin_zomboid/entities.py). */
module Squads {
  import opened Common
  import opened Protocol

  datatype Entity = Entity(role: string, alive: bool, active: bool, incapacitated: bool, criticalWorker: bool)

  type Registry = map<string, Entity>

  /** A count, a list of ids, or neither. An element that is no string stands as "". */
  datatype Request = Count(n: int) | Ids(ids: seq<string>) | Neither

  const GOBLIN := "goblin.primary"
  const LARGEST := 16

  predicate ValidEntityId(s: string) {
    0 < |s| <= 96 && AsciiAlnum(s[0]) && forall i :: 0 < i < |s| ==> AsciiAlnum(s[i]) || s[i] in "._:-"
  }

  predicate Available(npcs: Registry, id: string) {
    id in npcs && npcs[id].alive && npcs[id].active && !npcs[id].incapacitated
  }

  predicate Guard(npcs: Registry, id: string) {
    id in npcs && npcs[id].role == "guard"
  }

  predicate Eligible(npcs: Registry, id: string) {
    ValidEntityId(id) && Available(npcs, id) && !npcs[id].criticalWorker
  }

  /** The guards there are to choose from. */
  function Guards(npcs: Registry): (r: set<string>) {
    set id | id in npcs && Guard(npcs, id) && Available(npcs, id)
  }

  function GuardCount(npcs: Registry, chosen: seq<string>): (n: nat) {
    if chosen == [] then 0
    else GuardCount(npcs, chosen[..|chosen| - 1]) + if Guard(npcs, chosen[|chosen| - 1]) then 1 else 0
  }

  /** _guard_can_leave, for a candidate that is a guard. */
  predicate CanLeave(npcs: Registry, chosen: seq<string>, floor: nat) {
    |Guards(npcs)| - (GuardCount(npcs, chosen) + 1) >= floor
  }

  /** The loop would take this id next. */
  predicate Takes(npcs: Registry, chosen: seq<string>, id: string, floor: nat) {
    id !in chosen && Eligible(npcs, id) && (Guard(npcs, id) ==> CanLeave(npcs, chosen, floor))
  }

  predicate Full(chosen: seq<string>, maxSize: int, limit: Option<int>) {
    |chosen| >= maxSize || (limit.Some? && |chosen| - 1 >= limit.value)
  }

  /** What the loop makes of the ids still to come. */
  function Select(npcs: Registry, ids: seq<string>, chosen: seq<string>, floor: nat, maxSize: int, limit: Option<int>): (r: seq<string>)
    decreases |ids|
  {
    if ids == [] then chosen
    else if !Takes(npcs, chosen, ids[0], floor) then Select(npcs, ids[1..], chosen, floor, maxSize, limit)
    else if Full(chosen + [ids[0]], maxSize, limit) then chosen + [ids[0]]
    else Select(npcs, ids[1..], chosen + [ids[0]], floor, maxSize, limit)
  }

  /** A squad under its head: nobody twice, everyone available, and enough guards stay if one beyond the head goes. */
  ghost predicate GoodSquad(npcs: Registry, squad: seq<string>, floor: nat) {
    && squad != []
    && (forall i, j :: 0 <= i < j < |squad| ==> squad[i] != squad[j])
    && (forall i :: 0 <= i < |squad| ==> Available(npcs, squad[i]))
    && (forall i :: 1 <= i < |squad| ==> Eligible(npcs, squad[i]))
    && ((exists i :: 1 <= i < |squad| && Guard(npcs, squad[i])) ==> |Guards(npcs)| - GuardCount(npcs, squad) >= floor)
  }

  lemma TakenKeepsGood(npcs: Registry, chosen: seq<string>, id: string, floor: nat)
    requires GoodSquad(npcs, chosen, floor) && Takes(npcs, chosen, id, floor)
    ensures GoodSquad(npcs, chosen + [id], floor)
  {
    hide ValidEntityId, Guards;
    var more := chosen + [id];
    assert more[..|chosen|] == chosen;
    assert forall i :: 0 <= i < |chosen| ==> more[i] == chosen[i];
  }

  lemma {:induction false} SelectKeepsGood(npcs: Registry, ids: seq<string>, chosen: seq<string>, floor: nat, maxSize: int, limit: Option<int>)
    requires GoodSquad(npcs, chosen, floor)
    ensures GoodSquad(npcs, Select(npcs, ids, chosen, floor, maxSize, limit), floor)
    ensures chosen <= Select(npcs, ids, chosen, floor, maxSize, limit)
    decreases |ids|
  {
    hide Takes, GoodSquad, Full;
    if ids != [] {
      if Takes(npcs, chosen, ids[0], floor) {
        TakenKeepsGood(npcs, chosen, ids[0], floor);
        SelectKeepsGood(npcs, ids[1..], chosen + [ids[0]], floor, maxSize, limit);
      } else {
        SelectKeepsGood(npcs, ids[1..], chosen, floor, maxSize, limit);
      }
    }
  }

  function GuardsOf(npcs: Registry, squad: seq<string>): (r: set<string>) {
    set id | id in squad && Guard(npcs, id)
  }

  /** A letter or digit is an id, and ids joined by a separator are one, up to 96 characters; an id holds nothing but these,
      and starts with no separator. */
  lemma EntityIdIs(a: string, b: string, c: char)
    ensures AsciiAlnum(c) ==> ValidEntityId([c])
    ensures ValidEntityId(a) && ValidEntityId(b) && |a| + |b| <= 96 ==> ValidEntityId(a + b)
    ensures ValidEntityId(a) && ValidEntityId(b) && |a| + |b| < 96 && c in "._:-" ==> ValidEntityId(a + [c] + b)
    ensures ValidEntityId(a) ==> 1 <= |a| <= 96 && a[0] !in "._:-" && forall x :: x in a ==> AsciiAlnum(x) || x in "._:-"
  {}

  /** Where nobody comes twice, each guard is counted once. */
  lemma {:induction false} CountIsSize(npcs: Registry, squad: seq<string>)
    requires forall i, j :: 0 <= i < j < |squad| ==> squad[i] != squad[j]
    ensures GuardCount(npcs, squad) == |GuardsOf(npcs, squad)|
  {
    hide Guard;
    if squad == [] {
      assert GuardsOf(npcs, squad) == {};
    } else {
      var front, last := squad[..|squad| - 1], squad[|squad| - 1];
      assert squad == front + [last];
      CountIsSize(npcs, front);
      assert last !in GuardsOf(npcs, front);
      assert GuardsOf(npcs, squad) == if Guard(npcs, last) then GuardsOf(npcs, front) + {last} else GuardsOf(npcs, front);
    }
  }

  /** A guard can leave exactly if enough available guards are then still outside of the squad. */
  lemma CanLeaveIs(npcs: Registry, chosen: seq<string>, id: string, floor: nat)
    requires GoodSquad(npcs, chosen, floor) && id !in chosen && Guard(npcs, id) && Available(npcs, id)
    ensures CanLeave(npcs, chosen, floor) <==> |Guards(npcs) - GuardsOf(npcs, chosen + [id])| >= floor
  {
    CountIsSize(npcs, chosen);
    assert GuardsOf(npcs, chosen + [id]) == GuardsOf(npcs, chosen) + {id};
    assert GuardsOf(npcs, chosen + [id]) <= Guards(npcs);
  }

  /** With any guard beyond its head, a squad leaves at least the floor of available guards behind. */
  lemma GuardsStay(npcs: Registry, squad: seq<string>, floor: nat)
    requires GoodSquad(npcs, squad, floor) && exists i :: 1 <= i < |squad| && Guard(npcs, squad[i])
    ensures |Guards(npcs) - set id | id in squad| >= floor
  {
    CountIsSize(npcs, squad);
    var leaving, all := GuardsOf(npcs, squad), set id | id in squad;
    assert leaving <= Guards(npcs);
    hide Eligible, Available, GuardCount;
    assert Guards(npcs) == leaving + (Guards(npcs) - leaving);
    assert Guards(npcs) - leaving == Guards(npcs) - all;
  }

  lemma GuardCountMore(npcs: Registry, chosen: seq<string>, id: string)
    ensures GuardCount(npcs, chosen + [id]) >= GuardCount(npcs, chosen)
  {
    assert (chosen + [id])[..|chosen|] == chosen;
  }

  /** A guard once refused stays refused, since the guards that leave only grow. */
  lemma {:induction false} SelectGrows(npcs: Registry, ids: seq<string>, chosen: seq<string>, floor: nat, maxSize: int, limit: Option<int>)
    ensures GuardCount(npcs, Select(npcs, ids, chosen, floor, maxSize, limit)) >= GuardCount(npcs, chosen)
    ensures chosen <= Select(npcs, ids, chosen, floor, maxSize, limit)
    decreases |ids|
  {
    hide Takes, Full, GuardCount;
    if ids != [] {
      GuardCountMore(npcs, chosen, ids[0]);
      SelectGrows(npcs, ids[1..], chosen + [ids[0]], floor, maxSize, limit);
      SelectGrows(npcs, ids[1..], chosen, floor, maxSize, limit);
    }
  }

  /** Below the caps nobody is left out who could still come. */
  lemma {:induction false} GreedyComplete(npcs: Registry, ids: seq<string>, chosen: seq<string>, floor: nat, maxSize: int, limit: Option<int>, id: string)
    requires !Full(Select(npcs, ids, chosen, floor, maxSize, limit), maxSize, limit) && id in ids
    ensures var squad := Select(npcs, ids, chosen, floor, maxSize, limit);
      id in squad || !Eligible(npcs, id) || (Guard(npcs, id) && !CanLeave(npcs, squad, floor))
    decreases |ids|
  {
    var more := chosen + [ids[0]];
    SelectGrows(npcs, ids, chosen, floor, maxSize, limit);
    SelectGrows(npcs, ids[1..], more, floor, maxSize, limit);
    hide Eligible, Guard, GuardCount, Guards;
    if Takes(npcs, chosen, ids[0], floor) {
      assert more[|chosen|] == ids[0];
      if id != ids[0] && !Full(more, maxSize, limit) {
        GreedyComplete(npcs, ids[1..], more, floor, maxSize, limit, id);
      }
    } else if id != ids[0] {
      GreedyComplete(npcs, ids[1..], chosen, floor, maxSize, limit, id);
    }
  }

  /** The size cap is only looked at after a member has joined. */
  lemma {:induction false} SelectFits(npcs: Registry, ids: seq<string>, chosen: seq<string>, floor: nat, maxSize: int, limit: Option<int>)
    requires |chosen| < maxSize && (limit.Some? ==> |chosen| - 1 < limit.value)
    ensures var squad := Select(npcs, ids, chosen, floor, maxSize, limit);
      |squad| <= maxSize && (limit.Some? ==> |squad| - 1 <= limit.value)
    decreases |ids|
  {
    hide Takes;
    if ids != [] {
      if !Full(chosen + [ids[0]], maxSize, limit) {
        SelectFits(npcs, ids[1..], chosen + [ids[0]], floor, maxSize, limit);
      }
      SelectFits(npcs, ids[1..], chosen, floor, maxSize, limit);
    }
  }

  /** With room for the head alone, an id list still brings in the first id that can come: the squad keeps to
      max_size exactly if there is room for two, or no listed id can come. */
  lemma {:induction false} SizeOneOverflows(npcs: Registry, ids: seq<string>, head: string, floor: nat, maxSize: int)
    requires maxSize >= 1
    ensures |Select(npcs, ids, [head], floor, maxSize, None)| <= maxSize <==>
      maxSize >= 2 || forall i :: 0 <= i < |ids| ==> !Takes(npcs, [head], ids[i], floor)
    decreases |ids|
  {
    hide Takes;
    if maxSize >= 2 {
      SelectFits(npcs, ids, [head], floor, maxSize, None);
    } else if ids != [] && !Takes(npcs, [head], ids[0], floor) {
      SizeOneOverflows(npcs, ids[1..], head, floor, maxSize);
      assert forall i :: 1 <= i < |ids| ==> ids[i] == ids[1..][i - 1];
    }
  }

  lemma GuardsHave(npcs: Registry, seen: set<string>, id: string)
    requires id in npcs && id !in seen
    ensures var e := npcs[id];
      |(seen + {id}) * Guards(npcs)|
      == |seen * Guards(npcs)| + if e.role == "guard" && e.alive && e.active && !e.incapacitated then 1 else 0
  {
    var guards := Guards(npcs);
    var guard := id in guards;
    var e := npcs[id];
    assert guard <==> e.role == "guard" && e.alive && e.active && !e.incapacitated;
    hide Guards;
    if guard {
      assert (seen + {id}) * guards == seen * guards + {id};
    }
    assert (seen + {id}) * guards == if guard then seen * guards + {id} else seen * guards;
  }

  /** One candidate more: it joins exactly if it can join those chosen before and nobody who joined has met a cap. */
  lemma {:induction false} SelectLast(npcs: Registry, ids: seq<string>, id: string, chosen: seq<string>, floor: nat, maxSize: int, limit: Option<int>)
    ensures var squad := Select(npcs, ids, chosen, floor, maxSize, limit);
      var more := Select(npcs, ids + [id], chosen, floor, maxSize, limit);
      && (more == squad + [id] || more == squad)
      && (more == squad + [id] <==> Takes(npcs, squad, id, floor) && !(|squad| > |chosen| && Full(squad, maxSize, limit)))
    decreases |ids|
  {
    hide Takes, Full;
    if ids == [] {
      assert [id][1..] == [];
      assert Select(npcs, [], chosen, floor, maxSize, limit) == chosen && [] + [id] == [id];
    } else {
      var rest := ids[1..];
      assert (ids + [id])[0] == ids[0] && (ids + [id])[1..] == rest + [id];
      if !Takes(npcs, chosen, ids[0], floor) {
        SelectLast(npcs, rest, id, chosen, floor, maxSize, limit);
      } else if !Full(chosen + [ids[0]], maxSize, limit) {
        SelectLast(npcs, rest, id, chosen + [ids[0]], floor, maxSize, limit);
        JoinedMeetsCap(npcs, rest, chosen + [ids[0]], floor, maxSize, limit);
      }
    }
  }

  lemma {:induction false} JoinedMeetsCap(npcs: Registry, ids: seq<string>, chosen: seq<string>, floor: nat, maxSize: int, limit: Option<int>)
    ensures var squad := Select(npcs, ids, chosen, floor, maxSize, limit);
      |squad| >= |chosen| && (|squad| == |chosen| ==> squad == chosen)
    decreases |ids|
  {
    hide Takes, Full;
    if ids != [] {
      JoinedMeetsCap(npcs, ids[1..], chosen, floor, maxSize, limit);
      JoinedMeetsCap(npcs, ids[1..], chosen + [ids[0]], floor, maxSize, limit);
    }
  }

  // ---- the manager

  /** The member that must come: the goblin with a player, otherwise the leader itself. */
  function Head(players: set<string>, leader: string): (r: string) {
    if leader in players then GOBLIN else leader
  }

  /** The conditions under which the source does not raise. */
  predicate Allowed(npcs: Registry, players: set<string>, request: Request, leader: string, maxSize: int) {
    && ValidEntityId(leader) && 1 <= maxSize <= LARGEST && (leader in players || leader in npcs)
    && Available(npcs, Head(players, leader))
    && match request
       case Count(n) => 1 <= n <= maxSize - 1
       case Ids(_) => true
       case Neither => false
  }

  /** A request is refused exactly for a leader that is no valid id or unknown, a size that is not 1 to 16, a head that is not
      there to come, a count that is not 1 up to one less than the size, or no members at all. */
  lemma RefusedIff(npcs: Registry, players: set<string>, request: Request, leader: string, maxSize: int)
    ensures var head := if leader in players then "goblin.primary" else leader;
      !Allowed(npcs, players, request, leader, maxSize) <==>
        || !ValidEntityId(leader) || maxSize < 1 || maxSize > 16 || (leader !in players && leader !in npcs)
        || head !in npcs || !npcs[head].alive || !npcs[head].active || npcs[head].incapacitated
        || (request.Count? && (request.n < 1 || request.n >= maxSize)) || request.Neither?
  {
    hide ValidEntityId;
  }

  /** A count asks for everyone, in the order of their ids. */
  function Candidates(npcs: Registry, request: Request): (r: seq<string>)
    requires !request.Neither?
  {
    if request.Count? then Listing(npcs.Keys, "") else request.ids
  }

  function Limit(request: Request): (r: Option<int>) {
    if request.Count? then Some(request.n) else None
  }

  /** A count is asked of everybody in the registry, once, in the order of the ids; a list is gone through as it is. */
  lemma CandidatesAre(npcs: Registry, request: Request)
    requires !request.Neither?
    ensures var r := Candidates(npcs, request);
      && (request.Ids? ==> r == request.ids)
      && (request.Count? ==> |r| == |npcs| && forall id :: id in r <==> id in npcs)
      && (request.Count? ==> forall i, j :: 0 <= i < j < |r| ==> r[i] != r[j] && StrLe(r[i], r[j]))
  {
    if request.Count? {
      var r := Candidates(npcs, request);
      forall i, j | 0 <= i < j < |r| ensures r[i] != r[j] && StrLe(r[i], r[j]) {
        assert r[i] + "" == r[i] && r[j] + "" == r[j];
      }
      assert |npcs| == |npcs.Keys|;
    }
    hide Listing, StrLe;
  }

  class SquadManager {
    var npcs: Registry
    var players: set<string>
    const minimumBaseGuards: nat

    constructor (npcs: Registry, players: set<string>, minimumBaseGuards: nat)
      ensures this.npcs == npcs && this.players == players && this.minimumBaseGuards == minimumBaseGuards
    {
      this.npcs, this.players, this.minimumBaseGuards := npcs, players, minimumBaseGuards;
    }

    method CountAvailable() returns (available: nat)
      ensures available == |Guards(npcs)|
    {
      var todo := npcs.Keys;
      available := 0;
      ghost var seen: set<string> := {};
      while todo != {}
        invariant seen !! todo && seen + todo == npcs.Keys
        invariant available == |seen * Guards(npcs)|
        decreases todo
      {
        hide Guards;
        var id :| id in todo;
        todo := todo - {id};
        var e := npcs[id];
        GuardsHave(npcs, seen, id);
        if e.role == "guard" && e.alive && e.active && !e.incapacitated {
          available := available + 1;
        }
        seen := seen + {id};
      }
      assert seen * Guards(npcs) == Guards(npcs);
    }

    method CountLeaving(selected: seq<string>) returns (leaving: nat)
      ensures leaving == GuardCount(npcs, selected)
    {
      leaving := 0;
      var i := 0;
      while i < |selected|
        invariant 0 <= i <= |selected| && leaving == GuardCount(npcs, selected[..i])
      {
        assert selected[..i + 1][..i] == selected[..i] && selected[..i + 1][i] == selected[i];
        if selected[i] in npcs && npcs[selected[i]].role == "guard" {
          leaving := leaving + 1;
        }
        i := i + 1;
      }
      assert selected[..i] == selected;
    }

    method GuardCanLeave(selected: seq<string>, candidate: string) returns (ok: bool)
      ensures Guard(npcs, candidate) ==> (ok <==> CanLeave(npcs, selected, minimumBaseGuards))
      ensures !Guard(npcs, candidate) ==> (ok <==> |Guards(npcs)| - GuardCount(npcs, selected) >= minimumBaseGuards)
    {
      hide Guards, GuardCount;
      var available := CountAvailable();
      var leaving := CountLeaving(selected);
      if candidate in npcs && npcs[candidate].role == "guard" {
        leaving := leaving + 1;
      }
      ok := available - leaving >= minimumBaseGuards;
    }

    /** The checks of one round of the loop. */
    method Joins(chosen: seq<string>, id: string) returns (ok: bool)
      ensures ok <==> Takes(npcs, chosen, id, minimumBaseGuards)
    {
      hide Guards, GuardCount, ValidEntityId, CanLeave;
      if !ValidEntityId(id) || id in chosen {
        return false;
      }
      if id !in npcs || !npcs[id].alive || !npcs[id].active || npcs[id].incapacitated || npcs[id].criticalWorker {
        return false;
      }
      if npcs[id].role == "guard" {
        ok := GuardCanLeave(chosen, id);
        return;
      }
      ok := true;
    }

    /** choose_members; None where the source raises. */
    method ChooseMembers(request: Request, leader: string, maxSize: int) returns (r: Option<seq<string>>)
      ensures r == if !Allowed(npcs, players, request, leader, maxSize) then None
        else Some(Select(npcs, Candidates(npcs, request), [Head(players, leader)], minimumBaseGuards, maxSize, Limit(request)))
    {
      hide Guards, GuardCount, Listing, ValidEntityId, Takes, Select;
      if !ValidEntityId(leader) || !(1 <= maxSize <= LARGEST) || (leader !in players && leader !in npcs) {
        return None;
      }
      var head := if leader in players then GOBLIN else leader;
      if head !in npcs || !npcs[head].alive || !npcs[head].active || npcs[head].incapacitated {
        return None;
      }
      if request.Neither? || (request.Count? && !(1 <= request.n <= maxSize - 1)) {
        return None;
      }
      var chosen := Extend(Candidates(npcs, request), head, maxSize, Limit(request));
      r := Some(chosen);
    }

    /** The loop over the requested ids. */
    method Extend(ids: seq<string>, head: string, maxSize: int, limit: Option<int>) returns (chosen: seq<string>)
      ensures chosen == Select(npcs, ids, [head], minimumBaseGuards, maxSize, limit)
    {
      hide Guards, GuardCount, Takes;
      chosen := [head];
      ghost var all := Select(npcs, ids, chosen, minimumBaseGuards, maxSize, limit);
      var extras, i := 0, 0;
      assert ids[0..] == ids;
      while i < |ids|
        invariant 0 <= i <= |ids| && |chosen| == extras + 1
        invariant Select(npcs, ids[i..], chosen, minimumBaseGuards, maxSize, limit) == all
      {
        var id := ids[i];
        assert ids[i..][0] == id && ids[i..][1..] == ids[i + 1..];
        i := i + 1;
        var joins := Joins(chosen, id);
        if !joins {
          continue;
        }
        chosen := chosen + [id];
        extras := extras + 1;
        if |chosen| >= maxSize || (limit.Some? && extras >= limit.value) {
          break;
        }
      }
    }
  }

  /** Every squad that is chosen is good, fits the request, and below its caps leaves nobody out who could come. */
  lemma ChosenSquad(npcs: Registry, players: set<string>, request: Request, leader: string, maxSize: int, floor: nat)
    requires Allowed(npcs, players, request, leader, maxSize)
    ensures var squad := Select(npcs, Candidates(npcs, request), [Head(players, leader)], floor, maxSize, Limit(request));
      && GoodSquad(npcs, squad, floor) && squad[0] == Head(players, leader)
      && (request.Count? ==> |squad| <= request.n + 1 <= maxSize)
      && (maxSize >= 2 ==> |squad| <= maxSize)
      && (!Full(squad, maxSize, Limit(request)) ==> forall id :: id in Candidates(npcs, request) ==>
            id in squad || !Eligible(npcs, id) || (Guard(npcs, id) && !CanLeave(npcs, squad, floor)))
  {
    hide Listing, ValidEntityId, Takes, Eligible, CanLeave;
    var ids, head, limit := Candidates(npcs, request), Head(players, leader), Limit(request);
    var squad := Select(npcs, ids, [head], floor, maxSize, limit);
    assert GoodSquad(npcs, [head], floor);
    SelectKeepsGood(npcs, ids, [head], floor, maxSize, limit);
    if maxSize >= 2 {
      SelectFits(npcs, ids, [head], floor, maxSize, limit);
    }
    if !Full(squad, maxSize, limit) {
      forall id | id in ids ensures id in squad || !Eligible(npcs, id) || (Guard(npcs, id) && !CanLeave(npcs, squad, floor)) {
        GreedyComplete(npcs, ids, [head], floor, maxSize, limit, id);
      }
    }
  }
}
