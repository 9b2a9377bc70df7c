/** One whole pass of the relay over its queue, given how each of its calls ends, and what a pass
    achieves when they all work (goblin_zomboid/relay.py, SshFileRelay.push). */
module RelayPass {
  import opened Common
  import opened Protocol
  import opened RelayPush

  /** The relay waits for the reply to a call; otherwise it decides, or the pass is over. */
  predicate Waits(pc: Pc) {
    !pc.Idle? && !pc.Next? && !pc.Published? && !pc.FitIndex? && !pc.PopIndex?
  }

  /** How much is left of a pass at most. */
  function Left(s: Sys): (n: nat) {
    if s.pc.Idle? then 0
    else if s.pc.Loading? then 24 * MAX_PER_PASS + 2
    else if s.pc.Next? then 24 * |s.pc.rest| + 1
    else 24 * |s.pc.rest| + 2 + Rank(s.pc)
  }

  lemma JsonFalls(s: Sys, r: Reply)
    requires s.pc.HasJson? || s.pc.UpJson? || s.pc.MvJson? || s.pc.ChJson? || s.pc.EndJson?
    ensures Left(Answer(s, r)) < Left(s)
  {}

  lemma MarkerFalls(s: Sys, r: Reply)
    requires s.pc.HasReady? || s.pc.UpReady? || s.pc.MvReady? || s.pc.ChReady? || s.pc.EndReady?
    ensures Left(Answer(s, r)) < Left(s)
  {}

  lemma IndexFalls(s: Sys, r: Reply)
    requires s.pc.Loading? || s.pc.UpIndex? || s.pc.MvIndex? || s.pc.ChIndex? || s.pc.ArcJson? || s.pc.ArcReady?
    ensures Left(Answer(s, r)) < Left(s)
  {}

  lemma CallFalls(s: Sys, r: Reply)
    requires Waits(s.pc)
    ensures Left(Answer(s, r)) < Left(s)
  {
    hide Answer, Left;
    if s.pc.HasJson? || s.pc.UpJson? || s.pc.MvJson? || s.pc.ChJson? || s.pc.EndJson? {
      JsonFalls(s, r);
    } else if s.pc.HasReady? || s.pc.UpReady? || s.pc.MvReady? || s.pc.ChReady? || s.pc.EndReady? {
      MarkerFalls(s, r);
    } else {
      IndexFalls(s, r);
    }
  }

  lemma DecisionFalls(s: Sys)
    requires !Waits(s.pc) && !s.pc.Idle?
    ensures Left(Decide(s)) < Left(s)
  {}

  /** Where a pass ends: the state, how many calls were made, and how many commands were counted. */
  datatype Outcome = Outcome(state: Sys, calls: nat, count: nat)

  /** The rest of the pass, when the k-th call and those after it end as `replies` says. */
  function Settle(s: Sys, replies: nat -> Reply, k: nat): (o: Outcome)
    decreases Left(s)
  {
    if s.pc.Idle? then Outcome(s, k, 0)
    else if Waits(s.pc) then
      CallFalls(s, replies(k));
      var o := Settle(Answer(s, replies(k)), replies, k + 1);
      if s.pc.ArcJson? then o.(count := o.count + 1) else o
    else
      DecisionFalls(s);
      Settle(Decide(s), replies, k)
  }

  lemma OneDecision(s: Sys, replies: nat -> Reply, k: nat)
    requires !Waits(s.pc) && !s.pc.Idle?
    ensures Settle(s, replies, k) == Settle(Decide(s), replies, k)
  {
    hide Answer, Decide;
  }

  lemma OneCall(s: Sys, replies: nat -> Reply, k: nat)
    requires Waits(s.pc) && !s.pc.ArcJson?
    ensures Settle(s, replies, k) == Settle(Answer(s, replies(k)), replies, k + 1)
  {
    hide Answer, Decide;
  }

  lemma CallSettles(s: Sys, replies: nat -> Reply, k: nat)
    requires Waits(s.pc)
    ensures Settle(s, replies, k).state == Settle(Answer(s, replies(k)), replies, k + 1).state
  {
    hide Answer, Decide;
  }

  /** The same as actions of the protocol. */
  function Steps(s: Sys, replies: nat -> Reply, k: nat): (acts: seq<Action>)
    decreases Left(s)
  {
    if s.pc.Idle? then []
    else if Waits(s.pc) then
      CallFalls(s, replies(k));
      [Call(replies(k))] + Steps(Answer(s, replies(k)), replies, k + 1)
    else
      DecisionFalls(s);
      [Tau] + Steps(Decide(s), replies, k)
  }

  lemma {:induction false} SettleIsRun(s: Sys, replies: nat -> Reply, k: nat)
    ensures Run(s, Steps(s, replies, k)) == Settle(s, replies, k).state
    ensures Settle(s, replies, k).state.pc.Idle?
    decreases Left(s)
  {
    hide Answer, Decide, Left, Rank;
    if s.pc.Idle? {
    } else if Waits(s.pc) {
      CallFalls(s, replies(k));
      var t := Answer(s, replies(k));
      SettleIsRun(t, replies, k + 1);
      assert ([Call(replies(k))] + Steps(t, replies, k + 1))[1..] == Steps(t, replies, k + 1);
    } else {
      DecisionFalls(s);
      SettleIsRun(Decide(s), replies, k);
      assert ([Tau] + Steps(Decide(s), replies, k))[1..] == Steps(Decide(s), replies, k);
    }
  }

  /** The whole pass from its start. */
  function Pass(s: Sys, replies: nat -> Reply, k: nat): (o: Outcome) {
    Settle(BeginPass(s), replies, k)
  }

  /** A pass is a run of the protocol, so what is proved about runs holds after it and wherever it is cut off. */
  lemma PassIsRun(s: Sys, replies: nat -> Reply, k: nat, upto: nat)
    requires s.pc.Idle? && Inv(s)
    ensures var acts := [Begin] + Steps(BeginPass(s), replies, k);
      && Run(s, acts) == Pass(s, replies, k).state && Inv(Pass(s, replies, k).state)
      && (upto <= |acts| ==> Inv(Run(s, acts[..upto])))
  {
    var acts := [Begin] + Steps(BeginPass(s), replies, k);
    assert acts[1..] == Steps(BeginPass(s), replies, k);
    SettleIsRun(BeginPass(s), replies, k);
    assert Run(s, acts) == Run(BeginPass(s), acts[1..]);
    hide Steps, Settle, Inv;
    RunKeepsInv(s, acts);
    if upto <= |acts| {
      RunKeepsInv(s, acts[..upto]);
    }
  }

  // ---- a pass in which every call works

  function AllDone(): (r: nat -> Reply) {
    (k: nat) => Done
  }

  lemma {:induction false} AnyCount(s: Sys, j: nat, k: nat)
    ensures Settle(s, AllDone(), j).state == Settle(s, AllDone(), k).state
    ensures Settle(s, AllDone(), j).count == Settle(s, AllDone(), k).count
    decreases Left(s)
  {
    hide Answer, Decide, Left, Rank;
    if s.pc.Idle? {
    } else if Waits(s.pc) {
      CallFalls(s, Done);
      AnyCount(Answer(s, Done), j + 1, k + 1);
    } else {
      DecisionFalls(s);
      AnyCount(Decide(s), j, k);
    }
  }

  /** What a working relay does next about a stem. */
  function Onwards(s: Sys): (t: Sys) {
    if s.pc.Published? || s.pc.FitIndex? then Decide(s) else Answer(s, Done)
  }

  lemma OnwardsFalls(s: Sys)
    requires Rank(s.pc) > 0
    ensures Rank(Onwards(s).pc) < Rank(s.pc)
  {
    hide Answer, Decide;
    if s.pc.Published? || s.pc.FitIndex? {
      OnwardsDecides(s);
    } else {
      OnwardsCalls(s);
    }
  }

  lemma OnwardsDecides(s: Sys)
    requires s.pc.Published? || s.pc.FitIndex?
    ensures Rank(Decide(s).pc) < Rank(s.pc)
  {}

  lemma OnwardsCalls(s: Sys)
    requires Rank(s.pc) > 0 && !s.pc.Published? && !s.pc.FitIndex?
    ensures Rank(Answer(s, Done).pc) < Rank(s.pc)
  {
    hide Loadable, PassStems;
  }

  lemma OnwardsHealthy(s: Sys)
    requires Rank(s.pc) > 0
    ensures Healthy(s) == Healthy(Onwards(s))
  {
    hide Answer, Decide;
  }

  lemma OnwardsSettles(s: Sys)
    requires Rank(s.pc) > 0
    ensures Settle(s, AllDone(), 0).state == Settle(Onwards(s), AllDone(), 0).state
  {
    hide Answer, Decide, Settle;
    if s.pc.Published? || s.pc.FitIndex? {
      OneDecision(s, AllDone(), 0);
    } else {
      CallSettles(s, AllDone(), 0);
      assert AllDone()(0) == Done;
      AnyCount(Onwards(s), 1, 0);
    }
  }

  /** Going through one stem is a part of the pass. */
  lemma {:induction false} HealthySettles(s: Sys)
    requires Inv(s)
    ensures Inv(Healthy(s)) && Settle(s, AllDone(), 0).state == Settle(Healthy(s), AllDone(), 0).state
    decreases Rank(s.pc)
  {
    if Rank(s.pc) > 0 {
      OnwardsFalls(s);
      OnwardsHealthy(s);
      OnwardsSettles(s);
      hide Answer, Decide, Rank, Settle, Inv, Healthy;
      if s.pc.Published? || s.pc.FitIndex? {
        DecideKeepsInv(s);
        HealthySettles(Decide(s));
      } else {
        AnswerKeepsInv(s, Done);
        HealthySettles(Answer(s, Done));
      }
    }
  }

  /** Going through one stem counts once if it comes up to archiving. */
  lemma {:induction false} HealthyCounts(s: Sys)
    ensures Settle(s, AllDone(), 0).count ==
      Settle(Healthy(s), AllDone(), 0).count + if Rank(s.pc) > 0 && Healthy(s).pc.ArcReady? then 1 else 0
    decreases Rank(s.pc)
  {
    if Rank(s.pc) > 0 {
      OnwardsFalls(s);
      OnwardsHealthy(s);
      OnwardsCounts(s);
      OnlyArchivingEnds(s);
      HealthyEnds(Onwards(s));
      hide Answer, Decide, Rank, Settle, Healthy, Onwards;
      HealthyCounts(Onwards(s));
    }
  }

  lemma HealthyEnds(s: Sys)
    ensures Rank(s.pc) == 0 ==> Healthy(s) == s
  {}

  lemma OnlyArchivingEnds(s: Sys)
    requires Rank(s.pc) > 0
    ensures Rank(Onwards(s).pc) == 0 ==> (Onwards(s).pc.ArcReady? <==> s.pc.ArcJson?)
    ensures s.pc.ArcJson? ==> Rank(Onwards(s).pc) == 0 && Onwards(s).pc.ArcReady?
  {
    hide Loadable, PassStems, EncodedSize;
  }

  lemma OnwardsCounts(s: Sys)
    requires Rank(s.pc) > 0
    ensures Settle(s, AllDone(), 0).count == Settle(Onwards(s), AllDone(), 0).count + if s.pc.ArcJson? then 1 else 0
  {
    hide Answer, Decide;
    if s.pc.Published? || s.pc.FitIndex? {
      hide Settle;
      OneDecision(s, AllDone(), 0);
    } else {
      assert AllDone()(0) == Done;
      AnyCount(Onwards(s), 1, 0);
    }
  }

  /** The listed command is complete in the local queue. */
  predicate Ready(s: Sys, stem: string) {
    ValidId(stem) && stem in s.localJson && stem in s.localReady
  }

  /** The listed commands that a pass archives when every call works and it starts with this index: each one that is
      complete, if it is in the index or the index has room when its turn comes. */
  function Admitted(s: Sys, index: seq<string>, stems: seq<string>): (r: set<string>)
    decreases |stems|
  {
    if stems == [] then {}
    else if !Ready(s, stems[0]) then Admitted(s, index, stems[1..])
    else if stems[0] in index then {stems[0]} + Admitted(s, index, stems[1..])
    else if |index| < MAX_INDEX then {stems[0]} + Admitted(s, index + [stems[0]], stems[1..])
    else Admitted(s, index, stems[1..])
  }

  /** How many entries the index needs for these stems. */
  function Needed(s: Sys, index: seq<string>, stems: seq<string>): (n: nat)
    decreases |stems|
  {
    if stems == [] then 0
    else (if Ready(s, stems[0]) && stems[0] !in index then 1 else 0) + Needed(s, index, stems[1..])
  }

  lemma {:induction false} NeededMore(s: Sys, index: seq<string>, x: string, stems: seq<string>)
    requires x !in stems
    ensures Needed(s, index + [x], stems) == Needed(s, index, stems)
    decreases |stems|
  {
    hide Ready;
    if stems != [] {
      NeededMore(s, index, x, stems[1..]);
    }
  }

  /** Which ones these are can be told before the pass. */
  lemma {:induction false} AdmittedIff(s: Sys, index: seq<string>, stems: seq<string>, i: nat)
    requires Distinct(stems) && i < |stems|
    ensures stems[i] in Admitted(s, index, stems) <==>
            Ready(s, stems[i]) && (stems[i] in index || |index| + Needed(s, index, stems[..i]) < MAX_INDEX)
    decreases |stems|
  {
    AdmittedAreListed(s, index, stems[1..]);
    AdmittedAreListed(s, index + [stems[0]], stems[1..]);
    assert stems == [stems[0]] + stems[1..];
    hide Ready;
    if i > 0 {
      var rest := stems[1..];
      assert rest[i - 1] == stems[i] && stems[..i][1..] == rest[..i - 1] && stems[..i][0] == stems[0];
      AdmittedIff(s, index, rest, i - 1);
      AdmittedIff(s, index + [stems[0]], rest, i - 1);
      assert stems[0] !in rest[..i - 1];
      NeededMore(s, index, stems[0], rest[..i - 1]);
    }
  }

  lemma {:induction false} AdmittedAreListed(s: Sys, index: seq<string>, stems: seq<string>)
    ensures forall x :: x in Admitted(s, index, stems) ==> x in stems && Ready(s, x)
    decreases |stems|
  {
    hide Ready;
    if stems != [] {
      AdmittedAreListed(s, index, stems[1..]);
      AdmittedAreListed(s, index + [stems[0]], stems[1..]);
    }
  }

  lemma {:induction false} AdmittedSame(s: Sys, u: Sys, index: seq<string>, stems: seq<string>)
    requires forall x :: x in stems ==> (Ready(s, x) <==> Ready(u, x))
    ensures Admitted(s, index, stems) == Admitted(u, index, stems)
    decreases |stems|
  {
    hide Ready;
    if stems != [] {
      AdmittedSame(s, u, index, stems[1..]);
      AdmittedSame(s, u, index + [stems[0]], stems[1..]);
    }
  }

  function Commands(s: Sys, stems: set<string>): (r: set<(string, nat)>) {
    set x | x in stems && x in s.localJson :: (x, s.localJson[x])
  }

  /** What a pass over these stems, which archives some of them, makes of the local queue, the archive and the remote
      files: every complete command is sent unless something is remote under its stem already. */
  ghost predicate Delivers(s: Sys, stems: seq<string>, archived: set<string>, t: Sys) {
    && t.localJson == s.localJson - archived && t.localReady == s.localReady - archived
    && t.archived == s.archived + Commands(s, archived)
    && (forall x :: x in t.remoteJson <==> x in s.remoteJson || (x in stems && Ready(s, x)))
    && (forall x :: x in t.remoteJson ==> t.remoteJson[x] == if x in s.remoteJson then s.remoteJson[x] else s.localJson[x])
    && (forall x :: x in t.remoteReady <==> x in s.remoteReady || (x in stems && Ready(s, x)))
  }

  /** One stem, and then the others. */
  lemma DeliversNext(s: Sys, stem: string, rest: seq<string>, u: Sys, archived: set<string>, t: Sys)
    requires Ready(s, stem) && Delivers(u, rest, archived, t) && stem !in archived && stem !in rest
    requires u.localJson == s.localJson - {stem} && u.localReady == s.localReady - {stem}
    requires u.archived == s.archived + {(stem, s.localJson[stem])}
    requires u.remoteJson == UploadedJson(s, stem) && u.remoteReady == s.remoteReady + {stem}
    ensures Delivers(s, [stem] + rest, {stem} + archived, t)
  {
    assert forall x :: x != stem ==> (Ready(u, x) <==> Ready(s, x));
    assert Commands(s, {stem} + archived) == {(stem, s.localJson[stem])} + Commands(u, archived);
    assert s.localJson - ({stem} + archived) == u.localJson - archived;
    hide Ready, Commands;
  }

  /** One stem that is sent and stays, and then the others. */
  lemma DeliversStays(s: Sys, stem: string, rest: seq<string>, u: Sys, archived: set<string>, t: Sys)
    requires Ready(s, stem) && Delivers(u, rest, archived, t)
    requires u == s.(remoteJson := UploadedJson(s, stem), remoteReady := s.remoteReady + {stem}, pc := u.pc)
    ensures Delivers(s, [stem] + rest, archived, t)
  {
    assert forall x :: Ready(u, x) <==> Ready(s, x);
    assert Commands(s, archived) == Commands(u, archived);
    hide Ready, Commands;
  }

  lemma DeliversSkipped(s: Sys, stem: string, rest: seq<string>, archived: set<string>, t: Sys)
    requires !Ready(s, stem) && Delivers(s, rest, archived, t)
    ensures Delivers(s, [stem] + rest, archived, t)
  {
    hide Ready;
  }

  lemma {:induction false} HealthyRest(s: Sys)
    requires Inv(s) && s.pc.Next? && s.cached.Some? && Distinct(s.pc.rest)
    ensures Delivers(s, s.pc.rest, Admitted(s, s.cached.value, s.pc.rest), Settle(s, AllDone(), 0).state)
    ensures Settle(s, AllDone(), 0).count == |Admitted(s, s.cached.value, s.pc.rest)|
    decreases |s.pc.rest|
  {
    hide Inv, Settle, Healthy, Answer, Delivers, Admitted;
    var rest := s.pc.rest;
    OneDecision(s, AllDone(), 0);
    DecideKeepsInv(s);
    if rest == [] {
      PassOver(s);
    } else {
      assert rest == [rest[0]] + rest[1..];
      var d := Decide(s);
      if !Ready(s, rest[0]) {
        HealthyRest(d);
        DeliversSame(s, d, rest[1..], Admitted(d, s.cached.value, rest[1..]), Settle(d, AllDone(), 0).state);
        AdmittedRest(s, d, rest);
        DeliversSkipped(s, rest[0], rest[1..], Admitted(d, s.cached.value, rest[1..]), Settle(d, AllDone(), 0).state);
      } else {
        ReadyNext(s, d);
      }
    }
  }

  lemma {:induction false} ReadyNext(s: Sys, d: Sys)
    requires Inv(s) && Inv(d) && s.pc.Next? && s.cached.Some? && Distinct(s.pc.rest) && s.pc.rest != [] && d == Decide(s)
    requires Ready(s, s.pc.rest[0]) && Settle(s, AllDone(), 0) == Settle(d, AllDone(), 0)
    ensures Delivers(s, s.pc.rest, Admitted(s, s.cached.value, s.pc.rest), Settle(s, AllDone(), 0).state)
    ensures Settle(s, AllDone(), 0).count == |Admitted(s, s.cached.value, s.pc.rest)|
    decreases |s.pc.rest|, 0
  {
    var stem, rest, c := s.pc.rest[0], s.pc.rest[1..], s.cached.value;
    assert d == s.(pc := HasJson(stem, rest));
    assert s.pc.rest == [stem] + rest && stem !in rest && Distinct(rest);
    hide Inv, Settle, Healthy, Answer, Delivers, Admitted, Decide, Distinct;
    if stem in c || |c| < MAX_INDEX {
      HealthyNext(d, stem, rest);
      var u := Answer(Healthy(d), Done);
      HealthyRest(u);
      AdmittedFirst(s, u, c, s.pc.rest, u.cached.value);
      DeliversNext(s, stem, rest, u, Admitted(u, u.cached.value, rest), Settle(u, AllDone(), 0).state);
    } else {
      HealthyStops(d, stem, rest);
      HealthySettles(d);
      var u := Healthy(d);
      HealthyCounts(d);
      HealthyRest(u);
      AdmittedRest(s, u, s.pc.rest);
      DeliversStays(s, stem, rest, u, Admitted(u, c, rest), Settle(u, AllDone(), 0).state);
    }
  }

  lemma AdmittedRest(s: Sys, d: Sys, stems: seq<string>)
    requires stems != [] && s.localJson == d.localJson && s.localReady == d.localReady && s.cached.Some? && s.cached == d.cached
    requires !Ready(s, stems[0]) || (stems[0] !in s.cached.value && |s.cached.value| >= MAX_INDEX)
    ensures Admitted(s, s.cached.value, stems) == Admitted(d, s.cached.value, stems[1..])
  {
    AdmittedSame(s, d, s.cached.value, stems[1..]);
  }

  lemma AdmittedFirst(s: Sys, u: Sys, c: seq<string>, stems: seq<string>, c': seq<string>)
    requires stems != [] && Ready(s, stems[0]) && stems[0] !in stems[1..] && (stems[0] in c || |c| < MAX_INDEX)
    requires u.localJson == s.localJson - {stems[0]} && u.localReady == s.localReady - {stems[0]}
    requires c' == if stems[0] in c then c else c + [stems[0]]
    ensures Admitted(s, c, stems) == {stems[0]} + Admitted(u, c', stems[1..]) && stems[0] !in Admitted(u, c', stems[1..])
  {
    AdmittedSame(s, u, c', stems[1..]);
    AdmittedAreListed(u, c', stems[1..]);
  }

  lemma PassOver(s: Sys)
    requires s.pc == Next([]) && s.cached.Some?
    ensures Settle(Decide(s), AllDone(), 0).count == |Admitted(s, s.cached.value, [])|
    ensures Delivers(s, [], Admitted(s, s.cached.value, []), Settle(Decide(s), AllDone(), 0).state)
  {}

  lemma DeliversSame(s: Sys, d: Sys, stems: seq<string>, archived: set<string>, t: Sys)
    requires d == s.(pc := d.pc, cached := d.cached) && Delivers(d, stems, archived, t)
    ensures Delivers(s, stems, archived, t)
  {
    forall x ensures Ready(s, x) <==> Ready(d, x) {}
    assert Commands(s, archived) == Commands(d, archived);
    hide Ready, Commands;
  }

  /** From the first call about a stem to the next stem. */
  lemma HealthyNext(d: Sys, stem: string, rest: seq<string>)
    requires Inv(d) && d.pc == HasJson(stem, rest) && stem in d.localJson && d.cached.Some?
    requires stem in d.cached.value || |d.cached.value| < MAX_INDEX
    ensures var u := Answer(Healthy(d), Done);
      && Inv(u) && u.pc == Next(rest)
      && u.cached == Some(if stem in d.cached.value then d.cached.value else d.cached.value + [stem])
      && u.localJson == d.localJson - {stem} && u.localReady == d.localReady - {stem}
      && u.archived == d.archived + {(stem, d.localJson[stem])}
      && u.remoteJson == UploadedJson(d, stem) && u.remoteReady == d.remoteReady + {stem}
      && Settle(d, AllDone(), 0).state == Settle(u, AllDone(), 0).state
      && Settle(d, AllDone(), 0).count == Settle(u, AllDone(), 0).count + 1
  {
    HealthyDelivers(d, stem, rest);
    HealthySettles(d);
    HealthyCounts(d);
    hide Inv, Settle, Healthy;
    var h := Healthy(d);
    AnswerKeepsInv(h, Done);
    OneCall(h, AllDone(), 0);
    AnyCount(Answer(h, Done), 1, 0);
  }

  /** The index a pass works with: what this process has cached, or else what it loads. */
  function StartIndex(s: Sys): (r: seq<string>) {
    if s.cached.Some? then s.cached.value else s.remoteIndex
  }

  lemma PassStemsDistinct(s: Sys)
    ensures Distinct(PassStems(s))
  {}

  /** If every call works, a pass sends every listed command that is complete, and archives exactly those of them that
      are in the index or still find room in it; these are all in the remote index then. What is remote is the command
      itself exactly if no other content was remote under its stem before the pass. */
  lemma HealthyPass(s: Sys)
    requires Inv(s) && s.pc.Idle?
    ensures var t, archived := Pass(s, AllDone(), 0).state, Admitted(s, StartIndex(s), PassStems(s));
      && Inv(t) && Delivers(s, PassStems(s), archived, t) && Pass(s, AllDone(), 0).count == |archived|
      && (forall x :: x in archived ==> Complete(t, x) && x in t.remoteIndex)
      && (forall x :: x in PassStems(s) && Ready(s, x) ==> x in t.remoteJson)
      && (forall x :: x in PassStems(s) && Ready(s, x) ==>
            (t.remoteJson[x] == s.localJson[x] <==> x !in s.remoteJson || s.remoteJson[x] == s.localJson[x]))
  {
    var stems, t := PassStems(s), Pass(s, AllDone(), 0).state;
    var archived := Admitted(s, StartIndex(s), stems);
    PassIsRun(s, AllDone(), 0, 0);
    StepKeepsInv(s, Begin);
    PassStemsDistinct(s);
    var b := BeginPass(s);
    hide Settle, Answer, Decide, Admitted, Distinct;
    if s.cached.Some? {
      HealthyRest(b);
      SameAdmitted(s, b, stems);
      DeliversSame(s, b, stems, archived, t);
    } else {
      IndexLoads(s, b);
      AnswerKeepsInv(b, Done);
      var n := Answer(b, Done);
      OneCall(b, AllDone(), 0);
      AnyCount(n, 1, 0);
      HealthyRest(n);
      SameAdmitted(s, n, stems);
      DeliversSame(s, n, stems, archived, t);
    }
    AllArchivedRemote(s, stems, archived, t);
    AdmittedAreListed(s, StartIndex(s), stems);
    hide Inv, Complete;
  }

  lemma SameAdmitted(s: Sys, n: Sys, stems: seq<string>)
    requires n == s.(cached := Some(StartIndex(s)), pc := n.pc)
    ensures Admitted(n, n.cached.value, stems) == Admitted(s, StartIndex(s), stems)
  {
    forall x ensures Ready(s, x) <==> Ready(n, x) {}
    AdmittedSame(s, n, StartIndex(s), stems);
  }

  lemma IndexLoads(s: Sys, b: Sys)
    requires Inv(s) && s.pc.Idle? && s.cached.None? && b == BeginPass(s)
    ensures Answer(b, Done) == s.(cached := Some(s.remoteIndex), pc := Next(PassStems(s)))
  {}

  lemma AllArchivedRemote(s: Sys, stems: seq<string>, archived: set<string>, t: Sys)
    requires Inv(t) && Delivers(s, stems, archived, t)
    ensures forall x :: x in archived && x in s.localJson ==> Complete(t, x) && x in t.remoteIndex
  {
    forall x | x in archived && x in s.localJson ensures Complete(t, x) && x in t.remoteIndex {
      assert (x, s.localJson[x]) in Commands(s, archived);
      assert (x, s.localJson[x]) in t.archived;
    }
  }

  /** The complete commands of the queue. */
  function ReadyOnes(s: Sys): (r: set<string>) {
    set x | x in s.localReady && Ready(s, x)
  }

  lemma AllAdmitted(s: Sys)
    requires |s.localReady| <= MAX_PER_PASS && |StartIndex(s)| + |s.localReady| <= MAX_INDEX
    ensures Admitted(s, StartIndex(s), PassStems(s)) == ReadyOnes(s)
  {
    var stems := PassStems(s);
    PassStemsAre(s);
    hide PassStems, Ready, Admitted, Needed;
    AdmittedAreListed(s, StartIndex(s), stems);
    forall x | x in ReadyOnes(s) ensures x in Admitted(s, StartIndex(s), stems) {
      var i :| 0 <= i < |stems| && stems[i] == x;
      AdmittedIff(s, StartIndex(s), stems, i);
      NeededAtMost(s, StartIndex(s), stems[..i]);
    }
  }

  lemma AllSent(s: Sys, stems: seq<string>, archived: set<string>, t: Sys)
    requires Delivers(s, stems, archived, t) && forall x :: x in s.localReady ==> x in stems
    ensures forall x :: x in ReadyOnes(s) ==> Complete(t, x)
    ensures archived == ReadyOnes(s) ==>
      && t.localJson == s.localJson - archived && t.localReady == s.localReady - archived
      && forall x :: x in archived ==> (x, s.localJson[x]) in t.archived
  {
    if archived == ReadyOnes(s) {
      forall x | x in archived ensures x in s.localJson && (x, s.localJson[x]) in t.archived {
        assert (x, s.localJson[x]) in Commands(s, archived);
      }
    }
    hide ValidId;
  }

  /** Said of the queue itself: with at most 256 markers every complete command of it is remote after such a pass; with
      room in the index for all of them it has also left the queue, and is counted, and everything else stays. */
  lemma QueueDelivered(s: Sys)
    requires Inv(s) && s.pc.Idle? && |s.localReady| <= MAX_PER_PASS
    ensures var t := Pass(s, AllDone(), 0).state;
      && (forall x :: x in ReadyOnes(s) ==> Complete(t, x))
      && (|StartIndex(s)| + |s.localReady| <= MAX_INDEX ==>
            && t.localJson == s.localJson - ReadyOnes(s) && t.localReady == s.localReady - ReadyOnes(s)
            && (forall x :: x in ReadyOnes(s) ==> x in s.localJson && (x, s.localJson[x]) in t.archived && x in t.remoteIndex)
            && Pass(s, AllDone(), 0).count == |ReadyOnes(s)|)
  {
    HealthyPass(s);
    PassStemsAre(s);
    AllSent(s, PassStems(s), Admitted(s, StartIndex(s), PassStems(s)), Pass(s, AllDone(), 0).state);
    if |StartIndex(s)| + |s.localReady| <= MAX_INDEX {
      AllAdmitted(s);
      forall x | x in ReadyOnes(s) ensures x in s.localJson { ReadyQueued(s, x); }
    }
    hide Inv, PassStems, Admitted, Settle, Delivers, Pass, Complete, Ready;
  }

  lemma ReadyQueued(s: Sys, x: string)
    requires Ready(s, x)
    ensures x in s.localJson
  {}

  lemma {:induction false} NeededAtMost(s: Sys, index: seq<string>, stems: seq<string>)
    ensures Needed(s, index, stems) <= |stems|
    decreases |stems|
  {
    hide Ready;
    if stems != [] {
      NeededAtMost(s, index, stems[1..]);
    }
  }
}
