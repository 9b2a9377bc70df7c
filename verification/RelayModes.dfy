/** Which remote files were made readable for the game: each is uploaded, renamed and then opened by its own call,
    and a file that is there already is not opened again (goblin_zomboid/relay.py, SshFileRelay._publish_remote). */
module RelayModes {
  import opened Common
  import opened Protocol
  import opened RelayPush
  import opened RelayPass
  import opened RelayContent

  datatype File = JsonOf(stem: string) | MarkerOf(stem: string) | IndexFile

  /** The file that this action puts in place, with the mode it was uploaded with. */
  function Puts(s: Sys, a: Action): (r: Option<File>) {
    if !a.Call? || !Took(a.reply) then None
    else match s.pc
      case MvJson(stem, _, _) => Some(JsonOf(stem))
      case MvReady(stem, _) => Some(MarkerOf(stem))
      case MvIndex(_, _) => Some(IndexFile)
      case _ => None
  }

  /** The file whose mode change is the relay's next call. */
  function Due(pc: Pc): (r: Option<File>) {
    match pc
    case ChJson(stem, _) => Some(JsonOf(stem))
    case ChReady(stem, _) => Some(MarkerOf(stem))
    case ChIndex(_, _) => Some(IndexFile)
    case _ => None
  }

  /** The readable remote files after one action. */
  function Modes(s: Sys, open: set<File>, a: Action): (r: set<File>) {
    var put, due := Puts(s, a), Due(s.pc);
    if put.Some? then open - {put.value}
    else if a.Call? && Took(a.reply) && due.Some? then open + {due.value}
    else open
  }

  function ModesAfter(s: Sys, open: set<File>, acts: seq<Action>): (r: set<File>)
    decreases |acts|
  {
    if acts == [] then open else ModesAfter(Step(s, acts[0]), Modes(s, open, acts[0]), acts[1..])
  }

  /** The file is put in place and its mode change will never come: the rename took effect but failed, the mode change
      did nothing, or the relay was restarted before it. */
  predicate Skips(s: Sys, a: Action, f: File) {
    || (Puts(s, a) == Some(f) && a == Call(RelayPush.Lost))
    || (Due(s.pc) == Some(f) && (a == Call(Refused) || a == Restart))
  }

  predicate ShutBy(s: Sys, a: Action, f: File, shut: bool) {
    Skips(s, a, f) || (shut && Puts(s, a) != Some(f))
  }

  /** Whether a file that was closed, or not, is closed after a run: the last time it was put in place decides, and only
      by whether the mode change was skipped. */
  function Shut(s: Sys, acts: seq<Action>, f: File, shut: bool): (r: bool)
    decreases |acts|
  {
    if acts == [] then shut
    else Shut(Step(s, acts[0]), acts[1..], f, ShutBy(s, acts[0], f, shut))
  }

  predicate Closed(f: File, open: set<File>) {
    f !in open
  }

  ghost predicate Tracks(s: Sys, open: set<File>, f: File, shut: bool) {
    f !in open <==> shut || Due(s.pc) == Some(f)
  }

  lemma CallDue(s: Sys, r: Reply)
    ensures var t := Answer(s, r);
      Due(t.pc) == if r == Done && Puts(s, Call(r)).Some? then Puts(s, Call(r)) else None
  {
    hide Loadable, PassStems;
  }

  lemma QuietDue(s: Sys, a: Action)
    requires !a.Call?
    ensures Due(Step(s, a).pc) == if a.Restart? then None else Due(s.pc)
  {
    hide EncodedSize, PassStems, ValidId;
  }

  lemma StepTracks(s: Sys, open: set<File>, a: Action, f: File, shut: bool)
    requires Tracks(s, open, f, shut) && (shut ==> Due(s.pc) != Some(f))
    ensures var shut' := ShutBy(s, a, f, shut);
      Tracks(Step(s, a), Modes(s, open, a), f, shut') && (shut' ==> Due(Step(s, a).pc) != Some(f))
  {
    if a.Call? {
      CallDue(s, a.reply);
      hide Answer;
    } else {
      QuietDue(s, a);
      hide Step;
    }
  }

  /** In every run: a file is readable exactly if its mode change was not skipped the last time it was put in place, and
      is not still to come. */
  lemma {:induction false} ShutIff(s: Sys, open: set<File>, acts: seq<Action>, f: File, shut: bool)
    requires Tracks(s, open, f, shut) && (shut ==> Due(s.pc) != Some(f))
    ensures Tracks(Run(s, acts), ModesAfter(s, open, acts), f, Shut(s, acts, f, shut))
    decreases |acts|
  {
    if acts != [] {
      StepTracks(s, open, acts[0], f, shut);
      hide Tracks, Step, Modes, ShutBy, Due;
      ShutIff(Step(s, acts[0]), Modes(s, open, acts[0]), acts[1..], f, ShutBy(s, acts[0], f, shut));
    }
  }

  lemma LeavesWhenArchived(u: Sys, a: Action, stem: string)
    requires stem in u.localJson && stem !in Step(u, a).localJson
    ensures Due(u.pc).None?
  {
    DecideLeavesQueue(u);
    hide Decide, PassStems, Loadable;
  }

  /** When a command leaves the queue, its JSON, its marker and the index are each readable for the game exactly if
      their mode change was not skipped the last time they were put in place. */
  lemma LeftReadableIff(s: Sys, open: set<File>, acts: seq<Action>, a: Action, stem: string, f: File)
    requires s.pc.Idle? && stem in Run(s, acts).localJson && stem !in Step(Run(s, acts), a).localJson
    ensures f in ModesAfter(s, open, acts) <==> !Shut(s, acts, f, Closed(f, open))
  {
    ShutIff(s, open, acts, f, Closed(f, open));
    LeavesWhenArchived(Run(s, acts), a, stem);
    hide Run, Step, Shut, ModesAfter;
  }

  // ---- a pass in which every call works

  predicate Working(a: Action) {
    a == Call(Done) || a.Tau? || a.Begin?
  }

  predicate Works(acts: seq<Action>) {
    forall i :: 0 <= i < |acts| ==> Working(acts[i])
  }

  predicate PutIn(s: Sys, acts: seq<Action>, f: File)
    decreases |acts|
  {
    acts != [] && (Puts(s, acts[0]) == Some(f) || PutIn(Step(s, acts[0]), acts[1..], f))
  }

  lemma {:induction false} WorkingNeverSkips(s: Sys, acts: seq<Action>, f: File, shut: bool)
    requires Works(acts)
    ensures Shut(s, acts, f, shut) <==> shut && !PutIn(s, acts, f)
    decreases |acts|
  {
    hide Step, Puts;
    if acts != [] {
      WorkingNeverSkips(Step(s, acts[0]), acts[1..], f, shut && Puts(s, acts[0]) != Some(f));
    }
  }

  lemma {:induction false} StepsWork(s: Sys, k: nat)
    ensures Works(Steps(s, AllDone(), k))
    decreases Left(s)
  {
    hide Answer, Decide, Left, Rank;
    if s.pc.Idle? {
    } else if Waits(s.pc) {
      CallFalls(s, Done);
      StepsWork(Answer(s, Done), k + 1);
    } else {
      DecisionFalls(s);
      StepsWork(Decide(s), k);
    }
  }

  /** Whether the file is there. */
  predicate There(s: Sys, f: File) {
    match f
    case JsonOf(stem) => stem in s.remoteJson
    case MarkerOf(stem) => stem in s.remoteReady
    case IndexFile => true
  }

  /** The relay is about to put the file in place. */
  predicate Sending(pc: Pc, f: File) {
    match pc
    case UpJson(stem, _) => f == JsonOf(stem)
    case MvJson(stem, _, _) => f == JsonOf(stem)
    case UpReady(stem, _) => f == MarkerOf(stem)
    case MvReady(stem, _) => f == MarkerOf(stem)
    case _ => false
  }

  lemma CallThere(s: Sys, r: Reply, f: File)
    requires !f.IndexFile?
    ensures There(Answer(s, r), f) <==> There(s, f) || Puts(s, Call(r)) == Some(f)
    ensures r == Done && There(s, f) && !Sending(s.pc, f) ==>
              Puts(s, Call(r)) != Some(f) && There(Answer(s, r), f) && !Sending(Answer(s, r).pc, f)
  {
    hide Loadable, PassStems;
  }

  lemma DecideThere(s: Sys, f: File)
    requires !f.IndexFile?
    ensures (There(Decide(s), f) <==> There(s, f)) && (!Sending(s.pc, f) ==> !Sending(Decide(s).pc, f))
  {
    hide EncodedSize, ValidId;
  }

  lemma WorkThere(s: Sys, a: Action, f: File)
    requires !f.IndexFile? && Working(a)
    ensures There(Step(s, a), f) <==> There(s, f) || Puts(s, a) == Some(f)
    ensures There(s, f) && !Sending(s.pc, f) ==> Puts(s, a) != Some(f) && !Sending(Step(s, a).pc, f)
  {
    if a.Call? {
      CallThere(s, a.reply, f);
    } else if a.Tau? {
      DecideThere(s, f);
    }
    hide Answer, Decide, PassStems;
  }

  /** With working calls a file is put in place only if it is not there. */
  lemma {:induction false} PutOnlyIfAbsent(s: Sys, acts: seq<Action>, f: File)
    requires Works(acts) && !f.IndexFile?
    ensures There(Run(s, acts), f) <==> There(s, f) || PutIn(s, acts, f)
    ensures There(s, f) && !Sending(s.pc, f) ==> !PutIn(s, acts, f)
    decreases |acts|
  {
    hide Step, Puts, Sending;
    if acts != [] {
      WorkThere(s, acts[0], f);
      PutOnlyIfAbsent(Step(s, acts[0]), acts[1..], f);
    }
  }

  /** In a pass in which every call works, what is sent is readable then exactly if it was absent or readable before:
      nobody opens a file that is there. */
  lemma PassOpens(s: Sys, open: set<File>, f: File)
    requires Inv(s) && s.pc.Idle?
    requires (f.JsonOf? || f.MarkerOf?) && f.stem in PassStems(s) && Ready(s, f.stem)
    ensures f in ModesAfter(s, open, PassActions(s)) <==> !There(s, f) || f in open
  {
    var acts := PassActions(s);
    StepsWork(BeginPass(s), 0);
    assert Works(acts) by { hide Steps, BeginPass; }
    HealthyPass(s);
    PassIsRun(s, AllDone(), 0, 0);
    assert Run(s, acts) == Pass(s, AllDone(), 0).state by { hide Steps, Settle; }
    hide Inv, PassActions, BeginPass, PassStems, Settle, Steps, Admitted;
    assert There(Run(s, acts), f) by { hide Ready; }
    hide Delivers;
    PutOnlyIfAbsent(s, acts, f);
    WorkingNeverSkips(s, acts, f, Closed(f, open));
    ShutIff(s, open, acts, f, Closed(f, open));
    PassEnds(s);
    hide Run, ModesAfter, Shut, PutIn, There;
  }

  lemma PassEnds(s: Sys)
    requires Inv(s) && s.pc.Idle?
    ensures Run(s, PassActions(s)).pc.Idle?
  {
    PassIsRun(s, AllDone(), 0, 0);
    SettleIsRun(BeginPass(s), AllDone(), 0);
    hide Steps, Settle, BeginPass;
  }

  // ---- a command that arrives and cannot be read

  /** A pass over one command in which changing the mode of its JSON fails. */
  const Hurt: seq<Action> := [Begin, Call(Done), Tau, Call(Done), Call(Done), Call(Done), Call(Refused), Tau]

  /** A relay that has just started, with this command in its queue and an empty remote directory. */
  predicate OneQueued(s: Sys, stem: string, token: nat) {
    && ValidId(stem) && s.localJson == map[stem := token] && s.localReady == {stem} && s.remoteJson == map[]
    && s.remoteIndex == [] && s.cached.None? && s.pc.Idle?
  }

  lemma HurtLooks(s: Sys, stem: string, token: nat)
    requires OneQueued(s, stem, token)
    ensures var t := s.(cached := Some([]), pc := HasJson(stem, []));
      Step(Step(Step(s, Begin), Call(Done)), Tau) == t
  {
    OneListed(stem);
    assert PassStems(s) == [stem];
    hide ValidId;
  }

  lemma HurtSends(t: Sys, stem: string, token: nat)
    requires t.pc == HasJson(stem, []) && t.remoteJson == map[] && t.localJson == map[stem := token]
    ensures var u := t.(remoteJson := map[stem := token]);
      && Step(t, Call(Done)) == t.(pc := UpJson(stem, []))
      && Step(t.(pc := UpJson(stem, [])), Call(Done)) == t.(pc := MvJson(stem, [], token))
      && Step(t.(pc := MvJson(stem, [], token)), Call(Done)) == u.(pc := ChJson(stem, []))
      && Step(u.(pc := ChJson(stem, [])), Call(Refused)) == u.(pc := Next([]))
      && Step(u.(pc := Next([])), Tau) == u.(pc := Idle)
  {}

  lemma RunFrom(s: Sys, open: set<File>, a: seq<Action>, k: nat)
    requires k < |a|
    ensures Run(s, a[k..]) == Run(Step(s, a[k]), a[k + 1..])
    ensures ModesAfter(s, open, a[k..]) == ModesAfter(Step(s, a[k]), Modes(s, open, a[k]), a[k + 1..])
  {
    assert a[k..][0] == a[k] && a[k..][1..] == a[k + 1..];
    hide Step, Modes;
  }

  /** A closed file is opened only by its own mode change. */
  lemma StaysClosed(s: Sys, open: set<File>, a: Action, f: File)
    requires f !in open && !(a.Call? && Took(a.reply) && Due(s.pc) == Some(f))
    ensures f !in Modes(s, open, a)
  {}

  lemma HurtBegins(s: Sys, open: set<File>, stem: string, token: nat)
    requires OneQueued(s, stem, token) && JsonOf(stem) !in open
    ensures var t := s.(cached := Some([]), pc := HasJson(stem, []));
      exists o :: JsonOf(stem) !in o && Run(s, Hurt) == Run(t, Hurt[3..]) && ModesAfter(s, open, Hurt) == ModesAfter(t, o, Hurt[3..])
  {
    var f := JsonOf(stem);
    var s1 := Step(s, Begin);
    var s2 := Step(s1, Call(Done));
    HurtLooks(s, stem, token);
    assert Due(s.pc) != Some(f) && Due(s1.pc) != Some(f) && Due(s2.pc) != Some(f);
    hide Step, OneQueued, Modes, Due, Run, ModesAfter;
    var o1 := Modes(s, open, Begin);
    var o2 := Modes(s1, o1, Call(Done));
    var o3 := Modes(s2, o2, Tau);
    StaysClosed(s, open, Begin, f);
    StaysClosed(s1, o1, Call(Done), f);
    StaysClosed(s2, o2, Tau, f);
    assert Hurt[0..] == Hurt;
    RunFrom(s, open, Hurt, 0);
    RunFrom(s1, o1, Hurt, 1);
    RunFrom(s2, o2, Hurt, 2);
    assert f !in o3;
  }

  lemma HurtEnds(t: Sys, open: set<File>, stem: string, token: nat)
    requires t.pc == HasJson(stem, []) && t.remoteJson == map[] && t.localJson == map[stem := token] && JsonOf(stem) !in open
    ensures Run(t, Hurt[3..]) == t.(remoteJson := map[stem := token], pc := Idle)
    ensures JsonOf(stem) !in ModesAfter(t, open, Hurt[3..])
  {
    var f := JsonOf(stem);
    var t1, t2 := t.(pc := UpJson(stem, [])), t.(pc := MvJson(stem, [], token));
    var u := t.(remoteJson := map[stem := token]);
    var u3, u4 := u.(pc := ChJson(stem, [])), u.(pc := Next([]));
    HurtSends(t, stem, token);
    assert Due(t.pc) != Some(f) && Due(t1.pc) != Some(f) && Due(t2.pc) != Some(f) && Due(u4.pc) != Some(f);
    hide Step, Modes, Due;
    var o1 := Modes(t, open, Call(Done));
    var o2 := Modes(t1, o1, Call(Done));
    var o3 := Modes(t2, o2, Call(Done));
    var o4 := Modes(u3, o3, Call(Refused));
    StaysClosed(t, open, Call(Done), f);
    StaysClosed(t1, o1, Call(Done), f);
    StaysClosed(t2, o2, Call(Done), f);
    StaysClosed(u3, o3, Call(Refused), f);
    StaysClosed(u4, o4, Tau, f);
    RunFrom(t, open, Hurt, 3);
    RunFrom(t1, o1, Hurt, 4);
    RunFrom(t2, o2, Hurt, 5);
    RunFrom(u3, o3, Hurt, 6);
    RunFrom(u4, o4, Hurt, 7);
    assert Hurt[8..] == [];
  }

  lemma RunHurt(s: Sys, open: set<File>, stem: string, token: nat)
    requires OneQueued(s, stem, token) && JsonOf(stem) !in open
    ensures Run(s, Hurt) == s.(cached := Some([]), remoteJson := map[stem := token])
    ensures JsonOf(stem) !in ModesAfter(s, open, Hurt)
  {
    var t := s.(cached := Some([]), pc := HasJson(stem, []));
    HurtBegins(s, open, stem, token);
    var o :| JsonOf(stem) !in o && Run(s, Hurt) == Run(t, Hurt[3..]) && ModesAfter(s, open, Hurt) == ModesAfter(t, o, Hurt[3..]);
    HurtEnds(t, o, stem, token);
    hide Run, ModesAfter;
  }

  lemma {:induction false} ModesCat(s: Sys, open: set<File>, a: seq<Action>, b: seq<Action>)
    ensures ModesAfter(s, open, a + b) == ModesAfter(Run(s, a), ModesAfter(s, open, a), b)
    decreases |a|
  {
    hide Step, Modes;
    if a == [] {
      assert a + b == b;
    } else {
      assert (a + b)[1..] == a[1..] + b;
      ModesCat(Step(s, a[0]), Modes(s, open, a[0]), a[1..], b);
    }
  }

  lemma PublishOpensNothing(s: Sys, open: set<File>, stem: string, token: nat)
    ensures ModesAfter(s, open, Publish(stem, token)) == open
  {
    var acts, s1 := Publish(stem, token), Step(s, PublishJson(stem, token));
    assert acts[0..] == acts && acts[2..] == [];
    RunFrom(s, open, acts, 0);
    RunFrom(s1, open, acts, 1);
    hide Step;
  }

  /** The state before the last pass: everything about the command is as it was, but its JSON is there and closed. */
  ghost predicate SentClosed(s: Sys, open: set<File>, stem: string, token: nat) {
    && Inv(s) && s.pc.Idle? && PassStems(s) == [stem] && Ready(s, stem) && StartIndex(s) == []
    && s.localJson[stem] == token && stem in s.remoteJson && JsonOf(stem) !in open
  }

  lemma HurtOnce(stem: string, token: nat)
    requires ValidId(stem)
    ensures var acts := Publish(stem, token) + Hurt;
      SentClosed(Run(RelayContent.Fresh, acts), ModesAfter(RelayContent.Fresh, {}, acts), stem, token)
  {
    var publish := Publish(stem, token);
    FreshStart(map[], {}, {});
    PublishRuns(RelayContent.Fresh, stem, token);
    PublishOpensNothing(RelayContent.Fresh, {}, stem, token);
    RunKeepsInv(RelayContent.Fresh, publish);
    var s1 := Run(RelayContent.Fresh, publish);
    assert OneQueued(s1, stem, token);
    RunHurt(s1, {}, stem, token);
    RunKeepsInv(s1, Hurt);
    OneListed(stem);
    hide Inv, Run, ModesAfter, Publish, ValidId;
    RunCat(RelayContent.Fresh, publish, Hurt);
    ModesCat(RelayContent.Fresh, {}, publish, Hurt);
  }

  lemma ArchivedClosed(s: Sys, open: set<File>, stem: string, token: nat)
    requires SentClosed(s, open, stem, token)
    ensures var t := Run(s, PassActions(s));
      && (stem, token) in t.archived && stem in t.remoteIndex && Complete(t, stem)
      && JsonOf(stem) !in ModesAfter(s, open, PassActions(s))
  {
    PassOpens(s, open, JsonOf(stem));
    HealthyPass(s);
    PassIsRun(s, AllDone(), 0, 0);
    AdmittedOne(s, [], stem);
    hide Inv, Run, Steps, Settle, PassStems, Ready, Admitted, Complete, ModesAfter;
    assert (stem, token) in Commands(s, {stem});
  }

  /** From a fresh start: changing the mode of a command's JSON fails once, every other call works, and the next pass
      indexes and archives the command although the game cannot read it. */
  lemma ArrivesClosed(stem: string, token: nat)
    requires ValidId(stem)
    ensures exists acts :: var t := Run(RelayContent.Fresh, acts);
      && (stem, token) in t.archived && stem in t.remoteIndex && Complete(t, stem)
      && JsonOf(stem) !in ModesAfter(RelayContent.Fresh, {}, acts)
  {
    var first := Publish(stem, token) + Hurt;
    HurtOnce(stem, token);
    var s := Run(RelayContent.Fresh, first);
    ArchivedClosed(s, ModesAfter(RelayContent.Fresh, {}, first), stem, token);
    RunCat(RelayContent.Fresh, first, PassActions(s));
    ModesCat(RelayContent.Fresh, {}, first, PassActions(s));
    hide *;
    var acts := first + PassActions(s);
    assert JsonOf(stem) !in ModesAfter(RelayContent.Fresh, {}, acts);
  }
}
