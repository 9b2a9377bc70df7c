/** Publishing commands to the game host over calls that may fail, or take effect and still
    report failure, with relay restarts anywhere (goblin_zomboid/relay.py, SshFileRelay.push). */
module RelayPush {
  import opened Common
  import opened Protocol

  const MAX_INDEX := 1024
  const MAX_PER_PASS := 256
  const MAX_INDEX_BYTES := 262144

  /** How one call ended: it worked, it did nothing and failed, or it took effect and failed. */
  datatype Reply = Done | Refused | Lost

  /** Where the relay is. Every constructor with a call waits for that call's reply. */
  datatype Pc =
    | Idle
    | Loading
    | Next(rest: seq<string>)
    | HasJson(stem: string, rest: seq<string>)
    | UpJson(stem: string, rest: seq<string>)
    | MvJson(stem: string, rest: seq<string>, token: nat)
    | ChJson(stem: string, rest: seq<string>)
    | HasReady(stem: string, rest: seq<string>)
    | UpReady(stem: string, rest: seq<string>)
    | MvReady(stem: string, rest: seq<string>)
    | ChReady(stem: string, rest: seq<string>)
    | EndJson(stem: string, rest: seq<string>)
    | EndReady(stem: string, rest: seq<string>)
    | Published(stem: string, rest: seq<string>)
    | FitIndex(stem: string, rest: seq<string>)
    | UpIndex(stem: string, rest: seq<string>)
    | MvIndex(stem: string, rest: seq<string>)
    | ChIndex(stem: string, rest: seq<string>)
    | PopIndex(stem: string, rest: seq<string>)
    | ArcJson(stem: string, rest: seq<string>)
    | ArcReady(stem: string, rest: seq<string>)

  /** Local queue, remote directory, relay memory, and what has ever been published or archived. */
  datatype Sys = Sys(
    localJson: map<string, nat>, localReady: set<string>,
    remoteJson: map<string, nat>, remoteReady: set<string>, remoteIndex: seq<string>,
    cached: Option<seq<string>>, pc: Pc,
    published: set<(string, nat)>, archived: set<(string, nat)>)

  datatype Action =
    | Call(reply: Reply)
    | Tau
    | Begin
    | PublishJson(stem: string, token: nat)
    | PublishReady(stem: string)
    | Restart

  function QuotedSize(stems: seq<string>): (r: nat) {
    if stems == [] then 0 else |stems[0]| + 3 + QuotedSize(stems[1..])
  }

  /** Bytes of the compact JSON list: brackets, two quotes per stem, commas between. */
  function EncodedSize(stems: seq<string>): (r: nat) {
    if stems == [] then 2 else 1 + QuotedSize(stems)
  }

  function LoseLast(c: Option<seq<string>>): (r: Option<seq<string>>) {
    if c.Some? && c.value != [] then Some(c.value[..|c.value| - 1]) else c
  }

  /** A reply whose call changed the remote or local files. */
  predicate Took(r: Reply) { r != Refused }

  /** The pass starts: load the index first if this process has not done so. */
  function BeginPass(s: Sys): (r: Sys) {
    if s.cached.None? then s.(pc := Loading) else s.(pc := Next(PassStems(s)))
  }

  function PassStems(s: Sys): (r: seq<string>) {
    var all := Listing(s.localReady, ".ready");
    if |all| <= MAX_PER_PASS then all else all[..MAX_PER_PASS]
  }

  /** A pass lists the markers of the queue: all of them, or the first 256 in the order of their file names. */
  lemma PassStemsAre(s: Sys)
    ensures var r := PassStems(s);
      && |r| == (if |s.localReady| <= MAX_PER_PASS then |s.localReady| else MAX_PER_PASS)
      && (forall i, j :: 0 <= i < j < |r| ==> r[i] != r[j] && StrLe(r[i] + ".ready", r[j] + ".ready"))
      && (forall x :: x in r ==> x in s.localReady)
      && (forall x, y :: x in r && y in s.localReady && y !in r ==> StrLe(x + ".ready", y + ".ready"))
      && (|s.localReady| <= MAX_PER_PASS ==> forall x :: x in s.localReady ==> x in r)
  {
    FrontOf(Listing(s.localReady, ".ready"), |PassStems(s)|, ".ready");
    hide Listing, StrLe;
  }

  lemma FrontOf(all: seq<string>, n: nat, suffix: string)
    requires n <= |all| && forall i, j :: 0 <= i < j < |all| ==> all[i] != all[j] && StrLe(all[i] + suffix, all[j] + suffix)
    ensures forall x, y :: x in all[..n] && y in all && y !in all[..n] ==> StrLe(x + suffix, y + suffix)
    ensures forall x :: x in all[..n] ==> x in all
  {
    hide StrLe;
    forall x, y | x in all[..n] && y in all && y !in all[..n] ensures StrLe(x + suffix, y + suffix) {
      var i :| 0 <= i < n && all[i] == x;
      var j :| 0 <= j < |all| && all[j] == y;
      assert forall k :: 0 <= k < n ==> all[k] in all[..n];
    }
  }

  /** Decisions that need no call. */
  function Decide(s: Sys): (r: Sys) {
    match s.pc
    case Next(rest) =>
      if rest == [] then s.(pc := Idle)
      else if ValidId(rest[0]) && rest[0] in s.localJson && rest[0] in s.localReady
      then s.(pc := HasJson(rest[0], rest[1..]))
      else s.(pc := Next(rest[1..]))
    case Published(stem, rest) =>
      if s.cached.None? then s.(pc := Next(rest))
      else if stem in s.cached.value then s.(pc := ArcJson(stem, rest))
      else if |s.cached.value| >= MAX_INDEX then s.(pc := Next(rest))
      else s.(cached := Some(s.cached.value + [stem]), pc := FitIndex(stem, rest))
    case FitIndex(stem, rest) =>
      s.(pc := if s.cached.Some? && EncodedSize(s.cached.value) <= MAX_INDEX_BYTES then UpIndex(stem, rest) else PopIndex(stem, rest))
    case PopIndex(stem, rest) => s.(cached := LoseLast(s.cached), pc := Next(rest))
    case _ => s
  }

  predicate Loadable(index: seq<string>) {
    |index| <= MAX_INDEX && (forall i :: 0 <= i < |index| ==> ValidId(index[i]))
    && forall i, j :: 0 <= i < j < |index| ==> index[i] != index[j]
  }

  /** One remote (or local rename) call of the protocol and what the relay does with its reply. */
  function Answer(s: Sys, r: Reply): (t: Sys) {
    match s.pc
    case Loading =>
      if r == Done && Loadable(s.remoteIndex)
      then s.(cached := Some(s.remoteIndex), pc := Next(PassStems(s))) else s.(pc := Idle)
    case HasJson(stem, rest) =>
      s.(pc := if r == Done && stem in s.remoteJson then HasReady(stem, rest) else UpJson(stem, rest))
    case UpJson(stem, rest) =>
      s.(pc := if r == Done && stem in s.localJson then MvJson(stem, rest, s.localJson[stem]) else Next(rest))
    case MvJson(stem, rest, token) =>
      s.(remoteJson := if Took(r) then s.remoteJson[stem := token] else s.remoteJson,
         pc := if r == Done then ChJson(stem, rest) else Next(rest))
    case ChJson(stem, rest) => s.(pc := if r == Done then HasReady(stem, rest) else Next(rest))
    case HasReady(stem, rest) =>
      s.(pc := if r == Done && stem in s.remoteReady then EndJson(stem, rest) else UpReady(stem, rest))
    case UpReady(stem, rest) => s.(pc := if r == Done then MvReady(stem, rest) else Next(rest))
    case MvReady(stem, rest) =>
      s.(remoteReady := if Took(r) then s.remoteReady + {stem} else s.remoteReady,
         pc := if r == Done then ChReady(stem, rest) else Next(rest))
    case ChReady(stem, rest) => s.(pc := if r == Done then EndJson(stem, rest) else Next(rest))
    case EndJson(stem, rest) =>
      s.(pc := if r == Done && stem in s.remoteJson then EndReady(stem, rest) else Next(rest))
    case EndReady(stem, rest) =>
      s.(pc := if r == Done && stem in s.remoteReady then Published(stem, rest) else Next(rest))
    case UpIndex(stem, rest) => s.(pc := if r == Done then MvIndex(stem, rest) else PopIndex(stem, rest))
    case MvIndex(stem, rest) =>
      s.(remoteIndex := if Took(r) && s.cached.Some? then s.cached.value else s.remoteIndex,
         pc := if r == Done then ChIndex(stem, rest) else PopIndex(stem, rest))
    case ChIndex(stem, rest) => s.(pc := if r == Done then ArcJson(stem, rest) else PopIndex(stem, rest))
    case ArcJson(stem, rest) =>
      if stem !in s.localJson then s.(pc := ArcReady(stem, rest))
      else s.(localJson := if Took(r) then s.localJson - {stem} else s.localJson,
              archived := if Took(r) then s.archived + {(stem, s.localJson[stem])} else s.archived,
              pc := if r == Done then ArcReady(stem, rest) else Next(rest))
    case ArcReady(stem, rest) =>
      s.(localReady := if Took(r) then s.localReady - {stem} else s.localReady, pc := Next(rest))
    case _ => s
  }

  /** A file is taken to be remote only once it has been seen, or its upload has been renamed and opened, and both files
      are seen once more before the stem counts as published. */
  lemma SeenBeforePublished(s: Sys, r: Reply)
    requires !s.pc.Idle? && !s.pc.Loading? && !s.pc.Next? && Answer(s, r).pc != s.pc
    ensures var t := Answer(s, r);
      && (t.pc.HasReady? ==> r == Done && (s.pc.ChJson? || (s.pc.HasJson? && s.pc.stem in s.remoteJson)) && t.pc.stem == s.pc.stem)
      && (t.pc.EndJson? ==> r == Done && (s.pc.ChReady? || (s.pc.HasReady? && s.pc.stem in s.remoteReady)) && t.pc.stem == s.pc.stem)
      && (t.pc.EndReady? ==> r == Done && s.pc.EndJson? && s.pc.stem in s.remoteJson && t.pc.stem == s.pc.stem)
      && (t.pc.Published? ==> r == Done && s.pc.EndReady? && s.pc.stem in s.remoteReady && t.pc.stem == s.pc.stem)
  {}

  /** A call archives only behind the index. */
  lemma IndexedBeforeArchived(s: Sys, r: Reply)
    requires !s.pc.Idle? && !s.pc.Loading? && !s.pc.Next? && Answer(s, r).pc != s.pc
    ensures var t := Answer(s, r);
      && (t.pc.ArcJson? ==> r == Done && s.pc.ChIndex? && t.pc.stem == s.pc.stem)
      && (t.pc.ArcReady? ==> s.pc.ArcJson? && (r == Done || s.pc.stem !in s.localJson) && t.pc.stem == s.pc.stem)
  {}

  /** Only archiving takes files out of the queue, the JSON first. */
  lemma OnlyArchivingMoves(s: Sys, r: Reply)
    ensures Answer(s, r).localJson == if s.pc.ArcJson? && Took(r) then s.localJson - {s.pc.stem} else s.localJson
    ensures Answer(s, r).localReady == if s.pc.ArcReady? && Took(r) then s.localReady - {s.pc.stem} else s.localReady
  {
    hide Loadable, PassStems;
    if s.pc.ArcJson? && s.pc.stem !in s.localJson {
      assert s.localJson - {s.pc.stem} == s.localJson;
    }
  }

  /** A call about a stem that fails ends the turn of this stem, except that a look that fails counts as not seen; while
      the index is being written it takes the stem out of the index again first. */
  lemma FailureEndsTurn(s: Sys, r: Reply)
    requires r != Done && !s.pc.Idle? && !s.pc.Loading? && !s.pc.Next? && !s.pc.Published? && !s.pc.FitIndex? && !s.pc.PopIndex?
    ensures var t := Answer(s, r);
      && (s.pc.HasJson? ==> t == s.(pc := UpJson(s.pc.stem, s.pc.rest)))
      && (s.pc.HasReady? ==> t == s.(pc := UpReady(s.pc.stem, s.pc.rest)))
      && (s.pc.UpIndex? || s.pc.MvIndex? || s.pc.ChIndex? ==> t.pc == PopIndex(s.pc.stem, s.pc.rest))
      && (t.pc == Next(s.pc.rest) || s.pc.HasJson? || s.pc.HasReady? || t.pc.PopIndex? || (s.pc.ArcJson? && s.pc.stem !in s.localJson))
      && (r == Refused ==> t == s.(pc := t.pc))
  {
    hide Loadable, PassStems;
  }

  function Step(s: Sys, a: Action): (r: Sys) {
    match a
    case Call(reply) => Answer(s, reply)
    case Tau => Decide(s)
    case Begin => if s.pc.Idle? then BeginPass(s) else s
    case PublishJson(stem, token) =>
      if ValidId(stem) && stem !in s.localJson && stem !in s.localReady
      then s.(localJson := s.localJson[stem := token], published := s.published + {(stem, token)}) else s
    case PublishReady(stem) => if stem in s.localJson then s.(localReady := s.localReady + {stem}) else s
    case Restart => s.(cached := None, pc := Idle)
  }

  function Run(s: Sys, acts: seq<Action>): (r: Sys)
    decreases |acts|
  {
    if acts == [] then s else Run(Step(s, acts[0]), acts[1..])
  }

  // ---- the invariant

  ghost predicate Distinct(s: seq<string>) {
    forall i, j :: 0 <= i < j < |s| ==> s[i] != s[j]
  }

  /** The cached index without the entry that is being written. */
  function Confirmed(s: Sys): (r: seq<string>) {
    if s.cached.None? then [] else if s.pc.FitIndex? || s.pc.UpIndex? || s.pc.MvIndex? || s.pc.ChIndex? || s.pc.PopIndex? then LoseLast(s.cached).value
    else s.cached.value
  }

  ghost predicate Complete(s: Sys, stem: string) {
    stem in s.remoteJson && stem in s.remoteReady
  }

  /** What the relay knows at each point of its protocol. */
  ghost predicate Knows(s: Sys) {
    match s.pc
    case MvJson(stem, rest, token) => ValidId(stem) && (stem, token) in s.published
    case ChJson(stem, rest) => ValidId(stem) && stem in s.remoteJson
    case HasReady(stem, rest) => ValidId(stem) && stem in s.remoteJson
    case UpReady(stem, rest) => ValidId(stem) && stem in s.remoteJson
    case MvReady(stem, rest) => ValidId(stem) && stem in s.remoteJson
    case ChReady(stem, rest) => ValidId(stem) && Complete(s, stem)
    case EndJson(stem, rest) => ValidId(stem) && Complete(s, stem)
    case EndReady(stem, rest) => ValidId(stem) && Complete(s, stem)
    case Published(stem, rest) => ValidId(stem) && Complete(s, stem)
    case FitIndex(stem, rest) => Pending(s, stem)
    case UpIndex(stem, rest) => Pending(s, stem)
    case MvIndex(stem, rest) => Pending(s, stem)
    case ChIndex(stem, rest) => Pending(s, stem) && stem in s.remoteIndex
    case PopIndex(stem, rest) => Pending(s, stem)
    case ArcJson(stem, rest) => s.cached.Some? && stem in s.cached.value && stem in s.remoteIndex
    case ArcReady(stem, rest) => s.cached.Some? && stem in s.cached.value && stem in s.remoteIndex
    case HasJson(stem, rest) => ValidId(stem)
    case UpJson(stem, rest) => ValidId(stem)
    case _ => true
  }

  ghost predicate Pending(s: Sys, stem: string) {
    ValidId(stem) && Complete(s, stem) && s.cached.Some? && s.cached.value != []
    && s.cached.value[|s.cached.value| - 1] == stem
  }

  /** archived ⊆ cached ⊆ remote index, both duplicate-free and at most 1024 long; an index entry
      has its JSON and marker, a marker has its JSON, and every remote JSON is a published one. */
  ghost predicate Inv(s: Sys) {
    && Loadable(s.remoteIndex)
    && (s.cached.Some? ==> Loadable(s.cached.value))
    && (s.cached.Some? ==> forall x :: x in Confirmed(s) ==> x in s.remoteIndex)
    && (s.cached.Some? ==> forall p :: p in s.archived ==> p.0 in Confirmed(s))
    && (forall p :: p in s.archived ==> p.0 in s.remoteIndex)
    && (forall x :: x in s.remoteIndex ==> Complete(s, x))
    && (forall x :: x in s.remoteReady ==> x in s.remoteJson)
    && (forall x :: x in s.remoteJson ==> (x, s.remoteJson[x]) in s.published)
    && (forall x :: x in s.localJson ==> (x, s.localJson[x]) in s.published)
    && s.archived <= s.published
    && Knows(s)
  }

  lemma AppendLoadable(c: seq<string>, stem: string)
    requires Loadable(c) && stem !in c && ValidId(stem) && |c| < MAX_INDEX
    ensures Loadable(c + [stem])
  {}

  lemma InitLoadable(c: seq<string>)
    requires Loadable(c) && c != []
    ensures Loadable(c[..|c| - 1])
    ensures forall x :: x in c ==> x in c[..|c| - 1] || x == c[|c| - 1]
  {}

  lemma AppendKeepsInv(s: Sys)
    requires Inv(s) && s.pc.Published? && s.cached.Some? && s.pc.stem !in s.cached.value && |s.cached.value| < MAX_INDEX
    ensures Inv(Decide(s))
  {
    var c := s.cached.value;
    AppendLoadable(c, s.pc.stem);
    assert (c + [s.pc.stem])[..|c|] == c;
    var t := Decide(s);
    assert t == s.(cached := Some(c + [s.pc.stem]), pc := FitIndex(s.pc.stem, s.pc.rest));
    assert Confirmed(t) == Confirmed(s);
    hide Loadable, Decide, Confirmed;
  }

  lemma PopKeepsInv(s: Sys)
    requires Inv(s) && s.pc.PopIndex?
    ensures Inv(Decide(s))
  {
    InitLoadable(s.cached.value);
    hide Loadable;
  }

  lemma DecideKeepsInv(s: Sys)
    requires Inv(s)
    ensures Inv(Decide(s))
  {
    if s.pc.Published? && s.cached.Some? && s.pc.stem !in s.cached.value && |s.cached.value| < MAX_INDEX {
      AppendKeepsInv(s);
    } else if s.pc.PopIndex? {
      PopKeepsInv(s);
    } else {
      var t := Decide(s);
      assert t == s.(pc := t.pc);
      assert Confirmed(t) == Confirmed(s);
      assert Knows(t) by { hide Loadable, EncodedSize; }
      hide Decide, Loadable, Knows, Confirmed, EncodedSize;
    }
  }

  lemma IndexKnows(s: Sys, r: Reply)
    requires Inv(s) && (s.pc.UpIndex? || s.pc.MvIndex? || s.pc.ChIndex?)
    ensures var t := Answer(s, r);
      && t == s.(pc := t.pc, remoteIndex := t.remoteIndex) && Knows(t)
      && (t.remoteIndex == s.remoteIndex || t.remoteIndex == s.cached.value)
      && Confirmed(t) == (if t.pc.ArcJson? then s.cached.value else Confirmed(s)) && Confirmed(s) == LoseLast(s.cached).value
      && (t.pc.ArcJson? ==> s.pc.stem in s.remoteIndex) && Pending(s, s.pc.stem)
  {
    hide Loadable;
  }

  lemma IndexKeepsInv(s: Sys, r: Reply)
    requires Inv(s) && (s.pc.UpIndex? || s.pc.MvIndex? || s.pc.ChIndex?)
    ensures Inv(Answer(s, r))
  {
    IndexKnows(s, r);
    InitLoadable(s.cached.value);
    hide Loadable, Answer, Confirmed, Knows;
  }

  lemma ArchiveKeepsInv(s: Sys, r: Reply)
    requires Inv(s) && (s.pc.ArcJson? || s.pc.ArcReady?)
    ensures Inv(Answer(s, r))
  {
    hide Loadable;
    var t := Answer(s, r);
    assert Confirmed(t) == Confirmed(s) == s.cached.value;
    hide Confirmed;
  }

  lemma RemoteWriteKeepsInv(s: Sys, r: Reply)
    requires Inv(s) && (s.pc.MvJson? || s.pc.MvReady?)
    ensures Inv(Answer(s, r))
  {}

  lemma AnswerKeepsInv(s: Sys, r: Reply)
    requires Inv(s)
    ensures Inv(Answer(s, r))
  {
    if s.pc.UpIndex? || s.pc.MvIndex? || s.pc.ChIndex? {
      IndexKeepsInv(s, r);
    } else if s.pc.ArcJson? || s.pc.ArcReady? {
      ArchiveKeepsInv(s, r);
    } else if s.pc.MvJson? || s.pc.MvReady? {
      RemoteWriteKeepsInv(s, r);
    } else {
      QuietAnswer(s, r);
    }
  }

  lemma LoadKeepsInv(s: Sys, r: Reply)
    requires Inv(s) && s.pc.Loading?
    ensures Inv(Answer(s, r))
  {
    hide Loadable, PassStems;
  }

  /** Calls that only look, upload a temporary file or change a mode leave all files as they were. */
  lemma QuietAnswer(s: Sys, r: Reply)
    requires Inv(s)
    requires !s.pc.UpIndex? && !s.pc.MvIndex? && !s.pc.ChIndex? && !s.pc.ArcJson? && !s.pc.ArcReady? && !s.pc.MvJson? && !s.pc.MvReady?
    ensures Inv(Answer(s, r))
  {
    if s.pc.Loading? {
      LoadKeepsInv(s, r);
    } else {
      var t := Answer(s, r);
      assert t == s.(pc := t.pc);
      assert Confirmed(t) == Confirmed(s);
      assert Knows(t) by { hide Loadable, Confirmed; }
      hide Answer, Loadable, Knows, Confirmed;
    }
  }

  lemma StepKeepsInv(s: Sys, a: Action)
    requires Inv(s)
    ensures Inv(Step(s, a))
  {
    match a
    case Call(reply) => AnswerKeepsInv(s, reply);
    case Tau => DecideKeepsInv(s);
    case PublishJson(stem, token) => ArrivalKeepsInv(s, stem, token);
    case _ => OtherStepKeepsInv(s, a);
  }

  /** A new command in the local queue touches nothing the relay relies on. */
  lemma ArrivalKeepsInv(s: Sys, stem: string, token: nat)
    requires Inv(s)
    ensures Inv(Step(s, PublishJson(stem, token)))
  {
    hide Loadable;
    var t := Step(s, PublishJson(stem, token));
    assert Confirmed(t) == Confirmed(s);
  }

  lemma OtherStepKeepsInv(s: Sys, a: Action)
    requires Inv(s) && (a.Begin? || a.PublishReady? || a.Restart?)
    ensures Inv(Step(s, a))
  {
    hide Loadable, PassStems;
    var t := Step(s, a);
    assert t == s.(pc := t.pc, cached := t.cached, localReady := t.localReady);
  }

  /** In every run: any mix of failed calls, calls that took effect but reported failure, new
      commands and restarts, in any order. */
  lemma {:induction false} RunKeepsInv(s: Sys, acts: seq<Action>)
    requires Inv(s)
    ensures Inv(Run(s, acts))
    decreases |acts|
  {
    if acts != [] {
      hide Inv, Step;
      StepKeepsInv(s, acts[0]);
      RunKeepsInv(Step(s, acts[0]), acts[1..]);
    }
  }

  // ---- what the invariant means

  /** A fresh deployment: nothing remote but an empty index. */
  lemma FreshStart(json: map<string, nat>, ready: set<string>, published: set<(string, nat)>)
    requires forall x :: x in json ==> (x, json[x]) in published
    ensures Inv(Sys(json, ready, map[], {}, [], None, Idle, published, {}))
  {}

  lemma StepLeaves(t: Sys, a: Action, stem: string)
    requires Inv(t) && stem in t.localJson && stem !in Step(t, a).localJson
    ensures Complete(t, stem) && stem in t.remoteIndex
  {
    hide Loadable, Confirmed, Decide;
    assert a.Call? ==> t.pc.ArcJson?;
    assert a.Tau? ==> Decide(t).localJson == t.localJson by { DecideLeavesQueue(t); }
  }

  lemma DecideLeavesQueue(t: Sys)
    ensures Decide(t).localJson == t.localJson
  {
    hide EncodedSize;
  }

  /** No command leaves the local queue before its JSON, its marker and its index entry are remote. */
  lemma LeavesOnlyDelivered(s: Sys, acts: seq<Action>, a: Action, stem: string)
    requires Inv(s)
    requires stem in Run(s, acts).localJson && stem !in Step(Run(s, acts), a).localJson
    ensures var t := Run(s, acts);
      stem in t.remoteJson && stem in t.remoteReady && stem in t.remoteIndex
  {
    hide Inv, Step;
    RunKeepsInv(s, acts);
    StepLeaves(Run(s, acts), a, stem);
  }

  /** If no stem is ever published twice, what is remote under an archived stem is that very command. */
  lemma DeliveredContent(s: Sys, acts: seq<Action>, stem: string, token: nat)
    requires Inv(s) && (stem, token) in Run(s, acts).archived
    requires forall p, q :: p in Run(s, acts).published && q in Run(s, acts).published && p.0 == q.0 ==> p == q
    ensures stem in Run(s, acts).remoteJson && Run(s, acts).remoteJson[stem] == token
  {
    RunKeepsInv(s, acts);
    var t := Run(s, acts);
    assert (stem, token).0 in t.remoteIndex;
  }

  lemma Archives(s: Sys, stem: string, rest: seq<string>)
    requires stem in s.localJson
    ensures var t := Answer(s.(pc := ArcJson(stem, rest)), Done);
      t == s.(localJson := s.localJson - {stem}, archived := s.archived + {(stem, s.localJson[stem])}, pc := ArcReady(stem, rest))
  {}

  lemma {:induction false} ElementsCount(s: seq<string>)
    ensures |set x | x in s| <= |s|
  {
    if s != [] {
      ElementsCount(s[1..]);
      assert (set x | x in s) == {s[0]} + (set x | x in s[1..]);
    }
  }

  lemma LoadableSize(index: seq<string>)
    requires Loadable(index)
    ensures |index| <= MAX_INDEX
  {}

  /** The index is never pruned, so in its whole life the relay delivers at most 1024 different stems. */
  lemma AtMost1024Stems(s: Sys, acts: seq<Action>)
    requires Inv(s)
    ensures |set p | p in Run(s, acts).archived :: p.0| <= MAX_INDEX
  {
    RunKeepsInv(s, acts);
    var t := Run(s, acts);
    hide Run, Loadable, Confirmed;
    assert forall p :: p in t.archived ==> p.0 in t.remoteIndex;
    assert |t.remoteIndex| <= MAX_INDEX by { LoadableSize(t.remoteIndex); }
    hide Inv;
    var stems := set p | p in t.archived :: p.0;
    var indexed := set x | x in t.remoteIndex;
    ElementsCount(t.remoteIndex);
    assert stems <= indexed;
    assert indexed == stems + (indexed - stems);
  }

  /** The list as it is written: compact JSON, since stems need no escapes. */
  function IndexText(stems: seq<string>): (r: string) {
    "[" + QuotedList(stems) + "]"
  }

  function QuotedList(stems: seq<string>): (r: string) {
    if stems == [] then "" else "\"" + stems[0] + "\"" + (if |stems| > 1 then "," else "") + QuotedList(stems[1..])
  }

  lemma {:induction false} QuotedListSize(stems: seq<string>)
    ensures |QuotedList(stems)| + (if stems == [] then 0 else 1) == QuotedSize(stems)
  {
    if stems != [] {
      QuotedListSize(stems[1..]);
    }
  }

  /** The size that is compared with the limit is that of this text. */
  lemma EncodedSizeIs(stems: seq<string>)
    ensures EncodedSize(stems) == |IndexText(stems)|
  {
    QuotedListSize(stems);
  }

  lemma {:induction false} QuotedSizeBound(c: seq<string>)
    requires forall i :: 0 <= i < |c| ==> |c[i]| <= 128
    ensures QuotedSize(c) <= 131 * |c|
  {
    if c != [] {
      QuotedSizeBound(c[1..]);
    }
  }

  /** The byte limit on the encoded index can never be what stops a command. */
  lemma IndexAlwaysFits(c: seq<string>)
    requires Loadable(c)
    ensures EncodedSize(c) <= MAX_INDEX_BYTES
  {
    forall i | 0 <= i < |c| ensures |c[i]| <= 128 {
      assert ValidId(c[i]);
    }
    QuotedSizeBound(c);
  }

  // ---- progress

  function Rank(pc: Pc): (r: nat) {
    match pc
    case HasJson(_, _) => 16
    case UpJson(_, _) => 15
    case MvJson(_, _, _) => 14
    case ChJson(_, _) => 13
    case HasReady(_, _) => 12
    case UpReady(_, _) => 11
    case MvReady(_, _) => 10
    case ChReady(_, _) => 9
    case EndJson(_, _) => 8
    case EndReady(_, _) => 7
    case Published(_, _) => 6
    case FitIndex(_, _) => 5
    case UpIndex(_, _) => 4
    case MvIndex(_, _) => 3
    case ChIndex(_, _) => 2
    case ArcJson(_, _) => 1
    case _ => 0
  }

  /** What the relay does for one stem when every call works, up to the marker's archiving. */
  function Healthy(s: Sys): (r: Sys)
    decreases Rank(s.pc)
  {
    if Rank(s.pc) == 0 then s
    else if s.pc.Published? || s.pc.FitIndex? then Healthy(Decide(s))
    else Healthy(Answer(s, Done))
  }

  function UploadedJson(s: Sys, stem: string): (r: map<string, nat>) {
    if stem in s.remoteJson || stem !in s.localJson then s.remoteJson else s.remoteJson[stem := s.localJson[stem]]
  }

  lemma JsonCalls(s: Sys, stem: string, rest: seq<string>)
    requires s.pc == HasJson(stem, rest) && stem in s.localJson && stem !in s.remoteJson
    ensures Answer(s, Done) == s.(pc := UpJson(stem, rest))
    ensures Answer(s.(pc := UpJson(stem, rest)), Done) == s.(pc := MvJson(stem, rest, s.localJson[stem]))
    ensures Answer(s.(pc := MvJson(stem, rest, s.localJson[stem])), Done)
            == s.(remoteJson := UploadedJson(s, stem), pc := ChJson(stem, rest))
    ensures Answer(s.(remoteJson := UploadedJson(s, stem), pc := ChJson(stem, rest)), Done)
            == s.(remoteJson := UploadedJson(s, stem), pc := HasReady(stem, rest))
  {}

  lemma JsonThere(s: Sys, stem: string, rest: seq<string>)
    requires s.pc == HasJson(stem, rest) && stem in s.localJson && stem in s.remoteJson
    ensures Healthy(s) == Healthy(s.(remoteJson := UploadedJson(s, stem), pc := HasReady(stem, rest)))
  {
    assert Answer(s, Done) == s.(pc := HasReady(stem, rest));
  }

  predicate Calls(pc: Pc) {
    Rank(pc) > 0 && !pc.Published? && !pc.FitIndex?
  }

  lemma FourCalls(s0: Sys, s1: Sys, s2: Sys, s3: Sys, s4: Sys)
    requires Calls(s0.pc) && Calls(s1.pc) && Calls(s2.pc) && Calls(s3.pc)
    requires Answer(s0, Done) == s1 && Answer(s1, Done) == s2 && Answer(s2, Done) == s3 && Answer(s3, Done) == s4
    ensures Healthy(s0) == Healthy(s4)
  {
    hide Answer, Healthy;
    HealthyCall(s0);
    HealthyCall(s1);
    HealthyCall(s2);
    HealthyCall(s3);
  }

  lemma JsonGoesUp(s: Sys, stem: string, rest: seq<string>)
    requires s.pc == HasJson(stem, rest) && stem in s.localJson
    ensures Healthy(s) == Healthy(s.(remoteJson := UploadedJson(s, stem), pc := HasReady(stem, rest)))
  {
    if stem in s.remoteJson {
      JsonThere(s, stem, rest);
    } else {
      hide Answer, UploadedJson, Healthy;
      JsonCalls(s, stem, rest);
      FourCalls(s, s.(pc := UpJson(stem, rest)), s.(pc := MvJson(stem, rest, s.localJson[stem])),
        s.(remoteJson := UploadedJson(s, stem), pc := ChJson(stem, rest)),
        s.(remoteJson := UploadedJson(s, stem), pc := HasReady(stem, rest)));
    }
  }

  lemma MarkerCalls(s: Sys, stem: string, rest: seq<string>)
    requires s.pc == HasReady(stem, rest) && stem !in s.remoteReady
    ensures Answer(s, Done) == s.(pc := UpReady(stem, rest))
    ensures Answer(s.(pc := UpReady(stem, rest)), Done) == s.(pc := MvReady(stem, rest))
    ensures Answer(s.(pc := MvReady(stem, rest)), Done) == s.(remoteReady := s.remoteReady + {stem}, pc := ChReady(stem, rest))
    ensures Answer(s.(remoteReady := s.remoteReady + {stem}, pc := ChReady(stem, rest)), Done)
            == s.(remoteReady := s.remoteReady + {stem}, pc := EndJson(stem, rest))
  {}

  lemma MarkerThere(s: Sys, stem: string, rest: seq<string>)
    requires s.pc == HasReady(stem, rest) && stem in s.remoteReady
    ensures Answer(s, Done) == s.(pc := EndJson(stem, rest))
  {}

  lemma HealthyCall(s: Sys)
    requires Rank(s.pc) > 0 && !s.pc.Published? && !s.pc.FitIndex?
    ensures Healthy(s) == Healthy(Answer(s, Done))
  {
    hide Answer;
  }

  lemma MarkerGoesUp(s: Sys, stem: string, rest: seq<string>)
    requires s.pc == HasReady(stem, rest) && stem in s.remoteJson
    ensures Healthy(s) == Healthy(s.(remoteReady := s.remoteReady + {stem}, pc := EndJson(stem, rest)))
  {
    hide Answer, Healthy;
    if stem in s.remoteReady {
      assert s.remoteReady + {stem} == s.remoteReady;
      MarkerThere(s, stem, rest);
      HealthyCall(s);
    } else {
      MarkerCalls(s, stem, rest);
      FourCalls(s, s.(pc := UpReady(stem, rest)), s.(pc := MvReady(stem, rest)),
        s.(remoteReady := s.remoteReady + {stem}, pc := ChReady(stem, rest)),
        s.(remoteReady := s.remoteReady + {stem}, pc := EndJson(stem, rest)));
    }
  }

  lemma BothConfirmed(t: Sys, stem: string, rest: seq<string>)
    requires t.pc == EndJson(stem, rest) && Complete(t, stem)
    ensures Healthy(t) == Healthy(t.(pc := Published(stem, rest)))
  {
    var t1, t2 := t.(pc := EndReady(stem, rest)), t.(pc := Published(stem, rest));
    assert Answer(t, Done) == t1 && Answer(t1, Done) == t2;
    hide Answer;
    assert Healthy(t) == Healthy(t1) == Healthy(t2);
  }

  lemma IndexCalls(s: Sys, stem: string, rest: seq<string>, c: seq<string>)
    requires s.pc == Published(stem, rest) && s.cached.Some? && stem !in s.cached.value
    requires |s.cached.value| < MAX_INDEX && c == s.cached.value + [stem] && EncodedSize(c) <= MAX_INDEX_BYTES
    ensures Decide(s) == s.(cached := Some(c), pc := FitIndex(stem, rest))
    ensures Decide(s.(cached := Some(c), pc := FitIndex(stem, rest))) == s.(cached := Some(c), pc := UpIndex(stem, rest))
    ensures Answer(s.(cached := Some(c), pc := UpIndex(stem, rest)), Done) == s.(cached := Some(c), pc := MvIndex(stem, rest))
    ensures Answer(s.(cached := Some(c), pc := MvIndex(stem, rest)), Done)
            == s.(cached := Some(c), remoteIndex := c, pc := ChIndex(stem, rest))
    ensures Answer(s.(cached := Some(c), remoteIndex := c, pc := ChIndex(stem, rest)), Done)
            == s.(cached := Some(c), remoteIndex := c, pc := ArcJson(stem, rest))
  {
    hide EncodedSize;
  }

  lemma IndexGoesUp(s: Sys, stem: string, rest: seq<string>)
    requires s.pc == Published(stem, rest) && s.cached.Some? && Loadable(s.cached.value) && ValidId(stem)
    requires forall x :: x in s.cached.value ==> x in s.remoteIndex
    requires stem in s.cached.value || |s.cached.value| < MAX_INDEX
    ensures var c := if stem in s.cached.value then s.cached.value else s.cached.value + [stem];
      var index := if stem in s.cached.value then s.remoteIndex else c;
      Healthy(s) == Healthy(s.(cached := Some(c), remoteIndex := index, pc := ArcJson(stem, rest)))
      && stem in index
  {
    if stem in s.cached.value {
      assert Decide(s) == s.(pc := ArcJson(stem, rest));
    } else {
      var c := s.cached.value + [stem];
      AppendLoadable(s.cached.value, stem);
      IndexAlwaysFits(c);
      IndexCalls(s, stem, rest, c);
      hide Answer, Decide, EncodedSize, Loadable;
      var s0 := s.(cached := Some(c), pc := FitIndex(stem, rest));
      var s1 := s.(cached := Some(c), pc := UpIndex(stem, rest));
      var s2 := s1.(pc := MvIndex(stem, rest));
      var s3 := s1.(remoteIndex := c, pc := ChIndex(stem, rest));
      assert Healthy(s) == Healthy(s0) == Healthy(s1) == Healthy(s2) == Healthy(s3);
    }
  }

  lemma CachedFacts(s: Sys)
    requires Inv(s) && s.pc.HasJson? && s.cached.Some?
    ensures Loadable(s.cached.value) && ValidId(s.pc.stem)
    ensures forall x :: x in s.cached.value ==> x in s.remoteIndex
  {
    assert Confirmed(s) == s.cached.value;
  }

  /** The state in which everything about the stem is remote and archiving starts. */
  function AllRemote(s: Sys, stem: string, rest: seq<string>): (r: Sys)
    requires s.cached.Some?
  {
    var c := if stem in s.cached.value then s.cached.value else s.cached.value + [stem];
    s.(remoteJson := UploadedJson(s, stem), remoteReady := s.remoteReady + {stem}, cached := Some(c),
       remoteIndex := if stem in s.cached.value then s.remoteIndex else c, pc := ArcJson(stem, rest))
  }

  lemma ReachesArchiving(s: Sys, stem: string, rest: seq<string>)
    requires Inv(s) && s.pc == HasJson(stem, rest) && stem in s.localJson && s.cached.Some?
    requires stem in s.cached.value || |s.cached.value| < MAX_INDEX
    ensures Healthy(s) == Healthy(AllRemote(s, stem, rest)) && stem in AllRemote(s, stem, rest).remoteIndex
  {
    CachedFacts(s);
    hide Inv, Loadable, Healthy;
    JsonGoesUp(s, stem, rest);
    var s1 := s.(remoteJson := UploadedJson(s, stem), pc := HasReady(stem, rest));
    MarkerGoesUp(s1, stem, rest);
    BothConfirmed(s1.(remoteReady := s.remoteReady + {stem}, pc := EndJson(stem, rest)), stem, rest);
    IndexGoesUp(s1.(remoteReady := s.remoteReady + {stem}, pc := Published(stem, rest)), stem, rest);
  }

  lemma HealthyArchive(s: Sys, stem: string, rest: seq<string>)
    requires s.pc == ArcJson(stem, rest) && stem in s.localJson
    ensures Healthy(s) == s.(localJson := s.localJson - {stem}, archived := s.archived + {(stem, s.localJson[stem])}, pc := ArcReady(stem, rest))
  {
    Archives(s, stem, rest);
    assert s == s.(pc := ArcJson(stem, rest));
    var t := Answer(s, Done);
    hide Answer;
    assert Healthy(s) == Healthy(t) == t;
  }

  /** When every call works and the index has room, one pass over a stem makes its JSON, marker and
      index entry remote and archives exactly that command. */
  lemma HealthyDelivers(s: Sys, stem: string, rest: seq<string>)
    requires Inv(s) && s.pc == HasJson(stem, rest) && stem in s.localJson && s.cached.Some?
    requires stem in s.cached.value || |s.cached.value| < MAX_INDEX
    ensures var t := Healthy(s);
      && t.pc == ArcReady(stem, rest)
      && t.localJson == s.localJson - {stem}
      && t.archived == s.archived + {(stem, s.localJson[stem])}
      && t.remoteJson == UploadedJson(s, stem)
      && t.remoteReady == s.remoteReady + {stem}
      && stem in t.remoteIndex
      && t.localReady == s.localReady
      && t.cached == Some(if stem in s.cached.value then s.cached.value else s.cached.value + [stem])
  {
    ReachesArchiving(s, stem, rest);
    HealthyArchive(AllRemote(s, stem, rest), stem, rest);
    hide Inv, Healthy;
  }

  /** Where the index is full and does not have the stem, its JSON and marker become remote and the command stays. */
  lemma HealthyStops(s: Sys, stem: string, rest: seq<string>)
    requires Inv(s) && s.pc == HasJson(stem, rest) && stem in s.localJson && s.cached.Some?
    requires stem !in s.cached.value && |s.cached.value| >= MAX_INDEX
    ensures Healthy(s) == s.(remoteJson := UploadedJson(s, stem), remoteReady := s.remoteReady + {stem}, pc := Next(rest))
  {
    JsonGoesUp(s, stem, rest);
    var s1 := s.(remoteJson := UploadedJson(s, stem), pc := HasReady(stem, rest));
    assert stem in UploadedJson(s, stem);
    hide Inv, Healthy, UploadedJson, Answer;
    MarkerGoesUp(s1, stem, rest);
    var s2 := s1.(remoteReady := s.remoteReady + {stem}, pc := EndJson(stem, rest));
    BothConfirmed(s2, stem, rest);
    IndexFull(s2.(pc := Published(stem, rest)), stem, rest);
  }

  lemma IndexFull(s: Sys, stem: string, rest: seq<string>)
    requires s.pc == Published(stem, rest) && s.cached.Some? && stem !in s.cached.value && |s.cached.value| >= MAX_INDEX
    ensures Healthy(s) == s.(pc := Next(rest))
  {
    assert Decide(s) == s.(pc := Next(rest));
    hide Answer, Decide;
  }
}
