/** Files of the bridge root, with every operation interruptible between any two
    file effects (goblin_zomboid/ipc.py, BridgeStore). */
module BridgeStore {
  import opened Common
  import opened Protocol

  datatype Channel = State | Events | Commands | Responses | Acks | Runtime | Archive | DeadLetter

  datatype Extension = Json | Ready

  /** A file `<channel>/<stem>.json` or `<channel>/<stem>.ready`; a name determines its stem and extension. */
  datatype Path = Path(channel: Channel, stem: string, ext: Extension)

  /** What a file holds. Every published message carries its own token. */
  datatype Data = Published(token: nat) | Marker | Reason | Stems(stems: seq<string>)

  type Files = map<Path, Data>

  /** `commands/.ready-index.json` and `<channel>/<stem>.reason.json`. */
  const INDEX := Path(Commands, ".ready-index", Json)
  function ReasonOf(ch: Channel, stem: string): Path { Path(ch, stem + ".reason", Json) }

  /** One atomic change of the file system. */
  datatype Effect =
    | WriteJson(ch: Channel, stem: string, token: nat)
    | WriteReady(ch: Channel, stem: string)
    | Rename(from: Path, to: Path)
    | WriteReason(ch: Channel, stem: string)
    | Reindex

  /** Stems of commands with both files, as `_refresh_ready_index` selects them. */
  function CommandStems(fs: Files): (r: set<string>)
    ensures forall s :: s in r <==> ValidId(s) && Path(Commands, s, Ready) in fs && Path(Commands, s, Json) in fs
  {
    set p | p in fs && p.channel == Commands && p.ext == Ready && ValidId(p.stem) && Path(Commands, p.stem, Json) in fs
          :: p.stem
  }

  function Apply(fs: Files, e: Effect): (r: Files) {
    match e
    case WriteJson(ch, stem, token) => fs[Path(ch, stem, Json) := Published(token)]
    case WriteReady(ch, stem) => fs[Path(ch, stem, Ready) := Marker]
    case Rename(from, to) => if from in fs then (fs - {from})[to := fs[from]] else fs
    case WriteReason(ch, stem) => fs[ReasonOf(ch, stem) := Reason]
    case Reindex => fs[INDEX := Stems(Listing(CommandStems(fs), ".ready"))]
  }

  /** The first `upto` effects of a plan: the rest never happens (a crash or an I/O error). */
  function Exec(fs: Files, plan: seq<Effect>, upto: nat): (r: Files)
    decreases |plan|
  {
    if plan == [] || upto == 0 then fs else Exec(Apply(fs, plan[0]), plan[1..], upto - 1)
  }

  /** publish: refused (no effect) for an unsafe stem or an existing file. */
  function PublishPlan(fs: Files, ch: Channel, stem: string, token: nat, ready: bool): (r: seq<Effect>) {
    if !ValidId(stem) || Path(ch, stem, Json) in fs || Path(ch, stem, Ready) in fs then []
    else if !ready then [WriteJson(ch, stem, token)]
    else if ch != Commands then [WriteJson(ch, stem, token), WriteReady(ch, stem)]
    else [WriteJson(ch, stem, token), WriteReady(ch, stem), Reindex]
  }

  function Target(fs: Files, stem: string, dst: Channel, suffix: string): (r: string) {
    if Path(dst, stem, Json) in fs || Path(dst, stem, Ready) in fs then stem + "-" + suffix else stem
  }

  /** _move of a listed item; a missing file raises and ends the operation there. */
  function MovePlan(fs: Files, ch: Channel, stem: string, dst: Channel, suffix: string): (r: seq<Effect>) {
    var t := Target(fs, stem, dst, suffix);
    var json, ready := Path(ch, stem, Json), Path(ch, stem, Ready);
    if json !in fs then []
    else if ready !in fs then [Rename(json, Path(dst, t, Json))]
    else if ch != Commands then
      [Rename(json, Path(dst, t, Json)), Rename(ready, Path(dst, t, Ready)), WriteReason(dst, t)]
    else
      [Rename(json, Path(dst, t, Json)), Rename(ready, Path(dst, t, Ready)), WriteReason(dst, t), Reindex]
  }

  datatype Op =
    | Publish(ch: Channel, stem: string, token: nat, ready: bool)
    | Move(ch: Channel, stem: string, dst: Channel, suffix: string)
    | Reopen

  function Plan(fs: Files, op: Op): (r: seq<Effect>) {
    match op
    case Publish(ch, stem, token, ready) => PublishPlan(fs, ch, stem, token, ready)
    case Move(ch, stem, dst, suffix) => MovePlan(fs, ch, stem, dst, suffix)
    case Reopen => [Reindex]
  }

  predicate EndsLikeReason(s: string) {
    |s| >= 7 && s[|s| - 7..] == ".reason"
  }

  /** Stems this store gives its items: they start alphanumerically and do not end like a reason file's. */
  predicate PlainStem(s: string) {
    |s| > 0 && AsciiAlnum(s[0]) && !EndsLikeReason(s)
  }

  /** Twelve hexadecimal digits no file of this destination uses yet. */
  predicate FreshSuffix(fs: Files, stem: string, dst: Channel, suffix: string) {
    && |suffix| == 12 && (forall i :: 0 <= i < 12 ==> suffix[i] in "0123456789abcdef")
    && Path(dst, stem + "-" + suffix, Json) !in fs && Path(dst, stem + "-" + suffix, Ready) !in fs
  }

  /** What callers do: valid items leave live channels for the two lifecycle destinations, tokens are new. */
  predicate Allowed(used: set<nat>, fs: Files, op: Op) {
    match op
    case Publish(ch, stem, token, ready) => token !in used
    case Move(ch, stem, dst, suffix) =>
      (dst == Archive || dst == DeadLetter) && ch != dst && ValidId(stem) && FreshSuffix(fs, stem, dst, suffix)
    case Reopen => true
  }

  /** The domain condition: no item's stem ends in ".reason". */
  predicate NoReasonStem(op: Op) {
    op.Reopen? || !EndsLikeReason(op.stem)
  }

  // ---- conservation

  /** A plain stem's JSON is a message, messages and markers have plain stems, and no message is in two files. */
  ghost predicate Tidy(fs: Files) {
    && (forall p :: p in fs && p.ext == Ready ==> PlainStem(p.stem) && fs[p] == Marker)
    && (forall p :: p in fs && p.ext == Json ==> (fs[p].Published? <==> PlainStem(p.stem)))
    && (forall p, q :: OnePlace(fs, p, q))
  }

  ghost predicate OnePlace(fs: Files, p: Path, q: Path) {
    p in fs && q in fs && fs[p].Published? && fs[p] == fs[q] ==> p == q
  }

  ghost function Tokens(fs: Files): set<nat> {
    set p | p in fs && fs[p].Published? :: fs[p].token
  }

  /** The effect's own precondition, which the checks of the operation establish. */
  ghost predicate Safe(fs: Files, e: Effect) {
    match e
    case WriteJson(ch, stem, token) => PlainStem(stem) && Path(ch, stem, Json) !in fs && token !in Tokens(fs)
    case WriteReady(ch, stem) => PlainStem(stem)
    case Rename(from, to) => from.ext == to.ext && PlainStem(from.stem) && PlainStem(to.stem) && from in fs && to !in fs
    case WriteReason(ch, stem) => true
    case Reindex => true
  }

  lemma ReasonIsNotPlain(s: string)
    ensures !PlainStem(s + ".reason") && !PlainStem(".ready-index")
  {
    assert (s + ".reason")[|s + ".reason"| - 7..] == ".reason";
  }

  lemma RenameConserves(fs: Files, from: Path, to: Path)
    requires Tidy(fs) && Safe(fs, Rename(from, to))
    ensures Tidy(Apply(fs, Rename(from, to))) && Tokens(Apply(fs, Rename(from, to))) == Tokens(fs)
  {
    var r := Apply(fs, Rename(from, to));
    forall p, q ensures OnePlace(r, p, q) {
      assert OnePlace(fs, if p == to then from else p, if q == to then from else q);
    }
    forall t ensures t in Tokens(r) <==> t in Tokens(fs) {
      if t in Tokens(fs) {
        var p :| p in fs && fs[p].Published? && fs[p].token == t;
        var q := if p == from then to else p;
        assert r[q] == Published(t);
      }
      if t in Tokens(r) {
        var p :| p in r && r[p].Published? && r[p].token == t;
        var q := if p == to then from else p;
        assert fs[q] == Published(t);
      }
    }
  }

  lemma WriteConserves(fs: Files, ch: Channel, stem: string, token: nat)
    requires Tidy(fs) && Safe(fs, WriteJson(ch, stem, token))
    ensures Tidy(Apply(fs, WriteJson(ch, stem, token)))
    ensures Tokens(Apply(fs, WriteJson(ch, stem, token))) == Tokens(fs) + {token}
  {
    var r := Apply(fs, WriteJson(ch, stem, token));
    var at := Path(ch, stem, Json);
    assert forall p :: p in fs ==> p in r && r[p] == fs[p];
    forall p, q ensures OnePlace(r, p, q) {
      assert OnePlace(fs, p, q);
    }
    forall t ensures t in Tokens(r) <==> t in Tokens(fs) || t == token {
      if t == token { assert r[at] == Published(t); }
      if t in Tokens(fs) {
        var p :| p in fs && fs[p].Published? && fs[p].token == t;
        assert r[p] == Published(t);
      }
    }
  }

  /** Writing a file that is no message over a file that is none leaves the messages alone. */
  lemma OtherConserves(fs: Files, at: Path, data: Data)
    requires Tidy(fs) && !data.Published?
    requires at.ext == Ready ==> PlainStem(at.stem) && data == Marker
    requires at.ext == Json ==> !PlainStem(at.stem)
    ensures Tidy(fs[at := data]) && Tokens(fs[at := data]) == Tokens(fs)
  {
    var r := fs[at := data];
    forall p, q ensures OnePlace(r, p, q) {
      assert OnePlace(fs, p, q);
    }
    assert forall p :: p in fs && fs[p].Published? ==> p in r && r[p] == fs[p];
    assert forall p :: p in r && r[p].Published? ==> p in fs && r[p] == fs[p];
  }

  /** No safe effect loses, duplicates or overwrites a message. */
  lemma EffectConserves(fs: Files, e: Effect)
    requires Tidy(fs) && Safe(fs, e)
    ensures Tidy(Apply(fs, e))
    ensures Tokens(Apply(fs, e)) == Tokens(fs) + (if e.WriteJson? then {e.token} else {})
  {
    match e
    case Rename(from, to) => RenameConserves(fs, from, to);
    case WriteJson(ch, stem, token) => WriteConserves(fs, ch, stem, token);
    case WriteReason(ch, stem) =>
      ReasonIsNotPlain(stem);
      OtherConserves(fs, ReasonOf(ch, stem), Reason);
    case WriteReady(ch, stem) => OtherConserves(fs, Path(ch, stem, Ready), Marker);
    case Reindex =>
      ReasonIsNotPlain("");
      OtherConserves(fs, INDEX, Stems(Listing(CommandStems(fs), ".ready")));
  }

  lemma SuffixedIsPlain(stem: string, suffix: string)
    requires ValidId(stem) && |suffix| == 12 && forall i :: 0 <= i < 12 ==> suffix[i] in "0123456789abcdef"
    ensures PlainStem(stem + "-" + suffix)
  {
    var s := stem + "-" + suffix;
    assert s[|s| - 1] == suffix[11] && s[|s| - 7..][6] == s[|s| - 1];
    assert ".reason"[6] == 'n';
  }

  ghost predicate AllSafe(fs: Files, plan: seq<Effect>)
    decreases |plan|
  {
    plan != [] ==> Safe(fs, plan[0]) && AllSafe(Apply(fs, plan[0]), plan[1..])
  }

  /** The tokens whose JSON the first `upto` effects write. */
  function WrittenBy(plan: seq<Effect>, upto: nat): (r: set<nat>)
    decreases |plan|
  {
    if plan == [] || upto == 0 then {}
    else (if plan[0].WriteJson? then {plan[0].token} else {}) + WrittenBy(plan[1..], upto - 1)
  }

  lemma {:induction false} ExecConserves(fs: Files, plan: seq<Effect>, upto: nat)
    requires Tidy(fs) && AllSafe(fs, plan)
    ensures Tidy(Exec(fs, plan, upto))
    ensures Tokens(Exec(fs, plan, upto)) == Tokens(fs) + WrittenBy(plan, upto)
    decreases |plan|
  {
    hide Tidy, Safe, Apply, Tokens;
    if plan != [] && upto > 0 {
      EffectConserves(fs, plan[0]);
      ExecConserves(Apply(fs, plan[0]), plan[1..], upto - 1);
    }
  }

  lemma SafeCons(fs: Files, e: Effect, rest: seq<Effect>)
    requires Safe(fs, e) && AllSafe(Apply(fs, e), rest)
    ensures AllSafe(fs, [e] + rest)
  {
    assert ([e] + rest)[1..] == rest;
  }

  lemma SafeTail(fs: Files, dst: Channel, t: string, commands: bool)
    ensures AllSafe(fs, if commands then [WriteReason(dst, t), Reindex] else [WriteReason(dst, t)])
  {
    SafeCons(Apply(fs, WriteReason(dst, t)), Reindex, []);
    SafeCons(fs, WriteReason(dst, t), if commands then [Reindex] else []);
  }

  lemma SafeMoves(fs: Files, json: Path, ready: Path, toJson: Path, toReady: Path)
    requires json.ext == toJson.ext == Json && ready.ext == toReady.ext == Ready
    requires json in fs && ready in fs && toJson !in fs && toReady !in fs
    requires PlainStem(json.stem) && json.stem == ready.stem && PlainStem(toJson.stem) && toJson.stem == toReady.stem
    ensures Safe(fs, Rename(json, toJson)) && Safe(Apply(fs, Rename(json, toJson)), Rename(ready, toReady))
  {}

  lemma MoveIsSafe(fs: Files, op: Op)
    requires op.Move? && Allowed({}, fs, op) && NoReasonStem(op)
    ensures AllSafe(fs, Plan(fs, op))
  {
    var plan := Plan(fs, op);
    var t := Target(fs, op.stem, op.dst, op.suffix);
    SuffixedIsPlain(op.stem, op.suffix);
    if |plan| == 1 {
      SafeCons(fs, plan[0], []);
    } else if plan != [] {
      SafeMoves(fs, Path(op.ch, op.stem, Json), Path(op.ch, op.stem, Ready), Path(op.dst, t, Json), Path(op.dst, t, Ready));
      var fs1 := Apply(fs, plan[0]);
      SafeTail(Apply(fs1, plan[1]), op.dst, t, op.ch == Commands);
      hide Safe, Apply, AllSafe;
      SafeCons(fs1, plan[1], plan[2..]);
      assert plan[1..] == [plan[1]] + plan[2..];
      SafeCons(fs, plan[0], plan[1..]);
      assert plan == [plan[0]] + plan[1..];
    }
  }

  lemma PublishIsSafe(fs: Files, op: Op)
    requires op.Publish? && op.token !in Tokens(fs) && NoReasonStem(op)
    ensures AllSafe(fs, Plan(fs, op))
  {
    var plan := Plan(fs, op);
    if plan == [] {
      NothingIsSafe(fs);
    } else {
      var ready := WriteReady(op.ch, op.stem);
      assert Safe(fs, plan[0]) && Safe(Apply(fs, plan[0]), ready);
      hide Safe, Apply, AllSafe, Tokens, ValidId;
      var fs1 := Apply(fs, plan[0]);
      var tail: seq<Effect> := if op.ch == Commands then [Reindex] else [];
      SafeReindex(Apply(fs1, ready), tail);
      SafeCons(fs1, ready, tail);
      NothingIsSafe(fs1);
      var rest := if !op.ready then [] else [ready] + tail;
      SafeCons(fs, plan[0], rest);
      assert plan == [plan[0]] + rest;
    }
  }

  lemma NothingIsSafe(fs: Files)
    ensures AllSafe(fs, [])
  {}

  lemma SafeReindex(fs: Files, tail: seq<Effect>)
    requires tail == [] || tail == [Reindex]
    ensures AllSafe(fs, tail)
  {
    SafeCons(fs, Reindex, []);
  }

  lemma OpIsSafe(fs: Files, used: set<nat>, op: Op)
    requires Tidy(fs) && Allowed(used, fs, op) && NoReasonStem(op) && Tokens(fs) <= used
    ensures AllSafe(fs, Plan(fs, op))
  {
    match op
    case Move(_, _, _, _) =>
      assert Allowed({}, fs, op);
      MoveIsSafe(fs, op);
    case Publish(_, _, _, _) =>
      PublishIsSafe(fs, op);
    case Reopen =>
      SafeReindex(fs, [Reindex]);
  }

  /** The file system with the tokens handed to publish so far and those whose JSON was written. */
  datatype History = History(files: Files, used: set<nat>, written: set<nat>)

  function Do(h: History, op: Op, upto: nat): (r: History) {
    var plan := Plan(h.files, op);
    History(Exec(h.files, plan, upto),
            if op.Publish? then h.used + {op.token} else h.used,
            h.written + WrittenBy(plan, upto))
  }

  /** A run: operations, each cut off after some number of effects. */
  function Play(h: History, ops: seq<(Op, nat)>): (r: History)
    decreases |ops|
  {
    if ops == [] then h else Play(Do(h, ops[0].0, ops[0].1), ops[1..])
  }

  ghost predicate Legal(h: History, ops: seq<(Op, nat)>)
    decreases |ops|
  {
    ops != [] ==> Allowed(h.used, h.files, ops[0].0) && NoReasonStem(ops[0].0) && Legal(Do(h, ops[0].0, ops[0].1), ops[1..])
  }

  lemma {:induction false} NothingWritten(plan: seq<Effect>, upto: nat)
    requires forall k :: 0 <= k < |plan| ==> !plan[k].WriteJson?
    ensures WrittenBy(plan, upto) == {}
    decreases |plan|
  {
    if plan != [] && upto > 0 {
      NothingWritten(plan[1..], upto - 1);
    }
  }

  lemma WrittenIsUsed(fs: Files, op: Op, upto: nat)
    ensures WrittenBy(Plan(fs, op), upto) <= if op.Publish? then {op.token} else {}
  {
    var plan := Plan(fs, op);
    if op.Publish? && plan != [] && upto > 0 {
      NothingWritten(plan[1..], upto - 1);
    } else {
      NothingWritten(if op.Publish? then [] else plan, upto);
    }
  }

  /** The message t is in one file, under its JSON name, and in no other. */
  ghost predicate InOnePlace(fs: Files, t: nat) {
    exists p :: p in fs && fs[p] == Published(t) && p.ext == Json && PlainStem(p.stem)
                && forall q :: q in fs && fs[q] == Published(t) ==> q == p
  }

  lemma TidyPlaces(fs: Files, t: nat)
    requires Tidy(fs) && t in Tokens(fs)
    ensures InOnePlace(fs, t)
  {
    var p :| p in fs && fs[p].Published? && fs[p].token == t;
    forall q | q in fs && fs[q] == Published(t) ensures q == p {
      assert OnePlace(fs, q, p);
    }
  }

  lemma DoConserves(h: History, op: Op, upto: nat)
    requires Tidy(h.files) && Tokens(h.files) == h.written && h.written <= h.used
    requires Allowed(h.used, h.files, op) && NoReasonStem(op)
    ensures var r := Do(h, op, upto);
      Tidy(r.files) && Tokens(r.files) == r.written && h.written <= r.written <= r.used
  {
    OpIsSafe(h.files, h.used, op);
    ExecConserves(h.files, Plan(h.files, op), upto);
    WrittenIsUsed(h.files, op, upto);
  }

  /** Conservation: whatever is interrupted wherever, every message whose JSON was ever written
      is in exactly one file, and nothing was overwritten. */
  lemma {:induction false} Conservation(h: History, ops: seq<(Op, nat)>)
    requires Tidy(h.files) && Tokens(h.files) == h.written && h.written <= h.used && Legal(h, ops)
    ensures Tidy(Play(h, ops).files) && h.written <= Play(h, ops).written
    ensures forall t :: t in Play(h, ops).written <==> t in Tokens(Play(h, ops).files)
    ensures forall t :: t in Play(h, ops).written ==> InOnePlace(Play(h, ops).files, t)
    decreases |ops|
  {
    if ops == [] {
      forall t | t in h.written ensures InOnePlace(h.files, t) {
        TidyPlaces(h.files, t);
      }
    } else {
      hide Tidy, Tokens, InOnePlace, Allowed, Do;
      DoConserves(h, ops[0].0, ops[0].1);
      Conservation(Do(h, ops[0].0, ops[0].1), ops[1..]);
    }
  }

  lemma ExecThree(fs: Files, plan: seq<Effect>)
    requires |plan| >= 3
    ensures Exec(fs, plan, 3) == Apply(Apply(Apply(fs, plan[0]), plan[1]), plan[2])
  {
    assert plan[1..][0] == plan[1] && plan[1..][1..][0] == plan[2];
    var fs2 := Apply(Apply(fs, plan[0]), plan[1]);
    assert Exec(fs, plan, 3) == Exec(Apply(fs, plan[0]), plan[1..], 2) == Exec(fs2, plan[1..][1..], 1);
    assert Exec(fs2, plan[1..][1..], 1) == Exec(Apply(fs2, plan[2]), plan[1..][1..][1..], 0);
  }

  // ---- what a reader of the directory sees

  predicate IsReady(fs: Files, ch: Channel, stem: string) {
    ValidId(stem) && Path(ch, stem, Ready) in fs && Path(ch, stem, Json) in fs
  }

  ghost predicate IndexExact(fs: Files) {
    INDEX in fs && fs[INDEX] == Stems(Listing(CommandStems(fs), ".ready"))
  }

  lemma ReindexExact(fs: Files)
    ensures IndexExact(Apply(fs, Reindex))
  {
    var r := Apply(fs, Reindex);
    assert !ValidId(INDEX.stem);
    assert CommandStems(r) == CommandStems(fs);
  }

  /** Completing a command publish, a move of a ready command, or reopening makes the index exact;
      completing anything else keeps it exact. */
  lemma CompletedOpIndex(fs: Files, op: Op)
    requires op.Move? ==> op.dst != Commands && ValidId(op.stem)
    requires Plan(fs, op) != []
    requires op.Move? ==> Path(op.ch, op.stem, Ready) in fs
    ensures var r := Exec(fs, Plan(fs, op), |Plan(fs, op)|);
      IndexExact(fs) || op.Reopen? || (op.ch == Commands && (op.Publish? ==> op.ready)) ==> IndexExact(r)
  {
    var plan := Plan(fs, op);
    var n := |plan|;
    ExecLast(fs, plan);
    if plan[n - 1] == Reindex {
      ReindexExact(Exec(fs, plan[..n - 1], n - 1));
    } else if IndexExact(fs) {
      ElsewhereKeepsIndex(fs, op);
    }
  }

  lemma {:induction false} ExecLast(fs: Files, plan: seq<Effect>)
    requires plan != []
    ensures Exec(fs, plan, |plan|) == Apply(Exec(fs, plan[..|plan| - 1], |plan| - 1), plan[|plan| - 1])
    decreases |plan|
  {
    if |plan| > 1 {
      ExecLast(Apply(fs, plan[0]), plan[1..]);
      assert plan[..|plan| - 1][1..] == plan[1..][..|plan| - 2];
    }
  }

  lemma SameCommands(fs: Files, r: Files)
    requires IndexExact(fs) && INDEX in r && r[INDEX] == fs[INDEX]
    requires forall s :: IsReady(fs, Commands, s) <==> IsReady(r, Commands, s)
    ensures IndexExact(r)
  {
    forall s ensures s in CommandStems(r) <==> s in CommandStems(fs) {
      assert IsReady(fs, Commands, s) <==> IsReady(r, Commands, s);
    }
    assert CommandStems(r) == CommandStems(fs);
  }

  lemma OtherChannel(fs: Files, r: Files)
    requires IndexExact(fs)
    requires forall p: Path :: p.channel == Commands ==> (p in fs <==> p in r) && (p in fs ==> fs[p] == r[p])
    ensures IndexExact(r)
  {
    forall s ensures IsReady(fs, Commands, s) <==> IsReady(r, Commands, s) {}
    SameCommands(fs, r);
  }

  /** A JSON file whose marker is absent does not count. */
  lemma UnmarkedJson(fs: Files, stem: string, token: nat)
    requires IndexExact(fs) && ValidId(stem) && Path(Commands, stem, Ready) !in fs
    ensures IndexExact(Apply(fs, WriteJson(Commands, stem, token)))
  {
    var r := fs[Path(Commands, stem, Json) := Published(token)];
    assert !ValidId(INDEX.stem);
    forall s ensures IsReady(fs, Commands, s) <==> IsReady(r, Commands, s) {}
    SameCommands(fs, r);
  }

  lemma PublishElsewhere(fs: Files, ch: Channel, stem: string, token: nat, ready: bool)
    requires IndexExact(fs) && PublishPlan(fs, ch, stem, token, ready) != []
    requires ch != Commands || !ready
    ensures IndexExact(Exec(fs, PublishPlan(fs, ch, stem, token, ready), if ready then 2 else 1))
  {
    var plan := PublishPlan(fs, ch, stem, token, ready);
    ExecPrefix(fs, plan, if ready then 2 else 1);
    if ch == Commands {
      UnmarkedJson(fs, stem, token);
    } else {
      hide Exec, IndexExact;
      OtherChannel(fs, Apply(fs, plan[0]));
      if ready {
        OtherChannel(Apply(fs, plan[0]), Apply(Apply(fs, plan[0]), plan[1]));
      }
    }
  }

  lemma MoveElsewhere(fs: Files, ch: Channel, stem: string, dst: Channel, suffix: string)
    requires IndexExact(fs) && dst != Commands && ch != Commands
    requires Path(ch, stem, Json) in fs && Path(ch, stem, Ready) in fs
    ensures IndexExact(Exec(fs, MovePlan(fs, ch, stem, dst, suffix), 3))
  {
    var plan := MovePlan(fs, ch, stem, dst, suffix);
    ExecThree(fs, plan);
    hide Exec, IndexExact, Target, Listing, CommandStems;
    var fs1 := Apply(fs, plan[0]);
    var fs2 := Apply(fs1, plan[1]);
    OtherChannel(fs, fs1);
    OtherChannel(fs1, fs2);
    OtherChannel(fs2, Apply(fs2, plan[2]));
  }

  lemma ElsewhereKeepsIndex(fs: Files, op: Op)
    requires IndexExact(fs) && Plan(fs, op) != [] && !op.Reopen?
    requires op.Move? ==> op.dst != Commands && op.ch != Commands
    requires op.Publish? ==> op.ch != Commands || !op.ready
    requires op.Move? ==> Path(op.ch, op.stem, Ready) in fs
    ensures IndexExact(Exec(fs, Plan(fs, op), |Plan(fs, op)|))
  {
    if op.Publish? {
      PublishElsewhere(fs, op.ch, op.stem, op.token, op.ready);
    } else {
      MoveElsewhere(fs, op.ch, op.stem, op.dst, op.suffix);
    }
  }

  /** A move of a command that is cut off anywhere before it writes the index leaves the index naming a stem that is
      no longer ready: the index is exact only once an operation has completed, or on reopening. */
  lemma InterruptedMoveStale(fs: Files, stem: string, dst: Channel, suffix: string, n: nat)
    requires IndexExact(fs) && IsReady(fs, Commands, stem) && (dst == Archive || dst == DeadLetter) && 1 <= n <= 3
    ensures var r := Exec(fs, MovePlan(fs, Commands, stem, dst, suffix), n);
      && !IndexExact(r) && !IsReady(r, Commands, stem)
      && IndexExact(Exec(r, Plan(r, Reopen), 1))
  {
    hide Listing, CommandStems;
    var plan := MovePlan(fs, Commands, stem, dst, suffix);
    var r := Exec(fs, plan, n);
    CutOff(fs, stem, dst, suffix, n);
    LostStem(fs, r, stem);
    ReindexExact(r);
    ExecPrefix(r, [Reindex], 1);
    hide Exec, MovePlan;
  }

  /** None of the first three effects brings the command's JSON back or touches the index. */
  lemma CutOff(fs: Files, stem: string, dst: Channel, suffix: string, n: nat)
    requires INDEX in fs && IsReady(fs, Commands, stem) && (dst == Archive || dst == DeadLetter) && 1 <= n <= 3
    ensures var r := Exec(fs, MovePlan(fs, Commands, stem, dst, suffix), n);
      Path(Commands, stem, Json) !in r && INDEX in r && r[INDEX] == fs[INDEX]
  {
    assert !ValidId(INDEX.stem);
    hide Target, ValidId;
    ExecPrefix(fs, MovePlan(fs, Commands, stem, dst, suffix), n);
    hide Exec;
  }

  lemma LostStem(fs: Files, r: Files, stem: string)
    requires IndexExact(fs) && IsReady(fs, Commands, stem)
    requires Path(Commands, stem, Json) !in r && INDEX in r && r[INDEX] == fs[INDEX]
    ensures !IndexExact(r)
  {
    assert stem in Listing(CommandStems(fs), ".ready");
    assert stem !in Listing(CommandStems(r), ".ready");
  }

  /** The index follows marker file names, which is not the order of the stems themselves. */
  lemma IndexOrderIsByFileName()
    ensures StrLe("a", "a-b") && Listing({"a", "a-b"}, ".ready") == ["a-b", "a"]
  {
    var r := Listing({"a", "a-b"}, ".ready");
    assert |r| == 2 && r[0] in r && r[1] in r;
    var x, y := Codes("a" + ".ready"), Codes("a-b" + ".ready");
    assert x[0] == y[0] && x[1..][0] == '.' as int && y[1..][0] == '-' as int;
    assert !LexLe(x[1..], y[1..]);
    assert !StrLe("a" + ".ready", "a-b" + ".ready");
  }

  // ---- answering a command

  /** A message with its marker. */
  ghost predicate Sent(fs: Files, ch: Channel, stem: string, token: nat) {
    Path(ch, stem, Json) in fs && fs[Path(ch, stem, Json)] == Published(token) && Path(ch, stem, Ready) in fs
  }

  /** CommandConsumer.finalize: the response, the acknowledgement, and then the command leaves the queue; each
      part must have succeeded before the next one starts. */
  function FinalizeExec(fs: Files, stem: string, id: string, response: nat, ack: nat, suffix: string, n: nat): (r: (Files, bool)) {
    var p1 := PublishPlan(fs, Responses, id, response, true);
    var fs1 := Exec(fs, p1, n);
    if p1 == [] || n < |p1| then (fs1, false)
    else
      var p2 := PublishPlan(fs1, Acks, id, ack, true);
      var fs2 := Exec(fs1, p2, n - |p1|);
      if p2 == [] || n - |p1| < |p2| then (fs2, false)
      else
        var p3 := MovePlan(fs2, Commands, stem, Archive, suffix);
        (Exec(fs2, p3, n - |p1| - |p2|), |p3| >= 3 && n - |p1| - |p2| >= |p3|)
  }

  /** Publishing touches its own two files, and the index if it publishes a command. */
  lemma PublishTouches(fs: Files, ch: Channel, stem: string, token: nat, n: nat)
    requires ch != Commands
    ensures var r := Exec(fs, PublishPlan(fs, ch, stem, token, true), n);
      && (forall p :: p in fs ==> p in r && r[p] == fs[p])
      && (n >= 2 && PublishPlan(fs, ch, stem, token, true) != [] ==> Sent(r, ch, stem, token))
  {
    var plan := PublishPlan(fs, ch, stem, token, true);
    if plan != [] {
      ExecPrefix(fs, plan, n);
    }
  }

  ghost predicate TouchesOnlyMoved(fs: Files, r: Files) {
    forall p :: p in fs && p.channel != Commands && p.channel != Archive ==> p in r && r[p] == fs[p]
  }

  lemma EffectTouches(fs: Files, e: Effect)
    requires e.Rename? ==> e.from.channel == Commands && e.to.channel == Archive
    requires e.WriteReason? ==> e.ch == Archive
    requires !e.WriteJson? && !e.WriteReady?
    ensures TouchesOnlyMoved(fs, Apply(fs, e))
  {
    hide Listing, CommandStems;
  }

  /** Archiving touches the command's files, files of the archive, and the index. */
  lemma ArchiveTouches(fs: Files, stem: string, suffix: string, n: nat)
    ensures TouchesOnlyMoved(fs, Exec(fs, MovePlan(fs, Commands, stem, Archive, suffix), n))
  {
    PlanTouches(fs, MovePlan(fs, Commands, stem, Archive, suffix), n);
  }

  lemma {:induction false} PlanTouches(fs: Files, plan: seq<Effect>, n: nat)
    requires forall e :: e in plan && e.Rename? ==> e.from.channel == Commands && e.to.channel == Archive
    requires forall e :: e in plan && e.WriteReason? ==> e.ch == Archive
    requires forall e :: e in plan ==> !e.WriteJson? && !e.WriteReady?
    ensures TouchesOnlyMoved(fs, Exec(fs, plan, n))
    decreases |plan|
  {
    if plan != [] && n > 0 {
      EffectTouches(fs, plan[0]);
      PlanTouches(Apply(fs, plan[0]), plan[1..], n - 1);
    }
    hide Apply;
  }

  /** However finalizing is cut off, the command is still in the queue, or its response and acknowledgement
      have been sent; and they have been sent when it reports success. */
  lemma AnsweredBeforeArchived(fs: Files, stem: string, id: string, response: nat, ack: nat, suffix: string, n: nat)
    requires Path(Commands, stem, Json) in fs && Path(Commands, stem, Json) != INDEX
    ensures var (r, done) := FinalizeExec(fs, stem, id, response, ack, suffix, n);
      && (Path(Commands, stem, Json) !in r || done ==> Sent(r, Responses, id, response) && Sent(r, Acks, id, ack))
      && (Path(Commands, stem, Json) in r ==> r[Path(Commands, stem, Json)] == fs[Path(Commands, stem, Json)])
  {
    hide Exec, MovePlan, PublishPlan, Sent;
    var p1 := PublishPlan(fs, Responses, id, response, true);
    var fs1 := Exec(fs, p1, n);
    PublishTouches(fs, Responses, id, response, n);
    TwoEffects(fs, Responses, id, response);
    if p1 != [] && n >= |p1| {
      var p2 := PublishPlan(fs1, Acks, id, ack, true);
      var fs2 := Exec(fs1, p2, n - |p1|);
      PublishTouches(fs1, Acks, id, ack, n - |p1|);
      TwoEffects(fs1, Acks, id, ack);
      SentStays(fs1, fs2, Responses, id, response);
      if p2 != [] && n - |p1| >= |p2| {
        var r := Exec(fs2, MovePlan(fs2, Commands, stem, Archive, suffix), n - |p1| - |p2|);
        ArchiveTouches(fs2, stem, suffix, n - |p1| - |p2|);
        QueueKept(fs2, stem, suffix, n - |p1| - |p2|);
        SentStays(fs2, r, Responses, id, response);
        SentStays(fs2, r, Acks, id, ack);
      }
    }
  }

  lemma TwoEffects(fs: Files, ch: Channel, stem: string, token: nat)
    requires ch != Commands
    ensures var plan := PublishPlan(fs, ch, stem, token, true); plan == [] || |plan| == 2
  {}

  lemma SentStays(fs: Files, r: Files, ch: Channel, stem: string, token: nat)
    requires ch != Commands && ch != Archive
    requires TouchesOnlyMoved(fs, r)
    ensures Sent(fs, ch, stem, token) ==> Sent(r, ch, stem, token)
  {}

  /** While the command is in the queue it is the same one, unless its name is that of the index. */
  lemma QueueKept(fs: Files, stem: string, suffix: string, n: nat)
    requires Path(Commands, stem, Json) in fs && Path(Commands, stem, Json) != INDEX
    ensures var r := Exec(fs, MovePlan(fs, Commands, stem, Archive, suffix), n);
      Path(Commands, stem, Json) in r ==> r[Path(Commands, stem, Json)] == fs[Path(Commands, stem, Json)]
  {
    var plan := MovePlan(fs, Commands, stem, Archive, suffix);
    ExecPrefix(fs, plan, n);
    hide Exec, Target, Listing, CommandStems;
  }

  // ---- operations that are not cut off

  /** Nothing but these files, and perhaps the index, differs. */
  ghost predicate SameBut(fs: Files, r: Files, touched: set<Path>) {
    forall p: Path :: p !in touched && p != INDEX ==> (p in r <==> p in fs) && (p in fs ==> r[p] == fs[p])
  }

  ghost predicate SameIndex(fs: Files, r: Files) {
    (INDEX in r <==> INDEX in fs) && (INDEX in fs ==> r[INDEX] == fs[INDEX])
  }

  /** The item is there with this message, with its marker if it was to have one, and nothing else was touched. */
  ghost predicate Placed(fs: Files, r: Files, ch: Channel, stem: string, token: nat, ready: bool) {
    && Path(ch, stem, Json) in r && r[Path(ch, stem, Json)] == Data.Published(token) && (Path(ch, stem, Ready) in r <==> ready)
    && SameBut(fs, r, {Path(ch, stem, Json), Path(ch, stem, Ready)})
  }

  lemma PlacedReindexed(fs: Files, r: Files, ch: Channel, stem: string, token: nat, ready: bool)
    requires Placed(fs, r, ch, stem, token, ready) && stem != INDEX.stem
    ensures Placed(fs, Apply(r, Reindex), ch, stem, token, ready)
  {
    hide Listing, CommandStems;
  }

  lemma PublishFiles(fs: Files, ch: Channel, stem: string, token: nat, ready: bool)
    requires Path(ch, stem, Json) !in fs && Path(ch, stem, Ready) !in fs && stem != INDEX.stem
    ensures var fs1 := Apply(fs, WriteJson(ch, stem, token));
      && Placed(fs, fs1, ch, stem, token, false) && SameIndex(fs, fs1)
      && var fs2 := Apply(fs1, WriteReady(ch, stem)); Placed(fs, fs2, ch, stem, token, true) && SameIndex(fs, fs2)
  {}

  /** A publish that is not refused writes this item and no other file, apart from the index it makes exact; it is refused
      exactly for an unsafe stem or a name in use. */
  lemma PublishDone(fs: Files, ch: Channel, stem: string, token: nat, ready: bool)
    ensures var plan := PublishPlan(fs, ch, stem, token, ready);
      && (plan == [] <==> !ValidId(stem) || Path(ch, stem, Json) in fs || Path(ch, stem, Ready) in fs)
      && (plan != [] ==>
            var r := Exec(fs, plan, |plan|);
            && Placed(fs, r, ch, stem, token, ready)
            && (if ch == Commands && ready then IndexExact(r) else SameIndex(fs, r)))
  {
    var plan := PublishPlan(fs, ch, stem, token, ready);
    if plan != [] {
      assert !ValidId(INDEX.stem);
      hide ValidId;
      PublishFiles(fs, ch, stem, token, ready);
      ExecPrefix(fs, plan, |plan|);
      var fs2 := Apply(Apply(fs, WriteJson(ch, stem, token)), WriteReady(ch, stem));
      ReindexExact(fs2);
      hide Exec, IndexExact, Listing, CommandStems, Placed, SameIndex, Apply;
      if ready { PlacedReindexed(fs, fs2, ch, stem, token, ready); }
    }
  }

  /** Where a moved item goes: under its own name if that is free, otherwise under one with the suffix. */
  lemma TargetIs(fs: Files, stem: string, dst: Channel, suffix: string)
    requires FreshSuffix(fs, stem, dst, suffix)
    ensures var t := Target(fs, stem, dst, suffix);
      && Path(dst, t, Json) !in fs && Path(dst, t, Ready) !in fs
      && (t == stem <==> Path(dst, stem, Json) !in fs && Path(dst, stem, Ready) !in fs)
      && (t != stem ==> t == stem + "-" + suffix)
  {
    assert |stem + "-" + suffix| > |stem|;
  }

  /** Both files of the item stand under this name of the destination, with a reason beside them, and nothing else was touched. */
  ghost predicate Moved(fs: Files, r: Files, ch: Channel, stem: string, dst: Channel, t: string)
    requires Path(ch, stem, Json) in fs && Path(ch, stem, Ready) in fs
  {
    && Path(ch, stem, Json) !in r && Path(ch, stem, Ready) !in r
    && Path(dst, t, Json) in r && r[Path(dst, t, Json)] == fs[Path(ch, stem, Json)]
    && Path(dst, t, Ready) in r && r[Path(dst, t, Ready)] == fs[Path(ch, stem, Ready)]
    && ReasonOf(dst, t) in r && r[ReasonOf(dst, t)] == Reason
    && SameBut(fs, r, {Path(ch, stem, Json), Path(ch, stem, Ready), Path(dst, t, Json), Path(dst, t, Ready), ReasonOf(dst, t)})
  }

  lemma MovedReindexed(fs: Files, r: Files, ch: Channel, stem: string, dst: Channel, t: string)
    requires Path(ch, stem, Json) in fs && Path(ch, stem, Ready) in fs && Moved(fs, r, ch, stem, dst, t)
    requires dst != Commands && stem != INDEX.stem
    ensures Moved(fs, Apply(r, Reindex), ch, stem, dst, t)
  {
    hide Listing, CommandStems;
  }

  lemma MoveFiles(fs: Files, ch: Channel, stem: string, dst: Channel, suffix: string)
    requires Path(ch, stem, Json) in fs && Path(ch, stem, Ready) in fs && FreshSuffix(fs, stem, dst, suffix)
    requires ch != dst && dst != Commands && stem != INDEX.stem
    ensures var plan, t := MovePlan(fs, ch, stem, dst, suffix), Target(fs, stem, dst, suffix);
      && (if ch == Commands then |plan| == 4 && plan[3] == Reindex else |plan| == 3)
      && var r := Apply(Apply(Apply(fs, plan[0]), plan[1]), plan[2]);
      Moved(fs, r, ch, stem, dst, t) && SameIndex(fs, r)
  {
    TargetIs(fs, stem, dst, suffix);
    assert |Target(fs, stem, dst, suffix) + ".reason"| > |Target(fs, stem, dst, suffix)|;
    hide Target, FreshSuffix;
  }

  /** A move that is not cut off takes both files out of their channel and puts the same contents under a name that was
      free, with a reason beside them; no other file changes, apart from the index, which is exact afterwards. */
  lemma MoveDone(fs: Files, ch: Channel, stem: string, dst: Channel, suffix: string)
    requires Path(ch, stem, Json) in fs && Path(ch, stem, Ready) in fs && FreshSuffix(fs, stem, dst, suffix)
    requires ch != dst && dst != Commands && ValidId(stem)
    ensures var plan := MovePlan(fs, ch, stem, dst, suffix);
      var r := Exec(fs, plan, |plan|);
      && Moved(fs, r, ch, stem, dst, Target(fs, stem, dst, suffix))
      && (if ch == Commands then IndexExact(r) else SameIndex(fs, r))
  {
    assert stem != INDEX.stem;
    hide ValidId;
    var plan := MovePlan(fs, ch, stem, dst, suffix);
    MoveFiles(fs, ch, stem, dst, suffix);
    ExecPrefix(fs, plan, |plan|);
    var r := Apply(Apply(Apply(fs, plan[0]), plan[1]), plan[2]);
    ReindexExact(r);
    hide Exec, Apply, IndexExact, MovePlan, Target, FreshSuffix, Moved, SameIndex;
    if ch == Commands { MovedReindexed(fs, r, ch, stem, dst, Target(fs, stem, dst, suffix)); }
  }

  // ---- answering a command to the end

  predicate Free(fs: Files, ch: Channel, stem: string) {
    Path(ch, stem, Json) !in fs && Path(ch, stem, Ready) !in fs
  }

  /** Nothing outside the two channels of answers differs. */
  ghost predicate Answered(fs: Files, r: Files) {
    forall p: Path :: p.channel != Responses && p.channel != Acks && p != INDEX ==> (p in r <==> p in fs) && (p in fs ==> r[p] == fs[p])
  }

  lemma BothPlaced(fs: Files, fs1: Files, fs2: Files, id: string, response: nat, ack: nat)
    requires Placed(fs, fs1, Responses, id, response, true) && Placed(fs1, fs2, Acks, id, ack, true)
    ensures Answered(fs, fs2)
  {}

  lemma SameTarget(fs: Files, r: Files, stem: string, suffix: string)
    requires Answered(fs, r) && FreshSuffix(fs, stem, Archive, suffix)
    ensures FreshSuffix(r, stem, Archive, suffix) && Target(r, stem, Archive, suffix) == Target(fs, stem, Archive, suffix)
  {}

  /** The files once both answers have been published. */
  function AfterAnswers(fs: Files, id: string, response: nat, ack: nat): (r: Files) {
    var fs1 := Exec(fs, PublishPlan(fs, Responses, id, response, true), 2);
    Exec(fs1, PublishPlan(fs1, Acks, id, ack, true), 2)
  }

  lemma TwoEnough(fs: Files, ch: Channel, stem: string, token: nat, n: nat)
    requires ch != Commands && ValidId(stem) && Free(fs, ch, stem) && n >= 2
    ensures var plan := PublishPlan(fs, ch, stem, token, true);
      |plan| == 2 && Exec(fs, plan, n) == Exec(fs, plan, 2) && Placed(fs, Exec(fs, plan, 2), ch, stem, token, true)
  {
    PublishDone(fs, ch, stem, token, true);
    TwoEffects(fs, ch, stem, token);
    EnoughEffects(fs, PublishPlan(fs, ch, stem, token, true), n);
    hide Exec, PublishPlan, Placed, ValidId;
  }

  lemma StillFree(fs: Files, r: Files, id: string, response: nat)
    requires Placed(fs, r, Responses, id, response, true) && Free(fs, Acks, id)
    ensures Free(r, Acks, id)
  {}

  lemma FinalizeUnfolds(fs: Files, stem: string, id: string, response: nat, ack: nat, suffix: string, n: nat, fs1: Files, fs2: Files)
    requires n >= 4
    requires var p1 := PublishPlan(fs, Responses, id, response, true); |p1| == 2 && Exec(fs, p1, n) == fs1
    requires var p2 := PublishPlan(fs1, Acks, id, ack, true); |p2| == 2 && Exec(fs1, p2, n - 2) == fs2
    ensures var plan := MovePlan(fs2, Commands, stem, Archive, suffix);
      FinalizeExec(fs, stem, id, response, ack, suffix, n) == (Exec(fs2, plan, n - 4), |plan| >= 3 && n - 4 >= |plan|)
  {
    hide Exec, PublishPlan, MovePlan;
  }

  /** Where both names are free the answers are sent, and what is left then is the move. */
  lemma AnswersSent(fs: Files, stem: string, id: string, response: nat, ack: nat, suffix: string, n: nat)
    requires n >= 4 && ValidId(id) && Free(fs, Responses, id) && Free(fs, Acks, id)
    ensures var fs2 := AfterAnswers(fs, id, response, ack); var plan := MovePlan(fs2, Commands, stem, Archive, suffix);
      && Answered(fs, fs2)
      && FinalizeExec(fs, stem, id, response, ack, suffix, n) == (Exec(fs2, plan, n - 4), |plan| >= 3 && n - 4 >= |plan|)
  {
    hide Exec, PublishPlan, MovePlan, ValidId, Placed, Answered, Free, FinalizeExec;
    TwoEnough(fs, Responses, id, response, n);
    var fs1 := Exec(fs, PublishPlan(fs, Responses, id, response, true), 2);
    StillFree(fs, fs1, id, response);
    TwoEnough(fs1, Acks, id, ack, n - 2);
    var fs2 := Exec(fs1, PublishPlan(fs1, Acks, id, ack, true), 2);
    BothPlaced(fs, fs1, fs2, id, response, ack);
    FinalizeUnfolds(fs, stem, id, response, ack, suffix, n, fs1, fs2);
  }

  /** The command itself has left the queue for a free name in the archive, with its marker and a reason beside it, the
      answers have been sent, and the index is exact. */
  ghost predicate Finalized(fs: Files, r: Files, stem: string, id: string, response: nat, ack: nat, t: string)
    requires Path(Commands, stem, Json) in fs
  {
    && Path(Commands, stem, Json) !in r && Path(Commands, stem, Ready) !in r
    && Free(fs, Archive, t) && Path(Archive, t, Json) in r && r[Path(Archive, t, Json)] == fs[Path(Commands, stem, Json)]
    && Path(Archive, t, Ready) in r && ReasonOf(Archive, t) in r
    && Sent(r, Responses, id, response) && Sent(r, Acks, id, ack) && IndexExact(r)
  }

  lemma FinalizedFiles(fs: Files, fs2: Files, r: Files, stem: string, t: string)
    requires IsReady(fs, Commands, stem) && Path(Commands, stem, Json) != INDEX && Answered(fs, fs2) && IsReady(fs2, Commands, stem)
    requires Moved(fs2, r, Commands, stem, Archive, t)
    ensures Path(Commands, stem, Json) !in r && Path(Commands, stem, Ready) !in r
    ensures Path(Archive, t, Json) in r && r[Path(Archive, t, Json)] == fs[Path(Commands, stem, Json)]
    ensures Path(Archive, t, Ready) in r && ReasonOf(Archive, t) in r
  {
    hide ValidId, SameBut;
  }

  lemma StillReady(fs: Files, fs2: Files, stem: string)
    requires IsReady(fs, Commands, stem) && Answered(fs, fs2) && Path(Commands, stem, Json) != INDEX
    ensures IsReady(fs2, Commands, stem)
  {
    hide ValidId;
  }

  /** With free names for both answers, finalizing succeeds exactly if nothing cuts it off, and then does all of it. */
  lemma FinalizeMoves(fs: Files, stem: string, id: string, response: nat, ack: nat, suffix: string, n: nat)
    requires IsReady(fs, Commands, stem) && FreshSuffix(fs, stem, Archive, suffix)
    requires n >= 4 && ValidId(id) && Free(fs, Responses, id) && Free(fs, Acks, id)
    ensures var (r, done) := FinalizeExec(fs, stem, id, response, ack, suffix, n);
      (done <==> n >= 8) && (done ==> Finalized(fs, r, stem, id, response, ack, Target(fs, stem, Archive, suffix)))
  {
    assert stem != INDEX.stem && Path(Commands, stem, Json) != INDEX;
    hide Exec, MovePlan, Target, FreshSuffix, IndexExact, Sent, Moved, Answered, AfterAnswers, SameIndex;
    var fs2, t := AfterAnswers(fs, id, response, ack), Target(fs, stem, Archive, suffix);
    AnswersSent(fs, stem, id, response, ack, suffix, n);
    SameTarget(fs, fs2, stem, suffix);
    TargetIs(fs, stem, Archive, suffix);
    StillReady(fs, fs2, stem);
    MoveFiles(fs2, Commands, stem, Archive, suffix);
    AnsweredBeforeArchived(fs, stem, id, response, ack, suffix, n);
    MoveDone(fs2, Commands, stem, Archive, suffix);
    if n >= 8 {
      EnoughEffects(fs2, MovePlan(fs2, Commands, stem, Archive, suffix), n - 4);
      hide FinalizeExec, ValidId;
      FinalizedFiles(fs, fs2, FinalizeExec(fs, stem, id, response, ack, suffix, n).0, stem, t);
    }
  }

  /** Finalizing a command of the queue succeeds exactly if both answers have free names and nothing cuts it off, and success
      means that all of it has happened, the archiving included. */
  lemma FinalizedIff(fs: Files, stem: string, id: string, response: nat, ack: nat, suffix: string, n: nat)
    requires IsReady(fs, Commands, stem) && FreshSuffix(fs, stem, Archive, suffix)
    ensures var (r, done) := FinalizeExec(fs, stem, id, response, ack, suffix, n);
      && (done <==> ValidId(id) && Free(fs, Responses, id) && Free(fs, Acks, id) && n >= 8)
      && (done ==> Finalized(fs, r, stem, id, response, ack, Target(fs, stem, Archive, suffix)))
  {
    OnlyIfFree(fs, stem, id, response, ack, suffix, n);
    hide FinalizeExec, Finalized, FreshSuffix, Target, ValidId, Free;
    if ValidId(id) && Free(fs, Responses, id) && Free(fs, Acks, id) && n >= 4 {
      FinalizeMoves(fs, stem, id, response, ack, suffix, n);
    }
  }

  lemma OnlyIfFree(fs: Files, stem: string, id: string, response: nat, ack: nat, suffix: string, n: nat)
    ensures FinalizeExec(fs, stem, id, response, ack, suffix, n).1 ==> ValidId(id) && Free(fs, Responses, id) && Free(fs, Acks, id) && n >= 4
  {
    var p1 := PublishPlan(fs, Responses, id, response, true);
    PublishDone(fs, Responses, id, response, true);
    TwoEffects(fs, Responses, id, response);
    if p1 != [] && n >= |p1| {
      EnoughEffects(fs, p1, n);
      var fs1 := Exec(fs, p1, n);
      PublishDone(fs1, Acks, id, ack, true);
      TwoEffects(fs1, Acks, id, ack);
      hide Exec, PublishPlan, MovePlan, ValidId;
    }
  }

  lemma EnoughEffects(fs: Files, plan: seq<Effect>, n: nat)
    requires n >= |plan|
    ensures Exec(fs, plan, n) == Exec(fs, plan, |plan|)
    decreases |plan|
  {
    hide Apply;
    if plan != [] {
      EnoughEffects(Apply(fs, plan[0]), plan[1..], n - 1);
    }
  }

  class Store {
    var files: Files

    /** Effects the operating system will still carry out before an error or a crash. */
    var budget: nat

    constructor (files: Files, budget: nat)
      ensures this.files == Exec(files, Plan(files, Reopen), budget)
    {
      this.files := files;
      this.budget := budget;
      new;
      var done := RefreshReadyIndex();
      assert [Reindex][1..] == [];
    }

    /** One atomic write or rename; false where the source sees an exception. */
    method Perform(e: Effect) returns (done: bool)
      modifies this
      ensures done <==> old(budget) > 0
      ensures files == (if done then Apply(old(files), e) else old(files))
      ensures budget == (if done then old(budget) - 1 else 0)
    {
      if budget == 0 {
        return false;
      }
      budget := budget - 1;
      files := Apply(files, e);
      done := true;
    }

    method RefreshReadyIndex() returns (done: bool)
      modifies this
      ensures done <==> old(budget) > 0
      ensures files == (if done then Apply(old(files), Reindex) else old(files))
      ensures budget == (if done then old(budget) - 1 else 0)
      ensures done ==> IndexExact(files)
    {
      done := Perform(Reindex);
      ReindexExact(old(files));
    }

    method PublishItem(ch: Channel, stem: string, token: nat, ready: bool) returns (done: bool)
      modifies this
      ensures var plan := PublishPlan(old(files), ch, stem, token, ready);
        && files == Exec(old(files), plan, old(budget)) && (done <==> plan != [] && old(budget) >= |plan|)
        && (done ==> budget == old(budget) - |plan|)
    {
      if !ValidId(stem) || Path(ch, stem, Json) in files || Path(ch, stem, Ready) in files {
        return false;
      }
      ghost var fs, plan, n := files, PublishPlan(files, ch, stem, token, ready), budget;
      ExecPrefix(fs, plan, n);
      done := Perform(WriteJson(ch, stem, token));
      if !done || !ready {
        return;
      }
      done := Perform(WriteReady(ch, stem));
      if !done || ch != Commands {
        return;
      }
      done := RefreshReadyIndex();
    }

    /** _move: archive and deadletter are this with the two destinations. */
    method MoveItem(ch: Channel, stem: string, dst: Channel, suffix: string) returns (done: bool)
      modifies this
      ensures var plan := MovePlan(old(files), ch, stem, dst, suffix);
        files == Exec(old(files), plan, old(budget)) && (done <==> |plan| >= 3 && old(budget) >= |plan|)
    {
      var target := stem;
      if Path(dst, stem, Json) in files || Path(dst, stem, Ready) in files {
        target := stem + "-" + suffix;
      }
      if Path(ch, stem, Json) !in files {
        return false;
      }
      ghost var fs, plan, n := files, MovePlan(files, ch, stem, dst, suffix), budget;
      ExecPrefix(fs, plan, n);
      done := Perform(Rename(Path(ch, stem, Json), Path(dst, target, Json)));
      if !done || Path(ch, stem, Ready) !in files {
        return false;
      }
      done := Perform(Rename(Path(ch, stem, Ready), Path(dst, target, Ready)));
      if !done {
        return;
      }
      done := Perform(WriteReason(dst, target));
      if !done || ch != Commands {
        return;
      }
      done := RefreshReadyIndex();
    }

    /** finalize with a valid status; it ends where one of its parts raises. */
    method FinalizeCommand(stem: string, id: string, response: nat, ack: nat, suffix: string) returns (done: bool)
      modifies this
      ensures (files, done) == FinalizeExec(old(files), stem, id, response, ack, suffix, old(budget))
    {
      hide Exec, MovePlan, PublishPlan;
      ghost var fs := files;
      TwoEffects(fs, Responses, id, response);
      done := PublishItem(Responses, id, response, true);
      if !done {
        return;
      }
      TwoEffects(files, Acks, id, ack);
      done := PublishItem(Acks, id, ack, true);
      if !done {
        return;
      }
      done := MoveItem(Commands, stem, Archive, suffix);
    }

    /** iter_ready; ReadyListing says what the result means. */
    method IterReady(ch: Channel) returns (stems: seq<string>)
      ensures stems == Complete(files, ch, Listing(Marked(files, ch), ".ready"))
    {
      var names := Listing(Marked(files, ch), ".ready");
      stems := [];
      ghost var fs := files;
      assert names[0..] == names && [] + Complete(fs, ch, names) == Complete(fs, ch, names);
      for i := 0 to |names|
        invariant files == fs
        invariant stems + Complete(fs, ch, names[i..]) == Complete(fs, ch, names)
      {
        CompleteStep(fs, ch, names, i, stems);
        if ValidId(names[i]) && Path(ch, names[i], Json) in files {
          stems := stems + [names[i]];
        }
      }
      assert stems + [] == stems;
    }
  }

  /** iter_ready yields exactly the items with both files, in the order of the marker names,
      and in a tidy store each of them is a complete message. */
  lemma ReadyListing(fs: Files, ch: Channel)
    ensures var stems := Complete(fs, ch, Listing(Marked(fs, ch), ".ready"));
      && MarkerOrder(stems)
      && (forall s :: s in stems <==> IsReady(fs, ch, s))
      && (Tidy(fs) ==> forall s :: s in stems ==> fs[Path(ch, s, Json)].Published?)
  {
    CompleteFacts(fs, ch, Listing(Marked(fs, ch), ".ready"));
  }

  /** The stems of a channel's `*.ready` files. */
  function Marked(fs: Files, ch: Channel): (r: set<string>)
    ensures forall s :: s in r <==> Path(ch, s, Ready) in fs
  {
    set p | p in fs && p.channel == ch && p.ext == Ready :: p.stem
  }

  ghost predicate MarkerOrder(s: seq<string>) {
    forall i, j :: 0 <= i < j < |s| ==> s[i] != s[j] && StrLe(s[i] + ".ready", s[j] + ".ready")
  }

  /** Of the listed marker stems, those iter_ready yields. */
  function Complete(fs: Files, ch: Channel, names: seq<string>): (r: seq<string>)
    decreases |names|
  {
    if names == [] then []
    else (if ValidId(names[0]) && Path(ch, names[0], Json) in fs then [names[0]] else []) + Complete(fs, ch, names[1..])
  }

  lemma CompleteStep(fs: Files, ch: Channel, names: seq<string>, i: nat, stems: seq<string>)
    requires i < |names|
    ensures stems + Complete(fs, ch, names[i..])
            == (if ValidId(names[i]) && Path(ch, names[i], Json) in fs then stems + [names[i]] else stems)
               + Complete(fs, ch, names[i + 1..])
  {
    assert names[i..][1..] == names[i + 1..];
  }

  lemma {:induction false} CompleteFacts(fs: Files, ch: Channel, names: seq<string>)
    requires MarkerOrder(names)
    ensures forall s :: s in Complete(fs, ch, names) <==> s in names && ValidId(s) && Path(ch, s, Json) in fs
    ensures MarkerOrder(Complete(fs, ch, names))
    decreases |names|
  {
    if names != [] {
      var tail := names[1..];
      var rest := Complete(fs, ch, tail);
      assert names == [names[0]] + tail;
      CompleteFacts(fs, ch, tail);
      forall k | 0 <= k < |rest| ensures rest[k] != names[0] && StrLe(names[0] + ".ready", rest[k] + ".ready") {
        assert rest[k] in rest && rest[k] in tail;
        var j :| 0 <= j < |tail| && tail[j] == rest[k];
        assert names[j + 1] == rest[k];
      }
    }
  }

  /** How far a plan of at most four effects gets. */
  lemma ExecPrefix(fs: Files, plan: seq<Effect>, n: nat)
    requires 1 <= |plan| <= 4
    ensures n == 0 ==> Exec(fs, plan, n) == fs
    ensures var fs1 := Apply(fs, plan[0]);
      && (n == 1 || (n >= 1 && |plan| == 1) ==> Exec(fs, plan, n) == fs1)
      && (|plan| >= 2 ==> var fs2 := Apply(fs1, plan[1]);
          && (n == 2 || (n >= 2 && |plan| == 2) ==> Exec(fs, plan, n) == fs2)
          && (|plan| >= 3 ==> var fs3 := Apply(fs2, plan[2]);
              && (n == 3 || (n >= 3 && |plan| == 3) ==> Exec(fs, plan, n) == fs3)
              && (|plan| == 4 && n >= 4 ==> Exec(fs, plan, n) == Apply(fs3, plan[3]))))
    decreases |plan|
  {
    hide Apply;
    if n > 0 {
      if |plan| == 1 {
        assert plan[1..] == [];
      } else {
        ExecPrefix(Apply(fs, plan[0]), plan[1..], n - 1);
      }
    }
  }
}
