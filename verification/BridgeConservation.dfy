/** Which histories of the bridge root lose a message, for stems of every kind
    (goblin_zomboid/ipc.py, BridgeStore). */
module BridgeConservation {
  import opened Common
  import opened Protocol
  import opened BridgeStore

  /** Messages are JSON files other than the index, and no message is in two files. */
  ghost predicate Sound(fs: Files) {
    && (forall p :: p in fs && fs[p].Published? ==> p.ext == Json && p != INDEX)
    && (forall p, q :: OnePlace(fs, p, q))
  }

  /** The message a file holds, if it is one. */
  ghost function Held(fs: Files, p: Path): (r: set<nat>) {
    if p in fs && fs[p].Published? then {fs[p].token} else {}
  }

  lemma OverwriteExact(fs: Files, at: Path, data: Data)
    requires Sound(fs) && !data.Published?
    ensures Sound(fs[at := data]) && Tokens(fs[at := data]) == Tokens(fs) - Held(fs, at)
  {
    var r := fs[at := data];
    forall p, q ensures OnePlace(r, p, q) {
      assert OnePlace(fs, p, q);
    }
    forall t ensures t in Tokens(r) <==> t in Tokens(fs) && t !in Held(fs, at) {
      if t in Tokens(r) {
        var p :| p in r && r[p].Published? && r[p].token == t;
        assert OnePlace(fs, p, at) && fs[p] == Published(t);
      }
      if t in Tokens(fs) && t !in Held(fs, at) {
        var p :| p in fs && fs[p].Published? && fs[p].token == t;
        assert r[p] == Published(t);
      }
    }
  }

  lemma RenameExact(fs: Files, from: Path, to: Path)
    requires Sound(fs) && from in fs && to !in fs && from.ext == to.ext && to != INDEX
    ensures Sound(Apply(fs, Rename(from, to))) && Tokens(Apply(fs, Rename(from, to))) == Tokens(fs)
  {
    var r := Apply(fs, Rename(from, to));
    forall p, q ensures OnePlace(r, p, q) {
      assert OnePlace(fs, if p == to then from else p, if q == to then from else q);
    }
    forall t ensures t in Tokens(r) <==> t in Tokens(fs) {
      if t in Tokens(fs) {
        var p :| p in fs && fs[p].Published? && fs[p].token == t;
        assert r[if p == from then to else p] == Published(t);
      }
      if t in Tokens(r) {
        var p :| p in r && r[p].Published? && r[p].token == t;
        assert fs[if p == to then from else p] == Published(t);
      }
    }
  }

  lemma WriteExact(fs: Files, ch: Channel, stem: string, token: nat)
    requires Sound(fs) && Path(ch, stem, Json) !in fs && Path(ch, stem, Json) != INDEX && token !in Tokens(fs)
    ensures Sound(Apply(fs, WriteJson(ch, stem, token)))
    ensures Tokens(Apply(fs, WriteJson(ch, stem, token))) == Tokens(fs) + {token}
  {
    var r := Apply(fs, WriteJson(ch, stem, token));
    forall p, q ensures OnePlace(r, p, q) {
      assert OnePlace(fs, p, q);
    }
    forall t ensures t in Tokens(r) <==> t in Tokens(fs) || t == token {
      if t == token { assert r[Path(ch, stem, Json)] == Published(t); }
      if t in Tokens(fs) {
        var p :| p in fs && fs[p].Published? && fs[p].token == t;
        assert r[p] == Published(t);
      }
    }
  }

  lemma ReindexHolds(fs: Files)
    requires Sound(fs)
    ensures Sound(Apply(fs, Reindex)) && Tokens(Apply(fs, Reindex)) == Tokens(fs)
  {
    hide Listing, CommandStems;
    OverwriteExact(fs, INDEX, Stems(Listing(CommandStems(fs), ".ready")));
  }

  // ---- one operation

  /** The message that a move is about to overwrite with its reason, if it gets that far. A caller can see it in
      the directory before. */
  ghost function Lost(fs: Files, op: Op, upto: nat): (r: set<nat>) {
    if op.Move? && |Plan(fs, op)| >= 3 && upto >= 3
    then Held(fs, ReasonOf(op.dst, Target(fs, op.stem, op.dst, op.suffix))) else {}
  }

  lemma PublishWrites(fs: Files, op: Op, n: nat)
    requires op.Publish? && Plan(fs, op) != []
    ensures WrittenBy(Plan(fs, op), n) == if n > 0 then {op.token} else {}
  {
    if n > 0 {
      NothingWritten(Plan(fs, op)[1..], n - 1);
    }
  }

  lemma PublishParts(fs: Files, op: Op)
    requires op.Publish? && Plan(fs, op) != []
    ensures var plan := Plan(fs, op);
      && Path(op.ch, op.stem, Json) !in fs && Path(op.ch, op.stem, Ready) !in fs && op.stem != INDEX.stem
      && 1 <= |plan| <= 3 && plan[0] == WriteJson(op.ch, op.stem, op.token)
      && (|plan| >= 2 ==> plan[1] == WriteReady(op.ch, op.stem)) && (|plan| == 3 ==> plan[2] == Reindex)
  {
    assert !ValidId(INDEX.stem);
  }

  lemma PublishExact(fs: Files, used: set<nat>, op: Op, n: nat)
    requires op.Publish? && Sound(fs) && Tokens(fs) <= used && op.token !in used
    ensures Sound(Exec(fs, Plan(fs, op), n))
    ensures Tokens(Exec(fs, Plan(fs, op), n)) == Tokens(fs) + WrittenBy(Plan(fs, op), n)
  {
    var plan := Plan(fs, op);
    if plan == [] {
    } else {
      PublishParts(fs, op);
      PublishWrites(fs, op, n);
      hide Exec, Sound, Tokens, CommandStems, Listing, Plan, PublishPlan, WrittenBy, ValidId;
      ExecPrefix(fs, plan, n);
      WriteExact(fs, op.ch, op.stem, op.token);
      var fs1 := Apply(fs, plan[0]);
      assert Held(fs1, Path(op.ch, op.stem, Ready)) == {};
      hide Held;
      if |plan| >= 2 {
        OverwriteExact(fs1, Path(op.ch, op.stem, Ready), Marker);
        ReindexHolds(Apply(fs1, plan[1]));
      }
    }
  }

  lemma TargetIsFree(fs: Files, used: set<nat>, op: Op)
    requires op.Move? && Allowed(used, fs, op)
    ensures var t := Target(fs, op.stem, op.dst, op.suffix);
      && Path(op.dst, t, Json) !in fs && Path(op.dst, t, Ready) !in fs && t != "" && t[0] == op.stem[0] && t != INDEX.stem
  {}

  /** The two renames keep every message, and leave the name of the reason file alone. */
  lemma RenamesExact(fs: Files, used: set<nat>, op: Op)
    requires op.Move? && Sound(fs) && Allowed(used, fs, op) && |Plan(fs, op)| >= 1
    ensures var fs1 := Apply(fs, Plan(fs, op)[0]); Sound(fs1) && Tokens(fs1) == Tokens(fs)
    ensures |Plan(fs, op)| >= 2 ==>
      var fs2 := Apply(Apply(fs, Plan(fs, op)[0]), Plan(fs, op)[1]);
      && Sound(fs2) && Tokens(fs2) == Tokens(fs)
      && var r := ReasonOf(op.dst, Target(fs, op.stem, op.dst, op.suffix)); Held(fs2, r) == Held(fs, r)
  {
    var plan := Plan(fs, op);
    var t := Target(fs, op.stem, op.dst, op.suffix);
    TargetIsFree(fs, used, op);
    assert |(t + ".reason")| > |t|;
    RenameExact(fs, Path(op.ch, op.stem, Json), Path(op.dst, t, Json));
    if |plan| >= 2 {
      RenameExact(Apply(fs, plan[0]), Path(op.ch, op.stem, Ready), Path(op.dst, t, Ready));
    }
    hide Sound, Tokens, Target, Allowed;
  }

  lemma MoveExact(fs: Files, used: set<nat>, op: Op, n: nat)
    requires op.Move? && Sound(fs) && Allowed(used, fs, op)
    ensures Sound(Exec(fs, Plan(fs, op), n))
    ensures Tokens(Exec(fs, Plan(fs, op), n)) == Tokens(fs) - Lost(fs, op, n)
  {
    var plan := Plan(fs, op);
    if plan != [] {
      ExecPrefix(fs, plan, n);
      RenamesExact(fs, used, op);
      hide Exec, Sound, Tokens, CommandStems, Listing, Target, Allowed;
      if |plan| >= 3 {
        var fs2 := Apply(Apply(fs, plan[0]), plan[1]);
        OverwriteExact(fs2, ReasonOf(op.dst, Target(fs, op.stem, op.dst, op.suffix)), Reason);
        ReindexHolds(Apply(fs2, plan[2]));
      }
    }
  }

  /** What one operation, cut off anywhere, does to the messages. */
  lemma OpExact(fs: Files, used: set<nat>, op: Op, n: nat)
    requires Sound(fs) && Tokens(fs) <= used && Allowed(used, fs, op)
    ensures Sound(Exec(fs, Plan(fs, op), n))
    ensures Tokens(Exec(fs, Plan(fs, op), n)) == Tokens(fs) + WrittenBy(Plan(fs, op), n) - Lost(fs, op, n)
  {
    hide Sound, Tokens, Allowed, Exec, Lost;
    match op
    case Publish(_, _, token, _) =>
      assert token !in used && Lost(fs, op, n) == {} by { NoPublishLoses(fs, used, op, n); }
      PublishExact(fs, used, op, n);
    case Move(_, _, _, _) =>
      MoveExact(fs, used, op, n);
      NothingWritten(Plan(fs, op), n);
    case Reopen =>
      ReopenExact(fs, op, n);
  }

  lemma NoPublishLoses(fs: Files, used: set<nat>, op: Op, n: nat)
    requires op.Publish? && Allowed(used, fs, op)
    ensures op.token !in used && Lost(fs, op, n) == {}
  {}

  lemma ReopenExact(fs: Files, op: Op, n: nat)
    requires op.Reopen? && Sound(fs)
    ensures Sound(Exec(fs, Plan(fs, op), n)) && Lost(fs, op, n) == {} && WrittenBy(Plan(fs, op), n) == {}
    ensures Tokens(Exec(fs, Plan(fs, op), n)) == Tokens(fs)
  {
    ReindexHolds(fs);
    ExecPrefix(fs, [Reindex], n);
    NothingWritten([Reindex], n);
    hide Exec, Sound, Tokens, CommandStems, Listing;
  }

  // ---- whole histories

  /** Operations with any valid stems. */
  ghost predicate Possible(h: History, ops: seq<(Op, nat)>)
    decreases |ops|
  {
    ops != [] ==> Allowed(h.used, h.files, ops[0].0) && Possible(Do(h, ops[0].0, ops[0].1), ops[1..])
  }

  /** At no move that gets as far as its reason file is there a message under that name. */
  ghost predicate NothingLost(h: History, ops: seq<(Op, nat)>)
    decreases |ops|
  {
    ops != [] ==> Lost(h.files, ops[0].0, ops[0].1) == {} && NothingLost(Do(h, ops[0].0, ops[0].1), ops[1..])
  }

  lemma DoExact(h: History, op: Op, n: nat)
    requires Sound(h.files) && Tokens(h.files) <= h.written <= h.used && Allowed(h.used, h.files, op)
    ensures var r := Do(h, op, n);
      && Sound(r.files) && Tokens(r.files) <= r.written <= r.used
      && (Tokens(r.files) == r.written <==> Tokens(h.files) == h.written && Lost(h.files, op, n) == {})
  {
    OpExact(h.files, h.used, op, n);
    WrittenIsUsed(h.files, op, n);
    LostIsHeld(h.files, op, n);
    var w, l := WrittenBy(Plan(h.files, op), n), Lost(h.files, op, n);
    assert w * h.used == {} by {
      if op.Publish? { NoPublishLoses(h.files, h.used, op, n); }
    }
    hide Sound, Tokens, Allowed, Lost, Plan, Exec;
    var r := Do(h, op, n);
    assert Tokens(r.files) == Tokens(h.files) + w - l && r.written == h.written + w;
    if Tokens(r.files) == r.written {
      forall t | t in h.written ensures t in Tokens(h.files) {
        assert t in r.written;
      }
      forall t ensures t !in l {
        assert t in l ==> t in h.written && t !in Tokens(r.files);
      }
      assert l == {};
    }
  }

  lemma LostIsHeld(fs: Files, op: Op, n: nat)
    ensures Lost(fs, op, n) <= Tokens(fs)
  {}

  /** In every history of operations, each cut off anywhere and with any valid stems, all messages that were ever
      written are still there, each in one file, exactly if nothing was lost to a reason file. */
  lemma {:induction false} ConservedIff(h: History, ops: seq<(Op, nat)>)
    requires Sound(h.files) && Tokens(h.files) <= h.written <= h.used && Possible(h, ops)
    ensures var r := Play(h, ops);
      && Sound(r.files) && Tokens(r.files) <= r.written
      && (Tokens(r.files) == r.written <==> Tokens(h.files) == h.written && NothingLost(h, ops))
    decreases |ops|
  {
    hide Sound, Tokens, Allowed, Lost, Do;
    if ops != [] {
      DoExact(h, ops[0].0, ops[0].1);
      ConservedIff(Do(h, ops[0].0, ops[0].1), ops[1..]);
    }
  }

  /** Where no stem ends in `.reason` and every message has a plain stem, no move finds a message under the name of its
      reason file: the histories of `Conservation` are of this kind. */
  lemma {:induction false} PlainLosesNothing(h: History, ops: seq<(Op, nat)>)
    requires Tidy(h.files) && Tokens(h.files) == h.written && h.written <= h.used && Legal(h, ops)
    ensures Sound(h.files) && Possible(h, ops) && NothingLost(h, ops)
    decreases |ops|
  {
    ReasonIsNotPlain("");
    if ops != [] {
      assert Lost(h.files, ops[0].0, ops[0].1) == {} by {
        if ops[0].0.Move? {
          ReasonIsNotPlain(Target(h.files, ops[0].0.stem, ops[0].0.dst, ops[0].0.suffix));
        }
      }
      hide Tidy, Tokens, Allowed, Lost, Do, NoReasonStem;
      DoConserves(h, ops[0].0, ops[0].1);
      PlainLosesNothing(Do(h, ops[0].0, ops[0].1), ops[1..]);
    }
  }

  // ---- one completed move

  /** The renames and the reason file of a move touch no other file, and lose a message exactly if one sits in the
      destination under the name of the reason file. */
  lemma ReasonOverwrites(fs: Files, ch: Channel, stem: string, dst: Channel, suffix: string)
    requires Path(ch, stem, Json) in fs && Path(ch, stem, Ready) in fs && FreshSuffix(fs, stem, dst, suffix)
    requires ch != dst && (dst == Archive || dst == DeadLetter) && ValidId(stem)
    ensures var t := Target(fs, stem, dst, suffix);
      var after := Exec(fs, MovePlan(fs, ch, stem, dst, suffix), 3);
      && Path(dst, t, Json) in after && after[Path(dst, t, Json)] == fs[Path(ch, stem, Json)]
      && ReasonOf(dst, t) in after && after[ReasonOf(dst, t)] == Reason
      && (forall p :: p in fs && p != Path(ch, stem, Json) && p != Path(ch, stem, Ready) && p != ReasonOf(dst, t) ==>
            p in after && after[p] == fs[p])
      && (Sound(fs) ==> (Tokens(after) == Tokens(fs) <==> !(ReasonOf(dst, t) in fs && fs[ReasonOf(dst, t)].Published?)))
  {
    var plan := MovePlan(fs, ch, stem, dst, suffix);
    var t := Target(fs, stem, dst, suffix);
    ExecThree(fs, plan);
    assert |ReasonOf(dst, t).stem| > |t|;
    assert Path(dst, t, Json) !in fs && Path(dst, t, Ready) !in fs;
    if Sound(fs) {
      var op := Op.Move(ch, stem, dst, suffix);
      MoveExact(fs, {}, op, 3);
      LostIsHeld(fs, op, 3);
      assert Lost(fs, op, 3) == Held(fs, ReasonOf(dst, t));
      hide Sound, Tokens, Exec, Apply;
      assert Tokens(fs) - Held(fs, ReasonOf(dst, t)) == Tokens(fs) <==> Held(fs, ReasonOf(dst, t)) == {} by {
        SetMinus(Tokens(fs), Held(fs, ReasonOf(dst, t)));
      }
    }
  }

  lemma SetMinus(a: set<nat>, b: set<nat>)
    requires b <= a
    ensures a - b == a <==> b == {}
  {
    forall x | x in b ensures x in a && x !in a - b {}
    if a - b == a { assert b == {}; }
  }
}
