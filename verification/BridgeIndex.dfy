/** When the index of ready commands names exactly the commands that are ready, for every history of
    interrupted operations (goblin_zomboid/ipc.py, BridgeStore). */
module BridgeIndex {
  import opened Common
  import opened Protocol
  import opened BridgeStore
  import opened BridgeConservation

  /** The stems the index names. */
  function Listed(fs: Files): (r: set<string>) {
    if INDEX in fs && fs[INDEX].Stems? then set s | s in fs[INDEX].stems else {}
  }

  /** The index is a listing, as every index that was ever written is. */
  ghost predicate Indexed(fs: Files) {
    INDEX in fs && fs[INDEX] == Stems(Listing(Listed(fs), ".ready"))
  }

  /** The stems about which the index is wrong: named and not ready, or ready and not named. */
  function Wrong(fs: Files): (r: set<string>) {
    (Listed(fs) - CommandStems(fs)) + (CommandStems(fs) - Listed(fs))
  }

  lemma ExactIff(fs: Files)
    requires Indexed(fs)
    ensures IndexExact(fs) <==> Wrong(fs) == {}
  {
    if IndexExact(fs) {
      ExactIsIndexed(fs);
    } else {
      assert Listed(fs) != CommandStems(fs);
      NoDifference(Listed(fs), CommandStems(fs));
      hide Listed, CommandStems, Indexed, IndexExact;
    }
  }

  lemma NoDifference(a: set<string>, b: set<string>)
    ensures (a - b) + (b - a) == {} ==> a == b
  {
    if (a - b) + (b - a) == {} {
      forall s ensures s in a <==> s in b {
        assert s !in (a - b) + (b - a);
      }
    }
  }

  lemma ExactIsIndexed(fs: Files)
    requires IndexExact(fs)
    ensures Indexed(fs) && Wrong(fs) == {}
  {
    var names := Listing(CommandStems(fs), ".ready");
    assert forall s :: s in Listed(fs) <==> s in names;
    assert Listed(fs) == CommandStems(fs);
  }

  // ---- one operation

  /** A command is published with its marker. */
  predicate Publishes(fs: Files, op: Op) {
    op.Publish? && op.ch == Commands && op.ready && Plan(fs, op) != []
  }

  /** A command that has both files is moved away. */
  predicate Removes(fs: Files, op: Op) {
    op.Move? && op.ch == Commands && IsReady(fs, Commands, op.stem)
  }

  /** The operation gets as far as writing the index. */
  predicate Refreshes(fs: Files, op: Op, n: nat) {
    (op.Reopen? && n >= 1) || (Publishes(fs, op) && n >= 3) || (Removes(fs, op) && n >= 4)
  }

  /** The operation is cut off after the command became ready, or stopped being ready, and before the index. */
  predicate CutBefore(fs: Files, op: Op, n: nat) {
    (Publishes(fs, op) && n == 2) || (Removes(fs, op) && 1 <= n <= 3)
  }

  /** The stems the index is wrong about afterwards. */
  function After(fs: Files, op: Op, n: nat, wrong: set<string>): (r: set<string>) {
    if Refreshes(fs, op, n) then {}
    else if !CutBefore(fs, op, n) then wrong
    else Toggle(wrong, op.stem)
  }

  function Toggle(s: set<string>, x: string): (r: set<string>) {
    if x in s then s - {x} else s + {x}
  }

  /** The index is as before, and so are the commands that are ready. */
  ghost predicate SameReady(fs: Files, r: Files) {
    INDEX in fs && INDEX in r && r[INDEX] == fs[INDEX] && CommandStems(r) == CommandStems(fs)
  }

  /** The index is as before, and this command became ready or stopped being ready. */
  ghost predicate Flipped(fs: Files, r: Files, stem: string) {
    INDEX in fs && INDEX in r && r[INDEX] == fs[INDEX] && CommandStems(r) == Toggle(CommandStems(fs), stem)
  }

  lemma NothingFlipped(fs: Files, r: Files)
    requires Indexed(fs) && SameReady(fs, r)
    ensures Indexed(r) && Wrong(r) == Wrong(fs)
  {
    hide CommandStems, Listing;
  }

  lemma OneFlipped(fs: Files, r: Files, stem: string)
    requires Indexed(fs) && Flipped(fs, r, stem)
    ensures Indexed(r) && Wrong(r) == Toggle(Wrong(fs), stem)
  {
    hide CommandStems, Listing;
    assert Listed(r) == Listed(fs);
    hide Listed;
    assert forall s :: s in Wrong(r) <==> s in Toggle(Wrong(fs), stem);
  }

  lemma OtherFiles(fs: Files, r: Files)
    requires INDEX in fs
    requires forall p: Path :: p.channel == Commands ==> (p in fs <==> p in r) && (p in fs ==> fs[p] == r[p])
    ensures SameReady(fs, r)
  {
    assert CommandStems(r) == CommandStems(fs);
  }

  lemma RefreshedRight(fs: Files)
    ensures Indexed(Apply(fs, Reindex)) && Wrong(Apply(fs, Reindex)) == {}
  {
    ReindexExact(fs);
    hide Apply, IndexExact, Indexed, Wrong;
    ExactIsIndexed(Apply(fs, Reindex));
  }

  lemma ReopenIndex(fs: Files, op: Op, n: nat)
    requires op.Reopen? && Indexed(fs)
    ensures Indexed(Exec(fs, Plan(fs, op), n)) && Wrong(Exec(fs, Plan(fs, op), n)) == After(fs, op, n, Wrong(fs))
  {
    RefreshedRight(fs);
    ExecPrefix(fs, [Reindex], n);
    hide Exec, Indexed, Wrong, Apply;
  }

  lemma PublishEffects(fs: Files, op: Op)
    requires op.Publish? && INDEX in fs && Plan(fs, op) != []
    ensures var plan := Plan(fs, op);
      var fs1 := Apply(fs, plan[0]);
      && 1 <= |plan| <= 3 && (|plan| == 3 <==> Publishes(fs, op)) && (|plan| == 3 ==> plan[2] == Reindex)
      && SameReady(fs, fs1)
      && (|plan| >= 2 ==> var fs2 := Apply(fs1, plan[1]);
            if |plan| == 3 then Flipped(fs1, fs2, op.stem) else SameReady(fs1, fs2))
  {
    var plan := Plan(fs, op);
    PublishParts(fs, op);
    var fs1 := Apply(fs, plan[0]);
    assert ValidId(op.stem);
    hide ValidId;
    assert CommandStems(fs1) == CommandStems(fs);
    if |plan| == 2 {
      assert CommandStems(Apply(fs1, plan[1])) == CommandStems(fs1);
    } else if |plan| == 3 {
      assert CommandStems(Apply(fs1, plan[1])) == Toggle(CommandStems(fs1), op.stem);
    }
  }

  lemma PublishStages(fs: Files, op: Op)
    requires op.Publish? && Indexed(fs) && Plan(fs, op) != []
    ensures var plan := Plan(fs, op);
      var fs1 := Apply(fs, plan[0]);
      && Indexed(fs1) && Wrong(fs1) == Wrong(fs)
      && (|plan| >= 2 ==> var fs2 := Apply(fs1, plan[1]);
            && Indexed(fs2) && Wrong(fs2) == (if |plan| == 3 then Toggle(Wrong(fs), op.stem) else Wrong(fs))
            && (|plan| == 3 ==> Indexed(Apply(fs2, plan[2])) && Wrong(Apply(fs2, plan[2])) == {}))
  {
    var plan := Plan(fs, op);
    PublishEffects(fs, op);
    hide Wrong, Toggle, CommandStems, Listing, Apply, Plan, SameReady, Flipped, Publishes;
    var fs1 := Apply(fs, plan[0]);
    NothingFlipped(fs, fs1);
    hide Indexed;
    if |plan| == 2 {
      NothingFlipped(fs1, Apply(fs1, plan[1]));
    } else if |plan| == 3 {
      OneFlipped(fs1, Apply(fs1, plan[1]), op.stem);
      RefreshedRight(Apply(fs1, plan[1]));
    }
  }

  lemma PublishIndex(fs: Files, op: Op, n: nat)
    requires op.Publish? && Indexed(fs) && Plan(fs, op) != []
    ensures Indexed(Exec(fs, Plan(fs, op), n)) && Wrong(Exec(fs, Plan(fs, op), n)) == After(fs, op, n, Wrong(fs))
  {
    PublishEffects(fs, op);
    PublishStages(fs, op);
    hide Wrong, Toggle, CommandStems, Apply, Plan, SameReady, Flipped, Publishes, Indexed;
    ExecPrefix(fs, Plan(fs, op), n);
    hide Exec;
  }

  /** The files of a move by name: a command with both files loses its JSON first, and nothing else in the channel
      changes that the index is about. */
  lemma MoveEffects(fs: Files, used: set<nat>, op: Op)
    requires op.Move? && INDEX in fs && Allowed(used, fs, op) && Plan(fs, op) != []
    ensures var plan := Plan(fs, op);
      var fs1 := Apply(fs, plan[0]);
      && (|plan| == 1 || |plan| == 3 || |plan| == 4) && (|plan| == 4 <==> Removes(fs, op))
      && (if |plan| == 4 then Flipped(fs, fs1, op.stem) && plan[3] == Reindex else SameReady(fs, fs1))
      && (|plan| >= 3 ==> var fs2 := Apply(fs1, plan[1]); SameReady(fs1, fs2) && SameReady(fs2, Apply(fs2, plan[2])))
  {
    var plan := Plan(fs, op);
    var t := Target(fs, op.stem, op.dst, op.suffix);
    assert ValidId(op.stem) && !ValidId(INDEX.stem) && op.dst != Commands;
    hide Target, FreshSuffix, ValidId, Allowed;
    var fs1 := Apply(fs, plan[0]);
    JsonLeaves(fs, op.ch, op.stem, Path(op.dst, t, Json));
    if |plan| >= 3 {
      var fs2 := Apply(fs1, plan[1]);
      MarkerLeaves(fs1, op.ch, op.stem, Path(op.dst, t, Ready));
      OtherFiles(fs2, Apply(fs2, plan[2]));
    }
    hide SameReady, Flipped, CommandStems;
  }

  lemma JsonLeaves(fs: Files, ch: Channel, stem: string, to: Path)
    requires INDEX in fs && Path(ch, stem, Json) in fs && ValidId(stem) && to.channel != Commands
    ensures var r := Apply(fs, Rename(Path(ch, stem, Json), to));
      if ch == Commands && IsReady(fs, Commands, stem) then Flipped(fs, r, stem) else SameReady(fs, r)
  {
    var r := Apply(fs, Rename(Path(ch, stem, Json), to));
    assert !ValidId(INDEX.stem);
    if ch == Commands && IsReady(fs, Commands, stem) {
      hide ValidId;
      assert CommandStems(r) == Toggle(CommandStems(fs), stem);
    } else if ch == Commands {
      hide ValidId;
      assert CommandStems(r) == CommandStems(fs);
    } else {
      OtherFiles(fs, r);
    }
  }

  /** A marker alone does not make a command ready. */
  lemma MarkerLeaves(fs: Files, ch: Channel, stem: string, to: Path)
    requires INDEX in fs && Path(ch, stem, Ready) in fs && Path(ch, stem, Json) !in fs && to.channel != Commands
    ensures SameReady(fs, Apply(fs, Rename(Path(ch, stem, Ready), to)))
  {
    var r := Apply(fs, Rename(Path(ch, stem, Ready), to));
    hide ValidId;
    assert CommandStems(r) == CommandStems(fs);
  }

  lemma MoveStages(fs: Files, used: set<nat>, op: Op)
    requires op.Move? && Indexed(fs) && Allowed(used, fs, op) && Plan(fs, op) != []
    ensures var plan := Plan(fs, op);
      var fs1 := Apply(fs, plan[0]);
      var wrong := if |plan| == 4 then Toggle(Wrong(fs), op.stem) else Wrong(fs);
      && (|plan| == 1 || |plan| == 3 || |plan| == 4) && (|plan| == 4 <==> Removes(fs, op))
      && Indexed(fs1) && Wrong(fs1) == wrong
      && (|plan| >= 3 ==> var fs2 := Apply(fs1, plan[1]); var fs3 := Apply(fs2, plan[2]);
            && Indexed(fs2) && Wrong(fs2) == wrong && Indexed(fs3) && Wrong(fs3) == wrong
            && (|plan| == 4 ==> Indexed(Apply(fs3, plan[3])) && Wrong(Apply(fs3, plan[3])) == {}))
  {
    var plan := Plan(fs, op);
    MoveEffects(fs, used, op);
    hide Wrong, Toggle, CommandStems, Listing, Apply, Plan, SameReady, Flipped, Removes, Indexed, Allowed;
    var fs1 := Apply(fs, plan[0]);
    if |plan| == 4 {
      OneFlipped(fs, fs1, op.stem);
    } else {
      NothingFlipped(fs, fs1);
    }
    if |plan| >= 3 {
      var fs2 := Apply(fs1, plan[1]);
      NothingFlipped(fs1, fs2);
      NothingFlipped(fs2, Apply(fs2, plan[2]));
      RefreshedRight(Apply(fs2, plan[2]));
    }
  }

  lemma MoveAfter(fs: Files, op: Op, n: nat, wrong: set<string>)
    requires op.Move? && (|Plan(fs, op)| == 4 <==> Removes(fs, op))
    ensures After(fs, op, n, wrong) ==
      if n == 0 || |Plan(fs, op)| != 4 then wrong else if n >= 4 then {} else Toggle(wrong, op.stem)
  {
    hide Plan, Removes, Toggle;
  }

  lemma MoveIndex(fs: Files, used: set<nat>, op: Op, n: nat)
    requires op.Move? && Indexed(fs) && Allowed(used, fs, op) && Plan(fs, op) != []
    ensures Indexed(Exec(fs, Plan(fs, op), n)) && Wrong(Exec(fs, Plan(fs, op), n)) == After(fs, op, n, Wrong(fs))
  {
    hide *;
    MoveStages(fs, used, op);
    MoveAfter(fs, op, n, Wrong(fs));
    ExecPrefix(fs, Plan(fs, op), n);
  }

  /** One operation, cut off anywhere, changes exactly this about what the index is wrong about. */
  lemma OpIndex(fs: Files, used: set<nat>, op: Op, n: nat)
    requires Indexed(fs) && Allowed(used, fs, op)
    ensures Indexed(Exec(fs, Plan(fs, op), n)) && Wrong(Exec(fs, Plan(fs, op), n)) == After(fs, op, n, Wrong(fs))
  {
    if Plan(fs, op) == [] {
    } else if op.Reopen? {
      ReopenIndex(fs, op, n);
    } else {
      hide Indexed, Wrong, Exec, Plan, Allowed;
      if op.Publish? { PublishIndex(fs, op, n); } else { MoveIndex(fs, used, op, n); }
    }
  }

  /** An operation that finds the index exact leaves it exact, unless it is cut off in between. */
  lemma OpIndexIff(fs: Files, used: set<nat>, op: Op, n: nat)
    requires IndexExact(fs) && Allowed(used, fs, op)
    ensures IndexExact(Exec(fs, Plan(fs, op), n)) <==> !CutBefore(fs, op, n)
  {
    ExactIsIndexed(fs);
    OpIndex(fs, used, op, n);
    ExactIff(Exec(fs, Plan(fs, op), n));
    hide Indexed, Wrong, Exec, IndexExact, Allowed, Plan;
  }

  // ---- whole histories

  /** The stems that were cut off in this way an odd number of times since the index was last written. */
  function Drift(h: History, ops: seq<(Op, nat)>, wrong: set<string>): (r: set<string>)
    decreases |ops|
  {
    if ops == [] then wrong
    else Drift(Do(h, ops[0].0, ops[0].1), ops[1..], After(h.files, ops[0].0, ops[0].1, wrong))
  }

  /** Over every history of operations, each cut off anywhere, the index is wrong about exactly the drifted stems. */
  lemma {:induction false} WrongIsDrift(h: History, ops: seq<(Op, nat)>)
    requires Indexed(h.files) && Possible(h, ops)
    ensures Indexed(Play(h, ops).files) && Wrong(Play(h, ops).files) == Drift(h, ops, Wrong(h.files))
    decreases |ops|
  {
    hide Indexed, Wrong, Exec, Allowed, After, Plan;
    if ops != [] {
      OpIndex(h.files, h.used, ops[0].0, ops[0].1);
      WrongIsDrift(Do(h, ops[0].0, ops[0].1), ops[1..]);
    }
  }

  /** A history that starts with an exact index ends with one exactly if nothing has drifted. */
  lemma IndexExactIff(h: History, ops: seq<(Op, nat)>)
    requires IndexExact(h.files) && Possible(h, ops)
    ensures IndexExact(Play(h, ops).files) <==> Drift(h, ops, {}) == {}
  {
    ExactIsIndexed(h.files);
    WrongIsDrift(h, ops);
    ExactIff(Play(h, ops).files);
    hide Indexed, Wrong, IndexExact, Possible, Play, Drift;
  }

  // ---- the order of the index

  /** File names compare like their stems, unless one stem goes on where the other ends. */
  lemma {:induction false} SuffixOrder(a: seq<int>, b: seq<int>, suffix: seq<int>)
    requires LexLe(a, b) && a != b
    ensures LexLe(a + suffix, b + suffix) <==> !(a <= b && !LexLe(suffix, b[|a|..] + suffix))
    decreases |a|
  {
    if a == [] {
      assert [] + suffix == suffix && b[0..] == b;
    } else {
      assert a == [a[0]] + a[1..] && b == [b[0]] + b[1..];
      assert (a + suffix)[1..] == a[1..] + suffix && (b + suffix)[1..] == b[1..] + suffix;
      if a[0] == b[0] {
        SuffixOrder(a[1..], b[1..], suffix);
        assert a <= b <==> a[1..] <= b[1..];
        if a <= b {
          assert b[|a|..] == b[1..][|a[1..]|..];
        }
      }
    }
  }

  lemma CodesOf(a: string, b: string)
    ensures Codes(a + b) == Codes(a) + Codes(b)
    ensures Codes(a) <= Codes(b) <==> a <= b
    ensures a <= b ==> Codes(b)[|a|..] == Codes(b[|a|..])
  {
    if Codes(a) <= Codes(b) {
      forall i | 0 <= i < |a| ensures a[i] == b[i] {
        assert Codes(a)[i] == Codes(b)[i];
      }
    }
  }

  /** Of two command stems in their own order, the index names the second one first exactly if it continues the first
      one in such a way that `.ready` comes after the rest: by a dash, or by a dot and something that comes before. */
  lemma IndexOrderIff(a: string, b: string)
    requires a != b && StrLe(a, b) && ValidId(b)
    ensures StrLe(a + ".ready", b + ".ready") <==> !(a <= b && !StrLe(".ready", b[|a|..] + ".ready"))
    ensures a <= b && a != [] && b[|a|] != '.' ==> (StrLe(".ready", b[|a|..] + ".ready") <==> b[|a|] != '-')
  {
    CodesOf(a, ".ready");
    CodesOf(b, ".ready");
    CodesOf(a, b);
    assert Codes(a) != Codes(b) by {
      if Codes(a) == Codes(b) { CodesInjective(a, b); }
    }
    SuffixOrder(Codes(a), Codes(b), Codes(".ready"));
    if a <= b {
      assert a == b[..|a|] && |a| < |b|;
      CodesOf(b[|a|..], ".ready");
      var rest := Codes(b[|a|..] + ".ready");
      assert rest[0] == b[|a|] as int && Codes(".ready")[0] == '.' as int;
    }
  }
}
