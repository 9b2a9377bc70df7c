/** What is remote under the stem of a command that was archived: the command itself, or something older
    (goblin_zomboid/relay.py, SshFileRelay._publish_remote). */
module RelayContent {
  import opened Common
  import opened Protocol
  import opened RelayPush
  import opened RelayPass

  // ---- any run, with calls that fail and restarts

  /** This step puts the local content under the remote name. */
  predicate Uploads(s: Sys, a: Action, stem: string) {
    a.Call? && s.pc.MvJson? && s.pc.stem == stem && Took(a.reply)
  }

  predicate Uploaded(s: Sys, acts: seq<Action>, stem: string)
    decreases |acts|
  {
    acts != [] && (Uploads(s, acts[0], stem) || Uploaded(Step(s, acts[0]), acts[1..], stem))
  }

  /** The command is in the local queue all the time. */
  predicate Stays(s: Sys, acts: seq<Action>, stem: string)
    decreases |acts|
  {
    stem in s.localJson && (acts != [] ==> Stays(Step(s, acts[0]), acts[1..], stem))
  }

  lemma RunFrom(s: Sys, acts: seq<Action>, k: nat)
    requires acts != [] && k < |acts|
    ensures Run(s, acts[..k + 1]) == Run(Step(s, acts[0]), acts[1..][..k])
  {
    hide Step;
    assert acts[..k + 1][1..] == acts[1..][..k];
  }

  /** In every state of the run, that is. */
  lemma {:induction false} StaysIs(s: Sys, acts: seq<Action>, stem: string)
    ensures Stays(s, acts, stem) <==> forall k :: 0 <= k <= |acts| ==> stem in Run(s, acts[..k]).localJson
    decreases |acts|
  {
    hide Step;
    assert acts[..0] == [] && Run(s, []) == s;
    if acts != [] {
      StaysIs(Step(s, acts[0]), acts[1..], stem);
      hide Run, Stays;
      forall k | 0 <= k < |acts| ensures Run(s, acts[..k + 1]) == Run(Step(s, acts[0]), acts[1..][..k]) {
        RunFrom(s, acts, k);
      }
      assert Stays(s, acts, stem) <==> stem in s.localJson && Stays(Step(s, acts[0]), acts[1..], stem) by { StaysFrom(s, acts, stem); }
      if Stays(s, acts, stem) {
        forall k | 0 <= k <= |acts| ensures stem in Run(s, acts[..k]).localJson {
          if k > 0 { assert Run(s, acts[..(k - 1) + 1]) == Run(Step(s, acts[0]), acts[1..][..k - 1]); }
        }
      }
      if forall k :: 0 <= k <= |acts| ==> stem in Run(s, acts[..k]).localJson {
        assert stem in Run(s, acts[..0]).localJson;
        forall k | 0 <= k <= |acts[1..]| ensures stem in Run(Step(s, acts[0]), acts[1..][..k]).localJson {
          assert stem in Run(s, acts[..k + 1]).localJson;
        }
      }
    }
  }

  lemma StaysFrom(s: Sys, acts: seq<Action>, stem: string)
    requires acts != []
    ensures Stays(s, acts, stem) <==> stem in s.localJson && Stays(Step(s, acts[0]), acts[1..], stem)
  {
    hide Step;
  }

  /** The queue holds this command, and it is what the relay is sending if it is sending that stem. */
  ghost predicate Queued(s: Sys, stem: string, token: nat) {
    stem in s.localJson && s.localJson[stem] == token && (s.pc.MvJson? && s.pc.stem == stem ==> s.pc.token == token)
  }

  ghost predicate SameRemote(s: Sys, t: Sys, stem: string) {
    (stem in t.remoteJson <==> stem in s.remoteJson) && (stem in s.remoteJson ==> t.remoteJson[stem] == s.remoteJson[stem])
  }

  ghost predicate HasRemote(s: Sys, stem: string, token: nat) {
    stem in s.remoteJson && s.remoteJson[stem] == token
  }

  lemma AnswerContent(s: Sys, r: Reply, stem: string, token: nat)
    requires Queued(s, stem, token)
    ensures var t := Answer(s, r);
      && (stem in t.localJson ==> Queued(t, stem, token))
      && (if Uploads(s, Call(r), stem) then HasRemote(t, stem, token) else SameRemote(s, t, stem))
  {
    hide Loadable, PassStems;
  }

  lemma DecideContent(s: Sys, stem: string, token: nat)
    requires Queued(s, stem, token)
    ensures Queued(Decide(s), stem, token) && SameRemote(s, Decide(s), stem)
  {
    hide EncodedSize, ValidId;
  }

  lemma StepContent(s: Sys, a: Action, stem: string, token: nat)
    requires Queued(s, stem, token)
    ensures var t := Step(s, a);
      && (stem in t.localJson ==> Queued(t, stem, token))
      && (if Uploads(s, a, stem) then HasRemote(t, stem, token) else SameRemote(s, t, stem))
  {
    if a.Call? {
      AnswerContent(s, a.reply, stem, token);
      hide Answer;
    } else if a.Tau? {
      DecideContent(s, stem, token);
      hide Decide;
    } else {
      hide Answer, Decide, PassStems, ValidId;
    }
  }

  lemma {:induction false} RunContent(s: Sys, acts: seq<Action>, stem: string, token: nat)
    requires Queued(s, stem, token) && Stays(s, acts, stem)
    ensures var t := Run(s, acts);
      && Queued(t, stem, token)
      && (if Uploaded(s, acts, stem) then HasRemote(t, stem, token) else SameRemote(s, t, stem))
    decreases |acts|
  {
    if acts != [] {
      StepContent(s, acts[0], stem, token);
      var t := Step(s, acts[0]);
      hide Step, Uploads, Queued;
      assert stem in t.localJson by { assert Stays(t, acts[1..], stem); }
      RunContent(t, acts[1..], stem, token);
    }
  }

  /** In every run, whatever fails: when the command leaves the queue, what is remote under its stem is the command
      itself exactly if nothing else was there before, or it was sent all the same because a look at the remote
      file failed. */
  lemma DeliveredIff(s: Sys, acts: seq<Action>, a: Action, stem: string)
    requires Inv(s) && s.pc.Idle? && Stays(s, acts, stem) && stem !in Step(Run(s, acts), a).localJson
    ensures var t := Step(Run(s, acts), a); var token := s.localJson[stem];
      && (stem, token) in t.archived && stem in t.remoteJson
      && (t.remoteJson[stem] == token <==> stem !in s.remoteJson || s.remoteJson[stem] == token || Uploaded(s, acts, stem))
  {
    var token := s.localJson[stem];
    var u := Run(s, acts);
    RunContent(s, acts, stem, token);
    RunKeepsInv(s, acts);
    StepLeaves(u, a, stem);
    LeavingStep(u, a, stem);
    hide Inv, Step, Run, Uploaded, Stays;
  }

  /** A command leaves the queue only by being archived, which leaves the remote files alone. */
  lemma LeavingStep(u: Sys, a: Action, stem: string)
    requires stem in u.localJson && stem !in Step(u, a).localJson
    ensures (stem, u.localJson[stem]) in Step(u, a).archived && Step(u, a).remoteJson == u.remoteJson
  {
    DecideLeavesQueue(u);
    hide Decide, PassStems, Loadable;
  }

  // ---- a run that loses a command

  /** A relay beside empty directories. */
  const Fresh := Sys(map[], {}, map[], {}, [], None, Idle, {}, {})

  function Publish(stem: string, token: nat): (r: seq<Action>) {
    [PublishJson(stem, token), PublishReady(stem)]
  }

  /** A pass in which every call works. */
  function PassActions(s: Sys): (r: seq<Action>) {
    [Begin] + Steps(BeginPass(s), AllDone(), 0)
  }

  lemma {:induction false} RunCat(s: Sys, a: seq<Action>, b: seq<Action>)
    ensures Run(s, a + b) == Run(Run(s, a), b)
    decreases |a|
  {
    hide Step;
    if a == [] {
      assert a + b == b;
    } else {
      assert (a + b)[1..] == a[1..] + b;
      RunCat(Step(s, a[0]), a[1..], b);
    }
  }

  lemma PublishRuns(s: Sys, stem: string, token: nat)
    requires ValidId(stem) && stem !in s.localJson && stem !in s.localReady
    ensures Run(s, Publish(stem, token)) == s.(localJson := s.localJson[stem := token], localReady := s.localReady + {stem},
                                               published := s.published + {(stem, token)})
  {
    var s1 := Step(s, PublishJson(stem, token));
    assert s1 == s.(localJson := s.localJson[stem := token], published := s.published + {(stem, token)});
    assert Publish(stem, token)[1..] == [PublishReady(stem)] && [PublishReady(stem)][1..] == [];
    hide ValidId;
    assert Run(s, Publish(stem, token)) == Run(s1, [PublishReady(stem)]) == Step(s1, PublishReady(stem));
  }

  /** The relay knows and remote has at most this one stem. */
  ghost predicate OnlyStem(s: Sys, stem: string) {
    && Inv(s) && s.pc.Idle? && s.localJson == map[] && s.localReady == {}
    && (forall x :: x in s.remoteJson ==> x == stem)
  }

  lemma SmallIndex(s: Sys, stem: string)
    requires Inv(s) && s.pc.Idle? && forall x :: x in s.remoteJson ==> x == stem
    ensures |StartIndex(s)| <= 1
  {
    var c := StartIndex(s);
    assert Confirmed(s) == if s.cached.Some? then c else [];
    assert forall i :: 0 <= i < |c| ==> c[i] in s.remoteIndex;
    assert forall i :: 0 <= i < |c| ==> c[i] == stem;
    if |c| > 1 {
      FirstTwoDiffer(c);
      assert false;
    }
  }

  lemma FirstTwoDiffer(c: seq<string>)
    requires |c| > 1 && Loadable(c)
    ensures c[0] != c[1]
  {}

  /** Publishing one command and a pass over it: archived, and remote unless its stem was. */
  lemma PublishAndPass(s: Sys, stem: string, token: nat)
    requires ValidId(stem) && OnlyStem(s, stem)
    ensures var s1 := Run(s, Publish(stem, token)); var t := Run(s1, PassActions(s1));
      && OnlyStem(t, stem) && (stem, token) in t.archived && stem in t.remoteJson
      && t.remoteJson[stem] == if stem in s.remoteJson then s.remoteJson[stem] else token
  {
    var s1 := Run(s, Publish(stem, token));
    PublishRuns(s, stem, token);
    RunKeepsInv(s, Publish(stem, token));
    SmallIndex(s1, stem);
    OneListed(stem);
    assert s1.localReady == {stem} && s1.localJson == map[stem := token];
    assert PassStems(s1) == [stem];
    hide Inv, Run, Publish;
    HealthyPass(s1);
    PassIsRun(s1, AllDone(), 0, 0);
    SettleIsRun(BeginPass(s1), AllDone(), 0);
    var t := Pass(s1, AllDone(), 0).state;
    hide Steps, Settle, BeginPass, PassStems, Delivers;
    assert Ready(s1, stem);
    AdmittedOne(s1, StartIndex(s1), stem);
    hide ValidId, Ready;
    QueueDrained(s1, t, stem, token);
  }

  lemma AdmittedOne(s: Sys, index: seq<string>, stem: string)
    requires Ready(s, stem) && |index| < MAX_INDEX
    ensures Admitted(s, index, [stem]) == {stem}
  {
    hide Ready;
    assert [stem][1..] == [];
  }

  lemma QueueDrained(s: Sys, t: Sys, stem: string, token: nat)
    requires Delivers(s, [stem], {stem}, t) && Ready(s, stem) && s.localJson == map[stem := token] && s.localReady == {stem}
    ensures t.localJson == map[] && t.localReady == {} && (stem, token) in t.archived && stem in t.remoteJson
    ensures t.remoteJson[stem] == if stem in s.remoteJson then s.remoteJson[stem] else token
    ensures forall x :: x in t.remoteJson ==> x in s.remoteJson || x == stem
  {
    hide ValidId;
    assert stem in [stem];
    assert (stem, token) in Commands(s, {stem});
    assert forall x :: x in t.localJson ==> x in s.localJson;
  }

  lemma OneListed(stem: string)
    ensures Listing({stem}, ".ready") == [stem]
  {
    var r := Listing({stem}, ".ready");
    assert |r| == 1 && r[0] in r;
  }

  /** From a fresh start: a command is published and delivered, another one is published under the same stem,
      and is archived without ever being sent. */
  lemma ReusedStemIsLost(stem: string, first: nat, second: nat)
    requires ValidId(stem) && first != second
    ensures exists acts :: var t := Run(Fresh, acts);
      (stem, second) in t.archived && stem !in t.localJson && stem in t.remoteJson && t.remoteJson[stem] == first
  {
    FreshStart(map[], {}, {});
    assert OnlyStem(Fresh, stem);
    PublishAndPass(Fresh, stem, first);
    var s1 := Run(Fresh, Publish(stem, first));
    var s2 := Run(s1, PassActions(s1));
    PublishAndPass(s2, stem, second);
    var s3 := Run(s2, Publish(stem, second));
    hide Run, OnlyStem, Publish, PassActions;
    RunCat(Fresh, Publish(stem, first), PassActions(s1));
    RunCat(Fresh, Publish(stem, first) + PassActions(s1), Publish(stem, second));
    RunCat(Fresh, Publish(stem, first) + PassActions(s1) + Publish(stem, second), PassActions(s3));
    assert (Run(Fresh, Publish(stem, first) + PassActions(s1) + Publish(stem, second) + PassActions(s3))).localJson == map[] by {
      NothingQueued(Run(s3, PassActions(s3)), stem);
    }
  }

  lemma NothingQueued(s: Sys, stem: string)
    requires OnlyStem(s, stem)
    ensures s.localJson == map[]
  {}
}
