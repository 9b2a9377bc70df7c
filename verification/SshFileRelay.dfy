/** The relay object itself: push and its helpers as written, proved to do what the protocol in
    RelayPush says for whatever the calls answer (goblin_zomboid/relay.py). */
module SshFileRelay {
  import opened Common
  import opened Protocol
  import opened RelayPass
  import opened RelayPush

  class Relay {
    var localJson: map<string, nat>
    var localReady: set<string>
    var remoteJson: map<string, nat>
    var remoteReady: set<string>
    var remoteIndex: seq<string>
    var cached: Option<seq<string>>

    /** How each call will end, and how many were made. */
    const replies: nat -> Reply
    var calls: nat

    ghost var published: set<(string, nat)>
    ghost var archived: set<(string, nat)>
    ghost var pc: Pc

    ghost function View(): Sys
      reads this
    {
      Sys(localJson, localReady, remoteJson, remoteReady, remoteIndex, cached, pc, published, archived)
    }

    /** How the pass will end from here. */
    ghost function Outlook(): Outcome
      reads this
    {
      Settle(View(), replies, calls)
    }

    constructor (start: Sys, replies: nat -> Reply)
      requires start.pc.Idle?
      ensures View() == start && this.replies == replies && calls == 0
    {
      localJson, localReady := start.localJson, start.localReady;
      remoteJson, remoteReady, remoteIndex := start.remoteJson, start.remoteReady, start.remoteIndex;
      cached, pc, published, archived := start.cached, start.pc, start.published, start.archived;
      this.replies, calls := replies, 0;
    }

    method TakeReply() returns (r: Reply)
      modifies this`calls
      ensures r == replies(old(calls)) && calls == old(calls) + 1
    {
      r := replies(calls);
      calls := calls + 1;
    }

    /** A decision that changes nothing but where the relay is. */
    ghost method Move()
      requires !Waits(pc) && !pc.Idle? && Decide(View()) == View().(pc := Decide(View()).pc)
      modifies this`pc
      ensures View() == Decide(old(View())) && Outlook() == old(Outlook())
    {
      hide Decide, Answer;
      pc := Decide(View()).pc;
    }

    /** A call that at most looks, copies to a temporary name or changes a mode. */
    method Ask() returns (ok: bool)
      requires Waits(pc) && !pc.ArcJson? && forall r :: Answer(View(), r) == View().(pc := Answer(View(), r).pc)
      modifies this`calls, this`pc
      ensures View() == Answer(old(View()), replies(old(calls))) && (ok <==> replies(old(calls)) == Done)
      ensures Outlook() == old(Outlook())
    {
      hide Decide, Answer;
      ghost var before := View();
      var r := TakeReply();
      assert Answer(before, r) == before.(pc := Answer(before, r).pc);
      pc := Answer(before, r).pc;
      assert View() == Answer(before, r);
      ok := r == Done;
    }

    /** `mv` of the uploaded JSON onto its remote name. */
    method RenameRemoteJson(stem: string, token: nat) returns (ok: bool)
      requires pc.MvJson? && pc.stem == stem && pc.token == token
      modifies this
      ensures View() == Answer(old(View()), replies(old(calls))) && (ok <==> replies(old(calls)) == Done)
      ensures Outlook() == old(Outlook())
    {
      hide Decide;
      ghost var before := View();
      var r := TakeReply();
      if r != Refused {
        remoteJson := remoteJson[stem := token];
      }
      pc := Answer(before, r).pc;
      assert View() == Answer(before, r);
      ok := r == Done;
    }

    method RenameRemoteReady(stem: string) returns (ok: bool)
      requires pc.MvReady? && pc.stem == stem
      modifies this
      ensures View() == Answer(old(View()), replies(old(calls))) && (ok <==> replies(old(calls)) == Done)
      ensures Outlook() == old(Outlook())
    {
      hide Decide;
      ghost var before := View();
      var r := TakeReply();
      if r != Refused {
        remoteReady := remoteReady + {stem};
      }
      pc := Answer(before, r).pc;
      assert View() == Answer(before, r);
      ok := r == Done;
    }

    /** Nothing but the remote files and the relay's place in the protocol has changed. */
    twostate predicate OnlyRemoteFiles()
      reads this
    {
      View() == old(View()).(remoteJson := remoteJson, remoteReady := remoteReady, pc := pc)
    }

    /** JSON first: true once the remote JSON exists. */
    method PublishJson(stem: string, ghost rest: seq<string>) returns (ok: bool)
      requires pc == HasJson(stem, rest) && stem in localJson
      modifies this
      ensures Outlook() == old(Outlook()) && OnlyRemoteFiles()
      ensures pc == if ok then HasReady(stem, rest) else Next(rest)
    {
      hide Settle, Decide, Loadable, PassStems;
      var answered := Ask();
      if answered && stem in remoteJson {
        return true;
      }
      hide Answer;
      ok := UploadJson(stem, rest);
    }

    /** Up under a temporary name, into place, and readable. */
    method UploadJson(stem: string, ghost rest: seq<string>) returns (ok: bool)
      requires pc == UpJson(stem, rest) && stem in localJson
      modifies this
      ensures Outlook() == old(Outlook()) && OnlyRemoteFiles()
      ensures pc == if ok then HasReady(stem, rest) else Next(rest)
    {
      hide Settle, Decide, Loadable, PassStems;
      ok := Ask();
      if !ok {
        return;
      }
      ok := RenameRemoteJson(stem, localJson[stem]);
      if !ok {
        return;
      }
      ok := Ask();
    }

    /** Then the marker. */
    method PublishMarker(stem: string, ghost rest: seq<string>) returns (ok: bool)
      requires pc == HasReady(stem, rest)
      modifies this
      ensures Outlook() == old(Outlook()) && OnlyRemoteFiles()
      ensures pc == if ok then EndJson(stem, rest) else Next(rest)
    {
      hide Settle, Decide, Loadable, PassStems;
      var answered := Ask();
      if answered && stem in remoteReady {
        return true;
      }
      hide Answer;
      ok := UploadMarker(stem, rest);
    }

    method UploadMarker(stem: string, ghost rest: seq<string>) returns (ok: bool)
      requires pc == UpReady(stem, rest)
      modifies this
      ensures Outlook() == old(Outlook()) && OnlyRemoteFiles()
      ensures pc == if ok then EndJson(stem, rest) else Next(rest)
    {
      hide Settle, Decide, Loadable, PassStems;
      ok := Ask();
      if !ok {
        return;
      }
      ok := RenameRemoteReady(stem);
      if !ok {
        return;
      }
      ok := Ask();
    }

    /** Both files are looked for once more. */
    method ConfirmRemote(stem: string, ghost rest: seq<string>) returns (ok: bool)
      requires pc == EndJson(stem, rest)
      modifies this
      ensures Outlook() == old(Outlook()) && OnlyRemoteFiles()
      ensures pc == if ok then Published(stem, rest) else Next(rest)
      ensures ok ==> stem in remoteJson && stem in remoteReady
    {
      hide Settle, Decide;
      var answered := Ask();
      if !answered || stem !in remoteJson {
        return false;
      }
      answered := Ask();
      ok := answered && stem in remoteReady;
    }

    /** _publish_remote: both files, checked again at the end. */
    method PublishRemote(stem: string, ghost rest: seq<string>) returns (ok: bool)
      requires ValidId(stem) && pc == Next([stem] + rest)
      modifies this
      ensures Outlook() == old(Outlook()) && OnlyRemoteFiles()
      ensures pc == if ok then Published(stem, rest) else Next(rest)
      ensures ok ==> stem in remoteJson && stem in remoteReady
    {
      hide Settle, Answer;
      assert ([stem] + rest)[1..] == rest;
      Move();
      hide Decide;
      if stem !in localJson || stem !in localReady {
        return false;
      }
      ok := PublishJson(stem, rest);
      if !ok {
        return;
      }
      ok := PublishMarker(stem, rest);
      if !ok {
        return;
      }
      ok := ConfirmRemote(stem, rest);
    }

    method RenameRemoteIndex() returns (ok: bool)
      requires pc.MvIndex? && cached.Some?
      modifies this
      ensures Outlook() == old(Outlook())
      ensures View() == old(View()).(remoteIndex := remoteIndex, pc := pc)
      ensures pc == if ok then ChIndex(old(pc).stem, old(pc).rest) else PopIndex(old(pc).stem, old(pc).rest)
      ensures remoteIndex == cached.value || (!ok && remoteIndex == old(remoteIndex))
    {
      hide Decide;
      ghost var before := View();
      var r := TakeReply();
      if r != Refused {
        remoteIndex := cached.value;
      }
      pc := Answer(before, r).pc;
      assert View() == Answer(before, r);
      ok := r == Done;
    }

    /** _write_remote_command_index: uploads the cached list, moves it into place, makes it readable. */
    method WriteRemoteCommandIndex(stem: string, ghost rest: seq<string>) returns (ok: bool)
      requires pc == FitIndex(stem, rest) && cached.Some?
      modifies this
      ensures Outlook() == old(Outlook())
      ensures View() == old(View()).(remoteIndex := remoteIndex, pc := pc)
      ensures pc == if ok then ArcJson(stem, rest) else PopIndex(stem, rest)
      ensures remoteIndex == cached.value || (!ok && remoteIndex == old(remoteIndex))
    {
      hide Settle, EncodedSize;
      Move();
      hide Decide;
      if EncodedSize(cached.value) > MAX_INDEX_BYTES {
        return false;
      }
      ok := Ask();
      if !ok {
        return;
      }
      ok := RenameRemoteIndex();
      if !ok {
        return;
      }
      ok := Ask();
    }

    /** The first rename of archiving; this is where the command is counted. */
    method RenameLocalJson(stem: string, ghost rest: seq<string>) returns (ok: bool)
      requires pc == ArcJson(stem, rest)
      modifies this
      ensures old(Outlook()) == Outlook().(count := Outlook().count + 1)
      ensures View() == old(View()).(localJson := localJson, archived := archived, pc := pc)
      ensures pc == if ok then ArcReady(stem, rest) else Next(rest)
      ensures localJson == old(localJson) - {stem} || (!ok && localJson == old(localJson))
    {
      hide Decide;
      ghost var before := View();
      var r := TakeReply();
      if stem !in localJson {
        pc := Answer(before, r).pc;
        assert View() == Answer(before, r);
        assert localJson - {stem} == localJson;
        return true;
      }
      if r != Refused {
        archived := archived + {(stem, localJson[stem])};
        localJson := localJson - {stem};
      }
      pc := Answer(before, r).pc;
      assert View() == Answer(before, r);
      ok := r == Done;
    }

    method RenameLocalReady(stem: string, ghost rest: seq<string>)
      requires pc == ArcReady(stem, rest)
      modifies this
      ensures Outlook() == old(Outlook())
      ensures View() == old(View()).(localReady := localReady, pc := Next(rest))
      ensures localReady == old(localReady) || localReady == old(localReady) - {stem}
    {
      hide Decide;
      ghost var before := View();
      var r := TakeReply();
      if r != Refused {
        localReady := localReady - {stem};
      }
      pc := Answer(before, r).pc;
      assert View() == Answer(before, r);
    }

    /** _archive_local_command: JSON, then marker; stops at the first rename that raises. */
    method ArchiveLocalCommand(stem: string, ghost rest: seq<string>)
      requires pc == ArcJson(stem, rest)
      modifies this
      ensures old(Outlook()) == Outlook().(count := Outlook().count + 1) && pc == Next(rest)
      ensures View() == old(View()).(localJson := localJson, localReady := localReady, archived := archived, pc := pc)
      ensures localJson == old(localJson) || localJson == old(localJson) - {stem}
      ensures localReady == old(localReady) || (localReady == old(localReady) - {stem} && localJson == old(localJson) - {stem})
    {
      hide Settle, Answer, Decide;
      var ok := RenameLocalJson(stem, rest);
      if ok {
        RenameLocalReady(stem, rest);
      }
    }

    /** _load_remote_command_index, at the start of a pass. */
    method LoadRemoteCommandIndex() returns (ok: bool)
      requires pc.Idle?
      modifies this
      ensures Outlook() == Pass(old(View()), replies, old(calls)) && ok == cached.Some?
      ensures View() == old(View()).(cached := cached, pc := pc)
      ensures pc == if ok then Next(PassStems(View())) else Idle
      ensures old(cached).Some? ==> cached == old(cached)
      ensures old(cached).None? && ok ==> cached == Some(remoteIndex) && Loadable(remoteIndex)
    {
      hide Decide, Settle;
      pc := BeginPass(View()).pc;
      assert View() == BeginPass(old(View()));
      if cached.Some? {
        return true;
      }
      ghost var middle := View();
      var r := TakeReply();
      if r == Done && Loadable(remoteIndex) {
        cached := Some(remoteIndex);
      }
      OneCall(middle, replies, old(calls));
      pc := Answer(middle, r).pc;
      assert View() == Answer(middle, r);
      ok := cached.Some?;
    }

    method AppendStem(stem: string, ghost rest: seq<string>)
      requires pc == Published(stem, rest) && cached.Some? && stem !in cached.value && |cached.value| < MAX_INDEX
      modifies this`cached, this`pc
      ensures Outlook() == old(Outlook())
      ensures View() == old(View()).(cached := Some(old(cached).value + [stem]), pc := FitIndex(stem, rest))
    {
      hide Answer, EncodedSize, Settle;
      ghost var before := View();
      cached := Some(cached.value + [stem]);
      pc := Decide(before).pc;
      OneDecision(before, replies, calls);
      assert View() == Decide(before);
    }

    method PopStem(stem: string, ghost rest: seq<string>)
      requires pc == PopIndex(stem, rest) && cached.Some? && cached.value != []
      modifies this`cached, this`pc
      ensures Outlook() == old(Outlook())
      ensures View() == old(View()).(cached := Some(old(cached).value[..|old(cached).value| - 1]), pc := Next(rest))
    {
      hide Answer, EncodedSize, Settle;
      ghost var before := View();
      cached := Some(cached.value[..|cached.value| - 1]);
      pc := Decide(before).pc;
      OneDecision(before, replies, calls);
      assert View() == Decide(before);
    }

    /** Adds the stem to the cached index and writes it out; on failure takes it back. */
    method IndexCommand(stem: string, ghost rest: seq<string>) returns (ok: bool)
      requires pc == Published(stem, rest) && cached.Some?
      modifies this
      ensures Outlook() == old(Outlook())
      ensures cached.Some? && pc == if ok then ArcJson(stem, rest) else Next(rest)
      ensures View() == old(View()).(cached := cached, remoteIndex := remoteIndex, pc := pc)
      ensures ok ==> stem in cached.value
      ensures !ok ==> cached == old(cached)
    {
      hide Answer, EncodedSize, Settle;
      if stem in cached.value {
        Move();
        return true;
      }
      if |cached.value| >= MAX_INDEX {
        Move();
        return false;
      }
      hide Decide;
      AppendStem(stem, rest);
      ok := WriteRemoteCommandIndex(stem, rest);
      if !ok {
        PopStem(stem, rest);
        assert cached == old(cached);
      }
    }

    /** One listed stem of push; true if it was counted. */
    method PushOne(stem: string, ghost rest: seq<string>) returns (counted: bool)
      requires pc == Next([stem] + rest) && cached.Some?
      modifies this
      ensures old(Outlook()) == Outlook().(count := Outlook().count + if counted then 1 else 0)
      ensures pc == Next(rest) && cached.Some?
      ensures counted ==> stem in remoteJson && stem in remoteReady && stem in cached.value
      ensures !counted ==> localJson == old(localJson) && localReady == old(localReady) && archived == old(archived)
    {
      hide Settle;
      if !ValidId(stem) {
        assert ([stem] + rest)[1..] == rest;
        Move();
        return false;
      }
      hide Answer, Decide;
      counted := PublishRemote(stem, rest);
      if !counted {
        return;
      }
      counted := IndexCommand(stem, rest);
      if !counted {
        return;
      }
      ArchiveLocalCommand(stem, rest);
    }

    /** push: the pass ends where the protocol says, and counts the commands that came up to archiving. */
    method Push() returns (count: nat)
      requires pc.Idle?
      modifies this
      ensures Outcome(View(), calls, count) == Pass(old(View()), replies, old(calls))
    {
      hide Answer, Decide;
      var ok := LoadRemoteCommandIndex();
      if !ok {
        return 0;
      }
      var all := Listing(localReady, ".ready");
      var stems := if |all| <= MAX_PER_PASS then all else all[..MAX_PER_PASS];
      assert stems == PassStems(View());
      count := PushListed(stems);
    }

    method PushListed(stems: seq<string>) returns (count: nat)
      requires pc == Next(stems) && cached.Some?
      modifies this
      ensures Outcome(View(), calls, count) == old(Outlook())
    {
      count := 0;
      var i := 0;
      assert stems[0..] == stems;
      while i < |stems|
        invariant 0 <= i <= |stems|
        invariant old(Outlook()) == Outlook().(count := Outlook().count + count)
        invariant pc == Next(stems[i..]) && cached.Some?
      {
        hide Answer, Decide, Settle;
        assert stems[i..] == [stems[i]] + stems[i + 1..];
        var counted := PushOne(stems[i], stems[i + 1..]);
        if counted {
          count := count + 1;
        }
        i := i + 1;
      }
      Move();
    }
  }
}
