/** Pulling events: the relay's two loops over the names it finds on the game host, as written, and
    proved to be runs of EventDelivery (goblin_zomboid/relay.py, SshFileRelay.pull). */
module RelayPull {
  import opened Common
  import opened Protocol
  import opened EventDelivery
  import opened EventConsumer

  const MAX_NAMES := 256

  /** The local events directory, and the stems this process has gated itself. */
  datatype Mirror = Mirror(queue: map<string, Content>, ready: set<string>, seen: set<string>)

  /** How the copies of a stem's two files end, if they are tried. */
  datatype Copies = Copies(json: Option<Content>, marker: bool)

  /** The same for an item without a marker: the copy, whether the message decodes, whether the marker can be made. */
  datatype Gate = Gate(json: Option<Content>, decodes: bool, writes: bool)

  /** _pull_file without replacement: a local file is left as it is. */
  function CopyJson(m: Mirror, stem: string, got: Option<Content>): (r: Mirror) {
    if stem in m.queue || got.None? then m else m.(queue := m.queue[stem := got.value])
  }

  /** JSON first, then the marker. */
  function PullMarked(m: Mirror, stem: string, c: Copies): (r: (Mirror, bool)) {
    var m1 := CopyJson(m, stem, c.json);
    if stem !in m1.queue then (m1, false)
    else if stem in m1.ready || c.marker then (m1.(ready := m1.ready + {stem}), true)
    else (m1, false)
  }

  const EVENT_PREFIX := "event."

  predicate EventLike(c: Content) {
    c.Envelope? && EVENT_PREFIX <= c.message.kind
  }

  /** A JSON file without its marker gets one here, once it decodes to an event; true if the marker is new. */
  function PullUnmarked(m: Mirror, stem: string, g: Gate): (r: (Mirror, bool)) {
    if stem in m.seen then (m, false)
    else
      var m1 := CopyJson(m, stem, g.json);
      if stem !in m1.queue || !g.decodes || !EventLike(m1.queue[stem]) || !(stem in m1.ready || g.writes) then (m1, false)
      else (m1.(ready := m1.ready + {stem}, seen := m1.seen + {stem}), stem !in m1.ready)
  }

  function PullAllMarked(m: Mirror, stems: seq<string>, copies: string -> Copies): (r: (Mirror, nat))
    decreases |stems|
  {
    if stems == [] then (m, 0)
    else
      var (m1, ok) := PullMarked(m, stems[0], copies(stems[0]));
      var (m2, count) := PullAllMarked(m1, stems[1..], copies);
      (m2, if ok then count + 1 else count)
  }

  function PullAllUnmarked(m: Mirror, stems: seq<string>, gates: string -> Gate): (r: (Mirror, nat))
    decreases |stems|
  {
    if stems == [] then (m, 0)
    else
      var (m1, added) := PullUnmarked(m, stems[0], gates(stems[0]));
      var (m2, count) := PullAllUnmarked(m1, stems[1..], gates);
      (m2, if added then count + 1 else count)
  }

  /** The names that count among those `find` printed: at most 256, in that order. */
  function Taken(found: seq<string>, room: nat): (r: seq<string>)
    ensures |r| <= room && forall x :: x in r ==> x in found && ValidId(x)
    decreases |found|
  {
    if found == [] || room == 0 then []
    else if Usable(found[0]) then [found[0]] + Taken(found[1..], room - 1)
    else Taken(found[1..], room)
  }

  predicate Usable(stem: string) {
    ValidId(stem) && !("relaytmp-" <= stem)
  }

  lemma TakenNext(found: seq<string>, i: nat, room: nat, taken: seq<string>)
    requires i < |found| && room > 0
    ensures taken + Taken(found[i..], room)
         == if Usable(found[i]) then taken + [found[i]] + Taken(found[i + 1..], room - 1) else taken + Taken(found[i + 1..], room)
  {
    assert found[i..][1..] == found[i + 1..];
    hide ValidId;
  }

  lemma TakenEnds(found: seq<string>, i: nat, room: nat, taken: seq<string>)
    requires i <= |found| && (i == |found| || room == 0)
    ensures taken + Taken(found[i..], room) == taken
  {}

  function Elements(s: seq<string>): (r: set<string>) {
    set x | x in s
  }

  /** _remote_names: nothing if the call fails, otherwise the sorted names without repetition. */
  function Names(found: Option<seq<string>>, suffix: string): (r: seq<string>) {
    if found.None? then [] else Listing(Elements(Taken(found.value, MAX_NAMES)), suffix)
  }

  // ---- what each part does

  /** The names taken are the first usable ones, as many as there is room for. */
  lemma {:induction false} TakenIs(found: seq<string>, room: nat)
    ensures var usable := Filter(found, Usable); Taken(found, room) == if |usable| <= room then usable else usable[..room]
    decreases |found|
  {
    hide Usable;
    if found != [] && room > 0 {
      FilterFirst(found, Usable);
      var usable, rest := Filter(found, Usable), Filter(found[1..], Usable);
      if Usable(found[0]) {
        assert usable == [found[0]] + rest;
        assert |usable| > room ==> usable[..room] == [found[0]] + rest[..room - 1];
        TakenIs(found[1..], room - 1);
      } else {
        assert usable == rest;
        TakenIs(found[1..], room);
      }
      hide Filter;
    }
  }

  /** So the listing names exactly these, sorted by file name and each once, and nothing if the call failed. */
  lemma NamesAre(found: Option<seq<string>>, suffix: string)
    ensures var r := Names(found, suffix);
      && (found.None? ==> r == [])
      && (forall i, j :: 0 <= i < j < |r| ==> r[i] != r[j] && StrLe(r[i] + suffix, r[j] + suffix))
      && (found.Some? ==>
            var usable := Filter(found.value, Usable);
            forall x :: x in r <==> x in if |usable| <= 256 then usable else usable[..256])
  {
    if found.Some? { TakenIs(found.value, MAX_NAMES); }
    hide Listing, Usable, StrLe, Filter, Taken;
  }

  /** Everything about the other stems is as before. */
  ghost predicate Others(m: Mirror, r: Mirror, stem: string) {
    forall x :: x != stem ==>
      && (x in r.queue <==> x in m.queue) && (x in m.queue ==> r.queue[x] == m.queue[x])
      && (x in r.ready <==> x in m.ready) && (x in r.seen <==> x in m.seen)
  }

  predicate Fetched(m: Mirror, stem: string, got: Option<Content>) {
    stem in m.queue || got.Some?
  }

  function Fetch(m: Mirror, stem: string, got: Option<Content>): (c: Content)
    requires Fetched(m, stem, got)
  {
    if stem in m.queue then m.queue[stem] else got.value
  }

  /** The JSON is there afterwards if it was or is copied, never replaced; the marker if it was, or if it is copied and the
      JSON is there; and the item is counted exactly if both files are there. */
  lemma PullMarkedIs(m: Mirror, stem: string, c: Copies)
    ensures var (r, ok) := PullMarked(m, stem, c);
      && (stem in r.queue <==> Fetched(m, stem, c.json)) && (stem in r.queue ==> r.queue[stem] == Fetch(m, stem, c.json))
      && (stem in r.ready <==> stem in m.ready || (stem in r.queue && c.marker))
      && (ok <==> stem in r.queue && stem in r.ready)
      && r.seen == m.seen && Others(m, r, stem)
  {}

  /** Not gated before, there, decoding to an event, and the marker can be made if there is none. */
  predicate Gates(m: Mirror, stem: string, g: Gate) {
    && stem !in m.seen && Fetched(m, stem, g.json) && g.decodes && EventLike(Fetch(m, stem, g.json))
    && (stem in m.ready || g.writes)
  }

  /** A file without a marker gets one exactly if it is gated, and only a new marker is counted. */
  lemma PullUnmarkedIs(m: Mirror, stem: string, g: Gate)
    ensures var (r, added) := PullUnmarked(m, stem, g);
      && (stem in r.queue <==> stem in m.queue || (stem !in m.seen && g.json.Some?))
      && (stem in r.queue ==> Fetched(m, stem, g.json) && r.queue[stem] == Fetch(m, stem, g.json))
      && (stem in r.ready <==> stem in m.ready || Gates(m, stem, g))
      && (stem in r.seen <==> stem in m.seen || Gates(m, stem, g))
      && (added <==> Gates(m, stem, g) && stem !in m.ready)
      && Others(m, r, stem)
  {
    hide EventLike;
  }

  lemma EventLikeIs(c: Content)
    ensures EventLike(c) <==> c.Envelope? && |c.message.kind| >= 6 && c.message.kind[..6] == "event."
  {}

  predicate Distinct(stems: seq<string>) {
    forall i, j :: 0 <= i < j < |stems| ==> stems[i] != stems[j]
  }

  ghost predicate Alike(a: Mirror, b: Mirror, x: string) {
    && (x in a.queue <==> x in b.queue) && (x in a.queue ==> a.queue[x] == b.queue[x])
    && (x in a.ready <==> x in b.ready) && (x in a.seen <==> x in b.seen)
  }

  lemma AlikePull(a: Mirror, b: Mirror, x: string, c: Copies)
    requires Alike(a, b, x)
    ensures Alike(PullMarked(a, x, c).0, PullMarked(b, x, c).0, x)
  {}

  lemma OthersAlike(m: Mirror, stem: string, c: Copies, x: string)
    requires x != stem
    ensures Alike(m, PullMarked(m, stem, c).0, x)
  {}

  /** The stems of which both files are there. */
  function Both(m: Mirror, stems: seq<string>): (r: set<string>) {
    set x | x in stems && x in m.queue && x in m.ready
  }

  /** A loop over distinct stems: every one fares as if it were alone, and what is counted are those that are complete. */
  lemma {:induction false} AllMarkedAre(m: Mirror, stems: seq<string>, copies: string -> Copies)
    requires Distinct(stems)
    ensures var (r, count) := PullAllMarked(m, stems, copies);
      && (forall x :: x in stems ==> Alike(r, PullMarked(m, x, copies(x)).0, x))
      && (forall x :: x !in stems ==> Alike(r, m, x))
      && count == |Both(r, stems)|
    decreases |stems|
  {
    if stems == [] {
      assert Both(m, stems) == {};
    } else {
      var stem, rest := stems[0], stems[1..];
      var (m1, ok) := PullMarked(m, stem, copies(stem));
      assert stem !in rest && Distinct(rest) && stems == [stem] + rest;
      PullMarkedIs(m, stem, copies(stem));
      hide PullMarked, Distinct;
      AllMarkedAre(m1, rest, copies);
      var r := PullAllMarked(m1, rest, copies).0;
      forall x | x in rest ensures Alike(r, PullMarked(m, x, copies(x)).0, x) {
        OthersAlike(m, stem, copies(stem), x);
        AlikePull(m, m1, x, copies(x));
      }
      forall x | x !in stems ensures Alike(r, m, x) {
        OthersAlike(m, stem, copies(stem), x);
      }
      BothMore(r, stem, rest);
    }
  }

  lemma BothMore(r: Mirror, stem: string, rest: seq<string>)
    requires stem !in rest
    ensures Both(r, [stem] + rest) == Both(r, rest) + (if stem in r.queue && stem in r.ready then {stem} else {})
    ensures |Both(r, [stem] + rest)| == |Both(r, rest)| + if stem in r.queue && stem in r.ready then 1 else 0
  {
    assert Both(r, [stem] + rest) == Both(r, rest) + (if stem in r.queue && stem in r.ready then {stem} else {});
    assert stem !in Both(r, rest);
  }

  lemma AlikeGate(a: Mirror, b: Mirror, x: string, g: Gate)
    requires Alike(a, b, x)
    ensures Alike(PullUnmarked(a, x, g).0, PullUnmarked(b, x, g).0, x)
  {}

  lemma OthersAlikeGate(m: Mirror, stem: string, g: Gate, x: string)
    requires x != stem
    ensures Alike(m, PullUnmarked(m, stem, g).0, x)
  {}

  /** The stems whose marker is in r and not in m. */
  function NewReady(m: Mirror, r: Mirror, stems: seq<string>): (n: set<string>) {
    set x | x in stems && x in r.ready && x !in m.ready
  }

  lemma NewReadyMore(m: Mirror, m1: Mirror, r: Mirror, stem: string, rest: seq<string>)
    requires stem !in rest && (forall x :: x in rest ==> (x in m1.ready <==> x in m.ready))
    ensures |NewReady(m, r, [stem] + rest)| == |NewReady(m1, r, rest)| + if stem in r.ready && stem !in m.ready then 1 else 0
  {
    assert NewReady(m, r, [stem] + rest) == NewReady(m1, r, rest) + (if stem in r.ready && stem !in m.ready then {stem} else {});
    assert stem !in NewReady(m1, r, rest);
  }

  /** Likewise for files without markers; what is counted are the new markers. */
  lemma {:induction false} AllUnmarkedAre(m: Mirror, stems: seq<string>, gates: string -> Gate)
    requires Distinct(stems)
    ensures var (r, count) := PullAllUnmarked(m, stems, gates);
      && (forall x :: x in stems ==> Alike(r, PullUnmarked(m, x, gates(x)).0, x))
      && (forall x :: x !in stems ==> Alike(r, m, x))
      && count == |NewReady(m, r, stems)|
    decreases |stems|
  {
    if stems == [] {
      assert NewReady(m, m, stems) == {};
    } else {
      var stem, rest := stems[0], stems[1..];
      var (m1, added) := PullUnmarked(m, stem, gates(stem));
      assert stem !in rest && Distinct(rest) && stems == [stem] + rest;
      PullUnmarkedIs(m, stem, gates(stem));
      hide PullUnmarked, Distinct, Gates;
      AllUnmarkedAre(m1, rest, gates);
      var r := PullAllUnmarked(m1, rest, gates).0;
      forall x | x in rest ensures Alike(r, PullUnmarked(m, x, gates(x)).0, x) && Alike(m, m1, x) {
        OthersAlikeGate(m, stem, gates(stem), x);
        AlikeGate(m, m1, x, gates(x));
      }
      forall x | x !in stems ensures Alike(r, m, x) {
        OthersAlikeGate(m, stem, gates(stem), x);
      }
      NewReadyMore(m, m1, r, stem, rest);
    }
  }

  // ---- a pull is a run of the delivery protocol

  function MirrorOf(s: Sys): (r: Mirror) {
    Mirror(s.local.queue, s.local.ready, s.pulled)
  }

  /** A copy that arrives shows what the game has just written there. */
  function CopySteps(m: Mirror, stem: string, got: Option<Content>): (r: seq<Action>) {
    if stem in m.queue || got.None? then [] else [GameWrites(stem, got.value), PullJson(stem)]
  }

  function MarkedSteps(m: Mirror, stem: string, c: Copies): (r: seq<Action>) {
    CopySteps(m, stem, c.json) + if PullMarked(m, stem, c).1 then [PullMarker(stem)] else []
  }

  function UnmarkedSteps(m: Mirror, stem: string, g: Gate): (r: seq<Action>) {
    if stem in m.seen then []
    else CopySteps(m, stem, g.json) + if stem in PullUnmarked(m, stem, g).0.seen then [FallbackMarker(stem)] else []
  }

  /** Steps of the relay and the game only: they leave the ledger and what was handed out alone. */
  ghost predicate Outside(s: Sys, t: Sys) {
    && t.local.mem == s.local.mem && t.local.file == s.local.file && t.clock == s.clock && t.entered == s.entered
    && t.handed == s.handed && t.marked == s.marked && s.remote.Keys <= t.remote.Keys
  }

  lemma RunTwo(s: Sys, a: Action, b: Action, cfg: Config)
    ensures Run(s, [a, b], cfg) == Step(Step(s, a, cfg), b, cfg)
  {
    assert [a, b][..1] == [a];
    RunOne(s, a, cfg);
  }

  lemma CopyIsRun(s: Sys, stem: string, got: Option<Content>, cfg: Config)
    ensures var t := Run(s, CopySteps(MirrorOf(s), stem, got), cfg);
      MirrorOf(t) == CopyJson(MirrorOf(s), stem, got) && Outside(s, t)
  {
    if stem !in s.local.queue && got.Some? {
      RunTwo(s, GameWrites(stem, got.value), PullJson(stem), cfg);
    }
  }

  lemma MarkedIsRun(s: Sys, stem: string, c: Copies, cfg: Config)
    requires stem in s.marked
    ensures var t := Run(s, MarkedSteps(MirrorOf(s), stem, c), cfg);
      MirrorOf(t) == PullMarked(MirrorOf(s), stem, c).0 && Outside(s, t)
  {
    CopyIsRun(s, stem, c.json, cfg);
    var copy := CopySteps(MirrorOf(s), stem, c.json);
    var t := Run(s, copy, cfg);
    if PullMarked(MirrorOf(s), stem, c).1 {
      RunConcat(s, copy, [PullMarker(stem)], cfg);
      RunOne(t, PullMarker(stem), cfg);
    } else {
      assert copy + [] == copy;
    }
  }

  lemma UnmarkedIsRun(s: Sys, stem: string, g: Gate, cfg: Config)
    requires stem in s.remote && cfg.prefix == EVENT_PREFIX
    ensures var t := Run(s, UnmarkedSteps(MirrorOf(s), stem, g), cfg);
      MirrorOf(t) == PullUnmarked(MirrorOf(s), stem, g).0 && Outside(s, t)
  {
    if stem !in s.pulled {
      CopyIsRun(s, stem, g.json, cfg);
      var copy := CopySteps(MirrorOf(s), stem, g.json);
      var t := Run(s, copy, cfg);
      if stem in PullUnmarked(MirrorOf(s), stem, g).0.seen {
        RunConcat(s, copy, [FallbackMarker(stem)], cfg);
        RunOne(t, FallbackMarker(stem), cfg);
      } else {
        assert copy + [] == copy;
      }
    }
  }

  function AllMarkedSteps(m: Mirror, stems: seq<string>, copies: string -> Copies): (r: seq<Action>)
    decreases |stems|
  {
    if stems == [] then []
    else
      var c := copies(stems[0]);
      MarkedSteps(m, stems[0], c) + AllMarkedSteps(PullMarked(m, stems[0], c).0, stems[1..], copies)
  }

  function AllUnmarkedSteps(m: Mirror, stems: seq<string>, gates: string -> Gate): (r: seq<Action>)
    decreases |stems|
  {
    if stems == [] then []
    else
      var g := gates(stems[0]);
      UnmarkedSteps(m, stems[0], g) + AllUnmarkedSteps(PullUnmarked(m, stems[0], g).0, stems[1..], gates)
  }

  lemma {:induction false} AllMarkedIsRun(s: Sys, stems: seq<string>, copies: string -> Copies, cfg: Config)
    requires forall x :: x in stems ==> x in s.marked
    ensures var t := Run(s, AllMarkedSteps(MirrorOf(s), stems, copies), cfg);
      MirrorOf(t) == PullAllMarked(MirrorOf(s), stems, copies).0 && Outside(s, t)
    decreases |stems|
  {
    if stems != [] {
      hide Step, Run, PullMarked, MarkedSteps;
      var c := copies(stems[0]);
      MarkedIsRun(s, stems[0], c, cfg);
      var first := MarkedSteps(MirrorOf(s), stems[0], c);
      var t := Run(s, first, cfg);
      AllMarkedIsRun(t, stems[1..], copies, cfg);
      RunConcat(s, first, AllMarkedSteps(MirrorOf(t), stems[1..], copies), cfg);
    } else {
      hide Step;
    }
  }

  lemma {:induction false} AllUnmarkedIsRun(s: Sys, stems: seq<string>, gates: string -> Gate, cfg: Config)
    requires cfg.prefix == EVENT_PREFIX && forall x :: x in stems ==> x in s.remote
    ensures var t := Run(s, AllUnmarkedSteps(MirrorOf(s), stems, gates), cfg);
      MirrorOf(t) == PullAllUnmarked(MirrorOf(s), stems, gates).0 && Outside(s, t)
    decreases |stems|
  {
    if stems != [] {
      hide Step, Run, PullUnmarked, UnmarkedSteps;
      var g := gates(stems[0]);
      UnmarkedIsRun(s, stems[0], g, cfg);
      var first := UnmarkedSteps(MirrorOf(s), stems[0], g);
      var t := Run(s, first, cfg);
      AllUnmarkedIsRun(t, stems[1..], gates, cfg);
      RunConcat(s, first, AllUnmarkedSteps(MirrorOf(t), stems[1..], gates), cfg);
    } else {
      hide Step;
    }
  }

  /** Both loops, with what the two listings found. */
  function PullBoth(m: Mirror, marked: seq<string>, copies: string -> Copies, files: seq<string>, gates: string -> Gate): (r: (Mirror, nat)) {
    var (m1, n1) := PullAllMarked(m, marked, copies);
    var (m2, n2) := PullAllUnmarked(m1, files, gates);
    (m2, n1 + n2)
  }

  /** Whatever the game writes meanwhile and however the copies end, pulling the events is a run of the delivery
      protocol that hands nothing out, so what is proved about runs holds with pulls in between. */
  lemma PullIsRun(s: Sys, marked: seq<string>, copies: string -> Copies, files: seq<string>, gates: string -> Gate, cfg: Config)
    requires (forall x :: x in marked ==> x in s.marked) && forall x :: x in files ==> x in s.remote
    requires cfg.prefix == EVENT_PREFIX
    ensures var m1 := PullAllMarked(MirrorOf(s), marked, copies).0;
      var t := Run(s, AllMarkedSteps(MirrorOf(s), marked, copies) + AllUnmarkedSteps(m1, files, gates), cfg);
      MirrorOf(t) == PullBoth(MirrorOf(s), marked, copies, files, gates).0 && Outside(s, t)
  {
    hide Step, Run, PullAllMarked, PullAllUnmarked, AllMarkedSteps, AllUnmarkedSteps;
    AllMarkedIsRun(s, marked, copies, cfg);
    var first := AllMarkedSteps(MirrorOf(s), marked, copies);
    var t := Run(s, first, cfg);
    AllUnmarkedIsRun(t, files, gates, cfg);
    RunConcat(s, first, AllUnmarkedSteps(MirrorOf(t), files, gates), cfg);
  }

  // ---- what a pull keeps and what it achieves

  /** A pull adds files; it never replaces or removes one, and a new marker stands beside a JSON file. */
  ghost predicate OnlyAdds(m: Mirror, r: Mirror) {
    && (forall x :: x in m.queue ==> x in r.queue && r.queue[x] == m.queue[x])
    && m.ready <= r.ready && m.seen <= r.seen
    && (forall x :: x in r.ready && x !in m.ready ==> x in r.queue)
    && (forall x :: x in r.seen && x !in m.seen ==> x in r.ready && x in r.queue && EventLike(r.queue[x]))
  }

  lemma AddsMore(a: Mirror, b: Mirror, c: Mirror)
    requires OnlyAdds(a, b) && OnlyAdds(b, c)
    ensures OnlyAdds(a, c)
  {}

  lemma {:induction false} MarkedOnlyAdds(m: Mirror, stems: seq<string>, copies: string -> Copies)
    ensures var r := PullAllMarked(m, stems, copies).0; OnlyAdds(m, r) && r.seen == m.seen
    decreases |stems|
  {
    if stems != [] {
      var m1 := PullMarked(m, stems[0], copies(stems[0])).0;
      assert OnlyAdds(m, m1) && m1.seen == m.seen;
      hide OnlyAdds, PullMarked;
      MarkedOnlyAdds(m1, stems[1..], copies);
      AddsMore(m, m1, PullAllMarked(m1, stems[1..], copies).0);
    }
  }

  lemma {:induction false} UnmarkedOnlyAdds(m: Mirror, stems: seq<string>, gates: string -> Gate)
    ensures OnlyAdds(m, PullAllUnmarked(m, stems, gates).0)
    decreases |stems|
  {
    if stems != [] {
      var m1 := PullUnmarked(m, stems[0], gates(stems[0])).0;
      assert OnlyAdds(m, m1);
      hide OnlyAdds, PullUnmarked;
      UnmarkedOnlyAdds(m1, stems[1..], gates);
      AddsMore(m, m1, PullAllUnmarked(m1, stems[1..], gates).0);
    }
  }

  /** No marker is made here for a file that is no event: whatever becomes ready in the second loop decodes to one. */
  lemma {:induction false} GatedAreEvents(m: Mirror, stems: seq<string>, gates: string -> Gate)
    ensures var r := PullAllUnmarked(m, stems, gates).0;
      forall x :: x in r.ready && x !in m.ready ==> x in stems && x in r.queue && EventLike(r.queue[x]) && gates(x).decodes
    decreases |stems|
  {
    if stems != [] {
      var g := gates(stems[0]);
      var m1 := PullUnmarked(m, stems[0], g).0;
      assert m1.ready <= m.ready + {stems[0]};
      assert stems[0] in m1.ready && stems[0] !in m.ready ==> stems[0] in m1.queue && EventLike(m1.queue[stems[0]]) && g.decodes;
      GatedAreEvents(m1, stems[1..], gates);
      UnmarkedOnlyAdds(m1, stems[1..], gates);
      hide PullUnmarked, EventLike;
    }
  }

  /** When every copy works, all listed items are ready afterwards, however often they were archived before. */
  lemma {:induction false} HealthyPull(m: Mirror, stems: seq<string>, copies: string -> Copies)
    requires forall x :: x in stems ==> copies(x).json.Some? && copies(x).marker
    ensures var (r, count) := PullAllMarked(m, stems, copies);
      && count == |stems|
      && forall x :: x in stems ==>
           x in r.ready && x in r.queue && r.queue[x] == if x in m.queue then m.queue[x] else copies(x).json.value
    decreases |stems|
  {
    if stems != [] {
      var m1 := PullMarked(m, stems[0], copies(stems[0])).0;
      HealthyPull(m1, stems[1..], copies);
      MarkedOnlyAdds(m1, stems[1..], copies);
      forall x | x in stems[1..] ensures (if x in m1.queue then m1.queue[x] else copies(x).json.value)
        == if x in m.queue then m.queue[x] else copies(x).json.value {}
    }
  }

  // ---- the loops

  class Puller {
    var queue: map<string, Content>
    var ready: set<string>
    var remoteJsonSeen: set<string>

    ghost function View(): Mirror
      reads this
    {
      Mirror(queue, ready, remoteJsonSeen)
    }

    /** A new process: nothing gated yet. */
    constructor (queue: map<string, Content>, ready: set<string>)
      ensures View() == Mirror(queue, ready, {})
    {
      this.queue, this.ready, remoteJsonSeen := queue, ready, {};
    }

    /** True if the local file is there, copied or not. */
    method PullFile(stem: string, got: Option<Content>) returns (ok: bool)
      modifies this`queue
      ensures View() == CopyJson(old(View()), stem, got) && ok == (stem in queue)
    {
      if stem in queue {
        return true;
      }
      if got.None? {
        return false;
      }
      queue := queue[stem := got.value];
      ok := true;
    }

    static method RemoteNames(found: Option<seq<string>>, suffix: string) returns (names: seq<string>)
      ensures names == Names(found, suffix)
    {
      if found.None? {
        return [];
      }
      hide Taken, Listing, Usable, Elements;
      var taken: seq<string> := [];
      var i := 0;
      ghost var all := Taken(found.value, MAX_NAMES);
      assert [] + Taken(found.value[0..], MAX_NAMES) == all by { assert found.value[0..] == found.value; }
      while i < |found.value| && |taken| < MAX_NAMES
        invariant 0 <= i <= |found.value| && |taken| <= MAX_NAMES
        invariant all == taken + Taken(found.value[i..], MAX_NAMES - |taken|)
      {
        TakenNext(found.value, i, MAX_NAMES - |taken|, taken);
        if Usable(found.value[i]) {
          taken := taken + [found.value[i]];
        }
        i := i + 1;
      }
      TakenEnds(found.value, i, MAX_NAMES - |taken|, taken);
      names := Listing(Elements(taken), suffix);
    }

    method PullReadyChannel(stems: seq<string>, copies: string -> Copies) returns (count: nat)
      modifies this`queue, this`ready
      ensures (View(), count) == PullAllMarked(old(View()), stems, copies)
    {
      count := 0;
      var i := 0;
      assert stems[0..] == stems;
      while i < |stems|
        invariant 0 <= i <= |stems|
        invariant PullAllMarked(old(View()), stems, copies)
               == (var (m, more) := PullAllMarked(View(), stems[i..], copies); (m, count + more))
      {
        assert stems[i..][1..] == stems[i + 1..];
        ghost var before := View();
        var ok := PullFile(stems[i], copies(stems[i]).json);
        if ok && (stems[i] in ready || copies(stems[i]).marker) {
          ready := ready + {stems[i]};
          count := count + 1;
        }
        assert View() == PullMarked(before, stems[i], copies(stems[i])).0;
        i := i + 1;
      }
    }

    method PullJsonFallback(stems: seq<string>, gates: string -> Gate) returns (count: nat)
      modifies this
      ensures (View(), count) == PullAllUnmarked(old(View()), stems, gates)
    {
      count := 0;
      var i := 0;
      assert stems[0..] == stems;
      while i < |stems|
        invariant 0 <= i <= |stems|
        invariant PullAllUnmarked(old(View()), stems, gates)
               == (var (m, more) := PullAllUnmarked(View(), stems[i..], gates); (m, count + more))
      {
        assert stems[i..][1..] == stems[i + 1..];
        ghost var before := View();
        var counted := FallbackOne(stems[i], gates(stems[i]));
        if counted {
          count := count + 1;
        }
        assert (View(), counted) == PullUnmarked(before, stems[i], gates(stems[i]));
        hide PullUnmarked;
        i := i + 1;
      }
    }

    /** One name of the second loop; true if it is counted. */
    method FallbackOne(stem: string, g: Gate) returns (counted: bool)
      modifies this
      ensures (View(), counted) == PullUnmarked(old(View()), stem, g)
    {
      if stem in remoteJsonSeen {
        return false;
      }
      var ok := PullFile(stem, g.json);
      if !ok || !g.decodes || !EventLike(queue[stem]) {
        return false;
      }
      var already := stem in ready;
      if !already && !g.writes {
        return false;
      }
      ready := ready + {stem};
      remoteJsonSeen := remoteJsonSeen + {stem};
      counted := !already;
    }

    /** pull, for the events channel: first the items with markers, then the JSON files without. */
    method PullEvents(foundReady: Option<seq<string>>, copies: string -> Copies,
                      foundJson: Option<seq<string>>, gates: string -> Gate) returns (count: nat)
      modifies this
      ensures (View(), count) == PullBoth(old(View()), Names(foundReady, ".ready"), copies, Names(foundJson, ".json"), gates)
    {
      hide Names, PullAllMarked, PullAllUnmarked;
      var marked := RemoteNames(foundReady, ".ready");
      count := PullReadyChannel(marked, copies);
      var files := RemoteNames(foundJson, ".json");
      var more := PullJsonFallback(files, gates);
      count := count + more;
    }
  }
}
