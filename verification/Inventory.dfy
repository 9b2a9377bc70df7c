/** The checksummed inventory snapshot and the rule that a body restores before it saves
    (server-java ServerSupport.java). */
module Inventory {
  import opened Common

  newtype Byte = b: int | 0 <= b < 256

  type Bytes = seq<Byte>

  const MAGIC := 0x474F4249
  const MAX_INVENTORY := 8 * 1024 * 1024
  const HEADER := 44
  const INT_LIMIT := 0x8000_0000

  // ---- big-endian signed integers

  predicate Int32(n: int) {
    -INT_LIMIT <= n < INT_LIMIT
  }

  function PutInt(n: int): (r: Bytes)
    requires Int32(n)
    ensures |r| == 4
  {
    var u := if n < 0 then n + 2 * INT_LIMIT else n;
    [(u / 0x1000000) as Byte, (u / 0x10000 % 256) as Byte, (u / 256 % 256) as Byte, (u % 256) as Byte]
  }

  function GetInt(b: Bytes): (n: int)
    requires |b| == 4
    ensures Int32(n)
  {
    var u := ((b[0] as int * 256 + b[1] as int) * 256 + b[2] as int) * 256 + b[3] as int;
    if u >= INT_LIMIT then u - 2 * INT_LIMIT else u
  }

  lemma GetPut(n: int)
    requires Int32(n)
    ensures GetInt(PutInt(n)) == n
  {
    var u := if n < 0 then n + 2 * INT_LIMIT else n;
    assert u / 0x10000 == u / 0x1000000 * 256 + u / 0x10000 % 256 by { Nested(u, 0x10000); }
    assert u / 256 == u / 0x10000 * 256 + u / 256 % 256 by { Nested(u, 256); }
    assert u == u / 256 * 256 + u % 256;
  }

  lemma Nested(u: nat, d: nat)
    requires d == 256 || d == 0x10000
    ensures u / d / 256 == u / (d * 256)
  {
    if d == 256 {
      assert u / 256 / 256 == u / 65536;
    } else {
      assert u / 65536 / 256 == u / 16777216;
    }
  }

  lemma PutGet(b: Bytes)
    requires |b| == 4
    ensures PutInt(GetInt(b)) == b
  {
    var u := ((b[0] as int * 256 + b[1] as int) * 256 + b[2] as int) * 256 + b[3] as int;
    assert u % 256 == b[3] as int;
    assert u / 256 == (b[0] as int * 256 + b[1] as int) * 256 + b[2] as int;
    assert u / 256 / 256 == b[0] as int * 256 + b[1] as int;
    assert u / 0x10000 == b[0] as int * 256 + b[1] as int;
    assert u / 0x10000 / 256 == b[0] as int;
    assert u / 0x1000000 == b[0] as int;
  }

  // ---- the envelope

  /** SHA-256 is taken as some function to 32 bytes. */
  ghost predicate Digest(hash: Bytes -> Bytes) {
    forall b: Bytes :: |hash(b)| == 32
  }

  function Envelope(payload: Bytes, version: int, hash: Bytes -> Bytes): (r: Bytes)
    requires Int32(version) && |payload| < INT_LIMIT
  {
    PutInt(MAGIC) + PutInt(version) + PutInt(|payload|) + hash(payload) + payload
  }

  /** payload: the bytes inside, if they are whole, in a version of now or before, and match their checksum. */
  function Payload(bytes: Bytes, current: int, hash: Bytes -> Bytes): (r: Option<Bytes>) {
    if |bytes| < HEADER || |bytes| > MAX_INVENTORY + HEADER then None
    else if GetInt(bytes[..4]) != MAGIC then None
    else if GetInt(bytes[4..8]) < 1 || GetInt(bytes[4..8]) > current then None
    else if GetInt(bytes[8..12]) != |bytes| - 12 - 32 then None
    else if bytes[12..44] != hash(bytes[44..]) then None
    else Some(bytes[44..])
  }

  /** The same with a cursor that moves over the buffer. */
  method ReadPayload(bytes: Bytes, current: int, hash: Bytes -> Bytes) returns (r: Option<Bytes>)
    ensures r == Payload(bytes, current, hash)
  {
    hide GetInt;
    if |bytes| < HEADER || |bytes| > MAX_INVENTORY + HEADER {
      return None;
    }
    var at := 0;
    var magic := GetInt(bytes[at..at + 4]);
    at := at + 4;
    if magic != MAGIC {
      return None;
    }
    var saved := GetInt(bytes[at..at + 4]);
    at := at + 4;
    if saved < 1 || saved > current {
      return None;
    }
    var length := GetInt(bytes[at..at + 4]);
    at := at + 4;
    if length != |bytes| - at - 32 {
      return None;
    }
    var digest := bytes[at..at + 32];
    at := at + 32;
    var body := bytes[at..at + length];
    assert body == bytes[44..];
    if digest != hash(body) {
      return None;
    }
    r := Some(body);
  }

  lemma EnvelopeParts(payload: Bytes, version: int, hash: Bytes -> Bytes)
    requires Int32(version) && |payload| < INT_LIMIT && Digest(hash)
    ensures var e := Envelope(payload, version, hash);
      && |e| == HEADER + |payload| && e[..4] == PutInt(MAGIC) && e[4..8] == PutInt(version)
      && e[8..12] == PutInt(|payload|) && e[12..44] == hash(payload) && e[44..] == payload
  {
    hide PutInt;
  }

  /** Reading an envelope gives back what was put in, exactly for the versions and sizes that are allowed. */
  lemma PayloadOfEnvelope(payload: Bytes, version: int, current: int, hash: Bytes -> Bytes)
    requires Int32(version) && |payload| < INT_LIMIT && Digest(hash)
    ensures Payload(Envelope(payload, version, hash), current, hash) ==
      if 1 <= version <= current && |payload| <= MAX_INVENTORY then Some(payload) else None
  {
    EnvelopeParts(payload, version, hash);
    GetPut(MAGIC);
    GetPut(version);
    GetPut(|payload|);
    hide PutInt, GetInt, Envelope, Digest;
  }

  /** Whatever is accepted is an envelope, of exactly the payload that is returned. */
  lemma AcceptedIsEnvelope(bytes: Bytes, current: int, hash: Bytes -> Bytes)
    requires Digest(hash) && Payload(bytes, current, hash).Some?
    ensures var p := Payload(bytes, current, hash).value;
      |p| <= MAX_INVENTORY && exists v :: 1 <= v <= current && Int32(v) && bytes == Envelope(p, v, hash)
  {
    var v, p := GetInt(bytes[4..8]), bytes[44..];
    PutGet(bytes[..4]);
    PutGet(bytes[4..8]);
    PutGet(bytes[8..12]);
    hide PutInt, GetInt;
    assert bytes == bytes[..4] + bytes[4..8] + bytes[8..12] + bytes[12..44] + bytes[44..];
    assert bytes == Envelope(p, v, hash);
  }

  // ---- restoring and saving

  datatype Io = Written | Failed | WrittenButFailed

  datatype Status = Ready | New | Restored | NotRestored | Unchanged | Saved | Error

  /** Which identity each body restored, the digest each body last saved, and the snapshot files by identity. */
  datatype State = State(restored: map<nat, string>, hashes: map<nat, Bytes>, files: map<string, Bytes>)

  /** A call on a body and an identity, with what the world decides: whether the body is that goblin, the world
      version, whether the items load completely, what the inventory serializes to, and how the write ends.
      A body can also be forgotten by both tables. */
  datatype Action =
    | Restore(body: nat, id: string, known: bool, current: int, loads: bool)
    | Save(body: nat, id: string, known: bool, payload: Option<Bytes>, version: int, io: Io)
    | Forget(body: nat)

  predicate Sensible(a: Action) {
    a.Save? ==> Int32(a.version) && (a.payload.Some? ==> |a.payload.value| <= MAX_INVENTORY)
  }

  function Step(s: State, a: Action, hash: Bytes -> Bytes): (r: (State, Status))
    requires Sensible(a)
  {
    match a
    case Restore(body, id, known, current, loads) =>
      if !known then (s, Error)
      else if body in s.restored && s.restored[body] == id then (s, Ready)
      else if id !in s.files then (s.(restored := s.restored[body := id]), New)
      else if Payload(s.files[id], current, hash).None? || !loads then (s, Error)
      else (s.(restored := s.restored[body := id]), Restored)
    case Forget(body) => (s.(restored := s.restored - {body}, hashes := s.hashes - {body}), Ready)
    case Save(body, id, known, payload, version, io) =>
      if !known then (s, Error)
      else if body !in s.restored || s.restored[body] != id then (s, NotRestored)
      else if payload.None? then (s, Error)
      else if body in s.hashes && s.hashes[body] == hash(payload.value) then (s, Unchanged)
      else
        var files := s.files[id := Envelope(payload.value, version, hash)];
        match io
        case Failed => (s, Error)
        case Written => (s.(files := files, hashes := s.hashes[body := hash(payload.value)]), Saved)
        case WrittenButFailed => (s.(files := files), Error)
  }

  ghost predicate AllSensible(actions: seq<Action>) {
    forall k :: 0 <= k < |actions| ==> Sensible(actions[k])
  }

  function Start(files: map<string, Bytes>): (s: State) {
    State(map[], map[], files)
  }

  ghost function Run(files: map<string, Bytes>, actions: seq<Action>, hash: Bytes -> Bytes): (s: State)
    requires AllSensible(actions)
    decreases |actions|
  {
    if actions == [] then Start(files)
    else Step(Run(files, actions[..|actions| - 1], hash), actions[|actions| - 1], hash).0
  }

  // ---- what each call does

  /** The body is marked as restored under this identity. */
  predicate Marked(s: State, body: nat, id: string) {
    body in s.restored && s.restored[body] == id
  }

  /** Nothing is lost by going on: there is no snapshot of this identity, or it was read and its items loaded. */
  predicate Enters(files: map<string, Bytes>, a: Action, hash: Bytes -> Bytes) {
    a.Restore? && a.known && (a.id !in files || (Payload(files[a.id], a.current, hash).Some? && a.loads))
  }

  /** Everything but the mark of this body is as before. */
  ghost predicate OnlyMark(s: State, t: State, body: nat) {
    && t.files == s.files && t.hashes == s.hashes
    && forall b :: b != body ==> (b in t.restored <==> b in s.restored) && (b in s.restored ==> t.restored[b] == s.restored[b])
  }

  /** A body the game forgets has to be restored and saved anew; nothing else changes. */
  lemma ForgetIs(s: State, body: nat, hash: Bytes -> Bytes, b: nat, id: string, digest: Bytes)
    ensures var t := Step(s, Forget(body), hash).0;
      && t.files == s.files
      && (Marked(t, b, id) <==> b != body && Marked(s, b, id))
      && (Remembers(t, b, digest) <==> b != body && Remembers(s, b, digest))
  {}

  /** A restore marks the body exactly if there is no snapshot or the snapshot was read and loaded completely, and the
      answer says which: a snapshot that is damaged or does not load is an error and marks nobody. */
  lemma RestoreIff(s: State, a: Action, hash: Bytes -> Bytes)
    requires a.Restore?
    ensures var (t, r) := Step(s, a, hash);
      && OnlyMark(s, t, a.body)
      && (Marked(t, a.body, a.id) <==> Marked(s, a.body, a.id) || Enters(s.files, a, hash))
      && (!Marked(t, a.body, a.id) ==> t == s)
      && (r == Ready <==> a.known && Marked(s, a.body, a.id))
      && (r == New <==> a.known && !Marked(s, a.body, a.id) && a.id !in s.files)
      && (r == Restored <==> !Marked(s, a.body, a.id) && a.id in s.files && Enters(s.files, a, hash))
      && (r == Error <==> !a.known || (!Marked(s, a.body, a.id) && !Enters(s.files, a, hash)))
  {
    hide Payload;
  }

  /** The digest this body was last told was saved is that of these items. */
  predicate Remembers(s: State, body: nat, digest: Bytes) {
    body in s.hashes && s.hashes[body] == digest
  }

  /** What a save needs to get as far as writing. */
  predicate Reaches(s: State, a: Action, hash: Bytes -> Bytes) {
    a.Save? && a.known && Marked(s, a.body, a.id) && a.payload.Some? && !Remembers(s, a.body, hash(a.payload.value))
  }

  /** A save writes the envelope of these items over this identity's file alone, exactly if it gets that far and the write
      takes effect, and the digest is remembered exactly if the write also says so. */
  lemma SaveIff(s: State, a: Action, hash: Bytes -> Bytes)
    requires a.Save? && Sensible(a)
    ensures var (t, r) := Step(s, a, hash);
      && t.restored == s.restored
      && t.files == (if Reaches(s, a, hash) && !a.io.Failed? then s.files[a.id := Envelope(a.payload.value, a.version, hash)] else s.files)
      && t.hashes == (if Reaches(s, a, hash) && a.io.Written? then s.hashes[a.body := hash(a.payload.value)] else s.hashes)
      && (r == Saved <==> Reaches(s, a, hash) && a.io.Written?)
      && (r == NotRestored <==> a.known && !Marked(s, a.body, a.id))
      && (r == Unchanged <==> a.known && Marked(s, a.body, a.id) && a.payload.Some? && Remembers(s, a.body, hash(a.payload.value)))
      && (r == Error <==> !a.known || (Marked(s, a.body, a.id) && a.payload.None?) || (Reaches(s, a, hash) && !a.io.Written?))
  {
    hide Envelope;
  }

  /** The answer of the k-th call. */
  ghost function StatusAt(files: map<string, Bytes>, actions: seq<Action>, hash: Bytes -> Bytes, k: nat): (r: Status)
    requires AllSensible(actions) && k < |actions|
  {
    Step(Run(files, actions[..k], hash), actions[k], hash).1
  }

  /** At step j the body restored this identity: no file was there, or the file was read and loaded completely. */
  ghost predicate Entered(files: map<string, Bytes>, actions: seq<Action>, hash: Bytes -> Bytes, j: nat, body: nat, id: string)
    requires AllSensible(actions)
  {
    && j < |actions| && actions[j].Restore? && actions[j].body == body && actions[j].id == id
    && Enters(Run(files, actions[..j], hash).files, actions[j], hash)
  }

  lemma EnteredLater(files: map<string, Bytes>, actions: seq<Action>, a: Action, hash: Bytes -> Bytes, j: nat, body: nat, id: string)
    requires AllSensible(actions) && Sensible(a) && AllSensible(actions + [a]) && Entered(files, actions, hash, j, body, id)
    ensures Entered(files, actions + [a], hash, j, body, id)
  {
    hide Step, Run;
    assert (actions + [a])[..j] == actions[..j];
  }

  /** A body is marked restored only by a restore that went through. */
  lemma {:induction false} RestoredEntered(files: map<string, Bytes>, actions: seq<Action>, hash: Bytes -> Bytes, body: nat)
    requires AllSensible(actions) && body in Run(files, actions, hash).restored
    ensures exists j: nat :: Entered(files, actions, hash, j, body, Run(files, actions, hash).restored[body])
    decreases |actions|
  {
    if actions != [] {
      var n := |actions| - 1;
      var front, a := actions[..n], actions[n];
      assert actions == front + [a];
      var s := Run(files, front, hash);
      var id := Run(files, actions, hash).restored[body];
      MarkedHow(s, a, hash, body, id);
      hide Step, Enters;
      if Marked(s, body, id) {
        RestoredEntered(files, front, hash, body);
        var j: nat :| Entered(files, front, hash, j, body, id);
        EnteredLater(files, front, a, hash, j, body, id);
      } else {
        assert Entered(files, actions, hash, n, body, id);
      }
    }
  }

  lemma MarkedHow(s: State, a: Action, hash: Bytes -> Bytes, body: nat, id: string)
    requires Sensible(a) && Marked(Step(s, a, hash).0, body, id)
    ensures Marked(s, body, id) || (a.Restore? && a.body == body && a.id == id && Enters(s.files, a, hash))
  {
    if a.Restore? {
      RestoreIff(s, a, hash);
    } else if a.Save? {
      SaveIff(s, a, hash);
    }
    hide Payload, Envelope;
  }

  /** In every run a snapshot file changes only through a body whose restore of that identity went through before. */
  lemma OverwriteGuarded(files: map<string, Bytes>, actions: seq<Action>, hash: Bytes -> Bytes, k: nat, id: string)
    requires AllSensible(actions) && k < |actions|
    requires var before, after := Run(files, actions[..k], hash).files, Run(files, actions[..k + 1], hash).files;
      id in after && (id !in before || before[id] != after[id])
    ensures actions[k].Save? && actions[k].id == id && exists j: nat :: Entered(files, actions[..k], hash, j, actions[k].body, id)
  {
    assert actions[..k + 1][..k] == actions[..k] && actions[..k + 1][k] == actions[k];
    var s := Run(files, actions[..k], hash);
    hide Payload, Envelope;
    assert Run(files, actions[..k + 1], hash) == Step(s, actions[k], hash).0;
    assert actions[k].Save? && actions[k].id == id && actions[k].body in s.restored && s.restored[actions[k].body] == id;
    RestoredEntered(files, actions[..k], hash, actions[k].body);
  }

  // ---- when "unchanged" is true

  /** This call reaches the file of its identity: everything before the write lets it through, and the write takes
      effect, whatever it reports. */
  predicate Writes(s: State, a: Action, hash: Bytes -> Bytes) {
    Reaches(s, a, hash) && !a.io.Failed?
  }

  lemma WritesSave(s: State, a: Action, hash: Bytes -> Bytes)
    ensures Writes(s, a, hash) ==> a.Save? && a.payload.Some?
  {}

  lemma FileAfterStep(s: State, a: Action, hash: Bytes -> Bytes, id: string)
    requires Sensible(a)
    ensures var t := Step(s, a, hash).0;
      if Writes(s, a, hash) && a.id == id then id in t.files && t.files[id] == Envelope(a.payload.value, a.version, hash)
      else (id in t.files <==> id in s.files) && (id in s.files ==> t.files[id] == s.files[id])
  {
    if a.Restore? {
      RestoreIff(s, a, hash);
    } else if a.Save? {
      SaveIff(s, a, hash);
    }
    hide Envelope, Payload, Reaches;
  }

  /** The step that wrote the file of this identity last. */
  ghost function LastWrite(files: map<string, Bytes>, actions: seq<Action>, hash: Bytes -> Bytes, id: string): (r: Option<nat>)
    requires AllSensible(actions)
    ensures r.Some? ==> r.value < |actions|
    decreases |actions|
  {
    if actions == [] then None
    else
      var n := |actions| - 1;
      if Writes(Run(files, actions[..n], hash), actions[n], hash) && actions[n].id == id then Some(n)
      else LastWrite(files, actions[..n], hash, id)
  }

  /** The step at which this body was last told "saved", unless it was forgotten since. */
  ghost function LastSaved(files: map<string, Bytes>, actions: seq<Action>, hash: Bytes -> Bytes, body: nat): (r: Option<nat>)
    requires AllSensible(actions)
    ensures r.Some? ==> r.value < |actions|
    decreases |actions|
  {
    if actions == [] then None
    else
      var n := |actions| - 1;
      if actions[n] == Forget(body) then None
      else if Writes(Run(files, actions[..n], hash), actions[n], hash) && actions[n].body == body && actions[n].io.Written? then Some(n)
      else LastSaved(files, actions[..n], hash, body)
  }

  /** The file of an identity is what the last write to it left, or what was there at the start. */
  lemma {:induction false} FileIsLastWrite(files: map<string, Bytes>, actions: seq<Action>, hash: Bytes -> Bytes, id: string)
    requires AllSensible(actions)
    ensures var s, w := Run(files, actions, hash), LastWrite(files, actions, hash, id);
      if w.None? then (id in s.files <==> id in files) && (id in files ==> s.files[id] == files[id])
      else
        var b := actions[w.value];
        b.Save? && b.id == id && b.payload.Some? && id in s.files && s.files[id] == Envelope(b.payload.value, b.version, hash)
    decreases |actions|
  {
    hide Payload, Envelope, Step, Writes;
    if actions != [] {
      var n := |actions| - 1;
      FileIsLastWrite(files, actions[..n], hash, id);
      FileAfterStep(Run(files, actions[..n], hash), actions[n], hash, id);
      WritesSave(Run(files, actions[..n], hash), actions[n], hash);
    }
  }

  /** The digest remembered for a body is that of what it was last told was saved. */
  lemma {:induction false} DigestIsLastSaved(files: map<string, Bytes>, actions: seq<Action>, hash: Bytes -> Bytes, body: nat)
    requires AllSensible(actions)
    ensures var s, j := Run(files, actions, hash), LastSaved(files, actions, hash, body);
      && (body in s.hashes <==> j.Some?)
      && (j.Some? ==>
          var b := actions[j.value];
          b.Save? && b.body == body && b.payload.Some? && s.hashes[body] == hash(b.payload.value))
    decreases |actions|
  {
    hide Payload, Envelope;
    if actions != [] {
      DigestIsLastSaved(files, actions[..|actions| - 1], hash, body);
    }
  }

  /** The file of this identity holds a payload with this digest. */
  ghost predicate Holds(files: map<string, Bytes>, id: string, digest: Bytes, hash: Bytes -> Bytes) {
    id in files && exists p: Bytes, v: int ::
      Int32(v) && |p| <= MAX_INVENTORY && files[id] == Envelope(p, v, hash) && hash(p) == digest
  }

  lemma EnvelopeHolds(files: map<string, Bytes>, id: string, p: Bytes, v: int, digest: Bytes, hash: Bytes -> Bytes)
    requires Int32(v) && |p| <= MAX_INVENTORY && id in files && files[id] == Envelope(p, v, hash) && Digest(hash)
    ensures Holds(files, id, digest, hash) <==> hash(p) == digest
  {
    if Holds(files, id, digest, hash) {
      var q: Bytes, w: int :| Int32(w) && |q| <= MAX_INVENTORY && files[id] == Envelope(q, w, hash) && hash(q) == digest;
      EnvelopeParts(p, v, hash);
      EnvelopeParts(q, w, hash);
      hide Envelope;
      assert p == files[id][44..] == q;
    }
  }

  /** The file holds items with this digest although this body's last save was not the last write: another write put
      the same items there (of another body under this identity, or one that took effect and failed), or the file held
      them at the start. */
  ghost predicate HeldAnyway(files: map<string, Bytes>, actions: seq<Action>, hash: Bytes -> Bytes, k: nat)
    requires AllSensible(actions) && k < |actions| && actions[k].Save? && actions[k].payload.Some?
  {
    var a := actions[k];
    match LastWrite(files, actions[..k], hash, a.id)
    case Some(w) =>
      Some(w) != LastSaved(files, actions[..k], hash, a.body) && actions[w].Save? && actions[w].payload.Some?
      && hash(actions[w].payload.value) == hash(a.payload.value)
    case None => Holds(files, a.id, hash(a.payload.value), hash)
  }

  /** "unchanged" is true exactly if the last write to the file of this identity was the last save of this body, or
      whatever wrote the file otherwise left items with the same digest. */
  lemma UnchangedIff(files: map<string, Bytes>, actions: seq<Action>, hash: Bytes -> Bytes, k: nat)
    requires AllSensible(actions) && Digest(hash) && k < |actions| && actions[k].Save?
    requires StatusAt(files, actions, hash, k).Unchanged?
    ensures var s, a := Run(files, actions[..k], hash), actions[k];
      && a.payload.Some? && LastSaved(files, actions[..k], hash, a.body).Some?
      && (Holds(s.files, a.id, hash(a.payload.value), hash) <==>
            LastWrite(files, actions[..k], hash, a.id) == LastSaved(files, actions[..k], hash, a.body)
            || HeldAnyway(files, actions, hash, k))
  {
    var s, a, front := Run(files, actions[..k], hash), actions[k], actions[..k];
    assert a.payload.Some? && a.body in s.hashes && s.hashes[a.body] == hash(a.payload.value) by { hide Payload, Envelope; }
    FileIsLastWrite(files, front, hash, a.id);
    DigestIsLastSaved(files, front, hash, a.body);
    hide Payload, Envelope, Run, LastWrite, LastSaved;
    assert forall i :: 0 <= i < k ==> front[i] == actions[i];
    var w := LastWrite(files, front, hash, a.id);
    if w.Some? {
      var b := actions[w.value];
      assert Sensible(b);
      EnvelopeHolds(s.files, a.id, b.payload.value, b.version, hash(a.payload.value), hash);
      hide Holds;
    }
  }

  lemma RunMore(files: map<string, Bytes>, actions: seq<Action>, a: Action, hash: Bytes -> Bytes)
    requires AllSensible(actions) && Sensible(a)
    ensures AllSensible(actions + [a]) && Run(files, actions + [a], hash) == Step(Run(files, actions, hash), a, hash).0
  {
    hide Step;
    assert (actions + [a])[..|actions|] == actions;
  }

  /** One body under a second identity: its save says "unchanged" although that identity has no file at all. */
  lemma SecondIdentityUnsaved(payload: Bytes, hash: Bytes -> Bytes)
    requires |payload| <= MAX_INVENTORY
    ensures exists actions: seq<Action>, again: Action ::
      && AllSensible(actions) && Sensible(again) && again.Save? && again.payload == Some(payload)
      && Step(Run(map[], actions, hash), again, hash).1 == Unchanged && again.id !in Run(map[], actions, hash).files
  {
    hide Payload, Envelope;
    var a, b := Restore(1, "a", true, 1, true), Save(1, "a", true, Some(payload), 1, Written);
    var c, d := Restore(1, "b", true, 1, true), Save(1, "b", true, Some(payload), 1, Written);
    RunMore(map[], [], a, hash);
    RunMore(map[], [] + [a], b, hash);
    RunMore(map[], [] + [a] + [b], c, hash);
    assert Step(Run(map[], [] + [a] + [b] + [c], hash), d, hash).1 == Unchanged;
  }

  /** A write that took effect but reported a failure: going back to the items saved before is not saved again. */
  lemma FailedReportUnsaved(first: Bytes, second: Bytes, hash: Bytes -> Bytes)
    requires |first| <= MAX_INVENTORY && |second| <= MAX_INVENTORY && hash(first) != hash(second)
    ensures exists actions: seq<Action>, again: Action ::
      && AllSensible(actions) && Sensible(again) && again.Save? && again.id == "a" && again.payload == Some(first)
      && Step(Run(map[], actions, hash), again, hash).1 == Unchanged
      && Run(map[], actions, hash).files == map["a" := Envelope(second, 1, hash)]
  {
    hide Payload, Envelope;
    var a, b := Restore(1, "a", true, 1, true), Save(1, "a", true, Some(first), 1, Written);
    var c, d := Save(1, "a", true, Some(second), 1, WrittenButFailed), Save(1, "a", true, Some(first), 1, Written);
    RunMore(map[], [], a, hash);
    RunMore(map[], [] + [a], b, hash);
    RunMore(map[], [] + [a] + [b], c, hash);
    assert Step(Run(map[], [] + [a] + [b] + [c], hash), d, hash).1 == Unchanged;
  }

  /** Two bodies restored under one identity save one after the other. */
  function TwoBodies(first: Bytes, second: Bytes): (r: seq<Action>) {
    [Restore(1, "a", true, 1, true), Restore(2, "a", true, 1, true), Save(1, "a", true, Some(first), 1, Written),
     Save(2, "a", true, Some(second), 1, Written)]
  }

  lemma TwoBodiesRun(first: Bytes, second: Bytes, hash: Bytes -> Bytes)
    requires |first| <= MAX_INVENTORY && |second| <= MAX_INVENTORY
    ensures AllSensible(TwoBodies(first, second))
    ensures Run(map[], TwoBodies(first, second), hash)
      == State(map[1 := "a", 2 := "a"], map[1 := hash(first), 2 := hash(second)], map["a" := Envelope(second, 1, hash)])
  {
    hide Payload, Envelope;
    var r := TwoBodies(first, second);
    var a, b, c, d := r[0], r[1], r[2], r[3];
    RunMore(map[], [], a, hash);
    RunMore(map[], [] + [a], b, hash);
    RunMore(map[], [] + [a] + [b], c, hash);
    RunMore(map[], [] + [a] + [b] + [c], d, hash);
    assert r == [] + [a] + [b] + [c] + [d];
    assert Run(map[], [], hash) == Start(map[]);
    hide Run, AllSensible;
    assert Run(map[], [] + [a] + [b], hash) == State(map[1 := "a", 2 := "a"], map[], map[]);
  }

  /** The first of them is told "unchanged" although the file holds what the second has saved since; no body has a
      second identity, and no write failed. */
  lemma SecondBodyUnsaved(first: Bytes, second: Bytes, hash: Bytes -> Bytes)
    requires |first| <= MAX_INVENTORY && |second| <= MAX_INVENTORY && hash(first) != hash(second) && Digest(hash)
    ensures var again := Save(1, "a", true, Some(first), 1, Written);
      && AllSensible(TwoBodies(first, second)) && Sensible(again)
      && Step(Run(map[], TwoBodies(first, second), hash), again, hash).1 == Unchanged
      && !Holds(Run(map[], TwoBodies(first, second), hash).files, "a", hash(first), hash)
  {
    TwoBodiesRun(first, second, hash);
    hide Payload, Envelope, Run, AllSensible, TwoBodies, Holds;
    EnvelopeHolds(Run(map[], TwoBodies(first, second), hash).files, "a", second, 1, hash(first), hash);
  }

  // ---- the two calls

  class ServerSupport {
    var restored: map<nat, string>
    var savedHashes: map<nat, Bytes>
    var files: map<string, Bytes>

    function Now(): (s: State)
      reads this
    {
      State(restored, savedHashes, files)
    }

    /** restoreInventory: the table is marked last, after the items have loaded completely. */
    method RestoreInventory(body: nat, id: string, known: bool, current: int, loads: bool, hash: Bytes -> Bytes) returns (r: Status)
      modifies this`restored
      ensures (Now(), r) == Step(old(Now()), Restore(body, id, known, current, loads), hash)
    {
      if !known {
        return Error;
      }
      if body in restored && restored[body] == id {
        return Ready;
      }
      if id !in files {
        restored := restored[body := id];
        return New;
      }
      var bytes := files[id];
      if |bytes| > MAX_INVENTORY + HEADER {
        return Error;
      }
      var data := ReadPayload(bytes, current, hash);
      if data.None? || !loads {
        return Error;
      }
      restored := restored[body := id];
      r := Restored;
    }

    /** saveInventory: the digest is remembered only once the write has returned. */
    method SaveInventory(body: nat, id: string, known: bool, payload: Option<Bytes>, version: int, io: Io, hash: Bytes -> Bytes)
      returns (r: Status)
      requires Sensible(Save(body, id, known, payload, version, io))
      modifies this`savedHashes, this`files
      ensures (Now(), r) == Step(old(Now()), Save(body, id, known, payload, version, io), hash)
    {
      hide Payload, Envelope;
      if !known {
        return Error;
      }
      if !(body in restored && restored[body] == id) {
        return NotRestored;
      }
      if payload.None? {
        return Error;
      }
      var digest := hash(payload.value);
      if body in savedHashes && savedHashes[body] == digest {
        return Unchanged;
      }
      if !io.Failed? {
        files := files[id := Envelope(payload.value, version, hash)];
      }
      if !io.Written? {
        return Error;
      }
      savedHashes := savedHashes[body := digest];
      r := Saved;
    }
  }
}
