/** The two programs agree on every exported snapshot: the printed text reads back as the tree, the check
    accepts it and returns it unchanged, and printing that again gives the same text, hence the same
    digest. The one exception is a table with both zeros among its number keys. */
module DefinitionAgreement {
  import opened Common
  import opened DefinitionTable
  import opened Json
  import opened DefinitionExport
  import opened DefinitionCheck

  // ---- the members of a printed node

  lemma NodeMembers(x: Value)
    ensures IsRecord(NodeJson(x), NODE_NAMES)
    ensures Member(NodeJson(x), "type") == Str(x.kind) && Member(NodeJson(x), "scalar") == ScalarJson(x.scalar)
    ensures Member(NodeJson(x), "entries") == Arr(EntriesJson(x.entries))
  {
    var f, g, h := Field("type", Str(x.kind)), Field("scalar", ScalarJson(x.scalar)), Field("entries", Arr(EntriesJson(x.entries)));
    assert NodeJson(x) == Obj([f, g, h]);
    hide *;
    ThreeMembers(f, g, h);
  }

  lemma EntryMembers(e: Entry)
    ensures IsRecord(EntryJson(e), ENTRY_NAMES)
    ensures Member(EntryJson(e), "key_type") == Str(e.keyType) && Member(EntryJson(e), "key") == Str(e.key)
    ensures Member(EntryJson(e), "value") == NodeJson(e.value)
  {
    var f, g, h := Field("key_type", Str(e.keyType)), Field("key", Str(e.key)), Field("value", NodeJson(e.value));
    assert EntryJson(e) == Obj([f, g, h]);
    hide *;
    ThreeMembers(f, g, h);
  }

  lemma ThreeMembers(f: Field, g: Field, h: Field)
    requires |f.name| != |g.name| && |g.name| != |h.name| && |f.name| != |h.name|
    ensures var j := Obj([f, g, h]);
      && IsRecord(j, {f.name, g.name, h.name})
      && Member(j, f.name) == f.value && Member(j, g.name) == g.value && Member(j, h.name) == h.value
  {
    var fields := [f, g, h];
    assert fields[1..] == [g, h] && [g, h][1..] == [h];
    assert f in fields && g in fields && h in fields;
    assert forall y :: y in fields ==> y == f || y == g || y == h;
    assert Lookup([h], h.name) == h.value;
    assert Lookup([g, h], g.name) == g.value && Lookup([g, h], h.name) == h.value;
  }

  // ---- which trees the check accepts

  /** Which scalars a node may have: none for a table, and otherwise one that suits its kind, without entries. */
  lemma ScalarOkIs(x: Value, parse: string -> Option<Double>)
    ensures ScalarOk(x.kind, ScalarJson(x.scalar), EntriesJson(x.entries), parse) <==>
      || (x.kind == "table" && x.scalar.None?)
      || (&& x.entries == [] && x.scalar.Some? && |x.scalar.value| <= STRING_LIMIT
          && (|| x.kind == "string"
              || (x.kind == "boolean" && (x.scalar.value == "true" || x.scalar.value == "false"))
              || (x.kind == "number" && parse(x.scalar.value).Some? && !parse(x.scalar.value).value.NonFinite?)))
  {
    assert |EntriesJson(x.entries)| == |x.entries|;
  }

  /** Which keys an entry may have. */
  lemma KeyOkIs(e: Entry, parse: string -> Option<Double>)
    ensures KeyOk(Str(e.keyType), Str(e.key), parse) <==>
      |e.key| <= KEY_LIMIT && (e.keyType == "string" || (e.keyType == "number" && parse(e.key).Some? && !parse(e.key).value.NonFinite?))
  {}

  /** A tree every node of which the check would take, whatever its depth. */
  ghost predicate Fine(x: Value, parse: string -> Option<Double>)
    decreases x
  {
    && ScalarOk(x.kind, ScalarJson(x.scalar), EntriesJson(x.entries), parse)
    && DistinctIdentities(x.entries, parse)
    && forall i :: 0 <= i < |x.entries| ==>
         KeyOk(Str(x.entries[i].keyType), Str(x.entries[i].key), parse) && Fine(x.entries[i].value, parse)
  }

  lemma CheckEntryJson(e: Entry, depth: nat, parse: string -> Option<Double>)
    ensures CheckEntry(EntryJson(e), depth, parse) == (
      var value := Check(NodeJson(e.value), depth, parse);
      if !KeyOk(Str(e.keyType), Str(e.key), parse) || value.None? then None else Some(Entry(e.keyType, e.key, value.value)))
  {
    hide EntryJson, NodeJson, Check, KeyOk, IsRecord, Member;
    EntryMembers(e);
  }

  /** The check accepts exactly the fine trees within its depth, and returns them unchanged. */
  lemma {:induction false} CheckNode(x: Value, depth: nat, parse: string -> Option<Double>)
    ensures Check(NodeJson(x), depth, parse) == if depth + Height(x) <= DEPTH_LIMIT && Fine(x, parse) then Some(x) else None
    decreases x
  {
    forall i | 0 <= i < |x.entries|
      ensures CheckEntry(EntryJson(x.entries[i]), depth + 1, parse)
           == if FineEntry(x.entries[i], depth + 1, parse) then Some(x.entries[i]) else None
    {
      hide *;
      CheckNode(x.entries[i].value, depth + 1, parse);
      CheckEntryJson(x.entries[i], depth + 1, parse);
      FineEntryIs(x.entries[i], depth + 1, parse);
    }
    hide *;
    CheckFromChildren(x, depth, parse);
  }

  lemma FineEntryIs(e: Entry, depth: nat, parse: string -> Option<Double>)
    ensures FineEntry(e, depth, parse) <==>
      depth + Height(e.value) <= DEPTH_LIMIT && Fine(e.value, parse) && KeyOk(Str(e.keyType), Str(e.key), parse)
  {}

  lemma CheckFromChildren(x: Value, depth: nat, parse: string -> Option<Double>)
    requires forall i :: 0 <= i < |x.entries| ==>
      CheckEntry(EntryJson(x.entries[i]), depth + 1, parse) == if FineEntry(x.entries[i], depth + 1, parse) then Some(x.entries[i]) else None
    ensures Check(NodeJson(x), depth, parse) == if depth + Height(x) <= DEPTH_LIMIT && Fine(x, parse) then Some(x) else None
  {
    hide Check, CheckAll, CheckEntry, EntryJson, EntriesJson, ScalarJson, ScalarOk, DistinctIdentities, Fine, Height, KeyOk, NodeJson;
    CheckChildren(x.entries, depth + 1, parse);
    CheckShape(x, depth, parse);
    DepthOfEntries(x, depth);
    FineTree(x, parse);
  }

  ghost predicate FineEntry(e: Entry, depth: nat, parse: string -> Option<Double>) {
    depth + Height(e.value) <= DEPTH_LIMIT && Fine(e.value, parse) && KeyOk(Str(e.keyType), Str(e.key), parse)
  }

  lemma CheckChildren(es: seq<Entry>, depth: nat, parse: string -> Option<Double>)
    requires forall i :: 0 <= i < |es| ==>
      CheckEntry(EntryJson(es[i]), depth, parse) == if FineEntry(es[i], depth, parse) then Some(es[i]) else None
    ensures CheckAll(EntriesJson(es), depth, parse) ==
      if forall i :: 0 <= i < |es| ==> FineEntry(es[i], depth, parse) then Some(es) else None
  {
    hide CheckEntry, EntryJson, FineEntry, CheckAll, EntriesJson;
    var js := EntriesJson(es);
    CheckAllAt(js, depth, parse);
    forall i | 0 <= i < |es| ensures js[i] == EntryJson(es[i]) {
      EntriesJsonAt(es, i);
    }
    if CheckAll(js, depth, parse).Some? {
      var all := CheckAll(js, depth, parse).value;
      assert forall i :: 0 <= i < |es| ==> all[i] == es[i] && FineEntry(es[i], depth, parse);
      assert all == es;
    }
  }

  lemma CheckShape(x: Value, depth: nat, parse: string -> Option<Double>)
    ensures Check(NodeJson(x), depth, parse) == (
      var es := CheckAll(EntriesJson(x.entries), depth + 1, parse);
      if depth > DEPTH_LIMIT || !ScalarOk(x.kind, ScalarJson(x.scalar), EntriesJson(x.entries), parse)
         || es.None? || !DistinctIdentities(es.value, parse) then None
      else Some(Value(x.kind, x.scalar, es.value)))
  {
    hide NodeJson, EntriesJson, CheckAll, ScalarOk, DistinctIdentities, IsRecord, Member;
    NodeMembers(x);
  }

  lemma DepthOfEntries(x: Value, depth: nat)
    ensures depth + Height(x) <= DEPTH_LIMIT <==>
      depth <= DEPTH_LIMIT && forall i :: 0 <= i < |x.entries| ==> depth + 1 + Height(x.entries[i].value) <= DEPTH_LIMIT
  {
    hide HeightAll;
    if depth <= DEPTH_LIMIT {
      HeightBound(x.entries, DEPTH_LIMIT - depth);
      assert forall i :: 0 <= i < |x.entries| ==> x.entries[i] in x.entries;
    }
    assert Height(x) == HeightAll(x.entries);
  }

  lemma FineTree(x: Value, parse: string -> Option<Double>)
    ensures Fine(x, parse) <==>
      ScalarOk(x.kind, ScalarJson(x.scalar), EntriesJson(x.entries), parse) && DistinctIdentities(x.entries, parse)
      && forall i :: 0 <= i < |x.entries| ==>
           KeyOk(Str(x.entries[i].keyType), Str(x.entries[i].key), parse) && Fine(x.entries[i].value, parse)
  {
    hide ScalarOk, DistinctIdentities, KeyOk, EntriesJson, ScalarJson;
  }

  // ---- which snapshots those are

  /** Double.toString and float() undo each other on every finite double, and the text is short. */
  ghost predicate Faithful(c: Codec) {
    forall d: Double :: !d.NonFinite? ==> c.parse(c.show(d)) == Some(d) && |Utf16(c.show(d))| <= 24
  }

  predicate IsZeroKey(e: Entry, negative: bool, show: Double -> string) {
    e.keyType == "number" && e.key == show(Zero(negative))
  }

  /** No table of the tree has both 0.0 and -0.0 among its keys. */
  ghost predicate NoZeroPair(x: Value, show: Double -> string)
    decreases x
  {
    && !((exists i :: 0 <= i < |x.entries| && IsZeroKey(x.entries[i], false, show))
         && (exists j :: 0 <= j < |x.entries| && IsZeroKey(x.entries[j], true, show)))
    && forall i :: 0 <= i < |x.entries| ==> NoZeroPair(x.entries[i].value, show)
  }

  lemma ScalarFine(v: Lua, x: Value, c: Codec)
    requires !v.Table? && Scalar(v, c.show) == Some(x) && Faithful(c)
    ensures x.entries == [] && ScalarOk(x.kind, ScalarJson(x.scalar), EntriesJson(x.entries), c.parse)
  {
    hide Blank;
  }

  /** The key a raw key is normalized to is one the check takes, and shows what it was. */
  lemma KeyFine(k: RawKey, e: Entry, c: Codec)
    requires KeyOf(k, c.show) == Some((e.keyType, e.key)) && Faithful(c)
    ensures KeyOk(Str(e.keyType), Str(e.key), c.parse)
    ensures e.keyType == "number" ==> k.NumberKey? && !k.number.NonFinite? && e.key == c.show(k.number)
    ensures e.keyType == "number" || e.keyType == "string"
  {}

  /** Two different keys clash for the check only if they are the two zeros. */
  lemma ClashIsZeroPair(k: RawKey, l: RawKey, d: Entry, e: Entry, c: Codec)
    requires KeyOf(k, c.show) == Some((d.keyType, d.key)) && KeyOf(l, c.show) == Some((e.keyType, e.key)) && Faithful(c)
    requires !SameKey(d, e)
    ensures d.keyType == e.keyType && IdentityOf(d.keyType, d.key, c.parse) == IdentityOf(e.keyType, e.key, c.parse) <==>
      (IsZeroKey(d, false, c.show) && IsZeroKey(e, true, c.show)) || (IsZeroKey(d, true, c.show) && IsZeroKey(e, false, c.show))
  {
    KeyFine(k, d, c);
    KeyFine(l, e, c);
    hide KeyOk, KeyOf;
    assert c.parse(c.show(Zero(true))) == Some(Zero(true)) && c.parse(c.show(Zero(false))) == Some(Zero(false));
  }

  /** What a table's entries go back to. */
  ghost predicate FromRaw(e: Entry, show: Double -> string) {
    exists k :: KeyOf(k, show) == Some((e.keyType, e.key))
  }

  lemma EntriesDistinct(es: seq<Entry>, c: Codec)
    requires StrictlySorted(es) && Faithful(c) && forall i :: 0 <= i < |es| ==> FromRaw(es[i], c.show)
    ensures DistinctIdentities(es, c.parse) <==>
      !((exists i :: 0 <= i < |es| && IsZeroKey(es[i], false, c.show)) && (exists j :: 0 <= j < |es| && IsZeroKey(es[j], true, c.show)))
  {
    hide EntryLe, KeyOf, IdentityOf, Faithful;
    forall i, j | 0 <= i < j < |es|
      ensures es[i].keyType == es[j].keyType && IdentityOf(es[i].keyType, es[i].key, c.parse) == IdentityOf(es[j].keyType, es[j].key, c.parse)
        <==> (IsZeroKey(es[i], false, c.show) && IsZeroKey(es[j], true, c.show)) || (IsZeroKey(es[i], true, c.show) && IsZeroKey(es[j], false, c.show))
    {
      var k :| KeyOf(k, c.show) == Some((es[i].keyType, es[i].key));
      var l :| KeyOf(l, c.show) == Some((es[j].keyType, es[j].key));
      ClashIsZeroPair(k, l, es[i], es[j], c);
    }
    ZeroesDiffer(c);
    hide SameKey;
  }

  lemma ZeroesDiffer(c: Codec)
    requires Faithful(c)
    ensures c.show(Zero(false)) != c.show(Zero(true))
  {
    assert c.parse(c.show(Zero(true))) == Some(Zero(true)) && c.parse(c.show(Zero(false))) == Some(Zero(false));
  }

  lemma ScalarSnapshot(g: Graph, v: Lua, x: Value, c: Codec)
    requires !v.Table? && Unfolds(g, v, x, c.show) && Faithful(c)
    ensures Fine(x, c.parse) && NoZeroPair(x, c.show)
  {
    ScalarFine(v, x, c);
    hide ScalarOk, Faithful, Scalar;
  }

  /** The keys of a table in a snapshot. */
  lemma KeysFine(g: Graph, v: Lua, x: Value, c: Codec)
    requires v.Table? && Unfolds(g, v, x, c.show) && Faithful(c)
    ensures forall i :: 0 <= i < |x.entries| ==>
      FromRaw(x.entries[i], c.show) && KeyOk(Str(x.entries[i].keyType), Str(x.entries[i].key), c.parse)
  {
    hide KeyOk, KeyOf, Faithful, Matches, Unfolds;
    forall i | 0 <= i < |x.entries|
      ensures FromRaw(x.entries[i], c.show) && KeyOk(Str(x.entries[i].keyType), Str(x.entries[i].key), c.parse)
    {
      var e := BackedBy(g, v, x, i, c.show);
      MatchUnfolds(g, e, x.entries[i], c.show);
      KeyFine(e.key, x.entries[i], c);
    }
  }

  lemma TableSnapshot(g: Graph, v: Lua, x: Value, c: Codec)
    requires v.Table? && Unfolds(g, v, x, c.show) && Faithful(c)
    requires forall i :: 0 <= i < |x.entries| ==> (Fine(x.entries[i].value, c.parse) <==> NoZeroPair(x.entries[i].value, c.show))
    ensures Fine(x, c.parse) <==> NoZeroPair(x, c.show)
  {
    hide Unfolds, Faithful, KeyOk, IsZeroKey, DistinctIdentities, FromRaw, StrictlySorted, ScalarOk, ScalarJson, EntriesJson;
    KeysFine(g, v, x, c);
    TableIsTable(g, v, x, c);
    EntriesDistinct(x.entries, c);
  }

  /** A snapshot is fine exactly when none of its tables has both zeros as keys. */
  lemma {:induction false} SnapshotFine(g: Graph, v: Lua, x: Value, c: Codec)
    requires Unfolds(g, v, x, c.show) && Faithful(c)
    ensures Fine(x, c.parse) <==> NoZeroPair(x, c.show)
    decreases x
  {
    if !v.Table? {
      ScalarSnapshot(g, v, x, c);
    } else {
      hide Fine, NoZeroPair, Faithful, Unfolds, Matches;
      forall i | 0 <= i < |x.entries| ensures Fine(x.entries[i].value, c.parse) <==> NoZeroPair(x.entries[i].value, c.show) {
        var e := BackedBy(g, v, x, i, c.show);
        MatchUnfolds(g, e, x.entries[i], c.show);
        SnapshotFine(g, e.value, x.entries[i].value, c);
      }
      TableSnapshot(g, v, x, c);
    }
  }

  lemma TableIsTable(g: Graph, v: Lua, x: Value, c: Codec)
    requires v.Table? && Unfolds(g, v, x, c.show)
    ensures StrictlySorted(x.entries) && ScalarOk(x.kind, ScalarJson(x.scalar), EntriesJson(x.entries), c.parse)
  {
    hide StrictlySorted, Kept, Backed;
  }

  lemma BackedBy(g: Graph, v: Lua, x: Value, i: nat, show: Double -> string) returns (e: RawEntry)
    requires v.Table? && Unfolds(g, v, x, show) && i < |x.entries|
    ensures Matches(g, e, x.entries[i], show)
  {
    hide Matches, StrictlySorted, Kept;
    assert x.entries[i] in x.entries;
    var raw := Contents(g, v.ref);
    assert Backed(g, raw, x.entries[i], show);
    e :| e in raw && Matches(g, e, x.entries[i], show);
  }

  // ---- the whole exchange

  lemma {:induction false} NodeClean(x: Value)
    ensures Clean(NodeJson(x))
    decreases x
  {
    forall i | 0 <= i < |x.entries| ensures Clean(EntriesJson(x.entries)[i]) {
      hide NodeJson;
      NodeClean(x.entries[i].value);
      EntriesJsonAt(x.entries, i);
      EntryClean(x.entries[i]);
    }
    hide EntriesJson;
    CleanRecord(Field("type", Str(x.kind)), Field("scalar", ScalarJson(x.scalar)), Field("entries", Arr(EntriesJson(x.entries))));
  }

  lemma CleanRecord(f: Field, g: Field, h: Field)
    requires |f.name| != |g.name| && |g.name| != |h.name| && |f.name| != |h.name|
    requires Clean(f.value) && Clean(g.value) && Clean(h.value)
    ensures Clean(Obj([f, g, h]))
  {}

  lemma EntryClean(e: Entry)
    requires Clean(NodeJson(e.value))
    ensures Clean(EntryJson(e))
  {
    hide NodeJson;
    CleanRecord(Field("key_type", Str(e.keyType)), Field("key", Str(e.key)), Field("value", NodeJson(e.value)));
  }

  /** The two sides agree on a snapshot: the printed text reads back as its node, the check takes it unchanged
      (so printing what it returns gives the same bytes) unless some table has both zeros as keys, and then it
      refuses it. */
  lemma ExportAgrees(g: Graph, v: Lua, x: Value, c: Codec)
    requires Faithful(c) && Snapshot(g, v, x, c.show)
    ensures Read(Dump(NodeJson(x))) == Some(NodeJson(x))
    ensures Check(NodeJson(x), 0, c.parse) == if NoZeroPair(x, c.show) then Some(x) else None
    ensures NoZeroPair(x, c.show) <==> !Rejects(0, Check(NodeJson(x), 0, c.parse))
  {
    hide Fine, NoZeroPair, Unfolds, Height, NodeJson, Check, Read, Dump, Faithful;
    NodeClean(x);
    ReadUndoesDump(NodeJson(x));
    SnapshotFine(g, v, x, c);
    CheckNode(x, 0, c.parse);
  }

  /** Export, transfer, check and re-dump in one go: the second text is the first one. */
  method Exchange(g: Graph, v: Lua, c: Codec) returns (exported: Option<string>, redumped: Option<string>)
    requires Faithful(c)
    ensures exported.Some? ==> exists x :: Snapshot(g, v, x, c.show)
    ensures forall x :: Snapshot(g, v, x, c.show) ==>
      exported == Some(Dump(NodeJson(x))) && redumped == if NoZeroPair(x, c.show) then exported else None
  {
    hide Snapshot, NoZeroPair, Faithful, NodeJson, Check, Read, Dump;
    var taken := TakeSnapshot(g, v, c.show);
    if taken.None? {
      return None, None;
    }
    ExportAgrees(g, v, taken.value, c);
    var text := DefinitionJson(taken.value);
    exported := Some(text);
    var parsed := Read(text);
    var validator := new Validator();
    var clean := validator.Validate(parsed.value, 0, c.parse);
    redumped := if clean.None? then None else Some(Dump(clean.value));
  }

  const Leaf := Value("boolean", Some("true"), [])

  lemma LeafMatches(g: Graph, d: Double, c: Codec)
    requires Faithful(c) && d.Zero?
    ensures Matches(g, RawEntry(RawKey.NumberKey(d), Flag(true)), Entry("number", c.show(d), Leaf), c.show)
  {}

  lemma KeptAs(g: Graph, e: RawEntry, es: seq<Entry>, raw: seq<RawEntry>, y: Entry, show: Double -> string)
    requires e in raw && y in es && Matches(g, e, y, show)
    ensures Kept(g, e, es, show) && Backed(g, raw, y, show)
  {
    hide Matches;
  }

  lemma TwoInOrder(d: Entry, e: Entry)
    requires !SameKey(d, e)
    ensures StrictlySorted(if EntryLe(d, e) then [d, e] else [e, d])
  {
    EntryOrder(d, e);
    assert !SameKey(e, d);
    hide EntryLe, SameKey;
  }

  lemma TwoCover(g: Graph, a: RawEntry, b: RawEntry, d: Entry, e: Entry, show: Double -> string)
    requires Matches(g, a, d, show) && Matches(g, b, e, show) && !SameKey(d, e)
    ensures Covers(g, [a, b], if EntryLe(d, e) then [d, e] else [e, d], show)
  {
    hide Matches, EntryLe, SameKey, Kept, Backed, StrictlySorted;
    TwoInOrder(d, e);
    var raw, es := [a, b], if EntryLe(d, e) then [d, e] else [e, d];
    assert a in raw && b in raw && d in es && e in es;
    assert forall y :: y in es ==> y == d || y == e;
    assert forall y :: y in raw ==> y == a || y == b;
    KeptAs(g, a, es, raw, d, show);
    KeptAs(g, b, es, raw, e, show);
  }

  lemma TwoLeaves(es: seq<Entry>)
    requires |es| == 2 && es[0].value == Leaf && es[1].value == Leaf
    ensures HeightAll(es) <= 1 && SizeAll(es) == 2
  {
    assert HeightAll([]) == 0 && SizeAll([]) == 0;
    assert Height(Leaf) == 0 && Size(Leaf) == 1;
    assert es[..1] == [es[0]] && es[..1][..0] == [];
    assert HeightAll(es[..1]) == 1 && SizeAll(es[..1]) == 1;
  }

  /** The exception is real: a table keyed by both zeros is exported, and refused by the check. */
  lemma BothZeroesRefused(c: Codec)
    requires Faithful(c)
    ensures exists g: Graph, v: Lua, x: Value :: Snapshot(g, v, x, c.show) && Check(NodeJson(x), 0, c.parse).None?
  {
    var a, b := RawEntry(RawKey.NumberKey(Zero(false)), Flag(true)), RawEntry(RawKey.NumberKey(Zero(true)), Flag(true));
    var d, e := Entry("number", c.show(Zero(false)), Leaf), Entry("number", c.show(Zero(true)), Leaf);
    var g: Graph := map[0 := [a, b]];
    var es := if EntryLe(d, e) then [d, e] else [e, d];
    assert Contents(g, 0) == [a, b];
    ZeroesDiffer(c);
    LeafMatches(g, Zero(false), c);
    LeafMatches(g, Zero(true), c);
    assert !SameKey(d, e) && IsZeroKey(d, false, c.show) && IsZeroKey(e, true, c.show);
    hide *;
    TwoCover(g, a, b, d, e, c.show);
    TwoLeaves(es);
    PairRefused(g, es, d, e, c);
  }

  lemma PairRefused(g: Graph, es: seq<Entry>, d: Entry, e: Entry, c: Codec)
    requires Faithful(c) && Covers(g, Contents(g, 0), es, c.show) && HeightAll(es) <= 1 && SizeAll(es) == 2
    requires es == [d, e] || es == [e, d]
    requires IsZeroKey(d, false, c.show) && IsZeroKey(e, true, c.show)
    ensures exists x: Value :: Snapshot(g, Table(0), x, c.show) && Check(NodeJson(x), 0, c.parse).None?
  {
    var x := Value("table", None, es);
    hide Covers, HeightAll, SizeAll, IsZeroKey, Faithful, Check, NodeJson, Contents;
    assert Snapshot(g, Table(0), x, c.show);
    hide Snapshot, Unfolds;
    assert es[0] == d || es[1] == d;
    assert es[0] == e || es[1] == e;
    assert !NoZeroPair(x, c.show);
    hide NoZeroPair;
    ExportAgrees(g, Table(0), x, c);
  }
}
