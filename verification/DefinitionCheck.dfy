/** The Python check of a definition snapshot, and what it makes of every snapshot the Java side exports
    (tools/check_pz_catalog.py). */
module DefinitionCheck {
  import opened Common
  import opened DefinitionTable
  import opened Json
  import opened DefinitionExport

  // ---- dictionaries

  function Member(j: Json, name: string): (r: Json)
    requires j.Obj?
  {
    Lookup(j.fields, name)
  }

  function Lookup(fields: seq<Field>, name: string): (r: Json) {
    if fields == [] then Null else if fields[0].name == name then fields[0].value else Lookup(fields[1..], name)
  }

  const NODE_NAMES: set<string> := {"type", "scalar", "entries"}
  const ENTRY_NAMES: set<string> := {"key_type", "key", "value"}

  /** set(node) == names, for a dictionary, which holds no name twice. */
  predicate IsRecord(j: Json, names: set<string>)
    ensures IsRecord(j, names) ==> j.Obj?
  {
    j.Obj? && (forall f :: f in j.fields ==> f.name in names) && (forall n :: n in names ==> exists f :: f in j.fields && f.name == n)
  }

  // ---- what the check accepts

  predicate Numeric(text: string, parse: string -> Option<Double>) {
    parse(text).Some? && !parse(text).value.NonFinite?
  }

  predicate ScalarOk(kind: string, scalar: Json, entries: seq<Json>, parse: string -> Option<Double>) {
    && kind in {"table", "string", "number", "boolean"}
    && (if kind == "table" then scalar.Null? else entries == [] && scalar.Str? && |scalar.text| <= STRING_LIMIT)
    && (kind == "boolean" ==> scalar.Str? && scalar.text in {"true", "false"})
    && (kind == "number" ==> scalar.Str? && Numeric(scalar.text, parse))
  }

  predicate KeyOk(keyType: Json, key: Json, parse: string -> Option<Double>) {
    && keyType.Str? && keyType.text in {"string", "number"} && key.Str? && |key.text| <= KEY_LIMIT
    && (keyType.text == "number" ==> Numeric(key.text, parse))
  }

  /** A key as Python's set compares it: the two zeros are one number. */
  datatype Identity = TextKey(text: string) | NumberKey(number: Double)

  function IdentityOf(keyType: string, key: string, parse: string -> Option<Double>): (r: Identity) {
    if keyType != "number" || parse(key).None? then Identity.TextKey(key)
    else Identity.NumberKey(if parse(key).value.Zero? then Zero(false) else parse(key).value)
  }

  ghost predicate DistinctIdentities(es: seq<Entry>, parse: string -> Option<Double>) {
    forall i, j :: 0 <= i < j < |es| ==>
      es[i].keyType != es[j].keyType || IdentityOf(es[i].keyType, es[i].key, parse) != IdentityOf(es[j].keyType, es[j].key, parse)
  }

  /** The tree a node stands for, if it passes from this depth on; the node count is not looked at. */
  ghost function Check(j: Json, depth: nat, parse: string -> Option<Double>): (r: Option<Value>)
    decreases DEPTH_LIMIT + 1 - depth, 0, 0
  {
    if depth > DEPTH_LIMIT || !IsRecord(j, NODE_NAMES) || !Member(j, "type").Str? || !Member(j, "entries").Arr? then None
    else
      var kind, scalar, entries := Member(j, "type").text, Member(j, "scalar"), Member(j, "entries").items;
      if !ScalarOk(kind, scalar, entries, parse) then None
      else
        var es := CheckAll(entries, depth + 1, parse);
        if es.None? || !DistinctIdentities(es.value, parse) then None
        else Some(Value(kind, if scalar.Str? then Some(scalar.text) else None, es.value))
  }

  ghost function CheckEntry(j: Json, depth: nat, parse: string -> Option<Double>): (r: Option<Entry>)
    decreases DEPTH_LIMIT + 1 - depth, 1, 0
  {
    if !IsRecord(j, ENTRY_NAMES) || !KeyOk(Member(j, "key_type"), Member(j, "key"), parse) then None
    else
      var value := Check(Member(j, "value"), depth, parse);
      if value.None? then None else Some(Entry(Member(j, "key_type").text, Member(j, "key").text, value.value))
  }

  ghost function CheckAll(js: seq<Json>, depth: nat, parse: string -> Option<Double>): (r: Option<seq<Entry>>)
    decreases DEPTH_LIMIT + 1 - depth, 2, |js|
  {
    if js == [] then Some([])
    else
      var front := CheckAll(js[..|js| - 1], depth, parse);
      var last := CheckEntry(js[|js| - 1], depth, parse);
      if front.None? || last.None? then None else Some(front.value + [last.value])
  }

  lemma {:induction false} CheckAllAt(js: seq<Json>, depth: nat, parse: string -> Option<Double>)
    ensures CheckAll(js, depth, parse).Some? <==> forall i :: 0 <= i < |js| ==> CheckEntry(js[i], depth, parse).Some?
    ensures CheckAll(js, depth, parse).Some? ==> (
      && |CheckAll(js, depth, parse).value| == |js|
      && forall i :: 0 <= i < |js| ==> CheckEntry(js[i], depth, parse) == Some(CheckAll(js, depth, parse).value[i]))
  {
    hide CheckEntry;
    if js != [] {
      CheckAllAt(js[..|js| - 1], depth, parse);
      assert forall i :: 0 <= i < |js| - 1 ==> js[..|js| - 1][i] == js[i];
    }
  }

  // ---- the shared budget

  /** What one call makes of a node, given the budget before and after it. */
  ghost predicate Outcome(node: Json, depth: nat, parse: string -> Option<Double>, before: nat, after: nat, r: Option<Json>) {
    var checked := Check(node, depth, parse);
    if r.None? then Rejects(before, checked)
    else checked.Some? && r.value == NodeJson(checked.value) && after == before + Size(checked.value) <= NODE_LIMIT
  }

  ghost predicate EntryRejects(counted: nat, e: Option<Entry>) {
    e.None? || counted + Size(e.value.value) > NODE_LIMIT
  }

  /** The keys met so far, as Python's set holds them. */
  ghost predicate Seen(es: seq<Entry>, seen: set<(string, Identity)>, parse: string -> Option<Double>) {
    && DistinctIdentities(es, parse)
    && forall k :: k in seen <==> exists i :: 0 <= i < |es| && KeyIdentity(es[i], parse) == k
  }

  function KeyIdentity(e: Entry, parse: string -> Option<Double>): (r: (string, Identity)) {
    (e.keyType, IdentityOf(e.keyType, e.key, parse))
  }

  predicate EntryShape(entry: Json, parse: string -> Option<Double>)
    ensures EntryShape(entry, parse) ==> entry.Obj? && Member(entry, "key_type").Str? && Member(entry, "key").Str?
  {
    IsRecord(entry, ENTRY_NAMES) && KeyOk(Member(entry, "key_type"), Member(entry, "key"), parse)
  }

  /** The checks before the entries are walked. */
  predicate NodeShape(node: Json, kind: string, scalar: Json, entries: seq<Json>, parse: string -> Option<Double>) {
    && IsRecord(node, NODE_NAMES) && Member(node, "type") == Str(kind)
    && Member(node, "scalar") == scalar && Member(node, "entries") == Arr(entries) && ScalarOk(kind, scalar, entries, parse)
  }

  lemma CheckShaped(node: Json, kind: string, scalar: Json, entries: seq<Json>, depth: nat, parse: string -> Option<Double>)
    requires NodeShape(node, kind, scalar, entries, parse) && depth <= DEPTH_LIMIT
    ensures Check(node, depth, parse) == (
      var es := CheckAll(entries, depth + 1, parse);
      if es.None? || !DistinctIdentities(es.value, parse) then None
      else Some(Value(kind, if scalar.Str? then Some(scalar.text) else None, es.value)))
  {
    hide CheckAll, DistinctIdentities, ScalarOk, IsRecord, Member;
  }

  lemma NothingYet(entries: seq<Json>, depth: nat, parse: string -> Option<Double>)
    ensures CheckAll(entries[..0], depth, parse) == Some([]) && EntriesJson([]) == [] && SizeAll([]) == 0
    ensures Seen([], {}, parse)
  {}

  lemma NotAnEntry(entry: Json, depth: nat, parse: string -> Option<Double>)
    requires !EntryShape(entry, parse)
    ensures CheckEntry(entry, depth, parse).None?
  {
    hide IsRecord, KeyOk;
  }

  lemma ValueRejected(entry: Json, depth: nat, counted: nat, parse: string -> Option<Double>)
    requires EntryShape(entry, parse) && Rejects(counted, Check(Member(entry, "value"), depth, parse))
    ensures EntryRejects(counted, CheckEntry(entry, depth, parse))
  {
    hide IsRecord, KeyOk, Check, Member, Size;
  }

  lemma CheckedSoFar(entries: seq<Json>, depth: nat, i: nat, es: seq<Entry>, parse: string -> Option<Double>)
    requires i < |entries| && CheckAll(entries[..i], depth, parse) == Some(es) && CheckAll(entries, depth, parse).Some?
    ensures CheckEntry(entries[i], depth, parse).Some? && |es| == i < |CheckAll(entries, depth, parse).value|
    ensures CheckAll(entries, depth, parse).value[..i + 1] == es + [CheckEntry(entries[i], depth, parse).value]
  {
    hide CheckEntry, CheckAll;
    CheckAllAt(entries, depth, parse);
    CheckAllAt(entries[..i], depth, parse);
    var all := CheckAll(entries, depth, parse).value;
    assert forall j :: 0 <= j < i ==> entries[..i][j] == entries[j] && all[j] == es[j];
  }

  lemma ChildRejects(entries: seq<Json>, depth: nat, i: nat, es: seq<Entry>, counted: nat, parse: string -> Option<Double>)
    requires i < |entries| && CheckAll(entries[..i], depth, parse) == Some(es)
    requires EntryRejects(counted + SizeAll(es), CheckEntry(entries[i], depth, parse))
    ensures CheckAll(entries, depth, parse).None? || counted + SizeAll(CheckAll(entries, depth, parse).value) > NODE_LIMIT
  {
    hide CheckAll, CheckEntry, SizeAll;
    if CheckAll(entries, depth, parse).Some? {
      var all := CheckAll(entries, depth, parse).value;
      CheckedSoFar(entries, depth, i, es, parse);
      SizePrefix(all, i + 1);
      SizeMore(es, CheckEntry(entries[i], depth, parse).value);
    }
  }

  lemma EntryRejected(node: Json, kind: string, scalar: Json, entries: seq<Json>, depth: nat, i: nat, es: seq<Entry>,
                      counted: nat, parse: string -> Option<Double>)
    requires NodeShape(node, kind, scalar, entries, parse) && depth <= DEPTH_LIMIT && i < |entries|
    requires CheckAll(entries[..i], depth + 1, parse) == Some(es)
    requires EntryRejects(counted + 1 + SizeAll(es), CheckEntry(entries[i], depth + 1, parse))
    ensures Rejects(counted, Check(node, depth, parse))
  {
    hide Check, CheckAll, CheckEntry, NodeShape, DistinctIdentities, EntryRejects, SizeAll;
    CheckShaped(node, kind, scalar, entries, depth, parse);
    ChildRejects(entries, depth + 1, i, es, counted + 1, parse);
  }

  lemma RepeatClashes(entries: seq<Json>, depth: nat, i: nat, es: seq<Entry>, seen: set<(string, Identity)>, e: Entry,
                      parse: string -> Option<Double>)
    requires i < |entries| && CheckAll(entries[..i], depth, parse) == Some(es)
    requires CheckEntry(entries[i], depth, parse) == Some(e)
    requires Seen(es, seen, parse) && KeyIdentity(e, parse) in seen
    ensures CheckAll(entries, depth, parse).None? || !DistinctIdentities(CheckAll(entries, depth, parse).value, parse)
  {
    hide CheckAll, CheckEntry, IdentityOf;
    if CheckAll(entries, depth, parse).Some? {
      var all := CheckAll(entries, depth, parse).value;
      CheckedSoFar(entries, depth, i, es, parse);
      var k :| 0 <= k < |es| && KeyIdentity(es[k], parse) == KeyIdentity(e, parse);
      assert all[..i + 1][k] == es[k] && all[..i + 1][i] == e;
      assert all[k] == es[k] && all[i] == e;
    }
  }

  lemma RepeatRejected(node: Json, kind: string, scalar: Json, entries: seq<Json>, depth: nat, i: nat, es: seq<Entry>,
                       seen: set<(string, Identity)>, parse: string -> Option<Double>)
    requires NodeShape(node, kind, scalar, entries, parse) && depth <= DEPTH_LIMIT && i < |entries|
    requires CheckAll(entries[..i], depth + 1, parse) == Some(es) && Seen(es, seen, parse) && EntryShape(entries[i], parse)
    requires var keyType := Member(entries[i], "key_type").text;
      (keyType, IdentityOf(keyType, Member(entries[i], "key").text, parse)) in seen
    ensures Check(node, depth, parse).None?
  {
    hide Check, CheckAll, CheckEntry, NodeShape, DistinctIdentities, IdentityOf, Member, EntryShape, Seen;
    CheckShaped(node, kind, scalar, entries, depth, parse);
    EntryKey(entries[i], depth + 1, parse);
    if CheckEntry(entries[i], depth + 1, parse).Some? {
      RepeatClashes(entries, depth + 1, i, es, seen, CheckEntry(entries[i], depth + 1, parse).value, parse);
    } else {
      ChildMissing(entries, depth + 1, i, parse);
    }
  }

  lemma ChildMissing(entries: seq<Json>, depth: nat, i: nat, parse: string -> Option<Double>)
    requires i < |entries| && CheckEntry(entries[i], depth, parse).None?
    ensures CheckAll(entries, depth, parse).None?
  {
    hide CheckAll, CheckEntry;
    CheckAllAt(entries, depth, parse);
  }

  lemma EntryKey(entry: Json, depth: nat, parse: string -> Option<Double>)
    requires EntryShape(entry, parse)
    ensures CheckEntry(entry, depth, parse).Some? <==> Check(Member(entry, "value"), depth, parse).Some?
    ensures CheckEntry(entry, depth, parse).Some? ==>
      CheckEntry(entry, depth, parse)
      == Some(Entry(Member(entry, "key_type").text, Member(entry, "key").text, Check(Member(entry, "value"), depth, parse).value))
  {
    hide Check, Member, IsRecord, KeyOk;
  }

  lemma OneMore(entries: seq<Json>, i: nat, es: seq<Entry>, e: Entry, seen: set<(string, Identity)>, depth: nat,
                parse: string -> Option<Double>)
    requires i < |entries| && CheckAll(entries[..i], depth, parse) == Some(es) && CheckEntry(entries[i], depth, parse) == Some(e)
    requires Seen(es, seen, parse) && KeyIdentity(e, parse) !in seen
    ensures CheckAll(entries[..i + 1], depth, parse) == Some(es + [e])
    ensures EntriesJson(es + [e]) == EntriesJson(es) + [EntryJson(e)]
    ensures SizeAll(es + [e]) == SizeAll(es) + Size(e.value)
    ensures Seen(es + [e], seen + {KeyIdentity(e, parse)}, parse)
  {
    hide CheckEntry, EntryJson, IdentityOf;
    assert entries[..i + 1][..i] == entries[..i] && entries[..i + 1][i] == entries[i];
    assert (es + [e])[..|es|] == es;
    SizeMore(es, e);
    hide CheckAll, EntriesJson, SizeAll, Size;
    SeenMore(es, e, seen, parse);
  }

  lemma SeenMore(es: seq<Entry>, e: Entry, seen: set<(string, Identity)>, parse: string -> Option<Double>)
    requires Seen(es, seen, parse) && KeyIdentity(e, parse) !in seen
    ensures Seen(es + [e], seen + {KeyIdentity(e, parse)}, parse)
  {
    hide IdentityOf;
    var more := es + [e];
    forall k | k in seen + {KeyIdentity(e, parse)} ensures exists i :: 0 <= i < |more| && KeyIdentity(more[i], parse) == k {
      if k == KeyIdentity(e, parse) {
        assert more[|es|] == e;
      } else {
        var i :| 0 <= i < |es| && KeyIdentity(es[i], parse) == k;
        assert more[i] == es[i];
      }
    }
    forall i, j | 0 <= i < j < |more|
      ensures more[i].keyType != more[j].keyType || IdentityOf(more[i].keyType, more[i].key, parse) != IdentityOf(more[j].keyType, more[j].key, parse)
    {
      assert more[i] == es[i] && KeyIdentity(es[i], parse) in seen;
      if j < |es| { assert more[j] == es[j]; }
    }
    forall i | 0 <= i < |more| ensures KeyIdentity(more[i], parse) in seen + {KeyIdentity(e, parse)} {
      if i < |es| { assert more[i] == es[i] && KeyIdentity(es[i], parse) in seen; }
    }
  }

  lemma AllChecked(node: Json, kind: string, scalar: Json, entries: seq<Json>, depth: nat, es: seq<Entry>,
                   seen: set<(string, Identity)>, parse: string -> Option<Double>)
    requires NodeShape(node, kind, scalar, entries, parse) && depth <= DEPTH_LIMIT
    requires CheckAll(entries, depth + 1, parse) == Some(es) && Seen(es, seen, parse)
    ensures Check(node, depth, parse).Some?
    ensures NodeJson(Check(node, depth, parse).value) ==
      Obj([Field("type", Str(kind)), Field("scalar", scalar), Field("entries", Arr(EntriesJson(es)))])
    ensures Size(Check(node, depth, parse).value) == 1 + SizeAll(es)
  {
    CheckShaped(node, kind, scalar, entries, depth, parse);
    hide Check, CheckAll, IsRecord, Member, EntriesJson, SizeAll, DistinctIdentities;
  }

  class Validator {
    var budget: nat

    constructor ()
      ensures budget == 0
    {
      budget := 0;
    }

    /** validate_definition_node: the cleaned node, or None where the source raises. */
    method Validate(node: Json, depth: nat, parse: string -> Option<Double>) returns (r: Option<Json>)
      modifies this
      ensures Outcome(node, depth, parse, old(budget), budget, r)
      decreases DEPTH_LIMIT + 1 - depth, 1
    {
      hide CheckAll, CheckEntry, ScalarOk, DistinctIdentities, NodeJson, Member, IsRecord;
      budget := budget + 1;
      if depth > DEPTH_LIMIT || budget > NODE_LIMIT {
        return None;
      }
      if !IsRecord(node, NODE_NAMES) || !Member(node, "type").Str? || !Member(node, "entries").Arr? {
        return None;
      }
      var kind, scalar, entries := Member(node, "type").text, Member(node, "scalar"), Member(node, "entries").items;
      if !ScalarOk(kind, scalar, entries, parse) {
        return None;
      }
      hide Check, Outcome, Size;
      r := ValidateEntries(node, kind, scalar, entries, depth, parse);
    }

    method ValidateEntries(node: Json, kind: string, scalar: Json, entries: seq<Json>, depth: nat, parse: string -> Option<Double>)
      returns (r: Option<Json>)
      requires depth <= DEPTH_LIMIT && NodeShape(node, kind, scalar, entries, parse) && 1 <= budget <= NODE_LIMIT
      modifies this
      ensures Outcome(node, depth, parse, old(budget) - 1, budget, r)
      decreases DEPTH_LIMIT + 1 - depth, 0
    {
      hide Check, CheckAll, CheckEntry, NodeShape, EntryShape, NodeJson, EntriesJson, Member, IdentityOf, Seen, Size, SizeAll, Rejects, EntryRejects;
      var seen: set<(string, Identity)> := {};
      var clean: seq<Json> := [];
      ghost var es: seq<Entry> := [];
      var i := 0;
      NothingYet(entries, depth + 1, parse);
      while i < |entries|
        invariant 0 <= i <= |entries|
        invariant CheckAll(entries[..i], depth + 1, parse) == Some(es) && clean == EntriesJson(es)
        invariant Seen(es, seen, parse)
        invariant budget == old(budget) + SizeAll(es) <= NODE_LIMIT
      {
        var entry := entries[i];
        if !EntryShape(entry, parse) {
          NotAnEntry(entry, depth + 1, parse);
          NoEntryRejects(old(budget) + SizeAll(es));
          EntryRejected(node, kind, scalar, entries, depth, i, es, old(budget) - 1, parse);
          return None;
        }
        var keyType, key := Member(entry, "key_type").text, Member(entry, "key").text;
        var identity := (keyType, IdentityOf(keyType, key, parse));
        if identity in seen {
          RepeatRejected(node, kind, scalar, entries, depth, i, es, seen, parse);
          NoneRejects(old(budget) - 1);
          return None;
        }
        var value := Validate(Member(entry, "value"), depth + 1, parse);
        if value.None? {
          ValueRejected(entry, depth + 1, old(budget) + SizeAll(es), parse);
          EntryRejected(node, kind, scalar, entries, depth, i, es, old(budget) - 1, parse);
          return None;
        }
        EntryKey(entry, depth + 1, parse);
        ghost var e := Entry(keyType, key, Check(Member(entry, "value"), depth + 1, parse).value);
        OneMore(entries, i, es, e, seen, depth + 1, parse);
        seen := seen + {identity};
        clean := clean + [Obj([Field("key_type", Str(keyType)), Field("key", Str(key)), Field("value", value.value)])];
        es := es + [e];
        i := i + 1;
      }
      assert entries[..i] == entries;
      AllChecked(node, kind, scalar, entries, depth, es, seen, parse);
      r := Some(Obj([Field("type", Str(kind)), Field("scalar", scalar), Field("entries", Arr(clean))]));
    }
  }

  lemma NoEntryRejects(counted: nat)
    ensures EntryRejects(counted, None)
  {}

  lemma NoneRejects(counted: nat)
    ensures Rejects(counted, None)
  {}
}
