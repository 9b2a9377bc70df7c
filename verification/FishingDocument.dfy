/** The fishing definitions as one document: nine snapshots under fixed names, printed by the Java side
    and re-dumped by the Python check before the digests are compared
    (RuntimeCatalogExporter.java, tools/check_pz_catalog.py). */
module FishingDocument {
  import opened Common
  import opened DefinitionTable
  import opened Json
  import opened DefinitionExport
  import opened DefinitionCheck
  import opened DefinitionAgreement

  /** The names in the order Java's TreeMap and Python's sorted both give them. */
  const FISHING_FIELDS: seq<string> := [
    "breakRodReplacement", "fishNet", "fishNetWithBait", "fishes", "hook", "line", "lure", "rods", "trashItems"]

  /** Two names that differ first in ASCII characters compare alike by code point and by UTF-16 unit. */
  lemma {:induction false} AsciiOrder(prefix: string, a: char, b: char, s: string, t: string)
    requires a < b && b as int < 128 && forall i :: 0 <= i < |prefix| ==> prefix[i] as int < 128
    ensures StrLe(prefix + [a] + s, prefix + [b] + t) && JavaLe(prefix + [a] + s, prefix + [b] + t)
    decreases |prefix|
  {
    var x, y := prefix + [a] + s, prefix + [b] + t;
    if prefix == "" {
      assert x[0] == a && y[0] == b && Codes(x)[0] == a as int && Codes(y)[0] == b as int;
      assert Utf16(x)[0] == a as int && Utf16(y)[0] == b as int;
    } else {
      var rest := prefix[1..];
      AsciiOrder(rest, a, b, s, t);
      assert x == [prefix[0]] + (rest + [a] + s) && y == [prefix[0]] + (rest + [b] + t);
      assert Codes(x)[1..] == Codes(rest + [a] + s) && Codes(y)[1..] == Codes(rest + [b] + t);
      assert x[1..] == rest + [a] + s && y[1..] == rest + [b] + t;
      assert Utf16(x) == [prefix[0] as int] + Utf16(x[1..]) && Utf16(y) == [prefix[0] as int] + Utf16(y[1..]);
      assert Utf16(x)[1..] == Utf16(x[1..]) && Utf16(y)[1..] == Utf16(y[1..]);
    }
  }

  lemma Between(x: string, y: string, n: nat)
    requires n < |x| && n < |y| && x[..n] == y[..n] && x[n] < y[n] && y[n] as int < 128
    requires forall i :: 0 <= i < n ==> x[i] as int < 128
    ensures StrLe(x, y) && JavaLe(x, y)
  {
    assert x == x[..n] + [x[n]] + x[n + 1..] && y == x[..n] + [y[n]] + y[n + 1..];
    AsciiOrder(x[..n], x[n], y[n], x[n + 1..], y[n + 1..]);
  }

  lemma PrefixOrder(x: string, t: string)
    ensures StrLe(x, x + t) && JavaLe(x, x + t)
    decreases |x|
  {
    if x != "" {
      PrefixOrder(x[1..], t);
      var y := x + t;
      assert y[1..] == x[1..] + t && y[0] == x[0];
      assert Codes(x)[1..] == Codes(x[1..]) && Codes(y)[1..] == Codes(y[1..]);
      SameHead(Units(x[0]), Utf16(x[1..]), Utf16(y[1..]));
    }
  }

  lemma {:induction false} SameHead(head: seq<int>, s: seq<int>, t: seq<int>)
    requires LexLe(s, t)
    ensures LexLe(head + s, head + t)
  {
    if head == [] {
      assert head + s == s && head + t == t;
    } else {
      SameHead(head[1..], s, t);
      assert (head + s)[1..] == head[1..] + s && (head + t)[1..] == head[1..] + t;
    }
  }

  /** Both orders list the nine names alike. */
  lemma NamesSortedBothWays(i: nat)
    requires i < 8
    ensures StrLe(FISHING_FIELDS[i], FISHING_FIELDS[i + 1]) && JavaLe(FISHING_FIELDS[i], FISHING_FIELDS[i + 1])
    ensures FISHING_FIELDS[i] != FISHING_FIELDS[i + 1]
  {
    hide StrLe, JavaLe;
    if i == 1 {
      PrefixOrder("fishNet", "WithBait");
      assert "fishNet" + "WithBait" == "fishNetWithBait";
    } else {
      Between(FISHING_FIELDS[i], FISHING_FIELDS[i + 1], if i == 2 then 4 else if i == 5 then 1 else 0);
    }
  }

  function FieldList(names: seq<string>, values: seq<Value>): (r: seq<Field>)
    requires |names| == |values|
    ensures |r| == |names|
  {
    seq(|names|, i requires 0 <= i < |names| => Field(names[i], NodeJson(values[i])))
  }

  function Document(fields: seq<Field>): (j: Json) {
    Obj([Field("schema_version", Int(1)), Field("npc_compatibility", Str("UNKNOWN")), Field("fields", Obj(fields))])
  }

  lemma {:induction false} DumpMoreFields(fields: seq<Field>, f: Field)
    ensures DumpFields(fields + [f]) == (if fields == [] then "" else DumpFields(fields) + ",") + FieldText(f)
  {
    hide FieldText, DumpFields;
    if fields == [] {
      DumpFirstField(f, []);
      assert [] + [f] == [f] + [];
      assert FieldText(f) + "" == FieldText(f) && "" + FieldText(f) == FieldText(f);
    } else {
      var rest := fields[1..];
      DumpMoreFields(rest, f);
      DumpFirstField(fields[0], rest + [f]);
      DumpFirstField(fields[0], rest);
      assert fields + [f] == [fields[0]] + (rest + [f]) && fields == [fields[0]] + rest;
      var first := FieldText(fields[0]);
      if rest == [] {
        assert first + "" == first && "" + FieldText(f) == FieldText(f);
        assert first + ("," + FieldText(f)) == first + "," + FieldText(f);
      } else {
        assert first + ("," + (DumpFields(rest) + "," + FieldText(f))) == first + ("," + DumpFields(rest)) + "," + FieldText(f);
      }
    }
  }

  lemma DumpFirstField(f: Field, fields: seq<Field>)
    ensures DumpFields([f] + fields) == FieldText(f) + if fields == [] then "" else "," + DumpFields(fields)
  {
    hide FieldText;
    assert ([f] + fields)[1..] == fields;
  }

  /** The head of the document, in pieces. */
  const OPENING: string := "{\"schema_version\":1" + ",\"npc_compatibility\":" + "\"UNKNOWN\"" + ",\"fields\":{"

  function DocumentBuilt(fields: string): (r: string) {
    OPENING + fields + "}}"
  }

  lemma DocumentNames()
    ensures PlainName("schema_version") && PlainName("npc_compatibility") && PlainName("fields") && PlainName("UNKNOWN")
  {}

  lemma DocumentValues(fields: seq<Field>)
    ensures Dump(Int(1)) == "1" && Dump(Str("UNKNOWN")) == "\"" + "UNKNOWN" + "\"" && Dump(Obj(fields)) == "{" + DumpFields(fields) + "}"
  {
    DocumentNames();
    hide DumpFields;
    Plain("UNKNOWN");
    assert Digits(1) == "1";
  }

  lemma DocumentText(fields: seq<Field>)
    ensures Dump(Document(fields)) == DocumentBuilt(DumpFields(fields))
  {
    var f, g, h := Field("schema_version", Int(1)), Field("npc_compatibility", Str("UNKNOWN")), Field("fields", Obj(fields));
    assert Document(fields) == Obj([f, g, h]);
    hide *;
    DocumentValues(fields);
    DocumentNames();
    ThreeTexts(f, g, h);
    DocumentGlue(DumpFields(fields));
  }

  lemma DocumentGlue(fields: string)
    ensures Members(Bare("schema_version"), "1", Bare("npc_compatibility"), "\"" + "UNKNOWN" + "\"", Bare("fields"), "{" + fields + "}")
      == DocumentBuilt(fields)
  {
    var a, b, c := "{" + Bare("schema_version") + ":" + "1", "," + Bare("npc_compatibility") + ":", "," + Bare("fields") + ":";
    var unknown := "\"" + "UNKNOWN" + "\"";
    FirstPiece();
    SecondPiece();
    LastPieces();
    hide Bare;
    assert a + b + unknown + c + ("{" + fields + "}") + "}" == a + b + unknown + (c + "{") + fields + ("}" + "}");
  }

  lemma FirstPiece()
    ensures "{" + Bare("schema_version") + ":" + "1" == "{\"schema_version\":1"
  {}

  lemma SecondPiece()
    ensures "," + Bare("npc_compatibility") + ":" == ",\"npc_compatibility\":"
  {}

  lemma LastPieces()
    ensures "\"" + "UNKNOWN" + "\"" == "\"UNKNOWN\""
    ensures "," + Bare("fields") + ":" + "{" == ",\"fields\":{"
    ensures "}" + "}" == "}}"
  {}

  /** fishingJson prints exactly the compact JSON of the document. */
  method FishingJson(names: seq<string>, values: seq<Value>) returns (out: string)
    requires |names| == |values|
    ensures out == Dump(Document(FieldList(names, values)))
  {
    hide Dump, DumpFields, FieldText, NodeJson, Document, Quote, ScalarJson;
    ghost var fields := FieldList(names, values);
    out := OPENING;
    var first := true;
    var i := 0;
    NoFields();
    assert fields[..0] == [];
    while i < |names|
      invariant 0 <= i <= |names| && (first <==> i == 0)
      invariant out == OPENING + DumpFields(fields[..i])
    {
      if !first {
        out := out + ",";
      }
      first := false;
      var name := JavaQuote(Some(names[i]));
      var value := DefinitionJson(values[i]);
      ScalarText(names[i]);
      FieldLine(names[i], values[i]);
      DumpMoreFields(fields[..i], fields[i]);
      assert fields[..i + 1] == fields[..i] + [fields[i]];
      out := out + (name + ":" + value);
      i := i + 1;
    }
    assert fields[..i] == fields;
    DocumentText(fields);
    out := out + "}}";
  }

  lemma NoFields()
    ensures DumpFields([]) == ""
  {}

  lemma FieldLine(name: string, value: Value)
    ensures FieldText(Field(name, NodeJson(value))) == Quote(name) + ":" + Dump(NodeJson(value))
  {}

  // ---- the check

  lemma {:induction false} NamesAscend(i: nat, j: nat)
    requires i < j < 9
    ensures StrLe(FISHING_FIELDS[i], FISHING_FIELDS[j]) && FISHING_FIELDS[i] != FISHING_FIELDS[j]
    decreases j - i
  {
    hide StrLe, JavaLe;
    NamesSortedBothWays(i);
    if i + 1 < j {
      NamesAscend(i + 1, j);
      StrTransitive(FISHING_FIELDS[i], FISHING_FIELDS[i + 1], FISHING_FIELDS[j]);
      StrOrder(FISHING_FIELDS[i], FISHING_FIELDS[i + 1]);
    }
  }

  const DOCUMENT_NAMES: set<string> := {"schema_version", "npc_compatibility", "fields"}

  /** The checks on the document before its fields. */
  predicate DocumentShape(detail: Json)
    ensures DocumentShape(detail) ==> detail.Obj? && Member(detail, "fields").Obj?
  {
    && IsRecord(detail, DOCUMENT_NAMES)
    && Member(detail, "schema_version") == Int(1) && Member(detail, "npc_compatibility") == Str("UNKNOWN")
    && IsRecord(Member(detail, "fields"), set i | 0 <= i < |FISHING_FIELDS| :: FISHING_FIELDS[i])
  }

  /** A member is looked up by its name. */
  lemma {:induction false} LookupHas(fields: seq<Field>, f: Field)
    requires DistinctNames(fields) && f in fields
    ensures Lookup(fields, f.name) == f.value
  {
    if fields[0] == f {
    } else {
      var i :| 0 <= i < |fields| && fields[i] == f;
      assert fields[0].name != fields[i].name && fields[1..][i - 1] == f;
      LookupHas(fields[1..], f);
    }
  }

  /** A document of this shape holds the version, the compatibility and the nine fields, in any order, and nothing else. */
  lemma DocumentShapeIs(detail: Json, f: Field)
    requires detail.Obj? && DistinctNames(detail.fields) && f in detail.fields && DocumentShape(detail)
    ensures f == Field("schema_version", Int(1)) || f == Field("npc_compatibility", Str("UNKNOWN")) || f.name == "fields"
    ensures f.name == "fields" ==> f.value.Obj? && forall g :: g in f.value.fields ==> g.name in FISHING_FIELDS
  {
    LookupHas(detail.fields, f);
  }

  ghost function CheckedField(detail: Json, i: nat, parse: string -> Option<Double>): (r: Option<Value>)
    requires DocumentShape(detail) && i < |FISHING_FIELDS|
  {
    Check(Member(Member(detail, "fields"), FISHING_FIELDS[i]), 0, parse)
  }

  ghost predicate FieldPasses(detail: Json, i: nat, parse: string -> Option<Double>)
    requires DocumentShape(detail) && i < |FISHING_FIELDS|
  {
    !Rejects(0, CheckedField(detail, i, parse)) && CheckedField(detail, i, parse).value.kind == "table"
  }

  /** Every field passes. */
  ghost predicate AllPass(detail: Json, parse: string -> Option<Double>) {
    DocumentShape(detail) && forall i :: 0 <= i < |FISHING_FIELDS| ==> FieldPasses(detail, i, parse)
  }

  /** The checked values of all fields. */
  ghost function CheckedFields(detail: Json, parse: string -> Option<Double>): (r: seq<Value>)
    requires AllPass(detail, parse)
    ensures |r| == |FISHING_FIELDS|
  {
    seq(|FISHING_FIELDS|, i requires 0 <= i < |FISHING_FIELDS| && AllPass(detail, parse) =>
      (assert FieldPasses(detail, i, parse); CheckedField(detail, i, parse).value))
  }

  /** validate_fishing_details as far as the digest is concerned: the canonical text it hashes. */
  method CanonicalFishing(detail: Json, parse: string -> Option<Double>) returns (text: Option<string>)
    ensures text.Some? <==> AllPass(detail, parse)
    ensures text.Some? ==> text.value == Dump(Document(FieldList(FISHING_FIELDS, CheckedFields(detail, parse))))
  {
    hide Check, Member, IsRecord, Dump, Document, NodeJson, Size;
    ghost var values: seq<Value> := [];
    if !DocumentShape(detail) {
      return None;
    }
    var fields := Member(detail, "fields");
    var clean: seq<Json> := [];
    var i := 0;
    while i < |FISHING_FIELDS|
      invariant 0 <= i <= |FISHING_FIELDS| && |clean| == |values| == i
      invariant forall k :: 0 <= k < i ==> FieldPasses(detail, k, parse)
      invariant forall k :: 0 <= k < i ==> CheckedField(detail, k, parse) == Some(values[k]) && clean[k] == NodeJson(values[k])
    {
      var validator := new Validator();
      var node := validator.Validate(Member(fields, FISHING_FIELDS[i]), 0, parse);
      ghost var checked := CheckedField(detail, i, parse);
      if checked.Some? {
        KindOf(checked.value);
      }
      if node.None? || !IsTable(node.value) {
        assert !FieldPasses(detail, i, parse);
        return None;
      }
      clean := clean + [node.value];
      values := values + [checked.value];
      i := i + 1;
    }
    var canonical := seq(|FISHING_FIELDS|, k requires 0 <= k < |FISHING_FIELDS| && |clean| == |FISHING_FIELDS| => Field(FISHING_FIELDS[k], clean[k]));
    assert canonical == FieldList(FISHING_FIELDS, values);
    assert values == CheckedFields(detail, parse);
    text := Some(Dump(Document(canonical)));
  }

  predicate IsTable(node: Json) {
    node.Obj? && Member(node, "type") == Str("table")
  }

  lemma KindOf(v: Value)
    ensures IsTable(NodeJson(v)) <==> v.kind == "table"
  {
    NodeMembers(v);
    hide Member;
  }

  lemma {:induction false} LookupAt(fields: seq<Field>, i: nat)
    requires i < |fields| && forall k :: 0 <= k < i ==> fields[k].name != fields[i].name
    ensures Lookup(fields, fields[i].name) == fields[i].value
  {
    if i > 0 {
      LookupAt(fields[1..], i - 1);
    }
  }

  lemma DocumentMembers(values: seq<Value>)
    requires |values| == |FISHING_FIELDS|
    ensures var j := Document(FieldList(FISHING_FIELDS, values));
      && DocumentShape(j) && Member(j, "fields") == Obj(FieldList(FISHING_FIELDS, values))
      && forall i :: 0 <= i < |values| ==> Member(Member(j, "fields"), FISHING_FIELDS[i]) == NodeJson(values[i])
  {
    hide NodeJson, Lookup;
    var list := FieldList(FISHING_FIELDS, values);
    DocumentRecord(list);
    forall i | 0 <= i < |values| ensures Lookup(list, FISHING_FIELDS[i]) == NodeJson(values[i]) {
      forall k | 0 <= k < i ensures list[k].name != list[i].name {
        NamesAscend(k, i);
      }
      LookupAt(list, i);
    }
    hide Document;
    FieldsRecord(list);
  }

  lemma DocumentRecord(list: seq<Field>)
    ensures var j := Document(list);
      && IsRecord(j, DOCUMENT_NAMES) && Member(j, "schema_version") == Int(1)
      && Member(j, "npc_compatibility") == Str("UNKNOWN") && Member(j, "fields") == Obj(list)
  {
    var f, g, h := Field("schema_version", Int(1)), Field("npc_compatibility", Str("UNKNOWN")), Field("fields", Obj(list));
    assert Document(list) == Obj([f, g, h]);
    hide *;
    ThreeMembers(f, g, h);
  }

  lemma FieldsRecord(list: seq<Field>)
    requires |list| == |FISHING_FIELDS| && forall i :: 0 <= i < |list| ==> list[i].name == FISHING_FIELDS[i]
    ensures IsRecord(Obj(list), set i | 0 <= i < |FISHING_FIELDS| :: FISHING_FIELDS[i])
  {
    forall i | 0 <= i < |list| ensures list[i] in list {}
  }

  /** The digests agree: what is exported is the compact JSON of the document, and where the nine values are snapshots
      of tables without a pair of zero keys, reading that text back and checking it hashes the exported text itself. */
  method FishingExchange(graphs: seq<Graph>, tables: seq<nat>, values: seq<Value>, c: Codec) returns (exported: string, canonical: Option<string>)
    requires |graphs| == |tables| == |values| == |FISHING_FIELDS| && Faithful(c)
    requires forall i :: 0 <= i < |values| ==> Snapshot(graphs[i], Table(tables[i]), values[i], c.show)
    ensures exported == Dump(Document(FieldList(FISHING_FIELDS, values)))
    ensures canonical ==
      if forall i :: 0 <= i < |values| ==> NoZeroPair(values[i], c.show) then Some(exported) else None
  {
    hide *;
    var list := FieldList(FISHING_FIELDS, values);
    exported := FishingJson(FISHING_FIELDS, values);
    ReadDocument(values);
    var detail := Read(exported);
    canonical := CanonicalFishing(detail.value, c.parse);
    DocumentMembers(values);
    forall i | 0 <= i < |values|
      ensures FieldPasses(detail.value, i, c.parse) <==> NoZeroPair(values[i], c.show)
      ensures FieldPasses(detail.value, i, c.parse) ==> CheckedField(detail.value, i, c.parse) == Some(values[i])
    {
      SnapshotPasses(graphs[i], tables[i], values, i, c);
    }
    FieldsAre(detail.value, values, c.parse);
  }

  lemma FieldsAre(detail: Json, values: seq<Value>, parse: string -> Option<Double>)
    requires DocumentShape(detail) && |values| == |FISHING_FIELDS|
    requires forall i :: 0 <= i < |values| && FieldPasses(detail, i, parse) ==> CheckedField(detail, i, parse) == Some(values[i])
    ensures AllPass(detail, parse) <==> forall i :: 0 <= i < |values| ==> FieldPasses(detail, i, parse)
    ensures AllPass(detail, parse) ==> CheckedFields(detail, parse) == values
  {
    hide FieldPasses, CheckedField;
    if AllPass(detail, parse) {
      assert forall i :: 0 <= i < |values| ==> FieldPasses(detail, i, parse) && CheckedFields(detail, parse)[i] == values[i];
    }
  }

  lemma SnapshotPasses(g: Graph, table: nat, values: seq<Value>, i: nat, c: Codec)
    requires |values| == |FISHING_FIELDS| && i < |values| && Snapshot(g, Table(table), values[i], c.show) && Faithful(c)
    requires DocumentShape(Document(FieldList(FISHING_FIELDS, values)))
    ensures var detail := Document(FieldList(FISHING_FIELDS, values));
      && (FieldPasses(detail, i, c.parse) <==> NoZeroPair(values[i], c.show))
      && (FieldPasses(detail, i, c.parse) ==> CheckedField(detail, i, c.parse) == Some(values[i]))
  {
    DocumentMembers(values);
    ExportAgrees(g, Table(table), values[i], c);
    assert values[i].kind == "table";
    hide Check, NoZeroPair, Faithful, Document, DocumentShape, Member, Unfolds, NodeJson, Size;
  }

  lemma ReadDocument(values: seq<Value>)
    requires |values| == |FISHING_FIELDS|
    ensures var j := Document(FieldList(FISHING_FIELDS, values)); Read(Dump(j)) == Some(j)
  {
    var list := FieldList(FISHING_FIELDS, values);
    forall i | 0 <= i < |list| ensures Clean(list[i].value) {
      NodeClean(values[i]);
    }
    forall i, j | 0 <= i < j < |list| ensures list[i].name != list[j].name {
      NamesAscend(i, j);
    }
    hide FieldList, Read, Dump;
    CleanRecord(Field("schema_version", Int(1)), Field("npc_compatibility", Str("UNKNOWN")), Field("fields", Obj(list)));
    ReadUndoesDump(Document(list));
  }
}
