/** The definition snapshot on its way through both programs: the hand-written Java printer, and the
    Python check that must find the same bytes (RuntimeCatalogExporter.java, tools/check_pz_catalog.py). */
module DefinitionExport {
  import opened Common
  import opened DefinitionTable
  import opened Json

  // ---- the node as JSON

  function NodeJson(v: Value): (j: Json)
    decreases v, 1
  {
    Obj([Field("type", Str(v.kind)), Field("scalar", ScalarJson(v.scalar)), Field("entries", Arr(EntriesJson(v.entries)))])
  }

  function ScalarJson(s: Option<string>): (j: Json) {
    if s.None? then Null else Str(s.value)
  }

  function EntryJson(e: Entry): (j: Json)
    decreases e, 2
  {
    Obj([Field("key_type", Str(e.keyType)), Field("key", Str(e.key)), Field("value", NodeJson(e.value))])
  }

  function EntriesJson(es: seq<Entry>): (r: seq<Json>)
    ensures |r| == |es|
    decreases es, |es|
  {
    if es == [] then [] else EntriesJson(es[..|es| - 1]) + [EntryJson(es[|es| - 1])]
  }

  lemma {:induction false} EntriesJsonAt(es: seq<Entry>, i: nat)
    requires i < |es|
    ensures EntriesJson(es)[i] == EntryJson(es[i])
  {
    hide EntryJson;
    if i < |es| - 1 {
      EntriesJsonAt(es[..|es| - 1], i);
    }
  }

  // ---- the Java printer

  lemma {:induction false} EscapeMore(s: string, c: char)
    ensures Escape(s + [c]) == Escape(s) + EscapeChar(c)
  {
    hide EscapeChar;
    if s == "" {
      assert "" + [c] == [c] && [c][1..] == "";
    } else {
      assert (s + [c])[0] == s[0] && (s + [c])[1..] == s[1..] + [c];
      EscapeMore(s[1..], c);
    }
  }

  /** String.format with %04x. */
  function FourHex(n: nat): (r: string)
    requires n < 0x10000
  {
    [HexDigit(n / 4096), HexDigit(n / 256 % 16), HexDigit(n / 16 % 16), HexDigit(n % 16)]
  }

  lemma HexDigitReads(n: nat)
    requires n < 16
    ensures HexValue(HexDigit(n)) == Some(n)
  {}

  lemma FourHexReads(n: nat)
    requires n < 0x10000
    ensures HexUnit(FourHex(n)) == Some(n)
  {
    var a, b, c, d := n / 4096, n / 256 % 16, n / 16 % 16, n % 16;
    HexDigitReads(a);
    HexDigitReads(b);
    HexDigitReads(c);
    HexDigitReads(d);
    hide HexDigit, HexValue;
    assert n / 16 / 16 == n / 256 && n / 256 / 16 == n / 4096;
  }

  /** The switch of the Java method quote; a character above 0xFFFF is two units there, both of them copied. */
  method QuoteUnit(c: char) returns (r: string)
    ensures r == EscapeChar(c)
  {
    if c == '"' { return "\\\""; }
    if c == '\\' { return "\\\\"; }
    if c as int == 8 { return "\\b"; }
    if c as int == 12 { return "\\f"; }
    if c == '\n' { return "\\n"; }
    if c == '\r' { return "\\r"; }
    if c == '\t' { return "\\t"; }
    if c as int < 0x20 {
      r := "\\u" + FourHex(c as int);
      assert FourHex(c as int)[..2] == "00";
      assert FourHex(c as int) == "00" + [HexDigit(c as int / 16), HexDigit(c as int % 16)];
      return;
    }
    r := [c];
  }

  lemma QuotedText(s: string)
    ensures Dump(ScalarJson(Some(s))) == "\"" + Escape(s) + "\"" && Escape(s[..0]) == ""
  {}

  lemma NullText()
    ensures Dump(ScalarJson(None)) == "null"
  {}

  method JavaQuote(value: Option<string>) returns (out: string)
    ensures out == Dump(ScalarJson(value))
  {
    hide EscapeChar, Escape, Dump, ScalarJson;
    if value.None? {
      NullText();
      return "null";
    }
    QuotedText(value.value);
    out := "\"";
    var i := 0;
    while i < |value.value|
      invariant 0 <= i <= |value.value|
      invariant out == "\"" + Escape(value.value[..i])
    {
      var unit := QuoteUnit(value.value[i]);
      out := out + unit;
      EscapeMore(value.value[..i], value.value[i]);
      assert value.value[..i + 1] == value.value[..i] + [value.value[i]];
      i := i + 1;
    }
    assert value.value[..i] == value.value;
    out := out + "\"";
  }

  lemma DumpFirst(j: Json, items: seq<Json>)
    ensures DumpItems([j] + items) == Dump(j) + if items == [] then "" else "," + DumpItems(items)
  {
    hide Dump;
    assert ([j] + items)[1..] == items;
  }

  lemma {:induction false} DumpMore(items: seq<Json>, j: Json)
    ensures DumpItems(items + [j]) == (if items == [] then "" else DumpItems(items) + ",") + Dump(j)
  {
    hide Dump, DumpItems;
    if items == [] {
      DumpFirst(j, []);
      assert [] + [j] == [j] + [];
      assert Dump(j) + "" == Dump(j) && "" + Dump(j) == Dump(j);
    } else {
      var rest := items[1..];
      DumpMore(rest, j);
      DumpFirst(items[0], rest + [j]);
      DumpFirst(items[0], rest);
      assert items + [j] == [items[0]] + (rest + [j]) && items == [items[0]] + rest;
      var first := Dump(items[0]);
      if rest == [] {
        assert first + "" == first && "" + Dump(j) == Dump(j);
        assert first + ("," + Dump(j)) == first + "," + Dump(j);
      } else {
        assert first + ("," + (DumpItems(rest) + "," + Dump(j))) == first + ("," + DumpItems(rest)) + "," + Dump(j);
      }
    }
  }

  /** One more member: the builder appends its name with the punctuation around it, then its value. */
  lemma Append(s: string, before: string, name: string, value: string)
    ensures s + before + (name + ":" + value) == s + (before + name + ":") + value
  {}

  predicate PlainName(s: string) {
    forall i :: 0 <= i < |s| ==> ' ' < s[i] && s[i] != '"' && s[i] != '\\'
  }

  lemma NamesArePlain()
    ensures PlainName("type") && PlainName("scalar") && PlainName("entries")
    ensures PlainName("key_type") && PlainName("key") && PlainName("value")
  {}

  function Bare(name: string): (r: string) {
    "\"" + name + "\""
  }

  lemma FieldPlain(f: Field)
    requires PlainName(f.name)
    ensures FieldText(f) == Bare(f.name) + ":" + Dump(f.value)
  {
    hide Dump;
    Plain(f.name);
  }

  lemma ThreeFields(f: Field, g: Field, h: Field)
    ensures Dump(Obj([f, g, h])) == "{" + FieldText(f) + "," + FieldText(g) + "," + FieldText(h) + "}"
  {
    hide FieldText;
    assert [f, g, h][1..] == [g, h] && [g, h][1..] == [h];
    assert DumpFields([h]) == FieldText(h) + "" == FieldText(h);
    assert DumpFields([g, h]) == FieldText(g) + ("," + FieldText(h));
    assert DumpFields([f, g, h]) == FieldText(f) + ("," + (FieldText(g) + ("," + FieldText(h))));
    hide DumpFields;
    assert "{" + (FieldText(f) + ("," + (FieldText(g) + ("," + FieldText(h))))) + "}"
        == "{" + FieldText(f) + "," + FieldText(g) + "," + FieldText(h) + "}";
  }

  /** Three members, each appended as its name with the punctuation around it and then its value. */
  function Members(a: string, x: string, b: string, y: string, c: string, z: string): (r: string) {
    "{" + a + ":" + x + ("," + b + ":") + y + ("," + c + ":") + z + "}"
  }

  lemma ThreeTexts(f: Field, g: Field, h: Field)
    requires PlainName(f.name) && PlainName(g.name) && PlainName(h.name)
    ensures Dump(Obj([f, g, h])) ==
      Members(Bare(f.name), Dump(f.value), Bare(g.name), Dump(g.value), Bare(h.name), Dump(h.value))
  {
    hide PlainName, Bare, Dump, FieldText;
    FieldPlain(f);
    FieldPlain(g);
    FieldPlain(h);
    ThreeFields(f, g, h);
    var s := "{" + Bare(f.name) + ":" + Dump(f.value);
    var t := s + ("," + Bare(g.name) + ":") + Dump(g.value);
    assert "{" + (Bare(f.name) + ":" + Dump(f.value)) == s;
    Append(s, ",", Bare(g.name), Dump(g.value));
    Append(t, ",", Bare(h.name), Dump(h.value));
  }

  /** A node as the Java builder writes it. */
  function NodeBuilt(kind: string, scalar: string, items: string): (r: string) {
    "{\"type\":" + kind + ",\"scalar\":" + scalar + ",\"entries\":[" + items + "]}"
  }

  lemma NodeGlue(kind: string, scalar: string, items: string)
    ensures Members(Bare("type"), kind, Bare("scalar"), scalar, Bare("entries"), "[" + items + "]") == NodeBuilt(kind, scalar, items)
  {
    assert "{" + Bare("type") + ":" == "{\"type\":";
    assert "," + Bare("scalar") + ":" == ",\"scalar\":";
    assert "," + Bare("entries") + ":" == ",\"entries\":";
    assert ",\"entries\":[" == ",\"entries\":" + "[";
    assert "]}" == "]" + "}";
    hide Bare;
    Bracket("{\"type\":" + kind + ",\"scalar\":" + scalar, ",\"entries\":", items);
  }

  lemma Bracket(s: string, name: string, items: string)
    ensures s + name + ("[" + items + "]") + "}" == s + (name + "[") + items + ("]" + "}")
  {}

  lemma NodeText(v: Value)
    ensures Dump(NodeJson(v)) == NodeBuilt(Quote(v.kind), Dump(ScalarJson(v.scalar)), DumpItems(EntriesJson(v.entries)))
  {
    var f, g, h := Field("type", Str(v.kind)), Field("scalar", ScalarJson(v.scalar)), Field("entries", Arr(EntriesJson(v.entries)));
    var items := DumpItems(EntriesJson(v.entries));
    assert NodeJson(v) == Obj([f, g, h]);
    assert Dump(f.value) == Quote(v.kind) && Dump(h.value) == "[" + items + "]";
    hide *;
    NamesArePlain();
    ThreeTexts(f, g, h);
    NodeGlue(Dump(f.value), Dump(g.value), items);
  }

  /** An entry as the Java builder writes it. */
  function EntryBuilt(keyType: string, key: string, value: string): (r: string) {
    "{\"key_type\":" + keyType + ",\"key\":" + key + ",\"value\":" + value + "}"
  }

  lemma EntryGlue(keyType: string, key: string, value: string)
    ensures Members(Bare("key_type"), keyType, Bare("key"), key, Bare("value"), value) == EntryBuilt(keyType, key, value)
  {
    assert "{" + Bare("key_type") + ":" == "{\"key_type\":";
    assert "," + Bare("key") + ":" == ",\"key\":";
    assert "," + Bare("value") + ":" == ",\"value\":";
    hide Bare;
  }

  lemma EntryText(e: Entry)
    ensures Dump(EntryJson(e)) == EntryBuilt(Quote(e.keyType), Quote(e.key), Dump(NodeJson(e.value)))
  {
    var f, g, h := Field("key_type", Str(e.keyType)), Field("key", Str(e.key)), Field("value", NodeJson(e.value));
    assert EntryJson(e) == Obj([f, g, h]);
    assert Dump(f.value) == Quote(e.keyType) && Dump(g.value) == Quote(e.key);
    hide *;
    NamesArePlain();
    ThreeTexts(f, g, h);
    EntryGlue(Dump(f.value), Dump(g.value), Dump(h.value));
  }

  lemma {:induction false} Plain(s: string)
    requires PlainName(s)
    ensures Escape(s) == s && Quote(s) == "\"" + s + "\""
  {
    if s != "" {
      Plain(s[1..]);
      assert s == [s[0]] + s[1..];
    }
  }

  /** definitionJson prints exactly the compact JSON of the node. */
  method DefinitionJson(value: Value) returns (out: string)
    ensures out == Dump(NodeJson(value))
    decreases value
  {
    hide Dump, Quote, NodeJson, EntryJson, EntriesJson, DumpItems, ScalarJson, EntryBuilt;
    var kind := JavaQuote(Some(value.kind));
    var scalar := JavaQuote(value.scalar);
    ghost var head := "{\"type\":" + kind + ",\"scalar\":" + scalar + ",\"entries\":[";
    out := "{\"type\":" + kind + ",\"scalar\":" + scalar + ",\"entries\":[";
    var first := true;
    var i := 0;
    EntriesPrefix(value.entries, 0);
    while i < |value.entries|
      invariant 0 <= i <= |value.entries| && (first <==> i == 0)
      invariant out == head + DumpItems(EntriesJson(value.entries[..i]))
    {
      EntriesPrefix(value.entries, i);
      if !first {
        out := out + ",";
      }
      first := false;
      var entry := EntryLine(value.entries[i]);
      out := out + entry;
      i := i + 1;
    }
    assert value.entries[..i] == value.entries;
    NodeText(value);
    ScalarText(value.kind);
    out := out + "]}";
  }

  method EntryLine(entry: Entry) returns (out: string)
    ensures out == Dump(EntryJson(entry))
    decreases entry
  {
    hide Dump, Quote, NodeJson, EntryJson, ScalarJson;
    var keyType := JavaQuote(Some(entry.keyType));
    var key := JavaQuote(Some(entry.key));
    var value := DefinitionJson(entry.value);
    EntryText(entry);
    ScalarText(entry.keyType);
    ScalarText(entry.key);
    out := "{\"key_type\":" + keyType + ",\"key\":" + key + ",\"value\":" + value + "}";
  }

  lemma ScalarText(s: string)
    ensures Dump(ScalarJson(Some(s))) == Quote(s)
  {}

  lemma EntriesPrefix(es: seq<Entry>, i: nat)
    requires i <= |es|
    ensures i == 0 ==> DumpItems(EntriesJson(es[..i])) == ""
    ensures i < |es| ==>
      DumpItems(EntriesJson(es[..i + 1])) == (if i == 0 then "" else DumpItems(EntriesJson(es[..i])) + ",") + Dump(EntryJson(es[i]))
  {
    hide Dump, EntryJson;
    if i < |es| {
      assert es[..i + 1][..i] == es[..i] && es[..i + 1][i] == es[i];
      DumpMore(EntriesJson(es[..i]), EntryJson(es[i]));
    }
  }
}
