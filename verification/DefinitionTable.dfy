/** The bounded snapshot of a graph of script tables
    (server-java RuntimeDefinitionTable.java). */
module DefinitionTable {
  import opened Common

  const NODE_LIMIT := 10_000
  const DEPTH_LIMIT := 12
  const STRING_LIMIT := 16_384
  const KEY_LIMIT := 4096

  /** mantissa * 2^exponent. */
  datatype Binary = Binary(mantissa: int, exponent: int)

  /** The nonzero finite numbers of binary64 (IEEE 754-2019, section 3.4), each written in one way: the mantissa has
      53 bits, or fewer at the least exponent. */
  predicate Binary64(b: Binary) {
    && b.mantissa != 0 && -0x20_0000_0000_0000 < b.mantissa < 0x20_0000_0000_0000 && -1074 <= b.exponent <= 971
    && (b.exponent == -1074 || b.mantissa >= 0x10_0000_0000_0000 || b.mantissa <= -0x10_0000_0000_0000)
  }

  /** No number is written in two ways: with a greater exponent the mantissa would have to be smaller by a power of two. */
  lemma WrittenOnce(a: Binary, b: Binary, power: nat)
    requires Binary64(a) && Binary64(b) && a.exponent < b.exponent && power >= 2
    ensures a.mantissa != b.mantissa * power
  {
    if b.mantissa > 0 {
      assert b.mantissa * power >= b.mantissa * 2;
    } else {
      assert b.mantissa * power <= b.mantissa * 2;
    }
  }

  type Nonzero = b: Binary | Binary64(b) witness Binary(1, -1074)

  /** A double as the two languages see it. */
  datatype Double = NonFinite | Zero(negative: bool) | Finite(number: Nonzero)

  /** A script value; tables live in the heap and are shared by reference. */
  datatype Lua = Text(text: string) | Flag(flag: bool) | Number(number: Double) | Perk(id: Option<string>) | Table(ref: nat) | Foreign

  datatype RawKey = TextKey(text: string) | NumberKey(number: Double) | ForeignKey

  datatype RawEntry = RawEntry(key: RawKey, value: Lua)

  /** The tables, each with its entries in the order its iterator gives them. */
  type Graph = map<nat, seq<RawEntry>>

  datatype Value = Value(kind: string, scalar: Option<string>, entries: seq<Entry>)

  datatype Entry = Entry(keyType: string, key: string, value: Value)

  // ---- Java strings: UTF-16 length and order

  function Units(c: char): (r: seq<int>)
    ensures |r| == 1 || |r| == 2
  {
    var n := c as int;
    if n < 0x10000 then [n] else [0xD800 + (n - 0x10000) / 0x400, 0xDC00 + (n - 0x10000) % 0x400]
  }

  function Utf16(s: string): (r: seq<int>)
    ensures |s| <= |r| <= 2 * |s|
  {
    if s == "" then [] else Units(s[0]) + Utf16(s[1..])
  }

  lemma UnitsDiffer(a: char, b: char, s: seq<int>, t: seq<int>)
    requires Units(a) + s == Units(b) + t
    ensures a == b && s == t
  {
    var x, y := Units(a) + s, Units(b) + t;
    assert x[0] == Units(a)[0] && y[0] == Units(b)[0];
    if a as int >= 0x10000 && b as int >= 0x10000 {
      assert x[1] == Units(a)[1] && y[1] == Units(b)[1];
    }
    assert a == b;
    assert s == x[|Units(a)|..] && t == y[|Units(b)|..];
  }

  lemma {:induction false} Utf16Injective(a: string, b: string)
    requires Utf16(a) == Utf16(b)
    ensures a == b
  {
    if a != "" && b != "" {
      UnitsDiffer(a[0], b[0], Utf16(a[1..]), Utf16(b[1..]));
      Utf16Injective(a[1..], b[1..]);
      assert a == [a[0]] + a[1..] && b == [b[0]] + b[1..];
    }
  }

  predicate JavaLe(a: string, b: string) {
    LexLe(Utf16(a), Utf16(b))
  }

  predicate JavaSpace(c: char) {
    var n := c as int;
    9 <= n <= 13 || 28 <= n <= 32 || n == 0x1680 || (0x2000 <= n <= 0x200A && n != 0x2007)
    || n == 0x2028 || n == 0x2029 || n == 0x205F || n == 0x3000
  }

  predicate Blank(s: string) {
    forall i :: 0 <= i < |s| ==> JavaSpace(s[i])
  }

  // ---- entries in key order

  /** By key type, then by key. */
  predicate EntryLe(a: Entry, b: Entry) {
    if a.keyType == b.keyType then JavaLe(a.key, b.key) else JavaLe(a.keyType, b.keyType)
  }

  predicate SameKey(a: Entry, b: Entry) {
    a.keyType == b.keyType && a.key == b.key
  }

  lemma EntryOrder(a: Entry, b: Entry)
    ensures EntryLe(a, b) || EntryLe(b, a)
    ensures EntryLe(a, b) && EntryLe(b, a) ==> SameKey(a, b)
  {
    LexTotal(Utf16(a.key), Utf16(b.key));
    LexTotal(Utf16(a.keyType), Utf16(b.keyType));
    if EntryLe(a, b) && EntryLe(b, a) {
      if a.keyType != b.keyType { Utf16Injective(a.keyType, b.keyType); } else { Utf16Injective(a.key, b.key); }
    }
  }

  lemma EntryTransitive(a: Entry, b: Entry, c: Entry)
    requires EntryLe(a, b) && EntryLe(b, c)
    ensures EntryLe(a, c)
  {
    if a.keyType == b.keyType == c.keyType {
      LexTransitive(Utf16(a.key), Utf16(b.key), Utf16(c.key));
    } else if a.keyType != b.keyType && b.keyType != c.keyType {
      LexTransitive(Utf16(a.keyType), Utf16(b.keyType), Utf16(c.keyType));
      if a.keyType == c.keyType {
        LexTotal(Utf16(a.keyType), Utf16(b.keyType));
        Utf16Injective(a.keyType, b.keyType);
      }
    }
  }

  function Insert(e: Entry, es: seq<Entry>): (r: seq<Entry>)
    ensures |r| == |es| + 1
  {
    if es == [] || EntryLe(e, es[0]) then [e] + es else [es[0]] + Insert(e, es[1..])
  }

  function Sorted(es: seq<Entry>): (r: seq<Entry>)
    ensures |r| == |es|
  {
    if es == [] then [] else Insert(es[|es| - 1], Sorted(es[..|es| - 1]))
  }

  ghost predicate InOrder(es: seq<Entry>) {
    forall i, j :: 0 <= i < j < |es| ==> EntryLe(es[i], es[j])
  }

  /** Ordered, and no key twice. */
  ghost predicate StrictlySorted(es: seq<Entry>) {
    forall i, j :: 0 <= i < j < |es| ==> EntryLe(es[i], es[j]) && !SameKey(es[i], es[j])
  }

  ghost predicate DistinctKeys(es: seq<Entry>) {
    forall i, j :: 0 <= i < j < |es| ==> !SameKey(es[i], es[j])
  }

  lemma {:induction false} InsertSorts(e: Entry, es: seq<Entry>)
    requires InOrder(es)
    ensures InOrder(Insert(e, es))
    ensures multiset(Insert(e, es)) == multiset(es) + multiset{e}
  {
    if es == [] {
    } else if EntryLe(e, es[0]) {
      forall j | 0 <= j < |es| ensures EntryLe(e, es[j]) {
        if j > 0 { EntryTransitive(e, es[0], es[j]); }
      }
    } else {
      assert es == [es[0]] + es[1..];
      InsertSorts(e, es[1..]);
      var rest := Insert(e, es[1..]);
      EntryOrder(e, es[0]);
      forall j | 0 <= j < |rest| ensures EntryLe(es[0], rest[j]) {
        assert rest[j] in multiset(rest);
        assert rest[j] == e || rest[j] in es[1..];
      }
    }
  }

  lemma {:induction false} SortedSorts(es: seq<Entry>)
    ensures InOrder(Sorted(es))
    ensures multiset(Sorted(es)) == multiset(es)
  {
    if es != [] {
      SortedSorts(es[..|es| - 1]);
      InsertSorts(es[|es| - 1], Sorted(es[..|es| - 1]));
      assert es == es[..|es| - 1] + [es[|es| - 1]];
    }
  }

  lemma StrictThenLe(a: Entry, b: Entry, c: Entry)
    requires EntryLe(a, b) && !SameKey(a, b) && EntryLe(b, c)
    ensures !SameKey(a, c)
  {
    EntryOrder(a, b);
  }

  /** In an ordered list equal keys stand side by side, so comparing neighbours finds every duplicate. */
  lemma NeighboursSuffice(es: seq<Entry>)
    requires InOrder(es)
    requires forall i :: 1 <= i < |es| ==> !SameKey(es[i - 1], es[i])
    ensures StrictlySorted(es)
  {
    hide EntryLe;
    forall i, j | 0 <= i < j < |es| ensures !SameKey(es[i], es[j]) {
      if j == i + 1 {
        assert !SameKey(es[j - 1], es[j]);
      } else {
        assert !SameKey(es[i + 1 - 1], es[i + 1]);
        StrictThenLe(es[i], es[i + 1], es[j]);
      }
    }
  }

  /** A list without duplicate keys has one strictly sorted rearrangement. */
  lemma {:induction false} SortedUnique(a: seq<Entry>, b: seq<Entry>)
    requires InOrder(a) && StrictlySorted(b) && multiset(a) == multiset(b)
    ensures a == b
  {
    assert |a| == |multiset(a)| == |multiset(b)| == |b|;
    if a != [] {
      hide *;
      SameFirst(a, b);
      Tail(a);
      Tail(b);
      TailOrdered(a);
      TailStrict(b);
      SortedUnique(a[1..], b[1..]);
    }
  }

  lemma TailOrdered(a: seq<Entry>)
    requires InOrder(a) && a != []
    ensures InOrder(a[1..])
  {
    hide EntryLe;
  }

  lemma TailStrict(a: seq<Entry>)
    requires StrictlySorted(a) && a != []
    ensures StrictlySorted(a[1..])
  {
    hide EntryLe, SameKey;
  }

  lemma Tail(a: seq<Entry>)
    requires a != []
    ensures a == [a[0]] + a[1..] && multiset(a[1..]) == multiset(a) - multiset{a[0]}
  {
    assert a == [a[0]] + a[1..];
  }

  lemma SameFirst(a: seq<Entry>, b: seq<Entry>)
    requires InOrder(a) && StrictlySorted(b) && multiset(a) == multiset(b) && a != [] && b != []
    ensures a[0] == b[0]
  {
    hide EntryLe, SameKey;
    assert a[0] in multiset(a) && b[0] in multiset(b);
    var i :| 0 <= i < |a| && a[i] == b[0];
    var j :| 0 <= j < |b| && b[j] == a[0];
    if i != 0 && j != 0 {
      assert EntryLe(a[0], a[i]);
      assert EntryLe(b[0], b[j]) && !SameKey(b[0], b[j]);
      EntryOrder(b[0], a[0]);
    }
  }

  // ---- what the reading of a value means

  datatype Codec = Codec(show: Double -> string, parse: string -> Option<Double>)

  /** The key type and text a raw key is normalized to. */
  function KeyOf(k: RawKey, show: Double -> string): (r: Option<(string, string)>) {
    match k
    case TextKey(text) => if |Utf16(text)| > KEY_LIMIT then None else Some(("string", text))
    case NumberKey(number) =>
      if number.NonFinite? || |Utf16(show(number))| > KEY_LIMIT then None else Some(("number", show(number)))
    case ForeignKey => None
  }

  /** Which raw keys come out as this key. */
  lemma KeyOfIs(k: RawKey, t: string, show: Double -> string)
    ensures var r := KeyOf(k, show);
      && (r == Some(("string", t)) <==> k == TextKey(t) && |Utf16(t)| <= KEY_LIMIT)
      && (r == Some(("number", t)) <==> k.NumberKey? && !k.number.NonFinite? && show(k.number) == t && |Utf16(t)| <= KEY_LIMIT)
      && (r.Some? ==> r.value.0 == "string" || r.value.0 == "number")
  {}

  function Scalar(v: Lua, show: Double -> string): (r: Option<Value>)
    requires !v.Table?
  {
    match v
    case Text(text) => if |Utf16(text)| > STRING_LIMIT then None else Some(Value("string", Some(text), []))
    case Flag(flag) => Some(Value("boolean", Some(if flag then "true" else "false"), []))
    case Number(number) => if number.NonFinite? then None else Some(Value("number", Some(show(number)), []))
    case Perk(id) =>
      if id.None? || Blank(id.value) || |Utf16(id.value)| > STRING_LIMIT then None else Some(Value("string", id, []))
    case Foreign => None
  }

  /** Which values a scalar of each kind is read from. */
  lemma ScalarIs(v: Lua, t: string, show: Double -> string)
    requires !v.Table?
    ensures var r := Scalar(v, show);
      && (r == Some(Value("string", Some(t), [])) <==>
            |Utf16(t)| <= STRING_LIMIT && (v == Text(t) || (v == Perk(Some(t)) && exists i :: 0 <= i < |t| && !JavaSpace(t[i]))))
      && (r == Some(Value("boolean", Some(t), [])) <==> (v == Flag(true) && t == "true") || (v == Flag(false) && t == "false"))
      && (r == Some(Value("number", Some(t), [])) <==> v.Number? && !v.number.NonFinite? && show(v.number) == t)
      && (r.Some? ==> r.value.kind in {"string", "boolean", "number"} && r.value.scalar.Some? && r.value.entries == [])
  {}

  function Contents(g: Graph, ref: nat): (r: seq<RawEntry>) {
    if ref in g then g[ref] else []
  }

  /** The unfolding of a value from this depth on, if it fits; cycles and the node count are not looked at. */
  function Snap(g: Graph, v: Lua, depth: nat, show: Double -> string): (r: Option<Value>)
    decreases DEPTH_LIMIT + 1 - depth, 1, 0
  {
    if depth > DEPTH_LIMIT then None
    else if !v.Table? then Scalar(v, show)
    else
      var es := Snaps(g, Contents(g, v.ref), depth + 1, show);
      if es.None? then None else TableOf(es.value)
  }

  function TableOf(es: seq<Entry>): (r: Option<Value>) {
    if forall i :: 1 <= i < |es| ==> !SameKey(Sorted(es)[i - 1], Sorted(es)[i]) then Some(Value("table", None, Sorted(es))) else None
  }

  function Child(g: Graph, e: RawEntry, depth: nat, show: Double -> string): (r: Option<Entry>)
    decreases DEPTH_LIMIT + 1 - depth, 2, 0
  {
    var key := KeyOf(e.key, show);
    var value := Snap(g, e.value, depth, show);
    if key.None? || value.None? then None else Some(Entry(key.value.0, key.value.1, value.value))
  }

  function Snaps(g: Graph, raw: seq<RawEntry>, depth: nat, show: Double -> string): (r: Option<seq<Entry>>)
    decreases DEPTH_LIMIT + 1 - depth, 3, |raw|
  {
    if raw == [] then Some([])
    else
      var front := Snaps(g, raw[..|raw| - 1], depth, show);
      var last := Child(g, raw[|raw| - 1], depth, show);
      if front.None? || last.None? then None else Some(front.value + [last.value])
  }

  function Size(x: Value): (n: nat)
    ensures n >= 1
    decreases x, 0
  {
    1 + SizeAll(x.entries)
  }

  function SizeAll(es: seq<Entry>): (n: nat)
    decreases es, |es|
  {
    if es == [] then 0 else SizeAll(es[..|es| - 1]) + Size(es[|es| - 1].value)
  }

  function Height(x: Value): (n: nat)
    decreases x, 0
  {
    HeightAll(x.entries)
  }

  function HeightAll(es: seq<Entry>): (n: nat)
    decreases es, |es|
  {
    if es == [] then 0
    else
      var a, b := HeightAll(es[..|es| - 1]), 1 + Height(es[|es| - 1].value);
      if a >= b then a else b
  }

  // ---- the same meaning without a depth or an order

  ghost predicate Matches(g: Graph, e: RawEntry, y: Entry, show: Double -> string)
    decreases y, 1
  {
    KeyOf(e.key, show) == Some((y.keyType, y.key)) && Unfolds(g, e.value, y.value, show)
  }

  /** Every raw entry appears once, under its normalized key, in key order. */
  ghost predicate Covers(g: Graph, raw: seq<RawEntry>, es: seq<Entry>, show: Double -> string)
    decreases es, 2
  {
    && StrictlySorted(es) && |es| == |raw|
    && (forall e :: e in raw ==> Kept(g, e, es, show))
    && (forall y :: y in es ==> Backed(g, raw, y, show))
  }

  ghost predicate Kept(g: Graph, e: RawEntry, es: seq<Entry>, show: Double -> string)
    decreases es, 1
  {
    exists y :: y in es && Matches(g, e, y, show)
  }

  ghost predicate Backed(g: Graph, raw: seq<RawEntry>, y: Entry, show: Double -> string)
    decreases y, 2
  {
    exists e :: e in raw && Matches(g, e, y, show)
  }

  /** x is the unfolding of v. */
  ghost predicate Unfolds(g: Graph, v: Lua, x: Value, show: Double -> string)
    decreases x, 0
  {
    if !v.Table? then Scalar(v, show) == Some(x)
    else x.kind == "table" && x.scalar.None? && Covers(g, Contents(g, v.ref), x.entries, show)
  }

  lemma {:induction false} HeightBound(es: seq<Entry>, n: nat)
    ensures HeightAll(es) <= n <==> forall e :: e in es ==> 1 + Height(e.value) <= n
  {
    if es != [] {
      HeightBound(es[..|es| - 1], n);
      assert es == es[..|es| - 1] + [es[|es| - 1]];
    }
  }

  /** All children or none. */
  lemma {:induction false} SnapsAll(g: Graph, raw: seq<RawEntry>, depth: nat, show: Double -> string)
    ensures Snaps(g, raw, depth, show).Some? <==> forall i :: 0 <= i < |raw| ==> Child(g, raw[i], depth, show).Some?
    ensures Snaps(g, raw, depth, show).Some? ==> (
      && |Snaps(g, raw, depth, show).value| == |raw|
      && forall i :: 0 <= i < |raw| ==> Child(g, raw[i], depth, show) == Some(Snaps(g, raw, depth, show).value[i]))
  {
    hide Child;
    if raw != [] {
      SnapsAll(g, raw[..|raw| - 1], depth, show);
      assert forall i :: 0 <= i < |raw| - 1 ==> raw[..|raw| - 1][i] == raw[i];
    }
  }

  lemma ChildMatches(g: Graph, e: RawEntry, y: Entry, depth: nat, show: Double -> string)
    requires Child(g, e, depth, show) == Some(y)
    requires Snap(g, e.value, depth, show).Some? ==> Unfolds(g, e.value, Snap(g, e.value, depth, show).value, show)
    ensures Snap(g, e.value, depth, show) == Some(y.value) && Matches(g, e, y, show)
  {
    hide KeyOf, Unfolds, Snap;
  }

  /** What is read at this depth is an unfolding that fits. */
  ghost predicate ReadFits(g: Graph, v: Lua, depth: nat, show: Double -> string) {
    var x := Snap(g, v, depth, show);
    x.Some? ==> Unfolds(g, v, x.value, show) && depth + Height(x.value) <= DEPTH_LIMIT
  }

  lemma ScalarFits(g: Graph, v: Lua, depth: nat, show: Double -> string)
    requires depth > DEPTH_LIMIT || !v.Table?
    ensures ReadFits(g, v, depth, show)
  {
    if Snap(g, v, depth, show).Some? {
      assert Snap(g, v, depth, show).value.entries == [];
    }
  }

  lemma TableFits(g: Graph, v: Lua, depth: nat, show: Double -> string)
    requires depth <= DEPTH_LIMIT && v.Table?
    requires forall e :: e in Contents(g, v.ref) ==> ReadFits(g, e.value, depth + 1, show)
    ensures ReadFits(g, v, depth, show)
  {
    var raw := Contents(g, v.ref);
    var es := Snaps(g, raw, depth + 1, show);
    if es.Some? && TableOf(es.value).Some? {
      assert Snap(g, v, depth, show) == TableOf(es.value);
      SnapsAll(g, raw, depth + 1, show);
      hide Snap, Snaps, Child, Unfolds, Height, Matches, TableOf, Contents;
      forall i | 0 <= i < |raw| ensures Matches(g, raw[i], es.value[i], show) && depth + 1 + Height(es.value[i].value) <= DEPTH_LIMIT {
        assert ReadFits(g, raw[i].value, depth + 1, show);
        ChildMatches(g, raw[i], es.value[i], depth + 1, show);
      }
      TableUnfolds(g, v, raw, es.value, depth, show);
    } else {
      assert Snap(g, v, depth, show).None?;
    }
  }

  lemma {:induction false} SnapUnfolds(g: Graph, v: Lua, depth: nat, show: Double -> string)
    ensures Snap(g, v, depth, show).Some? ==>
      Unfolds(g, v, Snap(g, v, depth, show).value, show) && depth + Height(Snap(g, v, depth, show).value) <= DEPTH_LIMIT
    decreases DEPTH_LIMIT + 1 - depth
  {
    hide Snap, Unfolds, Height;
    if depth <= DEPTH_LIMIT && v.Table? {
      forall e | e in Contents(g, v.ref) ensures ReadFits(g, e.value, depth + 1, show) {
        SnapUnfolds(g, e.value, depth + 1, show);
      }
      TableFits(g, v, depth, show);
    } else {
      ScalarFits(g, v, depth, show);
    }
  }

  lemma SortedSame(cs: seq<Entry>)
    requires TableOf(cs).Some?
    ensures StrictlySorted(Sorted(cs)) && forall y :: y in Sorted(cs) <==> y in cs
  {
    SortedSorts(cs);
    NeighboursSuffice(Sorted(cs));
    forall y ensures y in Sorted(cs) <==> y in cs {
      assert y in multiset(Sorted(cs)) <==> y in multiset(cs);
    }
  }

  lemma SortedCovers(g: Graph, raw: seq<RawEntry>, cs: seq<Entry>, show: Double -> string)
    requires |cs| == |raw| && TableOf(cs).Some?
    requires forall i :: 0 <= i < |raw| ==> Matches(g, raw[i], cs[i], show)
    ensures Covers(g, raw, Sorted(cs), show)
    ensures forall y :: y in Sorted(cs) <==> y in cs
  {
    hide Matches, TableOf, StrictlySorted, Sorted;
    SortedSame(cs);
    var es := Sorted(cs);
    forall e | e in raw ensures Kept(g, e, es, show) {
      var i :| 0 <= i < |raw| && raw[i] == e;
      assert cs[i] in es;
    }
    forall y | y in es ensures Backed(g, raw, y, show) {
      var i :| 0 <= i < |cs| && cs[i] == y;
      assert raw[i] in raw;
    }
  }

  lemma TableUnfolds(g: Graph, v: Lua, raw: seq<RawEntry>, cs: seq<Entry>, depth: nat, show: Double -> string)
    requires v.Table? && raw == Contents(g, v.ref) && |cs| == |raw| && depth <= DEPTH_LIMIT && TableOf(cs).Some?
    requires forall i :: 0 <= i < |raw| ==> Matches(g, raw[i], cs[i], show) && depth + 1 + Height(cs[i].value) <= DEPTH_LIMIT
    ensures Unfolds(g, v, TableOf(cs).value, show) && depth + Height(TableOf(cs).value) <= DEPTH_LIMIT
  {
    SortedCovers(g, raw, cs, show);
    hide Covers, Matches, Sorted, SameKey;
    HeightBound(Sorted(cs), DEPTH_LIMIT - depth);
  }

  lemma {:induction false} UnfoldsSnap(g: Graph, v: Lua, x: Value, depth: nat, show: Double -> string)
    requires Unfolds(g, v, x, show) && depth + Height(x) <= DEPTH_LIMIT
    ensures Snap(g, v, depth, show) == Some(x)
    decreases x
  {
    hide Matches, Child, Covers, Snaps, TableOf, Contents, Scalar;
    if v.Table? {
      var raw := Contents(g, v.ref);
      forall e, j | e in raw && 0 <= j < |x.entries| && Matches(g, e, x.entries[j], show)
        ensures Child(g, e, depth + 1, show) == Some(x.entries[j])
      {
        hide *;
        LowerEntry(x, j);
        MatchUnfolds(g, e, x.entries[j], show);
        UnfoldsSnap(g, e.value, x.entries[j].value, depth + 1, show);
        ChildFrom(g, e, x.entries[j], depth + 1, show);
      }
      hide Unfolds, Height;
      TableSnap(g, v, x, depth, show);
    }
  }

  lemma LowerEntry(x: Value, j: nat)
    requires j < |x.entries|
    ensures 1 + Height(x.entries[j].value) <= Height(x)
  {
    HeightBound(x.entries, Height(x));
    assert x.entries[j] in x.entries;
  }

  lemma TableSnap(g: Graph, v: Lua, x: Value, depth: nat, show: Double -> string)
    requires v.Table? && Unfolds(g, v, x, show) && depth <= DEPTH_LIMIT
    requires forall e, j :: e in Contents(g, v.ref) && 0 <= j < |x.entries| && Matches(g, e, x.entries[j], show) ==>
      Child(g, e, depth + 1, show) == Some(x.entries[j])
    ensures Snap(g, v, depth, show) == Some(x)
  {
    hide Matches, Child, Covers, Snaps, TableOf, Contents;
    ChildrenSnap(g, Contents(g, v.ref), x.entries, depth + 1, show);
  }

  lemma MatchUnfolds(g: Graph, e: RawEntry, y: Entry, show: Double -> string)
    requires Matches(g, e, y, show)
    ensures KeyOf(e.key, show) == Some((y.keyType, y.key)) && Unfolds(g, e.value, y.value, show)
  {}

  lemma ChildFrom(g: Graph, e: RawEntry, y: Entry, depth: nat, show: Double -> string)
    requires KeyOf(e.key, show) == Some((y.keyType, y.key)) && Snap(g, e.value, depth, show) == Some(y.value)
    ensures Child(g, e, depth, show) == Some(y)
  {}

  lemma ChildIs(g: Graph, raw: seq<RawEntry>, es: seq<Entry>, e: RawEntry, depth: nat, show: Double -> string)
    requires Kept(g, e, es, show)
    requires forall y :: y in es && Matches(g, e, y, show) ==> Child(g, e, depth, show) == Some(y)
    ensures Child(g, e, depth, show).Some? && Child(g, e, depth, show).value in es
  {
    hide Matches, Child;
    var y :| y in es && Matches(g, e, y, show);
  }

  lemma BackedIs(g: Graph, raw: seq<RawEntry>, cs: seq<Entry>, y: Entry, depth: nat, show: Double -> string)
    requires Backed(g, raw, y, show) && |cs| == |raw|
    requires forall e :: e in raw && Matches(g, e, y, show) ==> Child(g, e, depth, show) == Some(y)
    requires forall i :: 0 <= i < |raw| ==> Child(g, raw[i], depth, show) == Some(cs[i])
    ensures y in cs
  {
    hide Matches, Child;
    var e :| e in raw && Matches(g, e, y, show);
    var i :| 0 <= i < |raw| && raw[i] == e;
    assert cs[i] == y;
  }

  lemma ChildrenSnap(g: Graph, raw: seq<RawEntry>, es: seq<Entry>, depth: nat, show: Double -> string)
    requires Covers(g, raw, es, show)
    requires forall e, y :: e in raw && y in es && Matches(g, e, y, show) ==> Child(g, e, depth, show) == Some(y)
    ensures Snaps(g, raw, depth, show).Some? && TableOf(Snaps(g, raw, depth, show).value) == Some(Value("table", None, es))
  {
    hide Matches, Child, StrictlySorted, Kept, Backed, Snaps, TableOf;
    SnapsAll(g, raw, depth, show);
    forall i | 0 <= i < |raw| ensures Child(g, raw[i], depth, show).Some? && Child(g, raw[i], depth, show).value in es {
      assert raw[i] in raw;
      ChildIs(g, raw, es, raw[i], depth, show);
    }
    var cs := Snaps(g, raw, depth, show).value;
    forall y | y in es ensures y in cs {
      BackedIs(g, raw, cs, y, depth, show);
    }
    SameSorted(cs, es);
  }

  lemma SameSorted(cs: seq<Entry>, es: seq<Entry>)
    requires |cs| == |es| && StrictlySorted(es) && forall y :: y in cs <==> y in es
    ensures TableOf(cs) == Some(Value("table", None, es))
  {
    SameElements(cs, es);
    SortedSorts(cs);
    SortedUnique(Sorted(cs), es);
    hide EntryLe, SameKey;
    assert forall i :: 1 <= i < |es| ==> !SameKey(es[i - 1], es[i]);
  }

  function Elements(es: seq<Entry>): (r: set<Entry>) {
    set y | y in es
  }

  lemma {:induction false} ElementsSize(es: seq<Entry>)
    ensures |Elements(es)| <= |es|
    ensures |Elements(es)| == |es| ==> multiset(es) == multiset(Elements(es))
  {
    if es == [] {
      assert Elements(es) == {};
    } else {
      var front, last := es[..|es| - 1], es[|es| - 1];
      assert es == front + [last];
      ElementsSize(front);
      assert Elements(es) == Elements(front) + {last};
      if last in front {
        assert Elements(es) == Elements(front);
      } else {
        assert multiset(Elements(es)) == multiset(Elements(front)) + multiset{last};
      }
    }
  }

  lemma {:induction false} NoneTwice(es: seq<Entry>)
    requires DistinctKeys(es)
    ensures |Elements(es)| == |es|
  {
    if es == [] {
      assert Elements(es) == {};
    } else {
      var front, last := es[..|es| - 1], es[|es| - 1];
      assert es == front + [last];
      NoneTwice(front);
      assert forall i :: 0 <= i < |front| ==> front[i] == es[i] && !SameKey(es[i], last);
      assert Elements(es) == Elements(front) + {last};
    }
  }

  /** Two lists of one length with the same elements, one of them without repetition, are rearrangements. */
  lemma SameElements(a: seq<Entry>, b: seq<Entry>)
    requires |a| == |b| && StrictlySorted(b) && forall y :: y in a <==> y in b
    ensures multiset(a) == multiset(b)
  {
    assert DistinctKeys(b);
    hide EntryLe, StrictlySorted;
    NoneTwice(b);
    assert Elements(a) == Elements(b);
    ElementsSize(a);
    ElementsSize(b);
  }

  /** The unfolding depends on which entries a table has, not on the order its iterator gives them. */
  lemma {:induction false} OrderFree(g: Graph, h: Graph, v: Lua, x: Value, show: Double -> string)
    requires forall ref :: multiset(Contents(g, ref)) == multiset(Contents(h, ref))
    ensures Unfolds(g, v, x, show) <==> Unfolds(h, v, x, show)
    decreases x
  {
    if v.Table? {
      var raw, other := Contents(g, v.ref), Contents(h, v.ref);
      forall e ensures e in raw <==> e in other {
        assert e in multiset(raw) <==> e in multiset(other);
      }
      assert |raw| == |multiset(raw)| == |multiset(other)| == |other|;
      forall e, y | y in x.entries ensures Matches(g, e, y, show) <==> Matches(h, e, y, show) {
        OrderFree(g, h, e.value, y.value, show);
      }
      hide Matches, StrictlySorted, Contents, Covers;
      CoversSame(g, h, raw, other, x.entries, show);
      CoversSame(h, g, other, raw, x.entries, show);
    }
  }

  lemma CoversSame(g: Graph, h: Graph, raw: seq<RawEntry>, other: seq<RawEntry>, es: seq<Entry>, show: Double -> string)
    requires |raw| == |other| && forall e :: e in raw <==> e in other
    requires forall e, y :: y in es ==> (Matches(g, e, y, show) <==> Matches(h, e, y, show))
    ensures Covers(g, raw, es, show) ==> Covers(h, other, es, show)
  {
    hide Matches, StrictlySorted;
    if Covers(g, raw, es, show) {
      forall e | e in other ensures Kept(h, e, es, show) {
        hide Backed;
        assert Kept(g, e, es, show);
        var y :| y in es && Matches(g, e, y, show);
      }
      forall y | y in es ensures Backed(h, other, y, show) {
        hide Kept;
        assert Backed(g, raw, y, show);
        var e :| e in raw && Matches(g, e, y, show);
      }
    }
  }

  // ---- the shared counter and the ancestors

  lemma {:induction false} SizeFront(a: Entry, es: seq<Entry>)
    ensures SizeAll([a] + es) == Size(a.value) + SizeAll(es)
  {
    hide Size;
    if es == [] {
      assert [a] + es == [a] && [a][..0] == [];
    } else {
      var front, last := es[..|es| - 1], es[|es| - 1];
      SizeFront(a, front);
      assert ([a] + es)[..|es|] == [a] + front && ([a] + es)[|es|] == last;
    }
  }

  lemma {:induction false} SizeInsert(e: Entry, es: seq<Entry>)
    ensures SizeAll(Insert(e, es)) == Size(e.value) + SizeAll(es)
  {
    hide Size, EntryLe, SizeAll;
    if es == [] || EntryLe(e, es[0]) {
      SizeFront(e, es);
    } else {
      SizeInsert(e, es[1..]);
      SizeFront(es[0], Insert(e, es[1..]));
      SizeFront(es[0], es[1..]);
      assert es == [es[0]] + es[1..];
    }
  }

  lemma {:induction false} SizeSorted(es: seq<Entry>)
    ensures SizeAll(Sorted(es)) == SizeAll(es)
  {
    hide Size, Insert;
    if es != [] {
      SizeSorted(es[..|es| - 1]);
      SizeInsert(es[|es| - 1], Sorted(es[..|es| - 1]));
    }
  }

  lemma {:induction false} SizePrefix(es: seq<Entry>, i: nat)
    requires i <= |es|
    ensures SizeAll(es[..i]) <= SizeAll(es)
  {
    if i < |es| {
      SizePrefix(es[..|es| - 1], i);
      assert es[..|es| - 1][..i] == es[..i];
    } else {
      assert es[..i] == es;
    }
  }

  /** What fits at some depth is the same at every smaller one. */
  lemma SnapShallower(g: Graph, v: Lua, depth: nat, above: nat, show: Double -> string)
    requires above <= depth && Snap(g, v, depth, show).Some?
    ensures Snap(g, v, above, show) == Snap(g, v, depth, show)
  {
    SnapUnfolds(g, v, depth, show);
    hide Snap, Unfolds, Height;
    UnfoldsSnap(g, v, Snap(g, v, depth, show).value, above, show);
  }

  lemma ChildLower(g: Graph, ref: nat, depth: nat, e: RawEntry, show: Double -> string)
    requires Snap(g, Table(ref), depth, show).Some? && e in Contents(g, ref)
    ensures depth < DEPTH_LIMIT && Snap(g, e.value, depth + 1, show).Some?
    ensures Height(Snap(g, e.value, depth + 1, show).value) < Height(Snap(g, Table(ref), depth, show).value)
  {
    var raw := Contents(g, ref);
    var cs := Snaps(g, raw, depth + 1, show).value;
    SnapsAll(g, raw, depth + 1, show);
    var i :| 0 <= i < |raw| && raw[i] == e;
    assert Child(g, e, depth + 1, show) == Some(cs[i]);
    SnapUnfolds(g, e.value, depth + 1, show);
    hide Snaps, EntryLe, SameKey, Unfolds;
    SortedSame(cs);
    assert cs[i] in Sorted(cs);
    HeightBound(Sorted(cs), HeightAll(Sorted(cs)));
  }

  /** Each table on the way down lies above the current value: if it fits, the current value fits and is lower. */
  ghost predicate Above(g: Graph, path: map<nat, nat>, v: Lua, depth: nat, show: Double -> string) {
    forall a :: a in path ==>
      path[a] <= depth && (Snap(g, Table(a), path[a], show).Some? ==> Lower(g, a, path[a], v, depth, show))
  }

  ghost predicate Lower(g: Graph, a: nat, at: nat, v: Lua, depth: nat, show: Double -> string)
    requires Snap(g, Table(a), at, show).Some?
  {
    Snap(g, v, depth, show).Some? && Height(Snap(g, v, depth, show).value) < Height(Snap(g, Table(a), at, show).value)
  }

  lemma ChildStaysBelow(g: Graph, path: map<nat, nat>, ref: nat, depth: nat, e: RawEntry, show: Double -> string)
    requires Above(g, path, Table(ref), depth, show) && e in Contents(g, ref)
    ensures Above(g, path[ref := depth], e.value, depth + 1, show)
  {
    if Snap(g, Table(ref), depth, show).Some? {
      ChildLower(g, ref, depth, e, show);
    }
    hide Snap, Height, Contents;
  }

  /** A table met again below itself does not fit at any depth: what is its own part is lower than itself. */
  lemma CycleDoesNotFit(g: Graph, path: map<nat, nat>, ref: nat, depth: nat, show: Double -> string)
    requires Above(g, path, Table(ref), depth, show) && ref in path
    ensures Snap(g, Table(ref), depth, show).None?
  {
    hide Snap, Height;
    if Snap(g, Table(ref), depth, show).Some? {
      SnapShallower(g, Table(ref), depth, path[ref], show);
    }
  }

  /** Nothing, or too many nodes together with those already counted. */
  ghost predicate Rejects(counted: nat, snap: Option<Value>) {
    snap.None? || counted + Size(snap.value) > NODE_LIMIT
  }

  /** The children met so far are the first ones of the table. */
  lemma ChildrenSoFar(g: Graph, raw: seq<RawEntry>, depth: nat, i: nat, entries: seq<Entry>, show: Double -> string)
    requires i < |raw| && Snaps(g, raw[..i], depth, show) == Some(entries) && Snaps(g, raw, depth, show).Some?
    ensures Child(g, raw[i], depth, show).Some?
    ensures |entries| == i < |Snaps(g, raw, depth, show).value|
    ensures Snaps(g, raw, depth, show).value[..i + 1] == entries + [Child(g, raw[i], depth, show).value]
  {
    hide Child, Snaps;
    SnapsAll(g, raw, depth, show);
    SnapsAll(g, raw[..i], depth, show);
    var cs := Snaps(g, raw, depth, show).value;
    assert forall j :: 0 <= j < i ==> raw[..i][j] == raw[j] && cs[j] == entries[j];
  }

  lemma ChildRejected(g: Graph, ref: nat, depth: nat, i: nat, entries: seq<Entry>, counted: nat, show: Double -> string)
    requires i < |Contents(g, ref)| && depth <= DEPTH_LIMIT
    requires Snaps(g, Contents(g, ref)[..i], depth + 1, show) == Some(entries)
    requires KeyOf(Contents(g, ref)[i].key, show).None?
      || Rejects(counted + 1 + SizeAll(entries), Snap(g, Contents(g, ref)[i].value, depth + 1, show))
    ensures Rejects(counted, Snap(g, Table(ref), depth, show))
  {
    hide Snaps, Size, SizeAll, Height, Sorted, KeyOf, SameKey;
    var raw := Contents(g, ref);
    if Snap(g, Table(ref), depth, show).Some? {
      var cs := Snaps(g, raw, depth + 1, show).value;
      ChildrenSoFar(g, raw, depth + 1, i, entries, show);
      var last := Child(g, raw[i], depth + 1, show).value;
      SizePrefix(cs, i + 1);
      SizeMore(entries, last);
      SizeTable(cs);
    }
  }

  class Reader {
    /** Nodes counted so far, and the tables on the way from the root. */
    var count: nat
    var ancestors: set<nat>

    constructor ()
      ensures count == 0 && ancestors == {}
    {
      count, ancestors := 0, {};
    }

    static method HasDuplicate(es: seq<Entry>) returns (r: bool)
      ensures r <==> exists i :: 1 <= i < |es| && SameKey(es[i - 1], es[i])
    {
      var i := 1;
      while i < |es|
        invariant 1 <= i
        invariant forall j :: 1 <= j < i && j < |es| ==> !SameKey(es[j - 1], es[j])
      {
        if SameKey(es[i - 1], es[i]) {
          return true;
        }
        i := i + 1;
      }
      r := false;
    }

    /** One value below the tables of `path`, each of them with its depth. */
    method Read(g: Graph, v: Lua, depth: nat, show: Double -> string, ghost path: map<nat, nat>) returns (r: Option<Value>)
      requires ancestors == path.Keys && Above(g, path, v, depth, show)
      modifies this
      ensures ancestors == old(ancestors)
      ensures r.Some? ==> Snap(g, v, depth, show) == r && count == old(count) + Size(r.value) <= NODE_LIMIT
      ensures r.None? ==> Rejects(old(count), Snap(g, v, depth, show))
      decreases DEPTH_LIMIT + 1 - depth
    {
      hide Snaps, Height, Above;
      count := count + 1;
      if count > NODE_LIMIT || depth > DEPTH_LIMIT {
        return None;
      }
      if !v.Table? {
        return Scalar(v, show);
      }
      if v.ref in ancestors {
        CycleDoesNotFit(g, path, v.ref, depth, show);
        return None;
      }
      r := ReadTable(g, v.ref, depth, show, path);
    }

    method ReadTable(g: Graph, ref: nat, depth: nat, show: Double -> string, ghost path: map<nat, nat>) returns (r: Option<Value>)
      requires ancestors == path.Keys && ref !in ancestors && depth <= DEPTH_LIMIT && 1 <= count <= NODE_LIMIT
      requires Above(g, path, Table(ref), depth, show)
      modifies this
      ensures ancestors == old(ancestors)
      ensures r.Some? ==> Snap(g, Table(ref), depth, show) == r && count == old(count) - 1 + Size(r.value) <= NODE_LIMIT
      ensures r.None? ==> Rejects(old(count) - 1, Snap(g, Table(ref), depth, show))
      decreases DEPTH_LIMIT + 1 - depth, 0
    {
      hide Snap, Snaps, Height, Above, Size, SizeAll, Sorted, Rejects, KeyOf;
      ancestors := ancestors + {ref};
      ghost var below := path[ref := depth];
      var raw := Contents(g, ref);
      var entries: seq<Entry> := [];
      var i := 0;
      SnapsNone(g, raw, depth + 1, show);
      while i < |raw|
        invariant 0 <= i <= |raw| && ancestors == below.Keys
        invariant Snaps(g, raw[..i], depth + 1, show) == Some(entries)
        invariant count == old(count) + SizeAll(entries) <= NODE_LIMIT
      {
        var key := KeyOf(raw[i].key, show);
        var value := None;
        if key.Some? {
          ChildStaysBelow(g, path, ref, depth, raw[i], show);
          value := Read(g, raw[i].value, depth + 1, show, below);
        }
        if value.None? {
          ChildRejected(g, ref, depth, i, entries, old(count) - 1, show);
          ancestors := ancestors - {ref};
          return None;
        }
        SnapsMore(g, raw, i, depth + 1, show);
        SizeMore(entries, Entry(key.value.0, key.value.1, value.value));
        entries := entries + [Entry(key.value.0, key.value.1, value.value)];
        i := i + 1;
      }
      assert raw[..i] == raw;
      var duplicate := HasDuplicate(Sorted(entries));
      ancestors := ancestors - {ref};
      SnapTable(g, ref, depth, entries, show);
      SizeTable(entries);
      if duplicate {
        return None;
      }
      r := Some(Value("table", None, Sorted(entries)));
    }
  }

  lemma SnapsNone(g: Graph, raw: seq<RawEntry>, depth: nat, show: Double -> string)
    ensures Snaps(g, raw[..0], depth, show) == Some([]) && SizeAll([]) == 0
  {}

  lemma SnapsMore(g: Graph, raw: seq<RawEntry>, i: nat, depth: nat, show: Double -> string)
    requires i < |raw| && Snaps(g, raw[..i], depth, show).Some?
    ensures var last := Child(g, raw[i], depth, show);
      Snaps(g, raw[..i + 1], depth, show)
      == if last.None? then None else Some(Snaps(g, raw[..i], depth, show).value + [last.value])
  {
    hide Child;
    assert raw[..i + 1][..i] == raw[..i] && raw[..i + 1][i] == raw[i];
  }

  lemma SizeMore(es: seq<Entry>, e: Entry)
    ensures SizeAll(es + [e]) == SizeAll(es) + Size(e.value)
  {
    assert (es + [e])[..|es|] == es;
  }

  lemma SizeTable(es: seq<Entry>)
    ensures Size(Value("table", None, Sorted(es))) == 1 + SizeAll(es)
  {
    SizeSorted(es);
  }

  lemma SnapTable(g: Graph, ref: nat, depth: nat, es: seq<Entry>, show: Double -> string)
    requires depth <= DEPTH_LIMIT && Snaps(g, Contents(g, ref), depth + 1, show) == Some(es)
    ensures Snap(g, Table(ref), depth, show) ==
      if exists i :: 1 <= i < |Sorted(es)| && SameKey(Sorted(es)[i - 1], Sorted(es)[i]) then None
      else Some(Value("table", None, Sorted(es)))
    ensures Snap(g, Table(ref), depth, show).None? ==> forall n: nat :: Rejects(n, Snap(g, Table(ref), depth, show))
  {
    hide Snaps, SameKey, Sorted;
  }

  /** x is the value's unfolding and stays within the bounds. */
  ghost predicate Snapshot(g: Graph, v: Lua, x: Value, show: Double -> string) {
    Unfolds(g, v, x, show) && Height(x) <= DEPTH_LIMIT && Size(x) <= NODE_LIMIT
  }

  /** Reading always ends, and gives the unfolding exactly when there is one within the bounds: the check
      for cycles never turns away a value that would have fitted. */
  method TakeSnapshot(g: Graph, v: Lua, show: Double -> string) returns (r: Option<Value>)
    ensures r.Some? ==> Snapshot(g, v, r.value, show)
    ensures forall x :: Snapshot(g, v, x, show) ==> r == Some(x)
  {
    hide Snap, Unfolds, Height, Size;
    var reader := new Reader();
    assert Above(g, map[], v, 0, show);
    r := reader.Read(g, v, 0, show, map[]);
    SnapUnfolds(g, v, 0, show);
    forall x | Snapshot(g, v, x, show) ensures r == Some(x) {
      UnfoldsSnap(g, v, x, 0, show);
    }
  }
}
