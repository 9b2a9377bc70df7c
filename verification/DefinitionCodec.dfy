/** A way to print doubles and to read them that is faithful, so that what the two programs agree on is not an
    agreement about nothing, and the exchange carried out with it (Double.toString and float() stand behind
    RuntimeDefinitionTable.java and tools/check_pz_catalog.py). */
module DefinitionCodec {
  import opened Common
  import opened DefinitionTable
  import opened Json
  import opened DefinitionExport
  import opened DefinitionCheck
  import opened DefinitionAgreement
  import opened FishingDocument

  function ShowDouble(d: Double): (r: string) {
    match d
    case NonFinite => "NaN"
    case Zero(negative) => if negative then "-0.0" else "0.0"
    case Finite(b) => IntText(b.mantissa) + "E" + IntText(b.exponent)
  }

  function IntOf(s: string): (r: Option<int>) {
    if s != "" && s[0] == '-' then Negated(NaturalOf(s[1..])) else NaturalOf(s)
  }

  function NaturalOf(s: string): (r: Option<int>) {
    if AllDigits(s) then Some(NatOf(s)) else None
  }

  function Negated(n: Option<int>): (r: Option<int>) {
    if n.None? then None else Some(-n.value)
  }

  /** How many characters stand before the first E. */
  function BeforeE(s: string): (n: nat)
    ensures n <= |s|
  {
    if s == "" || s[0] == 'E' then 0 else 1 + BeforeE(s[1..])
  }

  function ParseDouble(s: string): (r: Option<Double>) {
    if s == "0.0" then Some(Zero(false))
    else if s == "-0.0" then Some(Zero(true))
    else
      var n := BeforeE(s);
      if n == |s| then None
      else
        var m, e := IntOf(s[..n]), IntOf(s[n + 1..]);
        if m.Some? && e.Some? && Binary64(Binary(m.value, e.value)) then Some(Finite(Binary(m.value, e.value))) else None
  }

  function TextCodec(): (r: Codec) {
    Codec(ShowDouble, ParseDouble)
  }

  lemma IntBack(n: int)
    ensures IntOf(IntText(n)) == Some(n)
  {
    hide Digits, NatOf;
    if n < 0 {
      NatOfDigits(-n);
      assert IntText(n)[1..] == Digits(-n);
    } else {
      NatOfDigits(n);
      assert IntText(n)[0] != '-';
    }
  }

  lemma NoE(n: int)
    ensures forall i :: 0 <= i < |IntText(n)| ==> IntText(n)[i] != 'E' && IntText(n)[i] != '.'
  {
    hide Digits;
    var t := IntText(n);
    if n < 0 {
      assert t[0] == '-' && forall i :: 1 <= i < |t| ==> t[i] == Digits(-n)[i - 1];
    }
  }

  lemma {:induction false} BeforeEIs(a: string, b: string)
    requires forall i :: 0 <= i < |a| ==> a[i] != 'E'
    ensures BeforeE(a + ("E" + b)) == |a|
  {
    if a != "" {
      assert (a + ("E" + b))[1..] == a[1..] + ("E" + b);
      BeforeEIs(a[1..], b);
    } else {
      assert a + ("E" + b) == "E" + b;
    }
  }

  lemma HasNoE()
    ensures BeforeE("0.0") == 3 && BeforeE("-0.0") == 4
  {
    assert "0.0"[1..] == ".0" && ".0"[1..] == "0" && "0"[1..] == "" && "-0.0"[1..] == "0.0";
  }

  /** What is printed around an E is read back from there. */
  lemma PartsBack(m: string, e: string, x: int, y: int)
    requires IntOf(m) == Some(x) && IntOf(e) == Some(y) && forall i :: 0 <= i < |m| ==> m[i] != 'E'
    ensures ParseDouble(m + "E" + e) == if Binary64(Binary(x, y)) then Some(Finite(Binary(x, y))) else None
  {
    hide IntOf, Binary64;
    var s := m + ("E" + e);
    assert m + "E" + e == s;
    BeforeEIs(m, e);
    HasNoE();
    hide BeforeE;
    assert |s| == |m| + 1 + |e| && s[..|m|] == m && s[|m| + 1..] == e;
  }

  lemma FiniteBack(b: Nonzero)
    ensures ParseDouble(ShowDouble(Finite(b))) == Some(Finite(b))
  {
    hide IntText, IntOf, ParseDouble;
    NoE(b.mantissa);
    IntBack(b.mantissa);
    IntBack(b.exponent);
    PartsBack(IntText(b.mantissa), IntText(b.exponent), b.mantissa, b.exponent);
  }

  // ---- the texts are short

  function Tens(k: nat): (r: nat) {
    if k == 0 then 1 else 10 * Tens(k - 1)
  }

  lemma {:induction false} DigitsShort(n: nat, k: nat)
    requires k >= 1 && n < Tens(k)
    ensures |Digits(n)| <= k
    decreases k
  {
    assert Tens(0) == 1 && Tens(1) == 10 && Tens(k) == 10 * Tens(k - 1);
    if n >= 10 {
      DigitsShort(n / 10, k - 1);
    }
  }

  lemma {:induction false} OneUnitEach(s: string)
    requires forall i :: 0 <= i < |s| ==> s[i] as int < 128
    ensures |Utf16(s)| == |s|
  {
    if s != "" {
      OneUnitEach(s[1..]);
    }
  }

  lemma IntAscii(n: int)
    ensures forall i :: 0 <= i < |IntText(n)| ==> IntText(n)[i] as int < 128
  {
    hide Digits;
    var t := IntText(n);
    if n < 0 {
      assert t[0] == '-' && forall i :: 1 <= i < |t| ==> t[i] == Digits(-n)[i - 1];
    }
  }

  lemma IntShort(n: int, k: nat)
    requires k >= 1 && (if n < 0 then -n else n) < Tens(k)
    ensures |IntText(n)| <= k + 1
  {
    hide Tens, Digits;
    DigitsShort(if n < 0 then -n else n, k);
  }

  lemma FiniteShort(b: Nonzero)
    ensures |Utf16(ShowDouble(Finite(b)))| <= 24
  {
    assert Tens(4) == 10_000 && Tens(16) == 10_000_000_000_000_000;
    hide Tens, IntText;
    IntShort(b.mantissa, 16);
    IntShort(b.exponent, 4);
    IntAscii(b.mantissa);
    IntAscii(b.exponent);
    AroundE(IntText(b.mantissa), IntText(b.exponent));
  }

  lemma AroundE(m: string, e: string)
    requires forall i :: 0 <= i < |m| ==> m[i] as int < 128
    requires forall i :: 0 <= i < |e| ==> e[i] as int < 128
    ensures |Utf16(m + "E" + e)| == |m| + 1 + |e|
  {
    var s := m + "E" + e;
    assert forall i :: 0 <= i < |s| ==> s[i] == if i < |m| then m[i] else if i == |m| then 'E' else e[i - |m| - 1];
    hide Utf16;
    OneUnitEach(s);
  }

  /** There is a faithful codec. */
  lemma CodecIsFaithful()
    ensures Faithful(TextCodec())
  {
    forall d: Double | !d.NonFinite?
      ensures ParseDouble(ShowDouble(d)) == Some(d) && |Utf16(ShowDouble(d))| <= 24
    {
      if d.Finite? {
        FiniteBack(d.number);
        FiniteShort(d.number);
      } else {
        OneUnitEach("0.0");
        OneUnitEach("-0.0");
      }
    }
  }

  // ---- the exchange carried out

  /** 1.0, as 2^52 * 2^-52. */
  const One: Nonzero := Binary(0x10_0000_0000_0000, -52)

  /** A table that maps 1.0 to itself. */
  function Ones(): (r: Graph) {
    map[0 := [RawEntry(RawKey.NumberKey(Finite(One)), Number(Finite(One)))]]
  }

  function OnesEntry(): (r: Entry) {
    Entry("number", ShowDouble(Finite(One)), Value("number", Some(ShowDouble(Finite(One))), []))
  }

  function OnesValue(): (r: Value) {
    Value("table", None, [OnesEntry()])
  }

  lemma OnesMatch()
    ensures Matches(Ones(), Ones()[0][0], OnesEntry(), ShowDouble)
  {
    FiniteShort(One);
    hide ShowDouble;
  }

  lemma OneCover(g: Graph, raw: seq<RawEntry>, es: seq<Entry>, show: Double -> string)
    requires |raw| == |es| == 1 && Matches(g, raw[0], es[0], show)
    ensures Covers(g, raw, es, show)
  {
    hide Matches;
    assert raw[0] in raw && es[0] in es;
    assert Kept(g, raw[0], es, show) && Backed(g, raw, es[0], show);
  }

  lemma OneLeaf(es: seq<Entry>)
    requires |es| == 1 && es[0].value.entries == []
    ensures HeightAll(es) == 1 && SizeAll(es) == 1
  {
    assert es[..0] == [] && HeightAll([]) == 0 && SizeAll([]) == 0;
    assert Height(es[0].value) == 0 && Size(es[0].value) == 1;
  }

  lemma OneEntryTable(g: Graph, ref: nat, es: seq<Entry>, show: Double -> string)
    requires |es| == 1 && es[0].value.entries == [] && Covers(g, Contents(g, ref), es, show)
    ensures Snapshot(g, Table(ref), Value("table", None, es), show)
  {
    hide Covers;
    OneLeaf(es);
    hide HeightAll, SizeAll;
  }

  lemma OnesSnapshot()
    ensures Snapshot(Ones(), Table(0), OnesValue(), ShowDouble)
  {
    OnesMatch();
    assert Contents(Ones(), 0) == Ones()[0] && |Ones()[0]| == 1 && OnesEntry().value.entries == [];
    assert OnesValue() == Value("table", None, [OnesEntry()]);
    hide Ones, OnesEntry, OnesValue, ShowDouble, Matches, Snapshot, Covers;
    OneCover(Ones(), Ones()[0], [OnesEntry()], ShowDouble);
    OneEntryTable(Ones(), 0, [OnesEntry()], ShowDouble);
  }

  lemma NoZeroLeaf(es: seq<Entry>, show: Double -> string)
    requires |es| == 1 && es[0].value.entries == [] && !IsZeroKey(es[0], true, show)
    ensures NoZeroPair(Value("table", None, es), show)
  {
    hide IsZeroKey;
    assert NoZeroPair(es[0].value, show);
  }

  lemma OnesHaveNoZeroes()
    ensures NoZeroPair(OnesValue(), ShowDouble)
  {
    FiniteBack(One);
    assert ParseDouble(ShowDouble(Zero(true))) == Some(Zero(true));
    hide ShowDouble, ParseDouble;
    assert !IsZeroKey(OnesEntry(), true, ShowDouble);
    hide NoZeroPair, IsZeroKey;
    NoZeroLeaf([OnesEntry()], ShowDouble);
  }

  /** What is read from nine such tables, one for each field of the document. */
  function NineOnes(): (r: seq<Value>) {
    seq(|FISHING_FIELDS|, i => OnesValue())
  }

  /** Nine such tables go through the exchange: the text that is hashed is the text that was exported. */
  method FishingExample() returns (exported: string, canonical: Option<string>)
    ensures exported == Dump(Document(FieldList(FISHING_FIELDS, NineOnes()))) && canonical == Some(exported)
  {
    hide ShowDouble, ParseDouble, Snapshot, NoZeroPair, OnesValue, Ones, Faithful;
    OnesSnapshot();
    OnesHaveNoZeroes();
    CodecIsFaithful();
    var nine := |FISHING_FIELDS|;
    exported, canonical := FishingExchange(seq(nine, i => Ones()), seq(nine, i => 0), NineOnes(), TextCodec());
  }

  /** And the refused snapshot is one that can be exported. */
  lemma ZeroesRefused()
    ensures exists g: Graph, v: Lua, x: Value ::
      Snapshot(g, v, x, ShowDouble) && Read(Dump(NodeJson(x))) == Some(NodeJson(x)) && Check(NodeJson(x), 0, ParseDouble).None?
  {
    CodecIsFaithful();
    var c := TextCodec();
    hide ShowDouble, ParseDouble, Faithful, Snapshot, Check, Dump, Read, NodeJson;
    BothZeroesRefused(c);
    var g: Graph, v: Lua, x: Value :| Snapshot(g, v, x, c.show) && Check(NodeJson(x), 0, c.parse).None?;
    ExportAgrees(g, v, x, c);
  }
}
