/** JSON as the catalog exchange uses it: the compact printing both programs produce, and Python's
    reading of it (RFC 8259, sections 2 to 7). */
module Json {
  import opened Common

  /** Objects keep the order of their members; numbers are restricted to natural numbers. */
  datatype Json = Null | Str(text: string) | Int(number: nat) | Arr(items: seq<Json>) | Obj(fields: seq<Field>)

  datatype Field = Field(name: string, value: Json)

  // ---- printing

  function HexDigit(n: nat): (c: char)
    requires n < 16
  {
    if n < 10 then '0' + n as char else 'a' + (n - 10) as char
  }

  function EscapeChar(c: char): (r: string)
    ensures r != ""
  {
    if c == '"' then "\\\""
    else if c == '\\' then "\\\\"
    else if c as int == 8 then "\\b"
    else if c as int == 12 then "\\f"
    else if c == '\n' then "\\n"
    else if c == '\r' then "\\r"
    else if c == '\t' then "\\t"
    else if c as int < 0x20 then "\\u00" + [HexDigit(c as int / 16), HexDigit(c as int % 16)]
    else [c]
  }

  function Escape(s: string): (r: string) {
    if s == "" then "" else EscapeChar(s[0]) + Escape(s[1..])
  }

  function Quote(s: string): (r: string) {
    "\"" + Escape(s) + "\""
  }

  /** json.dumps with compact separators and ensure_ascii off. */
  function Dump(j: Json): (r: string)
    decreases j, 0
  {
    match j
    case Null => "null"
    case Str(text) => Quote(text)
    case Int(number) => Digits(number)
    case Arr(items) => "[" + DumpItems(items) + "]"
    case Obj(fields) => "{" + DumpFields(fields) + "}"
  }

  function DumpItems(items: seq<Json>): (r: string)
    decreases items, 1
  {
    if items == [] then ""
    else Dump(items[0]) + if |items| == 1 then "" else "," + DumpItems(items[1..])
  }

  function FieldText(f: Field): (r: string)
    decreases f, 1
  {
    Quote(f.name) + ":" + Dump(f.value)
  }

  function DumpFields(fields: seq<Field>): (r: string)
    decreases fields, 1
  {
    if fields == [] then ""
    else FieldText(fields[0]) + if |fields| == 1 then "" else "," + DumpFields(fields[1..])
  }

  // ---- reading

  type Parsed<T> = Option<(T, string)>

  predicate Space(c: char) {
    c == ' ' || c == '\t' || c == '\n' || c == '\r'
  }

  function Skip(s: string): (r: string)
    ensures |r| <= |s|
  {
    if s != "" && Space(s[0]) then Skip(s[1..]) else s
  }

  function HexValue(c: char): (r: Option<nat>)
    ensures r.Some? ==> r.value < 16
  {
    if '0' <= c <= '9' then Some(c as int - '0' as int)
    else if 'a' <= c <= 'f' then Some(c as int - 'a' as int + 10)
    else if 'A' <= c <= 'F' then Some(c as int - 'A' as int + 10)
    else None
  }

  /** The code unit of the four digits s starts with. */
  function HexUnit(s: string): (r: Option<nat>)
    ensures r.Some? ==> |s| >= 4 && r.value < 0x10000
  {
    if |s| < 4 then None
    else
      var a, b, c, d := HexValue(s[0]), HexValue(s[1]), HexValue(s[2]), HexValue(s[3]);
      if a.None? || b.None? || c.None? || d.None? then None
      else Some(((a.value * 16 + b.value) * 16 + c.value) * 16 + d.value)
  }

  /** The character after a backslash, with what follows; a surrogate needs its partner. */
  function Unescape(s: string): (r: Parsed<char>)
    ensures r.Some? ==> |r.value.1| < |s|
  {
    if s == "" then None
    else if s[0] == '"' || s[0] == '\\' || s[0] == '/' then Some((s[0], s[1..]))
    else if s[0] == 'b' then Some((8 as char, s[1..]))
    else if s[0] == 'f' then Some((12 as char, s[1..]))
    else if s[0] == 'n' then Some(('\n', s[1..]))
    else if s[0] == 'r' then Some(('\r', s[1..]))
    else if s[0] == 't' then Some(('\t', s[1..]))
    else if s[0] != 'u' || HexUnit(s[1..]).None? then None
    else
      var unit, rest := HexUnit(s[1..]).value, s[5..];
      if unit < 0xD800 || unit >= 0xE000 then Some((unit as char, rest))
      else if unit < 0xDC00 && |rest| >= 2 && rest[..2] == "\\u" && HexUnit(rest[2..]).Some?
           && 0xDC00 <= HexUnit(rest[2..]).value < 0xE000
      then Some(((0x10000 + (unit - 0xD800) * 0x400 + (HexUnit(rest[2..]).value - 0xDC00)) as char, rest[6..]))
      else None
  }

  /** The characters up to the closing quote. */
  function ReadString(s: string): (r: Parsed<string>)
    ensures r.Some? ==> |r.value.1| < |s|
    decreases |s|
  {
    if s == "" then None
    else if s[0] == '"' then Some(("", s[1..]))
    else if s[0] == '\\' then
      var e := Unescape(s[1..]);
      if e.None? then None
      else
        var more := ReadString(e.value.1);
        if more.None? then None else Some(([e.value.0] + more.value.0, more.value.1))
    else if s[0] as int < 0x20 then None
    else
      var more := ReadString(s[1..]);
      if more.None? then None else Some(([s[0]] + more.value.0, more.value.1))
  }

  predicate Digit(s: string) {
    s != "" && '0' <= s[0] <= '9'
  }

  /** The digits s starts with, after a number already read. */
  function ReadDigits(n: nat, s: string): (r: (nat, string))
    ensures |r.1| <= |s|
    decreases |s|
  {
    if Digit(s) then ReadDigits(n * 10 + (s[0] as int - '0' as int), s[1..]) else (n, s)
  }

  function ReadInt(s: string): (r: Parsed<Json>)
    requires Digit(s)
    ensures r.Some? ==> |r.value.1| < |s|
  {
    var (n, rest) := if s[0] == '0' then (0, s[1..]) else ReadDigits(0, s);
    if |rest| >= |s| || (rest != "" && (rest[0] == '.' || rest[0] == 'e' || rest[0] == 'E')) then None
    else Some((Int(n), rest))
  }

  lemma DigitsNext(n: nat, c: char)
    requires n > 0 && '0' <= c <= '9'
    ensures Digits(n * 10 + (c as int - '0' as int)) == Digits(n) + [c]
  {}

  lemma {:induction false} ReadDigitsMore(n: nat, s: string)
    requires n > 0
    ensures var (m, rest) := ReadDigits(n, s); Digits(n) + s == Digits(m) + rest && m > 0
    decreases |s|
  {
    hide Digits;
    if Digit(s) {
      var d := s[0] as int - '0' as int;
      ReadDigitsMore(n * 10 + d, s[1..]);
      DigitsNext(n, s[0]);
      assert s == [s[0]] + s[1..];
      assert Digits(n) + s == Digits(n) + [s[0]] + s[1..];
    }
  }

  lemma OneDigit(s: string)
    requires Digit(s)
    ensures Digits(s[0] as int - '0' as int) == [s[0]] && s == [s[0]] + s[1..]
  {}

  lemma FromFirst(s: string)
    requires Digit(s)
    ensures ReadDigits(0, s) == ReadDigits(s[0] as int - '0' as int, s[1..])
  {}

  lemma IntParts(s: string)
    requires Digit(s) && ReadInt(s).Some?
    ensures var (j, rest) := ReadInt(s).value;
      && j.Int? && (rest == "" || (rest[0] != '.' && rest[0] != 'e' && rest[0] != 'E'))
      && (j.number, rest) == if s[0] == '0' then (0, s[1..]) else ReadDigits(0, s)
  {
    hide ReadDigits;
  }

  lemma DigitsOf(s: string)
    requires Digit(s)
    ensures var (n, rest) := if s[0] == '0' then (0, s[1..]) else ReadDigits(0, s); s == Digits(n) + rest
  {
    OneDigit(s);
    FromFirst(s);
    hide Digits, ReadDigits;
    if s[0] != '0' {
      ReadDigitsMore(s[0] as int - '0' as int, s[1..]);
    }
  }

  /** A number is read in the one way it is printed: no leading zero, no fraction, no exponent. */
  lemma ReadIntIs(s: string)
    requires Digit(s) && ReadInt(s).Some?
    ensures var (j, rest) := ReadInt(s).value;
      j.Int? && s == Digits(j.number) + rest && (rest == "" || (rest[0] != '.' && rest[0] != 'e' && rest[0] != 'E'))
  {
    IntParts(s);
    DigitsOf(s);
    hide *;
  }

  predicate DistinctNames(fields: seq<Field>) {
    forall i, j :: 0 <= i < j < |fields| ==> fields[i].name != fields[j].name
  }

  function ReadValue(s: string): (r: Parsed<Json>)
    ensures r.Some? ==> |r.value.1| < |s|
    decreases |s|, 0
  {
    if s == "" then None
    else if s[0] == '"' then
      var t := ReadString(s[1..]);
      if t.None? then None else Some((Str(t.value.0), t.value.1))
    else if s[0] == '[' then
      var rest := Skip(s[1..]);
      if rest != "" && rest[0] == ']' then Some((Arr([]), rest[1..]))
      else
        var items := ReadItems(rest);
        if items.None? then None else Some((Arr(items.value.0), items.value.1))
    else if s[0] == '{' then
      var rest := Skip(s[1..]);
      if rest != "" && rest[0] == '}' then Some((Obj([]), rest[1..]))
      else
        var fields := ReadFields(rest);
        if fields.None? || !DistinctNames(fields.value.0) then None else Some((Obj(fields.value.0), fields.value.1))
    else if Digit(s) then ReadInt(s)
    else if |s| >= 4 && s[..4] == "null" then Some((Null, s[4..]))
    else None
  }

  /** One or more values, separated by commas, up to the closing bracket. */
  function ReadItems(s: string): (r: Parsed<seq<Json>>)
    ensures r.Some? ==> |r.value.1| < |s|
    decreases |s|, 1
  {
    var first := ReadValue(s);
    if first.None? then None
    else
      var rest := Skip(first.value.1);
      if rest == "" then None
      else if rest[0] == ']' then Some(([first.value.0], rest[1..]))
      else if rest[0] == ',' then
        var more := ReadItems(Skip(rest[1..]));
        if more.None? then None else Some(([first.value.0] + more.value.0, more.value.1))
      else None
  }

  function ReadField(s: string): (r: Parsed<Field>)
    ensures r.Some? ==> |r.value.1| < |s|
    decreases |s|, 1
  {
    if s == "" || s[0] != '"' then None
    else
      var name := ReadString(s[1..]);
      if name.None? then None
      else
        var rest := Skip(name.value.1);
        if rest == "" || rest[0] != ':' then None
        else
          var value := ReadValue(Skip(rest[1..]));
          if value.None? then None else Some((Field(name.value.0, value.value.0), value.value.1))
  }

  function ReadFields(s: string): (r: Parsed<seq<Field>>)
    ensures r.Some? ==> |r.value.1| < |s|
    decreases |s|, 2
  {
    var first := ReadField(s);
    if first.None? then None
    else
      var rest := Skip(first.value.1);
      if rest == "" then None
      else if rest[0] == '}' then Some(([first.value.0], rest[1..]))
      else if rest[0] == ',' then
        var more := ReadFields(Skip(rest[1..]));
        if more.None? then None else Some(([first.value.0] + more.value.0, more.value.1))
      else None
  }

  /** json.loads: one value with nothing but white space around it. */
  function Read(s: string): (r: Option<Json>) {
    var v := ReadValue(Skip(s));
    if v.Some? && Skip(v.value.1) == "" then Some(v.value.0) else None
  }

  /** White space before a value does not matter. */
  lemma ReadSkips(c: char, s: string)
    requires Space(c)
    ensures Read([c] + s) == Read(s)
  {
    assert ([c] + s)[1..] == s;
    hide ReadValue;
  }

  lemma SkipsOne(c: char, s: string)
    requires Space(c)
    ensures Skip([c] + s) == Skip(s)
  {
    assert ([c] + s)[1..] == s;
  }

  /** Nor does it behind a value in a list, behind a member, or at the end. */
  lemma SpaceBehind(c: char, s: string, t: string)
    requires Space(c)
    ensures ReadValue(s).Some? && ReadValue(t).Some? && ReadValue(s).value == (ReadValue(t).value.0, [c] + ReadValue(t).value.1) ==>
              ReadItems(s) == ReadItems(t)
    ensures ReadField(s).Some? && ReadField(t).Some? && ReadField(s).value == (ReadField(t).value.0, [c] + ReadField(t).value.1) ==>
              ReadFields(s) == ReadFields(t)
  {
    if ReadValue(t).Some? { SkipsOne(c, ReadValue(t).value.1); }
    if ReadField(t).Some? { SkipsOne(c, ReadField(t).value.1); }
    hide Skip, ReadValue, ReadField;
  }

  // ---- reading undoes printing

  lemma EscapeSecond(c: char, rest: string)
    requires EscapeChar(c)[0] == '\\' && |EscapeChar(c)| == 2
    ensures Unescape((EscapeChar(c) + rest)[1..]) == Some((c, rest))
  {
    var s := (EscapeChar(c) + rest)[1..];
    assert s[0] == EscapeChar(c)[1] && s[1..] == rest;
  }

  lemma EscapeHex(c: char, rest: string)
    requires c as int < 0x20 && |EscapeChar(c)| == 6
    ensures Unescape((EscapeChar(c) + rest)[1..]) == Some((c, rest))
  {
    var n := c as int;
    var s := (EscapeChar(c) + rest)[1..];
    assert s[0] == 'u' && s[1] == '0' && s[2] == '0' && s[3] == HexDigit(n / 16) && s[4] == HexDigit(n % 16);
    assert s[5..] == rest;
    assert HexUnit(s[1..]) == Some(n);
  }

  /** One character without a backslash reads as itself, and is no quote and no control character. */
  lemma ReadsPlain(c: char, s: string)
    requires ReadString(s).Some? && ReadString(s).value.0 == [c] && s[0] != '\\'
    ensures c == s[0] && c != '"' && c != '\\' && c as int >= 0x20
  {
    hide Unescape, HexUnit;
    assert ReadString(s).value.0[0] == c;
  }

  lemma ReadsEscape(c: char, s: string)
    requires ReadString(s).Some? && ReadString(s).value.0 == [c] && s[0] == '\\'
    ensures Unescape(s[1..]).Some? && Unescape(s[1..]).value.0 == c && ReadString(Unescape(s[1..]).value.1).Some?
  {
    hide Unescape, HexUnit;
    assert ReadString(s).value.0[0] == c;
  }

  predicate Escapable(c: char) {
    c in ['"', '\\', '/', '\n', '\r', '\t'] || c as int == 8 || c as int == 12
  }

  lemma UnescapeKinds(t: string)
    requires Unescape(t).Some?
    ensures t != "" && (t[0] != 'u' ==> Escapable(Unescape(t).value.0) && Unescape(t).value.1 == t[1..])
    ensures t[0] == 'u' ==> HexUnit(t[1..]).Some?
  {
    hide HexUnit;
  }

  /** Four digits do not hold a quote. */
  lemma NoUnit(s: string)
    requires s != "" && |s| <= 4 && s[|s| - 1] == '"'
    ensures HexUnit(s).None?
  {
    assert HexValue('"').None?;
    hide HexValue;
  }

  lemma NothingBehind()
    ensures ReadString("").None? && forall t: string :: |t| == 1 ==> t[1..] == ""
  {}

  /** An escape of less than six characters is one of the short ones. */
  lemma ReadsShort(c: char, e: string)
    requires ReadString(e + "\"").Some? && ReadString(e + "\"").value.0 == [c] && e != "" && e[0] == '\\' && |e| < 6
    ensures |e| >= 2 && Escapable(c)
  {
    var t := (e + "\"")[1..];
    NothingBehind();
    hide *;
    ReadsEscape(c, e + "\"");
    UnescapeKinds(t);
    assert t == e[1..] + "\"";
    if t[0] == 'u' { NoUnit(t[1..]); }
  }

  lemma NothingRead()
    ensures ReadString("\"") == Some(("", ""))
  {}

  lemma EscapeSizes(c: char)
    ensures c != '"' && c != '\\' && c as int >= 0x20 ==> |EscapeChar(c)| == 1
    ensures Escapable(c) ==> |EscapeChar(c)| <= 2
    ensures |EscapeChar(c)| <= 6
    ensures |EscapeChar(c)| == 6 ==> EscapeChar(c)[..4] == "\\u00" && !('A' <= EscapeChar(c)[4] <= 'F') && !('A' <= EscapeChar(c)[5] <= 'F')
  {}

  lemma NotEmpty(c: char, e: string)
    requires ReadString(e + "\"").Some? && ReadString(e + "\"").value.0 == [c]
    ensures e != ""
  {
    NothingRead();
    hide *;
    assert "" + "\"" == "\"";
  }

  lemma PlainShortest(c: char, e: string)
    requires ReadString(e + "\"").Some? && ReadString(e + "\"").value.0 == [c] && e != "" && e[0] != '\\'
    ensures |EscapeChar(c)| <= |e|
  {
    EscapeSizes(c);
    hide *;
    ReadsPlain(c, e + "\"");
  }

  lemma ShortShortest(c: char, e: string)
    requires ReadString(e + "\"").Some? && ReadString(e + "\"").value.0 == [c] && e != "" && e[0] == '\\'
    ensures |EscapeChar(c)| <= |e|
  {
    EscapeSizes(c);
    hide *;
    if |e| < 6 { ReadsShort(c, e); }
  }

  /** A character is escaped by the shortest text that reads back as it. */
  lemma EscapeShortest(c: char, e: string)
    requires ReadString(e + "\"") == Some(([c], ""))
    ensures |EscapeChar(c)| <= |e|
  {
    hide *;
    NotEmpty(c, e);
    if e[0] != '\\' {
      PlainShortest(c, e);
    } else {
      ShortShortest(c, e);
    }
  }

  lemma EscapeKinds(c: char)
    ensures EscapeChar(c)[0] == '\\' ==> |EscapeChar(c)| == 2 || (|EscapeChar(c)| == 6 && c as int < 0x20)
    ensures EscapeChar(c)[0] != '\\' ==> EscapeChar(c) == [c] && c != '"' && c as int >= 0x20
    ensures EscapeChar(c)[0] != '"'
  {}

  lemma ReadEscaped(c: char, rest: string)
    ensures ReadString(EscapeChar(c) + rest) ==
      (var more := ReadString(rest); if more.None? then None else Some(([c] + more.value.0, more.value.1)))
  {
    var e := EscapeChar(c);
    EscapeKinds(c);
    hide EscapeChar, Unescape;
    var s := e + rest;
    assert s[0] == e[0];
    if e[0] != '\\' {
      assert s[1..] == rest;
    } else if |e| == 6 {
      EscapeHex(c, rest);
    } else {
      EscapeSecond(c, rest);
    }
  }

  lemma {:induction false} ReadQuoted(text: string, rest: string)
    ensures ReadString(Escape(text) + "\"" + rest) == Some((text, rest))
  {
    hide EscapeChar;
    if text == "" {
      assert Escape(text) + "\"" + rest == "\"" + rest;
    } else {
      assert Escape(text) + "\"" + rest == EscapeChar(text[0]) + (Escape(text[1..]) + "\"" + rest);
      ReadEscaped(text[0], Escape(text[1..]) + "\"" + rest);
      ReadQuoted(text[1..], rest);
      assert text == [text[0]] + text[1..];
    }
  }

  /** What may follow a value: not something a number could run on with. */
  predicate Ends(rest: string) {
    rest == "" || !(Digit(rest) || rest[0] == '.' || rest[0] == 'e' || rest[0] == 'E')
  }

  lemma {:induction false} DigitsThen(n: nat, rest: string)
    ensures ReadDigits(0, Digits(n) + rest) == ReadDigits(n, rest)
    decreases n
  {
    var last := ['0' + (n % 10) as char];
    var s := last + rest;
    assert s[0] == last[0] && s[1..] == rest;
    if n < 10 {
      assert Digits(n) + rest == s;
    } else {
      assert Digits(n) + rest == Digits(n / 10) + s;
      DigitsThen(n / 10, s);
      assert ReadDigits(n / 10, s) == ReadDigits(n / 10 * 10 + n % 10, rest);
    }
  }

  lemma {:induction false} DigitsStart(n: nat)
    ensures Digits(n)[0] == '0' <==> n == 0
  {
    if n >= 10 {
      DigitsStart(n / 10);
      assert Digits(n)[0] == Digits(n / 10)[0];
    }
  }

  lemma ReadIntBack(n: nat, rest: string)
    requires Ends(rest)
    ensures Digit(Digits(n) + rest) && ReadInt(Digits(n) + rest) == Some((Int(n), rest))
  {
    var s := Digits(n) + rest;
    DigitsStart(n);
    DigitsThen(n, rest);
    assert ReadDigits(n, rest) == (n, rest);
    hide ReadDigits;
    assert s[0] == Digits(n)[0];
    if n == 0 {
      assert Digits(n) == "0";
      assert s[1..] == rest;
    }
  }

  /** No object repeats a member name. */
  ghost predicate Clean(j: Json)
    decreases j, 0
  {
    match j
    case Arr(items) => forall k :: 0 <= k < |items| ==> Clean(items[k])
    case Obj(fields) => DistinctNames(fields) && forall k :: 0 <= k < |fields| ==> Clean(fields[k].value)
    case _ => true
  }

  /** The first character of a printed value: none that the reader skips or takes for the end of a list. */
  predicate Starts(s: string) {
    s != "" && !Space(s[0]) && s[0] != ']' && s[0] != '}'
  }

  lemma DumpStarts(j: Json)
    ensures Starts(Dump(j))
  {
    if j.Int? { assert '0' <= Digits(j.number)[0] <= '9'; }
  }

  lemma StartsStay(s: string, rest: string)
    requires Starts(s)
    ensures Starts(s + rest) && Skip(s + rest) == s + rest
  {
    assert (s + rest)[0] == s[0];
  }

  lemma ReadStrBack(text: string, rest: string)
    ensures ReadValue(Quote(text) + rest) == Some((Str(text), rest))
  {
    var s := Quote(text) + rest;
    assert s[0] == '"' && s[1..] == Escape(text) + "\"" + rest;
    ReadQuoted(text, rest);
    hide Escape, ReadString;
  }

  lemma ReadNullBack(rest: string)
    ensures ReadValue("null" + rest) == Some((Null, rest))
  {
    var s := "null" + rest;
    assert s[0] == 'n' && s[..4] == "null" && s[4..] == rest;
  }

  lemma ReadArrOf(inner: string, items: seq<Json>, rest: string)
    requires if items == [] then inner == "]" + rest else Starts(inner) && ReadItems(inner) == Some((items, rest))
    ensures ReadValue("[" + inner) == Some((Arr(items), rest))
  {
    hide ReadItems;
    assert ("[" + inner)[0] == '[' && ("[" + inner)[1..] == inner;
    if items == [] {
      assert inner[0] == ']' && inner[1..] == rest;
    }
  }

  lemma ReadObjOf(inner: string, fields: seq<Field>, rest: string)
    requires if fields == [] then inner == "}" + rest else inner != "" && inner[0] == '"' && ReadFields(inner) == Some((fields, rest))
    requires DistinctNames(fields)
    ensures ReadValue("{" + inner) == Some((Obj(fields), rest))
  {
    hide ReadFields, DistinctNames;
    assert ("{" + inner)[0] == '{' && ("{" + inner)[1..] == inner;
    if fields == [] {
      assert inner[0] == '}' && inner[1..] == rest;
    }
  }

  lemma ReadArrBack(items: seq<Json>, rest: string)
    requires items == [] || (ReadItems(DumpItems(items) + ("]" + rest)) == Some((items, rest)) && Starts(DumpItems(items)))
    ensures ReadValue("[" + DumpItems(items) + "]" + rest) == Some((Arr(items), rest))
  {
    hide ReadValue, ReadItems;
    var inner := DumpItems(items) + ("]" + rest);
    if items != [] {
      StartsStay(DumpItems(items), "]" + rest);
    }
    hide Starts;
    assert items == [] ==> inner == "]" + rest;
    assert "[" + DumpItems(items) + "]" + rest == "[" + inner;
    ReadArrOf(inner, items, rest);
  }

  lemma FieldsStart(fields: seq<Field>, rest: string)
    requires fields != []
    ensures var s := DumpFields(fields) + rest; s != "" && s[0] == '"'
  {
    hide Escape, Dump;
    var f := fields[0];
    assert Quote(f.name)[0] == '"';
    assert FieldText(f)[0] == '"';
    assert DumpFields(fields)[0] == Quote(f.name)[0];
  }

  lemma ReadObjBack(fields: seq<Field>, rest: string)
    requires fields == [] || ReadFields(DumpFields(fields) + ("}" + rest)) == Some((fields, rest))
    requires DistinctNames(fields)
    ensures ReadValue("{" + DumpFields(fields) + "}" + rest) == Some((Obj(fields), rest))
  {
    hide ReadValue, ReadFields, DistinctNames;
    var inner := DumpFields(fields) + ("}" + rest);
    if fields != [] {
      FieldsStart(fields, "}" + rest);
    }
    assert fields == [] ==> inner == "}" + rest;
    assert "{" + DumpFields(fields) + "}" + rest == "{" + inner;
    hide DumpFields;
    ReadObjOf(inner, fields, rest);
  }

  lemma ItemsStart(items: seq<Json>)
    requires items != []
    ensures Starts(DumpItems(items))
  {
    DumpStarts(items[0]);
    StartsStay(Dump(items[0]), DumpItems(items)[|Dump(items[0])|..]);
  }

  /** Reading gives back every printed value and stops right behind it. */
  lemma {:induction false} ReadDumped(j: Json, rest: string)
    requires Clean(j) && Ends(rest)
    ensures ReadValue(Dump(j) + rest) == Some((j, rest))
    decreases j, 0
  {
    hide ReadValue, Ends;
    match j
    case Null => ReadNullBack(rest);
    case Str(text) => ReadStrBack(text, rest);
    case Int(number) => ReadNumberBack(number, rest);
    case Arr(items) =>
      if items != [] {
        ReadDumpedItems(items, rest);
        ItemsStart(items);
      }
      ReadArrBack(items, rest);
    case Obj(fields) =>
      if fields != [] {
        ReadDumpedFields(fields, rest);
      }
      ReadObjBack(fields, rest);
  }

  lemma ReadNumberBack(n: nat, rest: string)
    requires Ends(rest)
    ensures ReadValue(Digits(n) + rest) == Some((Int(n), rest))
  {
    ReadIntBack(n, rest);
    hide ReadInt, Digits;
  }

  lemma EndsAfter(rest: string)
    ensures Ends("]" + rest) && Ends("}" + rest) && Ends("," + rest)
    ensures ("]" + rest)[1..] == rest && ("}" + rest)[1..] == rest && ("," + rest)[1..] == rest
  {}

  lemma LastItem(j: Json, rest: string)
    requires ReadValue(Dump(j) + ("]" + rest)) == Some((j, "]" + rest))
    ensures ReadItems(Dump(j) + ("]" + rest)) == Some(([j], rest))
  {
    hide ReadValue, Dump;
    EndsAfter(rest);
  }

  lemma OneMoreItem(j: Json, more: string, items: seq<Json>, rest: string)
    requires ReadValue(Dump(j) + ("," + more)) == Some((j, "," + more))
    requires Starts(more) && ReadItems(more) == Some((items, rest))
    ensures ReadItems(Dump(j) + ("," + more)) == Some(([j] + items, rest))
  {
    hide ReadValue, Dump;
    EndsAfter(more);
  }

  lemma {:induction false} ReadDumpedItems(items: seq<Json>, rest: string)
    requires items != [] && forall k :: 0 <= k < |items| ==> Clean(items[k])
    ensures ReadItems(DumpItems(items) + ("]" + rest)) == Some((items, rest))
    decreases items, 1
  {
    hide ReadItems, ReadValue, Dump, Starts, Ends;
    if |items| == 1 {
      EndsAfter(rest);
      ReadDumped(items[0], "]" + rest);
      LastItem(items[0], rest);
      assert items == [items[0]] && DumpItems(items) == Dump(items[0]);
    } else {
      var more := DumpItems(items[1..]) + ("]" + rest);
      EndsAfter(more);
      ReadDumped(items[0], "," + more);
      ItemsStart(items[1..]);
      StartsStay(DumpItems(items[1..]), "]" + rest);
      ReadDumpedItems(items[1..], rest);
      OneMoreItem(items[0], more, items[1..], rest);
      assert DumpItems(items) + ("]" + rest) == Dump(items[0]) + ("," + more);
      assert items == [items[0]] + items[1..];
    }
  }

  lemma FieldBack(name: string, j: Json, rest: string)
    requires ReadValue(Dump(j) + rest) == Some((j, rest)) && Starts(Dump(j))
    ensures ReadField(Quote(name) + (":" + (Dump(j) + rest))) == Some((Field(name, j), rest))
  {
    hide ReadValue, Dump, ReadString, Escape;
    var value := Dump(j) + rest;
    var s := Quote(name) + (":" + value);
    assert s[0] == '"' && s[1..] == Escape(name) + "\"" + (":" + value);
    ReadQuoted(name, ":" + value);
    assert (":" + value)[1..] == value;
    StartsStay(Dump(j), rest);
  }

  lemma LastField(f: Field, text: string, rest: string)
    requires ReadField(text + ("}" + rest)) == Some((f, "}" + rest))
    ensures ReadFields(text + ("}" + rest)) == Some(([f], rest))
  {
    hide ReadField;
    EndsAfter(rest);
  }

  lemma OneMoreField(f: Field, text: string, more: string, fields: seq<Field>, rest: string)
    requires ReadField(text + ("," + more)) == Some((f, "," + more))
    requires more != "" && more[0] == '"' && ReadFields(more) == Some((fields, rest))
    ensures ReadFields(text + ("," + more)) == Some(([f] + fields, rest))
  {
    hide ReadField;
    EndsAfter(more);
  }

  lemma FieldTextBack(f: Field, rest: string)
    requires ReadValue(Dump(f.value) + rest) == Some((f.value, rest))
    ensures ReadField(FieldText(f) + rest) == Some((f, rest))
  {
    hide ReadField, ReadValue, Dump, Quote;
    DumpStarts(f.value);
    FieldBack(f.name, f.value, rest);
    assert FieldText(f) + rest == Quote(f.name) + (":" + (Dump(f.value) + rest));
  }

  lemma FieldsText(fields: seq<Field>, rest: string)
    requires fields != []
    ensures |fields| == 1 ==> DumpFields(fields) + rest == FieldText(fields[0]) + rest
    ensures |fields| > 1 ==> DumpFields(fields) + rest == FieldText(fields[0]) + ("," + (DumpFields(fields[1..]) + rest))
  {
    hide FieldText;
    var text := FieldText(fields[0]);
    if |fields| == 1 {
      assert text + "" == text;
    } else {
      var more := DumpFields(fields[1..]);
      assert text + ("," + more) + rest == text + ("," + (more + rest));
    }
  }

  lemma {:induction false} ReadDumpedFields(fields: seq<Field>, rest: string)
    requires fields != [] && forall k :: 0 <= k < |fields| ==> Clean(fields[k].value)
    ensures ReadFields(DumpFields(fields) + ("}" + rest)) == Some((fields, rest))
    decreases fields, 1
  {
    hide ReadFields, ReadField, ReadValue, Dump, DumpFields, FieldText, Ends, Clean;
    var f := fields[0];
    FieldsText(fields, "}" + rest);
    if |fields| == 1 {
      EndsAfter(rest);
      ReadDumped(f.value, "}" + rest);
      FieldTextBack(f, "}" + rest);
      LastField(f, FieldText(f), rest);
      assert fields == [f];
    } else {
      var more := DumpFields(fields[1..]) + ("}" + rest);
      EndsAfter(more);
      ReadDumped(f.value, "," + more);
      FieldTextBack(f, "," + more);
      ReadDumpedFields(fields[1..], rest);
      FieldsStart(fields[1..], "}" + rest);
      OneMoreField(f, FieldText(f), more, fields[1..], rest);
      assert fields == [f] + fields[1..];
    }
  }

  /** json.loads undoes the printing of every value without repeated member names. */
  lemma ReadUndoesDump(j: Json)
    requires Clean(j)
    ensures Read(Dump(j)) == Some(j)
  {
    ReadDumped(j, "");
    DumpStarts(j);
    assert Dump(j) + "" == Dump(j);
    hide Dump, ReadValue;
  }
}
