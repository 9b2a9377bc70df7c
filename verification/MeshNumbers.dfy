/** Numbers in the text mesh format: the fixed-point printing, the token pattern and what a token
    is worth (tools/pz_x_mesh.py). Floating-point values are modelled as reals. */
module MeshNumbers {
  import opened Common

  // ---- the token pattern, matched greedily from the left

  function DigitRun(s: string): (n: nat)
    ensures n <= |s| && AllDigits(s[..n])
  {
    if s != "" && '0' <= s[0] <= '9' then
      var m := DigitRun(s[1..]);
      assert forall i :: 0 < i < m + 1 ==> s[i] == s[1..][..m][i - 1];
      m + 1
    else 0
  }

  function SignLength(s: string): (n: nat)
    ensures n <= |s|
  {
    if s != "" && (s[0] == '-' || s[0] == '+') then 1 else 0
  }

  /** Digits with an optional point among or behind them, or a point before them. */
  function Mantissa(s: string): (n: nat)
    ensures n <= |s|
  {
    var d := DigitRun(s);
    if d > 0 then (if d < |s| && s[d] == '.' then d + 1 + DigitRun(s[d + 1..]) else d)
    else if s != "" && s[0] == '.' && DigitRun(s[1..]) > 0 then 1 + DigitRun(s[1..])
    else 0
  }

  function Exponent(s: string): (n: nat)
    ensures n <= |s|
  {
    if s == "" || (s[0] != 'e' && s[0] != 'E') then 0
    else
      var sign := SignLength(s[1..]);
      var d := DigitRun(s[1 + sign..]);
      if d > 0 then 1 + sign + d else 0
  }

  /** How much of s the pattern matches at its start; 0 if nothing. */
  function NumberAt(s: string): (n: nat)
    ensures n <= |s|
  {
    var sign := SignLength(s);
    var m := Mantissa(s[sign..]);
    if m == 0 then 0 else sign + m + Exponent(s[sign + m..])
  }

  // ---- what a token is worth

  function Pow10(n: nat): (r: nat)
    ensures r > 0
  {
    if n == 0 then 1 else 10 * Pow10(n - 1)
  }

  function Scaled(x: real, exponent: int): (r: real) {
    if exponent >= 0 then x * Pow10(exponent) as real else x / Pow10(-exponent) as real
  }

  lemma DigitsJoin(a: string, b: string)
    requires AllDigits(a) && AllDigits(b)
    ensures AllDigits(a + b)
  {}

  function Worth(whole: string, frac: string, rest: string): (r: real)
    requires AllDigits(whole) && AllDigits(frac)
  {
    DigitsJoin(whole, frac);
    Scaled(NatOf(whole + frac) as real / Pow10(|frac|) as real, ExponentOf(rest))
  }

  function Behind(whole: string, after: string): (r: real)
    requires AllDigits(whole)
  {
    if after == "" || after[0] != '.' then Worth(whole, "", after)
    else
      var f := DigitRun(after[1..]);
      Worth(whole, after[1..][..f], after[1..][f..])
  }

  /** The worth of a token without its sign. */
  function Magnitude(u: string): (r: real) {
    Behind(u[..DigitRun(u)], u[DigitRun(u)..])
  }

  function ExponentOf(s: string): (n: int) {
    if s == "" || (s[0] != 'e' && s[0] != 'E') then 0
    else
      var sign := SignLength(s[1..]);
      var d := DigitRun(s[1 + sign..]);
      var n: int := NatOf(s[1 + sign..][..d]);
      if sign == 1 && s[1] == '-' then -n else n
  }

  /** float(token). */
  function Value(t: string): (r: real) {
    if t != "" && t[0] == '-' then -Magnitude(t[1..]) else Magnitude(t[SignLength(t)..])
  }

  /** float over NUMBER.findall: the worth of every match, left to right. */
  function Tokens(s: string): (r: seq<real>)
    decreases |s|
  {
    if s == "" then []
    else
      var n := NumberAt(s);
      if n > 0 then [Value(s[..n])] + Tokens(s[n..]) else Tokens(s[1..])
  }

  /** int(x): toward zero. */
  function Trunc(x: real): (n: int) {
    if x >= 0.0 then x.Floor else -((-x).Floor)
  }

  // ---- printing

  function Padded(n: nat, width: nat): (r: string)
    ensures |r| == width && AllDigits(r)
  {
    if width == 0 then "" else Padded(n / 10, width - 1) + ['0' + (n % 10) as char]
  }

  /** The nearest whole number; a tie goes to the even one. */
  function Nearest(y: real): (n: int)
    ensures -0.5 <= y - n as real <= 0.5
  {
    var f := y.Floor;
    var d := y - f as real;
    if d < 0.5 || (d == 0.5 && f % 2 == 0) then f else f + 1
  }

  const NANO := 1_000_000_000

  /** Billionths of the magnitude, as format(x, ".9f") rounds them. */
  function Billionths(x: real): (q: nat) {
    Nearest((if x < 0.0 then -x else x) * NANO as real)
  }

  /** number(x): always nine decimals, never an exponent. */
  function NumberText(x: real): (r: string) {
    var q := Billionths(x);
    (if x < 0.0 then "-" else "") + Digits(q / NANO) + "." + Padded(q % NANO, 9)
  }

  /** x has at most nine decimals. */
  predicate Fixed(x: real) {
    (x * NANO as real).Floor as real == x * NANO as real
  }

  lemma FixedBillionths(x: real)
    requires Fixed(x)
    ensures Billionths(x) as real == (if x < 0.0 then -x else x) * NANO as real
  {
    var y := x * NANO as real;
    if x < 0.0 {
      assert -y == (-(y.Floor)) as real;
      assert (-x) * NANO as real == -y;
      assert (-y).Floor == -(y.Floor);
    }
  }

  // ---- a printed number is one token and keeps its worth

  /** What may stand behind a printed number: nothing it could run on with. */
  predicate Stops(rest: string) {
    rest == "" || !('0' <= rest[0] <= '9' || rest[0] == '.' || rest[0] == 'e' || rest[0] == 'E')
  }

  lemma {:induction false} RunOf(digits: string, rest: string)
    requires AllDigits(digits) && (rest == "" || !('0' <= rest[0] <= '9'))
    ensures DigitRun(digits + rest) == |digits|
  {
    if digits == "" {
      assert digits + rest == rest;
    } else {
      assert (digits + rest)[0] == digits[0] && (digits + rest)[1..] == digits[1..] + rest;
      RunOf(digits[1..], rest);
    }
  }

  lemma PlainIsToken(digits: string, rest: string)
    requires digits != "" && AllDigits(digits) && Stops(rest)
    ensures Mantissa(digits + rest) == |digits| && Exponent((digits + rest)[|digits|..]) == 0
  {
    RunOf(digits, rest);
    assert (digits + rest)[|digits|..] == rest;
    assert rest != "" ==> (digits + rest)[|digits|] == rest[0];
  }

  lemma PointIsToken(whole: string, frac: string, rest: string)
    requires whole != "" && AllDigits(whole) && AllDigits(frac) && Stops(rest)
    ensures var t := whole + "." + frac;
      Mantissa(t + rest) == |t| && Exponent((t + rest)[|t|..]) == 0
  {
    var t := whole + "." + frac;
    var behind := "." + (frac + rest);
    assert t + rest == whole + behind;
    RunOf(whole, behind);
    assert (t + rest)[|whole|] == '.' && (t + rest)[|whole| + 1..] == frac + rest;
    RunOf(frac, rest);
    assert (t + rest)[|t|..] == rest;
  }

  /** An unsigned token, and with a minus before it. */
  lemma SignedToken(t: string, rest: string)
    requires t != "" && '0' <= t[0] <= '9' && Mantissa(t + rest) == |t| && Exponent((t + rest)[|t|..]) == 0
    ensures NumberAt(t + rest) == |t| && NumberAt("-" + t + rest) == |t| + 1
  {
    assert (t + rest)[0] == t[0] && (t + rest)[0..] == t + rest;
    var s := "-" + t + rest;
    assert s[0] == '-' && s[1..] == t + rest;
    assert s[1 + |t|..] == (t + rest)[|t|..];
  }

  lemma IntIsToken(n: int, rest: string)
    requires Stops(rest)
    ensures NumberAt(IntText(n) + rest) == |IntText(n)|
  {
    var t := Digits(if n < 0 then -n else n);
    PlainIsToken(t, rest);
    SignedToken(t, rest);
  }

  lemma NumberIsToken(x: real, rest: string)
    requires Stops(rest)
    ensures NumberAt(NumberText(x) + rest) == |NumberText(x)| > 0
  {
    var q := Billionths(x);
    hide Billionths, Mantissa, Exponent, NumberAt, Digits, Padded;
    NumberForm(x);
    PointIsToken(Digits(q / NANO), Padded(q % NANO, 9), rest);
    SignedToken(PointText(q), rest);
  }

  /** The unsigned text of q billionths. */
  function PointText(q: nat): (r: string)
    ensures r != "" && '0' <= r[0] <= '9'
  {
    Digits(q / NANO) + "." + Padded(q % NANO, 9)
  }

  lemma NumberForm(x: real)
    ensures NumberText(x) == if x < 0.0 then "-" + PointText(Billionths(x)) else PointText(Billionths(x))
  {
    hide Billionths;
    var q := Billionths(x);
    var a, b := Digits(q / NANO), Padded(q % NANO, 9);
    hide Digits, Padded;
    assert "" + a == a;
    assert "-" + a + "." + b == "-" + (a + "." + b);
  }

  lemma NatOfMore(s: string, d: nat)
    requires AllDigits(s) && d < 10
    ensures AllDigits(s + ['0' + d as char]) && NatOf(s + ['0' + d as char]) == NatOf(s) * 10 + d
  {
    var t := s + ['0' + d as char];
    assert t[..|t| - 1] == s;
  }

  lemma Shift(head: nat, power: nat, n: nat)
    ensures (head * power + n / 10) * 10 + n % 10 == head * (10 * power) + n
  {
    assert n / 10 * 10 + n % 10 == n;
  }

  lemma {:induction false} NatOfPadded(digits: string, n: nat, width: nat)
    requires AllDigits(digits) && n < Pow10(width)
    ensures AllDigits(digits + Padded(n, width)) && NatOf(digits + Padded(n, width)) == NatOf(digits) * Pow10(width) + n
    decreases width
  {
    hide NatOf, AllDigits;
    if width == 0 {
      assert digits + "" == digits;
    } else {
      NatOfPadded(digits, n / 10, width - 1);
      NatOfMore(digits + Padded(n / 10, width - 1), n % 10);
      assert digits + Padded(n, width) == digits + Padded(n / 10, width - 1) + ['0' + (n % 10) as char];
      hide Padded;
      Shift(NatOf(digits), Pow10(width - 1), n);
    }
  }

  lemma Pow10Nine()
    ensures Pow10(9) == NANO
  {
    assert Pow10(3) == 1000;
    assert Pow10(6) == 1000000;
  }

  lemma MagnitudeOf(whole: string, frac: string)
    requires AllDigits(whole) && AllDigits(frac)
    ensures Magnitude(whole + "." + frac) == Worth(whole, frac, "")
  {
    var behind := "." + frac;
    var t := whole + "." + frac;
    hide Worth, DigitRun, AllDigits;
    assert t == whole + behind;
    RunOf(whole, behind);
    assert t[|whole|..] == behind && t[..|whole|] == whole && behind[1..] == frac;
    RunOf(frac, "");
    assert frac + "" == frac && frac[..|frac|] == frac && frac[|frac|..] == "";
  }

  lemma MagnitudeWhole(whole: string)
    requires AllDigits(whole)
    ensures Magnitude(whole) == Worth(whole, "", "")
  {
    hide Worth, DigitRun, AllDigits;
    RunOf(whole, "");
    assert whole + "" == whole && whole[..|whole|] == whole && whole[|whole|..] == "";
  }

  lemma PlainWorth(whole: string, frac: string)
    requires AllDigits(whole) && AllDigits(frac)
    ensures AllDigits(whole + frac) && Worth(whole, frac, "") == NatOf(whole + frac) as real / Pow10(|frac|) as real
  {
    DigitsJoin(whole, frac);
    hide NatOf, AllDigits;
    assert Pow10(0) == 1;
  }

  lemma PointValue(q: nat)
    ensures Magnitude(PointText(q)) == q as real / NANO as real
  {
    hide Magnitude, NatOf, Digits, Padded, Pow10, Worth;
    var a, b := Digits(q / NANO), Padded(q % NANO, 9);
    Pow10Nine();
    NatOfPadded(a, q % NANO, 9);
    NatOfDigits(q / NANO);
    assert q / NANO * NANO + q % NANO == q;
    MagnitudeOf(a, b);
    PlainWorth(a, b);
  }

  lemma WholeValue(m: nat)
    ensures Magnitude(Digits(m)) == m as real
  {
    hide Magnitude, NatOf, Digits, Worth;
    NatOfDigits(m);
    MagnitudeWhole(Digits(m));
    PlainWorth(Digits(m), "");
    assert Digits(m) + "" == Digits(m);
    assert Pow10(0) == 1;
  }

  lemma ValueSigned(t: string)
    requires t != "" && '0' <= t[0] <= '9'
    ensures Value(t) == Magnitude(t) && Value("-" + t) == -Magnitude(t)
  {
    hide Magnitude;
    assert ("-" + t)[1..] == t && t[0..] == t;
  }

  lemma PrintedValue(x: real)
    ensures Value(NumberText(x)) == (if x < 0.0 then -(Billionths(x) as real / NANO as real) else Billionths(x) as real / NANO as real)
  {
    hide Magnitude, Value, NumberText, PointText, Billionths;
    NumberForm(x);
    PointValue(Billionths(x));
    ValueSigned(PointText(Billionths(x)));
  }

  /** Printing a number with at most nine decimals and reading it again gives the number. */
  lemma NumberBack(x: real)
    requires Fixed(x)
    ensures Value(NumberText(x)) == x
  {
    PrintedValue(x);
    FixedBillionths(x);
    hide Value, NumberText, Billionths, Fixed;
  }

  /** Every printed number is within half a billionth of the original. */
  lemma PrintingIsClose(x: real)
    ensures -0.5 <= (Value(NumberText(x)) - x) * NANO as real <= 0.5
  {
    PrintedValue(x);
    hide Value, NumberText;
  }

  lemma IntBack(n: int)
    ensures Value(IntText(n)) == n as real && Trunc(n as real) == n
  {
    hide Digits, Magnitude, Value;
    var m: nat := if n < 0 then -n else n;
    WholeValue(m);
    ValueSigned(Digits(m));
  }
}
