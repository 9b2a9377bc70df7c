/** What the two patterns of the mesh reader match, said as grammars: numbers and headings
    (tools/pz_x_mesh.py). */
module MeshGrammar {
  import opened Common
  import opened MeshNumbers
  import opened MeshBlocks

  // ---- [-+]?(?:\d+\.?\d*|\.\d+)(?:[eE][-+]?\d+)?

  predicate SignText(g: string) {
    g == "" || g == "-" || g == "+"
  }

  /** Digits, digits with a point among or behind them, or a point with digits behind it. */
  ghost predicate MantissaText(m: string) {
    exists a, b :: AllDigits(a) && AllDigits(b) && MantissaOf(m, a, b)
  }

  predicate MantissaOf(m: string, a: string, b: string) {
    (a != "" && (m == a || m == a + "." + b)) || (a == "" && b != "" && m == "." + b)
  }

  ghost predicate ExponentText(e: string) {
    e == "" || exists g, d :: SignText(g) && AllDigits(d) && d != "" && ExponentOfParts(e, g, d)
  }

  predicate ExponentOfParts(e: string, g: string, d: string) {
    e == "e" + g + d || e == "E" + g + d
  }

  ghost predicate Numeral(t: string) {
    exists g, m, e :: SignText(g) && MantissaText(m) && ExponentText(e) && t == g + m + e
  }

  lemma {:induction false} LongestDigits(s: string, a: string)
    requires AllDigits(a) && a <= s
    ensures |a| <= DigitRun(s)
    ensures |a| < |s| && !('0' <= s[|a|] <= '9') ==> DigitRun(s) == |a|
  {
    if a != "" {
      assert s[0] == a[0] && a[1..] <= s[1..];
      LongestDigits(s[1..], a[1..]);
    }
  }

  lemma DigitRunStops(s: string)
    ensures DigitRun(s) < |s| ==> !('0' <= s[DigitRun(s)] <= '9')
  {
    if s != "" && '0' <= s[0] <= '9' {
      DigitRunStops(s[1..]);
    }
  }

  lemma MantissaMatches(s: string)
    ensures Mantissa(s) > 0 ==> MantissaText(s[..Mantissa(s)])
  {
    var d, m := DigitRun(s), s[..Mantissa(s)];
    if d > 0 {
      if d < |s| && s[d] == '.' {
        var b := s[d + 1..][..DigitRun(s[d + 1..])];
        assert m == s[..d] + "." + b;
        assert MantissaOf(m, s[..d], b);
      } else {
        assert MantissaOf(m, s[..d], "");
      }
    } else if s != "" && s[0] == '.' && DigitRun(s[1..]) > 0 {
      var b := s[1..][..DigitRun(s[1..])];
      assert m == "." + b;
      assert MantissaOf(m, "", b);
    }
  }

  lemma MantissaLongest(s: string, m: string)
    requires MantissaText(m) && m <= s
    ensures 0 < |m| <= Mantissa(s)
  {
    var a, b :| AllDigits(a) && AllDigits(b) && MantissaOf(m, a, b);
    if a != "" {
      assert a <= s;
      LongestDigits(s, a);
      if m == a + "." + b {
        assert s[|a|] == '.';
        assert b <= s[|a| + 1..];
        LongestDigits(s[|a| + 1..], b);
      }
    } else {
      assert s[0] == '.' && b <= s[1..];
      LongestDigits(s[1..], b);
    }
  }

  /** Behind a mantissa that could go on there is a digit or a point. */
  lemma MantissaGoesOn(s: string, k: nat)
    requires k < Mantissa(s)
    ensures '0' <= s[k] <= '9' || s[k] == '.'
  {
    var d := DigitRun(s);
    assert forall i :: 0 <= i < d ==> s[i] == s[..d][i];
    if d > 0 && d < |s| && s[d] == '.' && k > d {
      var b := s[d + 1..][..DigitRun(s[d + 1..])];
      assert s[k] == b[k - d - 1];
    } else if d == 0 && k > 0 {
      var b := s[1..][..DigitRun(s[1..])];
      assert s[k] == b[k - 1];
    }
  }

  lemma ExponentMatches(s: string)
    ensures ExponentText(s[..Exponent(s)])
  {
    var e := s[..Exponent(s)];
    if e != "" {
      var sign := SignLength(s[1..]);
      var d := s[1 + sign..][..DigitRun(s[1 + sign..])];
      var g := s[1..][..sign];
      assert e == [s[0]] + g + d;
      assert SignText(g) && ExponentOfParts(e, g, d);
    }
  }

  lemma ExponentLongest(s: string, e: string)
    requires ExponentText(e) && e <= s
    ensures |e| <= Exponent(s)
  {
    if e != "" {
      var g, d :| SignText(g) && AllDigits(d) && d != "" && ExponentOfParts(e, g, d);
      hide ExponentText, Exponent, AllDigits, SignText;
      ExponentSplits(e, g, d, s);
      ExponentRun(s, g, d);
    }
  }

  lemma ExponentSplits(e: string, g: string, d: string, s: string)
    requires ExponentOfParts(e, g, d) && e <= s
    ensures |e| == 1 + |g| + |d| && (s[0] == 'e' || s[0] == 'E') && g + d <= s[1..]
  {
    assert e[1..] == g + d && s[0] == e[0];
    assert s[1..][..|g + d|] == e[1..];
  }

  lemma ExponentRun(s: string, g: string, d: string)
    requires s != "" && (s[0] == 'e' || s[0] == 'E') && SignText(g) && AllDigits(d) && d != "" && g + d <= s[1..]
    ensures 1 + |g| + |d| <= Exponent(s)
  {
    SignThenDigits(s[1..], g, d);
    hide DigitRun, SignLength, AllDigits, SignText;
    assert s[1..][|g|..] == s[1 + |g|..];
  }

  lemma SignThenDigits(s: string, g: string, d: string)
    requires SignText(g) && AllDigits(d) && d != "" && g + d <= s
    ensures SignLength(s) == |g| && DigitRun(s[|g|..]) >= |d|
  {
    assert forall i :: 0 <= i < |g + d| ==> s[i] == (g + d)[i];
    assert s[|g|] == d[0] && (g != "" ==> s[0] == g[0]);
    assert d <= s[|g|..] by {
      assert forall i :: 0 <= i < |d| ==> s[|g|..][i] == (g + d)[|g| + i] == d[i];
    }
    LongestDigits(s[|g|..], d);
  }

  lemma SignIs(s: string, g: string, m: string)
    requires SignText(g) && MantissaText(m) && g + m <= s
    ensures SignLength(s) == |g| && m <= s[|g|..]
  {
    var a, b :| AllDigits(a) && AllDigits(b) && MantissaOf(m, a, b);
    assert m[0] == if a != "" then a[0] else '.';
    assert (g + m)[0] == s[0];
    assert forall i :: 0 <= i < |m| ==> (g + m)[|g| + i] == m[i];
  }

  /** The greedy match is the longest numeral the text starts with; there is none exactly if nothing matches. */
  lemma NumberAtIsLongest(s: string)
    ensures NumberAt(s) > 0 ==> Numeral(s[..NumberAt(s)])
    ensures forall k :: NumberAt(s) < k <= |s| ==> !Numeral(s[..k])
  {
    hide Mantissa, Exponent, MantissaText, ExponentText;
    var n := NumberAt(s);
    if n > 0 {
      var sign := SignLength(s);
      MantissaMatches(s[sign..]);
      var m := Mantissa(s[sign..]);
      ExponentMatches(s[sign + m..]);
      Assembled(s, sign, m, Exponent(s[sign + m..]));
    }
    forall k | n < k <= |s| ensures !Numeral(s[..k]) {
      if Numeral(s[..k]) {
        NoLonger(s, k);
      }
    }
  }

  lemma Assembled(s: string, sign: nat, m: nat, e: nat)
    requires sign + m + e <= |s| && SignText(s[..sign]) && MantissaText(s[sign..][..m]) && ExponentText(s[sign + m..][..e])
    ensures Numeral(s[..sign + m + e])
  {
    hide MantissaText, ExponentText;
    assert s[..sign + m + e] == s[..sign] + s[sign..][..m] + s[sign + m..][..e];
  }

  lemma NoLonger(s: string, k: nat)
    requires k <= |s| && Numeral(s[..k])
    ensures k <= NumberAt(s)
  {
    var g, m, e :| SignText(g) && MantissaText(m) && ExponentText(e) && s[..k] == g + m + e;
    PartsOf(s, k, g, m, e);
    hide MantissaText, ExponentText, Mantissa, Exponent, SignLength, SignText;
    SignIs(s, g, m);
    var u := s[|g|..];
    MantissaLongest(u, m);
    if |m| < Mantissa(u) {
      MantissaGoesOn(u, |m|);
      StartsWithE(e);
      assert e == "";
    } else {
      ExponentLongest(s[|g| + |m|..], e);
    }
  }

  lemma PartsOf(s: string, k: nat, g: string, m: string, e: string)
    requires k <= |s| && s[..k] == g + m + e
    ensures g + m <= s && e <= s[|g| + |m|..] && k == |g| + |m| + |e|
    ensures e != "" ==> |g| + |m| < |s| && s[|g|..][|m|] == e[0]
  {
    var t := g + m + e;
    assert forall i :: 0 <= i < k ==> t[i] == s[..k][i] == s[i];
    assert forall i :: 0 <= i < |g + m| ==> t[i] == (g + m)[i];
    assert forall i :: 0 <= i < |e| ==> t[|g| + |m| + i] == e[i];
  }

  lemma StartsWithE(e: string)
    requires ExponentText(e)
    ensures e != "" ==> e[0] == 'e' || e[0] == 'E'
  {}

  // ---- what a numeral is worth

  /** A numeral with a point and an exponent is worth its digits, moved by the decimals and the exponent. */
  lemma WorthIs(whole: string, frac: string, g: string, d: string)
    requires AllDigits(whole) && AllDigits(frac) && SignText(g) && AllDigits(d) && d != "" && (whole != "" || frac != "")
    ensures AllDigits(whole + frac)
    ensures var t := whole + "." + frac + ("e" + g + d);
      var x := Scaled(NatOf(whole + frac) as real / Pow10(|frac|) as real, if g == "-" then -(NatOf(d) as int) else NatOf(d));
      Value(t) == x && Value("-" + t) == -x && Value("+" + t) == x
  {
    var rest := "e" + g + d;
    DigitsJoin(whole, frac);
    ExponentIs(g, d);
    WorthOf(whole, frac, rest);
    hide AllDigits, NatOf, Worth, ExponentOf, DigitRun, Scaled;
    MagnitudeIs(whole, frac, rest);
    var t := whole + "." + frac + rest;
    FirstIsNoSign(whole, t);
    hide Magnitude;
    assert ("-" + t)[1..] == t && ("+" + t)[1..] == t && t[0..] == t;
  }

  lemma MagnitudeIs(whole: string, frac: string, rest: string)
    requires AllDigits(whole) && AllDigits(frac) && (rest == "" || !('0' <= rest[0] <= '9'))
    ensures Magnitude(whole + "." + frac + rest) == Worth(whole, frac, rest)
  {
    var t, behind := whole + "." + frac + rest, "." + (frac + rest);
    hide AllDigits, Worth, DigitRun;
    assert t == whole + behind;
    RunOf(whole, behind);
    assert t[|whole|..] == behind && t[..|whole|] == whole && behind[1..] == frac + rest;
    RunOf(frac, rest);
    assert (frac + rest)[..|frac|] == frac && (frac + rest)[|frac|..] == rest;
  }

  lemma FirstIsNoSign(whole: string, t: string)
    requires AllDigits(whole) && whole + "." <= t
    ensures t[0] != '-' && t[0] != '+'
  {
    assert whole != "" ==> t[0] == whole[0];
    assert whole == "" ==> t[0] == (whole + ".")[0];
  }

  lemma WorthOf(whole: string, frac: string, rest: string)
    requires AllDigits(whole) && AllDigits(frac)
    ensures AllDigits(whole + frac)
    ensures Worth(whole, frac, rest) == Scaled(NatOf(whole + frac) as real / Pow10(|frac|) as real, ExponentOf(rest))
  {
    DigitsJoin(whole, frac);
    hide NatOf, ExponentOf, Scaled;
  }

  lemma ExponentIs(g: string, d: string)
    requires SignText(g) && AllDigits(d) && d != ""
    ensures ExponentOf("e" + g + d) == if g == "-" then -(NatOf(d) as int) else NatOf(d)
  {
    var s := "e" + g + d;
    assert s[0] == 'e' && s[1..] == g + d;
    assert s[1 + |g|..] == d && s[1..][|g|..] == d && (g != "" ==> s[1] == g[0]);
    SignThenDigits(s[1..], g, d);
    AllOfIt(d);
    hide NatOf, DigitRun, SignLength, AllDigits;
    ExponentRead(s, |g|, d);
  }

  lemma AllOfIt(d: string)
    requires AllDigits(d)
    ensures DigitRun(d) == |d| && d[..|d|] == d
  {
    RunOf(d, "");
    assert d + "" == d;
  }

  lemma ExponentRead(s: string, sign: nat, d: string)
    requires |s| > 1 + sign && s[0] == 'e' && SignLength(s[1..]) == sign <= 1 && s[1 + sign..] == d && DigitRun(d) == |d| && AllDigits(d)
    ensures ExponentOf(s) == if sign == 1 && s[1] == '-' then -(NatOf(d) as int) else NatOf(d)
  {
    hide NatOf, DigitRun, SignLength, AllDigits;
    assert d[..|d|] == d;
  }

  /** Every number is printed with exactly nine decimals and never with an exponent. */
  lemma NumberTextIs(x: real)
    ensures exists whole, frac ::
      && AllDigits(whole) && whole != "" && (whole[0] == '0' ==> whole == "0") && AllDigits(frac) && |frac| == 9
      && NumberText(x) == (if x < 0.0 then "-" else "") + whole + "." + frac
  {
    var q := Billionths(x);
    NoLeadingZero(q / NANO);
    hide Billionths, Digits, Padded;
    assert NumberText(x) == (if x < 0.0 then "-" else "") + Digits(q / NANO) + "." + Padded(q % NANO, 9);
  }

  lemma {:induction false} NoLeadingZero(n: nat)
    ensures Digits(n)[0] == '0' ==> Digits(n) == "0"
    ensures n > 0 ==> Digits(n)[0] != '0'
  {
    if n >= 10 { NoLeadingZero(n / 10); }
  }

  /** Integers are printed with a sign exactly if they are negative, and never with a leading zero. */
  lemma IntTextIs(n: int)
    ensures var s := IntText(n);
      var digits := if n < 0 then s[1..] else s;
      && s != "" && (s[0] == '-' <==> n < 0) && digits != "" && AllDigits(digits) && (digits[0] == '0' <==> n == 0)
      && NatOf(digits) == if n < 0 then -n else n
  {
    var size := if n < 0 then -n else n;
    DigitsShape(size);
    NatOfDigits(size);
    hide Digits, NatOf, AllDigits;
    if n < 0 { assert ("-" + Digits(size))[1..] == Digits(size); }
  }

  lemma DigitsShape(n: nat)
    ensures var s := Digits(n); s != "" && AllDigits(s) && (s[0] == '0' <==> n == 0) && s[0] != '-'
  {
    NoLeadingZero(n);
    ZeroDigit();
  }

  lemma ZeroDigit()
    ensures Digits(0) == "0"
  {}

  /** int(): toward zero. */
  lemma TruncIs(x: real)
    ensures x >= 0.0 ==> Trunc(x) as real <= x < Trunc(x) as real + 1.0
    ensures x <= 0.0 ==> Trunc(x) as real - 1.0 < x <= Trunc(x) as real
  {}

  // ---- \bKEYWORD(\s+\w+)?\s*\{

  predicate AllSpace(s: string) {
    forall i :: 0 <= i < |s| ==> PySpace(s[i])
  }

  predicate AllWordChars(s: string, word: char -> bool) {
    forall i :: 0 <= i < |s| ==> word(s[i])
  }

  /** keyword, white space, perhaps a name and white space, and a brace. */
  ghost predicate HeadingText(h: Heading, t: string, word: char -> bool) {
    || (!h.name.Needed? && exists sp :: AllSpace(sp) && t == h.keyword + sp + "{")
    || (!h.name.Never? && exists sp, w, sp2 ::
          AllSpace(sp) && sp != "" && AllWordChars(w, word) && w != "" && AllSpace(sp2) && t == h.keyword + sp + w + sp2 + "{")
  }

  lemma {:induction false} SpaceRunIs(s: string, sp: string)
    requires AllSpace(sp) && sp <= s && |sp| < |s| && !PySpace(s[|sp|])
    ensures SpaceRun(s) == |sp|
  {
    hide PySpace;
    if sp != "" {
      assert s[0] == sp[0] && sp[1..] <= s[1..];
      SpaceRunIs(s[1..], sp[1..]);
    }
  }

  lemma {:induction false} WordRunIs(s: string, w: string, word: char -> bool)
    requires AllWordChars(w, word) && w <= s && |w| < |s| && !word(s[|w|])
    ensures WordRun(s, word) == |w|
  {
    if w != "" {
      assert s[0] == w[0] && w[1..] <= s[1..];
      WordRunIs(s[1..], w[1..], word);
    }
  }

  lemma {:induction false} RunsAre(s: string, word: char -> bool)
    ensures AllSpace(s[..SpaceRun(s)]) && AllWordChars(s[..WordRun(s, word)], word)
  {
    hide PySpace;
    if s != "" {
      RunsAre(s[1..], word);
      assert forall i :: 0 < i < |s| ==> s[i] == s[1..][i - 1];
    }
  }

  lemma BraceIsNeither(word: char -> bool)
    requires WordClass(word)
    ensures !word('{') && !PySpace('{')
  {}

  /** What the search finds at the start of a text is exactly a heading: greedy runs of spaces and word characters lose none
      and find no other. */
  lemma HeadingAtIff(h: Heading, s: string, word: char -> bool)
    requires WordClass(word)
    ensures HeadingAt(h, s, word) > 0 ==> HeadingText(h, s[..HeadingAt(h, s, word)], word)
    ensures forall k :: 0 <= k <= |s| && HeadingText(h, s[..k], word) ==> HeadingAt(h, s, word) == k
  {
    if HeadingAt(h, s, word) > 0 {
      HeadingFound(h, s, word);
    }
    forall k | 0 <= k <= |s| && HeadingText(h, s[..k], word) ensures HeadingAt(h, s, word) == k {
      HeadingMatches(h, s, k, word);
    }
  }

  lemma PlainText(h: Heading, sp: string, word: char -> bool)
    requires !h.name.Needed? && AllSpace(sp)
    ensures HeadingText(h, h.keyword + sp + "{", word)
  {}

  lemma NamedText(h: Heading, sp: string, w: string, sp2: string, word: char -> bool)
    requires !h.name.Never? && AllSpace(sp) && sp != "" && AllWordChars(w, word) && w != "" && AllSpace(sp2)
    ensures HeadingText(h, h.keyword + sp + w + sp2 + "{", word)
  {}

  lemma HeadingIsAfter(h: Heading, s: string, word: char -> bool)
    requires h.keyword <= s
    ensures var k := |h.keyword|; HeadingAt(h, s, word) == AfterKeyword(h.name, s, k, k + SpaceRun(s[k..]), word)
  {
    hide AfterKeyword, SpaceRun;
  }

  lemma AfterFound(name: Name, s: string, k: nat, a: nat, word: char -> bool)
    requires k <= a <= |s| && AfterKeyword(name, s, k, a, word) > 0
    ensures a < |s|
    ensures s[a] == '{' ==> !name.Needed? && AfterKeyword(name, s, k, a, word) == a + 1
    ensures s[a] != '{' ==>
      var w := WordRun(s[a..], word); var m := SpaceRun(s[a + w..]);
      !name.Never? && a > k && w > 0 && a + w + m < |s| && s[a + w + m] == '{' && AfterKeyword(name, s, k, a, word) == a + w + m + 1
  {
    hide SpaceRun, WordRun;
  }

  lemma HeadingFound(h: Heading, s: string, word: char -> bool)
    requires HeadingAt(h, s, word) > 0
    ensures HeadingText(h, s[..HeadingAt(h, s, word)], word)
  {
    hide HeadingText, SpaceRun, WordRun, AllSpace, AllWordChars, AfterKeyword, PySpace;
    assert h.keyword <= s;
    var k := |h.keyword|;
    var n := SpaceRun(s[k..]);
    var a := k + n;
    assert s[..k] == h.keyword;
    RunsAre(s[k..], word);
    HeadingIsAfter(h, s, word);
    hide HeadingAt;
    AfterFound(h.name, s, k, a, word);
    if s[a] == '{' {
      PlainPieces(s, k, n);
      PlainText(h, s[k..][..n], word);
    } else {
      var w := WordRun(s[a..], word);
      var m := SpaceRun(s[a + w..]);
      RunsAre(s[a..], word);
      RunsAre(s[a + w..], word);
      NamedPieces(s, k, n, w, m);
      NamedText(h, s[k..][..n], s[a..][..w], s[a + w..][..m], word);
    }
  }

  lemma PlainPieces(s: string, k: nat, n: nat)
    requires k + n < |s| && s[k + n] == '{'
    ensures s[..k + n + 1] == s[..k] + s[k..][..n] + "{"
  {}

  lemma NamedPieces(s: string, k: nat, n: nat, w: nat, m: nat)
    requires k + n + w + m < |s| && s[k + n + w + m] == '{'
    ensures s[..k + n + w + m + 1] == s[..k] + s[k..][..n] + s[k + n..][..w] + s[k + n + w..][..m] + "{"
  {}

  lemma HeadingMatches(h: Heading, s: string, n: nat, word: char -> bool)
    requires WordClass(word) && n <= |s| && HeadingText(h, s[..n], word)
    ensures HeadingAt(h, s, word) == n
  {
    var t := s[..n];
    BraceIsNeither(word);
    if !h.name.Needed? && exists sp :: AllSpace(sp) && t == h.keyword + sp + "{" {
      var sp :| AllSpace(sp) && t == h.keyword + sp + "{";
      PlainHeading(h, s, sp, word);
    } else {
      var sp, w, sp2 :| AllSpace(sp) && sp != "" && AllWordChars(w, word) && w != "" && AllSpace(sp2) && t == h.keyword + sp + w + sp2 + "{";
      NamedHeading(h, s, sp, w, sp2, word);
    }
  }

  lemma PlainHeading(h: Heading, s: string, sp: string, word: char -> bool)
    requires !h.name.Needed? && AllSpace(sp) && !PySpace('{') && h.keyword + sp + "{" <= s
    ensures HeadingAt(h, s, word) == |h.keyword| + |sp| + 1
  {
    var t, k := h.keyword + sp + "{", |h.keyword|;
    assert forall i :: 0 <= i < |t| ==> t[i] == s[i];
    assert s[k..][..|sp|] == sp && s[k + |sp|] == t[k + |sp|] == '{';
    SpaceRunIs(s[k..], sp);
    hide PySpace, SpaceRun, WordRun;
  }

  lemma NamedHeading(h: Heading, s: string, sp: string, w: string, sp2: string, word: char -> bool)
    requires !h.name.Never? && AllSpace(sp) && sp != "" && AllWordChars(w, word) && w != "" && AllSpace(sp2)
    requires WordClass(word) && !PySpace('{') && !word('{') && h.keyword + sp + w + sp2 + "{" <= s
    ensures HeadingAt(h, s, word) == |h.keyword| + |sp| + |w| + |sp2| + 1
  {
    NeverBoth(word);
    NamedPlaces(s, h.keyword, sp, w, sp2);
    hide HeadingAt, WordClass, PySpace, AllSpace, AllWordChars;
    NamedAt(h, s, sp, w, sp2, word);
  }

  lemma NamedAt(h: Heading, s: string, sp: string, w: string, sp2: string, word: char -> bool)
    requires !h.name.Never? && AllSpace(sp) && sp != "" && AllWordChars(w, word) && w != "" && AllSpace(sp2)
    requires (forall c :: PySpace(c) ==> !word(c)) && !PySpace('{') && !word('{') && h.keyword <= s
    requires var a := |h.keyword| + |sp|; var b := a + |w|;
      && b + |sp2| < |s| && sp <= s[|h.keyword|..] && w <= s[a..] && sp2 <= s[b..] && s[a] == w[0]
      && s[b + |sp2|] == '{' && s[b] == if sp2 != "" then sp2[0] else '{'
    ensures HeadingAt(h, s, word) == |h.keyword| + |sp| + |w| + |sp2| + 1
  {
    hide HeadingAt, AfterKeyword, SpaceRun, WordRun, PySpace;
    var k := |h.keyword|;
    var a := k + |sp|;
    var b := a + |w|;
    assert word(w[0]) && !word(s[b]);
    assert s[k..][|sp|] == s[a] && s[a..][|w|] == s[b] && s[b..][|sp2|] == '{';
    SpaceRunIs(s[k..], sp);
    WordRunIs(s[a..], w, word);
    SpaceRunIs(s[b..], sp2);
    hide AllSpace, AllWordChars;
    HeadingIsAfter(h, s, word);
    AfterNamed(h.name, s, k, a, |w|, |sp2|, word);
  }

  lemma NeverBoth(word: char -> bool)
    requires WordClass(word)
    ensures forall c :: PySpace(c) ==> !word(c)
  {
    hide PySpace;
  }

  lemma AfterNamed(name: Name, s: string, k: nat, a: nat, w: nat, m: nat, word: char -> bool)
    requires k < a && w > 0 && a + w + m < |s| && !name.Never? && s[a] != '{' && s[a + w + m] == '{'
    requires WordRun(s[a..], word) == w && SpaceRun(s[a + w..]) == m
    ensures AfterKeyword(name, s, k, a, word) == a + w + m + 1
  {
    hide WordRun, SpaceRun;
  }

  lemma NamedPlaces(s: string, keyword: string, sp: string, w: string, sp2: string)
    requires keyword + sp + w + sp2 + "{" <= s && w != ""
    ensures var k := |keyword|; var a := k + |sp|; var b := a + |w|;
      && keyword <= s && sp <= s[k..] && w <= s[a..] && sp2 <= s[b..] && s[a] == w[0] && b + |sp2| < |s|
      && s[b + |sp2|] == '{' && s[b] == if sp2 != "" then sp2[0] else '{'
  {
    var t := keyword + sp + w + sp2 + "{";
    assert forall i :: 0 <= i < |t| ==> t[i] == s[i];
    var k := |keyword|;
    assert forall i :: 0 <= i < |sp| ==> t[k + i] == sp[i];
    assert forall i :: 0 <= i < |w| ==> t[k + |sp| + i] == w[i];
    assert forall i :: 0 <= i < |sp2| ==> t[k + |sp| + |w| + i] == sp2[i];
  }

  /** The search goes to the first place that matches. */
  lemma {:induction false} NextMatchIs(h: Heading, text: string, i: nat, word: char -> bool)
    requires i <= |text|
    ensures var r := NextMatch(h, text, i, word);
      forall k :: i <= k < (if r.Some? then r.value else |text|) ==> MatchAt(h, text, k, word) == 0
    decreases |text| - i
  {
    hide MatchAt;
    if i < |text| && MatchAt(h, text, i, word) == 0 { NextMatchIs(h, text, i + 1, word); }
  }

  /** How many braces a text leaves open. */
  function Depth(s: string): (n: int) {
    if s == "" then 0 else Depth(s[..|s| - 1]) + if s[|s| - 1] == '{' then 1 else if s[|s| - 1] == '}' then -1 else 0
  }

  lemma {:induction false} DepthFirst(s: string)
    requires s != ""
    ensures Depth(s) == (if s[0] == '{' then 1 else if s[0] == '}' then -1 else 0) + Depth(s[1..])
  {
    if |s| > 1 {
      DepthFirst(s[..|s| - 1]);
      assert s[..|s| - 1][1..] == s[1..][..|s| - 2];
    } else {
      assert s[1..] == "" && s[..0] == "";
    }
  }

  /** A block ends at the first place where its braces are closed again; it has no end exactly if they never are. */
  lemma {:induction false} CloseLengthIs(s: string, depth: nat)
    ensures var r := CloseLength(s, depth);
      && (r.Some? ==> depth + Depth(s[..r.value]) == 0 && forall k :: 0 <= k < r.value ==> depth + Depth(s[..k]) > 0)
      && (r.None? ==> forall k :: 0 <= k <= |s| ==> depth + Depth(s[..k]) > 0)
    decreases |s|
  {
    assert s[..0] == "";
    if depth > 0 && s != "" {
      var next: nat := if s[0] == '{' then depth + 1 else if s[0] == '}' then depth - 1 else depth;
      CloseLengthIs(s[1..], next);
      forall k | 0 < k <= |s| ensures depth + Depth(s[..k]) == next + Depth(s[1..][..k - 1]) {
        DepthFirst(s[..k]);
        assert s[..k][1..] == s[1..][..k - 1];
      }
      hide Depth;
    }
  }
}
