/** Fitting a spoken line into one bubble of at most 140 bytes (goblin_zomboid/social.py), with the
    bytes of UTF-8 (RFC 3629, sections 3 and 4). */
module Speech {
  import opened Common

  const SPEECH_LIMIT := 140

  // ---- UTF-8

  function Encode(c: char): (r: seq<int>)
    ensures 1 <= |r| <= 4
  {
    var n := c as int;
    if n < 0x80 then [n]
    else if n < 0x800 then [0xC0 + n / 64, 0x80 + n % 64]
    else if n < 0x10000 then [0xE0 + n / 4096, 0x80 + n / 64 % 64, 0x80 + n % 64]
    else [0xF0 + n / 262144, 0x80 + n / 4096 % 64, 0x80 + n / 64 % 64, 0x80 + n % 64]
  }

  function Utf8(s: string): (r: seq<int>)
    ensures |r| >= |s|
  {
    if s == "" then [] else Encode(s[0]) + Utf8(s[1..])
  }

  predicate Tail(b: int) {
    0x80 <= b < 0xC0
  }

  /** The character the bytes start with, and how many bytes it takes; None if they start with no valid one. */
  function DecodeOne(b: seq<int>): (r: Option<(char, nat)>)
    ensures r.Some? ==> 1 <= r.value.1 <= |b|
  {
    if b == [] then None
    else if 0 <= b[0] < 0x80 then Some((b[0] as char, 1))
    else if 0xC2 <= b[0] < 0xE0 && |b| >= 2 && Tail(b[1]) then Some((((b[0] - 0xC0) * 64 + (b[1] - 0x80)) as char, 2))
    else if 0xE0 <= b[0] < 0xF0 && |b| >= 3 && Tail(b[1]) && Tail(b[2]) then
      var n := (b[0] - 0xE0) * 4096 + (b[1] - 0x80) * 64 + (b[2] - 0x80);
      if n < 0x800 || 0xD800 <= n < 0xE000 then None else Some((n as char, 3))
    else if 0xF0 <= b[0] < 0xF8 && |b| >= 4 && Tail(b[1]) && Tail(b[2]) && Tail(b[3]) then
      var n := (b[0] - 0xF0) * 262144 + (b[1] - 0x80) * 4096 + (b[2] - 0x80) * 64 + (b[3] - 0x80);
      if n < 0x10000 || n >= 0x110000 then None else Some((n as char, 4))
    else None
  }

  /** decode with errors ignored: bytes that start no valid character are dropped. */
  function Decode(b: seq<int>): (r: string)
    decreases |b|
  {
    if b == [] then ""
    else
      var one := DecodeOne(b);
      if one.None? then Decode(b[1..]) else [one.value.0] + Decode(b[one.value.1..])
  }

  /** The longest prefix of at most n bytes. */
  function Fit(s: string, n: int): (r: string)
    ensures r <= s
    ensures n >= 0 ==> |Utf8(r)| <= n
    ensures |r| < |s| ==> |Utf8(s[..|r| + 1])| > n
  {
    if s == "" then ""
    else if |Encode(s[0])| > n then
      assert s[..1] == [s[0]] && [s[0]][1..] == "";
      assert |Utf8([s[0]])| == |Encode(s[0])| + |Utf8("")|;
      ""
    else
      var rest := Fit(s[1..], n - |Encode(s[0])|);
      var r := [s[0]] + rest;
      assert r[1..] == rest;
      assert |r| < |s| ==> s[..|r| + 1][1..] == s[1..][..|rest| + 1];
      r
  }

  lemma DecodeEncoded(c: char, rest: seq<int>)
    ensures DecodeOne(Encode(c) + rest) == Some((c, |Encode(c)|))
  {
    var n := c as int;
    var b := Encode(c) + rest;
    assert forall i :: 0 <= i < |Encode(c)| ==> b[i] == Encode(c)[i];
    if n >= 0x800 {
      assert n / 64 == n / 4096 * 64 + n / 64 % 64 by { assert n / 64 / 64 == n / 4096; }
    }
    if n >= 0x10000 {
      assert n / 4096 == n / 262144 * 64 + n / 4096 % 64 by { assert n / 4096 / 64 == n / 262144; }
    }
  }

  /** A cut character yields nothing. */
  lemma CutDecodesToNothing(c: char, k: nat)
    requires k < |Encode(c)|
    ensures Decode(Encode(c)[..k]) == ""
  {
    var e := Encode(c);
    assert forall i :: 1 <= i < |e| ==> Tail(e[i]);
    if k > 0 {
      var p := e[..k];
      assert DecodeOne(p).None?;
      TailsDecodeToNothing(p[1..]);
    }
  }

  lemma {:induction false} TailsDecodeToNothing(b: seq<int>)
    requires forall i :: 0 <= i < |b| ==> Tail(b[i])
    ensures Decode(b) == ""
  {
    if b != [] { TailsDecodeToNothing(b[1..]); }
  }

  /** Cutting the bytes and decoding never splits a character: it is the longest prefix that fits. */
  lemma {:induction false} DecodeFits(s: string, n: nat)
    requires n <= |Utf8(s)|
    ensures Decode(Utf8(s)[..n]) == Fit(s, n)
  {
    if s == "" {
    } else {
      var e, rest := Encode(s[0]), Utf8(s[1..]);
      hide Encode, DecodeOne;
      if n < |e| {
        assert Utf8(s)[..n] == e[..n];
        CutDecodesToNothing(s[0], n);
      } else {
        var b := Utf8(s)[..n];
        assert b == e + rest[..n - |e|];
        DecodeEncoded(s[0], rest[..n - |e|]);
        assert b[|e|..] == rest[..n - |e|];
        DecodeFits(s[1..], n - |e|);
      }
    }
  }

  lemma {:induction false} Utf8Cat(a: string, b: string)
    ensures Utf8(a + b) == Utf8(a) + Utf8(b)
  {
    if a == "" {
      assert a + b == b;
    } else {
      assert (a + b)[1..] == a[1..] + b;
      Utf8Cat(a[1..], b);
    }
  }

  lemma PrefixBytes(p: string, s: string)
    requires p <= s
    ensures |Utf8(p)| <= |Utf8(s)|
  {
    assert s == p + s[|p|..];
    Utf8Cat(p, s[|p|..]);
  }

  // ---- white space brought to single blanks

  /** Words with single blanks between them. */
  ghost predicate Squeezed(s: string) {
    && (forall i :: 0 <= i < |s| && PySpace(s[i]) ==> s[i] == ' ' && 0 < i < |s| - 1 && !PySpace(s[i + 1]))
  }

  /** A word, a blank, and squeezed words behind it. */
  lemma WordThenRest(w: string, rest: string)
    requires w != "" && (forall i :: 0 <= i < |w| ==> !PySpace(w[i])) && Squeezed(rest) && rest != "" && !PySpace(rest[0])
    ensures Squeezed(w + [' '] + rest)
  {
    hide PySpace;
    var r := w + [' '] + rest;
    assert forall i :: 0 <= i < |w| ==> r[i] == w[i];
    assert r[|w|] == ' ' && r[|w| + 1] == rest[0];
    assert forall i :: |w| < i < |r| ==> r[i] == rest[i - |w| - 1];
  }

  lemma {:induction false} SqueezeSqueezes(s: string)
    ensures Squeezed(Squeeze(s))
    ensures Squeeze(s) != "" ==> !PySpace(Squeeze(s)[0])
    decreases |s|
  {
    hide PySpace;
    if s == [] {
    } else if PySpace(s[0]) {
      hide Squeezed;
      SqueezeSqueezes(s[1..]);
    } else {
      var n := WordLength(s);
      SqueezeSqueezes(s[n..]);
      var w, rest := s[..n], Squeeze(s[n..]);
      assert forall i :: 0 <= i < n ==> w[i] == s[i];
      if rest != [] {
        WordThenRest(w, rest);
      }
    }
  }

  lemma {:induction false} WordLengthIs(s: string, n: nat)
    requires n <= |s| && (forall i :: 0 <= i < n ==> !PySpace(s[i])) && (n < |s| ==> PySpace(s[n]))
    ensures WordLength(s) == n
    decreases |s|
  {
    if n > 0 {
      assert forall i :: 0 <= i < n - 1 ==> s[1..][i] == s[i + 1];
      WordLengthIs(s[1..], n - 1);
    }
  }

  /** Behind a word of a squeezed text there is nothing, or one blank and a squeezed text. */
  lemma BehindWord(s: string, n: nat)
    requires Squeezed(s) && n < |s| && PySpace(s[n])
    ensures n + 1 < |s| && s[n] == ' ' && Squeezed(s[n + 1..]) && s[n..] == [' '] + s[n + 1..] && !PySpace(s[n + 1])
  {
    hide PySpace;
    var rest := s[n + 1..];
    assert forall i :: 0 <= i < |rest| ==> rest[i] == s[n + 1 + i];
  }

  lemma SqueezeBlank(rest: string)
    ensures Squeeze([' '] + rest) == Squeeze(rest)
  {
    assert ([' '] + rest)[1..] == rest;
  }

  lemma SqueezeNothing()
    ensures Squeeze("") == ""
  {}

  lemma SqueezeWord(s: string, n: nat)
    requires s != "" && !PySpace(s[0]) && n == WordLength(s)
    ensures Squeeze(s) == if Squeeze(s[n..]) == "" then s[..n] else s[..n] + [' '] + Squeeze(s[n..])
  {}

  lemma OneWordStays(s: string)
    requires s != "" && !PySpace(s[0]) && WordLength(s) == |s|
    ensures Squeeze(s) == s
  {
    SqueezeWord(s, |s|);
    hide Squeeze, WordLength, PySpace;
    SqueezeNothing();
    assert s[|s|..] == "" && s[..|s|] == s;
  }

  lemma WordAndRestStay(s: string, n: nat)
    requires s != "" && !PySpace(s[0]) && n == WordLength(s) < |s|
    requires n + 1 < |s| && s[n] == ' ' && s[n..] == [' '] + s[n + 1..] && Squeeze(s[n + 1..]) == s[n + 1..]
    ensures Squeeze(s) == s
  {
    var rest := s[n + 1..];
    SqueezeWord(s, n);
    hide *;
    SqueezeBlank(rest);
    CutAt(s, n);
    assert Squeeze(s[n..]) == rest && rest != "";
  }

  lemma CutAt(s: string, n: nat)
    requires n < |s| && s[n] == ' '
    ensures s == s[..n] + [' '] + s[n + 1..]
  {}

  lemma StartsWithWord(s: string)
    requires Squeezed(s) && s != ""
    ensures !PySpace(s[0])
  {}

  /** Squeezing what is squeezed changes nothing. */
  lemma {:induction false} SqueezedStays(s: string)
    requires Squeezed(s)
    ensures Squeeze(s) == s
    decreases |s|
  {
    if s != "" {
      StartsWithWord(s);
      var n := WordLength(s);
      hide PySpace, Squeezed, Squeeze, WordLength;
      if n < |s| {
        BehindWord(s, n);
        SqueezedStays(s[n + 1..]);
        WordAndRestStay(s, n);
      } else {
        OneWordStays(s);
      }
    }
  }

  /** text.split(): the words, without any white space. */
  function Words(s: string): (r: seq<string>)
    decreases |s|
  {
    if s == "" then []
    else if PySpace(s[0]) then Words(s[1..])
    else [s[..WordLength(s)]] + Words(s[WordLength(s)..])
  }

  lemma OneWord(w: string)
    requires w != "" && forall i :: 0 <= i < |w| ==> !PySpace(w[i])
    ensures Words(w) == [w]
  {
    WordLengthIs(w, |w|);
    assert w[|w|..] == "" && w[..|w|] == w;
  }

  lemma WordThenWords(w: string, rest: string)
    requires w != "" && forall i :: 0 <= i < |w| ==> !PySpace(w[i])
    ensures Words(w + [' '] + rest) == [w] + Words(rest)
  {
    var r := w + [' '] + rest;
    assert forall i :: 0 <= i < |w| ==> r[i] == w[i];
    WordLengthIs(r, |w|);
    assert r[..|w|] == w && r[|w|..] == [' '] + rest && r[|w|..][1..] == rest;
  }

  /** Squeezing keeps the words and their order. */
  lemma {:induction false} SqueezeKeepsWords(s: string)
    ensures Words(Squeeze(s)) == Words(s)
    decreases |s|
  {
    hide PySpace;
    if s == [] {
    } else if PySpace(s[0]) {
      SqueezeKeepsWords(s[1..]);
    } else {
      var n := WordLength(s);
      SqueezeKeepsWords(s[n..]);
      var w, rest := s[..n], Squeeze(s[n..]);
      assert forall i :: 0 <= i < n ==> w[i] == s[i];
      if rest == [] {
        OneWord(w);
      } else {
        WordThenWords(w, rest);
      }
    }
  }

  // ---- where a sentence ends

  predicate Stop(c: char) {
    c == '.' || c == '!' || c == '?'
  }

  predicate ClosingQuote(c: char) {
    c == '"' || c == '\U{201D}' || c == '\U{2019}' || c == '\''
  }

  predicate Boundary(s: string, i: nat) {
    i == |s| || (i < |s| && PySpace(s[i]))
  }

  /** Where the pattern's match at i ends; 0 if it does not match there. A closing quote is always taken. */
  function EndAt(s: string, i: nat): (e: nat)
    requires i < |s|
    ensures e == 0 || i < e <= |s|
  {
    if !Stop(s[i]) then 0
    else
      var e := if i + 1 < |s| && ClosingQuote(s[i + 1]) then i + 2 else i + 1;
      if Boundary(s, e) then e else 0
  }

  /** The pattern's match at i ends at e exactly if there is a stop, perhaps one closing quote, and then white space
      or the end of the text. */
  lemma EndAtIff(s: string, i: nat, e: nat)
    requires i < |s| && e > 0
    ensures EndAt(s, i) == e <==>
      && s[i] in ".!?"
      && (e == i + 1 || (e == i + 2 <= |s| && s[i + 1] in ['"', '\'', '\U{2019}', '\U{201D}']))
      && e <= |s|
      && (e < |s| ==> PySpace(s[e]))
  {
    if i + 1 < |s| && ClosingQuote(s[i + 1]) {
      assert s[i + 1] in ['"', '\'', '\U{2019}', '\U{201D}'] && !PySpace(s[i + 1]);
    }
  }

  /** The end of the last match before n. */
  function LastEnd(s: string, n: nat): (e: nat)
    requires n <= |s|
    ensures e <= |s|
    ensures e > 0 ==> exists i :: 0 <= i < n && EndAt(s, i) == e
    ensures forall i :: 0 <= i < n ==> EndAt(s, i) <= e
  {
    if n == 0 then 0
    else
      var here, before := EndAt(s, n - 1), LastEnd(s, n - 1);
      if here > 0 && here >= before then here else before
  }

  // ---- compact_speech

  /** rsplit at the last blank, and nothing if there is none. */
  function BeforeLastBlank(s: string): (r: string)
    ensures r <= s
  {
    if s == "" then "" else if s[|s| - 1] == ' ' then s[..|s| - 1] else BeforeLastBlank(s[..|s| - 1])
  }

  function StripTail(s: string): (r: string)
    ensures r <= s
  {
    if s != "" && s[|s| - 1] in ",;:-" then StripTail(s[..|s| - 1]) else s
  }

  /** What is left ends at the last blank, and nothing is left where there is none. */
  lemma {:induction false} BeforeLastBlankIs(s: string)
    ensures var r := BeforeLastBlank(s);
      && (' ' in s ==> |r| < |s| && s == r + [' '] + s[|r| + 1..] && ' ' !in s[|r| + 1..])
      && (' ' !in s ==> r == "")
  {
    if s != "" && s[|s| - 1] != ' ' {
      var front, r := s[..|s| - 1], BeforeLastBlank(s);
      BeforeLastBlankIs(front);
      assert s == front + [s[|s| - 1]];
      if ' ' in s {
        assert s[|r| + 1..] == front[|r| + 1..] + [s[|s| - 1]];
      }
    }
  }

  /** Exactly the punctuation at the end goes. */
  lemma {:induction false} StripTailIs(s: string)
    ensures var r := StripTail(s);
      && (forall i :: |r| <= i < |s| ==> s[i] in ",;:-")
      && (r != "" ==> r[|r| - 1] !in ",;:-")
  {
    if s != "" && s[|s| - 1] in ",;:-" {
      var front, r := s[..|s| - 1], StripTail(s);
      StripTailIs(front);
      assert forall i :: |r| <= i < |s| - 1 ==> s[i] == front[i];
    }
  }

  function Shortened(t: string): (r: string)
    requires |Utf8(t)| > SPEECH_LIMIT
  {
    var bounded := Decode(Utf8(t)[..SPEECH_LIMIT]);
    var end := LastEnd(bounded, |bounded|);
    if end > 0 then (if end <= |t| then t[..end] else t)
    else StripTail(BeforeLastBlank(Decode(Utf8(t)[..SPEECH_LIMIT - 3]))) + "..."
  }

  function CompactSpeech(text: string): (r: string) {
    var t := Squeeze(text);
    if |Utf8(t)| <= SPEECH_LIMIT then t else Shortened(t)
  }

  lemma DotsBytes(p: string)
    ensures |Utf8(p + "...")| == |Utf8(p)| + 3
  {
    Utf8Cat(p, "...");
    assert "..."[1..] == ".." && ".."[1..] == "." && "."[1..] == "";
    assert Utf8("") == [] && |Utf8(".")| == 1 && |Utf8("..")| == 2;
  }

  /** Either a sentence that ends within the limit, or words that fit with the dots behind them; a whole prefix
      of the text in both cases. */
  lemma ShortenedIs(t: string)
    requires |Utf8(t)| > SPEECH_LIMIT
    ensures var r, bounded := Shortened(t), Fit(t, SPEECH_LIMIT);
      && bounded <= t
      && (if LastEnd(bounded, |bounded|) > 0 then r == bounded[..LastEnd(bounded, |bounded|)] && r <= t
          else exists p :: p <= t && r == p + "..." && p == StripTail(BeforeLastBlank(Fit(t, SPEECH_LIMIT - 3))))
      && |Utf8(r)| <= SPEECH_LIMIT
  {
    hide Encode, Decode, LastEnd, StripTail, BeforeLastBlank;
    DecodeFits(t, SPEECH_LIMIT);
    DecodeFits(t, SPEECH_LIMIT - 3);
    var bounded := Fit(t, SPEECH_LIMIT);
    var end := LastEnd(bounded, |bounded|);
    if end > 0 {
      assert t[..end] == bounded[..end];
      PrefixBytes(bounded[..end], bounded);
    } else {
      var fit := Fit(t, SPEECH_LIMIT - 3);
      var p := StripTail(BeforeLastBlank(fit));
      assert p <= fit <= t;
      PrefixBytes(p, fit);
      DotsBytes(p);
    }
  }

  lemma {:induction false} StripTailEmpty(s: string)
    ensures StripTail(s) == "" <==> forall i :: 0 <= i < |s| ==> s[i] in ",;:-"
  {
    if s != "" && s[|s| - 1] in ",;:-" {
      StripTailEmpty(s[..|s| - 1]);
      assert s == s[..|s| - 1] + [s[|s| - 1]];
    }
  }

  lemma {:induction false} NoBlankBefore(s: string)
    requires ' ' !in s
    ensures BeforeLastBlank(s) == ""
  {
    if s != "" {
      assert s[|s| - 1] in s;
      NoBlankBefore(s[..|s| - 1]);
    }
  }

  /** Where no sentence ends within the limit, a line loses all its words exactly if the text before the last blank of
      its first 137 bytes is punctuation, as it is when there is no blank. */
  lemma OnlyDots(t: string)
    requires |Utf8(t)| > SPEECH_LIMIT
    ensures var bounded, fit := Fit(t, SPEECH_LIMIT), Fit(t, SPEECH_LIMIT - 3);
      LastEnd(bounded, |bounded|) == 0 ==>
        && (Shortened(t) == "..." <==> forall i :: 0 <= i < |BeforeLastBlank(fit)| ==> BeforeLastBlank(fit)[i] in ",;:-")
        && (' ' !in fit ==> Shortened(t) == "...")
  {
    hide Fit, LastEnd, StripTail, BeforeLastBlank, Shortened;
    ShortenedIs(t);
    var fit := Fit(t, SPEECH_LIMIT - 3);
    StripTailEmpty(BeforeLastBlank(fit));
    if ' ' !in fit { NoBlankBefore(fit); }
  }

  /** At most 140 bytes, for every text. */
  lemma SpeechFits(text: string)
    ensures |Utf8(CompactSpeech(text))| <= SPEECH_LIMIT
  {
    hide Shortened, Squeeze;
    if |Utf8(Squeeze(text))| > SPEECH_LIMIT { ShortenedIs(Squeeze(text)); }
  }

  /** A prefix of the text with its white space normalized, with at most three dots behind it; all of that
      text exactly when it fits. */
  lemma SpeechIsPrefix(text: string)
    ensures CompactSpeech(text) == Squeeze(text) <==> |Utf8(Squeeze(text))| <= SPEECH_LIMIT
    ensures var r, t := CompactSpeech(text), Squeeze(text); r <= t || exists p :: p <= t && r == p + "..."
  {
    hide Shortened, Squeeze, LastEnd, StripTail, BeforeLastBlank, Fit;
    if |Utf8(Squeeze(text))| > SPEECH_LIMIT { ShortenedIs(Squeeze(text)); }
  }

  lemma PrefixSqueezed(p: string, t: string)
    requires Squeezed(t) && p <= t && p != "" && !PySpace(p[|p| - 1])
    ensures Squeezed(p)
  {
    hide PySpace;
    assert forall i :: 0 <= i < |p| ==> p[i] == t[i];
  }

  lemma DottedSqueezed(p: string, t: string)
    requires Squeezed(t) && p <= t
    ensures Squeezed(p + "...")
  {
    assert !PySpace('.');
    hide PySpace;
    var r := p + "...";
    assert forall i :: 0 <= i < |p| ==> r[i] == t[i];
    assert forall i :: |p| <= i < |r| ==> r[i] == '.';
  }

  lemma EndIsNoBlank(s: string, i: nat)
    requires i < |s| && EndAt(s, i) > 0
    ensures !PySpace(s[EndAt(s, i) - 1])
  {}

  lemma ShortenedSqueezed(t: string)
    requires |Utf8(t)| > SPEECH_LIMIT && Squeezed(t)
    ensures Squeezed(Shortened(t))
  {
    hide Shortened, Squeezed, Fit, StripTail, BeforeLastBlank, PySpace, EndAt;
    ShortenedIs(t);
    var bounded := Fit(t, SPEECH_LIMIT);
    var end := LastEnd(bounded, |bounded|);
    if end > 0 {
      var i :| 0 <= i < |bounded| && EndAt(bounded, i) == end;
      EndIsNoBlank(bounded, i);
      var p := bounded[..end];
      assert p[|p| - 1] == bounded[end - 1];
      PrefixSqueezed(p, t);
    } else {
      var p :| p <= t && Shortened(t) == p + "...";
      DottedSqueezed(p, t);
    }
  }

  /** A line that was made to fit is left alone. */
  lemma SpeechIdempotent(text: string)
    ensures CompactSpeech(CompactSpeech(text)) == CompactSpeech(text)
  {
    hide Shortened, Squeezed;
    SqueezeSqueezes(text);
    var t, r := Squeeze(text), CompactSpeech(text);
    if |Utf8(t)| > SPEECH_LIMIT {
      ShortenedSqueezed(t);
    }
    SpeechFits(text);
    SqueezedStays(r);
  }
}
