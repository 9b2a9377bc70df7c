/** Finding braced blocks in a text mesh file by their headings (tools/pz_x_mesh.py). */
module MeshBlocks {
  import opened Common

  datatype Name = Needed | Optional | Never

  /** \bKEYWORD, a name that is needed, optional or not allowed, white space, and an opening brace. */
  datatype Heading = Heading(keyword: string, name: Name)

  predicate AsciiWord(c: char) {
    '0' <= c <= '9' || 'a' <= c <= 'z' || 'A' <= c <= 'Z' || c == '_'
  }

  /** What \w matches: fixed for ASCII, never white space. */
  ghost predicate WordClass(word: char -> bool) {
    forall c: char :: (c as int < 128 ==> (word(c) <==> AsciiWord(c))) && (PySpace(c) ==> !word(c))
  }

  function SpaceRun(s: string): (n: nat)
    ensures n <= |s|
  {
    if s != "" && PySpace(s[0]) then 1 + SpaceRun(s[1..]) else 0
  }

  function WordRun(s: string, word: char -> bool): (n: nat)
    ensures n <= |s|
  {
    if s != "" && word(s[0]) then 1 + WordRun(s[1..], word) else 0
  }

  /** The length of the heading s starts with, 0 if it does not start with one. No shorter run of spaces or
      word characters can match where the longest one does not. */
  function HeadingAt(h: Heading, s: string, word: char -> bool): (n: nat)
    ensures n <= |s|
  {
    if !(h.keyword <= s) then 0
    else
      var k := |h.keyword|;
      AfterKeyword(h.name, s, k, k + SpaceRun(s[k..]), word)
  }

  function AfterKeyword(name: Name, s: string, k: nat, a: nat, word: char -> bool): (n: nat)
    requires k <= a <= |s|
    ensures n <= |s|
  {
    if a < |s| && s[a] == '{' then (if name.Needed? then 0 else a + 1)
    else if name.Never? || a == k then 0
    else
      var w := WordRun(s[a..], word);
      var b := a + w + SpaceRun(s[a + w..]);
      if w > 0 && b < |s| && s[b] == '{' then b + 1 else 0
  }

  function MatchAt(h: Heading, text: string, i: nat, word: char -> bool): (n: nat)
    requires i <= |text|
    ensures i + n <= |text|
  {
    if i > 0 && word(text[i - 1]) then 0 else HeadingAt(h, text[i..], word)
  }

  /** The first place from i on where the heading matches. */
  function NextMatch(h: Heading, text: string, i: nat, word: char -> bool): (r: Option<nat>)
    requires i <= |text|
    ensures r.Some? ==> i <= r.value < |text| && MatchAt(h, text, r.value, word) > 0
    decreases |text| - i
  {
    if i == |text| then None else if MatchAt(h, text, i, word) > 0 then Some(i) else NextMatch(h, text, i + 1, word)
  }

  /** How many characters it takes to close all open braces. */
  function CloseLength(s: string, depth: nat): (r: Option<nat>)
    ensures r.Some? ==> r.value <= |s| && (depth > 0 ==> r.value > 0)
    decreases |s|
  {
    if depth == 0 then Some(0)
    else if s == "" then None
    else
      var more := CloseLength(s[1..], if s[0] == '{' then depth + 1 else if s[0] == '}' then depth - 1 else depth);
      if more.None? then None else Some(1 + more.value)
  }

  /** A block: where its heading starts, what its braces hold, and where it ends. */
  datatype Block = Block(at: nat, content: string, end: nat)

  function FindBrace(s: string, i: nat): (r: nat)
    requires i <= |s|
    ensures i <= r <= |s|
    decreases |s| - i
  {
    if i == |s| || s[i] == '{' then i else FindBrace(s, i + 1)
  }

  /** The block of the heading that matches at i; None if its braces do not close. */
  function BlockAt(text: string, i: nat): (r: Option<Block>)
    requires i <= |text|
  {
    var open := FindBrace(text, i);
    if open == |text| then None
    else
      var n := CloseLength(text[open + 1..], 1);
      if n.None? then None else Some(Block(i, text[open + 1..open + n.value], open + 1 + n.value))
  }

  function FirstBlock(h: Heading, text: string, word: char -> bool): (r: Option<Block>) {
    var i := NextMatch(h, text, 0, word);
    if i.None? then None else BlockAt(text, i.value)
  }

  /** Every block, in order; the search goes on behind each heading. None if some braces do not close. */
  function Blocks(h: Heading, text: string, i: nat, word: char -> bool): (r: Option<seq<Block>>)
    requires i <= |text|
    decreases |text| - i
  {
    var m := NextMatch(h, text, i, word);
    if m.None? then Some([])
    else
      var block := BlockAt(text, m.value);
      if block.None? then None
      else
        var more := Blocks(h, text, m.value + MatchAt(h, text, m.value, word), word);
        if more.None? then None else Some([block.value] + more.value)
  }

  /** The while loop that counts braces until the depth is back at zero. */
  method FindEnd(text: string, open: nat) returns (end: Option<nat>)
    requires open < |text|
    ensures end == (var n := CloseLength(text[open + 1..], 1); if n.None? then None else Some(open + 1 + n.value))
  {
    var depth, at := 1, open + 1;
    while depth > 0
      invariant 0 <= depth && open + 1 <= at <= |text|
      invariant CloseLength(text[open + 1..], 1) ==
        (var n := CloseLength(text[at..], depth); if n.None? then None else Some(at - open - 1 + n.value))
      decreases |text| - at
    {
      if at == |text| {
        return None;
      }
      assert text[at..][0] == text[at] && text[at..][1..] == text[at + 1..];
      if text[at] == '{' {
        depth := depth + 1;
      } else if text[at] == '}' {
        depth := depth - 1;
      }
      at := at + 1;
    }
    end := Some(at);
  }

  // ---- pieces of text that no heading starts in, and that open and close their braces

  /** No heading starts inside the piece, whatever follows it. */
  ghost predicate Mute(h: Heading, piece: string, word: char -> bool) {
    forall i: nat, rest: string :: i < |piece| ==> HeadingAt(h, piece[i..] + rest, word) == 0
  }

  lemma MuteCat(h: Heading, a: string, b: string, word: char -> bool)
    requires Mute(h, a, word) && Mute(h, b, word)
    ensures Mute(h, a + b, word)
  {
    hide HeadingAt;
    forall i: nat, rest: string | i < |a + b| ensures HeadingAt(h, (a + b)[i..] + rest, word) == 0 {
      if i < |a| {
        assert (a + b)[i..] + rest == a[i..] + (b + rest);
      } else {
        assert (a + b)[i..] + rest == b[i - |a|..] + rest;
      }
    }
  }

  /** No character of the piece begins the keyword, or the first one does but the keyword fails later. */
  lemma MuteLetters(h: Heading, piece: string, k: nat, word: char -> bool)
    requires k < |h.keyword|
    requires k == 0 || (k < |piece| && piece[k] != h.keyword[k])
    requires forall i :: (if k == 0 then 0 else 1) <= i < |piece| ==> piece[i] != h.keyword[0]
    ensures Mute(h, piece, word)
  {
    forall i: nat, rest: string | i < |piece| ensures HeadingAt(h, piece[i..] + rest, word) == 0 {
      var s := piece[i..] + rest;
      assert s[0] == piece[i];
      if i == 0 && k > 0 {
        assert s[k] == piece[k];
      }
    }
  }

  /** A character that no heading contains. */
  predicate Stop(c: char) {
    c == '"' || c == ';' || c == '}' || c == ','
  }

  predicate Inner(c: char) {
    c != '{' && !Stop(c)
  }

  lemma {:induction false} SpaceRunInner(s: string)
    ensures forall j :: 0 <= j < SpaceRun(s) ==> Inner(s[j])
  {
    if s != "" && PySpace(s[0]) {
      SpaceRunInner(s[1..]);
      assert forall j :: 0 < j < SpaceRun(s) ==> s[j] == s[1..][j - 1];
    }
  }

  lemma {:induction false} WordRunInner(s: string, word: char -> bool)
    requires WordClass(word)
    ensures forall j :: 0 <= j < WordRun(s, word) ==> Inner(s[j])
  {
    if s != "" && word(s[0]) {
      WordRunInner(s[1..], word);
      assert forall j :: 0 < j < WordRun(s, word) ==> s[j] == s[1..][j - 1];
    }
  }

  predicate Keyword(s: string) {
    s != "" && forall j :: 0 <= j < |s| ==> AsciiWord(s[j])
  }

  predicate AllInner(s: string, from: nat, to: nat)
    requires to <= |s|
  {
    forall j :: from <= j < to ==> Inner(s[j])
  }

  lemma SpacesInner(s: string, k: nat)
    requires k <= |s|
    ensures AllInner(s, k, k + SpaceRun(s[k..]))
  {
    SpaceRunInner(s[k..]);
    hide SpaceRun, Inner;
    assert forall j :: k <= j < k + SpaceRun(s[k..]) ==> s[j] == s[k..][j - k];
  }

  lemma WordInner(s: string, k: nat, word: char -> bool)
    requires k <= |s| && WordClass(word)
    ensures AllInner(s, k, k + WordRun(s[k..], word))
  {
    WordRunInner(s[k..], word);
    hide WordRun, Inner;
    assert forall j :: k <= j < k + WordRun(s[k..], word) ==> s[j] == s[k..][j - k];
  }

  lemma InnerJoins(s: string, a: nat, b: nat, c: nat)
    requires a <= b <= c <= |s| && AllInner(s, a, b) && AllInner(s, b, c)
    ensures AllInner(s, a, c)
  {
    hide Inner;
  }

  lemma AfterKeywordChars(name: Name, s: string, k: nat, word: char -> bool)
    requires WordClass(word) && k <= |s| && AllInner(s, 0, k)
    ensures var n := AfterKeyword(name, s, k, k + SpaceRun(s[k..]), word);
      n > 0 ==> s[n - 1] == '{' && AllInner(s, 0, n - 1)
  {
    hide SpaceRun, WordRun, WordClass, AllInner;
    var a := k + SpaceRun(s[k..]);
    SpacesInner(s, k);
    InnerJoins(s, 0, k, a);
    var w := a + WordRun(s[a..], word);
    WordInner(s, a, word);
    InnerJoins(s, 0, a, w);
    SpacesInner(s, w);
    InnerJoins(s, 0, w, w + SpaceRun(s[w..]));
  }

  /** What a heading is made of: keyword, spaces and word characters, and one brace, its last character. */
  lemma HeadingChars(h: Heading, s: string, word: char -> bool)
    requires WordClass(word) && Keyword(h.keyword)
    ensures var n := HeadingAt(h, s, word);
      n > 0 ==> s[n - 1] == '{' && AllInner(s, 0, n - 1)
  {
    hide AllInner, AfterKeyword, SpaceRun, WordClass, Keyword;
    if h.keyword <= s {
      KeywordInner(h.keyword, s);
      AfterKeywordChars(h.name, s, |h.keyword|, word);
    }
  }

  lemma KeywordInner(keyword: string, s: string)
    requires Keyword(keyword) && keyword <= s
    ensures AllInner(s, 0, |keyword|)
  {
    assert forall j :: 0 <= j < |keyword| ==> s[j] == keyword[j];
  }

  /** A piece without an opening brace that ends in a character no heading contains. */
  lemma MuteStopped(h: Heading, piece: string, word: char -> bool)
    requires WordClass(word) && Keyword(h.keyword)
    requires piece != "" && Stop(piece[|piece| - 1]) && '{' !in piece
    ensures Mute(h, piece, word)
  {
    hide HeadingAt, WordClass, Keyword;
    forall i: nat, rest: string | i < |piece| ensures HeadingAt(h, piece[i..] + rest, word) == 0 {
      var s := piece[i..] + rest;
      HeadingChars(h, s, word);
      var n, last := HeadingAt(h, s, word), |piece| - 1 - i;
      assert s[last] == piece[|piece| - 1];
      assert forall j :: 0 <= j <= last ==> s[j] == piece[i + j];
    }
  }

  lemma {:induction false} NextSkips(h: Heading, before: string, piece: string, rest: string, word: char -> bool, i: nat)
    requires Mute(h, piece, word) && i <= |piece|
    ensures NextMatch(h, before + piece + rest, |before| + i, word) == NextMatch(h, before + piece + rest, |before| + |piece|, word)
    decreases |piece| - i
  {
    hide HeadingAt;
    if i < |piece| {
      NextSkips(h, before, piece, rest, word, i + 1);
      assert (before + piece + rest)[|before| + i..] == piece[i..] + rest;
    }
  }

  function Later(n: nat, o: Option<nat>): (r: Option<nat>) {
    if o.None? then None else Some(n + o.value)
  }

  /** The piece closes what it opens. */
  ghost predicate Balanced(piece: string) {
    forall rest: string, depth: nat :: depth > 0 ==> CloseLength(piece + rest, depth) == Later(|piece|, CloseLength(rest, depth))
  }

  lemma BalancedCat(a: string, b: string)
    requires Balanced(a) && Balanced(b)
    ensures Balanced(a + b)
  {
    hide CloseLength;
    forall rest: string, depth: nat | depth > 0
      ensures CloseLength(a + b + rest, depth) == Later(|a + b|, CloseLength(rest, depth))
    {
      assert a + b + rest == a + (b + rest);
      assert CloseLength(a + (b + rest), depth) == Later(|a|, CloseLength(b + rest, depth));
      assert CloseLength(b + rest, depth) == Later(|b|, CloseLength(rest, depth));
    }
  }

  predicate NoBraces(s: string) {
    forall i :: 0 <= i < |s| ==> s[i] != '{' && s[i] != '}'
  }

  lemma {:induction false} PlainCloses(piece: string, rest: string, depth: nat)
    requires NoBraces(piece) && depth > 0
    ensures CloseLength(piece + rest, depth) == Later(|piece|, CloseLength(rest, depth))
    decreases |piece|
  {
    if piece == "" {
      assert piece + rest == rest;
    } else {
      PlainCloses(piece[1..], rest, depth);
      assert (piece + rest)[0] == piece[0] && (piece + rest)[1..] == piece[1..] + rest;
    }
  }

  lemma PlainBalanced(piece: string)
    requires NoBraces(piece)
    ensures Balanced(piece)
  {
    hide CloseLength, Later;
    forall rest: string, depth: nat | depth > 0
      ensures CloseLength(piece + rest, depth) == Later(|piece|, CloseLength(rest, depth))
    {
      PlainCloses(piece, rest, depth);
    }
  }

  lemma CloseStep(c: char, rest: string, depth: nat)
    requires depth > 0
    ensures CloseLength([c] + rest, depth)
         == Later(1, CloseLength(rest, if c == '{' then depth + 1 else if c == '}' then depth - 1 else depth))
  {
    assert ([c] + rest)[1..] == rest;
  }

  lemma CloseBrace(rest: string)
    ensures CloseLength("}" + rest, 1) == Some(1)
  {
    CloseStep('}', rest, 1);
    assert CloseLength(rest, 0) == Some(0);
  }

  lemma ClosesHere(content: string, rest: string)
    requires Balanced(content)
    ensures CloseLength(content + ("}" + rest), 1) == Some(|content| + 1)
  {
    hide CloseLength;
    CloseBrace(rest);
    assert CloseLength(content + ("}" + rest), 1) == Later(|content|, CloseLength("}" + rest, 1));
  }

  lemma BracedBalanced(content: string)
    requires Balanced(content)
    ensures Balanced("{" + content + "}")
  {
    hide CloseLength;
    forall rest: string, depth: nat | depth > 0
      ensures CloseLength("{" + content + "}" + rest, depth) == Later(|"{" + content + "}"|, CloseLength(rest, depth))
    {
      assert "{" + content + "}" + rest == "{" + (content + ("}" + rest));
      CloseStep('{', content + ("}" + rest), depth);
      assert CloseLength(content + ("}" + rest), depth + 1) == Later(|content|, CloseLength("}" + rest, depth + 1));
      CloseStep('}', rest, depth + 1);
    }
  }

  lemma {:induction false} FindBraceIs(s: string, i: nat, open: nat)
    requires i <= open < |s| && s[open] == '{' && forall j :: i <= j < open ==> s[j] != '{'
    ensures FindBrace(s, i) == open
    decreases open - i
  {
    if i < open { FindBraceIs(s, i + 1, open); }
  }

  /** A heading with balanced content behind it is that block. */
  lemma BlockHere(text: string, before: string, heading: string, content: string, rest: string)
    requires text == before + (heading + "{" + content + "}" + rest) && '{' !in heading && Balanced(content)
    ensures BlockAt(text, |before|) == Some(Block(|before|, content, |before| + |heading| + |content| + 2))
  {
    hide Balanced, CloseLength, FindBrace;
    var open := |before| + |heading|;
    assert text[open] == '{';
    assert forall j :: |before| <= j < open ==> text[j] == heading[j - |before|];
    FindBraceIs(text, |before|, open);
    assert text[open + 1..] == content + ("}" + rest);
    ClosesHere(content, rest);
    assert text[open + 1..][..|content|] == content;
    assert text[open + 1..open + 1 + |content|] == text[open + 1..][..|content|];
  }
}
