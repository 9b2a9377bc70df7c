/** The rewritten file as a whole: the new block stands where the old one stood, is the first mesh the
    reader meets, and holds the mesh that was written (tools/pz_x_mesh.py). */
module MeshRewrite {
  import opened Common
  import opened MeshNumbers
  import opened MeshTables
  import opened MeshBlocks
  import opened MeshFile
  import opened MeshRoundTrip
  import opened MeshReadBack

  // ---- a heading depends on its own characters only

  lemma {:induction false} SpaceRunLocal(u: string, v: string)
    requires SpaceRun(u) < |u| && SpaceRun(u) < |v| && u[..SpaceRun(u) + 1] == v[..SpaceRun(u) + 1]
    ensures SpaceRun(v) == SpaceRun(u)
  {
    var r := SpaceRun(u);
    assert u[0] == u[..r + 1][0] == v[0];
    if r > 0 {
      assert u[1..][..r] == u[..r + 1][1..] == v[1..][..r];
      SpaceRunLocal(u[1..], v[1..]);
    }
  }

  lemma {:induction false} WordRunLocal(u: string, v: string, word: char -> bool)
    requires WordRun(u, word) < |u| && WordRun(u, word) < |v| && u[..WordRun(u, word) + 1] == v[..WordRun(u, word) + 1]
    ensures WordRun(v, word) == WordRun(u, word)
  {
    var r := WordRun(u, word);
    assert u[0] == u[..r + 1][0] == v[0];
    if r > 0 {
      assert u[1..][..r] == u[..r + 1][1..] == v[1..][..r];
      WordRunLocal(u[1..], v[1..], word);
    }
  }

  lemma Slices(s: string, t: string, n: nat, from: nat, r: nat)
    requires n <= |s| && n <= |t| && s[..n] == t[..n] && from + r <= n
    ensures s[from..][..r] == t[from..][..r]
  {
    assert s[from..][..r] == s[..n][from..from + r] && t[from..][..r] == t[..n][from..from + r];
  }

  lemma SpacesLocal(s: string, t: string, n: nat, k: nat)
    requires n <= |s| && n <= |t| && s[..n] == t[..n] && k <= |s| && k + SpaceRun(s[k..]) < n
    ensures k <= |t| && SpaceRun(t[k..]) == SpaceRun(s[k..]) && s[k + SpaceRun(s[k..])] == t[k + SpaceRun(s[k..])]
  {
    var a := k + SpaceRun(s[k..]);
    Slices(s, t, n, k, a - k + 1);
    SpaceRunLocal(s[k..], t[k..]);
    assert s[a] == s[..n][a] == t[a];
  }

  lemma AfterLocal(name: Name, s: string, t: string, k: nat, a: nat, word: char -> bool)
    requires k <= a <= |s|
    requires var n := AfterKeyword(name, s, k, a, word); n > a && n <= |t| && s[..n] == t[..n]
    ensures AfterKeyword(name, t, k, a, word) == AfterKeyword(name, s, k, a, word)
  {
    hide SpaceRun, WordRun;
    var n := AfterKeyword(name, s, k, a, word);
    assert s[a] == s[..n][a] == t[a];
    if s[a] != '{' {
      var w := WordRun(s[a..], word);
      Slices(s, t, n, a, w + 1);
      WordRunLocal(s[a..], t[a..], word);
      SpacesLocal(s, t, n, a + w);
    }
  }

  lemma HeadingLocal(h: Heading, s: string, t: string, word: char -> bool)
    requires var n := HeadingAt(h, s, word); n > 0 && n <= |t| && s[..n] == t[..n]
    ensures HeadingAt(h, t, word) == HeadingAt(h, s, word)
  {
    hide SpaceRun, WordRun;
    var n, k := HeadingAt(h, s, word), |h.keyword|;
    var a := k + SpaceRun(s[k..]);
    assert n > a;
    hide AfterKeyword;
    assert h.keyword == s[..k] == s[..n][..k] == t[..k];
    SpacesLocal(s, t, n, k);
    AfterLocal(h.name, s, t, k, a, word);
  }

  // ---- no heading reaches from the text before into the new block

  lemma {:induction false} SpaceRunStops(s: string, t: nat)
    requires t < |s| && !PySpace(s[t])
    ensures SpaceRun(s) <= t
    decreases t
  {
    if t > 0 && PySpace(s[0]) { SpaceRunStops(s[1..], t - 1); }
  }

  lemma {:induction false} WordRunStops(s: string, t: nat, word: char -> bool)
    requires t < |s| && !word(s[t])
    ensures WordRun(s, word) <= t
    decreases t
  {
    if t > 0 && word(s[0]) { WordRunStops(s[1..], t - 1, word); }
  }

  lemma MeshLetters()
    ensures MESH.keyword == ['M', 'e', 's', 'h'] && !PySpace('M') && !PySpace('G')
  {}

  /** The word right behind the space would be "Mesh", and what follows it is no brace. */
  lemma MeshAsName(x: string, tail: string, a: nat, word: char -> bool)
    requires a == |x| >= 4 && WordClass(word) && ("Mesh" + " G") <= tail
    ensures AfterKeyword(Needed, x + tail, 4, a, word) == 0
  {
    var s := x + tail;
    assert AllWord("Mesh");
    SpacesAreNoWord(word);
    MeshLetters();
    hide PySpace, WordClass, AllWord, AsciiWord;
    assert tail == "Mesh" + (" " + tail[5..]) && tail[5] == 'G';
    assert s[a..] == tail && s[a] == tail[0] == 'M';
    MeshRun(tail[5..], word);
    assert s[a + 4..] == " " + tail[5..];
    OneSpace(tail[5..]);
    assert s[a + 5] == 'G';
  }

  lemma MeshRun(rest: string, word: char -> bool)
    requires WordClass(word)
    ensures WordRun("Mesh" + (" " + rest), word) == 4
  {
    assert AllWord("Mesh");
    SpacesAreNoWord(word);
    hide WordClass, WordRun;
    WordRunIs("Mesh", " " + rest, word);
  }

  lemma SpanningFails(x: string, tail: string, word: char -> bool)
    requires x != "" && !word(x[|x| - 1]) && WordClass(word) && ("Mesh" + " G") <= tail
    ensures HeadingAt(MESH, x + tail, word) <= |x|
  {
    var s := x + tail;
    MeshLetters();
    assert s[|x|] == tail[0] == 'M';
    if MESH.keyword <= s && |x| >= 4 {
      var a := 4 + SpaceRun(s[4..]);
      assert s[4..][|x| - 4] == s[|x|];
      SpaceRunStops(s[4..], |x| - 4);
      if a == |x| {
        MeshAsName(x, tail, a, word);
      } else {
        NameStopsBefore(x, s, a, word);
      }
    } else if |x| < 4 {
      assert MESH.keyword[|x|] != s[|x|];
    }
  }

  lemma NameStopsBefore(x: string, s: string, a: nat, word: char -> bool)
    requires 4 <= a < |x| < |s| && x <= s && s[|x|] == 'M' && !word(x[|x| - 1]) && !PySpace('M')
    ensures AfterKeyword(Needed, s, 4, a, word) <= |x|
  {
    hide PySpace;
    assert s[a..][|x| - 1 - a] == x[|x| - 1];
    WordRunStops(s[a..], |x| - 1 - a, word);
    var w := a + WordRun(s[a..], word);
    assert s[w..][|x| - w] == 'M';
    SpaceRunStops(s[w..], |x| - w);
  }

  lemma {:induction false} NoneBefore(h: Heading, text: string, i: nat, j: nat, word: char -> bool)
    requires i <= j <= |text| && NextMatch(h, text, i, word).Some? && j < NextMatch(h, text, i, word).value
    ensures MatchAt(h, text, j, word) == 0
    decreases j - i
  {
    hide MatchAt;
    if i < j { NoneBefore(h, text, i + 1, j, word); }
  }

  lemma {:induction false} AllMissed(h: Heading, text: string, i: nat, start: nat, word: char -> bool)
    requires i <= start < |text| && MatchAt(h, text, start, word) > 0
    requires forall j :: i <= j < start ==> MatchAt(h, text, j, word) == 0
    ensures NextMatch(h, text, i, word) == Some(start)
    decreases start - i
  {
    hide MatchAt;
    if i < start { AllMissed(h, text, i + 1, start, word); }
  }

  /** A heading that does not start at the front of x in one text does not start there in the other. */
  lemma NotInto(x: string, tail: string, y: string, word: char -> bool)
    requires x != "" && !word(x[|x| - 1]) && WordClass(word) && ("Mesh" + " G") <= tail
    requires HeadingAt(MESH, x + y, word) == 0
    ensures HeadingAt(MESH, x + tail, word) == 0
  {
    hide HeadingAt, WordClass;
    SpanningFails(x, tail, word);
    var n := HeadingAt(MESH, x + tail, word);
    assert (x + tail)[..n] == x[..n] == (x + y)[..n];
    if n > 0 {
      HeadingLocal(MESH, x + tail, x + y, word);
    }
  }

  /** Where no heading started before, none starts in the new text either. */
  lemma StillNone(source: string, start: nat, tail: string, j: nat, word: char -> bool)
    requires j < start <= |source| && MatchAt(MESH, source, j, word) == 0 && WordClass(word)
    requires !word(source[start - 1]) && ("Mesh" + " G") <= tail
    ensures MatchAt(MESH, source[..start] + tail, j, word) == 0
  {
    hide HeadingAt, WordClass;
    var text, x, y := source[..start] + tail, source[j..start], source[start..];
    assert text[j..] == x + tail && source[j..] == x + y;
    assert j > 0 ==> text[j - 1] == source[j - 1];
    if !(j > 0 && word(source[j - 1])) {
      NotInto(x, tail, y, word);
    }
  }

  /** The new block is the first mesh of the new text. */
  lemma FirstStays(source: string, start: nat, tail: string, word: char -> bool)
    requires NextMatch(MESH, source, 0, word) == Some(start) && WordClass(word)
    requires ("Mesh" + " G") <= tail && HeadingAt(MESH, tail, word) > 0
    ensures start <= |source| && NextMatch(MESH, source[..start] + tail, 0, word) == Some(start)
  {
    hide HeadingAt, WordClass, NextMatch;
    var text := source[..start] + tail;
    assert text[start..] == tail && |tail| > 0;
    assert start > 0 ==> text[start - 1] == source[start - 1];
    assert MatchAt(MESH, text, start, word) > 0;
    forall j | 0 <= j < start ensures MatchAt(MESH, text, j, word) == 0 {
      NoneBefore(MESH, source, 0, j, word);
      StillNone(source, start, tail, j, word);
    }
    hide MatchAt;
    AllMissed(MESH, text, 0, start, word);
  }

  // ---- the round trip

  /** The mesh was read from its own source, and its tables and bones are ones the format can carry. */
  ghost predicate Printable(m: Mesh, word: char -> bool) {
    && (var b := FirstBlock(MESH, m.source, word); b.Some? && b.value.at == m.start && b.value.end == m.end)
    && Rows(m.vertices, 3) && Rows(m.normals, 3) && Rows(m.uv, 2)
    && DistinctBones(m.skin) && forall i :: 0 <= i < |m.skin| ==> GoodSkin(m.skin[i])
  }

  lemma PrintableBounds(m: Mesh, word: char -> bool)
    requires Printable(m, word)
    ensures NextMatch(MESH, m.source, 0, word) == Some(m.start) && m.start <= m.end <= |m.source| && GoodBones(m.skin)
  {
    hide Rows, NextMatch, CloseLength;
  }

  const HEAD_LENGTH := 18

  lemma HeadLength()
    ensures |"Mesh GoblinNative "| == HEAD_LENGTH
  {}

  /** The new text from the block on. */
  function NewTail(m: Mesh): (r: string)
    requires m.end <= |m.source|
  {
    "Mesh GoblinNative " + "{" + Content(m) + "}" + ("\n" + m.source[m.end..])
  }

  lemma WrittenText(m: Mesh)
    requires m.start <= |m.source| && m.end <= |m.source|
    ensures WriteMesh(m) == m.source[..m.start] + NewTail(m)
  {
    BlockShape(m);
    hide BlockText, Content;
    JoinText(m.source[..m.start], "Mesh GoblinNative " + "{" + Content(m) + "}", "\n", m.source[m.end..]);
  }

  lemma JoinText(a: string, b: string, c: string, d: string)
    ensures a + (b + c) + d == a + (b + (c + d))
  {}

  lemma NativeName()
    ensures AllWord("GoblinNative")
  {}

  lemma NativeHeading()
    ensures "Mesh GoblinNative " + "{" == "Mesh" + " " + "GoblinNative" + " {"
  {}

  lemma MeshHeading(tail: string, word: char -> bool)
    requires WordClass(word)
    ensures HeadingAt(MESH, "Mesh GoblinNative " + "{" + tail, word) > 0
  {
    hide HeadingAt, WordClass, AllWord;
    NativeName();
    NativeHeading();
    HeadingNamed(MESH, "GoblinNative", tail, word);
  }

  lemma NativeStart()
    ensures "Mesh GoblinNative " == "Mesh" + " G" + "oblinNative "
  {}

  lemma PrefixPieces(first: string, second: string, head: string, content: string, rest: string)
    requires head == first + second
    ensures first <= head + "{" + content + "}" + rest
    ensures head + "{" + content + "}" + rest == head + "{" + (content + "}" + rest)
  {
    assert head + "{" + content + "}" + rest == first + (second + "{" + content + "}" + rest);
  }

  lemma TailStart(m: Mesh, word: char -> bool)
    requires m.end <= |m.source| && WordClass(word)
    ensures ("Mesh" + " G") <= NewTail(m) && HeadingAt(MESH, NewTail(m), word) > 0
  {
    hide Content, HeadingAt, WordClass;
    var rest := "\n" + m.source[m.end..];
    NativeStart();
    PrefixPieces("Mesh" + " G", "oblinNative ", "Mesh GoblinNative ", Content(m), rest);
    MeshHeading(Content(m) + "}" + rest, word);
  }

  lemma FindMesh(m: Mesh, word: char -> bool)
    requires Printable(m, word) && WordClass(word)
    ensures m.start <= |m.source| && m.end <= |m.source|
    ensures FirstBlock(MESH, WriteMesh(m), word) == Some(Block(m.start, Content(m), m.start + HEAD_LENGTH + |Content(m)| + 2))
  {
    PrintableBounds(m, word);
    hide *;
    WrittenText(m);
    TailStart(m, word);
    FirstStays(m.source, m.start, NewTail(m), word);
    ContentBalanced(m, word);
    TailBlock(m);
    FirstIs(MESH, WriteMesh(m), m.start, Block(m.start, Content(m), m.start + HEAD_LENGTH + |Content(m)| + 2), word);
  }

  lemma FirstIs(h: Heading, text: string, i: nat, b: Block, word: char -> bool)
    requires NextMatch(h, text, 0, word) == Some(i) && BlockAt(text, i) == Some(b)
    ensures FirstBlock(h, text, word) == Some(b)
  {
    hide NextMatch, BlockAt;
  }

  lemma TailBlock(m: Mesh)
    requires m.start <= |m.source| && m.end <= |m.source| && Balanced(Content(m))
    ensures m.start <= |WriteMesh(m)|
    ensures BlockAt(WriteMesh(m), m.start) == Some(Block(m.start, Content(m), m.start + HEAD_LENGTH + |Content(m)| + 2))
  {
    hide Balanced, Content, WriteMesh, BlockAt;
    WrittenText(m);
    NoBraceIn();
    HeadLength();
    BlockInText(WriteMesh(m), m.source[..m.start], "Mesh GoblinNative ", Content(m), "\n" + m.source[m.end..]);
  }

  lemma BlockInText(text: string, before: string, heading: string, content: string, rest: string)
    requires text == before + (heading + "{" + content + "}" + rest) && '{' !in heading && Balanced(content)
    ensures |before| <= |text|
    ensures BlockAt(text, |before|) == Some(Block(|before|, content, |before| + |heading| + |content| + 2))
  {
    hide Balanced, BlockAt;
    BlockHere(text, before, heading, content, rest);
  }

  lemma ContentBack(m: Mesh, text: string, at: nat, end: nat, word: char -> bool)
    requires Printable(m, word) && WordClass(word)
    ensures ReadContent(text, at, end, Content(m), word) ==
      Some(Mesh(text, at, end, m.vertices, m.faces, m.normals, m.normalFaces, m.uv, m.skin))
  {
    hide Content, Before, ReadTables, FirstBlock, Blocks, ReadSkins, Tokens, Vectors, VectorsText, FacesText, SkinContent,
      Rows, GoodBones, GoodSkin, DistinctBones, WordClass;
    PrintableBounds(m, word);
    ShapeBefore(m);
    TablesBack(m.vertices, m.faces);
    TablesBack(m.normals, m.normalFaces);
    UvBack(m.uv);
    FindNormals(m, word);
    FindTexture(m, word);
    FindSkins(m, word);
    SkinsBack(m.skin, Blocks(SKINS, Content(m), 0, word).value);
  }

  /** Where the block read from the new text ends: before the last line break and the old rest. */
  function NewEnd(m: Mesh): (r: int)
    requires m.start <= |m.source| && m.end <= |m.source|
  {
    |WriteMesh(m)| - |m.source[m.end..]| - 1
  }

  lemma NewEndIs(m: Mesh)
    requires m.start <= |m.source| && m.end <= |m.source|
    ensures NewEnd(m) == m.start + HEAD_LENGTH + |Content(m)| + 2
  {
    hide Content, WriteMesh;
    WrittenText(m);
    HeadLength();
  }

  /** read_mesh(write_mesh(m)) is m again, in its new source. */
  lemma RoundTrip(m: Mesh, word: char -> bool)
    requires Printable(m, word) && WordClass(word)
    ensures m.start <= |m.source| && m.end <= |m.source| && NewEnd(m) >= 0
    ensures ReadMesh(WriteMesh(m), word) ==
      Some(Mesh(WriteMesh(m), m.start, NewEnd(m), m.vertices, m.faces, m.normals, m.normalFaces, m.uv, m.skin))
  {
    hide Printable, WriteMesh, Content, ReadContent, FirstBlock, WordClass, NewEnd;
    FindMesh(m, word);
    NewEndIs(m);
    ContentBack(m, WriteMesh(m), m.start, NewEnd(m), word);
  }

  /** What was written can be written again, so meshes can be rewritten any number of times. */
  lemma StaysPrintable(m: Mesh, word: char -> bool)
    requires Printable(m, word) && WordClass(word)
    ensures var r := ReadMesh(WriteMesh(m), word); r.Some? && Printable(r.value, word)
  {
    RoundTrip(m, word);
    FindMesh(m, word);
    NewEndIs(m);
    hide WriteMesh, ReadMesh, FirstBlock, Content, Rows, DistinctBones, GoodSkin, NewEnd;
  }

  const EMPTY_BLOCK := "" + ("Mesh GoblinNative " + "{" + "" + "}" + "")

  /** Tables and bones the format can carry can be written into a file that has a mesh block at all. */
  lemma IntoEmptyBlock(m: Mesh, word: char -> bool)
    requires WordClass(word) && m.source == EMPTY_BLOCK && m.start == 0 && m.end == HEAD_LENGTH + 2
    requires Rows(m.vertices, 3) && Rows(m.normals, 3) && Rows(m.uv, 2) && DistinctBones(m.skin)
    requires forall i :: 0 <= i < |m.skin| ==> GoodSkin(m.skin[i])
    ensures Printable(m, word)
  {
    hide *;
    HeadLength();
    NoBraceIn();
    PlainBalanced("") by { NothingHasNoBraces(); }
    NothingIsMute(MESH, word);
    SpacesAreNoWord(word);
    MeshHeading("" + "}" + "", word);
    BraceText();
    FindsBlock(MESH, "", "Mesh GoblinNative ", "", "", word);
    FirstIs(MESH, EMPTY_BLOCK, 0, Block(0, "", HEAD_LENGTH + 2), word);
    PrintableIs(m, Block(0, "", HEAD_LENGTH + 2), word);
  }

  /** Before the block the text is as it was; behind it there is one more line break, and then the old text. */
  lemma OutsideUntouched(m: Mesh)
    requires m.start <= |m.source| && m.end <= |m.source|
    ensures m.start <= NewEnd(m) <= |WriteMesh(m)|
    ensures WriteMesh(m)[..m.start] == m.source[..m.start] && WriteMesh(m)[NewEnd(m)..] == "\n" + m.source[m.end..]
  {
    hide WriteMesh, Content;
    WrittenText(m);
    OutsidePieces(m.source[..m.start], "Mesh GoblinNative " + "{" + Content(m) + "}", "\n" + m.source[m.end..]);
  }

  lemma NothingHasNoBraces()
    ensures NoBraces("")
  {}

  lemma NothingIsMute(h: Heading, word: char -> bool)
    ensures Mute(h, "", word)
  {}

  lemma BraceText()
    ensures "Mesh GoblinNative " + "{" + ("" + "}" + "") == "Mesh GoblinNative " + "{" + "" + "}" + ""
    ensures EMPTY_BLOCK == "" + ("Mesh GoblinNative " + "{" + "" + "}" + "")
  {}

  lemma PrintableIs(m: Mesh, b: Block, word: char -> bool)
    requires FirstBlock(MESH, m.source, word) == Some(b) && b.at == m.start && b.end == m.end
    requires Rows(m.vertices, 3) && Rows(m.normals, 3) && Rows(m.uv, 2) && DistinctBones(m.skin)
    requires forall i :: 0 <= i < |m.skin| ==> GoodSkin(m.skin[i])
    ensures Printable(m, word)
  {
    hide FirstBlock, Rows, DistinctBones, GoodSkin;
  }

  lemma OutsidePieces(before: string, block: string, rest: string)
    ensures var t := before + (block + rest);
      t[..|before|] == before && t[|t| - |rest|..] == rest
  {}
}
