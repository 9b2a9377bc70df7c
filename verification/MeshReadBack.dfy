/** Reading a written mesh gives back every table and every bone (tools/pz_x_mesh.py). */
module MeshReadBack {
  import opened Common
  import opened MeshNumbers
  import opened MeshTables
  import opened MeshBlocks
  import opened MeshFile
  import opened MeshRoundTrip

  // ---- the skin blocks of the content

  function SkinBefore(m: Mesh): (r: string) {
    TextureBefore(m) + "MeshTextureCoords c1 " + "{" + UvPart(m) + "}" + ("\n" + MaterialText(|m.faces|, |m.skin|))
  }

  lemma ContentFromSkins(m: Mesh)
    ensures Content(m) == SkinBefore(m) + SkinTexts(m.skin)
  {
    ContentFromTexture(m);
    hide TextureBefore, UvPart, MaterialText, SkinTexts, Content;
    var u, mat, skins := UvPart(m), "\n" + MaterialText(|m.faces|, |m.skin|), SkinTexts(m.skin);
    assert LastPart(m) == mat + skins;
    Gather(TextureBefore(m), "MeshTextureCoords c1 ", "{", u, "}", mat, skins);
  }

  lemma Gather(a: string, b: string, c: string, d: string, e: string, f: string, g: string)
    ensures a + (b + c + d + e + (f + g)) == (a + b + c + d + e + f) + g
  {
    assert a + (b + c + d + e) == a + b + c + d + e;
    assert a + (b + c + d + e + (f + g)) == (a + (b + c + d + e)) + f + g;
  }

  lemma MaterialLine(faces: nat, bones: nat)
    ensures var t := "\n" + MaterialText(faces, bones); t != "" && t[|t| - 1] == '\n'
  {
    var end := ";}\n";
    hide IntText, Join;
    assert end[2] == '\n';
  }

  lemma SkinLiteralsMute(word: char -> bool)
    ensures Mute(SKINS, "MeshNormals ", word) && Mute(SKINS, "MeshTextureCoords c1 ", word)
    ensures Mute(SKINS, "{", word) && Mute(SKINS, "}", word) && Mute(SKINS, "\n", word)
  {
    hide Mute;
    SkinsKeyword();
    MuteLetters(SKINS, "MeshNormals ", 0, word);
    MuteLetters(SKINS, "MeshTextureCoords c1 ", 0, word);
    MuteLetters(SKINS, "{", 0, word);
    MuteLetters(SKINS, "}", 0, word);
    MuteLetters(SKINS, "\n", 0, word);
  }

  lemma SkinTablesMute(m: Mesh, word: char -> bool)
    ensures Mute(SKINS, ShapePart(m), word) && Mute(SKINS, ShadePart(m), word) && Mute(SKINS, UvPart(m), word)
  {
    hide Mute, Balanced, NumberChars, ShapePart, ShadePart, UvPart;
    SkinsKeyword();
    TableParts(m);
    NumbersArePlain(SKINS, ShapePart(m), word);
    NumbersArePlain(SKINS, ShadePart(m), word);
    NumbersArePlain(SKINS, UvPart(m), word);
  }

  lemma TextureBeforeMute(m: Mesh, word: char -> bool)
    ensures Mute(SKINS, TextureBefore(m), word)
  {
    hide Mute, ShapePart, ShadePart;
    SkinLiteralsMute(word);
    SkinTablesMute(m, word);
    MuteSix(SKINS, ShapePart(m), "MeshNormals ", "{", ShadePart(m), "}", "\n", word);
  }

  lemma MaterialMute(faces: nat, bones: nat, word: char -> bool)
    ensures Mute(SKINS, "\n" + MaterialText(faces, bones), word)
  {
    hide MaterialText, Mute, Balanced;
    MaterialHarmless(faces, bones, word);
  }

  lemma SkinBeforeMute(m: Mesh, word: char -> bool)
    ensures Mute(SKINS, SkinBefore(m), word)
    ensures SkinBefore(m) != "" && SkinBefore(m)[|SkinBefore(m)| - 1] == '\n'
  {
    hide Mute, TextureBefore, UvPart, MaterialText;
    MaterialMute(|m.faces|, |m.skin|, word);
    MaterialLine(|m.faces|, |m.skin|);
    SkinLiteralsMute(word);
    SkinTablesMute(m, word);
    TextureBeforeMute(m, word);
    var mat := "\n" + MaterialText(|m.faces|, |m.skin|);
    MuteSix(SKINS, TextureBefore(m), "MeshTextureCoords c1 ", "{", UvPart(m), "}", mat, word);
    LastOf(TextureBefore(m) + "MeshTextureCoords c1 " + "{" + UvPart(m) + "}", mat);
  }

  lemma LastOf(a: string, b: string)
    requires b != ""
    ensures a + b != "" && (a + b)[|a + b| - 1] == b[|b| - 1]
  {}

  lemma MuteSix(h: Heading, a: string, b: string, c: string, d: string, e: string, f: string, word: char -> bool)
    requires Mute(h, a, word) && Mute(h, b, word) && Mute(h, c, word) && Mute(h, d, word) && Mute(h, e, word) && Mute(h, f, word)
    ensures Mute(h, a + b + c + d + e + f, word)
  {
    hide Mute;
    MuteCat(h, a, b, word);
    MuteCat(h, a + b, c, word);
    MuteCat(h, a + b + c, d, word);
    MuteCat(h, a + b + c + d, e, word);
    MuteCat(h, a + b + c + d + e, f, word);
  }

  lemma FindSkins(m: Mesh, word: char -> bool)
    requires GoodBones(m.skin) && WordClass(word)
    ensures var bs := Blocks(SKINS, Content(m), 0, word);
      bs.Some? && |bs.value| == |m.skin| && forall i :: 0 <= i < |m.skin| ==> bs.value[i].content == SkinContent(m.skin[i])
  {
    hide *;
    SkinBeforeMute(m, word);
    ContentFromSkins(m);
    var before, skins := SkinBefore(m), SkinTexts(m.skin);
    assert "" + before == before;
    SkipBody(SKINS, "", before, skins, Content(m), word);
    SameBlocks(SKINS, Content(m), 0, |before|, word);
    SkinBlocks(before, m.skin, word);
  }

  // ---- the tables

  lemma ClosedEnd(text: string, vs: seq<real>)
    requires Closed(text, vs)
    ensures Tokens(text) == vs
  {
    assert text + "" == text;
    assert Tokens("") == [];
    hide Tokens;
    assert vs + [] == vs;
  }

  lemma NewlineClosed()
    ensures Closed("\n", [])
  {
    assert Quiet("\n");
    QuietClosed("\n");
  }

  ghost predicate Rows(rows: seq<seq<real>>, dimension: nat) {
    forall i :: 0 <= i < |rows| ==> |rows[i]| == dimension && AllFixed(rows[i])
  }

  lemma ClosedThree(a: string, u: seq<real>, b: string, v: seq<real>, c: string, w: seq<real>)
    requires Closed(a, u) && Closed(b, v) && Closed(c, w)
    ensures Closed(a + b + c, u + v + w)
  {
    hide Closed;
    CatClosed(a, u, b, v);
    CatClosed(a + b, u + v, c, w);
  }

  /** Vectors and faces behind a line break read back. */
  lemma TablesBack(vectors: seq<seq<real>>, faces: seq<seq<int>>)
    requires Rows(vectors, 3)
    ensures ReadTables("\n" + VectorsText(vectors) + FacesText(faces)) == Some((vectors, faces))
  {
    TableTokens(vectors, faces);
    var u, v := Headed(|vectors|, Flat(vectors)), Headed(|faces|, Flat(FacesNumbers(faces)));
    hide VectorsText, FacesText, Vectors, Faces, FacesNumbers, Headed, Flat, AllFixed, Tokens;
    assert v + [] == v;
    VectorsBack(vectors, 3, v);
    FacesBack(faces, []);
  }

  lemma TableTokens(vectors: seq<seq<real>>, faces: seq<seq<int>>)
    requires Rows(vectors, 3)
    ensures Tokens("\n" + VectorsText(vectors) + FacesText(faces))
      == Headed(|vectors|, Flat(vectors)) + Headed(|faces|, Flat(FacesNumbers(faces)))
  {
    hide Closed, VectorsText, FacesText, FacesNumbers, Headed, Flat, AllFixed, Tokens;
    var u, v := Headed(|vectors|, Flat(vectors)), Headed(|faces|, Flat(FacesNumbers(faces)));
    NewlineClosed();
    VectorsClosed(vectors);
    FacesClosed(faces);
    ClosedThree("\n", [], VectorsText(vectors), u, FacesText(faces), v);
    ClosedEnd("\n" + VectorsText(vectors) + FacesText(faces), [] + u + v);
    assert [] + u + v == u + v;
  }

  lemma UvBack(uv: seq<seq<real>>)
    requires Rows(uv, 2)
    ensures var r := Vectors(Tokens("\n" + VectorsText(uv)), 2); r.Some? && r.value.0 == uv
  {
    hide Closed, VectorsText, Vectors, Headed, Flat, AllFixed;
    var u := Headed(|uv|, Flat(uv));
    NewlineClosed();
    VectorsClosed(uv);
    CatClosed("\n", [], VectorsText(uv), u);
    ClosedEnd("\n" + VectorsText(uv), [] + u);
    assert [] + u == u && u + [] == u;
    VectorsBack(uv, 2, []);
  }

  lemma {:induction false} BeforeIs(a: string, sub: string, rest: string)
    requires sub != "" && forall i :: 0 <= i < |a| ==> a[i] != sub[0]
    ensures Before(a + (sub + rest), sub) == a
  {
    var s := a + (sub + rest);
    if a == "" {
      assert s == sub + rest && sub <= s;
    } else {
      assert s[0] == a[0] && s[1..] == a[1..] + (sub + rest);
      BeforeIs(a[1..], sub, rest);
      assert a == [a[0]] + a[1..];
    }
  }

  lemma ShapeBefore(m: Mesh)
    ensures Before(Content(m), "MeshNormals") == ShapePart(m)
  {
    TableParts(m);
    ContentFromNormals(m);
    assert "MeshNormals"[0] == 'M';
    var rest := " " + "{" + ShadePart(m) + "}" + FromTexture(m);
    NormalsSplit(ShadePart(m), FromTexture(m));
    hide ShapePart, ShadePart, FromTexture, Content, Before;
    BeforeIs(ShapePart(m), "MeshNormals", rest);
  }

  lemma NormalsSplit(shade: string, rest: string)
    ensures "MeshNormals " + "{" + shade + "}" + rest == "MeshNormals" + (" " + "{" + shade + "}" + rest)
  {
    assert "MeshNormals " == "MeshNormals" + " ";
  }

  // ---- one bone

  lemma {:induction false} UnquotedIs(bone: string, rest: string)
    requires forall i :: 0 <= i < |bone| ==> bone[i] != '"'
    ensures Unquoted(bone + ("\"" + rest)) == |bone|
  {
    var s := bone + ("\"" + rest);
    if bone == "" {
      assert s[0] == '"';
    } else {
      assert s[0] == bone[0] && s[1..] == bone[1..] + ("\"" + rest);
      UnquotedIs(bone[1..], rest);
    }
  }

  lemma {:induction false} BehindIs(a: string, rest: string)
    requires forall i :: 0 <= i < |a| ==> a[i] != ';'
    ensures AfterSemicolon(a + (";" + rest)) == Some(rest)
  {
    var s := a + (";" + rest);
    if a == "" {
      assert s[0] == ';' && s[1..] == rest;
    } else {
      assert s[0] == a[0] && s[1..] == a[1..] + (";" + rest);
      BehindIs(a[1..], rest);
    }
  }

  lemma BonePieces(bone: string, rest: string)
    ensures "\n" + ("\"" + bone + "\";") + rest == "\n" + ("\"" + (bone + ("\"" + (";" + rest))))
    ensures "\n" + ("\"" + bone + "\";") + rest == ("\n" + "\"" + bone + "\"") + (";" + rest)
  {
    assert "\";" == "\"" + ";";
  }

  lemma BoneBack(bone: string, rest: string)
    requires GoodBone(bone)
    ensures FirstQuoted("\n" + ("\"" + bone + "\";") + rest) == Some(bone)
    ensures AfterSemicolon("\n" + ("\"" + bone + "\";") + rest) == Some(rest)
  {
    BonePieces(bone, rest);
    UnquotedIs(bone, ";" + rest);
    BehindIs("\n" + "\"" + bone + "\"", rest);
    hide Unquoted, AfterSemicolon;
    var inner := bone + ("\"" + (";" + rest));
    var quoted := "\"" + inner;
    assert ("\n" + quoted)[1..] == quoted && quoted[1..] == inner && quoted[1..1 + |bone|] == bone;
    assert FirstQuoted(quoted) == Some(bone);
  }

  ghost predicate GoodSkin(s: Skin) {
    GoodBone(s.bone) && (forall k :: k in s.weights ==> Fixed(s.weights[k])) && |s.matrix| == 16 && AllFixed(s.matrix)
  }

  lemma WeightsFixed(s: Skin)
    requires GoodSkin(s)
    ensures AllFixed(WeightValues(s)) && |WeightValues(s)| == |SortedKeys(s.weights.Keys)|
  {
    hide Fixed, GoodBone;
    var keys := SortedKeys(s.weights.Keys);
    forall i | 0 <= i < |keys| ensures Fixed(WeightValues(s)[i]) {
      assert keys[i] in keys;
    }
  }

  lemma SkinStops()
    ensures Stops(",") && Quiet(",") && Stops(";\n") && Quiet(";\n") && Stops(";;\n") && Quiet(";;\n")
  {}

  lemma SkinTokens(s: Skin)
    requires GoodSkin(s)
    ensures var keys := SortedKeys(s.weights.Keys);
      Tokens(SkinNumbers(s)) == Headed(|keys|, Reals(keys)) + WeightValues(s) + s.matrix
  {
    WeightsFixed(s);
    SkinStops();
    hide Closed, Stops, Quiet, Join, IntText, IntTexts, NumberTexts, AllFixed, WeightValues, Tokens, Reals, SortedKeys, GoodBone;
    var keys := SortedKeys(s.weights.Keys);
    NewlineClosed();
    IntClosed(|keys|, ";\n");
    IntsClosed(keys, ";\n");
    NumbersClosed(WeightValues(s), ",", ";\n");
    NumbersClosed(s.matrix, ",", ";;\n");
    var n, i, w, x := IntText(|keys|), Join(",", IntTexts(keys)), Join(",", NumberTexts(WeightValues(s))), Join(",", NumberTexts(s.matrix));
    SkinClosed(n, i, w, x, [|keys| as real], Reals(keys), WeightValues(s), s.matrix);
    assert SkinNumbers(s) == "\n" + n + ";\n" + i + ";\n" + w + ";\n" + x + ";;\n";
  }

  lemma SkinClosed(n: string, i: string, w: string, x: string, a: seq<real>, b: seq<real>, c: seq<real>, d: seq<real>)
    requires Closed(n + ";\n", a) && Closed(i + ";\n", b) && Closed(w + ";\n", c) && Closed(x + ";;\n", d)
    ensures Tokens("\n" + n + ";\n" + i + ";\n" + w + ";\n" + x + ";;\n") == a + b + c + d
  {
    hide Closed, Tokens;
    NewlineClosed();
    ClosedThree("\n", [], n + ";\n", a, i + ";\n", b);
    ClosedThree("\n" + (n + ";\n") + (i + ";\n"), [] + a + b, w + ";\n", c, x + ";;\n", d);
    SkinPieces(n, i, w, x);
    ClosedEnd("\n" + n + ";\n" + i + ";\n" + w + ";\n" + x + ";;\n", [] + a + b + c + d);
    assert [] + a + b + c + d == a + b + c + d;
  }

  lemma SkinPieces(n: string, i: string, w: string, x: string)
    ensures "\n" + n + ";\n" + i + ";\n" + w + ";\n" + x + ";;\n" == "\n" + (n + ";\n") + (i + ";\n") + (w + ";\n") + (x + ";;\n")
  {}

  lemma {:induction false} ZippedHas(keys: seq<int>, values: seq<real>)
    requires |keys| == |values| && forall i, j :: 0 <= i < j < |keys| ==> keys[i] < keys[j]
    ensures forall k :: k in Zipped(keys, values) <==> k in keys
    ensures forall i :: 0 <= i < |keys| ==> Zipped(keys, values)[keys[i]] == values[i]
  {
    if keys != [] {
      var n := |keys| - 1;
      assert keys == keys[..n] + [keys[n]];
      assert forall i :: 0 <= i < n ==> keys[..n][i] == keys[i] && keys[i] != keys[n] && values[..n][i] == values[i];
      ZippedHas(keys[..n], values[..n]);
    }
  }

  lemma ZippedIs(s: Skin)
    ensures var keys := SortedKeys(s.weights.Keys); |WeightValues(s)| == |keys| && Zipped(keys, WeightValues(s)) == s.weights
  {
    var keys, values := SortedKeys(s.weights.Keys), WeightValues(s);
    ZippedHas(keys, values);
    hide SortedKeys, Zipped;
    forall k ensures k in Zipped(keys, values) <==> k in s.weights {
      assert k in keys <==> k in s.weights.Keys;
    }
    forall k | k in keys ensures Zipped(keys, values)[k] == s.weights[k] {
      var i :| 0 <= i < |keys| && keys[i] == k;
      assert keys[i] in keys && values[i] == s.weights[keys[i]];
    }
  }

  lemma SkinOfParts(bone: string, n: nat, indices: seq<real>, values: seq<real>, matrix: seq<real>)
    requires |indices| == n && |values| == n && |matrix| == 16
    ensures SkinOf(bone, Headed(n, indices) + values + matrix) == Some(Skin(bone, Zipped(Truncated(indices), values), matrix))
  {
    hide Take, TakeInt, Truncated, Zipped, Headed;
    assert Headed(n, indices) + values + matrix == Headed(n, indices) + (values + matrix);
    IntTaken(n, indices, values + matrix);
    TakeBack(indices, values + matrix);
    TakeBack(values, matrix);
    TakeBack(matrix, []);
    assert matrix + [] == matrix;
  }

  lemma SkinOfBack(s: Skin)
    requires |s.matrix| == 16
    ensures var keys := SortedKeys(s.weights.Keys);
      SkinOf(s.bone, Headed(|keys|, Reals(keys)) + WeightValues(s) + s.matrix) == Some(s)
  {
    hide SkinOf, Truncated, Zipped, WeightValues, Headed, Reals, SortedKeys;
    var keys := SortedKeys(s.weights.Keys);
    ZippedIs(s);
    TruncatedReals(keys);
    SkinOfParts(s.bone, |keys|, Reals(keys), WeightValues(s), s.matrix);
  }

  lemma SkinBack(s: Skin)
    requires GoodSkin(s)
    ensures ReadSkin(SkinContent(s)) == Some(s)
  {
    BoneBack(s.bone, SkinNumbers(s));
    SkinTokens(s);
    SkinOfBack(s);
    hide FirstQuoted, AfterSemicolon, SkinNumbers, Tokens, SkinOf, Headed, Reals, WeightValues;
  }

  ghost predicate DistinctBones(skins: seq<Skin>) {
    forall i, j :: 0 <= i < j < |skins| ==> skins[i].bone != skins[j].bone
  }

  lemma {:induction false} PutNew(skins: seq<Skin>, s: Skin)
    requires forall i :: 0 <= i < |skins| ==> skins[i].bone != s.bone
    ensures Put(skins, s) == skins + [s]
  {
    if skins != [] {
      PutNew(skins[1..], s);
      assert skins == [skins[0]] + skins[1..];
    }
  }

  lemma {:induction false} SkinsBack(skins: seq<Skin>, blocks: seq<Block>)
    requires DistinctBones(skins) && |blocks| == |skins|
    requires forall i :: 0 <= i < |skins| ==> GoodSkin(skins[i]) && blocks[i].content == SkinContent(skins[i])
    ensures ReadSkins(blocks) == Some(skins)
  {
    hide ReadSkin, Put, GoodSkin, SkinContent;
    if skins != [] {
      var n := |skins| - 1;
      SkinsBack(skins[..n], blocks[..n]);
      SkinBack(skins[n]);
      PutNew(skins[..n], skins[n]);
      assert skins == skins[..n] + [skins[n]];
    }
  }
}
