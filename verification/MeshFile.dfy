/** Reading a mesh out of a text mesh file and writing it back in place of the block it came from
    (tools/pz_x_mesh.py). */
module MeshFile {
  import opened Common
  import opened MeshNumbers
  import opened MeshTables
  import opened MeshBlocks

  /** One bone's weights by vertex index, and its offset matrix. */
  datatype Skin = Skin(bone: string, weights: map<int, real>, matrix: seq<real>)

  /** The skin dictionary is a list in insertion order. */
  datatype Mesh = Mesh(source: string, start: nat, end: nat, vertices: seq<seq<real>>, faces: seq<seq<int>>,
                       normals: seq<seq<real>>, normalFaces: seq<seq<int>>, uv: seq<seq<real>>, skin: seq<Skin>)

  const MESH := Heading("Mesh", Needed)
  const NORMALS := Heading("MeshNormals", Never)
  const TEXTURE := Heading("MeshTextureCoords", Optional)
  const SKINS := Heading("SkinWeights", Never)

  // ---- reading

  /** What stands before the first occurrence of the word; everything if it does not occur. */
  function Before(s: string, sub: string): (r: string) {
    if s == "" || sub <= s then "" else [s[0]] + Before(s[1..], sub)
  }

  /** What stands behind the first semicolon. */
  function AfterSemicolon(s: string): (r: Option<string>) {
    if s == "" then None else if s[0] == ';' then Some(s[1..]) else AfterSemicolon(s[1..])
  }

  /** The characters before the next quotation mark. */
  function Unquoted(s: string): (n: nat)
    ensures n <= |s|
  {
    if s == "" || s[0] == '"' then 0 else 1 + Unquoted(s[1..])
  }

  /** The first non-empty text between two quotation marks. */
  function FirstQuoted(s: string): (r: Option<string>) {
    if s == "" then None
    else if s[0] != '"' then FirstQuoted(s[1..])
    else
      var n := Unquoted(s[1..]);
      if n > 0 && 1 + n < |s| then Some(s[1..1 + n]) else FirstQuoted(s[1..])
  }

  /** dict(zip(keys, values)): of two equal keys the later one counts. */
  function Zipped(keys: seq<int>, values: seq<real>): (r: map<int, real>)
    requires |keys| == |values|
  {
    if keys == [] then map[] else Zipped(keys[..|keys| - 1], values[..|keys| - 1])[keys[|keys| - 1] := values[|keys| - 1]]
  }

  function ReadSkin(text: string): (r: Option<Skin>) {
    var bone := FirstQuoted(text);
    var numbers := AfterSemicolon(text);
    if bone.None? || numbers.None? then None else SkinOf(bone.value, Tokens(numbers.value))
  }

  function SkinOf(bone: string, vs: seq<real>): (r: Option<Skin>) {
    var count := TakeInt(vs);
    if count.None? then None
    else
      var indices := Take(count.value.1, count.value.0);
      if indices.None? then None
      else
        var values := Take(indices.value.1, count.value.0);
        if values.None? then None
        else
          var matrix := Take(values.value.1, 16);
          if matrix.None? then None
          else Some(Skin(bone, Zipped(Truncated(indices.value.0), values.value.0), matrix.value.0))
  }

  /** skin[bone] = ...: a bone met again is replaced where it stands. */
  function Put(skins: seq<Skin>, s: Skin): (r: seq<Skin>) {
    if skins == [] then [s]
    else if skins[0].bone == s.bone then [s] + skins[1..]
    else [skins[0]] + Put(skins[1..], s)
  }

  function ReadSkins(blocks: seq<Block>): (r: Option<seq<Skin>>) {
    if blocks == [] then Some([])
    else
      var front := ReadSkins(blocks[..|blocks| - 1]);
      var last := ReadSkin(blocks[|blocks| - 1].content);
      if front.None? || last.None? then None else Some(Put(front.value, last.value))
  }

  /** Vectors and faces from one text. */
  function ReadTables(text: string): (r: Option<(seq<seq<real>>, seq<seq<int>>)>) {
    var vectors := Vectors(Tokens(text), 3);
    if vectors.None? then None
    else
      var faces := Faces(vectors.value.1);
      if faces.None? then None else Some((vectors.value.0, faces.value.0))
  }

  function ReadContent(text: string, at: nat, end: nat, content: string, word: char -> bool): (r: Option<Mesh>) {
    var shape := ReadTables(Before(content, "MeshNormals"));
    var normals := FirstBlock(NORMALS, content, word);
    var texture := FirstBlock(TEXTURE, content, word);
    var skins := Blocks(SKINS, content, 0, word);
    if shape.None? || normals.None? || texture.None? || skins.None? then None
    else
      var shade := ReadTables(normals.value.content);
      var uv := Vectors(Tokens(texture.value.content), 2);
      var skin := ReadSkins(skins.value);
      if shade.None? || uv.None? || skin.None? then None
      else Some(Mesh(text, at, end, shape.value.0, shape.value.1, shade.value.0, shade.value.1, uv.value.0, skin.value))
  }

  function ReadMesh(text: string, word: char -> bool): (r: Option<Mesh>) {
    var block := FirstBlock(MESH, text, word);
    if block.None? then None else ReadContent(text, block.value.at, block.value.end, block.value.content, word)
  }

  // ---- what the parts of the reader find

  predicate Occurs(sub: string, s: string, i: nat) {
    i + |sub| <= |s| && s[i..i + |sub|] == sub
  }

  lemma OccursFirst(sub: string, s: string)
    ensures Occurs(sub, s, 0) <==> sub <= s
  {
    if |sub| <= |s| { assert s[0..0 + |sub|] == s[..|sub|]; }
  }

  lemma OccursLater(sub: string, s: string, i: nat)
    requires s != ""
    ensures Occurs(sub, s, i + 1) <==> Occurs(sub, s[1..], i)
  {
    if i + 1 + |sub| <= |s| { assert s[i + 1..i + 1 + |sub|] == s[1..][i..i + |sub|]; }
  }

  /** split(word, 1)[0]: what stands before the first occurrence, or everything. */
  lemma {:induction false} BeforeIs(s: string, sub: string)
    requires sub != ""
    ensures var r := Before(s, sub);
      && r <= s && (forall i :: 0 <= i < |r| ==> !Occurs(sub, s, i))
      && (r == s || Occurs(sub, s, |r|))
  {
    if s != "" {
      OccursFirst(sub, s);
      hide Occurs;
      if !(sub <= s) {
        var rest := Before(s[1..], sub);
        BeforeIs(s[1..], sub);
        assert s == [s[0]] + s[1..] && Before(s, sub) == [s[0]] + rest;
        OccursLater(sub, s, |rest|);
        forall i | 0 <= i < |rest| + 1 ensures !Occurs(sub, s, i) {
          if i > 0 { OccursLater(sub, s, i - 1); }
        }
      }
    }
  }

  /** split(";", 1)[1]: what stands behind the first semicolon, if there is one. */
  lemma {:induction false} AfterSemicolonIs(s: string)
    ensures var r := AfterSemicolon(s);
      && (r.None? <==> ';' !in s)
      && (r.Some? ==> exists head :: ';' !in head && s == head + ";" + r.value)
  {
    if s != "" {
      assert s == [s[0]] + s[1..];
      if s[0] == ';' {
        assert s == "" + ";" + s[1..];
      } else {
        AfterSemicolonIs(s[1..]);
        var r := AfterSemicolon(s);
        if r.Some? {
          var head :| ';' !in head && s[1..] == head + ";" + r.value;
          assert s == [s[0]] + head + ";" + r.value;
          assert ';' !in [s[0]] + head;
        }
      }
    }
  }

  /** A bone met again takes the place of the earlier one of that name; a new one comes last. */
  lemma {:induction false} PutIs(skins: seq<Skin>, s: Skin)
    requires forall i, j :: 0 <= i < j < |skins| ==> skins[i].bone != skins[j].bone
    ensures var r := Put(skins, s);
      && (forall i :: 0 <= i < |skins| ==> i < |r| && r[i] == if skins[i].bone == s.bone then s else skins[i])
      && |r| == |skins| + (if exists i :: 0 <= i < |skins| && skins[i].bone == s.bone then 0 else 1)
      && (|r| > |skins| ==> r[|skins|] == s)
  {
    if skins != [] && skins[0].bone != s.bone {
      var rest := skins[1..];
      assert forall i :: 0 <= i < |rest| ==> rest[i] == skins[i + 1];
      PutIs(rest, s);
      if exists i :: 0 <= i < |skins| && skins[i].bone == s.bone {
        var i :| 0 <= i < |skins| && skins[i].bone == s.bone;
        assert rest[i - 1].bone == s.bone;
      }
    }
  }

  /** Of two weights for one vertex the later one counts. */
  lemma {:induction false} ZippedHas(keys: seq<int>, values: seq<real>, k: int)
    requires |keys| == |values|
    ensures k in Zipped(keys, values) <==> k in keys
    ensures k in keys ==> exists i :: 0 <= i < |keys| && keys[i] == k && Zipped(keys, values)[k] == values[i] && k !in keys[i + 1..]
  {
    if keys != [] {
      var n := |keys| - 1;
      ZippedHas(keys[..n], values[..n], k);
      assert keys == keys[..n] + [keys[n]];
      if keys[n] == k {
        assert keys[n + 1..] == [];
      } else if k in keys[..n] {
        var i :| 0 <= i < n && keys[..n][i] == k && Zipped(keys[..n], values[..n])[k] == values[..n][i] && k !in keys[..n][i + 1..];
        assert keys[i + 1..] == keys[..n][i + 1..] + [keys[n]];
      }
    }
  }

  // ---- writing

  /** sorted(keys). */
  function SortedKeys(s: set<int>): (r: seq<int>)
    ensures forall x :: x in r <==> x in s
    ensures forall i, j :: 0 <= i < j < |r| ==> r[i] < r[j]
  {
    if s == {} then []
    else
      var x := Least(s);
      [x] + SortedKeys(s - {x})
  }

  function WeightValues(s: Skin): (r: seq<real>) {
    var keys := SortedKeys(s.weights.Keys);
    seq(|keys|, i requires 0 <= i < |keys| => (assert keys[i] in keys; s.weights[keys[i]]))
  }

  function SkinText(s: Skin): (r: string) {
    var keys := SortedKeys(s.weights.Keys);
    "SkinWeights {\n\"" + s.bone + "\";\n" + IntText(|keys|) + ";\n"
    + Join(",", IntTexts(keys)) + ";\n" + Join(",", NumberTexts(WeightValues(s))) + ";\n"
    + Join(",", NumberTexts(s.matrix)) + ";;\n}\n"
  }

  function SkinTexts(skins: seq<Skin>): (r: string) {
    if skins == [] then "" else SkinText(skins[0]) + SkinTexts(skins[1..])
  }

  function Zeroes(n: nat): (r: seq<string>)
    ensures |r| == n && forall i :: 0 <= i < n ==> r[i] == "0"
  {
    seq(n, _ => "0")
  }

  function MaterialText(faces: nat, bones: nat): (r: string) {
    "MeshMaterialList {\n1;\n" + IntText(faces) + ";\n" + Join(",", Zeroes(faces)) + ";;\n"
    + ("Material GoblinSkin {" + "1;1;1;1;;0;0;0;0;;0;0;0;;" + "TextureFilename {" + "\"Goblin.png\";" + "}}\n}\n")
    + "XSkinMeshHeader {4;12;" + IntText(bones) + ";}\n"
  }

  /** The replaced block. */
  function BlockText(m: Mesh): (r: string) {
    "Mesh GoblinNative {\n" + VectorsText(m.vertices) + FacesText(m.faces)
    + "MeshNormals {\n" + VectorsText(m.normals) + FacesText(m.normalFaces) + "}\n"
    + "MeshTextureCoords c1 {\n" + VectorsText(m.uv) + "}\n"
    + MaterialText(|m.faces|, |m.skin|) + SkinTexts(m.skin) + "}\n"
  }

  function WriteMesh(m: Mesh): (r: string)
    requires m.start <= |m.source| && m.end <= |m.source|
  {
    m.source[..m.start] + BlockText(m) + m.source[m.end..]
  }

  // ---- the methods

  method NextBlock(h: Heading, text: string, i: nat, word: char -> bool) returns (found: bool, block: Option<Block>, next: nat)
    requires i <= |text|
    ensures found == NextMatch(h, text, i, word).Some?
    ensures found ==> block == BlockAt(text, NextMatch(h, text, i, word).value)
    ensures found ==> i < next == NextMatch(h, text, i, word).value + MatchAt(h, text, NextMatch(h, text, i, word).value, word) <= |text|
  {
    hide MatchAt, CloseLength;
    block, next := None, i;
    var m := NextMatch(h, text, i, word);
    found := m.Some?;
    if found {
      next := m.value + MatchAt(h, text, m.value, word);
      var open := FindBrace(text, m.value);
      if open < |text| {
        var end := FindEnd(text, open);
        if end.Some? {
          block := Some(Block(m.value, text[open + 1..end.value - 1], end.value));
        }
      }
    }
  }

  method TakeTables(text: string) returns (r: Option<(seq<seq<real>>, seq<seq<int>>)>)
    ensures r == ReadTables(text)
  {
    hide Tokens, Vectors, Faces;
    var numbers := new Numbers(text);
    var vectors := numbers.VectorRows(3);
    if vectors.None? {
      return None;
    }
    var faces := numbers.FaceRows();
    if faces.None? {
      return None;
    }
    r := Some((vectors.value, faces.value));
  }

  method TakeSkin(text: string) returns (r: Option<Skin>)
    ensures r == ReadSkin(text)
  {
    hide Tokens, Take, TakeInt, Truncated, Zipped;
    var bone := FirstQuoted(text);
    var behind := AfterSemicolon(text);
    if bone.None? || behind.None? {
      return None;
    }
    var numbers := new Numbers(behind.value);
    var count := numbers.Integer();
    if count.None? {
      return None;
    }
    var indices := numbers.TakeSome(count.value);
    if indices.None? {
      return None;
    }
    var values := numbers.TakeSome(count.value);
    if values.None? {
      return None;
    }
    var matrix := numbers.TakeSome(16);
    if matrix.None? {
      return None;
    }
    r := Some(Skin(bone.value, Zipped(Truncated(indices.value), values.value), matrix.value));
  }

  /** The blocks found so far, followed by those still to come. */
  ghost predicate Onward(all: Option<seq<Block>>, done: seq<Block>, rest: Option<seq<Block>>) {
    if rest.None? then all.None? else all == Some(done + rest.value)
  }

  lemma OnwardMore(all: Option<seq<Block>>, done: seq<Block>, before: Option<seq<Block>>, b: Block, after: Option<seq<Block>>)
    requires Onward(all, done, before)
    requires before == if after.None? then None else Some([b] + after.value)
    ensures Onward(all, done + [b], after)
  {
    if after.Some? {
      assert done + ([b] + after.value) == done + [b] + after.value;
    }
  }

  lemma BlocksStep(h: Heading, text: string, i: nat, word: char -> bool)
    requires i <= |text|
    ensures var m := NextMatch(h, text, i, word);
      if m.None? then Blocks(h, text, i, word) == Some([])
      else
        var b, after := BlockAt(text, m.value), Blocks(h, text, m.value + MatchAt(h, text, m.value, word), word);
        Blocks(h, text, i, word) == if b.None? || after.None? then None else Some([b.value] + after.value)
  {
    hide MatchAt, BlockAt, NextMatch;
  }

  lemma ReadSkinsMore(done: seq<Block>, b: Block)
    ensures ReadSkins(done + [b]) ==
      if ReadSkins(done).None? || ReadSkin(b.content).None? then None else Some(Put(ReadSkins(done).value, ReadSkin(b.content).value))
  {
    hide ReadSkin, Put;
    assert (done + [b])[..|done|] == done;
  }

  lemma {:induction false} ReadSkinsPrefix(done: seq<Block>, rest: seq<Block>)
    requires ReadSkins(done).None?
    ensures ReadSkins(done + rest).None?
    decreases |rest|
  {
    hide ReadSkin, Put;
    if rest == [] {
      assert done + rest == done;
    } else {
      ReadSkinsPrefix(done, rest[..|rest| - 1]);
      assert (done + rest)[..|done + rest| - 1] == done + rest[..|rest| - 1];
    }
  }

  /** The loop over the skin blocks, filling the dictionary. */
  method ReadAllSkins(content: string, word: char -> bool) returns (r: Option<seq<Skin>>)
    ensures r == (var blocks := Blocks(SKINS, content, 0, word); if blocks.None? then None else ReadSkins(blocks.value))
  {
    hide Blocks, BlockAt, MatchAt, NextMatch, ReadSkin, Put, ReadSkins;
    ghost var all := Blocks(SKINS, content, 0, word);
    ghost var done: seq<Block> := [];
    var skin: seq<Skin> := [];
    var i := 0;
    if all.Some? {
      assert [] + all.value == all.value;
    }
    NoSkins();
    while true
      invariant 0 <= i <= |content|
      invariant Onward(all, done, Blocks(SKINS, content, i, word))
      invariant ReadSkins(done) == Some(skin)
      decreases |content| - i
    {
      BlocksStep(SKINS, content, i, word);
      var found, block, next := NextBlock(SKINS, content, i, word);
      if !found {
        assert done + [] == done;
        break;
      }
      if block.None? {
        return None;
      }
      OnwardMore(all, done, Blocks(SKINS, content, i, word), block.value, Blocks(SKINS, content, next, word));
      ReadSkinsMore(done, block.value);
      var s := TakeSkin(block.value.content);
      if s.None? {
        if all.Some? {
          ReadSkinsPrefix(done + [block.value], Blocks(SKINS, content, next, word).value);
        }
        return None;
      }
      skin := Put(skin, s.value);
      done := done + [block.value];
      i := next;
    }
    r := Some(skin);
  }

  lemma NoSkins()
    ensures ReadSkins([]) == Some([])
  {}

  /** read_mesh. */
  method Read(text: string, word: char -> bool) returns (r: Option<Mesh>)
    ensures r == ReadMesh(text, word)
  {
    hide Blocks, BlockAt, MatchAt, NextMatch, ReadSkins, ReadTables, Tokens, Vectors, Before;
    var found, block, _ := NextBlock(MESH, text, 0, word);
    if !found || block.None? {
      return None;
    }
    var content := block.value.content;
    var shape := TakeTables(Before(content, "MeshNormals"));
    if shape.None? {
      return None;
    }
    var hasNormals, normals, _ := NextBlock(NORMALS, content, 0, word);
    if !hasNormals || normals.None? {
      return None;
    }
    var shade := TakeTables(normals.value.content);
    if shade.None? {
      return None;
    }
    var hasTexture, texture, _ := NextBlock(TEXTURE, content, 0, word);
    if !hasTexture || texture.None? {
      return None;
    }
    var numbers := new Numbers(texture.value.content);
    var uv := numbers.VectorRows(2);
    if uv.None? {
      return None;
    }
    var skin := ReadAllSkins(content, word);
    if skin.None? {
      return None;
    }
    r := Some(Mesh(text, block.value.at, block.value.end, shape.value.0, shape.value.1, shade.value.0, shade.value.1, uv.value, skin.value));
  }

  /** write_mesh: the parts are collected in order, one skin block per bone. */
  method Write(m: Mesh) returns (text: string)
    requires m.start <= |m.source| && m.end <= |m.source|
    ensures text == WriteMesh(m)
  {
    hide VectorsText, FacesText, MaterialText, SkinText;
    var parts := "Mesh GoblinNative {\n" + VectorsText(m.vertices) + FacesText(m.faces)
      + "MeshNormals {\n" + VectorsText(m.normals) + FacesText(m.normalFaces) + "}\n"
      + "MeshTextureCoords c1 {\n" + VectorsText(m.uv) + "}\n"
      + MaterialText(|m.faces|, |m.skin|);
    ghost var head := parts;
    var i := 0;
    assert m.skin[0..] == m.skin;
    while i < |m.skin|
      invariant 0 <= i <= |m.skin|
      invariant head + SkinTexts(m.skin) == parts + SkinTexts(m.skin[i..])
    {
      assert m.skin[i..][0] == m.skin[i] && m.skin[i..][1..] == m.skin[i + 1..];
      assert parts + (SkinText(m.skin[i]) + SkinTexts(m.skin[i + 1..])) == parts + SkinText(m.skin[i]) + SkinTexts(m.skin[i + 1..]);
      parts := parts + SkinText(m.skin[i]);
      i := i + 1;
    }
    assert m.skin[i..] == [] && parts + "" == parts;
    text := m.source[..m.start] + (parts + "}\n") + m.source[m.end..];
  }
}
