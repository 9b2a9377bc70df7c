/** Writing a mesh and reading the file again gives the mesh back, and leaves the rest of the file alone
    (tools/pz_x_mesh.py). */
module MeshRoundTrip {
  import opened Common
  import opened MeshNumbers
  import opened MeshTables
  import opened MeshBlocks
  import opened MeshFile

  // ---- the characters of printed tables

  predicate NumberChars(s: string) {
    forall i :: 0 <= i < |s| ==> '0' <= s[i] <= '9' || s[i] == '-' || s[i] == '.' || s[i] == ';' || s[i] == ',' || s[i] == '\n'
  }

  lemma DigitsAre(s: string)
    requires AllDigits(s)
    ensures NumberChars(s)
  {}

  lemma CharsCat(a: string, b: string)
    requires NumberChars(a) && NumberChars(b)
    ensures NumberChars(a + b)
  {}

  lemma IntChars(n: int)
    ensures NumberChars(IntText(n))
  {
    DigitsAre(Digits(if n < 0 then -n else n));
  }

  lemma NumberTextChars(x: real)
    ensures NumberChars(NumberText(x))
  {
    var q := Billionths(x);
    NumberForm(x);
    DigitsAre(Digits(q / NANO));
    DigitsAre(Padded(q % NANO, 9));
    hide Billionths, NumberText, Digits, Padded;
  }

  lemma {:induction false} JoinChars(sep: string, parts: seq<string>)
    requires NumberChars(sep) && forall i :: 0 <= i < |parts| ==> NumberChars(parts[i])
    ensures NumberChars(Join(sep, parts))
  {
    hide NumberChars;
    if parts == [] {
      assert NumberChars("") by { DigitsAre(""); }
    } else if |parts| > 1 {
      JoinChars(sep, parts[1..]);
      CharsCat(parts[0], sep);
      CharsCat(parts[0] + sep, Join(sep, parts[1..]));
    }
  }

  lemma Separators()
    ensures NumberChars(";") && NumberChars(",") && NumberChars(";\n") && NumberChars(",\n") && NumberChars("\n") && NumberChars(";;\n")
  {}

  lemma NumbersChars(row: seq<real>, sep: string)
    requires NumberChars(sep)
    ensures NumberChars(Join(sep, NumberTexts(row)))
  {
    hide NumberChars, NumberText;
    forall i | 0 <= i < |row| ensures NumberChars(NumberTexts(row)[i]) { NumberTextChars(row[i]); }
    JoinChars(sep, NumberTexts(row));
  }

  lemma IntsChars(row: seq<int>)
    ensures NumberChars(Join(",", IntTexts(row)))
  {
    hide NumberChars, IntText;
    Separators();
    forall i | 0 <= i < |row| ensures NumberChars(IntTexts(row)[i]) { IntChars(row[i]); }
    JoinChars(",", IntTexts(row));
  }

  lemma TableChars(n: int, parts: seq<string>)
    requires forall i :: 0 <= i < |parts| ==> NumberChars(parts[i])
    ensures NumberChars(IntText(n) + ";\n" + Join(",\n", parts) + ";\n")
  {
    hide NumberChars, IntText, Join;
    Separators();
    IntChars(n);
    JoinChars(",\n", parts);
    CharsCat(IntText(n), ";\n");
    CharsCat(IntText(n) + ";\n", Join(",\n", parts));
    CharsCat(IntText(n) + ";\n" + Join(",\n", parts), ";\n");
  }

  lemma VectorsChars(rows: seq<seq<real>>)
    ensures NumberChars(VectorsText(rows))
  {
    hide NumberChars, Join, NumberTexts;
    Separators();
    forall i | 0 <= i < |rows| ensures NumberChars(VectorTexts(rows)[i]) {
      NumbersChars(rows[i], ";");
      CharsCat(Join(";", NumberTexts(rows[i])), ";");
    }
    hide VectorTexts, VectorText;
    TableChars(|rows|, VectorTexts(rows));
  }

  lemma FacesChars(rows: seq<seq<int>>)
    ensures NumberChars(FacesText(rows))
  {
    hide NumberChars, Join, IntTexts, IntText;
    Separators();
    forall i | 0 <= i < |rows| ensures NumberChars(FaceTexts(rows)[i]) {
      var row := rows[i];
      IntChars(|row|);
      IntsChars(row);
      CharsCat(IntText(|row|), ";");
      CharsCat(IntText(|row|) + ";", Join(",", IntTexts(row)));
      CharsCat(IntText(|row|) + ";" + Join(",", IntTexts(row)), ";");
    }
    hide FaceTexts, FaceText;
    TableChars(|rows|, FaceTexts(rows));
  }

  predicate Letter(c: char) {
    'a' <= c <= 'z' || 'A' <= c <= 'Z'
  }

  /** A piece of numbers holds no brace, and no heading starts in it. */
  lemma NumbersArePlain(h: Heading, s: string, word: char -> bool)
    requires NumberChars(s) && h.keyword != "" && Letter(h.keyword[0])
    ensures Balanced(s) && Mute(h, s, word)
  {
    hide Balanced, Mute, HeadingAt;
    PlainBalanced(s);
    MuteLetters(h, s, 0, word);
  }

  // ---- where a heading matches

  lemma HeadingPlain(h: Heading, rest: string, word: char -> bool)
    requires !h.name.Needed?
    ensures HeadingAt(h, h.keyword + " {" + rest, word) == |h.keyword| + 2
  {
    var s := h.keyword + " {" + rest;
    var k := |h.keyword|;
    assert h.keyword <= s;
    assert s[k..] == " {" + rest;
    assert SpaceRun(" {" + rest) == 1 by {
      assert (" {" + rest)[1..] == "{" + rest;
    }
    assert s[k + 1] == '{';
  }

  lemma {:induction false} WordRunIs(name: string, rest: string, word: char -> bool)
    requires WordClass(word) && (forall i :: 0 <= i < |name| ==> AsciiWord(name[i])) && rest != "" && !word(rest[0])
    ensures WordRun(name + rest, word) == |name|
  {
    if name == "" {
      assert name + rest == rest;
    } else {
      assert (name + rest)[0] == name[0] && (name + rest)[1..] == name[1..] + rest;
      WordRunIs(name[1..], rest, word);
    }
  }

  lemma OneSpace(rest: string)
    requires rest == "" || !PySpace(rest[0])
    ensures SpaceRun(" " + rest) == 1
  {
    assert (" " + rest)[1..] == rest;
  }

  lemma SpacesAreNoWord(word: char -> bool)
    requires WordClass(word)
    ensures !word(' ') && !word('\n')
  {
    assert PySpace(' ') && PySpace('\n');
  }

  lemma WordStart(c: char)
    requires AsciiWord(c)
    ensures !PySpace(c) && c != '{'
  {}

  predicate AllWord(name: string) {
    name != "" && forall i :: 0 <= i < |name| ==> AsciiWord(name[i])
  }

  lemma SpaceThenName(name: string, behind: string)
    requires AllWord(name)
    ensures SpaceRun(" " + (name + behind)) == 1 && name[0] != '{'
  {
    WordStart(name[0]);
    hide PySpace, AsciiWord, SpaceRun;
    assert (name + behind)[0] == name[0];
    OneSpace(name + behind);
  }

  lemma SpaceThenBrace(rest: string)
    ensures SpaceRun(" {" + rest) == 1
  {
    assert !PySpace('{');
    hide PySpace, SpaceRun;
    assert " {" + rest == " " + ("{" + rest);
    OneSpace("{" + rest);
  }

  lemma NamedRun(name: string, rest: string, word: char -> bool)
    requires WordClass(word) && AllWord(name)
    ensures WordRun(name + (" {" + rest), word) == |name|
  {
    SpacesAreNoWord(word);
    hide WordRun, WordClass, PySpace, AsciiWord;
    WordRunIs(name, " {" + rest, word);
  }

  /** The keyword, a space, a name, a space and the brace. */
  lemma NamedAt(h: Heading, s: string, k: nat, w: nat, word: char -> bool)
    requires !h.name.Never? && k == |h.keyword| && h.keyword <= s && w > 0 && k + w + 2 < |s|
    requires SpaceRun(s[k..]) == 1 && s[k + 1] != '{' && WordRun(s[k + 1..], word) == w && SpaceRun(s[k + 1 + w..]) == 1
    requires s[k + w + 2] == '{'
    ensures HeadingAt(h, s, word) == k + w + 3
  {
    hide SpaceRun, WordRun;
  }

  lemma HeadingNamed(h: Heading, name: string, rest: string, word: char -> bool)
    requires !h.name.Never? && WordClass(word) && AllWord(name)
    ensures HeadingAt(h, h.keyword + " " + name + " {" + rest, word) == |h.keyword| + |name| + 3
  {
    var s := h.keyword + " " + name + " {" + rest;
    var k, w, behind := |h.keyword|, |name|, " {" + rest;
    assert w > 0;
    hide SpaceRun, WordRun, WordClass, HeadingAt, AllWord;
    SpaceThenName(name, behind);
    SpaceThenBrace(rest);
    NamedRun(name, rest, word);
    assert s == h.keyword + (" " + (name + behind));
    assert s[k..] == " " + (name + behind) && h.keyword <= s;
    assert s[k + 1..] == name + behind && s[k + 1] == name[0];
    assert s[k + 1 + w..] == behind && s[k + w + 2] == behind[1];
    NamedAt(h, s, k, w, word);
  }

  /** The first block of a heading: everything before it is mute and ends its line. */
  lemma FindsBlock(h: Heading, before: string, heading: string, content: string, rest: string, word: char -> bool)
    requires Mute(h, before, word) && (before == "" || before[|before| - 1] == '\n') && !word('\n')
    requires HeadingAt(h, heading + "{" + content + "}" + rest, word) > 0 && '{' !in heading && Balanced(content)
    ensures var text := before + (heading + "{" + content + "}" + rest);
      && NextMatch(h, text, 0, word) == Some(|before|)
      && MatchAt(h, text, |before|, word) == HeadingAt(h, heading + "{" + content + "}" + rest, word)
      && BlockAt(text, |before|) == Some(Block(|before|, content, |before| + |heading| + |content| + 2))
  {
    hide HeadingAt, Mute, Balanced, BlockAt;
    var tail := heading + "{" + content + "}" + rest;
    var text := before + tail;
    assert "" + before + tail == text;
    NextSkips(h, "", before, tail, word, 0);
    assert text[|before|..] == tail;
    assert |before| > 0 ==> text[|before| - 1] == '\n';
    assert |tail| > 0;
    BlockHere(text, before, heading, content, rest);
  }

  // ---- the shape of the written block

  function ShapePart(m: Mesh): (r: string) {
    "\n" + VectorsText(m.vertices) + FacesText(m.faces)
  }

  function ShadePart(m: Mesh): (r: string) {
    "\n" + VectorsText(m.normals) + FacesText(m.normalFaces)
  }

  function UvPart(m: Mesh): (r: string) {
    "\n" + VectorsText(m.uv)
  }

  function LastPart(m: Mesh): (r: string) {
    "\n" + MaterialText(|m.faces|, |m.skin|) + SkinTexts(m.skin)
  }

  /** The content of the written block: numbers, the two sub-blocks, and the rest. */
  function Content(m: Mesh): (r: string) {
    ShapePart(m) + ("MeshNormals " + "{" + ShadePart(m) + "}" + FromTexture(m))
  }

  function FromTexture(m: Mesh): (r: string) {
    "\n" + ("MeshTextureCoords c1 " + "{" + UvPart(m) + "}" + LastPart(m))
  }

  lemma Literals()
    ensures "Mesh GoblinNative {\n" == "Mesh GoblinNative " + "{" + "\n" && "}\n" == "}" + "\n"
    ensures "MeshNormals {\n" == "MeshNormals " + "{" + "\n"
    ensures "MeshTextureCoords c1 {\n" == "MeshTextureCoords c1 " + "{" + "\n"
  {}

  lemma Regroup(mesh: string, normals: string, texture: string, nl: string, open: string, close: string,
                v: string, f: string, n: string, nf: string, uv: string, mat: string, skins: string)
    ensures (mesh + open + nl) + v + f + (normals + open + nl) + n + nf + (close + nl) + (texture + open + nl) + uv + (close + nl) + mat + skins + (close + nl)
      == mesh + open + ((nl + v + f) + (normals + open + (nl + n + nf) + close + (nl + (texture + open + (nl + uv) + close + (nl + mat + skins))))) + close + nl
  {
    var a, b, c := nl + v + f, nl + n + nf, nl + uv;
    assert (mesh + open + nl) + v + f == mesh + open + a;
    assert mesh + open + a + (normals + open + nl) + n + nf == mesh + open + a + normals + open + b;
    assert mesh + open + a + normals + open + b + (close + nl) + (texture + open + nl) + uv == mesh + open + a + normals + open + b + close + nl + texture + open + c;
    assert mesh + open + a + normals + open + b + close + nl + texture + open + c + (close + nl) + mat + skins + (close + nl)
      == mesh + open + a + normals + open + b + close + nl + texture + open + c + close + (nl + mat + skins) + close + nl;
    assert mesh + open + a + normals + open + b + close + nl + texture + open + c + close + (nl + mat + skins)
      == mesh + open + (a + (normals + open + b + close + (nl + (texture + open + c + close + (nl + mat + skins)))));
  }

  lemma BlockShape(m: Mesh)
    ensures BlockText(m) == "Mesh GoblinNative " + "{" + Content(m) + "}" + "\n"
  {
    hide VectorsText, FacesText, MaterialText, SkinTexts;
    Literals();
    Regroup("Mesh GoblinNative ", "MeshNormals ", "MeshTextureCoords c1 ", "\n", "{", "}",
      VectorsText(m.vertices), FacesText(m.faces), VectorsText(m.normals), FacesText(m.normalFaces), VectorsText(m.uv),
      MaterialText(|m.faces|, |m.skin|), SkinTexts(m.skin));
  }

  lemma TableParts(m: Mesh)
    ensures NumberChars(ShapePart(m)) && NumberChars(ShadePart(m)) && NumberChars(UvPart(m))
    ensures ShapePart(m)[|ShapePart(m)| - 1] == '\n'
  {
    hide NumberChars, VectorsText;
    Separators();
    VectorsChars(m.vertices);
    FacesChars(m.faces);
    VectorsChars(m.normals);
    FacesChars(m.normalFaces);
    VectorsChars(m.uv);
    CharsCat("\n", VectorsText(m.vertices));
    CharsCat("\n" + VectorsText(m.vertices), FacesText(m.faces));
    CharsCat("\n", VectorsText(m.normals));
    CharsCat("\n" + VectorsText(m.normals), FacesText(m.normalFaces));
    CharsCat("\n", VectorsText(m.uv));
    assert FacesText(m.faces)[|FacesText(m.faces)| - 1] == '\n';
  }

  // ---- the blocks behind the tables

  /** The content of a bone's block. */
  function SkinContent(s: Skin): (r: string) {
    "\n" + ("\"" + s.bone + "\";") + SkinNumbers(s)
  }

  /** Everything behind the bone's semicolon. */
  function SkinNumbers(s: Skin): (r: string) {
    var keys := SortedKeys(s.weights.Keys);
    "\n" + IntText(|keys|) + ";\n" + Join(",", IntTexts(keys)) + ";\n" + Join(",", NumberTexts(WeightValues(s))) + ";\n"
    + Join(",", NumberTexts(s.matrix)) + ";;\n"
  }

  lemma SkinLiterals()
    ensures "SkinWeights {\n\"" == "SkinWeights " + "{" + "\n" + "\"" && "\";\n" == "\";" + "\n" && ";;\n}\n" == ";;\n" + "}" + "\n"
  {}

  lemma SkinRegroup(head: string, open: string, nl: string, quote: string, bone: string, stop: string, n: string, i: string,
                    w: string, x: string, sep: string, last: string, close: string)
    ensures (head + open + nl + quote) + bone + (stop + nl) + n + sep + i + sep + w + sep + x + (last + close + nl)
      == head + open + (nl + (quote + bone + stop) + (nl + n + sep + i + sep + w + sep + x + last)) + close + nl
  {
    var body := nl + n + sep + i + sep + w + sep + x + last;
    var q := quote + bone + stop;
    assert (head + open + nl + quote) + bone + (stop + nl) + n == head + open + nl + q + (nl + n);
    assert head + open + nl + q + (nl + n) + sep + i + sep + w + sep + x + (last + close + nl)
        == head + open + nl + q + body + close + nl;
    assert head + open + nl + q + body == head + open + (nl + q + body);
  }

  lemma SkinShape(s: Skin)
    ensures SkinText(s) == "SkinWeights " + "{" + SkinContent(s) + "}" + "\n"
  {
    var keys := SortedKeys(s.weights.Keys);
    hide IntText, Join, IntTexts, NumberTexts, WeightValues;
    SkinLiterals();
    SkinRegroup("SkinWeights ", "{", "\n", "\"", s.bone, "\";", IntText(|keys|), Join(",", IntTexts(keys)),
      Join(",", NumberTexts(WeightValues(s))), Join(",", NumberTexts(s.matrix)), ";\n", ";;\n", "}");
  }

  predicate GoodBone(bone: string) {
    bone != "" && forall i :: 0 <= i < |bone| ==> bone[i] != '"' && bone[i] != ';' && bone[i] != '{' && bone[i] != '}'
  }

  lemma SkinNumbersChars(s: Skin)
    ensures NumberChars(SkinNumbers(s))
  {
    hide NumberChars, IntText, Join, WeightValues;
    var keys := SortedKeys(s.weights.Keys);
    var i, w, x := Join(",", IntTexts(keys)), Join(",", NumberTexts(WeightValues(s))), Join(",", NumberTexts(s.matrix));
    Separators();
    IntChars(|keys|);
    IntsChars(keys);
    NumbersChars(WeightValues(s), ",");
    NumbersChars(s.matrix, ",");
    var t := "\n" + IntText(|keys|) + ";\n";
    CharsCat("\n", IntText(|keys|));
    CharsCat("\n" + IntText(|keys|), ";\n");
    CharsCat(t, i);
    CharsCat(t + i, ";\n");
    CharsCat(t + i + ";\n", w);
    CharsCat(t + i + ";\n" + w, ";\n");
    CharsCat(t + i + ";\n" + w + ";\n", x);
    CharsCat(t + i + ";\n" + w + ";\n" + x, ";;\n");
  }

  lemma SkinsKeyword()
    ensures Keyword(SKINS.keyword) && SKINS.keyword[0] == 'S' && SKINS.keyword[4] == 'W' && |SKINS.keyword| == 11
  {}

  lemma SkinPlain(s: Skin, word: char -> bool)
    requires GoodBone(s.bone) && WordClass(word)
    ensures Balanced(SkinContent(s)) && Mute(SKINS, SkinContent(s) + "}" + "\n", word)
  {
    hide NumberChars, SkinNumbers, Balanced, Mute, WordClass;
    var name := "\"" + s.bone + "\";";
    SkinNumbersChars(s);
    Separators();
    SkinsKeyword();
    NumbersArePlain(SKINS, "\n", word);
    NumbersArePlain(SKINS, SkinNumbers(s), word);
    PlainBalanced(name);
    MuteStopped(SKINS, name, word);
    BalancedCat("\n", name);
    BalancedCat("\n" + name, SkinNumbers(s));
    MuteCat(SKINS, "\n", name, word);
    MuteCat(SKINS, "\n" + name, SkinNumbers(s), word);
    MuteLetters(SKINS, "}", 0, word);
    MuteCat(SKINS, SkinContent(s), "}", word);
    MuteCat(SKINS, SkinContent(s) + "}", "\n", word);
  }

  // ---- the material list

  /** Balanced, and no skin block starts in it. */
  ghost predicate Harmless(s: string, word: char -> bool) {
    Balanced(s) && Mute(SKINS, s, word)
  }

  lemma HarmlessCat(a: string, b: string, word: char -> bool)
    requires Harmless(a, word) && Harmless(b, word)
    ensures Harmless(a + b, word)
  {
    hide Balanced, Mute;
    BalancedCat(a, b);
    MuteCat(SKINS, a, b, word);
  }

  lemma HarmlessNumbers(s: string, word: char -> bool)
    requires NumberChars(s)
    ensures Harmless(s, word)
  {
    hide Balanced, Mute, NumberChars;
    SkinsKeyword();
    NumbersArePlain(SKINS, s, word);
  }

  lemma HarmlessPlain(s: string, k: nat, word: char -> bool)
    requires NoBraces(s) && k < 11 && (k == 0 || (k < |s| && s[k] != SKINS.keyword[k]))
    requires forall i :: (if k == 0 then 0 else 1) <= i < |s| ==> s[i] != 'S'
    ensures Harmless(s, word)
  {
    hide Balanced, Mute;
    SkinsKeyword();
    PlainBalanced(s);
    MuteLetters(SKINS, s, k, word);
  }

  lemma HarmlessBraced(s: string, word: char -> bool)
    requires Harmless(s, word)
    ensures Harmless("{" + s + "}", word)
  {
    hide Balanced, Mute;
    SkinsKeyword();
    BracedBalanced(s);
    MuteLetters(SKINS, "{", 0, word);
    MuteLetters(SKINS, "}", 0, word);
    MuteCat(SKINS, "{", s, word);
    MuteCat(SKINS, "{" + s, "}", word);
  }

  /** The texture of the material, the material, and the list around it. */
  function TextureText(): (r: string) { "{" + "\"Goblin.png\";" + "}" }

  function GoblinText(): (r: string) {
    "Material Goblin" + "Skin " + ("{" + ("1;1;1;1;;0;0;0;0;;0;0;0;;" + "TextureFilename " + TextureText()) + "}") + "\n"
  }

  function ListText(faces: nat): (r: string) {
    "\n1;\n" + IntText(faces) + ";\n" + Join(",", Zeroes(faces)) + ";;\n" + GoblinText()
  }

  function HeaderText(bones: nat): (r: string) {
    "X" + "SkinMeshHeader " + ("{" + ("4;12;" + IntText(bones) + ";") + "}") + "\n"
  }

  lemma MaterialLiterals()
    ensures "MeshMaterialList {\n1;\n" == "MeshMaterialList " + "{" + "\n1;\n"
    ensures "XSkinMeshHeader {4;12;" == "X" + "SkinMeshHeader " + "{" + "4;12;" && ";}\n" == ";" + "}" + "\n"
  {}

  lemma GoblinLiterals()
    ensures "Material GoblinSkin {" == "Material Goblin" + "Skin " + "{" && "TextureFilename {" == "TextureFilename " + "{"
    ensures "}}\n}\n" == "}" + "}" + "\n" + ("}" + "\n")
  {}

  lemma GoblinRegroup(a: string, b: string, open: string, c: string, d: string, e: string, close: string, nl: string)
    ensures (a + b + open) + c + (d + open) + e + (close + close + nl + (close + nl))
      == (a + b + (open + (c + d + (open + e + close)) + close) + nl) + close + nl
  {
    var t := open + e + close;
    assert (a + b + open) + c + (d + open) + e + (close + close + nl + (close + nl)) == a + b + open + (c + d + t) + close + nl + close + nl;
    assert a + b + open + (c + d + t) + close == a + b + (open + (c + d + t) + close);
  }

  lemma GoblinLiteral()
    ensures ("Material GoblinSkin {" + "1;1;1;1;;0;0;0;0;;0;0;0;;" + "TextureFilename {" + "\"Goblin.png\";" + "}}\n}\n")
      == GoblinText() + "}" + "\n"
  {
    GoblinLiterals();
    GoblinRegroup("Material Goblin", "Skin ", "{", "1;1;1;1;;0;0;0;0;;0;0;0;;", "TextureFilename ", "\"Goblin.png\";", "}", "\n");
  }

  lemma MaterialRegroup(list: string, open: string, one: string, n: string, sep: string, zeroes: string, end: string, goblin: string,
                        close: string, nl: string, x: string, header: string, four: string, b: string, stop: string)
    ensures (list + open + one) + n + sep + zeroes + end + (goblin + close + nl) + (x + header + open + four) + b + (stop + close + nl)
      == list + (open + (one + n + sep + zeroes + end + goblin) + close) + nl + (x + header + (open + (four + b + stop) + close) + nl)
  {
    var inner := one + n + sep + zeroes + end + goblin;
    assert (list + open + one) + n + sep + zeroes + end + (goblin + close + nl) == list + open + inner + close + nl;
    var t := list + open + inner + close + nl;
    assert t + (x + header + open + four) + b + (stop + close + nl) == t + x + header + open + (four + b + stop) + close + nl;
    assert t == list + (open + inner + close) + nl;
    assert t + x + header + open + (four + b + stop) + close + nl == t + (x + header + (open + (four + b + stop) + close) + nl);
  }

  lemma MaterialShape(faces: nat, bones: nat)
    ensures MaterialText(faces, bones) == "MeshMaterialList " + ("{" + ListText(faces) + "}") + "\n" + HeaderText(bones)
  {
    hide IntText, Join, GoblinText;
    MaterialLiterals();
    GoblinLiteral();
    MaterialRegroup("MeshMaterialList ", "{", "\n1;\n", IntText(faces), ";\n", Join(",", Zeroes(faces)), ";;\n", GoblinText(),
      "}", "\n", "X", "SkinMeshHeader ", "4;12;", IntText(bones), ";");
  }

  lemma GoblinHarmless(word: char -> bool)
    ensures Harmless(GoblinText(), word)
  {
    hide Harmless;
    HarmlessPlain("\"Goblin.png\";", 0, word);
    HarmlessBraced("\"Goblin.png\";", word);
    assert TextureText() == "{" + "\"Goblin.png\";" + "}";
    HarmlessPlain("TextureFilename ", 0, word);
    HarmlessPlain("1;1;1;1;;0;0;0;0;;0;0;0;;", 0, word);
    HarmlessCat("1;1;1;1;;0;0;0;0;;0;0;0;;", "TextureFilename ", word);
    HarmlessCat("1;1;1;1;;0;0;0;0;;0;0;0;;" + "TextureFilename ", TextureText(), word);
    var inner := "1;1;1;1;;0;0;0;0;;0;0;0;;" + "TextureFilename " + TextureText();
    HarmlessBraced(inner, word);
    HarmlessPlain("Material Goblin", 0, word);
    HarmlessPlain("Skin ", 4, word);
    HarmlessCat("Material Goblin", "Skin ", word);
    HarmlessCat("Material Goblin" + "Skin ", "{" + inner + "}", word);
    HarmlessPlain("\n", 0, word);
    HarmlessCat("Material Goblin" + "Skin " + ("{" + inner + "}"), "\n", word);
  }

  lemma ListHarmless(faces: nat, word: char -> bool)
    ensures Harmless(ListText(faces), word)
  {
    hide Harmless, GoblinText, NumberChars, IntText, Join;
    GoblinHarmless(word);
    var n, zeroes := IntText(faces), Join(",", Zeroes(faces));
    IntChars(faces);
    ZeroesChars(faces);
    HarmlessNumbers(n, word);
    HarmlessNumbers(zeroes, word);
    HarmlessPlain("\n1;\n", 0, word);
    HarmlessPlain(";\n", 0, word);
    HarmlessPlain(";;\n", 0, word);
    HarmlessCat("\n1;\n", n, word);
    HarmlessCat("\n1;\n" + n, ";\n", word);
    HarmlessCat("\n1;\n" + n + ";\n", zeroes, word);
    HarmlessCat("\n1;\n" + n + ";\n" + zeroes, ";;\n", word);
    HarmlessCat("\n1;\n" + n + ";\n" + zeroes + ";;\n", GoblinText(), word);
  }

  lemma ZeroesChars(n: nat)
    ensures NumberChars(Join(",", Zeroes(n)))
  {
    Separators();
    assert NumberChars("0");
    hide NumberChars;
    JoinChars(",", Zeroes(n));
  }

  lemma HeaderHarmless(bones: nat, word: char -> bool)
    ensures Harmless(HeaderText(bones), word)
  {
    hide Harmless, NumberChars, IntText;
    IntChars(bones);
    HarmlessNumbers(IntText(bones), word);
    HarmlessPlain("4;12;", 0, word);
    HarmlessPlain(";", 0, word);
    HarmlessCat("4;12;", IntText(bones), word);
    HarmlessCat("4;12;" + IntText(bones), ";", word);
    var inner := "4;12;" + IntText(bones) + ";";
    HarmlessBraced(inner, word);
    HarmlessPlain("X", 0, word);
    HarmlessPlain("SkinMeshHeader ", 4, word);
    HarmlessPlain("\n", 0, word);
    HarmlessCat("X", "SkinMeshHeader ", word);
    HarmlessCat("X" + "SkinMeshHeader ", "{" + inner + "}", word);
    HarmlessCat("X" + "SkinMeshHeader " + ("{" + inner + "}"), "\n", word);
  }

  lemma MaterialHarmless(faces: nat, bones: nat, word: char -> bool)
    ensures Harmless("\n" + MaterialText(faces, bones), word)
  {
    hide Harmless, ListText, HeaderText, MaterialText;
    MaterialShape(faces, bones);
    ListHarmless(faces, word);
    HeaderHarmless(bones, word);
    HarmlessBraced(ListText(faces), word);
    var list := "{" + ListText(faces) + "}";
    HarmlessPlain("MeshMaterialList ", 0, word);
    HarmlessPlain("\n", 0, word);
    HarmlessCat("MeshMaterialList ", list, word);
    HarmlessCat("MeshMaterialList " + list, "\n", word);
    HarmlessCat("MeshMaterialList " + list + "\n", HeaderText(bones), word);
    HarmlessCat("\n", MaterialText(faces, bones), word);
  }

  // ---- the content as a whole

  ghost predicate GoodBones(skins: seq<Skin>) {
    forall i :: 0 <= i < |skins| ==> GoodBone(skins[i].bone)
  }

  lemma {:induction false} SkinsBalanced(skins: seq<Skin>, word: char -> bool)
    requires GoodBones(skins) && WordClass(word)
    ensures Balanced(SkinTexts(skins))
  {
    hide Balanced, SkinText, GoodBone, WordClass;
    if skins == [] {
      PlainBalanced("");
    } else {
      SkinsBalanced(skins[1..], word);
      SkinBalanced(skins[0], word);
      BalancedCat(SkinText(skins[0]), SkinTexts(skins[1..]));
    }
  }

  lemma SkinBalanced(s: Skin, word: char -> bool)
    requires GoodBone(s.bone) && WordClass(word)
    ensures Balanced(SkinText(s))
  {
    hide Balanced, SkinText, SkinContent, WordClass, GoodBone;
    SkinShape(s);
    SkinPlain(s, word);
    BlockBalanced("SkinWeights ", SkinContent(s), "\n");
  }

  lemma BlockBalanced(heading: string, content: string, rest: string)
    requires NoBraces(heading) && Balanced(content) && (Balanced(rest) || NoBraces(rest))
    ensures Balanced(heading + "{" + content + "}" + rest)
  {
    hide Balanced;
    PlainBalanced(heading);
    if NoBraces(rest) { PlainBalanced(rest); }
    BracedBalanced(content);
    BalancedCat(heading, "{" + content + "}");
    BalancedCat(heading + ("{" + content + "}"), rest);
    assert heading + ("{" + content + "}") + rest == heading + "{" + content + "}" + rest;
  }

  lemma LastBalanced(m: Mesh, word: char -> bool)
    requires GoodBones(m.skin) && WordClass(word)
    ensures Balanced(LastPart(m))
  {
    hide Balanced, Mute, MaterialText, SkinTexts;
    MaterialHarmless(|m.faces|, |m.skin|, word);
    SkinsBalanced(m.skin, word);
    BalancedCat("\n" + MaterialText(|m.faces|, |m.skin|), SkinTexts(m.skin));
  }

  lemma NumbersBalanced(s: string)
    requires NumberChars(s)
    ensures Balanced(s)
  {
    hide Balanced;
    PlainBalanced(s);
  }

  lemma ContentBalanced(m: Mesh, word: char -> bool)
    requires GoodBones(m.skin) && WordClass(word)
    ensures Balanced(Content(m)) && Balanced(ShadePart(m)) && Balanced(UvPart(m))
  {
    hide Balanced, ShapePart, ShadePart, UvPart, LastPart, NumberChars, GoodBones, WordClass;
    TableParts(m);
    NumbersBalanced(ShapePart(m));
    NumbersBalanced(ShadePart(m));
    NumbersBalanced(UvPart(m));
    LastBalanced(m, word);
    PlainBalanced("\n");
    BlockBalanced("MeshTextureCoords c1 ", UvPart(m), LastPart(m));
    BalancedCat("\n", "MeshTextureCoords c1 " + "{" + UvPart(m) + "}" + LastPart(m));
    BlockBalanced("MeshNormals ", ShadePart(m), FromTexture(m));
    BalancedCat(ShapePart(m), "MeshNormals " + "{" + ShadePart(m) + "}" + FromTexture(m));
  }

  /** A heading at the start of a line matches there. */
  lemma MatchesHere(h: Heading, before: string, tail: string, word: char -> bool)
    requires (before == "" || before[|before| - 1] == '\n') && !word('\n') && HeadingAt(h, tail, word) > 0
    ensures var text := before + tail;
      MatchAt(h, text, |before|, word) == HeadingAt(h, tail, word) && NextMatch(h, text, |before|, word) == Some(|before|)
  {
    hide HeadingAt;
    var text := before + tail;
    assert text[|before|..] == tail && |tail| > 0;
    assert |before| > 0 ==> text[|before| - 1] == '\n';
  }

  lemma NormalsHeading(tail: string, word: char -> bool)
    ensures HeadingAt(NORMALS, "MeshNormals " + "{" + tail, word) > 0
  {
    hide HeadingAt;
    HeadingPlain(NORMALS, tail, word);
    assert "MeshNormals " + "{" == NORMALS.keyword + " {";
  }

  lemma NormalsMute(m: Mesh, word: char -> bool)
    ensures Mute(NORMALS, ShapePart(m), word)
  {
    hide ShapePart, Mute, Balanced, NumberChars;
    TableParts(m);
    assert NORMALS.keyword[0] == 'M';
    NumbersArePlain(NORMALS, ShapePart(m), word);
  }

  /** The first block of a heading, with its text split at the right places. */
  lemma FoundBlock(h: Heading, before: string, heading: string, content: string, rest: string, text: string, word: char -> bool)
    requires text == before + (heading + "{" + content + "}" + rest)
    requires Mute(h, before, word) && before != "" && before[|before| - 1] == '\n' && !word('\n')
    requires HeadingAt(h, heading + "{" + (content + "}" + rest), word) > 0 && '{' !in heading && Balanced(content)
    ensures FirstBlock(h, text, word) == Some(Block(|before|, content, |before| + |heading| + |content| + 2))
  {
    hide HeadingAt, Mute, Balanced, NextMatch, MatchAt, BlockAt;
    assert heading + "{" + (content + "}" + rest) == heading + "{" + content + "}" + rest;
    FindsBlock(h, before, heading, content, rest, word);
  }

  lemma FindNormals(m: Mesh, word: char -> bool)
    requires GoodBones(m.skin) && WordClass(word)
    ensures var b := FirstBlock(NORMALS, Content(m), word); b.Some? && b.value.content == ShadePart(m)
  {
    ContentFromNormals(m);
    hide *;
    ContentBalanced(m, word);
    TableParts(m);
    SpacesAreNoWord(word);
    NormalsMute(m, word);
    NoBraceIn();
    NormalsHeading(ShadePart(m) + "}" + FromTexture(m), word);
    FoundBlock(NORMALS, ShapePart(m), "MeshNormals ", ShadePart(m), FromTexture(m), Content(m), word);
  }

  lemma ContentFromNormals(m: Mesh)
    ensures Content(m) == ShapePart(m) + ("MeshNormals " + "{" + ShadePart(m) + "}" + FromTexture(m)) && ShapePart(m) != ""
  {
    hide ShadePart, FromTexture;
  }

  function TextureBefore(m: Mesh): (r: string) {
    ShapePart(m) + "MeshNormals " + "{" + ShadePart(m) + "}" + "\n"
  }

  lemma TextureKeyword()
    ensures TEXTURE.keyword[0] == 'M' && TEXTURE.keyword[4] == 'T' && |TEXTURE.keyword| == 17
  {}

  lemma TextureMute(m: Mesh, word: char -> bool)
    ensures Mute(TEXTURE, TextureBefore(m), word)
  {
    hide ShapePart, ShadePart, Mute, Balanced, NumberChars;
    TextureKeyword();
    TableParts(m);
    NumbersArePlain(TEXTURE, ShapePart(m), word);
    NumbersArePlain(TEXTURE, ShadePart(m), word);
    MuteLetters(TEXTURE, "MeshNormals ", 4, word);
    MuteLetters(TEXTURE, "{", 0, word);
    MuteLetters(TEXTURE, "}", 0, word);
    MuteLetters(TEXTURE, "\n", 0, word);
    MuteCat(TEXTURE, ShapePart(m), "MeshNormals ", word);
    MuteCat(TEXTURE, ShapePart(m) + "MeshNormals ", "{", word);
    MuteCat(TEXTURE, ShapePart(m) + "MeshNormals " + "{", ShadePart(m), word);
    MuteCat(TEXTURE, ShapePart(m) + "MeshNormals " + "{" + ShadePart(m), "}", word);
    MuteCat(TEXTURE, ShapePart(m) + "MeshNormals " + "{" + ShadePart(m) + "}", "\n", word);
  }

  lemma ContentFromTexture(m: Mesh)
    ensures Content(m) == TextureBefore(m) + ("MeshTextureCoords c1 " + "{" + UvPart(m) + "}" + LastPart(m))
  {
    hide ShapePart, ShadePart, UvPart, LastPart;
    var tail := "MeshTextureCoords c1 " + "{" + UvPart(m) + "}" + LastPart(m);
    assert ShapePart(m) + ("MeshNormals " + "{" + ShadePart(m) + "}" + ("\n" + tail)) == TextureBefore(m) + tail;
  }

  lemma TextureHeading(tail: string, word: char -> bool)
    requires WordClass(word)
    ensures HeadingAt(TEXTURE, "MeshTextureCoords c1 " + "{" + tail, word) > 0
  {
    assert AllWord("c1");
    hide HeadingAt, WordClass, AllWord;
    HeadingNamed(TEXTURE, "c1", tail, word);
    assert "MeshTextureCoords c1 " + "{" == TEXTURE.keyword + " " + "c1" + " {";
  }

  lemma TextureLine(m: Mesh)
    ensures var t := TextureBefore(m); t != "" && t[|t| - 1] == '\n'
  {
    hide ShapePart, ShadePart;
  }

  lemma FindTexture(m: Mesh, word: char -> bool)
    requires GoodBones(m.skin) && WordClass(word)
    ensures var b := FirstBlock(TEXTURE, Content(m), word); b.Some? && b.value.content == UvPart(m)
  {
    hide *;
    TextureLine(m);
    ContentBalanced(m, word);
    SpacesAreNoWord(word);
    TextureMute(m, word);
    NoBraceIn();
    ContentFromTexture(m);
    TextureHeading(UvPart(m) + "}" + LastPart(m), word);
    FoundBlock(TEXTURE, TextureBefore(m), "MeshTextureCoords c1 ", UvPart(m), LastPart(m), Content(m), word);
  }

  // ---- the skin blocks

  lemma SkinHeading(tail: string, word: char -> bool)
    ensures HeadingAt(SKINS, "SkinWeights " + "{" + tail, word) == 13
  {
    hide HeadingAt;
    HeadingPlain(SKINS, tail, word);
    assert "SkinWeights " + "{" == SKINS.keyword + " {";
  }

  lemma SameBlocks(h: Heading, text: string, i: nat, j: nat, word: char -> bool)
    requires i <= |text| && j <= |text| && NextMatch(h, text, i, word) == NextMatch(h, text, j, word)
    ensures Blocks(h, text, i, word) == Blocks(h, text, j, word)
  {
    hide NextMatch, MatchAt, BlockAt;
  }

  /** A block at the start of a line is found, and nothing else is found before its end. */
  lemma BlockStep(h: Heading, before: string, heading: string, content: string, rest: string, n: nat, text: string, word: char -> bool)
    requires before != "" && before[|before| - 1] == '\n' && !word('\n') && '{' !in heading && Balanced(content)
    requires text == before + (heading + "{" + content + "}" + rest)
    requires n == |heading| + 1 && HeadingAt(h, heading + "{" + content + "}" + rest, word) == n
    ensures NextMatch(h, text, |before|, word) == Some(|before|) && MatchAt(h, text, |before|, word) == n
    ensures BlockAt(text, |before|) == Some(Block(|before|, content, |before| + n + |content| + 1))
  {
    hide *;
    MatchesHere(h, before, heading + "{" + content + "}" + rest, word);
    BlockHere(text, before, heading, content, rest);
  }

  /** The pieces of a text with an item at the start of a line. */
  lemma ItemPieces(before: string, head: string, content: string, close: string, rest: string, item: string)
    requires item == head + content + "}" + "\n" && close == content + "}" + "\n"
    ensures item + rest == head + content + "}" + ("\n" + rest) && item + rest == head + (close + rest)
    ensures before + (item + rest) == (before + head) + close + rest && before + item == before + head + close
    ensures item[|item| - 1] == '\n' && |item| == |head| + |close|
  {}

  lemma ItemStep(h: Heading, before: string, heading: string, content: string, rest: string, item: string, n: nat, text: string, word: char -> bool)
    requires before != "" && before[|before| - 1] == '\n' && !word('\n') && '{' !in heading && Balanced(content)
    requires item == heading + "{" + content + "}" + "\n" && text == before + (item + rest)
    requires Mute(h, content + "}" + "\n", word)
    requires n == |heading| + 1 && HeadingAt(h, heading + "{" + (content + "}" + "\n" + rest), word) == n
    ensures NextMatch(h, text, |before|, word) == Some(|before|) && MatchAt(h, text, |before|, word) == n
    ensures var b := BlockAt(text, |before|); b.Some? && b.value.content == content
    ensures |before| + n <= |before + item| <= |text|
    ensures NextMatch(h, text, |before| + n, word) == NextMatch(h, text, |before + item|, word)
    ensures var t := before + item; t[|t| - 1] == '\n'
  {
    hide *;
    var head, close := heading + "{", content + "}" + "\n";
    ItemPieces(before, head, content, close, rest, item);
    BlockStep(h, before, heading, content, "\n" + rest, n, text, word);
    SkipBody(h, before + head, close, rest, text, word);
  }

  lemma SkinStep(before: string, s: Skin, rest: string, text: string, word: char -> bool)
    requires before != "" && before[|before| - 1] == '\n' && GoodBone(s.bone) && WordClass(word)
    requires text == before + (SkinText(s) + rest)
    ensures NextMatch(SKINS, text, |before|, word) == Some(|before|) && MatchAt(SKINS, text, |before|, word) == 13
    ensures var b := BlockAt(text, |before|); b.Some? && b.value.content == SkinContent(s)
    ensures |before| + 13 <= |before + SkinText(s)| <= |text|
    ensures NextMatch(SKINS, text, |before| + 13, word) == NextMatch(SKINS, text, |before + SkinText(s)|, word)
    ensures var t := before + SkinText(s); t[|t| - 1] == '\n'
  {
    hide *;
    SkinShape(s);
    SkinPlain(s, word);
    SpacesAreNoWord(word);
    NoBraceIn();
    SkinHeading(SkinContent(s) + "}" + "\n" + rest, word);
    ItemStep(SKINS, before, "SkinWeights ", SkinContent(s), rest, SkinText(s), 13, text, word);
  }

  /** Each bone's block is found, one after the other. */
  lemma {:induction false} SkinBlocks(before: string, skins: seq<Skin>, word: char -> bool)
    requires before != "" && before[|before| - 1] == '\n' && GoodBones(skins) && WordClass(word)
    ensures var bs := Blocks(SKINS, before + SkinTexts(skins), |before|, word);
      bs.Some? && |bs.value| == |skins| && forall i :: 0 <= i < |skins| ==> bs.value[i].content == SkinContent(skins[i])
    decreases |skins|
  {
    hide Balanced, Mute, HeadingAt, MatchAt, NextMatch, BlockAt, SkinText, SkinContent, GoodBone, WordClass, Blocks;
    var text := before + SkinTexts(skins);
    if skins == [] {
      assert text == before;
      NothingBehind(text, word);
    } else {
      var s, rest := skins[0], SkinTexts(skins[1..]);
      SkinStep(before, s, rest, text, word);
      var next := before + SkinText(s);
      assert text == next + rest;
      SameBlocks(SKINS, text, |before| + 13, |next|, word);
      SkinBlocks(next, skins[1..], word);
      BlocksStep(SKINS, text, |before|, word);
      var bs, more := Blocks(SKINS, text, |before|, word), Blocks(SKINS, text, |next|, word);
      assert bs == Some([BlockAt(text, |before|).value] + more.value);
    }
  }

  lemma NothingBehind(text: string, word: char -> bool)
    ensures Blocks(SKINS, text, |text|, word) == Some([])
  {}

  lemma NoBraceIn()
    ensures '{' !in "SkinWeights " && '{' !in "MeshNormals " && '{' !in "MeshTextureCoords c1 " && '{' !in "Mesh GoblinNative "
  {}

  lemma SkipBody(h: Heading, before: string, body: string, rest: string, text: string, word: char -> bool)
    requires Mute(h, body, word) && text == before + body + rest
    ensures NextMatch(h, text, |before|, word) == NextMatch(h, text, |before| + |body|, word)
  {
    hide *;
    NextSkips(h, before, body, rest, word, 0);
  }
}
