/** The image pyramid of the map: what the exporter accepts, what the tracker serves, and what the viewer
    asks for (tools/export_native_map.py, goblin_zomboid/tracker.py, web/app.js). */
module MapPyramid {
  import opened Common

  const LEVELS := 5
  const TILE_LIMIT := 1024 * 1024
  const SIZE_LIMIT := 65536

  function Power(level: nat): (r: nat)
    ensures r > 0
  {
    if level == 0 then 1 else 2 * Power(level - 1)
  }

  /** World units per tile. */
  function Span(level: nat): (r: nat)
    ensures r > 0
  {
    256 * Power(level)
  }

  /** math.ceil(n / d). */
  function Ceil(n: nat, d: nat): (r: nat)
    requires d > 0
  {
    (n + d - 1) / d
  }

  /** An index lies below the rounded-up quotient exactly when its product lies below the number. */
  lemma CeilBound(n: nat, d: nat, x: nat)
    requires d > 0
    ensures x < Ceil(n, d) <==> x * d < n
  {
    var q := Ceil(n, d);
    assert q * d <= n + d - 1 < (q + 1) * d;
    if x < q {
      MulLe(x + 1, q, d);
    } else {
      MulLe(q, x, d);
    }
  }

  lemma MulLe(a: nat, b: nat, d: nat)
    requires a <= b
    ensures a * d <= b * d
  {}

  datatype Key = Key(level: nat, x: nat, y: nat)

  /** A member of the archive, by the shape of its name. */
  datatype Member =
    | Directory
    | Index
    | Tile(level: nat, xText: string, yText: string, size: nat, native: bool)
    | Other

  /** The names the tile pattern matches: one of five levels and two runs of digits. */
  predicate Matched(m: Member) {
    m.Tile? && m.level < LEVELS && m.xText != "" && m.yText != "" && AllDigits(m.xText) && AllDigits(m.yText)
  }

  function KeyOf(m: Member): (k: Key)
    requires Matched(m)
  {
    Key(m.level, NatOf(m.xText), NatOf(m.yText))
  }

  function FileName(m: Member): (r: string)
    requires Matched(m)
  {
    Digits(m.level) + "/tile" + m.xText + "x" + m.yText + ".png"
  }

  predicate Skipped(m: Member) {
    m.Directory? || m.Index?
  }

  predicate InGrid(k: Key, width: nat, height: nat) {
    k.level < LEVELS && k.x < Ceil(width, Span(k.level)) && k.y < Ceil(height, Span(k.level))
  }

  predicate Usable(m: Member, width: nat, height: nat) {
    Matched(m) && m.size <= TILE_LIMIT && InGrid(KeyOf(m), width, height)
  }

  predicate HeaderOk(version: Option<string>, bounds: seq<int>, size: seq<int>) {
    && version == Some("1") && |bounds| >= 2 && bounds[..2] == [0, 0] && size == bounds[2..]
    && |size| == 2 && 0 < size[0] <= SIZE_LIMIT && 0 < size[1] <= SIZE_LIMIT
  }

  /** The header is taken exactly for version 1 and one extent of at most 65536 by 65536 that starts at the origin. */
  lemma HeaderIs(version: Option<string>, bounds: seq<int>, size: seq<int>)
    ensures HeaderOk(version, bounds, size) <==>
      && version == Some("1") && |bounds| == 4 && |size| == 2 && bounds[0] == 0 && bounds[1] == 0
      && bounds[2] == size[0] && bounds[3] == size[1] && 1 <= size[0] <= 65536 && 1 <= size[1] <= 65536
  {
    if |bounds| >= 2 {
      assert bounds[..2] == [bounds[0], bounds[1]];
      assert |bounds| == 4 ==> bounds[2..] == [bounds[2], bounds[3]];
    }
    if |size| == 2 { assert size == [size[0], size[1]]; }
  }

  /** A tile is taken exactly if it has one of five levels, digits for its place, at most 1 MiB, and covers part of the world. */
  lemma UsableIs(m: Member, width: nat, height: nat)
    ensures Usable(m, width, height) <==>
      && m.Tile? && m.level < 5 && m.xText != "" && m.yText != "" && AllDigits(m.xText) && AllDigits(m.yText) && m.size <= 1048576
      && NatOf(m.xText) * (256 * Power(m.level)) < width && NatOf(m.yText) * (256 * Power(m.level)) < height
  {
    if Matched(m) {
      CeilBound(width, Span(m.level), NatOf(m.xText));
      CeilBound(height, Span(m.level), NatOf(m.yText));
    }
    hide Ceil, Power, NatOf, AllDigits;
  }

  /** The tiles by key: every usable member once. */
  ghost predicate Collected(tiles: map<Key, Member>, members: seq<Member>, width: nat, height: nat) {
    && (forall k :: k in tiles ==> Usable(tiles[k], width, height) && KeyOf(tiles[k]) == k && tiles[k] in members)
    && (forall i :: 0 <= i < |members| ==>
          Skipped(members[i]) || (Usable(members[i], width, height) && KeyOf(members[i]) in tiles && tiles[KeyOf(members[i])] == members[i]))
    && forall i, j :: 0 <= i < j < |members| && !Skipped(members[i]) && !Skipped(members[j]) && Matched(members[i]) && Matched(members[j]) ==>
         KeyOf(members[i]) != KeyOf(members[j])
  }

  function LevelKeys(keys: set<Key>, level: nat): (r: set<Key>) {
    set k | k in keys && k.level == level
  }

  /** Every tile of every level's grid. */
  ghost predicate Complete(keys: set<Key>, width: nat, height: nat) {
    forall level: nat, x: nat, y: nat :: InGrid(Key(level, x, y), width, height) ==> Key(level, x, y) in keys
  }

  // ---- counting is enough

  function Column(level: nat, x: nat, rows: nat): (r: set<Key>)
    ensures |r| == rows
    ensures forall k :: k in r <==> k.level == level && k.x == x && k.y < rows
  {
    if rows == 0 then {} else Column(level, x, rows - 1) + {Key(level, x, rows - 1)}
  }

  function Grid(level: nat, columns: nat, rows: nat): (r: set<Key>)
    ensures |r| == columns * rows
    ensures forall k :: k in r <==> k.level == level && k.x < columns && k.y < rows
  {
    if columns == 0 then {}
    else
      var a, b := Grid(level, columns - 1, rows), Column(level, columns - 1, rows);
      assert a !! b;
      assert |a + b| == |a| + |b|;
      assert (columns - 1) * rows + rows == columns * rows;
      a + b
  }

  lemma SubsetOfSameSize(a: set<Key>, b: set<Key>)
    requires a <= b && |a| == |b|
    ensures a == b
  {
    assert |b - a| == 0;
    assert b == a + (b - a);
  }

  /** Distinct tiles within the grid, as many as the grid has places, fill it. */
  lemma CountFillsGrid(keys: set<Key>, level: nat, columns: nat, rows: nat)
    requires forall k :: k in LevelKeys(keys, level) ==> k.x < columns && k.y < rows
    ensures |LevelKeys(keys, level)| == columns * rows <==>
      forall x: nat, y: nat :: x < columns && y < rows ==> Key(level, x, y) in keys
  {
    var mine, grid := LevelKeys(keys, level), Grid(level, columns, rows);
    assert mine <= grid;
    if |mine| == columns * rows {
      SubsetOfSameSize(mine, grid);
      forall x: nat, y: nat | x < columns && y < rows ensures Key(level, x, y) in keys {
        assert Key(level, x, y) in grid;
      }
    }
    if forall x: nat, y: nat :: x < columns && y < rows ==> Key(level, x, y) in keys {
      forall k | k in grid ensures k in mine {
        assert Key(level, k.x, k.y) == k;
      }
      assert mine == grid;
    }
  }

  // ---- the exporter

  method CountLevel(keys: set<Key>, level: nat) returns (n: nat)
    ensures n == |LevelKeys(keys, level)|
  {
    n := 0;
    var todo := keys;
    ghost var seen: set<Key> := {};
    while todo != {}
      invariant seen !! todo && seen + todo == keys
      invariant n == |LevelKeys(seen, level)|
      decreases todo
    {
      var k :| k in todo;
      todo := todo - {k};
      if k.level == level {
        assert LevelKeys(seen + {k}, level) == LevelKeys(seen, level) + {k};
        n := n + 1;
      } else {
        assert LevelKeys(seen + {k}, level) == LevelKeys(seen, level);
      }
      seen := seen + {k};
    }
    assert seen == keys;
  }

  method Collect(members: seq<Member>, width: nat, height: nat) returns (r: Option<map<Key, Member>>)
    ensures r.Some? ==> Collected(r.value, members, width, height)
    ensures forall tiles :: Collected(tiles, members, width, height) ==> r.Some?
  {
    hide Usable, InGrid, NatOf;
    var tiles: map<Key, Member> := map[];
    var i := 0;
    while i < |members|
      invariant 0 <= i <= |members| && Collected(tiles, members[..i], width, height)
    {
      var m := members[i];
      Prefix(members, i, width, height);
      if Skipped(m) {
        SkipOne(tiles, members, i, width, height);
      } else {
        if !Usable(m, width, height) {
          return None;
        }
        UsableMatches(m, width, height);
        var k := KeyOf(m);
        if k in tiles {
          Repeated(tiles, members, i, width, height);
          return None;
        }
        AddOne(tiles, members, i, width, height);
        tiles := tiles[k := m];
      }
      i := i + 1;
    }
    assert members[..i] == members;
    r := Some(tiles);
  }

  lemma UsableMatches(m: Member, width: nat, height: nat)
    requires Usable(m, width, height)
    ensures Matched(m) && InGrid(KeyOf(m), width, height)
  {}

  lemma Prefix(members: seq<Member>, i: nat, width: nat, height: nat)
    requires i < |members|
    ensures forall tiles :: Collected(tiles, members, width, height) ==> Skipped(members[i]) || Usable(members[i], width, height)
  {}

  lemma IgnoredThere(tiles: map<Key, Member>, front: seq<Member>, m: Member, back: seq<Member>, width: nat, height: nat)
    requires Skipped(m) && Collected(tiles, front + [m] + back, width, height)
    ensures Collected(tiles, front + back, width, height)
  {
    var all, less, n := front + [m] + back, front + back, |front|;
    forall k | k in tiles ensures tiles[k] in less {
      UsableMatches(tiles[k], width, height);
      assert tiles[k] in all && tiles[k] != m;
    }
    hide Usable, KeyOf, Skipped, Matched;
    assert forall i :: 0 <= i < |less| ==> less[i] == all[if i < n then i else i + 1];
  }

  lemma IgnoredBack(tiles: map<Key, Member>, front: seq<Member>, m: Member, back: seq<Member>, width: nat, height: nat)
    requires Skipped(m) && Collected(tiles, front + back, width, height)
    ensures Collected(tiles, front + [m] + back, width, height)
  {
    hide Usable, KeyOf, Skipped, Matched;
    var all, less, n := front + [m] + back, front + back, |front|;
    assert all[n] == m;
    assert forall i :: 0 <= i < |all| && i != n ==> all[i] == less[if i < n then i else i - 1];
    forall k | k in tiles ensures tiles[k] in all {
      assert tiles[k] in less;
    }
  }

  /** Directories and the header decide nothing. */
  lemma SkippedIgnored(tiles: map<Key, Member>, front: seq<Member>, m: Member, back: seq<Member>, width: nat, height: nat)
    requires m.Directory? || m.Index?
    ensures Collected(tiles, front + [m] + back, width, height) <==> Collected(tiles, front + back, width, height)
  {
    assert Skipped(m);
    hide Collected;
    if Collected(tiles, front + [m] + back, width, height) { IgnoredThere(tiles, front, m, back, width, height); }
    if Collected(tiles, front + back, width, height) { IgnoredBack(tiles, front, m, back, width, height); }
  }

  lemma SkipOne(tiles: map<Key, Member>, members: seq<Member>, i: nat, width: nat, height: nat)
    requires i < |members| && Collected(tiles, members[..i], width, height) && Skipped(members[i])
    ensures Collected(tiles, members[..i + 1], width, height)
  {
    hide Usable, KeyOf;
    assert members[..i + 1] == members[..i] + [members[i]];
  }

  lemma AddOne(tiles: map<Key, Member>, members: seq<Member>, i: nat, width: nat, height: nat)
    requires i < |members| && Collected(tiles, members[..i], width, height)
    requires !Skipped(members[i]) && Usable(members[i], width, height) && Matched(members[i]) && KeyOf(members[i]) !in tiles
    ensures Collected(tiles[KeyOf(members[i]) := members[i]], members[..i + 1], width, height)
  {
    hide Usable, KeyOf, Matched;
    assert members[..i + 1] == members[..i] + [members[i]];
    var more := tiles[KeyOf(members[i]) := members[i]];
    forall a | 0 <= a < i && !Skipped(members[a]) ensures Matched(members[a]) && KeyOf(members[a]) in tiles {
      assert members[..i][a] == members[a];
      UsableMatches(members[a], width, height);
    }
    assert forall a :: 0 <= a < i ==> members[..i + 1][a] == members[..i][a] == members[a];
  }

  lemma Repeated(tiles: map<Key, Member>, members: seq<Member>, i: nat, width: nat, height: nat)
    requires i < |members| && Collected(tiles, members[..i], width, height)
    requires !Skipped(members[i]) && Matched(members[i]) && KeyOf(members[i]) in tiles
    ensures forall all :: !Collected(all, members, width, height)
  {
    hide Usable, KeyOf;
    var m := tiles[KeyOf(members[i])];
    UsableMatches(m, width, height);
    var a :| 0 <= a < i && members[..i][a] == m;
    assert members[a] == m && Matched(m) && !Skipped(m);
  }

  /** The members decide the tiles. */
  lemma CollectedUnique(a: map<Key, Member>, b: map<Key, Member>, members: seq<Member>, width: nat, height: nat)
    requires Collected(a, members, width, height) && Collected(b, members, width, height)
    ensures a == b
  {
    KeysAgree(a, b, members, width, height);
    KeysAgree(b, a, members, width, height);
    hide Collected;
    assert a.Keys == b.Keys;
  }

  lemma KeysAgree(a: map<Key, Member>, b: map<Key, Member>, members: seq<Member>, width: nat, height: nat)
    requires Collected(a, members, width, height) && Collected(b, members, width, height)
    ensures forall k :: k in a ==> k in b && b[k] == a[k]
  {
    hide Usable, KeyOf;
    forall k | k in a ensures k in b && b[k] == a[k] {
      UsableMatches(a[k], width, height);
      var i :| 0 <= i < |members| && members[i] == a[k];
      assert !Skipped(members[i]);
    }
  }

  /** Everything the exporter checks, in terms of what it means. */
  ghost predicate Exported(tiles: map<Key, Member>, version: Option<string>, bounds: seq<int>, size: seq<int>, members: seq<Member>) {
    && HeaderOk(version, bounds, size) && Collected(tiles, members, size[0], size[1])
    && Complete(tiles.Keys, size[0], size[1]) && forall k :: k in tiles ==> tiles[k].Tile? && tiles[k].native
  }

  /** All five counts as expected means the pyramid has no hole. */
  lemma CountsComplete(keys: set<Key>, width: nat, height: nat, upTo: nat)
    requires upTo <= LEVELS && forall k :: k in keys ==> InGrid(k, width, height)
    ensures (forall level :: 0 <= level < upTo ==> |LevelKeys(keys, level)| == Ceil(width, Span(level)) * Ceil(height, Span(level))) <==>
      (forall level: nat, x: nat, y: nat :: level < upTo && InGrid(Key(level, x, y), width, height) ==> Key(level, x, y) in keys)
  {
    forall level: nat | level < upTo
      ensures |LevelKeys(keys, level)| == Ceil(width, Span(level)) * Ceil(height, Span(level)) <==>
        forall x: nat, y: nat :: InGrid(Key(level, x, y), width, height) ==> Key(level, x, y) in keys
    {
      CountFillsGrid(keys, level, Ceil(width, Span(level)), Ceil(height, Span(level)));
    }
    hide LevelKeys, InGrid, Ceil, Span;
  }

  lemma TilesInGrid(tiles: map<Key, Member>, members: seq<Member>, width: nat, height: nat)
    requires Collected(tiles, members, width, height)
    ensures forall k :: k in tiles ==> InGrid(k, width, height) && tiles[k].Tile?
  {
    hide NatOf, InGrid;
  }

  method CheckCounts(keys: set<Key>, width: nat, height: nat) returns (ok: bool)
    requires forall k :: k in keys ==> InGrid(k, width, height)
    ensures ok <==> Complete(keys, width, height)
  {
    hide LevelKeys, Ceil, Span;
    var level := 0;
    ok := true;
    while level < LEVELS && ok
      invariant 0 <= level <= LEVELS
      invariant ok ==> forall l :: 0 <= l < level ==> |LevelKeys(keys, l)| == Ceil(width, Span(l)) * Ceil(height, Span(l))
      invariant !ok ==> exists l :: 0 <= l < LEVELS && |LevelKeys(keys, l)| != Ceil(width, Span(l)) * Ceil(height, Span(l))
    {
      var n := CountLevel(keys, level);
      ok := n == Ceil(width, Span(level)) * Ceil(height, Span(level));
      level := level + 1;
    }
    CountsComplete(keys, width, height, LEVELS);
  }

  method AllNative(tiles: map<Key, Member>) returns (ok: bool)
    requires forall k :: k in tiles ==> tiles[k].Tile?
    ensures ok <==> forall k :: k in tiles ==> tiles[k].native
  {
    var todo := tiles.Keys;
    while todo != {}
      invariant todo <= tiles.Keys
      invariant forall k :: k in tiles && k !in todo ==> tiles[k].native
      decreases todo
    {
      var k :| k in todo;
      if !tiles[k].native {
        return false;
      }
      todo := todo - {k};
    }
    ok := true;
  }

  /** export: the tiles it writes, or None where the source raises. It accepts exactly the archives whose
      members are distinct tiles of the grid that leave no hole in it; the counts stand for the latter. */
  method Export(outputExists: bool, version: Option<string>, bounds: seq<int>, size: seq<int>, members: seq<Member>)
    returns (r: Option<map<Key, Member>>)
    ensures r.Some? ==> !outputExists && Exported(r.value, version, bounds, size, members)
    ensures forall tiles :: !outputExists && Exported(tiles, version, bounds, size, members) ==> r == Some(tiles)
  {
    hide Collected, Complete, InGrid;
    if outputExists || !HeaderOk(version, bounds, size) {
      return None;
    }
    var width, height := size[0], size[1];
    var tiles := Collect(members, width, height);
    if tiles.None? {
      return None;
    }
    forall other | Exported(other, version, bounds, size, members) ensures other == tiles.value {
      CollectedUnique(other, tiles.value, members, width, height);
    }
    TilesInGrid(tiles.value, members, width, height);
    var complete := CheckCounts(tiles.value.Keys, width, height);
    if !complete {
      return None;
    }
    var native := AllNative(tiles.value);
    if !native {
      return None;
    }
    r := tiles;
  }

  // ---- the tracker

  /** The bounds check on a requested tile; the route pattern allows five levels. */
  predicate InBounds(k: Key, width: nat, height: nat) {
    k.level < LEVELS && 0 <= k.x * Span(k.level) < width && 0 <= k.y * Span(k.level) < height
  }

  lemma InBoundsIsInGrid(k: Key, width: nat, height: nat)
    ensures InBounds(k, width, height) <==> InGrid(k, width, height)
  {
    CeilBound(width, Span(k.level), k.x);
    CeilBound(height, Span(k.level), k.y);
  }

  /** The file the tracker opens for a tile: its numbers without leading zeros. */
  function Asked(k: Key): (r: string) {
    Digits(k.level) + "/tile" + Digits(k.x) + "x" + Digits(k.y) + ".png"
  }

  /** A written name says its numbers the way the tracker asks for them. */
  predicate Canonical(m: Member)
    requires Matched(m)
  {
    m.xText == Digits(NatOf(m.xText)) && m.yText == Digits(NatOf(m.yText))
  }

  ghost predicate Written(tiles: map<Key, Member>, name: string) {
    exists k :: k in tiles && Matched(tiles[k]) && FileName(tiles[k]) == name
  }

  /** status 200: in bounds, and the file is there. */
  ghost predicate Served(k: Key, tiles: map<Key, Member>, width: nat, height: nat) {
    InBounds(k, width, height) && Written(tiles, Asked(k))
  }

  lemma {:induction false} SplitAt(a: string, b: string, s: string, t: string, c: char)
    requires a + [c] + s == b + [c] + t && c !in a && c !in b
    ensures a == b && s == t
  {
    var x, y := a + [c] + s, b + [c] + t;
    assert x[0] == y[0];
    assert if a == "" then x[0] == c else x[0] == a[0] && a[0] in a;
    assert if b == "" then y[0] == c else y[0] == b[0] && b[0] in b;
    if a == "" {
      assert b == "";
      assert s == x[1..] && t == y[1..];
    } else {
      assert b != "";
      assert x[1..] == a[1..] + [c] + s && y[1..] == b[1..] + [c] + t;
      SplitAt(a[1..], b[1..], s, t, c);
      assert a == [a[0]] + a[1..] && b == [b[0]] + b[1..];
    }
  }

  lemma NoLetters(s: string)
    requires AllDigits(s)
    ensures '/' !in s && 'x' !in s && '.' !in s
  {}

  /** Two file names agree only if their numbers are written alike. */
  lemma NamesAgree(a: string, x: string, y: string, b: string, u: string, v: string)
    requires AllDigits(a) && AllDigits(x) && AllDigits(y) && AllDigits(b) && AllDigits(u) && AllDigits(v)
    requires a + "/tile" + x + "x" + y + ".png" == b + "/tile" + u + "x" + v + ".png"
    ensures a == b && x == u && y == v
  {
    NoLetters(a);
    NoLetters(b);
    NoLetters(x);
    NoLetters(u);
    NoLetters(y);
    NoLetters(v);
    hide AllDigits;
    NamePieces(a, x, y);
    NamePieces(b, u, v);
    SplitAt(a, b, "tile" + (x + ['x'] + (y + ['.'] + "png")), "tile" + (u + ['x'] + (v + ['.'] + "png")), '/');
    DropHead("tile", x + ['x'] + (y + ['.'] + "png"), u + ['x'] + (v + ['.'] + "png"));
    SplitAt(x, u, y + ['.'] + "png", v + ['.'] + "png", 'x');
    SplitAt(y, v, "png", "png", '.');
  }

  lemma NamePieces(a: string, x: string, y: string)
    ensures a + "/tile" + x + "x" + y + ".png" == a + ['/'] + ("tile" + (x + ['x'] + (y + ['.'] + "png")))
  {
    assert "/tile" == ['/'] + "tile" && ".png" == ['.'] + "png";
  }

  lemma DropHead(head: string, s: string, t: string)
    requires head + s == head + t
    ensures s == t
  {
    assert s == (head + s)[|head|..] && t == (head + t)[|head|..];
  }

  /** Only the tile itself can have the name the tracker asks for. */
  lemma NameIsOwn(m: Member, k: Key)
    requires Matched(m) && FileName(m) == Asked(k)
    ensures KeyOf(m) == k && m.xText == Digits(k.x) && m.yText == Digits(k.y)
  {
    NamesAgree(Digits(m.level), m.xText, m.yText, Digits(k.level), Digits(k.x), Digits(k.y));
    NatOfDigits(m.level);
    NatOfDigits(k.level);
    NatOfDigits(k.x);
    NatOfDigits(k.y);
    hide Digits;
  }

  lemma CanonicalName(m: Member)
    requires Matched(m) && Canonical(m)
    ensures FileName(m) == Asked(KeyOf(m))
  {
    hide Digits, NatOf;
  }

  lemma CanonicalIf(m: Member)
    requires Matched(m) && m.xText == Digits(KeyOf(m).x) && m.yText == Digits(KeyOf(m).y)
    ensures Canonical(m)
  {
    hide Digits, NatOf;
  }

  /** Of a complete pyramid every tile is served exactly if its name has no leading zeros; one file named
      "tile00x0.png" passes every check of the exporter and is never found. */
  lemma ServedIffCanonical(tiles: map<Key, Member>, members: seq<Member>, width: nat, height: nat, k: Key)
    requires Collected(tiles, members, width, height) && k in tiles
    ensures Matched(tiles[k]) && (Served(k, tiles, width, height) <==> Canonical(tiles[k]))
  {
    hide Usable, InGrid, InBounds, Asked, FileName, Canonical, KeyOf;
    UsableMatches(tiles[k], width, height);
    InBoundsIsInGrid(k, width, height);
    if Canonical(tiles[k]) {
      CanonicalName(tiles[k]);
    }
    if Written(tiles, Asked(k)) {
      var l :| l in tiles && Matched(tiles[l]) && FileName(tiles[l]) == Asked(k);
      NameIsOwn(tiles[l], k);
      CanonicalIf(tiles[l]);
    }
  }

  // ---- the leading zero

  function OneTile(level: nat): (m: Member) {
    Tile(level, if level == 0 then "00" else "0", "0", 1000, true)
  }

  lemma OneTileKey(level: nat)
    requires level < LEVELS
    ensures Matched(OneTile(level)) && KeyOf(OneTile(level)) == Key(level, 0, 0) && Usable(OneTile(level), 1, 1)
  {
    assert NatOf("") == 0;
    assert "0"[..0] == "" && "00"[..1] == "0";
    assert NatOf("0") == 0;
    hide Span;
    CeilBound(1, Span(level), 0);
  }

  function FiveTiles(): (r: map<Key, Member>) {
    map level: nat | level < 5 :: Key(level, 0, 0) := OneTile(level)
  }

  function FiveMembers(): (r: seq<Member>) {
    seq(5, level requires 0 <= level < 5 => OneTile(level))
  }

  lemma FiveAre()
    ensures forall k :: k in FiveTiles() <==> k.level < 5 && k == Key(k.level, 0, 0)
    ensures forall k :: k in FiveTiles() ==> FiveTiles()[k] == OneTile(k.level)
    ensures forall level: nat :: level < 5 ==> FiveMembers()[level] == OneTile(level)
  {
    hide OneTile;
  }

  lemma FiveCollected()
    ensures Collected(FiveTiles(), FiveMembers(), 1, 1)
    ensures forall k :: k in FiveTiles() ==> FiveTiles()[k].Tile? && FiveTiles()[k].native
  {
    FiveAre();
    forall level: nat | level < 5
      ensures Matched(OneTile(level)) && KeyOf(OneTile(level)) == Key(level, 0, 0) && Usable(OneTile(level), 1, 1)
      ensures OneTile(level) in FiveMembers() && !Skipped(OneTile(level)) && OneTile(level).native
    {
      OneTileKey(level);
      assert FiveMembers()[level] in FiveMembers();
    }
    hide Usable, KeyOf, Matched, FiveTiles, OneTile, Skipped;
  }

  lemma FiveComplete()
    ensures Complete(FiveTiles().Keys, 1, 1)
  {
    FiveAre();
    hide FiveTiles, OneTile;
    forall level: nat, x: nat, y: nat | InGrid(Key(level, x, y), 1, 1) ensures Key(level, x, y) in FiveTiles().Keys {
      OnlyZero(level, x);
      OnlyZero(level, y);
    }
  }

  lemma LeadingZero()
    ensures Matched(OneTile(0)) && !Canonical(OneTile(0)) && Key(0, 0, 0) in FiveTiles() && FiveTiles()[Key(0, 0, 0)] == OneTile(0)
  {
    OneTileKey(0);
    assert NatOf("") == 0;
    assert "0"[..0] == "" && "00"[..1] == "0";
    assert NatOf("0") == 0;
    assert Digits(0) == "0";
  }

  /** A pyramid of five single tiles, one of them named with a leading zero, is exported with a hole. */
  lemma LeadingZeroHidden()
    ensures exists tiles, members ::
      Exported(tiles, Some("1"), [0, 0, 1, 1], [1, 1], members) && Key(0, 0, 0) in tiles && !Served(Key(0, 0, 0), tiles, 1, 1)
  {
    assert [0, 0, 1, 1][..2] == [0, 0] && [0, 0, 1, 1][2..] == [1, 1];
    hide FiveTiles, FiveMembers, OneTile, Served, Collected, Complete, Canonical, Matched;
    FiveCollected();
    FiveComplete();
    LeadingZero();
    ServedIffCanonical(FiveTiles(), FiveMembers(), 1, 1, Key(0, 0, 0));
    assert Exported(FiveTiles(), Some("1"), [0, 0, 1, 1], [1, 1], FiveMembers());
  }

  lemma OnlyZero(level: nat, x: nat)
    requires x < Ceil(1, Span(level))
    ensures x == 0
  {
    CeilBound(1, Span(level), x);
    hide Span, Ceil;
    MulLe(1, Span(level), x);
  }
}
