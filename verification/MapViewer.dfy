/** The viewer's camera: which tiles it asks for, and how points go to the screen and back (web/app.js). */
module MapViewer {
  import opened Common
  import opened MapPyramid

  const LEAST_SCALE := 0.025
  const GREATEST_SCALE := 2.5

  datatype Point = Point(x: real, y: real)

  function MinReal(a: real, b: real): (r: real) { if a <= b then a else b }
  function MaxReal(a: real, b: real): (r: real) { if a >= b then a else b }
  function MinInt(a: int, b: int): (r: int) { if a <= b then a else b }
  function MaxInt(a: int, b: int): (r: int) { if a >= b then a else b }

  // ---- levels

  function RealPower(k: int): (r: real)
    ensures r > 0.0
  {
    if k >= 0 then Power(k) as real else 1.0 / Power(-k) as real
  }

  /** From one level to the next the scale doubles, for negative levels too. */
  lemma RealPowerDoubles(k: int)
    ensures RealPower(0) == 1.0 && RealPower(k + 1) == 2.0 * RealPower(k)
  {
    assert Power(0) == 1;
    if k < 0 {
      assert Power(-k) == 2 * Power(-k - 1);
      var p := Power(-k - 1) as real;
      assert p > 0.0;
      assert 1.0 / p == 2.0 * (1.0 / (2.0 * p));
    }
  }

  /** Math.floor(Math.log2(v)). */
  ghost predicate IsLog2Floor(v: real, k: int) {
    RealPower(k) <= v < RealPower(k + 1)
  }

  /** The level for v screen pixels per map pixel, after clamping to 0..4. */
  function LevelOf(v: real): (level: nat)
    ensures level < LEVELS
  {
    if v < 2.0 then 0 else if v < 4.0 then 1 else if v < 8.0 then 2 else if v < 16.0 then 3 else 4
  }

  lemma {:induction false} PowerGrows(a: nat, b: nat)
    requires a <= b
    ensures Power(a) <= Power(b)
    decreases b - a
  {
    if a < b { PowerGrows(a, b - 1); }
  }

  /** Clamping the rounded-down logarithm is comparing with 2, 4, 8 and 16. */
  lemma ClampedLogIsLevel(v: real, k: int)
    requires v > 0.0 && IsLog2Floor(v, k)
    ensures LevelOf(v) == MaxInt(0, MinInt(4, k))
  {
    assert Power(0) == 1 && Power(1) == 2 && Power(2) == 4 && Power(3) == 8 && Power(4) == 16;
    if k >= 4 {
      PowerGrows(4, k);
    } else if k < 0 {
      PowerGrows(0, -k);
      if k < -1 { PowerGrows(0, -(k + 1)); }
    }
  }

  // ---- the layout

  datatype View = View(x: real, y: real, scale: real, width: real, height: real, ratio: real)

  datatype Layout = Layout(level: nat, x0: int, x1: int, y0: int, y1: int)

  function Left(v: View): (r: real)
    requires v.scale > 0.0
  {
    v.x - v.width / (2.0 * v.scale)
  }

  function Right(v: View): (r: real)
    requires v.scale > 0.0
  {
    v.x + v.width / (2.0 * v.scale)
  }

  function Top(v: View): (r: real)
    requires v.scale > 0.0
  {
    v.y - v.height / (2.0 * v.scale)
  }

  function Bottom(v: View): (r: real)
    requires v.scale > 0.0
  {
    v.y + v.height / (2.0 * v.scale)
  }

  /** tileLayout for a pyramid of these world bounds. */
  function TileLayout(v: View, width: nat, height: nat): (r: Layout)
    requires v.scale > 0.0 && v.ratio > 0.0
    ensures r.level < LEVELS
  {
    var level := LevelOf(1.0 / (v.scale * v.ratio));
    var span := Span(level);
    Layout(level,
      MaxInt(0, (Left(v) / span as real).Floor), MinInt(Ceil(width, span) - 1, (Right(v) / span as real).Floor),
      MaxInt(0, (Top(v) / span as real).Floor), MinInt(Ceil(height, span) - 1, (Bottom(v) / span as real).Floor))
  }

  /** drawTiles asks for this tile. */
  predicate Requested(l: Layout, k: Key) {
    k.level == l.level && l.x0 <= k.x <= l.x1 && l.y0 <= k.y <= l.y1
  }

  /** Every tile the viewer asks for is one the tracker's bounds check lets through. */
  lemma RequestedInBounds(v: View, width: nat, height: nat, k: Key)
    requires v.scale > 0.0 && v.ratio > 0.0 && Requested(TileLayout(v, width, height), k)
    ensures InBounds(k, width, height) && InGrid(k, width, height)
  {
    InBoundsIsInGrid(k, width, height);
  }

  lemma LevelBetween(v: real)
    ensures LevelOf(v) > 0 ==> Power(LevelOf(v)) as real <= v
    ensures LevelOf(v) < 4 ==> v < Power(LevelOf(v) + 1) as real
  {
    assert Power(0) == 1 && Power(1) == 2 && Power(2) == 4 && Power(3) == 8 && Power(4) == 16;
  }

  /** Pixels of the display for one unit of the world. */
  function DisplayPixels(v: View): (r: real) {
    v.scale * v.ratio
  }

  /** The level is the coarsest of which a pixel of the image is no larger than a pixel of the display. */
  lemma LevelFits(v: View, width: nat, height: nat)
    requires v.scale > 0.0 && v.ratio > 0.0
    ensures var level := TileLayout(v, width, height).level;
      && (level > 0 ==> Power(level) as real * DisplayPixels(v) <= 1.0)
      && (level < 4 ==> Power(level + 1) as real * DisplayPixels(v) > 1.0)
  {
    var level, display := TileLayout(v, width, height).level, DisplayPixels(v);
    assert display > 0.0 && level == LevelOf(1.0 / display);
    LevelBetween(1.0 / display);
    hide LevelOf, TileLayout, Power, DisplayPixels;
    Reciprocal(Power(level) as real, display);
    Reciprocal(Power(level + 1) as real, display);
  }

  lemma Reciprocal(p: real, d: real)
    requires d > 0.0
    ensures p <= 1.0 / d ==> p * d <= 1.0
    ensures 1.0 / d < p ==> p * d > 1.0
  {
    assert 1.0 / d * d == 1.0;
    if p <= 1.0 / d { MulReal(p, 1.0 / d, d); } else { MulStrict(1.0 / d, p, d); }
  }

  lemma LayoutBounds(v: View, width: nat, height: nat, k: Key)
    requires v.scale > 0.0 && v.ratio > 0.0 && Requested(TileLayout(v, width, height), k)
    ensures (Left(v) / Span(k.level) as real).Floor <= k.x <= (Right(v) / Span(k.level) as real).Floor
    ensures (Top(v) / Span(k.level) as real).Floor <= k.y <= (Bottom(v) / Span(k.level) as real).Floor
  {
    hide Left, Right, Top, Bottom, LevelOf, Ceil, Span;
  }

  /** The k-th stretch of this length has a point between low and high. */
  predicate Meets(low: real, k: nat, high: real, d: real) {
    k as real * d <= high && low < (k + 1) as real * d
  }

  lemma AxisMeets(low: real, k: nat, high: real, d: real)
    requires d > 0.0 && (low / d).Floor <= k <= (high / d).Floor
    ensures Meets(low, k, high, d)
  {
    FloorTimes(low, d);
    FloorTimes(high, d);
    MulReal(k as real, (high / d).Floor as real, d);
    MulReal(((low / d).Floor + 1) as real, (k + 1) as real, d);
  }

  /** No tile is asked for that lies outside of what the viewport shows. */
  lemma RequestedMeetsViewport(v: View, width: nat, height: nat, k: Key)
    requires v.scale > 0.0 && v.ratio > 0.0 && Requested(TileLayout(v, width, height), k)
    ensures Meets(Left(v), k.x, Right(v), Span(k.level) as real) && Meets(Top(v), k.y, Bottom(v), Span(k.level) as real)
  {
    LayoutBounds(v, width, height, k);
    hide Left, Right, Top, Bottom, Span, TileLayout, Requested, Meets;
    AxisMeets(Left(v), k.x, Right(v), Span(k.level) as real);
    AxisMeets(Top(v), k.y, Bottom(v), Span(k.level) as real);
  }

  lemma FloorBetween(p: real, q: real, span: nat)
    requires p <= q && span > 0
    ensures (p / span as real).Floor <= (q / span as real).Floor
  {
    DivLe(p, q, span as real);
  }

  lemma DivLe(p: real, q: real, d: real)
    requires p <= q && d > 0.0
    ensures p / d <= q / d
  {
    assert (q - p) / d >= 0.0;
    assert q / d == p / d + (q - p) / d;
  }

  lemma TimesBetween(low: real, q: real, high: real, d: real, p: real)
    requires low <= q < high && d > 0.0 && q == p / d
    ensures low * d <= p < high * d
  {
    assert q * d == p;
    MulReal(low, q, d);
    MulStrict(q, high, d);
  }

  lemma FloorTimes(p: real, d: real)
    requires d > 0.0
    ensures (p / d).Floor as real * d <= p < ((p / d).Floor + 1) as real * d
  {
    var q := p / d;
    TimesBetween(q.Floor as real, q, (q.Floor + 1) as real, d, p);
  }

  lemma WholeProduct(a: int, b: nat)
    ensures a as real * b as real == (a * b) as real
  {}

  lemma FloorOfPositive(p: real, d: real)
    requires p >= 0.0 && d > 0.0
    ensures (p / d).Floor >= 0
  {
    DivLe(0.0, p, d);
    assert 0.0 / d == 0.0;
  }

  /** A coordinate inside the world falls on a tile index inside the grid. */
  lemma OnGrid(p: real, n: nat, span: nat)
    requires 0.0 <= p < n as real && span > 0
    ensures 0 <= (p / span as real).Floor < Ceil(n, span)
    ensures (p / span as real).Floor as real * span as real <= p < ((p / span as real).Floor + 1) as real * span as real
  {
    hide Ceil;
    var f := (p / span as real).Floor;
    FloorTimes(p, span as real);
    FloorOfPositive(p, span as real);
    WholeProduct(f, span);
    CeilBound(n, span, f);
  }

  lemma MulReal(a: real, b: real, d: real)
    requires a <= b && d > 0.0
    ensures a * d <= b * d
  {}

  lemma MulStrict(a: real, b: real, d: real)
    requires a < b && d > 0.0
    ensures a * d < b * d
  {}

  /** One axis: the tile under a shown coordinate is within the requested range. */
  lemma AxisCovered(low: real, p: real, high: real, n: nat, span: nat) returns (t: nat)
    requires low <= p <= high && 0.0 <= p < n as real && span > 0
    ensures MaxInt(0, (low / span as real).Floor) <= t <= MinInt(Ceil(n, span) - 1, (high / span as real).Floor)
    ensures t as real * span as real <= p < (t + 1) as real * span as real
  {
    hide Ceil;
    OnGrid(p, n, span);
    FloorBetween(low, p, span);
    FloorBetween(p, high, span);
    t := (p / span as real).Floor;
  }

  ghost predicate Shows(k: Key, p: Point) {
    var span := Span(k.level) as real;
    k.x as real * span <= p.x < (k.x + 1) as real * span && k.y as real * span <= p.y < (k.y + 1) as real * span
  }

  /** Every point of the world that the viewport shows lies on a requested tile. */
  lemma ViewportCovered(v: View, width: nat, height: nat, p: Point)
    requires v.scale > 0.0 && v.ratio > 0.0
    requires 0.0 <= p.x < width as real && 0.0 <= p.y < height as real
    requires Left(v) <= p.x <= Right(v) && Top(v) <= p.y <= Bottom(v)
    ensures exists k: Key :: Requested(TileLayout(v, width, height), k) && Shows(k, p)
  {
    hide Ceil, Span, LevelOf, Left, Right, Top, Bottom, MaxInt, MinInt;
    var l := TileLayout(v, width, height);
    TileFound(v, width, height, p, l);
  }

  lemma TileFound(v: View, width: nat, height: nat, p: Point, l: Layout)
    requires v.scale > 0.0 && 0.0 <= p.x < width as real && 0.0 <= p.y < height as real
    requires Left(v) <= p.x <= Right(v) && Top(v) <= p.y <= Bottom(v)
    requires l.x0 == MaxInt(0, (Left(v) / Span(l.level) as real).Floor)
    requires l.x1 == MinInt(Ceil(width, Span(l.level)) - 1, (Right(v) / Span(l.level) as real).Floor)
    requires l.y0 == MaxInt(0, (Top(v) / Span(l.level) as real).Floor)
    requires l.y1 == MinInt(Ceil(height, Span(l.level)) - 1, (Bottom(v) / Span(l.level) as real).Floor)
    ensures exists k: Key :: Requested(l, k) && Shows(k, p)
  {
    hide Ceil, Span, LevelOf, Left, Right, Top, Bottom, MaxInt, MinInt;
    var x := AxisCovered(Left(v), p.x, Right(v), width, Span(l.level));
    var y := AxisCovered(Top(v), p.y, Bottom(v), height, Span(l.level));
    ShownTile(l, p, x, y);
  }

  lemma ShownTile(l: Layout, p: Point, x: nat, y: nat)
    requires l.x0 <= x <= l.x1 && l.y0 <= y <= l.y1
    requires var span := Span(l.level) as real;
      x as real * span <= p.x < (x + 1) as real * span && y as real * span <= p.y < (y + 1) as real * span
    ensures exists k: Key :: Requested(l, k) && Shows(k, p)
  {
    hide Span;
    var k := Key(l.level, x, y);
    assert Requested(l, k) && Shows(k, p);
  }

  /** With an exported pyramid whose names have no leading zeros, every requested tile is served. */
  lemma RequestedIsServed(v: View, tiles: map<Key, Member>, members: seq<Member>, width: nat, height: nat, k: Key)
    requires v.scale > 0.0 && v.ratio > 0.0 && Requested(TileLayout(v, width, height), k)
    requires Collected(tiles, members, width, height) && Complete(tiles.Keys, width, height)
    requires forall l :: l in tiles ==> Matched(tiles[l]) && Canonical(tiles[l])
    ensures Served(k, tiles, width, height)
  {
    RequestedInBounds(v, width, height, k);
    hide TileLayout, Collected, Canonical, InBounds, InGrid;
    assert Key(k.level, k.x, k.y) == k;
    ServedIffCanonical(tiles, members, width, height, k);
  }

  // ---- the camera

  function ScreenPoint(v: View, p: Point): (r: Point) {
    Point((p.x - v.x) * v.scale + v.width / 2.0, (p.y - v.y) * v.scale + v.height / 2.0)
  }

  function WorldPoint(v: View, p: Point): (r: Point)
    requires v.scale > 0.0
  {
    Point(v.x + (p.x - v.width / 2.0) / v.scale, v.y + (p.y - v.height / 2.0) / v.scale)
  }

  lemma ScreenWorldInverse(v: View, p: Point)
    requires v.scale > 0.0
    ensures WorldPoint(v, ScreenPoint(v, p)) == p && ScreenPoint(v, WorldPoint(v, p)) == p
  {
    assert (p.x - v.x) * v.scale / v.scale == p.x - v.x && (p.y - v.y) * v.scale / v.scale == p.y - v.y;
    assert (p.x - v.width / 2.0) / v.scale * v.scale == p.x - v.width / 2.0;
    assert (p.y - v.height / 2.0) / v.scale * v.scale == p.y - v.height / 2.0;
  }

  /** The viewport's edges are where the screen's corners lie in the world. */
  lemma ScreenIsViewport(v: View, p: Point)
    requires v.scale > 0.0 && 0.0 <= p.x <= v.width && 0.0 <= p.y <= v.height
    ensures var q := WorldPoint(v, p); Left(v) <= q.x <= Right(v) && Top(v) <= q.y <= Bottom(v)
  {
    HalfWidth(p.x, v.width, v.scale);
    HalfWidth(p.y, v.height, v.scale);
  }

  /** The middle of the screen shows the place of the camera, distances are multiplied by the scale, and the viewport reaches
      exactly from one edge of the screen to the other. */
  lemma EdgesAre(v: View, p: Point, q: Point)
    requires v.scale > 0.0
    ensures ScreenPoint(v, Point(v.x, v.y)) == Point(v.width / 2.0, v.height / 2.0)
    ensures ScreenPoint(v, p).x - ScreenPoint(v, q).x == (p.x - q.x) * v.scale && ScreenPoint(v, p).y - ScreenPoint(v, q).y == (p.y - q.y) * v.scale
    ensures Point(Left(v), Top(v)) == WorldPoint(v, Point(0.0, 0.0)) && Point(Right(v), Bottom(v)) == WorldPoint(v, Point(v.width, v.height))
  {
    Halves(v.width, v.scale);
    Halves(v.height, v.scale);
    assert (p.x - v.x) * v.scale - (q.x - v.x) * v.scale == (p.x - q.x) * v.scale;
    assert (p.y - v.y) * v.scale - (q.y - v.y) * v.scale == (p.y - q.y) * v.scale;
  }

  lemma Halves(n: real, d: real)
    requires d > 0.0
    ensures (0.0 - n / 2.0) / d == -(n / (2.0 * d)) && (n - n / 2.0) / d == n / (2.0 * d)
  {
    assert n / (2.0 * d) == n / 2.0 / d;
    assert n - n / 2.0 == n / 2.0;
  }

  lemma HalfWidth(p: real, n: real, d: real)
    requires 0.0 <= p <= n && d > 0.0
    ensures -(n / (2.0 * d)) <= (p - n / 2.0) / d <= n / (2.0 * d)
  {
    assert n / (2.0 * d) == n / 2.0 / d;
    DivLe(-(n / 2.0), p - n / 2.0, d);
    DivLe(p - n / 2.0, n / 2.0, d);
    assert -(n / 2.0) / d == -(n / 2.0 / d);
  }

  /** End to end: wherever the screen shows a point of the world, a tile that shows it is asked for and served. */
  lemma ScreenIsDrawn(v: View, tiles: map<Key, Member>, members: seq<Member>, width: nat, height: nat, p: Point)
    requires v.scale > 0.0 && v.ratio > 0.0 && 0.0 <= p.x <= v.width && 0.0 <= p.y <= v.height
    requires var q := WorldPoint(v, p); 0.0 <= q.x < width as real && 0.0 <= q.y < height as real
    requires Collected(tiles, members, width, height) && Complete(tiles.Keys, width, height)
    requires forall l :: l in tiles ==> Matched(tiles[l]) && Canonical(tiles[l])
    ensures exists k: Key ::
      Requested(TileLayout(v, width, height), k) && Shows(k, WorldPoint(v, p)) && Served(k, tiles, width, height)
  {
    ScreenIsViewport(v, p);
    hide WorldPoint, TileLayout, Left, Right, Top, Bottom, Collected, Complete, Canonical, Served, Shows;
    ViewportCovered(v, width, height, WorldPoint(v, p));
    var k: Key :| Requested(TileLayout(v, width, height), k) && Shows(k, WorldPoint(v, p));
    hide Requested;
    RequestedIsServed(v, tiles, members, width, height, k);
  }

  class Camera {
    var x: real
    var y: real
    var scale: real
    var width: real
    var height: real
    var ratio: real

    function Now(): (r: View)
      reads this
    {
      View(x, y, scale, width, height, ratio)
    }

    /** zoom: the scale is multiplied and clamped, and the world point under the anchor stays under it. */
    method Zoom(factor: real, anchor: Option<Point>)
      requires scale > 0.0
      modifies this`x, this`y, this`scale
      ensures scale == MaxReal(LEAST_SCALE, MinReal(GREATEST_SCALE, old(scale) * factor))
      ensures LEAST_SCALE <= scale <= GREATEST_SCALE
      ensures var a := if anchor.Some? then anchor.value else Point(width / 2.0, height / 2.0);
        WorldPoint(Now(), a) == old(WorldPoint(Now(), if anchor.Some? then anchor.value else Point(width / 2.0, height / 2.0)))
    {
      var a := if anchor.Some? then anchor.value else Point(width / 2.0, height / 2.0);
      var before := WorldPoint(Now(), a);
      scale := MaxReal(LEAST_SCALE, MinReal(GREATEST_SCALE, scale * factor));
      var after := WorldPoint(Now(), a);
      x := x + (before.x - after.x);
      y := y + (before.y - after.y);
    }
  }
}
