/** Overlapping layers on a screen: what the map and the picture of src/video/framebuffer.c should be. */
module Layers {
  import opened Sets

  /** `struct FrameBufferLayer`; `pixels` are the rows of the buffer. */
  datatype Layer = Layer(x: nat, y: nat, width: nat, height: nat, pixels: seq<seq<int>>)

  datatype Rect = Rect(x0: nat, y0: nat, x1: nat, y1: nat)

  predicate Covers(l: Layer, x: nat, y: nat) {
    l.x <= x < l.x + l.width && l.y <= y < l.y + l.height
  }

  predicate In(r: Rect, x: nat, y: nat) {
    r.x0 <= x < r.x1 && r.y0 <= y < r.y1
  }

  function Max(a: nat, b: nat): nat {
    if a < b then b else a
  }

  function Min(a: nat, b: nat): nat {
    if a < b then a else b
  }

  /** The part of a layer inside `r`: what `frameBufferRefreshMap` clips it to. */
  function Clip(l: Layer, r: Rect): Rect {
    Rect(Max(l.x, r.x0), Max(l.y, r.y0), Min(l.x + l.width, r.x1), Min(l.y + l.height, r.y1))
  }

  predicate Meets(l: Layer, r: Rect) {
    var c := Clip(l, r);
    c.x0 < c.x1 && c.y0 < c.y1
  }

  lemma ClipIsIntersection(l: Layer, r: Rect, x: nat, y: nat)
    ensures In(Clip(l, r), x, y) <==> Covers(l, x, y) && In(r, x, y)
    ensures Covers(l, x, y) && In(r, x, y) ==> Meets(l, r)
  {
  }

  /** The number of the topmost layer at a pixel, -1 if there is none. */
  function Top(layers: seq<Layer>, x: nat, y: nat): (t: int)
    ensures -1 <= t < |layers|
  {
    var n := |layers| - 1;
    if n < 0 then -1 else if Covers(layers[n], x, y) then n else Top(layers[..n], x, y)
  }

  lemma {:induction false} TopIsTopmost(layers: seq<Layer>, x: nat, y: nat)
    ensures var t := Top(layers, x, y);
            && (t >= 0 ==> Covers(layers[t], x, y))
            && forall k | t < k < |layers| :: !Covers(layers[k], x, y)
  {
    if layers != [] && !Covers(layers[|layers| - 1], x, y) {
      TopIsTopmost(layers[..|layers| - 1], x, y);
    }
  }

  lemma {:induction false} TopDepends(a: seq<Layer>, b: seq<Layer>, x: nat, y: nat)
    requires |a| == |b| && forall k | 0 <= k < |a| :: Covers(a[k], x, y) == Covers(b[k], x, y)
    ensures Top(a, x, y) == Top(b, x, y)
  {
    if a != [] {
      TopDepends(a[..|a| - 1], b[..|b| - 1], x, y);
    }
  }

  lemma TopOfAppend(layers: seq<Layer>, l: Layer, x: nat, y: nat)
    ensures Top(layers + [l], x, y) == if Covers(l, x, y) then |layers| else Top(layers, x, y)
  {
    assert (layers + [l])[..|layers|] == layers;
  }

  /** The painter's algorithm: the colour after all layers are painted in order over `background`. */
  function Paint(layers: seq<Layer>, x: nat, y: nat, background: int): int {
    var n := |layers| - 1;
    if n < 0 then background
    else
      var below := Paint(layers[..n], x, y, background);
      var l := layers[n];
      if Covers(l, x, y) && BufferOk(l) then l.pixels[y - l.y][x - l.x] else below
  }

  predicate BufferOk(l: Layer) {
    |l.pixels| == l.height && forall k | 0 <= k < l.height :: |l.pixels[k]| == l.width
  }

  predicate BuffersOk(layers: seq<Layer>) {
    forall k | 0 <= k < |layers| :: BufferOk(layers[k])
  }

  /** Painting shows the pixel of the topmost layer. */
  lemma {:induction false} PaintShowsTop(layers: seq<Layer>, x: nat, y: nat, background: int)
    requires BuffersOk(layers) && Top(layers, x, y) >= 0
    ensures var l := layers[Top(layers, x, y)];
            Covers(l, x, y) && Paint(layers, x, y, background) == l.pixels[y - l.y][x - l.x]
  {
    var n := |layers| - 1;
    if !Covers(layers[n], x, y) {
      PaintShowsTop(layers[..n], x, y, background);
    }
  }

  /** The layers of a screen: the main layer covers it, all others lie inside. */
  ghost predicate LayersFit(layers: seq<Layer>, width: nat, height: nat) {
    && layers != [] && BuffersOk(layers)
    && layers[0].x == layers[0].y == 0 && layers[0].width == width && layers[0].height == height
    && forall k | 0 <= k < |layers| :: layers[k].x + layers[k].width <= width && layers[k].y + layers[k].height <= height
  }

  // ----- Numbers of layers -----

  /** The number `frameBufferRefreshMap` writes for layer `k`: it only counts layers that meet the rectangle. */
  function Rank(layers: seq<Layer>, r: Rect, k: nat): (n: nat)
    requires k <= |layers|
    ensures n <= k
  {
    if k == 0 then 0 else Rank(layers, r, k - 1) + if Meets(layers[k - 1], r) then 1 else 0
  }

  ghost predicate AllMeet(layers: seq<Layer>, r: Rect, k: nat)
    requires k <= |layers|
  {
    forall j | 0 <= j < k :: Meets(layers[j], r)
  }

  /** The number is right exactly if no lower layer is skipped. */
  lemma {:induction false} RankRightIff(layers: seq<Layer>, r: Rect, k: nat)
    requires k <= |layers|
    ensures Rank(layers, r, k) == k <==> AllMeet(layers, r, k)
  {
    if k > 0 {
      RankRightIff(layers, r, k - 1);
      assert AllMeet(layers, r, k) <==> AllMeet(layers, r, k - 1) && Meets(layers[k - 1], r);
    }
  }

  /** Wherever a layer shows in `r`, all layers below it meet `r`; pixels of `s` do not matter. */
  ghost predicate NoneSkipped(layers: seq<Layer>, r: Rect, s: Rect) {
    forall x: nat, y: nat | In(r, x, y) && !In(s, x, y) && Top(layers, x, y) >= 0 :: AllMeet(layers, r, Top(layers, x, y))
  }

  // ----- Spans of a row -----

  /** The next multiple of four. */
  function Ceil4(x: nat): (c: nat)
    ensures x <= c < x + 4 && c % 4 == 0
  {
    if x % 4 == 0 then x else x + 4 - x % 4
  }

  /** Every clipped layer is wide enough to reach a multiple of four. */
  ghost predicate SpansOk(layers: seq<Layer>, r: Rect) {
    forall k | 0 <= k < |layers| && Meets(layers[k], r) :: Ceil4(Clip(layers[k], r).x0) <= Clip(layers[k], r).x1
  }

  const TWO32: nat := 0x1_0000_0000

  /** `n` columns from `x` on. */
  function Run(x: nat, n: nat): set<nat> {
    set c: nat | c < x + n && From(x, c)
  }

  predicate From(x: nat, c: nat) {
    x <= c
  }

  /** A column number of 32 bits has run from `vx` to the unwrapped position `p`; these are the columns it met. */
  ghost predicate Reached(columns: set<nat>, vx: nat, p: nat) {
    forall c: nat :: c in columns <==> c < TWO32 && (vx <= c < p || c + TWO32 < p)
  }

  /** Where the column number stops: at `vx0`, but one round later if it has already passed it. */
  function SpanEnd(vx: nat, vx0: nat): nat {
    if Ceil4(vx) <= vx0 then vx0 else vx0 + TWO32
  }

  /** A sum or difference of two unsigned 32-bit numbers. */
  function Wrap(a: int): nat
    requires 0 <= a + TWO32 && a < 2 * TWO32
  {
    if a < 0 then a + TWO32 else if a < TWO32 then a else a - TWO32
  }

  lemma WrapIsModulo(a: int)
    requires 0 <= a + TWO32 && a < 2 * TWO32
    ensures Wrap(a) == a % TWO32
  {
    assert (a - Wrap(a)) % TWO32 == 0;
  }

  lemma NextColumn(columns: set<nat>, vx: nat, p: nat, n: nat)
    requires vx <= p && p + n < 2 * TWO32 && vx < TWO32 && Wrap(p) + n <= TWO32 && Reached(columns, vx, p)
    ensures Reached(columns + Run(Wrap(p), n), vx, p + n)
  {
  }

  /** `vx0 - x`. */
  function Left(vx0: nat, x: nat): nat
    requires vx0 < TWO32 && x < TWO32
  {
    Wrap(vx0 - x)
  }

  /** The loops have come to column `x`, at the unwrapped position `p`. */
  ghost predicate SpanAt(columns: set<nat>, vx: nat, vx0: nat, x: nat, p: nat) {
    vx < vx0 < TWO32 && vx <= p <= SpanEnd(vx, vx0) && x == Wrap(p) && Reached(columns, vx, p)
  }

  /** Behind the first loop: the guards tell the distance to the end. */
  ghost predicate SpanLeft(columns: set<nat>, vx: nat, vx0: nat, x: nat) {
    && vx < vx0 < TWO32 && x < TWO32
    && var p := SpanEnd(vx, vx0) - Left(vx0, x);
       p >= Ceil4(vx) && SpanAt(columns, vx, vx0, x, p)
  }

  /** `n` pixels are written. */
  method WriteColumns(columns: set<nat>, ghost vx: nat, vx0: nat, x: nat, n: nat) returns (columns': set<nat>, x': nat)
    requires SpanLeft(columns, vx, vx0, x) && n <= Left(vx0, x) && x + n <= TWO32
    ensures SpanLeft(columns', vx, vx0, x') && x' == Wrap(x + n) && Left(vx0, x') == Left(vx0, x) - n
  {
    NextColumn(columns, vx, SpanEnd(vx, vx0) - Left(vx0, x), n);
    columns' := columns + Run(x, n);
    x' := Wrap(x + n);
  }

  /** The three loops over one row, with their 32-bit arithmetic: the columns they write. A span that reaches
      a multiple of four is written and nothing else; any other span overwrites every column there is. */
  method SpanColumns(vx: nat, vx0: nat) returns (columns: set<nat>)
    requires vx < vx0 < TWO32
    ensures Ceil4(vx) <= vx0 <==> columns == Run(vx, vx0 - vx)
    ensures Ceil4(vx) > vx0 <==> columns == Run(0, TWO32)
  {
    var x: nat;
    columns, x := AlignColumns(vx, vx0);
    columns, x := FillFours(columns, vx, vx0, x);
    while Left(vx0, x) != 0
      invariant SpanLeft(columns, vx, vx0, x)
      decreases Left(vx0, x)
    {
      columns, x := WriteColumns(columns, vx, vx0, x, 1);
    }
    AllReached(columns, vx, vx0);
  }

  /** The loop up to a multiple of four. */
  method AlignColumns(vx: nat, ghost vx0: nat) returns (columns: set<nat>, x: nat)
    requires vx < vx0 < TWO32
    ensures SpanLeft(columns, vx, vx0, x) && x % 4 == 0
  {
    columns, x := {}, vx;
    ghost var p: nat := vx;
    while x % 4 != 0
      invariant vx <= p <= Ceil4(vx) && p % 4 == x % 4 && SpanAt(columns, vx, vx0, x, p)
      decreases Ceil4(vx) - p
    {
      NextColumn(columns, vx, p, 1);
      columns := columns + Run(x, 1);
      x, p := Wrap(x + 1), p + 1;
    }
  }

  /** The loop that writes four pixels at a time. */
  method FillFours(columns0: set<nat>, ghost vx: nat, vx0: nat, x0: nat) returns (columns: set<nat>, x: nat)
    requires SpanLeft(columns0, vx, vx0, x0) && x0 % 4 == 0
    ensures SpanLeft(columns, vx, vx0, x)
  {
    columns, x := columns0, x0;
    while Left(vx0, x) >= 4
      invariant SpanLeft(columns, vx, vx0, x) && x % 4 == 0
      decreases Left(vx0, x)
    {
      FourFit(x);
      columns, x := WriteColumns(columns, vx, vx0, x, 4);
    }
  }

  lemma FourFit(x: nat)
    requires x % 4 == 0 && x < TWO32
    ensures x + 4 <= TWO32 && Wrap(x + 4) % 4 == 0
  {
    var q := x / 4;
    assert x == 4 * q && x + 4 == 4 * (q + 1);
  }

  lemma AllReached(columns: set<nat>, vx: nat, vx0: nat)
    requires vx < vx0 < TWO32 && Reached(columns, vx, SpanEnd(vx, vx0))
    ensures Ceil4(vx) <= vx0 <==> columns == Run(vx, vx0 - vx)
    ensures Ceil4(vx) > vx0 <==> columns == Run(0, TWO32)
  {
    assert vx0 !in Run(vx, vx0 - vx) && vx0 in Run(0, TWO32);
  }

  /** The span of columns 1 and 2 overwrites column 3. */
  method ShortSpan() returns (columns: set<nat>)
    ensures 3 in columns && 3 !in Run(1, 2)
  {
    columns := SpanColumns(1, 3);
  }

  const NOWHERE: Rect := Rect(0, 0, 0, 0)

  lemma NoneSkippedIff(layers: seq<Layer>, r: Rect, s: Rect)
    ensures NoneSkipped(layers, r, s) <==>
            forall x: nat, y: nat | In(r, x, y) && !In(s, x, y) && Top(layers, x, y) >= 0 ::
              Rank(layers, r, Top(layers, x, y)) == Top(layers, x, y)
  {
    forall x: nat, y: nat | In(r, x, y) && !In(s, x, y) && Top(layers, x, y) >= 0 {
      RankRightIff(layers, r, Top(layers, x, y));
    }
  }

  /** A rectangle that a new layer fills: its map is right exactly if the layer overlaps all others. */
  lemma NewLayerSkips(layers: seq<Layer>, r: Rect)
    requires layers != [] && r.x0 < r.x1 && r.y0 < r.y1
    requires forall x: nat, y: nat | In(r, x, y) :: Covers(layers[|layers| - 1], x, y)
    ensures NoneSkipped(layers, r, NOWHERE) <==> AllMeet(layers, r, |layers| - 1)
  {
    assert In(r, r.x0, r.y0) && !In(NOWHERE, r.x0, r.y0) && Top(layers, r.x0, r.y0) == |layers| - 1;
  }

  // ----- Moving a layer -----

  function Area(l: Layer): Rect {
    Rect(l.x, l.y, l.x + l.width, l.y + l.height)
  }

  /** What `moveFrameBufferLayer` refreshes first: a strip if only one coordinate changes, else the new place. */
  ghost function FirstArea(l: Layer, x: nat, y: nat): Rect {
    if x == l.x then Rect(x, Min(l.y, y), x + l.width, Max(l.y, y) + l.height)
    else if y == l.y then Rect(Min(l.x, x), y, Max(l.x, x) + l.width, y + l.height)
    else Area(l.(x := x, y := y))
  }

  /** And then the old place, if both coordinates change. */
  ghost function SecondArea(l: Layer, x: nat, y: nat): Rect {
    if x == l.x || y == l.y then NOWHERE else Area(l)
  }

  lemma MoveFits(layers: seq<Layer>, k: nat, x: nat, y: nat, width: nat, height: nat)
    requires LayersFit(layers, width, height) && k < |layers|
    requires x + layers[k].width < width && y + layers[k].height < height
    ensures LayersFit(layers[k := layers[k].(x := x, y := y)], width, height)
    ensures FirstArea(layers[k], x, y).x1 <= width && FirstArea(layers[k], x, y).y1 <= height
    ensures SecondArea(layers[k], x, y).x1 <= width && SecondArea(layers[k], x, y).y1 <= height
  {
  }

  /** Outside the refreshed areas the topmost layers stay as they were. */
  lemma MoveStaysInside(layers: seq<Layer>, k: nat, x: nat, y: nat, px: nat, py: nat)
    requires k < |layers| && !In(FirstArea(layers[k], x, y), px, py) && !In(SecondArea(layers[k], x, y), px, py)
    ensures Top(layers[k := layers[k].(x := x, y := y)], px, py) == Top(layers, px, py)
  {
    TopDepends(layers[k := layers[k].(x := x, y := y)], layers, px, py);
  }

  /** A layer of one colour. */
  function Plain(x: nat, y: nat, width: nat, height: nat): (l: Layer)
    ensures BufferOk(l)
  {
    Layer(x, y, width, height, seq(height, _ => seq(width, _ => 0)))
  }

  /** Three layers, the upper two side by side: the third gets the number of the second. */
  lemma SideBySideMisnumbered()
    ensures var layers := [Plain(0, 0, 16, 8), Plain(0, 0, 4, 4), Plain(8, 0, 4, 4)];
            LayersFit(layers, 16, 8) && Top(layers, 8, 0) == 2 && Rank(layers, Area(layers[2]), 2) == 1
  {
    var layers := [Plain(0, 0, 16, 8), Plain(0, 0, 4, 4), Plain(8, 0, 4, 4)];
    var r := Area(layers[2]);
    assert Rank(layers, r, 1) == Rank(layers, r, 0) + 1;
    assert Rank(layers, r, 2) == Rank(layers, r, 1);
  }
}
