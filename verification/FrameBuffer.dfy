/** The layer map and the compositor, src/video/framebuffer.c, at 32 bits per pixel. */
module FrameBuffer {
  import opened Layers

  const MAX_LAYERS: nat := 255  // 256 entries with a null at the end

  class Screen {
    const width: nat
    const height: nat
    const layerMap: array2<nat>  // by row and column
    const vram: array2<int>
    var layers: seq<Layer>

    ghost predicate Shape() {
      && layerMap.Length0 == vram.Length0 == height && layerMap.Length1 == vram.Length1 == width
      && width < 0x1_0000_0000 && height < 0x1_0000_0000
    }

    ghost predicate Ok()
      reads this
    {
      Shape() && |layers| <= MAX_LAYERS && LayersFit(layers, width, height)
    }

    /** Every pixel of the map outside `r` and `s` names the topmost layer there. */
    ghost predicate MapOkBut(r: Rect, s: Rect)
      reads this, layerMap
      requires Shape()
    {
      forall x: nat, y: nat | x < width && y < height && !In(r, x, y) && !In(s, x, y) :: layerMap[y, x] == Top(layers, x, y)
    }

    ghost predicate MapOk()
      reads this, layerMap
      requires Shape()
    {
      forall x: nat, y: nat | x < width && y < height :: layerMap[y, x] == Top(layers, x, y)
    }

    predicate Inside(r: Rect) {
      r.x1 <= width && r.y1 <= height
    }

    /** `initFrameBuffer`: the main layer covers the screen and is black. */
    constructor (width: nat, height: nat, vram: array2<int>)
      requires vram.Length0 == height && vram.Length1 == width && width < 0x1_0000_0000 && height < 0x1_0000_0000
      ensures Ok() && MapOk() && |layers| == 1 && this.vram == vram && fresh(layerMap)
      ensures this.width == width && this.height == height
      ensures forall px: nat, py: nat | px < width && py < height :: layers[0].pixels[py][px] == 0
    {
      this.width, this.height, this.vram := width, height, vram;
      layerMap := new nat[height, width]((_, _) => 0);
      layers := [Layer(0, 0, width, height, seq(height, _ => seq(width, _ => 0)))];
    }

    // ----- The map -----

    /** The three loops over one row: single pixels up to a multiple of four, fours, single pixels.
        `sid` fits a byte, so four copies of it fit a word. */
    method FillSpan(y: nat, vx: nat, vx0: nat, sid: nat)
      requires Shape() && y < height && vx <= vx0 <= width && Ceil4(vx) <= vx0
      modifies layerMap
      ensures forall i: nat, j: nat | i < height && j < width ::
                layerMap[i, j] == if i == y && vx <= j < vx0 then sid else old(layerMap[i, j])
    {
      var x := vx;
      while x % 4 != 0
        invariant vx <= x <= Ceil4(vx)
        invariant forall i: nat, j: nat | i < height && j < width ::
                    layerMap[i, j] == if i == y && vx <= j < x then sid else old(layerMap[i, j])
        decreases Ceil4(vx) - x
      {
        layerMap[y, x] := sid;
        x := x + 1;
      }
      while vx0 - x >= 4
        invariant vx <= x <= vx0
        invariant forall i: nat, j: nat | i < height && j < width ::
                    layerMap[i, j] == if i == y && vx <= j < x then sid else old(layerMap[i, j])
      {
        layerMap[y, x], layerMap[y, x + 1], layerMap[y, x + 2], layerMap[y, x + 3] := sid, sid, sid, sid;
        x := x + 4;
      }
      while vx0 - x != 0
        invariant vx <= x <= vx0
        invariant forall i: nat, j: nat | i < height && j < width ::
                    layerMap[i, j] == if i == y && vx <= j < x then sid else old(layerMap[i, j])
        decreases vx0 - x
      {
        layerMap[y, x] := sid;
        x := x + 1;
      }
    }

    /** The loop over the rows of a clipped layer. */
    method FillRect(c: Rect, sid: nat)
      requires Shape() && Inside(c) && c.x0 < c.x1 && c.y0 < c.y1 && Ceil4(c.x0) <= c.x1
      modifies layerMap
      ensures forall i: nat, j: nat | i < height && j < width ::
                layerMap[i, j] == if In(c, j, i) then sid else old(layerMap[i, j])
    {
      var y := c.y0;
      while y < c.y1
        invariant c.y0 <= y <= c.y1
        invariant forall i: nat, j: nat | i < height && j < width ::
                    layerMap[i, j] == if In(c, j, i) && i < y then sid else old(layerMap[i, j])
      {
        FillSpan(y, c.x0, c.x1, sid);
        y := y + 1;
      }
    }

    lemma TopStep(n: nat, r: Rect)
      requires n < |layers|
      ensures forall x: nat, y: nat | In(r, x, y) ::
                Top(layers[..n + 1], x, y) == if In(Clip(layers[n], r), x, y) then n else Top(layers[..n], x, y)
    {
      assert layers[..n + 1][..n] == layers[..n];
      forall x: nat, y: nat | In(r, x, y)
        ensures In(Clip(layers[n], r), x, y) <==> Covers(layers[n], x, y)
      {
        ClipIsIntersection(layers[n], r, x, y);
      }
    }

    /** `frameBufferRefreshMap`: in the rectangle every pixel gets the number of its topmost layer among
        the layers that meet the rectangle. */
    method RefreshMap(r: Rect)
      requires Ok() && Inside(r) && SpansOk(layers, r)
      modifies layerMap
      ensures forall i: nat, j: nat | i < height && j < width ::
                layerMap[i, j] == if In(r, j, i) && Top(layers, j, i) >= 0 then Rank(layers, r, Top(layers, j, i)) else old(layerMap[i, j])
    {
      var n, sid := 0, 0;
      while n < |layers|
        invariant 0 <= n <= |layers| && sid == Rank(layers, r, n)
        invariant forall i: nat, j: nat | i < height && j < width ::
                    layerMap[i, j] == if In(r, j, i) && Top(layers[..n], j, i) >= 0 then Rank(layers, r, Top(layers[..n], j, i)) else old(layerMap[i, j])
      {
        var layer := layers[n];
        TopStep(n, r);
        n := n + 1;
        var drawn := DrawLayer(layer, r, sid);
        if !drawn {
          continue;
        }
        sid := sid + 1;
      }
      assert layers[..n] == layers;
    }

    /** One round of the loop over the layers. */
    method DrawLayer(layer: Layer, r: Rect, sid: nat) returns (drawn: bool)
      requires Shape() && Inside(r) && (Meets(layer, r) ==> Ceil4(Clip(layer, r).x0) <= Clip(layer, r).x1)
      modifies layerMap
      ensures drawn <==> Meets(layer, r)
      ensures forall i: nat, j: nat | i < height && j < width ::
                layerMap[i, j] == if In(Clip(layer, r), j, i) then sid else old(layerMap[i, j])
    {
      var c := Clip(layer, r);
      drawn := c.x0 < c.x1 && c.y0 < c.y1;
      if drawn {
        FillRect(c, sid);
      }
    }

    lemma MainLayerEverywhere(x: nat, y: nat)
      requires LayersFit(layers, width, height) && x < width && y < height
      ensures Top(layers, x, y) >= 0 && Covers(layers[Top(layers, x, y)], x, y)
    {
      TopIsTopmost(layers, x, y);
      assert Covers(layers[0], x, y);
    }

    /** `frameBufferRefreshMap` on a map that is right elsewhere, apart from `s`: it puts the map right
        in the rectangle exactly if no layer is skipped there. */
    method RepairMap(r: Rect, ghost s: Rect)
      requires Ok() && Inside(r) && SpansOk(layers, r)
      modifies layerMap
      ensures forall i: nat, j: nat | i < height && j < width && !In(r, j, i) :: layerMap[i, j] == old(layerMap[i, j])
      ensures old(MapOkBut(r, s)) ==> MapOkBut(r, s) && (MapOkBut(NOWHERE, s) <==> NoneSkipped(layers, r, s))
    {
      RefreshMap(r);
      NoneSkippedIff(layers, r, s);
      forall x: nat, y: nat | x < width && y < height {
        MainLayerEverywhere(x, y);
      }
    }

    // ----- Creating and moving layers -----

    /** A new layer, white all over. */
    function NewLayer(x: nat, y: nat, w: nat, h: nat): (l: Layer)
      ensures BufferOk(l) && Area(l) == Rect(x, y, x + w, y + h)
      ensures forall px: nat, py: nat | px < w && py < h :: l.pixels[py][px] == 0xffff_ffff
    {
      Layer(x, y, w, h, seq(h, _ => seq(w, _ => 0xffff_ffff)))
    }

    /** `createFrameBufferLayer`, without the refresh of the screen: a white layer on top of the others. */
    method CreateLayer(x: nat, y: nat, w: nat, h: nat)
      requires Ok() && |layers| < MAX_LAYERS && x + w <= width && y + h <= height
      requires SpansOk(layers + [NewLayer(x, y, w, h)], Rect(x, y, x + w, y + h))
      modifies this`layers, layerMap
      ensures Ok() && |layers| == |old(layers)| + 1 && layers[..|old(layers)|] == old(layers)
      ensures var l := layers[|old(layers)|];
              && l.x == x && l.y == y && l.width == w && l.height == h && |l.pixels| == h
              && forall py: nat | py < h :: |l.pixels[py]| == w && forall px: nat | px < w :: l.pixels[py][px] == 0xffff_ffff
      ensures old(MapOk()) && w > 0 && h > 0 ==> (MapOk() <==> AllMeet(layers, Rect(x, y, x + w, y + h), |layers| - 1))
      ensures old(MapOk()) && (w == 0 || h == 0) ==> MapOk()
    {
      ghost var was := layers;
      var l := NewLayer(x, y, w, h);
      layers := layers + [l];
      var r := Rect(x, y, x + w, y + h);
      forall px: nat, py: nat | px < width && py < height && !In(r, px, py)
        ensures Top(layers, px, py) == Top(was, px, py)
      {
        TopOfAppend(was, l, px, py);
      }
      RepairMap(r, NOWHERE);
      if w > 0 && h > 0 {
        NewLayerSkips(layers, r);
      }
    }

    /** `moveFrameBufferLayer`, without the refresh of the screen: the layer moves by `x` and `y`, at 32 bits, or to
        them. It is refused if the layer would touch the last column or row. */
    method MoveLayer(k: nat, x: nat, y: nat, fromNow: bool) returns (retval: int)
      requires Ok() && k < |layers| && x < 0x1_0000_0000 && y < 0x1_0000_0000
      requires var l := layers[k];
               var nx := if fromNow then (l.x + x) % 0x1_0000_0000 else x;
               var ny := if fromNow then (l.y + y) % 0x1_0000_0000 else y;
               nx + l.width < width && ny + l.height < height ==>
                 SpansOk(layers[k := l.(x := nx, y := ny)], FirstArea(l, nx, ny)) && SpansOk(layers[k := l.(x := nx, y := ny)], SecondArea(l, nx, ny))
      modifies this`layers, layerMap
      ensures Ok()
      ensures var l := old(layers)[k];
              var nx := if fromNow then (l.x + x) % 0x1_0000_0000 else x;
              var ny := if fromNow then (l.y + y) % 0x1_0000_0000 else y;
              if nx + l.width < width && ny + l.height < height then
                && retval == 0 && layers == old(layers)[k := l.(x := nx, y := ny)]
                && (old(MapOk()) ==>
                      if nx == l.x && ny == l.y then MapOk()
                      else MapOk() <==>
                           && NoneSkipped(layers, FirstArea(l, nx, ny), SecondArea(l, nx, ny))
                           && NoneSkipped(layers, SecondArea(l, nx, ny), NOWHERE))
              else retval == -22 && layers == old(layers) && (old(MapOk()) ==> MapOk())
    {
      var l := layers[k];
      var nx := if fromNow then (l.x + x) % 0x1_0000_0000 else x;
      var ny := if fromNow then (l.y + y) % 0x1_0000_0000 else y;
      var room := HasRoom(l, nx, ny);
      if !room {
        return -22;  // -EINVAL
      }
      PutLayer(k, nx, ny);
      retval := 0;
    }

    /** The guards against a sum that wraps and against the right and lower edge. */
    method HasRoom(l: Layer, nx: nat, ny: nat) returns (ok: bool)
      requires Shape() && l.width <= width && l.height <= height && nx < 0x1_0000_0000 && ny < 0x1_0000_0000
      ensures ok <==> nx + l.width < width && ny + l.height < height
    {
      var right, lower := (nx + l.width) % 0x1_0000_0000, (ny + l.height) % 0x1_0000_0000;
      ok := !(right < nx || lower < ny || right >= width || lower >= height);
    }

    /** The rest of it: the layer is put at (`nx`, `ny`), and the map is refreshed where it was and is. */
    method PutLayer(k: nat, nx: nat, ny: nat)
      requires Ok() && k < |layers| && nx + layers[k].width < width && ny + layers[k].height < height
      requires SpansOk(layers[k := layers[k].(x := nx, y := ny)], FirstArea(layers[k], nx, ny))
      requires SpansOk(layers[k := layers[k].(x := nx, y := ny)], SecondArea(layers[k], nx, ny))
      modifies this`layers, layerMap
      ensures Ok() && layers == old(layers)[k := old(layers)[k].(x := nx, y := ny)]
      ensures old(MapOk()) ==>
                var l := old(layers)[k];
                if nx == l.x && ny == l.y then MapOk()
                else MapOk() <==>
                     && NoneSkipped(layers, FirstArea(l, nx, ny), SecondArea(l, nx, ny))
                     && NoneSkipped(layers, SecondArea(l, nx, ny), NOWHERE)
    {
      MoveFits(layers, k, nx, ny, width, height);
      var l := layers[k];
      ghost var was := layers;
      layers := layers[k := l.(x := nx, y := ny)];
      if nx == l.x && ny == l.y {
        assert layers == was;
        return;
      }
      var first, second := MovedAreas(l, nx, ny);
      forall px: nat, py: nat | px < width && py < height && !In(first, px, py) && !In(second, px, py)
        ensures Top(layers, px, py) == Top(was, px, py)
      {
        MoveStaysInside(was, k, nx, ny, px, py);
      }
      RepairBoth(first, second);
    }

    /** The rectangles to refresh for a layer that was `l` and is now at (`nx`, `ny`). */
    method MovedAreas(l: Layer, nx: nat, ny: nat) returns (first: Rect, second: Rect)
      ensures first == FirstArea(l, nx, ny) && second == SecondArea(l, nx, ny)
    {
      if nx == l.x {
        return Rect(l.x, Min(l.y, ny), l.x + l.width, Max(l.y, ny) + l.height), NOWHERE;
      } else if ny == l.y {
        return Rect(Min(l.x, nx), l.y, Max(l.x, nx) + l.width, l.y + l.height), NOWHERE;
      }
      return Rect(nx, ny, nx + l.width, ny + l.height), Rect(l.x, l.y, l.x + l.width, l.y + l.height);
    }

    /** The refreshes after a move: what the first leaves wrong outside the second area stays wrong. */
    method RepairBoth(first: Rect, second: Rect)
      requires Ok() && Inside(first) && Inside(second) && SpansOk(layers, first) && SpansOk(layers, second)
      modifies layerMap
      ensures old(MapOkBut(first, second)) ==>
                (MapOk() <==> NoneSkipped(layers, first, second) && NoneSkipped(layers, second, NOWHERE))
    {
      RepairMap(first, second);
      ghost var ok := MapOkBut(NOWHERE, second);
      assert ok <==> MapOkBut(second, NOWHERE);
      RepairMap(second, NOWHERE);
      assert MapOk() ==> MapOkBut(NOWHERE, second);
      assert !ok ==> !MapOkBut(NOWHERE, second);
    }

    // ----- The picture -----

    /** What the picture should show at a pixel. */
    ghost function Pixel(x: nat, y: nat): int
      reads this
    {
      Paint(layers, x, y, 0)
    }

    ghost predicate MapOkIn(r: Rect)
      reads this, layerMap
      requires Shape()
    {
      forall x: nat, y: nat | x < width && y < height && In(r, x, y) :: layerMap[y, x] == Top(layers, x, y)
    }

    /** The buffer of the layer the map names holds the right pixel. */
    lemma BufferShowsPixel(x: nat, y: nat, r: Rect)
      requires Ok() && x < width && y < height && In(r, x, y) && MapOkIn(r)
      ensures layerMap[y, x] < |layers|
      ensures var l := layers[layerMap[y, x]]; Covers(l, x, y) && BufferOk(l) && Pixel(x, y) == l.pixels[y - l.y][x - l.x]
    {
      MainLayerEverywhere(x, y);
      PaintShowsTop(layers, x, y, 0);
    }

    /** `FILLONE_32`: one pixel, through the map. */
    method FillOne(x: nat, y: nat, ghost r: Rect)
      requires Ok() && Inside(r) && MapOkIn(r) && In(r, x, y)
      modifies vram
      ensures forall i: nat, j: nat | i < height && j < width ::
                vram[i, j] == if i == y && j == x then Pixel(x, y) else old(vram[i, j])
    {
      BufferShowsPixel(x, y, r);
      var layer := layers[layerMap[y, x]];
      vram[y, x] := layer.pixels[y - layer.y][x - layer.x];
    }

    /** Four pixels of the map are equal to `sid`. */
    predicate Same4(x: nat, y: nat, sid: nat)
      reads layerMap
      requires y < layerMap.Length0 && x + 4 <= layerMap.Length1
    {
      layerMap[y, x] == sid && layerMap[y, x + 1] == sid && layerMap[y, x + 2] == sid && layerMap[y, x + 3] == sid
    }

    /** Four pixels of one layer are copied at once, from `bx` on in its buffer. */
    method CopyFour(x: nat, y: nat, layer: Layer, bx: int, ghost r: Rect)
      requires Ok() && Inside(r) && MapOkIn(r) && In(r, x, y) && In(r, x + 3, y)
      requires Same4(x, y, layerMap[y, x]) && layerMap[y, x] < |layers| && layer == layers[layerMap[y, x]] && bx == x - layer.x
      modifies vram
      ensures forall i: nat, j: nat | i < height && j < width ::
                vram[i, j] == if i == y && x <= j < x + 4 then Pixel(j, i) else old(vram[i, j])
    {
      BufferShowsPixel(x, y, r);
      BufferShowsPixel(x + 1, y, r);
      BufferShowsPixel(x + 2, y, r);
      BufferShowsPixel(x + 3, y, r);
      var line := layer.pixels[y - layer.y];
      vram[y, x], vram[y, x + 1], vram[y, x + 2], vram[y, x + 3] := line[bx], line[bx + 1], line[bx + 2], line[bx + 3];
    }

    /** What `frameBufferRefresh` really draws: it always completes a group of four pixels. */
    function Rounded(r: Rect): Rect
      requires r.x0 <= r.x1
    {
      r.(x1 := r.x0 + Ceil4(r.x1 - r.x0))
    }

    /** A row: runs of one layer four pixels at a time, other groups of four pixel by pixel. */
    method RefreshRow(y: nat, r: Rect)
      requires Ok() && r.x0 <= r.x1 && Inside(Rounded(r)) && MapOkIn(Rounded(r)) && r.y0 <= y < r.y1
      modifies vram
      ensures forall i: nat, j: nat | i < height && j < width ::
                vram[i, j] == if i == y && r.x0 <= j < Rounded(r).x1 then Pixel(j, i) else old(vram[i, j])
    {
      var x := r.x0;
      while x < r.x1
        invariant r.x0 <= x <= Rounded(r).x1 && (x - r.x0) % 4 == 0
        invariant forall i: nat, j: nat | i < height && j < width ::
                    vram[i, j] == if i == y && r.x0 <= j < x then Pixel(j, i) else old(vram[i, j])
      {
        x := CopyRun(x, y, r);
        if x < r.x1 {
          FillOne(x, y, Rounded(r));
          FillOne(x + 1, y, Rounded(r));
          FillOne(x + 2, y, Rounded(r));
          FillOne(x + 3, y, Rounded(r));
          x := x + 4;
        }
      }
    }

    /** The inner loop: as many groups of four as belong to the layer at `start`. */
    method CopyRun(start: nat, y: nat, r: Rect) returns (x: nat)
      requires Ok() && r.x0 <= start < r.x1 && (start - r.x0) % 4 == 0
      requires Inside(Rounded(r)) && MapOkIn(Rounded(r)) && r.y0 <= y < r.y1
      modifies vram
      ensures start <= x <= Rounded(r).x1 && (x - r.x0) % 4 == 0
      ensures forall i: nat, j: nat | i < height && j < width ::
                vram[i, j] == if i == y && start <= j < x then Pixel(j, i) else old(vram[i, j])
    {
      x := start;
      var sid := layerMap[y, x];
      BufferShowsPixel(x, y, Rounded(r));
      var layer := layers[sid];
      var bx := x - layer.x;
      while x < r.x1 && Same4(x, y, sid)
        invariant start <= x <= Rounded(r).x1 && (x - r.x0) % 4 == 0 && bx == x - layer.x
        invariant forall i: nat, j: nat | i < height && j < width ::
                    vram[i, j] == if i == y && start <= j < x then Pixel(j, i) else old(vram[i, j])
      {
        CopyFour(x, y, layer, bx, Rounded(r));
        bx := bx + 4;
        x := x + 4;
      }
    }

    /** `frameBufferRefresh`: the rectangle, rounded up to groups of four pixels, shows what painting all
        layers in order would show. */
    method Refresh(r: Rect)
      requires Ok() && r.x0 <= r.x1 && Inside(Rounded(r)) && MapOkIn(Rounded(r))
      modifies vram
      ensures forall i: nat, j: nat | i < height && j < width ::
                vram[i, j] == if In(Rounded(r), j, i) then Pixel(j, i) else old(vram[i, j])
    {
      var y := r.y0;
      while y < r.y1
        invariant r.y0 <= y && (y <= r.y1 || y == r.y0)
        invariant forall i: nat, j: nat | i < height && j < width ::
                    vram[i, j] == if In(Rounded(r), j, i) && i < y then Pixel(j, i) else old(vram[i, j])
      {
        RefreshRow(y, r);
        y := y + 1;
      }
    }
  }
}
