/** Rendering the screen band by band (components/stark_display/display_bands.c and the loop
    of stark_display_render in display_render.c). */
module Display {
  import opened Stark
  import opened GfxTypes
  import opened Gfx

  const DISPLAY_W := 320
  const DISPLAY_H := 240

  // ---- Bands -----------------------------------------------------------------

  /** The area clipped to the screen. */
  function Clipped(area: Rect, scrW: int, scrH: int): Box {
    Box(Max(area.x, 0), Max(area.y, 0), Min(area.x as int + area.w as int, scrW),
        Min(area.y as int + area.h as int, scrH))
  }

  predicate Nothing(area: Rect, scrW: int, scrH: int, bandH: int) {
    var c := Clipped(area, scrW, scrH);
    scrW <= 0 || scrH <= 0 || bandH <= 0 || area.w <= 0 || area.h <= 0 || c.x0 >= c.x1 || c.y0 >= c.y1
  }

  /** Band k is the clipped area's part of one row of the fixed grid, row `first` + k, and
      starts where the band before it ended. */
  predicate Tile(bands: seq<Rect>, c: Box, bandH: nat, first: nat, k: nat)
    requires k < |bands|
  {
    var b := bands[k];
    && b.x == c.x0 && b.w == c.x1 - c.x0
    && b.h > 0 && b.y + b.h <= c.y1
    && b.y == (if k == 0 then c.y0 else bands[k - 1].y as int + bands[k - 1].h as int)
    && (first + k) * bandH <= b.y && b.y + b.h <= (first + k + 1) * bandH
  }

  predicate Tiles(bands: seq<Rect>, c: Box, bandH: nat, first: nat) {
    forall k :: 0 <= k < |bands| ==> Tile(bands, c, bandH, first, k)
  }

  predicate Complete(bands: seq<Rect>, c: Box) {
    |bands| > 0 && bands[|bands| - 1].y + bands[|bands| - 1].h == c.y1
  }

  method Bands(area: Rect, scrW: int16, scrH: int16, bandH: int16, out: array<Rect>) returns (n: nat)
    modifies out
    ensures n <= out.Length
    ensures Nothing(area, scrW, scrH, bandH) || out.Length == 0 ==> n == 0
    ensures !Nothing(area, scrW, scrH, bandH) && out.Length > 0 ==>
              var c := Clipped(area, scrW, scrH);
              && n > 0 && Tiles(out[..n], c, bandH, c.y0 / bandH)
              && (n < out.Length || out.Length * bandH >= scrH ==> Complete(out[..n], c))
  {
    if out.Length == 0 || scrW <= 0 || scrH <= 0 || bandH <= 0 || area.w <= 0 || area.h <= 0 {
      return 0;
    }
    var x0 := Max(area.x, 0);
    var y0 := Max(area.y, 0);
    var x1 := Min(area.x as int + area.w as int, scrW);
    var y1 := Min(area.y as int + area.h as int, scrH);
    if x0 >= x1 || y0 >= y1 {
      return 0;
    }
    ghost var c, first: nat := Clipped(area, scrW, scrH), y0 / bandH;
    n := 0;
    var bandTop := (y0 / bandH) * bandH;
    GridRow(y0, bandH);
    while bandTop < y1 && n < out.Length
      invariant n <= out.Length && bandTop == (first + n) * bandH
      invariant Tiles(out[..n], c, bandH, first)
      invariant n == 0 ==> bandTop <= y0 < bandTop + bandH
      invariant n > 0 ==> y0 < bandTop && out[n - 1].y + out[n - 1].h == Min(y1, bandTop)
      decreases out.Length - n
    {
      var top := Max(y0, bandTop);
      var bottom := Min(y1, bandTop + bandH);
      NextRow(first + n, bandH);
      ghost var was := out[..n];
      out[n] := Rect(x0, top, x1 - x0, bottom - top);
      n := n + 1;
      assert out[..n] == was + [out[n - 1]];
      TilesSnoc(was, out[n - 1], c, bandH, first);
      bandTop := bandTop + bandH;
    }
    if out.Length * bandH >= scrH && n == out.Length {
      MulGrows(out.Length, first + n, bandH);
    }
  }

  lemma {:induction false} GridRow(y: nat, bandH: nat)
    requires bandH > 0
    ensures (y / bandH) * bandH <= y < (y / bandH) * bandH + bandH
  {
    assert y == (y / bandH) * bandH + y % bandH;
  }

  lemma NextRow(k: nat, bandH: nat)
    ensures (k + 1) * bandH == k * bandH + bandH
  {
  }

  lemma {:induction false} TilesSnoc(bands: seq<Rect>, b: Rect, c: Box, bandH: nat, first: nat)
    requires Tiles(bands, c, bandH, first) && Tile(bands + [b], c, bandH, first, |bands|)
    ensures Tiles(bands + [b], c, bandH, first)
  {
    forall k | 0 <= k < |bands|
      ensures Tile(bands + [b], c, bandH, first, k)
    {
      assert Tile(bands, c, bandH, first, k);
    }
  }

  predicate InBand(b: Rect, px: int, py: int) {
    InRect(b.x, b.y, b.w, b.h, px, py)
  }

  lemma {:induction false} BandStarts(bands: seq<Rect>, c: Box, bandH: nat, first: nat, j: nat, k: nat)
    requires Tiles(bands, c, bandH, first) && j <= k < |bands|
    ensures c.y0 <= bands[k].y && (j < k ==> bands[j].y + bands[j].h <= bands[k].y)
    decreases k
  {
    assert Tile(bands, c, bandH, first, k);
    if k > 0 {
      assert Tile(bands, c, bandH, first, k - 1);
      BandStarts(bands, c, bandH, first, Min(j, k - 1), k - 1);
    }
  }

  /** The band a pixel above band k's end lies in. */
  lemma {:induction false} FindBand(bands: seq<Rect>, c: Box, bandH: nat, first: nat, k: nat, py: int) returns (j: nat)
    requires Tiles(bands, c, bandH, first) && k < |bands| && c.y0 <= py < bands[k].y + bands[k].h
    ensures j <= k && bands[j].y <= py < bands[j].y + bands[j].h
    decreases k
  {
    assert Tile(bands, c, bandH, first, k);
    if bands[k].y <= py {
      j := k;
    } else {
      j := FindBand(bands, c, bandH, first, k - 1, py);
    }
  }

  /** The bands partition the clipped area: every pixel of it is in exactly one band, and no
      band has a pixel outside it. */
  lemma {:induction false} BandsPartition(bands: seq<Rect>, c: Box, bandH: nat, first: nat, px: int, py: int)
    requires Tiles(bands, c, bandH, first) && Complete(bands, c)
    ensures Has(c, px, py) <==> exists k :: 0 <= k < |bands| && InBand(bands[k], px, py)
    ensures forall j, k :: 0 <= j < |bands| && 0 <= k < |bands| ==>
              InBand(bands[j], px, py) && InBand(bands[k], px, py) ==> j == k
  {
    if Has(c, px, py) {
      var k := FindBand(bands, c, bandH, first, |bands| - 1, py);
      assert Tile(bands, c, bandH, first, k);
      assert InBand(bands[k], px, py);
    }
    forall k | 0 <= k < |bands| && InBand(bands[k], px, py)
      ensures Has(c, px, py)
    {
      assert Tile(bands, c, bandH, first, k);
      BandStarts(bands, c, bandH, first, k, k);
    }
    forall j, k | 0 <= j < k < |bands| && InBand(bands[j], px, py) && InBand(bands[k], px, py)
      ensures false
    {
      BandStarts(bands, c, bandH, first, j, k);
    }
  }

  // ---- The panel -------------------------------------------------------------

  /** Byte order on the wire. */
  function Swapped(v: Colour): Colour {
    v % 0x100 * 0x100 + v / 0x100
  }

  lemma {:induction false} SwappedTwice(v: Colour)
    ensures Swapped(Swapped(v)) == v
  {
    var hi, lo := v / 0x100, v % 0x100;
    var w := lo * 0x100 + hi;
    assert w / 0x100 == lo && w % 0x100 == hi;
  }

  datatype Transfer = Transfer(rect: Rect, buf: array<Colour>)

  /** The panel's memory by pixel, and the transfers on the wire. A transfer reads its buffer
      no later than when it completes, in the order submitted. */
  class Panel {
    var gram: (int, int) -> Colour
    var queue: seq<Transfer>

    constructor (image: (int, int) -> Colour)
      ensures gram == image && queue == []
    {
      gram, queue := image, [];
    }

    method DrawBitmap(rect: Rect, buf: array<Colour>) returns (err: Err)
      modifies this`queue
      ensures queue == if err == Ok then old(queue) + [Transfer(rect, buf)] else old(queue)
    {
      err := *;
      if err == Ok {
        queue := queue + [Transfer(rect, buf)];
      }
    }

    /** Waits for one transfer; false when it did not finish in time. */
    method WaitOne() returns (done: bool)
      requires queue != []
      modifies this
      ensures !done ==> queue == old(queue) && gram == old(gram)
      ensures done ==> queue == old(queue)[1..]
      ensures done ==> forall x, y :: gram(x, y) == Received(old(queue)[0].rect, old(queue[0].buf[..]), old(gram), x, y)
    {
      done := *;
      if done {
        var t, was := queue[0], gram;
        var data := t.buf[..];
        gram := (x, y) => Received(t.rect, data, was, x, y);
        queue := queue[1..];
      }
    }
  }

  /** Panel pixel (x, y) after a transfer of big-endian `data` into rect. */
  function Received(rect: Rect, data: seq<Colour>, was: (int, int) -> Colour, x: int, y: int): Colour {
    if InBand(rect, x, y) && Idx(rect.w, x - rect.x, y - rect.y) < |data|
    then Swapped(data[Idx(rect.w, x - rect.x, y - rect.y)]) else was(x, y)
  }

  method ToPanelOrder(px: array<Colour>, n: nat)
    requires n <= px.Length
    modifies px
    ensures forall i :: 0 <= i < n ==> px[i] == Swapped(old(px[i]))
    ensures forall i :: n <= i < px.Length ==> px[i] == old(px[i])
  {
    var i := 0;
    while i < n
      invariant i <= n
      invariant forall k :: 0 <= k < i ==> px[k] == Swapped(old(px[k]))
      invariant forall k :: i <= k < px.Length ==> px[k] == old(px[k])
    {
      px[i] := Swapped(px[i]);
      i := i + 1;
    }
  }

  // ---- The band loop ---------------------------------------------------------

  /** c is what drawing the whole list gives pixel (px, py), from some earlier colour. */
  ghost predicate Shaded(acts: seq<Act>, px: int, py: int, c: Colour)
    requires AllFormed(acts)
  {
    exists before: Colour :: c == Shade(acts, |acts|, px, py, before)
  }

  /** The buffer holds the drawing of band b in panel order. */
  ghost predicate Ready(acts: seq<Act>, b: Rect, buf: array<Colour>)
    requires AllFormed(acts)
    reads buf
  {
    && b.w > 0 && b.h > 0
    && forall col: nat, row: nat :: col < b.w && row < b.h ==>
         Idx(b.w, col, row) < buf.Length && Shaded(acts, b.x + col, b.y + row, Swapped(buf[Idx(b.w, col, row)]))
  }

  /** Renders band b into buf. */
  method RenderBand(acts: seq<Act>, b: Rect, buf: array<Colour>)
    requires AllFormed(acts) && b.w > 0 && b.h > 0 && b.w * b.h <= buf.Length
    modifies buf
    ensures Ready(acts, b, buf)
  {
    var surface := new Surface(buf, b.w, b.h, b.x, b.y);
    ghost var before := buf[..];
    surface.DrawAll(acts);
    ghost var drawn := buf[..];
    ToPanelOrder(buf, b.w * b.h);
    forall col: nat, row: nat | col < b.w && row < b.h
      ensures Idx(b.w, col, row) < buf.Length && Shaded(acts, b.x + col, b.y + row, Swapped(buf[Idx(b.w, col, row)]))
    {
      var i := Idx(b.w, col, row);
      assert i < b.w * b.h && surface.Visible(b.x + col, b.y + row);
      SwappedTwice(drawn[i]);
      assert drawn[i] == Shade(acts, |acts|, b.x + col, b.y + row, before[i]);
    }
  }

  /** Panel memory with the first `done` bands drawn and the rest as it was. */
  ghost predicate Shown(acts: seq<Act>, bands: seq<Rect>, done: nat, gram: (int, int) -> Colour,
                        was: (int, int) -> Colour)
    requires AllFormed(acts) && done <= |bands|
  {
    forall x, y ::
      if exists k :: 0 <= k < done && InBand(bands[k], x, y) then Shaded(acts, x, y, gram(x, y))
      else gram(x, y) == was(x, y)
  }

  /** Transfer number j's buffer: the two take turns. */
  function BufferOf(b0: array<Colour>, b1: array<Colour>, j: nat): array<Colour> {
    if j % 2 == 0 then b0 else b1
  }

  /** Bands done .. next are on the wire, in order, each ready in its own buffer. */
  ghost predicate InFlight(acts: seq<Act>, bands: seq<Rect>, done: nat, next: nat, queue: seq<Transfer>,
                           b0: array<Colour>, b1: array<Colour>)
    requires AllFormed(acts) && done <= next <= |bands|
    reads b0, b1
  {
    && |queue| == next - done
    && forall k :: 0 <= k < |queue| ==>
         queue[k] == Transfer(bands[done + k], BufferOf(b0, b1, done + k)) &&
         Ready(acts, bands[done + k], BufferOf(b0, b1, done + k))
  }

  predicate Solid(bands: seq<Rect>) {
    forall k :: 0 <= k < |bands| ==> bands[k].w > 0 && bands[k].h > 0
  }

  /** Completing the oldest transfer shows one more band. */
  lemma {:induction false} ShowsOneMore(acts: seq<Act>, bands: seq<Rect>, done: nat, data: seq<Colour>,
                                        gram: (int, int) -> Colour, now: (int, int) -> Colour,
                                        was: (int, int) -> Colour)
    requires AllFormed(acts) && done < |bands| && Shown(acts, bands, done, gram, was)
    requires forall x, y :: now(x, y) == Received(bands[done], data, gram, x, y)
    requires var b := bands[done];
             b.w > 0 && b.h > 0 && forall col: nat, row: nat :: col < b.w && row < b.h ==>
               Idx(b.w, col, row) < |data| && Shaded(acts, b.x + col, b.y + row, Swapped(data[Idx(b.w, col, row)]))
    ensures Shown(acts, bands, done + 1, now, was)
  {
    var b := bands[done];
    forall x, y
      ensures if exists k :: 0 <= k < done + 1 && InBand(bands[k], x, y)
              then Shaded(acts, x, y, now(x, y)) else now(x, y) == was(x, y)
    {
      if InBand(b, x, y) {
        assert Shaded(acts, b.x + (x - b.x), b.y + (y - b.y), now(x, y));
        assert 0 <= done < done + 1 && InBand(bands[done], x, y);
      } else {
        assert now(x, y) == gram(x, y);
        assert (exists k :: 0 <= k < done + 1 && InBand(bands[k], x, y)) <==>
               (exists k :: 0 <= k < done && InBand(bands[k], x, y));
      }
    }
  }

  /** Waits for the oldest transfer: one more band is shown, and its buffer is free. */
  method Reap(panel: Panel, acts: seq<Act>, bands: seq<Rect>, ghost done0: nat, ghost next: nat,
              b0: array<Colour>, b1: array<Colour>, ghost was: (int, int) -> Colour) returns (ok: bool, ghost done: nat)
    requires AllFormed(acts) && Solid(bands) && done0 < next <= |bands|
    requires InFlight(acts, bands, done0, next, panel.queue, b0, b1) && Shown(acts, bands, done0, panel.gram, was)
    modifies panel
    ensures done == (if ok then done0 + 1 else done0) && (!ok ==> panel.queue == old(panel.queue))
    ensures InFlight(acts, bands, done, next, panel.queue, b0, b1) && Shown(acts, bands, done, panel.gram, was)
  {
    ghost var gram, t := panel.gram, panel.queue[0];
    ghost var data := t.buf[..];
    assert t.rect == bands[done0] && Ready(acts, t.rect, t.buf);
    ok := panel.WaitOne();
    done := done0;
    if ok {
      ShowsOneMore(acts, bands, done0, data, gram, panel.gram, was);
      done := done0 + 1;
      assert forall k :: 0 <= k < |panel.queue| ==> panel.queue[k] == old(panel.queue)[k + 1];
    }
  }

  lemma OtherBuffer(b0: array<Colour>, b1: array<Colour>, i: nat)
    requires b0 != b1
    ensures i > 0 ==> BufferOf(b0, b1, i - 1) != BufferOf(b0, b1, i)
  {
  }

  /** Renders the next band into the buffer no transfer holds, and puts it on the wire. */
  method Submit(panel: Panel, acts: seq<Act>, bands: seq<Rect>, i: nat, ghost done: nat,
                b0: array<Colour>, b1: array<Colour>) returns (err: Err)
    requires AllFormed(acts) && Solid(bands) && b0 != b1 && done <= i < |bands| && i - done < 2
    requires bands[i].w * bands[i].h <= Min(b0.Length, b1.Length)
    requires InFlight(acts, bands, done, i, panel.queue, b0, b1)
    modifies panel`queue, b0, b1
    ensures InFlight(acts, bands, done, if err == Ok then i + 1 else i, panel.queue, b0, b1)
  {
    hide Ready, InBand;
    var buf := BufferOf(b0, b1, i);
    OtherBuffer(b0, b1, i);
    ghost var busy := if done < i then BufferOf(b0, b1, done) else buf;
    assert done < i ==>
             done == i - 1 && panel.queue[0] == Transfer(bands[done], busy) && Ready(acts, bands[done], busy);
    RenderBand(acts, bands[i], buf);
    assert done < i ==> busy != buf && Ready(acts, bands[done], busy);
    err := panel.DrawBitmap(bands[i], buf);
  }

  /** Draws band after band into the buffer that is free, while the other may be on the wire,
      and returns once every transfer is back. */
  method RenderBands(panel: Panel, acts: seq<Act>, bands: seq<Rect>, b0: array<Colour>, b1: array<Colour>)
    returns (err: Err, ghost done: nat)
    requires AllFormed(acts) && Solid(bands) && b0 != b1 && panel.queue == []
    requires forall k :: 0 <= k < |bands| ==> bands[k].w * bands[k].h <= Min(b0.Length, b1.Length)
    modifies panel, b0, b1
    ensures done <= |bands| && Shown(acts, bands, done, panel.gram, old(panel.gram))
    ensures err == Ok ==> done == |bands| && panel.queue == []
  {
    hide Ready, InBand, BufferOf;
    ghost var was := panel.gram;
    err, done := Ok, 0;
    assert Shown(acts, bands, 0, panel.gram, was);
    var inFlight := 0;
    var i := 0;
    while i < |bands|
      invariant i <= |bands| && done <= i && inFlight == i - done <= 2
      invariant InFlight(acts, bands, done, i, panel.queue, b0, b1) && Shown(acts, bands, done, panel.gram, was)
    {
      if inFlight == 2 {
        var ok;
        ok, done := Reap(panel, acts, bands, done, i, b0, b1, was);
        if !ok {
          err := Timeout;
          break;
        }
        inFlight := inFlight - 1;
      }
      var e := Submit(panel, acts, bands, i, done, b0, b1);
      if e != Ok {
        err := e;
        break;
      }
      inFlight := inFlight + 1;
      i := i + 1;
    }
    while inFlight > 0
      invariant done <= i <= |bands| && inFlight <= |panel.queue| == i - done
      invariant InFlight(acts, bands, done, i, panel.queue, b0, b1) && Shown(acts, bands, done, panel.gram, was)
      invariant err == Ok ==> inFlight == i - done && i == |bands|
    {
      var ok;
      ok, done := Reap(panel, acts, bands, done, i, b0, b1, was);
      if !ok && err == Ok {
        err := Timeout;
      }
      inFlight := inFlight - 1;
    }
  }

  /** stark_display_render: whatever happens, nothing outside the clipped area changes; on OK
      every pixel of it shows the whole drawing, and no transfer is left. */
  method Render(panel: Panel, area: Rect, acts: seq<Act>, bandH: int16, b0: array<Colour>, b1: array<Colour>)
      returns (err: Err)
    requires AllFormed(acts) && b0 != b1 && panel.queue == [] && bandH > 0
    requires DISPLAY_W * bandH <= Min(b0.Length, b1.Length)
    modifies panel, b0, b1
    ensures forall x, y :: !Has(Clipped(area, DISPLAY_W, DISPLAY_H), x, y) ==> panel.gram(x, y) == old(panel.gram)(x, y)
    ensures err == Ok ==> panel.queue == []
    ensures err == Ok && !Nothing(area, DISPLAY_W, DISPLAY_H, bandH) ==>
              forall x, y :: Has(Clipped(area, DISPLAY_W, DISPLAY_H), x, y) ==> Shaded(acts, x, y, panel.gram(x, y))
  {
    hide Tiles, Complete, Shown, Ready, InBand, Shaded, Clipped, Nothing, Has;
    var bands;
    ghost var first, done;
    bands, first := BandsOf(area, bandH);
    err, done := RenderBands(panel, acts, bands, b0, b1);
    if bands == [] {
      NothingShown(acts, bands, panel.gram, old(panel.gram));
    } else {
      ShownInArea(acts, bands, Clipped(area, DISPLAY_W, DISPLAY_H), bandH, first, done, panel.gram, old(panel.gram));
    }
  }

  /** All the bands of an area, each small enough for a band buffer. */
  method BandsOf(area: Rect, bandH: int16) returns (bands: seq<Rect>, ghost first: nat)
    requires bandH > 0
    ensures bands == [] <==> Nothing(area, DISPLAY_W, DISPLAY_H, bandH)
    ensures bands != [] ==>
              var c := Clipped(area, DISPLAY_W, DISPLAY_H); Tiles(bands, c, bandH, first) && Complete(bands, c)
    ensures Solid(bands) && forall k :: 0 <= k < |bands| ==> bands[k].w * bands[k].h <= DISPLAY_W * bandH
  {
    hide Tiles, Complete, Clipped, Nothing;
    var maxBands := (DISPLAY_H + bandH - 1) / bandH;
    EnoughBands(bandH);
    var out := new Rect[maxBands];
    var n := Bands(area, DISPLAY_W, DISPLAY_H, bandH, out);
    bands, first := out[..n], 0;
    if n > 0 {
      ghost var c := Clipped(area, DISPLAY_W, DISPLAY_H);
      ClippedWidth(area, bandH);
      first := c.y0 / bandH;
      BandsFit(bands, c, bandH, first);
    }
  }

  lemma ClippedWidth(area: Rect, bandH: int)
    requires !Nothing(area, DISPLAY_W, DISPLAY_H, bandH)
    ensures var c := Clipped(area, DISPLAY_W, DISPLAY_H); c.x0 < c.x1 && c.x1 - c.x0 <= DISPLAY_W && 0 <= c.y0
  {
  }

  lemma NothingShown(acts: seq<Act>, bands: seq<Rect>, gram: (int, int) -> Colour, was: (int, int) -> Colour)
    requires AllFormed(acts) && Shown(acts, bands, 0, gram, was)
    ensures forall x, y :: gram(x, y) == was(x, y)
  {
  }

  lemma {:induction false} ShownInArea(acts: seq<Act>, bands: seq<Rect>, c: Box, bandH: nat, first: nat, done: nat,
                                       gram: (int, int) -> Colour, was: (int, int) -> Colour)
    requires AllFormed(acts) && Tiles(bands, c, bandH, first) && Complete(bands, c) && done <= |bands|
    requires Shown(acts, bands, done, gram, was)
    ensures forall x, y :: !Has(c, x, y) ==> gram(x, y) == was(x, y)
    ensures done == |bands| ==> forall x, y :: Has(c, x, y) ==> Shaded(acts, x, y, gram(x, y))
  {
    forall x, y
      ensures !Has(c, x, y) ==> gram(x, y) == was(x, y)
      ensures done == |bands| && Has(c, x, y) ==> Shaded(acts, x, y, gram(x, y))
    {
      BandsPartition(bands, c, bandH, first, x, y);
    }
  }

  lemma {:induction false} EnoughBands(bandH: nat)
    requires bandH > 0
    ensures (DISPLAY_H + bandH - 1) / bandH > 0 && (DISPLAY_H + bandH - 1) / bandH * bandH >= DISPLAY_H
  {
    GridRow(DISPLAY_H + bandH - 1, bandH);
  }

  lemma {:induction false} BandsFit(bands: seq<Rect>, c: Box, bandH: nat, first: nat)
    requires Tiles(bands, c, bandH, first) && c.x1 - c.x0 <= DISPLAY_W && c.x0 < c.x1
    ensures Solid(bands)
    ensures forall k :: 0 <= k < |bands| ==> bands[k].w * bands[k].h <= DISPLAY_W * bandH
  {
    forall k | 0 <= k < |bands|
      ensures bands[k].w > 0 && bands[k].h > 0 && bands[k].w * bands[k].h <= DISPLAY_W * bandH
    {
      assert Tile(bands, c, bandH, first, k);
      NextRow(first + k, bandH);
      MulGrows(bands[k].w, DISPLAY_W, bands[k].h);
      MulGrows(bands[k].h, bandH, DISPLAY_W);
    }
  }

  /** Drawing band by band is drawing once: what a band's buffer held before does not matter, and
      the panel shows what the same acts leave in a surface as large as the screen, exactly at the
      pixels that some act paints. */
  lemma {:induction false} BandedIsWhole(acts: seq<Act>, x: int, y: int)
    requires AllFormed(acts)
    ensures (forall shown, initial: Colour :: Shaded(acts, x, y, shown) ==> shown == Shade(acts, |acts|, x, y, initial))
            <==> Painted(acts, |acts|, x, y)
  {
    if Painted(acts, |acts|, x, y) {
      forall shown, initial: Colour | Shaded(acts, x, y, shown)
        ensures shown == Shade(acts, |acts|, x, y, initial)
      {
        var before: Colour :| shown == Shade(acts, |acts|, x, y, before);
        PaintedForgets(acts, |acts|, x, y, before, initial);
      }
    } else {
      PaintedForgets(acts, |acts|, x, y, 0, 1);
      PaintedForgets(acts, |acts|, x, y, 1, 0);
      assert Shaded(acts, x, y, Shade(acts, |acts|, x, y, 0));
    }
  }

  /** The same acts drawn into a band and into a larger surface: wherever the two held the same
      colour before, painted or not, they hold the same colour after. */
  method DrawBoth(band: Surface, whole: Surface, acts: seq<Act>)
    requires band.Valid() && whole.Valid() && band.Drawable() && whole.Drawable() && AllFormed(acts)
    requires band != whole && band.pixels != whole.pixels
    modifies band, whole, band.pixels, whole.pixels
    ensures forall x, y :: old(band.Visible(x, y)) && old(whole.Visible(x, y)) ==>
              var i, j := Offset(band, x, y), Offset(whole, x, y);
              && i < band.pixels.Length && j < whole.pixels.Length
              && (old(band.pixels[..])[i] == old(whole.pixels[..])[j] ==> band.pixels[i] == whole.pixels[j])
  {
    ghost var a, b := band.pixels[..], whole.pixels[..];
    band.DrawAll(acts);
    whole.DrawAll(acts);
    forall x, y | old(band.Visible(x, y)) && old(whole.Visible(x, y))
      ensures var i, j := Offset(band, x, y), Offset(whole, x, y);
              && i < band.pixels.Length && j < whole.pixels.Length
              && (a[i] == b[j] ==> band.pixels[i] == whole.pixels[j])
    {
      Pixel(band, a, acts, x, y);
      Pixel(whole, b, acts, x, y);
    }
  }

  /** Where a surface keeps a visible screen pixel. */
  function Offset(s: Surface, x: int, y: int): nat
    requires InRect(s.originX, s.originY, s.w, s.h, x, y)
  {
    Idx(s.w, x - s.originX, y - s.originY)
  }

  lemma {:induction false} Pixel(s: Surface, before: seq<Colour>, acts: seq<Act>, x: int, y: int)
    requires s.Valid() && s.Visible(x, y) && |before| == s.pixels.Length && AllFormed(acts)
    requires s.DrewAll(before, acts, |acts|)
    ensures Offset(s, x, y) < s.pixels.Length
    ensures s.pixels[Offset(s, x, y)] == Shade(acts, |acts|, x, y, before[Offset(s, x, y)])
  {
    hide Shade, AllFormed;
    var col, row := x - s.originX, y - s.originY;
    assert Idx(s.w, col, row) < s.w * s.h;
  }
}
