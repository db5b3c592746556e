/** Drawing into a window onto the logical screen (components/stark_gfx/gfx_surface.c and
    gfx_draw.c). What each primitive paints is stated pixel by pixel in screen coordinates,
    without the surface: that is what lets the screen be drawn one band at a time. */
module Gfx {
  import opened Stark
  import opened GfxTypes

  // ---- What a primitive paints -----------------------------------------------

  datatype Op =
    | Fill(r: Rect, colour: Colour)
    | Outline(r: Rect, colour: Colour)
    | HLine(x: int16, y: int16, w: int16, colour: Colour)
    | VLine(x: int16, y: int16, h: int16, colour: Colour)
    | Blit(x: int16, y: int16, bits: Option<seq<byte>>, w: int16, h: int16, fg: Colour, bg: Colour, transparent: bool)

  /** Bytes in one row of a w-pixel bitmap. */
  function Stride(w: nat): nat {
    (w + 7) / 8
  }

  /** Bit k of b, k = 0 the least significant. */
  function BitOf(b: nat, k: nat): bool
    decreases k
  {
    if k == 0 then b % 2 == 1 else BitOf(b / 2, k - 1)
  }

  function BitmapIndex(w: nat, sx: nat, sy: nat): nat {
    sy * Stride(w) + sx / 8
  }

  /** The caller's bitmap holds every row. */
  predicate WellFormed(op: Op) {
    op.Blit? && op.bits.Some? && op.w > 0 && op.h > 0 ==> op.h * Stride(op.w) <= |op.bits.value|
  }

  lemma {:induction false} BitmapInside(w: nat, h: nat, sx: nat, sy: nat)
    requires sx < w && sy < h
    ensures BitmapIndex(w, sx, sy) < h * Stride(w)
  {
    IdxInside(Stride(w), h, sx / 8, sy);
  }

  predicate BitmapOn(bits: seq<byte>, w: nat, sx: nat, sy: nat)
    requires BitmapIndex(w, sx, sy) < |bits|
  {
    BitOf(bits[BitmapIndex(w, sx, sy)], 7 - sx % 8)
  }

  /** The colour the primitive gives screen pixel (px, py), None when it leaves it alone. */
  function Ink(op: Op, px: int, py: int): Option<Colour>
    requires WellFormed(op)
  {
    match op
    case Fill(r, c) => if InRect(r.x, r.y, r.w, r.h, px, py) then Some(c) else None
    case Outline(r, c) =>
      if InRect(r.x, r.y, r.w, r.h, px, py) &&
         (px == r.x || px == r.x + r.w - 1 || py == r.y || py == r.y + r.h - 1) then Some(c) else None
    case HLine(x, y, w, c) => if InRect(x, y, w, 1, px, py) then Some(c) else None
    case VLine(x, y, h, c) => if InRect(x, y, 1, h, px, py) then Some(c) else None
    case Blit(x, y, bits, w, h, fg, bg, transparent) =>
      if bits.None? || !InRect(x, y, w, h, px, py) then None
      else
        BitmapInside(w, h, px - x, py - y);
        if BitmapOn(bits.value, w, px - x, py - y) then Some(fg) else if transparent then None else Some(bg)
  }

  function Over(below: Colour, ink: Option<Colour>): Colour {
    match ink case None => below case Some(c) => c
  }

  /** What a drawing callback does to its surface: paint, fill whatever the clip is, or draw with
      the clip narrowed to a rectangle and put it back. */
  datatype Act =
    | Paint(op: Op)
    | Flood(colour: Colour)
    | Scope(r: Rect, inner: seq<Act>)

  predicate AllFormed(acts: seq<Act>) {
    forall i :: 0 <= i < |acts| ==> Formed(acts[i])
  }

  predicate Formed(act: Act) {
    match act
    case Paint(op) => WellFormed(op)
    case Flood(_) => true
    case Scope(_, inner) => AllFormed(inner)
  }

  /** Screen pixel (px, py) after one act, from the colour below. */
  function Tint(act: Act, px: int, py: int, below: Colour): Colour
    requires Formed(act)
    decreases act, 0
  {
    match act
    case Paint(op) => Over(below, Ink(op, px, py))
    case Flood(c) => c
    case Scope(r, inner) => if InRect(r.x, r.y, r.w, r.h, px, py) then Shade(inner, |inner|, px, py, below) else below
  }

  /** Screen pixel (px, py) after the first n acts of a list, from an initial colour. */
  function Shade(acts: seq<Act>, n: nat, px: int, py: int, initial: Colour): Colour
    requires n <= |acts| && AllFormed(acts)
    decreases acts, n
  {
    if n == 0 then initial else Tint(acts[n - 1], px, py, Shade(acts, n - 1, px, py, initial))
  }

  /** The act sets the pixel, whatever it was. */
  predicate Covers(act: Act, px: int, py: int)
    requires Formed(act)
    decreases act, 0
  {
    match act
    case Paint(op) => Ink(op, px, py).Some?
    case Flood(_) => true
    case Scope(r, inner) => InRect(r.x, r.y, r.w, r.h, px, py) && Painted(inner, |inner|, px, py)
  }

  predicate Painted(acts: seq<Act>, n: nat, px: int, py: int)
    requires n <= |acts| && AllFormed(acts)
    decreases acts, n
  {
    n > 0 && (Covers(acts[n - 1], px, py) || Painted(acts, n - 1, px, py))
  }

  /** Once something paints a pixel, what was there before does not matter; until then, nothing
      else does. */
  lemma {:induction false} PaintedForgets(acts: seq<Act>, n: nat, px: int, py: int, a: Colour, b: Colour)
    requires n <= |acts| && AllFormed(acts)
    ensures Painted(acts, n, px, py) ==> Shade(acts, n, px, py, a) == Shade(acts, n, px, py, b)
    ensures !Painted(acts, n, px, py) ==> Shade(acts, n, px, py, a) == a
    decreases acts, n
  {
    if n > 0 {
      PaintedForgets(acts, n - 1, px, py, a, b);
      CoveredForgets(acts[n - 1], px, py, Shade(acts, n - 1, px, py, a), Shade(acts, n - 1, px, py, b));
    }
  }

  lemma {:induction false} CoveredForgets(act: Act, px: int, py: int, a: Colour, b: Colour)
    requires Formed(act)
    ensures Covers(act, px, py) ==> Tint(act, px, py, a) == Tint(act, px, py, b)
    ensures !Covers(act, px, py) ==> Tint(act, px, py, a) == a
    decreases act, 0
  {
    if act.Scope? {
      PaintedForgets(act.inner, |act.inner|, px, py, a, b);
    }
  }

  /** The part of a inside b; all zero when there is none. */
  function Intersect(a: Rect, b: Rect): (r: Rect)
    ensures forall px, py :: InRect(r.x, r.y, r.w, r.h, px, py) <==>
              InRect(a.x, a.y, a.w, a.h, px, py) && InRect(b.x, b.y, b.w, b.h, px, py)
  {
    var x0, y0 := Max(a.x, b.x), Max(a.y, b.y);
    var x1 := Min(a.x as int + a.w as int, b.x as int + b.w as int);
    var y1 := Min(a.y as int + a.h as int, b.y as int + b.h as int);
    if x1 <= x0 || y1 <= y0 then Rect(0, 0, 0, 0) else Rect(x0, y0, x1 - x0, y1 - y0)
  }

  // ---- Surfaces --------------------------------------------------------------

  /** A clipped span in buffer coordinates. */
  datatype Span = Span(x0: int, y0: int, x1: int, y1: int)

  class Surface {
    const pixels: array?<Colour>
    const w: int16
    const h: int16
    const originX: int16
    const originY: int16
    var clip: Rect

    /** Wraps caller memory; the clip starts as the whole area it covers. */
    constructor (pixels: array?<Colour>, w: int16, h: int16, originX: int16, originY: int16)
      requires pixels != null && w > 0 && h > 0 ==> w * h <= pixels.Length
      ensures this.pixels == pixels && this.w == w && this.h == h
      ensures this.originX == originX && this.originY == originY && clip == Rect(originX, originY, w, h)
      ensures Valid()
    {
      this.pixels, this.w, this.h, this.originX, this.originY := pixels, w, h, originX, originY;
      clip := Rect(originX, originY, w, h);
    }

    ghost predicate Valid() {
      Drawable() ==> w * h <= pixels.Length
    }

    predicate Drawable() {
      pixels != null && w > 0 && h > 0
    }

    /** Screen pixel (px, py) lies in the clip and in the buffer's area. */
    predicate Visible(px: int, py: int)
      reads this
    {
      && Drawable()
      && InRect(originX, originY, w, h, px, py)
      && InRect(clip.x, clip.y, clip.w, clip.h, px, py)
    }

    /** gfx_clip: the rectangle, the clip and the buffer's area intersected. */
    function ClipSpan(x: int, y: int, rw: int, rh: int): (s: Option<Span>)
      reads this
      ensures s.None? ==> forall px, py :: InRect(x, y, rw, rh, px, py) ==> !Visible(px, py)
      ensures s.Some? ==>
                && Drawable() && rw > 0 && rh > 0
                && 0 <= s.value.x0 < s.value.x1 <= w && 0 <= s.value.y0 < s.value.y1 <= h
                && forall px, py ::
                     s.value.x0 <= px - originX < s.value.x1 && s.value.y0 <= py - originY < s.value.y1 <==>
                     InRect(x, y, rw, rh, px, py) && Visible(px, py)
    {
      if pixels == null || rw <= 0 || rh <= 0 || w <= 0 || h <= 0 then None
      else
        var x0 := Max(x, Max(clip.x, originX));
        var y0 := Max(y, Max(clip.y, originY));
        var x1 := Min(x + rw, Min(clip.x + clip.w, originX + w));
        var y1 := Min(y + rh, Min(clip.y + clip.h, originY + h));
        if x0 >= x1 || y0 >= y1 then
          assert forall px, py :: InRect(x, y, rw, rh, px, py) && Visible(px, py) ==> x0 <= px < x1 && y0 <= py < y1;
          None
        else Some(Span(x0 - originX, y0 - originY, x1 - originX, y1 - originY))
    }

    /** The buffer now holds `before` with `ink` laid over the visible pixels it covers. */
    ghost predicate Inked(before: seq<Colour>, x: int, y: int, rw: int, rh: int, colour: Colour)
      reads this, pixels
      requires Valid() && Drawable() && |before| == pixels.Length
    {
      && (forall i :: w * h <= i < |before| ==> pixels[i] == before[i])
      && forall col: nat, row: nat :: col < w && row < h ==>
           Idx(w, col, row) < w * h && pixels[Idx(w, col, row)] ==
           if InRect(x, y, rw, rh, originX + col, originY + row) && Visible(originX + col, originY + row)
           then colour else before[Idx(w, col, row)]
    }

    method Fill32(x: int, y: int, rw: int, rh: int, colour: Colour)
      requires Valid()
      modifies pixels
      ensures Drawable() ==> Inked(old(pixels[..]), x, y, rw, rh, colour)
    {
      var clipped := ClipSpan(x, y, rw, rh);
      if Drawable() {
        IdxAllInside(w, h);
      }
      if clipped.None? {
        return;
      }
      var sp := clipped.value;
      ghost var before := pixels[..];
      var row := sp.y0;
      while row < sp.y1
        invariant sp.y0 <= row <= sp.y1
        invariant forall i :: w * h <= i < |before| ==> pixels[i] == before[i]
        invariant forall c: nat, r: nat :: c < w && r < h ==>
                    pixels[Idx(w, c, r)] ==
                    if sp.y0 <= r < row && sp.x0 <= c < sp.x1 then colour else before[Idx(w, c, r)]
      {
        var col := sp.x0;
        while col < sp.x1
          invariant sp.x0 <= col <= sp.x1
          invariant forall i :: w * h <= i < |before| ==> pixels[i] == before[i]
          invariant forall c: nat, r: nat :: c < w && r < h ==>
                      pixels[Idx(w, c, r)] ==
                      if (sp.y0 <= r < row && sp.x0 <= c < sp.x1) || (r == row && sp.x0 <= c < col)
                      then colour else before[Idx(w, c, r)]
        {
          hide Idx;
          IdxAlone(w, h, col, row);
          pixels[Idx(w, col, row)] := colour;
          col := col + 1;
        }
        row := row + 1;
      }
    }

    /** The buffer now holds `before` with the primitive painted over its visible pixels. */
    ghost predicate Drew(before: seq<Colour>, op: Op)
      reads this, pixels
      requires Valid() && Drawable() && |before| == pixels.Length && WellFormed(op)
    {
      && (forall i :: w * h <= i < |before| ==> pixels[i] == before[i])
      && forall col: nat, row: nat :: col < w && row < h ==>
           Idx(w, col, row) < w * h && pixels[Idx(w, col, row)] ==
           if Visible(originX + col, originY + row)
           then Over(before[Idx(w, col, row)], Ink(op, originX + col, originY + row))
           else before[Idx(w, col, row)]
    }

    /** gfx_rect: top, bottom, then the sides between them. */
    method DrawOutline(r: Rect, colour: Colour)
      requires Valid()
      modifies pixels
      ensures Drawable() ==> Drew(old(pixels[..]), Outline(r, colour))
    {
      if Drawable() {
        IdxAllInside(w, h);
      }
      var x: int, y: int, rw: int, rh: int := r.x, r.y, r.w, r.h;
      if rw <= 0 || rh <= 0 {
        return;
      }
      hide Idx, Visible;
      Fill32(x, y, rw, 1, colour);
      if rh > 1 {
        Fill32(x, y + rh - 1, rw, 1, colour);
      }
      if rh > 2 {
        Fill32(x, y + 1, 1, rh - 2, colour);
        if rw > 1 {
          Fill32(x + rw - 1, y + 1, 1, rh - 2, colour);
        }
      }
    }

    method Plot(col: nat, row: nat, ink: Option<Colour>)
      requires Valid() && Drawable() && col < w && row < h
      modifies pixels
      ensures forall i :: w * h <= i < pixels.Length ==> pixels[i] == old(pixels[i])
      ensures forall c: nat, r: nat :: c < w && r < h ==>
                Idx(w, c, r) < w * h && pixels[Idx(w, c, r)] ==
                if c == col && r == row then Over(old(pixels[..])[Idx(w, c, r)], ink) else old(pixels[..])[Idx(w, c, r)]
    {
      hide Idx;
      IdxAllInside(w, h);
      IdxAlone(w, h, col, row);
      if ink.Some? {
        pixels[Idx(w, col, row)] := ink.value;
      }
    }

    method DrawBlit(op: Op)
      requires Valid() && op.Blit? && WellFormed(op)
      modifies pixels
      ensures Drawable() ==> Drew(old(pixels[..]), op)
    {
      var clipped := ClipSpan(op.x, op.y, op.w, op.h);
      if Drawable() {
        IdxAllInside(w, h);
      }
      if op.bits.None? || clipped.None? {
        return;
      }
      var sp := clipped.value;
      ghost var before := pixels[..];
      var row := sp.y0;
      while row < sp.y1
        invariant sp.y0 <= row <= sp.y1
        invariant forall i :: w * h <= i < |before| ==> pixels[i] == before[i]
        invariant forall c: nat, r: nat :: c < w && r < h ==>
                    pixels[Idx(w, c, r)] ==
                    if sp.y0 <= r < row && sp.x0 <= c < sp.x1
                    then Over(before[Idx(w, c, r)], Ink(op, originX + c, originY + r)) else before[Idx(w, c, r)]
      {
        hide Idx, Ink, Over;
        BlitRow(op, sp, row);
        row := row + 1;
      }
    }

    /** One row of the clipped bitmap. */
    method BlitRow(op: Op, sp: Span, row: nat)
      requires Valid() && op.Blit? && WellFormed(op) && op.bits.Some?
      requires ClipSpan(op.x, op.y, op.w, op.h) == Some(sp) && sp.y0 <= row < sp.y1
      modifies pixels
      ensures forall i :: w * h <= i < pixels.Length ==> pixels[i] == old(pixels[i])
      ensures forall c: nat, r: nat :: c < w && r < h ==>
                Idx(w, c, r) < w * h && pixels[Idx(w, c, r)] ==
                if r == row && sp.x0 <= c < sp.x1
                then Over(old(pixels[..])[Idx(w, c, r)], Ink(op, originX + c, originY + r))
                else old(pixels[..])[Idx(w, c, r)]
    {
      hide Idx, BitmapOn, BitmapIndex;
      IdxAllInside(w, h);
      var bits := op.bits.value;
      var srcX0, srcY0 := sp.x0 + originX - op.x, sp.y0 + originY - op.y;
      ghost var before := pixels[..];
      var col := sp.x0;
      while col < sp.x1
        invariant sp.x0 <= col <= sp.x1
        invariant forall i :: w * h <= i < |before| ==> pixels[i] == before[i]
        invariant forall c: nat, r: nat :: c < w && r < h ==>
                    pixels[Idx(w, c, r)] ==
                    if r == row && sp.x0 <= c < col
                    then Over(before[Idx(w, c, r)], Ink(op, originX + c, originY + r)) else before[Idx(w, c, r)]
      {
        var sx, sy := srcX0 + (col - sp.x0), srcY0 + (row - sp.y0);
        SpanInRect(op, sp, col, row);
        BitmapInside(op.w, op.h, sx, sy);
        var on := BitmapOn(bits, op.w, sx, sy);
        Plot(col, row, if on then Some(op.fg) else if op.transparent then None else Some(op.bg));
        col := col + 1;
      }
    }

    lemma {:induction false} SpanInRect(op: Op, sp: Span, col: int, row: int)
      requires op.Blit? && ClipSpan(op.x, op.y, op.w, op.h) == Some(sp)
      requires sp.x0 <= col < sp.x1 && sp.y0 <= row < sp.y1
      ensures InRect(op.x, op.y, op.w, op.h, originX + col, originY + row)
    {
      var px, py := originX + col, originY + row;
      assert sp.x0 <= px - originX < sp.x1 && sp.y0 <= py - originY < sp.y1;
    }

    method Draw(op: Op)
      requires Valid() && WellFormed(op)
      modifies pixels
      ensures Drawable() ==> Drew(old(pixels[..]), op)
    {
      match op {
        case Fill(r, c) => Fill32(r.x, r.y, r.w, r.h, c);
        case Outline(r, c) => DrawOutline(r, c);
        case HLine(x, y, lw, c) => Fill32(x, y, lw, 1, c);
        case VLine(x, y, lh, c) => Fill32(x, y, 1, lh, c);
        case Blit(_, _, _, _, _, _, _, _) => DrawBlit(op);
      }
    }

    /** The buffer now holds `before` with the first n acts drawn over its visible pixels. */
    ghost predicate DrewAll(before: seq<Colour>, acts: seq<Act>, n: nat)
      reads this, pixels
      requires Valid() && Drawable() && |before| == pixels.Length && n <= |acts| && AllFormed(acts)
    {
      && (forall i :: w * h <= i < |before| ==> pixels[i] == before[i])
      && forall col: nat, row: nat :: col < w && row < h ==>
           Idx(w, col, row) < w * h && pixels[Idx(w, col, row)] ==
           if Visible(originX + col, originY + row)
           then Shade(acts, n, originX + col, originY + row, before[Idx(w, col, row)])
           else before[Idx(w, col, row)]
    }

    /** The buffer now holds `before` with one act drawn over its visible pixels. */
    ghost predicate DidAct(before: seq<Colour>, act: Act)
      reads this, pixels
      requires Valid() && Drawable() && |before| == pixels.Length && Formed(act)
    {
      && (forall i :: w * h <= i < |before| ==> pixels[i] == before[i])
      && forall col: nat, row: nat :: col < w && row < h ==>
           Idx(w, col, row) < w * h && pixels[Idx(w, col, row)] ==
           if Visible(originX + col, originY + row)
           then Tint(act, originX + col, originY + row, before[Idx(w, col, row)])
           else before[Idx(w, col, row)]
    }

    method DoAct(act: Act)
      requires Valid() && Formed(act)
      modifies this, pixels
      ensures clip == old(clip) && (Drawable() ==> DidAct(old(pixels[..]), act))
      decreases act, 0
    {
      match act {
        case Paint(op) => Draw(op);
        case Flood(c) => Fill32(clip.x, clip.y, clip.w, clip.h, c);
        case Scope(r, inner) => DrawScope(r, inner);
      }
    }

    /** Draws with the clip narrowed, unless nothing is left of it, and restores it. */
    method DrawScope(r: Rect, inner: seq<Act>)
      requires Valid() && AllFormed(inner)
      modifies this, pixels
      ensures clip == old(clip) && (Drawable() ==> DidAct(old(pixels[..]), Scope(r, inner)))
      decreases inner, |inner| + 1
    {
      hide Idx, Shade;
      if Drawable() {
        IdxAllInside(w, h);
      }
      var saved := clip;
      clip := Intersect(saved, r);
      if clip.w > 0 && clip.h > 0 {
        DrawAll(inner);
      }
      clip := saved;
    }

    /** A screen's drawing callback: a list of acts, top to bottom. */
    method DrawAll(acts: seq<Act>)
      requires Valid() && AllFormed(acts)
      modifies this, pixels
      ensures clip == old(clip) && (Drawable() ==> DrewAll(old(pixels[..]), acts, |acts|))
      decreases acts, |acts|
    {
      ghost var before := if pixels == null then [] else pixels[..];
      if Drawable() {
        IdxAllInside(w, h);
      }
      var n := 0;
      while n < |acts|
        invariant n <= |acts| && clip == old(clip)
        invariant Drawable() ==> DrewAll(before, acts, n)
      {
        hide Idx, Visible, Tint;
        DoAct(acts[n]);
        n := n + 1;
      }
    }
  }

  lemma {:induction false} IdxAllInside(w: nat, h: nat)
    ensures forall col: nat, row: nat :: col < w && row < h ==> Idx(w, col, row) < w * h
  {
    forall col: nat, row: nat | col < w && row < h
      ensures Idx(w, col, row) < w * h
    {
      IdxInside(w, h, col, row);
    }
  }
}
