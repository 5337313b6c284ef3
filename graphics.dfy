/** The graphics engine's framebuffer: a 160x80 array of 16-bit colours,
    the pixel accessors, the clipped line and rectangle fills, and the
    RGB565 colour conversion. */
module Graphics {
  import opened Common

  const SCREEN_WIDTH: nat := 160
  const SCREEN_HEIGHT: nat := 80
  const SCREEN_BUFFER_SIZE: nat := 12800
  const COLOR_BLACK: u16 := 0
  const COLOR_BORDER: u16 := 0x4208

  /** A C conversion to `int16_t`: the value modulo 2^16, read as signed. */
  function I16(v: int): (r: int)
    ensures -0x8000 <= r < 0x8000
    ensures -0x8000 <= v < 0x8000 ==> r == v
  {
    var m := v % 0x1_0000;
    if m >= 0x8000 then m - 0x1_0000 else m
  }

  /** `Rect`, whose fields are `int16_t`. */
  datatype Rect = Rect(x: int, y: int, width: int, height: int)

  /** `is_valid_coord`. */
  predicate OnScreen(x: int, y: int)
  {
    0 <= x < SCREEN_WIDTH && 0 <= y < SCREEN_HEIGHT
  }

  /** The framebuffer index of an on-screen pixel, row by row. */
  function Index(x: int, y: int): (k: nat)
    requires OnScreen(x, y)
    ensures k < SCREEN_BUFFER_SIZE
  {
    y * SCREEN_WIDTH + x
  }

  /** Index `k` lies in the box `[x0, x1) x [y0, y1)`. */
  predicate InBox(k: nat, x0: int, x1: int, y0: int, y1: int)
  {
    x0 <= k % SCREEN_WIDTH < x1 && y0 <= k / SCREEN_WIDTH < y1
  }

  /** The buffer with the box `[x0, x1) x [y0, y1)` painted `c`. */
  function Paint(s: seq<u16>, x0: int, x1: int, y0: int, y1: int, c: u16): (t: seq<u16>)
    ensures |t| == |s|
  {
    seq(|s|, k requires 0 <= k < |s| => if InBox(k, x0, x1, y0, y1) then c else s[k])
  }

  lemma IndexCoords(x: int, y: int)
    requires OnScreen(x, y)
    ensures Index(x, y) % SCREEN_WIDTH == x && Index(x, y) / SCREEN_WIDTH == y
  {
  }

  /** Reading a painted pixel: the colour inside the box, the old value
      outside it. */
  lemma PaintReads(s: seq<u16>, x0: int, x1: int, y0: int, y1: int, c: u16, x: int, y: int)
    requires |s| == SCREEN_BUFFER_SIZE && OnScreen(x, y)
    ensures Paint(s, x0, x1, y0, y1, c)[Index(x, y)] ==
      if x0 <= x < x1 && y0 <= y < y1 then c else s[Index(x, y)]
  {
    IndexCoords(x, y);
  }

  /** Painting the same box twice is painting it once. */
  lemma PaintIdempotent(s: seq<u16>, x0: int, x1: int, y0: int, y1: int, c: u16)
    ensures Paint(Paint(s, x0, x1, y0, y1, c), x0, x1, y0, y1, c) == Paint(s, x0, x1, y0, y1, c)
  {
  }

  /** The effect of `draw_hline`: nothing when the start is off screen or
      the width is not positive; otherwise the row from `x` up to
      `x + width` (in 16 bits), clipped at the right edge. */
  function HLine(s: seq<u16>, x: int, y: int, width: int, c: u16): seq<u16>
  {
    if !OnScreen(x, y) || width <= 0 then s
    else Paint(s, x, Min(I16(x + width), SCREEN_WIDTH), y, y + 1, c)
  }

  /** The effect of `draw_vline`. */
  function VLine(s: seq<u16>, x: int, y: int, height: int, c: u16): seq<u16>
  {
    if !OnScreen(x, y) || height <= 0 then s
    else Paint(s, x, x + 1, y, Min(I16(y + height), SCREEN_HEIGHT), c)
  }

  /** The box `fill_rect` paints: the rectangle clipped to the screen, its
      far edges computed in 16 bits. */
  function FillBox(r: Rect): (b: (int, int, int, int))
    ensures 0 <= b.0 && b.1 <= SCREEN_WIDTH && 0 <= b.2 && b.3 <= SCREEN_HEIGHT
  {
    (Max(0, r.x), Min(SCREEN_WIDTH, I16(r.x + r.width)), Max(0, r.y), Min(SCREEN_HEIGHT, I16(r.y + r.height)))
  }

  /** A rectangle that fits on screen is filled exactly. */
  lemma FillBoxExact(r: Rect)
    requires 0 <= r.x && 0 <= r.width && r.x + r.width <= SCREEN_WIDTH
    requires 0 <= r.y && 0 <= r.height && r.y + r.height <= SCREEN_HEIGHT
    ensures FillBox(r) == (r.x, r.x + r.width, r.y, r.y + r.height)
  {
  }

  // ---------------------------------------------------------------------
  // RGB565

  /** `rgb_to_color`: the top 5, 6 and 5 bits of red, green and blue in
      bits 11-15, 5-10 and 0-4. The masked, shifted fields do not overlap,
      so the OR is their sum. */
  function RgbToColor(r: byte, g: byte, b: byte): (c: u16)
  {
    (r / 8) * 0x800 + (g / 4) * 0x20 + b / 8
  }

  /** `color_to_rgb`: each field moved back to the top of its byte. */
  function ColorToRgb(c: u16): (rgb: (byte, byte, byte))
  {
    ((c / 0x800) * 8, ((c / 0x20) % 0x40) * 4, (c % 0x20) * 8)
  }

  /** Converting to RGB565 and back keeps the top bits of every channel. */
  lemma RgbRoundTrip(r: byte, g: byte, b: byte)
    ensures ColorToRgb(RgbToColor(r, g, b)) == ((r / 8) * 8, (g / 4) * 4, (b / 8) * 8)
  {
    var c := RgbToColor(r, g, b);
    assert c / 0x20 == (r / 8) * 0x40 + g / 4;
    assert c / 0x800 == r / 8;
  }

  /** Every 16-bit colour survives the trip through RGB and back. */
  lemma ColorRoundTrip(c: u16)
    ensures var rgb := ColorToRgb(c); RgbToColor(rgb.0, rgb.1, rgb.2) == c
  {
    var hi, mid, lo := c / 0x800, (c / 0x20) % 0x40, c % 0x20;
    assert c / 0x20 == hi * 0x40 + mid;
    assert c == (c / 0x20) * 0x20 + lo;
  }

  // ---------------------------------------------------------------------
  // The engine

  class GraphicsEngine {
    /** The framebuffer the engine draws into; it may be absent. */
    const fb: array?<u16>

    ghost predicate Valid()
    {
      fb != null ==> fb.Length == SCREEN_BUFFER_SIZE
    }

    constructor (buffer: array?<u16>)
      requires buffer != null ==> buffer.Length == SCREEN_BUFFER_SIZE
      ensures fb == buffer && Valid()
    {
      fb := buffer;
    }

    /** `clear`: the whole buffer takes the colour. */
    method Clear(c: u16)
      requires Valid()
      modifies fb
      ensures fb != null ==> fb[..] == seq(SCREEN_BUFFER_SIZE, _ => c)
    {
      if fb == null {
        return;
      }
      forall i | 0 <= i < fb.Length {
        fb[i] := c;
      }
    }

    /** `set_pixel`: off-screen coordinates are ignored. */
    method SetPixel(x: int, y: int, c: u16)
      requires Valid()
      modifies fb
      ensures fb != null ==> fb[..] == if OnScreen(x, y) then old(fb[..])[Index(x, y) := c] else old(fb[..])
    {
      if fb == null || !OnScreen(x, y) {
        return;
      }
      fb[Index(x, y)] := c;
    }

    /** `get_pixel`: black off screen or without a buffer. */
    method GetPixel(x: int, y: int) returns (c: u16)
      requires Valid()
      ensures c == if fb != null && OnScreen(x, y) then fb[Index(x, y)] else COLOR_BLACK
    {
      if fb == null || !OnScreen(x, y) {
        return COLOR_BLACK;
      }
      c := fb[Index(x, y)];
    }

    /** Paints the row `y` from `x0` up to `x1`, one `set_pixel` at a time. */
    method PaintRow(x0: int, x1: int, y: int, c: u16)
      requires Valid() && fb != null && 0 <= x0 && x1 <= SCREEN_WIDTH && 0 <= y < SCREEN_HEIGHT
      modifies fb
      ensures fb[..] == Paint(old(fb[..]), x0, x1, y, y + 1, c)
    {
      var i := x0;
      while i < x1
        invariant i == x0 || x0 <= i <= x1
        invariant forall k :: 0 <= k < SCREEN_BUFFER_SIZE ==>
          fb[k] == if InBox(k, x0, i, y, y + 1) then c else old(fb[k])
      {
        SetPixel(i, y, c);
        IndexCoords(i, y);
        i := i + 1;
      }
      forall k | 0 <= k < SCREEN_BUFFER_SIZE
        ensures fb[..][k] == Paint(old(fb[..]), x0, x1, y, y + 1, c)[k]
      {
      }
    }

    /** `draw_hline`. */
    method DrawHLine(x: int, y: int, width: int, c: u16)
      requires Valid()
      modifies fb
      ensures fb != null ==> fb[..] == HLine(old(fb[..]), x, y, width, c)
    {
      if fb == null || !OnScreen(x, y) || width <= 0 {
        return;
      }
      var endX := Min(I16(x + width), SCREEN_WIDTH);
      PaintRow(Max(0, x), endX, y, c);
    }

    /** `draw_vline`. */
    method DrawVLine(x: int, y: int, height: int, c: u16)
      requires Valid()
      modifies fb
      ensures fb != null ==> fb[..] == VLine(old(fb[..]), x, y, height, c)
    {
      if fb == null || !OnScreen(x, y) || height <= 0 {
        return;
      }
      var endY := Min(I16(y + height), SCREEN_HEIGHT);
      var i := Max(0, y);
      while i < endY
        invariant i == y || y <= i <= endY
        invariant forall k :: 0 <= k < SCREEN_BUFFER_SIZE ==>
          fb[k] == if InBox(k, x, x + 1, y, i) then c else old(fb[k])
      {
        SetPixel(x, i, c);
        IndexCoords(x, i);
        i := i + 1;
      }
      assert forall k :: 0 <= k < SCREEN_BUFFER_SIZE ==> fb[..][k] == VLine(old(fb[..]), x, y, height, c)[k];
    }

    /** `draw_rect`: the four edges, each an `int16_t` computation. */
    method DrawRect(r: Rect, c: u16)
      requires Valid()
      modifies fb
      ensures fb != null ==> (fb[..] ==
        VLine(VLine(HLine(HLine(old(fb[..]), r.x, r.y, r.width, c), r.x, I16(r.y + r.height - 1), r.width, c),
              r.x, r.y, r.height, c), I16(r.x + r.width - 1), r.y, r.height, c))
    {
      DrawHLine(r.x, r.y, r.width, c);
      DrawHLine(r.x, I16(r.y + r.height - 1), r.width, c);
      DrawVLine(r.x, r.y, r.height, c);
      DrawVLine(I16(r.x + r.width - 1), r.y, r.height, c);
    }

    /** `fill_rect`: every pixel of the clipped rectangle, row by row. */
    method FillRect(r: Rect, c: u16)
      requires Valid()
      modifies fb
      ensures fb != null ==> var b := FillBox(r); fb[..] == Paint(old(fb[..]), b.0, b.1, b.2, b.3, c)
    {
      if fb == null {
        return;
      }
      var b := FillBox(r);
      var y := b.2;
      while y < b.3
        invariant y == b.2 || b.2 <= y <= b.3
        invariant forall k :: 0 <= k < SCREEN_BUFFER_SIZE ==>
          fb[k] == if InBox(k, b.0, b.1, b.2, y) then c else old(fb[k])
      {
        PaintRow(b.0, b.1, y, c);
        y := y + 1;
      }
      assert forall k :: 0 <= k < SCREEN_BUFFER_SIZE ==> fb[..][k] == Paint(old(fb[..]), b.0, b.1, b.2, b.3, c)[k];
    }
  }
}
