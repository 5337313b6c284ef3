/** The NeoPixel (WS2812) strip driver: colour packing, brightness
    scaling, blending, the HSV and colour-wheel conversions, the pixel
    buffer and the effect steps that rewrite it. */
module NeoPixelStrip {
  import opened Common
  import opened Bits

  /** `NeoPixel_Color`; the white channel is used by RGBW strips only. */
  datatype Color = Color(r: byte, g: byte, b: byte, w: byte)

  const BLACK: Color := Color(0, 0, 0, 0)

  datatype PixelType = Rgb | Rgbw

  datatype Effect = NoEffect | Fade | Rainbow | Chase | Breathe | Twinkle

  /** `NeoPixel_Animation`. */
  datatype Animation = Animation(effect: Effect, duration: u32, speed: u32, color1: Color, color2: Color, loop: bool, brightness: byte)

  const WORD: nat := 0x1_0000_0000

  // ---------------------------------------------------------------------
  // 32-bit colour words

  /** Four bytes placed side by side, most significant first. The source
      ORs shifted bytes; their bit ranges are disjoint, so the OR is this
      sum. */
  function Word(a: byte, b: byte, c: byte, d: byte): (x: nat)
    ensures x < WORD
  {
    a as nat * 0x100_0000 + b as nat * 0x1_0000 + c as nat * 0x100 + d as nat
  }

  /** `NeoPixel_Color::from_rgbw`: the four bytes of the word, red highest. */
  function FromRgbw(x: u32): Color
  {
    Color((x / 0x100_0000) % 0x100, (x / 0x1_0000) % 0x100, (x / 0x100) % 0x100, x % 0x100)
  }

  /** `NeoPixel_Color::from_rgb`: the low three bytes, white zero. */
  function FromRgb(x: u32): Color
  {
    Color((x / 0x1_0000) % 0x100, (x / 0x100) % 0x100, x % 0x100, 0)
  }

  function ToRgbw(c: Color): (x: u32)
  {
    Word(c.r, c.g, c.b, c.w)
  }

  function ToRgb(c: Color): (x: u32)
    ensures x < 0x100_0000
  {
    Word(0, c.r, c.g, c.b)
  }

  /** The bytes of a word are read back by `from_rgbw`. */
  lemma WordFields(a: byte, b: byte, c: byte, d: byte)
    ensures FromRgbw(Word(a, b, c, d)) == Color(a, b, c, d)
  {
    var x := Word(a, b, c, d);
    var hi: int := b as int + 0x100 * a as int;
    assert x == d as int + 0x100 * (c as int + 0x100 * hi);
    assert x / 0x100 == c as int + 0x100 * hi;
    assert x / 0x1_0000 == (x / 0x100) / 0x100;
    assert x / 0x1_0000 == hi;
    assert x / 0x100_0000 == hi / 0x100;
  }

  /** Every word is the packing of its four bytes. */
  lemma WordOnto(x: u32)
    ensures var c := FromRgbw(x); Word(c.r, c.g, c.b, c.w) == x
  {
    var q1 := x / 0x100;
    var q2 := q1 / 0x100;
    var q3 := q2 / 0x100;
    assert x == x % 0x100 + 0x100 * q1;
    assert q1 == q1 % 0x100 + 0x100 * q2;
    assert q2 == q2 % 0x100 + 0x100 * q3;
    assert x / 0x1_0000 == q2;
    assert x / 0x100_0000 == q3;
    assert q3 < 0x100;
  }

  lemma RgbwRoundTrip(c: Color)
    ensures FromRgbw(ToRgbw(c)) == c
  {
    WordFields(c.r, c.g, c.b, c.w);
  }

  lemma RgbwOnto(x: u32)
    ensures ToRgbw(FromRgbw(x)) == x
  {
    WordOnto(x);
  }

  /** The 24-bit form keeps red, green and blue and drops white. */
  lemma RgbRoundTrip(c: Color)
    ensures FromRgb(ToRgb(c)) == c.(w := 0)
  {
    WordFields(0, c.r, c.g, c.b);
  }

  /** `color_to_data`: the word shifted out to the strip, green first. An
      RGB strip gets its 24 bits left-aligned, the low byte zero. */
  function ColorToData(c: Color, ty: PixelType): (x: u32)
  {
    if ty == Rgbw then Word(c.g, c.r, c.b, c.w) else Word(c.g, c.r, c.b, 0)
  }

  /** The word on the wire carries green, red, blue, then white (or 0). */
  lemma DataFields(c: Color, ty: PixelType)
    ensures FromRgbw(ColorToData(c, ty)) == Color(c.g, c.r, c.b, if ty == Rgbw then c.w else 0)
  {
    if ty == Rgbw {
      WordFields(c.g, c.r, c.b, c.w);
    } else {
      WordFields(c.g, c.r, c.b, 0);
    }
  }

  // ---------------------------------------------------------------------
  // Colour arithmetic

  lemma DivBound(m: nat, x: nat)
    requires m <= 0x100 * x
    ensures m / 0x100 <= x
  {
  }

  lemma DivMono(m1: nat, m2: nat)
    requires m1 <= m2
    ensures m1 / 0x100 <= m2 / 0x100
  {
  }

  /** A quotient is at least `k` when the dividend is at least `k` divisors. */
  lemma QuotAtLeast(m: nat, d: nat, k: nat)
    requires d > 0 && k >= 1 && m >= d * k
    ensures m / d >= k
  {
    var q, r := m / d, m % d;
    assert m == d * q + r;
    if q < k {
      MulMono(d, q, k - 1);
    }
  }

  /** `(x * k) >> 8`: `x` scaled by `k / 256`. */
  function Scale(x: byte, k: byte): (s: byte)
    ensures s <= x && s <= k
    ensures k == 0 || x == 0 ==> s == 0
  {
    MulMono(x as nat, k as nat, 0x100);
    MulMono(k as nat, x as nat, 0x100);
    DivBound(x as nat * k as nat, x as nat);
    DivBound(x as nat * k as nat, k as nat);
    (x as nat * k as nat) / 0x100
  }

  /** `apply_brightness`: 255 leaves the colour alone; otherwise every
      channel is scaled, white only on an RGBW strip. */
  function ApplyBrightness(c: Color, br: byte, ty: PixelType): (d: Color)
    ensures d.r <= c.r && d.g <= c.g && d.b <= c.b && d.w <= c.w
    ensures br == 255 ==> d == c
    ensures br == 0 ==> d.r == 0 && d.g == 0 && d.b == 0 && (ty == Rgbw ==> d.w == 0)
    ensures ty == Rgb ==> d.w == c.w
  {
    if br == 255 then c
    else Color(Scale(c.r, br), Scale(c.g, br), Scale(c.b, br), if ty == Rgbw then Scale(c.w, br) else c.w)
  }

  /** One channel of `blend_colors`: `(a * (255 - t) + b * t) >> 8`. */
  function Blend(a: byte, b: byte, t: byte): (m: byte)
    ensures Scale(Min(a as int, b as int) as byte, 255) <= m <= Max(a as int, b as int)
  {
    BlendBounds(a, b, t);
    (a as nat * (255 - t as nat) + b as nat * t as nat) / 0x100
  }

  /** A blended channel lies between the two inputs, up to the 255/256
      scaling the shift applies. */
  lemma BlendBounds(a: byte, b: byte, t: byte)
    ensures var m := (a as nat * (255 - t as nat) + b as nat * t as nat) / 0x100;
      Scale(Min(a as int, b as int) as byte, 255) <= m <= Max(a as int, b as int)
  {
    var lo, hi: nat := Min(a as int, b as int), Max(a as int, b as int);
    var u := 255 - t as nat;
    var m := a as nat * u + b as nat * t as nat;
    MulMono(u, a as nat, hi);
    MulMono(t as nat, b as nat, hi);
    MulMono(u, lo, a as nat);
    MulMono(t as nat, lo, b as nat);
    assert u * hi + t as nat * hi == 255 * hi;
    assert u * lo + t as nat * lo == 255 * lo;
    DivBound(m, hi);
    DivMono(lo * 255, m);
  }

  /** `blend_colors`, channel by channel including white. */
  function BlendColors(c1: Color, c2: Color, t: byte): (c: Color)
  {
    Color(Blend(c1.r, c2.r, t), Blend(c1.g, c2.g, t), Blend(c1.b, c2.b, t), Blend(c1.w, c2.w, t))
  }

  /** Blending at 0 keeps the first colour and at 255 reaches the second,
      each scaled by 255/256. */
  lemma BlendEnds(c1: Color, c2: Color)
    ensures BlendColors(c1, c2, 0) == Color(Scale(c1.r, 255), Scale(c1.g, 255), Scale(c1.b, 255), Scale(c1.w, 255))
    ensures BlendColors(c1, c2, 255) == Color(Scale(c2.r, 255), Scale(c2.g, 255), Scale(c2.b, 255), Scale(c2.w, 255))
  {
  }

  /** `hsv_to_rgb`. `region` and `remainder` are `uint8_t`, so both are
      cut to 8 bits; for hues below 256 nothing is cut. */
  function HsvToRgb(hue: u16, s: byte, v: byte): (c: Color)
    ensures c.w == 0
    ensures c.r <= v && c.g <= v && c.b <= v
    ensures c.r == v || c.g == v || c.b == v
    ensures s == 0 ==> c == Color(v, v, v, 0)
  {
    if s == 0 then Color(v, v, v, 0)
    else
      var region := (hue as nat / 43) % 0x100;
      assert region * 43 <= hue as nat;
      var remainder: byte := ((hue as nat - region * 43) * 6) % 0x100;
      var p := Scale(v, 255 - s);
      var q := Scale(v, 255 - Scale(s, remainder));
      var t := Scale(v, 255 - Scale(s, 255 - remainder));
      match region
      case 0 => Color(v, t, p, 0)
      case 1 => Color(q, v, p, 0)
      case 2 => Color(p, v, t, 0)
      case 3 => Color(p, q, v, 0)
      case 4 => Color(t, p, v, 0)
      case _ => Color(v, p, q, 0)
  }

  /** At full saturation one channel is off, and at full value another is
      fully on. */
  lemma FullSaturation(hue: u16)
    ensures var c := HsvToRgb(hue, 255, 255);
      (c.r == 0 || c.g == 0 || c.b == 0) && (c.r == 255 || c.g == 255 || c.b == 255)
  {
  }

  /** `wheel_color`: red, green and blue always add up to 255 and one of
      them is off. */
  function WheelColor(pos: byte): (c: Color)
    ensures c.r as nat + c.g as nat + c.b as nat == 255
    ensures c.r == 0 || c.g == 0 || c.b == 0
    ensures c.w == 0
  {
    var p := 255 - pos;
    if p < 85 then Color(255 - p * 3, 0, p * 3, 0)
    else if p < 170 then Color(0, (p - 85) * 3, 255 - (p - 85) * 3, 0)
    else Color((p - 170) * 3, 255 - (p - 170) * 3, 0, 0)
  }

  // ---------------------------------------------------------------------
  // Effect frames

  predicate Dark(c: Color)
  {
    c.r == 0 && c.g == 0 && c.b == 0
  }

  /** The chase tail pixel `i` steps behind: red, green and blue shifted
      right by `i`, white kept. */
  function Dim(c: Color, i: nat): (d: Color)
    requires 1 <= i <= 3
    ensures d.r <= c.r && d.g <= c.g && d.b <= c.b && d.w == c.w
  {
    var k := if i == 1 then 2 else if i == 2 then 4 else 8;
    Color(c.r / k, c.g / k, c.b / k, c.w)
  }

  function ChasePos(step: nat, n: nat): nat
    requires n > 0
  {
    step % n
  }

  lemma ModOnce(x: int, n: int)
    requires 0 <= x < 2 * n
    ensures x % n == if x < n then x else x - n
  {
    if x < n {
      DivModUnique(x, n, 0, x);
    } else {
      DivModUnique(x, n, 1, x - n);
    }
  }

  /** `(pos - i + num_leds) % num_leds` stored in a `uint16_t`: `i` places
      behind the head, wrapping round the strip. On a strip shorter than
      `i` the sum can be negative, and the result then wraps to an index
      past the strip. */
  function TailPos(step: nat, n: nat, i: nat): (t: u16)
    requires 0 < n < 0x1_0000
    ensures i <= n ==> t == if ChasePos(step, n) >= i then ChasePos(step, n) - i else ChasePos(step, n) + n - i
  {
    if ChasePos(step, n) + n >= i then ModOnce(ChasePos(step, n) + n - i, n); TailPosInRange(step, n, i)
    else (CRem(ChasePos(step, n) - i + n, n) + 0x1_0000) % 0x1_0000
  }

  function TailPosInRange(step: nat, n: nat, i: nat): u16
    requires 0 < n < 0x1_0000 && ChasePos(step, n) + n >= i
  {
    (ChasePos(step, n) - i + n) % n
  }

  /** `set_pixel` on a frame: an index past the strip is refused. */
  function Paint(f: seq<Color>, k: nat, c: Color): (g: seq<Color>)
    ensures |g| == |f|
  {
    if k < |f| then f[k := c] else f
  }

  /** The frame after the head and the first `i - 1` tail pixels: all
      off, the head at `step % n`, then dimmer pixels behind it; a later
      write wins where positions coincide on short strips. */
  function ChaseUpTo(n: nat, step: nat, c: Color, i: nat): (f: seq<Color>)
    requires 0 < n < 0x1_0000 && 1 <= i <= 4
    ensures |f| == n
  {
    if i == 1 then seq(n, _ => BLACK)[ChasePos(step, n) := c]
    else Paint(ChaseUpTo(n, step, c, i - 1), TailPos(step, n, i - 1), Dim(c, i - 1))
  }

  /** The frame `update_chase_animation` draws. */
  function ChaseFrame(n: nat, step: nat, c: Color): (f: seq<Color>)
    requires 0 < n < 0x1_0000
    ensures |f| == n
  {
    ChaseUpTo(n, step, c, 4)
  }

  /** On a strip longer than the tail the head and its three tail pixels
      are distinct, and every other pixel is off. */
  lemma ChaseShape(n: nat, step: nat, c: Color, j: nat)
    requires 3 < n < 0x1_0000 && j < n
    ensures var f := ChaseFrame(n, step, c); var pos := ChasePos(step, n);
      (j == pos ==> f[j] == c) &&
      (forall i :: 1 <= i <= 3 && j == TailPos(step, n, i) ==> f[j] == Dim(c, i)) &&
      (j != pos && (forall i :: 1 <= i <= 3 ==> j != TailPos(step, n, i)) ==> f[j] == BLACK)
  {
    var t1, t2, t3 := TailPos(step, n, 1), TailPos(step, n, 2), TailPos(step, n, 3);
    var f1 := seq(n, _ => BLACK)[ChasePos(step, n) := c];
    assert ChaseUpTo(n, step, c, 2) == f1[t1 := Dim(c, 1)];
    assert ChaseUpTo(n, step, c, 3) == f1[t1 := Dim(c, 1)][t2 := Dim(c, 2)];
    assert ChaseFrame(n, step, c) == f1[t1 := Dim(c, 1)][t2 := Dim(c, 2)][t3 := Dim(c, 3)];
  }

  /** The hue of pixel `i` in rainbow step `step`: `animation_step_ * 5`
      is cut to 8 bits, and the pixels spread the wheel evenly. */
  function RainbowHue(step: nat, i: nat, n: nat): (h: u16)
    requires n > 0
    ensures h < 0x100
  {
    (((step * 5) % 0x100) + i * 256 / n) % 0x100
  }

  /** `update_fade_animation`'s progress: elapsed time over the duration,
      scaled to 0..255; `elapsed_time * 255` is a 32-bit product. */
  function FadeProgress(elapsedMs: u32, duration: u32): (p: byte)
    requires duration > 0
    ensures elapsedMs as nat * 255 < WORD && elapsedMs >= duration ==> p == 255
  {
    var m: nat := (elapsedMs as nat * 255) % WORD;
    var q: nat := m / duration as nat;
    FadeEnds(elapsedMs, duration, m);
    if q < 255 then q else 255
  }

  lemma FadeEnds(elapsedMs: u32, duration: u32, m: nat)
    requires duration > 0 && m == (elapsedMs as nat * 255) % WORD
    ensures elapsedMs as nat * 255 < WORD && elapsedMs >= duration ==> m / duration as nat >= 255
  {
    if elapsedMs as nat * 255 < WORD && elapsedMs >= duration {
      MulMono(255, duration as nat, elapsedMs as nat);
      QuotAtLeast(m, duration as nat, 255);
    }
  }

  /** `update_fade_animation`'s progress as written: the quotient by the
      duration has no guard, and `fade_to_color(c, 0)` installs a zero
      duration that `task` lets through (its end check only runs for
      positive durations), so the division is by zero, undefined in C++;
      `None` stands for that. */
  function FadeProgressAsWritten(elapsedMs: u32, duration: u32): (p: Option<byte>)
    ensures p.None? <==> duration == 0
  {
    if duration == 0 then None else Some(FadeProgress(elapsedMs, duration))
  }

  /** A zero-length fade started by `fade_to_color` reaches the update with
      no defined progress. */
  lemma ZeroFadeDividesByZero(target: Color, br: byte, elapsedMs: u32)
    ensures var a := FadeAnimation(target, 0, br);
      !a.loop && !(a.duration > 0) && FadeProgressAsWritten(elapsedMs, a.duration).None?
  {
  }

  /** The progress with the zero duration guarded: a zero-length fade is
      complete at once. */
  function FadeProgressGuarded(elapsedMs: u32, duration: u32): (p: byte)
    ensures duration == 0 ==> p == 255
    ensures duration > 0 ==> FadeProgressAsWritten(elapsedMs, duration) == Some(p)
    ensures elapsedMs as nat * 255 < WORD && elapsedMs >= duration ==> p == 255
  {
    if duration == 0 then 255 else FadeProgress(elapsedMs, duration)
  }

  /** A twinkle flip: a dark pixel takes the effect colour, a lit one goes off. */
  function Toggle(c: Color, on: Color): Color
  {
    if Dark(c) then on else Color(0, 0, 0, 0)
  }

  /** With a colour that is not dark itself, a flip always changes whether
      the pixel is dark. */
  lemma ToggleFlips(c: Color, on: Color)
    requires !Dark(on)
    ensures Dark(Toggle(c, on)) <==> !Dark(c)
  {
  }

  // ---------------------------------------------------------------------
  // Animation descriptors the effect starters build

  function FadeAnimation(target: Color, duration: u32, br: byte): (a: Animation)
    ensures a.effect == Fade && !a.loop && a.duration == duration && a.color1 == target
  {
    Animation(Fade, duration, 20, target, BLACK, false, br)
  }

  function RainbowAnimation(speed: u32, loop: bool, br: byte): (a: Animation)
    ensures a.effect == Rainbow && a.loop == loop && a.speed == speed
    ensures a.duration == 0 <==> loop
  {
    Animation(Rainbow, if loop then 0 else 5000, speed, BLACK, BLACK, loop, br)
  }

  /** A non-looping chase lasts one lap, `num_leds * speed_ms`, cut to 32 bits. */
  function ChaseAnimation(c: Color, speed: u32, loop: bool, n: u16, br: byte): (a: Animation)
    ensures a.effect == Chase && a.loop == loop && a.speed == speed && a.color1 == c
    ensures loop ==> a.duration == 0
    ensures !loop && n as nat * speed as nat < WORD ==> a.duration as nat == n as nat * speed as nat
  {
    Animation(Chase, if loop then 0 else Wrap32(n as nat * speed as nat), speed, c, BLACK, loop, br)
  }

  /** A product cut to 32 bits. */
  function Wrap32(x: nat): (r: u32)
    ensures x < WORD ==> r as nat == x
  {
    x % WORD
  }

  function BreatheAnimation(c: Color, period: u32, loop: bool, br: byte): (a: Animation)
    ensures a.effect == Breathe && a.loop == loop && a.speed == 20 && a.color1 == c
    ensures a.duration == (if loop then 0 else period)
  {
    Animation(Breathe, if loop then 0 else period, 20, c, BLACK, loop, br)
  }

  function TwinkleAnimation(c: Color, speed: u32, loop: bool, br: byte): (a: Animation)
    ensures a.effect == Twinkle && a.loop == loop && a.speed == speed && a.color1 == c
    ensures a.duration == 0 <==> loop
  {
    Animation(Twinkle, if loop then 0 else 10000, speed, c, BLACK, loop, br)
  }

  // ---------------------------------------------------------------------
  // The strip

  class NeoPixel {
    const numLeds: nat
    const pixelType: PixelType
    var initialized: bool
    var pixels: seq<Color>
    var pixelData: seq<u32>
    var brightness: byte
    var running: bool
    var animation: Animation
    var startTime: u32
    var lastUpdate: u32
    var step: u32
    var startColors: seq<Color>

    ghost predicate Valid()
      reads this
    {
      numLeds < 0x1_0000 && |pixels| == numLeds && |pixelData| == numLeds && |startColors| == numLeds
    }

    /** All pixels off, full brightness, no animation, not yet initialised. */
    constructor (n: u16, ty: PixelType)
      ensures Valid() && numLeds == n as nat && pixelType == ty
      ensures !initialized && !running && brightness == 255 && step == 0
      ensures pixels == seq(n as nat, _ => BLACK) && startColors == pixels
      ensures pixelData == seq(n as nat, _ => 0)
    {
      numLeds, pixelType := n as nat, ty;
      initialized, running := false, false;
      pixels := seq(n as nat, _ => BLACK);
      pixelData := seq(n as nat, _ => 0);
      startColors := seq(n as nat, _ => BLACK);
      brightness := 255;
      animation := Animation(NoEffect, 0, 0, BLACK, BLACK, false, 0);
      startTime, lastUpdate, step := 0, 0, 0;
    }

    /** `init`: already initialised succeeds at once; otherwise the PIO
        program load, state-machine claim and configuration (`hwOk`)
        decide. */
    method Init(hwOk: bool) returns (ok: bool)
      modifies this
      ensures ok == (old(initialized) || hwOk) && initialized == ok
      ensures pixels == old(pixels) && pixelData == old(pixelData) && running == old(running)
      ensures startColors == old(startColors)
    {
      if initialized {
        return true;
      }
      if !hwOk {
        return false;
      }
      initialized := true;
      ok := true;
    }

    /** `set_pixel`: refused before initialisation or past the strip. */
    method SetPixel(index: nat, c: Color) returns (ok: bool)
      requires Valid()
      modifies this
      ensures Valid()
      ensures ok <==> initialized && index < numLeds
      ensures pixels == if ok then old(pixels)[index := c] else old(pixels)
      ensures initialized == old(initialized) && running == old(running) && brightness == old(brightness)
      ensures animation == old(animation) && step == old(step) && startColors == old(startColors)
      ensures pixelData == old(pixelData)
    {
      if !initialized || index >= numLeds {
        return false;
      }
      pixels := pixels[index := c];
      ok := true;
    }

    /** `set_all_pixels`: no readiness check. */
    method SetAllPixels(c: Color) returns (ok: bool)
      requires Valid()
      modifies this
      ensures Valid() && ok
      ensures pixels == seq(numLeds, _ => c)
      ensures initialized == old(initialized) && running == old(running) && brightness == old(brightness)
      ensures animation == old(animation) && step == old(step) && startColors == old(startColors)
      ensures pixelData == old(pixelData)
    {
      pixels := seq(numLeds, _ => c);
      ok := true;
    }

    method ClearAll() returns (ok: bool)
      requires Valid()
      modifies this
      ensures Valid() && ok
      ensures pixels == seq(numLeds, _ => BLACK)
      ensures initialized == old(initialized) && running == old(running) && brightness == old(brightness)
      ensures animation == old(animation) && step == old(step) && startColors == old(startColors)
      ensures pixelData == old(pixelData)
    {
      ok := SetAllPixels(BLACK);
    }

    /** `set_pixels`: copies `colors` from `start` on, stopping at the end
        of the strip. */
    method SetPixels(start: nat, colors: seq<Color>) returns (ok: bool)
      requires Valid()
      modifies this
      ensures Valid()
      ensures ok <==> initialized && start < numLeds
      ensures ok ==> forall j :: 0 <= j < numLeds ==>
        pixels[j] == if start <= j < start + |colors| then colors[j - start] else old(pixels)[j]
      ensures !ok ==> pixels == old(pixels)
      ensures initialized == old(initialized) && running == old(running) && brightness == old(brightness)
      ensures animation == old(animation) && step == old(step) && startColors == old(startColors)
      ensures pixelData == old(pixelData)
    {
      if !initialized || start >= numLeds {
        return false;
      }
      var i := 0;
      while i < |colors| && start + i < numLeds
        invariant i <= |colors| && |pixels| == numLeds
        invariant forall j :: 0 <= j < numLeds ==>
          pixels[j] == if start <= j < start + i then colors[j - start] else old(pixels)[j]
        invariant initialized == old(initialized) && running == old(running) && brightness == old(brightness)
        invariant animation == old(animation) && step == old(step) && startColors == old(startColors)
        invariant pixelData == old(pixelData)
      {
        pixels := pixels[start + i := colors[i]];
        i := i + 1;
      }
      ok := true;
    }

    /** `set_range`: `start + count` is cut to 16 bits before it is
        limited to the strip. */
    method SetRange(start: u16, count: u16, c: Color) returns (ok: bool)
      requires Valid()
      modifies this
      ensures Valid()
      ensures ok <==> initialized && start as nat < numLeds
      ensures var end := RangeEnd(start, count, numLeds);
        forall j :: 0 <= j < numLeds ==>
          pixels[j] == if ok && start as nat <= j < end then c else old(pixels)[j]
      ensures initialized == old(initialized) && running == old(running) && brightness == old(brightness)
      ensures animation == old(animation) && step == old(step) && startColors == old(startColors)
      ensures pixelData == old(pixelData)
    {
      if !initialized || start as nat >= numLeds {
        return false;
      }
      var end := RangeEnd(start, count, numLeds);
      var i := start as nat;
      while i < end
        invariant start as nat <= i && |pixels| == numLeds
        invariant i == start as nat || i <= end
        invariant forall j :: 0 <= j < numLeds ==>
          pixels[j] == if start as nat <= j < i then c else old(pixels)[j]
        invariant initialized == old(initialized) && running == old(running) && brightness == old(brightness)
        invariant animation == old(animation) && step == old(step) && startColors == old(startColors)
        invariant pixelData == old(pixelData)
      {
        pixels := pixels[i := c];
        i := i + 1;
      }
      ok := true;
    }

    /** `get_pixel`: a default (all-off) colour past the strip. */
    method GetPixel(index: nat) returns (c: Color)
      requires Valid()
      ensures index < numLeds ==> c == pixels[index]
      ensures index >= numLeds ==> c == BLACK
    {
      if index >= numLeds {
        return BLACK;
      }
      c := pixels[index];
    }

    method SetBrightness(br: byte)
      modifies this
      ensures brightness == br
      ensures pixels == old(pixels) && initialized == old(initialized) && running == old(running)
      ensures pixelData == old(pixelData) && startColors == old(startColors)
      ensures animation == old(animation) && step == old(step)
    {
      brightness := br;
    }

    /** `prepare_pixel_data`: every pixel scaled by the brightness and
        packed for the wire. */
    method PreparePixelData()
      requires Valid()
      modifies this
      ensures Valid()
      ensures forall i :: 0 <= i < numLeds ==>
        pixelData[i] == ColorToData(ApplyBrightness(pixels[i], brightness, pixelType), pixelType)
      ensures pixels == old(pixels) && initialized == old(initialized) && running == old(running)
      ensures brightness == old(brightness) && startColors == old(startColors)
      ensures animation == old(animation) && step == old(step)
    {
      var i := 0;
      while i < numLeds
        invariant i <= numLeds && |pixelData| == numLeds
        invariant pixels == old(pixels) && initialized == old(initialized) && running == old(running)
        invariant forall j :: 0 <= j < i ==>
          pixelData[j] == ColorToData(ApplyBrightness(pixels[j], brightness, pixelType), pixelType)
        invariant brightness == old(brightness) && startColors == old(startColors)
        invariant animation == old(animation) && step == old(step)
      {
        pixelData := pixelData[i := ColorToData(ApplyBrightness(pixels[i], brightness, pixelType), pixelType)];
        i := i + 1;
      }
    }

    /** `deinit`: stop the animation, switch every pixel off and prepare
        that frame, then release the hardware. */
    method Deinit()
      requires Valid()
      modifies this
      ensures Valid() && !initialized
      ensures old(initialized) ==> (!running && pixels == seq(numLeds, _ => BLACK) &&
        forall i :: 0 <= i < numLeds ==> pixelData[i] == ColorToData(ApplyBrightness(BLACK, brightness, pixelType), pixelType))
      ensures !old(initialized) ==> pixels == old(pixels) && running == old(running) && pixelData == old(pixelData)
    {
      if initialized {
        running := false;
        var _ := ClearAll();
        PreparePixelData();
        initialized := false;
      }
    }

    /** `start_animation`: remembers the current colours as the starting
        point, restarts the step count and takes the animation's
        brightness. */
    method StartAnimation(a: Animation, now: u32) returns (ok: bool)
      requires Valid()
      modifies this
      ensures Valid()
      ensures ok == initialized && initialized == old(initialized) && pixels == old(pixels)
      ensures ok ==> running && animation == a && step == 0 && startColors == old(pixels) &&
                     brightness == a.brightness && startTime == now && lastUpdate == now
      ensures !ok ==> running == old(running) && animation == old(animation) && step == old(step) &&
                      startColors == old(startColors) && brightness == old(brightness)
      ensures pixelData == old(pixelData)
    {
      if !initialized {
        return false;
      }
      startColors := pixels;
      animation := a;
      running := true;
      startTime, lastUpdate := now, now;
      step := 0;
      brightness := a.brightness;
      ok := true;
    }

    method StopAnimation() returns (ok: bool)
      modifies this
      ensures ok && !running
      ensures pixels == old(pixels) && initialized == old(initialized) && animation == old(animation)
      ensures startColors == old(startColors) && pixelData == old(pixelData) && brightness == old(brightness)
      ensures step == old(step)
    {
      running := false;
      ok := true;
    }

    method FadeToColor(target: Color, duration: u32, now: u32) returns (ok: bool)
      requires Valid()
      modifies this
      ensures Valid() && ok == initialized
      ensures ok ==> running && animation == FadeAnimation(target, duration, old(brightness))
    {
      ok := StartAnimation(FadeAnimation(target, duration, brightness), now);
    }

    method RainbowCycle(speed: u32, loop: bool, now: u32) returns (ok: bool)
      requires Valid()
      modifies this
      ensures Valid() && ok == initialized
      ensures ok ==> running && animation == RainbowAnimation(speed, loop, old(brightness))
    {
      ok := StartAnimation(RainbowAnimation(speed, loop, brightness), now);
    }

    method ColorChase(c: Color, speed: u32, loop: bool, now: u32) returns (ok: bool)
      requires Valid()
      modifies this
      ensures Valid() && ok == initialized
      ensures ok ==> running && animation == ChaseAnimation(c, speed, loop, numLeds as u16, old(brightness))
    {
      ok := StartAnimation(ChaseAnimation(c, speed, loop, numLeds as u16, brightness), now);
    }

    method BreatheEffect(c: Color, period: u32, loop: bool, now: u32) returns (ok: bool)
      requires Valid()
      modifies this
      ensures Valid() && ok == initialized
      ensures ok ==> running && animation == BreatheAnimation(c, period, loop, old(brightness))
    {
      ok := StartAnimation(BreatheAnimation(c, period, loop, brightness), now);
    }

    method TwinkleEffect(c: Color, speed: u32, loop: bool, now: u32) returns (ok: bool)
      requires Valid()
      modifies this
      ensures Valid() && ok == initialized
      ensures ok ==> running && animation == TwinkleAnimation(c, speed, loop, old(brightness))
    {
      ok := StartAnimation(TwinkleAnimation(c, speed, loop, brightness), now);
    }

    /** `update_fade_animation` with the milliseconds since the start: every
        pixel is its starting colour blended towards the target, and the
        animation stops once progress reaches 255. The zero duration is
        guarded: such a fade ends on its first update at the target. */
    method UpdateFade(elapsedMs: u32)
      requires Valid()
      modifies this
      ensures Valid()
      ensures animation == old(animation) && startColors == old(startColors) && initialized == old(initialized)
      ensures step == old(step)
      ensures var p := FadeProgressGuarded(elapsedMs, animation.duration);
        (forall i :: 0 <= i < numLeds ==> pixels[i] == BlendColors(startColors[i], animation.color1, p)) &&
        running == (old(running) && p < 255)
      ensures animation.duration == 0 ==> !running
    {
      var progress := FadeProgressGuarded(elapsedMs, animation.duration);
      var i := 0;
      while i < numLeds
        invariant i <= numLeds && |pixels| == numLeds
        invariant animation == old(animation) && startColors == old(startColors) && initialized == old(initialized)
        invariant forall j :: 0 <= j < i ==> pixels[j] == BlendColors(startColors[j], animation.color1, progress)
        invariant running == old(running) && step == old(step) && pixelData == old(pixelData)
      {
        pixels := pixels[i := BlendColors(startColors[i], animation.color1, progress)];
        i := i + 1;
      }
      if progress >= 255 {
        var _ := StopAnimation();
      }
    }

    /** `update_rainbow_animation`: pixel `i` shows the fully saturated hue
        `RainbowHue(step, i, n)`. */
    method UpdateRainbow()
      requires Valid() && numLeds > 0
      modifies this
      ensures Valid()
      ensures forall i :: 0 <= i < numLeds ==> pixels[i] == HsvToRgb(RainbowHue(step as nat, i, numLeds), 255, 255)
      ensures animation == old(animation) && startColors == old(startColors) && initialized == old(initialized)
      ensures running == old(running) && step == old(step)
    {
      var i := 0;
      while i < numLeds
        invariant i <= numLeds && |pixels| == numLeds
        invariant forall j :: 0 <= j < i ==> pixels[j] == HsvToRgb(RainbowHue(step as nat, j, numLeds), 255, 255)
        invariant animation == old(animation) && startColors == old(startColors) && initialized == old(initialized)
        invariant running == old(running) && step == old(step) && pixelData == old(pixelData)
      {
        pixels := pixels[i := HsvToRgb(RainbowHue(step as nat, i, numLeds), 255, 255)];
        i := i + 1;
      }
    }

    /** `update_chase_animation`, run by the task only while the strip is
        ready. */
    method UpdateChase()
      requires Valid() && numLeds > 0 && initialized
      modifies this
      ensures Valid()
      ensures pixels == ChaseFrame(numLeds, step as nat, animation.color1)
      ensures animation == old(animation) && startColors == old(startColors) && initialized == old(initialized)
      ensures running == old(running) && step == old(step)
    {
      var _ := ClearAll();
      var pos := step as nat % numLeds;
      var _ := SetPixel(pos, animation.color1);
      var i := 1;
      while i <= 3
        invariant 1 <= i <= 4 && Valid()
        invariant pixels == ChaseUpTo(numLeds, step as nat, animation.color1, i)
        invariant animation == old(animation) && startColors == old(startColors) && initialized == old(initialized)
        invariant running == old(running) && step == old(step)
      {
        var tail := TailPos(step as nat, numLeds, i);
        var _ := SetPixel(tail, Dim(animation.color1, i));
        i := i + 1;
      }
    }

    /** `update_twinkle_animation` with the random draws as `flips`
        (`rand() % 100 < 5` per pixel). */
    method UpdateTwinkle(flips: seq<bool>)
      requires Valid() && |flips| == numLeds
      modifies this
      ensures Valid()
      ensures forall i :: 0 <= i < numLeds ==>
        pixels[i] == if flips[i] then Toggle(old(pixels)[i], animation.color1) else old(pixels)[i]
      ensures animation == old(animation) && startColors == old(startColors) && initialized == old(initialized)
      ensures running == old(running) && step == old(step)
    {
      var i := 0;
      while i < numLeds
        invariant i <= numLeds && |pixels| == numLeds
        invariant forall j :: 0 <= j < numLeds ==>
          pixels[j] == if j < i && flips[j] then Toggle(old(pixels)[j], animation.color1) else old(pixels)[j]
        invariant animation == old(animation) && startColors == old(startColors) && initialized == old(initialized)
        invariant running == old(running) && step == old(step) && pixelData == old(pixelData)
      {
        if flips[i] {
          pixels := pixels[i := Toggle(pixels[i], animation.color1)];
        }
        i := i + 1;
      }
    }
  }

  /** The end of the range `set_range` paints: `start + count` in 16 bits,
      limited to the strip. */
  function RangeEnd(start: u16, count: u16, n: nat): (e: nat)
    ensures e <= n
    ensures start as nat + count as nat < 0x1_0000 ==> e == Min(start as nat + count as nat, n)
  {
    Min((start as nat + count as nat) % 0x1_0000, n)
  }

  /** A range that runs past 65535 wraps to a small end and paints nothing
      from its start. */
  lemma RangeWrapPaintsNothing()
    ensures RangeEnd(10, 0xFFFF, 100) == 9
  {
  }

}
