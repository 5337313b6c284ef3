/** The font system and font data: UTF-8 lead-byte lengths and decoding,
    the ASCII binary search and Chinese linear search over the index
    strings, the unified character lookup, the default box glyph, glyph
    bit addressing with `draw_char_bitmap`, and the text-width loops of the
    graphics engine. */
module Fonts {
  import opened Common
  import opened Bits
  import opened Graphics

  const ASCII_START: byte := 32
  const ASCII_END: byte := 126
  /** The width `get_chinese_char_width` falls back to. */
  const DEFAULT_CHINESE_WIDTH: byte := 12
  const BOX_BYTES: nat := 28
  const SPACE: byte := 32

  /** A NUL-terminated string: reading at or past its end gives the
      terminator. */
  function At(s: seq<byte>, i: nat): byte
  {
    if i < |s| then s[i] else 0
  }

  // ---------------------------------------------------------------------
  // UTF-8. For a byte `c`, `(c & 0x80) == 0` is `c < 0x80`,
  // `(c & 0xE0) == 0xC0` is `0xC0 <= c < 0xE0`, `(c & 0xE0) == 0xE0` is
  // `c >= 0xE0`, `(c & 0xF0) == 0xE0` is `0xE0 <= c < 0xF0` and
  // `(c & 0xF8) == 0xF0` is `0xF0 <= c < 0xF8`; `c & 0x0F`, `c & 0x1F` and
  // `c & 0x3F` keep the low 4, 5 and 6 bits.

  /** `FontSystem::utf8_char_length`: a null pointer has length 0; an
      invalid lead byte counts as one byte. */
  function SystemCharLength(p: Option<seq<byte>>): (n: nat)
    ensures p.Some? ==> 1 <= n <= 4
  {
    match p
    case None => 0
    case Some(s) =>
      var c := At(s, 0);
      if c < 0x80 then 1
      else if 0xC0 <= c < 0xE0 then 2
      else if 0xE0 <= c < 0xF0 then 3
      else if 0xF0 <= c < 0xF8 then 4
      else 1
  }

  /** `FontData::utf8_char_length`, the font data's own copy. */
  function DataCharLength(s: seq<byte>): (n: nat)
    ensures 1 <= n <= 4
  {
    var c := At(s, 0);
    if c < 0x80 then 1
    else if 0xC0 <= c < 0xE0 then 2
    else if 0xE0 <= c < 0xF0 then 3
    else if 0xF0 <= c < 0xF8 then 4
    else 1
  }

  /** The two copies agree on every string. */
  lemma CharLengthsAgree(s: seq<byte>)
    ensures SystemCharLength(Some(s)) == DataCharLength(s)
  {
  }

  /** `FontSystem::utf8_to_unicode`: ASCII, three-byte and two-byte
      sequences are decoded; anything else gives 0. A continuation byte is
      only checked for its top bit. */
  function Utf8ToUnicode(p: Option<seq<byte>>): (u: u32)
    ensures u < 0x1_0000
  {
    match p
    case None => 0
    case Some(s) =>
      var c1 := At(s, 0);
      if c1 < 0x80 then c1
      else if c1 >= 0xE0 && At(s, 1) >= 0x80 && At(s, 2) >= 0x80 then
        (c1 % 0x10) * 0x1000 + (At(s, 1) % 0x40) * 0x40 + At(s, 2) % 0x40
      else if 0xC0 <= c1 < 0xE0 && At(s, 1) >= 0x80 then
        (c1 % 0x20) * 0x40 + At(s, 1) % 0x40
      else 0
  }

  /** The UTF-8 encoding of a code point of the Basic Multilingual Plane. */
  function Utf8Encode(u: nat): (s: seq<byte>)
    requires u < 0x1_0000
    ensures 1 <= |s| <= 3
  {
    if u < 0x80 then [u]
    else if u < 0x800 then [0xC0 + u / 0x40, 0x80 + u % 0x40]
    else [0xE0 + u / 0x1000, 0x80 + (u / 0x40) % 0x40, 0x80 + u % 0x40]
  }

  /** Decoding an encoded code point gives it back, and both length
      functions read the encoding's length from its lead byte. */
  lemma Utf8RoundTrip(u: nat)
    requires u < 0x1_0000
    ensures Utf8ToUnicode(Some(Utf8Encode(u))) == u
    ensures DataCharLength(Utf8Encode(u)) == |Utf8Encode(u)| == SystemCharLength(Some(Utf8Encode(u)))
  {
    if 0x800 <= u {
      Utf8Three(u);
    } else if 0x80 <= u {
      Utf8Two(u);
    }
  }

  lemma Utf8Three(u: nat)
    requires 0x800 <= u < 0x1_0000
    ensures Utf8ToUnicode(Some(Utf8Encode(u))) == u && 0xE0 <= Utf8Encode(u)[0] < 0xF0
  {
    var c := u % 0x40;
    var h := u / 0x40;
    var a, b := h / 0x40, h % 0x40;
    assert u == 0x1000 * a + (0x40 * b + c);
    DivModUnique(u, 0x1000, a, 0x40 * b + c);
    var s := Utf8Encode(u);
    assert s == [0xE0 + a, 0x80 + b, 0x80 + c];
    assert (0xE0 + a) % 0x10 == a && (0x80 + b) % 0x40 == b && (0x80 + c) % 0x40 == c;
  }

  lemma Utf8Two(u: nat)
    requires 0x80 <= u < 0x800
    ensures Utf8ToUnicode(Some(Utf8Encode(u))) == u && 0xC0 <= Utf8Encode(u)[0] < 0xE0
  {
    var c := u % 0x40;
    var h := u / 0x40;
    var s := Utf8Encode(u);
    assert s == [0xC0 + h, 0x80 + c];
    assert (0xC0 + h) % 0x20 == h && (0x80 + c) % 0x40 == c;
  }

  // ---------------------------------------------------------------------
  // Font tables

  /** The font data's extern tables: the ASCII index string and bitmaps,
      the Chinese index string (three UTF-8 bytes per character) and
      bitmaps, and each font's cell size. */
  datatype FontTables = FontTables(
    asciiIndex: seq<byte>, asciiWidth: byte, asciiHeight: byte, asciiBits: seq<seq<byte>>,
    chineseIndex: seq<byte>, chineseCount: nat, chineseWidth: byte, chineseHeight: byte, chineseBits: seq<seq<byte>>)

  /** Every index entry has a bitmap and the Chinese index string holds
      three bytes per character. */
  predicate WellFormed(f: FontTables)
  {
    |f.asciiBits| >= |f.asciiIndex| && |f.chineseIndex| >= 3 * f.chineseCount && |f.chineseBits| >= f.chineseCount
  }

  predicate Ascending(s: seq<byte>)
  {
    forall i, j :: 0 <= i < j < |s| ==> s[i] < s[j]
  }

  /** `binary_search_ascii`: a found position holds the target; over an
      ascending index string, not finding it means it is absent. */
  method BinarySearchAscii(index: seq<byte>, target: byte) returns (r: int)
    ensures -1 <= r < |index|
    ensures r >= 0 ==> index[r] == target
    ensures r == -1 && Ascending(index) ==> target !in index
  {
    var left, right := 0, |index| - 1;
    while left <= right
      invariant 0 <= left && right < |index| && left <= right + 1
      invariant Ascending(index) ==> forall i :: 0 <= i < |index| && index[i] == target ==> left <= i <= right
      decreases right - left
    {
      var mid := (left + right) / 2;
      var midChar := index[mid];
      if midChar == target {
        return mid;
      } else if midChar < target {
        left := mid + 1;
      } else {
        right := mid - 1;
      }
    }
    r := -1;
  }

  /** Entry `i` of the Chinese index string matches the first
      `min(3, len)` bytes of `s`. */
  predicate EntryMatches(index: seq<byte>, i: nat, s: seq<byte>, len: nat)
    requires 3 * i + 3 <= |index|
  {
    forall j :: 0 <= j < 3 && j < len ==> At(s, j) == index[3 * i + j]
  }

  /** `binary_search_chinese`, a linear search: strings whose lead byte
      does not start a multi-byte sequence are refused; otherwise the
      first entry whose leading bytes match. */
  method SearchChinese(index: seq<byte>, count: nat, s: seq<byte>) returns (r: int)
    requires |index| >= 3 * count
    ensures -1 <= r < count
    ensures r >= 0 ==> (DataCharLength(s) >= 2 && EntryMatches(index, r, s, DataCharLength(s)) &&
                        forall i :: 0 <= i < r ==> !EntryMatches(index, i, s, DataCharLength(s)))
    ensures r == -1 ==> DataCharLength(s) < 2 || forall i :: 0 <= i < count ==> !EntryMatches(index, i, s, DataCharLength(s))
  {
    var len := DataCharLength(s);
    if len < 2 {
      return -1;
    }
    var i := 0;
    while i < count
      invariant i <= count
      invariant forall k :: 0 <= k < i ==> !EntryMatches(index, k, s, len)
    {
      var pos := i * 3;
      var matched := true;
      var j := 0;
      while j < 3 && j < len
        invariant 0 <= j <= 3
        invariant matched
        invariant forall m :: 0 <= m < j ==> At(s, m) == index[pos + m]
      {
        if At(s, j) != index[pos + j] {
          matched := false;
          break;
        }
        j := j + 1;
      }
      if matched {
        return i;
      }
      i := i + 1;
    }
    r := -1;
  }

  /** `FontSearchResult`: a missing bitmap is the empty sequence. */
  datatype SearchResult = SearchResult(bitmap: seq<byte>, width: byte, height: byte, found: bool)

  const NOT_FOUND: SearchResult := SearchResult([], 0, 0, false)

  /** `find_character`: a lead byte of 0x80 or more is looked up in the
      Chinese font, anything else in the ASCII font; a null or empty
      string finds nothing. */
  method FindCharacter(f: FontTables, p: Option<seq<byte>>) returns (res: SearchResult)
    requires WellFormed(f)
    ensures p.None? || At(p.value, 0) == 0 ==> res == NOT_FOUND
    ensures p.Some? && At(p.value, 0) >= 0x80 ==>
      (res.found ==> (res.width == f.chineseWidth && res.height == f.chineseHeight &&
                      exists i :: 0 <= i < f.chineseCount && res.bitmap == f.chineseBits[i] &&
                                  EntryMatches(f.chineseIndex, i, p.value, DataCharLength(p.value)))) &&
      (!res.found ==> (res == NOT_FOUND && (DataCharLength(p.value) < 2 ||
                       forall i :: 0 <= i < f.chineseCount ==> !EntryMatches(f.chineseIndex, i, p.value, DataCharLength(p.value)))))
    ensures p.Some? && 0 < At(p.value, 0) < 0x80 ==>
      (res.found ==> (res.width == f.asciiWidth && res.height == f.asciiHeight &&
                      exists i :: 0 <= i < |f.asciiIndex| && res.bitmap == f.asciiBits[i] && f.asciiIndex[i] == At(p.value, 0))) &&
      (!res.found ==> (res == NOT_FOUND && (Ascending(f.asciiIndex) ==> At(p.value, 0) !in f.asciiIndex)))
  {
    if p.None? || At(p.value, 0) == 0 {
      return NOT_FOUND;
    }
    var s := p.value;
    if At(s, 0) >= 0x80 {
      var index := SearchChinese(f.chineseIndex, f.chineseCount, s);
      if index >= 0 {
        return SearchResult(f.chineseBits[index], f.chineseWidth, f.chineseHeight, true);
      }
    } else {
      var index := BinarySearchAscii(f.asciiIndex, At(s, 0));
      if index >= 0 {
        return SearchResult(f.asciiBits[index], f.asciiWidth, f.asciiHeight, true);
      }
    }
    res := NOT_FOUND;
  }

  // ---------------------------------------------------------------------
  // Glyph bits

  /** `bitmap->data[byte] & (0x80 >> bit)`: bits run from the most
      significant end of each byte. */
  predicate MsbBit(data: seq<byte>, bitIndex: nat)
  {
    bitIndex / 8 < |data| && Bit(data[bitIndex / 8] as nat, 7 - bitIndex % 8)
  }

  /** `draw_char_bitmap`'s addressing as written: the glyph is read as one
      packed bit stream, `width` bits per row. */
  predicate PackedOn(data: seq<byte>, width: nat, row: nat, col: nat)
  {
    MsbBit(data, row * width + col)
  }

  /** Addressing with rows padded to whole bytes, the layout of the
      28-byte Chinese bitmaps and of `create_default_box_char`. */
  predicate PitchedOn(data: seq<byte>, width: nat, row: nat, col: nat)
  {
    MsbBit(data, row * 8 * ((width + 7) / 8) + col)
  }

  /** The two addressings agree on glyphs whose width is a whole number of
      bytes, such as the 8-pixel ASCII font. */
  lemma AddressingAgreesOnByteWidths(data: seq<byte>, width: nat, row: nat, col: nat)
    requires width % 8 == 0
    ensures PackedOn(data, width, row, col) == PitchedOn(data, width, row, col)
  {
    var q := width / 8;
    DivModUnique(width + 7, 8, q, 7);
    assert row * 8 * q == row * width;
  }

  /** Byte `i` of the box `create_default_box_char` writes, two bytes per
      row: the top and bottom rows are 11 pixels wide, the rows between
      have their pixels at columns 0 and 10. */
  function BoxByte(i: nat): byte
  {
    if i < 2 || 26 <= i then (if i % 2 == 0 then 0xFF else 0xE0)
    else if i % 2 == 0 then 0x80 else 0x20
  }

  const BOX_GLYPH: seq<byte> := seq(BOX_BYTES, i requires 0 <= i => BoxByte(i))

  predicate BoxBorder(row: nat, col: nat)
  {
    ((row == 0 || row == 13) && col <= 10) || (1 <= row <= 12 && (col == 0 || col == 10))
  }

  /** Read with rows of two bytes, the default glyph is exactly the box. */
  lemma BoxGlyphShape(row: nat, col: nat)
    requires row < 14 && col < 16
    ensures PitchedOn(BOX_GLYPH, 14, row, col) <==> BoxBorder(row, col)
  {
    var i := 16 * row + col;
    assert row * 8 * ((14 + 7) / 8) + col == i;
    DivModUnique(i, 8, 2 * row + col / 8, col % 8);
    var b := BOX_GLYPH[2 * row + col / 8];
    ByteBits(b, col % 8);
  }

  /** The bits of the four byte values the box uses, most significant
      first. */
  lemma ByteBits(b: byte, k: nat)
    requires k < 8 && (b == 0xFF || b == 0xE0 || b == 0x80 || b == 0x20)
    ensures b == 0xFF ==> Bit(b as nat, 7 - k)
    ensures b == 0xE0 ==> (Bit(b as nat, 7 - k) <==> k < 3)
    ensures b == 0x80 ==> (Bit(b as nat, 7 - k) <==> k == 0)
    ensures b == 0x20 ==> (Bit(b as nat, 7 - k) <==> k == 2)
  {
    if k == 0 {
      assert Bit(0xFF, 7) && Bit(0xE0, 7) && Bit(0x80, 7) && !Bit(0x20, 7);
    } else if k == 1 {
      assert Bit(0xFF, 6) && Bit(0xE0, 6) && !Bit(0x80, 6) && !Bit(0x20, 6);
    } else if k == 2 {
      assert Bit(0xFF, 5) && Bit(0xE0, 5) && !Bit(0x80, 5) && Bit(0x20, 5);
    } else if k == 3 {
      assert Bit(0xFF, 4) && !Bit(0xE0, 4) && !Bit(0x80, 4) && !Bit(0x20, 4);
    } else if k == 4 {
      assert Bit(0xFF, 3) && !Bit(0xE0, 3) && !Bit(0x80, 3) && !Bit(0x20, 3);
    } else if k == 5 {
      assert Bit(0xFF, 2) && !Bit(0xE0, 2) && !Bit(0x80, 2) && !Bit(0x20, 2);
    } else if k == 6 {
      assert Bit(0xFF, 1) && !Bit(0xE0, 1) && !Bit(0x80, 1) && !Bit(0x20, 1);
    } else {
      assert Bit(0xFF, 0) && !Bit(0xE0, 0) && !Bit(0x80, 0) && !Bit(0x20, 0);
    }
  }

  /** Drawn by `draw_char_bitmap` as a 14-pixel-wide glyph, the box loses
      its left edge on the second row. */
  lemma BoxReadPacked()
    ensures !PackedOn(BOX_GLYPH, 14, 1, 0) && BoxBorder(1, 0) && PitchedOn(BOX_GLYPH, 14, 1, 0)
  {
    BoxGlyphShape(1, 0);
    assert BOX_GLYPH[1] == 0xE0;
    ByteBits(0xE0, 6);
  }

  /** `create_default_box_char`: the 28 bytes of the box; a null buffer
      is left alone. */
  method CreateDefaultBoxChar(buffer: array?<byte>)
    requires buffer != null ==> buffer.Length >= BOX_BYTES
    modifies buffer
    ensures buffer != null ==> buffer[..BOX_BYTES] == BOX_GLYPH && buffer[BOX_BYTES..] == old(buffer[BOX_BYTES..])
  {
    if buffer == null {
      return;
    }
    forall i | 0 <= i < BOX_BYTES {
      buffer[i] := 0;
    }
    buffer[0], buffer[1] := 0xFF, 0xE0;
    buffer[26], buffer[27] := 0xFF, 0xE0;
    var row := 1;
    while row < 13
      invariant 1 <= row <= 13
      invariant buffer[0] == 0xFF && buffer[1] == 0xE0 && buffer[26] == 0xFF && buffer[27] == 0xE0
      invariant forall r :: 1 <= r < row ==> buffer[2 * r] == 0x80 && buffer[2 * r + 1] == 0x20
      invariant buffer[BOX_BYTES..] == old(buffer[BOX_BYTES..])
    {
      var offset := row * 2;
      buffer[offset] := 0x80;
      buffer[offset + 1] := 0x20;
      row := row + 1;
    }
    forall i | 0 <= i < BOX_BYTES
      ensures buffer[..BOX_BYTES][i] == BOX_GLYPH[i]
    {
      if 2 <= i < 26 {
        var r := i / 2;
        assert i == 2 * r || i == 2 * r + 1;
      }
    }
  }

  // ---------------------------------------------------------------------
  // Drawing a glyph

  /** `CharBitmap`. */
  datatype CharBitmap = CharBitmap(width: byte, height: byte, data: seq<byte>)

  /** The glyph cell (`row`, `col`) that lands on screen index `k` when the
      glyph is drawn at (`x`, `y`): `x + col` is cut to 16 bits, so the
      column is the distance from `x` modulo 2^16. */
  function CellCol(k: nat, x: int): nat
  {
    (k % SCREEN_WIDTH - x) % 0x1_0000
  }

  function CellRow(k: nat, y: int): nat
  {
    (k / SCREEN_WIDTH - y) % 0x1_0000
  }

  /** Screen index `k` shows a set glyph bit among the cells drawn so far:
      all rows before `row`, and the columns before `col` of row `row`. */
  predicate Drawn(g: CharBitmap, x: int, y: int, k: nat, row: nat, col: nat)
  {
    var r, c := CellRow(k, y), CellCol(k, x);
    c < g.width && r < g.height && (r < row || (r == row && c < col)) && PackedOn(g.data, g.width, r, c)
  }

  /** A glyph pixel lands on index `k` exactly when `k` is its on-screen
      position. */
  lemma CellOfIndex(x: int, y: int, row: nat, col: nat, k: nat)
    requires row < 0x100 && col < 0x100 && k < SCREEN_BUFFER_SIZE
    ensures (CellCol(k, x) == col && CellRow(k, y) == row) <==>
      (OnScreen(I16(x + col), I16(y + row)) && k == Index(I16(x + col), I16(y + row)))
  {
    ModAxis(x, col, k % SCREEN_WIDTH);
    ModAxis(y, row, k / SCREEN_WIDTH);
    if OnScreen(I16(x + col), I16(y + row)) {
      IndexCoords(I16(x + col), I16(y + row));
    }
  }

  /** Along one axis: `(p - x) mod 2^16 == d` exactly when `x + d` cut to
      16 bits is `p`. */
  lemma ModAxis(x: int, d: nat, p: nat)
    requires d < 0x1_0000 && p < 0x8000
    ensures (p - x) % 0x1_0000 == d <==> I16(x + d) == p
  {
    if I16(x + d) == p {
      var q := (x + d) / 0x1_0000;
      assert (x + d) % 0x1_0000 == p;
      DivModUnique(p - x, 0x1_0000, -q, d);
    }
    if (p - x) % 0x1_0000 == d {
      var q := (p - x) / 0x1_0000;
      DivModUnique(x + d, 0x1_0000, -q, p);
    }
  }

  /** Adding cell (`row`, `col`) to the cells drawn so far. */
  lemma DrawnStep(g: CharBitmap, x: int, y: int, k: nat, row: nat, col: nat)
    requires row < g.height && col < g.width
    ensures Drawn(g, x, y, k, row, col + 1) <==>
      Drawn(g, x, y, k, row, col) || (CellCol(k, x) == col && CellRow(k, y) == row && PackedOn(g.data, g.width, row, col))
  {
  }

  /** One pass of `draw_char_bitmap`'s inner loop: the bit of cell
      (`row`, `col`) at `row * width + col`, and a `set_pixel` if it is
      set. */
  method PlotCell(g: CharBitmap, x: int, y: int, row: nat, col: nat, color: u16, engine: GraphicsEngine)
    requires engine.Valid() && engine.fb != null
    requires row < g.height && col < g.width && |g.data| * 8 >= g.width as nat * g.height as nat
    modifies engine.fb
    ensures forall k :: 0 <= k < SCREEN_BUFFER_SIZE ==>
      engine.fb[k] == if CellCol(k, x) == col && CellRow(k, y) == row && PackedOn(g.data, g.width, row, col)
                      then color else old(engine.fb[k])
  {
    var bitIndex := row * g.width + col;
    MulMono(g.width as nat, row, g.height as nat - 1);
    assert g.width as nat * (g.height as nat - 1) + g.width == g.width as nat * g.height;
    if Bit(g.data[bitIndex / 8] as nat, 7 - bitIndex % 8) {
      engine.SetPixel(I16(x + col), I16(y + row), color);
    }
    forall k | 0 <= k < SCREEN_BUFFER_SIZE
      ensures (CellCol(k, x) == col && CellRow(k, y) == row) <==>
        (OnScreen(I16(x + col), I16(y + row)) && k == Index(I16(x + col), I16(y + row)))
    {
      CellOfIndex(x, y, row, col, k);
    }
  }

  /** `draw_char_bitmap`: every set bit of the glyph, read as written,
      becomes one `set_pixel` at (`x + col`, `y + row`), off-screen
      pixels ignored; nothing is drawn without a glyph or an engine. */
  method DrawCharBitmap(g: Option<CharBitmap>, x: int, y: int, color: u16, engine: GraphicsEngine?)
    requires engine != null ==> engine.Valid()
    requires g.Some? ==> |g.value.data| * 8 >= g.value.width as nat * g.value.height as nat
    modifies if engine != null then engine.fb else null
    ensures engine != null && engine.fb != null ==>
      forall k :: 0 <= k < SCREEN_BUFFER_SIZE ==>
        engine.fb[k] == if g.Some? && Drawn(g.value, x, y, k, g.value.height, 0) then color else old(engine.fb[k])
  {
    if g.None? || engine == null || engine.fb == null {
      return;
    }
    var b := g.value;
    var row := 0;
    while row < b.height
      invariant row <= b.height
      invariant forall k :: 0 <= k < SCREEN_BUFFER_SIZE ==>
        engine.fb[k] == if Drawn(b, x, y, k, row, 0) then color else old(engine.fb[k])
    {
      var col := 0;
      while col < b.width
        invariant col <= b.width
        invariant forall k :: 0 <= k < SCREEN_BUFFER_SIZE ==>
          engine.fb[k] == if Drawn(b, x, y, k, row, col) then color else old(engine.fb[k])
      {
        PlotCell(b, x, y, row, col, color, engine);
        forall k | 0 <= k < SCREEN_BUFFER_SIZE {
          DrawnStep(b, x, y, k, row, col);
        }
        col := col + 1;
      }
      assert forall k :: Drawn(b, x, y, k, row, b.width) <==> Drawn(b, x, y, k, row + 1, 0);
      row := row + 1;
    }
  }

  // ---------------------------------------------------------------------
  // Characters and text

  /** The glyphs behind `FontData::ASCII::get_char_data`,
      `FontData::Chinese::find_chinese_char` (by code point) and
      `get_default_chinese_char`. */
  datatype Glyphs = Glyphs(ascii: map<byte, CharBitmap>, chinese: map<nat, CharBitmap>, chineseDefault: Option<CharBitmap>)

  /** A glyph whose data covers `width * height` bits. */
  predicate Sized(g: CharBitmap)
  {
    |g.data| * 8 >= g.width as nat * g.height as nat
  }

  predicate AllSized(gs: Glyphs)
  {
    (forall c :: c in gs.ascii ==> Sized(gs.ascii[c])) &&
    (forall u :: u in gs.chinese ==> Sized(gs.chinese[u])) &&
    (gs.chineseDefault.Some? ==> Sized(gs.chineseDefault.value))
  }

  /** `get_ascii_char_bitmap`: nothing outside the printable range. */
  function AsciiBitmap(c: byte, gs: Glyphs): Option<CharBitmap>
  {
    if c < ASCII_START || c > ASCII_END || c !in gs.ascii then None else Some(gs.ascii[c])
  }

  /** `find_chinese_char`: the character's glyph, else the default Chinese
      glyph. */
  function ChineseBitmap(u: nat, gs: Glyphs): Option<CharBitmap>
  {
    if u in gs.chinese then Some(gs.chinese[u]) else gs.chineseDefault
  }

  /** `get_ascii_char_width`. */
  function AsciiCharWidth(c: byte, gs: Glyphs): (w: byte)
    ensures (c < ASCII_START || c > ASCII_END) ==> w == 0
  {
    match AsciiBitmap(c, gs)
    case None => 0
    case Some(g) => g.width
  }

  /** `get_chinese_char_width`: the width of the glyph `find_chinese_char`
      gives, 12 when there is none. */
  function ChineseCharWidth(u: nat, gs: Glyphs): (w: byte)
    ensures ChineseBitmap(u, gs).None? ==> w == DEFAULT_CHINESE_WIDTH
  {
    match ChineseBitmap(u, gs)
    case None => DEFAULT_CHINESE_WIDTH
    case Some(g) => g.width
  }

  /** The all-clear 8x14 glyph `draw_chinese_char` falls back to when even
      the space is missing. */
  const BLANK_GLYPH: CharBitmap := CharBitmap(8, 14, [0, 0, 0, 0, 0, 0, 0, 0, 0, 0, 0, 0, 0, 0])

  /** The glyph `draw_chinese_char` draws: the character's, the space's,
      or the blank one. */
  function ChineseShown(u: nat, gs: Glyphs): (g: CharBitmap)
    requires AllSized(gs)
    ensures Sized(g)
    ensures ChineseBitmap(u, gs).Some? ==> g == ChineseBitmap(u, gs).value
  {
    match ChineseBitmap(u, gs)
    case Some(g) => g
    case None =>
      if SPACE in gs.ascii then gs.ascii[SPACE] else BLANK_GLYPH
  }

  /** The blank glyph sets no pixel. */
  lemma BlankDrawsNothing(x: int, y: int, k: nat, row: nat, col: nat)
    ensures !Drawn(BLANK_GLYPH, x, y, k, row, col)
  {
    var r, c := CellRow(k, y), CellCol(k, x);
    if c < 8 && r < 14 {
      var i := r * 8 + c;
      assert i / 8 < 14;
      ZeroBit(7 - i % 8);
    }
  }

  /** `draw_ascii_char`: the glyph of a printable character, nothing for
      any other. */
  method DrawAsciiChar(c: byte, x: int, y: int, color: u16, gs: Glyphs, engine: GraphicsEngine?)
    requires AllSized(gs) && (engine != null ==> engine.Valid())
    modifies if engine != null then engine.fb else null
    ensures engine != null && engine.fb != null ==>
      forall k :: 0 <= k < SCREEN_BUFFER_SIZE ==>
        engine.fb[k] == if AsciiBitmap(c, gs).Some? && Drawn(AsciiBitmap(c, gs).value, x, y, k, AsciiBitmap(c, gs).value.height, 0)
                        then color else old(engine.fb[k])
  {
    if engine == null || c < ASCII_START || c > ASCII_END {
      return;
    }
    DrawCharBitmap(AsciiBitmap(c, gs), x, y, color, engine);
  }

  /** `draw_chinese_char`. */
  method DrawChineseChar(u: nat, x: int, y: int, color: u16, gs: Glyphs, engine: GraphicsEngine?)
    requires AllSized(gs) && (engine != null ==> engine.Valid())
    modifies if engine != null then engine.fb else null
    ensures engine != null && engine.fb != null ==>
      forall k :: 0 <= k < SCREEN_BUFFER_SIZE ==>
        engine.fb[k] == if Drawn(ChineseShown(u, gs), x, y, k, ChineseShown(u, gs).height, 0) then color else old(engine.fb[k])
  {
    if engine == null {
      return;
    }
    var g := ChineseBitmap(u, gs);
    if g.None? {
      g := if SPACE in gs.ascii then Some(gs.ascii[SPACE]) else None;
      if g.None? {
        g := Some(BLANK_GLYPH);
      }
    }
    DrawCharBitmap(g, x, y, color, engine);
  }

  /** The first three bytes of `s` start a three-byte sequence, checked as
      `get_chinese_text_width` does. */
  predicate Lead3(s: seq<byte>)
  {
    At(s, 0) >= 0xE0 && At(s, 1) >= 0x80 && At(s, 2) >= 0x80
  }

  /** The unwrapped sum of `get_text_width`: the widths of the printable
      characters before the terminator. */
  function TextSum(s: seq<byte>, gs: Glyphs): nat
  {
    if At(s, 0) == 0 then 0
    else (if ASCII_START <= s[0] <= ASCII_END then AsciiCharWidth(s[0], gs) as nat else 0) + TextSum(s[1..], gs)
  }

  /** The unwrapped sum of `get_chinese_text_width`: a three-byte sequence
      counts with the width of its code point, a printable character with
      its ASCII width, any other byte with nothing. */
  function ChineseTextSum(s: seq<byte>, gs: Glyphs): nat
  {
    if At(s, 0) == 0 then 0
    else if Lead3(s) then ChineseCharWidth(Utf8ToUnicode(Some(s)), gs) as nat + ChineseTextSum(s[3..], gs)
    else (if ASCII_START <= s[0] <= ASCII_END then AsciiCharWidth(s[0], gs) as nat else 0) + ChineseTextSum(s[1..], gs)
  }

  /** Adding to an `int16_t` in steps wraps like adding at once. */
  lemma I16Absorb(a: int, b: int)
    ensures I16(I16(a) + b) == I16(a + b)
  {
    var q := a / 0x1_0000;
    assert I16(a) == a - q * 0x1_0000 || I16(a) == a - q * 0x1_0000 - 0x1_0000;
    var d := I16(a) - a;
    assert d % 0x1_0000 == 0;
    var t := I16(a) + b;
    DivModUnique(t, 0x1_0000, (a + b) / 0x1_0000 + d / 0x1_0000, (a + b) % 0x1_0000);
  }

  /** `get_text_width`: the sum, kept in an `int16_t`; a null string has
      width 0. */
  method TextWidth(p: Option<seq<byte>>, gs: Glyphs) returns (width: int)
    ensures width == if p.None? then 0 else I16(TextSum(p.value, gs))
  {
    if p.None? {
      return 0;
    }
    var s := p.value;
    width := 0;
    var i := 0;
    ghost var sum := 0;
    while At(s, i) != 0
      invariant i <= |s|
      invariant width == I16(sum) && sum + TextSum(s[i..], gs) == TextSum(s, gs)
      decreases |s| - i
    {
      var c := s[i];
      if ASCII_START <= c <= ASCII_END {
        I16Absorb(sum, AsciiCharWidth(c, gs));
        width := I16(width + AsciiCharWidth(c, gs));
        sum := sum + AsciiCharWidth(c, gs);
      }
      assert s[i..][1..] == s[i + 1..];
      i := i + 1;
    }
  }

  /** `get_chinese_text_width`. */
  method ChineseTextWidth(p: Option<seq<byte>>, gs: Glyphs) returns (width: int)
    ensures width == if p.None? then 0 else I16(ChineseTextSum(p.value, gs))
  {
    if p.None? {
      return 0;
    }
    var s := p.value;
    width := 0;
    var i := 0;
    ghost var sum := 0;
    while At(s, i) != 0
      invariant i <= |s|
      invariant width == I16(sum) && sum + ChineseTextSum(s[i..], gs) == ChineseTextSum(s, gs)
      decreases |s| - i
    {
      var rest := s[i..];
      assert At(rest, 0) == At(s, i) && At(rest, 1) == At(s, i + 1) && At(rest, 2) == At(s, i + 2);
      if At(s, i) >= 0xE0 && At(s, i + 1) >= 0x80 && At(s, i + 2) >= 0x80 {
        var w := ChineseCharWidth(Utf8ToUnicode(Some(rest)), gs);
        I16Absorb(sum, w);
        width := I16(width + w);
        sum := sum + w;
        assert rest[3..] == s[i + 3..];
        i := i + 3;
      } else {
        var c := s[i];
        if ASCII_START <= c <= ASCII_END {
          I16Absorb(sum, AsciiCharWidth(c, gs));
          width := I16(width + AsciiCharWidth(c, gs));
          sum := sum + AsciiCharWidth(c, gs);
        }
        assert rest[1..] == s[i + 1..];
        i := i + 1;
      }
    }
  }

  /** A string without a terminator before its end. */
  predicate NoNul(s: seq<byte>)
  {
    forall i :: 0 <= i < |s| ==> s[i] != 0
  }

  /** Widths add up over concatenation. */
  lemma {:induction false} TextSumAppend(s: seq<byte>, t: seq<byte>, gs: Glyphs)
    requires NoNul(s)
    ensures TextSum(s + t, gs) == TextSum(s, gs) + TextSum(t, gs)
  {
    if |s| > 0 {
      assert (s + t)[1..] == s[1..] + t;
      TextSumAppend(s[1..], t, gs);
    } else {
      assert s + t == t;
    }
  }

  /** On a string with no byte of 0x80 or more the two width functions
      agree. */
  lemma {:induction false} AsciiTextWidthsAgree(s: seq<byte>, gs: Glyphs)
    requires forall i :: 0 <= i < |s| ==> s[i] < 0x80
    ensures ChineseTextSum(s, gs) == TextSum(s, gs)
  {
    if At(s, 0) != 0 {
      AsciiTextWidthsAgree(s[1..], gs);
    }
  }

  /** A Chinese character, encoded, counts once with the width of its glyph
      in `get_chinese_text_width` and not at all in `get_text_width`. */
  lemma ChineseCharCounted(u: nat, gs: Glyphs)
    requires 0x800 <= u < 0x1_0000
    ensures ChineseTextSum(Utf8Encode(u), gs) == ChineseCharWidth(u, gs) as nat
    ensures TextSum(Utf8Encode(u), gs) == 0
  {
    var e := Utf8Encode(u);
    Utf8RoundTrip(u);
    assert Lead3(e);
    assert e[3..] == [];
    assert e[1..][1..][1..] == [];
    assert TextSum(e[1..][1..], gs) == 0;
    assert TextSum(e[1..], gs) == 0;
  }
}
