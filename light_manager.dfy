/** The LightManager service: named region mappings from Mai2Light LED
    indices to NeoPixel bitmaps, their byte serialisation, and the BD15070
    link (SYNC/MARKER escaping, byte-sum checksum, packet assembly, the
    EEPROM commands and acknowledgement frames). */
module LightManager {
  import opened Common
  import opened Bits

  const BD15070_SYNC: byte := 0xE0
  const BD15070_MARKER: byte := 0xD0
  const RX_BUFFER_SIZE: nat := 64
  const EEPROM_SIZE: nat := 256
  /** sizeof the request's data union (`Direct_color[11][3]`). */
  const REQ_DATA_SIZE: nat := 33
  const MAX_REGION_INDEX: nat := 32

  const CMD_SET_LED_GS8BIT: byte := 0x31
  const CMD_SET_LED_GS8BIT_MULTI: byte := 0x32
  const CMD_SET_LED_GS8BIT_MULTI_FADE: byte := 0x33
  const CMD_SET_LED_FET: byte := 0x39
  const CMD_SET_LED_GS_UPDATE: byte := 0x3C
  const CMD_GET_BOARD_INFO: byte := 0xF0
  const CMD_GET_BOARD_STATUS: byte := 0xF1
  const CMD_GET_FIRM_SUM: byte := 0xF2
  const CMD_GET_PROTOCOL_VERSION: byte := 0xF3
  const CMD_SET_EEPROM: byte := 0x7B
  const CMD_GET_EEPROM: byte := 0x7C
  const CMD_SET_ENABLE_RESPONSE: byte := 0x7D
  const CMD_SET_DISABLE_RESPONSE: byte := 0x7E
  const ACK_STATUS_OK: byte := 0x01
  const ACK_STATUS_INVALID: byte := 0xFF
  const ACK_REPORT_OK: byte := 0x01
  const ACK_REPORT_COMMAND_UNKNOWN: byte := 0x03
  const ACK_REPORT_PARAM_ERROR: byte := 0x04
  const ACK_REPORT_INVALID: byte := 0xFF

  /** `LightRegionMapping`: a named range of Mai2Light indices and the
      NeoPixels (bit i = pixel i) it drives. */
  datatype RegionMapping = RegionMapping(name: seq<byte>, start: byte, end: byte, bitmap: u32, enabled: bool)

  /** `BD15070_PacketReq`: the data union holds the copied bytes, the rest zero. */
  datatype PacketReq = PacketReq(dst: byte, src: byte, length: byte, command: byte, data: seq<byte>)

  /** The commands `handle_command`'s switch has a case for. */
  predicate KnownCommand(c: byte) {
    c in {CMD_SET_LED_GS8BIT, CMD_SET_LED_GS8BIT_MULTI, CMD_SET_LED_GS8BIT_MULTI_FADE, CMD_SET_LED_FET,
          CMD_SET_LED_GS_UPDATE, CMD_GET_BOARD_INFO, CMD_GET_BOARD_STATUS, CMD_GET_FIRM_SUM,
          CMD_GET_PROTOCOL_VERSION, CMD_SET_EEPROM, CMD_GET_EEPROM, CMD_SET_ENABLE_RESPONSE,
          CMD_SET_DISABLE_RESPONSE}
  }

  // ---------------------------------------------------------------------
  // Region-mapping queries

  function Names(ms: seq<RegionMapping>): (ns: seq<seq<byte>>)
    ensures |ns| == |ms| && forall i :: 0 <= i < |ms| ==> ns[i] == ms[i].name
  {
    if ms == [] then [] else Names(ms[..|ms| - 1]) + [ms[|ms| - 1].name]
  }

  predicate UniqueNames(ms: seq<RegionMapping>)
  {
    forall i, j :: 0 <= i < j < |ms| ==> ms[i].name != ms[j].name
  }

  /** The position of the first mapping called `name`, as `std::find_if` finds it. */
  function FindByName(ms: seq<RegionMapping>, name: seq<byte>): (r: Option<nat>)
    ensures r.None? <==> forall i :: 0 <= i < |ms| ==> ms[i].name != name
    ensures r.Some? ==> r.value < |ms| && ms[r.value].name == name &&
                        forall i :: 0 <= i < r.value ==> ms[i].name != name
  {
    if ms == [] then None
    else if ms[0].name == name then Some(0)
    else match FindByName(ms[1..], name)
      case None => None
      case Some(k) => Some(k + 1)
  }

  /** `get_neopixel_bitmap_for_mai2light_range` as a fold: the OR of the
      bitmaps of the enabled mappings whose index range overlaps [lo, hi]. */
  function RangeBitmap(ms: seq<RegionMapping>, lo: byte, hi: byte): (r: nat)
    ensures r < 0x1_0000_0000
  {
    Pow2Values();
    if ms == [] then 0
    else
      var m := ms[|ms| - 1];
      var acc := RangeBitmap(ms[..|ms| - 1], lo, hi);
      OrBound(acc, m.bitmap, 32);
      if m.enabled && !(hi < m.start || lo > m.end) then Or(acc, m.bitmap) else acc
  }

  predicate Overlaps(m: RegionMapping, lo: byte, hi: byte)
  {
    m.enabled && !(hi < m.start || lo > m.end)
  }

  /** A pixel is in the range bitmap exactly when some enabled mapping that
      overlaps the range has it. */
  lemma {:induction false} RangeBitmapBits(ms: seq<RegionMapping>, lo: byte, hi: byte, i: nat)
    ensures Bit(RangeBitmap(ms, lo, hi), i) <==>
            exists k :: 0 <= k < |ms| && Overlaps(ms[k], lo, hi) && Bit(ms[k].bitmap, i)
  {
    if ms != [] {
      var init, m := ms[..|ms| - 1], ms[|ms| - 1];
      RangeBitmapBits(init, lo, hi, i);
      OrBit(RangeBitmap(init, lo, hi), m.bitmap, i);
      if exists k :: 0 <= k < |ms| && Overlaps(ms[k], lo, hi) && Bit(ms[k].bitmap, i) {
        var k :| 0 <= k < |ms| && Overlaps(ms[k], lo, hi) && Bit(ms[k].bitmap, i);
        if k < |init| {
          assert init[k] == ms[k];
        }
      }
      if exists k :: 0 <= k < |init| && Overlaps(init[k], lo, hi) && Bit(init[k].bitmap, i) {
        var k :| 0 <= k < |init| && Overlaps(init[k], lo, hi) && Bit(init[k].bitmap, i);
        assert ms[k] == init[k];
      }
    } else {
      ZeroBit(i);
    }
  }

  /** The first enabled mapping whose range holds `index`: the region
      `map_mai2light_to_neopixel` paints (an index of 32 or more paints none). */
  function MappingForIndex(ms: seq<RegionMapping>, index: byte): (r: Option<RegionMapping>)
    ensures index >= MAX_REGION_INDEX ==> r.None?
    ensures r.Some? ==> r.value in ms && r.value.enabled && r.value.start <= index <= r.value.end
    ensures r.None? && index < MAX_REGION_INDEX ==>
      forall k :: 0 <= k < |ms| && ms[k].enabled ==> !(ms[k].start <= index <= ms[k].end)
  {
    if index >= MAX_REGION_INDEX || ms == [] then None
    else if ms[0].enabled && ms[0].start <= index <= ms[0].end then Some(ms[0])
    else
      var r := MappingForIndex(ms[1..], index);
      assert forall k :: 1 <= k < |ms| ==> ms[k] == ms[1..][k - 1];
      r
  }

  /** The mappings `reset_region_mappings` installs. */
  const DEFAULT_MAPPINGS: seq<RegionMapping> := [
    RegionMapping([0x62, 0x75, 0x74, 0x74, 0x6F, 0x6E, 0x5F, 0x61, 0x72, 0x65, 0x61], 0, 10, 0x0000_07FF, true),   // "button_area"
    RegionMapping([0x62, 0x6F, 0x64, 0x79, 0x5F, 0x6C, 0x69, 0x67, 0x68, 0x74, 0x73], 8, 10, 0x0000_0700, true),   // "body_lights"
    RegionMapping([0x67, 0x6C, 0x6F, 0x62, 0x61, 0x6C], 0, 31, 0xFFFF_FFFF, false)                                  // "global"
  ]

  // ---------------------------------------------------------------------
  // Serialisation of the region mappings

  function Le16(n: nat): (s: seq<byte>)
    requires n < 0x1_0000
    ensures |s| == 2 && s[0] as int + 256 * (s[1] as int) == n
  {
    [n % 256, n / 256]
  }

  /** A 32-bit word as four bytes, least significant first. */
  function Le32(b: u32): (s: seq<byte>)
    ensures |s| == 4
  {
    [b % 0x100, (b / 0x100) % 0x100, (b / 0x1_0000) % 0x100, b / 0x100_0000]
  }

  /** Four bytes, least significant first, as a 32-bit word. */
  function FromLe32(b0: byte, b1: byte, b2: byte, b3: byte): u32
  {
    b0 + 0x100 * b1 + 0x1_0000 * b2 + 0x100_0000 * b3
  }

  lemma Le32RoundTrip(b: u32)
    ensures var s := Le32(b); FromLe32(s[0], s[1], s[2], s[3]) == b
  {
    var q1 := b / 0x100;
    var q2 := q1 / 0x100;
    assert b == b % 0x100 + 0x100 * q1;
    assert q1 == q1 % 0x100 + 0x100 * q2;
    assert q2 == (b / 0x1_0000);
    assert q2 == q2 % 0x100 + 0x100 * (b / 0x100_0000);
  }

  /** One record of the save format: name length (capped at 255), the
      name's first bytes, start, end, the bitmap little-endian, enabled. */
  function EncodeRecord(m: RegionMapping): (s: seq<byte>)
    ensures |s| == Min(|m.name|, 255) + 8
  {
    var n := Min(|m.name|, 255);
    [n] + m.name[..n] + [m.start, m.end] + Le32(m.bitmap) + [if m.enabled then 1 else 0]
  }

  /** Byte strings one after another. */
  function Flatten(cs: seq<seq<byte>>): seq<byte>
  {
    if cs == [] then [] else cs[0] + Flatten(cs[1..])
  }

  function RecordBytes(ms: seq<RegionMapping>): (cs: seq<seq<byte>>)
    ensures |cs| == |ms| && forall i :: 0 <= i < |ms| ==> cs[i] == EncodeRecord(ms[i])
  {
    seq(|ms|, i requires 0 <= i < |ms| => EncodeRecord(ms[i]))
  }

  /** Every record, in order. */
  function EncodeRecords(ms: seq<RegionMapping>): seq<byte>
  {
    Flatten(RecordBytes(ms))
  }

  /** `save_region_mappings`' byte layout: the count as LE16 (truncated to
      16 bits), then every record. */
  function EncodeMappings(ms: seq<RegionMapping>): seq<byte>
  {
    Le16(|ms| % 0x1_0000) + EncodeRecords(ms)
  }

  /** Decoding up to `count` records from the bytes `s` that remain after
      the read offset; stops at the end of the bytes. */
  function DecodeRecords(s: seq<byte>, count: nat): seq<RegionMapping>
    decreases count, 1
  {
    if count == 0 || |s| == 0 then [] else DecodeFront(s, count)
  }

  /** The record at the front of `s`, a name length, that many name bytes,
      then the seven bytes of start, end, bitmap and enabled, followed by
      the remaining records; nothing when the record does not fit. */
  function DecodeFront(s: seq<byte>, count: nat): seq<RegionMapping>
    requires count > 0 && |s| > 0
    decreases count, 0
  {
    var at := 1 + s[0] as int;
    if at > |s| || at + 7 > |s| then []
    else
      [RegionMapping(s[1..at], s[at], s[at + 1], FromLe32(s[at + 2], s[at + 3], s[at + 4], s[at + 5]), s[at + 6] != 0)]
      + DecodeRecords(s[at + 7..], count - 1)
  }

  /** What `load_region_mappings` makes of a saved string of two or more
      bytes: the LE16 count, then that many records. */
  function DecodeMappings(data: seq<byte>): seq<RegionMapping>
    requires |data| >= 2
  {
    DecodeRecords(data[2..], data[0] as int + 256 * (data[1] as int))
  }

  /** The record whose length byte is at `offset`: the name, then start,
      end, the little-endian bitmap and the enabled flag. */
  function RecordAt(data: seq<byte>, offset: nat): RegionMapping
    requires offset < |data| && offset + 1 + data[offset] as int + 7 <= |data|
  {
    var at := offset + 1 + data[offset] as int;
    RegionMapping(data[offset + 1..at], data[at], data[at + 1],
                  FromLe32(data[at + 2], data[at + 3], data[at + 4], data[at + 5]), data[at + 6] != 0)
  }

  /** The record at `offset` of a byte string, read in place. */
  lemma DecodeRecordsFront(data: seq<byte>, offset: nat, count: nat)
    requires offset < |data| && count > 0
    ensures var at := offset + 1 + data[offset] as int;
      && (at + 7 > |data| ==> DecodeRecords(data[offset..], count) == [])
      && (at + 7 <= |data| ==>
            DecodeRecords(data[offset..], count) == [RecordAt(data, offset)] + DecodeRecords(data[at + 7..], count - 1))
  {
    var s := data[offset..];
    var at := 1 + s[0] as int;
    if offset + at + 7 <= |data| {
      assert s[1..at] == data[offset + 1..offset + at];
      assert s[at + 7..] == data[offset + at + 7..];
    }
  }

  predicate NamesFit(ms: seq<RegionMapping>)
  {
    forall i :: 0 <= i < |ms| ==> |ms[i].name| <= 255
  }

  lemma DecodeRecordAt(m: RegionMapping, t: seq<byte>, s: seq<byte>, count: nat)
    requires |m.name| <= 255 && count > 0 && s == EncodeRecord(m) + t
    ensures DecodeRecords(s, count) == [m] + DecodeRecords(t, count - 1)
  {
    var n := |m.name|;
    var at := 1 + n;
    assert s[0] == n;
    assert s[1..at] == m.name;
    assert s[at] == m.start && s[at + 1] == m.end;
    var b := Le32(m.bitmap);
    assert s[at + 2] == b[0] && s[at + 3] == b[1] && s[at + 4] == b[2] && s[at + 5] == b[3];
    Le32RoundTrip(m.bitmap);
    assert s[at + 6] == (if m.enabled then 1 else 0);
    assert s[at + 7..] == t;
  }

  lemma {:induction false} FlattenSnoc(cs: seq<seq<byte>>, c: seq<byte>)
    ensures Flatten(cs + [c]) == Flatten(cs) + c
    decreases |cs|
  {
    if cs == [] {
      assert [c][1..] == [];
    } else {
      assert (cs + [c])[1..] == cs[1..] + [c];
      FlattenSnoc(cs[1..], c);
    }
  }

  lemma EncodeRecordsSnoc(ms: seq<RegionMapping>, m: RegionMapping)
    ensures EncodeRecords(ms + [m]) == EncodeRecords(ms) + EncodeRecord(m)
  {
    assert RecordBytes(ms + [m]) == RecordBytes(ms) + [EncodeRecord(m)];
    FlattenSnoc(RecordBytes(ms), EncodeRecord(m));
  }

  lemma NamesFitTail(ms: seq<RegionMapping>)
    requires NamesFit(ms) && ms != []
    ensures NamesFit(ms[1..])
  {
    forall i | 0 <= i < |ms| - 1 ensures |ms[1..][i].name| <= 255 { assert ms[1..][i] == ms[i + 1]; }
  }

  /** Encoded records decode as themselves, after which decoding carries on
      with the bytes that follow. */
  lemma {:induction false} DecodeEncodedRecords(ms: seq<RegionMapping>, t: seq<byte>, count: nat, extra: nat)
    requires NamesFit(ms) && count == |ms| + extra
    ensures DecodeRecords(EncodeRecords(ms) + t, count) == ms + DecodeRecords(t, extra)
    decreases |ms|
  {
    if ms == [] {
      assert EncodeRecords(ms) + t == t;
    } else {
      NamesFitTail(ms);
      DecodeEncodedRecords(ms[1..], t, count - 1, extra);
      EncodeConsAppend(ms, t);
      DecodeConsStep(ms[0], ms[1..], ms, EncodeRecords(ms[1..]) + t, EncodeRecords(ms) + t, DecodeRecords(t, extra), count);
    }
  }

  lemma EncodeConsAppend(ms: seq<RegionMapping>, t: seq<byte>)
    requires ms != []
    ensures EncodeRecords(ms) + t == EncodeRecord(ms[0]) + (EncodeRecords(ms[1..]) + t)
    ensures ms == [ms[0]] + ms[1..]
  {
    EncodeRecordsCons(ms);
    AppendAssoc(EncodeRecord(ms[0]), EncodeRecords(ms[1..]), t);
  }




  /** One record in front of bytes that decode as `tail` then `d`. */
  lemma DecodeConsStep(m: RegionMapping, tail: seq<RegionMapping>, ms: seq<RegionMapping>, rest: seq<byte>, s: seq<byte>,
                       d: seq<RegionMapping>, count: nat)
    requires |m.name| <= 255 && count > 0 && s == EncodeRecord(m) + rest && ms == [m] + tail
    requires DecodeRecords(rest, count - 1) == tail + d
    ensures DecodeRecords(s, count) == ms + d
  {
    DecodeRecordAt(m, rest, s, count);
    AppendAssoc([m], tail, d);
  }

  lemma EncodeRecordsCons(ms: seq<RegionMapping>)
    requires ms != []
    ensures EncodeRecords(ms) == EncodeRecord(ms[0]) + EncodeRecords(ms[1..])
  {
    assert RecordBytes(ms)[1..] == RecordBytes(ms[1..]);
  }

  /** Loading what was saved gives the mappings back, as long as every name
      fits the one-byte length and the count fits sixteen bits. */
  lemma SaveLoadRoundTrip(ms: seq<RegionMapping>)
    requires NamesFit(ms) && |ms| < 0x1_0000
    ensures |EncodeMappings(ms)| >= 2 && DecodeMappings(EncodeMappings(ms)) == ms
  {
    var empty: seq<byte> := [];
    var records := EncodeRecords(ms);
    EncodeMappingsSplit(ms);
    HeaderThenRecords(|ms|, records);
    assert records + empty == records;
    DecodeEncodedRecords(ms, empty, |ms|, 0);
    assert ms + DecodeRecords(empty, 0) == ms;
  }

  /** With fewer than 65536 mappings the count is stored untruncated. */
  lemma EncodeMappingsSplit(ms: seq<RegionMapping>)
    requires |ms| < 0x1_0000
    ensures EncodeMappings(ms) == Le16(|ms|) + EncodeRecords(ms)
  {
    assert |ms| % 0x1_0000 == |ms|;
  }

  /** A saved string cut short inside a record loads the complete records
      before it and nothing more. */
  lemma TruncatedLoad(ms: seq<RegionMapping>, m: RegionMapping, k: nat)
    requires NamesFit(ms + [m]) && |ms| + 1 < 0x1_0000
    requires k < |EncodeRecord(m)|
    ensures var data := Le16(|ms| + 1) + EncodeRecords(ms) + EncodeRecord(m)[..k];
            data <= EncodeMappings(ms + [m]) && DecodeMappings(data) == ms
  {
    var all := ms + [m];
    var records := EncodeRecords(ms);
    var partial := EncodeRecord(m)[..k];
    var data := Le16(|ms| + 1) + records + partial;
    TruncatedPrefix(ms, m, k);
    assert data == Le16(|ms| + 1) + (records + partial);
    HeaderThenRecords(|ms| + 1, records + partial);
    TruncatedRecords(ms, m, k);
  }

  /** A string that starts with the count `n` decodes up to `n` records from
      the bytes after it. */
  lemma HeaderThenRecords(n: nat, rest: seq<byte>)
    requires n < 0x1_0000
    ensures DecodeMappings(Le16(n) + rest) == DecodeRecords(rest, n)
  {
    assert (Le16(n) + rest)[2..] == rest;
  }

  /** A string cut short inside the last record is a prefix of the saved
      string. */
  lemma TruncatedPrefix(ms: seq<RegionMapping>, m: RegionMapping, k: nat)
    requires |ms| + 1 < 0x1_0000 && k <= |EncodeRecord(m)|
    ensures Le16(|ms| + 1) + EncodeRecords(ms) + EncodeRecord(m)[..k] <= EncodeMappings(ms + [m])
  {
    EncodeRecordsSnoc(ms, m);
    var head := Le16(|ms| + 1) + EncodeRecords(ms);
    var r := EncodeRecord(m);
    EncodeMappingsSplit(ms + [m]);
    assert EncodeMappings(ms + [m]) == head + r;
    PrefixOfAppend(head, r, k);
  }

  lemma PrefixOfAppend(head: seq<byte>, r: seq<byte>, k: nat)
    requires k <= |r|
    ensures head + r[..k] <= head + r
  {
    assert head + r[..k] == (head + r)[..|head| + k];
  }

  /** The records of `ms` followed by a cut-short record decode to `ms`. */
  lemma TruncatedRecords(ms: seq<RegionMapping>, m: RegionMapping, k: nat)
    requires NamesFit(ms + [m]) && k < |EncodeRecord(m)|
    ensures DecodeRecords(EncodeRecords(ms) + EncodeRecord(m)[..k], |ms| + 1) == ms
  {
    var all := ms + [m];
    var partial := EncodeRecord(m)[..k];
    assert NamesFit(ms) by {
      forall i | 0 <= i < |ms| ensures |ms[i].name| <= 255 { assert ms[i] == all[i]; }
    }
    assert |m.name| <= 255 by { assert all[|ms|] == m; }
    DecodeEncodedRecords(ms, partial, |ms| + 1, 1);
    PartialRecordStops(m, partial);
    assert ms + [] == ms;
  }

  lemma PartialRecordStops(m: RegionMapping, partial: seq<byte>)
    requires |m.name| <= 255 && |partial| < |EncodeRecord(m)|
    requires partial == EncodeRecord(m)[..|partial|]
    ensures DecodeRecords(partial, 1) == []
  {
    if |partial| > 0 {
      assert partial[0] == |m.name|;
    }
  }

  // ---------------------------------------------------------------------
  // BD15070 escaping and checksum

  /** The byte sum modulo 256 (`calculate_checksum`). */
  function ByteSum(s: seq<byte>): byte
  {
    if s == [] then 0 else (ByteSum(s[..|s| - 1]) + s[|s| - 1]) % 256
  }

  /** The checksum of two pieces is the sum of their checksums, modulo 256. */
  lemma {:induction false} ByteSumAppend(a: seq<byte>, b: seq<byte>)
    ensures ByteSum(a + b) == (ByteSum(a) + ByteSum(b)) % 256
    decreases |b|
  {
    if b == [] {
      assert a + b == a;
      SmallMod(ByteSum(a) as nat);
    } else {
      var b' := b[..|b| - 1];
      var last := b[|b| - 1];
      assert (a + b)[..|a + b| - 1] == a + b';
      assert (a + b)[|a + b| - 1] == last;
      var sa, sb, sab := ByteSum(a) as nat, ByteSum(b') as nat, ByteSum(a + b') as nat;
      assert ByteSum(a + b) as nat == (sab + last as nat) % 256;
      assert ByteSum(b) as nat == (sb + last as nat) % 256;
      ByteSumAppend(a, b');
      assert sab == (sa + sb) % 256;
      ModAdd(sa, sb, last as nat);
      assert ByteSum(a + b) as nat == (sa + ByteSum(b) as nat) % 256;
    }
  }

  lemma SmallMod(x: nat)
    requires x < 256
    ensures x % 256 == x
  {
  }

  lemma ModAdd(x: nat, y: nat, z: nat)
    ensures ((x + y) % 256 + z) % 256 == (x + (y + z) % 256) % 256
  {
    var p := (x + y) / 256;
    var q := (y + z) / 256;
    assert (x + y) % 256 + z == x + y + z - 256 * p;
    assert x + (y + z) % 256 == x + y + z - 256 * q;
  }

  method CalculateChecksum(data: seq<byte>, length: nat) returns (checksum: byte)
    requires length <= |data|
    ensures checksum == ByteSum(data[..length])
  {
    checksum := 0;
    var i := 0;
    while i < length
      invariant 0 <= i <= length
      invariant checksum == ByteSum(data[..i])
    {
      assert data[..i + 1][..i] == data[..i];
      checksum := (checksum + data[i]) % 256;
      i := i + 1;
    }
  }

  /** The send side: SYNC and MARKER go out as MARKER followed by the byte less one. */
  function Escape(s: seq<byte>): (e: seq<byte>)
    ensures BD15070_SYNC !in e
  {
    if s == [] then []
    else
      var b := s[0];
      (if b == BD15070_SYNC || b == BD15070_MARKER then [BD15070_MARKER, b - 1] else [b]) + Escape(s[1..])
  }

  /** The receive side's escape filter for one byte: MARKER arms the escape
      and yields nothing; an armed byte is incremented (8-bit). */
  function RxFilter(escaping: bool, b: byte): (r: (bool, Option<byte>))
    requires b != BD15070_SYNC
  {
    if b == BD15070_MARKER then (true, None)
    else if escaping then (false, Some((b + 1) % 256))
    else (false, Some(b))
  }

  function Unescape(s: seq<byte>, escaping: bool): seq<byte>
    requires BD15070_SYNC !in s
  {
    if s == [] then []
    else
      var (esc, out) := RxFilter(escaping, s[0]);
      (if out.Some? then [out.value] else []) + Unescape(s[1..], esc)
  }

  /** The receive filter undoes the send-side escaping. */
  lemma {:induction false} UnescapeEscape(s: seq<byte>)
    ensures Unescape(Escape(s), false) == s
  {
    if s != [] {
      var b := s[0];
      UnescapeEscape(s[1..]);
      var rest := Escape(s[1..]);
      if b == BD15070_SYNC || b == BD15070_MARKER {
        var e := [BD15070_MARKER, b - 1] + rest;
        assert Escape(s) == e;
        assert e[1..] == [b - 1] + rest && e[2..] == rest;
      } else {
        assert Escape(s) == [b] + rest;
        assert ([b] + rest)[1..] == rest;
      }
    }
  }

  /** The acknowledgement frame `send_ack` writes: SYNC, then the escaped
      six-byte header (to the host, from `node`, length 3 + data, status,
      command, report), the data, and the escaped byte-sum checksum. */
  function AckBody(node: byte, command: byte, status: byte, report: byte, data: seq<byte>): seq<byte>
    requires |data| <= 10
  {
    [0, node, 3 + |data|, status, command, report] + data
  }

  function AckFrame(body: seq<byte>): (f: seq<byte>)
    ensures |f| >= 1 && f[0] == BD15070_SYNC && BD15070_SYNC !in f[1..]
  {
    var e := Escape(body) + Escape([ByteSum(body)]);
    assert (([BD15070_SYNC] + e)[1..]) == e;
    [BD15070_SYNC] + e
  }

  /** A receiver that strips the SYNC and unescapes recovers the body and
      its checksum. */
  lemma AckFrameDecodes(body: seq<byte>)
    ensures Unescape(AckFrame(body)[1..], false) == body + [ByteSum(body)]
  {
    var f := AckFrame(body);
    EscapeAppend(body, [ByteSum(body)]);
    assert f[1..] == Escape(body + [ByteSum(body)]);
    UnescapeEscape(body + [ByteSum(body)]);
  }

  lemma EscapeOne(b: byte)
    ensures Escape([b]) == if b == BD15070_SYNC || b == BD15070_MARKER then [BD15070_MARKER, b - 1] else [b]
  {
    assert [b][1..] == [];
  }

  lemma {:induction false} EscapeAppend(a: seq<byte>, b: seq<byte>)
    ensures Escape(a + b) == Escape(a) + Escape(b)
  {
    if a != [] {
      assert (a + b)[0] == a[0] && (a + b)[1..] == a[1..] + b;
      EscapeAppend(a[1..], b);
    } else {
      assert a + b == b;
    }
  }

  /** The escaping loop of `send_ack`: each SYNC or MARKER byte goes out
      as MARKER and the byte less one, every other byte as itself. */
  method EscapeBytes(body: seq<byte>) returns (tx: seq<byte>)
    ensures tx == Escape(body)
  {
    tx := [];
    var i := 0;
    while i < |body|
      invariant 0 <= i <= |body|
      invariant tx == Escape(body[..i])
    {
      var b := body[i];
      assert Escape(body[..i + 1]) == Escape(body[..i]) + Escape([b]) by {
        assert body[..i + 1] == body[..i] + [b];
        EscapeAppend(body[..i], [b]);
      }
      EscapeOne(b);
      if b == BD15070_SYNC || b == BD15070_MARKER {
        tx := tx + [BD15070_MARKER, b - 1];
      } else {
        tx := tx + [b];
      }
      i := i + 1;
    }
    assert body[..i] == body;
  }

  // ---------------------------------------------------------------------
  // BD15070 request packets

  /** `parse_packet` on the first `length` bytes of the receive buffer: at
      least the four header bytes, a data length within the 33-byte union,
      and all the announced data bytes present. */
  function ParsePacket(buffer: seq<byte>, length: nat): (r: Option<PacketReq>)
    requires length <= |buffer|
    ensures r.Some? <==> length >= 4 && buffer[2] <= REQ_DATA_SIZE && length >= 4 + buffer[2]
    ensures r.Some? ==> |r.value.data| == REQ_DATA_SIZE && r.value.data[..buffer[2]] == buffer[4..4 + buffer[2]]
  {
    if length < 4 then None
    else
      var len := buffer[2];
      if len > REQ_DATA_SIZE || length < 4 + len then None
      else Some(PacketReq(buffer[0], buffer[1], len, buffer[3],
                          buffer[4..4 + len] + seq(REQ_DATA_SIZE - len, _ => 0)))
  }

  /** The packet boundary of `process_received_data`: once four bytes are
      buffered and the announced length plus four are present, those bytes
      are removed, and delivered as a packet when the sum of all but the last
      equals the last and they parse. */
  function Assemble(buf: seq<byte>): (r: (seq<byte>, Option<PacketReq>))
    ensures |r.0| <= |buf|
  {
    if |buf| < 4 then (buf, None)
    else
      var expected := buf[2] as int + 4;
      if |buf| < expected then (buf, None)
      else (buf[expected..],
            if ByteSum(buf[..expected - 1]) == buf[expected - 1] then ParsePacket(buf, expected) else None)
  }

  /** A request frame of header, payload and sum, with the length byte
      counting the payload and the checksum, is delivered whole once its
      last byte arrives, the checksum travelling as the last data byte. */
  lemma AssembleFrame(dst: byte, src: byte, command: byte, payload: seq<byte>)
    requires |payload| + 1 <= REQ_DATA_SIZE
    ensures var body := [dst, src, |payload| + 1, command] + payload;
            var frame := body + [ByteSum(body)];
            Assemble(frame) == ([], Some(PacketReq(dst, src, |payload| + 1, command,
                                  payload + [ByteSum(body)] + seq(REQ_DATA_SIZE - |payload| - 1, _ => 0))))
  {
    var body := [dst, src, |payload| + 1, command] + payload;
    var frame := body + [ByteSum(body)];
    assert frame[..|frame| - 1] == body;
    assert frame[4..4 + |payload| + 1] == payload + [ByteSum(body)];
  }

  // ---------------------------------------------------------------------
  // Findings: the width of `expected_length` and the load bound

  /** `expected_length` as the source computes it, in eight bits. */
  function ExpectedLengthAsWritten(lengthByte: byte): byte
  {
    (lengthByte + 4) % 256
  }

  /** A length byte of 252 makes the eight-bit expected length 0, so the
      source checks its checksum at index expected - 1 = -1, before the buffer. */
  lemma ExpectedLengthWraps()
    ensures ExpectedLengthAsWritten(252) == 0
    ensures forall b: byte :: b >= 252 ==> ExpectedLengthAsWritten(b) < 4
  {
  }

  /** The corrected boundary never indexes outside the buffered bytes. */
  lemma AssembleInBounds(buf: seq<byte>)
    requires |buf| >= 4 && |buf| >= buf[2] as int + 4
    ensures 0 <= buf[2] as int + 4 - 1 < |buf|
    ensures |Assemble(buf).0| == |buf| - (buf[2] as int + 4) < |buf|
  {
  }

  /** The load's guard before the fixed fields as the source writes it: six
      bytes are checked, seven are read. */
  predicate FixedFieldsFitAsWritten(data: seq<byte>, at: nat)
  {
    at + 6 <= |data|
  }

  /** A record whose enabled byte is missing passes the guard as written,
      and its enabled byte would be read at index |data|, one past the end. */
  lemma LoadGuardAdmitsShortRecord()
    ensures var data: seq<byte> := [1, 0, 0, 1, 2, 3, 4, 5, 6];
            FixedFieldsFitAsWritten(data, 3) && 3 + 6 == |data|
    ensures DecodeMappings([1, 0, 0, 1, 2, 3, 4, 5, 6]) == []
  {
    var data: seq<byte> := [1, 0, 0, 1, 2, 3, 4, 5, 6];
    assert data[0] + 256 * data[1] == 1;
  }

  // ---------------------------------------------------------------------
  // The service

  class LightManager {
    var initialized: bool
    /** The node id from the service configuration. */
    var nodeId: byte
    /** `region_mappings_`. */
    var regions: seq<RegionMapping>
    /** The LIGHTMANAGER_REGION_MAPPINGS configuration string. */
    var stored: seq<byte>
    /** `rx_buffer_`, `rx_buffer_pos_`, `escape_next_`. */
    const rxBuffer: array<byte>
    var rxPos: nat
    var escapeNext: bool
    /** `virtual_eeprom_`. */
    const eeprom: array<byte>
    /** Packets addressed to this node that were dispatched, in order. */
    var handled: seq<PacketReq>
    /** Frames written to the UART. */
    var sent: seq<seq<byte>>
    /** Whether `uart_hal_` is set. The constructor sets it to null and the
        device set-up that would attach it is commented out, so as written
        it stays false; true stands for a build where that set-up runs. */
    const uartAttached: bool

    ghost predicate Valid()
      reads this
    {
      rxBuffer.Length == RX_BUFFER_SIZE && eeprom.Length == EEPROM_SIZE && rxBuffer != eeprom
      && rxPos <= RX_BUFFER_SIZE
    }

    function RxContents(): seq<byte>
      reads this, rxBuffer
      requires Valid()
    {
      rxBuffer[..rxPos]
    }

    constructor (node: byte, uart: bool)
      ensures Valid() && !initialized && nodeId == node && regions == [] && stored == [] && uartAttached == uart
      ensures RxContents() == [] && !escapeNext && handled == [] && sent == []
      ensures fresh(rxBuffer) && fresh(eeprom)
      ensures forall a :: 0 <= a < EEPROM_SIZE ==> eeprom[a] == 0
    {
      initialized, nodeId, regions, stored := false, node, [], [];
      uartAttached := uart;
      rxBuffer := new byte[RX_BUFFER_SIZE](_ => 0);
      eeprom := new byte[EEPROM_SIZE](_ => 0);
      rxPos, escapeNext, handled, sent := 0, false, [], [];
    }

    /** `add_region_mapping`: refused when not initialised, for an empty
        name, start after end, an end of 32 or more, or a name already
        present; otherwise appended. */
    method AddRegionMapping(m: RegionMapping) returns (ok: bool)
      modifies this`regions
      ensures ok <==> initialized && m.name != [] && m.start <= m.end && m.end < MAX_REGION_INDEX
                      && FindByName(old(regions), m.name).None?
      ensures regions == if ok then old(regions) + [m] else old(regions)
      ensures UniqueNames(old(regions)) ==> UniqueNames(regions)
    {
      if !initialized || m.name == [] || m.start > m.end || m.end >= MAX_REGION_INDEX {
        return false;
      }
      if FindByName(regions, m.name).Some? {
        return false;
      }
      regions := regions + [m];
      ok := true;
    }

    /** `remove_region_mapping`: erases the first mapping of that name. */
    method RemoveRegionMapping(name: seq<byte>) returns (ok: bool)
      modifies this`regions
      ensures ok <==> initialized && FindByName(old(regions), name).Some?
      ensures ok ==> var k := FindByName(old(regions), name).value;
                     regions == old(regions)[..k] + old(regions)[k + 1..]
      ensures !ok ==> regions == old(regions)
      ensures UniqueNames(old(regions)) ==> UniqueNames(regions)
      ensures ok && UniqueNames(old(regions)) ==> FindByName(regions, name).None?
    {
      if !initialized {
        return false;
      }
      var found := FindByName(regions, name);
      if found.None? {
        return false;
      }
      var k := found.value;
      ghost var before := regions;
      regions := regions[..k] + regions[k + 1..];
      assert forall i :: 0 <= i < |regions| ==> regions[i] == (if i < k then before[i] else before[i + 1]);
      ok := true;
    }

    /** `get_region_mapping`. */
    method GetRegionMapping(name: seq<byte>) returns (r: Option<RegionMapping>)
      ensures r.None? <==> forall i :: 0 <= i < |regions| ==> regions[i].name != name
      ensures r.Some? ==> r.value == regions[FindByName(regions, name).value]
    {
      var found := FindByName(regions, name);
      r := if found.None? then None else Some(regions[found.value]);
    }

    /** `get_region_names`: the names in order. */
    method GetRegionNames() returns (names: seq<seq<byte>>)
      ensures |names| == |regions| && forall i :: 0 <= i < |regions| ==> names[i] == regions[i].name
    {
      names := [];
      var i := 0;
      while i < |regions|
        invariant 0 <= i <= |regions| && |names| == i
        invariant forall k :: 0 <= k < i ==> names[k] == regions[k].name
      {
        names := names + [regions[i].name];
        i := i + 1;
      }
    }

    /** `enable_region_mapping`: sets the flag of the first mapping of that name. */
    method EnableRegionMapping(name: seq<byte>, enabled: bool) returns (ok: bool)
      modifies this`regions
      ensures ok <==> FindByName(old(regions), name).Some?
      ensures ok ==> var k := FindByName(old(regions), name).value;
                     regions == old(regions)[k := old(regions)[k].(enabled := enabled)]
      ensures !ok ==> regions == old(regions)
    {
      var found := FindByName(regions, name);
      if found.None? {
        return false;
      }
      regions := regions[found.value := regions[found.value].(enabled := enabled)];
      ok := true;
    }

    /** `get_neopixel_bitmap_for_mai2light_range`. */
    method GetBitmapForRange(lo: byte, hi: byte) returns (bitmap: u32)
      ensures bitmap == RangeBitmap(regions, lo, hi)
    {
      var acc: nat := 0;
      var i := 0;
      while i < |regions|
        invariant 0 <= i <= |regions|
        invariant acc == RangeBitmap(regions[..i], lo, hi)
      {
        assert regions[..i + 1][..i] == regions[..i];
        var m := regions[i];
        if m.enabled && !(hi < m.start || lo > m.end) {
          acc := Or(acc, m.bitmap);
        }
        i := i + 1;
      }
      assert regions[..i] == regions;
      bitmap := acc;
    }

    /** One record as `save_region_mappings` writes it, byte by byte. */
    method WriteRecord(m: RegionMapping) returns (rec: seq<byte>)
      ensures rec == EncodeRecord(m)
    {
      var n := Min(|m.name|, 255);
      rec := [n];
      var j := 0;
      while j < n
        invariant 0 <= j <= n && rec == [n] + m.name[..j]
      {
        rec := rec + [m.name[j]];
        assert m.name[..j + 1] == m.name[..j] + [m.name[j]];
        j := j + 1;
      }
      rec := rec + [m.start, m.end] + Le32(m.bitmap) + [if m.enabled then 1 else 0];
    }

    /** `save_region_mappings`: the byte layout is written to the stored
        configuration string; `persisted` is what saving the configuration
        reports. */
    method SaveRegionMappings(persisted: bool) returns (ok: bool)
      modifies this`stored
      ensures ok == (initialized && persisted)
      ensures stored == if initialized then EncodeMappings(regions) else old(stored)
    {
      if !initialized {
        return false;
      }
      var data := Le16(|regions| % 0x1_0000);
      var i := 0;
      while i < |regions|
        invariant 0 <= i <= |regions|
        invariant data == Le16(|regions| % 0x1_0000) + EncodeRecords(regions[..i])
      {
        var m := regions[i];
        var rec := WriteRecord(m);
        assert regions[..i + 1] == regions[..i] + [m];
        EncodeRecordsSnoc(regions[..i], m);
        data := data + rec;
        i := i + 1;
      }
      assert regions[..i] == regions;
      stored := data;
      ok := persisted;
    }

    /** `reset_region_mappings`: the three default mappings, then saved. */
    method ResetRegionMappings(persisted: bool) returns (ok: bool)
      modifies this`regions, this`stored
      ensures ok == (initialized && persisted)
      ensures initialized ==> regions == DEFAULT_MAPPINGS && stored == EncodeMappings(DEFAULT_MAPPINGS)
      ensures !initialized ==> regions == old(regions) && stored == old(stored)
    {
      if !initialized {
        return false;
      }
      regions := DEFAULT_MAPPINGS;
      ok := SaveRegionMappings(persisted);
    }

    /** Decodes one record at `offset`, reading the fields in the source's
        order, or reports that the record does not fit. */
    method ReadRecord(data: seq<byte>, offset: nat, ghost count: nat) returns (r: Option<(RegionMapping, nat)>)
      requires offset < |data| && count > 0
      ensures r.None? <==> DecodeRecords(data[offset..], count) == []
      ensures r.Some? ==> (offset < r.value.1 <= |data| &&
        DecodeRecords(data[offset..], count) == [r.value.0] + DecodeRecords(data[r.value.1..], count - 1))
    {
      DecodeRecordsFront(data, offset, count);
      var off := offset;
      var nameLen := data[off];
      off := off + 1;
      if off + nameLen > |data| {
        return None;
      }
      var name := CopyName(data, off, nameLen as nat);
      off := off + nameLen;
      if off + 7 > |data| {
        return None;
      }
      var start := data[off];
      var end := data[off + 1];
      var bitmap := FromLe32(data[off + 2], data[off + 3], data[off + 4], data[off + 5]);
      var enabled := data[off + 6] != 0;
      var m := RegionMapping(name, start, end, bitmap, enabled);
      assert off == offset + 1 + data[offset] as int;
      assert m == RecordAt(data, offset);
      r := Some((m, off + 7));
    }

    /** The name bytes of a record, copied one at a time. */
    method CopyName(data: seq<byte>, from: nat, n: nat) returns (name: seq<byte>)
      requires from + n <= |data|
      ensures name == data[from..from + n]
    {
      name := [];
      var j := 0;
      while j < n
        invariant 0 <= j <= n && name == data[from..from + j]
      {
        name := name + [data[from + j]];
        j := j + 1;
      }
    }

    /** The record loop of `load_region_mappings`: up to the stored count
        of records, stopping at the first that does not fit. */
    method ReadRecords(data: seq<byte>) returns (ms: seq<RegionMapping>)
      requires |data| >= 2
      ensures ms == DecodeMappings(data)
    {
      ms := [];
      var count := data[0] as int + 256 * (data[1] as int);
      var offset := 2;
      var i := 0;
      while i < count && offset < |data|
        invariant 0 <= i <= count && 2 <= offset <= |data|
        invariant ms + DecodeRecords(data[offset..], count - i) == DecodeMappings(data)
        decreases count - i
      {
        var rec := ReadRecord(data, offset, count - i);
        if rec.None? {
          break;
        }
        ghost var rest := DecodeRecords(data[rec.value.1..], count - i - 1);
        assert ms + [rec.value.0] + rest == ms + ([rec.value.0] + rest);
        ms := ms + [rec.value.0];
        offset := rec.value.1;
        i := i + 1;
      }
      assert DecodeRecords(data[offset..], count - i) == [];
      assert ms + [] == ms;
    }

    /** `load_region_mappings`: an empty stored string installs the
        defaults; fewer than two bytes fail and keep the mappings; otherwise
        the mappings are replaced by the records that decode. */
    method LoadRegionMappings(persisted: bool) returns (ok: bool)
      modifies this`regions, this`stored
      ensures !initialized ==> !ok && regions == old(regions) && stored == old(stored)
      ensures initialized && old(stored) == [] ==> ok && regions == DEFAULT_MAPPINGS
      ensures initialized && |old(stored)| == 1 ==> !ok && regions == old(regions) && stored == old(stored)
      ensures initialized && |old(stored)| >= 2 ==> ok && regions == DecodeMappings(old(stored)) && stored == old(stored)
    {
      if !initialized {
        return false;
      }
      if stored == [] {
        var _ := ResetRegionMappings(persisted);
        return true;
      }
      var data := stored;
      if |data| < 2 {
        return false;
      }
      regions := ReadRecords(data);
      ok := true;
    }

    /** `handle_eeprom_commands` on an initialised board: SetEEPRom stores
        `data[1]` at address `data[0]`, GetEEPRom answers the byte there
        (every 8-bit address is in range of the 256-byte EEPROM). */
    method HandleEepromCommand(p: PacketReq) returns (reply: Option<byte>)
      requires Valid() && |p.data| == REQ_DATA_SIZE
      requires p.command == CMD_SET_EEPROM || p.command == CMD_GET_EEPROM
      modifies eeprom, this`sent
      ensures !initialized ==>
        reply.None? && unchanged(eeprom)
        && sent == old(sent) + Acks(p.command, ACK_STATUS_INVALID, ACK_REPORT_INVALID, [])
      ensures initialized && p.command == CMD_SET_EEPROM ==>
        reply.None? && eeprom[..] == old(eeprom[..])[p.data[0] := p.data[1]]
        && sent == old(sent) + Acks(CMD_SET_EEPROM, ACK_STATUS_OK, ACK_REPORT_OK, [])
      ensures initialized && p.command == CMD_GET_EEPROM ==>
        reply == Some(old(eeprom[p.data[0]])) && unchanged(eeprom)
        && sent == old(sent) + Acks(CMD_GET_EEPROM, ACK_STATUS_OK, ACK_REPORT_OK, [old(eeprom[p.data[0]])])
    {
      if !initialized {
        SendAck(p.command, ACK_STATUS_INVALID, ACK_REPORT_INVALID, []);
        return None;
      }
      if p.command == CMD_SET_EEPROM {
        eeprom[p.data[0]] := p.data[1];
        SendAck(CMD_SET_EEPROM, ACK_STATUS_OK, ACK_REPORT_OK, []);
        reply := None;
      } else {
        var v := eeprom[p.data[0]];
        SendAck(CMD_GET_EEPROM, ACK_STATUS_OK, ACK_REPORT_OK, [v]);
        reply := Some(v);
      }
    }

    /** The frames one `send_ack` writes: the acknowledgement's frame when a
        UART is attached, and nothing otherwise. */
    function Acks(command: byte, status: byte, report: byte, data: seq<byte>): (r: seq<seq<byte>>)
      reads this`nodeId
      requires |data| <= 10
      ensures |r| == if uartAttached then 1 else 0
      ensures forall f :: f in r ==> |f| > 0 && f[0] == BD15070_SYNC && BD15070_SYNC !in f[1..]
    {
      if uartAttached then [AckFrame(AckBody(nodeId, command, status, report, data))] else []
    }

    /** `send_ack`: without a UART nothing is sent; otherwise one frame, SYNC
        first and every other byte escaped. */
    method SendAck(command: byte, status: byte, report: byte, data: seq<byte>)
      requires |data| <= 10
      modifies this`sent
      ensures !uartAttached ==> sent == old(sent)
      ensures uartAttached ==> sent == old(sent) + [AckFrame(AckBody(nodeId, command, status, report, data))]
    {
      if !uartAttached {
        return;
      }
      var body := AckBody(nodeId, command, status, report, data);
      var e := EscapeBytes(body);
      var checksum := CalculateChecksum(body, |body|);
      assert body[..|body|] == body;
      var ce := EscapeBytes([checksum]);
      var tx := [BD15070_SYNC] + e + ce;
      assert tx == [BD15070_SYNC] + (Escape(body) + Escape([ByteSum(body)]));
      sent := sent + [tx];
    }

    /** Whether a packet is addressed to this node or broadcast. */
    predicate Addressed(p: PacketReq)
      reads this`nodeId
    {
      p.dst == nodeId || p.dst == 0xFF
    }

    /** What `handle_command` does with one packet, between the state before
        and after it: packets for another node (neither ours nor the
        broadcast 0xFF) are ignored; EEPROM commands are served; the response
        controls are acknowledged with Ok; any command outside the switch
        (SetDc and SetDcUpdate among them) is answered Invalid /
        CommandUnknown; every addressed packet is recorded. Only EEPROM
        commands change the EEPROM. */
    twostate predicate Dispatched(p: PacketReq)
      reads this`nodeId, this`initialized, this`handled, this`sent, eeprom
      requires |p.data| == REQ_DATA_SIZE && eeprom.Length == EEPROM_SIZE
    {
      if !Addressed(p) then
        handled == old(handled) && sent == old(sent) && unchanged(eeprom)
      else
        && handled == old(handled) + [p]
        && if p.command == CMD_SET_EEPROM || p.command == CMD_GET_EEPROM then
             if !initialized then
               sent == old(sent) + Acks(p.command, ACK_STATUS_INVALID, ACK_REPORT_INVALID, []) && unchanged(eeprom)
             else if p.command == CMD_SET_EEPROM then
               && sent == old(sent) + Acks(CMD_SET_EEPROM, ACK_STATUS_OK, ACK_REPORT_OK, [])
               && eeprom[..] == old(eeprom[..])[p.data[0] := p.data[1]]
             else
               sent == old(sent) + Acks(CMD_GET_EEPROM, ACK_STATUS_OK, ACK_REPORT_OK, [old(eeprom[p.data[0]])])
               && unchanged(eeprom)
           else
             && unchanged(eeprom)
             && (p.command == CMD_SET_ENABLE_RESPONSE || p.command == CMD_SET_DISABLE_RESPONSE ==>
                   sent == old(sent) + Acks(p.command, ACK_STATUS_OK, ACK_REPORT_OK, []))
             && (!KnownCommand(p.command) ==>
                   sent == old(sent) + Acks(p.command, ACK_STATUS_INVALID, ACK_REPORT_COMMAND_UNKNOWN, []))
    }

    /** `handle_command`, as `Dispatched` describes it. */
    method HandleCommand(p: PacketReq)
      requires Valid() && |p.data| == REQ_DATA_SIZE
      modifies eeprom, this`sent, this`handled
      ensures Dispatched(p)
    {
      if p.dst != nodeId && p.dst != 0xFF {
        return;
      }
      if p.command == CMD_SET_EEPROM || p.command == CMD_GET_EEPROM {
        var _ := HandleEepromCommand(p);
      } else if p.command == CMD_SET_ENABLE_RESPONSE || p.command == CMD_SET_DISABLE_RESPONSE {
        SendAck(p.command, ACK_STATUS_OK, ACK_REPORT_OK, []);
      } else if !KnownCommand(p.command) {
        SendAck(p.command, ACK_STATUS_INVALID, ACK_REPORT_COMMAND_UNKNOWN, []);
      }
      handled := handled + [p];
    }

    /** `process_received_data` for one byte: SYNC restarts the packet,
        MARKER arms the escape, an armed byte is incremented; the byte is
        then buffered (overflow empties the buffer) and a complete packet is
        removed and, if its checksum holds and it parses, dispatched. Without
        a UART the function returns at once and nothing changes. */
    method ProcessReceivedByte(b: byte)
      requires Valid()
      modifies rxBuffer, this`rxPos, this`escapeNext, eeprom, this`sent, this`handled
      ensures Valid()
      ensures !uartAttached ==>
        rxPos == old(rxPos) && escapeNext == old(escapeNext) && handled == old(handled) && sent == old(sent)
        && unchanged(rxBuffer) && unchanged(eeprom)
      ensures uartAttached && b == BD15070_SYNC ==>
        RxContents() == [] && !escapeNext && handled == old(handled) && sent == old(sent) && unchanged(eeprom)
      ensures uartAttached && b != BD15070_SYNC ==>
        var (esc, out) := RxFilter(old(escapeNext), b);
        && escapeNext == esc
        && (out.None? ==> RxContents() == old(RxContents()) && handled == old(handled) && sent == old(sent) && unchanged(eeprom))
        && (out.Some? && old(rxPos) == RX_BUFFER_SIZE ==>
              RxContents() == [] && handled == old(handled) && sent == old(sent) && unchanged(eeprom))
        && (out.Some? && old(rxPos) < RX_BUFFER_SIZE ==>
              var (rest, packet) := Assemble(old(RxContents()) + [out.value]);
              && RxContents() == rest
              && (packet.None? ==> handled == old(handled) && sent == old(sent) && unchanged(eeprom))
              && (packet.Some? ==> Dispatched(packet.value)))
    {
      if !uartAttached {
        return;
      }
      if b == BD15070_SYNC {
        rxPos, escapeNext := 0, false;
        return;
      }
      if b == BD15070_MARKER {
        escapeNext := true;
        return;
      }
      var v := b;
      if escapeNext {
        v := (b + 1) % 256;
        escapeNext := false;
      }
      if rxPos < RX_BUFFER_SIZE {
        BufferByte(v);
      } else {
        rxPos, escapeNext := 0, false;
      }
    }

    /** The buffering half of `process_received_data`: the unescaped byte is
        appended, and a complete packet is removed and, if its checksum
        holds and it parses, dispatched. */
    method BufferByte(v: byte)
      requires Valid() && rxPos < RX_BUFFER_SIZE
      modifies rxBuffer, this`rxPos, eeprom, this`sent, this`handled
      ensures Valid()
      ensures var (rest, packet) := Assemble(old(RxContents()) + [v]);
              && RxContents() == rest
              && (packet.None? ==> handled == old(handled) && sent == old(sent) && unchanged(eeprom))
              && (packet.Some? ==> Dispatched(packet.value))
    {
      rxBuffer[rxPos] := v;
      rxPos := rxPos + 1;
      assert RxContents() == old(RxContents()) + [v];
      TakePacket();
    }

    /** The packet boundary of `process_received_data` on the buffered
        bytes: a complete packet is removed and, if its checksum holds and
        it parses, dispatched. */
    method TakePacket()
      requires Valid()
      modifies rxBuffer, this`rxPos, eeprom, this`sent, this`handled
      ensures Valid()
      ensures var (rest, packet) := Assemble(old(RxContents()));
              && RxContents() == rest
              && (packet.None? ==> handled == old(handled) && sent == old(sent) && unchanged(eeprom))
              && (packet.Some? ==> Dispatched(packet.value))
    {
      var buf := rxBuffer[..rxPos];
      if rxPos >= 4 {
        var expected := rxBuffer[2] as int + 4;
        if rxPos >= expected {
          var _ := CheckAndDispatch(buf, expected);
          ShiftOut(expected);
        }
      }
    }

    /** The checks on a complete packet of `expected` bytes at the front of
        `buf`: when the sum of all but its last byte is that byte and it
        parses, it is dispatched. */
    method CheckAndDispatch(buf: seq<byte>, expected: nat) returns (packet: Option<PacketReq>)
      requires Valid() && 4 <= expected <= |buf|
      modifies eeprom, this`sent, this`handled
      ensures packet == if ByteSum(buf[..expected - 1]) == buf[expected - 1] then ParsePacket(buf, expected) else None
      ensures packet.None? ==> handled == old(handled) && sent == old(sent) && unchanged(eeprom)
      ensures packet.Some? ==> Dispatched(packet.value)
    {
      var checksum := CalculateChecksum(buf, expected - 1);
      packet := None;
      if checksum == buf[expected - 1] {
        packet := ParsePacket(buf, expected);
        if packet.Some? {
          HandleCommand(packet.value);
        }
      }
    }

    /** The `memmove` that drops the first `n` buffered bytes. */
    method ShiftOut(n: nat)
      requires Valid() && n <= rxPos
      modifies rxBuffer, this`rxPos
      ensures Valid() && RxContents() == old(RxContents())[n..]
    {
      var i := 0;
      var len := rxPos - n;
      while i < len
        invariant 0 <= i <= len && rxPos == old(rxPos)
        invariant forall k :: 0 <= k < i ==> rxBuffer[k] == old(rxBuffer[n + k])
        invariant forall k :: i <= k < RX_BUFFER_SIZE ==> rxBuffer[k] == old(rxBuffer[k])
      {
        rxBuffer[i] := rxBuffer[n + i];
        i := i + 1;
      }
      rxPos := len;
    }
  }
}
