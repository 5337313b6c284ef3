/** The Mai2Light LED board protocol: XOR-checksummed request frames
    (sync, node, length, command, data, checksum), the LED status table, the
    256-byte virtual EEPROM and the line-oriented text command buffer. */
module Mai2Light {
  import opened Common

  const NUM_LEDS: nat := 11
  const SYNC_BYTE: byte := 0xE0
  const MAX_PACKET_SIZE: nat := 64
  const PACKET_DATA_SIZE: nat := 32
  const EEPROM_SIZE: nat := 256
  const STRING_CMD_SIZE: nat := 64
  const DEFAULT_BAUD_RATE: nat := 115200

  /** `Mai2Light_RGB`. */
  datatype RGB = RGB(r: byte, g: byte, b: byte)

  const BLACK := RGB(0, 0, 0)

  /** `Mai2Light_LEDStatus`: a colour, a brightness and an enable flag;
      the default is black at full brightness, enabled. */
  datatype LedStatus = LedStatus(color: RGB, brightness: byte, enabled: bool)

  const DEFAULT_LED_STATUS := LedStatus(BLACK, 255, true)

  /** `Mai2Light_PacketReq`: `data` is the fixed 32-byte array. */
  datatype PacketReq = PacketReq(sync: byte, nodeId: byte, length: byte, command: byte, data: seq<byte>)

  /** One channel of `blend`: (a * (255 - ratio) + b * ratio) / 255. */
  function BlendChannel(a: byte, b: byte, ratio: byte): (c: byte)
    ensures Min(a, b) <= c <= Max(a, b)
    ensures ratio == 0 ==> c == a
    ensures ratio == 255 ==> c == b
  {
    BlendBounds(a, b, ratio);
    (a * (255 - ratio) + b * ratio) / 255
  }

  lemma BlendBounds(a: byte, b: byte, ratio: byte)
    ensures Min(a, b) * 255 <= a * (255 - ratio) + b * ratio <= Max(a, b) * 255
  {
    var lo, hi := Min(a, b), Max(a, b);
    assert a * (255 - ratio) + b * ratio == lo * 255 + (a - lo) * (255 - ratio) + (b - lo) * ratio by {
      Regroup(a, b, lo, ratio);
    }
    assert a * (255 - ratio) + b * ratio == hi * 255 - (hi - a) * (255 - ratio) - (hi - b) * ratio by {
      Regroup(a, b, hi, ratio);
    }
    ProductNonneg(a - lo, 255 - ratio);
    ProductNonneg(b - lo, ratio);
    ProductNonneg(hi - a, 255 - ratio);
    ProductNonneg(hi - b, ratio);
  }

  /** The blend's sum measured from any level `c`. */
  lemma Regroup(a: int, b: int, c: int, r: int)
    ensures a * (255 - r) + b * r == c * 255 + (a - c) * (255 - r) + (b - c) * r
  {
  }

  lemma ProductNonneg(x: int, y: int)
    requires x >= 0 && y >= 0
    ensures x * y >= 0
  {
  }

  /** `Mai2Light_RGB::blend`: channel-wise, ratio 0 gives this colour, ratio
      255 gives the other, and every channel lies between the two. */
  function Blend(self: RGB, other: RGB, ratio: byte): (c: RGB)
    ensures ratio == 0 ==> c == self
    ensures ratio == 255 ==> c == other
    ensures Min(self.r, other.r) <= c.r <= Max(self.r, other.r)
    ensures Min(self.g, other.g) <= c.g <= Max(self.g, other.g)
    ensures Min(self.b, other.b) <= c.b <= Max(self.b, other.b)
  {
    RGB(BlendChannel(self.r, other.r, ratio), BlendChannel(self.g, other.g, ratio),
        BlendChannel(self.b, other.b, ratio))
  }

  /** The XOR of every byte of `s`, as an 8-bit vector. */
  function XorAll(s: seq<byte>): bv8
  {
    if s == [] then 0 else XorAll(s[..|s| - 1]) ^ (s[|s| - 1] as bv8)
  }

  /** A frame whose last byte is the XOR of the bytes before it XORs to zero
      as a whole, and only such a frame does. */
  lemma ChecksumClosesFrame(body: seq<byte>, cs: byte)
    ensures XorAll(body + [cs]) == 0 <==> cs as bv8 == XorAll(body)
  {
    assert (body + [cs])[..|body|] == body;
  }

  /** The received frame's check: its last byte is the XOR of the others
      exactly when the whole frame XORs to zero. */
  lemma FrameChecksum(buffer: seq<byte>, length: nat)
    requires 1 <= length <= |buffer|
    ensures XorAll(buffer[..length]) == 0 <==> buffer[length - 1] as bv8 == XorAll(buffer[..length - 1])
  {
    assert buffer[..length] == buffer[..length - 1] + [buffer[length - 1]];
    ChecksumClosesFrame(buffer[..length - 1], buffer[length - 1]);
  }

  /** `calculate_checksum`: the XOR of the first `length` bytes. */
  method CalculateChecksum(data: seq<byte>, length: nat) returns (checksum: bv8)
    requires length <= |data|
    ensures checksum == XorAll(data[..length])
  {
    checksum := 0;
    var i := 0;
    while i < length
      invariant 0 <= i <= length
      invariant checksum == XorAll(data[..i])
    {
      checksum := checksum ^ (data[i] as bv8);
      assert data[..i + 1][..i] == data[..i];
      i := i + 1;
    }
  }

  /** `verify_checksum`: true exactly when the XOR matches. */
  method VerifyChecksum(data: seq<byte>, length: nat, expected: byte) returns (ok: bool)
    requires length <= |data|
    ensures ok <==> XorAll(data[..length]) == expected as bv8
  {
    var cs := CalculateChecksum(data, length);
    ok := cs == expected as bv8;
  }

  /** The 32-byte data array of a received packet: the first min(length, 32)
      bytes after the header, the rest left at 0. */
  function PacketData(buffer: seq<byte>, len: byte): (d: seq<byte>)
    requires |buffer| >= 4 + PACKET_DATA_SIZE
    ensures |d| == PACKET_DATA_SIZE
  {
    var n := Min(len, PACKET_DATA_SIZE);
    buffer[4..4 + n] + seq(PACKET_DATA_SIZE - n, _ => 0)
  }

  /** What `parse_packet` accepts from the first `length` bytes of the
      receive buffer: at least five bytes, the sync byte first, and a last
      byte equal to the XOR of the others. */
  function DecodeFrame(buffer: seq<byte>, length: nat): (r: Option<PacketReq>)
    requires length <= |buffer| && |buffer| >= 4 + PACKET_DATA_SIZE
  {
    if length < 5 || buffer[0] != SYNC_BYTE || XorAll(buffer[..length - 1]) != buffer[length - 1] as bv8 then None
    else Some(PacketReq(buffer[0], buffer[1], buffer[2], buffer[3], PacketData(buffer, buffer[2])))
  }

  /** The copy loop of `parse_packet`: at most 32 data bytes after the
      header, the rest of the array cleared. */
  method CopyPacketData(buffer: seq<byte>, len: byte) returns (data: seq<byte>)
    requires |buffer| >= 4 + PACKET_DATA_SIZE
    ensures data == PacketData(buffer, len)
  {
    data := seq(PACKET_DATA_SIZE, _ => 0);
    var i := 0;
    while i < len && i < PACKET_DATA_SIZE
      invariant 0 <= i <= Min(len, PACKET_DATA_SIZE)
      invariant |data| == PACKET_DATA_SIZE
      invariant forall k :: 0 <= k < i ==> data[k] == buffer[4 + k]
      invariant forall k :: i <= k < PACKET_DATA_SIZE ==> data[k] == 0
    {
      data := data[i := buffer[4 + i]];
      i := i + 1;
    }
    var d := PacketData(buffer, len);
    assert forall k :: 0 <= k < PACKET_DATA_SIZE ==> data[k] == d[k];
  }

  /** `parse_packet` (a null buffer is the caller's to avoid): rejects fewer
      than five bytes, a wrong sync byte or a bad checksum. */
  method ParsePacket(buffer: seq<byte>, length: nat) returns (r: Option<PacketReq>)
    requires length <= |buffer| && |buffer| == MAX_PACKET_SIZE
    ensures r == DecodeFrame(buffer, length)
    ensures r.Some? <==> length >= 5 && buffer[0] == SYNC_BYTE && XorAll(buffer[..length]) == 0
  {
    if length < 5 {
      return None;
    }
    if buffer[0] != SYNC_BYTE {
      return None;
    }
    var ok := VerifyChecksum(buffer, length - 1, buffer[length - 1]);
    FrameChecksum(buffer, length);
    if !ok {
      return None;
    }
    var len := buffer[2];
    var data := CopyPacketData(buffer, len);
    r := Some(PacketReq(buffer[0], buffer[1], len, buffer[3], data));
  }

  /** The frame `send_packet` writes for a request whose length is within the
      32-byte data array: sync, node, length, command, the data bytes, and
      the XOR of everything before it. */
  function EncodeFrame(p: PacketReq): (f: seq<byte>)
    requires p.length <= |p.data|
    ensures |f| == p.length + 5
    ensures XorAll(f) == 0
  {
    var body := [p.sync, p.nodeId, p.length, p.command] + p.data[..p.length];
    ChecksumClosesFrame(body, XorAll(body) as int);
    body + [XorAll(body) as int]
  }

  /** A frame built by `send_packet`, received into the 64-byte buffer,
      parses back into the same request (the data array agreeing on the
      transmitted bytes and zero after them), provided the sync byte is right. */
  lemma {:induction false} EncodeThenDecode(p: PacketReq, rest: seq<byte>)
    requires p.sync == SYNC_BYTE && |p.data| == PACKET_DATA_SIZE && p.length <= PACKET_DATA_SIZE
    requires |EncodeFrame(p)| + |rest| == MAX_PACKET_SIZE
    ensures var buffer := EncodeFrame(p) + rest;
            var r := DecodeFrame(buffer, |EncodeFrame(p)|);
            && r.Some?
            && r.value.sync == p.sync && r.value.nodeId == p.nodeId
            && r.value.length == p.length && r.value.command == p.command
            && r.value.data[..p.length] == p.data[..p.length]
            && forall k :: p.length <= k < PACKET_DATA_SIZE ==> r.value.data[k] == 0
  {
    var f := EncodeFrame(p);
    var buffer := f + rest;
    var body := [p.sync, p.nodeId, p.length, p.command] + p.data[..p.length];
    assert buffer[..|f| - 1] == body;
    assert buffer[|f| - 1] == XorAll(body) as int;
    assert buffer[4..4 + p.length] == p.data[..p.length];
  }

  /** `clear_all_leds` applied to one LED. */
  function Cleared(s: LedStatus): LedStatus
  {
    s.(color := BLACK, brightness := 0)
  }

  /** What `parse_string_command` recognises once the line is trimmed. */
  datatype StringCommand = HelpCmd | StatusCmd | VersionCmd | ResetCmd | UnknownCmd(text: seq<byte>)

  predicate IsSpace(c: byte)
  {
    c == 0x20 || c == 0x09 || c == 0x0D || c == 0x0A
  }

  /** Remove trailing " \t\r\n" characters. */
  function TrimEnd(s: seq<byte>): (t: seq<byte>)
    ensures |t| <= |s| && t == s[..|t|]
    ensures t == [] || !IsSpace(t[|t| - 1])
    ensures forall k :: |t| <= k < |s| ==> IsSpace(s[k])
  {
    if s == [] || !IsSpace(s[|s| - 1]) then s else TrimEnd(s[..|s| - 1])
  }

  /** Remove leading " \t\r\n" characters. */
  function TrimStart(s: seq<byte>): (t: seq<byte>)
    ensures |t| <= |s| && t == s[|s| - |t|..]
    ensures t == [] || !IsSpace(t[0])
    ensures forall k :: 0 <= k < |s| - |t| ==> IsSpace(s[k])
  {
    if s == [] || !IsSpace(s[0]) then s else TrimStart(s[1..])
  }

  function Trim(s: seq<byte>): seq<byte>
  {
    TrimStart(TrimEnd(s))
  }

  const HELP_TEXT: seq<byte> := [0x2F, 0x68, 0x65, 0x6C, 0x70]                     // "/help"
  const STATUS_TEXT: seq<byte> := [0x2F, 0x73, 0x74, 0x61, 0x74, 0x75, 0x73]        // "/status"
  const VERSION_TEXT: seq<byte> := [0x2F, 0x76, 0x65, 0x72, 0x73, 0x69, 0x6F, 0x6E] // "/version"
  const RESET_TEXT: seq<byte> := [0x2F, 0x72, 0x65, 0x73, 0x65, 0x74]               // "/reset"

  /** `parse_string_command`: the line, trimmed of blanks at both ends,
      is one of the four commands or is answered as unknown. */
  function ClassifyStringCommand(line: seq<byte>): (c: StringCommand)
    ensures c.UnknownCmd? ==> c.text == Trim(line)
    ensures c == HelpCmd <==> Trim(line) == HELP_TEXT
    ensures c == StatusCmd <==> Trim(line) == STATUS_TEXT
    ensures c == VersionCmd <==> Trim(line) == VERSION_TEXT
    ensures c == ResetCmd <==> Trim(line) == RESET_TEXT
  {
    var t := Trim(line);
    if t == HELP_TEXT then HelpCmd
    else if t == STATUS_TEXT then StatusCmd
    else if t == VERSION_TEXT then VersionCmd
    else if t == RESET_TEXT then ResetCmd
    else UnknownCmd(t)
  }

  /** Whether one of the lines handed to the parser is "/reset" once trimmed. */
  predicate AnyReset(lines: seq<seq<byte>>)
  {
    exists k :: 0 <= k < |lines| && Trim(lines[k]) == RESET_TEXT
  }

  lemma AnyResetOne(line: seq<byte>)
    ensures AnyReset([line]) <==> ClassifyStringCommand(line) == ResetCmd
  {
    var lines := [line];
    assert lines[0] == line;
    if AnyReset(lines) {
      var k :| 0 <= k < |lines| && Trim(lines[k]) == RESET_TEXT;
      assert k == 0;
    }
    if Trim(line) == RESET_TEXT {
      assert 0 < |lines| && Trim(lines[0]) == RESET_TEXT;
    }
  }

  lemma AnyResetAppend(a: seq<seq<byte>>, b: seq<seq<byte>>)
    ensures AnyReset(a + b) <==> AnyReset(a) || AnyReset(b)
  {
    if AnyReset(a + b) {
      var k :| 0 <= k < |a + b| && Trim((a + b)[k]) == RESET_TEXT;
      if k < |a| {
        assert (a + b)[k] == a[k];
      } else {
        assert (a + b)[k] == b[k - |a|];
      }
    }
    if AnyReset(a) {
      var k :| 0 <= k < |a| && Trim(a[k]) == RESET_TEXT;
      assert (a + b)[k] == a[k];
    }
    if AnyReset(b) {
      var k :| 0 <= k < |b| && Trim(b[k]) == RESET_TEXT;
      assert (a + b)[|a| + k] == b[k];
    }
  }

  /** The lines a line end hands to the parser: none for an empty buffer,
      else the buffer cut at its first zero byte. */
  function LineEnded(buf: seq<byte>): seq<seq<byte>>
  {
    if buf == [] then [] else [CString(buf)]
  }

  /** One byte of `process_string_commands` on the buffered line: the new
      buffered line and the lines handed to `parse_string_command`. CR or LF
      hands a non-empty line, cut at its first zero byte as
      `std::string(char*)` does, to the parser and empties the buffer;
      another byte is kept while fewer than 63 are held, and otherwise the
      buffer is emptied. */
  function StringStep(buf: seq<byte>, c: byte): (seq<byte>, seq<seq<byte>>)
  {
    if c == 0x0A || c == 0x0D then ([], LineEnded(buf))
    else if |buf| < STRING_CMD_SIZE - 1 then (buf + [c], [])
    else ([], [])
  }

  /** `process_string_commands` over a whole input: the line left buffered
      and every line handed to the parser, in order. */
  function StringRun(buf: seq<byte>, input: seq<byte>): (seq<byte>, seq<seq<byte>>)
    decreases |input|
  {
    if input == [] then (buf, [])
    else
      var r := StringRun(buf, input[..|input| - 1]);
      var s := StringStep(r.0, input[|input| - 1]);
      (s.0, r.1 + s.1)
  }

  /** The buffered line never exceeds 63 bytes, the room left for the terminator. */
  lemma {:induction false} StringRunBounded(buf: seq<byte>, input: seq<byte>)
    requires |buf| < STRING_CMD_SIZE
    ensures |StringRun(buf, input).0| < STRING_CMD_SIZE
    decreases |input|
  {
    if input != [] {
      StringRunBounded(buf, input[..|input| - 1]);
    }
  }

  /** `StringRun` over one more byte is one more `StringStep`. */
  lemma StringRunSnoc(buf: seq<byte>, input: seq<byte>, i: nat, run: (seq<byte>, seq<seq<byte>>))
    requires i < |input| && run == StringRun(buf, input[..i])
    ensures StringRun(buf, input[..i + 1]) ==
      (StringStep(run.0, input[i]).0, run.1 + StringStep(run.0, input[i]).1)
  {
    assert input[..i + 1][..i] == input[..i];
  }

  /** The same, for a byte appended to an input. */
  lemma StringRunAppend(buf: seq<byte>, pre: seq<byte>, c: byte)
    ensures StringRun(buf, pre + [c]) ==
      (StringStep(StringRun(buf, pre).0, c).0, StringRun(buf, pre).1 + StringStep(StringRun(buf, pre).0, c).1)
  {
    assert (pre + [c])[..|pre|] == pre;
  }

  /** Bytes without a line end are only buffered while they fit. */
  lemma {:induction false} StringRunBuffers(buf: seq<byte>, line: seq<byte>)
    requires |buf| + |line| < STRING_CMD_SIZE
    requires forall k :: 0 <= k < |line| ==> line[k] != 0x0A && line[k] != 0x0D
    ensures StringRun(buf, line) == (buf + line, [])
    decreases |line|
  {
    if line != [] {
      var n := |line| - 1;
      StringRunBuffers(buf, line[..n]);
      StringRunSnoc(buf, line, n, StringRun(buf, line[..n]));
      assert line[..n + 1] == line;
      assert line[n] != 0x0A && line[n] != 0x0D;
      assert buf + line[..n] + [line[n]] == buf + line;
      var none: seq<seq<byte>> := [];
      assert none + none == none;
    } else {
      assert buf + line == buf;
    }
  }

  /** Bytes without a line end that fit in the buffer, followed by LF,
      hand exactly one line to the parser, the buffered text up to its first
      zero byte, and leave the buffer empty. */
  lemma StringLine(buf: seq<byte>, line: seq<byte>)
    requires 0 < |buf| + |line| < STRING_CMD_SIZE
    requires forall k :: 0 <= k < |line| ==> line[k] != 0x0A && line[k] != 0x0D
    ensures StringRun(buf, line + [0x0A]) == ([], [CString(buf + line)])
  {
    StringRunBuffers(buf, line);
    LineEnd(buf, line);
  }

  /** A line end after a buffered, non-empty line completes it. */
  lemma LineEnd(buf: seq<byte>, pre: seq<byte>)
    requires StringRun(buf, pre) == (buf + pre, []) && buf + pre != []
    ensures StringRun(buf, pre + [0x0A]) == ([], [CString(buf + pre)])
  {
    StringRunAppend(buf, pre, 0x0A);
    var none: seq<seq<byte>> := [];
    assert none + [CString(buf + pre)] == [CString(buf + pre)];
  }

  /** A zero byte ends the line early: whatever follows it never reaches
      the parser. */
  lemma NulEndsLine(cmd: seq<byte>, rest: seq<byte>)
    requires 0 !in cmd && |cmd| + 1 + |rest| < STRING_CMD_SIZE
    requires forall k :: 0 <= k < |cmd| ==> cmd[k] != 0x0A && cmd[k] != 0x0D
    requires forall k :: 0 <= k < |rest| ==> rest[k] != 0x0A && rest[k] != 0x0D
    ensures StringRun([], cmd + [0] + rest + [0x0A]) == ([], [cmd])
  {
    var empty: seq<byte> := [];
    var line := cmd + ([0] + rest);
    assert cmd + [0] + rest + [0x0A] == line + [0x0A];
    assert forall k :: 0 <= k < |line| ==> line[k] != 0x0A && line[k] != 0x0D by {
      forall k | 0 <= k < |line| ensures line[k] != 0x0A && line[k] != 0x0D {
        if k < |cmd| { assert line[k] == cmd[k]; }
        else if k > |cmd| { assert line[k] == rest[k - |cmd| - 1]; }
      }
    }
    StringLine(empty, line);
    assert empty + line == line;
    CStringCut(cmd, [0] + rest);
  }

  /** "/reset", a zero byte, "x", LF: the board resets. */
  lemma ResetBeforeNul()
    ensures StringRun([], RESET_TEXT + [0] + [0x78] + [0x0A]) == ([], [RESET_TEXT])
    ensures ClassifyStringCommand(RESET_TEXT) == ResetCmd
  {
    NulEndsLine(RESET_TEXT, [0x78]);
    PaddingIgnored([], RESET_TEXT, []);
    assert [] + RESET_TEXT + [] == RESET_TEXT;
  }

  /** The configuration fields `reset_board` restores: node id, baud rate,
      global brightness, fade time and the fade flag. */
  type Settings = (byte, nat, byte, u16, bool)

  const DEFAULT_SETTINGS: Settings := (0, DEFAULT_BAUD_RATE, 255, 100, true)

  /** Every LED as `clear_all_leds` leaves it. */
  function ClearedAll(leds: seq<LedStatus>): (r: seq<LedStatus>)
    ensures |r| == |leds| && forall k :: 0 <= k < |leds| ==> r[k] == Cleared(leds[k])
  {
    seq(|leds|, k requires 0 <= k < |leds| => Cleared(leds[k]))
  }

  /** The LEDs and configuration after a run of string commands: reset when
      one of them was "/reset", untouched otherwise. */
  function BoardAfter(reset: bool, leds: seq<LedStatus>, settings: Settings): (seq<LedStatus>, Settings)
  {
    if reset then (ClearedAll(leds), DEFAULT_SETTINGS) else (leds, settings)
  }

  /** A second reset changes nothing more: resetting is idempotent. */
  lemma BoardAfterTwice(r1: bool, r2: bool, leds: seq<LedStatus>, settings: Settings)
    ensures BoardAfter(r2, BoardAfter(r1, leds, settings).0, BoardAfter(r1, leds, settings).1)
         == BoardAfter(r1 || r2, leds, settings)
  {
    if r1 && r2 {
      assert ClearedAll(ClearedAll(leds)) == ClearedAll(leds);
    }
  }

  /** The board after two runs of lines is the board after both together. */
  lemma BoardAfterLines(done: seq<seq<byte>>, more: seq<seq<byte>>, leds: seq<LedStatus>, settings: Settings)
    ensures BoardAfter(AnyReset(more), BoardAfter(AnyReset(done), leds, settings).0, BoardAfter(AnyReset(done), leds, settings).1)
         == BoardAfter(AnyReset(done + more), leds, settings)
  {
    AnyResetAppend(done, more);
    BoardAfterTwice(AnyReset(done), AnyReset(more), leds, settings);
  }

  /** Blanks around a command do not change what it is. */
  lemma {:induction false} PaddingIgnored(pre: seq<byte>, cmd: seq<byte>, post: seq<byte>)
    requires forall k :: 0 <= k < |pre| ==> IsSpace(pre[k])
    requires forall k :: 0 <= k < |post| ==> IsSpace(post[k])
    requires cmd != [] && !IsSpace(cmd[0]) && !IsSpace(cmd[|cmd| - 1])
    ensures Trim(pre + cmd + post) == cmd
  {
    TrimEndPadding(pre + cmd, post);
    assert pre + cmd + post == (pre + cmd) + post;
    TrimStartPadding(pre, cmd);
  }

  lemma {:induction false} TrimEndPadding(s: seq<byte>, post: seq<byte>)
    requires s != [] && !IsSpace(s[|s| - 1])
    requires forall k :: 0 <= k < |post| ==> IsSpace(post[k])
    ensures TrimEnd(s + post) == s
    decreases |post|
  {
    if post != [] {
      var all := s + post;
      assert all[..|all| - 1] == s + post[..|post| - 1];
      TrimEndPadding(s, post[..|post| - 1]);
    } else {
      assert s + post == s;
    }
  }

  lemma {:induction false} TrimStartPadding(pre: seq<byte>, s: seq<byte>)
    requires s != [] && !IsSpace(s[0])
    requires forall k :: 0 <= k < |pre| ==> IsSpace(pre[k])
    ensures TrimStart(pre + s) == s
    decreases |pre|
  {
    if pre != [] {
      var all := pre + s;
      assert all[0] == pre[0] && IsSpace(pre[0]);
      assert all[1..] == pre[1..] + s;
      assert forall k :: 0 <= k < |pre| - 1 ==> pre[1..][k] == pre[k + 1];
      TrimStartPadding(pre[1..], s);
      assert TrimStart(all) == TrimStart(all[1..]);
    } else {
      assert pre + s == s;
    }
  }

  class Mai2Light {
    var initialized: bool
    var nodeId: byte
    var baudRate: nat
    var globalBrightness: byte
    var fadeTimeMs: u16
    var enableFade: bool
    /** `led_status_`, `fade_start_colors_`, `fade_target_colors_`. */
    const leds: array<LedStatus>
    const fadeStart: array<RGB>
    const fadeTarget: array<RGB>
    var isFading: bool
    var fadeStartTime: nat
    /** `virtual_eeprom_`. */
    const eeprom: array<byte>
    /** `string_cmd_buffer_` and `string_cmd_pos_`. */
    const stringCmdBuffer: array<byte>
    var stringCmdPos: nat
    /** The lines handed to `parse_string_command`, in order. */
    var parsedLines: seq<seq<byte>>
    /** Everything written to the UART, one entry per write. */
    var sent: seq<seq<byte>>

    ghost predicate Valid()
      reads this
    {
      && leds.Length == NUM_LEDS && fadeStart.Length == NUM_LEDS && fadeTarget.Length == NUM_LEDS
      && fadeStart != fadeTarget
      && eeprom.Length == EEPROM_SIZE
      && stringCmdBuffer.Length == STRING_CMD_SIZE && stringCmdBuffer != eeprom
      && stringCmdPos < STRING_CMD_SIZE
    }

    function StringCmdText(): seq<byte>
      reads this, stringCmdBuffer
      requires Valid()
    {
      stringCmdBuffer[..stringCmdPos]
    }

    /** The constructor: every LED at its default, EEPROM zeroed, default configuration. */
    constructor (node: byte)
      ensures Valid() && !initialized && nodeId == node
      ensures fresh(leds) && fresh(fadeStart) && fresh(fadeTarget) && fresh(eeprom) && fresh(stringCmdBuffer)
      ensures forall i :: 0 <= i < NUM_LEDS ==> leds[i] == DEFAULT_LED_STATUS
      ensures forall a :: 0 <= a < EEPROM_SIZE ==> eeprom[a] == 0
      ensures enableFade && fadeTimeMs == 100 && globalBrightness == 255 && !isFading
      ensures StringCmdText() == [] && sent == [] && parsedLines == []
    {
      initialized := false;
      nodeId := node;
      baudRate, globalBrightness, fadeTimeMs, enableFade := DEFAULT_BAUD_RATE, 255, 100, true;
      leds := new LedStatus[NUM_LEDS](_ => DEFAULT_LED_STATUS);
      fadeStart := new RGB[NUM_LEDS](_ => BLACK);
      fadeTarget := new RGB[NUM_LEDS](_ => BLACK);
      isFading, fadeStartTime := false, 0;
      eeprom := new byte[EEPROM_SIZE](_ => 0);
      stringCmdBuffer := new byte[STRING_CMD_SIZE](_ => 0);
      stringCmdPos := 0;
      parsedLines, sent := [], [];
    }

    /** `set_led_color` at time `nowMs`: refused when not ready or the index
        is out of range; with fading on (and a positive fade time) it records
        the fade start and target, otherwise it writes the colour directly. */
    method SetLedColor(index: nat, color: RGB, nowMs: nat) returns (ok: bool)
      requires Valid()
      modifies leds, fadeStart, fadeTarget, this`isFading, this`fadeStartTime
      ensures ok <==> initialized && index < NUM_LEDS
      ensures !ok ==> unchanged(leds, fadeStart, fadeTarget) && unchanged(this`isFading, this`fadeStartTime)
      ensures ok && enableFade && fadeTimeMs > 0 ==>
        && leds[..] == old(leds[..])
        && fadeStart[..] == old(fadeStart[..])[index := old(leds[index].color)]
        && fadeTarget[..] == old(fadeTarget[..])[index := color]
        && isFading && fadeStartTime == (if old(isFading) then old(fadeStartTime) else nowMs)
      ensures ok && !(enableFade && fadeTimeMs > 0) ==>
        && leds[..] == old(leds[..])[index := old(leds[index]).(color := color)]
        && unchanged(fadeStart, fadeTarget) && unchanged(this`isFading, this`fadeStartTime)
    {
      if !initialized || index >= NUM_LEDS {
        return false;
      }
      if enableFade && fadeTimeMs > 0 {
        fadeStart[index] := leds[index].color;
        fadeTarget[index] := color;
        if !isFading {
          isFading := true;
          fadeStartTime := nowMs;
        }
      } else {
        leds[index] := leds[index].(color := color);
      }
      ok := true;
    }

    /** `set_led_brightness`. */
    method SetLedBrightness(index: nat, brightness: byte) returns (ok: bool)
      requires Valid()
      modifies leds
      ensures ok <==> initialized && index < NUM_LEDS
      ensures leds[..] == if ok then old(leds[..])[index := old(leds[index]).(brightness := brightness)] else old(leds[..])
    {
      if !initialized || index >= NUM_LEDS {
        return false;
      }
      leds[index] := leds[index].(brightness := brightness);
      ok := true;
    }

    /** `set_all_leds`: `set_led_color` on every LED. */
    method SetAllLeds(color: RGB, nowMs: nat) returns (ok: bool)
      requires Valid()
      modifies leds, fadeStart, fadeTarget, this`isFading, this`fadeStartTime
      ensures ok == initialized
      ensures !ok ==> unchanged(leds, fadeStart, fadeTarget) && unchanged(this`isFading, this`fadeStartTime)
      ensures ok && !(enableFade && fadeTimeMs > 0) ==>
        && (forall i :: 0 <= i < NUM_LEDS ==> leds[i] == old(leds[i]).(color := color))
        && unchanged(fadeStart, fadeTarget) && unchanged(this`isFading, this`fadeStartTime)
      ensures ok && enableFade && fadeTimeMs > 0 ==>
        && leds[..] == old(leds[..])
        && (forall i :: 0 <= i < NUM_LEDS ==> fadeTarget[i] == color && fadeStart[i] == old(leds[i].color))
        && isFading && fadeStartTime == (if old(isFading) then old(fadeStartTime) else nowMs)
    {
      if !initialized {
        return false;
      }
      var i := 0;
      while i < NUM_LEDS
        invariant 0 <= i <= NUM_LEDS
        invariant !(enableFade && fadeTimeMs > 0) ==>
          && (forall k :: 0 <= k < i ==> leds[k] == old(leds[k]).(color := color))
          && (forall k :: i <= k < NUM_LEDS ==> leds[k] == old(leds[k]))
          && unchanged(fadeStart, fadeTarget) && unchanged(this`isFading, this`fadeStartTime)
        invariant enableFade && fadeTimeMs > 0 ==>
          && leds[..] == old(leds[..])
          && (forall k :: 0 <= k < i ==> fadeTarget[k] == color && fadeStart[k] == old(leds[k].color))
          && (i == 0 ==> isFading == old(isFading) && fadeStartTime == old(fadeStartTime))
          && (i > 0 ==> isFading && fadeStartTime == (if old(isFading) then old(fadeStartTime) else nowMs))
      {
        var _ := SetLedColor(i, color, nowMs);
        i := i + 1;
      }
      ok := true;
    }

    /** `set_global_brightness`: stored and applied to every LED. */
    method SetGlobalBrightness(brightness: byte) returns (ok: bool)
      requires Valid()
      modifies leds, this`globalBrightness
      ensures ok == initialized
      ensures !ok ==> unchanged(leds) && globalBrightness == old(globalBrightness)
      ensures ok ==>
        (globalBrightness == brightness
         && forall i :: 0 <= i < NUM_LEDS ==> leds[i] == old(leds[i]).(brightness := brightness))
    {
      if !initialized {
        return false;
      }
      globalBrightness := brightness;
      var i := 0;
      while i < NUM_LEDS
        invariant 0 <= i <= NUM_LEDS && globalBrightness == brightness
        invariant forall k :: 0 <= k < i ==> leds[k] == old(leds[k]).(brightness := brightness)
        invariant forall k :: i <= k < NUM_LEDS ==> leds[k] == old(leds[k])
      {
        leds[i] := leds[i].(brightness := brightness);
        i := i + 1;
      }
      ok := true;
    }

    /** `get_led_status`: fails for an index out of range. */
    method GetLedStatus(index: nat) returns (r: Option<LedStatus>)
      requires Valid()
      ensures index < NUM_LEDS <==> r.Some?
      ensures r.Some? ==> r.value == leds[index]
    {
      if index >= NUM_LEDS {
        return None;
      }
      r := Some(leds[index]);
    }

    /** `clear_all_leds`: every LED black with brightness 0 (the enable flag kept). */
    method ClearAllLeds()
      requires Valid()
      modifies leds
      ensures forall i :: 0 <= i < NUM_LEDS ==> leds[i] == Cleared(old(leds[i]))
    {
      var i := 0;
      while i < NUM_LEDS
        invariant 0 <= i <= NUM_LEDS
        invariant forall k :: 0 <= k < i ==> leds[k] == Cleared(old(leds[k]))
        invariant forall k :: i <= k < NUM_LEDS ==> leds[k] == old(leds[k])
      {
        leds[i] := Cleared(leds[i]);
        i := i + 1;
      }
    }

    /** `reset_board`: LEDs cleared and the configuration back to its defaults. */
    method ResetBoard()
      requires Valid()
      modifies leds, this`nodeId, this`baudRate, this`globalBrightness, this`fadeTimeMs, this`enableFade
      ensures forall i :: 0 <= i < NUM_LEDS ==> leds[i] == Cleared(old(leds[i]))
      ensures nodeId == 0 && baudRate == DEFAULT_BAUD_RATE && globalBrightness == 255
      ensures fadeTimeMs == 100 && enableFade
    {
      ClearAllLeds();
      nodeId, baudRate, globalBrightness, fadeTimeMs, enableFade := 0, DEFAULT_BAUD_RATE, 255, 100, true;
    }

    /** `set_eeprom_data`: refused for a null pointer (None), a zero length or
        a range past the end; otherwise the bytes are copied in and nothing
        else changes. */
    method SetEepromData(address: u16, data: Option<seq<byte>>, length: byte) returns (ok: bool)
      requires Valid()
      requires data.Some? ==> length <= |data.value|
      modifies eeprom
      ensures ok <==> data.Some? && length > 0 && address + length <= EEPROM_SIZE
      ensures ok ==> eeprom[..] == old(eeprom[..address]) + data.value[..length] + old(eeprom[address + length..])
      ensures !ok ==> eeprom[..] == old(eeprom[..])
    {
      if data.None? || length == 0 {
        return false;
      }
      if address + length > EEPROM_SIZE {
        return false;
      }
      var i := 0;
      while i < length
        invariant 0 <= i <= length
        invariant eeprom[..address] == old(eeprom[..address])
        invariant eeprom[address..address + i] == data.value[..i]
        invariant eeprom[address + i..] == old(eeprom[address + i..])
      {
        eeprom[address + i] := data.value[i];
        assert eeprom[address..address + i + 1] == eeprom[address..address + i] + [eeprom[address + i]];
        i := i + 1;
      }
      assert eeprom[..] == eeprom[..address] + eeprom[address..address + length] + eeprom[address + length..];
      ok := true;
    }

    /** `get_eeprom_data`: the same checks; on success the bytes at the range. */
    method GetEepromData(address: u16, hasBuffer: bool, length: byte) returns (r: Option<seq<byte>>)
      requires Valid()
      ensures r.Some? <==> hasBuffer && length > 0 && address + length <= EEPROM_SIZE
      ensures r.Some? ==> r.value == eeprom[address..address + length]
    {
      if !hasBuffer || length == 0 {
        return None;
      }
      if address + length > EEPROM_SIZE {
        return None;
      }
      var out := [];
      var i := 0;
      while i < length
        invariant 0 <= i <= length
        invariant out == eeprom[address..address + i]
      {
        out := out + [eeprom[address + i]];
        i := i + 1;
      }
      r := Some(out);
    }

    /** `send_packet`: only when ready, the request is written as one frame. */
    method SendPacket(p: PacketReq) returns (ok: bool)
      requires Valid()
      requires |p.data| == PACKET_DATA_SIZE && p.length <= PACKET_DATA_SIZE
      modifies this`sent
      ensures ok == initialized
      ensures sent == if ok then old(sent) + [EncodeFrame(p)] else old(sent)
    {
      if !initialized {
        return false;
      }
      var buffer := [p.sync, p.nodeId, p.length, p.command];
      var i := 0;
      while i < p.length && |buffer| < MAX_PACKET_SIZE - 1
        invariant 0 <= i <= p.length
        invariant buffer == [p.sync, p.nodeId, p.length, p.command] + p.data[..i]
      {
        buffer := buffer + [p.data[i]];
        assert p.data[..i + 1] == p.data[..i] + [p.data[i]];
        i := i + 1;
      }
      var cs := CalculateChecksum(buffer, |buffer|);
      assert buffer[..|buffer|] == buffer;
      buffer := buffer + [cs as int];
      sent := sent + [buffer];
      ok := true;
    }

    /** The configuration fields a reset restores. */
    function CurrentSettings(): Settings
      reads this
    {
      (nodeId, baudRate, globalBrightness, fadeTimeMs, enableFade)
    }

    /** `parse_string_command` with its one side effect: "/reset" clears the
        LEDs and restores the default configuration. */
    method ParseStringCommand(line: seq<byte>)
      requires Valid()
      modifies leds, this`nodeId, this`baudRate, this`globalBrightness, this`fadeTimeMs, this`enableFade, this`parsedLines
      ensures parsedLines == old(parsedLines) + [line]
      ensures ClassifyStringCommand(line) == ResetCmd ==>
        && (forall i :: 0 <= i < NUM_LEDS ==> leds[i] == Cleared(old(leds[i])))
        && nodeId == 0 && baudRate == DEFAULT_BAUD_RATE && globalBrightness == 255
        && fadeTimeMs == 100 && enableFade
      ensures ClassifyStringCommand(line) != ResetCmd ==>
        unchanged(leds) && unchanged(this`nodeId, this`baudRate, this`globalBrightness, this`fadeTimeMs, this`enableFade)
      ensures (leds[..], CurrentSettings()) ==
        BoardAfter(ClassifyStringCommand(line) == ResetCmd, old(leds[..]), old(CurrentSettings()))
    {
      ghost var before := leds[..];
      var c := ClassifyStringCommand(line);
      parsedLines := parsedLines + [line];
      if c == ResetCmd {
        ResetBoard();
        assert leds[..] == ClearedAll(before);
      }
    }

    /** A line end in `process_string_commands`: a non-empty buffered line,
        cut at its first zero byte, goes to `parse_string_command`, and the
        buffer is emptied. */
    method EndStringLine()
      requires Valid()
      modifies this`stringCmdPos, leds, this`nodeId, this`baudRate,
               this`globalBrightness, this`fadeTimeMs, this`enableFade, this`parsedLines
      ensures Valid()
      ensures StringCmdText() == []
      ensures parsedLines == old(parsedLines) + LineEnded(old(StringCmdText()))
      ensures (leds[..], CurrentSettings()) ==
        BoardAfter(AnyReset(LineEnded(old(StringCmdText()))), old(leds[..]), old(CurrentSettings()))
    {
      if stringCmdPos > 0 {
        var line := CString(stringCmdBuffer[..stringCmdPos]);
        ParseStringCommand(line);
        stringCmdPos := 0;
        AnyResetOne(line);
      }
    }

    /** Any other byte in `process_string_commands`: kept while fewer than
        63 are buffered; otherwise the buffer is emptied and the byte lost. */
    method BufferStringByte(c: byte)
      requires Valid()
      modifies stringCmdBuffer, this`stringCmdPos
      ensures Valid()
      ensures StringCmdText() ==
        (if |old(StringCmdText())| < STRING_CMD_SIZE - 1 then old(StringCmdText()) + [c] else [])
    {
      if stringCmdPos < STRING_CMD_SIZE - 1 {
        stringCmdBuffer[stringCmdPos] := c;
        stringCmdPos := stringCmdPos + 1;
      } else {
        stringCmdPos := 0;
      }
    }

    /** `process_string_commands` for one byte, as `StringStep` says; a
        completed "/reset" line resets the board, which is otherwise unchanged. */
    method ProcessStringByte(c: byte)
      requires Valid()
      modifies stringCmdBuffer, this`stringCmdPos, leds, this`nodeId, this`baudRate,
               this`globalBrightness, this`fadeTimeMs, this`enableFade, this`parsedLines
      ensures Valid()
      ensures StringCmdText() == StringStep(old(StringCmdText()), c).0
      ensures parsedLines == old(parsedLines) + StringStep(old(StringCmdText()), c).1
      ensures (leds[..], CurrentSettings()) ==
        BoardAfter(AnyReset(StringStep(old(StringCmdText()), c).1), old(leds[..]), old(CurrentSettings()))
    {
      if c == 0x0A || c == 0x0D {
        EndStringLine();
      } else {
        BufferStringByte(c);
        assert !AnyReset([]);
      }
    }

    /** `process_string_commands`: every byte in turn, as `StringRun` says;
        the board is reset when some completed line is "/reset" and is
        otherwise unchanged. */
    method ProcessStringCommands(input: seq<byte>)
      requires Valid()
      modifies stringCmdBuffer, this`stringCmdPos, leds, this`nodeId, this`baudRate,
               this`globalBrightness, this`fadeTimeMs, this`enableFade, this`parsedLines
      ensures Valid()
      ensures StringCmdText() == StringRun(old(StringCmdText()), input).0
      ensures parsedLines == old(parsedLines) + StringRun(old(StringCmdText()), input).1
      ensures (leds[..], CurrentSettings()) ==
        BoardAfter(AnyReset(StringRun(old(StringCmdText()), input).1), old(leds[..]), old(CurrentSettings()))
    {
      ghost var text0, lines0, leds0, settings0 := StringCmdText(), parsedLines, leds[..], CurrentSettings();
      ghost var done: seq<seq<byte>> := [];
      var i := 0;
      while i < |input|
        invariant Valid() && 0 <= i <= |input|
        invariant StringRun(text0, input[..i]) == (StringCmdText(), done)
        invariant parsedLines == lines0 + done
        invariant leds[..] == BoardAfter(AnyReset(done), leds0, settings0).0
        invariant CurrentSettings() == BoardAfter(AnyReset(done), leds0, settings0).1
      {
        ghost var step := StringStep(StringCmdText(), input[i]);
        StringRunSnoc(text0, input, i, (StringCmdText(), done));
        ProcessStringByte(input[i]);
        BoardAfterLines(done, step.1, leds0, settings0);
        AppendAssoc(lines0, done, step.1);
        done := done + step.1;
        i := i + 1;
      }
      assert input[..|input|] == input;
    }
  }
}
