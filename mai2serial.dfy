/** The maimai serial touch protocol (`Mai2Serial`): the sliding stream buffer
    that splits received bytes into fixed-length `{...}` command frames and
    single bytes of text commands, the command-packet checks, the text-command
    line buffer, the baud-rate whitelist and the manual area trigger. */
module Mai2Serial {
  import opened Common

  const COMMAND_LENGTH: nat := 8
  const CMD_START_BYTE: byte := 0x7B   // '{'
  const CMD_END_BYTE: byte := 0x7D     // '}'
  const TOUCH_START_BYTE: byte := 0x28 // '('
  const TOUCH_END_BYTE: byte := 0x29   // ')'
  const CR: byte := 0x0D
  const LF: byte := 0x0A

  /** The command enumeration; each value is the ASCII code of its letter. */
  const CMD_RSET: byte := 0x45  // 'E'
  const CMD_HALT: byte := 0x4C  // 'L'
  const CMD_STAT: byte := 0x41  // 'A'
  const CMD_RATIO: byte := 0x72 // 'r'
  const CMD_SENS: byte := 0x6B  // 'k'

  /** The replies `reset`, `stop` and `start` send, each ended by CR LF. */
  const RESET_OK_LINE: seq<byte> := [0x52, 0x45, 0x53, 0x45, 0x54, 0x20, 0x4F, 0x4B, CR, LF] // "RESET OK"
  const STOPPED_LINE: seq<byte> := [0x53, 0x54, 0x4F, 0x50, 0x50, 0x45, 0x44, CR, LF]        // "STOPPED"
  const OK_LINE: seq<byte> := [0x4F, 0x4B, CR, LF]                                            // "OK"

  /** The help text `parse_command` sends for "/help": the module name, the
      meaning of the four payload fields and one line per command, lines
      separated by LF. */
  const HELP_TEXT: seq<byte> := [
    0x4D, 0x61, 0x69, 0x32, 0x53, 0x65, 0x72, 0x69, 0x61, 0x6C, 0x20, 0x4D, 0x6F, 0x64, 0x75, 0x6C,
    0x65, 0x20, 0x43, 0x6F, 0x6D, 0x6D, 0x61, 0x6E, 0x64, 0x73, 0x3A, 0x0A, 0x31, 0x3D, 0x4C, 0x2F,
    0x52, 0x0A, 0x32, 0x3D, 0x73, 0x65, 0x6E, 0x73, 0x6F, 0x72, 0x0A, 0x33, 0x3D, 0x63, 0x6D, 0x64,
    0x0A, 0x34, 0x3D, 0x76, 0x61, 0x6C, 0x75, 0x65, 0x0A, 0x7B, 0x20, 0x20, 0x45, 0x20, 0x7D, 0x20,
    0x2D, 0x20, 0x52, 0x65, 0x73, 0x65, 0x74, 0x0A, 0x7B, 0x20, 0x20, 0x4C, 0x20, 0x7D, 0x20, 0x2D,
    0x20, 0x48, 0x61, 0x6C, 0x74, 0x0A, 0x7B, 0x20, 0x20, 0x41, 0x20, 0x7D, 0x20, 0x2D, 0x20, 0x53,
    0x74, 0x61, 0x72, 0x74, 0x0A, 0x7B, 0x20, 0x20, 0x72, 0x20, 0x7D, 0x20, 0x2D, 0x20, 0x52, 0x61,
    0x74, 0x69, 0x6F, 0x0A, 0x7B, 0x20, 0x20, 0x6B, 0x20, 0x7D, 0x20, 0x2D, 0x20, 0x53, 0x65, 0x6E,
    0x73, 0x69, 0x74, 0x69, 0x76, 0x69, 0x74, 0x79, 0x0A, 0x2F, 0x68, 0x65, 0x6C, 0x70, 0x20, 0x2D,
    0x20, 0x53, 0x68, 0x6F, 0x77, 0x20, 0x74, 0x68, 0x69, 0x73, 0x20, 0x68, 0x65, 0x6C, 0x70
  ]

  const DEFAULT_BAUD: nat := 115200
  const VALID_BAUD_RATES: seq<nat> := [9600, 115200, 250000, 500000, 1000000, 1500000, 2000000]

  datatype Status = Stopped | Ready | Running

  /** One unit handed on by the stream parser: a complete command frame or a
      single byte of a text command. */
  datatype Token = Frame(packet: seq<byte>) | TextByte(b: byte)

  /** A command packet's four payload fields. */
  datatype PacketFields = PacketFields(lr: byte, sensor: byte, cmd: byte, value: byte)

  /** What `parse_command` does with one text line: whether it answers with
      the help text, and the command code and parameters it hands to the callback. */
  datatype ParsedCommand = ParsedCommand(help: bool, cmd: byte, params: seq<byte>)

  /** A call of the command callback: the command and its parameter bytes. */
  datatype CallbackCall = CallbackCall(cmd: byte, params: seq<byte>)

  /** The callback calls one notification makes: one when a callback is installed. */
  function Notified(hasCallback: bool, cmd: byte, params: seq<byte>): seq<CallbackCall>
  {
    if hasCallback then [CallbackCall(cmd, params)] else []
  }

  /** The bytes a token stands for. */
  function TokenBytes(t: Token): seq<byte>
  {
    match t
    case Frame(p) => p
    case TextByte(b) => [b]
  }

  function Flatten(ts: seq<Token>): seq<byte>
  {
    if ts == [] then [] else TokenBytes(ts[0]) + Flatten(ts[1..])
  }

  lemma FlattenAppend(a: seq<Token>, b: seq<Token>)
    ensures Flatten(a + b) == Flatten(a) + Flatten(b)
  {
    if a != [] {
      assert (a + b)[0] == a[0] && (a + b)[1..] == a[1..] + b;
      FlattenAppend(a[1..], b);
      calc {
        Flatten(a + b);
        TokenBytes(a[0]) + Flatten(a[1..] + b);
        TokenBytes(a[0]) + (Flatten(a[1..]) + Flatten(b));
        (TokenBytes(a[0]) + Flatten(a[1..])) + Flatten(b);
      }
    } else {
      assert a + b == b;
    }
  }

  /** A stream that starts with '{' holds a complete frame once eight bytes are
      there and '}' is among bytes 1..7. */
  predicate FrameComplete(s: seq<byte>)
    requires |s| > 0 && s[0] == CMD_START_BYTE
  {
    |s| >= COMMAND_LENGTH && CMD_END_BYTE in s[1..COMMAND_LENGTH]
  }

  /** The tokens the sliding-window parser consumes from `s`: frames of
      eight bytes and single text bytes, stopping at an incomplete frame. */
  function Tokenize(s: seq<byte>): seq<Token>
  {
    if s == [] then []
    else if s[0] == CMD_START_BYTE then
      if FrameComplete(s) then [Frame(s[..COMMAND_LENGTH])] + Tokenize(s[COMMAND_LENGTH..]) else []
    else [TextByte(s[0])] + Tokenize(s[1..])
  }

  /** What stays in the stream buffer after parsing `s`. */
  function Leftover(s: seq<byte>): seq<byte>
  {
    if s == [] then []
    else if s[0] == CMD_START_BYTE then
      if FrameComplete(s) then Leftover(s[COMMAND_LENGTH..]) else s
    else Leftover(s[1..])
  }

  /** Parsing loses nothing: the consumed tokens followed by the leftover are
      the stream, and the leftover is empty or an incomplete frame. */
  lemma TokenizeSplits(s: seq<byte>)
    ensures Flatten(Tokenize(s)) + Leftover(s) == s
    ensures Leftover(s) == [] || (Leftover(s)[0] == CMD_START_BYTE && !FrameComplete(Leftover(s)))
    ensures forall t :: t in Tokenize(s) && t.Frame? ==>
              |t.packet| == COMMAND_LENGTH && t.packet[0] == CMD_START_BYTE
  {
    TokensThenLeftover(s);
    LeftoverIncomplete(s);
    FramesShaped(s);
  }

  /** A complete frame at the front is flattened back to its eight bytes. */
  lemma FrameHead(s: seq<byte>)
    requires |s| > 0 && s[0] == CMD_START_BYTE && FrameComplete(s)
    ensures Flatten(Tokenize(s)) == s[..COMMAND_LENGTH] + Flatten(Tokenize(s[COMMAND_LENGTH..]))
    ensures Leftover(s) == Leftover(s[COMMAND_LENGTH..])
  {
    var head := [Frame(s[..COMMAND_LENGTH])];
    assert Tokenize(s) == head + Tokenize(s[COMMAND_LENGTH..]);
    FlattenAppend(head, Tokenize(s[COMMAND_LENGTH..]));
    assert Flatten(head) == s[..COMMAND_LENGTH];
  }

  /** A text byte at the front is flattened back to itself. */
  lemma TextHead(s: seq<byte>)
    requires |s| > 0 && s[0] != CMD_START_BYTE
    ensures Flatten(Tokenize(s)) == [s[0]] + Flatten(Tokenize(s[1..]))
    ensures Leftover(s) == Leftover(s[1..])
  {
    FlattenAppend([TextByte(s[0])], Tokenize(s[1..]));
  }

  lemma {:induction false} TokensThenLeftover(s: seq<byte>)
    ensures Flatten(Tokenize(s)) + Leftover(s) == s
  {
    if s == [] {
    } else {
      var n := if s[0] == CMD_START_BYTE then COMMAND_LENGTH else 1;
      if s[0] == CMD_START_BYTE && !FrameComplete(s) {
        return;
      }
      var rest := s[n..];
      TokensThenLeftover(rest);
      if s[0] == CMD_START_BYTE {
        FrameHead(s);
      } else {
        TextHead(s);
        assert [s[0]] == s[..1];
      }
      AppendAssoc(s[..n], Flatten(Tokenize(rest)), Leftover(rest));
      assert s == s[..n] + rest;
    }
  }

  lemma {:induction false} LeftoverIncomplete(s: seq<byte>)
    ensures Leftover(s) == [] || (Leftover(s)[0] == CMD_START_BYTE && !FrameComplete(Leftover(s)))
  {
    if s == [] {
    } else if s[0] == CMD_START_BYTE {
      if FrameComplete(s) {
        LeftoverIncomplete(s[COMMAND_LENGTH..]);
      }
    } else {
      LeftoverIncomplete(s[1..]);
    }
  }

  lemma {:induction false} FramesShaped(s: seq<byte>)
    ensures forall t :: t in Tokenize(s) && t.Frame? ==>
              |t.packet| == COMMAND_LENGTH && t.packet[0] == CMD_START_BYTE
  {
    if s == [] {
    } else if s[0] == CMD_START_BYTE {
      if FrameComplete(s) {
        FramesShaped(s[COMMAND_LENGTH..]);
      }
    } else {
      FramesShaped(s[1..]);
    }
  }

  /** Tokenize and Leftover advanced by one consumed token. */
  lemma TokenizeStep(s: seq<byte>, t: Token, rest: seq<byte>)
    requires s == TokenBytes(t) + rest
    requires t.Frame? ==> |t.packet| == COMMAND_LENGTH && t.packet[0] == CMD_START_BYTE && FrameComplete(s)
    requires t.TextByte? ==> t.b != CMD_START_BYTE
    ensures Tokenize(s) == [t] + Tokenize(rest)
    ensures Leftover(s) == Leftover(rest)
  {
    if t.Frame? {
      assert s[..COMMAND_LENGTH] == t.packet && s[COMMAND_LENGTH..] == rest;
    } else {
      assert s[0] == t.b && s[1..] == rest;
    }
  }

  /** Appending to the stream buffer of capacity `cap` one byte at a time,
      dropping the oldest byte whenever the buffer is full. */
  function AppendDropOldest(s: seq<byte>, data: seq<byte>, cap: nat): seq<byte>
    requires cap > 0
    decreases |data|
  {
    if data == [] then s
    else
      var s' := if |s| >= cap then s[1..] else s;
      AppendDropOldest(s' + [data[0]], data[1..], cap)
  }

  /** The buffer ends up holding the newest `cap` bytes of old contents plus data. */
  lemma {:induction false} AppendDropOldestKeepsNewest(s: seq<byte>, data: seq<byte>, cap: nat)
    requires 0 < cap && |s| <= cap
    ensures var all := s + data;
            AppendDropOldest(s, data, cap) == all[Max(0, |all| - cap)..]
    decreases |data|
  {
    if data != [] {
      var s' := if |s| >= cap then s[1..] else s;
      AppendDropOldestKeepsNewest(s' + [data[0]], data[1..], cap);
      var all := s + data;
      var all' := s' + [data[0]] + data[1..];
      assert s + data == s + [data[0]] + data[1..];
      if |s| >= cap {
        assert all' == all[1..];
        assert all'[Max(0, |all'| - cap)..] == all[Max(0, |all| - cap)..];
      } else {
        assert all' == all;
      }
    }
  }

  /** The checks of `process_command_packet`: at least five bytes, '{' first
      and '}' somewhere after it; then bytes 1..4 are L/R, sensor, command, value. */
  function DecodePacket(packet: seq<byte>): (r: Option<PacketFields>)
    ensures r.Some? <==> |packet| >= 5 && packet[0] == CMD_START_BYTE && CMD_END_BYTE in packet[1..]
    ensures r.Some? ==> r.value == PacketFields(packet[1], packet[2], packet[3], packet[4])
  {
    if |packet| < 5 || packet[0] != CMD_START_BYTE || CMD_END_BYTE !in packet[1..] then None
    else Some(PacketFields(packet[1], packet[2], packet[3], packet[4]))
  }

  /** The search loop of `process_command_packet` (and the one of
      `process_dma_received_data`): is '}' among `packet[from..to]`? */
  method HasEndByte(packet: seq<byte>, from: nat, to: nat) returns (found: bool)
    requires from <= to <= |packet|
    ensures found <==> CMD_END_BYTE in packet[from..to]
  {
    found := false;
    var i := from;
    while i < to
      invariant from <= i <= to
      invariant CMD_END_BYTE !in packet[from..i]
    {
      if packet[i] == CMD_END_BYTE {
        found := true;
        return;
      }
      assert packet[from..i + 1] == packet[from..i] + [packet[i]];
      i := i + 1;
    }
  }

  /** `parse_command`: a '/' line whose parameter is "help" is answered with
      the help text; the callback receives the command letter mapped to the
      command enumeration (STAT for any other letter) and the rest of the line. */
  function ParseCommand(line: seq<byte>): (r: Option<ParsedCommand>)
    ensures line == [] <==> r.None?
    ensures r.Some? ==> r.value.params == line[1..]
    ensures r.Some? ==> (r.value.help <==> line == [0x2F, 0x68, 0x65, 0x6C, 0x70])
    ensures r.Some? ==> r.value.cmd == (if line[0] in {CMD_RSET, CMD_HALT, CMD_RATIO, CMD_SENS} then line[0] else CMD_STAT)
  {
    if line == [] then None
    else
      var c := line[0];
      var param := line[1..];
      var cmd := if c == 0x45 then CMD_RSET
                 else if c == 0x4C then CMD_HALT
                 else if c == 0x41 then CMD_STAT
                 else if c == 0x72 then CMD_RATIO
                 else if c == 0x6B then CMD_SENS
                 else CMD_STAT;
      Some(ParsedCommand(c == 0x2F && param == [0x68, 0x65, 0x6C, 0x70], cmd, param))
  }

  /** What a completed line hands on: the command `parse_command` reads
      from its text up to the first zero byte, or nothing when that text is
      empty. */
  function LineCommand(line: seq<byte>): (r: seq<ParsedCommand>)
    ensures |r| <= 1
    ensures r == [] <==> CString(line) == []
    ensures r != [] ==> r[0].params == CString(line)[1..]
  {
    match ParseCommand(CString(line))
    case None => []
    case Some(c) => [c]
  }

  /** A line whose text is cut at its first byte, such as a zero byte
      followed by LF, reaches `parse_command` empty and does nothing. */
  lemma LeadingNulIgnored(line: seq<byte>)
    requires line != [] && line[0] == 0
    ensures LineCommand(line) == []
  {
  }

  /** A line without a zero byte is parsed whole. */
  lemma WholeLineParsed(line: seq<byte>)
    requires line != [] && 0 !in line
    ensures LineCommand(line) == [ParseCommand(line).value]
  {
    CStringWhole(line);
  }

  /** What the stream parser's handlers change: the status, the baud rate,
      whether touch data is on (`serial_ok_`), the UART writes, the callback
      calls, the parsed text lines and the text-command line buffer. */
  datatype Session = Session(status: Status, baudRate: nat, serialOk: bool, sent: seq<seq<byte>>,
                             callbacks: seq<CallbackCall>, parsed: seq<ParsedCommand>, line: seq<byte>)

  /** `process_command_packet` on a session of a port that is (or is not)
      initialised and has (or has not) a callback installed. */
  function AfterPacket(initialized: bool, hasCallback: bool, st: Session, packet: seq<byte>): Session
  {
    match DecodePacket(packet)
    case None => st
    case Some(f) =>
      var ready := st.status != Stopped;
      if f.cmd == CMD_RSET then
        st.(serialOk := false,
            baudRate := if initialized then DEFAULT_BAUD else st.baudRate,
            status := if initialized then Ready else st.status,
            sent := st.sent + (if initialized then [RESET_OK_LINE] else []),
            callbacks := st.callbacks + Notified(hasCallback, CMD_RSET, []))
      else if f.cmd == CMD_HALT then
        st.(serialOk := false,
            status := if initialized then Ready else st.status,
            sent := st.sent + (if initialized then [STOPPED_LINE] else []),
            callbacks := st.callbacks + Notified(hasCallback, CMD_HALT, []))
      else if f.cmd == CMD_STAT then
        st.(serialOk := true,
            status := if ready then Running else st.status,
            sent := st.sent + (if ready then [OK_LINE] else []),
            callbacks := st.callbacks + Notified(hasCallback, CMD_STAT, []))
      else if f.cmd == CMD_RATIO then
        st.(sent := st.sent + (if ready then [[TOUCH_START_BYTE, f.lr, f.sensor, 0x72, f.value, TOUCH_END_BYTE]] else []),
            callbacks := st.callbacks + Notified(hasCallback, CMD_RATIO, [f.sensor, f.value]))
      else if f.cmd == CMD_SENS then
        st.(sent := st.sent + (if ready then [[TOUCH_START_BYTE, 0x52, f.sensor, 0x6B, f.value, TOUCH_END_BYTE]] else []),
            callbacks := st.callbacks + Notified(hasCallback, CMD_SENS, [f.sensor, f.value]))
      else st
  }

  /** `parse_command` on a session: the help text goes out (with CR LF) when
      the line asks for it and the port is ready, then the callback is called. */
  function AfterLine(hasCallback: bool, st: Session, c: ParsedCommand): Session
  {
    st.(sent := st.sent + (if c.help && st.status != Stopped then [HELP_TEXT + [CR, LF]] else []),
        callbacks := st.callbacks + Notified(hasCallback, c.cmd, c.params),
        parsed := st.parsed + [c])
  }

  /** `process_received_byte` on a session. */
  function AfterTextByte(hasCallback: bool, st: Session, b: byte): Session
  {
    if b == CR || b == LF then
      match ParseCommand(CString(st.line))
      case None => st.(line := [])
      case Some(c) => AfterLine(hasCallback, st, c).(line := [])
    else st.(line := if |st.line| < COMMAND_LENGTH - 1 then st.line + [b] else [])
  }

  /** A token handed on by the stream parser: frames go to
      `process_command_packet`, text bytes to `process_received_byte`. */
  function AfterToken(initialized: bool, hasCallback: bool, st: Session, t: Token): Session
  {
    match t
    case Frame(p) => AfterPacket(initialized, hasCallback, st, p)
    case TextByte(b) => AfterTextByte(hasCallback, st, b)
  }

  /** The tokens handed on one after the other. */
  function AfterTokens(initialized: bool, hasCallback: bool, st: Session, ts: seq<Token>): Session
    decreases |ts|
  {
    if ts == [] then st
    else AfterToken(initialized, hasCallback, AfterTokens(initialized, hasCallback, st, ts[..|ts| - 1]), ts[|ts| - 1])
  }

  /** Handing on one more token. */
  lemma AfterTokensSnoc(initialized: bool, hasCallback: bool, st: Session, ts: seq<Token>, t: Token)
    ensures AfterTokens(initialized, hasCallback, st, ts + [t])
         == AfterToken(initialized, hasCallback, AfterTokens(initialized, hasCallback, st, ts), t)
  {
    assert (ts + [t])[..|ts + [t]| - 1] == ts;
  }

  /** Handing on two runs of tokens is handing on the first, then the second. */
  lemma {:induction false} AfterTokensAppend(initialized: bool, hasCallback: bool, st: Session, a: seq<Token>, b: seq<Token>)
    ensures AfterTokens(initialized, hasCallback, st, a + b)
         == AfterTokens(initialized, hasCallback, AfterTokens(initialized, hasCallback, st, a), b)
    decreases |b|
  {
    if b == [] {
      assert a + b == a;
    } else {
      assert (a + b)[..|a + b| - 1] == a + b[..|b| - 1];
      AfterTokensAppend(initialized, hasCallback, st, a, b[..|b| - 1]);
    }
  }

  /** A text byte other than CR or LF. */
  predicate PlainText(t: Token)
  {
    t.TextByte? && t.b != CR && t.b != LF
  }

  /** One token's share of `ChannelsIndependent`. */
  lemma TokenChannels(initialized: bool, hasCallback: bool, st: Session, t: Token)
    ensures var r := AfterToken(initialized, hasCallback, st, t);
            t.TextByte? ==> r.status == st.status && r.baudRate == st.baudRate && r.serialOk == st.serialOk
    ensures var r := AfterToken(initialized, hasCallback, st, t);
            PlainText(t) ==> r.sent == st.sent && r.callbacks == st.callbacks && r.parsed == st.parsed
    ensures var r := AfterToken(initialized, hasCallback, st, t);
            t.Frame? ==> r.parsed == st.parsed && r.line == st.line
  {
  }

  /** Text bytes never touch the status, baud rate or touch-data flag, and
      only a line end (CR or LF) writes to the UART or calls the callback;
      frames never touch the parsed lines or the line buffer. */
  lemma {:induction false} ChannelsIndependent(initialized: bool, hasCallback: bool, st: Session, ts: seq<Token>)
    ensures var r := AfterTokens(initialized, hasCallback, st, ts);
            (forall t :: t in ts ==> t.TextByte?) ==>
              r.status == st.status && r.baudRate == st.baudRate && r.serialOk == st.serialOk
    ensures var r := AfterTokens(initialized, hasCallback, st, ts);
            (forall t :: t in ts ==> PlainText(t)) ==>
              r.sent == st.sent && r.callbacks == st.callbacks && r.parsed == st.parsed
    ensures var r := AfterTokens(initialized, hasCallback, st, ts);
            (forall t :: t in ts ==> t.Frame?) ==> r.parsed == st.parsed && r.line == st.line
    decreases |ts|
  {
    if ts != [] {
      var init := ts[..|ts| - 1];
      assert forall t :: t in init ==> t in ts;
      assert ts[|ts| - 1] in ts;
      ChannelsIndependent(initialized, hasCallback, st, init);
      TokenChannels(initialized, hasCallback, AfterTokens(initialized, hasCallback, st, init), ts[|ts| - 1]);
    }
  }

  /** The text bytes of a byte string. */
  function TextTokens(bs: seq<byte>): (ts: seq<Token>)
    ensures |ts| == |bs| && forall i :: 0 <= i < |bs| ==> ts[i] == TextByte(bs[i])
  {
    seq(|bs|, i requires 0 <= i < |bs| => TextByte(bs[i]))
  }

  /** Text bytes without a line end that fit the line buffer are only buffered. */
  lemma {:induction false} TextBuffered(initialized: bool, hasCallback: bool, st: Session, bs: seq<byte>)
    requires CR !in bs && LF !in bs && |st.line| + |bs| < COMMAND_LENGTH
    ensures AfterTokens(initialized, hasCallback, st, TextTokens(bs)) == st.(line := st.line + bs)
    decreases |bs|
  {
    if bs == [] {
      assert st.line + bs == st.line;
    } else {
      var init := bs[..|bs| - 1];
      assert TextTokens(bs) == TextTokens(init) + [TextByte(bs[|bs| - 1])];
      assert bs[|bs| - 1] in bs;
      TextBuffered(initialized, hasCallback, st, init);
      AfterTokensSnoc(initialized, hasCallback, st, TextTokens(init), TextByte(bs[|bs| - 1]));
      assert st.line + init + [bs[|bs| - 1]] == st.line + bs;
    }
  }

  /** A line end after a line `parse_command` reads as `c` hands `c` on and
      empties the line buffer. */
  lemma LineEnd(hasCallback: bool, st: Session, c: ParsedCommand)
    requires ParseCommand(CString(st.line)) == Some(c)
    ensures AfterTextByte(hasCallback, st, CR) == AfterLine(hasCallback, st, c).(line := [])
  {
  }

  /** A line typed into an empty line buffer and ended by CR reaches
      `parse_command` whole: the help text goes out when it is "/help" and the
      port is ready, the callback is called with its command and parameter,
      and the line buffer is empty again. */
  lemma LineAnswered(initialized: bool, hasCallback: bool, st: Session, line: seq<byte>)
    requires st.line == [] && 0 < |line| < COMMAND_LENGTH
    requires CR !in line && LF !in line && 0 !in line
    ensures var r := AfterTokens(initialized, hasCallback, st, TextTokens(line + [CR]));
            var c := ParseCommand(line).value;
            && r.sent == st.sent + (if line == [0x2F, 0x68, 0x65, 0x6C, 0x70] && st.status != Stopped then [HELP_TEXT + [CR, LF]] else [])
            && r.callbacks == st.callbacks + Notified(hasCallback, c.cmd, line[1..])
            && r.parsed == st.parsed + [c]
            && r.line == [] && r.status == st.status
  {
    var c := ParseCommand(line).value;
    var ts := TextTokens(line);
    assert TextTokens(line + [CR]) == ts + [TextByte(CR)];
    TextBuffered(initialized, hasCallback, st, line);
    var st1 := AfterTokens(initialized, hasCallback, st, ts);
    assert st1 == st.(line := line);
    AfterTokensSnoc(initialized, hasCallback, st, ts, TextByte(CR));
    CStringWhole(line);
    LineEnd(hasCallback, st1, c);
  }

  class Mai2Serial {
    var initialized: bool
    var serialOk: bool
    var status: Status
    var baudRate: nat
    /** The text-command line buffer (`command_buffer_`, eight chars) and its fill. */
    const commandBuffer: array<byte>
    var commandBufferPos: nat
    /** The stream buffer (`rx_stream_buffer_`) and its fill (`rx_stream_pos_`). */
    const streamBuffer: array<byte>
    var streamPos: nat
    /** The manually triggered touch bits (`triggle_touch_data_`). */
    var trigState1: bv32
    var trigState2: bv8
    /** Whether a command callback is installed, and the calls made to it. */
    var hasCallback: bool
    var callbacks: seq<CallbackCall>
    /** Every text reply and command response written to the UART, one entry
        per write; the touch frames of `SendTouchData` are not logged here. */
    var sent: seq<seq<byte>>
    /** The text lines handed to `parse_command`, as parsed. */
    var parsed: seq<ParsedCommand>
    /** The tokens the stream parser has handed on so far. */
    ghost var tokens: seq<Token>

    ghost predicate Valid()
      reads this
    {
      && commandBuffer.Length == COMMAND_LENGTH
      && commandBufferPos < COMMAND_LENGTH
      && streamBuffer.Length > 0
      && streamBuffer != commandBuffer
      && streamPos <= streamBuffer.Length
    }

    function Stream(): seq<byte>
      reads this, streamBuffer
      requires Valid()
    {
      streamBuffer[..streamPos]
    }

    function CommandText(): seq<byte>
      reads this, commandBuffer
      requires Valid()
    {
      commandBuffer[..commandBufferPos]
    }

    predicate IsReady()
      reads this
    {
      status != Stopped
    }

    /** The port's session: what the stream parser's handlers change. */
    function SessionOf(): Session
      reads this, commandBuffer
      requires Valid()
    {
      Session(status, baudRate, serialOk, sent, callbacks, parsed, CommandText())
    }

    /** The constructor; `streamSize` is `MAI2SERIAL_STREAM_BUFFER_SIZE`. */
    constructor (streamSize: nat)
      requires streamSize > 0
      ensures Valid() && fresh(commandBuffer) && fresh(streamBuffer)
      ensures streamBuffer.Length == streamSize
      ensures !initialized && !serialOk && status == Stopped && baudRate == DEFAULT_BAUD
      ensures Stream() == [] && CommandText() == [] && trigState1 == 0 && trigState2 == 0
      ensures !hasCallback && callbacks == [] && sent == [] && parsed == [] && tokens == []
    {
      initialized, serialOk, status, baudRate := false, false, Stopped, DEFAULT_BAUD;
      commandBuffer := new byte[COMMAND_LENGTH](_ => 0);
      streamBuffer := new byte[streamSize](_ => 0);
      commandBufferPos, streamPos := 0, 0;
      trigState1, trigState2 := 0, 0;
      hasCallback, callbacks, sent, parsed, tokens := false, [], [], [], [];
    }

    /** `init`: refused when already initialised; otherwise READY. */
    method Init() returns (ok: bool)
      requires Valid()
      modifies this
      ensures Valid() && ok == !old(initialized) && initialized
      ensures ok ==> status == Ready
      ensures !ok ==> status == old(status)
      ensures Stream() == old(Stream()) && CommandText() == old(CommandText())
      ensures unchanged(this`serialOk, this`baudRate, this`sent, this`callbacks, this`parsed)
    {
      if initialized {
        return false;
      }
      initialized := true;
      status := Ready;
      ok := true;
    }

    /** `send_response`: the text and CR LF go out only when ready. */
    method SendResponse(text: seq<byte>) returns (ok: bool)
      requires Valid()
      modifies this`sent
      ensures ok == IsReady()
      ensures sent == if ok then old(sent) + [text + [CR, LF]] else old(sent)
    {
      if !IsReady() {
        return false;
      }
      sent := sent + [text + [CR, LF]];
      ok := true;
    }

    /** `start`: only when ready; status RUNNING and "OK" is sent. */
    method Start() returns (ok: bool)
      requires Valid()
      modifies this`status, this`sent
      ensures ok == old(IsReady())
      ensures status == if ok then Running else old(status)
      ensures sent == if ok then old(sent) + [OK_LINE] else old(sent)
    {
      if !IsReady() {
        return false;
      }
      status := Running;
      var _ := SendResponse([0x4F, 0x4B]);
      assert [0x4F, 0x4B] + [CR, LF] == [0x4F, 0x4B, CR, LF];
      ok := true;
    }

    /** `stop`: only when initialised; status READY and "STOPPED" is sent. */
    method Stop() returns (ok: bool)
      requires Valid()
      modifies this`status, this`sent
      ensures ok == initialized
      ensures status == if ok then Ready else old(status)
      ensures sent == if ok then old(sent) + [STOPPED_LINE] else old(sent)
    {
      if !initialized {
        return false;
      }
      status := Ready;
      var _ := SendResponse([0x53, 0x54, 0x4F, 0x50, 0x50, 0x45, 0x44]);
      assert [0x53, 0x54, 0x4F, 0x50, 0x50, 0x45, 0x44] + [CR, LF] == [0x53, 0x54, 0x4F, 0x50, 0x50, 0x45, 0x44, CR, LF];
      ok := true;
    }

    /** `reset`: only when initialised; the configuration returns to its
        defaults, status READY and "RESET OK" is sent. */
    method Reset() returns (ok: bool)
      requires Valid()
      modifies this`status, this`sent, this`baudRate
      ensures ok == initialized
      ensures status == if ok then Ready else old(status)
      ensures baudRate == if ok then DEFAULT_BAUD else old(baudRate)
      ensures sent == if ok then old(sent) + [RESET_OK_LINE] else old(sent)
    {
      if !initialized {
        return false;
      }
      baudRate := DEFAULT_BAUD;
      status := Ready;
      var _ := SendResponse([0x52, 0x45, 0x53, 0x45, 0x54, 0x20, 0x4F, 0x4B]);
      assert [0x52, 0x45, 0x53, 0x45, 0x54, 0x20, 0x4F, 0x4B] + [CR, LF] == [0x52, 0x45, 0x53, 0x45, 0x54, 0x20, 0x4F, 0x4B, CR, LF];
      ok := true;
    }

    /** `set_baud_rate`: only the seven listed rates are accepted, and only
        once initialised; otherwise the configuration is unchanged. */
    method SetBaudRate(rate: nat) returns (ok: bool)
      requires Valid()
      modifies this`baudRate
      ensures ok <==> initialized && rate in VALID_BAUD_RATES
      ensures baudRate == if ok then rate else old(baudRate)
    {
      if !initialized {
        return false;
      }
      var valid := false;
      var i := 0;
      while i < |VALID_BAUD_RATES|
        invariant 0 <= i <= |VALID_BAUD_RATES|
        invariant valid <==> rate in VALID_BAUD_RATES[..i]
      {
        if VALID_BAUD_RATES[i] == rate {
          valid := true;
          break;
        }
        i := i + 1;
      }
      if !valid {
        return false;
      }
      baudRate := rate;
      ok := true;
    }

    /** `send_command_response`: '(' lr sensor cmd value ')' when ready. */
    method SendCommandResponse(lr: byte, sensor: byte, cmd: byte, value: byte)
      requires Valid()
      modifies this`sent
      ensures sent == if IsReady() then old(sent) + [[TOUCH_START_BYTE, lr, sensor, cmd, value, TOUCH_END_BYTE]] else old(sent)
    {
      if !IsReady() {
        return;
      }
      sent := sent + [[TOUCH_START_BYTE, lr, sensor, cmd, value, TOUCH_END_BYTE]];
    }

    method NotifyCallback(cmd: byte, params: seq<byte>)
      modifies this`callbacks
      ensures callbacks == old(callbacks) + Notified(hasCallback, cmd, params)
    {
      if hasCallback {
        callbacks := callbacks + [CallbackCall(cmd, params)];
      }
    }

    /** `process_command_packet`: a packet failing the checks is ignored;
        E resets and stops sending touch data, L halts and stops sending,
        A starts and resumes sending, r and k are echoed back. */
    method ProcessCommandPacket(packet: seq<byte>)
      requires Valid()
      modifies this`status, this`sent, this`baudRate, this`serialOk, this`callbacks
      ensures Valid()
      ensures DecodePacket(packet).None? ==>
        unchanged(this`status, this`sent, this`baudRate, this`serialOk, this`callbacks)
      ensures DecodePacket(packet).Some? ==>
        var f := DecodePacket(packet).value;
        && (f.cmd == CMD_RSET ==>
              && !serialOk && baudRate == (if initialized then DEFAULT_BAUD else old(baudRate))
              && status == (if initialized then Ready else old(status))
              && sent == old(sent) + (if initialized then [RESET_OK_LINE] else [])
              && callbacks == old(callbacks) + Notified(hasCallback, CMD_RSET, []))
        && (f.cmd == CMD_HALT ==>
              && !serialOk && baudRate == old(baudRate)
              && status == (if initialized then Ready else old(status))
              && sent == old(sent) + (if initialized then [STOPPED_LINE] else [])
              && callbacks == old(callbacks) + Notified(hasCallback, CMD_HALT, []))
        && (f.cmd == CMD_STAT ==>
              && serialOk && baudRate == old(baudRate)
              && status == (if old(IsReady()) then Running else old(status))
              && sent == old(sent) + (if old(IsReady()) then [OK_LINE] else [])
              && callbacks == old(callbacks) + Notified(hasCallback, CMD_STAT, []))
        && (f.cmd == CMD_RATIO ==>
              && unchanged(this`status, this`baudRate, this`serialOk)
              && sent == old(sent) + (if IsReady() then [[TOUCH_START_BYTE, f.lr, f.sensor, 0x72, f.value, TOUCH_END_BYTE]] else [])
              && callbacks == old(callbacks) + Notified(hasCallback, CMD_RATIO, [f.sensor, f.value]))
        && (f.cmd == CMD_SENS ==>
              && unchanged(this`status, this`baudRate, this`serialOk)
              && sent == old(sent) + (if IsReady() then [[TOUCH_START_BYTE, 0x52, f.sensor, 0x6B, f.value, TOUCH_END_BYTE]] else [])
              && callbacks == old(callbacks) + Notified(hasCallback, CMD_SENS, [f.sensor, f.value]))
        && (f.cmd !in {CMD_RSET, CMD_HALT, CMD_STAT, CMD_RATIO, CMD_SENS} ==>
              unchanged(this`status, this`sent, this`baudRate, this`serialOk, this`callbacks))
    {
      if |packet| < 5 || packet[0] != CMD_START_BYTE {
        return;
      }
      var foundEnd := HasEndByte(packet, 1, |packet|);
      if !foundEnd {
        return;
      }
      var lr, sensor, cmd, value := packet[1], packet[2], packet[3], packet[4];
      if cmd == CMD_RSET {
        var _ := Reset();
        serialOk := false;
        NotifyCallback(CMD_RSET, []);
      } else if cmd == CMD_HALT {
        var _ := Stop();
        serialOk := false;
        NotifyCallback(CMD_HALT, []);
      } else if cmd == CMD_RATIO {
        SendCommandResponse(lr, sensor, 0x72, value);
        NotifyCallback(CMD_RATIO, [sensor, value]);
      } else if cmd == CMD_SENS {
        SendCommandResponse(0x52, sensor, 0x6B, value);
        NotifyCallback(CMD_SENS, [sensor, value]);
      } else if cmd == CMD_STAT {
        var _ := Start();
        serialOk := true;
        NotifyCallback(CMD_STAT, []);
      }
    }

    /** `parse_command` for a non-empty line: the help text when asked for,
        then the callback; the line is recorded as parsed. */
    method ParseLine(c: ParsedCommand)
      requires Valid()
      modifies this`parsed, this`sent, this`callbacks
      ensures Valid()
      ensures SessionOf() == AfterLine(hasCallback, old(SessionOf()), c)
    {
      if c.help {
        var _ := SendResponse(HELP_TEXT);
      }
      NotifyCallback(c.cmd, c.params);
      parsed := parsed + [c];
    }

    /** `process_received_byte`: CR or LF ends a non-empty line, which is
        handed to `parse_command` up to its first zero byte (as
        `std::string(char*)` reads it), and empties the line buffer; a line
        whose text is empty there is ignored. Any other byte is appended
        while there is room for it and the terminator, and otherwise the
        buffer is reset to empty (the byte is lost). */
    method ProcessReceivedByte(b: byte)
      requires Valid()
      modifies this`commandBufferPos, commandBuffer, this`parsed, this`sent, this`callbacks
      ensures Valid()
      ensures b == CR || b == LF ==>
        && CommandText() == []
        && parsed == old(parsed) + LineCommand(old(CommandText()))
      ensures b != CR && b != LF ==>
        && parsed == old(parsed) && sent == old(sent) && callbacks == old(callbacks)
        && CommandText() == (if old(commandBufferPos) < COMMAND_LENGTH - 1 then old(CommandText()) + [b] else [])
      ensures SessionOf() == AfterTextByte(hasCallback, old(SessionOf()), b)
    {
      if b == CR || b == LF {
        if commandBufferPos > 0 {
          var line := commandBuffer[..commandBufferPos];
          var cmd := ParseCommand(CString(line));
          if cmd.Some? {
            ParseLine(cmd.value);
          }
          commandBufferPos := 0;
        }
      } else if commandBufferPos < COMMAND_LENGTH - 1 {
        commandBuffer[commandBufferPos] := b;
        commandBufferPos := commandBufferPos + 1;
      } else {
        commandBufferPos := 0;
      }
    }

    /** `memmove(buf, buf + n, streamPos - n)` followed by `streamPos -= n`. */
    method DropFront(n: nat)
      requires Valid() && n <= streamPos
      modifies streamBuffer, this`streamPos
      ensures Valid() && Stream() == old(Stream())[n..]
    {
      var i := 0;
      while i < streamPos - n
        invariant Valid() && streamPos == old(streamPos)
        invariant 0 <= i <= streamPos - n
        invariant forall k :: 0 <= k < i ==> streamBuffer[k] == old(streamBuffer[n + k])
        invariant forall k :: n + i <= k < streamBuffer.Length ==> streamBuffer[k] == old(streamBuffer[k])
      {
        streamBuffer[i] := streamBuffer[n + i];
        i := i + 1;
      }
      streamPos := streamPos - n;
      assert Stream() == old(Stream())[n..];
    }

    /** The first loop of `process_dma_received_data`: each byte is appended
        to the stream buffer, the oldest byte making room whenever it is full. */
    method AppendToStream(src: seq<byte>)
      requires Valid()
      modifies streamBuffer, this`streamPos
      ensures Valid()
      ensures Stream() == AppendDropOldest(old(Stream()), src, streamBuffer.Length)
    {
      var i := 0;
      while i < |src|
        invariant Valid() && i <= |src|
        invariant AppendDropOldest(old(Stream()), src, streamBuffer.Length)
               == AppendDropOldest(Stream(), src[i..], streamBuffer.Length)
      {
        assert src[i..][0] == src[i] && src[i..][1..] == src[i + 1..];
        PushByte(src[i]);
        i := i + 1;
      }
      assert src[i..] == [];
    }

    /** One byte of that loop: the oldest byte is dropped when the buffer is
        full, and the byte is put at the end. */
    method PushByte(b: byte)
      requires Valid()
      modifies streamBuffer, this`streamPos
      ensures Valid()
      ensures Stream() == (if |old(Stream())| >= streamBuffer.Length then old(Stream())[1..] else old(Stream())) + [b]
    {
      if streamPos >= streamBuffer.Length {
        DropFront(1);
      }
      ghost var kept := Stream();
      streamBuffer[streamPos] := b;
      streamPos := streamPos + 1;
      assert Stream() == kept + [b];
    }

    /** `process_command_packet` on a consumed frame, as a change of the session. */
    method DispatchFrame(frame: seq<byte>)
      requires Valid()
      modifies this`status, this`sent, this`baudRate, this`serialOk, this`callbacks
      ensures Valid()
      ensures SessionOf() == AfterPacket(initialized, hasCallback, old(SessionOf()), frame)
    {
      ProcessCommandPacket(frame);
    }

    /** One pass of the second loop of `process_dma_received_data`: a
        complete frame or a text byte at the front is handed on and dropped
        (`progress`), or the front is an incomplete frame and nothing happens. */
    method ParseFront() returns (progress: bool, ghost t: Token)
      requires Valid() && streamPos > 0
      modifies streamBuffer, commandBuffer, this`streamPos, this`commandBufferPos, this`tokens,
               this`status, this`sent, this`baudRate, this`serialOk, this`callbacks, this`parsed
      ensures Valid()
      ensures SessionOf() == if progress then AfterToken(initialized, hasCallback, old(SessionOf()), t) else old(SessionOf())
      ensures progress ==> streamPos < old(streamPos)
      ensures progress ==> tokens == old(tokens) + [t] && Tokenize(old(Stream())) == [t] + Tokenize(Stream())
      ensures progress ==> Leftover(old(Stream())) == Leftover(Stream())
      ensures !progress ==> tokens == old(tokens) && Stream() == old(Stream())
      ensures !progress ==> Tokenize(Stream()) == [] && Leftover(Stream()) == Stream()
    {
      var s := Stream();
      if streamBuffer[0] == CMD_START_BYTE {
        if streamPos < COMMAND_LENGTH {
          return false, TextByte(0);
        }
        var hasEnd := HasEndByte(s, 1, COMMAND_LENGTH);
        if !hasEnd {
          return false, TextByte(0);
        }
        var frame := s[..COMMAND_LENGTH];
        TokenizeStep(s, Frame(frame), s[COMMAND_LENGTH..]);
        DispatchFrame(frame);
        tokens := tokens + [Frame(frame)];
        DropFront(COMMAND_LENGTH);
        return true, Frame(frame);
      }
      TokenizeStep(s, TextByte(s[0]), s[1..]);
      ProcessReceivedByte(s[0]);
      tokens := tokens + [TextByte(s[0])];
      DropFront(1);
      progress, t := true, TextByte(s[0]);
    }

    /** The second loop of `process_dma_received_data`: every complete frame
        and every text byte at the front is handed on, leaving only an
        incomplete frame. */
    method ParseStream()
      requires Valid()
      modifies streamBuffer, commandBuffer, this`streamPos, this`commandBufferPos, this`tokens,
               this`status, this`sent, this`baudRate, this`serialOk, this`callbacks, this`parsed
      ensures Valid()
      ensures SessionOf() == AfterTokens(initialized, hasCallback, old(SessionOf()), Tokenize(old(Stream())))
      ensures tokens == old(tokens) + Tokenize(old(Stream()))
      ensures Stream() == Leftover(old(Stream()))
    {
      ghost var done: seq<Token> := [];
      ghost var st0 := SessionOf();
      while streamPos > 0
        invariant Valid()
        invariant tokens == old(tokens) + done
        invariant Tokenize(old(Stream())) == done + Tokenize(Stream())
        invariant Leftover(old(Stream())) == Leftover(Stream())
        invariant SessionOf() == AfterTokens(initialized, hasCallback, st0, done)
        decreases streamPos
      {
        var progress;
        ghost var t;
        progress, t := ParseFront();
        if !progress {
          assert done + Tokenize(Stream()) == done;
          break;
        }
        assert done + ([t] + Tokenize(Stream())) == (done + [t]) + Tokenize(Stream());
        AfterTokensSnoc(initialized, hasCallback, st0, done, t);
        done := done + [t];
      }
      assert Tokenize(Stream()) == [];
      assert Tokenize(old(Stream())) == done;
    }

    /** `process_dma_received_data`: the data (None is a null pointer) is
        appended to the stream buffer and then parsed. */
    method ProcessDmaReceivedData(data: Option<seq<byte>>)
      requires Valid()
      modifies streamBuffer, commandBuffer, this`streamPos, this`commandBufferPos, this`tokens,
               this`status, this`sent, this`baudRate, this`serialOk, this`callbacks, this`parsed
      ensures Valid()
      ensures data.None? || data.value == [] ==>
        Stream() == old(Stream()) && tokens == old(tokens) && SessionOf() == old(SessionOf())
      ensures data.Some? && data.value != [] ==>
        var appended := AppendDropOldest(old(Stream()), data.value, streamBuffer.Length);
        && tokens == old(tokens) + Tokenize(appended)
        && Stream() == Leftover(appended)
        && SessionOf() == AfterTokens(initialized, hasCallback, old(SessionOf()), Tokenize(appended))
    {
      if data.None? || |data.value| == 0 {
        return;
      }
      AppendToStream(data.value);
      ParseStream();
    }

    /** `send_touch_data`: the manual trigger bits are ORed into the state
        (`merged1`, `merged2`), which is sent as one 9-byte packet when ready
        and started; `txAccepted` says whether the UART took all nine bytes. */
    method SendTouchData(state1: bv32, state2: bv8, txAccepted: bool)
      returns (ok: bool, merged1: bv32, merged2: bv8)
      requires Valid()
      ensures ok <==> IsReady() && serialOk && txAccepted
      ensures IsReady() && serialOk ==> merged1 == state1 | trigState1 && merged2 == state2 | trigState2
      ensures !(IsReady() && serialOk) ==> merged1 == state1 && merged2 == state2
    {
      merged1, merged2 := state1, state2;
      if !IsReady() || !serialOk {
        return false, merged1, merged2;
      }
      merged1 := merged1 | trigState1;
      merged2 := merged2 | trigState2;
      ok := txAccepted;
    }

    /** `manually_triggle_area`: only bit `area - 1` is set (in the first word
        below 32, in the second above); an area outside 1..34 sets nothing. */
    method ManuallyTriggerArea(area: nat)
      requires Valid()
      modifies this`trigState1, this`trigState2
      ensures 1 <= area <= 32 ==> trigState1 == Single32(area - 1) && trigState2 == 0
      ensures 33 <= area <= 34 ==> trigState1 == 0 && trigState2 == (1 as bv8) << (area - 33)
      ensures area < 1 || area > 34 ==> trigState1 == 0 && trigState2 == 0
      ensures forall j :: 0 <= j < 32 ==> (Bit32(trigState1, j) <==> j == area - 1)
    {
      trigState1, trigState2 := 0, 0;
      if 1 <= area <= 34 {
        var bitIndex := area - 1;
        if bitIndex < 32 {
          trigState1 := trigState1 | Single32(bitIndex);
        } else {
          bitIndex := bitIndex - 32;
          trigState2 := trigState2 | ((1 as bv8) << bitIndex);
        }
      }
    }

    /** `clear_manually_triggle_area`. */
    method ClearManuallyTriggerArea()
      modifies this`trigState1, this`trigState2
      ensures trigState1 == 0 && trigState2 == 0
    {
      trigState1, trigState2 := 0, 0;
    }
  }
}
