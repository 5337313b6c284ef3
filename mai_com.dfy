/** The serial side of the maimai touch port (`mai_com.cpp`): the 9-byte
    touch report `Send_maiserial` writes, the baud codes of the `'U'`
    command and the range check of the `'D'` delay command. */
module MaiCom {
  import opened Common
  import opened Bits

  /** `'('` and `')'`, the bytes that frame a touch report. */
  const OPEN: byte := 0x28
  const CLOSE: byte := 0x29

  /** `(x >> 5k) & 0b11111`: the `k`-th group of five bits of `x`. */
  function Group(x: nat, k: nat): (g: byte)
    ensures g < 32
  {
    assert Pow2(5) == 32;
    AndMaskValue(Shr(x, 5 * k), 5);
    And(Shr(x, 5 * k), 0x1F)
  }

  /** The first `n` digits of `x` in base 32, least significant first. */
  function Base32(x: nat, n: nat): (ds: seq<byte>)
    ensures |ds| == n && forall i :: 0 <= i < n ==> ds[i] < 32
  {
    if n == 0 then [] else [x % 32] + Base32(x / 32, n - 1)
  }

  /** The number written by base-32 digits, least significant first. */
  function Value(ds: seq<byte>): nat
  {
    if ds == [] then 0 else ds[0] + 32 * Value(ds[1..])
  }

  function Pow32(n: nat): (p: nat)
    ensures p >= 1
  {
    if n == 0 then 1 else 32 * Pow32(n - 1)
  }

  /** The shift-and-mask group is the base-32 digit at that place. */
  lemma {:induction false} GroupIsDigit(x: nat, n: nat, k: nat)
    requires k < n
    ensures Group(x, k) == Base32(x, n)[k]
    decreases k
  {
    assert Pow2(5) == 32;
    if k == 0 {
      AndMaskValue(x, 5);
    } else {
      ShrAdd(x, 5, 5 * (k - 1));
      ShiftValues(x, 5);
      assert Shr(x, 5 * k) == Shr(x / 32, 5 * (k - 1));
      GroupIsDigit(x / 32, n - 1, k - 1);
    }
  }

  /** Reading the digits back gives `x` modulo 32^n. */
  lemma {:induction false} Base32Value(x: nat, n: nat)
    ensures Value(Base32(x, n)) == x % Pow32(n)
    decreases n
  {
    if n > 0 {
      var ds := Base32(x, n);
      assert ds[1..] == Base32(x / 32, n - 1);
      Base32Value(x / 32, n - 1);
      ModSplit(x, 32, Pow32(n - 1));
    }
  }

  /** The packet array of `Send_maiserial`: `'('`, five groups of `send1`,
      two groups of `send2`, `')'`. */
  function TouchPacket(send1: u32, send2: u32): (p: seq<byte>)
    ensures |p| == 9 && p[0] == OPEN && p[8] == CLOSE
    ensures forall i :: 1 <= i < 8 ==> p[i] < 32
  {
    [OPEN, Group(send1, 0), Group(send1, 1), Group(send1, 2), Group(send1, 3), Group(send1, 4),
     Group(send2, 0), Group(send2, 1), CLOSE]
  }

  /** Bytes 1-5 are the consecutive five-bit groups of `send1` and bytes 6-7
      those of `send2`. */
  lemma PacketGroups(send1: u32, send2: u32)
    ensures TouchPacket(send1, send2)[1..6] == Base32(send1, 5)
    ensures TouchPacket(send1, send2)[6..8] == Base32(send2, 2)
  {
    var p := TouchPacket(send1, send2);
    forall k | 0 <= k < 5 ensures p[1 + k] == Base32(send1, 5)[k] {
      GroupIsDigit(send1, 5, k);
    }
    forall k | 0 <= k < 2 ensures p[6 + k] == Base32(send2, 2)[k] {
      GroupIsDigit(send2, 2, k);
    }
  }

  /** The receiver recovers areas 1-25 from bytes 1-5 and the rest from
      bytes 6-7: the packet carries the low 25 bits of `send1` and the low
      10 bits of `send2`. */
  lemma PacketDecodes(send1: u32, send2: u32)
    ensures Value(TouchPacket(send1, send2)[1..6]) == send1 % 0x200_0000
    ensures Value(TouchPacket(send1, send2)[6..8]) == send2 % 0x400
  {
    PacketGroups(send1, send2);
    Base32Value(send1, 5);
    Base32Value(send2, 2);
    assert Pow32(2) == 0x400;
    assert Pow32(5) == 0x200_0000;
  }

  /** `Send_maiserial`: nothing is written while the serial link is off or
      no send is due; otherwise the packet. */
  function SendMaiSerial(serialOk: bool, sendDue: bool, send1: u32, send2: u32): (tx: seq<byte>)
    ensures tx == [] <==> !(serialOk && sendDue)
    ensures tx != [] ==> |tx| == 9 && tx[0] == OPEN && tx[8] == CLOSE
  {
    if !serialOk || !sendDue then [] else TouchPacket(send1, send2)
  }

  /** The rates of the `'U'` command, indexed by code `'0'`..`'6'`. */
  const BAUD_RATES: seq<nat> := [9600, 115200, 250000, 500000, 1000000, 1500000, 2000000]

  /** The rate a `'U'` code selects; other codes select none. */
  function BaudRateForCode(code: char): (r: Option<nat>)
    ensures r.Some? <==> '0' <= code <= '6'
    ensures r.Some? ==> r.value == BAUD_RATES[code as int - '0' as int]
  {
    match code
    case '0' => Some(9600)
    case '1' => Some(115200)
    case '2' => Some(250000)
    case '3' => Some(500000)
    case '4' => Some(1000000)
    case '5' => Some(1500000)
    case '6' => Some(2000000)
    case _ => None
  }

  /** The code that selects a rate of the table. */
  function CodeForRate(rate: nat): (c: Option<char>)
    ensures c.Some? <==> rate in BAUD_RATES
  {
    if rate in BAUD_RATES then
      var i :| 0 <= i < |BAUD_RATES| && BAUD_RATES[i] == rate;
      Some(('0' as int + i) as char)
    else None
  }

  /** Each listed rate has exactly one code. */
  lemma BaudCodeRoundTrip(rate: nat)
    requires rate in BAUD_RATES
    ensures BaudRateForCode(CodeForRate(rate).value) == Some(rate)
  {
  }

  lemma BaudCodesDistinct(c1: char, c2: char)
    requires BaudRateForCode(c1).Some? && BaudRateForCode(c1) == BaudRateForCode(c2)
    ensures c1 == c2
  {
  }

  /** `uart.uart_speed` after a `'U'` command: a listed code switches to its
      rate, any other byte changes nothing. */
  function SpeedAfterBaudCommand(speed: nat, code: char): (r: nat)
    ensures r in BAUD_RATES || r == speed
    ensures r != speed ==> BaudRateForCode(code) == Some(r)
    ensures !('0' <= code <= '6') ==> r == speed
  {
    match BaudRateForCode(code)
    case Some(rate) => rate
    case None => speed
  }

  /** `touch_delaytime` after a `'D'` command carrying `value`: accepted only
      in [0, TOUCHQUEUE_SIZE). */
  function DelayAfterCommand(delay: nat, value: int, queueSize: nat): (r: nat)
    ensures 0 <= value < queueSize ==> r == value
    ensures !(0 <= value < queueSize) ==> r == delay
  {
    if 0 <= value < queueSize then value else delay
  }

  /** The delay stays a valid age in the touch queue across any number of
      `'D'` commands. */
  lemma DelayStaysInQueue(delay: nat, value: int, queueSize: nat)
    requires delay < queueSize
    ensures DelayAfterCommand(delay, value, queueSize) < queueSize
  {
  }
}
