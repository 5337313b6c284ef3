/** The touch sensor's I2C register file: the host reads the scan rate,
    the touch status, the LED control word and the twelve channel
    thresholds, and writes the LED control word and the thresholds. A
    write arrives as a register number and a big-endian 16-bit value; a
    read is answered with the register's value, high byte first. */
module I2cModule {
  import opened Common
  import opened Bits

  /** The slave's receive and transmit buffer. */
  const BUFFER_SIZE: nat := 16
  /** The capacitive channels, one threshold register each. */
  const CHANNELS: nat := 12
  /** Every threshold starts at 100. */
  const DEFAULT_THRESHOLD: u16 := 100

  /** Register numbers. The LED control register is the header's control
      register, and the thresholds of channels 0 to 11 are registers 3 to
      14, from the header's base for per-channel settings. */
  const REG_SCAN_RATE: byte := 0x0
  const REG_TOUCH_STATUS: byte := 0x1
  const REG_LED_CONTROL: byte := 0x2
  const REG_CAP0_THRESHOLD: byte := 0x3

  predicate IsThreshold(reg: byte)
  {
    REG_CAP0_THRESHOLD <= reg < REG_CAP0_THRESHOLD + CHANNELS
  }

  /** The registers a write changes. */
  predicate Writable(reg: byte)
  {
    reg == REG_LED_CONTROL || IsThreshold(reg)
  }

  /** `(hi << 8) | lo`, the value of a write. */
  function Word(hi: byte, lo: byte): u16
  {
    hi * 0x100 + lo
  }

  /** `(v >> 8) & 0xFF` and `v & 0xFF`, the reply to a read. */
  function HighByte(v: u16): byte
  {
    v / 0x100 % 0x100
  }

  function LowByte(v: u16): byte
  {
    v % 0x100
  }

  /** The arithmetic forms are the firmware's shift-and-mask expressions,
      and a reply's two bytes put back together are the value. */
  lemma WordBytes(hi: byte, lo: byte, v: u16)
    ensures Word(hi, lo) == Or(Shl(hi, 8), lo)
    ensures HighByte(v) == And(Shr(v, 8), 0xFF) && LowByte(v) == And(v, 0xFF)
    ensures Word(HighByte(v), LowByte(v)) == v
    ensures HighByte(Word(hi, lo)) == hi && LowByte(Word(hi, lo)) == lo
  {
    assert Pow2(8) == 0x100 by { Pow2Values(); }
    assert Word(hi, lo) == Or(Shl(hi, 8), lo) by {
      OrShifted(hi, lo, 8);
      ShiftValues(hi, 8);
    }
    assert HighByte(v) == And(Shr(v, 8), 0xFF) by {
      ShiftValues(v, 8);
      AndMaskValue(v / 0x100, 8);
    }
    assert LowByte(v) == And(v, 0xFF) by { AndMaskValue(v, 8); }
    assert HighByte(Word(hi, lo)) == hi && LowByte(Word(hi, lo)) == lo by {
      DivModUnique(Word(hi, lo), 0x100, hi, lo);
    }
    assert Word(HighByte(v), LowByte(v)) == v by {
      var q, r := v / 0x100, v % 0x100;
      DivModUnique(q, 0x100, 0, q);
      assert HighByte(v) == q && LowByte(v) == r;
    }
  }

  /** The register file and the slave's buffer, globals in the firmware. */
  class RegisterFile {
    var scanRate: u16
    /** The capacitive module's touch bitmap. */
    var touchStatus: u16
    var ledControl: u16
    /** The LED state last handed to the LED module. */
    var ledOn: bool
    const thresholds: array<u16>
    var thresholdChanged: bool
    const buffer: array<byte>
    var currentRegister: byte

    ghost predicate Valid()
      reads this
    {
      thresholds.Length == CHANNELS && buffer.Length == BUFFER_SIZE && thresholds != buffer as object
    }

    constructor ()
      ensures Valid() && fresh(thresholds) && fresh(buffer)
      ensures scanRate == 0 && touchStatus == 0 && ledControl == 0 && !thresholdChanged && currentRegister == 0
      ensures forall k :: 0 <= k < CHANNELS ==> thresholds[k] == DEFAULT_THRESHOLD
    {
      scanRate := 0;
      touchStatus := 0;
      ledControl := 0;
      ledOn := false;
      thresholds := new u16[CHANNELS](_ => DEFAULT_THRESHOLD);
      thresholdChanged := false;
      buffer := new byte[BUFFER_SIZE](_ => 0);
      currentRegister := 0;
    }

    /** `i2c_handle_register_read`: the register's value, 0 for a register
        the file does not have. */
    function ReadRegister(reg: byte): (v: u16)
      requires Valid()
      reads this, thresholds
      ensures !Writable(reg) && reg != REG_SCAN_RATE && reg != REG_TOUCH_STATUS ==> v == 0
      ensures IsThreshold(reg) ==> v == thresholds[reg as int - REG_CAP0_THRESHOLD as int]
    {
      if reg == REG_SCAN_RATE then scanRate
      else if reg == REG_TOUCH_STATUS then touchStatus
      else if reg == REG_LED_CONTROL then ledControl
      else if IsThreshold(reg) then thresholds[reg - REG_CAP0_THRESHOLD]
      else 0
    }

    /** `i2c_handle_register_write`: a writable register takes the value
        and reads it back, an LED control write also switches the LED by
        bit 0, a threshold write raises the changed flag; every other
        register reads as before, and a write to any other register changes
        nothing. */
    method WriteRegister(reg: byte, value: u16)
      requires Valid()
      modifies this, thresholds
      ensures Valid() && scanRate == old(scanRate) && touchStatus == old(touchStatus)
      ensures currentRegister == old(currentRegister)
      ensures Writable(reg) ==> ReadRegister(reg) == value
      ensures forall r: byte :: r != reg ==> ReadRegister(r) == old(ReadRegister(r))
      ensures !Writable(reg) ==> ReadRegister(reg) == old(ReadRegister(reg))
      ensures ledOn == (if reg == REG_LED_CONTROL then value % 2 == 1 else old(ledOn))
      ensures thresholdChanged == (IsThreshold(reg) || old(thresholdChanged))
      ensures !Writable(reg) ==> ledControl == old(ledControl) && thresholds[..] == old(thresholds[..])
    {
      if reg == REG_LED_CONTROL {
        ledControl := value;
        ledOn := value % 2 == 1;
      } else if IsThreshold(reg) {
        thresholds[reg - REG_CAP0_THRESHOLD] := value;
        thresholdChanged := true;
      }
    }

    /** The write-complete interrupt: a transfer of three bytes or more is
        a register number and a big-endian value; `count` is the number of
        bytes the host wrote into the buffer. */
    method OnWriteComplete(count: nat)
      requires Valid()
      modifies this, thresholds
      ensures Valid()
      ensures count >= 3 && Writable(old(buffer[0])) ==>
        ReadRegister(old(buffer[0])) == Word(old(buffer[1]), old(buffer[2]))
      ensures count >= 3 ==> forall r: byte :: r != old(buffer[0]) ==> ReadRegister(r) == old(ReadRegister(r))
      ensures count >= 3 && !Writable(old(buffer[0])) ==> ReadRegister(old(buffer[0])) == old(ReadRegister(buffer[0]))
      ensures count < 3 ==>
        (thresholds[..] == old(thresholds[..]) && ledControl == old(ledControl)
         && ledOn == old(ledOn) && thresholdChanged == old(thresholdChanged))
    {
      if count >= 3 {
        var reg := buffer[0];
        var value := Word(buffer[1], buffer[2]);
        WriteRegister(reg, value);
      }
    }

    /** The address-done interrupt: after the host has written a register
        number, the buffer's first two bytes are loaded with that
        register's value, high byte first, for the following read. */
    method OnAddressDone(count: nat)
      requires Valid()
      modifies this, buffer
      ensures Valid() && forall r: byte :: ReadRegister(r) == old(ReadRegister(r))
      ensures count >= 1 ==>
        currentRegister == old(buffer[0])
        && Word(buffer[0], buffer[1]) == old(ReadRegister(buffer[0]))
        && buffer[2..] == old(buffer[2..])
      ensures count < 1 ==> buffer[..] == old(buffer[..]) && currentRegister == old(currentRegister)
      ensures scanRate == old(scanRate) && touchStatus == old(touchStatus) && ledControl == old(ledControl)
      ensures thresholdChanged == old(thresholdChanged) && ledOn == old(ledOn)
    {
      if count >= 1 {
        currentRegister := buffer[0];
        var v := ReadRegister(currentRegister);
        buffer[0] := HighByte(v);
        buffer[1] := LowByte(v);
        WordBytes(0, 0, v);
      }
    }
  }
}
