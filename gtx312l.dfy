/** The GTX312L twelve-channel touch controller's 16-bit physical address
    (channels in bits 0-11, controller address in bits 12-13, I2C port in
    bits 14-15) and the touch-data helpers of its header. */
module Gtx312l {
  import opened Common
  import opened Bits

  /** `GTX312L_MAX_CHANNELS`. */
  const MAX_CHANNELS: nat := 12

  lemma Units()
    ensures Pow2(2) == 4 && Pow2(12) == 0x1000 && Pow2(14) == 0x4000 && Pow2(16) == 0x1_0000
  {
    Pow2Values();
    assert Pow2(14) == 4 * Pow2(12);
  }

  /** The `GTX312L_PhysicalAddr(i2c_addr, gtx_addr, channel_bitmap)` mask:
      `(i2c & 3) << 14 | (gtx & 3) << 12 | (bitmap & 0xFFF)`. */
  function PhysicalAddr(i2cPort: byte, gtxAddr: byte, channels: u16): (mask: u16)
    ensures mask == (i2cPort % 4) * 0x4000 + (gtxAddr % 4) * 0x1000 + channels % 0x1000
  {
    Units();
    AndMaskValue(i2cPort, 2);
    AndMaskValue(gtxAddr, 2);
    AndMaskValue(channels, 12);
    var port, addr, bits := And(i2cPort, 3), And(gtxAddr, 3), And(channels, 0x0FFF);
    PackValue(port, addr, bits);
    Or(Or(Shl(port, 14), Shl(addr, 12)), bits)
  }

  /** Packing in-range fields is placing them side by side. */
  lemma PackValue(port: nat, addr: nat, bits: nat)
    requires port < 4 && addr < 4 && bits < 0x1000
    ensures Or(Or(Shl(port, 14), Shl(addr, 12)), bits) == port * 0x4000 + addr * 0x1000 + bits
  {
    Units();
    ShlValue(port, 14);
    ShlValue(addr, 12);
    OrShifted(port, Shl(addr, 12), 14);
    var upper := Or(Shl(port, 14), Shl(addr, 12));
    assert upper == (4 * port + addr) * 0x1000;
    ShlValue(4 * port + addr, 12);
    assert upper == Shl(4 * port + addr, 12);
    OrShifted(4 * port + addr, bits, 12);
  }

  /** `get_device_mask`: `mask & 0xF000`, the address with no channel bit. */
  function DeviceMask(mask: u16): (d: u16)
    ensures d == mask - mask % 0x1000
  {
    var high := mask / 0x1000;
    Shift12(mask);
    Shift12(high);
    Shift12(15);
    AndShifted(mask, 15, 12);
    LowNibble(high);
    And(mask, 0xF000)
  }

  /** Shifts by the twelve channel bits as products and quotients. */
  lemma Shift12(x: nat)
    ensures Shl(x, 12) == x * 0x1000 && Shr(x, 12) == x / 0x1000
  {
    ShiftValues(x, 12);
    Pow2Values();
  }

  /** A nibble masked with 15 is unchanged. */
  lemma LowNibble(x: nat)
    requires x < 16
    ensures And(x, 15) == x
  {
    var p := Pow2(4);
    assert p == 16 by { Pow2Values(); }
    MaskKeeps(x, 4);
    assert And(x, p - 1) == x;
  }

  /** Reading the bit-fields back gives the constructor's arguments,
      truncated to their widths. */
  lemma PhysicalAddrFields(i2cPort: byte, gtxAddr: byte, channels: u16)
    ensures var m := PhysicalAddr(i2cPort, gtxAddr, channels);
            m / 0x4000 == i2cPort % 4 && (m / 0x1000) % 4 == gtxAddr % 4 && m % 0x1000 == channels % 0x1000
  {
    var m := PhysicalAddr(i2cPort, gtxAddr, channels);
    var hi := (i2cPort % 4) * 4 + gtxAddr % 4;
    DivModUnique(m, 0x1000, hi, channels % 0x1000);
    DivModUnique(hi, 4, i2cPort % 4, gtxAddr % 4);
    DivModUnique(m, 0x4000, i2cPort % 4, (gtxAddr % 4) * 0x1000 + channels % 0x1000);
  }

  /** The device mask of an address is that address with no channels. */
  lemma DeviceMaskOfAddr(i2cPort: byte, gtxAddr: byte, channels: u16)
    ensures DeviceMask(PhysicalAddr(i2cPort, gtxAddr, channels)) == PhysicalAddr(i2cPort, gtxAddr, 0)
  {
    PhysicalAddrFields(i2cPort, gtxAddr, channels);
  }

  /** `GTX312L_TouchData::is_channel_touched`. */
  function IsChannelTouched(status: u16, channel: byte): (touched: bool)
    ensures touched <==> channel < MAX_CHANNELS && Bit(status, channel)
  {
    if channel >= MAX_CHANNELS then false
    else
      MaskedBit(status, channel);
      And(status, Pow2(channel)) != 0
  }

  /** `status & (1 << i)` is non-zero exactly when bit i is set. */
  lemma MaskedBit(status: u16, i: nat)
    requires i < 16
    ensures And(status, Pow2(i)) != 0 <==> Bit(status, i)
  {
    var x := And(status, Pow2(i));
    if Bit(status, i) {
      AndBit(status, Pow2(i), i);
      Pow2Bit(i, i);
      ZeroBit(i);
    } else {
      forall j | 0 <= j < 16
        ensures !Bit(x, j)
      {
        AndBit(status, Pow2(i), j);
        Pow2Bit(i, j);
      }
      AndBound(status, Pow2(i));
      Units();
      ZeroBitsIsZero(x, 16);
    }
  }

  /** `get_touched_count`: the number of touched channels among the twelve. */
  method GetTouchedCount(status: u16) returns (count: byte)
    ensures count == PopCount(status, MAX_CHANNELS)
  {
    count := 0;
    var i := 0;
    while i < MAX_CHANNELS
      invariant 0 <= i <= MAX_CHANNELS && count == PopCount(status, i)
    {
      MaskedBit(status, i);
      if And(status, Pow2(i)) != 0 {
        count := count + 1;
      }
      i := i + 1;
    }
  }

  /** No channel is touched exactly when the count is zero. */
  lemma {:induction false} NoTouchIffZeroCount(status: u16, k: nat)
    requires k <= MAX_CHANNELS
    ensures PopCount(status, k) == 0 <==> forall c :: 0 <= c < k ==> !IsChannelTouched(status, c)
  {
    if k > 0 {
      NoTouchIffZeroCount(status, k - 1);
      assert IsChannelTouched(status, k - 1) <==> Bit(status, k - 1);
    }
  }

  /** A sample's mask as the `GTX312L_SampleResult(device_mask, touch_bitmap)`
      constructor produces it: the 16-bit `device_mask | (touch_bitmap & 0x0FFF)`
      is handed to the `(uint8_t i2c_addr, ...)` constructor, so it is cut to
      its low byte and only bits 0-1 survive, moved into the port field. */
  function SampleMaskAsWritten(deviceMask: u16, touchBitmap: u16): u16
  {
    var combined := Or(deviceMask, And(touchBitmap, 0x0FFF));
    PhysicalAddr(combined % 0x100, 0, 0)
  }

  /** Controller 1 on port 0 reporting channel 2: the sample carries neither
      the controller's address nor the touched channel. */
  lemma SampleMaskLosesTouch()
    ensures SampleMaskAsWritten(0x1000, 0x0004) == 0
    ensures SampleMask(0x1000, 0x0004) == 0x1004
  {
    Units();
    AndMaskValue(4, 12);
    assert And(4, 0x0FFF) == 4;
    ShlValue(1, 12);
    OrShifted(1, 4, 12);
    assert Or(0x1000, And(4, 0x0FFF)) == 0x1004;
    assert PhysicalAddr(4, 0, 0) == 0;
    assert SampleMaskAsWritten(0x1000, 0x0004) == PhysicalAddr(0x1004 % 0x100, 0, 0);
    assert SampleMask(0x1000, 0x0004) == 0x1000 + 0x0004 % 0x1000;
  }

  /** The sample mask the sampling code intends: the device mask with the
      twelve touch bits below it. */
  function SampleMask(deviceMask: u16, touchBitmap: u16): (mask: nat)
    requires deviceMask % 0x1000 == 0
    ensures mask == deviceMask + touchBitmap % 0x1000 && mask < 0x1_0000
    ensures DeviceMask(mask) == deviceMask && mask % 0x1000 == touchBitmap % 0x1000
  {
    var q := deviceMask / 0x1000;
    var low := touchBitmap % 0x1000;
    assert Pow2(12) == 0x1000 by { Units(); }
    assert And(touchBitmap, 0x0FFF) == low by { AndMaskValue(touchBitmap, 12); }
    assert Shl(q, 12) == deviceMask by {
      ShiftValues(q, 12);
      assert Shl(q, 12) == q * 0x1000;
    }
    assert Or(deviceMask, low) == deviceMask + low by { OrShifted(q, low, 12); }
    assert (deviceMask + low) % 0x1000 == low by { DivModUnique(deviceMask + low, 0x1000, q, low); }
    Or(deviceMask, And(touchBitmap, 0x0FFF))
  }
}
