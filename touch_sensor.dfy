/** The 32-bit touch masks every touch sensor driver exchanges with the
    input manager: a 4-bit module id in bits 28-31 above a 28-bit channel
    bitmap (the static helpers of `TouchSensor`). */
module TouchSensorMask {
  import opened Common
  import opened Bits

  const ID_SHIFT: nat := 28
  /** 2^28, the weight of the id field. */
  const ID_UNIT: nat := 0x1000_0000

  lemma Unit()
    ensures Pow2(ID_SHIFT) == ID_UNIT && Pow2(4) == 16
  {
    Pow2Values();
  }

  /** `generateIdMask`: `(id_bits & 0x0F) << 28`. */
  function GenerateIdMask(idBits: byte): (m: nat)
    ensures m == (idBits % 16) * ID_UNIT
    ensures m < 0x1_0000_0000 && m % ID_UNIT == 0
  {
    Unit();
    AndLowMask(idBits, 4);
    ShiftValues(idBits, 4);
    var id := And(idBits, 0x0F);
    assert id == idBits % 16;
    ShiftValues(id, ID_SHIFT);
    DivModUnique(id * ID_UNIT, ID_UNIT, id, 0);
    Shl(id, ID_SHIFT)
  }

  /** `extractChannelMask`: `full_mask & 0x0FFFFFFF`. */
  function ExtractChannelMask(fullMask: u32): (c: nat)
    ensures c == fullMask % ID_UNIT
  {
    Unit();
    AndLowMask(fullMask, ID_SHIFT);
    ShiftValues(fullMask, ID_SHIFT);
    And(fullMask, 0x0FFF_FFFF)
  }

  /** `generateFullMask`: the id field OR the channel bits below bit 28. */
  function GenerateFullMask(idBits: byte, channelMask: u32): (m: nat)
    ensures m == (idBits % 16) * ID_UNIT + channelMask % ID_UNIT
    ensures m < 0x1_0000_0000
  {
    var id := GenerateIdMask(idBits);
    var channels := ExtractChannelMask(channelMask);
    Unit();
    ShiftValues(idBits % 16, ID_SHIFT);
    OrShifted(idBits % 16, channels, ID_SHIFT);
    Or(id, And(channelMask, 0x0FFF_FFFF))
  }

  /** `extractIdFromMask`: `(full_mask >> 28) & 0x0F`. */
  function ExtractIdFromMask(fullMask: u32): (id: byte)
    ensures id == fullMask / ID_UNIT
  {
    Unit();
    ShiftValues(fullMask, ID_SHIFT);
    AndLowMask(Shr(fullMask, ID_SHIFT), 4);
    ShiftValues(Shr(fullMask, ID_SHIFT), 4);
    And(Shr(fullMask, ID_SHIFT), 0x0F)
  }

  /** The id survives a full mask: `extractIdFromMask(generateFullMask(id, ch)) == id & 0xF`. */
  lemma IdRoundTrip(idBits: byte, channelMask: u32)
    ensures ExtractIdFromMask(GenerateFullMask(idBits, channelMask)) == idBits % 16
  {
    var m := GenerateFullMask(idBits, channelMask);
    DivModUnique(m, ID_UNIT, idBits % 16, channelMask % ID_UNIT);
  }

  /** The channels survive a full mask: `extractChannelMask(generateFullMask(id, ch)) == ch & 0x0FFFFFFF`. */
  lemma ChannelRoundTrip(idBits: byte, channelMask: u32)
    ensures ExtractChannelMask(GenerateFullMask(idBits, channelMask)) == channelMask % ID_UNIT
  {
    var m := GenerateFullMask(idBits, channelMask);
    DivModUnique(m, ID_UNIT, idBits % 16, channelMask % ID_UNIT);
  }

  /** Every 32-bit mask is the full mask of its own id and channels. */
  lemma SplitRoundTrip(fullMask: u32)
    ensures GenerateFullMask(ExtractIdFromMask(fullMask), ExtractChannelMask(fullMask)) == fullMask
  {
    var id := ExtractIdFromMask(fullMask);
    assert id % 16 == id;
    assert (ExtractChannelMask(fullMask) as nat) % ID_UNIT == fullMask % ID_UNIT;
  }

  /** The id field and the channel field share no bit. */
  lemma FieldsDisjoint(idBits: byte, channelMask: u32)
    ensures And(GenerateIdMask(idBits), ExtractChannelMask(channelMask)) == 0
  {
    var a := GenerateIdMask(idBits);
    var c := ExtractChannelMask(channelMask);
    Unit();
    forall i | 0 <= i < 32
      ensures !Bit(And(a, c), i)
    {
      AndBit(a, c, i);
      if i < ID_SHIFT {
        ShiftValues(idBits % 16, ID_SHIFT);
        LowBitsClear(idBits % 16, ID_SHIFT, i);
      } else {
        HighBitsClear(c, ID_SHIFT, i);
      }
    }
    AndBound(a, c);
    Pow2Values();
    ZeroBitsIsZero(And(a, c), 32);
  }
}
