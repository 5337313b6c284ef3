/** The per-area sensitivity page: the 34 serial touch areas named A1 to
    E8, each area's bound sensor channel decoded from its packed channel id,
    a cached sensitivity per area read from that channel, and the write-back
    of the cached values when the page is left. */
module AreaSensitivity {
  import opened Common
  import opened Bits
  import opened Text

  /** The number of serial touch areas. */
  const AREA_COUNT: nat := 34
  /** The channel id of an unbound area. */
  const UNBOUND_ID: u32 := 0xFFFF_FFFF
  /** Sensitivities run from 0 to 99. */
  const MAX_AREA_SENSITIVITY: int := 99
  /** Channel ids carry a 24-bit channel bitmap under the device mask. */
  const CHANNEL_BITS: nat := 24

  // ---------------------------------------------------------------------
  // Area names

  /** The first area index of each row A to E. */
  function RowStart(row: nat): nat
    requires row < 5
  {
    [0, 8, 16, 18, 26][row]
  }

  function RowLetter(row: nat): char
    requires row < 5
  {
    "ABCDE"[row]
  }

  /** The row of an area index: A holds 0-7, B 8-15, C 16-17, D 18-25 and
      E everything from 26 on. */
  function RowOf(index: byte): (row: nat)
    ensures row < 5 && RowStart(row) <= index
    ensures row < 4 ==> index < RowStart(row + 1)
  {
    if index <= 7 then 0 else if index <= 15 then 1 else if index <= 17 then 2 else if index <= 25 then 3 else 4
  }

  /** `get_area_name`: the row letter and the column counted from 1. */
  function AreaName(index: byte): string
  {
    var row := RowOf(index);
    [RowLetter(row)] + NatToString(index - RowStart(row) + 1)
  }

  /** The area index a name stands for: the row's first index plus the
      column less one. */
  function AreaOfName(name: string): Option<nat>
  {
    if |name| < 2 || !AllDigits(name[1..]) || DigitsValue(name[1..]) == 0 then None
    else if name[0] == 'A' then Some(DigitsValue(name[1..]) - 1)
    else if name[0] == 'B' then Some(8 + DigitsValue(name[1..]) - 1)
    else if name[0] == 'C' then Some(16 + DigitsValue(name[1..]) - 1)
    else if name[0] == 'D' then Some(18 + DigitsValue(name[1..]) - 1)
    else if name[0] == 'E' then Some(26 + DigitsValue(name[1..]) - 1)
    else None
  }

  /** Every index's name reads back as the index, so no two indices share
      a name. */
  lemma AreaNameRoundTrip(index: byte)
    ensures AreaOfName(AreaName(index)) == Some(index as nat)
  {
    var row := RowOf(index);
    var col: nat := index - RowStart(row) + 1;
    var s := AreaName(index);
    assert s[1..] == NatToString(col);
    NatToStringValue(col);
  }

  // ---------------------------------------------------------------------
  // Channel ids

  /** The device mask: the top byte of the channel id. */
  function DeviceMaskOf(id: u32): (m: byte)
    ensures id == m * Pow2(CHANNEL_BITS) + ChannelBitmapOf(id)
  {
    Pow2Of24();
    id / 0x100_0000
  }

  /** The channel bitmap: the low 24 bits. */
  function ChannelBitmapOf(id: u32): (b: nat)
    ensures b < Pow2(CHANNEL_BITS)
  {
    Pow2Of24();
    id % 0x100_0000
  }

  /** The lowest set bit of `x` from bit `i` below bit 24. */
  function LowestSetBitFrom(x: nat, i: nat): (r: Option<nat>)
    requires i <= CHANNEL_BITS
    ensures r.Some? ==> i <= r.value < CHANNEL_BITS && Bit(x, r.value) && forall j :: i <= j < r.value ==> !Bit(x, j)
    ensures r.None? ==> forall j :: i <= j < CHANNEL_BITS ==> !Bit(x, j)
    decreases CHANNEL_BITS - i
  {
    if i == CHANNEL_BITS then None
    else if Bit(x, i) then Some(i)
    else LowestSetBitFrom(x, i + 1)
  }

  /** The scan for the channel: the first set bit of the bitmap. */
  method LowestSetBit(bitmap: nat) returns (ch: Option<nat>)
    ensures ch == LowestSetBitFrom(bitmap, 0)
  {
    var bit := 0;
    while bit < CHANNEL_BITS
      invariant bit <= CHANNEL_BITS
      invariant LowestSetBitFrom(bitmap, bit) == LowestSetBitFrom(bitmap, 0)
    {
      if Bit(bitmap, bit) {
        return Some(bit);
      }
      bit := bit + 1;
    }
    return None;
  }

  /** An area's cached value and whether it is bound, as `init_area_values`
      sets them: unbound with 0 for the unbound id or an empty channel
      bitmap; otherwise bound with the channel's sensitivity clamped to
      0-99. */
  function AreaEntry(ids: seq<u32>, read: (byte, nat) -> byte, i: nat): (e: (int, bool))
    ensures 0 <= e.0 <= MAX_AREA_SENSITIVITY
    ensures !e.1 ==> e.0 == 0
  {
    var id := if i < |ids| then ids[i] else UNBOUND_ID;
    if id == UNBOUND_ID then (0, false)
    else match LowestSetBitFrom(ChannelBitmapOf(id), 0)
      case None => (0, false)
      case Some(ch) => (Clamp(read(DeviceMaskOf(id), ch), 0, MAX_AREA_SENSITIVITY), true)
  }

  /** A write-back to the input manager: the area number (counted from 1)
      and its sensitivity. */
  datatype AreaWrite = AreaWrite(area: nat, value: byte)

  /** The write-backs of the first `n` areas: each bound area's value
      clamped to 0-99, in area order. */
  function WritesOf(values: seq<int>, bound: seq<bool>, n: nat): seq<AreaWrite>
    requires n <= |values| && n <= |bound|
  {
    if n == 0 then []
    else
      WritesOf(values, bound, n - 1)
      + (if bound[n - 1] then [AreaWrite(n, Clamp(values[n - 1], 0, MAX_AREA_SENSITIVITY))] else [])
  }

  /** The write-backs name exactly the bound areas, each with its clamped
      value, and name each area at most once, in increasing order. */
  lemma {:induction false} WritesMeaning(values: seq<int>, bound: seq<bool>, n: nat)
    requires n <= |values| && n <= |bound|
    ensures forall w :: w in WritesOf(values, bound, n) ==>
      1 <= w.area <= n && bound[w.area - 1] && w.value == Clamp(values[w.area - 1], 0, MAX_AREA_SENSITIVITY)
    ensures forall i :: 0 <= i < n && bound[i] ==>
      AreaWrite(i + 1, Clamp(values[i], 0, MAX_AREA_SENSITIVITY)) in WritesOf(values, bound, n)
    ensures forall i, j :: 0 <= i < j < |WritesOf(values, bound, n)| ==>
      WritesOf(values, bound, n)[i].area < WritesOf(values, bound, n)[j].area
  {
    if n > 0 {
      WritesMeaning(values, bound, n - 1);
    }
  }

  /** The page's cached values, static in the firmware; one object here. */
  class AreaSensitivityPage {
    var values: seq<int>
    var bound: seq<bool>
    var initialized: bool

    ghost predicate Valid()
      reads this
    {
      |values| == AREA_COUNT && |bound| == AREA_COUNT
    }

    constructor ()
      ensures values == [] && bound == [] && !initialized
    {
      values := [];
      bound := [];
      initialized := false;
    }

    /** `init_area_values`: each area's entry from its channel id; the
        sensitivity read is the input manager's. Without an input manager
        nothing changes. */
    method InitAreaValues(hasInputManager: bool, ids: seq<u32>, read: (byte, nat) -> byte)
      modifies this
      ensures !hasInputManager ==> values == old(values) && bound == old(bound) && initialized == old(initialized)
      ensures hasInputManager ==>
        (Valid() && initialized && forall i :: 0 <= i < AREA_COUNT ==> (values[i], bound[i]) == AreaEntry(ids, read, i))
    {
      if !hasInputManager {
        return;
      }
      values := seq(AREA_COUNT, _ => 0);
      bound := seq(AREA_COUNT, _ => false);
      var i := 0;
      while i < AREA_COUNT
        invariant 0 <= i <= AREA_COUNT && |values| == AREA_COUNT && |bound| == AREA_COUNT
        invariant forall j :: 0 <= j < i ==> (values[j], bound[j]) == AreaEntry(ids, read, j)
      {
        var id := if i < |ids| then ids[i] else UNBOUND_ID;
        if id == UNBOUND_ID {
          bound := bound[i := false];
          values := values[i := 0];
        } else {
          bound := bound[i := true];
          var mask := DeviceMaskOf(id);
          var bitmap := ChannelBitmapOf(id);
          var ch := LowestSetBit(bitmap);
          if ch.None? {
            values := values[i := 0];
            bound := bound[i := false];
          } else {
            values := values[i := Clamp(read(mask, ch.value), 0, MAX_AREA_SENSITIVITY)];
          }
        }
        i := i + 1;
      }
      initialized := true;
    }

    /** `on_sensitivity_complete`: the write-backs handed to the input
        manager, none without one. */
    method OnSensitivityComplete(hasInputManager: bool) returns (writes: seq<AreaWrite>)
      requires Valid()
      ensures !hasInputManager ==> writes == []
      ensures hasInputManager ==> writes == WritesOf(values, bound, AREA_COUNT)
    {
      writes := [];
      if !hasInputManager {
        return;
      }
      var i := 0;
      while i < AREA_COUNT
        invariant 0 <= i <= AREA_COUNT
        invariant writes == WritesOf(values, bound, i)
      {
        if bound[i] {
          var v := Clamp(values[i], 0, MAX_AREA_SENSITIVITY);
          writes := writes + [AreaWrite(i + 1, v)];
        }
        i := i + 1;
      }
    }
  }
}
