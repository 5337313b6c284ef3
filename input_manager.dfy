/** The touch-device side of the input manager (`input_manager.cpp`): the
    table of up to eight registered sensor boards with their per-channel
    sensitivities and HID slots, the ring buffer that delays the serial
    touch state, the serial binding order and the calibration average.

    A board is known by its 8-bit module mask; the board object itself is a
    `Sensor` value whose `id` stands for the pointer's identity. */
module InputManager {
  import opened Common
  import opened Bits

  const MAX_DEVICES: nat := 8
  /** The channel cap of `registerTouchSensor` and the length of the
      sensitivity table. */
  const MAX_CHANNELS: nat := 24
  const DEFAULT_SENSITIVITY: byte := 15
  /** The number of HID slots `setHIDMapping` searches. */
  const HID_SLOTS: nat := 10
  /** The channel address of a free HID slot. */
  const UNUSED: u32 := 0xFFFF_FFFF

  /** `TouchDeviceMapping`, the fields the modelled operations use. */
  datatype DeviceMapping = DeviceMapping(
    mask: byte, maxChannels: nat, connected: bool,
    sensitivity: seq<byte>, enabled: nat, hid: seq<u32>)

  /** The array sizes of a mapping and its channel cap. */
  predicate Shaped(d: DeviceMapping)
  {
    |d.sensitivity| == MAX_CHANNELS && d.maxChannels <= MAX_CHANNELS && |d.hid| == HID_SLOTS
  }

  /** A sensor board as registration sees it. */
  datatype Sensor = Sensor(id: nat, mask: byte, supported: u32)

  /** `std::min((uint8_t)supported_channels, (uint8_t)24u)`. */
  function ChannelCap(supported: u32): (m: nat)
    ensures m <= MAX_CHANNELS
    ensures m == MAX_CHANNELS || m == supported % 0x100
  {
    Min(supported % 0x100, MAX_CHANNELS)
  }

  /** `findTouchDeviceIndex` from slot `i` on: the first of the `count`
      registered slots carrying `mask`. */
  function FindMask(slots: seq<DeviceMapping>, count: nat, mask: byte, i: nat): (r: Option<nat>)
    requires i <= count <= |slots|
    ensures r.Some? ==> i <= r.value < count && slots[r.value].mask == mask
    ensures r.Some? ==> forall j :: i <= j < r.value ==> slots[j].mask != mask
    ensures r.None? <==> forall j :: i <= j < count ==> slots[j].mask != mask
    decreases count - i
  {
    if i == count then None
    else if slots[i].mask == mask then Some(i)
    else FindMask(slots, count, mask, i + 1)
  }

  /** The slot `registerTouchSensor` fills for a new board: mask, channel
      cap, connected, sensitivity 15 below the cap and every channel below
      the cap enabled. The other fields keep what the slot held. */
  function Fresh(d: DeviceMapping, s: Sensor): (f: DeviceMapping)
    requires Shaped(d)
    ensures Shaped(f) && f.mask == s.mask && f.connected && f.hid == d.hid
    ensures f.maxChannels == ChannelCap(s.supported)
    ensures forall c :: 0 <= c < MAX_CHANNELS ==>
      f.sensitivity[c] == if c < f.maxChannels then DEFAULT_SENSITIVITY else d.sensitivity[c]
  {
    var m := ChannelCap(s.supported);
    d.(mask := s.mask, maxChannels := m, connected := true,
       sensitivity := seq(MAX_CHANNELS, c requires 0 <= c < MAX_CHANNELS =>
         if c < m then DEFAULT_SENSITIVITY else d.sensitivity[c]),
       enabled := Pow2(m) - 1)
  }

  /** The registration table as the modelled operations see it. */
  ghost predicate TableShaped(slots: seq<DeviceMapping>, count: nat)
  {
    |slots| == MAX_DEVICES && count <= MAX_DEVICES && forall i :: 0 <= i < |slots| ==> Shaped(slots[i])
  }

  /** What `registerTouchSensor` does: its result, the new slots, the new
      `device_count` and the new list of board objects. */
  function Registered(slots: seq<DeviceMapping>, count: nat, devices: seq<Sensor>, dev: Option<Sensor>)
    : (r: (bool, seq<DeviceMapping>, nat, seq<Sensor>))
    requires TableShaped(slots, count)
    ensures !r.0 <==> dev.None? || count >= MAX_DEVICES || dev.value.mask == 0
    ensures !r.0 ==> r.1 == slots && r.2 == count && r.3 == devices
    ensures TableShaped(r.1, r.2)
  {
    if dev.None? || count >= MAX_DEVICES then (false, slots, count, devices)
    else
      var s := dev.value;
      if s.mask == 0 then (false, slots, count, devices)
      else match FindMask(slots, count, s.mask, 0)
        case Some(i) =>
          (true, slots[i := slots[i].(connected := true)], count, if s in devices then devices else devices + [s])
        case None =>
          (true, slots[count := Fresh(slots[count], s)], count + 1, devices + [s])
  }

  /** The registered slots carry distinct nonzero masks. */
  ghost predicate MasksUnique(slots: seq<DeviceMapping>, count: nat)
    requires count <= |slots|
  {
    (forall i :: 0 <= i < count ==> slots[i].mask != 0) &&
    (forall i, j :: 0 <= i < j < count ==> slots[i].mask != slots[j].mask)
  }

  /** Registration keeps one slot per mask and never a zero mask. */
  lemma RegisterKeepsMasksUnique(slots: seq<DeviceMapping>, count: nat, devices: seq<Sensor>, dev: Option<Sensor>)
    requires TableShaped(slots, count) && MasksUnique(slots, count)
    ensures var r := Registered(slots, count, devices, dev); MasksUnique(r.1, r.2)
  {
  }

  /** A board whose mask is already registered is only marked connected
      (and listed); nothing else in the table changes. */
  lemma RegisterKnownMask(slots: seq<DeviceMapping>, count: nat, devices: seq<Sensor>, s: Sensor, i: nat)
    requires TableShaped(slots, count) && s.mask != 0 && count < MAX_DEVICES
    requires i < count && slots[i].mask == s.mask
    ensures var r := Registered(slots, count, devices, Some(s));
      r.0 && r.2 == count && s in r.3 &&
      exists k :: 0 <= k < count && slots[k].mask == s.mask && r.1 == slots[k := slots[k].(connected := true)]
  {
    var r := Registered(slots, count, devices, Some(s));
    var k := FindMask(slots, count, s.mask, 0);
    assert k.Some?;
    assert r.1 == slots[k.value := slots[k.value].(connected := true)];
  }

  /** A new mask takes the next slot, with at most 24 channels, all of them
      enabled and no others, each at the default sensitivity. */
  lemma RegisterNewMask(slots: seq<DeviceMapping>, count: nat, devices: seq<Sensor>, s: Sensor)
    requires TableShaped(slots, count) && s.mask != 0 && count < MAX_DEVICES
    requires forall j :: 0 <= j < count ==> slots[j].mask != s.mask
    ensures var r := Registered(slots, count, devices, Some(s));
      r.0 && r.2 == count + 1 && r.3 == devices + [s] &&
      r.1[count].mask == s.mask && r.1[count].connected &&
      r.1[count].maxChannels <= MAX_CHANNELS &&
      (forall c: nat :: Bit(r.1[count].enabled, c) <==> c < r.1[count].maxChannels) &&
      (forall c :: 0 <= c < MAX_CHANNELS ==> Sensitivity(r.1, r.2, s.mask, c) == DEFAULT_SENSITIVITY)
  {
    var f := Fresh(slots[count], s);
    var slots' := slots[count := f];
    assert FindMask(slots, count, s.mask, 0).None?;
    assert Registered(slots, count, devices, Some(s)) == (true, slots', count + 1, devices + [s]);
    forall c: nat ensures Bit(f.enabled, c) <==> c < f.maxChannels {
      LowOnes(f.maxChannels, c);
    }
    assert FindMask(slots', count + 1, s.mask, 0) == Some(count) by {
      assert forall j :: 0 <= j < count ==> slots'[j] == slots[j];
      assert FindMask(slots', count + 1, s.mask, count) == Some(count);
    }
  }

  /** As written, registering a board twice is registering it once only
      while the table has room: the eighth new board is accepted and then
      refused, because the count is checked before the known masks. */
  lemma RegisterTwice(slots: seq<DeviceMapping>, count: nat, devices: seq<Sensor>, s: Sensor)
    requires TableShaped(slots, count)
    ensures var r := Registered(slots, count, devices, Some(s));
      r.0 && r.2 < MAX_DEVICES ==> Registered(r.1, r.2, r.3, Some(s)) == r
    ensures var r := Registered(slots, count, devices, Some(s));
      r.0 && r.2 == MAX_DEVICES && count < MAX_DEVICES ==> !Registered(r.1, r.2, r.3, Some(s)).0
  {
    var r := Registered(slots, count, devices, Some(s));
    if r.0 && r.2 < MAX_DEVICES {
      RegisterAgainFinds(slots, count, devices, s);
      var k := FindMask(r.1, r.2, s.mask, 0).value;
      assert r.1[k := r.1[k].(connected := true)] == r.1;
    }
  }

  /** After a successful registration the board's mask is registered and
      connected, and the board listed. */
  lemma RegisterAgainFinds(slots: seq<DeviceMapping>, count: nat, devices: seq<Sensor>, s: Sensor)
    requires TableShaped(slots, count)
    ensures var r := Registered(slots, count, devices, Some(s));
      r.0 ==> FindMask(r.1, r.2, s.mask, 0).Some? && r.1[FindMask(r.1, r.2, s.mask, 0).value].connected && s in r.3
  {
    var r := Registered(slots, count, devices, Some(s));
    if r.0 {
      match FindMask(slots, count, s.mask, 0)
      case Some(i) =>
        SameMasks(slots, r.1, count, s.mask);
      case None =>
        assert forall j :: 0 <= j < count ==> r.1[j].mask != s.mask;
        assert r.1[count].mask == s.mask;
        assert FindMask(r.1, r.2, s.mask, count) == Some(count);
    }
  }

  /** As written: with eight boards stored (as the configuration loader
      restores them, all disconnected), a board whose mask is stored is
      refused and stays disconnected. */
  lemma FullTableRefusesKnownBoard(slots: seq<DeviceMapping>, devices: seq<Sensor>, s: Sensor, i: nat)
    requires TableShaped(slots, MAX_DEVICES) && i < MAX_DEVICES && slots[i].mask == s.mask && s.mask != 0
    requires !slots[i].connected
    ensures var r := Registered(slots, MAX_DEVICES, devices, Some(s));
      !r.0 && !r.1[i].connected && r.3 == devices
  {
  }

  /** The evident intent of `registerTouchSensor`: a board whose mask is
      registered is reconnected whatever the count; only a new mask needs a
      free slot. */
  function RegisteredIntended(slots: seq<DeviceMapping>, count: nat, devices: seq<Sensor>, dev: Option<Sensor>)
    : (r: (bool, seq<DeviceMapping>, nat, seq<Sensor>))
    requires TableShaped(slots, count)
    ensures !r.0 <==> dev.None? || dev.value.mask == 0 || (count >= MAX_DEVICES && FindMask(slots, count, dev.value.mask, 0).None?)
    ensures !r.0 ==> r.1 == slots && r.2 == count && r.3 == devices
    ensures TableShaped(r.1, r.2)
  {
    if dev.None? || dev.value.mask == 0 then (false, slots, count, devices)
    else
      var s := dev.value;
      match FindMask(slots, count, s.mask, 0)
      case Some(i) =>
        (true, slots[i := slots[i].(connected := true)], count, if s in devices then devices else devices + [s])
      case None =>
        if count >= MAX_DEVICES then (false, slots, count, devices)
        else (true, slots[count := Fresh(slots[count], s)], count + 1, devices + [s])
  }

  /** Both registrations agree whenever the table has room. */
  lemma IntendedAgreesBelowEight(slots: seq<DeviceMapping>, count: nat, devices: seq<Sensor>, dev: Option<Sensor>)
    requires TableShaped(slots, count) && count < MAX_DEVICES
    ensures RegisteredIntended(slots, count, devices, dev) == Registered(slots, count, devices, dev)
  {
  }

  /** With the intended order a known board is always reconnected, and
      registering a board twice is registering it once. */
  lemma RegisterTwiceIntended(slots: seq<DeviceMapping>, count: nat, devices: seq<Sensor>, s: Sensor)
    requires TableShaped(slots, count) && MasksUnique(slots, count)
    ensures var r := RegisteredIntended(slots, count, devices, Some(s));
      r.0 ==> FindMask(r.1, r.2, s.mask, 0).Some? && r.1[FindMask(r.1, r.2, s.mask, 0).value].connected && s in r.3
    ensures var r := RegisteredIntended(slots, count, devices, Some(s));
      r.0 ==> RegisteredIntended(r.1, r.2, r.3, Some(s)) == r
  {
    var r := RegisteredIntended(slots, count, devices, Some(s));
    if r.0 {
      match FindMask(slots, count, s.mask, 0)
      case Some(i) =>
        SameMasks(slots, r.1, count, s.mask);
        assert r.1[i := r.1[i].(connected := true)] == r.1;
      case None =>
        assert forall j :: 0 <= j < count ==> r.1[j].mask != s.mask;
        assert r.1[count].mask == s.mask;
        assert FindMask(r.1, r.2, s.mask, count) == Some(count);
        assert r.1[count := r.1[count].(connected := true)] == r.1;
    }
  }

  /** `getSensitivity`: the stored value of a channel below the cap of a
      registered mask, otherwise 15. */
  function Sensitivity(slots: seq<DeviceMapping>, count: nat, mask: byte, channel: nat): (v: byte)
    requires TableShaped(slots, count)
    ensures FindMask(slots, count, mask, 0).None? ==> v == DEFAULT_SENSITIVITY
  {
    match FindMask(slots, count, mask, 0)
    case None => DEFAULT_SENSITIVITY
    case Some(i) => if channel < slots[i].maxChannels then slots[i].sensitivity[channel] else DEFAULT_SENSITIVITY
  }

  /** A per-channel setting applies: the mask is registered and the
      channel lies below its cap. */
  predicate Applies(slots: seq<DeviceMapping>, count: nat, mask: byte, channel: nat)
    requires count <= |slots|
  {
    match FindMask(slots, count, mask, 0)
    case None => false
    case Some(i) => channel < slots[i].maxChannels
  }

  /** `setSensitivity`'s effect on the table: the channel's entry changes
      when the mask is registered and the channel is below its cap. */
  function WithSensitivity(slots: seq<DeviceMapping>, count: nat, mask: byte, channel: nat, v: byte): (r: seq<DeviceMapping>)
    requires TableShaped(slots, count)
    ensures TableShaped(r, count)
  {
    match FindMask(slots, count, mask, 0)
    case None => slots
    case Some(i) =>
      if channel < slots[i].maxChannels then slots[i := slots[i].(sensitivity := slots[i].sensitivity[channel := v])]
      else slots
  }

  /** A set is read back by a get of the same channel; every other channel
      reads as before; a set that does not apply changes no reading. */
  lemma SetThenGetSensitivity(slots: seq<DeviceMapping>, count: nat, mask: byte, channel: nat, v: byte, mask': byte, channel': nat)
    requires TableShaped(slots, count)
    ensures var r := WithSensitivity(slots, count, mask, channel, v);
      Sensitivity(r, count, mask', channel') ==
        if mask' == mask && channel' == channel && Applies(slots, count, mask, channel) then v else Sensitivity(slots, count, mask', channel')
  {
    var r := WithSensitivity(slots, count, mask, channel, v);
    SameMasks(slots, r, count, mask');
  }

  /** Tables with the same masks find the same slots. */
  lemma SameMasks(a: seq<DeviceMapping>, b: seq<DeviceMapping>, count: nat, mask: byte)
    requires count <= |a| == |b|
    requires forall j :: 0 <= j < count ==> a[j].mask == b[j].mask
    ensures FindMask(a, count, mask, 0) == FindMask(b, count, mask, 0)
  {
  }

  /** `setHIDMapping`'s slot choice: the slot already holding `addr`, else
      the first free one, else none. */
  function HidSlot(hid: seq<u32>, addr: u32): (k: Option<nat>)
    ensures k.Some? ==> k.value < |hid| && (hid[k.value] == addr || hid[k.value] == UNUSED)
    ensures k.Some? && hid[k.value] != addr ==> addr !in hid && forall j :: 0 <= j < k.value ==> hid[j] != UNUSED
    ensures k.Some? && hid[k.value] == addr ==> forall j :: 0 <= j < k.value ==> hid[j] != addr
    ensures k.None? <==> addr !in hid && UNUSED !in hid
  {
    match Position(hid, addr, 0)
    case Some(i) => Some(i)
    case None => Position(hid, UNUSED, 0)
  }

  /** The first index at or after `i` holding `x`. */
  function Position(s: seq<u32>, x: u32, i: nat): (r: Option<nat>)
    requires i <= |s|
    ensures r.Some? ==> i <= r.value < |s| && s[r.value] == x
    ensures r.Some? ==> forall j :: i <= j < r.value ==> s[j] != x
    ensures r.None? <==> forall j :: i <= j < |s| ==> s[j] != x
    decreases |s| - i
  {
    if i == |s| then None else if s[i] == x then Some(i) else Position(s, x, i + 1)
  }

  /** The HID slots after `setHIDMapping` stores channel address `addr`. */
  function WithHid(hid: seq<u32>, addr: u32): (r: seq<u32>)
    ensures |r| == |hid|
  {
    match HidSlot(hid, addr)
    case None => hid
    case Some(k) => hid[k := addr]
  }

  /** Storing a channel address puts it in a slot when one is free or
      already its own, never fills a second slot with it, and storing it
      again changes nothing. */
  lemma HidStoreMeaning(hid: seq<u32>, addr: u32)
    requires addr != UNUSED
    ensures var r := WithHid(hid, addr);
      (addr in r <==> addr in hid || UNUSED in hid) &&
      multiset(r)[addr] == (if addr in hid || UNUSED !in hid then multiset(hid)[addr] else 1) &&
      WithHid(r, addr) == r
  {
    var r := WithHid(hid, addr);
    match HidSlot(hid, addr)
    case None =>
      assert r == hid;
    case Some(k) =>
      if hid[k] == addr {
        assert r == hid;
      } else {
        assert multiset(hid)[addr] == 0;
        assert r[k] == addr;
      }
      assert addr in r;
      var k' := HidSlot(r, addr);
      assert k'.Some? && r[k'.value] == addr;
      assert r[k'.value := addr] == r;
  }

  /** `inputmanager_get_config_holder()->touch_device_mappings`,
      `device_count` and `touch_sensor_devices_`. */
  class DeviceTable {
    var slots: array<DeviceMapping>
    var count: nat
    var devices: seq<Sensor>

    ghost predicate Valid()
      reads this, slots
    {
      TableShaped(slots[..], count)
    }

    /** An empty table whose slots start as `blank`. */
    constructor (blank: DeviceMapping)
      requires Shaped(blank)
      ensures Valid() && fresh(slots) && count == 0 && devices == []
      ensures slots[..] == seq(MAX_DEVICES, _ => blank)
    {
      slots := new DeviceMapping[MAX_DEVICES](_ => blank);
      count := 0;
      devices := [];
    }

    /** `registerTouchSensor`. */
    method Register(dev: Option<Sensor>) returns (ok: bool)
      requires Valid()
      modifies this, slots
      ensures Valid() && slots == old(slots)
      ensures (ok, slots[..], count, devices) == Registered(old(slots[..]), old(count), old(devices), dev)
    {
      if dev.None? || count >= MAX_DEVICES {
        return false;
      }
      var s := dev.value;
      if s.mask == 0 {
        return false;
      }
      var i := 0;
      while i < count
        invariant i <= count && slots[..] == old(slots[..])
        invariant FindMask(slots[..], count, s.mask, i) == FindMask(slots[..], count, s.mask, 0)
      {
        if slots[i].mask == s.mask {
          slots[i] := slots[i].(connected := true);
          if s !in devices {
            devices := devices + [s];
          }
          return true;
        }
        i := i + 1;
      }
      devices := devices + [s];
      var d := slots[count];
      var m := ChannelCap(s.supported);
      var sens := d.sensitivity;
      var c := 0;
      while c < m
        invariant c <= m && |sens| == MAX_CHANNELS
        invariant forall k :: 0 <= k < MAX_CHANNELS ==> sens[k] == if k < c then DEFAULT_SENSITIVITY else d.sensitivity[k]
      {
        sens := sens[c := DEFAULT_SENSITIVITY];
        c := c + 1;
      }
      assert sens == Fresh(d, s).sensitivity;
      slots[count] := d.(mask := s.mask, maxChannels := m, connected := true, sensitivity := sens, enabled := Pow2(m) - 1);
      count := count + 1;
      return true;
    }

    /** `setSensitivity`: the table entry, and the board of that mask, if
        listed, gets the value capped at 99. The result is the board and
        the value pushed to it, if any. */
    method SetSensitivity(mask: byte, channel: nat, v: byte) returns (pushed: Option<(Sensor, byte)>)
      requires Valid()
      modifies slots
      ensures Valid()
      ensures slots[..] == WithSensitivity(old(slots[..]), count, mask, channel, v)
      ensures pushed.Some? ==> pushed.value.0 in devices && pushed.value.0.mask == mask && pushed.value.1 == Min(v, 99)
      ensures pushed.Some? <==> Applies(old(slots[..]), count, mask, channel) && exists k :: 0 <= k < |devices| && devices[k].mask == mask
    {
      var i := 0;
      while i < count
        invariant i <= count && slots[..] == old(slots[..])
        invariant FindMask(slots[..], count, mask, i) == FindMask(slots[..], count, mask, 0)
      {
        if slots[i].mask == mask {
          if channel < slots[i].maxChannels {
            slots[i] := slots[i].(sensitivity := slots[i].sensitivity[channel := v]);
            var j := 0;
            while j < |devices|
              invariant j <= |devices|
              invariant forall k :: 0 <= k < j ==> devices[k].mask != mask
            {
              if devices[j].mask == mask {
                return Some((devices[j], if v > 99 then 99 else v));
              }
              j := j + 1;
            }
            return None;
          }
          return None;
        }
        i := i + 1;
      }
      return None;
    }

    /** `setHIDMapping`: the HID slot of a channel below the cap of a
        registered mask gets the channel's address `addr`. */
    method SetHidMapping(mask: byte, channel: nat, addr: u32)
      requires Valid()
      modifies slots
      ensures Valid()
      ensures FindMask(old(slots[..]), count, mask, 0).None? ==> slots[..] == old(slots[..])
      ensures FindMask(old(slots[..]), count, mask, 0).Some? ==>
        var i := FindMask(old(slots[..]), count, mask, 0).value;
        slots[..] == if channel < old(slots[i]).maxChannels
          then old(slots[..])[i := old(slots[i]).(hid := WithHid(old(slots[i]).hid, addr))]
          else old(slots[..])
    {
      var i := 0;
      while i < count
        invariant i <= count && slots[..] == old(slots[..])
        invariant FindMask(slots[..], count, mask, i) == FindMask(slots[..], count, mask, 0)
      {
        if slots[i].mask == mask {
          if channel < slots[i].maxChannels {
            var hid := slots[i].hid;
            var target := -1;
            var k := 0;
            while k < HID_SLOTS
              invariant k <= HID_SLOTS
              invariant Position(hid, addr, k) == Position(hid, addr, 0)
            {
              if hid[k] == addr {
                target := k;
                break;
              }
              k := k + 1;
            }
            if target == -1 {
              k := 0;
              while k < HID_SLOTS
                invariant k <= HID_SLOTS
                invariant Position(hid, UNUSED, k) == Position(hid, UNUSED, 0)
              {
                if hid[k] == UNUSED {
                  target := k;
                  break;
                }
                k := k + 1;
              }
            }
            if target != -1 {
              slots[i] := slots[i].(hid := hid[target := addr]);
            }
          }
          return;
        }
        i := i + 1;
      }
    }
  }

  /** `getSerialBindingArea`: indices 0-33 name areas A1 (1) to E8 (34),
      any other index `MAI2_NO_USED` (0). */
  function BindingArea(index: byte): (area: nat)
    ensures area <= 34
    ensures area == 0 <==> index >= 34
  {
    if index < 34 then 1 + index else 0
  }

  /** The binding order visits every area once: area `a` is the one at
      index `a - 1`, and no two indices share an area. */
  lemma BindingAreaOrder(i: byte, j: byte, a: nat)
    requires 1 <= a <= 34
    ensures BindingArea((a - 1) as byte) == a
    ensures BindingArea(i) == BindingArea(j) && BindingArea(i) != 0 ==> i == j
  {
  }

  /** One `delay_buffer_` row: the time in microseconds and the two serial
      state words. */
  datatype DelayEntry = DelayEntry(stamp: u32, state1: u32, state2: u32)

  /** The row looked at in step `i` of the delayed read, newest first. */
  function DelaySlot(head: nat, n: nat, i: nat): (s: nat)
    requires n >= 1
    ensures s < n
  {
    (head - i - 1) % n
  }

  /** Steps `i`.. of the delayed read over the `count` stored rows: the
      first row, newest first, stamped at or before `target`. */
  function DelayedFrom(q: seq<DelayEntry>, head: nat, count: nat, target: u32, i: nat): (r: Option<DelayEntry>)
    requires |q| >= 1 && i <= count <= |q|
    ensures r.Some? ==> exists j :: i <= j < count && q[DelaySlot(head, |q|, j)] == r.value && r.value.stamp <= target
    ensures r.None? <==> forall j :: i <= j < count ==> q[DelaySlot(head, |q|, j)].stamp > target
    decreases count - i
  {
    if i == count then None
    else if q[DelaySlot(head, |q|, i)].stamp <= target then Some(q[DelaySlot(head, |q|, i)])
    else DelayedFrom(q, head, count, target, i + 1)
  }

  /** `time_us_32() - delay_ms * 1000U` in 32-bit arithmetic. */
  function Target(now: u32, delayMs: byte): u32
  {
    (now - delayMs * 1000) % 0x1_0000_0000
  }

  /** The buffer step of `storeDelayedSerialState`: the head advances
      cyclically and the count saturates at the size. */
  function Advance(head: nat, count: nat, n: nat): (r: (nat, nat))
    requires n >= 1
  {
    ((head + 1) % n, if count < n then count + 1 else count)
  }

  /** `k` stores into an emptied buffer leave the head at `k mod n` and the
      count at `min(k, n)`. */
  function AdvanceTimes(n: nat, k: nat): (nat, nat)
    requires n >= 1
  {
    if k == 0 then (0, 0) else var p := AdvanceTimes(n, k - 1); Advance(p.0, p.1, n)
  }

  lemma {:induction false} StoresFromEmpty(n: nat, k: nat)
    requires n >= 1
    ensures AdvanceTimes(n, k) == (k % n, Min(k, n))
  {
    if k > 0 {
      StoresFromEmpty(n, k - 1);
      ModSucc(k - 1, n);
    }
  }

  lemma ModSucc(x: nat, n: nat)
    requires n >= 1
    ensures (x % n + 1) % n == (x + 1) % n
  {
    var q := x / n;
    var h := x % n;
    assert x == n * q + h;
    if h + 1 < n {
      DivModUnique(x + 1, n, q, h + 1);
      DivModUnique(h + 1, n, 0, h + 1);
    } else {
      DivModUnique(x + 1, n, q + 1, 0);
      DivModUnique(h + 1, n, 1, 0);
    }
  }

  /** A row just stored is the newest and is found by a read whose target
      is not earlier than its stamp. */
  lemma StoreThenRead(q: seq<DelayEntry>, head: nat, count: nat, e: DelayEntry, target: u32)
    requires |q| >= 1 && head < |q| && count <= |q| && e.stamp <= target
    ensures var a := Advance(head, count, |q|);
      DelayedFrom(q[head := e], a.0, a.1, target, 0) == Some(e)
  {
    var n := |q|;
    var a := Advance(head, count, n);
    var h := a.0;
    if head + 1 < n {
      assert h == head + 1 by { DivModUnique(head + 1, n, 0, head + 1); }
      assert (h - 0 - 1) % n == head by { DivModUnique(head, n, 0, head); }
    } else {
      assert h == 0 by { DivModUnique(head + 1, n, 1, 0); }
      assert (h - 0 - 1) % n == head by { DivModUnique(-1, n, -1, head); }
    }
    assert DelaySlot(h, n, 0) == head;
  }

  /** `delay_buffer_`, its head and count, and the configured delay. */
  class DelayBuffer {
    var entries: array<DelayEntry>
    var head: nat
    var count: nat
    var delayMs: byte

    ghost predicate Valid()
      reads this
    {
      entries.Length >= 1 && head < entries.Length && count <= entries.Length
    }

    /** An empty buffer of `DELAY_BUFFER_SIZE` rows. */
    constructor (size: nat)
      requires size >= 1
      ensures Valid() && fresh(entries) && entries.Length == size
      ensures head == 0 && count == 0 && delayMs == 0
    {
      entries := new DelayEntry[size](_ => DelayEntry(0, 0, 0));
      head := 0;
      count := 0;
      delayMs := 0;
    }

    /** `setTouchResponseDelay`: the delay is capped at 100 ms and the
        buffer emptied. */
    method SetTouchResponseDelay(d: byte)
      requires Valid()
      modifies this
      ensures Valid() && entries == old(entries)
      ensures delayMs == Min(d, 100) && delayMs <= 100
      ensures head == 0 && count == 0
    {
      delayMs := if d > 100 then 100 else d;
      head := 0;
      count := 0;
    }

    /** The buffer half of `storeDelayedSerialState`: the computed state is
        stored at the head, which then advances. */
    method Store(e: DelayEntry)
      requires Valid()
      modifies this, entries
      ensures Valid() && entries == old(entries) && delayMs == old(delayMs)
      ensures entries[..] == old(entries[..])[old(head) := e]
      ensures (head, count) == Advance(old(head), old(count), entries.Length)
    {
      entries[head] := e;
      head := (head + 1) % entries.Length;
      if count < entries.Length {
        count := count + 1;
      }
    }

    /** `getDelayedSerialState`: with no delay the live state `live`;
        otherwise the newest stored row stamped at or before `now` less the
        delay, or nothing (the all-zero state). */
    method DelayedState(now: u32, live: (u32, u32)) returns (found: bool, state: (u32, u32))
      requires Valid()
      ensures delayMs == 0 ==> found && state == live
      ensures delayMs != 0 ==>
        var r := DelayedFrom(entries[..], head, count, Target(now, delayMs), 0);
        found == r.Some? && state == if r.Some? then (r.value.state1, r.value.state2) else (0, 0)
    {
      if delayMs == 0 {
        return true, live;
      }
      var target := Target(now, delayMs);
      ghost var q := entries[..];
      var n := entries.Length;
      var idx := head;
      var i := 0;
      while i < count
        invariant i <= count && idx == Behind(head, n, i)
        invariant DelayedFrom(q, head, count, target, i) == DelayedFrom(q, head, count, target, 0)
      {
        SlotStep(head, n, i);
        idx := (idx + n - 1) % n;
        if entries[idx].stamp <= target {
          return true, (entries[idx].state1, entries[idx].state2);
        }
        i := i + 1;
      }
      return false, (0, 0);
    }
  }

  /** The read index after `i` steps back from the head. */
  function Behind(head: nat, n: nat, i: nat): (idx: nat)
    requires n >= 1
  {
    if i == 0 then head else DelaySlot(head, n, i - 1)
  }

  /** Stepping the read index back one row modulo the size reaches the
      next row of the search. */
  lemma SlotStep(head: nat, n: nat, i: nat)
    requires n >= 1 && head < n
    ensures (Behind(head, n, i) + n - 1) % n == DelaySlot(head, n, i)
    ensures Behind(head, n, i) < n
  {
    StepBackOne(head, n, i);
    var a := head - i;
    var m := a % n;
    assert a == n * (a / n) + m;
    if m > 0 {
      DivModUnique(m + n - 1, n, 1, m - 1);
      DivModUnique(a - 1, n, a / n, m - 1);
    } else {
      DivModUnique(m + n - 1, n, 0, n - 1);
      DivModUnique(a - 1, n, a / n - 1, n - 1);
    }
  }

  lemma StepBackOne(head: nat, n: nat, i: nat)
    requires n >= 1 && head < n
    ensures Behind(head, n, i) == (head - i) % n
  {
    if i > 0 {
      var a := head - i;
      var b := head - (i - 1) - 1;
      assert a == b;
    } else {
      DivModUnique(head, n, 0, head);
    }
  }

  /** A board as `getCalibrationProgress` sees it. */
  datatype CalSensor = CalSensor(supportsCalibration: bool, progress: byte)

  /** The boards that take part: listed, non-null and calibrating. */
  predicate Calibrating(s: Option<CalSensor>)
  {
    s.Some? && s.value.supportsCalibration
  }

  /** The number of calibrating boards and the sum of their progress. */
  function Tally(sensors: seq<Option<CalSensor>>): (t: (nat, nat))
    ensures t.1 <= 255 * t.0
  {
    if sensors == [] then (0, 0)
    else
      var rest := Tally(sensors[..|sensors| - 1]);
      var s := sensors[|sensors| - 1];
      if Calibrating(s) then (rest.0 + 1, rest.1 + s.value.progress) else rest
  }

  /** The result of `getCalibrationProgress`. */
  function Progress(sensors: seq<Option<CalSensor>>): (p: byte)
  {
    var t := Tally(sensors);
    if t.0 == 0 then 255 else Min(t.1 / t.0, 255)
  }

  /** With no calibrating board the progress is 255; the cap at 255 never
      bites, since the average of bytes is a byte; and boards all at the
      same progress give that progress. */
  lemma ProgressMeaning(sensors: seq<Option<CalSensor>>, p: byte)
    ensures Tally(sensors).0 == 0 ==> Progress(sensors) == 255
    ensures Tally(sensors).0 > 0 ==> Progress(sensors) == Tally(sensors).1 / Tally(sensors).0
    ensures Tally(sensors).0 > 0 && (forall i :: 0 <= i < |sensors| && Calibrating(sensors[i]) ==> sensors[i].value.progress == p)
      ==> Progress(sensors) == p
  {
    var t := Tally(sensors);
    if t.0 > 0 {
      DivBound(t.1, t.0);
      if forall i :: 0 <= i < |sensors| && Calibrating(sensors[i]) ==> sensors[i].value.progress == p {
        UniformTally(sensors, p);
        UniformAverage(t.1, t.0, p);
      }
    }
  }

  lemma UniformAverage(sum: nat, c: nat, p: nat)
    requires c > 0 && sum == p * c
    ensures sum / c == p
  {
    DivModUnique(sum, c, p, 0);
  }

  lemma DivBound(s: nat, c: nat)
    requires c > 0 && s <= 255 * c
    ensures s / c <= 255
  {
  }

  lemma {:induction false} UniformTally(sensors: seq<Option<CalSensor>>, p: byte)
    requires forall i :: 0 <= i < |sensors| && Calibrating(sensors[i]) ==> sensors[i].value.progress == p
    ensures Tally(sensors).1 == p * Tally(sensors).0
    decreases |sensors|
  {
    if sensors != [] {
      UniformTally(sensors[..|sensors| - 1], p);
    }
  }

  /** `getCalibrationProgress`: the loop over the listed boards. */
  method CalibrationProgress(sensors: seq<Option<CalSensor>>) returns (r: byte)
    ensures r == Progress(sensors)
  {
    var total: nat := 0;
    var calibrating: nat := 0;
    var i := 0;
    while i < |sensors|
      invariant i <= |sensors| && (calibrating, total) == Tally(sensors[..i])
    {
      assert sensors[..i + 1][..i] == sensors[..i];
      var s := sensors[i];
      if s.Some? && s.value.supportsCalibration {
        total := total + s.value.progress;
        calibrating := calibrating + 1;
      }
      i := i + 1;
    }
    assert sensors[..i] == sensors;
    if calibrating == 0 {
      return 255;
    }
    var average := total / calibrating;
    return if average > 255 then 255 else average;
  }
}
